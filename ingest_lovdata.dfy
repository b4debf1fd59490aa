/**
 * The text handling of the Lovdata statute ingestion: reading a LOV
 * identifier, normalising section numbers and dates, telling the status of a
 * statute from its metadata, flattening table rows, collecting the text of a
 * provision, and merging provisions that carry the same reference.
 *
 * The DOM is replaced by values: a provision node is its `data-id`, the
 * `data-id` of the chapter around it, the raw texts of its heading and title,
 * and its content blocks, each a paragraph text or a table of rows of cell
 * texts.
 */
module IngestLovdata {
  import opened Wrappers
  import opened Text
  import opened Scan

  // ---------------------------------------------------------------------------
  // normalizeSectionRef
  // ---------------------------------------------------------------------------

  /** `[A-Za-zÆØÅæøå]` */
  predicate IsRefLetter(c: char) {
    IsAsciiLetter(c) || c == 'Æ' || c == 'Ø' || c == 'Å' || c == 'æ' || c == 'ø' || c == 'å'
  }

  /** `value.replace(/[.§]/g, '')` */
  function StripMarks(s: string): (r: string)
    ensures '.' !in r && '§' !in r
    decreases |s|
  {
    if s == [] then []
    else (if s[0] == '.' || s[0] == '§' then [] else [s[0]]) + StripMarks(s[1..])
  }

  /** `^(\d+)\s*([A-Za-zÆØÅæøå])$`: the number and the letter. */
  function NumberLetter(s: string): (r: Option<(string, char)>)
    ensures r.Some? ==> r.value.0 != [] && AllDigits(r.value.0) && IsRefLetter(r.value.1)
  {
    var d := DigitRun(s, 0);
    var w := SpaceRun(s, d);
    if 0 < d && w + 1 == |s| && IsRefLetter(s[w]) then
      assert forall k :: 0 <= k < d ==> s[..d][k] == s[k];
      Some((s[..d], s[w]))
    else None
  }

  /** `normalizeSectionRef`: without dots and section signs, trimmed, and "5A" or "5 a" written "5 a". */
  function NormalizeSectionRef(value: string): (r: string)
    ensures '.' !in r && '§' !in r
    ensures r == [] || (!IsSpace(r[0]) && !IsSpace(r[|r| - 1]))
  {
    var cleaned := Trim(StripMarks(value));
    TrimKeepsOut(StripMarks(value), '.');
    TrimKeepsOut(StripMarks(value), '§');
    match NumberLetter(cleaned)
    case Some((n, l)) =>
      assert n[0] != '.' && n[0] != '§' && !IsSpace(n[0]);
      n + " " + [ToLowerChar(l)]
    case None => cleaned
  }

  /** Trimming adds no character. */
  lemma TrimKeepsOut(s: string, c: char)
    requires c !in s
    ensures c !in Trim(s)
  {
    var a := SpaceRun(s, 0);
    var b := SpaceRunBack(s, |s|);
    if a < b {
      forall k | 0 <= k < b - a ensures s[a..b][k] != c {
        assert s[a..b][k] == s[a + k];
      }
    }
  }

  /** Nothing to strip in a string without dots and section signs. */
  lemma {:induction false} StripMarksKeeps(s: string)
    requires '.' !in s && '§' !in s
    ensures StripMarks(s) == s
    decreases |s|
  {
    if s != [] {
      assert s[0] in s;
      assert forall c :: c in s[1..] ==> c in s;
      StripMarksKeeps(s[1..]);
    }
  }

  /** A letter keeps being a section letter when lower-cased. */
  lemma LowerRefLetter(l: char)
    requires IsRefLetter(l)
    ensures IsRefLetter(ToLowerChar(l)) && ToLowerChar(ToLowerChar(l)) == ToLowerChar(l)
  {
  }

  /** A number, whitespace and a letter are written as the number, one space and the lower-case letter. */
  lemma SectionRefOfLetter(n: string, ws: string, l: char)
    requires n != [] && AllDigits(n) && AllSpace(ws) && IsRefLetter(l)
    ensures NormalizeSectionRef(n + ws + [l]) == n + " " + [ToLowerChar(l)]
  {
    var s := n + ws + [l];
    LetterRefClean(n, ws, l, s);
    LetterRefSplit(n, ws, l, s);
  }

  lemma LetterRefClean(n: string, ws: string, l: char, s: string)
    requires n != [] && AllDigits(n) && AllSpace(ws) && IsRefLetter(l) && s == n + ws + [l]
    ensures Trim(StripMarks(s)) == s
  {
    forall c | c in s ensures c != '.' && c != '§' {
      var k :| 0 <= k < |s| && s[k] == c;
      if k < |n| {
        assert s[k] == n[k];
      } else if k < |n| + |ws| {
        assert s[k] == ws[k - |n|];
      }
    }
    StripMarksKeeps(s);
    assert s[0] == n[0];
    assert s[|s| - 1] == l;
    TrimKeepsTrimmed(s);
  }

  lemma LetterRefSplit(n: string, ws: string, l: char, s: string)
    requires n != [] && AllDigits(n) && AllSpace(ws) && IsRefLetter(l) && s == n + ws + [l]
    ensures NumberLetter(s) == Some((n, l))
  {
    forall k | 0 <= k < |n| ensures IsDigit(s[k]) {
      assert s[k] == n[k];
    }
    if ws != [] {
      assert s[|n|] == ws[0];
    }
    DigitRunExact(s, 0, |n|);
    forall k | |n| <= k < |n| + |ws| ensures IsSpace(s[k]) {
      assert s[k] == ws[k - |n|];
    }
    SpaceRunExact(s, |n|, |n| + |ws|);
    assert s[..|n|] == n;
  }

  /** A plain number stays as it is. */
  lemma SectionRefOfNumber(n: string)
    requires n != [] && AllDigits(n)
    ensures NormalizeSectionRef(n) == n
  {
    assert '.' !in n && '§' !in n by {
      forall c | c in n ensures IsDigit(c) {
        var k :| 0 <= k < |n| && n[k] == c;
      }
    }
    StripMarksKeeps(n);
    TrimKeepsTrimmed(n);
    DigitRunExact(n, 0, |n|);
  }

  /** Normalising a section reference twice changes nothing more. */
  lemma SectionRefIdempotent(value: string)
    ensures NormalizeSectionRef(NormalizeSectionRef(value)) == NormalizeSectionRef(value)
  {
    var cleaned := Trim(StripMarks(value));
    match NumberLetter(cleaned)
    case Some((n, l)) =>
      LetterRefAgain(n, l);
    case None =>
      PlainRefAgain(value, cleaned);
  }

  lemma LetterRefAgain(n: string, l: char)
    requires n != [] && AllDigits(n) && IsRefLetter(l)
    ensures NormalizeSectionRef(n + " " + [ToLowerChar(l)]) == n + " " + [ToLowerChar(l)]
  {
    LowerRefLetter(l);
    SectionRefOfLetter(n, " ", ToLowerChar(l));
  }

  lemma PlainRefAgain(value: string, cleaned: string)
    requires cleaned == Trim(StripMarks(value)) && NumberLetter(cleaned).None?
    ensures NormalizeSectionRef(value) == cleaned && NormalizeSectionRef(cleaned) == cleaned
  {
    TrimKeepsOut(StripMarks(value), '.');
    TrimKeepsOut(StripMarks(value), '§');
    StripMarksKeeps(cleaned);
    if cleaned != [] {
      TrimKeepsTrimmed(cleaned);
    }
  }

  // ---------------------------------------------------------------------------
  // parseNorwegianDate
  // ---------------------------------------------------------------------------

  /** `YYYY-MM-DD` */
  predicate IsIsoDate(s: string) {
    |s| == 10 && DigitsAt(s, 0, 4) && s[4] == '-' && DigitsAt(s, 5, 2) && s[7] == '-' && DigitsAt(s, 8, 2)
  }

  /** `\b(\d{2})\.(\d{2})\.(\d{4})\b` at `k`. */
  function DottedDateAt(s: string, k: nat): (r: Option<MatchAt>)
    ensures r.Some? ==> k + 10 <= |s| && r.value.len == 10 && |r.value.groups| == 4
    ensures r.Some? ==> (r.value.groups[1] == Some(s[k..k + 2]) && r.value.groups[2] == Some(s[k + 3..k + 5])
      && r.value.groups[3] == Some(s[k + 6..k + 10]))
    ensures r.Some? ==> DigitsAt(s, k, 2) && DigitsAt(s, k + 3, 2) && DigitsAt(s, k + 6, 4)
  {
    if DigitsAt(s, k, 2) && (k == 0 || !IsWordChar(s[k - 1]))
      && CharAt(s, k + 2, '.') && DigitsAt(s, k + 3, 2) && CharAt(s, k + 5, '.') && DigitsAt(s, k + 6, 4)
      && (k + 10 == |s| || !IsWordChar(s[k + 10]))
    then Some(MatchAt(10, [Some(s[k..k + 10]), Some(s[k..k + 2]), Some(s[k + 3..k + 5]), Some(s[k + 6..k + 10])]))
    else None
  }

  /** `parseNorwegianDate`: the first `DD.MM.YYYY` of the text, written `YYYY-MM-DD`. */
  function ParseNorwegianDate(value: Option<string>): (r: Option<string>)
    ensures !Truthy(value) ==> r.None?
    ensures r.Some? ==> IsIsoDate(r.value)
    ensures Truthy(value) ==> (r.None? <==> forall k :: !MatchesAt(DottedDateAt, value.value, k))
  {
    if !Truthy(value) then None
    else
      match FirstMatch(DottedDateAt, value.value, 0)
      case None => None
      case Some(h) =>
        var s := value.value;
        var k := h.start;
        IsoParts(s[k + 6..k + 10], s[k + 3..k + 5], s[k..k + 2], s, k);
        Some(s[k + 6..k + 10] + "-" + s[k + 3..k + 5] + "-" + s[k..k + 2])
  }

  lemma IsoParts(y: string, m: string, d: string, s: string, k: nat)
    requires k + 10 <= |s| && DigitsAt(s, k, 2) && DigitsAt(s, k + 3, 2) && DigitsAt(s, k + 6, 4)
    requires y == s[k + 6..k + 10] && m == s[k + 3..k + 5] && d == s[k..k + 2]
    ensures IsIsoDate(y + "-" + m + "-" + d)
  {
    var r := y + "-" + m + "-" + d;
    forall i | 0 <= i < 4 ensures IsDigit(r[i]) {
      assert r[i] == s[k + 6 + i];
    }
    forall i | 5 <= i < 7 ensures IsDigit(r[i]) {
      assert r[i] == s[k + 3 + i - 5];
    }
    forall i | 8 <= i < 10 ensures IsDigit(r[i]) {
      assert r[i] == s[k + i - 8];
    }
  }

  /** The Norwegian way of writing an ISO date: `DD.MM.YYYY`. */
  function DottedDate(iso: string): (r: string)
    requires IsIsoDate(iso)
    ensures |r| == 10
  {
    iso[8..10] + "." + iso[5..7] + "." + iso[0..4]
  }

  /** A date written `DD.MM.YYYY` reads back as the ISO date it was written from. */
  lemma NorwegianDateRoundTrip(iso: string)
    requires IsIsoDate(iso)
    ensures ParseNorwegianDate(Some(DottedDate(iso))) == Some(iso)
  {
    var s := DottedDate(iso);
    DottedDigits(iso, s);
    assert DottedDateAt(s, 0).Some?;
    FirstMatchAt(DottedDateAt, s, 0, 0);
    assert s[6..10] == iso[0..4] && s[3..5] == iso[5..7] && s[0..2] == iso[8..10];
    assert iso == iso[0..4] + "-" + iso[5..7] + "-" + iso[8..10];
  }

  /** In a longer text the date is read from the first `DD.MM.YYYY`, its parts reordered. */
  lemma NorwegianDateFirst(s: string, k: nat)
    requires MatchesAt(DottedDateAt, s, k)
    requires forall j :: 0 <= j < k ==> !MatchesAt(DottedDateAt, s, j)
    ensures k + 10 <= |s|
    ensures ParseNorwegianDate(Some(s)) == Some(s[k + 6..k + 10] + "-" + s[k + 3..k + 5] + "-" + s[k..k + 2])
  {
    FirstMatchAt(DottedDateAt, s, 0, k);
  }

  lemma DottedDigits(iso: string, s: string)
    requires IsIsoDate(iso) && s == DottedDate(iso)
    ensures DigitsAt(s, 0, 2) && s[2] == '.' && DigitsAt(s, 3, 2) && s[5] == '.' && DigitsAt(s, 6, 4)
  {
    forall i | 0 <= i < 2 ensures IsDigit(s[i]) {
      assert s[i] == iso[8 + i];
    }
    forall i | 3 <= i < 5 ensures IsDigit(s[i]) {
      assert s[i] == iso[5 + i - 3];
    }
    forall i | 6 <= i < 10 ensures IsDigit(s[i]) {
      assert s[i] == iso[i - 6];
    }
  }

  // ---------------------------------------------------------------------------
  // parseLovIdentifier
  // ---------------------------------------------------------------------------

  datatype LovIdentifier = LovIdentifier(canonicalId: string, slug: string, issuedDate: string)

  predicate AllAlnum(s: string) { forall i :: 0 <= i < |s| ==> IsAsciiAlnum(s[i]) }

  /** `LOV_ID_PATTERN` (`i` flag): year, month, day and the optional suffix. */
  function LovIdParts(s: string): (r: Option<(string, string, string, Option<string>)>)
    ensures r.Some? ==> (|r.value.0| == 4 && AllDigits(r.value.0) && |r.value.1| == 2 && AllDigits(r.value.1)
      && |r.value.2| == 2 && AllDigits(r.value.2))
    ensures r.Some? && r.value.3.Some? ==> r.value.3.value != [] && AllAlnum(r.value.3.value)
  {
    if LitAtCI(s, 0, "lov-") && DigitsAt(s, 4, 4) && CharAt(s, 8, '-') && DigitsAt(s, 9, 2)
      && CharAt(s, 11, '-') && DigitsAt(s, 12, 2)
    then
      SliceDigits(s, 4, 8);
      SliceDigits(s, 9, 11);
      SliceDigits(s, 12, 14);
      if |s| == 14 then Some((s[4..8], s[9..11], s[12..14], None))
      else if s[14] == '-' && |s| > 15 && AllAlnum(s[15..]) then Some((s[4..8], s[9..11], s[12..14], Some(s[15..])))
      else None
    else None
  }

  /** `parseLovIdentifier`: the canonical id, the URL slug (suffix in lower case) and the issue date; an error otherwise. */
  function ParseLovIdentifier(identifier: string): (r: Result<LovIdentifier, string>)
    ensures r.Failure? <==> LovIdParts(identifier).None?
    ensures r.Success? ==> IsIsoDate(r.value.issuedDate) && LitAt(r.value.slug, 0, r.value.issuedDate)
    ensures r.Success? ==> LitAt(r.value.canonicalId, 0, "LOV-") && r.value.canonicalId == Upper("LOV-" + r.value.slug)
  {
    match LovIdParts(identifier)
    case None => Failure("Invalid identifier \"" + identifier + "\". Expected LOV-YYYY-MM-DD[-NNN].")
    case Some((year, month, day, suffix)) =>
      var date := year + "-" + month + "-" + day;
      var slug := if Truthy(suffix) then date + "-" + Lower(suffix.value) else date;
      DateShape(year, month, day);
      assert slug[..10] == date;
      UpperLovPrefix(slug);
      Success(LovIdentifier(Upper("LOV-" + slug), slug, date))
  }

  lemma DateShape(year: string, month: string, day: string)
    requires |year| == 4 && AllDigits(year) && |month| == 2 && AllDigits(month) && |day| == 2 && AllDigits(day)
    ensures IsIsoDate(year + "-" + month + "-" + day)
  {
    var r := year + "-" + month + "-" + day;
    forall i | 0 <= i < 4 ensures IsDigit(r[i]) {
      assert r[i] == year[i];
    }
    forall i | 5 <= i < 7 ensures IsDigit(r[i]) {
      assert r[i] == month[i - 5];
    }
    forall i | 8 <= i < 10 ensures IsDigit(r[i]) {
      assert r[i] == day[i - 8];
    }
  }

  lemma UpperLovPrefix(slug: string)
    ensures LitAt(Upper("LOV-" + slug), 0, "LOV-")
  {
    var u := Upper("LOV-" + slug);
    assert u[0] == 'L' && u[1] == 'O' && u[2] == 'V' && u[3] == '-';
    assert u[..4] == "LOV-";
  }

  /** The canonical id is itself an identifier, and reading it gives the same result. */
  lemma LovIdentifierCanonical(identifier: string)
    requires ParseLovIdentifier(identifier).Success?
    ensures ParseLovIdentifier(ParseLovIdentifier(identifier).value.canonicalId) == ParseLovIdentifier(identifier)
  {
    var (year, month, day, suffix) := LovIdParts(identifier).value;
    var date := year + "-" + month + "-" + day;
    var slug := if Truthy(suffix) then date + "-" + Lower(suffix.value) else date;
    var c := Upper("LOV-" + slug);
    DateShape(year, month, day);
    UpperDate(date);
    CanonicalParts(date, slug, c, suffix);
    if Truthy(suffix) {
      var u := Upper(Lower(suffix.value));
      LowerUpperLower(suffix.value);
      assert Lower(u) == Lower(suffix.value);
    }
  }

  /** Upper-casing leaves a date as it is. */
  lemma UpperDate(date: string)
    requires IsIsoDate(date)
    ensures Upper(date) == date
  {
    forall i | 0 <= i < 10 ensures Upper(date)[i] == date[i] {
      assert IsDigit(date[i]) || date[i] == '-';
    }
  }

  /** An alphanumeric suffix read back from the upper-cased slug is lower-cased to itself. */
  lemma LowerUpperLower(s: string)
    requires AllAlnum(s)
    ensures AllAlnum(Upper(Lower(s))) && Lower(Upper(Lower(s))) == Lower(s) && Upper(Lower(s)) != [] <==> s != []
  {
    var u := Upper(Lower(s));
    forall i | 0 <= i < |s| ensures IsAsciiAlnum(u[i]) && ToLowerChar(u[i]) == ToLowerChar(s[i]) {
      assert u[i] == ToUpperChar(ToLowerChar(s[i]));
    }
  }

  /** `LOV-`, a date, and what follows it. */
  predicate IdLayout(c: string, date: string, tail: string) {
    |date| == 10 && |c| == 14 + |tail| && c[..4] == "LOV-" && c[4..14] == date && c[14..] == tail
  }

  /** The pieces of a canonical id: `LOV-`, the date, and for a suffix `-` and the suffix upper-cased. */
  lemma CanonicalParts(date: string, slug: string, c: string, suffix: Option<string>)
    requires IsIsoDate(date) && Upper(date) == date
    requires suffix.Some? ==> suffix.value != [] && AllAlnum(suffix.value)
    requires slug == if Truthy(suffix) then date + "-" + Lower(suffix.value) else date
    requires c == Upper("LOV-" + slug)
    ensures LovIdParts(c) == Some((date[0..4], date[5..7], date[8..10],
      if Truthy(suffix) then Some(Upper(Lower(suffix.value))) else None))
    ensures date == date[0..4] + "-" + date[5..7] + "-" + date[8..10]
  {
    var tail := if Truthy(suffix) then "-" + Upper(Lower(suffix.value)) else "";
    CanonicalLayout(date, slug, c, suffix, tail);
    if Truthy(suffix) {
      LowerUpperLower(suffix.value);
      assert tail[1..] == Upper(Lower(suffix.value));
    }
    LovIdPartsOfLayout(c, date, tail);
  }

  lemma CanonicalLayout(date: string, slug: string, c: string, suffix: Option<string>, tail: string)
    requires IsIsoDate(date) && Upper(date) == date
    requires slug == if Truthy(suffix) then date + "-" + Lower(suffix.value) else date
    requires c == Upper("LOV-" + slug)
    requires tail == if Truthy(suffix) then "-" + Upper(Lower(suffix.value)) else ""
    ensures IdLayout(c, date, tail)
  {
    UpperLovPrefix(slug);
    assert c[..4] == "LOV-";
    forall i | 0 <= i < 10 ensures c[4 + i] == date[i] {
      assert c[4 + i] == ToUpperChar(slug[i]);
      assert slug[i] == date[i];
      assert Upper(date)[i] == ToUpperChar(date[i]);
    }
    if Truthy(suffix) {
      forall i | 0 <= i < |tail| ensures c[14 + i] == tail[i] {
        assert c[14 + i] == ToUpperChar(slug[10 + i]);
      }
    }
  }

  lemma LovIdPartsOfLayout(c: string, date: string, tail: string)
    requires IdLayout(c, date, tail) && IsIsoDate(date)
    requires tail == [] || (tail[0] == '-' && |tail| > 1 && AllAlnum(tail[1..]))
    ensures LovIdParts(c) == Some((date[0..4], date[5..7], date[8..10], if tail == [] then None else Some(tail[1..])))
    ensures date == date[0..4] + "-" + date[5..7] + "-" + date[8..10]
  {
    assert c[0..4] == "LOV-";
    assert LitAtCI(c, 0, "lov-");
    forall i | 0 <= i < 10 ensures c[4 + i] == date[i] {
      assert c[4..14][i] == c[4 + i];
    }
    assert c[4..8] == date[0..4];
    assert c[9..11] == date[5..7];
    assert c[12..14] == date[8..10];
    if tail != [] {
      assert c[14] == tail[0];
      assert c[15..] == tail[1..];
    }
  }

  /** An identifier written out from its parts is read back into them, with the suffix lower-cased in the slug. */
  lemma LovIdentifierOfParts(year: string, month: string, day: string, suffix: string)
    requires |year| == 4 && AllDigits(year) && |month| == 2 && AllDigits(month) && |day| == 2 && AllDigits(day)
    requires suffix != [] && AllAlnum(suffix)
    ensures var date := year + "-" + month + "-" + day;
      ParseLovIdentifier("LOV-" + date + "-" + suffix)
        == Success(LovIdentifier(Upper("LOV-" + date + "-" + Lower(suffix)), date + "-" + Lower(suffix), date))
  {
    var date := year + "-" + month + "-" + day;
    var s := "LOV-" + date + "-" + suffix;
    DateShape(year, month, day);
    assert s[..4] == "LOV-";
    forall i | 0 <= i < 10 ensures s[4 + i] == date[i] {
    }
    assert s[4..8] == year && s[9..11] == month && s[12..14] == day;
    assert s[15..] == suffix;
    assert LovIdParts(s) == Some((year, month, day, Some(suffix)));
    assert "LOV-" + (date + "-" + Lower(suffix)) == "LOV-" + date + "-" + Lower(suffix);
  }

  /**
   * Every accepted identifier, `LOV-` or `lov-` and with or without a suffix: the issue date is
   * the identifier's own `YYYY-MM-DD`, and the slug is that date followed by the rest lower-cased.
   */
  lemma LovIdentifierFields(identifier: string)
    requires ParseLovIdentifier(identifier).Success?
    ensures |identifier| >= 14
    ensures ParseLovIdentifier(identifier).value.issuedDate == identifier[4..14]
    ensures ParseLovIdentifier(identifier).value.slug == identifier[4..14] + Lower(identifier[14..])
  {
    var (year, month, day, suffix) := LovIdParts(identifier).value;
    var date := year + "-" + month + "-" + day;
    assert date == identifier[4..14];
    if Truthy(suffix) {
      var rest := identifier[14..];
      assert rest == "-" + suffix.value;
      assert Lower(rest) == "-" + Lower(suffix.value);
    } else {
      assert identifier[14..] == [];
      assert Lower(identifier[14..]) == [];
    }
  }

  /** An identifier without a suffix is its own canonical id, and its date is both slug and issue date. */
  lemma LovIdentifierOfDate(date: string)
    requires IsIsoDate(date)
    ensures ParseLovIdentifier("LOV-" + date) == Success(LovIdentifier("LOV-" + date, date, date))
  {
    var c := "LOV-" + date;
    assert IdLayout(c, date, "");
    LovIdPartsOfLayout(c, date, "");
    UpperDate(date);
    forall i | 0 <= i < |c| ensures Upper(c)[i] == c[i] {
      if i >= 4 {
        assert c[i] == date[i - 4];
        assert Upper(date)[i - 4] == ToUpperChar(date[i - 4]);
      }
    }
    assert Upper(c) == c;
    assert LovIdParts(c).value.3.None?;
  }

  // ---------------------------------------------------------------------------
  // inferStatus
  // ---------------------------------------------------------------------------

  /** The values `SeedDocument.status` can take. */
  datatype Status = InForce | Amended | Repealed | NotYetInForce

  /** `values.filter(Boolean)` */
  function Present(vs: seq<Option<string>>): (r: seq<string>)
    ensures forall p :: p in r <==> exists i :: 0 <= i < |vs| && Truthy(vs[i]) && vs[i].value == p
    decreases |vs|
  {
    if vs == [] then []
    else
      var rest := Present(vs[1..]);
      assert forall i :: 1 <= i < |vs| ==> vs[i] == vs[1..][i - 1];
      if Truthy(vs[0]) then [vs[0].value] + rest else rest
  }

  /** `metadata[key]` */
  function Lookup(metadata: map<string, string>, key: string): Option<string> {
    if key in metadata then Some(metadata[key]) else None
  }

  /** `inferStatus`: repealed when the title, "Opphevet" or "Status" mentions "opphevet" in any case. */
  function InferStatus(title: Option<string>, metadata: map<string, string>): (r: Status)
    ensures r == Repealed || r == InForce
  {
    var text := Join(Present([title, Lookup(metadata, "Opphevet"), Lookup(metadata, "Status")]), " ");
    if ContainsCI(text, "opphevet") then Repealed else InForce
  }

  /** The statute is repealed exactly when one of the three values itself mentions "opphevet": joining makes no new mention. */
  lemma InferStatusRepealed(title: Option<string>, metadata: map<string, string>)
    ensures InferStatus(title, metadata) == Repealed <==>
      exists v :: v in [title, Lookup(metadata, "Opphevet"), Lookup(metadata, "Status")] && Truthy(v) && ContainsCI(v.value, "opphevet")
  {
    var vs := [title, Lookup(metadata, "Opphevet"), Lookup(metadata, "Status")];
    var ps := Present(vs);
    ContainsCIJoin(ps, "opphevet");
    if ContainsCI(Join(ps, " "), "opphevet") {
      var i :| 0 <= i < |ps| && ContainsCI(ps[i], "opphevet");
      assert ps[i] in ps;
      var j :| 0 <= j < |vs| && Truthy(vs[j]) && vs[j].value == ps[i];
      assert vs[j] in vs;
    }
    if exists v :: v in vs && Truthy(v) && ContainsCI(v.value, "opphevet") {
      var v :| v in vs && Truthy(v) && ContainsCI(v.value, "opphevet");
      var j :| 0 <= j < |vs| && vs[j] == v;
      assert v.value in ps;
      var i :| 0 <= i < |ps| && ps[i] == v.value;
    }
  }

  /** A literal without spaces occurs in a space-joined list exactly when it occurs in one of its items. */
  lemma {:induction false} ContainsCIJoin(ps: seq<string>, lit: string)
    requires lit != [] && forall j :: 0 <= j < |lit| ==> lit[j] != ' '
    ensures ContainsCI(Join(ps, " "), lit) <==> exists i :: 0 <= i < |ps| && ContainsCI(ps[i], lit)
    decreases |ps|
  {
    if |ps| == 0 {
      assert !LitAtCI("", 0, lit);
    } else if |ps| > 1 {
      ContainsCIJoin(ps[1..], lit);
      ContainsCISpace(ps[0], Join(ps[1..], " "), lit);
      if exists i :: 1 <= i < |ps| && ContainsCI(ps[i], lit) {
        var i :| 1 <= i < |ps| && ContainsCI(ps[i], lit);
        assert ps[1..][i - 1] == ps[i];
      }
      if exists i :: 0 <= i < |ps[1..]| && ContainsCI(ps[1..][i], lit) {
        var i :| 0 <= i < |ps[1..]| && ContainsCI(ps[1..][i], lit);
        assert ps[1..][i] == ps[i + 1];
      }
    }
  }

  lemma LitAtCIAt(s: string, k: nat, lit: string, j: int)
    requires LitAtCI(s, k, lit)
    ensures 0 <= j < |lit| ==> ToLowerChar(s[k + j]) == lit[j]
  {
  }

  /** A literal without spaces occurs in `a + " " + b` exactly when it occurs in `a` or in `b`. */
  lemma ContainsCISpace(a: string, b: string, lit: string)
    requires lit != [] && forall j :: 0 <= j < |lit| ==> lit[j] != ' '
    ensures ContainsCI(a + " " + b, lit) <==> ContainsCI(a, lit) || ContainsCI(b, lit)
  {
    var s := a + " " + b;
    if ContainsCI(s, lit) {
      var k: nat :| k <= |s| && LitAtCI(s, k, lit);
      LitAtCIAt(s, k, lit, |a| - k);
      assert s[|a|] == ' ';
      if k + |lit| <= |a| {
        forall j | 0 <= j < |lit| ensures ToLowerChar(a[k + j]) == lit[j] {
          assert s[k + j] == a[k + j];
        }
        assert LitAtCI(a, k, lit);
      } else if k > |a| {
        forall j | 0 <= j < |lit| ensures ToLowerChar(b[k - |a| - 1 + j]) == lit[j] {
          assert s[k + j] == b[k - |a| - 1 + j];
        }
        assert LitAtCI(b, k - |a| - 1, lit);
      } else {
        assert false;
      }
    }
    if ContainsCI(a, lit) {
      var k: nat :| k <= |a| && LitAtCI(a, k, lit);
      forall j | 0 <= j < |lit| ensures ToLowerChar(s[k + j]) == lit[j] {
        assert s[k + j] == a[k + j];
      }
      assert LitAtCI(s, k, lit);
    }
    if ContainsCI(b, lit) {
      var k: nat :| k <= |b| && LitAtCI(b, k, lit);
      var k' := |a| + 1 + k;
      forall j | 0 <= j < |lit| ensures ToLowerChar(s[k' + j]) == lit[j] {
        assert s[k' + j] == b[k + j];
      }
      assert LitAtCI(s, k', lit);
    }
  }

  // ---------------------------------------------------------------------------
  // extractTableText
  // ---------------------------------------------------------------------------

  /** A table row: the texts of its `td` cells, and its whole text. */
  datatype TableRow = TableRow(cells: seq<string>, text: string)

  /** A content block of a provision: a `table.avsnitt`/`table.listeItem`, or any other block read by its text. */
  datatype Block = TextBlock(text: string) | TableBlock(rows: seq<TableRow>, text: string)

  /** Markers up to this many UTF-16 units are kept in front of the row body. */
  const MarkerLimit := 16

  function NonEmpty(s: string): (r: Option<string>)
    ensures r.Some? <==> s != []
    ensures r.Some? ==> r.value == s
  {
    if s != [] then Some(s) else None
  }

  function OptSeq(o: Option<string>): (r: seq<string>)
    ensures |r| <= 1 && (o.Some? ==> r == [o.value]) && (o.None? ==> r == [])
  {
    if o.Some? then [o.value] else []
  }

  /** A normalised text, one space and another normalised text make a normalised text. */
  lemma NormalizedJoin(a: string, b: string)
    requires IsNormalized(a) && IsNormalized(b) && a != [] && b != []
    ensures IsNormalized(a + " " + b)
  {
    var s := a + " " + b;
    forall i | 0 <= i < |s| ensures IsSpace(s[i]) ==> s[i] == ' ' {
      if i < |a| {
        assert s[i] == a[i];
      } else if i > |a| {
        assert s[i] == b[i - |a| - 1];
      }
    }
    forall i | 0 <= i < |s| - 1 ensures !(IsSpace(s[i]) && IsSpace(s[i + 1])) {
      if i + 1 < |a| {
        assert s[i] == a[i] && s[i + 1] == a[i + 1];
      } else if i + 1 == |a| {
        assert s[i] == a[|a| - 1];
      } else if i == |a| {
        assert s[i + 1] == b[0];
      } else {
        assert s[i] == b[i - |a| - 1] && s[i + 1] == b[i - |a|];
      }
    }
    assert s[0] == a[0] && s[|s| - 1] == b[|b| - 1];
  }

  /** What one row contributes: its text when it has no cells, its only cell, or marker and body of a wider row. */
  function RowPart(row: TableRow): (r: Option<string>)
    ensures r.Some? ==> IsNormalized(r.value)
  {
    if |row.cells| == 0 then NonEmpty(Normalize(row.text))
    else if |row.cells| == 1 then NonEmpty(Normalize(row.cells[0]))
    else
      var marker := Normalize(row.cells[0]);
      var body := Normalize(row.cells[|row.cells| - 1]);
      if body == [] && marker != [] then Some(marker)
      else if marker == [] then Some(body)
      else if marker == body then Some(body)
      else if Utf16Length(marker) <= MarkerLimit then
        NormalizedJoin(marker, body);
        Some(marker + " " + body)
      else Some(body)
  }

  /**
   * A wider row always contributes. With no body it gives the marker; with no marker, or a marker equal to the
   * body, it gives the body; otherwise the marker goes in front exactly when it is at most 16 units long.
   */
  lemma RowPartMarker(row: TableRow)
    requires |row.cells| >= 2
    ensures var marker := Normalize(row.cells[0]);
      var body := Normalize(row.cells[|row.cells| - 1]);
      && RowPart(row).Some?
      && (RowPart(row).value == body || RowPart(row).value == marker + " " + body || (body == [] && RowPart(row).value == marker))
      && (RowPart(row).value == marker + " " + body <==>
            marker != [] && body != [] && marker != body && Utf16Length(marker) <= MarkerLimit)
      && (body == [] ==> RowPart(row).value == marker)
      && (body != [] && (marker == [] || marker == body) ==> RowPart(row).value == body)
      && (body != [] && marker != [] && marker != body && Utf16Length(marker) > MarkerLimit ==> RowPart(row).value == body)
  {
    var marker := Normalize(row.cells[0]);
    var body := Normalize(row.cells[|row.cells| - 1]);
    assert |marker + " " + body| == |marker| + 1 + |body|;
  }

  /** The rows' parts, in row order. */
  function RowsParts(rows: seq<TableRow>): (r: seq<string>)
    ensures forall i :: 0 <= i < |r| ==> IsNormalized(r[i])
    decreases |rows|
  {
    if rows == [] then []
    else RowsParts(rows[..|rows| - 1]) + OptSeq(RowPart(rows[|rows| - 1]))
  }

  lemma RowsPartsStep(rows: seq<TableRow>, i: nat)
    requires i < |rows|
    ensures RowsParts(rows[..i + 1]) == RowsParts(rows[..i]) + OptSeq(RowPart(rows[i]))
  {
    assert rows[..i + 1][..i] == rows[..i];
  }

  /** `extractTableText`: the table's own text when it has no rows, else the rows' parts. */
  function TableParts(rows: seq<TableRow>, text: string): (r: seq<string>)
    ensures forall i :: 0 <= i < |r| ==> IsNormalized(r[i])
  {
    if |rows| == 0 then OptSeq(NonEmpty(Normalize(text))) else RowsParts(rows)
  }

  method ExtractTableText(rows: seq<TableRow>, text: string) returns (parts: seq<string>)
    ensures parts == TableParts(rows, text)
  {
    if |rows| == 0 {
      var fallback := Normalize(text);
      if fallback != [] {
        parts := [fallback];
      } else {
        parts := [];
      }
      return;
    }
    parts := [];
    for i := 0 to |rows|
      invariant parts == RowsParts(rows[..i])
    {
      var row := rows[i];
      RowsPartsStep(rows, i);
      if |row.cells| == 0 {
        var fallback := Normalize(row.text);
        if fallback != [] {
          parts := parts + [fallback];
        }
        continue;
      }
      if |row.cells| == 1 {
        var only := Normalize(row.cells[0]);
        if only != [] {
          parts := parts + [only];
        }
        continue;
      }
      var marker := Normalize(row.cells[0]);
      var body := Normalize(row.cells[|row.cells| - 1]);
      if body == [] && marker != [] {
        parts := parts + [marker];
        continue;
      }
      if marker == [] {
        parts := parts + [body];
        continue;
      }
      if marker == body {
        parts := parts + [body];
        continue;
      }
      if Utf16Length(marker) <= MarkerLimit {
        parts := parts + [marker + " " + body];
      } else {
        parts := parts + [body];
      }
    }
    assert rows[..|rows|] == rows;
  }

  // ---------------------------------------------------------------------------
  // extractProvisionContent
  // ---------------------------------------------------------------------------

  function BlockParts(b: Block): (r: seq<string>)
    ensures forall i :: 0 <= i < |r| ==> IsNormalized(r[i])
  {
    match b
    case TableBlock(rows, text) => TableParts(rows, text)
    case TextBlock(text) => OptSeq(NonEmpty(Normalize(text)))
  }

  /** The parts of all blocks, in block order. */
  function ContentParts(blocks: seq<Block>): (r: seq<string>)
    ensures forall i :: 0 <= i < |r| ==> IsNormalized(r[i])
    decreases |blocks|
  {
    if blocks == [] then []
    else ContentParts(blocks[..|blocks| - 1]) + BlockParts(blocks[|blocks| - 1])
  }

  /** A part is its own key in the `seen` set. */
  function Itself(p: string): string { p }

  /** The non-empty parts, each at its first occurrence. */
  function UniqueParts(parts: seq<string>): seq<string> {
    Dedup(parts, Itself, {""})
  }

  /** `extractProvisionContent`: the normalised whole text when no block gave a part, else the distinct parts one per line. */
  function ProvisionContent(blocks: seq<Block>, text: string): (r: string)
    ensures ContentParts(blocks) == [] ==> r == Normalize(text)
  {
    var parts := ContentParts(blocks);
    if parts == [] && Normalize(text) != [] then Normalize(text)
    else Trim(Join(UniqueParts(parts), "\n"))
  }

  lemma ContentPartsStep(blocks: seq<Block>, i: nat)
    requires i < |blocks|
    ensures ContentParts(blocks[..i + 1]) == ContentParts(blocks[..i]) + BlockParts(blocks[i])
  {
    assert blocks[..i + 1][..i] == blocks[..i];
  }

  /** One turn of the loop that keeps the first occurrence of each non-empty part. */
  lemma UniqueStep(parts: seq<string>, i: nat)
    requires i < |parts|
    ensures var part := parts[i];
      && Dedup(parts[..i + 1], Itself, {""}) ==
        (if part == [] || part in KeySet(parts[..i], Itself) - {""} then Dedup(parts[..i], Itself, {""})
         else Dedup(parts[..i], Itself, {""}) + [part])
      && KeySet(parts[..i + 1], Itself) - {""} ==
        (if part == [] then KeySet(parts[..i], Itself) - {""} else KeySet(parts[..i], Itself) - {""} + {part})
  {
    assert parts[..i + 1] == parts[..i] + [parts[i]];
    DedupSnoc(parts[..i], parts[i], Itself, {""});
  }

  lemma ContentOfParts(blocks: seq<Block>, text: string, parts: seq<string>)
    requires parts == ContentParts(blocks)
    ensures ProvisionContent(blocks, text) ==
      if parts == [] && Normalize(text) != [] then Normalize(text) else Trim(Join(Dedup(parts, Itself, {""}), "\n"))
  {
  }

  method ExtractProvisionContent(blocks: seq<Block>, text: string) returns (content: string)
    ensures content == ProvisionContent(blocks, text)
  {
    var parts := BlockTexts(blocks);
    ContentOfParts(blocks, text, parts);
    if |parts| == 0 {
      var fallback := Normalize(text);
      if fallback != [] {
        return fallback;
      }
    }
    content := JoinUnique(parts);
  }

  /** The first loop of `extractProvisionContent`: every block's parts, in order. */
  method BlockTexts(blocks: seq<Block>) returns (parts: seq<string>)
    ensures parts == ContentParts(blocks)
  {
    parts := [];
    for i := 0 to |blocks|
      invariant parts == ContentParts(blocks[..i])
    {
      var block := blocks[i];
      ContentPartsStep(blocks, i);
      if block.TableBlock? {
        var tableParts := ExtractTableText(block.rows, block.text);
        parts := parts + tableParts;
        continue;
      }
      var t := Normalize(block.text);
      if t != [] {
        parts := parts + [t];
      }
    }
    assert blocks[..|blocks|] == blocks;
  }

  /** The second loop of `extractProvisionContent` and the final join: each non-empty part once, one per line. */
  method JoinUnique(parts: seq<string>) returns (content: string)
    ensures content == Trim(Join(UniqueParts(parts), "\n"))
  {
    var unique: seq<string> := [];
    var seen: set<string> := {};
    for i := 0 to |parts|
      invariant unique == Dedup(parts[..i], Itself, {""})
      invariant seen == KeySet(parts[..i], Itself) - {""}
    {
      var part := parts[i];
      UniqueStep(parts, i);
      if part == [] || part in seen {
        continue;
      }
      seen := seen + {part};
      unique := unique + [part];
    }
    assert parts[..|parts|] == parts;
    content := Trim(Join(unique, "\n"));
  }

  /** A part as its own key. */
  lemma KeysItself(xs: seq<string>)
    ensures Keys(xs, Itself) == xs
  {
  }

  /** The unique parts are non-empty, pairwise distinct, and are exactly the non-empty parts. */
  lemma UniquePartsFacts(parts: seq<string>)
    ensures var u := UniqueParts(parts);
      && (forall a :: 0 <= a < |u| ==> u[a] != [])
      && (forall a, b :: 0 <= a < b < |u| ==> u[a] != u[b])
      && (forall p :: p in u <==> p in parts && p != [])
  {
    var u := UniqueParts(parts);
    DedupKeys(parts, Itself, {""});
    KeysItself(u);
    KeysItself(parts);
    forall p ensures p in u <==> p in parts && p != [] {
      assert p in u <==> p in KeySet(u, Itself);
      assert p in parts <==> p in KeySet(parts, Itself);
    }
  }

  /** The unique parts keep the order in which they first occur. */
  lemma UniquePartsOrder(parts: seq<string>, a: nat, b: nat)
    requires a < b < |UniqueParts(parts)|
    ensures exists i, j :: 0 <= i < j < |parts| && parts[i] == UniqueParts(parts)[a] && parts[j] == UniqueParts(parts)[b]
  {
    DedupOrdered(parts, Itself, {""}, a, b);
  }

  /** `s.split(c)` */
  function SplitOn(s: string, c: char): (r: seq<string>)
    ensures |r| >= 1
    decreases |s|
  {
    if s == [] then [[]]
    else
      var rest := SplitOn(s[1..], c);
      if s[0] == c then [[]] + rest else [[s[0]] + rest[0]] + rest[1..]
  }

  lemma {:induction false} SplitOnPlain(a: string, b: string, c: char)
    requires c !in a
    ensures SplitOn(a + [c] + b, c) == [a] + SplitOn(b, c)
    ensures SplitOn(a, c) == [a]
    decreases |a|
  {
    if a == [] {
      assert a + [c] + b == [c] + b;
      assert ([c] + b)[1..] == b;
    } else {
      assert (a + [c] + b)[1..] == a[1..] + [c] + b;
      assert forall x :: x in a[1..] ==> x in a;
      SplitOnPlain(a[1..], b, c);
      assert [a[0]] + a[1..] == a;
    }
  }

  /** Joining lines that hold no line break and splitting again gives the lines back. */
  lemma {:induction false} SplitJoin(ps: seq<string>, c: char)
    requires |ps| >= 1 && forall i :: 0 <= i < |ps| ==> c !in ps[i]
    ensures SplitOn(Join(ps, [c]), c) == ps
    decreases |ps|
  {
    if |ps| == 1 {
      SplitOnPlain(ps[0], [], c);
    } else {
      SplitJoin(ps[1..], c);
      SplitOnPlain(ps[0], Join(ps[1..], [c]), c);
      assert [ps[0]] + ps[1..] == ps;
    }
  }

  /** A join of non-empty normalised texts starts and ends with the texts' outer characters. */
  lemma {:induction false} JoinEnds(ps: seq<string>, sep: string)
    requires |ps| >= 1 && forall i :: 0 <= i < |ps| ==> ps[i] != []
    ensures var j := Join(ps, sep); j != [] && j[0] == ps[0][0] && j[|j| - 1] == ps[|ps| - 1][|ps[|ps| - 1]| - 1]
    decreases |ps|
  {
    if |ps| > 1 {
      JoinEnds(ps[1..], sep);
      assert ps[1..][|ps| - 2] == ps[|ps| - 1];
    }
  }

  /** A normalised text holds no line break. */
  lemma NormalizedNoBreak(s: string)
    requires IsNormalized(s)
    ensures '\n' !in s
  {
    if '\n' in s {
      var k :| 0 <= k < |s| && s[k] == '\n';
      assert IsSpace(s[k]);
    }
  }

  /** The content is the unique parts, one per line: splitting it at line breaks gives them back. */
  lemma ContentLines(blocks: seq<Block>, text: string)
    requires UniqueParts(ContentParts(blocks)) != []
    ensures SplitOn(ProvisionContent(blocks, text), '\n') == UniqueParts(ContentParts(blocks))
  {
    var parts := ContentParts(blocks);
    var u := UniqueParts(parts);
    UniquePartsFacts(parts);
    assert parts != [] by {
      assert u[0] in u;
    }
    forall i | 0 <= i < |u| ensures '\n' !in u[i] && IsNormalized(u[i]) {
      assert u[i] in u;
      var k :| 0 <= k < |parts| && parts[k] == u[i];
      NormalizedNoBreak(u[i]);
    }
    JoinEnds(u, "\n");
    TrimKeepsTrimmed(Join(u, "\n"));
    SplitJoin(u, '\n');
  }

  // ---------------------------------------------------------------------------
  // extractProvisions
  // ---------------------------------------------------------------------------

  /** A `div.morTag_p.paragraf` node: its `data-id`, the `data-id` of the closest chapter, heading, title and content. */
  datatype ProvisionNode = ProvisionNode(
    dataId: string, chapterId: Option<string>, heading: string, title: string, blocks: seq<Block>, text: string)

  datatype ProvisionMetadata = ProvisionMetadata(source: string, sourceNodeId: string, sourceHeading: Option<string>)

  datatype SeedProvision = SeedProvision(
    provisionRef: string, chapter: Option<string>, section: string, title: Option<string>,
    content: string, metadata: ProvisionMetadata)

  /** `^PREFIX(\d+[A-Za-zÆØÅæøå]?)$`: the number after the prefix. */
  function IdNumber(s: string, prefix: string): (r: Option<string>)
    ensures r.Some? ==> LitAt(s, 0, prefix) && r.value == s[|prefix|..] && r.value != [] && IsDigit(r.value[0])
  {
    if LitAt(s, 0, prefix) then
      var rest := s[|prefix|..];
      var d := DigitRun(rest, 0);
      if 0 < d && (d == |rest| || (d + 1 == |rest| && IsRefLetter(rest[d]))) then Some(rest) else None
    else None
  }

  /** `''`/absent as `undefined`. */
  function Unless(s: string): (r: Option<string>)
    ensures r.None? <==> s == []
  {
    if s != [] then Some(s) else None
  }

  function ChapterOf(node: ProvisionNode): Option<string> {
    match node.chapterId
    case None => None
    case Some(c) =>
      match IdNumber(c, "KAPITTEL_")
      case None => None
      case Some(n) => Some(NormalizeSectionRef(n))
  }

  /** `chapter:section`, or the section alone outside a chapter. */
  function ProvisionRef(chapter: Option<string>, section: string): string {
    if Truthy(chapter) then chapter.value + ":" + section else section
  }

  /** What the loop body of `extractProvisions` makes of one node; nothing for a foreign id or empty content. */
  function NodeProvision(node: ProvisionNode): (r: Option<SeedProvision>)
    ensures r.None? <==> IdNumber(node.dataId, "PARAGRAF_").None? || ProvisionContent(node.blocks, node.text) == []
    ensures r.Some? ==> r.value.content == ProvisionContent(node.blocks, node.text) && r.value.content != []
    ensures r.Some? ==> (r.value.section == NormalizeSectionRef(IdNumber(node.dataId, "PARAGRAF_").value)
      && r.value.chapter == ChapterOf(node) && r.value.provisionRef == ProvisionRef(r.value.chapter, r.value.section))
    ensures r.Some? ==> (r.value.metadata == ProvisionMetadata("lovdata", node.dataId, Unless(Normalize(node.heading)))
      && r.value.title == Unless(Normalize(node.title)))
  {
    match IdNumber(node.dataId, "PARAGRAF_")
    case None => None
    case Some(n) =>
      var section := NormalizeSectionRef(n);
      var chapter := ChapterOf(node);
      var heading := Normalize(node.heading);
      var title := Normalize(node.title);
      var content := ProvisionContent(node.blocks, node.text);
      if content == [] then None
      else
        Some(SeedProvision(ProvisionRef(chapter, section), chapter, section, Unless(title), content,
          ProvisionMetadata("lovdata", node.dataId, Unless(heading))))
  }

  method ReadProvision(node: ProvisionNode) returns (p: Option<SeedProvision>)
    ensures p == NodeProvision(node)
  {
    var n := IdNumber(node.dataId, "PARAGRAF_");
    if n.None? {
      return None;
    }
    var section := NormalizeSectionRef(n.value);
    var chapter := ChapterOf(node);
    var heading := Normalize(node.heading);
    var title := Normalize(node.title);
    var content := ExtractProvisionContent(node.blocks, node.text);
    if content == [] {
      return None;
    }
    p := Some(SeedProvision(ProvisionRef(chapter, section), chapter, section, Unless(title), content,
      ProvisionMetadata("lovdata", node.dataId, Unless(heading))));
  }

  /** `normalizeWhitespace(content).length`, what `choosePreferredProvision` compares. */
  function Score(p: SeedProvision): nat {
    Utf16Length(Normalize(p.content))
  }

  function RefOf(p: SeedProvision): string { p.provisionRef }

  /** `choosePreferredProvision`: the candidate only when its content is strictly longer. */
  function ChoosePreferredProvision(current: SeedProvision, candidate: SeedProvision): (r: SeedProvision)
    ensures r == current || r == candidate
    ensures Score(r) >= Score(current) && Score(r) >= Score(candidate)
    ensures Score(candidate) <= Score(current) ==> r == current
  {
    if Score(candidate) > Score(current) then candidate else current
  }

  /** The provisions the nodes give, in document order, before merging. */
  function Candidates(nodes: seq<ProvisionNode>): seq<SeedProvision>
    decreases |nodes|
  {
    if nodes == [] then []
    else
      var p := NodeProvision(nodes[|nodes| - 1]);
      Candidates(nodes[..|nodes| - 1]) + (if p.Some? then [p.value] else [])
  }

  /** `extractProvisions`: one provision per reference, the longest (first on ties), in first-seen order. */
  function Provisions(nodes: seq<ProvisionNode>): seq<SeedProvision> {
    Merged(Candidates(nodes), RefOf, Score)
  }

  lemma CandidatesStep(nodes: seq<ProvisionNode>, i: nat)
    requires i < |nodes|
    ensures var p := NodeProvision(nodes[i]);
      Candidates(nodes[..i + 1]) == Candidates(nodes[..i]) + (if p.Some? then [p.value] else [])
  {
    assert nodes[..i + 1][..i] == nodes[..i];
  }

  /** One turn of the `extractProvisions` loop on the map and the insertion order. */
  lemma ProvisionsStep(nodes: seq<ProvisionNode>, i: nat)
    requires i < |nodes|
    ensures var p := NodeProvision(nodes[i]); var m := Best(Candidates(nodes[..i]), RefOf, Score);
      && Best(Candidates(nodes[..i + 1]), RefOf, Score) ==
        (if p.None? then m
         else if p.value.provisionRef !in m then m[p.value.provisionRef := p.value]
         else m[p.value.provisionRef := ChoosePreferredProvision(m[p.value.provisionRef], p.value)])
      && FirstKeys(Candidates(nodes[..i + 1]), RefOf) ==
        FirstKeys(Candidates(nodes[..i]), RefOf) + (if p.Some? && p.value.provisionRef !in m then [p.value.provisionRef] else [])
  {
    CandidatesStep(nodes, i);
    var p := NodeProvision(nodes[i]);
    if p.Some? {
      MergeStep(Candidates(nodes[..i]), p.value);
    } else {
      assert Candidates(nodes[..i + 1]) == Candidates(nodes[..i]);
    }
  }

  /** Merging one more provision: set when new, else keep the preferred of the two. */
  lemma MergeStep(xs: seq<SeedProvision>, p: SeedProvision)
    ensures var m := Best(xs, RefOf, Score);
      && Best(xs + [p], RefOf, Score) ==
        (if p.provisionRef !in m then m[p.provisionRef := p]
         else m[p.provisionRef := ChoosePreferredProvision(m[p.provisionRef], p)])
      && FirstKeys(xs + [p], RefOf) == FirstKeys(xs, RefOf) + (if p.provisionRef !in m then [p.provisionRef] else [])
  {
    var m := Best(xs, RefOf, Score);
    BestSnoc(xs, p, RefOf, Score);
    var k := p.provisionRef;
    if k in m && Score(p) <= Score(m[k]) {
      assert m[k := m[k]] == m;
    }
  }

  method ExtractProvisions(nodes: seq<ProvisionNode>) returns (r: seq<SeedProvision>)
    ensures r == Provisions(nodes)
  {
    var byRef: map<string, SeedProvision> := map[];
    var order: seq<string> := [];
    for i := 0 to |nodes|
      invariant byRef == Best(Candidates(nodes[..i]), RefOf, Score)
      invariant order == FirstKeys(Candidates(nodes[..i]), RefOf)
    {
      ProvisionsStep(nodes, i);
      var provision := ReadProvision(nodes[i]);
      if provision.None? {
        continue;
      }
      var p := provision.value;
      var provisionRef := p.provisionRef;
      if provisionRef !in byRef {
        byRef := byRef[provisionRef := p];
        order := order + [provisionRef];
        continue;
      }
      var existing := byRef[provisionRef];
      byRef := byRef[provisionRef := ChoosePreferredProvision(existing, p)];
    }
    assert nodes[..|nodes|] == nodes;
    r := ValuesAt(byRef, order);
  }

  /** Every candidate comes from a node with a section id and non-empty content. */
  lemma {:induction false} CandidateSource(nodes: seq<ProvisionNode>, p: SeedProvision) returns (i: nat)
    requires p in Candidates(nodes)
    ensures i < |nodes| && NodeProvision(nodes[i]) == Some(p)
    decreases |nodes|
  {
    var last := NodeProvision(nodes[|nodes| - 1]);
    if last == Some(p) {
      i := |nodes| - 1;
    } else {
      i := CandidateSource(nodes[..|nodes| - 1], p);
    }
  }

  /** Every node that gives a provision gives a candidate. */
  lemma {:induction false} CandidateOf(nodes: seq<ProvisionNode>, i: nat) returns (c: nat)
    requires i < |nodes| && NodeProvision(nodes[i]).Some?
    ensures c < |Candidates(nodes)| && Candidates(nodes)[c] == NodeProvision(nodes[i]).value
    decreases |nodes|
  {
    var init := nodes[..|nodes| - 1];
    if i < |nodes| - 1 {
      c := CandidateOf(init, i);
      assert init[i] == nodes[i];
    } else {
      c := |Candidates(init)|;
    }
  }

  /** At most one provision per reference, in the order the references first occur. */
  lemma ProvisionsUniqueRefs(nodes: seq<ProvisionNode>)
    ensures Keys(Provisions(nodes), RefOf) == FirstKeys(Candidates(nodes), RefOf)
    ensures var r := Provisions(nodes); forall a, b :: 0 <= a < b < |r| ==> r[a].provisionRef != r[b].provisionRef
  {
    MergedKeys(Candidates(nodes), RefOf, Score);
  }

  /** No reference is lost: every node that gives a provision has its reference in the result. */
  lemma ProvisionsComplete(nodes: seq<ProvisionNode>, i: nat) returns (j: nat)
    requires i < |nodes| && NodeProvision(nodes[i]).Some?
    ensures j < |Provisions(nodes)| && Provisions(nodes)[j].provisionRef == NodeProvision(nodes[i]).value.provisionRef
  {
    var c := CandidateOf(nodes, i);
    assert Candidates(nodes)[c] in Candidates(nodes);
    j := MergedComplete(Candidates(nodes), RefOf, Score, NodeProvision(nodes[i]).value);
  }

  /** Each kept provision is one a node gave, with the longest normalised content among the nodes of its reference. */
  lemma ProvisionsLongest(nodes: seq<ProvisionNode>, j: nat) returns (i: nat)
    requires j < |Provisions(nodes)|
    ensures i < |nodes| && NodeProvision(nodes[i]) == Some(Provisions(nodes)[j])
    ensures var p := Provisions(nodes)[j];
      forall k :: 0 <= k < |nodes| && NodeProvision(nodes[k]).Some? && NodeProvision(nodes[k]).value.provisionRef == p.provisionRef ==>
        Score(NodeProvision(nodes[k]).value) <= Score(p)
  {
    var cs := Candidates(nodes);
    var p := Provisions(nodes)[j];
    var c := MergedBest(cs, RefOf, Score, j);
    assert cs[c] in cs;
    i := CandidateSource(nodes, cs[c]);
    forall k | 0 <= k < |nodes| && NodeProvision(nodes[k]).Some? && NodeProvision(nodes[k]).value.provisionRef == p.provisionRef
      ensures Score(NodeProvision(nodes[k]).value) <= Score(p)
    {
      var x := CandidateOf(nodes, k);
      BestAtBound(cs, p.provisionRef, c, x);
    }
  }

  lemma BestAtBound(cs: seq<SeedProvision>, provisionRef: string, c: nat, x: nat)
    requires BestAt(cs, RefOf, Score, provisionRef, c) && x < |cs| && cs[x].provisionRef == provisionRef
    ensures Score(cs[x]) <= Score(cs[c])
  {
    assert RefOf(cs[x]) == provisionRef;
  }

  /** Among the candidates of one reference the first of the longest is kept. */
  lemma ProvisionsFirstOfLongest(nodes: seq<ProvisionNode>, j: nat) returns (c: nat)
    requires j < |Provisions(nodes)|
    ensures BestAt(Candidates(nodes), RefOf, Score, Provisions(nodes)[j].provisionRef, c)
      && Candidates(nodes)[c] == Provisions(nodes)[j]
  {
    c := MergedBest(Candidates(nodes), RefOf, Score, j);
  }

  /** References appear in the order of their first candidate. */
  lemma ProvisionsOrder(nodes: seq<ProvisionNode>, a: nat, b: nat) returns (c: nat)
    requires a < b < |Provisions(nodes)|
    ensures var r := Provisions(nodes); var cs := Candidates(nodes);
      && c < |cs| && cs[c].provisionRef == r[b].provisionRef && r[b].provisionRef !in Keys(cs[..c], RefOf)
      && r[a].provisionRef in Keys(cs[..c], RefOf)
  {
    c := MergedOrder(Candidates(nodes), RefOf, Score, a, b);
  }

  // ---------------------------------------------------------------------------
  // The reference identifies chapter and section
  // ---------------------------------------------------------------------------

  lemma {:induction false} StripMarksOut(s: string, c: char)
    requires c !in s
    ensures c !in StripMarks(s)
    decreases |s|
  {
    if s != [] {
      assert forall x :: x in s[1..] ==> x in s;
      StripMarksOut(s[1..], c);
    }
  }

  /** Normalising a section reference brings in no colon. */
  lemma SectionRefNoColon(v: string)
    requires ':' !in v
    ensures ':' !in NormalizeSectionRef(v)
  {
    StripMarksOut(v, ':');
    TrimKeepsOut(StripMarks(v), ':');
    var cleaned := Trim(StripMarks(v));
    match NumberLetter(cleaned)
    case Some((n, l)) =>
      var d := DigitRun(cleaned, 0);
      assert n == cleaned[..d];
      assert forall x :: x in n ==> x in cleaned;
    case None =>
  }

  /** A number stays non-empty. */
  lemma SectionRefNonEmpty(v: string)
    requires v != [] && IsDigit(v[0])
    ensures NormalizeSectionRef(v) != []
  {
    assert StripMarks(v)[0] == v[0];
    assert !AllSpace(StripMarks(v));
  }

  /** The number of a `data-id` holds digits and at most one letter, so no colon. */
  lemma IdNumberNoColon(s: string, prefix: string)
    requires IdNumber(s, prefix).Some?
    ensures ':' !in IdNumber(s, prefix).value
  {
    var rest := s[|prefix|..];
    var d := DigitRun(rest, 0);
    forall k | 0 <= k < |rest| ensures rest[k] != ':' {
      if k < d {
        assert IsDigit(rest[k]);
      } else {
        assert IsRefLetter(rest[k]);
      }
    }
  }

  /** In `a:b` with no colon in `a`, the first colon is the one after `a`. */
  lemma FirstColon(a: string, b: string)
    requires ':' !in a
    ensures var x := a + ":" + b; x[|a|] == ':' && forall k :: 0 <= k < |a| ==> x[k] != ':'
  {
    var x := a + ":" + b;
    forall k | 0 <= k < |a| ensures x[k] != ':' {
      assert x[k] == a[k];
    }
  }

  /** `a:b` determines `a` and `b` when neither holds a colon. */
  lemma ColonPairs(a: string, b: string, c: string, d: string)
    requires ':' !in a && ':' !in b && ':' !in c && ':' !in d
    ensures a + ":" + b == c + ":" + d <==> a == c && b == d
  {
    var x := a + ":" + b;
    var y := c + ":" + d;
    FirstColon(a, b);
    FirstColon(c, d);
    if x == y {
      assert |a| == |c|;
      assert a == x[..|a|] == y[..|c|] == c;
      assert b == x[|a| + 1..] == y[|c| + 1..] == d;
    }
  }

  /** The chapter and section of a provision, and nothing else, make its reference. */
  lemma ProvisionStrings(node: ProvisionNode)
    requires NodeProvision(node).Some?
    ensures var p := NodeProvision(node).value;
      && p.section != [] && ':' !in p.section
      && (p.chapter.Some? ==> p.chapter.value != [] && ':' !in p.chapter.value)
  {
    var n := IdNumber(node.dataId, "PARAGRAF_").value;
    IdNumberNoColon(node.dataId, "PARAGRAF_");
    SectionRefNoColon(n);
    SectionRefNonEmpty(n);
    if node.chapterId.Some? && IdNumber(node.chapterId.value, "KAPITTEL_").Some? {
      var c := IdNumber(node.chapterId.value, "KAPITTEL_").value;
      IdNumberNoColon(node.chapterId.value, "KAPITTEL_");
      SectionRefNoColon(c);
      SectionRefNonEmpty(c);
    }
  }

  /** Two nodes share a reference exactly when they share chapter and section: the merge key is the pair. */
  lemma RefIdentifiesSection(x: ProvisionNode, y: ProvisionNode)
    requires NodeProvision(x).Some? && NodeProvision(y).Some?
    ensures var p := NodeProvision(x).value; var q := NodeProvision(y).value;
      p.provisionRef == q.provisionRef <==> p.chapter == q.chapter && p.section == q.section
  {
    var p := NodeProvision(x).value;
    var q := NodeProvision(y).value;
    ProvisionStrings(x);
    ProvisionStrings(y);
    if p.chapter.Some? && q.chapter.Some? {
      ColonPairs(p.chapter.value, p.section, q.chapter.value, q.section);
    } else if p.chapter.Some? {
      assert p.provisionRef[|p.chapter.value|] == ':';
      assert ':' in p.provisionRef;
    } else if q.chapter.Some? {
      assert q.provisionRef[|q.chapter.value|] == ':';
      assert ':' in q.provisionRef;
    }
  }
}
