/**
 * The amendment extractor: Norwegian "Endret ved lov 20 juni 2014 nr. 49"
 * phrases turned into LOV ids through a fixed month table, three scans in
 * priority order sharing one set of seen ids, a fallback scan for bare LOV
 * ids, repeal data from a metadata dictionary, and the entry-into-force date.
 *
 * Every pattern of the file is written as a recogniser at a start position
 * (see `Scan`); searches are `Scan.FirstMatch` and `matchAll` is
 * `Scan.MatchAll`.
 */
module AmendmentParser {
  import opened Wrappers
  import opened Text
  import opened Scan

  // ---------------------------------------------------------------------------
  // LOV ids: `LOV-\d{4}-\d{2}-\d{2}-\d+`, case-sensitive in every pattern of the file

  /** `LOV-\d{4}-\d{2}-\d{2}-\d+` at `k`: where the greedy number run ends. */
  function LovIdEnd(s: string, k: nat): (r: Option<nat>)
    ensures r.Some? ==> k + 15 < r.value <= |s|
  {
    if && LitAt(s, k, "LOV-") && DigitsAt(s, k + 4, 4) && CharAt(s, k + 8, '-')
       && DigitsAt(s, k + 9, 2) && CharAt(s, k + 11, '-') && DigitsAt(s, k + 12, 2)
       && CharAt(s, k + 14, '-') && DigitRun(s, k + 15) > k + 15
    then Some(DigitRun(s, k + 15))
    else None
  }

  /** A canonical LOV id, field by field: `LOV-YYYY-MM-DD-N` with a non-empty number. */
  predicate IsLovIdShape(id: string) {
    && |id| > 15 && id[..4] == "LOV-" && id[8] == '-' && id[11] == '-' && id[14] == '-'
    && AllDigits(id[4..8]) && AllDigits(id[9..11]) && AllDigits(id[12..14]) && AllDigits(id[15..])
  }

  /** `isValidLovId`: `/^LOV-\d{4}-\d{2}-\d{2}-\d+$/` */
  predicate IsValidLovId(lovId: string) {
    LovIdEnd(lovId, 0) == Some(|lovId|)
  }

  /** The anchored pattern accepts exactly the canonical shape. */
  lemma ValidLovIdShape(id: string)
    ensures IsValidLovId(id) <==> IsLovIdShape(id)
  {
    if IsLovIdShape(id) {
      ShapeIsValid(id);
    }
    if IsValidLovId(id) {
      ValidIsShape(id);
    }
  }

  lemma ShapeIsValid(id: string)
    requires IsLovIdShape(id)
    ensures IsValidLovId(id)
  {
    assert id[0..4] == id[..4];
    forall k | 4 <= k < 8 ensures IsDigit(id[k]) {
      assert id[k] == id[4..8][k - 4];
    }
    forall k | 9 <= k < 11 ensures IsDigit(id[k]) {
      assert id[k] == id[9..11][k - 9];
    }
    forall k | 12 <= k < 14 ensures IsDigit(id[k]) {
      assert id[k] == id[12..14][k - 12];
    }
    forall k | 15 <= k < |id| ensures IsDigit(id[k]) {
      assert id[k] == id[15..][k - 15];
    }
    DigitRunExact(id, 15, |id|);
  }

  lemma ValidIsShape(id: string)
    requires IsValidLovId(id)
    ensures IsLovIdShape(id)
  {
    assert id[..4] == id[0..4];
    forall k | 0 <= k < 4 ensures IsDigit(id[4..8][k]) {
      assert id[4..8][k] == id[4 + k];
    }
    forall k | 0 <= k < 2 ensures IsDigit(id[9..11][k]) && IsDigit(id[12..14][k]) {
      assert id[9..11][k] == id[9 + k];
      assert id[12..14][k] == id[12 + k];
    }
    forall k | 0 <= k < |id| - 15 ensures IsDigit(id[15..][k]) {
      assert id[15..][k] == id[15 + k];
    }
  }

  /** The id `LOV-year-month-day-nr`. */
  function LovId(year: string, month: string, day: string, nr: string): string {
    "LOV-" + year + "-" + month + "-" + day + "-" + nr
  }

  lemma LovIdShaped(year: string, month: string, day: string, nr: string)
    requires |year| == 4 && AllDigits(year) && |month| == 2 && AllDigits(month)
    requires |day| == 2 && AllDigits(day) && |nr| > 0 && AllDigits(nr)
    ensures IsValidLovId(LovId(year, month, day, nr))
  {
    var id := LovId(year, month, day, nr);
    assert id[..4] == "LOV-";
    assert id[4..8] == year && id[9..11] == month && id[12..14] == day && id[15..] == nr;
    ValidLovIdShape(id);
  }

  /** `LOV_PATTERN` (and its non-global copies) at `k`: group 1 is the whole id. */
  function LovIdAt(s: string, k: nat): (r: Option<MatchAt>)
    ensures r.Some? ==> |r.value.groups| == 2 && r.value.groups[0].Some? && r.value.groups[1].Some?
    ensures r.Some? ==> r.value.groups[0] == r.value.groups[1] && r.value.len > 15
    ensures r.Some? ==> k + r.value.len <= |s| && r.value.groups[1].value == s[k..k + r.value.len]
    ensures r.Some? ==> IsValidLovId(r.value.groups[1].value)
  {
    match LovIdEnd(s, k)
    case Some(e) =>
      var id := s[k..e];
      LovIdSlice(s, k, e);
      Some(MatchAt(e - k, [Some(id), Some(id)]))
    case None => None
  }

  /** The text a match of the LOV pattern covers is an anchored match on its own. */
  lemma LovIdSlice(s: string, k: nat, e: nat)
    requires LovIdEnd(s, k) == Some(e)
    ensures IsValidLovId(s[k..e])
  {
    var id := s[k..e];
    assert id[..4] == s[k..k + 4];
    forall i | 0 <= i < |id| ensures id[i] == s[k + i] { }
    assert AllDigits(id[15..]) by {
      forall i | 0 <= i < |id| - 15 ensures IsDigit(id[15..][i]) {
        assert id[15..][i] == s[k + 15 + i];
      }
    }
    assert AllDigits(id[4..8]) by {
      forall i | 0 <= i < 4 ensures IsDigit(id[4..8][i]) { assert id[4..8][i] == s[k + 4 + i]; }
    }
    assert AllDigits(id[9..11]) by {
      forall i | 0 <= i < 2 ensures IsDigit(id[9..11][i]) { assert id[9..11][i] == s[k + 9 + i]; }
    }
    assert AllDigits(id[12..14]) by {
      forall i | 0 <= i < 2 ensures IsDigit(id[12..14][i]) { assert id[12..14][i] == s[k + 12 + i]; }
    }
    ValidLovIdShape(id);
  }

  /** `normalizeLovId`: the first LOV id anywhere in the text. */
  function NormalizeLovId(lovId: string): (r: Option<string>)
    ensures r.Some? ==> IsValidLovId(r.value)
  {
    match FirstMatch(LovIdAt, lovId, 0)
    case Some(h) => Some(h.groups[1].value)
    case None => None
  }

  /** A valid id normalises to itself. */
  lemma NormalizeValidId(lovId: string)
    requires IsValidLovId(lovId)
    ensures NormalizeLovId(lovId) == Some(lovId)
  {
    assert LovIdEnd(lovId, 0) == Some(|lovId|);
    assert lovId[0..|lovId|] == lovId;
    assert MatchesAt(LovIdAt, lovId, 0);
  }

  /** Normalising twice is normalising once. */
  lemma NormalizeIdempotent(lovId: string)
    requires NormalizeLovId(lovId).Some?
    ensures NormalizeLovId(NormalizeLovId(lovId).value) == NormalizeLovId(lovId)
  {
    NormalizeValidId(NormalizeLovId(lovId).value);
  }

  // ---------------------------------------------------------------------------
  // The month table

  /** The own entries of `MONTH_NAMES`. */
  const MonthNames: map<string, string> := map[
    "januar" := "01", "februar" := "02", "mars" := "03", "april" := "04",
    "mai" := "05", "juni" := "06", "juli" := "07", "august" := "08",
    "september" := "09", "oktober" := "10", "november" := "11", "desember" := "12",
    "jan" := "01", "feb" := "02", "mar" := "03", "apr" := "04",
    "jun" := "06", "jul" := "07", "aug" := "08", "sep" := "09",
    "okt" := "10", "nov" := "11", "des" := "12"]

  /** What a month table lookup is taken to give: a month's two digits, or nothing. */
  type MonthLookup = string -> Option<string>

  /** `MONTH_NAMES[name]` restricted to the table's own keys. */
  function MonthNumber(name: string): (r: Option<string>)
    ensures r.Some? ==> |r.value| == 2 && AllDigits(r.value)
  {
    if name in MonthNames then Some(MonthNames[name]) else None
  }

  /**
   * `MONTH_NAMES[name]` as JavaScript evaluates it on a plain object: a key the
   * table lacks is looked up on `Object.prototype`. Of the inherited names only
   * `constructor` is made of lower-case letters, and its value, the `Object`
   * function, is truthy and prints as `ObjectConstructorText`.
   */
  function MonthLookupAsWritten(name: string): (r: Option<string>)
    ensures name in MonthNames ==> r == MonthNumber(name)
  {
    if name in MonthNames then Some(MonthNames[name])
    else if name == "constructor" then Some(ObjectConstructorText)
    else None
  }

  const ObjectConstructorText: string := "function Object() { [native code] }"

  // ---------------------------------------------------------------------------
  // The date form `(\d{1,2})\s*\.?\s*([a-zæøå]+)\s+(\d{4})\s+nr\.?\s*(\d+)`

  /** `[a-zæøå]` */
  predicate IsMonthLetter(c: char) { IsAsciiLower(c) || c == '\U{E6}' || c == '\U{F8}' || c == '\U{E5}' }

  /** `[a-zæøå]` under the `i` flag: a letter whose lower case is in the class. */
  predicate IsMonthLetterCI(c: char) { IsMonthLetter(ToLowerChar(c)) }

  predicate MonthLetter(ci: bool, c: char) { if ci then IsMonthLetterCI(c) else IsMonthLetter(c) }

  /** End of the run of month letters that starts at `i`. */
  function LetterRun(s: string, i: nat, ci: bool): (e: nat)
    requires i <= |s|
    ensures i <= e <= |s|
    ensures forall k :: i <= k < e ==> MonthLetter(ci, s[k])
    ensures e < |s| ==> !MonthLetter(ci, s[e])
    decreases |s| - i
  {
    if i < |s| && MonthLetter(ci, s[i]) then LetterRun(s, i + 1, ci) else i
  }

  /** The groups of a day-month-year prefix and where it ends. */
  datatype DayMonthYear = DayMonthYear(day: string, month: string, year: string, end: nat)

  /** `\d{1,2}` at `k`, greedy. */
  function DayEnd(s: string, k: nat): (a: nat)
    requires k < |s| && IsDigit(s[k])
    ensures k < a <= k + 2 && a <= |s|
    ensures 1 <= |s[k..a]| <= 2 && AllDigits(s[k..a])
  {
    if k + 1 < |s| && IsDigit(s[k + 1]) then k + 2 else k + 1
  }

  /** `\s*\.?\s*` at `a`: where the month starts. */
  function MonthStart(s: string, a: nat): (x: nat)
    requires a <= |s|
    ensures a <= x <= |s|
  {
    var b := SpaceRun(s, a);
    if CharAt(s, b, '.') then SpaceRun(s, b + 1) else b
  }

  /** The month letters between `x` and `y`. */
  lemma MonthSlice(s: string, x: nat, y: nat, ci: bool)
    requires x <= y <= |s| && forall k :: x <= k < y ==> MonthLetter(ci, s[k])
    ensures forall i :: 0 <= i < |s[x..y]| ==> MonthLetter(ci, s[x..y][i])
  {
    forall i | 0 <= i < |s[x..y]| ensures MonthLetter(ci, s[x..y][i]) {
      assert s[x..y][i] == s[x + i];
    }
  }

  /**
   * `(\d{1,2})\s*\.?\s*([a-zæøå]+)\s+(\d{4})` at `k`. Backtracking never finds
   * another match here: a shorter day leaves a digit where the month must
   * start, and a shorter month leaves a letter where a space must follow.
   */
  function DayMonthYearAt(s: string, k: nat, ci: bool): (r: Option<DayMonthYear>)
    ensures r.Some? ==> k < r.value.end <= |s|
    ensures r.Some? ==> 1 <= |r.value.day| <= 2 && AllDigits(r.value.day)
    ensures r.Some? ==> |r.value.month| > 0 && forall i :: 0 <= i < |r.value.month| ==> MonthLetter(ci, r.value.month[i])
    ensures r.Some? ==> |r.value.year| == 4 && AllDigits(r.value.year)
  {
    if !(k < |s| && IsDigit(s[k])) then None
    else
      var a := DayEnd(s, k);
      var x := MonthStart(s, a);
      var y := LetterRun(s, x, ci);
      var z := SpaceRun(s, y);
      if y == x || z == y || !DigitsAt(s, z, 4) then None
      else
        MonthSlice(s, x, y, ci);
        DigitsSlice(s, z, z + 4);
        Some(DayMonthYear(s[k..a], s[x..y], s[z..z + 4], z + 4))
  }

  /** The four groups of the date form. */
  datatype DateRef = DateRef(day: string, month: string, year: string, nr: string)

  /** `\s+nr\.?\s*` at `w`: where the number starts; `ci` gives the `i` flag. */
  function NrStart(s: string, w: nat, ci: bool): (r: Option<nat>)
    requires w <= |s|
    ensures r.Some? ==> w < r.value <= |s|
  {
    var v := SpaceRun(s, w);
    var nrAt := if ci then LitAtCI(s, v, "nr") else LitAt(s, v, "nr");
    if v == w || !nrAt then None
    else Some(SpaceRun(s, if CharAt(s, v + 2, '.') then v + 3 else v + 2))
  }

  /** The date form at `k`: its groups and where it ends. */
  function DateRefAt(s: string, k: nat, ci: bool): (r: Option<(DateRef, nat)>)
    ensures r.Some? ==> k < r.value.1 <= |s|
    ensures r.Some? ==> var d := r.value.0;
      && 1 <= |d.day| <= 2 && AllDigits(d.day) && |d.year| == 4 && AllDigits(d.year)
      && |d.nr| > 0 && AllDigits(d.nr)
      && |d.month| > 0 && forall i :: 0 <= i < |d.month| ==> MonthLetter(ci, d.month[i])
  {
    match DayMonthYearAt(s, k, ci)
    case None => None
    case Some(dmy) =>
      match NrStart(s, dmy.end, ci)
      case None => None
      case Some(q) =>
        var e := DigitRun(s, q);
        if e == q then None
        else
          DigitsSlice(s, q, e);
          Some((DateRef(dmy.day, dmy.month, dmy.year, s[q..e]), e))
  }

  /** The date pattern of `parseLovReference` (flag `i`) as a match array. */
  function DateRefAtCI(s: string, k: nat): (r: Option<MatchAt>)
    ensures r.Some? ==> DateRefAt(s, k, true).Some?
  {
    match DateRefAt(s, k, true)
    case Some((d, e)) => Some(MatchAt(e - k, [Some(s[k..e]), Some(d.day), Some(d.month), Some(d.year), Some(d.nr)]))
    case None => None
  }

  // ---------------------------------------------------------------------------
  // parseLovReference

  /** `parseLovReference` with the month table given as `lookup`. */
  function LovReferenceWith(ref: string, lookup: MonthLookup): Option<string> {
    if IsValidLovId(ref) then Some(ref)
    else
      match FirstMatch(DateRefAtCI, ref, 0)
      case None => None
      case Some(h) =>
        var d := DateRefAt(ref, h.start, true).value.0;
        match lookup(Lower(d.month))
        case None => None
        case Some(month) => Some(LovId(d.year, month, PadStart(d.day, 2, '0'), d.nr))
  }

  /** `parseLovReference`, with the month table's own keys only. */
  function ParseLovReference(ref: string): Option<string> {
    LovReferenceWith(ref, MonthNumber)
  }

  /** `parseLovReference` as written, reaching `Object.prototype` for a missing month. */
  function ParseLovReferenceAsWritten(ref: string): Option<string> {
    LovReferenceWith(ref, MonthLookupAsWritten)
  }

  /** A LOV id is returned unchanged, and every other result is a canonical LOV id. */
  lemma LovReferenceValid(ref: string)
    ensures IsValidLovId(ref) ==> ParseLovReference(ref) == Some(ref)
    ensures ParseLovReference(ref).Some? ==> IsValidLovId(ParseLovReference(ref).value)
  {
    if !IsValidLovId(ref) && ParseLovReference(ref).Some? {
      var h := FirstMatch(DateRefAtCI, ref, 0).value;
      var d := DateRefAt(ref, h.start, true).value.0;
      var month := MonthNumber(Lower(d.month)).value;
      var day := PadStart(d.day, 2, '0');
      assert AllDigits(day) by {
        forall i | 0 <= i < |day| ensures IsDigit(day[i]) {
          if i < |day| - |d.day| {
          } else {
            assert day[i] == day[|day| - |d.day|..][i - (|day| - |d.day|)];
          }
        }
      }
      LovIdShaped(d.year, month, day, d.nr);
    }
  }

  // ---------------------------------------------------------------------------
  // A written-out date reference

  /** The parts of a date reference as the patterns capture them. */
  predicate IsDateRefParts(day: string, month: string, year: string, nr: string) {
    && 1 <= |day| <= 2 && AllDigits(day)
    && |month| > 0 && (forall i :: 0 <= i < |month| ==> IsMonthLetter(month[i]))
    && |year| == 4 && AllDigits(year) && |nr| > 0 && AllDigits(nr)
  }

  /** A date reference written out in the layout of the source's example: `D month YYYY nr. N`. */
  function DateRefText(day: string, month: string, year: string, nr: string): string {
    day + " " + month + " " + year + " nr. " + nr
  }

  /** `t` holds the date reference `D month YYYY nr. N`, position by position. */
  predicate DateRefLayout(t: string, day: string, month: string, year: string, nr: string) {
    var x := |day| + 1; var z := x + |month| + 1; var w := z + 4;
    && |year| == 4 && |t| == w + 5 + |nr|
    && (forall i :: 0 <= i < |day| ==> t[i] == day[i])
    && t[|day|] == ' '
    && (forall i :: 0 <= i < |month| ==> t[x + i] == month[i])
    && t[x + |month|] == ' '
    && (forall i :: 0 <= i < 4 ==> t[z + i] == year[i])
    && t[w] == ' ' && t[w + 1] == 'n' && t[w + 2] == 'r' && t[w + 3] == '.' && t[w + 4] == ' '
    && (forall i :: 0 <= i < |nr| ==> t[w + 5 + i] == nr[i])
  }

  lemma DateRefTextLayout(day: string, month: string, year: string, nr: string)
    requires |year| == 4
    ensures DateRefLayout(DateRefText(day, month, year, nr), day, month, year, nr)
  {
  }

  /** The characters of a lower-case month name are month letters under the `i` flag too. */
  lemma MonthLettersCI(month: string)
    requires forall i :: 0 <= i < |month| ==> IsMonthLetter(month[i])
    ensures forall i :: 0 <= i < |month| ==> IsMonthLetterCI(month[i]) && ToLowerChar(month[i]) == month[i]
    ensures Lower(month) == month
  {
  }

  lemma LetterRunExact(s: string, i: nat, e: nat, ci: bool)
    requires i <= e <= |s|
    requires forall k :: i <= k < e ==> MonthLetter(ci, s[k])
    requires e == |s| || !MonthLetter(ci, s[e])
    ensures LetterRun(s, i, ci) == e
    decreases e - i
  {
    if i < e {
      LetterRunExact(s, i + 1, e, ci);
    }
  }

  lemma LayoutSlices(t: string, day: string, month: string, year: string, nr: string)
    requires DateRefLayout(t, day, month, year, nr)
    ensures var x := |day| + 1; var z := x + |month| + 1;
      t[0..|day|] == day && t[x..x + |month|] == month && t[z..z + 4] == year
  {
    var x := |day| + 1; var z := x + |month| + 1;
    forall i | 0 <= i < |month| ensures t[x..x + |month|][i] == month[i] { assert t[x..x + |month|][i] == t[x + i]; }
    forall i | 0 <= i < 4 ensures t[z..z + 4][i] == year[i] { assert t[z..z + 4][i] == t[z + i]; }
  }

  lemma LayoutDayMonthYear(t: string, day: string, month: string, year: string, nr: string)
    requires IsDateRefParts(day, month, year, nr) && DateRefLayout(t, day, month, year, nr)
    ensures DayMonthYearAt(t, 0, true) == Some(DayMonthYear(day, month, year, |day| + |month| + 6))
  {
    MonthLettersCI(month);
    LayoutSlices(t, day, month, year, nr);
    var x := |day| + 1;
    var y := x + |month|;
    var z := y + 1;
    assert DayEnd(t, 0) == |day|;
    SpaceRunExact(t, |day|, x);
    assert MonthStart(t, |day|) == x;
    LetterRunExact(t, x, y, true);
    SpaceRunExact(t, y, z);
    assert DigitsAt(t, z, 4);
  }

  /** `\s+nr\.?\s*` laid out as ` nr. ` before a non-space. */
  lemma NrStartAt(s: string, w: nat)
    requires w + 5 < |s| && s[w] == ' ' && s[w + 1] == 'n' && s[w + 2] == 'r' && s[w + 3] == '.' && s[w + 4] == ' '
    requires !IsSpace(s[w + 5])
    ensures NrStart(s, w, true) == Some(w + 5)
  {
    SpaceRunExact(s, w, w + 1);
    assert LitAtCI(s, w + 1, "nr");
    SpaceRunExact(s, w + 4, w + 5);
  }

  lemma DateRefFrom(t: string, dmy: DayMonthYear, q: nat)
    requires DayMonthYearAt(t, 0, true) == Some(dmy) && NrStart(t, dmy.end, true) == Some(q)
    requires q < |t| && DigitRun(t, q) == |t|
    ensures DateRefAt(t, 0, true) == Some((DateRef(dmy.day, dmy.month, dmy.year, t[q..|t|]), |t|))
  {
  }

  /** ` nr. N` at `w`, up to the end of `t`. */
  lemma NrTail(t: string, w: nat, nr: string)
    requires |nr| > 0 && AllDigits(nr) && |t| == w + 5 + |nr|
    requires t[w] == ' ' && t[w + 1] == 'n' && t[w + 2] == 'r' && t[w + 3] == '.' && t[w + 4] == ' '
    requires forall i :: 0 <= i < |nr| ==> t[w + 5 + i] == nr[i]
    ensures NrStart(t, w, true) == Some(w + 5) && DigitRun(t, w + 5) == |t| && t[w + 5..|t|] == nr
  {
    assert t[w + 5] == nr[0];
    NrStartAt(t, w);
    forall k | w + 5 <= k < |t| ensures IsDigit(t[k]) { assert t[k] == nr[k - (w + 5)]; }
    DigitRunExact(t, w + 5, |t|);
    assert |t[w + 5..|t|]| == |nr|;
    forall i | 0 <= i < |nr| ensures t[w + 5..|t|][i] == nr[i] { assert t[w + 5..|t|][i] == t[w + 5 + i]; }
  }

  lemma LayoutDateRef(t: string, day: string, month: string, year: string, nr: string)
    requires IsDateRefParts(day, month, year, nr) && DateRefLayout(t, day, month, year, nr)
    ensures DateRefAt(t, 0, true) == Some((DateRef(day, month, year, nr), |t|))
  {
    LayoutDayMonthYear(t, day, month, year, nr);
    var w := |day| + |month| + 6;
    LayoutNrTail(t, day, month, year, nr);
    DateRefFrom(t, DayMonthYear(day, month, year, w), w + 5);
  }

  lemma LayoutNrTail(t: string, day: string, month: string, year: string, nr: string)
    requires IsDateRefParts(day, month, year, nr) && DateRefLayout(t, day, month, year, nr)
    ensures var w := |day| + |month| + 6;
      NrStart(t, w, true) == Some(w + 5) && DigitRun(t, w + 5) == |t| && t[w + 5..|t|] == nr
  {
    NrTail(t, |day| + |month| + 6, nr);
  }

  lemma LayoutParses(t: string, day: string, month: string, year: string, nr: string, lookup: MonthLookup)
    requires IsDateRefParts(day, month, year, nr) && DateRefLayout(t, day, month, year, nr)
    ensures t[0] == day[0]
    ensures LovReferenceWith(t, lookup) ==
      if lookup(month).Some? then Some(LovId(year, lookup(month).value, PadStart(day, 2, '0'), nr)) else None
  {
    LayoutDateRef(t, day, month, year, nr);
    DigitFirstNotLovId(t);
    DateRefMatchAtStart(t);
    MonthLettersCI(month);
  }

  /** A text that starts with a digit is no LOV id. */
  lemma DigitFirstNotLovId(t: string)
    requires |t| > 0 && IsDigit(t[0])
    ensures !IsValidLovId(t)
  {
    assert |t| >= 4 ==> t[0..4][0] == t[0];
  }

  /** A date reference that starts the text is the first match. */
  lemma DateRefMatchAtStart(t: string)
    requires DateRefAt(t, 0, true).Some?
    ensures FirstMatch(DateRefAtCI, t, 0).Some? && FirstMatch(DateRefAtCI, t, 0).value.start == 0
  {
    assert MatchesAt(DateRefAtCI, t, 0);
    FirstMatchAt(DateRefAtCI, t, 0, 0);
  }

  /**
   * `D month YYYY nr. N` becomes `LOV-YYYY-MM-DD-N`, the day padded to two
   * digits, whenever the lookup knows the month; nothing otherwise.
   */
  lemma DateRefTextParses(day: string, month: string, year: string, nr: string, lookup: MonthLookup)
    requires IsDateRefParts(day, month, year, nr)
    ensures LovReferenceWith(DateRefText(day, month, year, nr), lookup) ==
      if lookup(month).Some? then Some(LovId(year, lookup(month).value, PadStart(day, 2, '0'), nr)) else None
  {
    DateRefTextLayout(day, month, year, nr);
    LayoutParses(DateRefText(day, month, year, nr), day, month, year, nr, lookup);
  }

  /** The parse of `parseLovReference` on a written-out date: known months map, unknown ones give nothing. */
  lemma ParseDateRefText(day: string, month: string, year: string, nr: string)
    requires IsDateRefParts(day, month, year, nr)
    ensures month in MonthNames ==>
      ParseLovReference(DateRefText(day, month, year, nr)) == Some(LovId(year, MonthNames[month], PadStart(day, 2, '0'), nr))
    ensures month !in MonthNames ==> ParseLovReference(DateRefText(day, month, year, nr)) == None
  {
    DateRefTextParses(day, month, year, nr, MonthNumber);
  }

  lemma JuniParts(day: string, month: string, year: string, nr: string)
    requires day == "20" && month == "juni" && year == "2014" && nr == "49"
    ensures IsDateRefParts(day, month, year, nr) && DateRefText(day, month, year, nr) == "20 juni 2014 nr. 49"
  {
  }

  lemma JuniId(day: string, month: string, year: string, nr: string)
    requires day == "20" && month == "juni" && year == "2014" && nr == "49"
    ensures month in MonthNames && LovId(year, MonthNames[month], PadStart(day, 2, '0'), nr) == "LOV-2014-06-20-49"
  {
  }

  /** The example of the file header: "20 juni 2014 nr. 49" is `LOV-2014-06-20-49`. */
  lemma ParseLovReferenceExample(ref: string)
    requires ref == "20 juni 2014 nr. 49"
    ensures ParseLovReference(ref) == Some("LOV-2014-06-20-49")
  {
    JuniParts("20", "juni", "2014", "49");
    JuniId("20", "juni", "2014", "49");
    ParseDateRefText("20", "juni", "2014", "49");
  }

  // ---------------------------------------------------------------------------
  // The month token `constructor`

  const ConstructorRef: string := "1 constructor 2014 nr. 5"

  lemma ConstructorParts(day: string, month: string, year: string, nr: string)
    requires day == "1" && month == "constructor" && year == "2014" && nr == "5"
    ensures IsDateRefParts(day, month, year, nr)
  {
  }

  lemma ConstructorNotOwn(month: string)
    requires month == "constructor"
    ensures month !in MonthNames
  {
  }

  lemma ConstructorText(day: string, month: string, year: string, nr: string)
    requires day == "1" && month == "constructor" && year == "2014" && nr == "5"
    ensures DateRefText(day, month, year, nr) == ConstructorRef && PadStart(day, 2, '0') == "01"
  {
  }

  /** What the unguarded lookup builds for `constructor` is no LOV id: its month field is not two digits. */
  lemma ConstructorIdMalformed(id: string)
    requires id == LovId("2014", ObjectConstructorText, "01", "5")
    ensures !IsValidLovId(id)
  {
    assert id[9] == 'f';
    assert id[9..11][0] == id[9];
    ValidLovIdShape(id);
  }

  /**
   * As written, `parseLovReference("1 constructor 2014 nr. 5")` takes
   * `Object.prototype.constructor` for the month and returns a malformed id;
   * with the table's own keys only it returns null, as for any unknown month.
   */
  lemma ConstructorMonthAsWritten(ref: string)
    requires ref == ConstructorRef
    ensures ParseLovReferenceAsWritten(ref) == Some(LovId("2014", ObjectConstructorText, "01", "5"))
    ensures !IsValidLovId(ParseLovReferenceAsWritten(ref).value)
    ensures ParseLovReference(ref) == None
  {
    ConstructorParts("1", "constructor", "2014", "5");
    ConstructorNotOwn("constructor");
    ConstructorText("1", "constructor", "2014", "5");
    DateRefTextParses("1", "constructor", "2014", "5", MonthLookupAsWritten);
    DateRefTextParses("1", "constructor", "2014", "5", MonthNumber);
    ConstructorIdMalformed(LovId("2014", ObjectConstructorText, "01", "5"));
  }

  // ---------------------------------------------------------------------------
  // Records

  datatype AmendmentType = Endret | Tilfoyd | Opphevet | Ikrafttredelse

  datatype Position = Suffix | Inline | Transition

  /** `AmendmentReference` */
  datatype AmendmentReference = AmendmentReference(
    amendedByLov: string, amendmentType: AmendmentType, position: Position, rawText: string)

  /** `ProvisionAmendment` */
  datatype ProvisionAmendment = ProvisionAmendment(provisionRef: string, amendments: seq<AmendmentReference>)

  /** The key of the shared `seenLovIds` set. */
  function LovKey(a: AmendmentReference): string { a.amendedByLov }

  /** Group `i` of a hit, or the empty string when it did not take part. */
  function Group(h: Hit, i: nat): string {
    if i < |h.groups| && h.groups[i].Some? then h.groups[i].value else ""
  }

  // ---------------------------------------------------------------------------
  // AMENDED_PATTERN, ADDED_PATTERN, REPEALED_PATTERN:
  // `VERB\s+ved\s+lov\s+((?:DATE)|(?:LOV-\d{4}-\d{2}-\d{2}-\d+))` with flags `gu`

  /** The three verbs the explicit patterns start with. */
  datatype Verb = Amended | Added | Repealed

  function VerbType(v: Verb): AmendmentType {
    match v
    case Amended => Endret
    case Added => Tilfoyd
    case Repealed => Opphevet
  }

  /** `[Ee]ndret`, `[Tt]ilf[øo]yd` or `[Oo]pphevet` at `k`: where the verb ends. */
  function VerbEnd(v: Verb, s: string, k: nat): (r: Option<nat>)
    ensures r.Some? ==> k < r.value <= |s|
  {
    match v
    case Amended =>
      if (CharAt(s, k, 'E') || CharAt(s, k, 'e')) && LitAt(s, k + 1, "ndret") then Some(k + 6) else None
    case Added =>
      if && (CharAt(s, k, 'T') || CharAt(s, k, 't')) && LitAt(s, k + 1, "ilf")
         && (CharAt(s, k + 4, '\U{F8}') || CharAt(s, k + 4, 'o')) && LitAt(s, k + 5, "yd")
      then Some(k + 7) else None
    case Repealed =>
      if (CharAt(s, k, 'O') || CharAt(s, k, 'o')) && LitAt(s, k + 1, "pphevet") then Some(k + 8) else None
  }

  /** `\s+word` at `i`: where the word ends. */
  function SpacedWordEnd(s: string, i: nat, w: string): (r: Option<nat>)
    requires i <= |s|
    ensures r.Some? ==> i < r.value <= |s|
  {
    var j := SpaceRun(s, i);
    if j > i && LitAt(s, j, w) then Some(j + |w|) else None
  }

  /**
   * Group 1 at `g`: the case-sensitive date form, else a LOV id. The two
   * alternatives start with a digit and with `L`, so at most one applies.
   */
  function ReferenceEnd(s: string, g: nat): (r: Option<nat>)
    ensures r.Some? ==> g < r.value <= |s|
  {
    match DateRefAt(s, g, false)
    case Some((_, e)) => Some(e)
    case None => LovIdEnd(s, g)
  }

  /** The explicit pattern for `v` at `k`: group 1 is the reference after `lov`. */
  function VerbAt(v: Verb, s: string, k: nat): (r: Option<MatchAt>)
    ensures r.Some? ==> |r.value.groups| == 2
  {
    match VerbEnd(v, s, k)
    case None => None
    case Some(a) =>
      match SpacedWordEnd(s, a, "ved")
      case None => None
      case Some(b) =>
        match SpacedWordEnd(s, b, "lov")
        case None => None
        case Some(c) =>
          var g := SpaceRun(s, c);
          if g == c then None
          else
            match ReferenceEnd(s, g)
            case None => None
            case Some(e) => Some(MatchAt(e - k, [Some(s[k..e]), Some(s[g..e])]))
  }

  function AmendedAt(s: string, k: nat): Option<MatchAt> { VerbAt(Amended, s, k) }
  function AddedAt(s: string, k: nat): Option<MatchAt> { VerbAt(Added, s, k) }
  function RepealedAt(s: string, k: nat): Option<MatchAt> { VerbAt(Repealed, s, k) }

  function VerbPattern(v: Verb): Matcher {
    match v
    case Amended => AmendedAt
    case Added => AddedAt
    case Repealed => RepealedAt
  }

  /** What the loop for `v` would push for one hit if its id were new: nothing when the reference does not parse. */
  function ExplicitRecord(h: Hit, v: Verb): seq<AmendmentReference> {
    RecordOf(ParseLovReference(Group(h, 1)), h, v)
  }

  function RecordOf(lovId: Option<string>, h: Hit, v: Verb): (r: seq<AmendmentReference>)
    ensures |r| <= 1
  {
    match lovId
    case None => []
    case Some(id) => [AmendmentReference(id, VerbType(v), Inline, Group(h, 0))]
  }

  /** The candidate records of the hits of the scan for `v`, in order. */
  function ExplicitRecords(hits: seq<Hit>, v: Verb): seq<AmendmentReference>
    decreases |hits|
  {
    if hits == [] then []
    else ExplicitRecords(hits[..|hits| - 1], v) + ExplicitRecord(hits[|hits| - 1], v)
  }

  /** Every candidate of an explicit scan has the scan's type, position `inline` and a canonical LOV id. */
  lemma {:induction false} ExplicitRecordsShape(hits: seq<Hit>, v: Verb)
    ensures forall r :: r in ExplicitRecords(hits, v) ==>
      r.amendmentType == VerbType(v) && r.position == Inline && IsValidLovId(r.amendedByLov)
    decreases |hits|
  {
    if hits != [] {
      ExplicitRecordsShape(hits[..|hits| - 1], v);
      LovReferenceValid(Group(hits[|hits| - 1], 1));
    }
  }

  function ScanRecords(content: string, v: Verb): seq<AmendmentReference> {
    ExplicitRecords(MatchAll(VerbPattern(v), content), v)
  }

  /** The candidates of the three explicit scans, in scan order. */
  function ExplicitCandidates(content: string): seq<AmendmentReference> {
    ScanRecords(content, Amended) + ScanRecords(content, Added) + ScanRecords(content, Repealed)
  }

  // ---------------------------------------------------------------------------
  // The fallback: LOV_PATTERN and FORCE_PATTERN

  /** `[Tt]rer\s+i\s+kraft|[Ii]krafttredelse` at `k`; the alternatives start with different letters. */
  function ForceAt(s: string, k: nat): (r: Option<MatchAt>)
  {
    var first :=
      if (CharAt(s, k, 'T') || CharAt(s, k, 't')) && LitAt(s, k + 1, "rer") then
        match SpacedWordEnd(s, k + 4, "i")
        case None => None
        case Some(b) => SpacedWordEnd(s, b, "kraft")
      else None;
    if first.Some? then Some(MatchAt(first.value - k, [Some(s[k..first.value])]))
    else if (CharAt(s, k, 'I') || CharAt(s, k, 'i')) && LitAt(s, k + 1, "krafttredelse") then
      Some(MatchAt(14, [Some(s[k..k + 14])]))
    else None
  }

  /** `FORCE_PATTERN.test(content)` */
  predicate ForceOccurs(content: string) {
    FirstMatch(ForceAt, content, 0).Some?
  }

  function FallbackRecord(h: Hit, transition: bool): AmendmentReference {
    AmendmentReference(Group(h, 1), if transition then Ikrafttredelse else Endret,
      if transition then Transition else Suffix, Group(h, 0))
  }

  function FallbackRecords(hits: seq<Hit>, transition: bool): (r: seq<AmendmentReference>)
    ensures |r| == |hits| && forall i :: 0 <= i < |hits| ==> r[i] == FallbackRecord(hits[i], transition)
    decreases |hits|
  {
    if hits == [] then []
    else FallbackRecords(hits[..|hits| - 1], transition) + [FallbackRecord(hits[|hits| - 1], transition)]
  }

  // ---------------------------------------------------------------------------
  // extractAmendmentReferences

  /** What `extractAmendmentReferences` returns. */
  function AmendmentReferences(content: string): seq<AmendmentReference> {
    Outcome(ExplicitCandidates(content), FallbackCandidates(content))
  }

  /** The candidates of the bare LOV scan. */
  function FallbackCandidates(content: string): seq<AmendmentReference> {
    FallbackRecords(MatchAll(LovIdAt, content), ForceOccurs(content))
  }

  /** The explicit candidates de-duplicated, or the fallback's when that leaves nothing. */
  function Outcome(xs: seq<AmendmentReference>, fs: seq<AmendmentReference>): seq<AmendmentReference> {
    var explicit := Dedup(xs, LovKey, {});
    if |explicit| > 0 then explicit else Dedup(fs, LovKey, {})
  }

  lemma ExplicitRecordsPrefix(hits: seq<Hit>, i: nat, v: Verb)
    requires i < |hits|
    ensures ExplicitRecords(hits[..i + 1], v) == ExplicitRecords(hits[..i], v) + ExplicitRecord(hits[i], v)
  {
    assert hits[..i + 1][..i] == hits[..i];
  }

  lemma FallbackRecordsPrefix(hits: seq<Hit>, i: nat, transition: bool)
    requires i < |hits|
    ensures FallbackRecords(hits[..i + 1], transition) == FallbackRecords(hits[..i], transition) + [FallbackRecord(hits[i], transition)]
  {
    assert hits[..i + 1][..i] == hits[..i];
  }

  /** The loop of one explicit scan over its hits. */
  method ScanVerb(hits: seq<Hit>, v: Verb, amendments: seq<AmendmentReference>, seenLovIds: set<string>)
    returns (amendments': seq<AmendmentReference>, seenLovIds': set<string>)
    ensures Pushed(amendments', seenLovIds') == PushAll(Pushed(amendments, seenLovIds), ExplicitRecords(hits, v), LovKey)
  {
    amendments', seenLovIds' := amendments, seenLovIds;
    var i := 0;
    while i < |hits|
      invariant 0 <= i <= |hits|
      invariant Pushed(amendments', seenLovIds') == PushAll(Pushed(amendments, seenLovIds), ExplicitRecords(hits[..i], v), LovKey)
    {
      var m := hits[i];
      ExplicitRecordsPrefix(hits, i, v);
      PushAllSnoc(Pushed(amendments, seenLovIds), ExplicitRecords(hits[..i], v), ExplicitRecord(m, v), LovKey);
      var lovId := ParseLovReference(Group(m, 1));
      if lovId.Some? && lovId.value !in seenLovIds' {
        seenLovIds' := seenLovIds' + {lovId.value};
        amendments' := amendments' + [AmendmentReference(lovId.value, VerbType(v), Inline, Group(m, 0))];
      }
      i := i + 1;
    }
    assert hits[..|hits|] == hits;
  }

  /** The fallback loop over the hits of the bare LOV pattern. */
  method ScanBareIds(content: string, hits: seq<Hit>, amendments: seq<AmendmentReference>, seenLovIds: set<string>)
    returns (amendments': seq<AmendmentReference>, seenLovIds': set<string>)
    ensures Pushed(amendments', seenLovIds') ==
      PushAll(Pushed(amendments, seenLovIds), FallbackRecords(hits, ForceOccurs(content)), LovKey)
  {
    ghost var transition := ForceOccurs(content);
    amendments', seenLovIds' := amendments, seenLovIds;
    var i := 0;
    while i < |hits|
      invariant 0 <= i <= |hits|
      invariant Pushed(amendments', seenLovIds') == PushAll(Pushed(amendments, seenLovIds), FallbackRecords(hits[..i], transition), LovKey)
    {
      var m := hits[i];
      var lovId := Group(m, 1);
      FallbackRecordsPrefix(hits, i, transition);
      PushAllSnoc(Pushed(amendments, seenLovIds), FallbackRecords(hits[..i], transition), [FallbackRecord(m, transition)], LovKey);
      if lovId !in seenLovIds' {
        seenLovIds' := seenLovIds' + {lovId};
        var isTransition := ForceOccurs(content);
        amendments' := amendments' + [AmendmentReference(lovId, if isTransition then Ikrafttredelse else Endret,
          if isTransition then Transition else Suffix, Group(m, 0))];
      }
      i := i + 1;
    }
    assert hits[..|hits|] == hits;
  }

  /** `extractAmendmentReferences` */
  method ExtractAmendmentReferences(content: string) returns (amendments: seq<AmendmentReference>)
    ensures amendments == AmendmentReferences(content)
  {
    var amendedHits := MatchAll(VerbPattern(Amended), content);
    var addedHits := MatchAll(VerbPattern(Added), content);
    var repealedHits := MatchAll(VerbPattern(Repealed), content);
    ghost var a := ExplicitRecords(amendedHits, Amended);
    ghost var b := ExplicitRecords(addedHits, Added);
    ghost var c := ExplicitRecords(repealedHits, Repealed);
    amendments := [];
    var seenLovIds: set<string> := {};
    amendments, seenLovIds := ScanVerb(amendedHits, Amended, amendments, seenLovIds);
    amendments, seenLovIds := ScanVerb(addedHits, Added, amendments, seenLovIds);
    amendments, seenLovIds := ScanVerb(repealedHits, Repealed, amendments, seenLovIds);
    ExplicitPushes(a, b, c);
    assert a + b + c == ExplicitCandidates(content);
    ghost var explicit := Dedup(a + b + c, LovKey, {});
    assert amendments == explicit && seenLovIds == KeySet(a + b + c, LovKey);
    if |amendments| == 0 {
      var bareHits := MatchAll(LovIdAt, content);
      ghost var f := FallbackCandidates(content);
      DedupKeys(a + b + c, LovKey, {});
      assert KeySet(explicit, LovKey) == {};
      assert seenLovIds == {};
      amendments, seenLovIds := ScanBareIds(content, bareHits, amendments, seenLovIds);
      EmptyPushes(f);
    }
  }

  lemma EmptyPushes(f: seq<AmendmentReference>)
    ensures PushAll(Pushed([], {}), f, LovKey).items == Dedup(f, LovKey, {})
  {
    assert KeySet([], LovKey) == {};
    PushAllDedup([], f, LovKey);
    assert [] + f == f;
  }

  /** The three explicit loops in a row de-duplicate the concatenation of their candidates. */
  lemma ExplicitPushes(a: seq<AmendmentReference>, b: seq<AmendmentReference>, c: seq<AmendmentReference>)
    ensures PushAll(PushAll(PushAll(Pushed([], {}), a, LovKey), b, LovKey), c, LovKey) == Pushed(Dedup(a + b + c, LovKey, {}), KeySet(a + b + c, LovKey))
  {
    assert KeySet([], LovKey) == {};
    PushAllDedup([], a, LovKey);
    assert [] + a == a;
    PushAllDedup(a, b, LovKey);
    PushAllDedup(a + b, c, LovKey);
  }

  // ---------------------------------------------------------------------------
  // What extractAmendmentReferences promises

  /** The ids one explicit scan finds: exactly those its hits' references parse to. */
  lemma {:induction false} ExplicitKeys(hits: seq<Hit>, v: Verb, id: string)
    ensures id in KeySet(ExplicitRecords(hits, v), LovKey) <==>
      exists j :: 0 <= j < |hits| && ParseLovReference(Group(hits[j], 1)) == Some(id)
    decreases |hits|
  {
    if hits != [] {
      var init := hits[..|hits| - 1];
      var h := hits[|hits| - 1];
      ExplicitKeys(init, v, id);
      KeysAppend(ExplicitRecords(init, v), ExplicitRecord(h, v), LovKey);
      assert forall j :: 0 <= j < |init| ==> init[j] == hits[j];
      if exists j :: 0 <= j < |hits| && ParseLovReference(Group(hits[j], 1)) == Some(id) {
        var j :| 0 <= j < |hits| && ParseLovReference(Group(hits[j], 1)) == Some(id);
        if j == |init| {
          assert LovKey(ExplicitRecord(h, v)[0]) == id;
        }
      }
    }
  }

  /** The explicit scans decide the result: the fallback runs exactly when none of them found a candidate. */
  lemma OutcomeCases(xs: seq<AmendmentReference>, fs: seq<AmendmentReference>)
    ensures xs != [] ==> Outcome(xs, fs) == Dedup(xs, LovKey, {})
    ensures xs == [] ==> Outcome(xs, fs) == Dedup(fs, LovKey, {})
  {
    DedupKeys(xs, LovKey, {});
    if xs != [] {
      assert LovKey(xs[0]) in KeySet(xs, LovKey);
      assert LovKey(xs[0]) in KeySet(Dedup(xs, LovKey, {}), LovKey);
    }
  }

  lemma FallbackOnlyWithoutCandidates(content: string)
    ensures ExplicitCandidates(content) != [] ==>
      AmendmentReferences(content) == Dedup(ExplicitCandidates(content), LovKey, {})
    ensures ExplicitCandidates(content) == [] ==>
      AmendmentReferences(content) == Dedup(FallbackCandidates(content), LovKey, {})
  {
    OutcomeCases(ExplicitCandidates(content), FallbackCandidates(content));
  }

  /** What an outcome keeps: distinct ids, each record one of the candidates of the branch taken. */
  lemma OutcomeFacts(xs: seq<AmendmentReference>, fs: seq<AmendmentReference>)
    ensures var r := Outcome(xs, fs);
      && (forall a, b :: 0 <= a < b < |r| ==> r[a].amendedByLov != r[b].amendedByLov)
      && (xs != [] ==> forall y :: y in r ==> y in xs)
      && (xs == [] ==> forall y :: y in r ==> y in fs)
  {
    OutcomeCases(xs, fs);
    DedupKeys(xs, LovKey, {});
    DedupKeys(fs, LovKey, {});
  }

  /** No two results share an id. */
  lemma AmendmentIdsDistinct(content: string)
    ensures var r := AmendmentReferences(content);
      forall a, b :: 0 <= a < b < |r| ==> r[a].amendedByLov != r[b].amendedByLov
  {
    OutcomeFacts(ExplicitCandidates(content), FallbackCandidates(content));
  }

  /** Each explicit candidate is written inline, has its scan's type and a canonical id. */
  lemma ExplicitCandidatesShape(content: string)
    ensures var a := ScanRecords(content, Amended); var b := ScanRecords(content, Added);
      var c := ScanRecords(content, Repealed);
      && ExplicitCandidates(content) == a + b + c
      && (forall x :: x in a ==> x.amendmentType == Endret && x.position == Inline && IsValidLovId(x.amendedByLov))
      && (forall x :: x in b ==> x.amendmentType == Tilfoyd && x.position == Inline && IsValidLovId(x.amendedByLov))
      && (forall x :: x in c ==> x.amendmentType == Opphevet && x.position == Inline && IsValidLovId(x.amendedByLov))
  {
    ExplicitRecordsShape(MatchAll(VerbPattern(Amended), content), Amended);
    ExplicitRecordsShape(MatchAll(VerbPattern(Added), content), Added);
    ExplicitRecordsShape(MatchAll(VerbPattern(Repealed), content), Repealed);
  }

  /** Each fallback candidate is a canonical id written bare, typed by the force pattern. */
  lemma FallbackCandidatesShape(content: string)
    ensures forall x :: x in FallbackCandidates(content) ==>
      && IsValidLovId(x.amendedByLov) && x.rawText == x.amendedByLov
      && (ForceOccurs(content) ==> x.amendmentType == Ikrafttredelse && x.position == Transition)
      && (!ForceOccurs(content) ==> x.amendmentType == Endret && x.position == Suffix)
  {
    var hits := MatchAll(LovIdAt, content);
    var fs := FallbackRecords(hits, ForceOccurs(content));
    forall x | x in fs
      ensures IsValidLovId(x.amendedByLov) && x.rawText == x.amendedByLov
    {
      var j :| 0 <= j < |fs| && fs[j] == x;
      assert hits[j].groups == LovIdAt(content, hits[j].start).value.groups;
    }
  }

  /** Every result carries a canonical LOV id. */
  lemma AmendmentIdsValid(content: string)
    ensures forall x :: x in AmendmentReferences(content) ==> IsValidLovId(x.amendedByLov)
  {
    OutcomeFacts(ExplicitCandidates(content), FallbackCandidates(content));
    ExplicitCandidatesShape(content);
    FallbackCandidatesShape(content);
  }

  /** An explicit result is written inline and has the type of one of the three verbs. */
  lemma ExplicitShape(content: string)
    requires ExplicitCandidates(content) != []
    ensures forall x :: x in AmendmentReferences(content) ==>
      x.position == Inline && x.amendmentType in {Endret, Tilfoyd, Opphevet}
  {
    OutcomeFacts(ExplicitCandidates(content), FallbackCandidates(content));
    ExplicitCandidatesShape(content);
  }

  /**
   * A fallback result is the bare id as it was written; it is an entry into
   * force at a transition when the force pattern occurs anywhere in the
   * content, and an amendment in a suffix otherwise.
   */
  lemma FallbackShape(content: string)
    requires ExplicitCandidates(content) == []
    ensures forall x :: x in AmendmentReferences(content) ==>
      && x.rawText == x.amendedByLov
      && (ForceOccurs(content) ==> x.amendmentType == Ikrafttredelse && x.position == Transition)
      && (!ForceOccurs(content) ==> x.amendmentType == Endret && x.position == Suffix)
  {
    OutcomeFacts(ExplicitCandidates(content), FallbackCandidates(content));
    FallbackCandidatesShape(content);
  }

  /** Every id an explicit scan found is in the result, and nothing else is. */
  lemma ExplicitComplete(content: string)
    requires ExplicitCandidates(content) != []
    ensures KeySet(AmendmentReferences(content), LovKey) == KeySet(ExplicitCandidates(content), LovKey)
  {
    FallbackOnlyWithoutCandidates(content);
    DedupKeys(ExplicitCandidates(content), LovKey, {});
  }

  /** The first of three typed runs that holds a key decides the type a first-seen de-duplication keeps. */
  lemma FirstRunWins(a: seq<AmendmentReference>, b: seq<AmendmentReference>, c: seq<AmendmentReference>,
                     x: AmendmentReference)
    requires forall y :: y in a ==> y.amendmentType == Endret
    requires forall y :: y in b ==> y.amendmentType == Tilfoyd
    requires forall y :: y in c ==> y.amendmentType == Opphevet
    requires x in Dedup(a + b + c, LovKey, {})
    ensures x.amendmentType ==
        if LovKey(x) in KeySet(a, LovKey) then Endret
        else if LovKey(x) in KeySet(b, LovKey) then Tilfoyd
        else Opphevet
  {
    var xs := a + b + c;
    DedupKeepsFirst(xs, LovKey, {}, x);
    var i :| 0 <= i < |xs| && xs[i] == x && LovKey(x) !in Keys(xs[..i], LovKey);
    if i < |a| {
      assert x == a[i] && Keys(a, LovKey)[i] == LovKey(x);
    } else if i < |a| + |b| {
      assert xs[..i] == a + b[..i - |a|];
      KeysAppend(a, b[..i - |a|], LovKey);
      assert x == b[i - |a|] && Keys(b, LovKey)[i - |a|] == LovKey(x);
    } else {
      assert xs[..i] == a + b + c[..i - |a| - |b|];
      KeysAppend(a + b, c[..i - |a| - |b|], LovKey);
      KeysAppend(a, b, LovKey);
      assert x == c[i - |a| - |b|];
    }
  }

  /**
   * An id keeps the type of the first scan that found it: `endret` when the
   * amended scan found it, else `tilføyd` when the added scan did, else
   * `opphevet`.
   */
  lemma FirstScanWins(content: string, x: AmendmentReference)
    requires ExplicitCandidates(content) != [] && x in AmendmentReferences(content)
    ensures var a := ScanRecords(content, Amended); var b := ScanRecords(content, Added);
      x.amendmentType ==
        if LovKey(x) in KeySet(a, LovKey) then Endret
        else if LovKey(x) in KeySet(b, LovKey) then Tilfoyd
        else Opphevet
  {
    FallbackOnlyWithoutCandidates(content);
    ExplicitCandidatesShape(content);
    FirstRunWins(ScanRecords(content, Amended), ScanRecords(content, Added), ScanRecords(content, Repealed), x);
  }

  // ---------------------------------------------------------------------------
  // parseStatuteAmendments

  /** A provision as `parseStatuteAmendments` receives it. */
  datatype ProvisionText = ProvisionText(provisionRef: string, content: string)

  /** The references one provision content yields, as `extractAmendmentReferences` computes them. */
  type Extractor = string -> seq<AmendmentReference>

  /** The entry one provision contributes: none when it has no amendment reference. */
  function EntryOf(p: ProvisionText, extract: Extractor): seq<ProvisionAmendment> {
    var amendments := extract(p.content);
    if |amendments| > 0 then [ProvisionAmendment(p.provisionRef, amendments)] else []
  }

  /** The entries of a run of provisions, for any extractor. */
  function EntriesOf(provisions: seq<ProvisionText>, extract: Extractor): seq<ProvisionAmendment>
    decreases |provisions|
  {
    if provisions == [] then []
    else EntriesOf(provisions[..|provisions| - 1], extract) + EntryOf(provisions[|provisions| - 1], extract)
  }

  /** What `parseStatuteAmendments` returns. */
  function StatuteAmendments(provisions: seq<ProvisionText>): seq<ProvisionAmendment> {
    EntriesOf(provisions, AmendmentReferences)
  }

  /** `parseStatuteAmendments` */
  method ParseStatuteAmendments(provisions: seq<ProvisionText>) returns (results: seq<ProvisionAmendment>)
    ensures results == StatuteAmendments(provisions)
  {
    results := [];
    var i := 0;
    while i < |provisions|
      invariant 0 <= i <= |provisions|
      invariant results == EntriesOf(provisions[..i], AmendmentReferences)
    {
      var provision := provisions[i];
      EntriesPrefix(provisions, i, AmendmentReferences);
      var amendments := ExtractAmendmentReferences(provision.content);
      if |amendments| > 0 {
        results := results + [ProvisionAmendment(provision.provisionRef, amendments)];
      }
      i := i + 1;
    }
    assert provisions[..|provisions|] == provisions;
  }

  lemma EntriesPrefix(provisions: seq<ProvisionText>, i: nat, extract: Extractor)
    requires i < |provisions|
    ensures EntriesOf(provisions[..i + 1], extract) == EntriesOf(provisions[..i], extract) + EntryOf(provisions[i], extract)
  {
    assert provisions[..i + 1][..i] == provisions[..i];
  }

  /** The provisions are processed in order: the result for a concatenation is the concatenation of the results. */
  lemma {:induction false} EntriesConcat(xs: seq<ProvisionText>, ys: seq<ProvisionText>, extract: Extractor)
    ensures EntriesOf(xs + ys, extract) == EntriesOf(xs, extract) + EntriesOf(ys, extract)
    decreases |ys|
  {
    if ys == [] {
      assert xs + ys == xs;
    } else {
      var init := ys[..|ys| - 1];
      assert (xs + ys)[..|xs + ys| - 1] == xs + init;
      assert (xs + ys)[|xs + ys| - 1] == ys[|ys| - 1];
      EntriesConcat(xs, init, extract);
    }
  }

  /** Every entry is a provision of the input with a non-empty list, its own references. */
  lemma {:induction false} EntriesSound(provisions: seq<ProvisionText>, extract: Extractor, e: ProvisionAmendment)
    requires e in EntriesOf(provisions, extract)
    ensures |e.amendments| > 0
    ensures exists j :: (0 <= j < |provisions| && provisions[j].provisionRef == e.provisionRef &&
                         e.amendments == extract(provisions[j].content))
    decreases |provisions|
  {
    var init := provisions[..|provisions| - 1];
    var last := provisions[|provisions| - 1];
    if e in EntriesOf(init, extract) {
      EntriesSound(init, extract, e);
      var j :| 0 <= j < |init| && init[j].provisionRef == e.provisionRef && e.amendments == extract(init[j].content);
      assert provisions[j] == init[j];
    } else {
      assert e in EntryOf(last, extract);
    }
  }

  /** No provision with a reference is left out. */
  lemma {:induction false} EntriesComplete(provisions: seq<ProvisionText>, extract: Extractor, j: nat)
    requires j < |provisions| && |extract(provisions[j].content)| > 0
    ensures ProvisionAmendment(provisions[j].provisionRef, extract(provisions[j].content)) in EntriesOf(provisions, extract)
    decreases |provisions|
  {
    var init := provisions[..|provisions| - 1];
    if j < |init| {
      assert init[j] == provisions[j];
      EntriesComplete(init, extract, j);
    }
  }

  /** `parseStatuteAmendments` keeps input order: it distributes over concatenation. */
  lemma StatuteAmendmentsConcat(xs: seq<ProvisionText>, ys: seq<ProvisionText>)
    ensures StatuteAmendments(xs + ys) == StatuteAmendments(xs) + StatuteAmendments(ys)
  {
    EntriesConcat(xs, ys, AmendmentReferences);
  }

  /** Every entry of `parseStatuteAmendments` is an input provision with its non-empty references... */
  lemma StatuteAmendmentsSound(provisions: seq<ProvisionText>, e: ProvisionAmendment)
    requires e in StatuteAmendments(provisions)
    ensures |e.amendments| > 0
    ensures exists j :: (0 <= j < |provisions| && provisions[j].provisionRef == e.provisionRef &&
                         e.amendments == AmendmentReferences(provisions[j].content))
  {
    EntriesSound(provisions, AmendmentReferences, e);
  }

  /** ...and every provision with a reference has its entry. */
  lemma StatuteAmendmentsComplete(provisions: seq<ProvisionText>, j: nat)
    requires j < |provisions| && |AmendmentReferences(provisions[j].content)| > 0
    ensures ProvisionAmendment(provisions[j].provisionRef, AmendmentReferences(provisions[j].content))
      in StatuteAmendments(provisions)
  {
    EntriesComplete(provisions, AmendmentReferences, j);
  }

  // ---------------------------------------------------------------------------
  // ISO dates: `\d{4}-\d{2}-\d{2}`

  predicate IsIsoDate(d: string) {
    && |d| == 10 && d[4] == '-' && d[7] == '-'
    && (forall i :: 0 <= i < 4 ==> IsDigit(d[i]))
    && IsDigit(d[5]) && IsDigit(d[6]) && IsDigit(d[8]) && IsDigit(d[9])
  }

  /** An ISO date starts at `k`. */
  predicate IsoDateStartsAt(s: string, k: nat) {
    k + 10 <= |s| && IsIsoDate(s[k..k + 10])
  }

  /** `(\d{4}-\d{2}-\d{2})` at `k`: group 1 is the whole match. */
  function IsoDateAt(s: string, k: nat): Option<MatchAt> {
    if IsoDateStartsAt(s, k) then Some(MatchAt(10, [Some(s[k..k + 10]), Some(s[k..k + 10])])) else None
  }

  /** `s.match(/\d{4}-\d{2}-\d{2}/)`: the leftmost ISO date in `s`. */
  function FirstIsoDate(s: string): (r: Option<string>)
    ensures r.Some? ==> IsIsoDate(r.value)
    ensures r.Some? ==> exists k: nat :: IsoDateStartsAt(s, k) && r.value == s[k..k + 10] &&
                                         forall k': nat :: k' < k ==> !IsoDateStartsAt(s, k')
    ensures r.None? ==> forall k: nat :: !IsoDateStartsAt(s, k)
  {
    match FirstMatch(IsoDateAt, s, 0)
    case None =>
      assert forall k: nat :: IsoDateStartsAt(s, k) ==> MatchesAt(IsoDateAt, s, k);
      None
    case Some(h) =>
      assert forall k: nat :: IsoDateStartsAt(s, k) ==> MatchesAt(IsoDateAt, s, k);
      Some(Group(h, 1))
  }

  // ---------------------------------------------------------------------------
  // extractMetadataAmendments

  /** A metadata record: its entries in the order `Object.values` enumerates them. */
  type Metadata = seq<(string, string)>

  /** `metadata[key]`: the value of the entry with that key. */
  function Lookup(metadata: Metadata, key: string): (r: Option<string>)
    ensures r.Some? ==> exists j :: 0 <= j < |metadata| && metadata[j] == (key, r.value)
    ensures r.None? ==> forall j :: 0 <= j < |metadata| ==> metadata[j].0 != key
    decreases |metadata|
  {
    if metadata == [] then None
    else if metadata[0].0 == key then Some(metadata[0].1)
    else
      var r := Lookup(metadata[1..], key);
      assert forall j :: 0 < j < |metadata| ==> metadata[j] == metadata[1..][j - 1];
      r
  }

  /** `Object.values(metadata)` */
  function Values(metadata: Metadata): (r: seq<string>)
    ensures |r| == |metadata| && forall j :: 0 <= j < |metadata| ==> r[j] == metadata[j].1
  {
    seq(|metadata|, j requires 0 <= j < |metadata| => metadata[j].1)
  }

  /** Group 1 of each hit, in order. */
  function HitIds(hits: seq<Hit>): (r: seq<string>)
    ensures |r| == |hits| && forall j :: 0 <= j < |hits| ==> r[j] == Group(hits[j], 1)
  {
    seq(|hits|, j requires 0 <= j < |hits| => Group(hits[j], 1))
  }

  /** The ids `value.matchAll(LOV_PATTERN)` yields, in order. */
  function LovIdsIn(value: string): seq<string> {
    HitIds(MatchAll(LovIdAt, value))
  }

  /** The ids of every value in turn, for any way of finding the ids of one value. */
  function IdsOfAll(values: seq<string>, ids: string -> seq<string>): seq<string>
    decreases |values|
  {
    if values == [] then [] else IdsOfAll(values[..|values| - 1], ids) + ids(values[|values| - 1])
  }

  /** The LOV ids of every value in turn. */
  function AllLovIds(values: seq<string>): seq<string> {
    IdsOfAll(values, LovIdsIn)
  }

  /** `for (x of xs) if (!list.includes(x)) list.push(x)` */
  function AddNew(list: seq<string>, xs: seq<string>): seq<string>
    decreases |xs|
  {
    if xs == [] then list
    else
      var l := AddNew(list, xs[..|xs| - 1]);
      if xs[|xs| - 1] in l then l else l + [xs[|xs| - 1]]
  }

  predicate Distinct(xs: seq<string>) {
    forall a, b :: 0 <= a < b < |xs| ==> xs[a] != xs[b]
  }

  /** `AddNew` extends the list, keeps it free of repeats, and adds exactly the new elements of `xs`. */
  lemma {:induction false} AddNewFacts(list: seq<string>, xs: seq<string>)
    ensures var r := AddNew(list, xs);
      && |list| <= |r| && r[..|list|] == list
      && (forall x :: x in r <==> x in list || x in xs)
      && (Distinct(list) ==> Distinct(r))
    decreases |xs|
  {
    if xs != [] {
      var init := xs[..|xs| - 1];
      AddNewFacts(list, init);
      assert xs == init + [xs[|xs| - 1]];
      var l := AddNew(list, init);
      assert (l + [xs[|xs| - 1]])[..|list|] == l[..|list|];
    }
  }

  lemma AddNewSnoc(list: seq<string>, xs: seq<string>, x: string)
    ensures AddNew(list, xs + [x]) == if x in AddNew(list, xs) then AddNew(list, xs) else AddNew(list, xs) + [x]
  {
    assert (xs + [x])[..|xs + [x]| - 1] == xs;
  }

  /** What `extractMetadataAmendments` returns; absent optional fields are `None`. */
  datatype MetadataAmendments = MetadataAmendments(
    repealedByLov: Option<string>,
    repealedDate: Option<string>,
    repealDescription: Option<string>,
    referencedLovs: seq<string>)

  /** `metadata['Opphevet ved lov'] || metadata['Opphevet ved']` */
  function RepealingSource(metadata: Metadata): Option<string> {
    var byLov := Lookup(metadata, "Opphevet ved lov");
    if Truthy(byLov) then byLov else Lookup(metadata, "Opphevet ved")
  }

  /** The first LOV id of a non-empty repealing source. */
  function RepealingLov(metadata: Metadata): Option<string> {
    var repealedBy := RepealingSource(metadata);
    if Truthy(repealedBy) then NormalizeLovId(repealedBy.value) else None
  }

  /** The first ISO date of a non-empty `Opphevet` entry. */
  function RepealedDate(metadata: Metadata): Option<string> {
    var repealDate := Lookup(metadata, "Opphevet");
    if Truthy(repealDate) then FirstIsoDate(repealDate.value) else None
  }

  function ReferencedLovs(metadata: Metadata): seq<string> {
    var init := if RepealingLov(metadata).Some? then [RepealingLov(metadata).value] else [];
    AddNew(init, AllLovIds(Values(metadata)))
  }

  /** What `extractMetadataAmendments` returns. */
  function MetadataAmendmentsOf(metadata: Metadata): MetadataAmendments {
    var repealedBy := RepealingSource(metadata);
    MetadataAmendments(RepealingLov(metadata), RepealedDate(metadata),
      if Truthy(repealedBy) then repealedBy else None, ReferencedLovs(metadata))
  }

  lemma AllLovIdsPrefix(values: seq<string>, i: nat)
    requires i < |values|
    ensures AllLovIds(values[..i + 1]) == AllLovIds(values[..i]) + LovIdsIn(values[i])
  {
    assert IdsOfAll(values[..i + 1], LovIdsIn) == IdsOfAll(values[..i + 1][..i], LovIdsIn) + LovIdsIn(values[i]);
    assert values[..i + 1][..i] == values[..i];
  }

  lemma HitIdsPrefix(hits: seq<Hit>, j: nat)
    requires j < |hits|
    ensures HitIds(hits[..j + 1]) == HitIds(hits[..j]) + [Group(hits[j], 1)]
  {
  }

  lemma AddHitStep(init: seq<string>, before: seq<string>, hits: seq<Hit>, j: nat)
    requires j < |hits|
    ensures var l := AddNew(init, before + HitIds(hits[..j])); var id := Group(hits[j], 1);
      AddNew(init, before + HitIds(hits[..j + 1])) == if id in l then l else l + [id]
  {
    HitIdsPrefix(hits, j);
    assert before + HitIds(hits[..j + 1]) == (before + HitIds(hits[..j])) + [Group(hits[j], 1)];
    AddNewSnoc(init, before + HitIds(hits[..j]), Group(hits[j], 1));
  }

  /** The loop over the hits of one metadata value. */
  method AddValueIds(value: string, ghost init: seq<string>, ghost before: seq<string>, referencedLovs: seq<string>)
    returns (referencedLovs': seq<string>)
    requires referencedLovs == AddNew(init, before)
    ensures referencedLovs' == AddNew(init, before + LovIdsIn(value))
  {
    var hits := MatchAll(LovIdAt, value);
    referencedLovs' := referencedLovs;
    var j := 0;
    assert before + HitIds(hits[..0]) == before;
    while j < |hits|
      invariant 0 <= j <= |hits|
      invariant referencedLovs' == AddNew(init, before + HitIds(hits[..j]))
    {
      var id := Group(hits[j], 1);
      AddHitStep(init, before, hits, j);
      if id !in referencedLovs' {
        referencedLovs' := referencedLovs' + [id];
      }
      j := j + 1;
    }
    assert hits[..|hits|] == hits;
  }

  /** The loop over `Object.values(metadata)`. */
  method AddAllValueIds(values: seq<string>, ghost init: seq<string>, referencedLovs: seq<string>)
    returns (referencedLovs': seq<string>)
    requires referencedLovs == init
    ensures referencedLovs' == AddNew(init, AllLovIds(values))
  {
    referencedLovs' := referencedLovs;
    var i := 0;
    while i < |values|
      invariant 0 <= i <= |values|
      invariant referencedLovs' == AddNew(init, AllLovIds(values[..i]))
    {
      AllLovIdsPrefix(values, i);
      referencedLovs' := AddValueIds(values[i], init, AllLovIds(values[..i]), referencedLovs');
      i := i + 1;
    }
    assert values[..|values|] == values;
  }

  /** The repeal date: the first ISO date of a non-empty `Opphevet` entry. */
  method FindRepealedDate(metadata: Metadata) returns (repealedDate: Option<string>)
    ensures repealedDate == RepealedDate(metadata)
  {
    repealedDate := None;
    var repealDate := Lookup(metadata, "Opphevet");
    if Truthy(repealDate) {
      var dateMatch := FirstMatch(IsoDateAt, repealDate.value, 0);
      if dateMatch.Some? {
        repealedDate := Some(Group(dateMatch.value, 0));
      }
    }
  }

  /** The repealing statute and its description. */
  method FindRepealingLov(metadata: Metadata) returns (repealedByLov: Option<string>, repealDescription: Option<string>)
    ensures repealedByLov == RepealingLov(metadata)
    ensures repealDescription == if Truthy(RepealingSource(metadata)) then RepealingSource(metadata) else None
  {
    repealedByLov, repealDescription := None, None;
    var byLov := Lookup(metadata, "Opphevet ved lov");
    var repealedBy := if Truthy(byLov) then byLov else Lookup(metadata, "Opphevet ved");
    if Truthy(repealedBy) {
      var lovMatch := FirstMatch(LovIdAt, repealedBy.value, 0);
      if lovMatch.Some? {
        repealedByLov := Some(Group(lovMatch.value, 1));
      }
      repealDescription := repealedBy;
    }
  }

  /** `extractMetadataAmendments` */
  method ExtractMetadataAmendments(metadata: Metadata) returns (result: MetadataAmendments)
    ensures result == MetadataAmendmentsOf(metadata)
  {
    var repealedDate := FindRepealedDate(metadata);
    var repealedByLov, repealDescription := FindRepealingLov(metadata);
    var referencedLovs: seq<string> := [];
    if repealedByLov.Some? {
      referencedLovs := referencedLovs + [repealedByLov.value];
    }
    ghost var init := if RepealingLov(metadata).Some? then [RepealingLov(metadata).value] else [];
    assert referencedLovs == init;
    referencedLovs := AddAllValueIds(Values(metadata), init, referencedLovs);
    result := MetadataAmendments(repealedByLov, repealedDate, repealDescription, referencedLovs);
  }

  // ---------------------------------------------------------------------------
  // What extractMetadataAmendments promises

  /** The ids of one value are canonical LOV ids, and the first of them is the one `normalizeLovId` finds. */
  lemma LovIdsInFacts(value: string)
    ensures forall x :: x in LovIdsIn(value) ==> IsValidLovId(x)
    ensures NormalizeLovId(value).Some? ==> |LovIdsIn(value)| > 0 && LovIdsIn(value)[0] == NormalizeLovId(value).value
  {
    var hits := MatchAll(LovIdAt, value);
    forall x | x in LovIdsIn(value) ensures IsValidLovId(x) {
      var j :| 0 <= j < |hits| && Group(hits[j], 1) == x;
      assert hits[j].groups == LovIdAt(value, hits[j].start).value.groups;
    }
  }

  lemma {:induction false} IdsOfAllMembers(values: seq<string>, ids: string -> seq<string>, x: string)
    ensures x in IdsOfAll(values, ids) <==> exists j :: 0 <= j < |values| && x in ids(values[j])
    decreases |values|
  {
    if values != [] {
      var init := values[..|values| - 1];
      IdsOfAllMembers(init, ids, x);
      assert forall j :: 0 <= j < |init| ==> init[j] == values[j];
      if exists j :: 0 <= j < |values| && x in ids(values[j]) {
        var j :| 0 <= j < |values| && x in ids(values[j]);
        if j < |init| {
          assert x in ids(init[j]);
        }
      }
    }
  }

  /** An id is among those of all values exactly when one of the values holds it; each is canonical. */
  lemma AllLovIdsFacts(values: seq<string>, x: string)
    ensures x in AllLovIds(values) <==> exists j :: 0 <= j < |values| && x in LovIdsIn(values[j])
    ensures x in AllLovIds(values) ==> IsValidLovId(x)
  {
    IdsOfAllMembers(values, LovIdsIn, x);
    if x in AllLovIds(values) {
      var j :| 0 <= j < |values| && x in LovIdsIn(values[j]);
      LovIdsInFacts(values[j]);
    }
  }

  /** The repealing id is one of the ids of the metadata values. */
  lemma RepealingLovListed(metadata: Metadata)
    requires RepealingLov(metadata).Some?
    ensures RepealingLov(metadata).value in AllLovIds(Values(metadata))
  {
    var repealedBy := RepealingSource(metadata);
    var key := if Truthy(Lookup(metadata, "Opphevet ved lov")) then "Opphevet ved lov" else "Opphevet ved";
    assert repealedBy == Lookup(metadata, key);
    var j :| 0 <= j < |metadata| && metadata[j] == (key, repealedBy.value);
    LovIdsInFacts(repealedBy.value);
    AllLovIdsFacts(Values(metadata), RepealingLov(metadata).value);
    assert Values(metadata)[j] == repealedBy.value;
  }

  /** `referenced_lovs` has no repeats. */
  lemma ReferencedLovsDistinct(metadata: Metadata)
    ensures Distinct(ReferencedLovs(metadata))
  {
    var init := if RepealingLov(metadata).Some? then [RepealingLov(metadata).value] else [];
    AddNewFacts(init, AllLovIds(Values(metadata)));
    assert Distinct(init);
  }

  /** `referenced_lovs` lists the repealing id first. */
  lemma RepealingLovFirst(metadata: Metadata)
    requires RepealingLov(metadata).Some?
    ensures |ReferencedLovs(metadata)| > 0 && ReferencedLovs(metadata)[0] == RepealingLov(metadata).value
  {
    var init := [RepealingLov(metadata).value];
    AddNewFacts(init, AllLovIds(Values(metadata)));
    assert ReferencedLovs(metadata)[..1] == init;
  }

  /** `referenced_lovs` holds exactly the LOV ids found in the metadata values, each a canonical id. */
  lemma ReferencedLovsMembers(metadata: Metadata, x: string)
    ensures x in ReferencedLovs(metadata) <==> exists j :: 0 <= j < |metadata| && x in LovIdsIn(metadata[j].1)
    ensures x in ReferencedLovs(metadata) ==> IsValidLovId(x)
  {
    var values := Values(metadata);
    var init := if RepealingLov(metadata).Some? then [RepealingLov(metadata).value] else [];
    AddNewFacts(init, AllLovIds(values));
    AllLovIdsFacts(values, x);
    if RepealingLov(metadata).Some? {
      RepealingLovListed(metadata);
    }
    assert forall j :: 0 <= j < |metadata| ==> values[j] == metadata[j].1;
  }

  /**
   * `Opphevet ved lov` takes precedence over `Opphevet ved` and becomes the
   * description; the repealing id is the first LOV id of that description.
   */
  lemma RepealPrecedence(metadata: Metadata)
    ensures var r := MetadataAmendmentsOf(metadata);
      var byLov := Lookup(metadata, "Opphevet ved lov"); var ved := Lookup(metadata, "Opphevet ved");
      && (Truthy(byLov) ==> r.repealDescription == byLov)
      && (!Truthy(byLov) && Truthy(ved) ==> r.repealDescription == ved)
      && (!Truthy(byLov) && !Truthy(ved) ==> r.repealDescription.None? && r.repealedByLov.None?)
      && (r.repealDescription.Some? ==> r.repealedByLov == NormalizeLovId(r.repealDescription.value))
      && (r.repealedByLov.Some? ==> r.repealDescription.Some?)
  {
  }

  /** `repealed_date` is the leftmost ISO date of a non-empty `Opphevet` entry, and there is one whenever it holds a date. */
  lemma RepealedDateFirst(metadata: Metadata)
    ensures var d := MetadataAmendmentsOf(metadata).repealedDate; var o := Lookup(metadata, "Opphevet");
      && (d.Some? ==> Truthy(o) && IsIsoDate(d.value))
      && (d.Some? ==> exists k: nat :: IsoDateStartsAt(o.value, k) && d.value == o.value[k..k + 10] &&
                                       forall k': nat :: k' < k ==> !IsoDateStartsAt(o.value, k'))
      && (Truthy(o) && (exists k: nat :: IsoDateStartsAt(o.value, k)) ==> d.Some?)
  {
  }

  // ---------------------------------------------------------------------------
  // extractEffectiveDate: `trer\s+i\s+kraft\s+(?:den\s+)?(\d{1,2})\s*\.?\s*([a-zæøå]+)\s+(\d{4})` with flags `iu`

  /** `\s+word` at `i`, the word matched case-insensitively. */
  function SpacedWordEndCI(s: string, i: nat, w: string): (r: Option<nat>)
    requires i <= |s|
    ensures r.Some? ==> i < r.value <= |s|
  {
    var j := SpaceRun(s, i);
    if j > i && LitAtCI(s, j, w) then Some(j + |w|) else None
  }

  /**
   * `trer\s+i\s+kraft\s+(?:den\s+)?` at `k`: where the day starts. Taking
   * `den` whenever it is there is the only way on: leaving it out puts its
   * `d` where the day's digit must stand.
   */
  function PhraseEnd(s: string, k: nat): (r: Option<nat>)
    ensures r.Some? ==> k < r.value <= |s|
  {
    if !LitAtCI(s, k, "trer") then None
    else
      match SpacedWordEndCI(s, k + 4, "i")
      case None => None
      case Some(b) =>
        match SpacedWordEndCI(s, b, "kraft")
        case None => None
        case Some(c) =>
          var g := SpaceRun(s, c);
          if g == c then None
          else if LitAtCI(s, g, "den") && SpaceRun(s, g + 3) > g + 3 then Some(SpaceRun(s, g + 3))
          else Some(g)
  }

  /** The pattern of `extractEffectiveDate` at `k`: groups day, month and year. */
  function EffectiveAt(s: string, k: nat): (r: Option<MatchAt>)
    ensures r.Some? ==> |r.value.groups| == 4
    ensures r.Some? ==> var day := r.value.groups[1]; var year := r.value.groups[3];
      day.Some? && 1 <= |day.value| <= 2 && AllDigits(day.value) && year.Some? && |year.value| == 4 && AllDigits(year.value)
  {
    match PhraseEnd(s, k)
    case None => None
    case Some(d) =>
      match DayMonthYearAt(s, d, true)
      case None => None
      case Some(dmy) =>
        Some(MatchAt(dmy.end - k, [Some(s[k..dmy.end]), Some(dmy.day), Some(dmy.month), Some(dmy.year)]))
  }

  /** `extractEffectiveDate` with a given month table. */
  function EffectiveDateWith(text: string, lookup: MonthLookup): Option<string> {
    var fromPhrase :=
      match FirstMatch(EffectiveAt, text, 0)
      case None => None
      case Some(h) =>
        var month := lookup(Lower(Group(h, 2)));
        if month.Some? then Some(Group(h, 3) + "-" + month.value + "-" + PadStart(Group(h, 1), 2, '0')) else None;
    if fromPhrase.Some? then fromPhrase else FirstIsoDate(text)
  }

  /** `extractEffectiveDate`, reading month names from the table's own entries. */
  function EffectiveDate(text: string): Option<string> {
    EffectiveDateWith(text, MonthNumber)
  }

  /** `extractEffectiveDate` as written: the month table is a plain object, so `constructor` is found on its prototype. */
  function EffectiveDateAsWritten(text: string): Option<string> {
    EffectiveDateWith(text, MonthLookupAsWritten)
  }

  /** A one- or two-digit day padded to two digits. */
  lemma PaddedDay(day: string)
    requires 1 <= |day| <= 2 && AllDigits(day)
    ensures var d := PadStart(day, 2, '0'); |d| == 2 && IsDigit(d[0]) && IsDigit(d[1])
  {
    var d := PadStart(day, 2, '0');
    if |day| == 1 {
      assert d[1..] == day;
      assert d[1] == day[0];
    } else {
      assert d == day;
    }
  }

  lemma IsoAssembly(year: string, month: string, day: string)
    requires |year| == 4 && AllDigits(year) && |month| == 2 && AllDigits(month)
    requires |day| == 2 && IsDigit(day[0]) && IsDigit(day[1])
    ensures IsIsoDate(year + "-" + month + "-" + day)
  {
    var d := year + "-" + month + "-" + day;
    assert d[5] == month[0] && d[6] == month[1] && d[8] == day[0] && d[9] == day[1];
    assert forall i :: 0 <= i < 4 ==> d[i] == year[i];
  }

  /** Every effective date found is an ISO date `YYYY-MM-DD`. */
  lemma EffectiveDateIso(text: string)
    ensures EffectiveDate(text).Some? ==> IsIsoDate(EffectiveDate(text).value)
  {
    match FirstMatch(EffectiveAt, text, 0)
    case None =>
    case Some(h) =>
      var g := EffectiveAt(text, h.start).value.groups;
      assert h.groups == g;
      var month := MonthNumber(Lower(Group(h, 2)));
      if month.Some? {
        PaddedDay(Group(h, 1));
        IsoAssembly(Group(h, 3), month.value, PadStart(Group(h, 1), 2, '0'));
      }
  }

  /**
   * Without the phrase anywhere, or when the first phrase names an unknown
   * month, the first ISO date of the text is the answer, and nothing when
   * there is none.
   */
  lemma EffectiveDateFallback(text: string)
    requires (forall k: nat :: !MatchesAt(EffectiveAt, text, k)) ||
             (FirstMatch(EffectiveAt, text, 0).Some? && Lower(Group(FirstMatch(EffectiveAt, text, 0).value, 2)) !in MonthNames)
    ensures EffectiveDate(text) == FirstIsoDate(text)
    ensures (forall k: nat :: !IsoDateStartsAt(text, k)) ==> EffectiveDate(text).None?
  {
  }

  /** The parts of a written-out date as the pattern captures them. */
  predicate IsDateParts(day: string, month: string, year: string) {
    && 1 <= |day| <= 2 && AllDigits(day)
    && |month| > 0 && (forall i :: 0 <= i < |month| ==> IsMonthLetter(month[i]))
    && |year| == 4 && AllDigits(year)
  }

  /** The phrase of the doc comment's example: `trer i kraft D. month YYYY`. */
  function EffectivePhrase(day: string, month: string, year: string): string {
    "trer i kraft " + day + ". " + month + " " + year
  }

  /** `t` holds `trer i kraft ` at `p`, position by position. */
  predicate PhraseLayout(t: string, p: nat) {
    && p + 13 <= |t|
    && t[p] == 't' && t[p + 1] == 'r' && t[p + 2] == 'e' && t[p + 3] == 'r' && t[p + 4] == ' '
    && t[p + 5] == 'i' && t[p + 6] == ' '
    && t[p + 7] == 'k' && t[p + 8] == 'r' && t[p + 9] == 'a' && t[p + 10] == 'f' && t[p + 11] == 't'
    && t[p + 12] == ' '
  }

  /** `t` holds `D. month YYYY` from `q` to its end, position by position. */
  predicate DateLayout(t: string, q: nat, day: string, month: string, year: string) {
    var a := q + |day|; var x := a + 2; var y := x + |month|; var z := y + 1;
    && |year| == 4 && |t| == z + 4
    && (forall i :: 0 <= i < |day| ==> t[q + i] == day[i])
    && t[a] == '.' && t[a + 1] == ' '
    && (forall i :: 0 <= i < |month| ==> t[x + i] == month[i])
    && t[y] == ' '
    && (forall i :: 0 <= i < 4 ==> t[z + i] == year[i])
  }

  lemma EffectiveTextLayout(pre: string, day: string, month: string, year: string)
    requires |year| == 4
    ensures PhraseLayout(pre + EffectivePhrase(day, month, year), |pre|)
    ensures DateLayout(pre + EffectivePhrase(day, month, year), |pre| + 13, day, month, year)
  {
  }

  lemma LayoutPhrase(t: string, p: nat)
    requires PhraseLayout(t, p) && p + 13 < |t| && IsDigit(t[p + 13])
    ensures PhraseEnd(t, p) == Some(p + 13)
  {
    assert LitAtCI(t, p, "trer");
    SpaceRunExact(t, p + 4, p + 5);
    assert LitAtCI(t, p + 5, "i");
    SpaceRunExact(t, p + 6, p + 7);
    assert LitAtCI(t, p + 7, "kraft");
    SpaceRunExact(t, p + 12, p + 13);
    NotLitAtCI(t, p + 13, "den");
  }

  lemma LayoutDateSlices(t: string, q: nat, day: string, month: string, year: string)
    requires DateLayout(t, q, day, month, year)
    ensures var x := q + |day| + 2; var z := x + |month| + 1;
      t[q..q + |day|] == day && t[x..x + |month|] == month && t[z..z + 4] == year
  {
    var x := q + |day| + 2; var z := x + |month| + 1;
    forall i | 0 <= i < |day| ensures t[q..q + |day|][i] == day[i] { assert t[q..q + |day|][i] == t[q + i]; }
    forall i | 0 <= i < |month| ensures t[x..x + |month|][i] == month[i] { assert t[x..x + |month|][i] == t[x + i]; }
    forall i | 0 <= i < 4 ensures t[z..z + 4][i] == year[i] { assert t[z..z + 4][i] == t[z + i]; }
  }

  /** `\s*\.?\s*` laid out as `. ` before the month. */
  lemma DottedMonthStart(t: string, a: nat)
    requires a + 2 < |t| && t[a] == '.' && t[a + 1] == ' ' && !IsSpace(t[a + 2])
    ensures MonthStart(t, a) == a + 2
  {
    SpaceRunExact(t, a, a);
    SpaceRunExact(t, a + 1, a + 2);
  }

  /** The day, and where it ends. */
  lemma LayoutDay(t: string, q: nat, day: string)
    requires 1 <= |day| <= 2 && AllDigits(day) && q + |day| < |t| && !IsDigit(t[q + |day|])
    requires forall i :: 0 <= i < |day| ==> t[q + i] == day[i]
    ensures q < |t| && IsDigit(t[q]) && DayEnd(t, q) == q + |day|
  {
    assert t[q] == day[0];
    if |day| == 2 {
      assert t[q + 1] == day[1];
    }
  }

  /** The day and the `. ` after it. */
  lemma LayoutDottedDay(t: string, q: nat, day: string, month: string, year: string)
    requires IsDateParts(day, month, year) && DateLayout(t, q, day, month, year)
    ensures var a := q + |day|; q < |t| && IsDigit(t[q]) && DayEnd(t, q) == a && MonthStart(t, a) == a + 2
  {
    var a := q + |day|;
    LayoutDay(t, q, day);
    assert t[a + 2] == month[0];
    DottedMonthStart(t, a);
  }

  /** The month letters, the space and the year. */
  lemma LayoutMonthYear(t: string, q: nat, day: string, month: string, year: string)
    requires IsDateParts(day, month, year) && DateLayout(t, q, day, month, year)
    ensures var x := q + |day| + 2; var y := x + |month|;
      LetterRun(t, x, true) == y && SpaceRun(t, y) == y + 1 && DigitsAt(t, y + 1, 4)
  {
    MonthLettersCI(month);
    var x := q + |day| + 2;
    var y := x + |month|;
    forall k | x <= k < y ensures MonthLetter(true, t[k]) {
      assert t[k] == month[k - x];
    }
    assert t[y + 1] == year[0];
    LetterRunExact(t, x, y, true);
    SpaceRunExact(t, y, y + 1);
    forall k | y + 1 <= k < y + 5 ensures IsDigit(t[k]) {
      assert t[k] == year[k - (y + 1)];
    }
  }

  lemma LayoutDottedDate(t: string, q: nat, day: string, month: string, year: string)
    requires IsDateParts(day, month, year) && DateLayout(t, q, day, month, year)
    ensures DayMonthYearAt(t, q, true) == Some(DayMonthYear(day, month, year, |t|))
  {
    var a := q + |day|;
    var x := a + 2;
    var y := x + |month|;
    LayoutDottedDay(t, q, day, month, year);
    LayoutMonthYear(t, q, day, month, year);
    LayoutDateSlices(t, q, day, month, year);
    DayMonthYearFrom(t, q, a, x, y);
  }

  /** The recogniser's steps, given where each of its runs ends. */
  lemma DayMonthYearFrom(t: string, q: nat, a: nat, x: nat, y: nat)
    requires q < |t| && IsDigit(t[q]) && DayEnd(t, q) == a && MonthStart(t, a) == x
    requires LetterRun(t, x, true) == y && y > x && SpaceRun(t, y) == y + 1 && DigitsAt(t, y + 1, 4)
    ensures DayMonthYearAt(t, q, true) == Some(DayMonthYear(t[q..a], t[x..y], t[y + 1..y + 5], y + 5))
  {
  }

  /** No phrase starts before `p` when no earlier character reads as `t`. */
  lemma NoPhraseBefore(t: string, p: nat)
    requires p <= |t| && forall k :: 0 <= k < p ==> ToLowerChar(t[k]) != 't'
    ensures forall k :: 0 <= k < p ==> !MatchesAt(EffectiveAt, t, k)
  {
    forall k | 0 <= k < p ensures !LitAtCI(t, k, "trer") {
      NotLitAtCI(t, k, "trer");
    }
  }

  /** `extractEffectiveDate` once the first phrase match is known. */
  lemma EffectiveDateWithHit(text: string, lookup: MonthLookup, h: Hit)
    requires FirstMatch(EffectiveAt, text, 0) == Some(h)
    ensures var month := lookup(Lower(Group(h, 2)));
      EffectiveDateWith(text, lookup) ==
        if month.Some? then Some(Group(h, 3) + "-" + month.value + "-" + PadStart(Group(h, 1), 2, '0'))
        else FirstIsoDate(text)
  {
  }

  lemma LayoutEffective(t: string, p: nat, day: string, month: string, year: string, lookup: MonthLookup)
    requires IsDateParts(day, month, year) && PhraseLayout(t, p) && DateLayout(t, p + 13, day, month, year)
    requires forall k :: 0 <= k < p ==> ToLowerChar(t[k]) != 't'
    ensures EffectiveDateWith(t, lookup) ==
      if lookup(month).Some? then Some(year + "-" + lookup(month).value + "-" + PadStart(day, 2, '0'))
      else FirstIsoDate(t)
  {
    var r := MatchAt(|t| - p, [Some(t[p..|t|]), Some(day), Some(month), Some(year)]);
    var h := Hit(p, p + r.len, r.groups);
    LayoutEffectiveAt(t, p, day, month, year);
    LayoutEffectiveHit(t, p, r);
    EffectiveDateWithHit(t, lookup, h);
    assert Group(h, 1) == day && Group(h, 2) == month && Group(h, 3) == year;
    MonthLettersCI(month);
  }

  /** The recogniser at `k`, given where the phrase ends and what the date reads. */
  lemma EffectiveAtFrom(s: string, k: nat, d: nat, dmy: DayMonthYear)
    requires PhraseEnd(s, k) == Some(d) && DayMonthYearAt(s, d, true) == Some(dmy)
    ensures EffectiveAt(s, k) == Some(MatchAt(dmy.end - k, [Some(s[k..dmy.end]), Some(dmy.day), Some(dmy.month), Some(dmy.year)]))
  {
  }

  /** The phrase at `p` matches, its groups the day, the month and the year. */
  lemma LayoutEffectiveAt(t: string, p: nat, day: string, month: string, year: string)
    requires IsDateParts(day, month, year) && PhraseLayout(t, p) && DateLayout(t, p + 13, day, month, year)
    ensures EffectiveAt(t, p) == Some(MatchAt(|t| - p, [Some(t[p..|t|]), Some(day), Some(month), Some(year)]))
  {
    LayoutDottedDate(t, p + 13, day, month, year);
    assert t[p + 13] == day[0];
    LayoutPhrase(t, p);
    EffectiveAtFrom(t, p, p + 13, DayMonthYear(day, month, year, |t|));
  }

  /** The phrase at `p` is the first match when no earlier character can start one. */
  lemma LayoutEffectiveHit(t: string, p: nat, r: MatchAt)
    requires p + r.len <= |t| && EffectiveAt(t, p) == Some(r)
    requires forall k :: 0 <= k < p ==> ToLowerChar(t[k]) != 't'
    ensures FirstMatch(EffectiveAt, t, 0) == Some(Hit(p, p + r.len, r.groups))
  {
    NoPhraseBefore(t, p);
    FirstMatchIs(EffectiveAt, t, p, r);
  }

  /** A search from 0 finds `p` when `p` is the first position that matches. */
  lemma FirstMatchIs(m: Matcher, s: string, p: nat, r: MatchAt)
    requires p + r.len <= |s| && m(s, p) == Some(r) && forall k :: 0 <= k < p ==> !MatchesAt(m, s, k)
    ensures FirstMatch(m, s, 0) == Some(Hit(p, p + r.len, r.groups))
  {
    FirstMatchAt(m, s, 0, p);
  }

  /**
   * `trer i kraft D. month YYYY`, after text with no `t` in it, gives
   * `YYYY-MM-DD` (the day padded to two digits) whenever the lookup knows
   * the month; the first ISO date of the text otherwise.
   */
  lemma EffectivePhraseParses(pre: string, day: string, month: string, year: string, lookup: MonthLookup)
    requires IsDateParts(day, month, year) && forall k :: 0 <= k < |pre| ==> ToLowerChar(pre[k]) != 't'
    ensures EffectiveDateWith(pre + EffectivePhrase(day, month, year), lookup) ==
      if lookup(month).Some? then Some(year + "-" + lookup(month).value + "-" + PadStart(day, 2, '0'))
      else FirstIsoDate(pre + EffectivePhrase(day, month, year))
  {
    var t := pre + EffectivePhrase(day, month, year);
    EffectiveTextLayout(pre, day, month, year);
    assert forall k :: 0 <= k < |pre| ==> t[k] == pre[k];
    LayoutEffective(t, |pre|, day, month, year, lookup);
  }

  lemma JuliParts(pre: string, day: string, month: string, year: string)
    requires pre == "Denne loven " && day == "1" && month == "juli" && year == "2021"
    ensures IsDateParts(day, month, year) && forall k :: 0 <= k < |pre| ==> ToLowerChar(pre[k]) != 't'
    ensures pre + EffectivePhrase(day, month, year) == "Denne loven trer i kraft 1. juli 2021"
  {
  }

  lemma JuliDate(day: string, month: string, year: string)
    requires day == "1" && month == "juli" && year == "2021"
    ensures MonthNumber(month) == Some("07") && year + "-" + "07" + "-" + PadStart(day, 2, '0') == "2021-07-01"
  {
  }

  /** The doc comment's example: "Denne loven trer i kraft 1. juli 2021" gives "2021-07-01". */
  lemma EffectiveDateExample(text: string)
    requires text == "Denne loven trer i kraft 1. juli 2021"
    ensures EffectiveDate(text) == Some("2021-07-01")
  {
    JuliParts("Denne loven ", "1", "juli", "2021");
    JuliDate("1", "juli", "2021");
    EffectivePhraseParses("Denne loven ", "1", "juli", "2021", MonthNumber);
  }

  // ---------------------------------------------------------------------------
  // The month token `constructor` in an entry-into-force phrase

  const ConstructorPhrase: string := "trer i kraft 1. constructor 2014"

  /** A text without `-` holds no ISO date. */
  lemma NoIsoWithoutDash(s: string)
    requires forall k :: 0 <= k < |s| ==> s[k] != '-'
    ensures FirstIsoDate(s).None?
  {
    forall k: nat ensures !IsoDateStartsAt(s, k) {
      if k + 10 <= |s| {
        assert s[k..k + 10][4] == s[k + 4];
      }
    }
  }

  lemma ConstructorPhraseParts(pre: string, day: string, month: string, year: string)
    requires pre == "" && day == "1" && month == "constructor" && year == "2014"
    ensures IsDateParts(day, month, year) && pre + EffectivePhrase(day, month, year) == ConstructorPhrase
  {
  }

  lemma ConstructorPhraseNoDash(text: string)
    requires text == ConstructorPhrase
    ensures forall k :: 0 <= k < |text| ==> text[k] != '-'
  {
  }

  /** What the unguarded lookup builds for `constructor` is no ISO date: its month field is not two digits. */
  lemma ConstructorDateMalformed(d: string)
    requires d == "2014" + "-" + ObjectConstructorText + "-" + "01"
    ensures !IsIsoDate(d)
  {
    assert |d| != 10;
  }

  /**
   * As written, `extractEffectiveDate("trer i kraft 1. constructor 2014")`
   * takes `Object.prototype.constructor` for the month and returns a string
   * that is no date; with the table's own keys only the phrase is skipped
   * and, with no ISO date in the text, the result is null.
   */
  lemma ConstructorEffectiveAsWritten(text: string)
    requires text == ConstructorPhrase
    ensures EffectiveDateAsWritten(text) == Some("2014" + "-" + ObjectConstructorText + "-" + "01")
    ensures !IsIsoDate(EffectiveDateAsWritten(text).value)
    ensures EffectiveDate(text) == None
  {
    ConstructorPhraseParts("", "1", "constructor", "2014");
    ConstructorNotOwn("constructor");
    ConstructorText("1", "constructor", "2014", "5");
    EffectivePhraseParses("", "1", "constructor", "2014", MonthLookupAsWritten);
    EffectivePhraseParses("", "1", "constructor", "2014", MonthNumber);
    ConstructorPhraseNoDash(text);
    NoIsoWithoutDash(text);
    ConstructorDateMalformed("2014" + "-" + ObjectConstructorText + "-" + "01");
  }
}
