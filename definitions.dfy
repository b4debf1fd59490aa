/**
 * The definition extractor of scripts/extract-definitions.ts: six regular
 * expressions find "Med X menes Y."-style sentences in a statute's provisions,
 * the captured term and definition are cleaned and filtered, and entries for
 * the same document and term are merged, keeping the longest definition.
 */
module ExtractDefinitions {
  import opened Wrappers
  import opened Text
  import opened Scan

  datatype ProvisionSeed = ProvisionSeed(provisionRef: string, chapter: Option<string>, section: string, content: string)

  datatype DocumentSeed = DocumentSeed(
    id: string, docType: string, title: string, shortName: Option<string>,
    provisions: Option<seq<ProvisionSeed>>)

  datatype ExtractedDefinition = ExtractedDefinition(
    documentId: string, term: string, definition: string, sourceProvision: string)

  // ---------------------------------------------------------------------------
  // Fixed regular-expression pieces
  // ---------------------------------------------------------------------------

  /**
   * One piece of a regular expression without captures: a literal, a choice
   * of literals (`(?:a|b)`), or `\s+`. With `ci` the literal is given in lower
   * case and matched as under the `i` flag. In every expression below a `\s+`
   * is followed by a literal that does not start with whitespace, and the
   * literals of a choice cannot both match at one position, so trying the
   * alternatives in order and letting `\s+` take the whole run finds the
   * only way the expression can match.
   */
  datatype Tok = Word(text: string, ci: bool) | Choice(options: seq<string>, ci: bool) | Spaces

  predicate WordAt(s: string, i: nat, w: string, ci: bool) {
    if ci then LitAtCI(s, i, w) else LitAt(s, i, w)
  }

  function FirstOption(s: string, i: nat, options: seq<string>, ci: bool): (r: Option<string>)
    ensures r.Some? ==> r.value in options && WordAt(s, i, r.value, ci)
    decreases |options|
  {
    if options == [] then None
    else if WordAt(s, i, options[0], ci) then Some(options[0])
    else FirstOption(s, i, options[1..], ci)
  }

  /** Where the pieces `toks`, matched from `i` on, end; `None` when they do not match. */
  function Run(s: string, i: nat, toks: seq<Tok>): (r: Option<nat>)
    ensures r.Some? ==> i <= r.value <= |s|
    decreases |toks|
  {
    if toks == [] then (if i <= |s| then Some(i) else None)
    else match toks[0]
      case Word(w, ci) => if WordAt(s, i, w, ci) then Run(s, i + |w|, toks[1..]) else None
      case Choice(os, ci) =>
        var o := FirstOption(s, i, os, ci);
        if o.Some? then Run(s, i + |o.value|, toks[1..]) else None
      case Spaces => if i <= |s| && SpaceRun(s, i) > i then Run(s, SpaceRun(s, i), toks[1..]) else None
  }

  predicate NonSpace(c: char) { !IsSpace(c) }

  /** The word (maximal run of non-whitespace) that starts at `i`. */
  function WordFrom(s: string, i: nat): string
    requires i <= |s|
  {
    s[i..Span(s, i, NonSpace)]
  }

  function FirstWord(s: string): string {
    WordFrom(s, 0)
  }

  // ---------------------------------------------------------------------------
  // cleanText
  // ---------------------------------------------------------------------------

  /** `replace(/\n/g, ' ')` */
  function NewlinesToSpaces(s: string): (r: string)
    ensures |r| == |s| && forall i :: 0 <= i < |s| ==> r[i] == (if s[i] == '\n' then ' ' else s[i])
  {
    seq(|s|, i requires 0 <= i < |s| => if s[i] == '\n' then ' ' else s[i])
  }

  /** After `\s+` has become a single space there is no newline left to replace. */
  lemma NoNewlinesLeft(c: string)
    requires forall i :: 0 <= i < |c| ==> (IsSpace(c[i]) ==> c[i] == ' ')
    ensures NewlinesToSpaces(c) == c
  {
    forall i | 0 <= i < |c| ensures NewlinesToSpaces(c)[i] == c[i] {
      assert IsSpace('\n');
    }
  }

  /** `cleanText`: the second replacement never changes anything, so this is whitespace normalisation. */
  function CleanText(text: string): (r: string)
    ensures r == Normalize(text)
    ensures IsNormalized(r)
  {
    NoNewlinesLeft(Collapse(text));
    Trim(NewlinesToSpaces(Collapse(text)))
  }

  // ---------------------------------------------------------------------------
  // extractTerm
  // ---------------------------------------------------------------------------

  /** `i\s+denne\s+(?:lov|forskrift)\s+` under the `i` flag. */
  const DenneLov: seq<Tok> := [Word("i", true), Spaces, Word("denne", true), Spaces, Choice(["lov", "forskrift"], true), Spaces]

  /** `med\s+` under the `i` flag. */
  const Med: seq<Tok> := [Word("med", true), Spaces]

  /** The verbs of the trailing `\s+(?:menes|forst(?:å|aa)s)$`. */
  const Verbs: seq<string> := ["menes", "forstås", "forstaas"]

  /** `replace(/^(?:i\s+denne\s+(?:lov|forskrift)\s+)?med\s+/i, '')` */
  function StripMed(s: string): (r: string)
    ensures |r| <= |s| && r == s[|s| - |r|..]
  {
    var g := Run(s, 0, DenneLov);
    var m := if g.Some? then Run(s, g.value, Med) else None;
    var n := if m.Some? then m else Run(s, 0, Med);
    if n.Some? then s[n.value..] else s
  }

  /** `replace(/^i\s+denne\s+(?:lov|forskrift)\s+/i, '')` */
  function StripDenneLov(s: string): (r: string)
    ensures |r| <= |s| && r == s[|s| - |r|..]
  {
    var g := Run(s, 0, DenneLov);
    if g.Some? then s[g.value..] else s
  }

  /** `\s+(?:menes|forst(?:å|aa)s)` under the `i` flag. */
  const VerbToks: seq<Tok> := [Spaces, Choice(Verbs, true)]

  /** `\s+(?:menes|forst(?:å|aa)s)$` under the `i` flag, tried at `k`. */
  function TrailingVerbAt(s: string, k: nat): Option<MatchAt> {
    if k <= |s| && Run(s, k, VerbToks) == Some(|s|) then Some(MatchAt(|s| - k, [])) else None
  }

  /** `replace(/\s+(?:menes|forst(?:å|aa)s)$/i, '')`: cut at the leftmost match. */
  function StripVerb(s: string): (r: string)
    ensures |r| <= |s| && r == s[..|r|]
  {
    match FirstMatch(TrailingVerbAt, s, 0)
    case Some(h) => s[..h.start]
    case None => s
  }

  /** `term.charAt(0).toUpperCase() + term.slice(1)` for a non-empty term. */
  function CapitalizeFirst(s: string): (r: string)
    ensures |r| == |s| && (s != [] ==> r[1..] == s[1..] && r[0] == ToUpperChar(s[0]))
  {
    if |s| > 0 then [ToUpperChar(s[0])] + s[1..] else s
  }

  /** `extractTerm` */
  function ExtractTerm(text: string): (r: string)
    ensures |r| <= |CleanText(text)|
    ensures r != [] ==> !IsAsciiLower(r[0]) && !IsLatin1Lower(r[0])
  {
    var t := StripVerb(StripDenneLov(StripMed(CleanText(text))));
    CapitalizedNotLower(t);
    CapitalizeFirst(t)
  }

  lemma CapitalizedNotLower(t: string)
    ensures var r := CapitalizeFirst(t); r != [] ==> !IsAsciiLower(r[0]) && !IsLatin1Lower(r[0])
  {
    if t != [] {
      UpperCharKeepsLower(t[0]);
    }
  }

  // ---------------------------------------------------------------------------
  // extractDefinition
  // ---------------------------------------------------------------------------

  /** `i\s+denne\s+(?:lov|forskrift|kapittel)\s+` under the `i` flag. */
  const DenneLead: seq<Tok> := [Word("i", true), Spaces, Word("denne", true), Spaces, Choice(["lov", "forskrift", "kapittel"], true), Spaces]

  /** `replace(/^i\s+denne\s+(?:lov|forskrift|kapittel)\s+/i, '')` */
  function StripLead(s: string): (r: string)
    ensures |r| <= |s| && r == s[|s| - |r|..]
  {
    var g := Run(s, 0, DenneLead);
    if g.Some? then s[g.value..] else s
  }

  /** `\s+Lov\s+\(` under the `i` flag. */
  const NoteToks: seq<Tok> := [Spaces, Word("lov", true), Spaces, Word("(", false)]

  predicate NotClose(c: char) { c != ')' }

  /**
   * `\s+Lov\s+\([^)]+\)\.?$` under the `i` flag, tried at `k`: `[^)]+` runs
   * to the first `)`, which must be the last character or be followed by a
   * final `.`.
   */
  function LovNoteAt(s: string, k: nat): Option<MatchAt> {
    var p := Run(s, k, NoteToks);
    if p.None? then None
    else
      var c := Span(s, p.value, NotClose);
      if c > p.value && c < |s| && (c + 1 == |s| || (c + 2 == |s| && s[c + 1] == '.'))
      then Some(MatchAt(|s| - k, []))
      else None
  }

  /** `replace(/\s+Lov\s+\([^)]+\)\.?$/i, '')`: cut at the leftmost match. */
  function StripLovNote(s: string): (r: string)
    ensures |r| <= |s| && r == s[..|r|]
  {
    match FirstMatch(LovNoteAt, s, 0)
    case Some(h) => s[..h.start]
    case None => s
  }

  /** `/[.!?]$/` */
  predicate EndsSentence(s: string) {
    |s| > 0 && (s[|s| - 1] == '.' || s[|s| - 1] == '!' || s[|s| - 1] == '?')
  }

  /** `extractDefinition`: the result always ends a sentence, adding at most one period. */
  function ExtractDefinition(text: string): (r: string)
    ensures EndsSentence(r)
    ensures |r| <= |CleanText(text)| + 1
  {
    var d := StripLovNote(StripLead(CleanText(text)));
    if EndsSentence(d) then d else d + "."
  }

  // ---------------------------------------------------------------------------
  // isValidDefinition
  // ---------------------------------------------------------------------------

  /** `/^(?:se|jfr|jämför)\s+\d+/i`: a bare cross-reference. */
  predicate IsReferenceOnly(d: string) {
    var p := Run(d, 0, [Choice(["se", "jfr", "jämför"], true), Spaces]);
    p.Some? && p.value < |d| && IsDigit(d[p.value])
  }

  /** `\.?\s*$` from `i`. */
  predicate DotThenSpaces(d: string, i: nat)
    requires i <= |d|
  {
    var q := if i < |d| && d[i] == '.' then i + 1 else i;
    AllSpace(d[q..])
  }

  /** `/^(?:\d+\.?\s*|[a-z]\)\s*)$/`: a bare number or list marker. */
  predicate IsEnumerationOnly(d: string) {
    || (DigitRun(d, 0) > 0 && DotThenSpaces(d, DigitRun(d, 0)))
    || (|d| >= 2 && IsAsciiLower(d[0]) && d[1] == ')' && AllSpace(d[2..]))
  }

  /** `/^i\s+(?:dette|denne)\s+(?:kapittel|lov|forskrift)\s+\d+\.?\s*$/i`: a dangling "i denne lov 1". */
  predicate IsChapterStub(d: string) {
    var p := Run(d, 0, [Word("i", true), Spaces, Choice(["dette", "denne"], true), Spaces,
                        Choice(["kapittel", "lov", "forskrift"], true), Spaces]);
    p.Some? && DigitRun(d, p.value) > p.value && DotThenSpaces(d, DigitRun(d, p.value))
  }

  /** The pieces of `s.split(/\s+/)` from `i` on, empty pieces at either end included. */
  function SplitFrom(s: string, i: nat): (r: seq<string>)
    requires i <= |s|
    ensures |r| > 0 && forall j :: 0 <= j < |r| ==> NoSpace(r[j])
    decreases |s| - i
  {
    var e := Span(s, i, NonSpace);
    if e == |s| then [s[i..]]
    else [s[i..e]] + SplitFrom(s, SpaceRun(s, e))
  }

  /** `s.split(/\s+/)` */
  function SplitSpaces(s: string): seq<string> {
    SplitFrom(s, 0)
  }

  /** `.filter(w => w.length > 2)` */
  function LongWords(ws: seq<string>): (r: seq<string>)
    ensures |r| <= |ws| && forall w :: w in r ==> w in ws && Utf16Length(w) > 2
    decreases |ws|
  {
    if ws == [] then []
    else (if Utf16Length(ws[0]) > 2 then [ws[0]] else []) + LongWords(ws[1..])
  }

  /** The number of words longer than two characters. */
  function WordCount(d: string): nat {
    |LongWords(SplitSpaces(d))|
  }

  /** `isValidDefinition` */
  predicate IsValidDefinition(term: string, definition: string) {
    && 3 <= Utf16Length(term) <= 150
    && 10 <= Utf16Length(definition) <= 5000
    && !IsReferenceOnly(definition)
    && !IsEnumerationOnly(definition)
    && !IsChapterStub(definition)
    && WordCount(definition) >= 3
  }

  // ---------------------------------------------------------------------------
  // isLikelyDefinitionProvision
  // ---------------------------------------------------------------------------

  /** `isLikelyDefinitionProvision`, on the lower-cased content. */
  predicate IsLikelyDefinitionProvision(p: ProvisionSeed) {
    var c := Lower(p.content);
    || (Contains(c, "med ") && (Contains(c, "menes") || Contains(c, "forstås") || Contains(c, "forstaas")))
    || (Contains(c, "i denne") && (Contains(c, "menes") || Contains(c, "forstås")))
    || Contains(c, "definisjoner")
  }

  // ---------------------------------------------------------------------------
  // What the strip rules remove
  // ---------------------------------------------------------------------------

  /** A character that lower-cases to a non-space is not a space. */
  lemma LowerKeepsSpaces(c: char)
    ensures IsSpace(c) ==> ToLowerChar(c) == c
  {
  }

  /** A literal followed by `\s+` at `i` is the word at `i`, up to case. */
  lemma WordThenSpaces(s: string, i: nat, w: string, toks: seq<Tok>)
    requires w != [] && NoSpace(w)
    requires |toks| >= 2 && toks[0] == Word(w, true) && toks[1] == Spaces
    requires Run(s, i, toks).Some?
    ensures i <= |s| && Lower(WordFrom(s, i)) == w
  {
    assert LitAtCI(s, i, w);
    var e := i + |w|;
    assert toks[1..][0] == Spaces;
    assert SpaceRun(s, e) > e;
    forall k | i <= k < e ensures NonSpace(s[k]) {
      LowerKeepsSpaces(s[k]);
      assert ToLowerChar(s[i + (k - i)]) == w[k - i];
    }
    SpanExact(s, i, e, NonSpace);
    assert Lower(WordFrom(s, i)) == w;
  }

  /** A literal, then a whitespace run ending at `j`. */
  lemma WordSpacesRun(s: string, i: nat, w: string, ci: bool, toks: seq<Tok>, j: nat)
    requires |toks| >= 2 && toks[0] == Word(w, ci) && toks[1] == Spaces
    requires WordAt(s, i, w, ci) && i + |w| < j <= |s|
    requires forall k :: i + |w| <= k < j ==> IsSpace(s[k])
    requires j == |s| || !IsSpace(s[j])
    ensures Run(s, i, toks) == Run(s, j, toks[2..])
  {
    assert toks[1..][0] == Spaces && toks[1..][1..] == toks[2..];
    SpaceRunExact(s, i + |w|, j);
  }

  /** A choice, then a whitespace run ending at `j`. */
  lemma ChoiceSpacesRun(s: string, i: nat, os: seq<string>, w: string, toks: seq<Tok>, j: nat)
    requires |toks| >= 2 && toks[0] == Choice(os, true) && toks[1] == Spaces
    requires FirstOption(s, i, os, true) == Some(w) && i + |w| < j <= |s|
    requires forall k :: i + |w| <= k < j ==> IsSpace(s[k])
    requires j == |s| || !IsSpace(s[j])
    ensures Run(s, i, toks) == Run(s, j, toks[2..])
  {
    assert toks[1..][0] == Spaces && toks[1..][1..] == toks[2..];
    SpaceRunExact(s, i + |w|, j);
  }

  /** The characters of `i denne <kind> ` at the start of `s`. */
  predicate DenneLayout(s: string, kind: string) {
    && |kind| > 0 && 9 + |kind| <= |s|
    && s[0] == 'i' && s[1] == ' ' && s[2] == 'd' && LitAtCI(s, 2, "denne") && s[7] == ' '
    && s[8] == kind[0] && s[8 + |kind|] == ' '
  }

  lemma DenneChars(s: string, kind: string)
    requires |kind| > 0 && LitAt(s, 0, "i denne " + kind + " ")
    ensures DenneLayout(s, kind)
  {
    var d := "i denne " + kind + " ";
    assert s[..|d|] == d;
    assert s[0] == d[0] && s[1] == d[1] && s[2] == d[2] && s[7] == d[7] && s[8] == d[8] && s[8 + |kind|] == d[8 + |kind|];
    assert s[2..7] == d[2..7];
  }

  /** The pieces `i\s+denne\s+(?:<kinds>)\s+`. */
  predicate DenneToks(toks: seq<Tok>, kinds: seq<string>) {
    && |toks| == 6 && toks[0] == Word("i", true) && toks[1] == Spaces && toks[2] == Word("denne", true)
    && toks[3] == Spaces && toks[4] == Choice(kinds, true) && toks[5] == Spaces
  }

  /** `i denne <kind> ` at the start of `s`, followed by a non-space, is matched whole. */
  lemma DenneRun(s: string, toks: seq<Tok>, kinds: seq<string>, kind: string)
    requires DenneToks(toks, kinds)
    requires |kind| > 0 && !IsSpace(kind[0]) && LitAt(s, 0, "i denne " + kind + " ")
    requires FirstOption(s, 8, kinds, true) == Some(kind)
    requires 9 + |kind| < |s| ==> !IsSpace(s[9 + |kind|])
    ensures Run(s, 0, toks) == Some(9 + |kind|)
  {
    DenneChars(s, kind);
    DenneRunOf(s, toks, kinds, kind);
  }

  lemma DenneRunOf(s: string, toks: seq<Tok>, kinds: seq<string>, kind: string)
    requires DenneToks(toks, kinds)
    requires |kind| > 0 && !IsSpace(kind[0]) && DenneLayout(s, kind)
    requires FirstOption(s, 8, kinds, true) == Some(kind)
    requires 9 + |kind| < |s| ==> !IsSpace(s[9 + |kind|])
    ensures Run(s, 0, toks) == Some(9 + |kind|)
  {
    assert LitAtCI(s, 0, "i");
    WordSpacesRun(s, 0, "i", true, toks, 2);
    assert toks[2..][2..] == toks[4..];
    WordSpacesRun(s, 2, "denne", true, toks[2..], 8);
    ChoiceSpacesRun(s, 8, kinds, kind, toks[4..], 9 + |kind|);
    assert toks[4..][2..] == [];
  }

  /** A lower-case literal that occurs at `i` also occurs there up to case. */
  lemma LitAtIgnoringCase(s: string, i: nat, w: string)
    requires LitAt(s, i, w) && Lower(w) == w
    ensures LitAtCI(s, i, w)
  {
    forall k | 0 <= k < |w| ensures ToLowerChar(s[i + k]) == w[k] {
      assert s[i + k] == s[i..i + |w|][k];
      assert Lower(w)[k] == ToLowerChar(w[k]);
    }
  }

  /** `med ` at `i`, followed by a non-space, is what `med\s+` matches. */
  lemma MedRunAt(s: string, i: nat)
    requires LitAt(s, i, "med ")
    requires i + 4 < |s| ==> !IsSpace(s[i + 4])
    ensures Run(s, i, Med) == Some(i + 4)
  {
    assert s[i..i + 3] == s[i..i + 4][..3];
    assert Lower("med") == "med";
    LitAtIgnoringCase(s, i, "med");
    assert s[i + 3] == s[i..i + 4][3];
    WordSpacesRun(s, i, "med", true, Med, i + 4);
    assert Med[2..] == [];
  }

  /** A run that starts with a literal fails where the literal does. */
  lemma RunFailsAtWord(s: string, i: nat, w: string, toks: seq<Tok>)
    requires |toks| > 0 && toks[0] == Word(w, true) && !LitAtCI(s, i, w)
    ensures Run(s, i, toks) == None
  {
  }

  /** `med\s+` only matches where the word is `med`. */
  lemma MedWord(s: string, i: nat)
    requires i <= |s| && Run(s, i, Med).Some?
    ensures Lower(WordFrom(s, i)) == "med"
  {
    WordThenSpaces(s, i, "med", Med);
  }

  /** `i\s+denne\s+(?:lov|forskrift)\s+` only matches where the word is `i`. */
  lemma DenneLovWord(s: string, i: nat)
    requires i <= |s| && Run(s, i, DenneLov).Some?
    ensures Lower(WordFrom(s, i)) == "i"
  {
    DenneLovShape();
    WordThenSpaces(s, i, "i", DenneLov);
  }

  /** `i\s+denne\s+(?:lov|forskrift|kapittel)\s+` only matches where the word is `i`. */
  lemma DenneLeadWord(s: string, i: nat)
    requires i <= |s| && Run(s, i, DenneLead).Some?
    ensures Lower(WordFrom(s, i)) == "i"
  {
    DenneLovShape();
    WordThenSpaces(s, i, "i", DenneLead);
  }

  /** The word after a prefix is the first word of what follows it. */
  lemma WordAfterPrefix(p: string, u: string)
    ensures WordFrom(p + u, |p|) == FirstWord(u)
  {
    var e := Span(u, 0, NonSpace);
    SpanExact(p + u, |p|, |p| + e, NonSpace);
    assert (p + u)[|p|..|p| + e] == u[..e];
  }

  /** A suffix that starts with whitespace leaves the first word alone. */
  lemma FirstWordBeforeSpace(c: string, tail: string)
    requires tail == [] || IsSpace(tail[0])
    ensures FirstWord(c + tail) == FirstWord(c)
  {
    var e := Span(c, 0, NonSpace);
    SpanExact(c + tail, 0, e, NonSpace);
    assert (c + tail)[..e] == c[..e];
  }

  /** The phrasings `extractTerm` removes in front of a term: `i denne lov|forskrift ` and/or `med `. */
  function TermLead(denne: bool, kind: string, med: bool): string {
    (if denne then "i denne " + kind + " " else "") + (if med then "med " else "")
  }

  /** The phrasing in front of a term is empty or ends in a space. */
  lemma TermLeadEnds(denne: bool, kind: string, med: bool)
    ensures var lead := TermLead(denne, kind, med); lead == [] || lead[|lead| - 1] == ' '
  {
  }

  /** No character of `w` is changed by lower-casing. */
  predicate LowerCaseWord(w: string) {
    forall k :: 0 <= k < |w| ==> !IsAsciiUpper(w[k]) && !IsLatin1Upper(w[k])
  }

  /** A lower-case literal that occurs at `i` also occurs there up to case. */
  lemma LitAtLowerCase(s: string, i: nat, w: string)
    requires LitAt(s, i, w) && LowerCaseWord(w)
    ensures LitAtCI(s, i, w)
  {
    forall k | 0 <= k < |w| ensures ToLowerChar(s[i + k]) == w[k] {
      assert s[i + k] == s[i..i + |w|][k];
    }
  }

  /** The choice `(?:lov|forskrift)` takes the kind that is written at `i`. */
  lemma KindOption(s: string, i: nat, kind: string)
    requires kind in ["lov", "forskrift"] && LitAt(s, i, kind)
    ensures FirstOption(s, i, ["lov", "forskrift"], true) == Some(kind)
  {
    LitAtLowerCase(s, i, kind);
    if kind == "forskrift" {
      assert s[i] == s[i..i + |kind|][0] == 'f';
      NotLitAtCI(s, i, "lov");
    }
  }

  lemma DenneLovShape()
    ensures DenneToks(DenneLov, ["lov", "forskrift"]) && DenneToks(DenneLead, ["lov", "forskrift", "kapittel"])
  {
  }

  /** `i denne <kind> ` as `i\s+denne\s+(?:lov|forskrift)\s+` reads it. */
  lemma DenneLovAt(s: string, toks: seq<Tok>, kind: string)
    requires DenneToks(toks, ["lov", "forskrift"])
    requires kind in ["lov", "forskrift"] && LitAt(s, 0, "i denne " + kind + " ")
    requires 9 + |kind| < |s| ==> !IsSpace(s[9 + |kind|])
    ensures Run(s, 0, toks) == Some(9 + |kind|)
  {
    var d := "i denne " + kind + " ";
    assert s[8..8 + |kind|] == s[..|d|][8..8 + |kind|] == kind;
    KindOption(s, 8, kind);
    DenneRun(s, toks, ["lov", "forskrift"], kind);
  }

  lemma DenneLovAtStart(kind: string, u: string)
    requires kind in ["lov", "forskrift"] && u != [] && !IsSpace(u[0])
    ensures Run("i denne " + kind + " " + u, 0, DenneLov) == Some(9 + |kind|)
  {
    var d := "i denne " + kind + " ";
    var s := d + u;
    assert s[..|d|] == d && s[|d|] == u[0];
    DenneLovShape();
    DenneLovAt(s, DenneLov, kind);
  }

  /** A term that does not start with `med` or `i` is what the leading replacements leave. */
  lemma NoTermLead(t: string)
    requires Lower(FirstWord(t)) != "med" && Lower(FirstWord(t)) != "i"
    ensures Run(t, 0, Med).None? && Run(t, 0, DenneLov).None?
  {
    if Run(t, 0, Med).Some? { MedWord(t, 0); }
    if Run(t, 0, DenneLov).Some? { DenneLovWord(t, 0); }
  }

  lemma StripsMedLead(t: string)
    requires t != [] && !IsSpace(t[0])
    requires Run(t, 0, DenneLov).None?
    ensures StripDenneLov(StripMed("med " + t)) == t
  {
    var s := "med " + t;
    NotLitAtCI(s, 0, "i");
    RunFailsAtWord(s, 0, "i", DenneLov);
    assert LitAt(s, 0, "med ") && s[4] == t[0];
    MedRunAt(s, 0);
    assert s[4..] == t;
  }

  lemma StripsDenneMedLead(kind: string, t: string)
    requires kind in ["lov", "forskrift"] && t != [] && !IsSpace(t[0])
    requires Run(t, 0, DenneLov).None?
    ensures StripDenneLov(StripMed("i denne " + kind + " " + "med " + t)) == t
  {
    var d := "i denne " + kind + " ";
    var s := d + ("med " + t);
    assert "i denne " + kind + " " + "med " + t == s;
    DenneLovAtStart(kind, "med " + t);
    assert |d| == 9 + |kind|;
    assert s[|d|..|d| + 4] == "med " && s[|d| + 4] == t[0];
    MedRunAt(s, |d|);
    assert s[|d| + 4..] == t;
  }

  lemma StripsDenneLead(kind: string, t: string)
    requires kind in ["lov", "forskrift"] && t != [] && !IsSpace(t[0])
    requires Lower(FirstWord(t)) != "med"
    ensures StripDenneLov(StripMed("i denne " + kind + " " + t)) == t
  {
    var d := "i denne " + kind + " ";
    var s := d + t;
    DenneLovAtStart(kind, t);
    assert |d| == 9 + |kind|;
    NotLitAtCI(s, 0, "med");
    RunFailsAtWord(s, 0, "med", Med);
    WordAfterPrefix(d, t);
    if Run(s, |d|, Med).Some? { MedWord(s, |d|); }
    assert StripMed(s) == s;
    assert s[|d|..] == t;
  }

  /** The two leading replacements of `extractTerm` remove exactly the lead. */
  lemma StripsTermLead(denne: bool, kind: string, med: bool, t: string)
    requires kind in ["lov", "forskrift"] && t != [] && !IsSpace(t[0])
    requires Lower(FirstWord(t)) != "med" && Lower(FirstWord(t)) != "i"
    ensures StripDenneLov(StripMed(TermLead(denne, kind, med) + t)) == t
  {
    NoTermLead(t);
    if !denne && !med {
      assert TermLead(denne, kind, med) + t == t;
    } else if !denne {
      assert TermLead(denne, kind, med) + t == "med " + t;
      StripsMedLead(t);
    } else if med {
      assert TermLead(denne, kind, med) + t == "i denne " + kind + " " + "med " + t;
      StripsDenneMedLead(kind, t);
    } else {
      assert TermLead(denne, kind, med) + t == "i denne " + kind + " " + t;
      StripsDenneLead(kind, t);
    }
  }

  // ---------------------------------------------------------------------------
  // The trailing verb
  // ---------------------------------------------------------------------------

  lemma VerbShape()
    ensures |VerbToks| == 2 && VerbToks[0] == Spaces && VerbToks[1] == Choice(Verbs, true)
    ensures forall o :: o in Verbs ==> o != [] && NoSpace(o)
  {
  }

  /** What a match of `\s+(?:<os>)` ending at the end of `s` consists of. */
  lemma SpacesChoiceMatch(s: string, k: nat, toks: seq<Tok>, os: seq<string>) returns (j: nat, o: string)
    requires |toks| == 2 && toks[0] == Spaces && toks[1] == Choice(os, true)
    requires Run(s, k, toks) == Some(|s|)
    ensures o in os && k < j && j + |o| == |s| && LitAtCI(s, j, o)
    ensures forall i :: k <= i < j ==> IsSpace(s[i])
  {
    j := SpaceRun(s, k);
    var rest := toks[1..];
    assert rest[0] == Choice(os, true) && rest[1..] == [];
    assert Run(s, k, toks) == Run(s, j, rest);
    var f := FirstOption(s, j, os, true);
    assert f.Some?;
    o := f.value;
    assert Run(s, j, rest) == Run(s, j + |o|, []);
  }

  /** What a match of the trailing-verb expression at `k` consists of. */
  lemma VerbMatch(s: string, k: nat) returns (j: nat, o: string)
    requires TrailingVerbAt(s, k).Some?
    ensures o in Verbs && k < j && j + |o| == |s| && LitAtCI(s, j, o)
    ensures forall i :: k <= i < j ==> IsSpace(s[i])
  {
    VerbShape();
    j, o := SpacesChoiceMatch(s, k, VerbToks, Verbs);
  }

  /** One space and then a choice that takes the rest of `s`. */
  lemma SpaceChoiceRun(s: string, k: nat, toks: seq<Tok>, os: seq<string>, w: string)
    requires |toks| == 2 && toks[0] == Spaces && toks[1] == Choice(os, true)
    requires k + 1 + |w| == |s| && IsSpace(s[k]) && w != [] && !IsSpace(s[k + 1])
    requires FirstOption(s, k + 1, os, true) == Some(w)
    ensures Run(s, k, toks) == Some(|s|)
  {
    SpaceRunExact(s, k, k + 1);
    var rest := toks[1..];
    assert rest[0] == Choice(os, true) && rest[1..] == [];
    assert Run(s, k, toks) == Run(s, k + 1, rest);
    assert Run(s, k + 1, rest) == Run(s, k + 1 + |w|, []);
  }

  /** `c` ends with whitespace and then the word `w`, up to case. */
  predicate EndsWithWord(c: string, w: string) {
    |c| > |w| && IsSpace(c[|c| - |w| - 1]) && LitAtCI(c, |c| - |w|, w)
  }

  /** Without a trailing verb the last replacement changes nothing. */
  lemma NoTrailingVerb(c: string)
    requires forall w :: w in Verbs ==> !EndsWithWord(c, w)
    ensures StripVerb(c) == c
  {
    var m := FirstMatch(TrailingVerbAt, c, 0);
    if m.Some? {
      var j, o := VerbMatch(c, m.value.start);
      assert EndsWithWord(c, o);
    }
  }

  /** The choice of verbs takes the verb that is written at `i`. */
  lemma VerbOption(s: string, i: nat, w: string)
    requires w in Verbs && LitAt(s, i, w)
    ensures FirstOption(s, i, Verbs, true) == Some(w)
  {
    LitAtLowerCase(s, i, w);
    if w != "menes" {
      assert s[i] == s[i..i + |w|][0] == 'f';
      NotLitAtCI(s, i, "menes");
    }
    if w == "forstaas" {
      assert s[i + 5] == s[i..i + |w|][5] == 'a';
      assert ToLowerChar(s[i + 5]) != "forstås"[5];
    }
  }

  /** `c` followed by one space and a verb: the leftmost match is at the space. */
  lemma VerbAfterTerm(c: string, w: string)
    requires c != [] && !IsSpace(c[|c| - 1]) && w in Verbs
    ensures MatchesAt(TrailingVerbAt, c + " " + w, |c|)
    ensures forall k :: 0 <= k < |c| ==> !MatchesAt(TrailingVerbAt, c + " " + w, k)
  {
    var t := c + " " + w;
    VerbShape();
    assert t[|c|] == ' ' && t[|c| + 1..] == w && t[|c| + 1] == w[0];
    VerbOption(t, |c| + 1, w);
    SpaceChoiceRun(t, |c|, VerbToks, Verbs, w);
    forall k | 0 <= k < |c| ensures !MatchesAt(TrailingVerbAt, t, k) {
      NoVerbBefore(c, w, k);
    }
  }

  /** A literal found across a whitespace character contains that character, up to case. */
  lemma SpaceInLiteral(s: string, j: nat, o: string, p: nat)
    requires LitAtCI(s, j, o) && j <= p < j + |o| && IsSpace(s[p])
    ensures IsSpace(o[p - j])
  {
    LowerKeepsSpaces(s[p]);
    assert ToLowerChar(s[j + (p - j)]) == o[p - j];
  }

  lemma LastBeforeVerb(c: string, w: string)
    ensures c != [] ==> (c + " " + w)[|c| - 1] == c[|c| - 1]
  {
  }

  lemma NoVerbBefore(c: string, w: string, k: nat)
    requires c != [] && !IsSpace(c[|c| - 1]) && w in Verbs && k < |c|
    ensures !MatchesAt(TrailingVerbAt, c + " " + w, k)
  {
    var t := c + " " + w;
    if MatchesAt(TrailingVerbAt, t, k) {
      var j, o := VerbMatch(t, k);
      VerbShape();
      if j <= |c| {
        assert t[|c|] == ' ';
        SpaceInLiteral(t, j, o, |c|);
      } else {
        LastBeforeVerb(c, w);
      }
    }
  }

  /** The last replacement of `extractTerm` removes exactly a trailing verb. */
  lemma StripsTrailingVerb(c: string, w: string)
    requires c != [] && !IsSpace(c[|c| - 1]) && w in Verbs
    ensures StripVerb(c + " " + w) == c
  {
    VerbAfterTerm(c, w);
    FirstMatchAt(TrailingVerbAt, c + " " + w, 0, |c|);
    assert (c + " " + w)[..|c|] == c;
  }

  // ---------------------------------------------------------------------------
  // extractTerm removes exactly the lead and the verb
  // ---------------------------------------------------------------------------

  /**
   * A term `extractTerm` keeps whole: it is not empty, does not itself begin
   * with the word `med` or `i`, and does not end with a verb after whitespace.
   */
  predicate PlainTerm(c: string) {
    && c != []
    && Lower(FirstWord(c)) != "med" && Lower(FirstWord(c)) != "i"
    && forall w :: w in Verbs ==> !EndsWithWord(c, w)
  }

  /** A normalised string cut around a non-empty middle whose neighbours are spaces. */
  lemma MiddleEnds(s: string, lead: string, c: string, tail: string)
    requires IsNormalized(s) && s == lead + c + tail && c != []
    requires lead == [] || lead[|lead| - 1] == ' '
    requires tail == [] || tail[0] == ' '
    ensures !IsSpace(c[0]) && !IsSpace(c[|c| - 1])
  {
    assert c[0] == s[|lead|] && c[|c| - 1] == s[|lead| + |c| - 1];
    if lead != [] {
      assert s[|lead| - 1] == ' ';
    }
    if tail != [] {
      assert s[|lead| + |c|] == ' ';
    }
  }

  /**
   * `extractTerm` removes a leading `med`, `i denne lov|forskrift` or both, and
   * a trailing `menes`/`forstås`/`forstaas`, and upper-cases the first letter of
   * what is left, whatever whitespace the raw text had.
   */
  lemma ExtractTermStrips(text: string, denne: bool, kind: string, med: bool, tail: string, c: string)
    requires kind in ["lov", "forskrift"] && tail in ["", " menes", " forstås", " forstaas"]
    requires CleanText(text) == TermLead(denne, kind, med) + c + tail
    requires PlainTerm(c)
    ensures ExtractTerm(text) == CapitalizeFirst(c)
  {
    StripsTermParts(CleanText(text), denne, kind, med, tail, c);
  }

  /** The tails `extractTerm` removes are a space and a verb. */
  lemma TailIsVerb(tail: string)
    requires tail in [" menes", " forstås", " forstaas"]
    ensures tail[1..] in Verbs && tail == " " + tail[1..]
  {
  }

  lemma SpaceThenWord(c: string, tail: string, w: string)
    requires tail == " " + w
    ensures c + tail == c + " " + w
  {
  }

  lemma StripsTermParts(s: string, denne: bool, kind: string, med: bool, tail: string, c: string)
    requires kind in ["lov", "forskrift"] && tail in ["", " menes", " forstås", " forstaas"]
    requires IsNormalized(s) && s == TermLead(denne, kind, med) + c + tail
    requires PlainTerm(c)
    ensures StripVerb(StripDenneLov(StripMed(s))) == c
  {
    var lead := TermLead(denne, kind, med);
    var t := c + tail;
    Assoc(lead, c, tail);
    TermLeadEnds(denne, kind, med);
    MiddleEnds(s, lead, c, tail);
    FirstWordBeforeSpace(c, tail);
    assert t[0] == c[0];
    StripsTermLead(denne, kind, med, t);
    StripsTermVerb(c, tail);
  }

  /** The trailing verb, when there is one, is all `StripVerb` takes off a plain term. */
  lemma StripsTermVerb(c: string, tail: string)
    requires tail in ["", " menes", " forstås", " forstaas"]
    requires PlainTerm(c) && !IsSpace(c[|c| - 1])
    ensures StripVerb(c + tail) == c
  {
    if tail == "" {
      assert c + tail == c;
      NoTrailingVerb(c);
    } else {
      TailIsVerb(tail);
      var w := tail[1..];
      StripsTrailingVerb(c, w);
      SpaceThenWord(c, tail, w);
    }
  }

  // ---------------------------------------------------------------------------
  // extractDefinition keeps the body of the definition
  // ---------------------------------------------------------------------------

  /** The phrasing `extractDefinition` removes in front of a definition. */
  function DefinitionLead(lead: bool, kind: string): string {
    if lead then "i denne " + kind + " " else ""
  }

  /** The provision note `extractDefinition` removes at the end: ` Lov (<id>)`, perhaps with a final period. */
  function LovNote(id: string, dot: bool): string {
    " Lov (" + id + ")" + (if dot then "." else "")
  }

  /** The choice `(?:lov|forskrift|kapittel)` takes the kind that is written at `i`. */
  lemma LeadKindOption(s: string, i: nat, kind: string)
    requires kind in ["lov", "forskrift", "kapittel"] && LitAt(s, i, kind)
    ensures FirstOption(s, i, ["lov", "forskrift", "kapittel"], true) == Some(kind)
  {
    LitAtLowerCase(s, i, kind);
    if kind != "lov" {
      assert s[i] == s[i..i + |kind|][0] == kind[0];
      NotLitAtCI(s, i, "lov");
    }
    if kind == "kapittel" {
      NotLitAtCI(s, i, "forskrift");
    }
  }

  /** `i denne <kind> ` as `i\s+denne\s+(?:lov|forskrift|kapittel)\s+` reads it. */
  lemma DenneLeadAt(s: string, toks: seq<Tok>, kind: string)
    requires DenneToks(toks, ["lov", "forskrift", "kapittel"])
    requires kind in ["lov", "forskrift", "kapittel"] && LitAt(s, 0, "i denne " + kind + " ")
    requires 9 + |kind| < |s| ==> !IsSpace(s[9 + |kind|])
    ensures Run(s, 0, toks) == Some(9 + |kind|)
  {
    var d := "i denne " + kind + " ";
    assert s[8..8 + |kind|] == s[..|d|][8..8 + |kind|] == kind;
    LeadKindOption(s, 8, kind);
    DenneRun(s, toks, ["lov", "forskrift", "kapittel"], kind);
  }

  lemma DenneLeadAtStart(kind: string, u: string)
    requires kind in ["lov", "forskrift", "kapittel"] && u != [] && !IsSpace(u[0])
    ensures Run("i denne " + kind + " " + u, 0, DenneLead) == Some(9 + |kind|)
  {
    var d := "i denne " + kind + " ";
    var s := d + u;
    assert s[..|d|] == d && s[|d|] == u[0];
    DenneLovShape();
    DenneLeadAt(s, DenneLead, kind);
  }

  /** The leading replacement of `extractDefinition` removes exactly the lead. */
  lemma StripsDefinitionLead(lead: bool, kind: string, t: string)
    requires kind in ["lov", "forskrift", "kapittel"] && t != [] && !IsSpace(t[0])
    requires Lower(FirstWord(t)) != "i"
    ensures StripLead(DefinitionLead(lead, kind) + t) == t
  {
    if lead {
      var d := "i denne " + kind + " ";
      DenneLeadAtStart(kind, t);
      assert (d + t)[|d|..] == t;
    } else {
      assert DefinitionLead(lead, kind) + t == t;
      if Run(t, 0, DenneLead).Some? {
        DenneLeadWord(t, 0);
      }
    }
  }

  lemma NoteShape()
    ensures |NoteToks| == 4 && NoteToks[0] == Spaces && NoteToks[1] == Word("lov", true)
    ensures NoteToks[2] == Spaces && NoteToks[3] == Word("(", false)
  {
  }

  /** What a match of `\s+Lov\s+\(` at `k` consists of: whitespace up to `j`, `lov`, whitespace up to `q`, and `(` at `q`. */
  lemma NoteRun(s: string, k: nat, toks: seq<Tok>) returns (j: nat, q: nat)
    requires |toks| == 4 && toks[0] == Spaces && toks[1] == Word("lov", true)
    requires toks[2] == Spaces && toks[3] == Word("(", false)
    requires Run(s, k, toks).Some?
    ensures k < j && j + 3 < q < |s| && s[q] == '(' && Run(s, k, toks) == Some(q + 1)
    ensures forall i :: k <= i < j ==> IsSpace(s[i])
    ensures LitAtCI(s, j, "lov")
    ensures forall i :: j + 3 <= i < q ==> IsSpace(s[i])
  {
    j := SpaceRun(s, k);
    var t1 := toks[1..];
    assert t1[0] == Word("lov", true);
    assert Run(s, k, toks) == Run(s, j, t1);
    var t2 := t1[1..];
    assert t2[0] == Spaces;
    assert Run(s, j, t1) == Run(s, j + 3, t2);
    q := SpaceRun(s, j + 3);
    var t3 := t2[1..];
    assert t3[0] == Word("(", false) && t3[1..] == [];
    assert Run(s, j + 3, t2) == Run(s, q, t3);
    assert LitAt(s, q, "(");
    assert s[q] == s[q..q + 1][0];
    assert Run(s, q, t3) == Run(s, q + 1, []);
  }

  /** Without a `(` there is no provision note to remove. */
  lemma NoNoteWithoutParen(c: string)
    requires '(' !in c
    ensures StripLovNote(c) == c
  {
    var m := FirstMatch(LovNoteAt, c, 0);
    if m.Some? {
      NoteShape();
      var j, q := NoteRun(c, m.value.start, NoteToks);
    }
  }

  /** The characters of ` Lov (<id>)` and the optional period, starting at `n`. */
  predicate NoteLayout(s: string, n: nat, id: string, dot: bool) {
    && n + 7 + |id| + (if dot then 1 else 0) == |s|
    && NoteHead(s, n)
    && (forall i :: n + 6 <= i < n + 6 + |id| ==> s[i] == id[i - n - 6])
    && s[n + 6 + |id|] == ')'
    && (dot ==> s[n + 7 + |id|] == '.')
  }

  /** The characters of ` Lov (` at `n`. */
  predicate NoteHead(s: string, n: nat) {
    && n + 6 <= |s|
    && s[n] == ' ' && s[n + 1] == 'L' && s[n + 2] == 'o' && s[n + 3] == 'v' && s[n + 4] == ' ' && s[n + 5] == '('
  }

  lemma NoteChars(c: string, id: string, dot: bool)
    ensures NoteLayout(c + LovNote(id, dot), |c|, id, dot)
  {
    var note := LovNote(id, dot);
    var s := c + note;
    assert s[|c|..] == note;
    assert note[..6] == " Lov (" && note[6..6 + |id|] == id && note[6 + |id|] == ')';
    assert dot ==> note[7 + |id|] == '.';
    forall i | |c| <= i < |s| ensures s[i] == note[i - |c|] {
    }
    forall i | |c| + 6 <= i < |c| + 6 + |id| ensures s[i] == id[i - |c| - 6] {
      assert s[i] == note[i - |c|] == note[6..6 + |id|][i - |c| - 6];
    }
  }

  /** `\s+Lov\s+\([^)]+\)\.?$` matches a note laid out at `n`. */
  lemma NoteAt(s: string, n: nat, id: string, dot: bool)
    requires NoteLayout(s, n, id, dot) && id != [] && ')' !in id
    ensures MatchesAt(LovNoteAt, s, n)
  {
    NoteOpens(s, n);
    NoteCloses(s, n, id, dot);
  }

  lemma NoteOpens(s: string, n: nat)
    requires NoteHead(s, n)
    ensures Run(s, n, NoteToks) == Some(n + 6)
  {
    NoteShape();
    SpaceRunExact(s, n, n + 1);
    assert Run(s, n, NoteToks) == Run(s, n + 1, NoteToks[1..]);
    NoteLov(s, n);
    WordSpacesRun(s, n + 1, "lov", true, NoteToks[1..], n + 5);
    NoteParen(s, n);
  }

  lemma NoteLov(s: string, n: nat)
    requires NoteHead(s, n)
    ensures LitAtCI(s, n + 1, "lov")
  {
    assert ToLowerChar(s[n + 1 + 0]) == 'l' && ToLowerChar(s[n + 1 + 1]) == 'o' && ToLowerChar(s[n + 1 + 2]) == 'v';
  }

  lemma NoteParen(s: string, n: nat)
    requires NoteHead(s, n)
    ensures Run(s, n + 5, NoteToks[1..][2..]) == Some(n + 6)
  {
    NoteShape();
    assert NoteToks[1..][2..] == [Word("(", false)];
    assert s[n + 5..n + 6] == "(";
    assert Run(s, n + 5, [Word("(", false)]) == Run(s, n + 6, []);
  }

  lemma NoteCloses(s: string, n: nat, id: string, dot: bool)
    requires NoteLayout(s, n, id, dot) && ')' !in id
    ensures Span(s, n + 6, NotClose) == n + 6 + |id|
  {
    var e := n + 6 + |id|;
    forall i | n + 6 <= i < e ensures NotClose(s[i]) {
      assert s[i] == id[i - n - 6];
    }
    SpanExact(s, n + 6, e, NotClose);
  }

  /** A literal matched up to case at `j` has its `m`-th character there. */
  lemma LitAtCIChar(s: string, j: nat, lit: string, m: int)
    ensures LitAtCI(s, j, lit) && 0 <= m < |lit| ==> j + m < |s| && ToLowerChar(s[j + m]) == lit[m]
  {
  }

  /** No note starts inside a body that ends in a non-space and has no `(`. */
  lemma NoNoteBefore(s: string, n: nat, k: nat)
    requires NoteHead(s, n) && 0 < n && !IsSpace(s[n - 1])
    requires forall i :: 0 <= i < n ==> s[i] != '('
    requires k < n
    ensures !MatchesAt(LovNoteAt, s, k)
  {
    NoNoteRunBefore(s, n, k);
  }

  lemma NoNoteRunBefore(s: string, n: nat, k: nat)
    requires NoteHead(s, n) && 0 < n && !IsSpace(s[n - 1])
    requires forall i :: 0 <= i < n ==> s[i] != '('
    requires k < n
    ensures Run(s, k, NoteToks).None?
  {
    if Run(s, k, NoteToks).Some? {
      NoteShape();
      var j, q := NoteRun(s, k, NoteToks);
      NoteCases(s, n, k, j, q);
    }
  }

  /** Whitespace from `k` to `j` and from `j + 3` to `q`, with `k` inside the body, leaves no room for `lov (`. */
  lemma NoteCases(s: string, n: nat, k: nat, j: nat, q: nat)
    requires NoteHead(s, n) && 0 < n && !IsSpace(s[n - 1])
    requires forall i :: 0 <= i < n ==> s[i] != '('
    requires k < n && k < j && j + 3 < q < |s|
    requires forall i :: k <= i < j ==> IsSpace(s[i])
    requires forall i :: j + 3 <= i < q ==> IsSpace(s[i])
    ensures s[q] != '(' || !LitAtCI(s, j, "lov")
  {
    LitAtCIChar(s, j, "lov", n - j);
  }

  /** The trailing replacement of `extractDefinition` removes exactly a provision note. */
  lemma NoteAfterDefinition(c: string, id: string, dot: bool)
    requires c != [] && !IsSpace(c[|c| - 1]) && '(' !in c
    requires id != [] && ')' !in id
    ensures StripLovNote(c + LovNote(id, dot)) == c
  {
    var s := c + LovNote(id, dot);
    NoteChars(c, id, dot);
    NoteAt(s, |c|, id, dot);
    assert s[|c| - 1] == c[|c| - 1];
    forall i | 0 <= i < |c| ensures s[i] != '(' {
      assert s[i] == c[i];
    }
    forall k | 0 <= k < |c| ensures !MatchesAt(LovNoteAt, s, k) {
      NoNoteBefore(s, |c|, k);
    }
    FirstMatchAt(LovNoteAt, s, 0, |c|);
    assert s[..|c|] == c;
  }

  /**
   * A definition body `extractDefinition` keeps whole: it is not empty, does not
   * itself begin with the word `i`, and has no `(` a provision note could start at.
   */
  predicate PlainDefinition(c: string) {
    c != [] && Lower(FirstWord(c)) != "i" && '(' !in c
  }

  /**
   * `extractDefinition` removes a leading `i denne lov|forskrift|kapittel` and a
   * trailing ` Lov (<id>)` note, whatever whitespace the raw text had, and adds a
   * period unless what is left already ends a sentence.
   */
  lemma ExtractDefinitionKeeps(text: string, lead: bool, kind: string, c: string, note: bool, id: string, dot: bool)
    requires kind in ["lov", "forskrift", "kapittel"]
    requires CleanText(text) == DefinitionLead(lead, kind) + c + (if note then LovNote(id, dot) else "")
    requires PlainDefinition(c)
    requires note ==> id != [] && ')' !in id
    ensures ExtractDefinition(text) == if EndsSentence(c) then c else c + "."
  {
    StripsDefinitionParts(CleanText(text), lead, kind, c, note, id, dot);
  }

  lemma Assoc(a: string, b: string, c: string)
    ensures a + b + c == a + (b + c)
  {
  }

  lemma StripsDefinitionParts(s: string, lead: bool, kind: string, c: string, note: bool, id: string, dot: bool)
    requires kind in ["lov", "forskrift", "kapittel"]
    requires IsNormalized(s) && s == DefinitionLead(lead, kind) + c + (if note then LovNote(id, dot) else "")
    requires PlainDefinition(c)
    requires note ==> id != [] && ')' !in id
    ensures StripLovNote(StripLead(s)) == c
  {
    var l := DefinitionLead(lead, kind);
    var n := if note then LovNote(id, dot) else "";
    assert l == [] || l[|l| - 1] == ' ';
    assert n == [] || n[0] == ' ';
    MiddleEnds(s, l, c, n);
    var t := c + n;
    Assoc(l, c, n);
    FirstWordBeforeSpace(c, n);
    assert t[0] == c[0];
    StripsDefinitionLead(lead, kind, t);
    if note {
      NoteAfterDefinition(c, id, dot);
    } else {
      assert t == c;
      NoNoteWithoutParen(c);
    }
  }

  // ---------------------------------------------------------------------------
  // What the quality filter counts
  // ---------------------------------------------------------------------------

  /** The pieces of `split(/\s+/)`, joined by single spaces, are the text with its whitespace collapsed. */
  lemma {:induction false} SplitJoins(s: string, i: nat)
    requires i <= |s|
    ensures Join(SplitFrom(s, i), " ") == Collapse(s[i..])
    decreases |s| - i
  {
    var e := Span(s, i, NonSpace);
    if e == |s| {
      SplitLast(s, i);
    } else {
      var j := SpaceRun(s, e);
      SplitJoins(s, j);
      SplitStep(s, i);
    }
  }

  /** The last piece: a word that runs to the end collapses to itself. */
  lemma SplitLast(s: string, i: nat)
    requires i <= |s| && Span(s, i, NonSpace) == |s|
    ensures Join(SplitFrom(s, i), " ") == Collapse(s[i..])
  {
    var w := s[i..];
    WordNoSpace(s, i);
    CollapseNoSpacePrefix(w, "");
    assert w + "" == w;
  }

  lemma WordNoSpace(s: string, i: nat)
    requires i <= |s|
    ensures NoSpace(s[i..Span(s, i, NonSpace)])
  {
    var e := Span(s, i, NonSpace);
    var w := s[i..e];
    forall k | 0 <= k < |w| ensures !IsSpace(w[k]) {
      assert w[k] == s[i + k] && NonSpace(s[i + k]);
    }
  }

  /** One piece, then whitespace: the join and the collapse both put one space after the word. */
  lemma SplitStep(s: string, i: nat)
    requires i <= |s| && Span(s, i, NonSpace) < |s|
    ensures var e := Span(s, i, NonSpace); var j := SpaceRun(s, e);
      && Join(SplitFrom(s, i), " ") == s[i..e] + " " + Join(SplitFrom(s, j), " ")
      && Collapse(s[i..]) == s[i..e] + " " + Collapse(s[j..])
  {
    SplitStepJoin(s, i);
    SplitStepCollapse(s, i);
  }

  lemma SplitStepJoin(s: string, i: nat)
    requires i <= |s| && Span(s, i, NonSpace) < |s|
    ensures var e := Span(s, i, NonSpace);
      Join(SplitFrom(s, i), " ") == s[i..e] + " " + Join(SplitFrom(s, SpaceRun(s, e)), " ")
  {
    var e := Span(s, i, NonSpace);
    var rest := SplitFrom(s, SpaceRun(s, e));
    assert SplitFrom(s, i) == [s[i..e]] + rest;
    JoinCons(s[i..e], rest);
  }

  lemma SplitStepCollapse(s: string, i: nat)
    requires i <= |s| && Span(s, i, NonSpace) < |s|
    ensures var e := Span(s, i, NonSpace); var j := SpaceRun(s, e);
      Collapse(s[i..]) == s[i..e] + " " + Collapse(s[j..])
  {
    var e := Span(s, i, NonSpace);
    var j := SpaceRun(s, e);
    var w := s[i..e];
    WordNoSpace(s, i);
    SpacesThenRest(s, e);
    CollapseWordSpaces(w, s[e..j], s[j..]);
    assert s[i..] == w + s[e..j] + s[j..];
  }

  lemma JoinCons(w: string, rest: seq<string>)
    requires |rest| > 0
    ensures Join([w] + rest, " ") == w + " " + Join(rest, " ")
  {
    assert ([w] + rest)[1..] == rest;
  }

  lemma SpacesThenRest(s: string, e: nat)
    requires e < |s| && IsSpace(s[e])
    ensures var j := SpaceRun(s, e); j > e && AllSpace(s[e..j]) && (s[j..] == [] || !IsSpace(s[j..][0]))
  {
    var j := SpaceRun(s, e);
    forall k | 0 <= k < j - e ensures IsSpace(s[e..j][k]) {
      assert s[e..j][k] == s[e + k];
    }
  }

  lemma CollapseWordSpaces(w: string, sp: string, t: string)
    requires NoSpace(w) && |sp| > 0 && AllSpace(sp) && (t == [] || !IsSpace(t[0]))
    ensures Collapse(w + sp + t) == w + " " + Collapse(t)
  {
    assert w + sp + t == w + (sp + t);
    CollapseNoSpacePrefix(w, sp + t);
    CollapseSpacePrefix(sp, t);
  }

  /** `split(/\s+/)` is undone by joining with single spaces, up to collapsing the whitespace. */
  lemma SplitSpacesJoin(s: string)
    ensures Join(SplitSpaces(s), " ") == Collapse(s)
  {
    SplitJoins(s, 0);
    assert s[0..] == s;
  }

  /** A word followed only by whitespace splits into that word and, after whitespace, one empty piece. */
  lemma SplitWordThenSpaces(d: string, q: nat)
    requires 0 < q <= |d|
    requires forall k :: 0 <= k < q ==> !IsSpace(d[k])
    requires forall k :: q <= k < |d| ==> IsSpace(d[k])
    ensures SplitSpaces(d) == if q == |d| then [d] else [d[..q], ""]
  {
    SpanExact(d, 0, q, NonSpace);
    if q < |d| {
      SpaceRunExact(d, q, |d|);
      SpanExact(d, |d|, |d|, NonSpace);
      assert d[|d|..] == "";
      assert SplitFrom(d, |d|) == [""];
      assert Span(d, 0, NonSpace) == q && SpaceRun(d, q) == |d|;
      assert SplitFrom(d, 0) == [d[0..q]] + SplitFrom(d, |d|);
    } else {
      assert SplitFrom(d, 0) == [d[0..]];
    }
  }

  lemma FewLongWords(x: string, y: string)
    ensures |LongWords([x])| <= 1 && |LongWords([x, y])| <= (if Utf16Length(y) > 2 then 2 else 1)
  {
    assert [x, y][1..] == [y];
  }

  /** A bare number or list marker has at most one word longer than two characters, so the word count alone rejects it. */
  lemma EnumerationFewWords(d: string)
    requires IsEnumerationOnly(d)
    ensures WordCount(d) <= 1
  {
    var q;
    if DigitRun(d, 0) > 0 && DotThenSpaces(d, DigitRun(d, 0)) {
      var n := DigitRun(d, 0);
      q := if n < |d| && d[n] == '.' then n + 1 else n;
      forall k | q <= k < |d| ensures IsSpace(d[k]) {
        assert d[k] == d[q..][k - q];
      }
    } else {
      q := 2;
      forall k | q <= k < |d| ensures IsSpace(d[k]) {
        assert d[k] == d[2..][k - 2];
      }
    }
    SplitWordThenSpaces(d, q);
    FewLongWords(d[..q], "");
  }

  // ---------------------------------------------------------------------------
  // The provision filter
  // ---------------------------------------------------------------------------

  lemma LowerOfUpper(s: string)
    ensures Lower(Upper(s)) == Lower(s)
  {
    forall i | 0 <= i < |s| ensures Lower(Upper(s))[i] == Lower(s)[i] {
      UpperCharKeepsLower(s[i]);
    }
  }

  /** The filter lower-cases the content first, so its verdict does not depend on letter case. */
  lemma LikelyIgnoresCase(p: ProvisionSeed)
    ensures IsLikelyDefinitionProvision(p) == IsLikelyDefinitionProvision(p.(content := Upper(p.content)))
  {
    LowerOfUpper(p.content);
  }

  // ---------------------------------------------------------------------------
  // The definition patterns
  // ---------------------------------------------------------------------------

  /**
   * One of `DEFINITION_PATTERNS`. Each has the shape
   * `<head>\s+([^.]+?)<middle>\s+([^.]+?)\.` with the term in group 1 and the
   * definition in group 2, and none has the `i` flag.
   */
  datatype DefinitionPattern = DefinitionPattern(head: seq<Tok>, middle: seq<Tok>, termGroup: nat, definitionGroup: nat)

  /** `\s+i\s+denne\s+(?:lov|forskrift)` */
  const InDenneLov: seq<Tok> := [Spaces, Word("i", false), Spaces, Word("denne", false), Spaces, Choice(["lov", "forskrift"], false)]

  /** `forst(?:å|aa)s` */
  const Forstaas: Tok := Choice(["forstås", "forstaas"], false)

  const DefinitionPatterns: seq<DefinitionPattern> := [
    DefinitionPattern([Word("Med", false)], [Spaces, Word("menes", false)] + InDenneLov, 1, 2),
    DefinitionPattern([Word("Med", false)], [Spaces, Word("menes", false)], 1, 2),
    DefinitionPattern([Word("Med", false)], [Spaces, Forstaas] + InDenneLov, 1, 2),
    DefinitionPattern([Word("Med", false)], [Spaces, Forstaas], 1, 2),
    DefinitionPattern([Word("I", false), Spaces, Word("denne", false), Spaces, Choice(["lov", "forskrift"], false),
                       Spaces, Word("menes", false), Spaces, Word("med", false)], [], 1, 2),
    DefinitionPattern([Word("I", false), Spaces, Word("loven", false), Spaces, Word("her", false),
                       Spaces, Word("menes", false), Spaces, Word("med", false)], [], 1, 2)
  ]

  predicate NotDot(c: char) { c != '.' }

  /** No character of `s` is a period. */
  predicate NoDot(s: string) { forall i :: 0 <= i < |s| ==> s[i] != '.' }

  /**
   * `\s+([^.]+?)\.` from `g`: where group 2 starts and where its closing period
   * is. The whitespace takes the whole run unless the run is directly followed
   * by the period; then it gives its last character to the group.
   */
  function DefinitionGroup(s: string, g: nat): (r: Option<(nat, nat)>)
    requires g <= |s|
    ensures r.Some? ==> g < r.value.0 < r.value.1 < |s| && s[r.value.1] == '.'
    ensures r.Some? ==> forall i :: g <= i < r.value.0 ==> IsSpace(s[i])
    ensures r.Some? ==> forall i :: r.value.0 <= i < r.value.1 ==> s[i] != '.'
  {
    var h := SpaceRun(s, g);
    if h == g || h == |s| then None
    else if s[h] != '.' then
      var d := Span(s, h, NotDot);
      if d < |s| then Some((h, d)) else None
    else if h >= g + 2 then Some((h - 1, h))
    else None
  }

  /** Where the two groups of a match lie: the term is `termStart..termEnd`, the definition `defStart..dot`. */
  datatype Capture = Capture(termStart: nat, termEnd: nat, defStart: nat, dot: nat)

  /** Group 1 is `[^.]+?` from `b`: the shortest end, from `e` on, after which the rest of the pattern matches. */
  function LazyTerm(s: string, b: nat, e: nat, middle: seq<Tok>): (r: Option<Capture>)
    requires b < |s| && b < e <= Span(s, b, NotDot)
    ensures r.Some? ==> r.value.termStart == b && e <= r.value.termEnd <= Span(s, b, NotDot)
    ensures r.Some? ==> r.value.termEnd < r.value.defStart < r.value.dot < |s| && s[r.value.dot] == '.'
    ensures r.Some? ==> forall i :: r.value.defStart <= i < r.value.dot ==> s[i] != '.'
    decreases |s| - e
  {
    var g := Run(s, e, middle);
    var t := if g.Some? then DefinitionGroup(s, g.value) else None;
    if t.Some? then Some(Capture(b, e, t.value.0, t.value.1))
    else if e < Span(s, b, NotDot) then LazyTerm(s, b, e + 1, middle)
    else None
  }

  /**
   * Group 1 starts after the head's final `\s+`, which first takes the whole
   * run ending at `b` and gives back one character at a time, down to one.
   */
  function TermStart(s: string, a: nat, b: nat, middle: seq<Tok>): (r: Option<Capture>)
    requires a < b <= |s|
    ensures r.Some? ==> a < r.value.termStart <= b && r.value.termStart < r.value.termEnd
    ensures r.Some? ==> r.value.termEnd <= Span(s, r.value.termStart, NotDot)
    ensures r.Some? ==> r.value.termEnd < r.value.defStart < r.value.dot < |s| && s[r.value.dot] == '.'
    ensures r.Some? ==> forall i :: r.value.defStart <= i < r.value.dot ==> s[i] != '.'
    decreases b
  {
    var r := if b < Span(s, b, NotDot) then LazyTerm(s, b, b + 1, middle) else None;
    if r.Some? then r
    else if b > a + 1 then TermStart(s, a, b - 1, middle)
    else None
  }

  /** A definition pattern tried at `k`: the whole match and the two groups. */
  function DefinitionAt(pat: DefinitionPattern, s: string, k: nat): (r: Option<MatchAt>)
    ensures r.Some? ==> DefinitionMatch(s, k, r.value)
  {
    var a := Run(s, k, pat.head);
    if a.None? || SpaceRun(s, a.value) == a.value then None
    else
      match TermStart(s, a.value, SpaceRun(s, a.value), pat.middle)
      case None => None
      case Some(c) => Some(CaptureMatch(s, k, c))
  }

  /** The match from `k` to the period, with the two captured groups. */
  function CaptureMatch(s: string, k: nat, c: Capture): (m: MatchAt)
    requires k <= c.termStart < c.termEnd < c.defStart < c.dot < |s| && s[c.dot] == '.'
    requires c.termEnd <= Span(s, c.termStart, NotDot)
    requires forall i :: c.defStart <= i < c.dot ==> s[i] != '.'
    ensures DefinitionMatch(s, k, m)
  {
    CaptureNoDot(s, c.termStart, c.termEnd);
    CaptureNoDot(s, c.defStart, c.dot);
    MatchAt(c.dot + 1 - k, [Some(s[k..c.dot + 1]), Some(s[c.termStart..c.termEnd]), Some(s[c.defStart..c.dot])])
  }

  /** What a match of a definition pattern at `k` is: text up to a period, and two captured groups. */
  predicate DefinitionMatch(s: string, k: nat, m: MatchAt) {
    && 0 < m.len && k + m.len <= |s| && s[k + m.len - 1] == '.'
    && |m.groups| == 3 && m.groups[0] == Some(s[k..k + m.len])
    && Captured(m.groups[1]) && Captured(m.groups[2])
  }

  /** A group that took part, is not empty and has no period, as `([^.]+?)` captures. */
  predicate Captured(g: Option<string>) {
    g.Some? && g.value != [] && NoDot(g.value)
  }

  lemma CaptureNoDot(s: string, i: nat, j: nat)
    requires i <= j <= |s| && forall k :: i <= k < j ==> s[k] != '.'
    ensures NoDot(s[i..j])
  {
    forall k | 0 <= k < j - i ensures s[i..j][k] != '.' {
      assert s[i..j][k] == s[i + k];
    }
  }

  function PatternAt(pat: DefinitionPattern): Matcher {
    (s: string, k: nat) => DefinitionAt(pat, s, k)
  }

  /** Lengths of group 1 after which the rest of the pattern cannot find its leading `\s+` are skipped. */
  lemma {:induction false} LazyTermSkip(s: string, b: nat, e: nat, f: nat, middle: seq<Tok>)
    requires b < |s| && b < e <= f <= Span(s, b, NotDot)
    requires |middle| > 0 && middle[0] == Spaces && forall x :: e <= x < f ==> !IsSpace(s[x])
    ensures LazyTerm(s, b, e, middle) == LazyTerm(s, b, f, middle)
    decreases f
  {
    if e < f {
      var g := f - 1;
      LazyTermSkip(s, b, e, g, middle);
      SpacesFailAt(s, g, middle);
      LazyTermNext(s, b, g, f, middle);
    }
  }

  /** Where the rest of the pattern fails, group 1 takes one more character. */
  lemma LazyTermNext(s: string, b: nat, e: nat, f: nat, middle: seq<Tok>)
    requires b < |s| && b < e && f == e + 1 && f <= Span(s, b, NotDot) && Run(s, e, middle).None?
    ensures LazyTerm(s, b, e, middle) == LazyTerm(s, b, f, middle)
  {
  }

  /** A run that starts with `\s+` fails at a non-space. */
  lemma SpacesFailAt(s: string, x: nat, middle: seq<Tok>)
    requires |middle| > 0 && middle[0] == Spaces && x < |s| && !IsSpace(s[x])
    ensures Run(s, x, middle).None?
  {
  }

  /** The characters of `Med <term> menes <definition>.` */
  predicate SentenceLayout(s: string, t: string, dfn: string) {
    && |s| == 12 + |t| + |dfn|
    && LitAt(s, 0, "Med") && s[3] == ' '
    && (forall i :: 0 <= i < |t| ==> s[4 + i] == t[i])
    && s[4 + |t|] == ' ' && LitAt(s, 5 + |t|, "menes") && s[10 + |t|] == ' '
    && (forall i :: 0 <= i < |dfn| ==> s[11 + |t| + i] == dfn[i])
    && s[11 + |t| + |dfn|] == '.'
  }

  lemma SentenceChars(t: string, dfn: string)
    ensures SentenceLayout("Med " + t + " menes " + dfn + ".", t, dfn)
  {
    var s := "Med " + t + " menes " + dfn + ".";
    assert s[..3] == "Med";
    assert s[5 + |t|..10 + |t|] == "menes";
    forall i | 0 <= i < |t| ensures s[4 + i] == t[i] {
    }
    forall i | 0 <= i < |dfn| ensures s[11 + |t| + i] == dfn[i] {
    }
  }

  lemma PlainTermPattern()
    ensures DefinitionPatterns[1] == DefinitionPattern([Word("Med", false)], [Spaces, Word("menes", false)], 1, 2)
  {
  }

  /** The head `Med\s+` of a plain sentence: group 1 can only start right after the single space. */
  lemma SentenceHead(s: string, t: string, dfn: string, head: seq<Tok>)
    requires SentenceLayout(s, t, dfn) && t != [] && !IsSpace(t[0])
    requires head == [Word("Med", false)]
    ensures Run(s, 0, head) == Some(3) && SpaceRun(s, 3) == 4
  {
    assert s[4] == t[0];
    SpaceRunExact(s, 3, 4);
    assert Run(s, 0, head) == Run(s, 3, []);
  }

  /** After a one-word group 1, ` menes` is matched. */
  lemma SentenceMiddle(s: string, t: string, dfn: string, middle: seq<Tok>)
    requires SentenceLayout(s, t, dfn) && dfn != [] && !IsSpace(dfn[0])
    requires middle == [Spaces, Word("menes", false)]
    ensures Run(s, 4 + |t|, middle) == Run(s, 10 + |t|, [])
  {
    var n := |t|;
    SpaceRunExact(s, 4 + n, 5 + n);
    assert Run(s, 4 + n, middle) == Run(s, 5 + n, middle[1..]);
  }

  /** The rest of the pattern takes the definition as group 2. */
  lemma SentenceDefinition(s: string, t: string, dfn: string)
    requires SentenceLayout(s, t, dfn) && dfn != [] && !IsSpace(dfn[0]) && NoDot(dfn)
    ensures DefinitionGroup(s, 10 + |t|) == Some((11 + |t|, 11 + |t| + |dfn|))
  {
    var n := |t|;
    assert s[11 + n] == dfn[0];
    SpaceRunExact(s, 10 + n, 11 + n);
    var d := 11 + n + |dfn|;
    forall i | 11 + n <= i < d ensures NotDot(s[i]) {
      assert s[11 + n + (i - 11 - n)] == dfn[i - 11 - n];
    }
    SpanExact(s, 11 + n, d, NotDot);
  }

  /** Group 1 may run over the term and the rest of the sentence, up to the period. */
  lemma SentenceSpan(s: string, t: string, dfn: string)
    requires SentenceLayout(s, t, dfn) && NoDot(t) && NoDot(dfn)
    ensures Span(s, 4, NotDot) == 11 + |t| + |dfn|
  {
    var n := |t|;
    forall i | 4 <= i < 11 + n + |dfn| ensures NotDot(s[i]) {
      if i < 4 + n {
        assert s[4 + (i - 4)] == t[i - 4];
      } else if 11 + n <= i {
        assert s[11 + n + (i - 11 - n)] == dfn[i - 11 - n];
      } else if 5 + n <= i < 10 + n {
        assert s[5 + n..10 + n][i - 5 - n] == s[i];
      }
    }
    SpanExact(s, 4, 11 + n + |dfn|, NotDot);
  }

  /**
   * `Med <term> menes <definition>.` with a one-word term: the second pattern
   * matches the whole sentence, with the term as group 1 and the definition as
   * group 2.
   */
  lemma PlainSentenceCaptured(t: string, dfn: string)
    requires t != [] && NoSpace(t) && NoDot(t)
    requires dfn != [] && !IsSpace(dfn[0]) && NoDot(dfn)
    ensures var s := "Med " + t + " menes " + dfn + ".";
      DefinitionAt(DefinitionPatterns[1], s, 0) == Some(MatchAt(|s|, [Some(s), Some(t), Some(dfn)]))
  {
    var s := "Med " + t + " menes " + dfn + ".";
    var pat := DefinitionPatterns[1];
    PlainTermPattern();
    SentenceChars(t, dfn);
    SentenceHead(s, t, dfn, pat.head);
    SentenceMiddle(s, t, dfn, pat.middle);
    SentenceDefinition(s, t, dfn);
    SentenceSpan(s, t, dfn);
    SentenceWordSkips(s, t, dfn);
    SentenceTerm(s, t, dfn, pat.middle);
    SentenceGroups(s, t, dfn);
    var c := Capture(4, 4 + |t|, 11 + |t|, 11 + |t| + |dfn|);
    DefinitionAtUnfold(pat, s, 0, 3, c);
    SentenceCapture(s, t, dfn, c);
  }

  /** A match assembled from the head, the start of group 1 and the capture positions. */
  lemma DefinitionAtUnfold(pat: DefinitionPattern, s: string, k: nat, a: nat, c: Capture)
    requires Run(s, k, pat.head) == Some(a) && a < SpaceRun(s, a)
    requires TermStart(s, a, SpaceRun(s, a), pat.middle) == Some(c)
    ensures k <= c.termStart && DefinitionAt(pat, s, k) == Some(CaptureMatch(s, k, c))
  {
  }

  /** The groups of the plain sentence are the whole text, the term and the definition. */
  lemma SentenceCapture(s: string, t: string, dfn: string, c: Capture)
    requires c == Capture(4, 4 + |t|, 11 + |t|, 11 + |t| + |dfn|) && |s| == c.dot + 1 && t != [] && dfn != []
    requires c.termEnd <= Span(s, 4, NotDot) && s[c.dot] == '.' && forall i :: c.defStart <= i < c.dot ==> s[i] != '.'
    ensures CaptureMatch(s, 0, c) == MatchAt(|s|, [Some(s[0..|s|]), Some(s[4..4 + |t|]), Some(s[11 + |t|..11 + |t| + |dfn|])])
  {
  }

  /** Group 1 is the shortest that lets the rest match: the whole one-word term. */
  lemma SentenceTerm(s: string, t: string, dfn: string, middle: seq<Tok>)
    requires |s| == 12 + |t| + |dfn| && t != []
    requires Span(s, 4, NotDot) == 11 + |t| + |dfn|
    requires |middle| > 0 && middle[0] == Spaces && forall x :: 5 <= x < 4 + |t| ==> !IsSpace(s[x])
    requires Run(s, 4 + |t|, middle) == Some(10 + |t|)
    requires DefinitionGroup(s, 10 + |t|) == Some((11 + |t|, 11 + |t| + |dfn|))
    ensures TermStart(s, 3, 4, middle) == Some(Capture(4, 4 + |t|, 11 + |t|, 11 + |t| + |dfn|))
  {
    LazyTermFound(s, 4, 4 + |t|, middle);
    LazyTermSkip(s, 4, 5, 4 + |t|, middle);
    TermStartSingle(s, 3, middle);
  }

  /** Group 1 ends at `e` when the rest of the pattern matches there. */
  lemma LazyTermFound(s: string, b: nat, e: nat, middle: seq<Tok>)
    requires b < |s| && b < e <= Span(s, b, NotDot)
    requires Run(s, e, middle).Some? && DefinitionGroup(s, Run(s, e, middle).value).Some?
    ensures var d := DefinitionGroup(s, Run(s, e, middle).value).value;
      LazyTerm(s, b, e, middle) == Some(Capture(b, e, d.0, d.1))
  {
  }

  /** With a single space before it, group 1 starts right after that space or not at all. */
  lemma TermStartSingle(s: string, a: nat, middle: seq<Tok>)
    requires a + 1 < |s| && a + 1 < Span(s, a + 1, NotDot)
    ensures TermStart(s, a, a + 1, middle) == LazyTerm(s, a + 1, a + 2, middle)
  {
  }

  /** Inside a one-word term there is no whitespace for the ` menes` after group 1 to start with. */
  lemma SentenceWordSkips(s: string, t: string, dfn: string)
    requires SentenceLayout(s, t, dfn) && NoSpace(t)
    ensures forall x :: 5 <= x < 4 + |t| ==> !IsSpace(s[x])
  {
    forall x | 5 <= x < 4 + |t| ensures !IsSpace(s[x]) {
      assert s[4 + (x - 4)] == t[x - 4];
    }
  }

  lemma SentenceGroups(s: string, t: string, dfn: string)
    requires SentenceLayout(s, t, dfn)
    ensures s[0..|s|] == s && s[4..4 + |t|] == t && s[11 + |t|..11 + |t| + |dfn|] == dfn
  {
    assert s[4..4 + |t|] == t by {
      forall i | 0 <= i < |t| ensures s[4..4 + |t|][i] == t[i] {
        assert s[4..4 + |t|][i] == s[4 + i];
      }
    }
    var n := |t|;
    assert s[11 + n..11 + n + |dfn|] == dfn by {
      forall i | 0 <= i < |dfn| ensures s[11 + n..11 + n + |dfn|][i] == dfn[i] {
        assert s[11 + n..11 + n + |dfn|][i] == s[11 + n + i];
      }
    }
  }

  // ---------------------------------------------------------------------------
  // extractDefinitionsFromProvision
  // ---------------------------------------------------------------------------

  /** `match[n]`: undefined past the end of the match array. */
  function GroupOf(groups: seq<Option<string>>, n: nat): Option<string> {
    if n < |groups| then groups[n] else None
  }

  /** What the loop body makes of one match: a definition, or nothing when a group is empty or the quality filter says no. */
  function HitDefinition(pat: DefinitionPattern, h: Hit, p: ProvisionSeed, documentId: string): Option<ExtractedDefinition> {
    var rawTerm := GroupOf(h.groups, pat.termGroup);
    var rawDefinition := GroupOf(h.groups, pat.definitionGroup);
    if !Truthy(rawTerm) || !Truthy(rawDefinition) then None
    else
      var term := ExtractTerm(rawTerm.value);
      var definition := ExtractDefinition(rawDefinition.value);
      if IsValidDefinition(term, definition) then Some(ExtractedDefinition(documentId, term, definition, p.provisionRef))
      else None
  }

  /** The definitions a run of matches yields, in match order. */
  function HitsDefinitions(pat: DefinitionPattern, hits: seq<Hit>, p: ProvisionSeed, documentId: string): seq<ExtractedDefinition>
    decreases |hits|
  {
    if hits == [] then []
    else
      var d := HitDefinition(pat, hits[|hits| - 1], p, documentId);
      HitsDefinitions(pat, hits[..|hits| - 1], p, documentId) + (if d.Some? then [d.value] else [])
  }

  /** One more match: its definition, if any, comes last. */
  lemma HitsDefinitionsStep(pat: DefinitionPattern, hits: seq<Hit>, j: nat, p: ProvisionSeed, documentId: string)
    requires j < |hits|
    ensures var h := hits[j];
      var rawTerm := GroupOf(h.groups, pat.termGroup);
      var rawDefinition := GroupOf(h.groups, pat.definitionGroup);
      HitsDefinitions(pat, hits[..j + 1], p, documentId) == HitsDefinitions(pat, hits[..j], p, documentId) +
        if Truthy(rawTerm) && Truthy(rawDefinition) && IsValidDefinition(ExtractTerm(rawTerm.value), ExtractDefinition(rawDefinition.value))
        then [ExtractedDefinition(documentId, ExtractTerm(rawTerm.value), ExtractDefinition(rawDefinition.value), p.provisionRef)]
        else []
  {
    assert hits[..j + 1][..j] == hits[..j];
  }

  /** The definitions the patterns `pats` yield, in pattern order. */
  function PatternsDefinitions(pats: seq<DefinitionPattern>, p: ProvisionSeed, documentId: string): seq<ExtractedDefinition>
    decreases |pats|
  {
    if pats == [] then []
    else
      var pat := pats[|pats| - 1];
      PatternsDefinitions(pats[..|pats| - 1], p, documentId) + HitsDefinitions(pat, MatchAll(PatternAt(pat), p.content), p, documentId)
  }

  function ProvisionDefinitions(p: ProvisionSeed, documentId: string): seq<ExtractedDefinition> {
    PatternsDefinitions(DefinitionPatterns, p, documentId)
  }

  /** `extractDefinitionsFromProvision`: every pattern in turn, and every match of it in turn. */
  method ExtractDefinitionsFromProvision(provision: ProvisionSeed, documentId: string) returns (definitions: seq<ExtractedDefinition>)
    ensures definitions == ProvisionDefinitions(provision, documentId)
  {
    definitions := [];
    var content := provision.content;
    for i := 0 to |DefinitionPatterns|
      invariant definitions == PatternsDefinitions(DefinitionPatterns[..i], provision, documentId)
    {
      var pattern := DefinitionPatterns[i];
      var matches := MatchAll(PatternAt(pattern), content);
      var found := MatchesDefinitions(pattern, matches, provision, documentId);
      definitions := definitions + found;
      PatternsDefinitionsStep(DefinitionPatterns, i, provision, documentId);
    }
    assert DefinitionPatterns[..|DefinitionPatterns|] == DefinitionPatterns;
  }

  /** One more pattern: the definitions from its matches come last. */
  lemma PatternsDefinitionsStep(pats: seq<DefinitionPattern>, i: nat, p: ProvisionSeed, documentId: string)
    requires i < |pats|
    ensures PatternsDefinitions(pats[..i + 1], p, documentId) ==
      PatternsDefinitions(pats[..i], p, documentId) + HitsDefinitions(pats[i], MatchAll(PatternAt(pats[i]), p.content), p, documentId)
  {
    assert pats[..i + 1][..i] == pats[..i];
  }

  /** The inner loop of `extractDefinitionsFromProvision`, over the matches of one pattern. */
  method MatchesDefinitions(pattern: DefinitionPattern, matches: seq<Hit>, provision: ProvisionSeed, documentId: string)
    returns (definitions: seq<ExtractedDefinition>)
    ensures definitions == HitsDefinitions(pattern, matches, provision, documentId)
  {
    definitions := [];
    for j := 0 to |matches|
      invariant definitions == HitsDefinitions(pattern, matches[..j], provision, documentId)
    {
      var rawTerm := GroupOf(matches[j].groups, pattern.termGroup);
      var rawDefinition := GroupOf(matches[j].groups, pattern.definitionGroup);
      if Truthy(rawTerm) && Truthy(rawDefinition) {
        var term := ExtractTerm(rawTerm.value);
        var definition := ExtractDefinition(rawDefinition.value);
        if IsValidDefinition(term, definition) {
          definitions := definitions + [ExtractedDefinition(documentId, term, definition, provision.provisionRef)];
        }
      }
      HitsDefinitionsStep(pattern, matches, j, provision, documentId);
    }
    assert matches[..|matches|] == matches;
  }

  /**
   * A definition taken from provision `p` of document `documentId`: it names
   * both, it passed the quality filter, its term starts with a capital (or a
   * non-letter) and its text ends a sentence.
   */
  predicate FromProvision(d: ExtractedDefinition, p: ProvisionSeed, documentId: string) {
    && d.documentId == documentId && d.sourceProvision == p.provisionRef
    && IsValidDefinition(d.term, d.definition) && EndsSentence(d.definition)
    && d.term != [] && !IsAsciiLower(d.term[0]) && !IsLatin1Lower(d.term[0])
  }

  lemma HitDefinitionFacts(pat: DefinitionPattern, h: Hit, p: ProvisionSeed, documentId: string)
    ensures var d := HitDefinition(pat, h, p, documentId); d.Some? ==> FromProvision(d.value, p, documentId)
  {
  }

  lemma {:induction false} HitsDefinitionsFacts(pat: DefinitionPattern, hits: seq<Hit>, p: ProvisionSeed, documentId: string)
    ensures forall d :: d in HitsDefinitions(pat, hits, p, documentId) ==> FromProvision(d, p, documentId)
    decreases |hits|
  {
    if hits != [] {
      HitsDefinitionsFacts(pat, hits[..|hits| - 1], p, documentId);
      HitDefinitionFacts(pat, hits[|hits| - 1], p, documentId);
    }
  }

  lemma {:induction false} PatternsDefinitionsFacts(pats: seq<DefinitionPattern>, p: ProvisionSeed, documentId: string)
    ensures forall d :: d in PatternsDefinitions(pats, p, documentId) ==> FromProvision(d, p, documentId)
    decreases |pats|
  {
    if pats != [] {
      var pat := pats[|pats| - 1];
      PatternsDefinitionsFacts(pats[..|pats| - 1], p, documentId);
      HitsDefinitionsFacts(pat, MatchAll(PatternAt(pat), p.content), p, documentId);
    }
  }

  /** Every definition a provision yields carries that provision's reference and passed the quality filter. */
  lemma ProvisionDefinitionsFacts(p: ProvisionSeed, documentId: string)
    ensures forall d :: d in ProvisionDefinitions(p, documentId) ==> FromProvision(d, p, documentId)
  {
    PatternsDefinitionsFacts(DefinitionPatterns, p, documentId);
  }

  lemma {:induction false} HitsDefinitionSource(pat: DefinitionPattern, hits: seq<Hit>, p: ProvisionSeed, documentId: string, d: ExtractedDefinition)
    returns (h: Hit)
    requires d in HitsDefinitions(pat, hits, p, documentId)
    ensures h in hits && HitDefinition(pat, h, p, documentId) == Some(d)
    decreases |hits|
  {
    var init := hits[..|hits| - 1];
    var last := hits[|hits| - 1];
    if d in HitsDefinitions(pat, init, p, documentId) {
      h := HitsDefinitionSource(pat, init, p, documentId, d);
    } else {
      h := last;
    }
  }

  lemma {:induction false} PatternsDefinitionSource(pats: seq<DefinitionPattern>, p: ProvisionSeed, documentId: string, d: ExtractedDefinition)
    returns (i: nat, h: Hit)
    requires d in PatternsDefinitions(pats, p, documentId)
    ensures i < |pats| && h in MatchAll(PatternAt(pats[i]), p.content) && HitDefinition(pats[i], h, p, documentId) == Some(d)
    decreases |pats|
  {
    var init := pats[..|pats| - 1];
    var pat := pats[|pats| - 1];
    if d in PatternsDefinitions(init, p, documentId) {
      i, h := PatternsDefinitionSource(init, p, documentId, d);
    } else {
      i := |pats| - 1;
      h := HitsDefinitionSource(pat, MatchAll(PatternAt(pat), p.content), p, documentId, d);
    }
  }

  /**
   * Every definition a provision yields comes from one match of one of the
   * patterns in its content: the cleaned group 1 is its term and the cleaned
   * group 2 its text.
   */
  lemma ProvisionDefinitionSource(p: ProvisionSeed, documentId: string, d: ExtractedDefinition) returns (i: nat, h: Hit)
    requires d in ProvisionDefinitions(p, documentId)
    ensures i < |DefinitionPatterns| && h in MatchAll(PatternAt(DefinitionPatterns[i]), p.content)
    ensures DefinitionMatch(p.content, h.start, DefinitionAt(DefinitionPatterns[i], p.content, h.start).value)
    ensures d.term == ExtractTerm(h.groups[1].value) && d.definition == ExtractDefinition(h.groups[2].value)
  {
    i, h := PatternsDefinitionSource(DefinitionPatterns, p, documentId, d);
    PatternGroups(i);
    HitOfPattern(DefinitionPatterns[i], p, documentId, h, d);
  }

  /** Every pattern puts the term in group 1 and the definition in group 2. */
  lemma PatternGroups(i: nat)
    requires i < |DefinitionPatterns|
    ensures DefinitionPatterns[i].termGroup == 1 && DefinitionPatterns[i].definitionGroup == 2
  {
  }

  lemma HitOfPattern(pat: DefinitionPattern, p: ProvisionSeed, documentId: string, h: Hit, d: ExtractedDefinition)
    requires h in MatchAll(PatternAt(pat), p.content) && HitDefinition(pat, h, p, documentId) == Some(d)
    requires pat.termGroup == 1 && pat.definitionGroup == 2
    ensures DefinitionMatch(p.content, h.start, DefinitionAt(pat, p.content, h.start).value)
    ensures d.term == ExtractTerm(h.groups[1].value) && d.definition == ExtractDefinition(h.groups[2].value)
  {
    HitInMatchAll(PatternAt(pat), p.content, h);
    assert PatternAt(pat)(p.content, h.start) == DefinitionAt(pat, p.content, h.start);
  }

  // ---------------------------------------------------------------------------
  // extractDefinitionsFromDocument
  // ---------------------------------------------------------------------------

  /** `provisions.filter(isLikelyDefinitionProvision)` */
  function LikelyProvisions(ps: seq<ProvisionSeed>): (r: seq<ProvisionSeed>)
    ensures forall q :: q in r <==> q in ps && IsLikelyDefinitionProvision(q)
    decreases |ps|
  {
    if ps == [] then []
    else
      var last := ps[|ps| - 1];
      assert ps == ps[..|ps| - 1] + [last];
      LikelyProvisions(ps[..|ps| - 1]) + (if IsLikelyDefinitionProvision(last) then [last] else [])
  }

  /** The definitions the provisions `ps` yield, in provision order. */
  function ProvisionsDefinitions(ps: seq<ProvisionSeed>, documentId: string): seq<ExtractedDefinition>
    decreases |ps|
  {
    if ps == [] then []
    else ProvisionsDefinitions(ps[..|ps| - 1], documentId) + ProvisionDefinitions(ps[|ps| - 1], documentId)
  }

  lemma ProvisionsDefinitionsStep(ps: seq<ProvisionSeed>, i: nat, documentId: string)
    requires i < |ps|
    ensures ProvisionsDefinitions(ps[..i + 1], documentId) == ProvisionsDefinitions(ps[..i], documentId) + ProvisionDefinitions(ps[i], documentId)
  {
    assert ps[..i + 1][..i] == ps[..i];
  }

  function DocumentDefinitions(seed: DocumentSeed): seq<ExtractedDefinition> {
    if seed.provisions.None? then []
    else ProvisionsDefinitions(LikelyProvisions(seed.provisions.value), seed.id)
  }

  /** `extractDefinitionsFromDocument` */
  method ExtractDefinitionsFromDocument(seed: DocumentSeed) returns (definitions: seq<ExtractedDefinition>)
    ensures definitions == DocumentDefinitions(seed)
  {
    definitions := [];
    if seed.provisions.None? {
      return;
    }
    var likelyProvisions := LikelyProvisions(seed.provisions.value);
    for i := 0 to |likelyProvisions|
      invariant definitions == ProvisionsDefinitions(likelyProvisions[..i], seed.id)
    {
      var extracted := ExtractDefinitionsFromProvision(likelyProvisions[i], seed.id);
      definitions := definitions + extracted;
      ProvisionsDefinitionsStep(likelyProvisions, i, seed.id);
    }
    assert likelyProvisions[..|likelyProvisions|] == likelyProvisions;
  }

  lemma {:induction false} ProvisionsDefinitionSource(ps: seq<ProvisionSeed>, documentId: string, d: ExtractedDefinition)
    returns (q: ProvisionSeed)
    requires d in ProvisionsDefinitions(ps, documentId)
    ensures q in ps && d in ProvisionDefinitions(q, documentId)
    decreases |ps|
  {
    var init := ps[..|ps| - 1];
    if d in ProvisionsDefinitions(init, documentId) {
      q := ProvisionsDefinitionSource(init, documentId, d);
    } else {
      q := ps[|ps| - 1];
    }
  }

  /**
   * Only provisions that pass the filter are scanned: every definition of a
   * document comes from one of its provisions that the filter admits, and
   * carries that provision's reference.
   */
  lemma DocumentDefinitionSource(seed: DocumentSeed, d: ExtractedDefinition) returns (q: ProvisionSeed)
    requires d in DocumentDefinitions(seed)
    ensures seed.provisions.Some? && q in seed.provisions.value && IsLikelyDefinitionProvision(q)
    ensures d in ProvisionDefinitions(q, seed.id) && FromProvision(d, q, seed.id)
  {
    q := ProvisionsDefinitionSource(LikelyProvisions(seed.provisions.value), seed.id, d);
    ProvisionDefinitionsFacts(q, seed.id);
  }

  // ---------------------------------------------------------------------------
  // deduplicateDefinitions
  // ---------------------------------------------------------------------------

  /** The `Map` key `${document_id}|${term}`. */
  function DedupKey(d: ExtractedDefinition): string {
    d.documentId + "|" + d.term
  }

  function DefinitionLength(d: ExtractedDefinition): nat {
    Utf16Length(d.definition)
  }

  /** `deduplicateDefinitions`: one entry per document and term, the longest, in first-seen order. */
  function Deduplicated(defs: seq<ExtractedDefinition>): seq<ExtractedDefinition> {
    Merged(defs, DedupKey, DefinitionLength)
  }

  /** `deduplicateDefinitions` */
  method DeduplicateDefinitions(definitions: seq<ExtractedDefinition>) returns (r: seq<ExtractedDefinition>)
    ensures r == Deduplicated(definitions)
  {
    var seen: map<string, ExtractedDefinition> := map[];
    var order: seq<string> := [];  // the insertion order the `Map` keeps
    for i := 0 to |definitions|
      invariant seen == Best(definitions[..i], DedupKey, DefinitionLength)
      invariant order == FirstKeys(definitions[..i], DedupKey)
    {
      var def := definitions[i];
      var key := DedupKey(def);
      BestStep(definitions, i, DedupKey, DefinitionLength);
      if key !in seen {
        seen := seen[key := def];
        order := order + [key];
      } else {
        var existing := seen[key];
        if DefinitionLength(def) > DefinitionLength(existing) {
          seen := seen[key := def];
        }
      }
    }
    assert definitions[..|definitions|] == definitions;
    r := ValuesAt(seen, order);
  }

  /** After `deduplicateDefinitions` there is at most one entry per document and term, in first-seen order. */
  lemma DeduplicatedKeys(defs: seq<ExtractedDefinition>)
    ensures Keys(Deduplicated(defs), DedupKey) == Keys(Dedup(defs, DedupKey, {}), DedupKey)
    ensures var r := Deduplicated(defs); forall a, b :: 0 <= a < b < |r| ==> DedupKey(r[a]) != DedupKey(r[b])
  {
    MergedKeys(defs, DedupKey, DefinitionLength);
  }

  /** No document and term is lost. */
  lemma DeduplicatedComplete(defs: seq<ExtractedDefinition>, d: ExtractedDefinition) returns (i: nat)
    requires d in defs
    ensures i < |Deduplicated(defs)| && DedupKey(Deduplicated(defs)[i]) == DedupKey(d)
  {
    i := MergedComplete(defs, DedupKey, DefinitionLength, d);
  }

  /**
   * Each entry left is the longest definition given for its document and term,
   * and among equally long ones the first: a later entry replaces an earlier
   * one only when it is strictly longer.
   */
  lemma DeduplicatedLongest(defs: seq<ExtractedDefinition>, i: nat) returns (j: nat)
    requires i < |Deduplicated(defs)|
    ensures var e := Deduplicated(defs)[i];
      && j < |defs| && defs[j] == e
      && (forall n :: 0 <= n < |defs| && DedupKey(defs[n]) == DedupKey(e) ==> DefinitionLength(defs[n]) <= DefinitionLength(e))
      && (forall n :: 0 <= n < j && DedupKey(defs[n]) == DedupKey(e) ==> DefinitionLength(defs[n]) < DefinitionLength(e))
  {
    j := MergedBest(defs, DedupKey, DefinitionLength, i);
  }

  /** The output follows the order in which each document and term first occurs in the input. */
  lemma DeduplicatedOrder(defs: seq<ExtractedDefinition>, a: nat, b: nat) returns (j: nat)
    requires a < b < |Deduplicated(defs)|
    ensures var r := Deduplicated(defs);
      && j < |defs| && DedupKey(defs[j]) == DedupKey(r[b]) && DedupKey(r[b]) !in Keys(defs[..j], DedupKey)
      && DedupKey(r[a]) in Keys(defs[..j], DedupKey)
  {
    j := MergedOrder(defs, DedupKey, DefinitionLength, a, b);
  }

  /** For document ids without `|` the key tells document and term apart. */
  lemma DedupKeyInjective(d1: ExtractedDefinition, d2: ExtractedDefinition)
    requires '|' !in d1.documentId && '|' !in d2.documentId
    ensures DedupKey(d1) == DedupKey(d2) <==> d1.documentId == d2.documentId && d1.term == d2.term
  {
    var n1 := |d1.documentId|;
    var n2 := |d2.documentId|;
    KeyBar(d1, d2);
    KeyBar(d2, d1);
    if DedupKey(d1) == DedupKey(d2) {
      assert n1 == n2;
      KeyParts(d1);
      KeyParts(d2);
    }
  }

  /** At the length of the other id, a key without `|` in its id has `|` only if the ids are equally long. */
  lemma KeyBar(d1: ExtractedDefinition, d2: ExtractedDefinition)
    requires '|' !in d2.documentId
    ensures |d1.documentId| < |d2.documentId| ==> DedupKey(d2)[|d1.documentId|] != '|' && DedupKey(d1)[|d1.documentId|] == '|'
  {
    var n := |d1.documentId|;
    if n < |d2.documentId| {
      assert DedupKey(d2)[n] == d2.documentId[n];
    }
  }

  lemma KeyParts(d: ExtractedDefinition)
    ensures var k := DedupKey(d); var n := |d.documentId|; d.documentId == k[..n] && d.term == k[n + 1..]
  {
  }
}
