/**
 * The structural parser for statute text dumps: a single pass over the lines
 * of a statute that keeps an active chapter, a pending chapter marker, an open
 * section with its content buffer, the set of emitted references and the last
 * ordinal emitted per chapter, and rejects spurious "N §" lines with five
 * ordered checks.
 *
 * The pass is given twice: as the functions `Step`/`FlushState` on a `State`
 * value (the specification), and as the class `LovdataParser`, whose methods
 * update its fields the way the source's loop updates its locals and are
 * proved to agree with the functions.
 */
module LovdataProvisionParser {
  import opened Wrappers
  import opened Text

  /** A jump of this many section numbers or more in a chapterless text is suspicious. */
  const FLAT_JUMP_THRESHOLD: int := 8
  /** A title line is shorter than this many UTF-16 code units. */
  const TITLE_MAX_LENGTH: nat := 100

  datatype Provision = Provision(
    provisionRef: string,
    chapter: Option<string>,
    section: string,
    title: Option<string>,
    content: string)

  datatype Diagnostics = Diagnostics(ignoredChapterMarkers: nat, suppressedSectionCandidates: nat)

  datatype ParseResult = ParseResult(provisions: seq<Provision>, diagnostics: Diagnostics)

  // ---------------------------------------------------------------------------
  // The line recognisers

  /** `CHAPTER_PATTERN = /^(\d+)\s*kap\.\s*(.*)$/u`: the chapter number (group 1). */
  function ChapterMatch(line: string): (r: Option<string>)
    ensures r.Some? ==> |r.value| > 0 && AllDigits(r.value) && StartsWith(line, r.value)
  {
    var d := DigitRun(line, 0);
    var w := SpaceRun(line, d);
    if d > 0 && LitAt(line, w, "kap.") && NoLineTerminator(line[SpaceRun(line, w + 4)..]) then
      Some(line[..d])
    else None
  }

  /** Groups 1 and 2 of `SECTION_PATTERN`. */
  datatype SectionParts = SectionParts(group: string, rest: string)

  /**
   * `SECTION_PATTERN = /^(\d+\s*[a-z]?)\s*§\s*(.*)$/iu`. Group 1 is the digits,
   * the whitespace after them and an optional letter of either case; without a
   * letter the greedy `\s*` inside the group takes all of the whitespace
   * before `§`.
   */
  function SectionMatch(line: string): Option<SectionParts> {
    var d := DigitRun(line, 0);
    var w := SpaceRun(line, d);
    var l := if w < |line| && IsAsciiLetter(line[w]) then w + 1 else w;
    var w2 := SpaceRun(line, l);
    if d > 0 && w2 < |line| && line[w2] == '§' && NoLineTerminator(line[SpaceRun(line, w2 + 1)..]) then
      Some(SectionParts(line[..l], line[SpaceRun(line, w2 + 1)..]))
    else None
  }

  /** `normalizeSectionRef`: collapse whitespace, trim, lower-case. */
  function NormalizeSectionRef(section: string): string {
    Lower(Normalize(section))
  }

  /**
   * The shape every normalised section takes: digits, then optionally a
   * lower-case letter, directly or after one space ("5", "5a", "5 a").
   */
  predicate IsSectionToken(t: string) {
    var d := DigitRun(t, 0);
    && d > 0
    && (|t| == d
        || (|t| == d + 1 && IsAsciiLower(t[d]))
        || (|t| == d + 2 && t[d] == ' ' && IsAsciiLower(t[d + 1])))
  }

  function TokenNumber(t: string): nat
    requires IsSectionToken(t)
  {
    ParseNat(t[..DigitRun(t, 0)])
  }

  /** The letter offset of a token: 0 without a letter, 1 for "a" up to 26 for "z". */
  function TokenLetterOffset(t: string): (k: nat)
    requires IsSectionToken(t)
    ensures k <= 26
  {
    if DigitRun(t, 0) == |t| then 0 else t[|t| - 1] as int - 'a' as int + 1
  }

  /** `sectionNumber`: the leading digits, if there are any. */
  function SectionNumber(section: string): (r: Option<nat>)
    ensures r.Some? <==> |section| > 0 && IsDigit(section[0])
  {
    var d := DigitRun(section, 0);
    if d > 0 then Some(ParseNat(section[..d])) else None
  }

  function Max(a: int, b: int): int { if a >= b then a else b }

  /**
   * `sectionOrdinal`: `/^(\d+)(?:\s*([a-z]))?$/i` gives `base * 100`, plus
   * `max(letter - 96, 0)` for the lower-cased letter when there is one.
   */
  function SectionOrdinal(section: string): Option<int> {
    var d := DigitRun(section, 0);
    var w := SpaceRun(section, d);
    if d == 0 then None
    else if d == |section| then Some(ParseNat(section[..d]) * 100)
    else if w + 1 == |section| && IsAsciiLetter(section[w]) then
      Some(ParseNat(section[..d]) * 100 + Max(ToLowerChar(section[w]) as int - 96, 0))
    else None
  }

  /**
   * The two readings of a section agree: wherever `sectionOrdinal` is defined,
   * `sectionNumber` is too, and it is the ordinal's hundreds.
   */
  lemma NumberOfOrdinal(section: string)
    requires SectionOrdinal(section).Some?
    ensures SectionNumber(section).Some?
    ensures SectionOrdinal(section).value / 100 == SectionNumber(section).value
    ensures SectionOrdinal(section).value % 100 <= 26
  {
    var d := DigitRun(section, 0);
    var n := ParseNat(section[..d]);
    var k := SectionOrdinal(section).value - n * 100;
    assert 0 <= k <= 26;
    assert SectionOrdinal(section).value == n * 100 + k;
  }

  /** `startsWithLowercase`: `/^[a-zåäöæø]/u` on a non-empty text. */
  predicate StartsWithLowercase(text: string) {
    text != "" && (IsAsciiLower(text[0]) || text[0] in "åäöæø")
  }

  /** `[a-zæøåäö]` */
  predicate IsNoteLetter(c: char) { IsAsciiLower(c) || c in "æøåäö" }

  /** `\.?$` at position `i`. */
  predicate OptionalDotThenEnd(line: string, i: nat) {
    i == |line| || (i + 1 == |line| && line[i] == '.')
  }

  /** `\d{1,2}\s+[a-zæøåäö]+\s+\d{4}\s+nr\.?\s*\d+\.?$` from position `i`. */
  predicate DatedLawNote(line: string, i: nat)
    requires i <= |line|
  {
    var d := DigitRun(line, i);
    var w1 := SpaceRun(line, d);
    var m := Span(line, w1, IsNoteLetter);
    var w2 := SpaceRun(line, m);
    var y := DigitRun(line, w2);
    var w3 := SpaceRun(line, y);
    && 1 <= d - i <= 2 && w1 > d && m > w1 && w2 > m && y - w2 == 4 && w3 > y
    && LitAt(line, w3, "nr")
    && var afterNr := if w3 + 2 < |line| && line[w3 + 2] == '.' then w3 + 3 else w3 + 2;
       var w4 := SpaceRun(line, afterNr);
       var n := DigitRun(line, w4);
       n > w4 && OptionalDotThenEnd(line, n)
  }

  /** `\(\d{4}:\d+\)\.?$` from position `i`. */
  predicate SfsLawNote(line: string, i: nat)
    requires i <= |line|
  {
    && i < |line| && line[i] == '('
    && var y := DigitRun(line, i + 1);
       && y == i + 5 && y < |line| && line[y] == ':'
       && var n := DigitRun(line, y + 1);
          n > y + 1 && n < |line| && line[n] == ')' && OptionalDotThenEnd(line, n + 1)
  }

  /** `LAW_NOTE_PATTERN`: an amendment note such as "Lov 20 juni 2014 nr. 49." or "Lag (2018:12)". */
  predicate IsLawNote(line: string) {
    var a := SpaceRun(line, if |line| >= 3 then 3 else |line|);
    && (LitAt(line, 0, "Lov") || LitAt(line, 0, "Lag"))
    && a > 3
    && (DatedLawNote(line, a) || SfsLawNote(line, a))
  }

  /** `/^\d+\s*(kap\.|§)/u` */
  predicate StartsAsHeading(line: string) {
    var d := DigitRun(line, 0);
    var w := SpaceRun(line, d);
    d > 0 && (LitAt(line, w, "kap.") || LitAt(line, w, "§"))
  }

  /** `isLikelyTitle` */
  predicate IsLikelyTitle(line: string) {
    && Utf16Length(line) > 0
    && Utf16Length(line) < TITLE_MAX_LENGTH
    && (IsAsciiUpper(line[0]) || line[0] in "ÅÄÖÆØ")
    && !StartsAsHeading(line)
    && !IsLawNote(line)
  }

  // ---------------------------------------------------------------------------
  // Facts about section tokens and ordinals

  /** Digits, an optional space and an optional lower-case letter: how a section token is built. */
  function MakeToken(digits: string, spaced: bool, letter: Option<char>): string {
    match letter
    case None => digits
    case Some(c) => digits + (if spaced then " " else "") + [c]
  }

  lemma MakeTokenIsToken(digits: string, spaced: bool, letter: Option<char>)
    requires |digits| > 0 && AllDigits(digits)
    requires letter.Some? ==> IsAsciiLower(letter.value)
    ensures IsSectionToken(MakeToken(digits, spaced, letter))
    ensures DigitRun(MakeToken(digits, spaced, letter), 0) == |digits|
    ensures MakeToken(digits, spaced, letter)[..|digits|] == digits
  {
    var t := MakeToken(digits, spaced, letter);
    assert t[..|digits|] == digits;
    DigitRunExact(t, 0, |digits|);
  }

  lemma LowerTokenParts(digits: string, sep: string, letter: string)
    requires AllDigits(digits) && (sep == "" || sep == " ") && |letter| <= 1
    ensures Lower(digits + sep + letter) == digits + sep + Lower(letter)
  {
    var s := digits + sep + letter;
    forall k | 0 <= k < |s| ensures Lower(s)[k] == (digits + sep + Lower(letter))[k] {
      if k < |digits| { assert IsDigit(s[k]); }
    }
  }

  /** The section group of a section line has digits, whitespace and an optional letter. */
  lemma SectionGroupParts(line: string)
    requires SectionMatch(line).Some?
    ensures var d := DigitRun(line, 0);
      var w := SpaceRun(line, d);
      var g := SectionMatch(line).value.group;
      && 0 < d <= w <= |g| <= w + 1 && g == line[..d] + line[d..w] + g[w..]
      && (|g| == w + 1 ==> IsAsciiLetter(g[w]))
  {
    var d := DigitRun(line, 0);
    var w := SpaceRun(line, d);
    var g := SectionMatch(line).value.group;
    assert g == line[..|g|];
    assert g == line[..d] + line[d..w] + g[w..];
  }


  /** `normalizeSectionRef` of digits, whitespace and an optional letter. */
  lemma NormalizeSectionParts(D: string, W: string, L: string)
    requires |D| > 0 && AllDigits(D) && AllSpace(W)
    requires |L| <= 1 && (|L| == 1 ==> IsAsciiLetter(L[0]))
    ensures NormalizeSectionRef(D + W + L) ==
      MakeToken(D, W != [], if L == [] then None else Some(ToLowerChar(L[0])))
  {
    NormalizeGroupParts(D, W, L);
    if L == [] {
      LowerTokenParts(D, "", "");
      assert D + "" + "" == D;
    } else {
      var sep := if W == [] then "" else " ";
      LowerTokenParts(D, sep, L);
      assert Lower(L) == [ToLowerChar(L[0])];
    }
  }

  /** Group 1 of a section line normalises to a section token with the same digits. */
  lemma SectionGroupNormalizes(line: string)
    requires SectionMatch(line).Some?
    ensures IsSectionToken(NormalizeSectionRef(SectionMatch(line).value.group))
    ensures var t := NormalizeSectionRef(SectionMatch(line).value.group);
      t[..DigitRun(t, 0)] == line[..DigitRun(line, 0)]
  {
    var d := DigitRun(line, 0);
    var w := SpaceRun(line, d);
    var g := SectionMatch(line).value.group;
    SectionGroupParts(line);
    var D, W, L := line[..d], line[d..w], g[w..];
    NormalizeSectionParts(D, W, L);
    var letter := if L == [] then None else Some(ToLowerChar(L[0]));
    MakeTokenIsToken(D, W != [], letter);
  }

  lemma TokenIsNormalized(t: string)
    requires IsSectionToken(t)
    ensures IsNormalized(t)
  {
    var d := DigitRun(t, 0);
    assert !IsSpace(t[0]) by { assert IsDigit(t[0]); }
    assert !IsSpace(t[|t| - 1]) by { assert IsDigit(t[|t| - 1]) || IsAsciiLower(t[|t| - 1]); }
    forall i | 0 <= i < |t| - 1 ensures !(IsSpace(t[i]) && IsSpace(t[i + 1])) {
      if i + 1 < d { assert IsDigit(t[i]); }
    }
    forall i | 0 <= i < |t| ensures IsSpace(t[i]) ==> t[i] == ' ' {
      if i < d { assert IsDigit(t[i]); }
    }
  }

  lemma TokenLower(t: string)
    requires IsSectionToken(t)
    ensures Lower(t) == t
  {
    var d := DigitRun(t, 0);
    forall i | 0 <= i < |t| ensures ToLowerChar(t[i]) == t[i] {
      if i < d { assert IsDigit(t[i]); }
    }
  }

  /** A section token is its own `normalizeSectionRef`. */
  lemma TokenNormalized(t: string)
    requires IsSectionToken(t)
    ensures NormalizeSectionRef(t) == t
  {
    TokenIsNormalized(t);
    NormalizeIdempotent(t);
    TokenLower(t);
  }

  lemma TokenNoColon(t: string)
    requires IsSectionToken(t)
    ensures ':' !in t
  {
    var d := DigitRun(t, 0);
    forall i | 0 <= i < |t| ensures t[i] != ':' {
      if i < d { assert IsDigit(t[i]); }
    }
  }

  lemma TokenNumberAndOrdinal(t: string)
    requires IsSectionToken(t)
    ensures SectionNumber(t) == Some(TokenNumber(t))
    ensures SectionOrdinal(t) == Some(TokenNumber(t) * 100 + TokenLetterOffset(t))
  {
    var d := DigitRun(t, 0);
    if |t| == d + 2 {
      SpaceRunExact(t, d, d + 1);
    }
  }

  /** The ordinal of a token: its number times 100 plus its letter offset. */
  function TokenOrdinal(t: string): (o: nat)
    requires IsSectionToken(t)
    ensures SectionOrdinal(t) == Some(o)
  {
    TokenNumberAndOrdinal(t);
    TokenNumber(t) * 100 + TokenLetterOffset(t)
  }

  /**
   * The ordinal order of tokens is the lexicographic order of (number,
   * letter offset): a bare number comes before its lettered sections, which
   * come before the next number.
   */
  lemma OrdinalOrder(s: string, t: string)
    requires IsSectionToken(s) && IsSectionToken(t)
    ensures TokenOrdinal(s) < TokenOrdinal(t) <==>
      TokenNumber(s) < TokenNumber(t)
      || (TokenNumber(s) == TokenNumber(t) && TokenLetterOffset(s) < TokenLetterOffset(t))
  {
  }

  /** "5" < "5 a" < "6": a lettered section sits between its number and the next. */
  lemma LetteredSectionBetween(n: nat, spaced: bool, c: char)
    requires IsAsciiLower(c)
    ensures IsSectionToken(NatToString(n)) && IsSectionToken(MakeToken(NatToString(n), spaced, Some(c)))
    ensures IsSectionToken(NatToString(n + 1))
    ensures TokenOrdinal(NatToString(n)) < TokenOrdinal(MakeToken(NatToString(n), spaced, Some(c)))
    ensures TokenOrdinal(MakeToken(NatToString(n), spaced, Some(c))) < TokenOrdinal(NatToString(n + 1))
  {
    var a, b := NatToString(n), NatToString(n + 1);
    MakeTokenIsToken(a, spaced, None);
    MakeTokenIsToken(b, false, None);
    MakeTokenIsToken(a, spaced, Some(c));
  }

  // ---------------------------------------------------------------------------
  // The pass, as functions on a state value

  /** `provisionRef`: "chapter:section" under an active chapter, the bare section otherwise. */
  function FormatRef(chapter: Option<string>, section: string): string {
    if Truthy(chapter) then chapter.value + ":" + section else section
  }

  /**
   * The locals of `parseLovdataProvisions`. `segment` counts the chapter
   * activations so far and `segmentOf` records, per emitted provision, the
   * segment it was emitted in; they are bookkeeping for the monotonicity
   * property and take no part in any decision.
   */
  datatype State = State(
    provisions: seq<Provision>,
    seen: set<string>,
    lastOrdinal: map<string, int>,
    ignored: nat,
    suppressed: nat,
    currentChapter: Option<string>,
    pendingChapter: Option<string>,
    currentSection: Option<string>,
    currentTitle: Option<string>,
    pendingTitle: Option<string>,
    content: seq<string>,
    segment: nat,
    segmentOf: seq<nat>)

  const Init: State := State([], {}, map[], 0, 0, None, None, None, None, None, [], 0, [])

  /** `flushCurrentSection` */
  function FlushState(st: State): State {
    if !Truthy(st.currentSection) || |st.content| == 0 then
      st.(currentSection := None, currentTitle := None, content := [])
    else
      var section := NormalizeSectionRef(st.currentSection.value);
      var ref := FormatRef(st.currentChapter, section);
      var p := Provision(ref, st.currentChapter, section, st.currentTitle, Normalize(Join(st.content, " ")));
      st.(provisions := st.provisions + [p],
          seen := st.seen + {ref},
          lastOrdinal := RecordOrdinal(st.lastOrdinal, st.currentChapter, section),
          segmentOf := st.segmentOf + [st.segment],
          currentSection := None, currentTitle := None, content := [])
  }

  /** The state after emitting the open section. */
  lemma FlushEmitShape(st: State)
    requires Truthy(st.currentSection) && |st.content| > 0
    ensures var section := NormalizeSectionRef(st.currentSection.value);
      var ref := FormatRef(st.currentChapter, section);
      FlushState(st) ==
        st.(provisions := st.provisions + [Provision(ref, st.currentChapter, section, st.currentTitle,
                                                     Normalize(Join(st.content, " ")))],
            seen := st.seen + {ref},
            lastOrdinal := RecordOrdinal(st.lastOrdinal, st.currentChapter, section),
            segmentOf := st.segmentOf + [st.segment],
            currentSection := None, currentTitle := None, content := [])
  {
  }

  /** `lastOrdinalByChapter.set(chapter, ordinal)` when there is a chapter and the section has an ordinal. */
  function RecordOrdinal(lastOrdinal: map<string, int>, chapter: Option<string>, section: string): map<string, int> {
    var ordinal := SectionOrdinal(section);
    if Truthy(chapter) && ordinal.Some? then lastOrdinal[chapter.value := ordinal.value] else lastOrdinal
  }

  /** What the loop computes about a section candidate before deciding on it. */
  datatype Assessment = Assessment(
    section: string,
    remainder: string,
    chapter: Option<string>,
    activated: bool,
    markerIgnored: bool,
    ref: string,
    isDuplicateRef: bool,
    isOutOfOrderFromCurrent: bool,
    isOutOfOrderFromHistory: bool,
    isLikelyInlineReference: bool,
    isSuspiciousFlatJump: bool)
  {
    predicate Suppressed() {
      isDuplicateRef || isOutOfOrderFromCurrent || isOutOfOrderFromHistory
      || isLikelyInlineReference || isSuspiciousFlatJump
    }
  }

  function Assess(st: State, m: SectionParts): Assessment {
    var section := NormalizeSectionRef(m.group);
    var sectionNum := SectionNumber(section);
    var remainder := Trim(m.rest);
    var activate := Truthy(st.pendingChapter) && (!Truthy(st.currentChapter) || sectionNum == Some(1));
    var chapter := if activate then st.pendingChapter else st.currentChapter;
    var ref := FormatRef(chapter, section);
    var candidateOrdinal := SectionOrdinal(section);
    var currentOrdinal := if Truthy(st.currentSection) then SectionOrdinal(st.currentSection.value) else None;
    var lastOrdinal :=
      if Truthy(chapter) && chapter.value in st.lastOrdinal then Some(st.lastOrdinal[chapter.value]) else None;
    var currentNumber := if Truthy(st.currentSection) then SectionNumber(st.currentSection.value) else None;
    var activated := activate && chapter != st.currentChapter;
    Assessment(
      section, remainder, chapter, activated,
      Truthy(st.pendingChapter) && !activate,
      ref,
      ref in st.seen,
      currentOrdinal.Some? && candidateOrdinal.Some? && candidateOrdinal.value <= currentOrdinal.value,
      !activated && lastOrdinal.Some? && candidateOrdinal.Some? && candidateOrdinal.value <= lastOrdinal.value,
      !activated && st.currentSection.Some? && |st.content| > 0 && StartsWithLowercase(remainder),
      !activated && !Truthy(chapter) && currentNumber.Some? && sectionNum.Some?
        && sectionNum.value - currentNumber.value >= FLAT_JUMP_THRESHOLD && |st.content| > 0)
  }

  /** The pending-chapter rule: count an ignored marker and clear the pending chapter. */
  function MarkerStep(st: State, a: Assessment): State {
    st.(ignored := if a.markerIgnored then st.ignored + 1 else st.ignored,
        pendingChapter := if Truthy(st.pendingChapter) then None else st.pendingChapter)
  }

  /** A suppressed candidate: counted, and kept as content of the open section if there is one. */
  function SuppressStep(st: State, a: Assessment, line: string): State {
    MarkerStep(st, a).(suppressed := st.suppressed + 1,
                       content := if Truthy(st.currentSection) then st.content + [line] else st.content)
  }

  /** Opening the accepted candidate on the flushed state `f`. */
  function OpenSection(f: State, a: Assessment, title: Option<string>): State {
    f.(currentChapter := a.chapter,
       currentSection := Some(a.section),
       currentTitle := title,
       content := if a.remainder != "" then [a.remainder] else [],
       segment := if a.activated then f.segment + 1 else f.segment)
  }

  /** A line matching `SECTION_PATTERN`: the pending-chapter rule, the five checks, then suppression or acceptance. */
  function SectionStep(st: State, line: string, m: SectionParts): State {
    var a := Assess(st, m);
    if a.Suppressed() then SuppressStep(st, a, line)
    else OpenSection(FlushState(MarkerStep(st, a).(pendingTitle := None)), a, st.pendingTitle)
  }

  lemma SectionStepCases(st: State, line: string, m: SectionParts)
    ensures var a := Assess(st, m);
      SectionStep(st, line, m) ==
        if a.Suppressed() then SuppressStep(st, a, line)
        else OpenSection(FlushState(MarkerStep(st, a).(pendingTitle := None)), a, st.pendingTitle)
  {
  }

  /** A line that is neither a chapter nor a section line: a title or content. */
  function TextStep(st: State, line: string): State {
    if !Truthy(st.currentSection) && IsLikelyTitle(line) then st.(pendingTitle := Some(line))
    else if Truthy(st.currentSection) && |st.content| == 0 && IsLikelyTitle(line) then st.(currentTitle := Some(line))
    else if Truthy(st.currentSection) then st.(content := st.content + [line])
    else st
  }

  /** One iteration of the loop over lines. */
  function Step(st: State, rawLine: string): State {
    var line := Trim(rawLine);
    if line == "" then st
    else match ChapterMatch(line)
      case Some(chapter) => FlushState(st).(pendingChapter := Some(chapter), pendingTitle := None)
      case None =>
        match SectionMatch(line)
        case Some(m) => SectionStep(st, line, m)
        case None => TextStep(st, line)
  }

  /** The loop over `lines`, from state `st`. */
  function Run(st: State, lines: seq<string>): State
    decreases |lines|
  {
    if lines == [] then st else Step(Run(st, lines[..|lines| - 1]), lines[|lines| - 1])
  }

  /** `text.split(/\r?\n/)` */
  function SplitLines(text: string): (lines: seq<string>)
    ensures |lines| > 0
    decreases |text|
  {
    match IndexOf(text, "\n", 0)
    case None => [text]
    case Some(i) =>
      var line := if i > 0 && text[i - 1] == '\r' then text[..i - 1] else text[..i];
      [line] + SplitLines(text[i + 1..])
  }

  /** The state after the loop and the final flush. */
  function FinalState(text: string): State {
    FlushState(Run(Init, SplitLines(text)))
  }

  /** `parseLovdataProvisions` */
  function ParseSpec(text: string): ParseResult {
    var st := FinalState(text);
    ParseResult(st.provisions, Diagnostics(st.ignored, st.suppressed))
  }

  // ---------------------------------------------------------------------------
  // The invariant of the pass

  predicate IsChapterNumber(c: string) { |c| > 0 && AllDigits(c) }

  predicate ChapterOk(o: Option<string>) { o.Some? ==> IsChapterNumber(o.value) }

  /** An emitted provision: its reference is built from its chapter and section, and its content is non-empty normalised text. */
  predicate WellFormed(p: Provision) {
    && ChapterOk(p.chapter)
    && IsSectionToken(p.section)
    && p.provisionRef == FormatRef(p.chapter, p.section)
    && p.content != ""
    && IsNormalized(p.content)
  }

  function Refs(ps: seq<Provision>): set<string> {
    set j | 0 <= j < |ps| :: ps[j].provisionRef
  }

  predicate DistinctRefs(ps: seq<Provision>) {
    forall a, b :: 0 <= a < b < |ps| ==> ps[a].provisionRef != ps[b].provisionRef
  }

  predicate OrdinalBelow(s: string, t: string) {
    SectionOrdinal(s).Some? && SectionOrdinal(t).Some? && SectionOrdinal(s).value < SectionOrdinal(t).value
  }

  /** Consecutive provisions emitted in the same segment share a chapter and have increasing ordinals. */
  predicate SegmentsMonotone(ps: seq<Provision>, segmentOf: seq<nat>)
    requires |segmentOf| == |ps|
  {
    forall j :: 0 <= j < |ps| - 1 && segmentOf[j] == segmentOf[j + 1] ==>
      ps[j].chapter == ps[j + 1].chapter && OrdinalBelow(ps[j].section, ps[j + 1].section)
  }

  predicate LastInSegment(st: State) {
    |st.provisions| > 0 && |st.segmentOf| == |st.provisions| && st.segmentOf[|st.segmentOf| - 1] == st.segment
  }

  /** What the last provision of the current segment tells the next candidate. */
  predicate LastFacts(st: State)
    requires |st.provisions| > 0
  {
    var last := st.provisions[|st.provisions| - 1];
    && last.chapter == st.currentChapter
    && (st.currentChapter.Some? ==>
          st.currentChapter.value in st.lastOrdinal
          && SectionOrdinal(last.section) == Some(st.lastOrdinal[st.currentChapter.value]))
    && (st.currentSection.Some? ==> OrdinalBelow(last.section, st.currentSection.value))
  }

  /** The invariant, except for the rule about a chapterless text without a pending chapter. */
  predicate Inv0(st: State) {
    && |st.segmentOf| == |st.provisions|
    && (forall j :: 0 <= j < |st.provisions| ==> WellFormed(st.provisions[j]))
    && st.seen == Refs(st.provisions)
    && DistinctRefs(st.provisions)
    && ChapterOk(st.currentChapter)
    && ChapterOk(st.pendingChapter)
    && (st.currentSection.Some? ==>
          IsSectionToken(st.currentSection.value)
          && FormatRef(st.currentChapter, st.currentSection.value) !in st.seen)
    && (st.currentSection.None? ==> st.content == [])
    && (st.pendingChapter.Some? ==> st.currentSection.None?)
    && (forall k :: 0 <= k < |st.content| ==> !AllSpace(st.content[k]))
    && (forall j :: 0 <= j < |st.segmentOf| ==> st.segmentOf[j] <= st.segment)
    && (forall j :: 0 <= j < |st.segmentOf| - 1 ==> st.segmentOf[j] <= st.segmentOf[j + 1])
    && SegmentsMonotone(st.provisions, st.segmentOf)
    && (LastInSegment(st) ==> LastFacts(st))
    && (st.currentChapter.None? ==> forall j :: 0 <= j < |st.provisions| ==> st.provisions[j].chapter.None?)
  }

  /** The invariant of the loop. */
  predicate Inv(st: State) {
    && Inv0(st)
    && (st.currentChapter.None? && st.currentSection.None? && st.pendingChapter.None? ==> st.provisions == [])
  }

  lemma JoinStartsWithFirst(parts: seq<string>, sep: string)
    requires |parts| > 0
    ensures |Join(parts, sep)| >= |parts[0]| && Join(parts, sep)[..|parts[0]|] == parts[0]
  {
  }

  lemma JoinNotBlank(parts: seq<string>, sep: string)
    requires |parts| > 0 && !AllSpace(parts[0])
    ensures !AllSpace(Join(parts, sep))
  {
    JoinStartsWithFirst(parts, sep);
    var k :| 0 <= k < |parts[0]| && !IsSpace(parts[0][k]);
    assert Join(parts, sep)[k] == Join(parts, sep)[..|parts[0]|][k];
  }

  lemma RefsAppend(ps: seq<Provision>, p: Provision)
    ensures Refs(ps + [p]) == Refs(ps) + {p.provisionRef}
  {
    var qs := ps + [p];
    forall r | r in Refs(qs) ensures r in Refs(ps) + {p.provisionRef} {
      var j :| 0 <= j < |qs| && qs[j].provisionRef == r;
      if j < |ps| { assert ps[j] == qs[j]; }
    }
    forall r | r in Refs(ps) ensures r in Refs(qs) {
      var j :| 0 <= j < |ps| && ps[j].provisionRef == r;
      assert qs[j] == ps[j];
    }
    assert qs[|ps|] == p;
  }

  /** A chaptered reference contains a colon; a bare section token does not. */
  lemma ChapteredRefHasColon(c: string, s: string)
    requires IsChapterNumber(c)
    ensures ':' in FormatRef(Some(c), s)
  {
    assert FormatRef(Some(c), s)[|c|] == ':';
  }

  /** Within one chapter, different sections give different references. */
  lemma FormatRefInjectiveSection(c: Option<string>, s: string, t: string)
    requires FormatRef(c, s) == FormatRef(c, t)
    ensures s == t
  {
    if Truthy(c) {
      var p := c.value + ":";
      assert FormatRef(c, s) == p + s && FormatRef(c, t) == p + t;
      assert s == (p + s)[|p|..];
      assert t == (p + t)[|p|..];
    }
  }

  lemma AppendProvision(ps: seq<Provision>, so: seq<nat>, seg: nat, p: Provision)
    requires |so| == |ps| && SegmentsMonotone(ps, so)
    requires forall j :: 0 <= j < |ps| ==> WellFormed(ps[j])
    requires WellFormed(p) && DistinctRefs(ps) && p.provisionRef !in Refs(ps)
    requires forall j :: 0 <= j < |so| ==> so[j] <= seg
    requires forall j :: 0 <= j < |so| - 1 ==> so[j] <= so[j + 1]
    requires |ps| > 0 && so[|so| - 1] == seg ==>
      ps[|ps| - 1].chapter == p.chapter && OrdinalBelow(ps[|ps| - 1].section, p.section)
    ensures var qs, to := ps + [p], so + [seg];
      && |to| == |qs| && SegmentsMonotone(qs, to)
      && (forall j :: 0 <= j < |qs| ==> WellFormed(qs[j]))
      && DistinctRefs(qs)
      && (forall j :: 0 <= j < |to| ==> to[j] <= seg)
      && (forall j :: 0 <= j < |to| - 1 ==> to[j] <= to[j + 1])
  {
    var qs, to := ps + [p], so + [seg];
    forall j | 0 <= j < |qs| - 1 && to[j] == to[j + 1]
      ensures qs[j].chapter == qs[j + 1].chapter && OrdinalBelow(qs[j].section, qs[j + 1].section)
    {
      if j + 1 < |ps| { assert qs[j] == ps[j] && qs[j + 1] == ps[j + 1]; }
    }
    forall a, b | 0 <= a < b < |qs| ensures qs[a].provisionRef != qs[b].provisionRef {
      if b < |ps| { assert qs[a] == ps[a] && qs[b] == ps[b]; }
      else { assert qs[a] == ps[a]; assert ps[a].provisionRef in Refs(ps); }
    }
  }

  /** Emitting the open section as `p` keeps `Inv0`. */
  lemma EmitInv(st: State, p: Provision)
    requires Inv0(st) && st.currentSection.Some? && WellFormed(p)
    requires p.section == st.currentSection.value && p.chapter == st.currentChapter
    ensures Inv0(st.(provisions := st.provisions + [p], seen := st.seen + {p.provisionRef},
                     lastOrdinal := RecordOrdinal(st.lastOrdinal, st.currentChapter, p.section),
                     segmentOf := st.segmentOf + [st.segment],
                     currentSection := None, currentTitle := None, content := []))
  {
    TokenNumberAndOrdinal(p.section);
    RefsAppend(st.provisions, p);
    if LastInSegment(st) {
      assert LastFacts(st);
    }
    AppendProvision(st.provisions, st.segmentOf, st.segment, p);
  }

  lemma FlushEmitInv(st: State)
    requires Inv0(st) && Truthy(st.currentSection) && |st.content| > 0
    ensures Inv0(FlushState(st))
  {
    var cur := st.currentSection.value;
    TokenNormalized(cur);
    var p := Provision(FormatRef(st.currentChapter, cur), st.currentChapter, cur, st.currentTitle,
                       Normalize(Join(st.content, " ")));
    JoinNotBlank(st.content, " ");
    EmitInv(st, p);
  }

  lemma FlushInv(st: State)
    requires Inv0(st)
    ensures Inv0(FlushState(st))
    ensures FlushState(st).currentSection.None?
  {
    if Truthy(st.currentSection) && |st.content| > 0 {
      FlushEmitInv(st);
    }
  }

  lemma ChapterStepInv(st: State, chapter: string)
    requires Inv(st) && IsChapterNumber(chapter)
    ensures Inv(FlushState(st).(pendingChapter := Some(chapter), pendingTitle := None))
  {
    FlushInv(st);
  }

  /** Changing only the buffer, the titles, the counters and the pending chapter keeps `Inv0`. */
  lemma Inv0Frame(st: State, st2: State)
    requires Inv0(st)
    requires st2.provisions == st.provisions && st2.seen == st.seen && st2.lastOrdinal == st.lastOrdinal
    requires st2.currentChapter == st.currentChapter && st2.currentSection == st.currentSection
    requires st2.segment == st.segment && st2.segmentOf == st.segmentOf
    requires ChapterOk(st2.pendingChapter) && (st2.pendingChapter.Some? ==> st2.currentSection.None?)
    requires st2.currentSection.None? ==> st2.content == []
    requires forall k :: 0 <= k < |st2.content| ==> !AllSpace(st2.content[k])
    ensures Inv0(st2)
  {
    if LastInSegment(st2) {
      assert LastInSegment(st) && LastFacts(st);
    }
  }

  lemma TextStepInv(st: State, line: string)
    requires Inv(st) && !AllSpace(line)
    ensures Inv(TextStep(st, line))
  {
    var st2 := TextStep(st, line);
    if Truthy(st.currentSection) && !(|st.content| == 0 && IsLikelyTitle(line)) {
      assert st2 == st.(content := st.content + [line]);
    } else {
      assert st2.content == st.content;
    }
    Inv0Frame(st, st2);
  }

  /** In a chapterless text, a pending chapter marker is activated by the next candidate, which no check suppresses. */
  lemma FlatPendingAccepted(st: State, m: SectionParts)
    requires Inv(st) && st.currentChapter.None? && st.pendingChapter.Some?
    requires IsSectionToken(NormalizeSectionRef(m.group))
    ensures Assess(st, m).activated && !Assess(st, m).Suppressed()
  {
    var a := Assess(st, m);
    var c := st.pendingChapter.value;
    assert a.chapter == Some(c);
    ChapteredRefHasColon(c, a.section);
    if a.ref in st.seen {
      var j :| 0 <= j < |st.provisions| && st.provisions[j].provisionRef == a.ref;
      assert WellFormed(st.provisions[j]) && st.provisions[j].chapter.None?;
      TokenNoColon(st.provisions[j].section);
      assert false;
    }
  }

  lemma SuppressCore(st: State, a: Assessment, line: string)
    requires Inv(st) && !AllSpace(line)
    requires !(st.currentChapter.None? && st.currentSection.None? && st.pendingChapter.Some?)
    ensures Inv(SuppressStep(st, a, line))
  {
    var st2 := SuppressStep(st, a, line);
    assert st2.pendingChapter == None;
    Inv0Frame(st, st2);
  }

  lemma SuppressInv(st: State, line: string, m: SectionParts)
    requires Inv(st) && !AllSpace(line) && SectionMatch(line) == Some(m)
    requires Assess(st, m).Suppressed()
    ensures Inv(SectionStep(st, line, m))
  {
    SectionGroupNormalizes(line);
    if st.currentChapter.None? && st.currentSection.None? && st.pendingChapter.Some? {
      FlatPendingAccepted(st, m);
    }
    SuppressCore(st, Assess(st, m), line);
  }

  lemma FlushWithoutEmit(g: State)
    requires !(Truthy(g.currentSection) && |g.content| > 0)
    ensures FlushState(g).provisions == g.provisions && FlushState(g).segmentOf == g.segmentOf
    ensures FlushState(g).segment == g.segment
  {
  }

  lemma FlushSeen(st: State)
    ensures FlushState(st).seen ==
      if Truthy(st.currentSection) && |st.content| > 0
      then st.seen + {FormatRef(st.currentChapter, NormalizeSectionRef(st.currentSection.value))}
      else st.seen
  {
  }

  /** What acceptance of a candidate tells about it, stated without the checks. */
  predicate AcceptedFactsOf(st: State, a: Assessment) {
    && IsSectionToken(a.section)
    && a.ref == FormatRef(a.chapter, a.section) && a.ref !in st.seen
    && ChapterOk(a.chapter)
    && (!a.activated ==> a.chapter == st.currentChapter)
    && (a.chapter.None? ==> st.currentChapter.None?)
    && (st.currentSection.Some? ==>
          !a.activated && IsSectionToken(st.currentSection.value)
          && TokenOrdinal(st.currentSection.value) < TokenOrdinal(a.section))
    && (!a.activated && st.currentChapter.Some? && st.currentChapter.value in st.lastOrdinal ==>
          st.lastOrdinal[st.currentChapter.value] < TokenOrdinal(a.section))
    && (st.currentChapter.None? && st.pendingChapter.Some? ==> a.activated)
    && (a.remainder != "" ==> !AllSpace(a.remainder))
  }

  lemma AcceptedFacts(st: State, line: string, m: SectionParts)
    requires SectionMatch(line) == Some(m) && !Assess(st, m).Suppressed()
    requires ChapterOk(st.pendingChapter) && ChapterOk(st.currentChapter)
    requires st.pendingChapter.Some? ==> st.currentSection.None?
    requires st.currentSection.Some? ==> IsSectionToken(st.currentSection.value)
    ensures AcceptedFactsOf(st, Assess(st, m))
  {
    var a := Assess(st, m);
    SectionGroupNormalizes(line);
    TokenNumberAndOrdinal(a.section);
    if st.currentSection.Some? {
      TokenNumberAndOrdinal(st.currentSection.value);
    }
  }

  /** Opening the accepted section on a flushed state. */
  lemma OpenInv(f: State, chapter: Option<string>, section: string, title: Option<string>,
                content: seq<string>, activated: bool)
    requires Inv0(f) && f.currentSection.None? && f.pendingChapter.None?
    requires ChapterOk(chapter) && IsSectionToken(section) && FormatRef(chapter, section) !in f.seen
    requires forall k :: 0 <= k < |content| ==> !AllSpace(content[k])
    requires !activated ==> chapter == f.currentChapter
    requires chapter.None? ==> f.currentChapter.None?
    requires !activated && LastInSegment(f) ==> OrdinalBelow(f.provisions[|f.provisions| - 1].section, section)
    ensures Inv(f.(currentChapter := chapter, currentSection := Some(section), currentTitle := title,
                   content := content, segment := if activated then f.segment + 1 else f.segment))
  {
    var r := f.(currentChapter := chapter, currentSection := Some(section), currentTitle := title,
                content := content, segment := if activated then f.segment + 1 else f.segment);
    if LastInSegment(r) {
      assert !activated;
      assert LastInSegment(f) && LastFacts(f);
    }
  }

  /** The last provision of the segment lies below an accepted candidate that activates nothing. */
  lemma AcceptedAboveLast(st: State, g: State, section: string)
    requires Inv(st) && IsSectionToken(section)
    requires g.provisions == st.provisions && g.segmentOf == st.segmentOf && g.segment == st.segment
    requires g.currentSection == st.currentSection && g.content == st.content && g.currentChapter == st.currentChapter
    requires st.currentSection.Some? ==> TokenOrdinal(st.currentSection.value) < TokenOrdinal(section)
    requires st.currentChapter.Some? && st.currentChapter.value in st.lastOrdinal ==>
      st.lastOrdinal[st.currentChapter.value] < TokenOrdinal(section)
    requires st.currentChapter.None? ==> st.pendingChapter.None?
    requires LastInSegment(FlushState(g))
    ensures OrdinalBelow(FlushState(g).provisions[|FlushState(g).provisions| - 1].section, section)
  {
    var f := FlushState(g);
    if Truthy(st.currentSection) && |st.content| > 0 {
      var cur := st.currentSection.value;
      TokenNormalized(cur);
      assert f.provisions[|f.provisions| - 1].section == cur;
    } else {
      FlushWithoutEmit(g);
      assert LastInSegment(st) && LastFacts(st);
    }
  }

  /** The accepted candidate's reference is still fresh once the open section is emitted. */
  lemma FreshAfterFlush(b: State, ref: string, section: string)
    requires Inv0(b) && ref !in b.seen && IsSectionToken(section)
    requires b.currentSection.Some? ==>
      IsSectionToken(b.currentSection.value) && ref == FormatRef(b.currentChapter, section) && TokenOrdinal(b.currentSection.value) < TokenOrdinal(section)
    ensures ref !in FlushState(b).seen
  {
    FlushSeen(b);
    if Truthy(b.currentSection) && |b.content| > 0 {
      var cur := b.currentSection.value;
      TokenNormalized(cur);
      if ref == FormatRef(b.currentChapter, cur) {
        FormatRefInjectiveSection(b.currentChapter, section, cur);
      }
    }
  }

  /** The flushed state on which an accepted candidate is opened. */
  predicate FlushedForOpen(st: State, a: Assessment, f: State) {
    && Inv0(f) && f.currentSection.None? && f.pendingChapter.None?
    && a.ref !in f.seen
    && f.currentChapter == st.currentChapter
    && (!a.activated && LastInSegment(f) ==> OrdinalBelow(f.provisions[|f.provisions| - 1].section, a.section))
  }

  lemma AcceptFlush(st: State, a: Assessment)
    requires Inv(st) && AcceptedFactsOf(st, a)
    ensures FlushedForOpen(st, a, FlushState(MarkerStep(st, a).(pendingTitle := None)))
  {
    var b := MarkerStep(st, a).(pendingTitle := None);
    Inv0Frame(st, b);
    var f := FlushState(b);
    FlushInv(b);
    FreshAfterFlush(b, a.ref, a.section);
    if !a.activated && LastInSegment(f) {
      AcceptedAboveLast(st, b, a.section);
    }
  }

  /** Acceptance of an assessed candidate keeps the invariant. */
  lemma AcceptCore(st: State, a: Assessment, f: State)
    requires AcceptedFactsOf(st, a) && FlushedForOpen(st, a, f)
    ensures Inv(OpenSection(f, a, st.pendingTitle))
  {
    OpenInv(f, a.chapter, a.section, st.pendingTitle, if a.remainder != "" then [a.remainder] else [], a.activated);
  }

  lemma AcceptInv(st: State, line: string, m: SectionParts)
    requires Inv(st) && SectionMatch(line) == Some(m)
    requires !Assess(st, m).Suppressed()
    ensures Inv(SectionStep(st, line, m))
  {
    var a := Assess(st, m);
    AcceptedFacts(st, line, m);
    AcceptFlush(st, a);
    AcceptCore(st, a, FlushState(MarkerStep(st, a).(pendingTitle := None)));
  }

  lemma StepInv(st: State, rawLine: string)
    requires Inv(st)
    ensures Inv(Step(st, rawLine))
  {
    var line := Trim(rawLine);
    if line != "" {
      match ChapterMatch(line)
      case Some(chapter) => ChapterStepInv(st, chapter);
      case None =>
        match SectionMatch(line)
        case Some(m) =>
          if Assess(st, m).Suppressed() { SuppressInv(st, line, m); } else { AcceptInv(st, line, m); }
        case None => TextStepInv(st, line);
    }
  }

  lemma {:induction false} RunInv(lines: seq<string>)
    ensures Inv(Run(Init, lines))
    decreases |lines|
  {
    if lines != [] {
      RunInv(lines[..|lines| - 1]);
      StepInv(Run(Init, lines[..|lines| - 1]), lines[|lines| - 1]);
    }
  }

  // ---------------------------------------------------------------------------
  // Properties of the whole pass

  /** Every emitted provision is well formed, and no two share a reference; consecutive provisions of one segment ascend. */
  lemma ParseWellFormed(text: string)
    ensures var r := ParseSpec(text);
      && (forall j :: 0 <= j < |r.provisions| ==> WellFormed(r.provisions[j]))
      && DistinctRefs(r.provisions)
    ensures |FinalState(text).segmentOf| == |FinalState(text).provisions|
    ensures SegmentsMonotone(FinalState(text).provisions, FinalState(text).segmentOf)
  {
    RunInv(SplitLines(text));
    FlushInv(Run(Init, SplitLines(text)));
  }

  lemma {:induction false} SplitLinesBlank(text: string)
    requires AllSpace(text)
    ensures forall k :: 0 <= k < |SplitLines(text)| ==> AllSpace(SplitLines(text)[k])
    decreases |text|
  {
    match IndexOf(text, "\n", 0)
    case None =>
    case Some(i) =>
      var rest := text[i + 1..];
      assert AllSpace(rest) by {
        forall k | 0 <= k < |rest| ensures IsSpace(rest[k]) { assert rest[k] == text[i + 1 + k]; }
      }
      SplitLinesBlank(rest);
      var lines := SplitLines(text);
      forall k | 0 <= k < |lines| ensures AllSpace(lines[k]) {
        if k > 0 { assert lines[k] == SplitLines(rest)[k - 1]; }
      }
  }

  lemma {:induction false} RunBlank(lines: seq<string>)
    requires forall k :: 0 <= k < |lines| ==> AllSpace(lines[k])
    ensures Run(Init, lines) == Init
    decreases |lines|
  {
    if lines != [] {
      RunBlank(lines[..|lines| - 1]);
    }
  }

  /** Empty or blank input gives no provisions and both counters zero. */
  lemma BlankInputGivesNothing(text: string)
    requires AllSpace(text)
    ensures ParseSpec(text) == ParseResult([], Diagnostics(0, 0))
  {
    SplitLinesBlank(text);
    RunBlank(SplitLines(text));
  }

  /**
   * A provision is emitted exactly when a section is open with a non-empty
   * buffer; it carries the open section, its chapter and title, and the
   * buffer joined by single spaces.
   */
  lemma FlushEmitsOpenSection(st: State)
    requires Inv0(st)
    ensures var f := FlushState(st);
      && (|f.provisions| == |st.provisions| + 1 <==> st.currentSection.Some? && |st.content| > 0)
      && (|f.provisions| == |st.provisions| ==> f.provisions == st.provisions)
      && f.provisions[..|st.provisions|] == st.provisions
      && (st.currentSection.Some? && |st.content| > 0 ==>
            f.provisions[|st.provisions|] ==
              Provision(FormatRef(st.currentChapter, st.currentSection.value), st.currentChapter,
                        st.currentSection.value, st.currentTitle, Normalize(Join(st.content, " "))))
      && f.currentSection.None? && f.currentTitle.None? && f.content == []
  {
    if st.currentSection.Some? {
      TokenNormalized(st.currentSection.value);
    }
  }

  /** The pending-chapter rule: activation only under no active chapter or a candidate numbered 1. */
  lemma PendingChapterRule(st: State, rawLine: string, m: SectionParts)
    requires Inv(st) && ChapterMatch(Trim(rawLine)).None? && SectionMatch(Trim(rawLine)) == Some(m)
    ensures var s2, section := Step(st, rawLine), NormalizeSectionRef(m.group);
      && s2.pendingChapter.None?
      && s2.ignored == st.ignored +
           (if st.pendingChapter.Some? && st.currentChapter.Some? && SectionNumber(section) != Some(1) then 1 else 0)
      && (s2.currentChapter != st.currentChapter ==>
            s2.currentChapter == st.pendingChapter
            && (st.currentChapter.None? || SectionNumber(section) == Some(1)))
  {
    var line := Trim(rawLine);
    var a := Assess(st, m);
    assert Step(st, rawLine) == SectionStep(st, line, m);
    if !a.Suppressed() {
      FlushKeepsChapter(MarkerStep(st, a).(pendingTitle := None));
    }
  }

  lemma FlushKeepsChapter(st: State)
    ensures FlushState(st).currentChapter == st.currentChapter && FlushState(st).pendingChapter == st.pendingChapter
    ensures FlushState(st).segment == st.segment && FlushState(st).pendingTitle == st.pendingTitle
    ensures FlushState(st).ignored == st.ignored && FlushState(st).suppressed == st.suppressed
  {
  }

  /** A suppressed candidate is counted and kept as content of the open section (or dropped); nothing else changes. */
  lemma SuppressionRule(st: State, rawLine: string, m: SectionParts)
    requires Inv(st) && ChapterMatch(Trim(rawLine)).None? && SectionMatch(Trim(rawLine)) == Some(m)
    requires Assess(st, m).Suppressed()
    ensures Step(st, rawLine) ==
      st.(ignored := if Assess(st, m).markerIgnored then st.ignored + 1 else st.ignored,
          pendingChapter := None,
          suppressed := st.suppressed + 1,
          content := if st.currentSection.Some? then st.content + [Trim(rawLine)] else st.content)
  {
    assert Step(st, rawLine) == SectionStep(st, Trim(rawLine), m);
    SectionStepCases(st, Trim(rawLine), m);
    SuppressShape(st, Assess(st, m), Trim(rawLine));
  }

  lemma SuppressShape(st: State, a: Assessment, line: string)
    requires ChapterOk(st.pendingChapter) && (st.currentSection.Some? ==> IsSectionToken(st.currentSection.value))
    ensures SuppressStep(st, a, line) ==
      st.(ignored := if a.markerIgnored then st.ignored + 1 else st.ignored,
          pendingChapter := None,
          suppressed := st.suppressed + 1,
          content := if st.currentSection.Some? then st.content + [line] else st.content)
  {
    if st.currentSection.Some? {
      assert Truthy(st.currentSection) by { TokenNoColon(st.currentSection.value); }
    }
  }

  /** An accepted candidate becomes the open section, titled by the pending title, with the remainder as content. */
  lemma AcceptanceRule(st: State, rawLine: string, m: SectionParts)
    requires Inv(st) && ChapterMatch(Trim(rawLine)).None? && SectionMatch(Trim(rawLine)) == Some(m)
    requires !Assess(st, m).Suppressed()
    ensures var s2, a := Step(st, rawLine), Assess(st, m);
      && s2.currentSection == Some(NormalizeSectionRef(m.group))
      && s2.currentTitle == st.pendingTitle && s2.pendingTitle.None?
      && s2.content == (if Trim(m.rest) != "" then [Trim(m.rest)] else [])
      && s2.provisions == FlushState(st).provisions
  {
    var a := Assess(st, m);
    assert Step(st, rawLine) == SectionStep(st, Trim(rawLine), m);
    FlushProvisionsFrame(st, MarkerStep(st, a).(pendingTitle := None));
  }

  lemma FlushProvisionsFrame(st: State, b: State)
    requires b.currentSection == st.currentSection && b.content == st.content
    requires b.currentChapter == st.currentChapter && b.currentTitle == st.currentTitle && b.provisions == st.provisions
    ensures FlushState(b).provisions == FlushState(st).provisions
  {
  }

  /** The two title rules: a title-like line titles the next section, or the open section before any content. */
  lemma TitleRules(st: State, rawLine: string)
    requires Inv(st)
    requires ChapterMatch(Trim(rawLine)).None? && SectionMatch(Trim(rawLine)).None? && IsLikelyTitle(Trim(rawLine))
    ensures st.currentSection.None? ==> Step(st, rawLine) == st.(pendingTitle := Some(Trim(rawLine)))
    ensures st.currentSection.Some? && st.content == [] ==>
      Step(st, rawLine) == st.(currentTitle := Some(Trim(rawLine)))
  {
    if st.currentSection.Some? {
      assert Truthy(st.currentSection) by { TokenNoColon(st.currentSection.value); }
    }
  }

  /** The segment counter advances exactly when the active chapter changes. */
  lemma SegmentFollowsChapter(st: State, rawLine: string)
    requires Inv(st)
    ensures Step(st, rawLine).segment ==
      st.segment + (if Step(st, rawLine).currentChapter != st.currentChapter then 1 else 0)
  {
    var line := Trim(rawLine);
    if line != "" {
      match ChapterMatch(line)
      case Some(chapter) => FlushKeepsChapter(st);
      case None =>
        match SectionMatch(line)
        case Some(m) =>
          var a := Assess(st, m);
          if !a.Suppressed() {
            FlushKeepsChapter(MarkerStep(st, a).(pendingTitle := None));
          }
        case None =>
    }
  }

  // ---------------------------------------------------------------------------
  // The pass as the source runs it

  /** The closure state of `parseLovdataProvisions`; `flushCurrentSection` and the loop body are its methods. */
  class LovdataParser {
    var provisions: seq<Provision>
    var seenProvisionRefs: set<string>
    var lastOrdinalByChapter: map<string, int>
    var ignoredChapterMarkers: nat
    var suppressedSectionCandidates: nat
    var currentChapter: Option<string>
    var pendingChapter: Option<string>
    var currentSection: Option<string>
    var currentTitle: Option<string>
    var pendingTitle: Option<string>
    var currentContent: seq<string>
    ghost var segment: nat
    ghost var segmentOf: seq<nat>

    /** The fields as a `State` value. */
    ghost function Snapshot(): State
      reads this
    {
      State(provisions, seenProvisionRefs, lastOrdinalByChapter, ignoredChapterMarkers, suppressedSectionCandidates,
            currentChapter, pendingChapter, currentSection, currentTitle, pendingTitle, currentContent,
            segment, segmentOf)
    }

    constructor()
      ensures Snapshot() == Init
    {
      provisions, seenProvisionRefs, lastOrdinalByChapter := [], {}, map[];
      ignoredChapterMarkers, suppressedSectionCandidates := 0, 0;
      currentChapter, pendingChapter, currentSection, currentTitle, pendingTitle := None, None, None, None, None;
      currentContent := [];
      segment, segmentOf := 0, [];
    }

    /** `flushCurrentSection` */
    method FlushCurrentSection()
      modifies this
      ensures Snapshot() == FlushState(old(Snapshot()))
    {
      ghost var st := Snapshot();
      if !Truthy(currentSection) || |currentContent| == 0 {
        currentSection, currentTitle, currentContent := None, None, [];
        return;
      }
      FlushEmitShape(st);
      var section := NormalizeSectionRef(currentSection.value);
      var provisionRef := FormatRef(currentChapter, section);
      var provision := Provision(provisionRef, currentChapter, section, currentTitle, Normalize(Join(currentContent, " ")));
      provisions, seenProvisionRefs := provisions + [provision], seenProvisionRefs + {provisionRef};
      segmentOf := segmentOf + [segment];
      lastOrdinalByChapter := RecordOrdinal(lastOrdinalByChapter, currentChapter, section);
      currentSection, currentTitle, currentContent := None, None, [];
    }

    /** One iteration of the loop over lines. */
    method ProcessLine(rawLine: string)
      modifies this
      ensures Snapshot() == Step(old(Snapshot()), rawLine)
    {
      var line := Trim(rawLine);
      if line == "" {
        return;
      }
      var chapterMatch := ChapterMatch(line);
      if chapterMatch.Some? {
        FlushCurrentSection();
        pendingChapter := chapterMatch;
        pendingTitle := None;
        return;
      }
      var sectionMatch := SectionMatch(line);
      if sectionMatch.Some? {
        ProcessSectionLine(line, sectionMatch.value);
        return;
      }
      if !Truthy(currentSection) && IsLikelyTitle(line) {
        pendingTitle := Some(line);
        return;
      }
      if Truthy(currentSection) && |currentContent| == 0 && IsLikelyTitle(line) {
        currentTitle := Some(line);
        return;
      }
      if Truthy(currentSection) {
        currentContent := currentContent + [line];
      }
    }

    /** Lines 159-211 of the loop body: the candidate's section, chapter and the five checks. */
    method AssessCandidate(m: SectionParts) returns (a: Assessment)
      ensures a == Assess(Snapshot(), m)
    {
      var normalizedSection := NormalizeSectionRef(m.group);
      var sectionNum := SectionNumber(normalizedSection);
      var remainder := Trim(m.rest);
      var chapterForSection := currentChapter;
      var chapterActivated := false;
      var markerIgnored := false;
      if Truthy(pendingChapter) {
        if !Truthy(currentChapter) || sectionNum == Some(1) {
          chapterForSection := pendingChapter;
          chapterActivated := chapterForSection != currentChapter;
        } else {
          markerIgnored := true;
        }
      }
      var provisionRef := FormatRef(chapterForSection, normalizedSection);
      var candidateOrdinal := SectionOrdinal(normalizedSection);
      var currentOrdinal := if Truthy(currentSection) then SectionOrdinal(currentSection.value) else None;
      var lastOrdinal := if Truthy(chapterForSection) && chapterForSection.value in lastOrdinalByChapter
                         then Some(lastOrdinalByChapter[chapterForSection.value]) else None;
      var candidateNumber := SectionNumber(normalizedSection);
      var currentNumber := if Truthy(currentSection) then SectionNumber(currentSection.value) else None;

      var isDuplicateRef := provisionRef in seenProvisionRefs;
      var isOutOfOrderFromCurrent :=
        currentOrdinal.Some? && candidateOrdinal.Some? && candidateOrdinal.value <= currentOrdinal.value;
      var isOutOfOrderFromHistory :=
        !chapterActivated && lastOrdinal.Some? && candidateOrdinal.Some? && candidateOrdinal.value <= lastOrdinal.value;
      var isLikelyInlineReference :=
        !chapterActivated && currentSection.Some? && |currentContent| > 0 && StartsWithLowercase(remainder);
      var isSuspiciousFlatJump :=
        !chapterActivated && !Truthy(chapterForSection) && currentNumber.Some? && candidateNumber.Some?
        && candidateNumber.value - currentNumber.value >= FLAT_JUMP_THRESHOLD && |currentContent| > 0;
      a := Assessment(normalizedSection, remainder, chapterForSection, chapterActivated, markerIgnored,
                      provisionRef, isDuplicateRef, isOutOfOrderFromCurrent, isOutOfOrderFromHistory,
                      isLikelyInlineReference, isSuspiciousFlatJump);
    }

    /** The body of the loop for a line matching `SECTION_PATTERN`. */
    method ProcessSectionLine(line: string, m: SectionParts)
      modifies this
      ensures Snapshot() == SectionStep(old(Snapshot()), line, m)
    {
      ghost var st := Snapshot();
      var a := AssessCandidate(m);
      SectionStepCases(st, line, m);
      if Truthy(pendingChapter) {
        if a.markerIgnored {
          ignoredChapterMarkers := ignoredChapterMarkers + 1;
        }
        pendingChapter := None;
      }
      assert Snapshot() == MarkerStep(st, a);

      if a.Suppressed() {
        suppressedSectionCandidates := suppressedSectionCandidates + 1;
        if Truthy(currentSection) {
          currentContent := currentContent + [line];
        }
        return;
      }
      OpenCandidate(a);
    }

    /** Lines 227-237: flush the open section and open the accepted candidate. */
    method OpenCandidate(a: Assessment)
      modifies this
      ensures Snapshot() == OpenSection(FlushState(old(Snapshot()).(pendingTitle := None)), a, old(pendingTitle))
    {
      var titleForSection := pendingTitle;
      pendingTitle := None;
      FlushCurrentSection();
      if a.activated {
        segment := segment + 1;
      }
      currentChapter := a.chapter;
      currentSection := Some(a.section);
      currentTitle := titleForSection;
      if a.remainder != "" {
        currentContent := currentContent + [a.remainder];
      }
    }
  }

  /** The loop of `parseLovdataProvisions` over its lines. */
  method RunLines(lines: seq<string>) returns (parser: LovdataParser)
    ensures fresh(parser)
    ensures parser.Snapshot() == Run(Init, lines)
  {
    parser := new LovdataParser();
    var i := 0;
    while i < |lines|
      invariant 0 <= i <= |lines|
      invariant parser.Snapshot() == Run(Init, lines[..i])
    {
      assert lines[..i + 1][..i] == lines[..i];
      parser.ProcessLine(lines[i]);
      i := i + 1;
    }
    assert lines[..|lines|] == lines;
  }

  /** `parseLovdataProvisions` */
  method ParseLovdataProvisions(text: string) returns (r: ParseResult)
    ensures r == ParseSpec(text)
    ensures forall j :: 0 <= j < |r.provisions| ==> WellFormed(r.provisions[j])
    ensures DistinctRefs(r.provisions)
  {
    var lines := SplitLines(text);
    var parser := RunLines(lines);
    parser.FlushCurrentSection();
    r := ParseResult(parser.provisions,
                     Diagnostics(parser.ignoredChapterMarkers, parser.suppressedSectionCandidates));
    ParseWellFormed(text);
  }

  /** `parseRiksdagenProvisions`, the deprecated alias. */
  method ParseRiksdagenProvisions(text: string) returns (r: ParseResult)
    ensures r == ParseSpec(text)
  {
    r := ParseLovdataProvisions(text);
  }
}
