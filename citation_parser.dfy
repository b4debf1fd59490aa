/**
 * `parseCitation` and `detectDocumentType` (src/citation/parser.ts).
 *
 * `parseCitation` tries eleven recognisers in a fixed order on the trimmed
 * input and the first that matches builds the result. Each pattern is written
 * as a deterministic scan that finds what the backtracking engine finds: the
 * greedy choice at every quantifier, and a shorter choice only where a later
 * part of the pattern can use it (the alphanumeric suffix of a LOV id in front
 * of "kap"). All patterns carry the `i` flag and no `u` flag, so letters match
 * ASCII letters of either case and nothing else.
 */
module CitationParser {
  import opened Wrappers
  import opened Text
  import opened Scan

  datatype DocumentType = Statute | Bill | Sou | Ds | CaseLaw

  /** `ParsedCitation`; `docType` is the source's `type`. */
  datatype ParsedCitation = ParsedCitation(
    raw: string,
    docType: DocumentType,
    documentId: string,
    chapter: Option<string>,
    section: Option<string>,
    page: Option<string>,
    valid: bool,
    error: Option<string>)

  /** A captured group and the index just after the text the pattern consumed with it. */
  datatype Capture = Capture(text: string, end: nat)

  // ---------------------------------------------------------------------------
  // Pieces shared by several patterns

  /** `^NAME\s` */
  predicate NameThenSpace(s: string, name: string) {
    LitAtCI(s, 0, name) && |s| > |name| && IsSpace(s[|name|])
  }

  /** `\d{4}:\d+` at `i`: where it ends. */
  function YearNumberEnd(s: string, i: nat): (r: Option<nat>)
    ensures r.Some? ==> i + 5 < r.value <= |s| && DigitsAt(s, i, 4) && s[i + 4] == ':'
    ensures r.Some? ==> forall k :: i + 5 <= k < r.value ==> IsDigit(s[k])
  {
    if DigitsAt(s, i, 4) && CharAt(s, i + 4, ':') && DigitRun(s, i + 5) > i + 5 then Some(DigitRun(s, i + 5))
    else None
  }

  /** `(\d+\s*[a-z]?)` at `i`: the digits, then all following whitespace, then one letter of either case if there is one. */
  function SectionGroupEnd(s: string, i: nat): (r: Option<nat>)
    requires i <= |s|
    ensures r.Some? ==> i < r.value <= |s| && IsDigit(s[i])
  {
    var d := DigitRun(s, i);
    var w := SpaceRun(s, d);
    if d == i then None
    else if w < |s| && IsAsciiLetter(s[w]) then Some(w + 1)
    else Some(w)
  }

  /** What group 3 captures: digits, any whitespace, and at most one letter. */
  predicate IsSectionGroup(g: string) {
    var d := DigitRun(g, 0);
    var w := SpaceRun(g, d);
    d > 0 && (w == |g| || (w + 1 == |g| && IsAsciiLetter(g[w])))
  }

  lemma SectionGroupSlice(s: string, i: nat, e: nat)
    requires i <= e <= |s| && SectionGroupEnd(s, i) == Some(e)
    ensures IsSectionGroup(s[i..e])
  {
    var d := DigitRun(s, i);
    var w := SpaceRun(s, d);
    var g := s[i..e];
    DigitRunExact(g, 0, d - i);
    SpaceRunExact(g, d - i, w - i);
  }

  /** `(?:SFS\s+)?` at the start. */
  function SfsPrefixEnd(s: string): (p: nat)
    ensures p <= |s|
  {
    if LitAtCI(s, 0, "sfs") && SpaceRun(s, 3) > 3 then SpaceRun(s, 3) else 0
  }

  // ---------------------------------------------------------------------------
  // 1. LOV_PATTERN = /^(?:LOV\s+)?(LOV-\d{4}-\d{2}-\d{2}(?:-[a-z0-9]+)?)\s*(?:(?:kapittel|kap\.?)\s+(\d+)\s*)?(?:§\s*(\d+\s*[a-z]?))?\s*$/i

  /** `(?:LOV\s+)?` at the start: where group 1 begins. */
  function LovPrefixEnd(s: string): (p: nat)
    ensures p <= |s|
  {
    if LitAtCI(s, 0, "lov") && SpaceRun(s, 3) > 3 then SpaceRun(s, 3) else 0
  }

  /** `LOV-\d{4}-\d{2}-\d{2}` at `i`. */
  predicate LovDateAt(s: string, i: nat) {
    && LitAtCI(s, i, "lov-") && DigitsAt(s, i + 4, 4) && CharAt(s, i + 8, '-')
    && DigitsAt(s, i + 9, 2) && CharAt(s, i + 11, '-') && DigitsAt(s, i + 12, 2)
  }

  /** Groups 2 and 3: the chapter and section pinpoints. */
  datatype Pinpoint = Pinpoint(chapter: Option<string>, section: Option<string>)

  /** `(?:kapittel|kap\.?)` at `i`: where the word ends. */
  function ChapterWordEnd(s: string, i: nat): (r: Option<nat>)
    ensures r.Some? ==> i + 3 <= r.value <= |s|
  {
    if LitAtCI(s, i, "kapittel") then Some(i + 8)
    else if LitAtCI(s, i, "kap") then Some(if CharAt(s, i + 3, '.') then i + 4 else i + 3)
    else None
  }

  /** `(?:kapittel|kap\.?)\s+(\d+)\s*` at `i`. */
  function ChapterPartAt(s: string, i: nat): (r: Option<Capture>)
    ensures r.Some? ==> i < r.value.end <= |s| && |r.value.text| > 0 && AllDigits(r.value.text)
  {
    match ChapterWordEnd(s, i)
    case None => None
    case Some(a) =>
      var b := SpaceRun(s, a);
      var d := DigitRun(s, b);
      if b > a && d > b then Some(Capture(s[b..d], SpaceRun(s, d))) else None
  }

  /** The pinpoints have the shapes their groups allow. */
  predicate PinpointShape(pin: Pinpoint) {
    && (pin.chapter.Some? ==> |pin.chapter.value| > 0 && AllDigits(pin.chapter.value))
    && (pin.section.Some? ==> IsSectionGroup(pin.section.value))
  }

  /** What follows group 1, up to the end of the input: `\s*(?:chapter)?(?:§\s*(section))?\s*$`. */
  function LovTail(s: string, j: nat): (r: Option<Pinpoint>)
    requires j <= |s|
    ensures r.Some? ==> PinpointShape(r.value)
  {
    var w := SpaceRun(s, j);
    var ch := ChapterPartAt(s, w);
    var p := if ch.Some? then ch.value.end else w;
    var chapter := if ch.Some? then Some(ch.value.text) else None;
    if CharAt(s, p, '§') then
      var q := SpaceRun(s, p + 1);
      match SectionGroupEnd(s, q)
      case Some(e) =>
        SectionGroupSlice(s, q, e);
        if SpaceRun(s, e) == |s| then Some(Pinpoint(chapter, Some(s[q..e]))) else None
      case None => None
    else if SpaceRun(s, p) == |s| then Some(Pinpoint(chapter, None))
    else None
  }

  /** A match of `LOV_PATTERN`: group 1 and the pinpoints. */
  datatype LovParts = LovParts(id: string, idEnd: nat, pinpoint: Pinpoint)

  /** The id without its suffix, ending at `q`. */
  function LovWithoutSuffix(s: string, p: nat, q: nat): (r: Option<LovParts>)
    requires p <= q <= |s|
    ensures r.Some? ==> PinpointShape(r.value.pinpoint) && r.value.idEnd == q && r.value.id == s[p..q]
  {
    match LovTail(s, q)
    case Some(pin) => Some(LovParts(s[p..q], q, pin))
    case None => None
  }

  /** The suffix `-[a-z0-9]+` ending at `e`, or shorter ones, or none: greedy, with backtracking. */
  function LovSuffixFrom(s: string, p: nat, q: nat, e: nat): (r: Option<LovParts>)
    requires p <= q && q + 1 < e <= |s|
    ensures r.Some? ==> PinpointShape(r.value.pinpoint)
    ensures r.Some? ==> (r.value.idEnd == q || q + 1 < r.value.idEnd <= e) && r.value.id == s[p..r.value.idEnd]
    decreases e
  {
    match LovTail(s, e)
    case Some(pin) => Some(LovParts(s[p..e], e, pin))
    case None => if e - 1 > q + 1 then LovSuffixFrom(s, p, q, e - 1) else LovWithoutSuffix(s, p, q)
  }

  function LovMatch(s: string): Option<LovParts> {
    var p := LovPrefixEnd(s);
    if !LovDateAt(s, p) then None
    else
      var q := p + 14;
      if CharAt(s, q, '-') && Span(s, q + 1, IsAsciiAlnum) > q + 1 then
        LovSuffixFrom(s, p, q, Span(s, q + 1, IsAsciiAlnum))
      else LovWithoutSuffix(s, p, q)
  }

  // ---------------------------------------------------------------------------
  // 2. CASE_HR_PATTERN = /^(HR|LA|LB|LE|TING)-(\d{4})-(\d+)(?:-([A-Z]))?$/i

  function CourtEnd(s: string): (r: Option<nat>)
    ensures r.Some? ==> r.value <= |s|
  {
    if LitAtCI(s, 0, "hr") || LitAtCI(s, 0, "la") || LitAtCI(s, 0, "lb") || LitAtCI(s, 0, "le") then Some(2)
    else if LitAtCI(s, 0, "ting") then Some(4)
    else None
  }

  /** The normalised docket `COURT-YYYY-N[-L]`. */
  function HrMatch(s: string): Option<string> {
    match CourtEnd(s)
    case None => None
    case Some(c) =>
      if CharAt(s, c, '-') && DigitsAt(s, c + 1, 4) && CharAt(s, c + 5, '-') && DigitRun(s, c + 6) > c + 6 then
        var d := DigitRun(s, c + 6);
        var docket := Upper(s[..c]) + "-" + s[c + 1..c + 5] + "-" + s[c + 6..d];
        if d == |s| then Some(docket)
        else if d + 2 == |s| && s[d] == '-' && IsAsciiLetter(s[d + 1]) then Some(docket + "-" + Upper(s[d + 1..]))
        else None
      else None
  }

  // ---------------------------------------------------------------------------
  // 3. CASE_RT_PATTERN = /^(Rt)\.\s*(\d{4})\s+s\.\s*(\d+)/i

  /** A year and a page. */
  datatype YearPage = YearPage(year: string, page: string)

  /** `\s+(\d{4})\s+CONNECTOR\s*(\d+)` after the reporter name ending at `n`. */
  function YearConnectorPage(s: string, n: nat, connector: Connector, yearSpaces: bool): Option<YearPage>
    requires n <= |s|
  {
    var a := SpaceRun(s, n);
    if (a > n || !yearSpaces) && DigitsAt(s, a, 4) then
      var b := SpaceRun(s, a + 4);
      if b > a + 4 then
        match ConnectorEnd(s, b, connector)
        case Some(c) =>
          var c2 := SpaceRun(s, c);
          var d := DigitRun(s, c2);
          if d > c2 then Some(YearPage(s[a..a + 4], s[c2..d])) else None
        case None => None
      else None
    else None
  }

  /** The word between year and page: `s\.`, `ref\.` or `(?:nr|ref\.?)`. */
  datatype Connector = SDot | RefDot | NrOrRef

  function ConnectorEnd(s: string, b: nat, connector: Connector): (r: Option<nat>)
    ensures r.Some? ==> b < r.value <= |s|
  {
    match connector
    case SDot => if LitAtCI(s, b, "s.") then Some(b + 2) else None
    case RefDot => if LitAtCI(s, b, "ref.") then Some(b + 4) else None
    case NrOrRef =>
      if LitAtCI(s, b, "nr") then Some(b + 2)
      else if LitAtCI(s, b, "ref") then Some(if CharAt(s, b + 3, '.') then b + 4 else b + 3)
      else None
  }

  /** `Rt.` then the year (whitespace before it optional), `s.` and the page. */
  function RtMatch(s: string): Option<YearPage> {
    if LitAtCI(s, 0, "rt.") then YearConnectorPage(s, 3, SDot, false) else None
  }

  // ---------------------------------------------------------------------------
  // 4. PROP_NO_PATTERN = /^(?:Prop\.?\s*(\d+)\s*(?:L|LS|S)\s*\((\d{4}-\d{4})\))|(?:Ot\.prp\.?\s*(?:nr\.?\s*)?(\d+)\s*\((\d{4}-\d{4})\))/i
  // The `^` binds to the first alternative only: `Ot.prp.` is found anywhere.

  /** A proposition number and its session. */
  datatype BillParts = BillParts(number: string, session: string)


  /** `\s*\((\d{4}-\d{4})\)` at `i`: the session and the end of the match. */
  function SessionAt(s: string, i: nat): (r: Option<Capture>)
    requires i <= |s|
    ensures r.Some? ==> |r.value.text| == 9 && i < r.value.end <= |s|
  {
    var g := SpaceRun(s, i);
    if CharAt(s, g, '(') && DigitsAt(s, g + 1, 4) && CharAt(s, g + 5, '-') && DigitsAt(s, g + 6, 4)
       && CharAt(s, g + 10, ')')
    then Some(Capture(s[g + 1..g + 10], g + 11))
    else None
  }

  /** The first alternative, at index 0. */
  function PropLsMatch(s: string): Option<BillParts> {
    if !LitAtCI(s, 0, "prop") then None
    else
      var a := if CharAt(s, 4, '.') then 5 else 4;
      var b := SpaceRun(s, a);
      var d := DigitRun(s, b);
      if d == b then None
      else
        match KindThenSession(s, SpaceRun(s, d))
        case Some(session) => Some(BillParts(s[b..d], session.text))
        case None => None
  }

  /** `(?:L|LS|S)\s*\((\d{4}-\d{4})\)` at `e`, the alternatives tried in order. */
  function KindThenSession(s: string, e: nat): Option<Capture>
    requires e <= |s|
  {
    var viaL := if LitAtCI(s, e, "l") then SessionAt(s, e + 1) else None;
    var viaLS := if LitAtCI(s, e, "ls") then SessionAt(s, e + 2) else None;
    var viaS := if LitAtCI(s, e, "s") then SessionAt(s, e + 1) else None;
    if viaL.Some? then viaL else if viaLS.Some? then viaLS else viaS
  }

  /**
   * The second alternative at index `k`, as a match array: groups 1 and 2
   * belong to the first alternative and are unset, group 3 is the number and
   * group 4 the session.
   */
  function OtPrpAt(s: string, k: nat): (r: Option<MatchAt>)
    ensures r.Some? ==> |r.value.groups| == 5 && r.value.groups[3].Some? && r.value.groups[4].Some?
  {
    if !LitAtCI(s, k, "ot.prp") then None
    else
      var a := if CharAt(s, k + 6, '.') then k + 7 else k + 6;
      var x := NumberStart(s, SpaceRun(s, a));
      var d := DigitRun(s, x);
      if d == x then None
      else
        match SessionAt(s, d)
        case Some(c) => Some(MatchAt(c.end - k, [Some(s[k..c.end]), None, None, Some(s[x..d]), Some(c.text)]))
        case None => None
  }

  /** `(?:nr\.?\s*)?` at `b`: where the number starts. */
  function NumberStart(s: string, b: nat): (x: nat)
    requires b <= |s|
    ensures b <= x <= |s|
  {
    if LitAtCI(s, b, "nr") then SpaceRun(s, if CharAt(s, b + 2, '.') then b + 3 else b + 2) else b
  }

  /** `trimmed.match(PROP_NO_PATTERN)`: index 0 tries both alternatives, every later index only the second. */
  function PropNoMatch(s: string): Option<BillParts> {
    if PropLsMatch(s).Some? then PropLsMatch(s)
    else match FirstMatch(OtPrpAt, s, 0)
      case Some(h) => Some(BillParts(h.groups[3].value, h.groups[4].value))
      case None => None
  }

  // ---------------------------------------------------------------------------
  // 5.-8. NOU_PATTERN, PROP_SE_PATTERN, SOU_PATTERN, DS_PATTERN

  /** `^NAME\s+(\d{4}:\d+)`, for NOU, SOU and Ds. */
  function SeriesMatch(s: string, name: string): Option<string> {
    if LitAtCI(s, 0, name) && SpaceRun(s, |name|) > |name| then
      var a := SpaceRun(s, |name|);
      match YearNumberEnd(s, a)
      case Some(e) => Some(s[a..e])
      case None => None
    else None
  }

  /** `^Prop\.\s*(\d{4}\/\d{2}:\d+)` */
  function PropSeMatch(s: string): Option<string> {
    if LitAtCI(s, 0, "prop.") then
      var a := SpaceRun(s, 5);
      if DigitsAt(s, a, 4) && CharAt(s, a + 4, '/') && DigitsAt(s, a + 5, 2) && CharAt(s, a + 7, ':')
         && DigitRun(s, a + 8) > a + 8
      then Some(s[a..DigitRun(s, a + 8)])
      else None
    else None
  }

  // ---------------------------------------------------------------------------
  // 9. CASE_NJA_PATTERN, CASE_HFD_PATTERN, CASE_GENERIC_PATTERN, tried in this order

  /** A reporter name and the year and page after it. */
  datatype CaseParts = CaseParts(name: string, year: string, page: string)

  function ReporterAt(s: string, name: string, connector: Connector): Option<CaseParts> {
    if LitAtCI(s, 0, name) then
      match YearConnectorPage(s, |name|, connector, true)
      case Some(yp) => Some(CaseParts(s[..|name|], yp.year, yp.page))
      case None => None
    else None
  }

  /** `/^(AD|MD|MIG)\s+(\d{4})\s+(?:nr|ref\.?)\s*(\d+)/i` */
  function GenericCaseMatch(s: string): Option<CaseParts> {
    if LitAtCI(s, 0, "ad") then ReporterAt(s, "ad", NrOrRef)
    else if LitAtCI(s, 0, "md") then ReporterAt(s, "md", NrOrRef)
    else ReporterAt(s, "mig", NrOrRef)
  }

  /** The loop over the three legacy case-law patterns: the first that matches. */
  function LegacyCaseMatch(s: string): Option<CaseParts> {
    var nja := ReporterAt(s, "nja", SDot);
    var hfd := ReporterAt(s, "hfd", RefDot);
    if nja.Some? then nja else if hfd.Some? then hfd else GenericCaseMatch(s)
  }

  // ---------------------------------------------------------------------------
  // 10. SFS_SHORT_PATTERN = /^(?:SFS\s+)?(\d{4}:\d+)\s+(\d+):(\d+\s*[a-z]?)\s*$/i

  /** An SFS number with optional chapter and section groups. */
  datatype SfsParts = SfsParts(id: string, pinpoint: Pinpoint)

  /** `(\d+):(\d+\s*[a-z]?)\s*$` at `e`: the chapter and section of the short form. */
  function ChapterColonSection(s: string, e: nat): (r: Option<Pinpoint>)
    requires e <= |s|
    ensures r.Some? ==> PinpointShape(r.value) && r.value.chapter.Some? && r.value.section.Some?
  {
    var f := DigitRun(s, e);
    if f > e && CharAt(s, f, ':') then
      match SectionGroupEnd(s, f + 1)
      case Some(g) =>
        SectionGroupSlice(s, f + 1, g);
        if SpaceRun(s, g) == |s| then Some(Pinpoint(Some(s[e..f]), Some(s[f + 1..g]))) else None
      case None => None
    else None
  }

  function SfsShortMatch(s: string): (r: Option<SfsParts>)
    ensures r.Some? ==> PinpointShape(r.value.pinpoint)
  {
    var p := SfsPrefixEnd(s);
    match YearNumberEnd(s, p)
    case None => None
    case Some(d) =>
      var e := SpaceRun(s, d);
      if e > d then
        match ChapterColonSection(s, e)
        case Some(pin) => Some(SfsParts(s[p..d], pin))
        case None => None
      else None
  }

  // ---------------------------------------------------------------------------
  // 11. SFS_PATTERN = /^(?:SFS\s+)?(\d{4}:\d+)\s*(?:(\d+)\s*kap\.\s*)?(?:(\d+\s*[a-z]?)\s*§)?/i

  /** `(\d+)\s*kap\.\s*` at `i`. */
  function SfsChapterAt(s: string, i: nat): (r: Option<Capture>)
    requires i <= |s|
    ensures r.Some? ==> i < r.value.end <= |s| && |r.value.text| > 0 && AllDigits(r.value.text)
  {
    var c := DigitRun(s, i);
    var k := SpaceRun(s, c);
    if c > i && LitAtCI(s, k, "kap.") then Some(Capture(s[i..c], SpaceRun(s, k + 4))) else None
  }

  /** `(\d+\s*[a-z]?)\s*§` at `i`: the section group. */
  function SfsSectionAt(s: string, i: nat): (r: Option<string>)
    requires i <= |s|
    ensures r.Some? ==> IsSectionGroup(r.value)
  {
    match SectionGroupEnd(s, i)
    case Some(e) => SectionGroupSlice(s, i, e); if CharAt(s, SpaceRun(s, e), '§') then Some(s[i..e]) else None
    case None => None
  }

  function SfsMatch(s: string): (r: Option<SfsParts>)
    ensures r.Some? ==> PinpointShape(r.value.pinpoint)
  {
    var p := SfsPrefixEnd(s);
    match YearNumberEnd(s, p)
    case None => None
    case Some(d) =>
      var w := SpaceRun(s, d);
      var ch := SfsChapterAt(s, w);
      var next := if ch.Some? then ch.value.end else w;
      Some(SfsParts(s[p..d], Pinpoint(if ch.Some? then Some(ch.value.text) else None, SfsSectionAt(s, next))))
  }

  // ---------------------------------------------------------------------------
  // parseCitation

  /** `if (m[k]) result.x = m[k]`: an optional group that is set and non-empty. */
  function IfSet(o: Option<string>): Option<string> {
    if o.Some? && o.value != "" then o else None
  }

  /** `.replace(/\s+/g, ' ').trim()` of an optional group. */
  function NormalizedGroup(o: Option<string>): Option<string> {
    if o.Some? && o.value != "" then Some(Normalize(o.value)) else None
  }

  function Valid(raw: string, docType: DocumentType, id: string, chapter: Option<string>,
                 section: Option<string>, page: Option<string>): ParsedCitation {
    ParsedCitation(raw, docType, id, chapter, section, page, true, None)
  }

  function Invalid(raw: string, error: string): ParsedCitation {
    ParsedCitation(raw, Statute, "", None, None, None, false, Some(error))
  }

  /** The error for an input no rule recognises. */
  function UnrecognizedError(trimmed: string): string {
    "Unrecognized citation format: \"" + trimmed + "\""
  }

  /** An accepted citation: valid, no error, and the untrimmed input as `raw`. */
  predicate Accepted(r: Option<ParsedCitation>, raw: string, docType: DocumentType) {
    r.Some? ==> r.value.raw == raw && r.value.valid && r.value.error.None? && r.value.docType == docType
  }

  /** 1. Norwegian LOV id with optional chapter and section pinpoints. */
  function LovRule(raw: string, t: string): (r: Option<ParsedCitation>)
    ensures Accepted(r, raw, Statute) && (r.Some? <==> LovMatch(t).Some?)
  {
    match LovMatch(t)
    case Some(m) =>
      Some(Valid(raw, Statute, Upper(m.id), IfSet(m.pinpoint.chapter), NormalizedGroup(m.pinpoint.section), None))
    case None => None
  }

  /** 2. Norwegian docket. */
  function HrRule(raw: string, t: string): (r: Option<ParsedCitation>)
    ensures Accepted(r, raw, CaseLaw) && (r.Some? <==> HrMatch(t).Some?)
    ensures r.Some? ==> r.value.chapter.None? && r.value.section.None?
  {
    match HrMatch(t)
    case Some(id) => Some(Valid(raw, CaseLaw, id, None, None, None))
    case None => None
  }

  /** 3. Norsk Retstidende. */
  function RtRule(raw: string, t: string): (r: Option<ParsedCitation>)
    ensures Accepted(r, raw, CaseLaw) && (r.Some? <==> RtMatch(t).Some?)
    ensures r.Some? ==> r.value.chapter.None? && r.value.section.None?
  {
    match RtMatch(t)
    case Some(yp) => Some(Valid(raw, CaseLaw, "Rt. " + yp.year, None, None, Some(yp.page)))
    case None => None
  }

  /** 4. Norwegian proposition, new or old style. */
  function PropNoRule(raw: string, t: string): (r: Option<ParsedCitation>)
    ensures Accepted(r, raw, Bill) && (r.Some? <==> PropNoMatch(t).Some?)
    ensures r.Some? ==> r.value.chapter.None? && r.value.section.None?
  {
    match PropNoMatch(t)
    case Some(b) => Some(Valid(raw, Bill, "Prop." + b.number + " (" + b.session + ")", None, None, None))
    case None => None
  }

  /** 5., 7. and 8.: NOU, SOU and Ds, whose id is the `YYYY:N` group. */
  function SeriesRule(raw: string, t: string, name: string, docType: DocumentType): (r: Option<ParsedCitation>)
    ensures Accepted(r, raw, docType) && (r.Some? <==> SeriesMatch(t, name).Some?)
    ensures r.Some? ==> r.value.chapter.None? && r.value.section.None?
  {
    match SeriesMatch(t, name)
    case Some(id) => Some(Valid(raw, docType, id, None, None, None))
    case None => None
  }

  /** 6. Swedish proposition. */
  function PropSeRule(raw: string, t: string): (r: Option<ParsedCitation>)
    ensures Accepted(r, raw, Bill) && (r.Some? <==> PropSeMatch(t).Some?)
    ensures r.Some? ==> r.value.chapter.None? && r.value.section.None?
  {
    match PropSeMatch(t)
    case Some(id) => Some(Valid(raw, Bill, id, None, None, None))
    case None => None
  }

  /** 9. Swedish case-law reporters. */
  function LegacyCaseRule(raw: string, t: string): (r: Option<ParsedCitation>)
    ensures Accepted(r, raw, CaseLaw) && (r.Some? <==> LegacyCaseMatch(t).Some?)
    ensures r.Some? ==> r.value.chapter.None? && r.value.section.None?
  {
    match LegacyCaseMatch(t)
    case Some(c) => Some(Valid(raw, CaseLaw, Upper(c.name) + " " + c.year, None, None, Some(c.page)))
    case None => None
  }

  /** 10. SFS short form `YYYY:N C:S`. */
  function SfsShortRule(raw: string, t: string): (r: Option<ParsedCitation>)
    ensures Accepted(r, raw, Statute) && (r.Some? <==> SfsShortMatch(t).Some?)
  {
    match SfsShortMatch(t)
    case Some(m) => Some(Valid(raw, Statute, m.id, m.pinpoint.chapter, NormalizedGroup(m.pinpoint.section), None))
    case None => None
  }

  /** 11. SFS long form. */
  function SfsRule(raw: string, t: string): (r: Option<ParsedCitation>)
    ensures Accepted(r, raw, Statute) && (r.Some? <==> SfsMatch(t).Some?)
  {
    match SfsMatch(t)
    case Some(m) => Some(Valid(raw, Statute, m.id, IfSet(m.pinpoint.chapter), NormalizedGroup(m.pinpoint.section), None))
    case None => None
  }

  /** What each of the eleven rules makes of the trimmed input. */
  datatype RuleResults = RuleResults(
    lov: Option<ParsedCitation>, hr: Option<ParsedCitation>, rt: Option<ParsedCitation>,
    propNo: Option<ParsedCitation>, nou: Option<ParsedCitation>, propSe: Option<ParsedCitation>,
    sou: Option<ParsedCitation>, ds: Option<ParsedCitation>, legacyCase: Option<ParsedCitation>,
    sfsShort: Option<ParsedCitation>, sfs: Option<ParsedCitation>)

  function RulesOn(raw: string, t: string): RuleResults {
    RuleResults(LovRule(raw, t), HrRule(raw, t), RtRule(raw, t), PropNoRule(raw, t), SeriesRule(raw, t, "nou", Sou),
                PropSeRule(raw, t), SeriesRule(raw, t, "sou", Sou), SeriesRule(raw, t, "ds", Ds),
                LegacyCaseRule(raw, t), SfsShortRule(raw, t), SfsRule(raw, t))
  }

  /** The early returns: the first rule, in source order, that matched, or `otherwise`. */
  function First(m: RuleResults, otherwise: ParsedCitation): ParsedCitation {
    if m.lov.Some? then m.lov.value
    else if m.hr.Some? then m.hr.value
    else if m.rt.Some? then m.rt.value
    else if m.propNo.Some? then m.propNo.value
    else if m.nou.Some? then m.nou.value
    else if m.propSe.Some? then m.propSe.value
    else if m.sou.Some? then m.sou.value
    else if m.ds.Some? then m.ds.value
    else if m.legacyCase.Some? then m.legacyCase.value
    else if m.sfsShort.Some? then m.sfsShort.value
    else if m.sfs.Some? then m.sfs.value
    else otherwise
  }

  /** The rules in order on the non-empty trimmed input; no match is the "Unrecognized" error. */
  function ParseTrimmed(raw: string, t: string): ParsedCitation {
    First(RulesOn(raw, t), Invalid(raw, UnrecognizedError(t)))
  }

  /** `parseCitation` */
  function ParseCitation(citation: string): ParsedCitation {
    var trimmed := Trim(citation);
    if trimmed == "" then Invalid(citation, "Empty citation") else ParseTrimmed(citation, trimmed)
  }

  // ---------------------------------------------------------------------------
  // detectDocumentType

  /** `/^(?:hr|la|lb|le|ting)-\d{4}-/i` */
  predicate CourtYearDash(t: string) {
    CourtEnd(t).Some? && CharAt(t, CourtEnd(t).value, '-') && DigitsAt(t, CourtEnd(t).value + 1, 4)
    && CharAt(t, CourtEnd(t).value + 5, '-')
  }

  /** `/^rt\.\s*\d{4}/i` */
  predicate RtYear(t: string) {
    LitAtCI(t, 0, "rt.") && DigitsAt(t, SpaceRun(t, 3), 4)
  }

  /** `detectDocumentType` */
  function DetectDocumentType(citation: string): Option<DocumentType> {
    DetectTrimmed(Trim(citation))
  }

  /** The nine tests of `detectDocumentType`, in order, on the trimmed input. */
  function DetectTrimmed(t: string): Option<DocumentType> {
    if LovDateAt(t, LovPrefixEnd(t)) then Some(Statute)
    else if CourtYearDash(t) then Some(CaseLaw)
    else if RtYear(t) then Some(CaseLaw)
    else if LitAtCI(t, 0, "prop") || LitAtCI(t, 0, "ot.prp") then Some(Bill)
    else if NameThenSpace(t, "nou") then Some(Sou)
    else if NameThenSpace(t, "sou") then Some(Sou)
    else if NameThenSpace(t, "ds") then Some(Ds)
    else if NameThenSpace(t, "nja") || NameThenSpace(t, "hfd") || NameThenSpace(t, "ad")
         || NameThenSpace(t, "md") || NameThenSpace(t, "mig") then Some(CaseLaw)
    else if YearNumberEnd(t, SfsPrefixEnd(t)).Some? then Some(Statute)
    else None
  }

  // ---------------------------------------------------------------------------
  // Properties of parseCitation

  /** Every rule that matched accepted the input under the given `raw`. */
  predicate AllAccept(m: RuleResults, raw: string) {
    && Accepted(m.lov, raw, Statute) && Accepted(m.hr, raw, CaseLaw) && Accepted(m.rt, raw, CaseLaw)
    && Accepted(m.propNo, raw, Bill) && Accepted(m.nou, raw, Sou) && Accepted(m.propSe, raw, Bill)
    && Accepted(m.sou, raw, Sou) && Accepted(m.ds, raw, Ds) && Accepted(m.legacyCase, raw, CaseLaw)
    && Accepted(m.sfsShort, raw, Statute) && Accepted(m.sfs, raw, Statute)
  }

  lemma FirstAccepted(m: RuleResults, otherwise: ParsedCitation, raw: string)
    requires AllAccept(m, raw)
    ensures var r := First(m, otherwise); r == otherwise || (r.raw == raw && r.valid && r.error.None?)
  {
  }

  /** The rules either accept, with no error, or fall through to the "Unrecognized" error. */
  lemma ParseTrimmedCases(raw: string, t: string)
    ensures var r := ParseTrimmed(raw, t);
      r.raw == raw && (r.valid ==> r.error.None?) && (!r.valid ==> r == Invalid(raw, UnrecognizedError(t)))
  {
    FirstAccepted(RulesOn(raw, t), Invalid(raw, UnrecognizedError(t)), raw);
  }

  lemma UnrecognizedNamesInput(t: string)
    ensures Contains(UnrecognizedError(t), t)
  {
    var head := "Unrecognized citation format: \"";
    assert UnrecognizedError(t) == head + t + "\"";
    assert UnrecognizedError(t)[|head|..|head| + |t|] == t;
    ContainsAt(UnrecognizedError(t), t, |head|);
  }

  /** Whitespace-only input, and nothing else, gives the "Empty citation" result. */
  lemma EmptyCitation(c: string)
    ensures AllSpace(c) ==> ParseCitation(c) == Invalid(c, "Empty citation")
    ensures ParseCitation(c).error == Some("Empty citation") <==> AllSpace(c)
  {
    var t := Trim(c);
    if t != "" {
      ParseTrimmedCases(c, t);
      assert UnrecognizedError(t)[0] == 'U';
    }
  }

  /** Every result keeps the untrimmed input; a rejected one has an empty id and an error naming the trimmed input. */
  lemma ResultShape(c: string)
    ensures ParseCitation(c).raw == c
    ensures ParseCitation(c).valid <==> ParseCitation(c).error.None?
    ensures !ParseCitation(c).valid ==>
      ParseCitation(c).documentId == "" && Contains(ParseCitation(c).error.value, Trim(c))
  {
    var t := Trim(c);
    if t == "" {
      ContainsAt("Empty citation", t, 0);
    } else {
      ParseTrimmedCases(c, t);
      UnrecognizedNamesInput(t);
    }
  }

  /** Group 1 of `LOV_PATTERN` is a LOV date id with an optional alphanumeric suffix. */
  predicate IsLovId(id: string) {
    && LovDateAt(id, 0)
    && (|id| == 14 || (|id| > 15 && id[14] == '-' && forall k :: 15 <= k < |id| ==> IsAsciiAlnum(id[k])))
  }

  /** A section pinpoint as the parser leaves it: digits, then optionally one letter, directly or after one space. */
  predicate IsSectionText(x: string) {
    var d := DigitRun(x, 0);
    && d > 0
    && (|| d == |x|
        || (d + 1 == |x| && IsAsciiLetter(x[d]))
        || (d + 2 == |x| && x[d] == ' ' && IsAsciiLetter(x[d + 1])))
  }

  /** A section group, whitespace-collapsed and trimmed, is a section pinpoint with the same digits. */
  lemma GroupNormalizes(g: string)
    requires IsSectionGroup(g)
    ensures IsSectionText(Normalize(g))
    ensures DigitRun(Normalize(g), 0) == DigitRun(g, 0) && Normalize(g)[..DigitRun(g, 0)] == g[..DigitRun(g, 0)]
  {
    var d := DigitRun(g, 0);
    var w := SpaceRun(g, d);
    assert g == g[..d] + g[d..w] + g[w..];
    PartsNormalize(g[..d], g[d..w], g[w..]);
  }

  lemma PartsNormalize(D: string, W: string, L: string)
    requires |D| > 0 && AllDigits(D) && AllSpace(W)
    requires |L| <= 1 && (|L| == 1 ==> IsAsciiLetter(L[0]))
    ensures var x := Normalize(D + W + L);
      IsSectionText(x) && DigitRun(x, 0) == |D| && x[..|D|] == D
  {
    NormalizeGroupParts(D, W, L);
    var x := Normalize(D + W + L);
    var d := |D|;
    if L == [] {
      assert x == D;
      DigitRunExact(x, 0, d);
    } else {
      var sep := if W == [] then "" else " ";
      assert x == D + sep + L;
      assert x[..d] == D;
      assert !IsDigit(x[d]);
      DigitRunExact(x, 0, d);
    }
  }

  /** The LOV rule's id is a LOV id, and its pinpoints have the shapes their groups allow. */
  lemma LovMatchShape(s: string)
    requires LovMatch(s).Some?
    ensures IsLovId(LovMatch(s).value.id) && PinpointShape(LovMatch(s).value.pinpoint)
  {
    var p := LovPrefixEnd(s);
    var q := p + 14;
    var id := LovMatch(s).value.id;
    if CharAt(s, q, '-') && Span(s, q + 1, IsAsciiAlnum) > q + 1 {
      LovIdSlice(s, p, LovMatch(s).value.idEnd);
    } else {
      LovIdSlice(s, p, q);
    }
  }

  lemma LovIdSlice(s: string, p: nat, n: nat)
    requires LovDateAt(s, p) && p + 14 <= n <= |s|
    requires n == p + 14 || (n > p + 15 && s[p + 14] == '-' && forall k :: p + 15 <= k < n ==> IsAsciiAlnum(s[k]))
    ensures IsLovId(s[p..n])
  {
    var id := s[p..n];
    assert forall k :: 0 <= k < |id| ==> id[k] == s[p + k];
  }

  /** A section pinpoint ending the input is one whole section group. */
  lemma SectionTextGroupEnd(s: string, i: nat)
    requires i <= |s| && IsSectionText(s[i..])
    ensures SectionGroupEnd(s, i) == Some(|s|)
  {
    var x := s[i..];
    var dx := DigitRun(x, 0);
    assert forall k :: i <= k < |s| ==> s[k] == x[k - i];
    DigitRunExact(s, i, i + dx);
    if dx == |x| {
      SpaceRunExact(s, |s|, |s|);
    } else if dx + 1 == |x| {
      SpaceRunExact(s, i + dx, i + dx);
    } else {
      SpaceRunExact(s, i + dx, i + dx + 1);
    }
  }

  /** ` § S` closing the input is a section pinpoint with no chapter. */
  lemma LovTailSection(s: string, j: nat)
    requires j + 3 <= |s| && s[j] == ' ' && s[j + 1] == '§' && s[j + 2] == ' ' && IsSectionText(s[j + 3..])
    ensures LovTail(s, j) == Some(Pinpoint(None, Some(s[j + 3..])))
  {
    assert s[j + 3] == s[j + 3..][0];
    SpaceRunExact(s, j, j + 1);
    NoChapterAtSectionSign(s, j + 1);
    SpaceRunExact(s, j + 2, j + 3);
    SectionTextGroupEnd(s, j + 3);
    SpaceRunExact(s, |s|, |s|);
    assert s[j + 3..|s|] == s[j + 3..];
  }

  /** No chapter word starts at a `§`. */
  lemma NoChapterAtSectionSign(s: string, i: nat)
    requires i < |s| && s[i] == '§'
    ensures ChapterPartAt(s, i).None?
  {
    NotLitAtCI(s, i, "kapittel");
    NotLitAtCI(s, i, "kap");
    assert ChapterWordEnd(s, i).None?;
  }

  /** A LOV id followed by a character outside the id alphabet: where group 1 starts and ends. */
  lemma LovIdThenStop(c: string, n: nat)
    requires n < |c| && IsLovId(c[..n]) && c[n] == ' '
    ensures LovPrefixEnd(c) == 0 && LovDateAt(c, 0)
    ensures n == 14 || (CharAt(c, 14, '-') && Span(c, 15, IsAsciiAlnum) == n)
  {
    var id := c[..n];
    assert forall k :: 0 <= k < n ==> c[k] == id[k];
    assert ToLowerChar(id[0 + 3]) == "lov-"[3];
    SpaceRunExact(c, 3, 3);
    if n > 14 {
      assert !IsAsciiAlnum(c[n]);
      assert forall k :: 15 <= k < n ==> IsAsciiAlnum(c[k]);
    }
  }

  /** `id § S` matches `LOV_PATTERN` with group 1 the whole id and S as the section. */
  lemma LovShortFormMatch(id: string, sec: string)
    requires IsLovId(id) && IsSectionText(sec)
    ensures LovMatch(id + " § " + sec) == Some(LovParts(id, |id|, Pinpoint(None, Some(sec))))
  {
    var c := id + " § " + sec;
    var n := |id|;
    ShortFormLayout(id, sec, c);
    LovIdThenStop(c, n);
    LovTailSection(c, n);
  }

  lemma ShortFormLayout(id: string, sec: string, c: string)
    requires c == id + " § " + sec
    ensures var n := |id|;
      && n + 3 <= |c| && c[..n] == id && c[0..n] == id
      && c[n] == ' ' && c[n + 1] == '§' && c[n + 2] == ' ' && c[n + 3..] == sec
  {
    var n := |id|;
    assert c[..n] == id && c[0..n] == id;
    assert c[n + 3..] == sec;
  }

  /** A section pinpoint is already whitespace-normalised. */
  lemma SectionTextNormalized(x: string)
    requires IsSectionText(x)
    ensures IsNormalized(x)
  {
    var d := DigitRun(x, 0);
    assert forall k :: 0 <= k < d ==> IsDigit(x[k]);
  }

  /** The first rule decides whenever `LOV_PATTERN` matches. */
  lemma ParsedAsLov(raw: string, t: string)
    requires LovMatch(t).Some?
    ensures ParseTrimmed(raw, t) == LovRule(raw, t).value
  {
  }

  /** An input with no whitespace at either end goes to the rules as it is. */
  lemma ParseUntrimmed(c: string)
    requires c != [] && !IsSpace(c[0]) && !IsSpace(c[|c| - 1])
    ensures ParseCitation(c) == ParseTrimmed(c, c) && DetectDocumentType(c) == DetectTrimmed(c)
  {
    TrimKeepsTrimmed(c);
  }

  /**
   * `id § S`, for a LOV id and a section pinpoint, parses as that statute with
   * the id upper-cased, the section unchanged and no chapter.
   */
  lemma LovShortFormParses(id: string, sec: string)
    requires IsLovId(id) && IsSectionText(sec)
    ensures var c := id + " § " + sec; ParseCitation(c) == Valid(c, Statute, Upper(id), None, Some(sec), None)
  {
    var c := id + " § " + sec;
    assert c[0] == id[0] && c[|c| - 1] == sec[|sec| - 1];
    assert ToLowerChar(id[0 + 0]) == "lov-"[0];
    ParseUntrimmed(c);
    LovShortFormMatch(id, sec);
    SectionTextNormalized(sec);
    NormalizeIdempotent(sec);
    ParsedAsLov(c, c);
  }

  lemma ExampleLovId(id: string)
    requires id == "LOV-2018-06-15-38"
    ensures IsLovId(id) && Upper(id) == id
  {
    assert id[0] == 'L' && id[1] == 'O' && id[2] == 'V' && id[3] == '-' && id[8] == '-' && id[11] == '-';
    assert id[14] == '-' && IsDigit(id[15]) && IsDigit(id[16]);
    assert DigitsAt(id, 4, 4) && DigitsAt(id, 9, 2) && DigitsAt(id, 12, 2);
    assert LitAtCI(id, 0, "lov-");
    UpperOfNoLower(id);
  }

  /** The worked example: the LOV id of 15 June 2018 no. 38, the section sign and section five. */
  lemma LovSectionExample(c: string)
    requires c == "LOV-2018-06-15-38 " + SectionSign + " 5"
    ensures ParseCitation(c) == Valid(c, Statute, "LOV-2018-06-15-38", None, Some("5"), None)
  {
    var id := "LOV-2018-06-15-38";
    ExampleLovId(id);
    assert DigitRun("5", 0) == 1;
    assert c == id + " § " + "5";
    LovShortFormParses(id, "5");
  }

  /** `P` holds of a rule's result whenever the rule matched. */
  predicate Holds(o: Option<ParsedCitation>, P: ParsedCitation -> bool) {
    o.Some? ==> P(o.value)
  }

  predicate AllHold(m: RuleResults, P: ParsedCitation -> bool) {
    && Holds(m.lov, P) && Holds(m.hr, P) && Holds(m.rt, P) && Holds(m.propNo, P) && Holds(m.nou, P)
    && Holds(m.propSe, P) && Holds(m.sou, P) && Holds(m.ds, P) && Holds(m.legacyCase, P)
    && Holds(m.sfsShort, P) && Holds(m.sfs, P)
  }

  /** A property of every rule's result and of the fallback is a property of the first-match selection. */
  lemma FirstSatisfies(m: RuleResults, otherwise: ParsedCitation, P: ParsedCitation -> bool)
    requires AllHold(m, P) && P(otherwise)
    ensures P(First(m, otherwise))
  {
  }

  /** Pinpoints as the parser returns them. */
  predicate PinpointsOk(r: ParsedCitation) {
    && (r.section.Some? ==> IsNormalized(r.section.value) && IsSectionText(r.section.value))
    && (r.chapter.Some? ==> |r.chapter.value| > 0 && AllDigits(r.chapter.value))
  }

  lemma NormalizedGroupOk(o: Option<string>)
    requires o.Some? ==> IsSectionGroup(o.value)
    ensures NormalizedGroup(o).Some? <==> o.Some?
    ensures NormalizedGroup(o).Some? ==> IsNormalized(NormalizedGroup(o).value) && IsSectionText(NormalizedGroup(o).value)
  {
    if o.Some? {
      GroupNormalizes(o.value);
    }
  }

  lemma LovRulePinpoints(raw: string, t: string)
    ensures Holds(LovRule(raw, t), PinpointsOk)
  {
    if LovMatch(t).Some? {
      LovMatchShape(t);
      NormalizedGroupOk(LovMatch(t).value.pinpoint.section);
    }
  }

  lemma SfsRulesPinpoints(raw: string, t: string)
    ensures Holds(SfsShortRule(raw, t), PinpointsOk) && Holds(SfsRule(raw, t), PinpointsOk)
  {
    if SfsShortMatch(t).Some? {
      NormalizedGroupOk(SfsShortMatch(t).value.pinpoint.section);
    }
    if SfsMatch(t).Some? {
      NormalizedGroupOk(SfsMatch(t).value.pinpoint.section);
    }
  }

  lemma RulesPinpointsOk(raw: string, t: string)
    ensures AllHold(RulesOn(raw, t), PinpointsOk)
  {
    LovRulePinpoints(raw, t);
    SfsRulesPinpoints(raw, t);
  }

  /**
   * Every chapter the parser returns is a digit string, and every section is
   * whitespace-collapsed and trimmed: digits, then at most one letter, directly
   * or after one space.
   */
  lemma PinpointsNormalized(c: string)
    ensures PinpointsOk(ParseCitation(c))
  {
    var t := Trim(c);
    if t != "" {
      RulesPinpointsOk(c, t);
      FirstSatisfies(RulesOn(c, t), Invalid(c, UnrecognizedError(t)), PinpointsOk);
    }
  }

  // ---------------------------------------------------------------------------
  // detectDocumentType against parseCitation

  /** The first two characters of `t`, compared as the `i` flag compares letters. */
  predicate Begins(t: string, a: char, b: char) {
    |t| >= 2 && ToLowerChar(t[0]) == a && ToLowerChar(t[1]) == b
  }

  lemma LitBegins(t: string, lit: string)
    requires |lit| >= 2 && LitAtCI(t, 0, lit)
    ensures Begins(t, lit[0], lit[1])
  {
    assert ToLowerChar(t[0 + 0]) == lit[0];
    assert ToLowerChar(t[0 + 1]) == lit[1];
  }

  /** A digit is not a letter under any case mapping. */
  predicate DigitFirst(t: string) {
    |t| > 0 && IsDigit(t[0]) && ToLowerChar(t[0]) == t[0]
  }

  lemma LovBegins(t: string)
    requires LovMatch(t).Some? || LovDateAt(t, LovPrefixEnd(t))
    ensures Begins(t, 'l', 'o')
  {
    if LovPrefixEnd(t) > 0 { LitBegins(t, "lov"); } else { LitBegins(t, "lov-"); }
  }

  lemma CourtBegins(t: string)
    requires HrMatch(t).Some? || CourtYearDash(t)
    ensures Begins(t, 'h', 'r') || Begins(t, 'l', 'a') || Begins(t, 'l', 'b') || Begins(t, 'l', 'e')
            || Begins(t, 't', 'i')
  {
    if LitAtCI(t, 0, "hr") { LitBegins(t, "hr"); }
    else if LitAtCI(t, 0, "la") { LitBegins(t, "la"); }
    else if LitAtCI(t, 0, "lb") { LitBegins(t, "lb"); }
    else if LitAtCI(t, 0, "le") { LitBegins(t, "le"); }
    else { LitBegins(t, "ting"); }
  }

  lemma CaseBegins(t: string)
    requires LegacyCaseMatch(t).Some?
    ensures Begins(t, 'n', 'j') || Begins(t, 'h', 'f') || Begins(t, 'a', 'd') || Begins(t, 'm', 'd')
            || Begins(t, 'm', 'i')
    ensures NameThenSpace(t, "nja") || NameThenSpace(t, "hfd") || NameThenSpace(t, "ad")
            || NameThenSpace(t, "md") || NameThenSpace(t, "mig")
  {
    if ReporterAt(t, "nja", SDot).Some? { LitBegins(t, "nja"); }
    else if ReporterAt(t, "hfd", RefDot).Some? { LitBegins(t, "hfd"); }
    else if LitAtCI(t, 0, "ad") { LitBegins(t, "ad"); }
    else if LitAtCI(t, 0, "md") { LitBegins(t, "md"); }
    else { LitBegins(t, "mig"); }
  }

  lemma SfsBegins(t: string)
    requires YearNumberEnd(t, SfsPrefixEnd(t)).Some?
    ensures Begins(t, 's', 'f') || DigitFirst(t)
  {
    if SfsPrefixEnd(t) > 0 { LitBegins(t, "sfs"); }
  }

  lemma SeriesBegins(t: string, name: string)
    requires |name| >= 2 && (SeriesMatch(t, name).Some? || NameThenSpace(t, name))
    ensures Begins(t, name[0], name[1]) && NameThenSpace(t, name)
  {
    LitBegins(t, name);
  }

  /** The `Ot.prp.` alternative matched after index 0. */
  predicate OtPrpLater(t: string) {
    FirstMatch(OtPrpAt, t, 0).Some? && FirstMatch(OtPrpAt, t, 0).value.start > 0
  }

  /** The parse result comes from the `Ot.prp.` alternative found after index 0, which `detectDocumentType` does not look for. */
  predicate ViaUnanchoredOtPrp(t: string) {
    LovMatch(t).None? && HrMatch(t).None? && RtMatch(t).None? && PropLsMatch(t).None? && OtPrpLater(t)
  }

  lemma PropNoBegins(t: string)
    requires PropNoMatch(t).Some? && !(PropLsMatch(t).None? && OtPrpLater(t))
    ensures Begins(t, 'p', 'r') || Begins(t, 'o', 't')
    ensures LitAtCI(t, 0, "prop") || LitAtCI(t, 0, "ot.prp")
  {
    if PropLsMatch(t).Some? {
      LitBegins(t, "prop");
    } else {
      OtPrpAtStart(t);
      LitBegins(t, "ot.prp");
    }
  }

  lemma OtPrpAtStart(t: string)
    requires FirstMatch(OtPrpAt, t, 0).Some? && FirstMatch(OtPrpAt, t, 0).value.start == 0
    ensures LitAtCI(t, 0, "ot.prp")
  {
    assert OtPrpAt(t, 0).Some?;
  }

  /** A case-insensitive literal also matches its prefixes. */
  lemma LitPrefix(t: string, i: nat, lit: string, n: nat)
    requires LitAtCI(t, i, lit) && n <= |lit|
    ensures LitAtCI(t, i, lit[..n])
  {
  }

  lemma DetectLov(t: string)
    requires LovMatch(t).Some?
    ensures DetectTrimmed(t) == Some(Statute)
  {
  }

  lemma DetectHr(t: string)
    requires HrMatch(t).Some?
    ensures DetectTrimmed(t) == Some(CaseLaw)
  {
    CourtBegins(t);
    if LovDateAt(t, LovPrefixEnd(t)) { LovBegins(t); }
  }

  lemma DetectRt(t: string)
    requires RtMatch(t).Some?
    ensures DetectTrimmed(t) == Some(CaseLaw)
  {
    LitBegins(t, "rt.");
    if LovDateAt(t, LovPrefixEnd(t)) { LovBegins(t); }
    if CourtYearDash(t) { CourtBegins(t); }
  }

  lemma DetectPropNo(t: string)
    requires PropNoMatch(t).Some? && !(PropLsMatch(t).None? && OtPrpLater(t))
    ensures DetectTrimmed(t) == Some(Bill)
  {
    PropNoBegins(t);
    if LovDateAt(t, LovPrefixEnd(t)) { LovBegins(t); }
    if CourtYearDash(t) { CourtBegins(t); }
    if RtYear(t) { LitBegins(t, "rt."); }
  }

  /** The tests before the series and reporter tests fail on an input that begins with `a`, `b`. */
  lemma EarlyTestsFail(t: string, a: char, b: char)
    requires Begins(t, a, b) && a != 'l' && a != 'h' && a != 't' && a != 'r' && a != 'p' && a != 'o'
    ensures !LovDateAt(t, LovPrefixEnd(t)) && !CourtYearDash(t) && !RtYear(t)
    ensures !LitAtCI(t, 0, "prop") && !LitAtCI(t, 0, "ot.prp")
  {
    if LovDateAt(t, LovPrefixEnd(t)) { LovBegins(t); }
    if CourtYearDash(t) { CourtBegins(t); }
    if RtYear(t) { LitBegins(t, "rt."); }
    if LitAtCI(t, 0, "prop") { LitBegins(t, "prop"); }
    if LitAtCI(t, 0, "ot.prp") { LitBegins(t, "ot.prp"); }
  }

  lemma DetectSeries(t: string, name: string, docType: DocumentType)
    requires (name == "nou" && docType == Sou) || (name == "sou" && docType == Sou) || (name == "ds" && docType == Ds)
    requires SeriesMatch(t, name).Some?
    ensures DetectTrimmed(t) == Some(docType)
  {
    SeriesBegins(t, name);
    EarlyTestsFail(t, name[0], name[1]);
    if NameThenSpace(t, "nou") { SeriesBegins(t, "nou"); }
    if NameThenSpace(t, "sou") { SeriesBegins(t, "sou"); }
  }

  lemma DetectPropSe(t: string)
    requires PropSeMatch(t).Some?
    ensures DetectTrimmed(t) == Some(Bill)
  {
    LitBegins(t, "prop.");
    LitPrefix(t, 0, "prop.", 4);
    assert "prop."[..4] == "prop";
    if LovDateAt(t, LovPrefixEnd(t)) { LovBegins(t); }
    if CourtYearDash(t) { CourtBegins(t); }
    if RtYear(t) { LitBegins(t, "rt."); }
  }

  lemma DetectLegacyCase(t: string)
    requires LegacyCaseMatch(t).Some?
    ensures DetectTrimmed(t) == Some(CaseLaw)
  {
    CaseBegins(t);
    assert !LovDateAt(t, LovPrefixEnd(t)) && !CourtYearDash(t) && !RtYear(t)
        && !LitAtCI(t, 0, "prop") && !LitAtCI(t, 0, "ot.prp") by {
      if LovDateAt(t, LovPrefixEnd(t)) { LovBegins(t); }
      if CourtYearDash(t) { CourtBegins(t); }
      if RtYear(t) { LitBegins(t, "rt."); }
      if LitAtCI(t, 0, "prop") { LitBegins(t, "prop"); }
      if LitAtCI(t, 0, "ot.prp") { LitBegins(t, "ot.prp"); }
    }
    if NameThenSpace(t, "nou") { SeriesBegins(t, "nou"); }
    if NameThenSpace(t, "sou") { SeriesBegins(t, "sou"); }
    if NameThenSpace(t, "ds") { SeriesBegins(t, "ds"); }
  }

  lemma DetectSfs(t: string)
    requires YearNumberEnd(t, SfsPrefixEnd(t)).Some?
    ensures DetectTrimmed(t) == Some(Statute)
  {
    SfsBegins(t);
    assert !LovDateAt(t, LovPrefixEnd(t)) && !CourtYearDash(t) && !RtYear(t)
        && !LitAtCI(t, 0, "prop") && !LitAtCI(t, 0, "ot.prp") by {
      if LovDateAt(t, LovPrefixEnd(t)) { LovBegins(t); }
      if CourtYearDash(t) { CourtBegins(t); }
      if RtYear(t) { LitBegins(t, "rt."); }
      if LitAtCI(t, 0, "prop") { LitBegins(t, "prop"); }
      if LitAtCI(t, 0, "ot.prp") { LitBegins(t, "ot.prp"); }
    }
    if NameThenSpace(t, "nou") { SeriesBegins(t, "nou"); }
    if NameThenSpace(t, "sou") { SeriesBegins(t, "sou"); }
    if NameThenSpace(t, "ds") { SeriesBegins(t, "ds"); }
    if NameThenSpace(t, "nja") { SeriesBegins(t, "nja"); }
    if NameThenSpace(t, "hfd") { SeriesBegins(t, "hfd"); }
    if NameThenSpace(t, "ad") { SeriesBegins(t, "ad"); }
    if NameThenSpace(t, "md") { SeriesBegins(t, "md"); }
    if NameThenSpace(t, "mig") { SeriesBegins(t, "mig"); }
  }

  /**
   * `detectDocumentType` names the type `parseCitation` returns for every
   * accepted input, except when the result comes from the `Ot.prp.`
   * alternative found after index 0.
   */
  lemma DetectAgrees(c: string)
    requires ParseCitation(c).valid && !ViaUnanchoredOtPrp(Trim(c))
    ensures DetectDocumentType(c) == Some(ParseCitation(c).docType)
  {
    var t := Trim(c);
    var m := RulesOn(c, t);
    if m.lov.Some? { DetectLov(t); }
    else if m.hr.Some? { DetectHr(t); }
    else if m.rt.Some? { DetectRt(t); }
    else if m.propNo.Some? { DetectPropNo(t); }
    else if m.nou.Some? { DetectSeries(t, "nou", Sou); }
    else if m.propSe.Some? { DetectPropSe(t); }
    else if m.sou.Some? { DetectSeries(t, "sou", Sou); }
    else if m.ds.Some? { DetectSeries(t, "ds", Ds); }
    else if m.legacyCase.Some? { DetectLegacyCase(t); }
    else if m.sfsShort.Some? { DetectSfs(t); }
    else if m.sfs.Some? { DetectSfs(t); }
  }

  /** The input of the counterexample below. */
  const XOtPrp: string := "x Ot.prp. 4 (2001-2002)"

  lemma XOtPrpSession()
    ensures SessionAt(XOtPrp, 11) == Some(Capture("2001-2002", 23))
  {
    var c := XOtPrp;
    assert c[11] == ' ' && c[12] == '(';
    SpaceRunExact(c, 11, 12);
    assert c[13] == '2' && c[14] == '0' && c[15] == '0' && c[16] == '1' && c[17] == '-';
    assert c[18] == '2' && c[19] == '0' && c[20] == '0' && c[21] == '2' && c[22] == ')';
    assert DigitsAt(c, 13, 4) && DigitsAt(c, 18, 4);
    assert c[13..22] == "2001-2002";
  }

  lemma XOtPrpNumber()
    ensures LitAtCI(XOtPrp, 2, "ot.prp") && SpaceRun(XOtPrp, 9) == 10 && !LitAtCI(XOtPrp, 10, "nr")
    ensures DigitRun(XOtPrp, 10) == 11 && XOtPrp[10..11] == "4" && XOtPrp[8] == '.'
  {
    var c := XOtPrp;
    assert c[2] == 'O' && c[3] == 't' && c[4] == '.' && c[5] == 'p' && c[6] == 'r' && c[7] == 'p';
    assert c[8] == '.' && c[9] == ' ' && c[10] == '4' && c[11] == ' ';
    SpaceRunExact(c, 9, 10);
    assert !LitAtCI(c, 10, "nr") by { assert "nr"[0] == 'n' && ToLowerChar(c[10 + 0]) != 'n'; }
    DigitRunExact(c, 10, 11);
  }

  lemma XOtPrpAtTwo()
    ensures OtPrpAt(XOtPrp, 2) == Some(MatchAt(21, [Some(XOtPrp[2..23]), None, None, Some("4"), Some("2001-2002")]))
  {
    XOtPrpNumber();
    XOtPrpSession();
  }

  lemma XOtPrpNotBefore()
    ensures OtPrpAt(XOtPrp, 0).None? && OtPrpAt(XOtPrp, 1).None?
  {
    var c := XOtPrp;
    assert c[0] == 'x' && c[1] == ' ' && "ot.prp"[0] == 'o';
    assert !LitAtCI(c, 0, "ot.prp") by { assert ToLowerChar(c[0 + 0]) != 'o'; }
    assert !LitAtCI(c, 1, "ot.prp") by { assert ToLowerChar(c[1 + 0]) != 'o'; }
  }

  lemma XOtPrpFirst()
    ensures FirstMatch(OtPrpAt, XOtPrp, 0) == Some(Hit(2, 23, [Some(XOtPrp[2..23]), None, None, Some("4"), Some("2001-2002")]))
  {
    XOtPrpAtTwo();
    XOtPrpNotBefore();
    assert |XOtPrp| == 23;
  }

  /** The counterexample begins with a letter no pattern begins with. */
  lemma XOtPrpEarlyNone()
    ensures LovMatch(XOtPrp).None? && HrMatch(XOtPrp).None? && RtMatch(XOtPrp).None? && PropLsMatch(XOtPrp).None?
  {
    var c := XOtPrp;
    assert ToLowerChar(c[0]) == 'x';
    if LovMatch(c).Some? { LovBegins(c); }
    if HrMatch(c).Some? { CourtBegins(c); }
    if RtMatch(c).Some? { LitBegins(c, "rt."); }
    if PropLsMatch(c).Some? { LitBegins(c, "prop"); }
  }

  lemma XOtPrpUndetected()
    ensures DetectTrimmed(XOtPrp) == None
  {
    var c := XOtPrp;
    assert ToLowerChar(c[0]) == 'x' && !IsDigit(c[0]);
    if LovDateAt(c, LovPrefixEnd(c)) { LovBegins(c); }
    if CourtYearDash(c) { CourtBegins(c); }
    if RtYear(c) { LitBegins(c, "rt."); }
    if LitAtCI(c, 0, "prop") { LitBegins(c, "prop"); }
    if LitAtCI(c, 0, "ot.prp") { LitBegins(c, "ot.prp"); }
    if NameThenSpace(c, "nou") { LitBegins(c, "nou"); }
    if NameThenSpace(c, "sou") { LitBegins(c, "sou"); }
    if NameThenSpace(c, "ds") { LitBegins(c, "ds"); }
    if NameThenSpace(c, "nja") { LitBegins(c, "nja"); }
    if NameThenSpace(c, "hfd") { LitBegins(c, "hfd"); }
    if NameThenSpace(c, "ad") { LitBegins(c, "ad"); }
    if NameThenSpace(c, "md") { LitBegins(c, "md"); }
    if NameThenSpace(c, "mig") { LitBegins(c, "mig"); }
    if YearNumberEnd(c, SfsPrefixEnd(c)).Some? { SfsBegins(c); }
  }

  lemma XOtPrpPropNo()
    ensures PropNoMatch(XOtPrp) == Some(BillParts("4", "2001-2002"))
  {
    XOtPrpFirst();
    XOtPrpEarlyNone();
  }

  /** When the first three rules fail, a `PROP_NO_PATTERN` match decides the result. */
  lemma ParsedAsPropNo(raw: string, t: string, b: BillParts)
    requires LovMatch(t).None? && HrMatch(t).None? && RtMatch(t).None? && PropNoMatch(t) == Some(b)
    ensures ParseTrimmed(raw, t) == Valid(raw, Bill, "Prop." + b.number + " (" + b.session + ")", None, None, None)
  {
    var m := RulesOn(raw, t);
    assert m.lov.None? && m.hr.None? && m.rt.None?;
  }

  lemma XOtPrpTrimmed(c: string)
    requires c == XOtPrp
    ensures ParseCitation(c) == ParseTrimmed(c, c) && DetectDocumentType(c) == DetectTrimmed(c)
  {
    TrimKeepsTrimmed(c);
  }

  lemma XOtPrpId()
    ensures "Prop." + "4" + " (" + "2001-2002" + ")" == "Prop.4 (2001-2002)"
  {
  }

  lemma XOtPrpParsed(c: string)
    requires c == XOtPrp
    ensures ParseTrimmed(c, c) == Valid(c, Bill, "Prop.4 (2001-2002)", None, None, None)
  {
    XOtPrpEarlyNone();
    XOtPrpPropNo();
    XOtPrpId();
    ParsedAsPropNo(c, c, BillParts("4", "2001-2002"));
  }

  /** An input where the two disagree: the `Ot.prp.` alternative is found at index 2. */
  lemma UnanchoredOtPrpDisagrees(c: string)
    requires c == XOtPrp
    ensures ViaUnanchoredOtPrp(c)
    ensures ParseCitation(c) == Valid(c, Bill, "Prop.4 (2001-2002)", None, None, None)
    ensures DetectDocumentType(c) == None
  {
    XOtPrpFirst();
    XOtPrpEarlyNone();
    XOtPrpTrimmed(c);
    XOtPrpParsed(c);
    XOtPrpUndetected();
  }

  /**
   * First match wins: an input that begins with "lov" is accepted only by the
   * LOV rule, or else by the `Ot.prp.` alternative found later in the input;
   * none of the legacy rules reclassifies it.
   */
  lemma LovPrefixedNotReclassified(c: string)
    requires LitAtCI(Trim(c), 0, "lov")
    ensures var t := Trim(c); var r := ParseCitation(c);
      r.valid ==> (LovMatch(t).Some? && r == LovRule(c, t).value) || (r.docType == Bill && ViaUnanchoredOtPrp(t))
  {
    var t := Trim(c);
    LitBegins(t, "lov");
    if HrMatch(t).Some? { CourtBegins(t); }
    if RtMatch(t).Some? { LitBegins(t, "rt."); }
    if PropLsMatch(t).Some? { LitBegins(t, "prop"); }
    if PropSeMatch(t).Some? { LitBegins(t, "prop."); }
    if SeriesMatch(t, "nou").Some? { SeriesBegins(t, "nou"); }
    if SeriesMatch(t, "sou").Some? { SeriesBegins(t, "sou"); }
    if SeriesMatch(t, "ds").Some? { SeriesBegins(t, "ds"); }
    if LegacyCaseMatch(t).Some? { CaseBegins(t); }
    if YearNumberEnd(t, SfsPrefixEnd(t)).Some? { SfsBegins(t); }
    if PropLsMatch(t).None? && FirstMatch(OtPrpAt, t, 0).Some? && FirstMatch(OtPrpAt, t, 0).value.start == 0 {
      OtPrpAtStart(t);
      LitBegins(t, "ot.prp");
    }
  }

  // ---------------------------------------------------------------------------
  // Dockets of the Norwegian courts

  /** The court names of `CASE_HR_PATTERN`, in any letter case. */
  predicate IsCourtName(court: string) {
    Lower(court) in {"hr", "la", "lb", "le", "ting"}
  }

  /** The court name at the start of `c` is where `CourtEnd` stops. */
  lemma CourtEndOf(c: string, n: nat)
    requires n < |c| && IsCourtName(c[..n])
    ensures CourtEnd(c) == Some(n) && !Begins(c, 'l', 'o') && !IsSpace(c[0])
  {
    var L := Lower(c[..n]);
    assert forall k :: 0 <= k < n ==> ToLowerChar(c[k]) == L[k];
    assert ToLowerChar(c[0]) == L[0] && ToLowerChar(c[1]) == L[1];
    if L == "hr" {
      assert LitAtCI(c, 0, "hr");
    } else if L == "la" {
      NotLitAtCI(c, 0, "hr");
      assert LitAtCI(c, 0, "la");
    } else if L == "lb" {
      NotLitAtCI(c, 0, "hr");
      assert !LitAtCI(c, 0, "la") by { assert ToLowerChar(c[0 + 1]) != "la"[1]; }
      assert LitAtCI(c, 0, "lb");
    } else if L == "le" {
      NotLitAtCI(c, 0, "hr");
      assert !LitAtCI(c, 0, "la") by { assert ToLowerChar(c[0 + 1]) != "la"[1]; }
      assert !LitAtCI(c, 0, "lb") by { assert ToLowerChar(c[0 + 1]) != "lb"[1]; }
      assert LitAtCI(c, 0, "le");
    } else {
      NotLitAtCI(c, 0, "hr");
      NotLitAtCI(c, 0, "la");
      NotLitAtCI(c, 0, "lb");
      NotLitAtCI(c, 0, "le");
      assert LitAtCI(c, 0, "ting");
    }
  }

  /** `COURT-YYYY-N` */
  function DocketBase(court: string, year: string, num: string): string {
    court + "-" + year + "-" + num
  }

  /** `COURT-YYYY-N`, with `-L` when `letter` is one letter. */
  function Docket(court: string, year: string, num: string, letter: string): string {
    DocketBase(court, year, num) + (if letter == "" then "" else "-" + letter)
  }

  predicate IsDocketParts(court: string, year: string, num: string, letter: string) {
    && IsCourtName(court) && |year| == 4 && AllDigits(year) && |num| > 0 && AllDigits(num)
    && (letter == "" || (|letter| == 1 && IsAsciiLetter(letter[0])))
  }

  lemma DocketBaseSlices(court: string, year: string, num: string)
    requires |year| == 4
    ensures var b := DocketBase(court, year, num); var n := |court|;
      && |b| == n + 6 + |num| && b[..n] == court && b[n] == '-' && b[n + 1..n + 5] == year && b[n + 5] == '-'
      && b[n + 6..] == num
  {
  }

  /** What `CASE_HR_PATTERN` sees in a docket up to the end of its number. */
  lemma DocketBaseAt(c: string, court: string, year: string, num: string)
    requires IsDocketParts(court, year, num, "")
    requires var b := DocketBase(court, year, num); |b| <= |c| && c[..|b|] == b && (|b| == |c| || c[|b|] == '-')
    ensures var n := |court|; var d := |DocketBase(court, year, num)|;
      && CourtEnd(c) == Some(n) && !Begins(c, 'l', 'o') && !IsSpace(c[0])
      && CharAt(c, n, '-') && DigitsAt(c, n + 1, 4) && CharAt(c, n + 5, '-') && DigitRun(c, n + 6) == d > n + 6
      && Upper(c[..n]) + "-" + c[n + 1..n + 5] + "-" + c[n + 6..d] == DocketBase(Upper(court), year, num)
  {
    var n := |court|;
    var b := DocketBase(court, year, num);
    var d := |b|;
    DocketBaseSlices(court, year, num);
    PrefixSlices(c, b);
    assert c[..n] == court && c[n + 1..n + 5] == year && c[n + 6..d] == num;
    assert c[n] == '-' && c[n + 5] == '-';
    SliceDigits(c, n + 1, n + 5);
    SliceDigits(c, n + 6, d);
    CourtEndOf(c, n);
    DigitRunExact(c, n + 6, d);
  }

  /** `CASE_HR_PATTERN` accepts a docket and normalises it, court and letter upper-cased. */
  lemma HrDocketMatch(court: string, year: string, num: string, letter: string)
    requires IsDocketParts(court, year, num, letter)
    ensures var c := Docket(court, year, num, letter);
      HrMatch(c) == Some(Docket(Upper(court), year, num, Upper(letter))) && !Begins(c, 'l', 'o') && !IsSpace(c[0])
  {
    var c := Docket(court, year, num, letter);
    var b := DocketBase(court, year, num);
    var d := |b|;
    assert c[..d] == b;
    DocketBaseAt(c, court, year, num);
    if letter == "" {
      assert c == b && Upper(letter) == "";
      assert Docket(Upper(court), year, num, "") == DocketBase(Upper(court), year, num) + "";
      assert DocketBase(Upper(court), year, num) + "" == DocketBase(Upper(court), year, num);
    } else {
      assert c[d] == '-' && c[d + 1..] == letter && d + 2 == |c| && IsAsciiLetter(c[d + 1]);
      var u := DocketBase(Upper(court), year, num);
      assert Upper(letter) != "";
      assert Docket(Upper(court), year, num, Upper(letter)) == u + ("-" + Upper(letter));
      assert u + ("-" + Upper(letter)) == u + "-" + Upper(letter);
    }
  }

  /** When the LOV rule fails, a `CASE_HR_PATTERN` match decides the result. */
  lemma ParsedAsHr(raw: string, t: string, id: string)
    requires LovMatch(t).None? && HrMatch(t) == Some(id)
    ensures ParseTrimmed(raw, t) == Valid(raw, CaseLaw, id, None, None, None)
  {
    var m := RulesOn(raw, t);
    assert m.lov.None?;
  }

  /** A docket parses as case law with the normalised docket as its id and no page. */
  lemma HrDocketParses(court: string, year: string, num: string, letter: string)
    requires IsDocketParts(court, year, num, letter)
    ensures var c := Docket(court, year, num, letter);
      ParseCitation(c) == Valid(c, CaseLaw, Docket(Upper(court), year, num, Upper(letter)), None, None, None)
  {
    var c := Docket(court, year, num, letter);
    HrDocketMatch(court, year, num, letter);
    assert c[|c| - 1] == (if letter == "" then num[|num| - 1] else letter[0]);
    TrimKeepsTrimmed(c);
    if LovMatch(c).Some? { LovBegins(c); }
    ParsedAsHr(c, c, Docket(Upper(court), year, num, Upper(letter)));
  }

  // ---------------------------------------------------------------------------
  // The two proposition shapes

  /** `\d{4}-\d{4}` */
  predicate IsSession(x: string) {
    |x| == 9 && DigitsAt(x, 0, 4) && x[4] == '-' && DigitsAt(x, 5, 4)
  }

  /** The id both proposition shapes normalise to. */
  function PropId(num: string, session: string): string {
    "Prop." + num + " (" + session + ")"
  }

  /** ` (YYYY-YYYY)` closing the input is the session. */
  lemma SessionAtEnd(s: string, i: nat, session: string)
    requires i <= |s| && s[i..] == " (" + session + ")" && IsSession(session)
    ensures SessionAt(s, i) == Some(Capture(session, |s|))
  {
    assert s[i] == ' ' && s[i + 1] == '(' && s[i + 11] == ')' && s[i + 6] == '-';
    assert |s| == i + 12;
    assert forall k :: i + 2 <= k < i + 11 ==> s[k] == session[k - i - 2];
    assert s[i + 2..i + 11] == session;
    SpaceRunExact(s, i, i + 1);
  }

  /** The number of a proposition, followed by a space: where `\d+\s*` ends. */
  lemma NumberThenSpace(s: string, i: nat, num: string)
    requires i + |num| < |s| && s[i..i + |num|] == num && |num| > 0 && AllDigits(num) && s[i + |num|] == ' '
    ensures DigitRun(s, i) == i + |num| && s[i..DigitRun(s, i)] == num && !IsSpace(s[i])
  {
    assert forall k :: i <= k < i + |num| ==> s[k] == num[k - i];
    DigitRunExact(s, i, i + |num|);
  }

  /** `Prop.N KIND (YYYY-YYYY)` with KIND one of `L`, `LS`, `S`. */
  function PropForm(num: string, kind: string, session: string): string {
    "Prop." + num + " " + kind + " (" + session + ")"
  }

  /** `Prop\.?\s*(\d+)\s*` on `Prop.N REST`. */
  lemma PropHead(c: string, num: string, rest: string)
    requires c == "Prop." + num + " " + rest && |num| > 0 && AllDigits(num) && |rest| > 0 && !IsSpace(rest[0])
    ensures var d := 5 + |num|;
      && LitAtCI(c, 0, "prop") && CharAt(c, 4, '.') && SpaceRun(c, 5) == 5 && DigitRun(c, 5) == d
      && c[5..d] == num && SpaceRun(c, d) == d + 1 && c[d + 1..] == rest
  {
    var d := 5 + |num|;
    assert c[0] == 'P' && c[1] == 'r' && c[2] == 'o' && c[3] == 'p' && c[4] == '.';
    assert c[5..d] == num && c[d] == ' ' && c[d + 1..] == rest;
    assert c[d + 1] == rest[0];
    NumberThenSpace(c, 5, num);
    SpaceRunExact(c, 5, 5);
    SpaceRunExact(c, d, d + 1);
  }

  /** What the kind alternatives `L|LS|S` and the session give at `e`. */
  lemma PropKindAt(c: string, e: nat, kind: string, session: string)
    requires e <= |c| && c[e..] == kind + " (" + session + ")" && kind in {"L", "LS", "S"} && IsSession(session)
    ensures KindThenSession(c, e) == Some(Capture(session, |c|))
  {
    var tail := " (" + session + ")";
    assert c[e] == kind[0];
    if kind == "L" {
      assert c[e + 1..] == tail;
      SessionAtEnd(c, e + 1, session);
      assert LitAtCI(c, e, "l");
    } else if kind == "LS" {
      assert c[e + 1] == 'S' && c[e + 2..] == tail;
      SpaceRunExact(c, e + 1, e + 1);
      SessionAtEnd(c, e + 2, session);
      assert LitAtCI(c, e, "l") && LitAtCI(c, e, "ls");
    } else {
      assert c[e + 1..] == tail;
      SessionAtEnd(c, e + 1, session);
      NotLitAtCI(c, e, "l");
      NotLitAtCI(c, e, "ls");
      assert LitAtCI(c, e, "s");
    }
  }

  lemma PropFormMatch(num: string, kind: string, session: string)
    requires |num| > 0 && AllDigits(num) && kind in {"L", "LS", "S"} && IsSession(session)
    ensures PropLsMatch(PropForm(num, kind, session)) == Some(BillParts(num, session))
  {
    var c := PropForm(num, kind, session);
    var rest := kind + " (" + session + ")";
    assert c == "Prop." + num + " " + rest;
    assert rest[0] == kind[0];
    PropHead(c, num, rest);
    PropKindAt(c, 6 + |num|, kind, session);
  }

  /** `Ot.prp. [nr. ]N (YYYY-YYYY)` */
  function OtPrpForm(nr: bool, num: string, session: string): string {
    "Ot.prp. " + (if nr then "nr. " else "") + num + " (" + session + ")"
  }

  /** `Ot\.prp\.?\s*` on `Ot.prp. REST`. */
  lemma OtPrpHead(c: string, rest: string)
    requires c == "Ot.prp. " + rest && |rest| > 0 && !IsSpace(rest[0])
    ensures LitAtCI(c, 0, "ot.prp") && CharAt(c, 6, '.') && SpaceRun(c, 7) == 8 && c[8..] == rest
  {
    assert c[0] == 'O' && c[1] == 't' && c[2] == '.' && c[3] == 'p' && c[4] == 'r' && c[5] == 'p';
    assert c[6] == '.' && c[7] == ' ' && c[8..] == rest && c[8] == rest[0];
    SpaceRunExact(c, 7, 8);
  }

  lemma OtPrpNumberStart(c: string, nr: bool, num: string)
    requires |num| > 0 && AllDigits(num)
    requires var pre := if nr then "nr. " else ""; (8 + |pre| + |num| <= |c| && c[8..8 + |pre| + |num|] == pre + num)
    ensures NumberStart(c, 8) == if nr then 12 else 8
  {
    if nr {
      assert c[8] == 'n' && c[9] == 'r' && c[10] == '.' && c[11] == ' ' && c[12] == num[0];
      assert LitAtCI(c, 8, "nr");
      SpaceRunExact(c, 11, 12);
    } else {
      assert c[8] == num[0];
      NotLitAtCI(c, 8, "nr");
    }
  }

  lemma OtPrpFormSlices(nr: bool, num: string, session: string)
    ensures var c := OtPrpForm(nr, num, session); var pre := if nr then "nr. " else "";
      var x := |pre| + 8; var d := x + |num|;
      && c == "Ot.prp. " + (pre + num + " (" + session + ")") && d < |c|
      && c[8..d] == pre + num && c[x..d] == num && c[d..] == " (" + session + ")"
  {
  }

  lemma OtPrpFormAt(nr: bool, num: string, session: string)
    requires |num| > 0 && AllDigits(num) && IsSession(session)
    ensures var c := OtPrpForm(nr, num, session);
      OtPrpAt(c, 0) == Some(MatchAt(|c|, [Some(c), None, None, Some(num), Some(session)]))
  {
    var c := OtPrpForm(nr, num, session);
    var pre := if nr then "nr. " else "";
    var x := |pre| + 8;
    var d := x + |num|;
    OtPrpFormSlices(nr, num, session);
    assert (pre + num + " (" + session + ")")[0] == (if nr then 'n' else num[0]);
    OtPrpHead(c, pre + num + " (" + session + ")");
    OtPrpNumberStart(c, nr, num);
    assert c[d] == ' ';
    NumberThenSpace(c, x, num);
    SessionAtEnd(c, d, session);
    assert c[0..|c|] == c && c[x..d] == num;
    assert NumberStart(c, SpaceRun(c, 7)) == x && DigitRun(c, x) == d;
  }

  lemma OtPrpFormMatch(nr: bool, num: string, session: string)
    requires |num| > 0 && AllDigits(num) && IsSession(session)
    ensures PropNoMatch(OtPrpForm(nr, num, session)) == Some(BillParts(num, session))
  {
    var c := OtPrpForm(nr, num, session);
    assert c[0] == 'O';
    NotLitAtCI(c, 0, "prop");
    OtPrpFormAt(nr, num, session);
    assert MatchesAt(OtPrpAt, c, 0);
  }

  /** A trimmed input whose first letter is `p` or `o` and that `PROP_NO_PATTERN` matches is that bill. */
  lemma ParsedAsBill(c: string, b: BillParts)
    requires |c| > 0 && ToLowerChar(c[0]) in {'p', 'o'} && c[|c| - 1] == ')' && PropNoMatch(c) == Some(b)
    ensures ParseCitation(c) == Valid(c, Bill, PropId(b.number, b.session), None, None, None)
  {
    TrimKeepsTrimmed(c);
    if LovMatch(c).Some? { LovBegins(c); }
    if HrMatch(c).Some? { CourtBegins(c); }
    if RtMatch(c).Some? { LitBegins(c, "rt."); }
    ParsedAsPropNo(c, c, b);
  }

  /** `Prop.N L (YYYY-YYYY)` and its `LS` and `S` variants parse as a bill with id `Prop.N (YYYY-YYYY)`. */
  lemma PropFormParses(num: string, kind: string, session: string)
    requires |num| > 0 && AllDigits(num) && kind in {"L", "LS", "S"} && IsSession(session)
    ensures var c := PropForm(num, kind, session); ParseCitation(c) == Valid(c, Bill, PropId(num, session), None, None, None)
  {
    var c := PropForm(num, kind, session);
    PropFormMatch(num, kind, session);
    assert c[0] == 'P' && c[|c| - 1] == ')';
    ParsedAsBill(c, BillParts(num, session));
  }

  /** `Ot.prp. [nr. ]N (YYYY-YYYY)` parses as a bill with the same id `Prop.N (YYYY-YYYY)`. */
  lemma OtPrpFormParses(nr: bool, num: string, session: string)
    requires |num| > 0 && AllDigits(num) && IsSession(session)
    ensures var c := OtPrpForm(nr, num, session); ParseCitation(c) == Valid(c, Bill, PropId(num, session), None, None, None)
  {
    var c := OtPrpForm(nr, num, session);
    OtPrpFormMatch(nr, num, session);
    assert c[0] == 'O' && c[|c| - 1] == ')';
    ParsedAsBill(c, BillParts(num, session));
  }

  // ---------------------------------------------------------------------------
  // Which rule produced a statute citation

  /** The legacy SFS ids begin with the year's first digit. */
  predicate DigitId(p: ParsedCitation) {
    |p.documentId| > 0 && IsDigit(p.documentId[0])
  }

  lemma SfsRulesDigitIds(raw: string, t: string)
    ensures Holds(SfsShortRule(raw, t), DigitId) && Holds(SfsRule(raw, t), DigitId)
  {
  }

  /** A LOV id begins with a letter, so it is no legacy SFS id. */
  lemma LovIdNotDigitId(p: ParsedCitation)
    requires IsLovId(p.documentId)
    ensures !DigitId(p)
  {
    assert ToLowerChar(p.documentId[0 + 0]) == "lov-"[0];
  }

  /** Of the three statute rules only the first gives a LOV id. */
  lemma FirstLovStatute(m: RuleResults, otherwise: ParsedCitation, raw: string)
    requires AllAccept(m, raw) && !otherwise.valid && Holds(m.sfsShort, DigitId) && Holds(m.sfs, DigitId)
    ensures var r := First(m, otherwise);
      r.valid && r.docType == Statute && IsLovId(r.documentId) ==> m.lov.Some? && r == m.lov.value
  {
    var r := First(m, otherwise);
    if r.valid && r.docType == Statute && IsLovId(r.documentId) {
      LovIdNotDigitId(r);
    }
  }

  /** An accepted statute citation with a LOV id is the LOV rule's result on the trimmed input. */
  lemma LovStatuteFromLovRule(c: string)
    requires var p := ParseCitation(c); p.valid && p.docType == Statute && IsLovId(p.documentId)
    ensures LovMatch(Trim(c)).Some? && ParseCitation(c) == LovRule(c, Trim(c)).value
  {
    var t := Trim(c);
    SfsRulesDigitIds(c, t);
    FirstLovStatute(RulesOn(c, t), Invalid(c, UnrecognizedError(t)), c);
  }

  /** Upper-casing a LOV id leaves a LOV id. */
  lemma UpperLovId(id: string)
    requires IsLovId(id)
    ensures IsLovId(Upper(id))
  {
    var u := Upper(id);
    forall k | 0 <= k < |id| ensures ToLowerChar(u[k]) == ToLowerChar(id[k]) && IsDigit(u[k]) == IsDigit(id[k])
      && IsAsciiAlnum(u[k]) == IsAsciiAlnum(id[k]) && (id[k] == '-' ==> u[k] == '-')
    {
      UpperCharKeepsLower(id[k]);
    }
    assert LitAtCI(u, 0, "lov-");
  }

  /** A statute citation with a LOV id has an upper-case id and a section pinpoint, if any, in normal form. */
  lemma LovResultShape(c: string)
    requires var p := ParseCitation(c); p.valid && p.docType == Statute && IsLovId(p.documentId)
    ensures var p := ParseCitation(c);
      Upper(p.documentId) == p.documentId && (p.section.Some? ==> IsSectionText(p.section.value))
  {
    var t := Trim(c);
    LovStatuteFromLovRule(c);
    var m := LovMatch(t).value;
    LovMatchShape(t);
    UpperIdempotent(m.id);
    if m.pinpoint.section.Some? {
      GroupNormalizes(m.pinpoint.section.value);
    }
  }
}
