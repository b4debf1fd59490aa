/**
 * The EU reference parser: directives and regulations cited in Norwegian
 * legal text ("direktiv 95/46/EF", "forordning (EU) 2016/679",
 * "Kommisjonens gjennomføringsforordning (EU) 2019/947"), each turned into a
 * structured reference with a year, a number, a community, a context window
 * and a classification of how the text refers to it.
 */
module EuReferenceParser {
  import opened Wrappers
  import opened Text
  import opened Scan

  // ---------------------------------------------------------------------------
  // Data model

  datatype ActType = Directive | Regulation

  /** The parser's communities: EU, EF, EØF (written `EOEF` here) and Euratom. */
  datatype Community = EU | EF | EOEF | Euratom

  datatype ReferenceType =
    | Implements | Supplements | Applies | References | CompliesWith | DerogatesFrom | CitesArticle

  /** `EUReference`; `None` is a property left undefined. */
  datatype EUReference = EUReference(
    actType: ActType,
    id: string,
    year: int,
    number: int,
    community: Option<Community>,
    issuingBody: Option<string>,
    article: Option<string>,
    fullText: string,
    context: string,
    referenceType: Option<ReferenceType>,
    implementationKeyword: Option<string>)

  function CommunityName(c: Community): string {
    match c
    case EU => "EU"
    case EF => "EF"
    case EOEF => "EØF"
    case Euratom => "Euratom"
  }

  /** How a template literal prints the community: `undefined` when it is not set. */
  function CommunityText(c: Option<Community>): string {
    if c.Some? then CommunityName(c.value) else "undefined"
  }

  /** The de-duplication key `ref.id + ':' + ref.community`; the act type is not part of it. */
  function RefKey(r: EUReference): string {
    r.id + ":" + CommunityText(r.community)
  }

  // ---------------------------------------------------------------------------
  // Pieces of the patterns

  /** `match[i]`: `undefined` (here `None`) past the groups the pattern has. */
  function G(groups: seq<Option<string>>, i: nat): Option<string> {
    if i < |groups| then groups[i] else None
  }

  /** A group holding a non-empty run of decimal digits. */
  predicate DigitGroup(g: Option<string>) {
    g.Some? && |g.value| > 0 && AllDigits(g.value)
  }

  predicate NotCloseParen(c: char) { c != ')' }

  /** `[A-ZÆØÅ]` under the `i` flag: an ASCII letter or one of ÆØÅæøå. */
  predicate IsCommunityLetter(c: char) {
    IsAsciiLetter(c) || c == 'Æ' || c == 'Ø' || c == 'Å' || c == 'æ' || c == 'ø' || c == 'å'
  }

  predicate IsSpaceOrHyphen(c: char) { IsSpace(c) || c == '-' }

  predicate IsArticleChar(c: char) { IsDigit(c) || c == '.' }

  /** `\(([^)]+)\)` at `i`: one past the closing parenthesis; the group is everything up to the first `)`. */
  function ParenEnd(s: string, i: nat): (r: Option<nat>)
    requires i <= |s|
    ensures r.Some? ==> i + 3 <= r.value <= |s| && s[i] == '('
  {
    if CharAt(s, i, '(') then
      var j := Span(s, i + 1, NotCloseParen);
      if j > i + 1 && CharAt(s, j, ')') then Some(j + 1) else None
    else None
  }

  /**
   * `(\d{2,4})\/(\d+)` at `i`: where the year ends (at the slash) and where
   * the number ends. A run of five or more digits cannot be cut short, since
   * only a slash may follow the year.
   */
  function YearNumberEnd(s: string, i: nat): (r: Option<(nat, nat)>)
    requires i <= |s|
    ensures r.Some? ==> i + 2 <= r.value.0 && r.value.0 + 1 < r.value.1 <= |s| && s[r.value.0] == '/'
    ensures r.Some? ==> DigitGroup(Some(s[i..r.value.0])) && DigitGroup(Some(s[r.value.0 + 1..r.value.1]))
  {
    var y := DigitRun(s, i);
    if 2 <= y - i <= 4 && CharAt(s, y, '/') then
      var n := DigitRun(s, y + 1);
      if n > y + 1 then
        DigitsSlice(s, i, y);
        DigitsSlice(s, y + 1, n);
        Some((y, n))
      else None
    else None
  }

  /** `(?:\/([A-ZÆØÅ]+))?` at `i`: where it ends, and the letters when it took part. */
  function SlashLetters(s: string, i: nat): (r: (nat, Option<string>))
    requires i <= |s|
    ensures i <= r.0 <= |s|
    ensures r.1.Some? ==> |r.1.value| > 0
  {
    if CharAt(s, i, '/') then
      var j := Span(s, i + 1, IsCommunityLetter);
      if j > i + 1 then (j, Some(s[i + 1..j])) else (i, None)
    else (i, None)
  }

  /**
   * `(?:\(([^)]+)\)\s+)?` at `i`: where the year starts and the community
   * text when the group took part. When the group matches but the year
   * after it does not, leaving the group out cannot help: the year would
   * then have to start at the parenthesis.
   */
  function OptCommunity(s: string, i: nat): (r: (nat, Option<string>))
    requires i <= |s|
    ensures i <= r.0 <= |s|
    ensures r.1.Some? ==> |r.1.value| > 0
  {
    match ParenEnd(s, i)
    case Some(p) =>
      var q := SpaceRun(s, p);
      if q > p then (q, Some(s[i + 1..p - 1])) else (i, None)
    case None => (i, None)
  }

  /** `(?:nr\.?\s+)?` at `i`: where the year starts. */
  function OptNr(s: string, i: nat): (r: nat)
    requires i <= |s|
    ensures i <= r <= |s|
  {
    if LitAtCI(s, i, "nr") then
      var j := if CharAt(s, i + 2, '.') then i + 3 else i + 2;
      var m := SpaceRun(s, j);
      if m > j then m else i
    else i
  }

  /**
   * `Europaparlaments-\s*og\s+råds|rådets?|[Kk]ommisjonens?` at `k` (under
   * the `i` flag): where the issuing body ends. The alternatives begin with
   * different letters, so at most one applies; a trailing `s` is always
   * taken, since what follows it can never begin with `s`.
   */
  function BodyEnd(s: string, k: nat): (r: Option<nat>)
    requires k <= |s|
    ensures r.Some? ==> k < r.value <= |s|
  {
    if LitAtCI(s, k, "europaparlaments-") then
      var a := SpaceRun(s, k + 17);
      if LitAtCI(s, a, "og") then
        var b := SpaceRun(s, a + 2);
        if b > a + 2 && LitAtCI(s, b, "råds") then Some(b + 4) else None
      else None
    else if LitAtCI(s, k, "rådet") then Some(if LitAtCI(s, k + 5, "s") then k + 6 else k + 5)
    else if LitAtCI(s, k, "kommisjonen") then Some(if LitAtCI(s, k + 11, "s") then k + 12 else k + 11)
    else None
  }

  /** `(?:\s+gjennomføringsforordning|\s+delegerte\s+forordning)?` after the Commission. */
  function KindSuffixEnd(s: string, e: nat): (r: nat)
    requires e <= |s|
    ensures e <= r <= |s|
  {
    var a := SpaceRun(s, e);
    if a > e && LitAtCI(s, a, "gjennomføringsforordning") then a + 24
    else if a > e && LitAtCI(s, a, "delegerte") then
      var b := SpaceRun(s, a + 9);
      if b > a + 9 && LitAtCI(s, b, "forordning") then b + 10 else e
    else e
  }

  /** `(?:direktiv|[\s-]+direktiv)` at `e`. */
  function DirektivEnd(s: string, e: nat): (r: Option<nat>)
    requires e <= |s|
    ensures r.Some? ==> e < r.value <= |s|
  {
    if LitAtCI(s, e, "direktiv") then Some(e + 8)
    else
      var f := Span(s, e, IsSpaceOrHyphen);
      if f > e && LitAtCI(s, f, "direktiv") then Some(f + 8) else None
  }

  // ---------------------------------------------------------------------------
  // The five patterns, as matches at a fixed position

  /** `/direktiv\s+\(([^)]+)\)\s+(\d{2,4})\/(\d+)/gi`: community text, year, number. */
  function DirectiveParenAt(s: string, k: nat): (r: Option<MatchAt>)
    ensures r.Some? ==> var g := r.value.groups; |g| == 4 && Truthy(g[1]) && DigitGroup(g[2]) && DigitGroup(g[3])
  {
    if k <= |s| && LitAtCI(s, k, "direktiv") then
      var a := SpaceRun(s, k + 8);
      if a > k + 8 then
        match ParenEnd(s, a)
        case None => None
        case Some(p) =>
          var q := SpaceRun(s, p);
          if q > p then
            match YearNumberEnd(s, q)
            case None => None
            case Some(yn) =>
              Some(MatchAt(yn.1 - k, [Some(s[k..yn.1]), Some(s[a + 1..p - 1]), Some(s[q..yn.0]), Some(s[yn.0 + 1..yn.1])]))
          else None
      else None
    else None
  }

  /** `/direktiv\s+(\d{2,4})\/(\d+)(?:\/([A-ZÆØÅ]+))?/gi`: year, number, community letters. */
  function DirectiveSlashAt(s: string, k: nat): (r: Option<MatchAt>)
    ensures r.Some? ==> var g := r.value.groups; |g| == 4 && DigitGroup(g[1]) && DigitGroup(g[2])
  {
    if k <= |s| && LitAtCI(s, k, "direktiv") then
      var a := SpaceRun(s, k + 8);
      if a > k + 8 then
        match YearNumberEnd(s, a)
        case None => None
        case Some(yn) =>
          var sl := SlashLetters(s, yn.1);
          Some(MatchAt(sl.0 - k, [Some(s[k..sl.0]), Some(s[a..yn.0]), Some(s[yn.0 + 1..yn.1]), sl.1]))
      else None
    else None
  }

  /**
   * `/(Europaparlaments-\s*og\s+råds|rådets?|[Kk]ommisjonens?)(?:direktiv|[\s-]+direktiv)\s+(?:\(([^)]+)\)\s+)?(\d{2,4})\/(\d+)(?:\/([A-ZÆØÅ]+))?/gi`:
   * issuing body, community text, year, number, community letters.
   */
  function DirectiveBodyAt(s: string, k: nat): (r: Option<MatchAt>)
    ensures r.Some? ==> var g := r.value.groups;
      |g| == 6 && k <= |s| && BodyEnd(s, k).Some? && g[1] == Some(s[k..BodyEnd(s, k).value]) && DigitGroup(g[3]) && DigitGroup(g[4])
  {
    if k <= |s| then
      match BodyEnd(s, k)
      case None => None
      case Some(e) => DirectiveAfterBody(s, k, e)
    else None
  }

  /** The rest of the third directive pattern, after an issuing body that spans `k..e`. */
  function DirectiveAfterBody(s: string, k: nat, e: nat): (r: Option<MatchAt>)
    requires k < e <= |s|
    ensures r.Some? ==> var g := r.value.groups;
      |g| == 6 && g[1] == Some(s[k..e]) && DigitGroup(g[3]) && DigitGroup(g[4])
  {
    match DirektivEnd(s, e)
    case None => None
    case Some(d) =>
      var g := SpaceRun(s, d);
      if g > d then
        var oc := OptCommunity(s, g);
        match YearNumberEnd(s, oc.0)
        case None => None
        case Some(yn) =>
          var sl := SlashLetters(s, yn.1);
          Some(MatchAt(sl.0 - k, [Some(s[k..sl.0]), Some(s[k..e]), oc.1, Some(s[oc.0..yn.0]), Some(s[yn.0 + 1..yn.1]), sl.1]))
      else None
  }

  /** `/forordning\s+\(([^)]+)\)\s+(?:nr\.?\s+)?(\d{2,4})\/(\d+)/gi`: community text, year, number. */
  function RegulationParenAt(s: string, k: nat): (r: Option<MatchAt>)
    ensures r.Some? ==> var g := r.value.groups; |g| == 4 && Truthy(g[1]) && DigitGroup(g[2]) && DigitGroup(g[3])
  {
    if k <= |s| && LitAtCI(s, k, "forordning") then
      var a := SpaceRun(s, k + 10);
      if a > k + 10 then
        match ParenEnd(s, a)
        case None => None
        case Some(p) =>
          var q := SpaceRun(s, p);
          if q > p then
            var y := OptNr(s, q);
            match YearNumberEnd(s, y)
            case None => None
            case Some(yn) =>
              Some(MatchAt(yn.1 - k, [Some(s[k..yn.1]), Some(s[a + 1..p - 1]), Some(s[y..yn.0]), Some(s[yn.0 + 1..yn.1])]))
          else None
      else None
    else None
  }

  /** The issuing body of the second regulation pattern: the Commission may carry a kind of regulation. */
  function RegulationBodyEnd(s: string, k: nat): (r: Option<nat>)
    requires k <= |s|
    ensures r.Some? ==> BodyEnd(s, k).Some? && BodyEnd(s, k).value <= r.value <= |s|
  {
    match BodyEnd(s, k)
    case None => None
    case Some(e) => if LitAtCI(s, k, "kommisjonen") then Some(KindSuffixEnd(s, e)) else Some(e)
  }

  /**
   * `/(Europaparlaments-\s*og\s+råds|rådets?|[Kk]ommisjonens?(?:\s+gjennomføringsforordning|\s+delegerte\s+forordning)?)\s+\(([^)]+)\)\s+(?:nr\.?\s+)?(\d{2,4})\/(\d+)/gi`:
   * issuing body, community text, year, number.
   */
  function RegulationBodyAt(s: string, k: nat): (r: Option<MatchAt>)
    ensures r.Some? ==> var g := r.value.groups;
      |g| == 5 && k <= |s| && RegulationBodyEnd(s, k).Some? && g[1] == Some(s[k..RegulationBodyEnd(s, k).value]) && DigitGroup(g[3]) && DigitGroup(g[4])
  {
    if k <= |s| then
      match RegulationBodyEnd(s, k)
      case None => None
      case Some(e) => RegulationAfterBody(s, k, e)
    else None
  }

  /** The rest of the second regulation pattern, after an issuing body that spans `k..e`. */
  function RegulationAfterBody(s: string, k: nat, e: nat): (r: Option<MatchAt>)
    requires k < e <= |s|
    ensures r.Some? ==> var g := r.value.groups;
      |g| == 5 && g[1] == Some(s[k..e]) && DigitGroup(g[3]) && DigitGroup(g[4])
  {
    var a := SpaceRun(s, e);
    if a > e then
      match ParenEnd(s, a)
      case None => None
      case Some(p) =>
        var q := SpaceRun(s, p);
        if q > p then
          var y := OptNr(s, q);
          match YearNumberEnd(s, y)
          case None => None
          case Some(yn) =>
            Some(MatchAt(yn.1 - k, [Some(s[k..yn.1]), Some(s[k..e]), Some(s[a + 1..p - 1]), Some(s[y..yn.0]), Some(s[yn.0 + 1..yn.1])]))
        else None
    else None
  }

  /** `PATTERNS.directive`, in order. */
  const DirectivePatterns: seq<Matcher> := [DirectiveParenAt, DirectiveSlashAt, DirectiveBodyAt]

  /** `PATTERNS.regulation`, in order. */
  const RegulationPatterns: seq<Matcher> := [RegulationParenAt, RegulationBodyAt]

  // ---------------------------------------------------------------------------
  // parseInt, the year pivot and parseCommunity

  predicate IsHexDigit(c: char) { IsDigit(c) || 'a' <= c <= 'f' || 'A' <= c <= 'F' }

  function HexDigitValue(c: char): nat
    requires IsHexDigit(c)
  {
    if IsDigit(c) then DigitValue(c)
    else if 'a' <= c <= 'f' then c as int - 'a' as int + 10
    else c as int - 'A' as int + 10
  }

  function HexValue(s: string): nat
    requires forall i :: 0 <= i < |s| ==> IsHexDigit(s[i])
    decreases |s|
  {
    if s == [] then 0 else 16 * HexValue(s[..|s| - 1]) + HexDigitValue(s[|s| - 1])
  }

  /**
   * `parseInt(x)` of a capture group: leading whitespace, a sign, a `0x`
   * prefix, then the longest run of digits. `None` is `NaN`, which is also
   * what a group that did not take part gives.
   */
  function ParseInt(g: Option<string>): (r: Option<int>)
  {
    match g
    case None => None
    case Some(s) =>
      var i := SpaceRun(s, 0);
      var neg := CharAt(s, i, '-');
      var j := if CharAt(s, i, '-') || CharAt(s, i, '+') then i + 1 else i;
      var hex := CharAt(s, j, '0') && (CharAt(s, j + 1, 'x') || CharAt(s, j + 1, 'X'));
      var d := if hex then j + 2 else j;
      var e := if hex then Span(s, d, IsHexDigit) else DigitRun(s, d);
      if e == d then None
      else
        var v := if hex then HexValue(s[d..e]) else (DigitsSlice(s, d, e); ParseNat(s[d..e]));
        Some(if neg then -v else v)
  }

  /** Two-digit years below 50 are in this century, the other two-digit years in the last one. */
  function PivotYear(y: int): int {
    if y < 100 then (if y < 50 then 2000 + y else 1900 + y) else y
  }

  /** How a template literal prints an integer. */
  function IntToString(i: int): string {
    if i < 0 then "-" + NatToString(-i) else NatToString(i)
  }

  /**
   * `parseCommunity`: upper-cased and trimmed, then Euratom, EØF and EF by
   * containment, the older spellings EG and EEG exactly, and EU otherwise.
   */
  function ParseCommunity(text: string): Community {
    var normalized := Trim(Upper(text));
    if Contains(normalized, "EURATOM") then Euratom
    else if Contains(normalized, "EØF") then EOEF
    else if Contains(normalized, "EF") && !Contains(normalized, "EU") then EF
    else if normalized == "EG" then EF
    else if normalized == "EEG" then EOEF
    else EU
  }

  // ---------------------------------------------------------------------------
  // parseDirectiveMatch and parseRegulationMatch

  /** `match[1] && match[1].match(/råd|kommisjon|Europa/i)` */
  predicate IssuerLike(g: Option<string>) {
    Truthy(g) && (ContainsCI(g.value, "råd") || ContainsCI(g.value, "kommisjon") || ContainsCI(g.value, "europa"))
  }

  predicate StartsWithDigit(s: string) { |s| > 0 && IsDigit(s[0]) }

  /** `match[i] || fallback` */
  function OrElse(g: Option<string>, fallback: string): string {
    if Truthy(g) then g.value else fallback
  }

  /** What a branch of the waterfall takes from the groups; a `None` year or number is `NaN`. */
  datatype Parts = Parts(community: Community, issuingBody: Option<string>, year: Option<int>, number: Option<int>)

  /** The first branch of both waterfalls: an issuing body, then community, year and number. */
  function IssuerParts(g: seq<Option<string>>): Parts
    requires G(g, 1).Some?
  {
    Parts(ParseCommunity(OrElse(G(g, 2), "EU")), G(g, 1), ParseInt(G(g, 3)), ParseInt(G(g, 4)))
  }

  /** The waterfall of `parseDirectiveMatch`; `None` is the `return null` of its last branch. */
  function DirectiveParts(g: seq<Option<string>>): Option<Parts> {
    var g1 := G(g, 1);
    var g2 := G(g, 2);
    var g3 := G(g, 3);
    if IssuerLike(g1) then Some(IssuerParts(g))
    else if Truthy(g1) && !StartsWithDigit(g1.value) && Truthy(g2) && Truthy(g3) then
      Some(Parts(ParseCommunity(g1.value), None, ParseInt(g2), ParseInt(g3)))
    else if Truthy(g1) && StartsWithDigit(g1.value) && Truthy(g2) then
      Some(Parts(if Truthy(g3) then ParseCommunity(g3.value) else EU, None, ParseInt(g1), ParseInt(g2)))
    else None
  }

  /** The waterfall of `parseRegulationMatch`. */
  function RegulationParts(g: seq<Option<string>>): Option<Parts> {
    var g1 := G(g, 1);
    var g2 := G(g, 2);
    var g3 := G(g, 3);
    if IssuerLike(g1) then Some(IssuerParts(g))
    else if Truthy(g1) && Truthy(g2) && Truthy(g3) then
      Some(Parts(ParseCommunity(g1.value), None, ParseInt(g2), ParseInt(g3)))
    else None
  }

  /** JavaScript's `substring`: both ends clamped to the string, and swapped when out of order. */
  function Substring(s: string, a: int, b: int): (r: string)
    ensures |r| <= |s|
  {
    var a' := if a < 0 then 0 else if a > |s| then |s| else a;
    var b' := if b < 0 then 0 else if b > |s| then |s| else b;
    if a' <= b' then s[a'..b'] else s[b'..a']
  }

  /** `extractContext`: up to 100 characters either side of the match, whitespace collapsed and trimmed. */
  function ExtractContext(text: string, index: nat, matchLength: nat): string {
    var start := if index - 100 > 0 then index - 100 else 0;
    var end := if |text| < index + matchLength + 100 then |text| else index + matchLength + 100;
    Normalize(Substring(text, start, end))
  }

  /** The reference a match gives, once the waterfall has picked its parts; `NaN` gives nothing. */
  function BuildReference(t: ActType, p: Parts, h: Hit, text: string): Option<EUReference> {
    if p.year.None? || p.number.None? then None
    else
      var year := PivotYear(p.year.value);
      var number := p.number.value;
      var fullText := if G(h.groups, 0).Some? then G(h.groups, 0).value else "";
      Some(EUReference(t, IntToString(year) + "/" + IntToString(number), year, number, Some(p.community),
        p.issuingBody, None, fullText, ExtractContext(text, h.start, |fullText|), None, None))
  }

  /** `parseDirectiveMatch` or `parseRegulationMatch`, by the kind of pattern. */
  function ParseMatch(t: ActType, h: Hit, text: string): Option<EUReference> {
    var parts := if t == Directive then DirectiveParts(h.groups) else RegulationParts(h.groups);
    match parts
    case None => None
    case Some(p) => BuildReference(t, p, h, text)
  }

  // ---------------------------------------------------------------------------
  // The candidates of the scans, in scan order

  /** What a hit would add if its key were new: nothing when the match is discarded. */
  function Candidate(t: ActType, h: Hit, text: string): (r: seq<EUReference>)
    ensures |r| <= 1
  {
    match ParseMatch(t, h, text)
    case None => []
    case Some(r) => [r]
  }

  function Candidates(t: ActType, hits: seq<Hit>, text: string): seq<EUReference>
    decreases |hits|
  {
    if hits == [] then []
    else Candidates(t, hits[..|hits| - 1], text) + Candidate(t, hits[|hits| - 1], text)
  }

  /** The candidates of a list of patterns of one kind, pattern by pattern. */
  function PatternCandidates(text: string, ps: seq<Matcher>, t: ActType): seq<EUReference>
    decreases |ps|
  {
    if ps == [] then []
    else PatternCandidates(text, ps[..|ps| - 1], t) + Candidates(t, MatchAll(ps[|ps| - 1], text), text)
  }

  function DirectiveCandidates(text: string): seq<EUReference> {
    PatternCandidates(text, DirectivePatterns, Directive)
  }

  function RegulationCandidates(text: string): seq<EUReference> {
    PatternCandidates(text, RegulationPatterns, Regulation)
  }

  // ---------------------------------------------------------------------------
  // enhanceReference

  /** `/artikkel\s+([\d.]+(?:\s*,\s*[\d.]+)*(?:\s+og\s+[\d.]+)?)/i` at `k`; group 1 is the article list. */
  function ArticleAt(s: string, k: nat): (r: Option<MatchAt>)
    ensures r.Some? ==> |r.value.groups| == 2 && r.value.groups[1].Some? && |r.value.groups[1].value| > 0
  {
    if k <= |s| && LitAtCI(s, k, "artikkel") then
      var a := SpaceRun(s, k + 8);
      if a > k + 8 then
        var b := Span(s, a, IsArticleChar);
        if b > a then
          var d := ArticleOgEnd(s, ArticleListEnd(s, b));
          Some(MatchAt(d - k, [Some(s[k..d]), Some(s[a..d])]))
        else None
      else None
    else None
  }

  /**
   * `(?:\s*,\s*[\d.]+)*` at `i`, each repetition as long as it goes: nothing
   * after it can fail, so the first match the search finds is the greedy one.
   */
  function ArticleListEnd(s: string, i: nat): (r: nat)
    requires i <= |s|
    ensures i <= r <= |s|
    decreases |s| - i
  {
    var a := SpaceRun(s, i);
    if CharAt(s, a, ',') then
      var b := SpaceRun(s, a + 1);
      var c := Span(s, b, IsArticleChar);
      if c > b then ArticleListEnd(s, c) else i
    else i
  }

  /** `(?:\s+og\s+[\d.]+)?` at `i`. */
  function ArticleOgEnd(s: string, i: nat): (r: nat)
    requires i <= |s|
    ensures i <= r <= |s|
  {
    var a := SpaceRun(s, i);
    if a > i && LitAtCI(s, a, "og") then
      var b := SpaceRun(s, a + 2);
      var c := Span(s, b, IsArticleChar);
      if b > a + 2 && c > b then c else i
    else i
  }

  /** The article list of the first article phrase in the context, trimmed. */
  function ArticleIn(context: string): Option<string> {
    match FirstMatch(ArticleAt, context, 0)
    case None => None
    case Some(h) => Some(Trim(h.groups[1].value))
  }

  /** `IMPLEMENTATION_KEYWORDS`, in the order `Object.entries` lists them. */
  const Keywords: seq<(string, ReferenceType)> := [
    ("gjennomføring", Implements), ("gjennomfører", Implements), ("gjennomføre", Implements),
    ("utfyller", Supplements), ("utfylling", Supplements), ("utfyllende", Supplements),
    ("anvendelse", Applies), ("anvendes", Applies),
    ("i samsvar med", CompliesWith), ("i overensstemmelse med", CompliesWith),
    ("med hjemmel i", CitesArticle), ("i henhold til", CitesArticle), ("i medhold av", CitesArticle)]

  /** The first keyword at or after table position `i` that the lower-cased context contains. */
  function FirstKeyword(lower: string, i: nat): (r: Option<nat>)
    requires i <= |Keywords|
    ensures r.Some? ==> i <= r.value < |Keywords| && Contains(lower, Keywords[r.value].0)
    ensures r.Some? ==> forall j :: i <= j < r.value ==> !Contains(lower, Keywords[j].0)
    ensures r.None? ==> forall j :: i <= j < |Keywords| ==> !Contains(lower, Keywords[j].0)
    decreases |Keywords| - i
  {
    if i == |Keywords| then None
    else if Contains(lower, Keywords[i].0) then Some(i)
    else FirstKeyword(lower, i + 1)
  }

  function DefaultType(t: ActType): ReferenceType {
    if t == Directive then Implements else Applies
  }

  /** The article step of `enhanceReference`. */
  function WithArticle(ref: EUReference): EUReference {
    match ArticleIn(ref.context)
    case Some(a) => ref.(article := Some(a), referenceType := Some(CitesArticle))
    case None => ref
  }

  /** The keyword step: the first keyword in table order is recorded, and sets the type if none is set. */
  function WithKeyword(ref: EUReference, lower: string): EUReference {
    match FirstKeyword(lower, 0)
    case Some(j) =>
      ref.(implementationKeyword := Some(Keywords[j].0),
           referenceType := if ref.referenceType.Some? then ref.referenceType else Some(Keywords[j].1))
    case None => ref
  }

  /** What `enhanceReference` makes of a reference. */
  function Enhanced(ref: EUReference): EUReference {
    var r := WithKeyword(WithArticle(ref), Lower(ref.context));
    if r.referenceType.None? then r.(referenceType := Some(DefaultType(r.actType))) else r
  }

  /** `refs.map(f)` */
  function MapRefs(f: EUReference -> EUReference, refs: seq<EUReference>): (r: seq<EUReference>)
    ensures |r| == |refs| && forall i :: 0 <= i < |refs| ==> r[i] == f(refs[i])
  {
    seq(|refs|, i requires 0 <= i < |refs| => f(refs[i]))
  }

  lemma MapRefsSnoc(f: EUReference -> EUReference, refs: seq<EUReference>, i: nat)
    requires i < |refs|
    ensures MapRefs(f, refs[..i + 1]) == MapRefs(f, refs[..i]) + [f(refs[i])]
  {
  }

  /** What `extractEUReferences` returns. */
  function EUReferences(text: string): seq<EUReference> {
    MapRefs(Enhanced, Dedup(DirectiveCandidates(text) + RegulationCandidates(text), RefKey, {}))
  }

  // ---------------------------------------------------------------------------
  // The loops

  lemma CandidatesPrefix(t: ActType, hits: seq<Hit>, i: nat, text: string)
    requires i < |hits|
    ensures Candidates(t, hits[..i + 1], text) == Candidates(t, hits[..i], text) + Candidate(t, hits[i], text)
  {
    assert hits[..i + 1][..i] == hits[..i];
  }

  /** The inner loop, `for (const match of text.matchAll(pattern))`. */
  method ScanMatches(text: string, hits: seq<Hit>, t: ActType, references: seq<EUReference>, seen: set<string>)
    returns (references': seq<EUReference>, seen': set<string>)
    ensures Pushed(references', seen') == PushAll(Pushed(references, seen), Candidates(t, hits, text), RefKey)
  {
    references', seen' := references, seen;
    var i := 0;
    while i < |hits|
      invariant 0 <= i <= |hits|
      invariant Pushed(references', seen') == PushAll(Pushed(references, seen), Candidates(t, hits[..i], text), RefKey)
    {
      var m := hits[i];
      CandidatesPrefix(t, hits, i, text);
      PushAllSnoc(Pushed(references, seen), Candidates(t, hits[..i], text), Candidate(t, m, text), RefKey);
      var ref := ParseMatch(t, m, text);
      if ref.Some? && RefKey(ref.value) !in seen' {
        seen' := seen' + {RefKey(ref.value)};
        references' := references' + [ref.value];
      }
      i := i + 1;
    }
    assert hits[..|hits|] == hits;
  }

  /** The outer loop, `for (const pattern of patterns)`. */
  method ScanPatterns(text: string, ps: seq<Matcher>, t: ActType, references: seq<EUReference>, seen: set<string>)
    returns (references': seq<EUReference>, seen': set<string>)
    ensures Pushed(references', seen') == PushAll(Pushed(references, seen), PatternCandidates(text, ps, t), RefKey)
  {
    references', seen' := references, seen;
    var i := 0;
    while i < |ps|
      invariant 0 <= i <= |ps|
      invariant Pushed(references', seen') == PushAll(Pushed(references, seen), PatternCandidates(text, ps[..i], t), RefKey)
    {
      var hits := MatchAll(ps[i], text);
      ghost var before := Pushed(references', seen');
      references', seen' := ScanMatches(text, hits, t, references', seen');
      ScanPatternsStep(text, ps, i, t, Pushed(references, seen), before, Pushed(references', seen'));
      i := i + 1;
    }
    assert ps[..|ps|] == ps;
  }

  /** One turn of the outer loop: the next pattern's candidates are pushed after those of the earlier ones. */
  lemma ScanPatternsStep(text: string, ps: seq<Matcher>, i: nat, t: ActType, start: Pushed<EUReference, string>,
                         before: Pushed<EUReference, string>, after: Pushed<EUReference, string>)
    requires i < |ps|
    requires before == PushAll(start, PatternCandidates(text, ps[..i], t), RefKey)
    requires after == PushAll(before, Candidates(t, MatchAll(ps[i], text), text), RefKey)
    ensures after == PushAll(start, PatternCandidates(text, ps[..i + 1], t), RefKey)
  {
    PatternCandidatesPrefix(text, ps, i, t);
    PushAllConcat(start, PatternCandidates(text, ps[..i], t), Candidates(t, MatchAll(ps[i], text), text), RefKey);
  }

  lemma PatternCandidatesPrefix(text: string, ps: seq<Matcher>, i: nat, t: ActType)
    requires i < |ps|
    ensures PatternCandidates(text, ps[..i + 1], t) == PatternCandidates(text, ps[..i], t) + Candidates(t, MatchAll(ps[i], text), text)
  {
    assert ps[..i + 1][..i] == ps[..i];
  }

  /** `enhanceReference`, with its loop over the keyword table. */
  method EnhanceReference(ref: EUReference) returns (r: EUReference)
    ensures r == Enhanced(ref)
  {
    r := ref;
    var contextWindow := ref.context;
    var articleMatches := FirstMatch(ArticleAt, contextWindow, 0);
    if articleMatches.Some? {
      r := r.(article := Some(Trim(articleMatches.value.groups[1].value)), referenceType := Some(CitesArticle));
    }
    assert r == WithArticle(ref);
    var lowerContext := Lower(contextWindow);
    var i := 0;
    while i < |Keywords|
      invariant 0 <= i <= |Keywords|
      invariant FirstKeyword(lowerContext, i) == FirstKeyword(lowerContext, 0)
      invariant r == WithArticle(ref)
    {
      var (keyword, refType) := Keywords[i];
      if Contains(lowerContext, keyword) {
        assert FirstKeyword(lowerContext, 0) == Some(i);
        r := r.(implementationKeyword := Some(keyword));
        if r.referenceType.None? {
          r := r.(referenceType := Some(refType));
        }
        break;
      }
      FirstKeywordStep(lowerContext, i);
      i := i + 1;
    }
    if r.referenceType.None? {
      r := r.(referenceType := Some(if r.actType == Directive then Implements else Applies));
    }
  }

  lemma FirstKeywordStep(lower: string, i: nat)
    requires i < |Keywords| && !Contains(lower, Keywords[i].0)
    ensures FirstKeyword(lower, i) == FirstKeyword(lower, i + 1)
  {
  }

  /** `extractEUReferences` */
  method ExtractEUReferences(text: string) returns (refs: seq<EUReference>)
    ensures refs == EUReferences(text)
  {
    var references: seq<EUReference> := [];
    var seen: set<string> := {};
    references, seen := ScanPatterns(text, DirectivePatterns, Directive, references, seen);
    references, seen := ScanPatterns(text, RegulationPatterns, Regulation, references, seen);
    ghost var all := DirectiveCandidates(text) + RegulationCandidates(text);
    PushAllConcat(Pushed([], {}), DirectiveCandidates(text), RegulationCandidates(text), RefKey);
    PushAllFromEmpty(all, RefKey);
    assert references == Dedup(all, RefKey, {});
    refs := EnhanceReferences(references);
  }

  /** The final `map` over the kept references. */
  method EnhanceReferences(references: seq<EUReference>) returns (refs: seq<EUReference>)
    ensures refs == MapRefs(Enhanced, references)
  {
    refs := [];
    var i := 0;
    while i < |references|
      invariant 0 <= i <= |references|
      invariant refs == MapRefs(Enhanced, references[..i])
    {
      var e := EnhanceReference(references[i]);
      MapRefsSnoc(Enhanced, references, i);
      refs := refs + [e];
      i := i + 1;
    }
    assert references[..|references|] == references;
  }
  // ---------------------------------------------------------------------------
  // parseInt, the pivot and parseCommunity

  /** A run of decimal digits is read as its decimal value. */
  lemma ParseIntDigits(d: string)
    requires DigitGroup(Some(d))
    ensures ParseInt(Some(d)) == Some(ParseNat(d))
  {
    assert IsDigit(d[0]);
    SpaceRunExact(d, 0, 0);
    if |d| > 1 {
      assert IsDigit(d[1]);
    }
    DigitRunExact(d, 0, |d|);
    assert d[0..|d|] == d;
  }

  /** A group that begins with a digit is never read as a negative number. */
  lemma ParseIntDigitLeading(d: string)
    requires StartsWithDigit(d)
    ensures ParseInt(Some(d)).Some? ==> ParseInt(Some(d)).value >= 0
  {
    SpaceRunExact(d, 0, 0);
  }

  /** The pivot keeps a two-digit year's digits and puts it in 1950..2049. */
  lemma PivotTwoDigits(y: int)
    requires 0 <= y < 100
    ensures 1950 <= PivotYear(y) < 2050 && PivotYear(y) % 100 == y
    ensures y < 50 ==> PivotYear(y) == 2000 + y
    ensures 50 <= y ==> PivotYear(y) == 1900 + y
  {
  }

  /** Larger years are left alone, so no pivoted year of a non-negative input is below 100. */
  lemma PivotLarge(y: int)
    requires y >= 0
    ensures PivotYear(y) >= 100
    ensures y >= 100 ==> PivotYear(y) == y
  {
  }

  /** `lit` does not occur in `s` when no character of `s` is `lit`'s first. */
  lemma NotContained(s: string, lit: string)
    requires |lit| > 0 && (|s| < |lit| || forall k :: 0 <= k < |s| ==> s[k] != lit[0])
    ensures !Contains(s, lit)
  {
    forall k: nat | k + |lit| <= |s| ensures !LitAt(s, k, lit) {
      assert s[k..k + |lit|][0] == s[k];
    }
  }

  /** A string of digits names no community, so it is read as EU. */
  lemma CommunityOfDigits(d: string)
    requires AllDigits(d)
    ensures ParseCommunity(d) == EU
  {
    UpperOfNoLower(d);
    if d != [] {
      TrimKeepsTrimmed(d);
    }
    NotContained(d, "EURATOM");
    NotContained(d, "EØF");
    NotContained(d, "EF");
    if |d| > 0 {
      assert d != "EG" && d != "EEG" by { assert IsDigit(d[0]); }
    }
  }

  lemma NormalizedName(c: Community)
    ensures Trim(Upper(CommunityName(c))) == Upper(CommunityName(c))
  {
    TrimKeepsTrimmed(Upper(CommunityName(c)));
  }

  /** Every community's own name is parsed back to it. */
  lemma CommunityNameParses(c: Community)
    ensures ParseCommunity(CommunityName(c)) == c
  {
    var n := Upper(CommunityName(c));
    NormalizedName(c);
    match c
    case EU =>
      assert n == "EU";
      assert !LitAt(n, 0, "EF");
      assert !Contains(n, "EF");
    case EF =>
      assert n == "EF";
      assert LitAt(n, 0, "EF");
      assert !LitAt(n, 0, "EU");
      assert !Contains(n, "EU");
    case EOEF =>
      assert n == "EØF";
      assert LitAt(n, 0, "EØF");
    case Euratom =>
      assert n == "EURATOM";
      assert LitAt(n, 0, "EURATOM");
  }

  /** The older spellings EG and EEG are read as EF and EØF. */
  lemma LegacyCommunities()
    ensures ParseCommunity("EG") == EF && ParseCommunity("eeg ") == EOEF
  {
    LegacyEG();
    LegacyEEG();
  }

  lemma LegacyEG()
    ensures ParseCommunity("EG") == EF
  {
    var a := "EG";
    assert Upper(a) == a;
    TrimKeepsTrimmed(a);
    NotContained(a, "EURATOM");
    assert !LitAt(a, 0, "EØF") && !LitAt(a, 0, "EF");
    assert !Contains(a, "EØF") && !Contains(a, "EF");
  }

  lemma LegacyEEG()
    ensures ParseCommunity("eeg ") == EOEF
  {
    var b := "eeg ";
    var u := Upper(b);
    assert u == "EEG ";
    assert SpaceRun(u, 0) == 0;
    assert SpaceRunBack(u, 4) == 3 by {
      assert SpaceRunBack(u, 3) == 3;
    }
    assert Trim(u) == "EEG";
    var t := "EEG";
    assert !LitAt(t, 0, "EØF") && !LitAt(t, 1, "EØF") && !LitAt(t, 0, "EF") && !LitAt(t, 1, "EF");
    assert !Contains(t, "EØF") && !Contains(t, "EF");
    NotContained(t, "EURATOM");
  }

  // ---------------------------------------------------------------------------
  // The waterfall, pattern by pattern

  /** A literal that begins with `pre` leaves `pre` at the start of any slice that starts where it does. */
  lemma LitAtCIPrefix(s: string, k: nat, lit: string, e: nat, pre: string)
    requires LitAtCI(s, k, lit) && |pre| <= |lit| && pre == lit[..|pre|] && k + |pre| <= e <= |s|
    ensures LitAtCI(s[k..e], 0, pre)
  {
    forall i | 0 <= i < |pre| ensures ToLowerChar(s[k..e][0 + i]) == pre[i] {
      assert s[k..e][i] == s[k + i];
      assert pre[i] == lit[i];
    }
  }

  /** Whatever the issuing-body alternatives match names a body: it contains `Europa`, `råd` or `kommisjon`. */
  lemma BodyIssuerLike(s: string, k: nat, e: nat)
    requires k <= |s| && BodyEnd(s, k).Some? && BodyEnd(s, k).value <= e <= |s|
    ensures IssuerLike(Some(s[k..e]))
  {
    var b := s[k..e];
    if LitAtCI(s, k, "europaparlaments-") {
      LitAtCIPrefix(s, k, "europaparlaments-", e, "europa");
      assert LitAtCI(b, 0, "europa");
    } else if LitAtCI(s, k, "rådet") {
      LitAtCIPrefix(s, k, "rådet", e, "råd");
      assert LitAtCI(b, 0, "råd");
    } else {
      LitAtCIPrefix(s, k, "kommisjonen", e, "kommisjon");
      assert LitAtCI(b, 0, "kommisjon");
    }
  }

  /** A run of digits does not look like an issuing body. */
  lemma DigitsNotIssuer(g: Option<string>)
    requires DigitGroup(g)
    ensures !IssuerLike(g)
  {
    var d := g.value;
    forall k: nat | k <= |d| ensures !LitAtCI(d, k, "råd") && !LitAtCI(d, k, "kommisjon") && !LitAtCI(d, k, "europa") {
      if k < |d| {
        assert IsDigit(d[k]);
      }
      NotLitAtCI(d, k, "råd");
      NotLitAtCI(d, k, "kommisjon");
      NotLitAtCI(d, k, "europa");
    }
  }

  /** Both parts are non-negative whenever they are numbers. */
  predicate NonNegParts(p: Parts) {
    (p.year.Some? ==> p.year.value >= 0) && (p.number.Some? ==> p.number.value >= 0)
  }

  /**
   * `direktiv (X) Y/N`: an X naming a body discards the match (its number
   * would be group 4, which the pattern does not have); an X that begins
   * with a digit is read as the year, the written year as the number, and
   * the community is EU; any other X is the community.
   */
  lemma ParenDirectiveOutcome(g: seq<Option<string>>)
    requires |g| == 4 && Truthy(g[1]) && DigitGroup(g[2]) && DigitGroup(g[3])
    ensures var p := DirectiveParts(g);
      && p.Some? && NonNegParts(p.value)
      && (IssuerLike(g[1]) ==> p.value.number.None?)
      && (!IssuerLike(g[1]) && !StartsWithDigit(g[1].value) ==>
            p.value == Parts(ParseCommunity(g[1].value), None, Some(ParseNat(g[2].value)), Some(ParseNat(g[3].value))))
      && (!IssuerLike(g[1]) && StartsWithDigit(g[1].value) ==>
            p.value == Parts(EU, None, ParseInt(g[1]), Some(ParseNat(g[2].value))))
  {
    ParseIntDigits(g[2].value);
    ParseIntDigits(g[3].value);
    if !IssuerLike(g[1]) && StartsWithDigit(g[1].value) {
      ParseIntDigitLeading(g[1].value);
      CommunityOfDigits(g[3].value);
    }
  }

  /** `direktiv Y/N[/C]`: the year and number as written, the community from the letters or EU. */
  lemma SlashDirectiveOutcome(g: seq<Option<string>>)
    requires |g| == 4 && DigitGroup(g[1]) && DigitGroup(g[2])
    ensures DirectiveParts(g) ==
      Some(Parts(if Truthy(g[3]) then ParseCommunity(g[3].value) else EU, None, Some(ParseNat(g[1].value)), Some(ParseNat(g[2].value))))
  {
    DigitsNotIssuer(g[1]);
    ParseIntDigits(g[1].value);
    ParseIntDigits(g[2].value);
  }

  /** A match led by an issuing body: the body, the community (EU when none is written), the year and the number. */
  lemma BodyOutcome(g: seq<Option<string>>)
    requires |g| >= 5 && IssuerLike(g[1]) && DigitGroup(g[3]) && DigitGroup(g[4])
    ensures var p := Parts(ParseCommunity(OrElse(g[2], "EU")), g[1], Some(ParseNat(g[3].value)), Some(ParseNat(g[4].value)));
      DirectiveParts(g) == Some(p) && RegulationParts(g) == Some(p)
  {
    ParseIntDigits(g[3].value);
    ParseIntDigits(g[4].value);
  }

  /** `forordning (X) [nr] Y/N`: an X naming a body discards the match; any other X is the community. */
  lemma ParenRegulationOutcome(g: seq<Option<string>>)
    requires |g| == 4 && Truthy(g[1]) && DigitGroup(g[2]) && DigitGroup(g[3])
    ensures var p := RegulationParts(g);
      && p.Some? && NonNegParts(p.value)
      && (IssuerLike(g[1]) ==> p.value.number.None?)
      && (!IssuerLike(g[1]) ==> p.value == Parts(ParseCommunity(g[1].value), None, Some(ParseNat(g[2].value)), Some(ParseNat(g[3].value))))
  {
    ParseIntDigits(g[2].value);
    ParseIntDigits(g[3].value);
  }

  // ---------------------------------------------------------------------------
  // What every reference looks like

  /** An extracted reference: `id` is `year/number` as printed, the year pivoted, the community set. */
  predicate WellFormed(r: EUReference) {
    && r.id == IntToString(r.year) + "/" + IntToString(r.number)
    && r.year >= 100 && r.number >= 0 && r.community.Some?
  }

  /** A year or number that is not a number (NaN) discards the match; otherwise the id is built from the pivoted year. */
  lemma NaNDiscards(t: ActType, p: Parts, h: Hit, text: string)
    ensures BuildReference(t, p, h, text).None? <==> p.year.None? || p.number.None?
    ensures BuildReference(t, p, h, text).Some? ==>
      var r := BuildReference(t, p, h, text).value;
      && r.year == PivotYear(p.year.value) && r.number == p.number.value
      && r.id == IntToString(r.year) + "/" + IntToString(r.number)
      && r.actType == t && r.community == Some(p.community) && r.issuingBody == p.issuingBody
  {
  }

  lemma BuildShape(t: ActType, p: Parts, h: Hit, text: string)
    requires NonNegParts(p)
    ensures BuildReference(t, p, h, text).Some? ==>
      var r := BuildReference(t, p, h, text).value;
      WellFormed(r) && r.actType == t && r.referenceType.None?
  {
    if p.year.Some? {
      PivotLarge(p.year.value);
    }
  }

  function PatternsOf(t: ActType): seq<Matcher> {
    if t == Directive then DirectivePatterns else RegulationPatterns
  }

  /** `h` is a match of pattern `i` of kind `t`. */
  predicate PatternHit(t: ActType, i: nat, h: Hit, text: string) {
    i < |PatternsOf(t)| && MatchesAt(PatternsOf(t)[i], text, h.start) && h.groups == PatternsOf(t)[i](text, h.start).value.groups
  }

  function PartsOf(t: ActType, g: seq<Option<string>>): Option<Parts> {
    if t == Directive then DirectiveParts(g) else RegulationParts(g)
  }

  /** Every directive match yields parts, and its year and number are never negative. */
  lemma DirectiveHitParts(i: nat, h: Hit, text: string)
    requires PatternHit(Directive, i, h, text)
    ensures DirectiveParts(h.groups).Some? && NonNegParts(DirectiveParts(h.groups).value)
  {
    var g := h.groups;
    if i == 0 {
      assert g == DirectiveParenAt(text, h.start).value.groups;
      ParenDirectiveOutcome(g);
    } else if i == 1 {
      assert g == DirectiveSlashAt(text, h.start).value.groups;
      SlashDirectiveOutcome(g);
    } else {
      assert g == DirectiveBodyAt(text, h.start).value.groups;
      BodyIssuerLike(text, h.start, BodyEnd(text, h.start).value);
      BodyOutcome(g);
    }
  }

  /** Every regulation match yields parts, and its year and number are never negative. */
  lemma RegulationHitParts(i: nat, h: Hit, text: string)
    requires PatternHit(Regulation, i, h, text)
    ensures RegulationParts(h.groups).Some? && NonNegParts(RegulationParts(h.groups).value)
  {
    var g := h.groups;
    if i == 0 {
      assert g == RegulationParenAt(text, h.start).value.groups;
      ParenRegulationOutcome(g);
    } else {
      assert g == RegulationBodyAt(text, h.start).value.groups;
      BodyIssuerLike(text, h.start, RegulationBodyEnd(text, h.start).value);
      BodyOutcome(g);
    }
  }

  lemma HitShape(t: ActType, i: nat, h: Hit, text: string)
    requires PatternHit(t, i, h, text)
    ensures forall r :: r in Candidate(t, h, text) ==> WellFormed(r) && r.actType == t && r.referenceType.None?
  {
    if t == Directive {
      DirectiveHitParts(i, h, text);
    } else {
      RegulationHitParts(i, h, text);
    }
    var parts := PartsOf(t, h.groups);
    BuildShape(t, parts.value, h, text);
  }

  lemma {:induction false} CandidatesShape(t: ActType, i: nat, hits: seq<Hit>, text: string)
    requires forall j :: 0 <= j < |hits| ==> PatternHit(t, i, hits[j], text)
    ensures forall r :: r in Candidates(t, hits, text) ==> WellFormed(r) && r.actType == t && r.referenceType.None?
    decreases |hits|
  {
    if hits != [] {
      CandidatesShape(t, i, hits[..|hits| - 1], text);
      HitShape(t, i, hits[|hits| - 1], text);
    }
  }

  lemma {:induction false} PatternCandidatesShape(text: string, t: ActType, n: nat)
    requires n <= |PatternsOf(t)|
    ensures forall r :: r in PatternCandidates(text, PatternsOf(t)[..n], t) ==>
      WellFormed(r) && r.actType == t && r.referenceType.None?
  {
    if n > 0 {
      var ps := PatternsOf(t)[..n];
      assert ps[..|ps| - 1] == PatternsOf(t)[..n - 1];
      PatternCandidatesShape(text, t, n - 1);
      var hits := MatchAll(ps[|ps| - 1], text);
      CandidatesShape(t, n - 1, hits, text);
    }
  }

  /** All candidates, directives first. */
  function AllCandidates(text: string): seq<EUReference> {
    DirectiveCandidates(text) + RegulationCandidates(text)
  }

  lemma AllCandidatesShape(text: string)
    ensures forall r :: r in DirectiveCandidates(text) ==> WellFormed(r) && r.actType == Directive && r.referenceType.None?
    ensures forall r :: r in RegulationCandidates(text) ==> WellFormed(r) && r.actType == Regulation && r.referenceType.None?
  {
    assert DirectivePatterns[..3] == DirectivePatterns;
    assert RegulationPatterns[..2] == RegulationPatterns;
    PatternCandidatesShape(text, Directive, 3);
    PatternCandidatesShape(text, Regulation, 2);
  }

  // ---------------------------------------------------------------------------
  // enhanceReference

  /** Enhancing touches nothing but the article, the reference type and the keyword, and always sets a type. */
  lemma EnhancedKeeps(ref: EUReference)
    ensures var e := Enhanced(ref);
      && e.(article := ref.article, referenceType := ref.referenceType, implementationKeyword := ref.implementationKeyword) == ref
      && e.referenceType.Some?
  {
  }

  /**
   * The order of classification: an article phrase in the context makes it
   * `cites_article`; otherwise a type already set stays; otherwise the first
   * keyword in table order decides; otherwise directives implement and
   * regulations apply. The first keyword in table order is recorded either way.
   */
  lemma EnhancedClassification(ref: EUReference)
    ensures var e := Enhanced(ref); var art := ArticleIn(ref.context); var kw := FirstKeyword(Lower(ref.context), 0);
      && (art.Some? ==> e.article == art && e.referenceType == Some(CitesArticle))
      && (art.None? ==> e.article == ref.article)
      && (art.None? && ref.referenceType.Some? ==> e.referenceType == ref.referenceType)
      && (art.None? && ref.referenceType.None? && kw.Some? ==> e.referenceType == Some(Keywords[kw.value].1))
      && (art.None? && ref.referenceType.None? && kw.None? ==> e.referenceType == Some(DefaultType(ref.actType)))
      && e.implementationKeyword == (if kw.Some? then Some(Keywords[kw.value].0) else ref.implementationKeyword)
  {
  }

  /** Keywords are tried in table order, not text order: any keyword present bounds the one chosen. */
  lemma KeywordTableOrder(lower: string, j: nat)
    requires j < |Keywords| && Contains(lower, Keywords[j].0)
    ensures FirstKeyword(lower, 0).Some? && FirstKeyword(lower, 0).value <= j
  {
  }

  // ---------------------------------------------------------------------------
  // What extractEUReferences promises

  /**
   * Every reference returned is well formed and classified, its key is its
   * own, and it is the first candidate with that key, enhanced.
   */
  lemma EUReferencesFacts(text: string)
    ensures var out := EUReferences(text);
      && (forall r :: r in out ==> WellFormed(r) && r.referenceType.Some?)
      && (forall a, b :: 0 <= a < b < |out| ==> RefKey(out[a]) != RefKey(out[b]))
      && (forall a :: 0 <= a < |out| ==>
            (exists i :: 0 <= i < |AllCandidates(text)| &&
               out[a] == Enhanced(AllCandidates(text)[i]) && RefKey(out[a]) !in Keys(AllCandidates(text)[..i], RefKey)))
  {
    var all := AllCandidates(text);
    var kept := Dedup(all, RefKey, {});
    var out := EUReferences(text);
    AllCandidatesShape(text);
    DedupKeys(all, RefKey, {});
    forall a | 0 <= a < |out|
      ensures WellFormed(out[a]) && out[a].referenceType.Some? && RefKey(out[a]) == RefKey(kept[a])
      ensures exists i :: 0 <= i < |all| && out[a] == Enhanced(all[i]) && RefKey(out[a]) !in Keys(all[..i], RefKey)
    {
      EnhancedKeeps(kept[a]);
      assert kept[a] in kept;
      DedupKeepsFirst(all, RefKey, {}, kept[a]);
    }
  }

  /** Every key of the candidates is kept exactly once. */
  lemma EUReferencesComplete(text: string)
    ensures KeySet(EUReferences(text), RefKey) == KeySet(AllCandidates(text), RefKey)
  {
    var all := AllCandidates(text);
    var kept := Dedup(all, RefKey, {});
    DedupKeys(all, RefKey, {});
    forall a | 0 <= a < |kept| ensures RefKey(EUReferences(text)[a]) == RefKey(kept[a]) {
      EnhancedKeeps(kept[a]);
    }
    assert Keys(EUReferences(text), RefKey) == Keys(kept, RefKey);
  }

  /** Deduplicating directives followed by regulations keeps the directives first, then the regulations with new keys. */
  lemma DedupKindSplit(d: seq<EUReference>, r: seq<EUReference>)
    requires forall x :: x in d ==> x.actType == Directive
    requires forall x :: x in r ==> x.actType == Regulation
    ensures var kept := Dedup(d + r, RefKey, {}); var n := |Dedup(d, RefKey, {})|;
      && n <= |kept| && kept[..n] == Dedup(d, RefKey, {})
      && (forall a :: 0 <= a < n ==> kept[a].actType == Directive)
      && (forall a :: n <= a < |kept| ==> kept[a].actType == Regulation && RefKey(kept[a]) !in KeySet(d, RefKey))
  {
    DedupConcat(d, r, RefKey, {});
    var kd := Dedup(d, RefKey, {});
    var kr := Dedup(r, RefKey, {} + KeySet(d, RefKey));
    DedupKeys(d, RefKey, {});
    DedupKeys(r, RefKey, {} + KeySet(d, RefKey));
    var kept := kd + kr;
    assert kept[..|kd|] == kd;
    forall a | 0 <= a < |kd| ensures kept[a].actType == Directive {
      assert kept[a] == kd[a] && kd[a] in kd;
    }
    forall a | |kd| <= a < |kept| ensures kept[a].actType == Regulation && RefKey(kept[a]) !in KeySet(d, RefKey) {
      assert kept[a] == kr[a - |kd|] && kr[a - |kd|] in kr;
    }
  }

  /**
   * Directives come first; a regulation is kept only when no directive has
   * its `id:community` key, so a regulation that collides with a directive
   * is dropped.
   */
  lemma DirectivesFirst(text: string)
    ensures var out := EUReferences(text); var kd := Dedup(DirectiveCandidates(text), RefKey, {}); var n := |kd|;
      && n <= |out|
      && (forall a :: 0 <= a < n ==> out[a] == Enhanced(kd[a]) && out[a].actType == Directive)
      && (forall a :: n <= a < |out| ==> out[a].actType == Regulation && RefKey(out[a]) !in KeySet(DirectiveCandidates(text), RefKey))
  {
    var d := DirectiveCandidates(text);
    AllCandidatesShape(text);
    DedupKindSplit(d, RegulationCandidates(text));
    var kept := Dedup(AllCandidates(text), RefKey, {});
    var n := |Dedup(d, RefKey, {})|;
    forall a | 0 <= a < |kept| ensures EUReferences(text)[a] == Enhanced(kept[a]) && RefKey(EUReferences(text)[a]) == RefKey(kept[a]) && EUReferences(text)[a].actType == kept[a].actType {
      EnhancedKeeps(kept[a]);
    }
    forall a | 0 <= a < n ensures kept[a] == Dedup(d, RefKey, {})[a] {
      assert kept[..n][a] == kept[a];
    }
  }

  // ---------------------------------------------------------------------------
  // The context window

  /**
   * The context holds the match and at most 100 characters on either side,
   * normalised: no whitespace at the ends and single spaces inside.
   */
  lemma ContextWindow(text: string, index: nat, matchLength: nat)
    requires index + matchLength <= |text|
    ensures var a := if index >= 100 then index - 100 else 0;
      var b := if index + matchLength + 100 <= |text| then index + matchLength + 100 else |text|;
      && a <= index && index + matchLength <= b && b - a <= matchLength + 200
      && ExtractContext(text, index, matchLength) == Normalize(text[a..b])
      && IsNormalized(ExtractContext(text, index, matchLength))
  {
  }

  /** Near both ends of a short text the context is the whole text, normalised. */
  lemma ShortTextContext(text: string, index: nat, matchLength: nat)
    requires index + matchLength <= |text| && index <= 100 && |text| <= index + matchLength + 100
    ensures ExtractContext(text, index, matchLength) == Normalize(text)
  {
    assert text[0..|text|] == text;
  }

  // ---------------------------------------------------------------------------
  // Document ids and CELEX numbers

  function TypeName(t: ActType): string {
    if t == Directive then "directive" else "regulation"
  }

  /** `generateEUDocumentId` */
  function GenerateEUDocumentId(ref: EUReference): string {
    TypeName(ref.actType) + ":" + ref.id
  }

  datatype DocumentIdParts = DocumentIdParts(actType: ActType, year: int, number: int)

  /** `parseEUDocumentId`: `/^(directive|regulation):(\d{4})\/(\d+)$/`. */
  function ParseEUDocumentId(id: string): (r: Option<DocumentIdParts>)
    ensures r.Some? ==> r.value.year >= 0 && r.value.number >= 0
  {
    var t := if LitAt(id, 0, "directive") then Some(Directive) else if LitAt(id, 0, "regulation") then Some(Regulation) else None;
    if t.None? then None
    else
      var w := |TypeName(t.value)|;
      if CharAt(id, w, ':') && DigitsAt(id, w + 1, 4) && CharAt(id, w + 5, '/') then
        var e := DigitRun(id, w + 6);
        if e > w + 6 && e == |id| then
          DigitsSlice(id, w + 1, w + 5);
          DigitsSlice(id, w + 6, e);
          Some(DocumentIdParts(t.value, ParseNat(id[w + 1..w + 5]), ParseNat(id[w + 6..])))
        else None
      else None
  }

  lemma DigitCount(n: nat)
    ensures |NatToString(n)| == if n < 10 then 1 else |NatToString(n / 10)| + 1
  {
  }

  /** Numbers below 10000 print with as many digits as their magnitude says. */
  lemma SmallWidths(n: nat)
    requires n < 10000
    ensures |NatToString(n)| == if n < 10 then 1 else if n < 100 then 2 else if n < 1000 then 3 else 4
  {
    DigitCount(n);
    DigitCount(n / 10);
    DigitCount(n / 10 / 10);
    DigitCount(n / 10 / 10 / 10);
  }

  lemma DocumentIdLayout(t: ActType, y: string, n: string, id: string)
    requires id == TypeName(t) + ":" + y + "/" + n
    requires |y| == 4 && AllDigits(y) && |n| > 0 && AllDigits(n)
    ensures var w := |TypeName(t)|;
      && (t == Directive ==> LitAt(id, 0, "directive")) && (t == Regulation ==> !LitAt(id, 0, "directive") && LitAt(id, 0, "regulation"))
      && CharAt(id, w, ':') && DigitsAt(id, w + 1, 4) && CharAt(id, w + 5, '/')
      && DigitRun(id, w + 6) == |id| && id[w + 1..w + 5] == y && id[w + 6..] == n
  {
    DocumentIdHead(t, y, n, id);
    DocumentIdBody(t, y, n, id);
  }

  /** The type name at the head of a document id. */
  lemma DocumentIdHead(t: ActType, y: string, n: string, id: string)
    requires id == TypeName(t) + ":" + y + "/" + n
    ensures (t == Directive ==> LitAt(id, 0, "directive")) && (t == Regulation ==> !LitAt(id, 0, "directive") && LitAt(id, 0, "regulation"))
  {
    var w := |TypeName(t)|;
    assert id[..w] == TypeName(t);
    if t == Regulation {
      assert id[0] == 'r';
    }
  }

  /** The year and the number after the type name. */
  lemma DocumentIdBody(t: ActType, y: string, n: string, id: string)
    requires id == TypeName(t) + ":" + y + "/" + n
    requires |y| == 4 && AllDigits(y) && |n| > 0 && AllDigits(n)
    ensures var w := |TypeName(t)|;
      && CharAt(id, w, ':') && DigitsAt(id, w + 1, 4) && CharAt(id, w + 5, '/')
      && DigitRun(id, w + 6) == |id| && id[w + 1..w + 5] == y && id[w + 6..] == n
  {
    var w := |TypeName(t)|;
    assert id[w + 1..w + 5] == y;
    assert id[w + 6..] == n;
    forall k | w + 1 <= k < w + 5 ensures IsDigit(id[k]) {
      assert id[k] == y[k - w - 1];
    }
    forall k | w + 6 <= k < |id| ensures IsDigit(id[k]) {
      assert id[k] == n[k - w - 6];
    }
    DigitRunExact(id, w + 6, |id|);
  }

  /** The document id of a reference with a four-digit year parses back to its type, year and number. */
  lemma DocumentIdRoundTrip(ref: EUReference)
    requires WellFormed(ref) && 1000 <= ref.year <= 9999
    ensures ParseEUDocumentId(GenerateEUDocumentId(ref)) == Some(DocumentIdParts(ref.actType, ref.year, ref.number))
  {
    var y := NatToString(ref.year);
    var n := NatToString(ref.number);
    SmallWidths(ref.year);
    var id := GenerateEUDocumentId(ref);
    assert id == TypeName(ref.actType) + ":" + y + "/" + n;
    DocumentIdLayout(ref.actType, y, n, id);
  }

  /** `generateCELEXNumber`: sector 3, the year, L or R, and the number padded to four digits. */
  function GenerateCelexNumber(ref: EUReference): string {
    "3" + IntToString(ref.year) + (if ref.actType == Directive then "L" else "R") + PadStart(IntToString(ref.number), 4, '0')
  }

  lemma {:induction false} ParseNatZeros(z: string)
    requires forall i :: 0 <= i < |z| ==> z[i] == '0'
    ensures AllDigits(z) && ParseNat(z) == 0
    decreases |z|
  {
    if z != [] {
      ParseNatZeros(z[..|z| - 1]);
    }
  }

  /** Leading zeros do not change a decimal value. */
  lemma {:induction false} ParseNatLeadingZeros(z: string, d: string)
    requires forall i :: 0 <= i < |z| ==> z[i] == '0'
    requires AllDigits(d)
    ensures AllDigits(z + d) && ParseNat(z + d) == ParseNat(d)
    decreases |d|
  {
    ParseNatZeros(z);
    if d == [] {
      assert z + d == z;
    } else {
      assert (z + d)[..|z + d| - 1] == z + d[..|d| - 1];
      ParseNatLeadingZeros(z, d[..|d| - 1]);
    }
  }

  /**
   * A CELEX number of a reference with a four-digit year: `3`, the year's
   * four digits, `L` for a directive or `R` for a regulation, and at least
   * four digits that read as the number.
   */
  lemma CelexLayout(ref: EUReference)
    requires WellFormed(ref) && 1000 <= ref.year <= 9999
    ensures var c := GenerateCelexNumber(ref);
      && |c| >= 10 && c[0] == '3' && c[1..5] == NatToString(ref.year) && ParseNat(c[1..5]) == ref.year
      && c[5] == (if ref.actType == Directive then 'L' else 'R')
      && AllDigits(c[6..]) && ParseNat(c[6..]) == ref.number
  {
    SmallWidths(ref.year);
    var y := NatToString(ref.year);
    var p := PadStart(NatToString(ref.number), 4, '0');
    CelexNumberPart(ref.number);
    CelexSlices(y, if ref.actType == Directive then 'L' else 'R', p, GenerateCelexNumber(ref));
  }

  /** The number padded to four digits reads back as the number. */
  lemma CelexNumberPart(number: nat)
    ensures var p := PadStart(NatToString(number), 4, '0'); |p| >= 4 && AllDigits(p) && ParseNat(p) == number
  {
    var n := NatToString(number);
    var p := PadStart(n, 4, '0');
    var z := p[..|p| - |n|];
    assert p == z + n;
    ParseNatLeadingZeros(z, n);
  }

  lemma CelexSlices(y: string, letter: char, p: string, c: string)
    requires |y| == 4 && |p| >= 4 && c == "3" + y + [letter] + p
    ensures |c| >= 10 && c[0] == '3' && c[1..5] == y && c[5] == letter && c[6..] == p
  {
    assert c[1..5] == y;
    assert c[6..] == p;
  }
  // ---------------------------------------------------------------------------
  // formatEUReference

  datatype EUFormat = ShortEU | FullEU

  /** The style `formatEUReference` uses when its caller gives none. */
  const DefaultEUFormat: EUFormat := ShortEU

  /** The type's Norwegian label. */
  function TypeLabel(t: ActType): string {
    if t == Directive then "direktiv" else "forordning"
  }

  /** `formatEUReference`: `direktiv (C) id`, or in full with the body before and the article after. */
  function FormatEUReference(ref: EUReference, format: EUFormat): string {
    var community := if ref.community.Some? then CommunityName(ref.community.value) else "EU";
    match format
    case ShortEU => TypeLabel(ref.actType) + " (" + community + ") " + ref.id
    case FullEU =>
      var result := (if Truthy(ref.issuingBody) then ref.issuingBody.value + " " else "")
        + (if ref.actType == Directive then "direktiv " else "forordning ")
        + "(" + community + ") " + ref.id;
      if Truthy(ref.article) then result + ", artikkel " + ref.article.value else result
  }

  /** The full form is the short form with the issuing body before it and the article after it. */
  lemma FullFormatExtendsShort(ref: EUReference)
    ensures FormatEUReference(ref, FullEU) ==
      (if Truthy(ref.issuingBody) then ref.issuingBody.value + " " else "")
      + FormatEUReference(ref, ShortEU)
      + (if Truthy(ref.article) then ", artikkel " + ref.article.value else "")
  {
  }

  /** No character of `s` lowers to `lit[j]`, so `lit` occurs nowhere in `s` up to case. */
  lemma MissingLetterCI(s: string, lit: string, j: nat)
    requires j < |lit| && forall k :: 0 <= k < |s| ==> ToLowerChar(s[k]) != lit[j]
    ensures !ContainsCI(s, lit)
  {
    forall k: nat | k <= |s| ensures !LitAtCI(s, k, lit) {
      if k + |lit| <= |s| {
        assert ToLowerChar(s[k + j]) != lit[j];
      }
    }
  }

  /** Which letters the community names are made of: none is `k`, `å` or `p` up to case, none a `)`. */
  predicate NameLetters(n: string) {
    forall k :: 0 <= k < |n| ==>
      ToLowerChar(n[k]) != 'k' && ToLowerChar(n[k]) != 'å' && ToLowerChar(n[k]) != 'p' && NotCloseParen(n[k])
  }

  /** No community's name looks like an issuing body or begins with a digit. */
  lemma CommunityNameShape(c: Community)
    ensures var n := CommunityName(c);
      && Truthy(Some(n)) && !IssuerLike(Some(n)) && !StartsWithDigit(n)
      && forall k :: 0 <= k < |n| ==> NotCloseParen(n[k])
  {
    var n := CommunityName(c);
    assert NameLetters(n) by {
      match c {
        case EU =>
        case EF =>
        case EOEF =>
        case Euratom =>
      }
    }
    MissingLetterCI(n, "kommisjon", 0);
    MissingLetterCI(n, "råd", 1);
    MissingLetterCI(n, "europa", 4);
  }

  /** `(\d{2,4})\/(\d+)` at `q` when the text from `q` on is exactly `Y/N`. */
  lemma YearNumberAt(text: string, q: nat, y: string, n: string)
    requires q <= |text| && text[q..] == y + "/" + n
    requires 2 <= |y| <= 4 && AllDigits(y) && |n| > 0 && AllDigits(n)
    ensures YearNumberEnd(text, q) == Some((q + |y|, |text|))
    ensures text[q..q + |y|] == y && text[q + |y| + 1..|text|] == n
  {
    forall k | q <= k < q + |y| ensures IsDigit(text[k]) {
      assert text[k] == text[q..][k - q] == y[k - q];
    }
    assert text[q + |y|] == text[q..][|y|] == '/';
    DigitRunExact(text, q, q + |y|);
    forall k | q + |y| + 1 <= k < |text| ensures IsDigit(text[k]) {
      assert text[k] == text[q..][k - q] == n[k - q - |y| - 1];
    }
    DigitRunExact(text, q + |y| + 1, |text|);
    assert text[q..q + |y|] == text[q..][..|y|];
    assert text[q + |y| + 1..|text|] == text[q..][|y| + 1..];
  }

  /** Where `direktiv (C) ` ends, as the first directive pattern reads it, and what follows. */
  predicate HeadLayout(text: string, name: string, rest: string) {
    var w := |name|;
    && 12 + w <= |text| && LitAtCI(text, 0, "direktiv") && SpaceRun(text, 8) == 9 && ParenEnd(text, 9) == Some(11 + w)
    && SpaceRun(text, 11 + w) == 12 + w && text[10..10 + w] == name && text[12 + w..] == rest
  }

  /** `direktiv\s+\(([^)]+)\)\s+` at the start of `direktiv (C) rest`. */
  lemma ShortDirectiveHead(name: string, rest: string, text: string)
    requires text == "direktiv (" + name + ") " + rest && |rest| > 0 && !IsSpace(rest[0])
    requires |name| > 0 && forall k :: 0 <= k < |name| ==> NotCloseParen(name[k])
    ensures HeadLayout(text, name, rest)
  {
    var w := |name|;
    assert text[..8] == "direktiv";
    assert text[8] == ' ' && text[9] == '(';
    SpaceRunExact(text, 8, 9);
    forall k | 10 <= k < 10 + w ensures NotCloseParen(text[k]) {
      assert text[k] == name[k - 10];
    }
    assert text[10 + w] == ')' && text[11 + w] == ' ';
    SpanExact(text, 10, 10 + w, NotCloseParen);
    assert text[12 + w] == rest[0];
    SpaceRunExact(text, 11 + w, 12 + w);
    assert text[10..10 + w] == name;
    assert text[12 + w..] == rest;
  }

  /** How the first directive pattern reads `direktiv (C) Y/N`: where each part ends, and what it holds. */
  predicate ParenLayout(text: string, name: string, y: string, n: string) {
    var w := |name|; var q := 12 + w; var ye := q + |y|;
    && 9 <= |text| && LitAtCI(text, 0, "direktiv") && SpaceRun(text, 8) == 9 && ParenEnd(text, 9) == Some(11 + w)
    && 11 + w <= |text| && SpaceRun(text, 11 + w) == q && YearNumberEnd(text, q) == Some((ye, |text|))
    && text[10..10 + w] == name && text[q..ye] == y && text[ye + 1..|text|] == n
  }

  /** Where the parts of the short form `direktiv (C) Y/N` end, as the first directive pattern reads them. */
  lemma ShortDirectiveLayout(name: string, y: string, n: string, rest: string, text: string)
    requires text == "direktiv (" + name + ") " + rest && rest == y + "/" + n
    requires |name| > 0 && forall k :: 0 <= k < |name| ==> NotCloseParen(name[k])
    requires 2 <= |y| <= 4 && AllDigits(y) && |n| > 0 && AllDigits(n)
    ensures ParenLayout(text, name, y, n)
  {
    assert !IsSpace(rest[0]) by { assert rest[0] == y[0]; }
    ShortDirectiveHead(name, rest, text);
    LayoutFromHead(name, y, n, rest, text);
  }

  lemma LayoutFromHead(name: string, y: string, n: string, rest: string, text: string)
    requires HeadLayout(text, name, rest) && rest == y + "/" + n
    requires 2 <= |y| <= 4 && AllDigits(y) && |n| > 0 && AllDigits(n)
    ensures ParenLayout(text, name, y, n)
  {
    YearNumberAt(text, 12 + |name|, y, n);
  }

  /** The first directive pattern at 0, from where its parts end and what they hold. */
  lemma DirectiveParenGroups(text: string, name: string, y: string, n: string)
    requires ParenLayout(text, name, y, n)
    ensures DirectiveParenAt(text, 0) == Some(MatchAt(|text|, [Some(text), Some(name), Some(y), Some(n)]))
  {
    assert text[0..|text|] == text;
  }

  lemma {:induction false} CandidatesHead(t: ActType, hits: seq<Hit>, text: string)
    requires |hits| > 0 && Candidate(t, hits[0], text) != []
    ensures |Candidates(t, hits, text)| > 0 && Candidates(t, hits, text)[0] == Candidate(t, hits[0], text)[0]
    decreases |hits|
  {
    if |hits| > 1 {
      var init := hits[..|hits| - 1];
      assert init[0] == hits[0];
      CandidatesHead(t, init, text);
    }
  }

  /** A reference at the head of the candidates heads the result, enhanced. */
  lemma FirstCandidateFirst(text: string)
    requires |AllCandidates(text)| > 0
    ensures |EUReferences(text)| > 0 && EUReferences(text)[0] == Enhanced(AllCandidates(text)[0])
  {
    var all := AllCandidates(text);
    assert all == [all[0]] + all[1..];
    DedupConcat([all[0]], all[1..], RefKey, {});
    DedupSnoc([], all[0], RefKey, {});
    assert [] + [all[0]] == [all[0]];
  }

  /** The candidate the short form yields: the same directive, id and community. */
  lemma ShortDirectiveCandidate(ref: EUReference, h: Hit, text: string)
    requires WellFormed(ref) && ref.actType == Directive && ref.year <= 9999
    requires text == FormatEUReference(ref, ShortEU)
    requires h == Hit(0, |text|, [Some(text), Some(CommunityName(ref.community.value)), Some(NatToString(ref.year)), Some(NatToString(ref.number))])
    ensures var c := Candidate(Directive, h, text);
      |c| == 1 && c[0].actType == Directive && c[0].id == ref.id && c[0].community == ref.community && c[0].year == ref.year && c[0].number == ref.number
  {
    var name := CommunityName(ref.community.value);
    CommunityNameShape(ref.community.value);
    SmallWidths(ref.year);
    DigitsNotIssuer(Some(NatToString(ref.year)));
    ParenDirectiveOutcome(h.groups);
    CommunityNameParses(ref.community.value);
    PivotLarge(ref.year);
  }

  /**
   * Printing an extracted directive with a year below 10000 in the short
   * style and extracting again gives the same directive, id and community
   * first.
   */
  lemma ShortFormatReparses(ref: EUReference)
    requires WellFormed(ref) && ref.actType == Directive && ref.year <= 9999
    ensures var out := EUReferences(FormatEUReference(ref, ShortEU));
      |out| > 0 && out[0].actType == Directive && out[0].id == ref.id && out[0].community == ref.community
  {
    var text := FormatEUReference(ref, ShortEU);
    var name := CommunityName(ref.community.value);
    var y := NatToString(ref.year);
    var n := NatToString(ref.number);
    assert text == "direktiv (" + name + ") " + ref.id;
    CommunityNameShape(ref.community.value);
    SmallWidths(ref.year);
    ShortDirectiveLayout(name, y, n, ref.id, text);
    DirectiveParenGroups(text, name, y, n);
    MatchAllAtStart(DirectiveParenAt, text);
    var hits := MatchAll(DirectiveParenAt, text);
    ShortDirectiveCandidate(ref, hits[0], text);
    CandidatesHead(Directive, hits, text);
    FirstPatternLeads(text);
    FirstCandidateFirst(text);
    EnhancedKeeps(AllCandidates(text)[0]);
  }

  /** The first pattern's candidates lead the candidates of all patterns. */
  lemma {:induction false} PatternCandidatesHead(text: string, ps: seq<Matcher>, t: ActType)
    requires |ps| > 0 && |Candidates(t, MatchAll(ps[0], text), text)| > 0
    ensures |PatternCandidates(text, ps, t)| > 0
    ensures PatternCandidates(text, ps, t)[0] == Candidates(t, MatchAll(ps[0], text), text)[0]
    decreases |ps|
  {
    var init := ps[..|ps| - 1];
    if |ps| == 1 {
      assert init == [];
    } else {
      assert init[0] == ps[0];
      PatternCandidatesHead(text, init, t);
    }
  }

  /** The first directive pattern's candidates lead all candidates. */
  lemma FirstPatternLeads(text: string)
    requires |Candidates(Directive, MatchAll(DirectiveParenAt, text), text)| > 0
    ensures |AllCandidates(text)| > 0
    ensures AllCandidates(text)[0] == Candidates(Directive, MatchAll(DirectiveParenAt, text), text)[0]
  {
    PatternCandidatesHead(text, DirectivePatterns, Directive);
  }
}
