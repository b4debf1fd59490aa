/**
 * `extractCrossReferences`: three global scans over a provision's text, for
 * LOV ids, legacy `(YYYY:N)` numbers and `N kap. M §` provision references,
 * pushing each new reference under a `seen` set of prefixed keys.
 *
 * The three regular expressions are module-level objects with the global
 * flag, so each scan reads and writes the object's `lastIndex`; the class
 * `Patterns` holds those three positions.
 */
module CrossRefExtractor {
  import opened Wrappers
  import opened Text
  import opened Scan

  /** `ExtractedRef` */
  datatype ExtractedRef = ExtractedRef(targetLawId: Option<string>, targetProvisionRef: Option<string>, rawText: string)

  /** The three module-level patterns, in the order they are scanned. */
  datatype Pattern = LovPattern | SfsPattern | ProvisionPattern

  // ---------------------------------------------------------------------------
  // The patterns, as matches at a fixed position

  /** `LOV_REF_PATTERN`, `/(LOV-\d{4}-\d{2}-\d{2}-\d+)/g`: group 1 is the whole match. */
  function LovRefAt(s: string, k: nat): (r: Option<MatchAt>)
    ensures r.Some? ==> r.value.len > 0
  {
    if LitAt(s, k, "LOV-") && DigitsAt(s, k + 4, 4) && CharAt(s, k + 8, '-') && DigitsAt(s, k + 9, 2)
       && CharAt(s, k + 11, '-') && DigitsAt(s, k + 12, 2) && CharAt(s, k + 14, '-') then
      var e := DigitRun(s, k + 15);
      if e > k + 15 then Some(MatchAt(e - k, [Some(s[k..e]), Some(s[k..e])])) else None
    else None
  }

  /** `SFS_REF_PATTERN`, `/\((\d{4}:\d+)\)/g`: group 1 is the number without its parentheses. */
  function SfsRefAt(s: string, k: nat): (r: Option<MatchAt>)
    ensures r.Some? ==> r.value.len > 0
  {
    if CharAt(s, k, '(') && DigitsAt(s, k + 1, 4) && CharAt(s, k + 5, ':') then
      var e := DigitRun(s, k + 6);
      if e > k + 6 && CharAt(s, e, ')') then Some(MatchAt(e + 1 - k, [Some(s[k..e + 1]), Some(s[k + 1..e])])) else None
    else None
  }

  /**
   * `PROVISION_REF_PATTERN`, `/(\d+)\s*kap\.\s*(\d+\s*[a-z]?)\s*§/g`: group 1
   * the chapter, group 2 the section with the whitespace after its number.
   * Every quantifier is greedy and what follows it cannot match what it
   * gave up (a digit cannot stand where whitespace, `k` or `§` must, and a
   * letter or whitespace cannot stand where `§` must), so the first choice
   * at each step is the only one that can succeed.
   */
  function ProvisionRefAt(s: string, k: nat): (r: Option<MatchAt>)
    ensures r.Some? ==> r.value.len > 0
  {
    if k <= |s| then
      var d := DigitRun(s, k);
      if d > k then
        var a := SpaceRun(s, d);
        if LitAt(s, a, "kap.") then SectionAfterKap(s, k, d, a + 4) else None
      else None
    else None
  }

  /** The rest of the provision pattern, from just after `kap.`. */
  function SectionAfterKap(s: string, k: nat, d: nat, b: nat): (r: Option<MatchAt>)
    requires k < d <= b <= |s|
    ensures r.Some? ==> r.value.len > 0
  {
    var p := SpaceRun(s, b);
    var q := DigitRun(s, p);
    if q > p then
      var w := SpaceRun(s, q);
      var l := if w < |s| && IsAsciiLower(s[w]) then w + 1 else w;
      var e := SpaceRun(s, l);
      if CharAt(s, e, '§') then Some(MatchAt(e + 1 - k, [Some(s[k..e + 1]), Some(s[k..d]), Some(s[p..l])])) else None
    else None
  }

  function Recogniser(p: Pattern): Matcher {
    match p
    case LovPattern => LovRefAt
    case SfsPattern => SfsRefAt
    case ProvisionPattern => ProvisionRefAt
  }

  // ---------------------------------------------------------------------------
  // What each hit would push, and under which key

  /** `match[i]`, as a string. */
  function Group(h: Hit, i: nat): string {
    if i < |h.groups| && h.groups[i].Some? then h.groups[i].value else ""
  }

  /** The key prefix of each kind. */
  function Prefix(p: Pattern): string {
    match p
    case LovPattern => "lov:"
    case SfsPattern => "sfs:"
    case ProvisionPattern => "prov:"
  }

  /** `${chapter}:${section}` with the section whitespace-collapsed and trimmed. */
  function ProvisionRef(h: Hit): string {
    Group(h, 1) + ":" + Normalize(Group(h, 2))
  }

  /** The key a hit is looked up under, and the reference it pushes when the key is new. */
  function Keyed(p: Pattern, h: Hit): (string, ExtractedRef) {
    match p
    case LovPattern => (Prefix(p) + Group(h, 1), ExtractedRef(Some(Group(h, 1)), None, Group(h, 0)))
    case SfsPattern => (Prefix(p) + Group(h, 1), ExtractedRef(Some(Group(h, 1)), None, Group(h, 0)))
    case ProvisionPattern => (Prefix(p) + ProvisionRef(h), ExtractedRef(None, Some(ProvisionRef(h)), Group(h, 0)))
  }

  function KeyOf(c: (string, ExtractedRef)): string { c.0 }

  function Keyeds(p: Pattern, hits: seq<Hit>): (r: seq<(string, ExtractedRef)>)
    ensures |r| == |hits| && forall j :: 0 <= j < |hits| ==> r[j] == Keyed(p, hits[j])
  {
    seq(|hits|, j requires 0 <= j < |hits| => Keyed(p, hits[j]))
  }

  function Refs(items: seq<(string, ExtractedRef)>): (r: seq<ExtractedRef>)
    ensures |r| == |items| && forall j :: 0 <= j < |items| ==> r[j] == items[j].1
  {
    seq(|items|, j requires 0 <= j < |items| => items[j].1)
  }

  /** Every hit of a global scan whose `lastIndex` starts at `from`, with its key. */
  function Candidates(p: Pattern, text: string, from: nat): seq<(string, ExtractedRef)> {
    Keyeds(p, AllFrom(Recogniser(p), text, from))
  }

  /** What one call returns when the three `lastIndex` values start at `lov`, `sfs` and `prov`. */
  function CrossReferencesFrom(text: string, lov: nat, sfs: nat, prov: nat): seq<ExtractedRef> {
    Refs(Dedup(Candidates(LovPattern, text, lov) + Candidates(SfsPattern, text, sfs) + Candidates(ProvisionPattern, text, prov), KeyOf, {}))
  }

  /** What one call returns: every scan starts at the beginning of the text. */
  function CrossReferences(text: string): seq<ExtractedRef> {
    CrossReferencesFrom(text, 0, 0, 0)
  }

  // ---------------------------------------------------------------------------
  // The regular-expression objects and the scans

  lemma KeyedsSnoc(p: Pattern, hits: seq<Hit>, h: Hit)
    ensures Keyeds(p, hits + [h]) == Keyeds(p, hits) + [Keyed(p, h)]
  {
  }

  lemma RefsSnoc(items: seq<(string, ExtractedRef)>, c: (string, ExtractedRef))
    ensures Refs(items + [c]) == Refs(items) + [c.1]
  {
  }

  /** A search that finds a hit resumes where the hit ends, since no pattern matches the empty string. */
  lemma AllFromStep(p: Pattern, text: string, pos: nat)
    requires FirstMatch(Recogniser(p), text, pos).Some?
    ensures var h := FirstMatch(Recogniser(p), text, pos).value;
      h.start < h.end && AllFrom(Recogniser(p), text, pos) == [h] + AllFrom(Recogniser(p), text, h.end)
  {
  }

  /** One turn of a scan loop consumes the next hit. */
  lemma ScanConsumes(p: Pattern, text: string, from: nat, pos: nat, visited: seq<Hit>)
    requires FirstMatch(Recogniser(p), text, pos).Some?
    requires AllFrom(Recogniser(p), text, from) == visited + AllFrom(Recogniser(p), text, pos)
    ensures var h := FirstMatch(Recogniser(p), text, pos).value;
      && h.start < h.end
      && AllFrom(Recogniser(p), text, from) == (visited + [h]) + AllFrom(Recogniser(p), text, h.end)
  {
    AllFromStep(p, text, pos);
  }

  /** One turn of a scan loop pushes the hit when its key is new. */
  lemma ScanPushes(p: Pattern, h: Hit, visited: seq<Hit>, start: Pushed<(string, ExtractedRef), string>, now: Pushed<(string, ExtractedRef), string>)
    requires now == PushAll(start, Keyeds(p, visited), KeyOf)
    ensures var c := Keyed(p, h);
      PushAll(start, Keyeds(p, visited + [h]), KeyOf) ==
        if c.0 in now.seen then now else Pushed(now.items + [c], now.seen + {c.0})
  {
    KeyedsSnoc(p, visited, h);
    PushAllSnoc(start, Keyeds(p, visited), [Keyed(p, h)], KeyOf);
  }

  class Patterns {
    /** `LOV_REF_PATTERN.lastIndex`, `SFS_REF_PATTERN.lastIndex`, `PROVISION_REF_PATTERN.lastIndex` */
    var lovLastIndex: nat
    var sfsLastIndex: nat
    var provisionLastIndex: nat

    /** Between calls every scan has run to its end, which puts `lastIndex` back to 0. */
    predicate Valid()
      reads this
    {
      lovLastIndex == 0 && sfsLastIndex == 0 && provisionLastIndex == 0
    }

    /** The three literals as the module creates them. */
    constructor()
      ensures Valid()
    {
      lovLastIndex, sfsLastIndex, provisionLastIndex := 0, 0, 0;
    }

    function LastIndex(p: Pattern): nat
      reads this
    {
      match p
      case LovPattern => lovLastIndex
      case SfsPattern => sfsLastIndex
      case ProvisionPattern => provisionLastIndex
    }

    /**
     * `re.exec(text)` on a global regular expression: the leftmost match at
     * or after `lastIndex`, which moves `lastIndex` to the match's end, or
     * back to 0 when there is none.
     */
    method Exec(p: Pattern, text: string) returns (m: Option<Hit>)
      modifies this
      ensures m == FirstMatch(Recogniser(p), text, old(LastIndex(p)))
      ensures LastIndex(p) == if m.Some? then m.value.end else 0
      ensures forall q :: q != p ==> LastIndex(q) == old(LastIndex(q))
    {
      m := FirstMatch(Recogniser(p), text, LastIndex(p));
      var next := if m.Some? then m.value.end else 0;
      match p
      case LovPattern => lovLastIndex := next;
      case SfsPattern => sfsLastIndex := next;
      case ProvisionPattern => provisionLastIndex := next;
    }

    /**
     * One `while ((match = re.exec(text)) !== null)` loop: each hit's key is
     * looked up in `seen`, and a new key is added and its reference pushed.
     * The loop ends at the first failed search, with `lastIndex` back at 0.
     */
    method ScanPattern(p: Pattern, text: string, refs0: seq<ExtractedRef>, seen0: set<string>, ghost items0: seq<(string, ExtractedRef)>)
      returns (refs: seq<ExtractedRef>, seen: set<string>, ghost items: seq<(string, ExtractedRef)>)
      requires refs0 == Refs(items0)
      modifies this
      ensures Pushed(items, seen) == PushAll(Pushed(items0, seen0), Candidates(p, text, old(LastIndex(p))), KeyOf)
      ensures refs == Refs(items)
      ensures LastIndex(p) == 0 && forall q :: q != p ==> LastIndex(q) == old(LastIndex(q))
    {
      refs, seen, items := refs0, seen0, items0;
      ghost var from := LastIndex(p);
      ghost var pos := from;
      ghost var visited: seq<Hit> := [];
      var m := Exec(p, text);
      while m.Some?
        invariant m == FirstMatch(Recogniser(p), text, pos)
        invariant AllFrom(Recogniser(p), text, from) == visited + AllFrom(Recogniser(p), text, pos)
        invariant Pushed(items, seen) == PushAll(Pushed(items0, seen0), Keyeds(p, visited), KeyOf)
        invariant refs == Refs(items)
        invariant LastIndex(p) == if m.Some? then m.value.end else 0
        invariant forall q :: q != p ==> LastIndex(q) == old(LastIndex(q))
        decreases if m.Some? then |text| + 1 - m.value.start else 0
      {
        var h := m.value;
        var c := Keyed(p, h);
        ScanConsumes(p, text, from, pos, visited);
        ScanPushes(p, h, visited, Pushed(items0, seen0), Pushed(items, seen));
        if c.0 !in seen {
          RefsSnoc(items, c);
          seen := seen + {c.0};
          refs := refs + [c.1];
          items := items + [c];
        }
        visited := visited + [h];
        pos := h.end;
        m := Exec(p, text);
      }
      assert AllFrom(Recogniser(p), text, pos) == [];
      assert visited + [] == visited;
    }

    /** `extractCrossReferences` */
    method ExtractCrossReferences(text: string) returns (refs: seq<ExtractedRef>)
      modifies this
      ensures refs == CrossReferencesFrom(text, old(lovLastIndex), old(sfsLastIndex), old(provisionLastIndex))
      ensures Valid()
    {
      var seen: set<string>;
      ghost var items: seq<(string, ExtractedRef)>;
      ghost var lov, sfs, prov := lovLastIndex, sfsLastIndex, provisionLastIndex;
      ghost var l, s, v := Candidates(LovPattern, text, lov), Candidates(SfsPattern, text, sfs), Candidates(ProvisionPattern, text, prov);
      refs, seen, items := ScanPattern(LovPattern, text, [], {}, []);
      refs, seen, items := ScanPattern(SfsPattern, text, refs, seen, items);
      refs, seen, items := ScanPattern(ProvisionPattern, text, refs, seen, items);
      PushAllConcat(Pushed([], {}), l, s, KeyOf);
      PushAllConcat(Pushed([], {}), l + s, v, KeyOf);
      PushAllFromEmpty(l + s + v, KeyOf);
    }

    /** A second call sees the same `lastIndex` values as the first, so it returns the same references. */
    method ExtractTwice(text: string) returns (first: seq<ExtractedRef>, second: seq<ExtractedRef>)
      requires Valid()
      modifies this
      ensures first == second == CrossReferences(text)
      ensures Valid()
    {
      first := ExtractCrossReferences(text);
      second := ExtractCrossReferences(text);
    }
  }

  // ---------------------------------------------------------------------------
  // What the references look like

  /** A LOV id as the pattern accepts it: `LOV-dddd-dd-dd-` and at least one more digit. */
  predicate IsLovRefId(id: string) {
    && LitAt(id, 0, "LOV-") && DigitsAt(id, 4, 4) && CharAt(id, 8, '-') && DigitsAt(id, 9, 2)
    && CharAt(id, 11, '-') && DigitsAt(id, 12, 2) && CharAt(id, 14, '-')
    && |id| > 15 && DigitRun(id, 15) == |id|
  }

  /** A legacy number `dddd:d…` without its parentheses. */
  predicate IsSfsNumber(n: string) {
    DigitsAt(n, 0, 4) && CharAt(n, 4, ':') && |n| > 5 && DigitRun(n, 5) == |n|
  }

  /** A section as a provision reference carries it: digits, then optionally a lower-case letter, directly or after one space. */
  predicate IsSectionRef(x: string) {
    var d := DigitRun(x, 0);
    && d > 0
    && (|| d == |x|
        || (d + 1 == |x| && IsAsciiLower(x[d]))
        || (d + 2 == |x| && x[d] == ' ' && IsAsciiLower(x[d + 1])))
  }

  /** `C:S`: the chapter digits, a colon and a section. */
  predicate IsProvisionRef(r: string) {
    var c := DigitRun(r, 0);
    c > 0 && c < |r| && r[c] == ':' && IsSectionRef(r[c + 1..])
  }

  /** What a reference of each kind looks like: which target is set, and how the raw text relates to it. */
  predicate RefShape(p: Pattern, r: ExtractedRef) {
    match p
    case LovPattern =>
      r.targetLawId == Some(r.rawText) && r.targetProvisionRef.None? && IsLovRefId(r.rawText)
    case SfsPattern =>
      && r.targetLawId.Some? && r.targetProvisionRef.None?
      && r.rawText == "(" + r.targetLawId.value + ")" && IsSfsNumber(r.targetLawId.value)
    case ProvisionPattern =>
      && r.targetLawId.None? && r.targetProvisionRef.Some? && IsProvisionRef(r.targetProvisionRef.value)
      && LitAt(r.rawText, 0, r.targetProvisionRef.value[..DigitRun(r.targetProvisionRef.value, 0)])
      && |r.rawText| > 0 && r.rawText[|r.rawText| - 1] == '§'
  }

  lemma LovGroups(s: string, k: nat)
    requires LovRefAt(s, k).Some?
    ensures var g := LovRefAt(s, k).value.groups;
      |g| == 2 && g[0].Some? && g[1] == g[0] && IsLovRefId(g[0].value)
  {
    var e := DigitRun(s, k + 15);
    var id := s[k..e];
    assert forall j :: 0 <= j < |id| ==> id[j] == s[k + j];
    assert id[0..4] == s[k..k + 4];
    DigitRunExact(id, 15, |id|);
  }

  lemma SfsGroups(s: string, k: nat)
    requires SfsRefAt(s, k).Some?
    ensures var g := SfsRefAt(s, k).value.groups;
      && |g| == 2 && g[0].Some? && g[1].Some?
      && g[0].value == "(" + g[1].value + ")" && IsSfsNumber(g[1].value)
  {
    var e := DigitRun(s, k + 6);
    var n := s[k + 1..e];
    assert forall j :: 0 <= j < |n| ==> n[j] == s[k + 1 + j];
    assert s[k..e + 1] == [s[k]] + n + [s[e]];
    DigitRunExact(n, 5, |n|);
  }

  /** The section group, collapsed and trimmed, is a section reference. */
  lemma SectionRefShape(d: string, w: string, l: string)
    requires |d| > 0 && AllDigits(d) && AllSpace(w)
    requires |l| <= 1 && (|l| == 1 ==> IsAsciiLower(l[0]))
    ensures IsSectionRef(Normalize(d + w + l))
  {
    NormalizeGroupParts(d, w, l);
    var n := Normalize(d + w + l);
    assert n[..|d|] == d;
    DigitRunExact(n, 0, |d|);
  }

  lemma ProvisionRefShape(c: string, n: string)
    requires |c| > 0 && AllDigits(c) && IsSectionRef(n)
    ensures DigitRun(c + ":" + n, 0) == |c| && IsProvisionRef(c + ":" + n)
  {
    var r := c + ":" + n;
    DigitRunExact(r, 0, |c|);
    assert r[|c| + 1..] == n;
  }

  /** Group 2 of the provision pattern, collapsed and trimmed, is a section reference. */
  lemma SectionSlice(s: string, p: nat, q: nat, w: nat, l: nat)
    requires p < q <= w <= l <= |s|
    requires forall j :: p <= j < q ==> IsDigit(s[j])
    requires forall j :: q <= j < w ==> IsSpace(s[j])
    requires l == w || (l == w + 1 && IsAsciiLower(s[w]))
    ensures IsSectionRef(Normalize(s[p..l]))
  {
    assert s[p..l] == s[p..q] + s[q..w] + s[w..l];
    DigitsSlice(s, p, q);
    assert AllSpace(s[q..w]) by {
      forall j | 0 <= j < w - q ensures IsSpace(s[q..w][j]) {
        assert s[q..w][j] == s[q + j];
      }
    }
    SectionRefShape(s[p..q], s[q..w], s[w..l]);
  }

  lemma SectionGroups(s: string, k: nat, d: nat, b: nat)
    requires k < d <= b <= |s|
    requires SectionAfterKap(s, k, d, b).Some?
    ensures var g := SectionAfterKap(s, k, d, b).value.groups;
      && |g| == 3 && g[0].Some? && g[1].Some? && g[2].Some?
      && g[1].value == s[k..d] && IsSectionRef(Normalize(g[2].value))
      && LitAt(g[0].value, 0, g[1].value) && |g[0].value| > 0 && g[0].value[|g[0].value| - 1] == '§'
  {
    var p := SpaceRun(s, b);
    var q := DigitRun(s, p);
    var w := SpaceRun(s, q);
    var l := if w < |s| && IsAsciiLower(s[w]) then w + 1 else w;
    var e := SpaceRun(s, l);
    SectionSlice(s, p, q, w, l);
    var raw := s[k..e + 1];
    assert SectionAfterKap(s, k, d, b).value.groups == [Some(raw), Some(s[k..d]), Some(s[p..l])];
    assert raw[0..d - k] == s[k..d];
    assert raw[|raw| - 1] == s[e] == '§';
  }

  lemma ProvisionGroups(s: string, k: nat)
    requires ProvisionRefAt(s, k).Some?
    ensures var g := ProvisionRefAt(s, k).value.groups;
      && |g| == 3 && g[0].Some? && g[1].Some? && g[2].Some?
      && |g[1].value| > 0 && AllDigits(g[1].value) && IsSectionRef(Normalize(g[2].value))
      && LitAt(g[0].value, 0, g[1].value) && |g[0].value| > 0 && g[0].value[|g[0].value| - 1] == '§'
  {
    var d := DigitRun(s, k);
    var a := SpaceRun(s, d);
    SectionGroups(s, k, d, a + 4);
    DigitsSlice(s, k, d);
  }

  /** The reference a hit of a pattern pushes has that pattern's shape. */
  lemma HitRefShape(p: Pattern, text: string, h: Hit)
    requires MatchesAt(Recogniser(p), text, h.start) && h.groups == Recogniser(p)(text, h.start).value.groups
    ensures RefShape(p, Keyed(p, h).1)
  {
    match p {
      case LovPattern => LovGroups(text, h.start);
      case SfsPattern => SfsGroups(text, h.start);
      case ProvisionPattern => ProvisionHitShape(text, h);
    }
  }

  lemma ProvisionHitShape(text: string, h: Hit)
    requires ProvisionRefAt(text, h.start).Some? && h.groups == ProvisionRefAt(text, h.start).value.groups
    ensures RefShape(ProvisionPattern, Keyed(ProvisionPattern, h).1)
  {
    ProvisionGroups(text, h.start);
    ProvisionGroupsShape(h);
  }

  /** Groups shaped as the provision pattern captures them give a reference of the provision kind. */
  lemma ProvisionGroupsShape(h: Hit)
    requires var g := h.groups;
      && |g| == 3 && g[0].Some? && g[1].Some? && g[2].Some?
      && |g[1].value| > 0 && AllDigits(g[1].value) && IsSectionRef(Normalize(g[2].value))
      && LitAt(g[0].value, 0, g[1].value) && |g[0].value| > 0 && g[0].value[|g[0].value| - 1] == '§'
    ensures RefShape(ProvisionPattern, Keyed(ProvisionPattern, h).1)
  {
    ProvisionShapeOf(Group(h, 1), Normalize(Group(h, 2)), Group(h, 0));
  }

  lemma ProvisionShapeOf(c: string, n: string, raw: string)
    requires |c| > 0 && AllDigits(c) && IsSectionRef(n) && LitAt(raw, 0, c) && |raw| > 0 && raw[|raw| - 1] == '§'
    ensures RefShape(ProvisionPattern, ExtractedRef(None, Some(c + ":" + n), raw))
  {
    ProvisionRefShape(c, n);
    assert (c + ":" + n)[..|c|] == c;
  }

  // ---------------------------------------------------------------------------
  // The three scans, and what together they return

  /** What one of the three loops pushes for a run of hits, from an empty `seen`. */
  function CategoryOf(p: Pattern, hits: seq<Hit>): seq<ExtractedRef> {
    Refs(Dedup(Keyeds(p, hits), KeyOf, {}))
  }

  /** What one of the three loops pushes, read on its own from the start of the text. */
  function Category(p: Pattern, text: string): seq<ExtractedRef> {
    CategoryOf(p, MatchAll(Recogniser(p), text))
  }

  /** The target a reference names, as a pair of the two optional fields. */
  function TargetPair(r: ExtractedRef): (Option<string>, Option<string>) {
    (r.targetLawId, r.targetProvisionRef)
  }

  /** The target string a key carries after its prefix. */
  function Target(p: Pattern, r: ExtractedRef): string {
    match p
    case ProvisionPattern => if r.targetProvisionRef.Some? then r.targetProvisionRef.value else ""
    case _ => if r.targetLawId.Some? then r.targetLawId.value else ""
  }

  /** The pair of fields a target string of each kind fills in. */
  function PairOf(p: Pattern, t: string): (Option<string>, Option<string>) {
    match p
    case ProvisionPattern => (None, Some(t))
    case _ => (Some(t), None)
  }

  /** A key is the kind's prefix followed by the target, and the target determines the reference's two fields. */
  lemma KeyedTarget(p: Pattern, h: Hit)
    ensures var c := Keyed(p, h);
      c.0 == Prefix(p) + Target(p, c.1) && TargetPair(c.1) == PairOf(p, Target(p, c.1))
  {
  }

  /** The keys of each kind begin with that kind's letter. */
  lemma KeysLead(p: Pattern, hits: seq<Hit>)
    ensures forall k :: k in Keys(Keyeds(p, hits), KeyOf) ==> |k| > 0 && k[0] == Prefix(p)[0]
  {
  }

  lemma RefsConcat(xs: seq<(string, ExtractedRef)>, ys: seq<(string, ExtractedRef)>)
    ensures Refs(xs + ys) == Refs(xs) + Refs(ys)
  {
  }

  /** Two runs with no key in common de-duplicate independently. */
  lemma DedupDisjoint(xs: seq<(string, ExtractedRef)>, ys: seq<(string, ExtractedRef)>)
    requires forall k :: k in Keys(xs, KeyOf) ==> k !in Keys(ys, KeyOf)
    ensures Dedup(xs + ys, KeyOf, {}) == Dedup(xs, KeyOf, {}) + Dedup(ys, KeyOf, {})
  {
    DedupConcat(xs, ys, KeyOf, {});
    assert {} + KeySet(xs, KeyOf) == KeySet(xs, KeyOf);
    DedupIgnoresForeign(ys, KeyOf, {}, KeySet(xs, KeyOf));
  }

  /** Three runs of hits of the three kinds: de-duplicating them together is de-duplicating each alone. */
  lemma CategoriesSplit(hl: seq<Hit>, hs: seq<Hit>, hv: seq<Hit>)
    ensures Refs(Dedup(Keyeds(LovPattern, hl) + Keyeds(SfsPattern, hs) + Keyeds(ProvisionPattern, hv), KeyOf, {}))
         == CategoryOf(LovPattern, hl) + CategoryOf(SfsPattern, hs) + CategoryOf(ProvisionPattern, hv)
  {
    var l, s, v := Keyeds(LovPattern, hl), Keyeds(SfsPattern, hs), Keyeds(ProvisionPattern, hv);
    KeysLead(LovPattern, hl);
    KeysLead(SfsPattern, hs);
    KeysLead(ProvisionPattern, hv);
    DedupDisjoint(l, s);
    KeysAppend(l, s, KeyOf);
    DedupDisjoint(l + s, v);
    RefsConcat(Dedup(l, KeyOf, {}), Dedup(s, KeyOf, {}));
    RefsConcat(Dedup(l + s, KeyOf, {}), Dedup(v, KeyOf, {}));
  }

  /**
   * The output lists the LOV references, then the legacy ones, then the
   * provision references, each group exactly what its loop would push on
   * its own: the key prefixes differ, so no kind suppresses another.
   */
  lemma CategoriesIndependent(text: string)
    ensures CrossReferences(text) == Category(LovPattern, text) + Category(SfsPattern, text) + Category(ProvisionPattern, text)
  {
    CategoriesSplit(MatchAll(Recogniser(LovPattern), text), MatchAll(Recogniser(SfsPattern), text), MatchAll(Recogniser(ProvisionPattern), text));
  }

  /** Every hit a scan finds pushes a reference of its kind's shape. */
  lemma HitsShape(p: Pattern, text: string)
    ensures forall h :: h in MatchAll(Recogniser(p), text) ==> RefShape(p, Keyed(p, h).1)
  {
    forall h | h in MatchAll(Recogniser(p), text) ensures RefShape(p, Keyed(p, h).1) {
      HitRefShape(p, text, h);
    }
  }

  lemma CategoryOfShape(p: Pattern, hits: seq<Hit>)
    requires forall h :: h in hits ==> RefShape(p, Keyed(p, h).1)
    ensures forall r :: r in CategoryOf(p, hits) ==> RefShape(p, r)
  {
    var cs := Keyeds(p, hits);
    var d := Dedup(cs, KeyOf, {});
    DedupKeys(cs, KeyOf, {});
    forall r | r in CategoryOf(p, hits) ensures RefShape(p, r) {
      var a :| 0 <= a < |d| && d[a].1 == r;
      assert d[a] in cs;
      var j :| 0 <= j < |cs| && cs[j] == d[a];
      assert hits[j] in hits;
    }
  }

  /** Every reference of a kind has that kind's shape. */
  lemma CategoryShape(p: Pattern, text: string)
    ensures forall r :: r in Category(p, text) ==> RefShape(p, r)
  {
    HitsShape(p, text);
    CategoryOfShape(p, MatchAll(Recogniser(p), text));
  }

  predicate DistinctTargets(rs: seq<ExtractedRef>) {
    forall a, b :: 0 <= a < b < |rs| ==> TargetPair(rs[a]) != TargetPair(rs[b])
  }

  /** No two references pushed for one kind name the same target: their keys differ. */
  lemma CategoryOfDistinct(p: Pattern, hits: seq<Hit>)
    ensures DistinctTargets(CategoryOf(p, hits))
  {
    var cs := Keyeds(p, hits);
    var d := Dedup(cs, KeyOf, {});
    DedupKeys(cs, KeyOf, {});
    forall a, b | 0 <= a < b < |d| ensures TargetPair(d[a].1) != TargetPair(d[b].1) {
      assert d[a] in cs && d[b] in cs;
      var i :| 0 <= i < |cs| && cs[i] == d[a];
      var j :| 0 <= j < |cs| && cs[j] == d[b];
      KeyedTarget(p, hits[i]);
      KeyedTarget(p, hits[j]);
    }
  }

  /** References of different kinds never name the same target. */
  lemma ShapesDisjoint(p: Pattern, q: Pattern, x: ExtractedRef, y: ExtractedRef)
    requires p != q && RefShape(p, x) && RefShape(q, y)
    ensures TargetPair(x) != TargetPair(y)
  {
    if p == LovPattern && q == SfsPattern {
      assert x.targetLawId.value[0] == 'L';
    } else if p == SfsPattern && q == LovPattern {
      assert y.targetLawId.value[0] == 'L';
    }
  }

  /** Three distinct runs of the three shapes joined stay distinct. */
  lemma DistinctJoin(l: seq<ExtractedRef>, s: seq<ExtractedRef>, v: seq<ExtractedRef>)
    requires DistinctTargets(l) && DistinctTargets(s) && DistinctTargets(v)
    requires forall x :: x in l ==> RefShape(LovPattern, x)
    requires forall x :: x in s ==> RefShape(SfsPattern, x)
    requires forall x :: x in v ==> RefShape(ProvisionPattern, x)
    ensures DistinctTargets(l + s + v)
  {
    var all := l + s + v;
    forall a, b | 0 <= a < b < |all| ensures TargetPair(all[a]) != TargetPair(all[b]) {
      if b < |l| {
      } else if a < |l| && b < |l| + |s| {
        ShapesDisjoint(LovPattern, SfsPattern, l[a], s[b - |l|]);
      } else if a < |l| {
        ShapesDisjoint(LovPattern, ProvisionPattern, l[a], v[b - |l| - |s|]);
      } else if b < |l| + |s| {
        assert all[a] == s[a - |l|] && all[b] == s[b - |l|];
      } else if a < |l| + |s| {
        ShapesDisjoint(SfsPattern, ProvisionPattern, s[a - |l|], v[b - |l| - |s|]);
      } else {
        assert all[a] == v[a - |l| - |s|] && all[b] == v[b - |l| - |s|];
      }
    }
  }

  /** No two references in the output name the same target, within a kind or across kinds. */
  lemma CrossReferencesDistinct(text: string)
    ensures DistinctTargets(CrossReferences(text))
  {
    CategoriesIndependent(text);
    CategoryOfDistinct(LovPattern, MatchAll(Recogniser(LovPattern), text));
    CategoryOfDistinct(SfsPattern, MatchAll(Recogniser(SfsPattern), text));
    CategoryOfDistinct(ProvisionPattern, MatchAll(Recogniser(ProvisionPattern), text));
    CategoryShape(LovPattern, text);
    CategoryShape(SfsPattern, text);
    CategoryShape(ProvisionPattern, text);
    DistinctJoin(Category(LovPattern, text), Category(SfsPattern, text), Category(ProvisionPattern, text));
  }

  /** Each reference is pushed by the first hit carrying its key. */
  lemma CategoryOfFirstSeen(p: Pattern, hits: seq<Hit>, a: nat)
    requires a < |CategoryOf(p, hits)|
    ensures exists j :: (0 <= j < |hits| && Keyed(p, hits[j]).1 == CategoryOf(p, hits)[a]
      && forall i :: 0 <= i < j ==> Keyed(p, hits[i]).0 != Keyed(p, hits[j]).0)
  {
    var cs := Keyeds(p, hits);
    var d := Dedup(cs, KeyOf, {});
    assert d[a] in d;
    DedupKeepsFirst(cs, KeyOf, {}, d[a]);
    var j :| 0 <= j < |cs| && cs[j] == d[a] && KeyOf(d[a]) !in Keys(cs[..j], KeyOf);
    forall i | 0 <= i < j ensures Keyed(p, hits[i]).0 != Keyed(p, hits[j]).0 {
      assert Keys(cs[..j], KeyOf)[i] == Keyed(p, hits[i]).0;
    }
  }

  /** The references keep the order of the hits that pushed them. */
  lemma CategoryOfOrdered(p: Pattern, hits: seq<Hit>, a: nat, b: nat)
    requires a < b < |CategoryOf(p, hits)|
    ensures exists i, j :: 0 <= i < j < |hits| && Keyed(p, hits[i]).1 == CategoryOf(p, hits)[a] && Keyed(p, hits[j]).1 == CategoryOf(p, hits)[b]
  {
    var cs := Keyeds(p, hits);
    var d := Dedup(cs, KeyOf, {});
    DedupOrdered(cs, KeyOf, {}, a, b);
    var x, y :| 0 <= x < y < |cs| && cs[x] == d[a] && cs[y] == d[b];
    assert Keyed(p, hits[x]).1 == CategoryOf(p, hits)[a] && Keyed(p, hits[y]).1 == CategoryOf(p, hits)[b];
  }

  /** Every hit of a run has its target among the references pushed for it. */
  lemma CategoryOfComplete(p: Pattern, hits: seq<Hit>, h: Hit)
    requires h in hits
    ensures exists r :: r in CategoryOf(p, hits) && TargetPair(r) == TargetPair(Keyed(p, h).1)
  {
    var cs := Keyeds(p, hits);
    var d := Dedup(cs, KeyOf, {});
    DedupKeys(cs, KeyOf, {});
    var j :| 0 <= j < |hits| && hits[j] == h;
    assert Keyed(p, h).0 in KeySet(cs, KeyOf) by {
      assert Keys(cs, KeyOf)[j] == Keyed(p, h).0;
    }
    assert Keyed(p, h).0 in KeySet(d, KeyOf);
    var a :| 0 <= a < |d| && Keys(d, KeyOf)[a] == Keyed(p, h).0;
    assert d[a] in cs;
    var i :| 0 <= i < |cs| && cs[i] == d[a];
    KeyedTarget(p, hits[i]);
    KeyedTarget(p, h);
    PrefixCancel(Prefix(p), Target(p, d[a].1), Target(p, Keyed(p, h).1));
    var r := CategoryOf(p, hits)[a];
    assert r == d[a].1 && r in CategoryOf(p, hits);
    assert TargetPair(r) == TargetPair(Keyed(p, h).1);
  }

  lemma PrefixCancel(pre: string, x: string, y: string)
    requires pre + x == pre + y
    ensures x == y
  {
    assert x == (pre + x)[|pre|..];
    assert y == (pre + y)[|pre|..];
  }

  /** Every hit of the three patterns has its target in the output. */
  lemma CrossReferencesComplete(text: string, p: Pattern, h: Hit)
    requires h in MatchAll(Recogniser(p), text)
    ensures exists r :: r in CrossReferences(text) && TargetPair(r) == TargetPair(Keyed(p, h).1)
  {
    CategoriesIndependent(text);
    CategoryOfComplete(p, MatchAll(Recogniser(p), text), h);
    var r :| r in Category(p, text) && TargetPair(r) == TargetPair(Keyed(p, h).1);
    assert r in CrossReferences(text);
  }

  // ---------------------------------------------------------------------------
  // Examples

  /** The character every match of a pattern contains: the `L` of `LOV-`, the `(`, or the `.` of `kap.`. */
  function Marker(p: Pattern): char {
    match p
    case LovPattern => 'L'
    case SfsPattern => '('
    case ProvisionPattern => '.'
  }

  lemma NoMatchWithoutMarker(p: Pattern, text: string, k: nat)
    requires forall j :: 0 <= j < |text| ==> text[j] != Marker(p)
    ensures !MatchesAt(Recogniser(p), text, k)
  {
    LitAtChar(text, k, "LOV-", 0);
    if k <= |text| {
      LitAtChar(text, SpaceRun(text, DigitRun(text, k)), "kap.", 3);
    }
  }

  /** A pattern finds nothing in a text without its marker character. */
  lemma NoHitsWithoutMarker(p: Pattern, text: string)
    requires forall j :: 0 <= j < |text| ==> text[j] != Marker(p)
    ensures MatchAll(Recogniser(p), text) == []
  {
    if FirstMatch(Recogniser(p), text, 0).Some? {
      NoMatchWithoutMarker(p, text, FirstMatch(Recogniser(p), text, 0).value.start);
    }
  }

  /** A text without any of the three marker characters has no cross-references. */
  lemma NoMarkersNoReferences(text: string)
    requires forall j :: 0 <= j < |text| ==> text[j] != 'L' && text[j] != '(' && text[j] != '.'
    ensures CrossReferences(text) == []
  {
    NoHitsWithoutMarker(LovPattern, text);
    NoHitsWithoutMarker(SfsPattern, text);
    NoHitsWithoutMarker(ProvisionPattern, text);
    CategoriesIndependent(text);
  }

  lemma LegacyNumberMatch(text: string)
    requires text == "(2018:218)"
    ensures SfsRefAt(text, 0) == Some(MatchAt(10, [Some(text), Some("2018:218")]))
  {
    DigitRunExact(text, 6, 9);
    assert text[1..9] == "2018:218";
    assert text[0..10] == text;
  }

  lemma LegacyNumberHits(text: string)
    requires text == "(2018:218)"
    ensures MatchAll(SfsRefAt, text) == [Hit(0, 10, [Some(text), Some("2018:218")])]
  {
    LegacyNumberMatch(text);
    MatchAllAtStart(SfsRefAt, text);
    assert !MatchesAt(SfsRefAt, text, 10);
    assert AllFrom(SfsRefAt, text, 10) == [];
  }

  /** A single hit pushes its own reference. */
  lemma CategoryOfOne(p: Pattern, h: Hit)
    ensures CategoryOf(p, [h]) == [Keyed(p, h).1]
  {
    var c := Keyed(p, h);
    assert Keyeds(p, [h]) == [c];
    assert [c][..0] == [];
    assert Keys([], KeyOf) == [];
    assert Dedup([c], KeyOf, {}) == Dedup([], KeyOf, {}) + [c] == [c];
    assert Refs([c]) == [c.1];
  }

  lemma CategoryOfNone(p: Pattern)
    ensures CategoryOf(p, []) == []
  {
    assert Keyeds(p, []) == [];
  }

  /** A kind whose marker character is absent contributes nothing. */
  lemma EmptyCategory(p: Pattern, text: string)
    requires forall j :: 0 <= j < |text| ==> text[j] != Marker(p)
    ensures Category(p, text) == []
  {
    NoHitsWithoutMarker(p, text);
    CategoryOfNone(p);
  }

  lemma LegacyNumberCategory(text: string)
    requires text == "(2018:218)"
    ensures Category(SfsPattern, text) == [ExtractedRef(Some("2018:218"), None, text)]
  {
    LegacyNumberHits(text);
    CategoryOfOne(SfsPattern, Hit(0, 10, [Some(text), Some("2018:218")]));
  }

  /** A legacy number on its own gives one reference, the number without its parentheses as the target. */
  lemma LegacyNumberExample(text: string)
    requires text == "(2018:218)"
    ensures CrossReferences(text) == [ExtractedRef(Some("2018:218"), None, "(2018:218)")]
  {
    EmptyCategory(LovPattern, text);
    EmptyCategory(ProvisionPattern, text);
    LegacyNumberCategory(text);
    CategoriesIndependent(text);
  }

  /** The `kapittel X § Y` form named in the module's description is not one the patterns recognise. */
  lemma KapittelFormNotRecognised(text: string)
    requires text == "kapittel 3 " + SectionSign + " 5"
    ensures CrossReferences(text) == []
  {
    KapittelNoMarkers(text);
    NoMarkersNoReferences(text);
  }

  lemma KapittelNoMarkers(text: string)
    requires text == "kapittel 3 " + SectionSign + " 5"
    ensures forall j :: 0 <= j < |text| ==> text[j] != 'L' && text[j] != '(' && text[j] != '.'
  {
  }
}
