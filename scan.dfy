/**
 * How the source drives its regular expressions: `exec` from a position,
 * `matchAll` (which steps one character past an empty match), and the
 * `Set`-based "first key wins" de-duplication that follows most scans.
 */
module Scan {
  import opened Wrappers

  /**
   * A match at a fixed start position: its length and its capture groups, in
   * the numbering of a JavaScript match array (index 0 is the whole match,
   * `None` a group that did not take part).
   */
  datatype MatchAt = MatchAt(len: nat, groups: seq<Option<string>>)

  /** A match found by a search: where it starts and ends, and its groups. */
  datatype Hit = Hit(start: nat, end: nat, groups: seq<Option<string>>)

  /** A regular expression, seen as the match it finds at a given start position. */
  type Matcher = (string, nat) -> Option<MatchAt>

  predicate MatchesAt(m: Matcher, s: string, k: nat) {
    k <= |s| && m(s, k).Some? && k + m(s, k).value.len <= |s|
  }

  /** `re.exec(s)` with `lastIndex == i`: the leftmost match starting at or after `i`. */
  function FirstMatch(m: Matcher, s: string, i: nat): (r: Option<Hit>)
    ensures r.Some? ==> i <= r.value.start <= r.value.end <= |s| && MatchesAt(m, s, r.value.start)
    ensures r.Some? ==> r.value.end == r.value.start + m(s, r.value.start).value.len
    ensures r.Some? ==> r.value.groups == m(s, r.value.start).value.groups
    ensures r.Some? ==> forall k :: i <= k < r.value.start ==> !MatchesAt(m, s, k)
    ensures r.None? ==> forall k :: i <= k ==> !MatchesAt(m, s, k)
    decreases |s| + 1 - i
  {
    if i > |s| then None
    else if MatchesAt(m, s, i) then Some(Hit(i, i + m(s, i).value.len, m(s, i).value.groups))
    else FirstMatch(m, s, i + 1)
  }

  /** A search finds the first position that matches. */
  lemma FirstMatchAt(m: Matcher, s: string, i: nat, p: nat)
    requires i <= p && MatchesAt(m, s, p) && forall k :: i <= k < p ==> !MatchesAt(m, s, k)
    ensures FirstMatch(m, s, i) == Some(Hit(p, p + m(s, p).value.len, m(s, p).value.groups))
  {
  }

  /** Where a global search resumes after a hit: one past an empty match. */
  function Resume(h: Hit): nat {
    if h.end == h.start then h.end + 1 else h.end
  }

  /** All hits of a global search from position `i`, as `while (exec)` and `matchAll` produce them. */
  function AllFrom(m: Matcher, s: string, i: nat): (r: seq<Hit>)
    ensures forall j :: 0 <= j < |r| ==>
      && i <= r[j].start <= r[j].end <= |s| && MatchesAt(m, s, r[j].start)
      && r[j].end == r[j].start + m(s, r[j].start).value.len
      && r[j].groups == m(s, r[j].start).value.groups
    ensures forall j :: 0 <= j < |r| - 1 ==> Resume(r[j]) <= r[j + 1].start
    ensures forall k :: i <= k < (if |r| > 0 then r[0].start else |s| + 1) ==> !MatchesAt(m, s, k)
    decreases |s| + 1 - i
  {
    match FirstMatch(m, s, i)
    case None => []
    case Some(h) => [h] + AllFrom(m, s, Resume(h))
  }

  /** `s.matchAll(re)` for a global `re`. */
  function MatchAll(m: Matcher, s: string): seq<Hit> {
    AllFrom(m, s, 0)
  }

  /** A hit of a global search is a match of the expression where it starts. */
  lemma HitInMatchAll(m: Matcher, s: string, h: Hit)
    requires h in MatchAll(m, s)
    ensures MatchesAt(m, s, h.start) && h.groups == m(s, h.start).value.groups
    ensures h.end == h.start + m(s, h.start).value.len
  {
    var r := MatchAll(m, s);
    var n :| 0 <= n < |r| && r[n] == h;
  }

  /** A match at the very start is the first hit of a global search. */
  lemma MatchAllAtStart(m: Matcher, s: string)
    requires MatchesAt(m, s, 0)
    ensures var r := MatchAll(m, s); |r| > 0 && r[0] == Hit(0, m(s, 0).value.len, m(s, 0).value.groups)
  {
  }

  lemma {:induction false} AllFromLeftmost(m: Matcher, s: string, i: nat, j: nat, k: nat)
    requires var r := AllFrom(m, s, i); 0 <= j < |r| - 1 && Resume(r[j]) <= k < r[j + 1].start
    ensures !MatchesAt(m, s, k)
    decreases |s| + 1 - i
  {
    var h := FirstMatch(m, s, i).value;
    if j > 0 {
      AllFromLeftmost(m, s, Resume(h), j - 1, k);
    }
  }

  function Keys<T, K>(xs: seq<T>, key: T -> K): (r: seq<K>)
    ensures |r| == |xs| && forall j :: 0 <= j < |xs| ==> r[j] == key(xs[j])
  {
    seq(|xs|, j requires 0 <= j < |xs| => key(xs[j]))
  }

  function KeySet<T, K>(xs: seq<T>, key: T -> K): set<K> {
    set k | k in Keys(xs, key)
  }

  /**
   * The loop `for (x of xs) { if (!seen.has(key(x))) { seen.add(key(x)); out.push(x); } }`
   * started from a set `seen`, stated on its prefixes: the last element is kept
   * exactly when its key was neither in `seen` nor the key of an earlier element.
   */
  function Dedup<T, K>(xs: seq<T>, key: T -> K, seen: set<K>): seq<T>
    decreases |xs|
  {
    if xs == [] then []
    else
      var init := xs[..|xs| - 1];
      var x := xs[|xs| - 1];
      if key(x) in seen || key(x) in Keys(init, key) then Dedup(init, key, seen)
      else Dedup(init, key, seen) + [x]
  }

  /** The same loop read from the front: a reference definition for `Dedup`. */
  function DedupRef<T, K>(xs: seq<T>, key: T -> K, seen: set<K>): seq<T>
    decreases |xs|
  {
    if xs == [] then []
    else if key(xs[0]) in seen then DedupRef(xs[1..], key, seen)
    else [xs[0]] + DedupRef(xs[1..], key, seen + {key(xs[0])})
  }

  lemma KeysAppend<T, K>(xs: seq<T>, ys: seq<T>, key: T -> K)
    ensures Keys(xs + ys, key) == Keys(xs, key) + Keys(ys, key)
  {
  }

  /** De-duplicating a concatenation: the second part starts from the keys the first part added. */
  lemma {:induction false} DedupConcat<T, K>(xs: seq<T>, ys: seq<T>, key: T -> K, seen: set<K>)
    ensures Dedup(xs + ys, key, seen) == Dedup(xs, key, seen) + Dedup(ys, key, seen + KeySet(xs, key))
    decreases |ys|
  {
    if ys == [] {
      assert xs + ys == xs;
    } else {
      var ys' := ys[..|ys| - 1];
      var y := ys[|ys| - 1];
      assert (xs + ys)[..|xs + ys| - 1] == xs + ys';
      assert (xs + ys)[|xs + ys| - 1] == y;
      KeysAppend(xs, ys', key);
      DedupConcat(xs, ys', key, seen);
    }
  }

  /** Keys that no element of `ys` carries make no difference to `seen`. */
  lemma {:induction false} DedupIgnoresForeign<T, K>(ys: seq<T>, key: T -> K, seen: set<K>, extra: set<K>)
    requires forall k :: k in extra ==> k !in Keys(ys, key)
    ensures Dedup(ys, key, seen + extra) == Dedup(ys, key, seen)
    decreases |ys|
  {
    if ys != [] {
      var init := ys[..|ys| - 1];
      assert Keys(ys, key) == Keys(init, key) + [key(ys[|ys| - 1])];
      DedupIgnoresForeign(init, key, seen, extra);
    }
  }

  /** `Dedup` agrees with its front-to-back reference definition. */
  lemma {:induction false} DedupMatchesRef<T, K>(xs: seq<T>, key: T -> K, seen: set<K>)
    ensures Dedup(xs, key, seen) == DedupRef(xs, key, seen)
    decreases |xs|
  {
    if xs != [] {
      var x := xs[0];
      var rest := xs[1..];
      assert xs == [x] + rest;
      DedupConcat([x], rest, key, seen);
      assert Keys([x], key) == [key(x)];
      assert KeySet([x], key) == {key(x)};
      assert [x][..0] == [];
      if key(x) in seen {
        assert seen + {key(x)} == seen;
        DedupMatchesRef(rest, key, seen);
      } else {
        DedupMatchesRef(rest, key, seen + {key(x)});
      }
    }
  }

  /** What `Dedup` keeps: distinct keys, none already seen, exactly the new keys of the input, drawn from the input. */
  lemma {:induction false} DedupKeys<T, K>(xs: seq<T>, key: T -> K, seen: set<K>)
    ensures var r := Dedup(xs, key, seen);
      && (forall a, b :: 0 <= a < b < |r| ==> key(r[a]) != key(r[b]))
      && (forall a :: 0 <= a < |r| ==> key(r[a]) !in seen)
      && KeySet(r, key) == KeySet(xs, key) - seen
      && (forall y :: y in r ==> y in xs)
    decreases |xs|
  {
    if xs != [] {
      var init := xs[..|xs| - 1];
      var x := xs[|xs| - 1];
      DedupKeys(init, key, seen);
      var p := Dedup(init, key, seen);
      assert xs == init + [x];
      KeysAppend(init, [x], key);
      assert KeySet(xs, key) == KeySet(init, key) + {key(x)};
      if !(key(x) in seen || key(x) in Keys(init, key)) {
        KeysAppend(p, [x], key);
        assert KeySet(p + [x], key) == KeySet(p, key) + {key(x)};
      }
    }
  }

  /** Each element `Dedup` keeps is the first element of the input with its key. */
  lemma {:induction false} DedupKeepsFirst<T, K>(xs: seq<T>, key: T -> K, seen: set<K>, y: T)
    requires y in Dedup(xs, key, seen)
    ensures exists i :: 0 <= i < |xs| && xs[i] == y && key(y) !in Keys(xs[..i], key)
    decreases |xs|
  {
    var init := xs[..|xs| - 1];
    var x := xs[|xs| - 1];
    if y in Dedup(init, key, seen) {
      DedupKeepsFirst(init, key, seen, y);
      var i :| 0 <= i < |init| && init[i] == y && key(y) !in Keys(init[..i], key);
      assert xs[..i] == init[..i];
    } else {
      assert xs[..|xs| - 1] == init;
    }
  }

  /** `Dedup` keeps the order of its input: of two kept elements, the earlier comes from an earlier position. */
  lemma {:induction false} DedupOrdered<T, K>(xs: seq<T>, key: T -> K, seen: set<K>, a: nat, b: nat)
    requires a < b < |Dedup(xs, key, seen)|
    ensures exists i, j :: 0 <= i < j < |xs| && xs[i] == Dedup(xs, key, seen)[a] && xs[j] == Dedup(xs, key, seen)[b]
    decreases |xs|
  {
    var init := xs[..|xs| - 1];
    var p := Dedup(init, key, seen);
    var r := Dedup(xs, key, seen);
    if b < |p| {
      DedupOrdered(init, key, seen, a, b);
      var i, j :| 0 <= i < j < |init| && init[i] == p[a] && init[j] == p[b];
      assert xs[i] == r[a] && xs[j] == r[b];
    } else {
      DedupKeys(init, key, seen);
      assert r[a] == p[a] && p[a] in init;
      var i :| 0 <= i < |init| && init[i] == p[a];
      assert xs[i] == r[a] && xs[|xs| - 1] == r[b];
    }
  }

  /**
   * `Dedup` lists keys in the order they are first seen: where the key of the
   * `b`-th kept element first occurs, the key of every earlier kept element has
   * already occurred.
   */
  lemma {:induction false} DedupFirstSeen<T, K>(xs: seq<T>, key: T -> K, seen: set<K>, a: nat, b: nat) returns (j: nat)
    requires a < b < |Dedup(xs, key, seen)|
    ensures j < |xs| && key(xs[j]) == key(Dedup(xs, key, seen)[b])
    ensures key(xs[j]) !in Keys(xs[..j], key) && key(Dedup(xs, key, seen)[a]) in Keys(xs[..j], key)
    decreases |xs|
  {
    var init := xs[..|xs| - 1];
    var p := Dedup(init, key, seen);
    if b < |p| {
      j := DedupFirstSeen(init, key, seen, a, b);
      assert xs[..j] == init[..j];
    } else {
      j := |xs| - 1;
      assert xs[..j] == init;
      DedupKeys(init, key, seen);
      assert key(p[a]) in KeySet(p, key);
    }
  }

  /** One more element: kept exactly when its key is new. */
  lemma DedupSnoc<T, K>(xs: seq<T>, x: T, key: T -> K, seen: set<K>)
    ensures Dedup(xs + [x], key, seen) ==
      if key(x) in seen || key(x) in KeySet(xs, key) then Dedup(xs, key, seen) else Dedup(xs, key, seen) + [x]
    ensures KeySet(xs + [x], key) == KeySet(xs, key) + {key(x)}
  {
    assert (xs + [x])[..|xs + [x]| - 1] == xs;
    KeysAppend(xs, [x], key);
  }
  /** The pair a first-key-wins loop updates: what it has pushed so far and the `seen` set. */
  datatype Pushed<T, K> = Pushed(items: seq<T>, seen: set<K>)

  /** The loop step `if (!seen.has(key(r))) { seen.add(key(r)); out.push(r); }`, over a run of candidates. */
  function PushAll<T, K>(p: Pushed<T, K>, rs: seq<T>, key: T -> K): Pushed<T, K>
    decreases |rs|
  {
    if rs == [] then p
    else
      var q := PushAll(p, rs[..|rs| - 1], key);
      var r := rs[|rs| - 1];
      if key(r) in q.seen then q else Pushed(q.items + [r], q.seen + {key(r)})
  }

  /** Pushing continues the first-seen de-duplication of everything met so far. */
  lemma {:induction false} PushAllDedup<T, K>(done: seq<T>, rs: seq<T>, key: T -> K)
    ensures PushAll(Pushed(Dedup(done, key, {}), KeySet(done, key)), rs, key)
         == Pushed(Dedup(done + rs, key, {}), KeySet(done + rs, key))
    decreases |rs|
  {
    if rs == [] {
      assert done + rs == done;
    } else {
      var init := rs[..|rs| - 1];
      var r := rs[|rs| - 1];
      PushAllDedup(done, init, key);
      assert done + rs == (done + init) + [r];
      DedupSnoc(done + init, r, key, {});
    }
  }

  /** Pushing from the empty state is the first-seen de-duplication. */
  lemma PushAllFromEmpty<T, K>(rs: seq<T>, key: T -> K)
    ensures PushAll(Pushed([], {}), rs, key) == Pushed(Dedup(rs, key, {}), KeySet(rs, key))
  {
    assert KeySet([], key) == {};
    PushAllDedup([], rs, key);
    assert [] + rs == rs;
  }

  /** Appending at most one candidate: it is pushed exactly when its key is new. */
  lemma PushAllSnoc<T, K>(p: Pushed<T, K>, rs: seq<T>, r: seq<T>, key: T -> K)
    requires |r| <= 1
    ensures PushAll(p, rs + r, key) ==
      if r == [] || key(r[0]) in PushAll(p, rs, key).seen then PushAll(p, rs, key)
      else Pushed(PushAll(p, rs, key).items + r, PushAll(p, rs, key).seen + {key(r[0])})
  {
    if r == [] {
      assert rs + r == rs;
    } else {
      assert r == [r[0]];
      assert (rs + r)[..|rs + r| - 1] == rs;
    }
  }
  /** Pushing two runs one after the other is pushing their concatenation. */
  lemma {:induction false} PushAllConcat<T, K>(p: Pushed<T, K>, xs: seq<T>, ys: seq<T>, key: T -> K)
    ensures PushAll(p, xs + ys, key) == PushAll(PushAll(p, xs, key), ys, key)
    decreases |ys|
  {
    if ys == [] {
      assert xs + ys == xs;
    } else {
      assert (xs + ys)[..|xs + ys| - 1] == xs + ys[..|ys| - 1];
      assert (xs + ys)[|xs + ys| - 1] == ys[|ys| - 1];
      PushAllConcat(p, xs, ys[..|ys| - 1], key);
    }
  }

  // ---------------------------------------------------------------------------
  // Keep the best entry per key: a `Map` plus the key order it was filled in
  // ---------------------------------------------------------------------------

  /**
   * The map a merge loop leaves: per key, the first entry, replaced by a later
   * one only when that one scores strictly higher.
   */
  function Best<T, K>(xs: seq<T>, key: T -> K, score: T -> nat): map<K, T>
    decreases |xs|
  {
    if xs == [] then map[]
    else
      var m := Best(xs[..|xs| - 1], key, score);
      var x := xs[|xs| - 1];
      if key(x) !in m || score(x) > score(m[key(x)]) then m[key(x) := x] else m
  }

  /** The keys in the order a `Map` keeps them: by first insertion. */
  function FirstKeys<T, K(==)>(xs: seq<T>, key: T -> K): seq<K> {
    Keys(Dedup(xs, key, {}), key)
  }

  /** `ks.map(k => m.get(k))` for the keys present: the values of a `Map` filled in the order `ks`. */
  function ValuesAt<T, K>(m: map<K, T>, ks: seq<K>): seq<T>
    decreases |ks|
  {
    if ks == [] then []
    else (if ks[0] in m then [m[ks[0]]] else []) + ValuesAt(m, ks[1..])
  }

  /** What the merge returns: the best entry of every key, in first-seen key order. */
  function Merged<T, K(==)>(xs: seq<T>, key: T -> K, score: T -> nat): seq<T> {
    ValuesAt(Best(xs, key, score), FirstKeys(xs, key))
  }

  /** One more entry: how the map and the key order change. */
  lemma BestStep<T, K>(xs: seq<T>, i: nat, key: T -> K, score: T -> nat)
    requires i < |xs|
    ensures var x := xs[i]; var m := Best(xs[..i], key, score);
      && Best(xs[..i + 1], key, score) == (if key(x) !in m || score(x) > score(m[key(x)]) then m[key(x) := x] else m)
      && FirstKeys(xs[..i + 1], key) == FirstKeys(xs[..i], key) + (if key(x) in m then [] else [key(x)])
  {
    var init := xs[..i];
    var x := xs[i];
    assert xs[..i + 1] == init + [x];
    assert (init + [x])[..|init|] == init;
    BestKeys(init, key, score);
    DedupSnoc(init, x, key, {});
    KeysAppend(Dedup(init, key, {}), [x], key);
  }

  /** `BestStep` for an entry appended at the end. */
  lemma BestSnoc<T, K>(xs: seq<T>, x: T, key: T -> K, score: T -> nat)
    ensures var m := Best(xs, key, score);
      && Best(xs + [x], key, score) == (if key(x) !in m || score(x) > score(m[key(x)]) then m[key(x) := x] else m)
      && FirstKeys(xs + [x], key) == FirstKeys(xs, key) + (if key(x) in m then [] else [key(x)])
  {
    var ys := xs + [x];
    assert ys[..|xs|] == xs && ys[..|xs| + 1] == ys;
    BestStep(ys, |xs|, key, score);
  }

  /** The map holds exactly the keys met so far. */
  lemma {:induction false} BestKeys<T, K>(xs: seq<T>, key: T -> K, score: T -> nat)
    ensures Best(xs, key, score).Keys == KeySet(xs, key)
    decreases |xs|
  {
    if xs != [] {
      var init := xs[..|xs| - 1];
      BestKeys(init, key, score);
      assert xs == init + [xs[|xs| - 1]];
      DedupSnoc(init, xs[|xs| - 1], key, {});
    }
  }

  /**
   * The entry at position `j` has key `k`, scores at least as high as every
   * other entry with key `k`, and strictly higher than every earlier one.
   */
  predicate BestAt<T, K(==)>(xs: seq<T>, key: T -> K, score: T -> nat, k: K, j: nat) {
    && j < |xs| && key(xs[j]) == k
    && (forall i :: 0 <= i < |xs| && key(xs[i]) == k ==> score(xs[i]) <= score(xs[j]))
    && (forall i :: 0 <= i < j && key(xs[i]) == k ==> score(xs[i]) < score(xs[j]))
  }

  /** What the map holds for a key: the first of the highest-scoring entries with that key. */
  lemma {:induction false} BestIndex<T, K>(xs: seq<T>, key: T -> K, score: T -> nat, k: K) returns (j: nat)
    requires k in Best(xs, key, score)
    ensures BestAt(xs, key, score, k, j) && xs[j] == Best(xs, key, score)[k]
    decreases |xs|
  {
    var init := xs[..|xs| - 1];
    var x := xs[|xs| - 1];
    var m := Best(init, key, score);
    assert xs == init + [x];
    if key(x) == k && (k !in m || score(x) > score(m[k])) {
      if k in m {
        var j' := BestIndex(init, key, score, k);
      } else {
        BestKeys(init, key, score);
        forall i | 0 <= i < |init| ensures key(init[i]) != k {
          assert Keys(init, key)[i] == key(init[i]);
        }
      }
      BestExtendNew(init, x, key, score, k);
      j := |init|;
    } else {
      j := BestIndex(init, key, score, k);
      BestExtendOld(init, x, key, score, k, j);
    }
  }

  /** An entry that does not score higher leaves the best one in place. */
  lemma BestExtendOld<T, K>(init: seq<T>, x: T, key: T -> K, score: T -> nat, k: K, j: nat)
    requires BestAt(init, key, score, k, j) && (key(x) != k || score(x) <= score(init[j]))
    ensures BestAt(init + [x], key, score, k, j)
  {
    var xs := init + [x];
    forall i | 0 <= i < |xs| && key(xs[i]) == k ensures score(xs[i]) <= score(xs[j]) {
      if i < |init| {
        assert xs[i] == init[i];
      }
    }
    assert forall i :: 0 <= i < j ==> xs[i] == init[i];
  }

  /** An entry scoring higher than every earlier one with its key becomes the best one. */
  lemma BestExtendNew<T, K>(init: seq<T>, x: T, key: T -> K, score: T -> nat, k: K)
    requires key(x) == k
    requires forall i :: 0 <= i < |init| && key(init[i]) == k ==> score(init[i]) < score(x)
    ensures BestAt(init + [x], key, score, k, |init|)
  {
    var xs := init + [x];
    assert forall i :: 0 <= i < |init| ==> xs[i] == init[i];
  }

  lemma {:induction false} ValuesAtAll<T, K>(m: map<K, T>, ks: seq<K>)
    requires forall i :: 0 <= i < |ks| ==> ks[i] in m
    ensures |ValuesAt(m, ks)| == |ks| && forall i :: 0 <= i < |ks| ==> ValuesAt(m, ks)[i] == m[ks[i]]
    decreases |ks|
  {
    if ks != [] {
      ValuesAtAll(m, ks[1..]);
    }
  }

  /** Every first-seen key is in the map, so the merge lists one entry per key. */
  lemma MergedShape<T, K>(xs: seq<T>, key: T -> K, score: T -> nat)
    ensures var r := Merged(xs, key, score); var ks := FirstKeys(xs, key);
      |r| == |ks| && forall i :: 0 <= i < |ks| ==> ks[i] in Best(xs, key, score) && r[i] == Best(xs, key, score)[ks[i]]
  {
    var ks := FirstKeys(xs, key);
    DedupKeys(xs, key, {});
    BestKeys(xs, key, score);
    forall i | 0 <= i < |ks| ensures ks[i] in Best(xs, key, score) {
      assert ks[i] in KeySet(Dedup(xs, key, {}), key);
    }
    ValuesAtAll(Best(xs, key, score), ks);
  }

  /** The merge keeps one entry per key, and lists the keys in the order they first occur. */
  lemma MergedKeys<T, K>(xs: seq<T>, key: T -> K, score: T -> nat)
    ensures Keys(Merged(xs, key, score), key) == FirstKeys(xs, key)
    ensures var r := Merged(xs, key, score); forall a, b :: 0 <= a < b < |r| ==> key(r[a]) != key(r[b])
  {
    var r := Merged(xs, key, score);
    var ks := FirstKeys(xs, key);
    MergedShape(xs, key, score);
    forall i | 0 <= i < |ks| ensures key(r[i]) == ks[i] {
      var j := BestIndex(xs, key, score, ks[i]);
    }
    DedupKeys(xs, key, {});
  }

  /** No key is lost. */
  lemma MergedComplete<T, K>(xs: seq<T>, key: T -> K, score: T -> nat, x: T) returns (i: nat)
    requires x in xs
    ensures i < |Merged(xs, key, score)| && key(Merged(xs, key, score)[i]) == key(x)
  {
    MergedKeys(xs, key, score);
    DedupKeys(xs, key, {});
    var n :| 0 <= n < |xs| && xs[n] == x;
    assert Keys(xs, key)[n] == key(x);
    assert key(x) in KeySet(xs, key) - {};
    var ks := FirstKeys(xs, key);
    i :| 0 <= i < |ks| && ks[i] == key(x);
  }

  /** Each entry of the merge is the first of the highest-scoring entries with its key. */
  lemma MergedBest<T, K>(xs: seq<T>, key: T -> K, score: T -> nat, i: nat) returns (j: nat)
    requires i < |Merged(xs, key, score)|
    ensures BestAt(xs, key, score, key(Merged(xs, key, score)[i]), j) && xs[j] == Merged(xs, key, score)[i]
  {
    MergedShape(xs, key, score);
    j := BestIndex(xs, key, score, FirstKeys(xs, key)[i]);
  }

  /** The merge follows the order in which each key first occurs. */
  lemma MergedOrder<T, K>(xs: seq<T>, key: T -> K, score: T -> nat, a: nat, b: nat) returns (j: nat)
    requires a < b < |Merged(xs, key, score)|
    ensures var r := Merged(xs, key, score);
      && j < |xs| && key(xs[j]) == key(r[b]) && key(r[b]) !in Keys(xs[..j], key)
      && key(r[a]) in Keys(xs[..j], key)
  {
    MergedKeys(xs, key, score);
    var ks := FirstKeys(xs, key);
    var kept := Dedup(xs, key, {});
    j := DedupFirstSeen(xs, key, {}, a, b);
    assert key(Merged(xs, key, score)[a]) == ks[a] == key(kept[a]);
    assert key(Merged(xs, key, score)[b]) == ks[b] == key(kept[b]);
  }
}
