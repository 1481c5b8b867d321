/**
 * Two list shapes the extraction is built from, stated once for any element
 * type: keeping the entries of a list that a test does not reject, each
 * turned into a value together with its position counted from 1; and keeping
 * the first entry of each key.
 */
module Collections {

  /** The entries of `xs` (numbered from 1) that `drop` does not reject, each
      turned into `f(i, x)`, in order. */
  function KeptBy<S, T>(xs: seq<S>, drop: S -> bool, f: (nat, S) -> T): seq<T>
  {
    if xs == [] then []
    else
      var n := |xs|;
      var pre := KeptBy(xs[..n - 1], drop, f);
      if drop(xs[n - 1]) then pre else pre + [f(n, xs[n - 1])]
  }

  /** The position of an entry, as `f` for `KeptBy`. */
  function Position<S>(i: nat, x: S): nat
  {
    i
  }

  /** The positions (from 1) of the entries kept, in order. */
  function KeptPositions<S>(xs: seq<S>, drop: S -> bool): seq<nat>
  {
    KeptBy(xs, drop, Position)
  }

  lemma KeptBySnoc<S, T>(xs: seq<S>, x: S, drop: S -> bool, f: (nat, S) -> T)
    ensures KeptBy(xs + [x], drop, f) ==
            if drop(x) then KeptBy(xs, drop, f) else KeptBy(xs, drop, f) + [f(|xs| + 1, x)]
  {
    assert (xs + [x])[..|xs|] == xs;
  }

  lemma {:induction false} KeptByLength<S, T>(xs: seq<S>, drop: S -> bool, f: (nat, S) -> T)
    ensures |KeptBy(xs, drop, f)| == |KeptPositions(xs, drop)|
  {
    if xs != [] {
      KeptByLength(xs[..|xs| - 1], drop, f);
    }
  }

  /** A position of a kept entry is a position of `xs`, and the positions
      increase. */
  lemma {:induction false} KeptPositionsIncrease<S>(xs: seq<S>, drop: S -> bool)
    ensures forall j :: 0 <= j < |KeptPositions(xs, drop)| ==> 1 <= KeptPositions(xs, drop)[j] <= |xs|
    ensures forall j, j' :: 0 <= j < j' < |KeptPositions(xs, drop)| ==>
              KeptPositions(xs, drop)[j] < KeptPositions(xs, drop)[j']
  {
    if xs != [] {
      var n := |xs|;
      var pre := xs[..n - 1];
      KeptPositionsIncrease(pre, drop);
      KeptBySnoc(pre, xs[n - 1], drop, Position);
      assert xs == pre + [xs[n - 1]];
      var p, q := KeptPositions(pre, drop), KeptPositions(xs, drop);
      assert q == if drop(xs[n - 1]) then p else p + [n];
      assert forall j :: 0 <= j < |p| ==> q[j] == p[j];
    }
  }

  /** Entry `i` of `xs` is kept exactly when `drop` does not reject it. */
  lemma {:induction false} KeptPositionsExact<S>(xs: seq<S>, drop: S -> bool)
    ensures forall i :: 0 <= i < |xs| ==> (i + 1 in KeptPositions(xs, drop) <==> !drop(xs[i]))
  {
    if xs != [] {
      var n := |xs|;
      var pre := xs[..n - 1];
      KeptPositionsExact(pre, drop);
      KeptPositionsIncrease(pre, drop);
      KeptBySnoc(pre, xs[n - 1], drop, Position);
      assert xs == pre + [xs[n - 1]];
      var p, q := KeptPositions(pre, drop), KeptPositions(xs, drop);
      assert q == if drop(xs[n - 1]) then p else p + [n];
      forall i | 0 <= i < n
        ensures i + 1 in q <==> !drop(xs[i])
      {
        if i < n - 1 {
          assert pre[i] == xs[i];
          assert i + 1 in q <==> i + 1 in p;
        } else {
          assert n !in p;
        }
      }
    }
  }

  /** Entry `j` of `ys` is `f` of the entry of `xs` at position `ps[j]`. */
  ghost predicate RecordsAt<S, T>(xs: seq<S>, ps: seq<nat>, ys: seq<T>, f: (nat, S) -> T)
  {
    forall j :: 0 <= j < |ps| && j < |ys| ==> 1 <= ps[j] <= |xs| && ys[j] == f(ps[j], xs[ps[j] - 1])
  }

  /** Entry `j` of the result is `f` of the `j`-th kept entry. */
  ghost predicate EntriesMatch<S, T>(xs: seq<S>, drop: S -> bool, f: (nat, S) -> T)
  {
    RecordsAt(xs, KeptPositions(xs, drop), KeptBy(xs, drop, f), f)
  }

  lemma EntriesMatchSnoc<S, T>(pre: seq<S>, x: S, drop: S -> bool, f: (nat, S) -> T)
    requires EntriesMatch(pre, drop, f)
    ensures EntriesMatch(pre + [x], drop, f)
  {
    var xs := pre + [x];
    var n := |xs|;
    KeptByLength(pre, drop, f);
    KeptBySnoc(pre, x, drop, f);
    KeptBySnoc(pre, x, drop, Position);
    var p, q := KeptPositions(pre, drop), KeptPositions(xs, drop);
    var r, t := KeptBy(pre, drop, f), KeptBy(xs, drop, f);
    assert q == if drop(x) then p else p + [n];
    assert t == if drop(x) then r else r + [f(n, x)];
    forall j | 0 <= j < |q| && j < |t|
      ensures 1 <= q[j] <= n && t[j] == f(q[j], xs[q[j] - 1])
    {
      if j < |p| {
        assert q[j] == p[j] && t[j] == r[j];
        assert xs[p[j] - 1] == pre[p[j] - 1];
      } else {
        assert q[j] == n && t[j] == f(n, x);
      }
    }
    assert RecordsAt(xs, q, t, f);
  }

  lemma {:induction false} KeptByEntries<S, T>(xs: seq<S>, drop: S -> bool, f: (nat, S) -> T)
    ensures EntriesMatch(xs, drop, f)
  {
    if xs != [] {
      var pre := xs[..|xs| - 1];
      KeptByEntries(pre, drop, f);
      EntriesMatchSnoc(pre, xs[|xs| - 1], drop, f);
      assert xs == pre + [xs[|xs| - 1]];
    }
  }

  /** Entry `j` of the kept records, on its own, for records `ys` and
      positions `ps` computed beforehand. */
  lemma KeptByEntry<S, T>(xs: seq<S>, drop: S -> bool, f: (nat, S) -> T, ys: seq<T>, ps: seq<nat>, j: nat)
    requires ys == KeptBy(xs, drop, f) && ps == KeptPositions(xs, drop) && j < |ps|
    ensures j < |ys| && 1 <= ps[j] <= |xs| && ys[j] == f(ps[j], xs[ps[j] - 1])
  {
    KeptByLength(xs, drop, f);
    KeptByEntries(xs, drop, f);
  }

  /** The positions `f` is applied to are exactly those of the entries `drop`
      keeps, in increasing order, and entry `j` of the result is `f` of the
      `j`-th such entry. */
  lemma KeptBySpec<S, T>(xs: seq<S>, drop: S -> bool, f: (nat, S) -> T)
    ensures |KeptBy(xs, drop, f)| == |KeptPositions(xs, drop)|
    ensures forall j :: 0 <= j < |KeptPositions(xs, drop)| ==>
              1 <= KeptPositions(xs, drop)[j] <= |xs| &&
              KeptBy(xs, drop, f)[j] == f(KeptPositions(xs, drop)[j], xs[KeptPositions(xs, drop)[j] - 1])
    ensures forall j, j' :: 0 <= j < j' < |KeptPositions(xs, drop)| ==>
              KeptPositions(xs, drop)[j] < KeptPositions(xs, drop)[j']
    ensures forall i :: 0 <= i < |xs| ==> (i + 1 in KeptPositions(xs, drop) <==> !drop(xs[i]))
  {
    KeptByLength(xs, drop, f);
    KeptByEntries(xs, drop, f);
    KeptPositionsIncrease(xs, drop);
    KeptPositionsExact(xs, drop);
  }

  /** When `drop` rejects every entry, nothing is kept. */
  lemma {:induction false} KeptByNone<S, T>(xs: seq<S>, drop: S -> bool, f: (nat, S) -> T)
    requires forall i :: 0 <= i < |xs| ==> drop(xs[i])
    ensures KeptBy(xs, drop, f) == []
  {
    if xs != [] {
      var pre := xs[..|xs| - 1];
      assert forall i :: 0 <= i < |pre| ==> pre[i] == xs[i];
      KeptByNone(pre, drop, f);
    }
  }

  // ---------------------------------------------------------------------
  // The first entry of each key.

  function KeysBy<T, K(==)>(items: seq<T>, key: T -> K): set<K>
  {
    set k | 0 <= k < |items| :: key(items[k])
  }

  /** An entry is kept when no entry kept before it has its key. */
  function DedupBy<T, K(==)>(items: seq<T>, key: T -> K): seq<T>
  {
    if items == [] then []
    else
      var d := DedupBy(items[..|items| - 1], key);
      var it := items[|items| - 1];
      if key(it) in KeysBy(d, key) then d else d + [it]
  }

  lemma KeysBySnoc<T, K>(items: seq<T>, it: T, key: T -> K)
    ensures KeysBy(items + [it], key) == KeysBy(items, key) + {key(it)}
  {
    var s := items + [it];
    assert forall k :: 0 <= k < |items| ==> s[k] == items[k];
    assert s[|items|] == it;
  }

  lemma DedupBySnoc<T, K>(items: seq<T>, it: T, key: T -> K)
    ensures DedupBy(items + [it], key) ==
            if key(it) in KeysBy(DedupBy(items, key), key) then DedupBy(items, key) else DedupBy(items, key) + [it]
  {
    assert (items + [it])[..|items|] == items;
  }

  /** `items[i]` is the first of `items` with its key. */
  predicate IsFirstBy<T, K(==)>(items: seq<T>, i: nat, key: T -> K)
    requires i < |items|
  {
    forall m :: 0 <= m < i ==> key(items[m]) != key(items[i])
  }

  lemma {:induction false} DedupByKeys<T, K>(items: seq<T>, key: T -> K)
    ensures KeysBy(DedupBy(items, key), key) == KeysBy(items, key)
  {
    if items != [] {
      var pre, it := items[..|items| - 1], items[|items| - 1];
      DedupByKeys(pre, key);
      assert items == pre + [it];
      KeysBySnoc(pre, it, key);
      KeysBySnoc(DedupBy(pre, key), it, key);
    }
  }

  lemma {:induction false} DedupByDistinct<T, K>(items: seq<T>, key: T -> K)
    ensures DistinctBy(DedupBy(items, key), key)
  {
    if items != [] {
      var pre, it := items[..|items| - 1], items[|items| - 1];
      var d := DedupBy(pre, key);
      DedupByDistinct(pre, key);
      if key(it) !in KeysBy(d, key) {
        var d' := d + [it];
        assert forall i :: 0 <= i < |d| ==> d'[i] == d[i];
        forall i | 0 <= i < |d|
          ensures key(d'[i]) != key(it)
        {
          assert key(d[i]) in KeysBy(d, key);
        }
      }
    }
  }

  /** `d` picks out of `items`, through the increasing indices `idx`, exactly
      the entries that come first with their key. */
  ghost predicate PicksFirsts<T, K>(items: seq<T>, d: seq<T>, idx: seq<nat>, key: T -> K)
  {
    |idx| == |d| &&
    (forall j :: 0 <= j < |idx| ==> idx[j] < |items| && d[j] == items[idx[j]] && IsFirstBy(items, idx[j], key)) &&
    (forall j, j' :: 0 <= j < j' < |idx| ==> idx[j] < idx[j']) &&
    (forall i :: 0 <= i < |items| && IsFirstBy(items, i, key) ==> i in idx)
  }

  lemma FirstOfPrefix<T, K>(pre: seq<T>, it: T, i: nat, key: T -> K)
    requires i < |pre|
    ensures IsFirstBy(pre + [it], i, key) <==> IsFirstBy(pre, i, key)
  {
    assert forall m :: 0 <= m <= i ==> (pre + [it])[m] == pre[m];
  }

  lemma FirstOfLast<T, K>(pre: seq<T>, it: T, key: T -> K)
    ensures IsFirstBy(pre + [it], |pre|, key) <==> key(it) !in KeysBy(pre, key)
  {
    var s := pre + [it];
    assert forall m :: 0 <= m < |pre| ==> s[m] == pre[m];
    if key(it) in KeysBy(pre, key) {
      var m :| 0 <= m < |pre| && key(pre[m]) == key(it);
      assert key(s[m]) == key(s[|pre|]);
    }
  }

  /** Reading one more entry keeps the earlier first entries first. */
  lemma FirstsOfPrefix<T, K>(pre: seq<T>, it: T, key: T -> K)
    ensures forall i :: 0 <= i < |pre| ==> (IsFirstBy(pre + [it], i, key) <==> IsFirstBy(pre, i, key))
  {
    forall i | 0 <= i < |pre|
      ensures IsFirstBy(pre + [it], i, key) <==> IsFirstBy(pre, i, key)
    {
      FirstOfPrefix(pre, it, i, key);
    }
  }

  /** A repeated key: nothing more is picked. */
  lemma PicksFirstsSkip<T, K>(pre: seq<T>, it: T, d: seq<T>, idx: seq<nat>, key: T -> K)
    requires PicksFirsts(pre, d, idx, key)
    requires key(it) in KeysBy(pre, key)
    ensures PicksFirsts(pre + [it], d, idx, key)
  {
    FirstsOfPrefix(pre, it, key);
    FirstOfLast(pre, it, key);
    assert forall i :: 0 <= i < |pre| ==> (pre + [it])[i] == pre[i];
  }

  /** A new key: its entry is picked, at the end. */
  lemma PicksFirstsAdd<T, K>(pre: seq<T>, it: T, d: seq<T>, idx: seq<nat>, key: T -> K)
    requires PicksFirsts(pre, d, idx, key)
    requires key(it) !in KeysBy(pre, key)
    ensures PicksFirsts(pre + [it], d + [it], idx + [|pre|], key)
  {
    FirstsOfPrefix(pre, it, key);
    FirstOfLast(pre, it, key);
    var items, idx' := pre + [it], idx + [|pre|];
    assert forall i :: 0 <= i < |pre| ==> items[i] == pre[i];
    assert forall j :: 0 <= j < |idx| ==> idx'[j] == idx[j];
  }

  lemma {:induction false} DedupByPicksFirsts<T, K>(items: seq<T>, key: T -> K) returns (idx: seq<nat>)
    ensures PicksFirsts(items, DedupBy(items, key), idx, key)
  {
    if items == [] {
      idx := [];
    } else {
      var pre, it := items[..|items| - 1], items[|items| - 1];
      assert items == pre + [it];
      var idx0 := DedupByPicksFirsts(pre, key);
      DedupByKeys(pre, key);
      var d := DedupBy(pre, key);
      if key(it) in KeysBy(d, key) {
        PicksFirstsSkip(pre, it, d, idx0, key);
        idx := idx0;
      } else {
        PicksFirstsAdd(pre, it, d, idx0, key);
        idx := idx0 + [|pre|];
      }
    }
  }

  /** No two entries of `items` share a key. */
  predicate DistinctBy<T, K(==)>(items: seq<T>, key: T -> K)
  {
    forall i, j :: 0 <= i < j < |items| ==> key(items[i]) != key(items[j])
  }

  /** Without its last entry, a list of distinct keys still has distinct keys,
      none of them the last entry's key. */
  lemma DistinctByPrefix<T, K>(pre: seq<T>, it: T, key: T -> K)
    requires DistinctBy(pre + [it], key)
    ensures DistinctBy(pre, key) && key(it) !in KeysBy(pre, key)
  {
    var items := pre + [it];
    assert forall i :: 0 <= i < |pre| ==> pre[i] == items[i];
    assert items[|pre|] == it;
    assert forall m :: 0 <= m < |pre| ==> key(pre[m]) != key(it);
  }

  lemma {:induction false} DedupByOfDistinct<T, K>(items: seq<T>, key: T -> K)
    requires DistinctBy(items, key)
    ensures DedupBy(items, key) == items
  {
    if items != [] {
      var pre, it := items[..|items| - 1], items[|items| - 1];
      assert items == pre + [it];
      DistinctByPrefix(pre, it, key);
      DedupByOfDistinct(pre, key);
      DedupBySnoc(pre, it, key);
    }
  }

  /** A list whose keys are pairwise distinct has as many keys as entries. */
  lemma {:induction false} DistinctKeysCount<T, K>(items: seq<T>, key: T -> K)
    requires DistinctBy(items, key)
    ensures |KeysBy(items, key)| == |items|
  {
    if items != [] {
      var pre, it := items[..|items| - 1], items[|items| - 1];
      assert items == pre + [it];
      DistinctByPrefix(pre, it, key);
      DistinctKeysCount(pre, key);
      KeysBySnoc(pre, it, key);
    }
  }

  /** Two entries with the same key: only the first is kept. */
  lemma SameKeyTwice<T, K>(a: T, b: T, key: T -> K)
    requires key(a) == key(b)
    ensures DedupBy([a, b], key) == [a]
  {
    DedupBySnoc([a], b, key);
    DedupBySnoc([], a, key);
    assert [] + [a] == [a];
    assert [a] + [b] == [a, b];
    KeysBySnoc([], a, key);
  }
}
