/** The bottom-up merge tree for large key groups: adjacent lists are merged from one buffer into
    the other, the boundary tables ping-pong along, and every level halves the list count. */
module MergeTree {
  import opened MachineTypes
  import opened SuffixOrder
  import opened Keys
  import opened Arrays
  import opened Merging
  import opened ManyLists

  /** The next element of a merge, with its tie-break key. */
  method Move(a: array<uint32>, ka: array<uint64>, src: nat, b: array<uint32>, kb: array<uint64>, pos: nat)
    requires src < a.Length && src < ka.Length && pos < b.Length && pos < kb.Length && a != b && ka != kb
    modifies b, kb
    ensures b[..pos + 1] == old(b[..pos]) + [a[src]]
    ensures kb[..pos + 1] == old(kb[..pos]) + [ka[src]]
  {
    b[pos] := a[src];
    kb[pos] := ka[src];
  }

  /** b and kb so far: what was there before, then a partial merge of x and y with its keys. */
  ghost predicate PairState(t: Text, x: seq<nat>, y: seq<nat>, i: nat, j: nat,
                            rb: seq<uint32>, rk: seq<uint64>, b: seq<uint32>, kb: seq<uint64>) {
    && i <= |x| && j <= |y| && InText(t, x) && InText(t, y)
    && |rb| == |rk| && |b| == |kb| && rb <= b && rk <= kb
    && MergeState(t, x, y, i, j, b[|rb|..])
    && forall n :: |rb| <= n < |b| ==> kb[n] == EKey(t, b[n])
  }

  lemma PairStart(t: Text, x: seq<nat>, y: seq<nat>, b: seq<uint32>, kb: seq<uint64>)
    requires InText(t, x) && InText(t, y) && |b| == |kb|
    ensures PairState(t, x, y, 0, 0, b, kb, b, kb)
  {
    MergeStart(t, x, y);
    assert b[|b|..] == [];
  }

  lemma PairFirst(t: Text, x: seq<nat>, y: seq<nat>, i: nat, j: nat, rb: seq<uint32>, rk: seq<uint64>,
                  b: seq<uint32>, kb: seq<uint64>, v: uint32, k: uint64)
    requires PairState(t, x, y, i, j, rb, rk, b, kb) && Sorted(t, x)
    requires i < |x| && v == x[i] && k == EKey(t, v) && (j < |y| ==> !Less(t, y[j], v))
    ensures PairState(t, x, y, i + 1, j, rb, rk, b + [v], kb + [k])
  {
    hide MergeState, Sorted, Less, EKey;
    TakeFirst(t, x, y, i, j, b[|rb|..]);
    assert (b + [v])[|rb|..] == b[|rb|..] + [v];
  }

  lemma PairSecond(t: Text, x: seq<nat>, y: seq<nat>, i: nat, j: nat, rb: seq<uint32>, rk: seq<uint64>,
                   b: seq<uint32>, kb: seq<uint64>, v: uint32, k: uint64)
    requires PairState(t, x, y, i, j, rb, rk, b, kb) && Sorted(t, y)
    requires j < |y| && v == y[j] && k == EKey(t, v) && (i < |x| ==> !Less(t, x[i], v))
    ensures PairState(t, x, y, i, j + 1, rb, rk, b + [v], kb + [k])
  {
    hide MergeState, Sorted, Less, EKey;
    TakeSecond(t, x, y, i, j, b[|rb|..]);
    assert (b + [v])[|rb|..] == b[|rb|..] + [v];
  }

  /** A stretch was written behind rb as one sorted list, tie-break keys alongside. */
  ghost predicate MergedInto(t: Text, rb: seq<uint32>, rk: seq<uint64>, from: seq<nat>, b: seq<uint32>,
                             kb: seq<uint64>) {
    && |b| == |kb| && |rb| == |rk| && rb <= b && rk <= kb
    && InText(t, b[|rb|..]) && Sorted(t, b[|rb|..])
    && multiset(b[|rb|..]) == multiset(from)
    && forall i :: |rb| <= i < |b| ==> kb[i] == EKey(t, b[i])
  }

  lemma PairEnd(t: Text, x: seq<nat>, y: seq<nat>, rb: seq<uint32>, rk: seq<uint64>, b: seq<uint32>, kb: seq<uint64>)
    requires PairState(t, x, y, |x|, |y|, rb, rk, b, kb)
    ensures MergedInto(t, rb, rk, x + y, b, kb)
  {
    hide MergeState, Less, EKey;
    MergeEnd(t, x, y, b[|rb|..]);
  }

  /** What merging reads: two sorted stretches of gathered positions, by index. */
  ghost predicate TwoStretches(t: Text, a: seq<uint32>, ka: seq<uint64>, s0: nat, e0: nat, e1: nat,
                               x: seq<nat>, y: seq<nat>, key: nat) {
    && s0 <= e0 <= e1 <= |a| && e1 <= |ka| && a[s0..e0] == x && a[e0..e1] == y
    && OneKey(t, x, key) && OneKey(t, y, key) && Sorted(t, x) && Sorted(t, y)
    && forall i :: s0 <= i < e1 ==> ka[i] == EKey(t, a[i])
  }

  lemma FirstAt(t: Text, a: seq<uint32>, ka: seq<uint64>, s0: nat, e0: nat, e1: nat, x: seq<nat>, y: seq<nat>, key: nat,
                p: nat)
    requires TwoStretches(t, a, ka, s0, e0, e1, x, y, key) && s0 <= p < e0
    ensures p - s0 < |x| && p < |a| && p < |ka| && x[p - s0] == a[p] < |t| && Key(t, a[p]) == key
            && ka[p] == EKey(t, a[p])
  {
    assert a[s0..e0][p - s0] == a[p];
  }

  lemma SecondAt(t: Text, a: seq<uint32>, ka: seq<uint64>, s0: nat, e0: nat, e1: nat, x: seq<nat>, y: seq<nat>,
                 key: nat, p: nat)
    requires TwoStretches(t, a, ka, s0, e0, e1, x, y, key) && e0 <= p < e1
    ensures p - e0 < |y| && p < |a| && p < |ka| && y[p - e0] == a[p] < |t| && Key(t, a[p]) == key
            && ka[p] == EKey(t, a[p])
  {
    assert a[e0..e1][p - e0] == a[p];
  }

  lemma StretchFacts(t: Text, a: seq<uint32>, ka: seq<uint64>, s0: nat, e0: nat, e1: nat, x: seq<nat>, y: seq<nat>,
                     key: nat)
    requires TwoStretches(t, a, ka, s0, e0, e1, x, y, key)
    ensures e1 <= |a| && e1 <= |ka| && InText(t, x) && InText(t, y) && Sorted(t, x) && Sorted(t, y)
    ensures |x| == e0 - s0 && |y| == e1 - e0
  {}

  /** Merge a[s0..e0] with a[e0..e1] to the same place in b. */
  method MergePair(t: Text, a: array<uint32>, ka: array<uint64>, b: array<uint32>, kb: array<uint64>,
                   s0: nat, e0: nat, e1: nat, ghost x: seq<nat>, ghost y: seq<nat>, ghost key: nat)
    requires a != b && ka != kb && s0 <= e0 <= e1 && e1 <= b.Length && e1 <= kb.Length
    requires TwoStretches(t, a[..], ka[..], s0, e0, e1, x, y, key)
    modifies b, kb
    ensures MergedInto(t, old(b[..s0]), old(kb[..s0]), x + y, b[..e1], kb[..e1])
  {
    hide Sorted, Key, EKey, PairState, TwoStretches, Less, MergedInto, InText;
    ghost var rb, rk, sa, sk := b[..s0], kb[..s0], a[..], ka[..];
    var p0, p1, pos := s0, e0, s0;
    StretchFacts(t, sa, sk, s0, e0, e1, x, y, key);
    PairStart(t, x, y, rb, rk);
    while p0 < e0 && p1 < e1
      invariant s0 <= p0 <= e0 <= p1 <= e1 && pos == p0 + (p1 - e0)
      invariant PairState(t, x, y, p0 - s0, p1 - e0, rb, rk, b[..pos], kb[..pos])
      invariant a[..] == sa && ka[..] == sk
    {
      FirstAt(t, sa, sk, s0, e0, e1, x, y, key, p0);
      SecondAt(t, sa, sk, s0, e0, e1, x, y, key, p1);
      var takeb := Precedes(t, a[p1], a[p0], ka[p1], ka[p0]);
      if takeb {
        LessAsymmetric(t, a[p1], a[p0]);
        PairSecond(t, x, y, p0 - s0, p1 - e0, rb, rk, b[..pos], kb[..pos], a[p1], ka[p1]);
      } else {
        PairFirst(t, x, y, p0 - s0, p1 - e0, rb, rk, b[..pos], kb[..pos], a[p0], ka[p0]);
      }
      Move(a, ka, if takeb then p1 else p0, b, kb, pos);
      pos := pos + 1;
      p1, p0 := if takeb then p1 + 1 else p1, if takeb then p0 else p0 + 1;
    }
    pos := DrainFirst(t, a, ka, b, kb, s0, e0, e1, p0, p1, x, y, rb, rk, key);
    pos := DrainSecond(t, a, ka, b, kb, s0, e0, e1, p1, x, y, rb, rk, key);
    PairEnd(t, x, y, rb, rk, b[..pos], kb[..pos]);
  }

  /** What is left of the first list goes out as it stands. */
  method DrainFirst(t: Text, a: array<uint32>, ka: array<uint64>, b: array<uint32>, kb: array<uint64>,
                    s0: nat, e0: nat, e1: nat, from: nat, p1: nat,
                    ghost x: seq<nat>, ghost y: seq<nat>, ghost rb: seq<uint32>, ghost rk: seq<uint64>, ghost key: nat)
    returns (pos: nat)
    requires a != b && ka != kb && s0 <= from <= e0 <= p1 <= e1 && e1 <= b.Length && e1 <= kb.Length
    requires TwoStretches(t, a[..], ka[..], s0, e0, e1, x, y, key)
    requires from == e0 || p1 == e1
    requires PairState(t, x, y, from - s0, p1 - e0, rb, rk, b[..from + (p1 - e0)], kb[..from + (p1 - e0)])
    modifies b, kb
    ensures pos == p1 && PairState(t, x, y, e0 - s0, p1 - e0, rb, rk, b[..p1], kb[..p1])
  {
    hide Sorted, Key, EKey, PairState, TwoStretches, Less;
    ghost var sa, sk := a[..], ka[..];
    var p0 := from;
    pos := from + (p1 - e0);
    StretchFacts(t, sa, sk, s0, e0, e1, x, y, key);
    while p0 < e0
      invariant from <= p0 <= e0 && pos == p0 + (p1 - e0)
      invariant PairState(t, x, y, p0 - s0, p1 - e0, rb, rk, b[..pos], kb[..pos])
      invariant a[..] == sa && ka[..] == sk
    {
      FirstAt(t, sa, sk, s0, e0, e1, x, y, key, p0);
      PairFirst(t, x, y, p0 - s0, p1 - e0, rb, rk, b[..pos], kb[..pos], a[p0], ka[p0]);
      Move(a, ka, p0, b, kb, pos);
      pos, p0 := pos + 1, p0 + 1;
    }
  }

  method DrainSecond(t: Text, a: array<uint32>, ka: array<uint64>, b: array<uint32>, kb: array<uint64>,
                     s0: nat, e0: nat, e1: nat, from: nat,
                     ghost x: seq<nat>, ghost y: seq<nat>, ghost rb: seq<uint32>, ghost rk: seq<uint64>, ghost key: nat)
    returns (pos: nat)
    requires a != b && ka != kb && s0 <= e0 <= from <= e1 && e1 <= b.Length && e1 <= kb.Length
    requires TwoStretches(t, a[..], ka[..], s0, e0, e1, x, y, key)
    requires PairState(t, x, y, e0 - s0, from - e0, rb, rk, b[..from], kb[..from])
    modifies b, kb
    ensures pos == e1 && PairState(t, x, y, e0 - s0, e1 - e0, rb, rk, b[..e1], kb[..e1])
  {
    hide Sorted, Key, EKey, PairState, TwoStretches, Less;
    ghost var sa, sk := a[..], ka[..];
    var p1 := from;
    pos := from;
    StretchFacts(t, sa, sk, s0, e0, e1, x, y, key);
    while p1 < e1
      invariant from <= p1 <= e1 && pos == p1
      invariant PairState(t, x, y, e0 - s0, p1 - e0, rb, rk, b[..pos], kb[..pos])
      invariant a[..] == sa && ka[..] == sk
    {
      SecondAt(t, sa, sk, s0, e0, e1, x, y, key, p1);
      PairSecond(t, x, y, e0 - s0, p1 - e0, rb, rk, b[..pos], kb[..pos], a[p1], ka[p1]);
      Move(a, ka, p1, b, kb, pos);
      pos, p1 := pos + 1, p1 + 1;
    }
  }

  /** The boundary table: list l is a[bounds[l]..bounds[l + 1]]. */
  ghost predicate IsBoundary(bounds: seq<uint32>, nlist: nat, total: nat) {
    && 0 < nlist < |bounds| && bounds[0] == 0 && bounds[nlist] == total
    && forall l :: 0 <= l < nlist ==> bounds[l] <= bounds[l + 1]
  }

  lemma {:induction false} BoundaryInside(bounds: seq<uint32>, nlist: nat, total: nat, l: nat)
    requires IsBoundary(bounds, nlist, total) && l <= nlist
    ensures bounds[l] <= total
    decreases nlist - l
  {
    if l < nlist { BoundaryInside(bounds, nlist, total, l + 1); }
  }

  /** Every list is sorted and all positions are gathered under one key. */
  ghost predicate Lists(t: Text, a: seq<uint32>, ka: seq<uint64>, bounds: seq<uint32>, nlist: nat, total: nat,
                        key: nat) {
    && Gathered(t, a, ka, total, key)
    && IsBoundary(bounds, nlist, total)
    && forall l :: 0 <= l < nlist ==> SortedList(t, a, bounds[l], bounds[l + 1])
  }

  ghost predicate SortedList(t: Text, a: seq<uint32>, lo: nat, hi: nat) {
    lo <= hi <= |a| && InText(t, a[lo..hi]) && Sorted(t, a[lo..hi])
  }

  /** Two adjacent lists are what MergePair reads; a last odd list pairs with nothing. */
  lemma ListsGivePair(t: Text, a: seq<uint32>, ka: seq<uint64>, bounds: seq<uint32>, nlist: nat, total: nat, key: nat,
                      l: nat)
    requires Lists(t, a, ka, bounds, nlist, total, key) && l < nlist
    ensures bounds[l] <= bounds[l + 1] <= total <= |a| && total <= |ka|
    ensures var e1 := if l + 1 == nlist then bounds[l + 1] else bounds[l + 2];
            && bounds[l + 1] <= e1 <= total
            && TwoStretches(t, a, ka, bounds[l], bounds[l + 1], e1, a[bounds[l]..bounds[l + 1]], a[bounds[l + 1]..e1],
                            key)
  {
    hide Sorted, Key, EKey;
    BoundaryInside(bounds, nlist, total, l + 1);
    assert SortedList(t, a, bounds[l], bounds[l + 1]);
    var e1 := if l + 1 == nlist then bounds[l + 1] else bounds[l + 2];
    if l + 1 < nlist {
      BoundaryInside(bounds, nlist, total, l + 2);
      assert SortedList(t, a, bounds[l + 1], bounds[l + 2]);
    } else {
      SortedNothing(t);
      assert a[bounds[l + 1]..e1] == [];
    }
    forall i | bounds[l] <= i < e1 ensures a[i] < |t| && Key(t, a[i]) == key && ka[i] == EKey(t, a[i]) {
      GatheredAt(t, a, ka, total, key, i);
    }
    StretchesOneKey(t, a, bounds[l], bounds[l + 1], key);
    StretchesOneKey(t, a, bounds[l + 1], e1, key);
  }

  lemma SortedNothing(t: Text)
    ensures InText(t, []) && Sorted(t, [])
  {}

  lemma StretchesOneKey(t: Text, a: seq<uint32>, lo: nat, hi: nat, key: nat)
    requires lo <= hi <= |a| && forall i :: lo <= i < hi ==> a[i] < |t| && Key(t, a[i]) == key
    ensures OneKey(t, a[lo..hi], key)
  {
    hide Key;
  }

  // One level of the tree.

  function Cut(bounds: seq<uint32>, nlist: nat, l: nat): nat
    requires nlist < |bounds|
  {
    if l < nlist then bounds[l] else bounds[nlist]
  }

  /** Lists 0..l have been merged in pairs into b. */
  ghost predicate LevelState(t: Text, a: seq<uint32>, ba: seq<uint32>, nlist: nat, l: nat,
                             b: seq<uint32>, kb: seq<uint64>, bb: seq<uint32>)
    requires nlist < |ba|
  {
    && l % 2 == 0 && l <= nlist + 1 && l / 2 <= |bb|
    && |b| == |kb| == Cut(ba, nlist, l) <= |a|
    && multiset(b) == multiset(a[..|b|])
    && (forall i :: 0 <= i < |b| ==> kb[i] == EKey(t, b[i]))
    && (forall k :: 0 <= k < l / 2 ==> bb[k] == Cut(ba, nlist, 2 * k))
    && (forall k :: 0 <= k < l / 2 ==> SortedList(t, b, Cut(ba, nlist, 2 * k), Cut(ba, nlist, 2 * k + 2)))
  }

  lemma LevelStart(t: Text, a: seq<uint32>, ka: seq<uint64>, ba: seq<uint32>, nlist: nat, total: nat, key: nat,
                   bb: seq<uint32>)
    requires Lists(t, a, ka, ba, nlist, total, key)
    ensures LevelState(t, a, ba, nlist, 0, [], [], bb)
  {}

  /** Writing one merged pair behind b carries the state two lists on. */
  lemma LevelNext(t: Text, a: seq<uint32>, ka: seq<uint64>, ba: seq<uint32>, nlist: nat, total: nat, key: nat, l: nat,
                  b: seq<uint32>, kb: seq<uint64>, bb: seq<uint32>, b': seq<uint32>, kb': seq<uint64>, bb': seq<uint32>)
    requires nlist < |ba| && Lists(t, a, ka, ba, nlist, total, key) && l < nlist && l / 2 < |bb| == |bb'|
    requires LevelState(t, a, ba, nlist, l, b, kb, bb)
    requires var e1 := Cut(ba, nlist, l + 2); |b| <= e1 <= |a| && MergedInto(t, b, kb, a[|b|..e1], b', kb')
    requires bb' == bb[l / 2 := |b|]
    ensures LevelState(t, a, ba, nlist, l + 2, b', kb', bb')
  {
    hide Sorted, Key, EKey, Lists, SortedList, Cut;
    var e1 := Cut(ba, nlist, l + 2);
    PairSpan(t, b, kb, a[|b|..e1], b', kb', e1);
    assert a[..e1] == a[..|b|] + a[|b|..e1];
    forall k | 0 <= k < l / 2 + 1
      ensures SortedList(t, b', Cut(ba, nlist, 2 * k), Cut(ba, nlist, 2 * k + 2))
    {
      if k < l / 2 { SortedListKept(t, b, b', Cut(ba, nlist, 2 * k), Cut(ba, nlist, 2 * k + 2)); }
    }
  }

  /** What a merged pair adds behind the lists already written. */
  lemma PairSpan(t: Text, b: seq<uint32>, kb: seq<uint64>, s: seq<nat>, b': seq<uint32>, kb': seq<uint64>, e1: nat)
    requires |b| == |kb| && MergedInto(t, b, kb, s, b', kb') && e1 == |b| + |s|
    requires forall i :: 0 <= i < |b| ==> kb[i] == EKey(t, b[i])
    ensures |b'| == |kb'| == e1 && b <= b' && multiset(b') == multiset(b) + multiset(s)
    ensures SortedList(t, b', |b|, e1)
    ensures forall i :: 0 <= i < |b'| ==> kb'[i] == EKey(t, b'[i])
  {
    hide Sorted, EKey;
    var w := b'[|b|..];
    assert b' == b + w;
    assert |multiset(w)| == |multiset(s)|;
    assert b'[|b|..e1] == w;
    forall i | 0 <= i < |b'| ensures kb'[i] == EKey(t, b'[i]) {
      if i < |b| { assert b'[i] == b[i] && kb'[i] == kb[i]; }
    }
  }

  lemma SortedListKept(t: Text, b: seq<uint32>, b': seq<uint32>, lo: nat, hi: nat)
    requires b <= b' && SortedList(t, b, lo, hi)
    ensures SortedList(t, b', lo, hi)
  {
    hide Sorted;
    assert b'[lo..hi] == b[lo..hi];
  }

  lemma OneKeyPermutes(t: Text, s: seq<nat>, r: seq<nat>, key: nat)
    requires OneKey(t, s, key) && multiset(r) == multiset(s)
    ensures OneKey(t, r, key)
  {
    hide Key;
    forall i | 0 <= i < |r| ensures r[i] < |t| && Key(t, r[i]) == key {
      assert r[i] in multiset(r);
      assert r[i] in s;
    }
  }

  /** A finished level is again a table of sorted lists, half as many. */
  lemma LevelEnd(t: Text, a: seq<uint32>, ka: seq<uint64>, ba: seq<uint32>, nlist: nat, total: nat, key: nat, l: nat,
                 b: seq<uint32>, kb: seq<uint64>, bb: seq<uint32>)
    requires Lists(t, a, ka, ba, nlist, total, key) && nlist <= l
    requires total <= |b| && total <= |kb| && LevelState(t, a, ba, nlist, l, b[..total], kb[..total], bb)
    requires l / 2 < |bb| && bb[l / 2] == total
    ensures Lists(t, b, kb, bb, l / 2, total, key)
    ensures multiset(b[..total]) == multiset(a[..total])
  {
    hide Sorted, Key, EKey;
    OneKeyPermutes(t, a[..total], b[..total], key);
    forall i | 0 <= i < total ensures kb[i] == EKey(t, b[i]) {
      assert b[..total][i] == b[i] && kb[..total][i] == kb[i];
    }
    forall k | 0 <= k < l / 2 ensures bb[k] <= bb[k + 1] && SortedList(t, b, bb[k], bb[k + 1]) {
      var lo, hi := Cut(ba, nlist, 2 * k), Cut(ba, nlist, 2 * k + 2);
      assert SortedList(t, b[..total], lo, hi);
      assert b[..total][lo..hi] == b[lo..hi];
      assert bb[k + 1] == hi;
    }
  }

  /** A last list without a partner is copied. */
  method CopyList(t: Text, a: array<uint32>, ka: array<uint64>, b: array<uint32>, kb: array<uint64>,
                  s0: nat, e0: nat, ghost x: seq<nat>, ghost key: nat)
    requires a != b && ka != kb && s0 <= e0 && e0 <= b.Length && e0 <= kb.Length
    requires TwoStretches(t, a[..], ka[..], s0, e0, e0, x, [], key)
    modifies b, kb
    ensures MergedInto(t, old(b[..s0]), old(kb[..s0]), x, b[..e0], kb[..e0])
  {
    hide Sorted, Key, EKey;
    ghost var rb, rk, sa, sk := b[..s0], kb[..s0], a[..], ka[..];
    forall i | s0 <= i < e0 { b[i] := a[i]; }
    forall i | s0 <= i < e0 { kb[i] := ka[i]; }
    assert b[..e0] == rb + sa[s0..e0] && kb[..e0] == rk + sk[s0..e0];
    CopiedList(t, sa, sk, s0, e0, x, key, rb, rk, b[..e0], kb[..e0]);
  }

  lemma CopiedList(t: Text, a: seq<uint32>, ka: seq<uint64>, s0: nat, e0: nat, x: seq<nat>, key: nat,
                   rb: seq<uint32>, rk: seq<uint64>, b: seq<uint32>, kb: seq<uint64>)
    requires TwoStretches(t, a, ka, s0, e0, e0, x, [], key) && |rb| == |rk| == s0
    requires b == rb + a[s0..e0] && kb == rk + ka[s0..e0]
    ensures MergedInto(t, rb, rk, x, b, kb)
  {
    hide Sorted, Key, EKey;
    assert b[|rb|..] == x;
  }

  /** One level: adjacent pairs from a to b, boundaries from ba to bb. */
  method MergeLevel(t: Text, a: array<uint32>, ka: array<uint64>, ba: array<uint32>,
                    b: array<uint32>, kb: array<uint64>, bb: array<uint32>, nlist: nat, total: nat, ghost key: nat)
    returns (outLists: nat)
    requires a != b && ka != kb && ba != bb && a != ba && b != bb && a != bb && b != ba
    requires 1 < nlist && Lists(t, a[..], ka[..], ba[..], nlist, total, key) && total < 0x1_0000_0000
    requires total <= b.Length && total <= kb.Length && nlist < bb.Length
    modifies b, kb, bb
    ensures outLists == (nlist + 1) / 2
    ensures Lists(t, b[..], kb[..], bb[..], outLists, total, key)
    ensures total <= a.Length && multiset(b[..total]) == multiset(a[..total])
  {
    hide Sorted, Key, EKey, Lists, LevelState, TwoStretches, MergedInto, Cut;
    ghost var sa, ska, sba := a[..], ka[..], ba[..];
    LevelStart(t, sa, ska, sba, nlist, total, key, bb[..]);
    LevelBounds(t, sa, ska, sba, nlist, total, key);
    var l, pos := 0, 0;
    outLists := 0;
    while l < nlist
      invariant a[..] == sa && ka[..] == ska && ba[..] == sba
      invariant l % 2 == 0 && l <= nlist + 1 && outLists == l / 2 && pos <= total && pos == Cut(sba, nlist, l)
      invariant LevelState(t, sa, sba, nlist, l, b[..pos], kb[..pos], bb[..])
    {
      ListsGivePair(t, sa, ska, sba, nlist, total, key, l);
      CutIs(sba, nlist, l);
      ghost var b0, kb0, bb0 := b[..pos], kb[..pos], bb[..];
      Set(bb, outLists, pos);
      outLists := outLists + 1;
      var e0 := ba[l + 1];
      var e1 := e0;
      ghost var x: seq<nat> := sa[pos..e0];
      if l + 1 == nlist {
        CopyList(t, a, ka, b, kb, pos, e0, x, key);
        assert x == sa[pos..e1];
      } else {
        e1 := ba[l + 2];
        MergePair(t, a, ka, b, kb, pos, e0, e1, x, sa[e0..e1], key);
        Adjacent(sa, pos, e0, e1);
      }
      LevelNext(t, sa, ska, sba, nlist, total, key, l, b0, kb0, bb0, b[..e1], kb[..e1], bb[..]);
      pos := e1;
      l := l + 2;
    }
    CutEnd(t, sa, ska, sba, nlist, total, key, l);
    LevelBb(t, sa, sba, nlist, l, b[..pos], kb[..pos], bb[..], pos);
    Set(bb, outLists, pos);
    assert b[..][..total] == b[..total] && kb[..][..total] == kb[..total] && sa[..total] == a[..total];
    LevelEnd(t, sa, ska, sba, nlist, total, key, l, b[..], kb[..], bb[..]);
  }

  lemma Adjacent(a: seq<uint32>, lo: nat, mid: nat, hi: nat)
    requires lo <= mid <= hi <= |a|
    ensures a[lo..hi] == a[lo..mid] + a[mid..hi]
  {}

  lemma LevelBounds(t: Text, a: seq<uint32>, ka: seq<uint64>, ba: seq<uint32>, nlist: nat, total: nat, key: nat)
    requires Lists(t, a, ka, ba, nlist, total, key)
    ensures nlist < |ba| && total <= |a| && total <= |ka| && Cut(ba, nlist, 0) == 0
  {}

  lemma CutIs(ba: seq<uint32>, nlist: nat, l: nat)
    requires l < nlist < |ba|
    ensures Cut(ba, nlist, l) == ba[l]
    ensures Cut(ba, nlist, l + 2) == if l + 1 == nlist then ba[l + 1] else ba[l + 2]
  {}

  lemma CutEnd(t: Text, a: seq<uint32>, ka: seq<uint64>, ba: seq<uint32>, nlist: nat, total: nat, key: nat, l: nat)
    requires Lists(t, a, ka, ba, nlist, total, key) && nlist <= l
    ensures nlist < |ba| && Cut(ba, nlist, l) == total
  {}

  lemma LevelBb(t: Text, a: seq<uint32>, ba: seq<uint32>, nlist: nat, l: nat, b: seq<uint32>, kb: seq<uint64>,
                bb: seq<uint32>, v: uint32)
    requires nlist < |ba| && l / 2 < |bb| && LevelState(t, a, ba, nlist, l, b, kb, bb)
    ensures LevelState(t, a, ba, nlist, l, b, kb, bb[l / 2 := v])
  {
    hide Sorted, Cut, SortedList, EKey;
  }
}
