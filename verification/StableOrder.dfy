/** Stable sorting by an integer key, stated through where each element goes.
    q[x] is the final index of element x; a sort is stable exactly when q orders the
    elements by key first and by where they already were second. */
module StableOrder {

  predicate Before(ks: seq<int>, x: nat, y: nat)
    requires x < |ks| && y < |ks|
  {
    ks[x] < ks[y] || (ks[x] == ks[y] && x < y)
  }

  ghost predicate InRange(q: seq<nat>) {
    forall x :: 0 <= x < |q| ==> q[x] < |q|
  }

  ghost predicate Distinct(q: seq<nat>) {
    forall x, y :: 0 <= x < y < |q| ==> q[x] != q[y]
  }

  ghost predicate IsDestination(ks: seq<int>, q: seq<nat>) {
    && |q| == |ks|
    && InRange(q)
    && forall x, y :: 0 <= x < |q| && 0 <= y < |q| ==> (q[x] < q[y] <==> Before(ks, x, y))
  }

  ghost predicate Placed<T>(q: seq<nat>, s: seq<T>, r: seq<T>) {
    && |q| == |s| == |r|
    && InRange(q)
    && forall x :: 0 <= x < |q| ==> r[q[x]] == s[x]
  }

  /** r is s sorted stably by the keys ks. */
  ghost predicate StableSort<T(!new)>(ks: seq<int>, s: seq<T>, r: seq<T>) {
    exists q :: IsDestination(ks, q) && Placed(q, s, r)
  }

  lemma DestinationDistinct(ks: seq<int>, q: seq<nat>)
    requires IsDestination(ks, q)
    ensures Distinct(q)
  {
    forall x, y | 0 <= x < y < |q| ensures q[x] != q[y] {
      assert Before(ks, x, y) || Before(ks, y, x);
    }
  }

  ghost function Values(q: seq<nat>): set<nat> {
    set v | v in q
  }

  ghost function UpTo(n: nat): (s: set<nat>)
    ensures |s| == n && forall i :: i in s <==> 0 <= i < n
  {
    if n == 0 then {} else UpTo(n - 1) + {n - 1}
  }

  lemma {:induction false} DistinctCount(q: seq<nat>)
    requires Distinct(q)
    ensures |Values(q)| == |q|
  {
    if q != [] {
      var n := |q| - 1;
      DistinctCount(q[..n]);
      assert q == q[..n] + [q[n]];
      assert Values(q) == Values(q[..n]) + {q[n]};
      assert q[n] !in Values(q[..n]);
    }
  }

  /** Pigeonhole: distinct values in range leave no index out. */
  lemma DistinctIsOnto(q: seq<nat>, i: nat) returns (x: nat)
    requires InRange(q) && Distinct(q) && i < |q|
    ensures x < |q| && q[x] == i
  {
    var image, range := Values(q), UpTo(|q|);
    DistinctCount(q);
    assert image <= range;
    var missing := range - image;
    assert range == image + missing;
    assert |range| == |image| + |missing|;
    assert i in range && i !in missing;
    x :| 0 <= x < |q| && q[x] == i;
  }

  lemma {:induction false} DestinationAgree(ks: seq<int>, q: seq<nat>, q': seq<nat>, x: nat)
    requires IsDestination(ks, q) && IsDestination(ks, q') && x < |q|
    ensures q[x] == q'[x]
    decreases q[x]
  {
    DestinationDistinct(ks, q);
    DestinationDistinct(ks, q');
    if q'[x] < q[x] {
      var z := DistinctIsOnto(q, q'[x]);
      DestinationAgree(ks, q, q', z);
    } else if q[x] < q'[x] {
      var z := DistinctIsOnto(q', q[x]);
      assert Before(ks, z, x);
      DestinationAgree(ks, q, q', z);
    }
  }

  /** Every correct stable sort by the same keys gives the same result. */
  lemma StableSortUnique<T(!new)>(ks: seq<int>, s: seq<T>, r: seq<T>, r': seq<T>)
    requires StableSort(ks, s, r) && StableSort(ks, s, r')
    ensures r == r'
  {
    var q :| IsDestination(ks, q) && Placed(q, s, r);
    var q' :| IsDestination(ks, q') && Placed(q', s, r');
    DestinationDistinct(ks, q);
    forall i | 0 <= i < |r| ensures r[i] == r'[i] {
      var x := DistinctIsOnto(q, i);
      DestinationAgree(ks, q, q', x);
    }
  }

  /** Two positions of the result come from elements in key-then-index order. */
  lemma SourcesInOrder(ks: seq<int>, q: seq<nat>, i: nat, j: nat) returns (x: nat, y: nat)
    requires IsDestination(ks, q) && i < j < |q|
    ensures x < |q| && y < |q| && q[x] == i && q[y] == j && Before(ks, x, y)
  {
    DestinationDistinct(ks, q);
    x := DistinctIsOnto(q, i);
    y := DistinctIsOnto(q, j);
  }

  /** Taking the last element out of both lists leaves the others placed. */
  lemma OthersPlaced<T>(q: seq<nat>, s: seq<T>, r: seq<T>, q': seq<nat>, s': seq<T>, r': seq<T>)
    requires q != [] && Placed(q, s, r) && Distinct(q) && |q'| == |q| - 1
    requires forall x :: 0 <= x < |q'| ==> q'[x] == if q[x] < q[|q| - 1] then q[x] else q[x] - 1
    requires s' == s[..|q| - 1] && r' == r[..q[|q| - 1]] + r[q[|q| - 1] + 1..]
    ensures Placed(q', s', r') && Distinct(q')
  {
    var n := |q| - 1;
    var p := q[n];
    forall x | 0 <= x < n ensures q'[x] < n { assert q[x] != p; }
    forall x, y | 0 <= x < y < n ensures q'[x] != q'[y] { assert q[x] != p && q[y] != p && q[x] != q[y]; }
  }

  /** A permutation keeps the elements. */
  lemma {:induction false} PlacedPermutes<T>(q: seq<nat>, s: seq<T>, r: seq<T>)
    requires Placed(q, s, r) && Distinct(q)
    ensures multiset(r) == multiset(s)
    decreases |q|
  {
    if q != [] {
      var n := |q| - 1;
      var p := q[n];
      var q' := seq(n, x requires 0 <= x < n => if q[x] < p then q[x] else q[x] - 1);
      var s', r' := s[..n], r[..p] + r[p + 1..];
      OthersPlaced(q, s, r, q', s', r');
      PlacedPermutes(q', s', r');
      assert s == s' + [s[n]];
      assert r == r[..p] + [r[p]] + r[p + 1..];
    }
  }

  lemma StableSortPermutes<T(!new)>(ks: seq<int>, s: seq<T>, r: seq<T>)
    requires StableSort(ks, s, r)
    ensures multiset(r) == multiset(s) && |r| == |s|
  {
    var q :| IsDestination(ks, q) && Placed(q, s, r);
    DestinationDistinct(ks, q);
    PlacedPermutes(q, s, r);
  }

  /** Sorting the low digit first and the high digit second, both stably, sorts by the whole
      key: the heart of a least-significant-digit radix sort. */
  lemma DigitsCompose(lo: seq<int>, hi: seq<int>, full: seq<int>,
                      q1: seq<nat>, hi1: seq<int>, q2: seq<nat>) returns (q: seq<nat>)
    requires |lo| == |hi| == |full|
    requires forall x :: 0 <= x < |lo| ==> 0 <= lo[x] < 0x1000 && full[x] == hi[x] * 0x1000 + lo[x]
    requires IsDestination(lo, q1) && Placed(q1, hi, hi1) && IsDestination(hi1, q2)
    ensures IsDestination(full, q)
    ensures forall x :: 0 <= x < |q| ==> q[x] == q2[q1[x]]
  {
    q := seq(|lo|, x requires 0 <= x < |lo| => q2[q1[x]]);
    forall x, y | 0 <= x < |q| && 0 <= y < |q|
      ensures q[x] < q[y] <==> Before(full, x, y)
    {
      assert q[x] < q[y] <==> Before(hi1, q1[x], q1[y]);
    }
  }

  // Counting: the destination as a number the code can compute.

  function Below(ks: seq<int>, v: int): nat {
    if ks == [] then 0 else Below(ks[..|ks| - 1], v) + (if ks[|ks| - 1] < v then 1 else 0)
  }

  function Same(ks: seq<int>, v: int): nat {
    if ks == [] then 0 else Same(ks[..|ks| - 1], v) + (if ks[|ks| - 1] == v then 1 else 0)
  }

  /** How many elements must precede element x. */
  function Rank(ks: seq<int>, x: nat): nat
    requires x < |ks|
  {
    Below(ks, ks[x]) + Same(ks[..x], ks[x])
  }

  lemma BelowNext(ks: seq<int>, k: nat, v: int)
    requires k < |ks|
    ensures Below(ks[..k + 1], v) == Below(ks[..k], v) + (if ks[k] < v then 1 else 0)
  {
    assert ks[..k + 1][..k] == ks[..k];
  }

  lemma SameNext(ks: seq<int>, k: nat, v: int)
    requires k < |ks|
    ensures Same(ks[..k + 1], v) == Same(ks[..k], v) + (if ks[k] == v then 1 else 0)
  {
    assert ks[..k + 1][..k] == ks[..k];
  }

  lemma {:induction false} BelowBounds(ks: seq<int>, v: int)
    ensures Below(ks, v) + Same(ks, v) <= |ks|
    decreases |ks|
  {
    if ks != [] { BelowBounds(ks[..|ks| - 1], v); }
  }

  lemma {:induction false} BelowMonotone(ks: seq<int>, u: int, v: int)
    requires u < v
    ensures Below(ks, u) + Same(ks, u) <= Below(ks, v)
    decreases |ks|
  {
    if ks != [] { BelowMonotone(ks[..|ks| - 1], u, v); }
  }

  lemma {:induction false} SameMonotone(ks: seq<int>, x: nat, y: nat, v: int)
    requires x <= y <= |ks|
    ensures Same(ks[..x], v) <= Same(ks[..y], v)
    decreases y - x
  {
    if x < y {
      SameMonotone(ks, x, y - 1, v);
      SameNext(ks, y - 1, v);
    }
  }

  /** Elements of one key take consecutive places, in the order they were in. */
  lemma SameStrict(ks: seq<int>, x: nat, y: nat, v: int)
    requires x < y <= |ks| && ks[x] == v
    ensures Same(ks[..x], v) < Same(ks[..y], v)
  {
    SameNext(ks, x, v);
    SameMonotone(ks, x + 1, y, v);
  }

  lemma RankBefore(ks: seq<int>, x: nat, y: nat)
    requires x < |ks| && y < |ks| && Before(ks, x, y)
    ensures Rank(ks, x) < Rank(ks, y)
  {
    SameStrict(ks, x, |ks|, ks[x]);
    assert ks[..|ks|] == ks;
    if ks[x] < ks[y] {
      BelowMonotone(ks, ks[x], ks[y]);
    } else {
      SameStrict(ks, x, y, ks[x]);
    }
  }

  lemma RankInRange(ks: seq<int>, x: nat)
    requires x < |ks|
    ensures Rank(ks, x) < |ks|
  {
    SameStrict(ks, x, |ks|, ks[x]);
    assert ks[..|ks|] == ks;
    BelowBounds(ks, ks[x]);
  }

  function Ranks(ks: seq<int>): (q: seq<nat>)
    ensures |q| == |ks|
    ensures forall x :: 0 <= x < |q| ==> q[x] == Rank(ks, x)
  {
    seq(|ks|, x requires 0 <= x < |ks| => Rank(ks, x))
  }

  lemma RanksPermute(ks: seq<int>)
    ensures InRange(Ranks(ks)) && Distinct(Ranks(ks))
  {
    var q := Ranks(ks);
    forall x | 0 <= x < |q| ensures q[x] < |q| { RankInRange(ks, x); }
    forall x, y | 0 <= x < y < |q| ensures q[x] != q[y] {
      if Before(ks, x, y) { RankBefore(ks, x, y); } else { RankBefore(ks, y, x); }
    }
  }

  /** The ranks are the destinations. */
  lemma RanksAreDestinations(ks: seq<int>)
    ensures IsDestination(ks, Ranks(ks))
  {
    var q := Ranks(ks);
    RanksPermute(ks);
    forall x, y | 0 <= x < |q| && 0 <= y < |q|
      ensures q[x] < q[y] <==> Before(ks, x, y)
    {
      if Before(ks, x, y) { RankBefore(ks, x, y); }
      if Before(ks, y, x) { RankBefore(ks, y, x); }
    }
  }

  /** Inserting the last element at p, where everything before p has a key no larger and
      everything from p on a larger one, keeps a stably sorted prefix stably sorted. */
  lemma InsertDestination(ks: seq<int>, q: seq<nat>, p: nat) returns (q': seq<nat>)
    requires |ks| == |q| + 1 && IsDestination(ks[..|q|], q) && p <= |q|
    requires forall x :: 0 <= x < |q| ==> (q[x] < p <==> ks[x] <= ks[|q|])
    ensures IsDestination(ks, q') && |q'| == |q| + 1 && q'[|q|] == p
    ensures forall x :: 0 <= x < |q| ==> q'[x] == if q[x] < p then q[x] else q[x] + 1
  {
    var n := |q|;
    q' := seq(n, x requires 0 <= x < n => if q[x] < p then q[x] else q[x] + 1) + [p];
    var pre := ks[..n];
    forall x, y | 0 <= x < |q'| && 0 <= y < |q'|
      ensures q'[x] < q'[y] <==> Before(ks, x, y)
    {
      if x < n && y < n {
        assert Before(ks, x, y) <==> Before(pre, x, y);
        assert q[x] < q[y] <==> Before(pre, x, y);
      }
    }
  }
}
