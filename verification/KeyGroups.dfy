/** The sorted descriptors as key groups: what one group holds, and why writing the groups out in
    key order writes a suffix array. */
module KeyGroups {
  import opened SuffixOrder
  import opened Keys
  import opened StableOrder
  import opened Descriptors
  import opened NaiveCoverage

  /** The positions whose padded key is k. */
  ghost function Occurring(t: Text, k: nat): set<nat> {
    set p | 0 <= p < |t| && Key(t, p) == k
  }

  lemma {:induction false} BoundedSet(s: set<nat>, n: nat)
    requires forall p :: p in s ==> p < n
    ensures |s| <= n
  {
    if n > 0 {
      var m := n - 1;
      BoundedSet(s - {m}, m);
      assert s <= (s - {m}) + {m};
    }
  }

  lemma {:induction false} FullSet(s: set<nat>, n: nat)
    requires forall p :: 0 <= p < n ==> p in s
    ensures |s| >= n
  {
    if n > 0 {
      FullSet(s - {n - 1}, n - 1);
    }
  }

  /** What the merge phase relies on: lists in key order that hold every suffix once. */
  ghost predicate Sortable(t: Text, gs: seq<Group>) {
    && GroupsOk(t, gs)
    && Covers(Flatten(gs), Between(0, |t|))
    && forall i, j :: 0 <= i < j < |gs| ==> gs[i].key <= gs[j].key
  }

  /** gs[i..j] is one maximal key group. */
  ghost predicate IsKeyGroup(gs: seq<Group>, i: nat, j: nat) {
    && i < j <= |gs|
    && (forall x :: i <= x < j ==> gs[x].key == gs[i].key)
    && (forall x :: 0 <= x < i ==> gs[x].key < gs[i].key)
    && (forall x :: j <= x < |gs| ==> gs[x].key > gs[i].key)
  }

  lemma FlattenThirds(gs: seq<Group>, i: nat, j: nat)
    requires i <= j <= |gs|
    ensures Flatten(gs) == Flatten(gs[..i]) + Flatten(gs[i..j]) + Flatten(gs[j..])
    ensures Flatten(gs[..j]) == Flatten(gs[..i]) + Flatten(gs[i..j])
  {
    hide Flatten;
    assert gs[..j] == gs[..i] + gs[i..j];
    assert gs == gs[..j] + gs[j..];
    FlattenConcat(gs[..j], gs[j..]);
    FlattenConcat(gs[..i], gs[i..j]);
  }

  /** A flattened position carries the key of the list it came from. */
  lemma {:induction false} FlattenHasKey(t: Text, gs: seq<Group>, p: nat) returns (x: nat)
    requires GroupsOk(t, gs) && p in Flatten(gs)
    ensures x < |gs| && p < |t| && Key(t, p) == gs[x].key
    decreases |gs|
  {
    hide Key, Less;
    var n := |gs| - 1;
    if p in multiset(Positions(gs[n])) {
      x := n;
      var i :| 0 <= i < |gs[n].blocks| && Positions(gs[n])[i] == p;
      assert GroupOk(t, gs[n]);
    } else {
      x := FlattenHasKey(t, gs[..n], p);
    }
  }

  lemma SubGroupsOk(t: Text, gs: seq<Group>, i: nat, j: nat)
    requires GroupsOk(t, gs) && i <= j <= |gs|
    ensures GroupsOk(t, gs[i..j])
  {
    hide GroupOk;
  }

  lemma CoveredOnce(m: multiset<nat>, n: nat, p: nat)
    requires Covers(m, Between(0, n))
    ensures m[p] == if p < n then 1 else 0
  {}

  /** A maximal key group holds exactly the positions with its key. */
  lemma KeyGroupHolds(t: Text, gs: seq<Group>, i: nat, j: nat)
    requires Sortable(t, gs) && IsKeyGroup(gs, i, j)
    ensures Flatten(gs[i..j]) == multiset(Occurring(t, gs[i].key))
    ensures |Flatten(gs[i..j])| == |Occurring(t, gs[i].key)|
  {
    hide Flatten, Key, GroupOk, Covers, Between;
    FlattenThirds(gs, i, j);
    var m, k := Flatten(gs[i..j]), gs[i].key;
    assert gs[0..i] == gs[..i] && gs[j..|gs|] == gs[j..];
    SubGroupsOk(t, gs, 0, i);
    SubGroupsOk(t, gs, i, j);
    SubGroupsOk(t, gs, j, |gs|);
    forall p: nat ensures m[p] == if p in Occurring(t, k) then 1 else 0 {
      CoveredOnce(Flatten(gs), |t|, p);
      if p in m {
        var x := FlattenHasKey(t, gs[i..j], p);
        assert gs[i..j][x].key == gs[i + x].key == k;
      }
      if p in Flatten(gs[..i]) {
        var x := FlattenHasKey(t, gs[..i], p);
        assert gs[..i][x].key == gs[x].key < k;
      }
      if p in Flatten(gs[j..]) {
        var x := FlattenHasKey(t, gs[j..], p);
        assert gs[j..][x].key == gs[j + x].key > k;
      }
    }
    assert m == multiset(Occurring(t, k));
  }

  /** r is the part of the suffix array that belongs to the first i lists. */
  ghost predicate WrittenOut(t: Text, gs: seq<Group>, i: nat, r: seq<nat>) {
    && i <= |gs|
    && InText(t, r) && Sorted(t, r)
    && multiset(r) == Flatten(gs[..i])
  }

  lemma SizeOfText(t: Text, gs: seq<Group>)
    requires Covers(Flatten(gs), Between(0, |t|))
    ensures |Flatten(gs)| == |t|
  {
    var s := UpTo(|t|);
    assert Flatten(gs) == multiset(s);
  }

  /** The next group always fits behind what is already written. */
  lemma GroupFits(t: Text, gs: seq<Group>, i: nat, j: nat, r: seq<nat>)
    requires Sortable(t, gs) && i <= j <= |gs| && WrittenOut(t, gs, i, r)
    ensures |r| + |Flatten(gs[i..j])| <= |t|
    ensures j == |gs| ==> |r| + |Flatten(gs[i..j])| == |t|
  {
    hide Flatten, GroupOk, Sorted, Covers;
    SizeOfText(t, gs);
    FlattenThirds(gs, i, j);
    assert |multiset(r)| == |r|;
    FlattenNone();
    if j == |gs| { assert gs[j..] == []; }
  }

  /** Appending a sorted group keeps the whole prefix sorted: its key is larger than every key
      already written. */
  lemma GroupAppends(t: Text, gs: seq<Group>, i: nat, j: nat, r: seq<nat>, w: seq<nat>)
    requires Sortable(t, gs) && IsKeyGroup(gs, i, j) && WrittenOut(t, gs, i, r)
    requires InText(t, w) && Sorted(t, w) && multiset(w) == Flatten(gs[i..j])
    ensures WrittenOut(t, gs, j, r + w)
  {
    hide Flatten, Key, GroupOk, Less;
    FlattenThirds(gs, i, j);
    SubGroupsOk(t, gs, 0, i);
    assert gs[0..i] == gs[..i];
    SubGroupsOk(t, gs, i, j);
    forall x, y | 0 <= x < |r| && 0 <= y < |w| ensures LessEq(t, r[x], w[y]) {
      assert r[x] in multiset(r) && w[y] in multiset(w);
      var a := FlattenHasKey(t, gs[..i], r[x]);
      var b := FlattenHasKey(t, gs[i..j], w[y]);
      assert gs[..i][a].key < gs[i].key && gs[i..j][b].key == gs[i].key;
      KeyOrder(t, r[x], w[y]);
    }
    SortedConcat(t, r, w);
  }

  lemma SortedConcat(t: Text, r: seq<nat>, w: seq<nat>)
    requires InText(t, r) && InText(t, w) && Sorted(t, r) && Sorted(t, w)
    requires forall x, y :: 0 <= x < |r| && 0 <= y < |w| ==> LessEq(t, r[x], w[y])
    ensures InText(t, r + w) && Sorted(t, r + w)
  {
    hide LessEq;
  }

  /** Sorted and holding every position once is a suffix array. */
  lemma CompleteIsSuffixArray(t: Text, gs: seq<Group>, r: seq<nat>)
    requires Sortable(t, gs) && WrittenOut(t, gs, |gs|, r)
    ensures IsSuffixArray(t, r)
  {
    hide Flatten, GroupOk, Less;
    assert gs[..|gs|] == gs;
    SizeOfText(t, gs);
    assert |multiset(r)| == |r|;
    forall p | 0 <= p < |t| ensures p in r { assert multiset(r)[p] == 1; }
    forall i, j | 0 <= i < j < |r| ensures Less(t, r[i], r[j]) {
      if r[i] == r[j] { RepeatsCount(r, i, j); }
      assert multiset(r)[r[i]] <= 1;
    }
  }

  lemma RepeatsCount(r: seq<nat>, i: nat, j: nat)
    requires i < j < |r| && r[i] == r[j]
    ensures multiset(r)[r[i]] >= 2
  {
    assert r == r[..j] + [r[j]] + r[j + 1..];
    assert r[i] in r[..j];
  }

  /** A list on its own is its group's sorted output. */
  lemma SingleGroup(t: Text, gs: seq<Group>, i: nat)
    requires GroupsOk(t, gs) && i < |gs|
    ensures InText(t, Positions(gs[i])) && Sorted(t, Positions(gs[i]))
    ensures multiset(Positions(gs[i])) == Flatten(gs[i..i + 1])
  {
    hide Key, Less;
    assert gs[i..i + 1] == [gs[i]];
    FlattenOne(gs[i]);
  }
}
