/** What the reference walk produces, for any partition of the blocks into runs: lists that are
    each ascending and share a key, and that together hold every suffix exactly once. */
module NaiveCoverage {
  import opened SuffixOrder
  import opened Keys
  import opened StableOrder
  import opened Descriptors
  import opened NaiveWalk

  ghost predicate GroupOk(t: Text, g: Group) {
    && g.rel < 256 && g.blocks != []
    && InText(t, Positions(g))
    && Ascending(t, Positions(g))
    && forall i :: 0 <= i < |g.blocks| ==> Key(t, PosOf(g.blocks[i], g.rel)) == g.key
  }

  ghost predicate GroupsOk(t: Text, gs: seq<Group>) {
    forall i :: 0 <= i < |gs| ==> GroupOk(t, gs[i])
  }

  /** m holds exactly the positions that belong, once each. */
  ghost predicate Covers(m: multiset<nat>, belongs: nat -> bool) {
    forall p :: m[p] == if belongs(p) then 1 else 0
  }

  lemma {:induction false} GroupsFromOk(t: Text, first: nat, blocks: nat, rel: nat, s: seq<nat>, i: nat)
    requires IsColumnOrder(t, first, blocks, rel, s) && i <= |s|
    ensures GroupsOk(t, GroupsFrom(t, s, rel, i))
    decreases |s| - i
  {
    if i < |s| {
      var j := RunEnd(t, s, rel, KeyAt(t, s, rel, i), i + 1);
      GroupsFromOk(t, first, blocks, rel, s, j);
      hide RunEnd, Less;
      var g := Group(KeyAt(t, s, rel, i), rel, s[i..j]);
      forall x | 0 <= x < |g.blocks| ensures Key(t, PosOf(g.blocks[x], rel)) == g.key {
        assert KeyAt(t, s, rel, i + x) == g.key;
      }
      assert GroupOk(t, g);
    }
  }

  /** Cutting a column into lists loses and repeats nothing. */
  lemma {:induction false} GroupsFromFlatten(t: Text, s: seq<nat>, rel: nat, i: nat)
    requires i <= |s|
    ensures Flatten(GroupsFrom(t, s, rel, i)) == multiset(At(s[i..], rel))
    decreases |s| - i
  {
    hide Flatten, RunEnd, Key;
    if i == |s| {
      FlattenNone();
    } else {
      var k := KeyAt(t, s, rel, i);
      var j := RunEnd(t, s, rel, k, i + 1);
      var g := Group(k, rel, s[i..j]);
      GroupsFromFlatten(t, s, rel, j);
      FlattenConcat([g], GroupsFrom(t, s, rel, j));
      FlattenOne(g);
      assert At(s[i..], rel) == At(s[i..j], rel) + At(s[j..], rel);
    }
  }

  lemma {:induction false} DistinctMultiset(s: seq<nat>, x: nat)
    requires Distinct(s)
    ensures multiset(s)[x] == if x in s then 1 else 0
  {
    if s != [] {
      var n := |s| - 1;
      DistinctMultiset(s[..n], x);
      assert s == s[..n] + [s[n]];
      assert x in s <==> x in s[..n] || x == s[n];
    }
  }

  function InColumn(first: nat, blocks: nat, rel: nat): nat -> bool {
    p => p % 256 == rel && first <= p / 256 < first + blocks
  }

  lemma ColumnCovers(t: Text, first: nat, blocks: nat, rel: nat, s: seq<nat>)
    requires IsColumnOrder(t, first, blocks, rel, s)
    ensures Covers(multiset(At(s, rel)), InColumn(first, blocks, rel))
  {
    var r := At(s, rel);
    AscendingIsDistinct(t, r);
    assert forall i :: 0 <= i < |r| ==> r[i] / 256 == s[i] && r[i] % 256 == rel;
    forall p: nat ensures multiset(r)[p] == if InColumn(first, blocks, rel)(p) then 1 else 0 {
      DistinctMultiset(r, p);
      if InColumn(first, blocks, rel)(p) {
        assert p / 256 in s;
        var i :| 0 <= i < |s| && s[i] == p / 256;
        assert r[i] == p;
      }
    }
  }

  lemma NaiveColumnOk(t: Text, first: nat, blocks: nat, rel: nat)
    requires rel < 256 && (first + blocks) * 256 <= |t|
    ensures GroupsOk(t, NaiveColumn(t, first, blocks, rel))
    ensures Covers(Flatten(NaiveColumn(t, first, blocks, rel)), InColumn(first, blocks, rel))
  {
    var s := ColumnOrder(t, first, blocks, rel);
    ColumnOrderIsOrder(t, first, blocks, rel);
    GroupsFromOk(t, first, blocks, rel, s, 0);
    GroupsFromFlatten(t, s, rel, 0);
    assert s[0..] == s;
    ColumnCovers(t, first, blocks, rel, s);
  }

  function InColumns(first: nat, blocks: nat, rel: nat): nat -> bool {
    p => rel <= p % 256 && first <= p / 256 < first + blocks
  }

  lemma {:induction false} NaiveColumnsOk(t: Text, first: nat, blocks: nat, rel: nat)
    requires rel <= 256 && (first + blocks) * 256 <= |t|
    ensures GroupsOk(t, NaiveColumns(t, first, blocks, rel))
    ensures Covers(Flatten(NaiveColumns(t, first, blocks, rel)), InColumns(first, blocks, rel))
    decreases 256 - rel
  {
    hide NaiveColumn, Flatten, GroupOk;
    if rel == 256 {
      FlattenNone();
    } else {
      NaiveColumnsOk(t, first, blocks, rel + 1);
      NaiveColumnOk(t, first, blocks, rel);
      FlattenConcat(NaiveColumns(t, first, blocks, rel + 1), NaiveColumn(t, first, blocks, rel));
    }
  }

  lemma FlattenNone()
    ensures Flatten([]) == multiset{}
  {}

  function Between(lo: nat, hi: nat): nat -> bool { p => lo <= p < hi }

  lemma WholeBlocks(m: multiset<nat>, first: nat, blocks: nat)
    requires Covers(m, InColumns(first, blocks, 0))
    ensures Covers(m, Between(first * 256, (first + blocks) * 256))
  {
    forall p: nat ensures m[p] == if Between(first * 256, (first + blocks) * 256)(p) then 1 else 0 {
      assert first <= p / 256 < first + blocks <==> first * 256 <= p < (first + blocks) * 256;
    }
  }

  lemma CoversJoin(m: multiset<nat>, m': multiset<nat>, lo: nat, mid: nat, hi: nat)
    requires lo <= mid <= hi
    requires Covers(m, Between(lo, mid)) && Covers(m', Between(mid, hi))
    ensures Covers(m + m', Between(lo, hi))
  {}

  lemma {:induction false} NaiveRunsOk(t: Text, lens: seq<nat>)
    requires Sum(lens) * 256 <= |t|
    ensures GroupsOk(t, NaiveRuns(t, lens))
    ensures Covers(Flatten(NaiveRuns(t, lens)), Between(0, Sum(lens) * 256))
    decreases |lens|
  {
    hide NaiveColumns, Flatten, GroupOk, Covers;
    if lens == [] {
      FlattenNone();
      assert Covers(multiset{}, Between(0, 0)) by { NothingCovers(); }
    } else {
      var n := |lens| - 1;
      var first := Sum(lens[..n]);
      NaiveRunsOk(t, lens[..n]);
      NaiveColumnsOk(t, first, lens[n], 0);
      WholeBlocks(Flatten(NaiveColumns(t, first, lens[n], 0)), first, lens[n]);
      FlattenConcat(NaiveRuns(t, lens[..n]), NaiveColumns(t, first, lens[n], 0));
      CoversJoin(Flatten(NaiveRuns(t, lens[..n])), Flatten(NaiveColumns(t, first, lens[n], 0)), 0, first * 256,
                 Sum(lens) * 256);
    }
  }

  lemma NothingCovers()
    ensures Covers(multiset{}, Between(0, 0))
  {}

  /** The list of one suffix past the last whole block. */
  function TailGroup(t: Text, p: nat): Group { Group(Key(t, p), p % 256, [p / 256]) }

  lemma TailGroupOk(t: Text, p: nat)
    requires p < |t|
    ensures GroupOk(t, TailGroup(t, p)) && Positions(TailGroup(t, p)) == [p]
  {
    assert PosOf(p / 256, p % 256) == p;
    assert Positions(TailGroup(t, p)) == [p];
  }

  lemma {:induction false} NaiveTailOk(t: Text, p: nat)
    requires p <= |t|
    ensures GroupsOk(t, NaiveTail(t, p))
    ensures Covers(Flatten(NaiveTail(t, p)), Between(p, |t|))
    decreases |t| - p
  {
    hide Flatten, Key, GroupOk, Positions, Covers;
    if p == |t| {
      FlattenNone();
      NothingBetween(p);
    } else {
      NaiveTailOk(t, p + 1);
      TailGroupOk(t, p);
      FlattenSnoc(NaiveTail(t, p + 1), TailGroup(t, p));
      CoversOneMore(Flatten(NaiveTail(t, p + 1)), p, |t|);
    }
  }

  lemma NothingBetween(p: nat)
    ensures Covers(multiset{}, Between(p, p))
  {}

  lemma CoversOneMore(m: multiset<nat>, p: nat, hi: nat)
    requires p < hi && Covers(m, Between(p + 1, hi))
    ensures Covers(m + multiset([p]), Between(p, hi))
  {}

  /** Any partition of the blocks into consecutive runs works: every suffix of the text appears
      in exactly one list, and each list is ascending under one key. */
  lemma NaiveCoversText(t: Text, lens: seq<nat>)
    requires Sum(lens) == |t| / 256
    ensures GroupsOk(t, Naive(t, lens))
    ensures Covers(Flatten(Naive(t, lens)), Between(0, |t|))
  {
    hide NaiveRuns, NaiveTail, Flatten, GroupOk, Sum, Covers;
    var tail := Sum(lens) * 256;
    NaiveRunsOk(t, lens);
    NaiveTailOk(t, tail);
    FlattenConcat(NaiveRuns(t, lens), NaiveTail(t, tail));
    CoversJoin(Flatten(NaiveRuns(t, lens)), Flatten(NaiveTail(t, tail)), 0, tail, |t|);
  }
}
