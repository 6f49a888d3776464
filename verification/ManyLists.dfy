/** A key shared by more than two descriptors: gather the positions, then insertion sort a small
    group or merge a large one pairwise, level by level, between two buffers. */
module ManyLists {
  import opened MachineTypes
  import opened SuffixOrder
  import opened Keys
  import opened Arrays
  import opened Merging

  const SMALL_GROUP := 48

  /** The first total gathered positions share one key, with their tie-break keys alongside. */
  ghost predicate Gathered(t: Text, s: seq<uint32>, ks: seq<uint64>, total: nat, key: nat) {
    && total <= |s| && total <= |ks|
    && OneKey(t, s[..total], key)
    && forall i :: 0 <= i < total ==> ks[i] == EKey(t, s[i])
  }

  lemma GatheredAt(t: Text, s: seq<uint32>, ks: seq<uint64>, total: nat, key: nat, i: nat)
    requires Gathered(t, s, ks, total, key) && i < total
    ensures s[i] < |t| && Key(t, s[i]) == key && ks[i] == EKey(t, s[i])
  {
    assert s[..total][i] == s[i];
  }

  // The small group.

  lemma RotatedWidened(a: seq<uint32>, b: seq<nat>, p: nat, x: nat)
    requires p <= x < |a| && a == b
    ensures Rotated(a, p, x) == Rotated<nat>(b, p, x)
  {}

  lemma RotatedKeepsGathered(t: Text, s: seq<uint32>, ks: seq<uint64>, total: nat, key: nat, p: nat, x: nat)
    requires Gathered(t, s, ks, total, key) && p <= x < total
    ensures Gathered(t, Rotated(s, p, x), Rotated(ks, p, x), total, key)
  {
    hide Key, EKey;
    var s', ks' := Rotated(s, p, x), Rotated(ks, p, x);
    forall i | 0 <= i < total ensures s'[i] < |t| && Key(t, s'[i]) == key && ks'[i] == EKey(t, s'[i]) {
      var src := if i < p || i > x then i else if i == p then x else i - 1;
      assert s'[i] == s[src] && ks'[i] == ks[src];
      GatheredAt(t, s, ks, total, key, src);
    }
  }

  /** Everything in s[y..x] comes after element x. */
  ghost predicate GapAbove(t: Text, s: seq<uint32>, y: nat, x: nat) {
    && y <= x < |s| && s[x] < |t|
    && forall i :: y <= i < x ==> s[i] < |t| && Less(t, s[x], s[i])
  }

  /** p is where element x belongs in s[..x]. */
  ghost predicate Gap(t: Text, s: seq<uint32>, p: nat, x: nat) {
    && GapAbove(t, s, p, x)
    && (p > 0 ==> s[p - 1] < |t| && !Less(t, s[x], s[p - 1]))
  }

  lemma GapStart(t: Text, s: seq<uint32>, x: nat)
    requires x < |s| && s[x] < |t|
    ensures GapAbove(t, s, x, x)
  {}

  lemma GapGrows(t: Text, s: seq<uint32>, y: nat, x: nat)
    requires 0 < y && GapAbove(t, s, y, x) && s[y - 1] < |t| && Less(t, s[x], s[y - 1])
    ensures GapAbove(t, s, y - 1, x)
  {}

  lemma GapFound(t: Text, s: seq<uint32>, y: nat, x: nat)
    requires GapAbove(t, s, y, x) && (y > 0 ==> s[y - 1] < |t| && !Less(t, s[x], s[y - 1]))
    ensures Gap(t, s, y, x)
  {}

  method SmallInsert(t: Text, a: array<uint32>, ka: array<uint64>, x: nat, total: nat, ghost key: nat)
    returns (ghost p: nat)
    requires x < total && Gathered(t, a[..], ka[..], total, key)
    modifies a, ka
    ensures p <= x && a[..] == Rotated(old(a[..]), p, x) && ka[..] == Rotated(old(ka[..]), p, x)
    ensures Gap(t, old(a[..]), p, x)
  {
    hide Less, Shifted, Rotated, Gathered, Key, EKey, Gap, GapAbove;
    ghost var o, ok := a[..], ka[..];
    GatheredFits(t, o, ok, total, key);
    GatheredAt(t, o, ok, total, key, x);
    var px, kx := a[x], ka[x];
    var y := x;
    ShiftStart(o, x);
    ShiftStart(ok, x);
    GapStart(t, o, x);
    while y > 0
      invariant y <= x && Shifted(o, a[..], y, x) && Shifted(ok, ka[..], y, x)
      invariant GapAbove(t, o, y, x)
    {
      GatheredAt(t, o, ok, total, key, y - 1);
      ShiftStep(o, a[..], y, x);
      ShiftStep(ok, ka[..], y, x);
      var greater := Precedes(t, px, a[y - 1], kx, ka[y - 1]);
      if !greater { break; }
      GapGrows(t, o, y, x);
      MoveUp(a, ka, y);
      y := y - 1;
    }
    p := y;
    GapFound(t, o, y, x);
    ShiftDone(o, a[..], y, x);
    ShiftDone(ok, ka[..], y, x);
    Set(ka, y, kx);
    Set(a, y, px);
  }

  method MoveUp(a: array<uint32>, ka: array<uint64>, y: nat)
    requires 0 < y < a.Length && y < ka.Length
    modifies a, ka
    ensures a[..] == old(a[..])[y := old(a[..])[y - 1]] && ka[..] == old(ka[..])[y := old(ka[..])[y - 1]]
  {
    ka[y] := ka[y - 1];
    a[y] := a[y - 1];
  }

  lemma GatheredFits(t: Text, s: seq<uint32>, ks: seq<uint64>, total: nat, key: nat)
    requires Gathered(t, s, ks, total, key)
    ensures total <= |s| && total <= |ks| && InText(t, s[..total])
  {}

  /** s[..x] is sorted and s[..total] still holds the positions in all. */
  ghost predicate PrefixSorted(t: Text, s: seq<uint32>, x: nat, total: nat, all: multiset<nat>) {
    && x <= total <= |s| && InText(t, s[..total]) && Sorted(t, s[..x])
    && multiset(s[..total]) == all
  }

  lemma SmallRound(t: Text, s: seq<uint32>, x: nat, total: nat, all: multiset<nat>, p: nat)
    requires x < total && p <= x && PrefixSorted(t, s, x, total, all)
    requires Gap(t, s, p, x)
    ensures PrefixSorted(t, Rotated(s, p, x), x + 1, total, all)
  {
    hide Less, Sorted, Rotated;
    var u: seq<nat> := s[..total];
    assert u[..x] == s[..x];
    InsertSorts(t, u, p, x);
    RotatedPermutes(u, p, x);
    RotatedPrefix(s, total, p, x);
    RotatedWidened(s[..total], u, p, x);
    assert Rotated(s, p, x)[..x + 1] == Rotated(s, p, x)[..total][..x + 1];
  }

  lemma RotatedPrefix(s: seq<uint32>, total: nat, p: nat, x: nat)
    requires p <= x < total <= |s|
    ensures Rotated(s, p, x)[..total] == Rotated(s[..total], p, x)
  {
    var u := s[..total];
    assert u[..x] == s[..x];
    assert s[x + 1..][..total - x - 1] == u[x + 1..];
  }

  /** At or below SMALL_GROUP positions: insertion sort over both arrays. */
  method SmallSort(t: Text, a: array<uint32>, ka: array<uint64>, total: nat, ghost key: nat)
    requires 0 < total && Gathered(t, a[..], ka[..], total, key)
    modifies a, ka
    ensures total <= a.Length && InText(t, a[..total]) && Sorted(t, a[..total])
    ensures multiset(a[..total]) == multiset(old(a[..total]))
  {
    hide Less, Sorted, Rotated, Gathered, Key, EKey, PrefixSorted, Gap;
    GatheredFits(t, a[..], ka[..], total, key);
    ghost var all := multiset(a[..total]);
    SmallStart(t, a[..], ka[..], total, key);
    for x := 1 to total
      invariant Gathered(t, a[..], ka[..], total, key)
      invariant PrefixSorted(t, a[..], x, total, all)
    {
      ghost var o, ok := a[..], ka[..];
      ghost var p := SmallInsert(t, a, ka, x, total, key);
      SmallRound(t, o, x, total, all, p);
      RotatedKeepsGathered(t, o, ok, total, key, p, x);
    }
    SmallEnd(t, a[..], total, all);
    assert a[..][..total] == a[..total];
  }

  lemma SmallStart(t: Text, s: seq<uint32>, ks: seq<uint64>, total: nat, key: nat)
    requires 0 < total && Gathered(t, s, ks, total, key)
    ensures total <= |s| && PrefixSorted(t, s, 1, total, multiset(s[..total]))
  {}

  lemma SmallEnd(t: Text, s: seq<uint32>, total: nat, all: multiset<nat>)
    requires PrefixSorted(t, s, total, total, all)
    ensures total <= |s| && InText(t, s[..total]) && Sorted(t, s[..total]) && multiset(s[..total]) == all
  {}
}
