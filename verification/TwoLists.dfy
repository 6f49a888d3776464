/** Descriptors going straight from the arena to the suffix array: a key nobody shares is copied,
    a key two descriptors share is merged with one cached tie-break key per live head. */
module TwoLists {
  import opened MachineTypes
  import opened SuffixOrder
  import opened Keys
  import opened Descriptors
  import opened Arrays
  import opened Merging

  /** The positions a descriptor's slice holds. */
  function Listed(arena: seq<uint16>, d: Desc): (s: seq<nat>)
    requires SliceInside(d, |arena|)
    ensures |s| == Len(d)
    ensures forall x :: 0 <= x < |s| ==> s[x] == PosOf(arena[Off(d) + x], RelOf(d))
  {
    Positions(Expand(arena, d))
  }

  /** Eight lanes of widened positions, read with the arena's slack behind the slice. */
  function LoadLanes(arena: seq<uint16>, at: nat, rel: nat): (v: seq<nat>)
    requires at + 8 <= |arena|
    ensures |v| == 8 && forall k :: 0 <= k < 8 ==> v[k] == PosOf(arena[at + k], rel)
  {
    seq<nat>(8, k requires 0 <= k < 8 => PosOf(arena[at + k], rel))
  }

  /** A masked store: exactly the first count lanes. */
  method MaskStore(sa: array<int32>, at: nat, v: seq<nat>, count: nat)
    requires count <= 8 && |v| == 8 && at + count <= sa.Length
    requires forall k :: 0 <= k < count ==> v[k] < 0x8000_0000
    modifies sa
    ensures sa[..at + count] == old(sa[..at]) + v[..count]
    ensures sa[at + count..] == old(sa[at + count..])
  {
    forall k | 0 <= k < count { sa[at + k] := v[k]; }
  }

  /** The lanes that count are the next stretch of the list. */
  lemma LanesAreListed(arena: seq<uint16>, al: nat, d: Desc, done: nat, count: nat)
    requires al + 8 <= |arena| && SliceInside(d, al) && done + count <= Len(d) && count <= 8
    ensures LoadLanes(arena, Off(d) + done, RelOf(d))[..count] == Listed(arena[..al], d)[done..done + count]
  {
    hide PosOf, Off, Len, RelOf;
    var v, list := LoadLanes(arena, Off(d) + done, RelOf(d)), Listed(arena[..al], d);
    forall k | 0 <= k < count ensures v[k] == list[done + k] {
      assert arena[..al][Off(d) + (done + k)] == arena[Off(d) + done + k];
    }
  }

  lemma ExtendPrefix(r: seq<int32>, list: seq<nat>, done: nat, more: nat)
    requires done + more <= |list|
    ensures r + list[..done] + list[done..done + more] == r + list[..done + more]
  {}

  /** A list nobody shares a key with: whole vectors, then one masked vector that ends exactly at
      the list's last position. */
  method StoreList(arena: array<uint16>, al: nat, d: Desc, sa: array<int32>, out: nat)
    requires al + 8 <= arena.Length && SliceInside(d, al)
    requires forall x :: 0 <= x < Len(d) ==> Listed(arena[..al], d)[x] < 0x8000_0000
    requires out + Len(d) <= sa.Length
    modifies sa
    ensures sa[..out + Len(d)] == old(sa[..out]) + Listed(arena[..al], d)
    ensures sa[out + Len(d)..] == old(sa[out + Len(d)..])
  {
    hide PosOf, Off, Len, RelOf, Listed, LoadLanes;
    ghost var list, r, end := Listed(arena[..al], d), sa[..out], out + Len(d);
    var rem := Len(d);
    var at := Off(d);
    var dst := out;
    ghost var done := 0;
    while rem > 8
      invariant 0 < rem && done + rem == Len(d) && at == Off(d) + done && dst == out + done
      invariant sa[..dst] == r + list[..done] && sa[end..] == old(sa[end..])
      decreases rem
    {
      LanesAreListed(arena[..], al, d, done, 8);
      ExtendPrefix(r, list, done, 8);
      StoreLanes(arena, at, RelOf(d), sa, dst, 8, list, done, end);
      rem, at, dst, done := rem - 8, at + 8, dst + 8, done + 8;
    }
    LanesAreListed(arena[..], al, d, done, rem);
    ExtendPrefix(r, list, done, rem);
    StoreLanes(arena, at, RelOf(d), sa, dst, rem, list, done, end);
    assert list[..Len(d)] == list;
  }

  lemma AnyPositionFits(d: Desc, b: uint16)
    ensures PosOf(b, RelOf(d)) < 0x8000_0000
  {}

  /** Four words behind the first out. */
  method StoreFour(sa: array<int32>, out: nat, v0: int32, v1: int32, v2: int32, v3: int32)
    requires out + 4 <= sa.Length
    modifies sa
    ensures sa[..out + 4] == old(sa[..out]) + [v0, v1, v2, v3]
    ensures sa[out + 4..] == old(sa[out + 4..])
  {
    sa[out + 0], sa[out + 1], sa[out + 2], sa[out + 3] := v0, v1, v2, v3;
  }

  function Position(arena: seq<uint16>, d: Desc, k: nat): (p: int32)
    requires Off(d) + k < |arena|
    ensures p == PosOf(arena[Off(d) + k], RelOf(d))
  {
    AnyPositionFits(d, arena[Off(d) + k]);
    PosOf(arena[Off(d) + k], RelOf(d))
  }

  /** The same store in a build without vectors: a short list goes out as four words, and what is
      written past its end lies before n, where the next lists will go. */
  method StoreListScalar(arena: array<uint16>, al: nat, d: Desc, sa: array<int32>, n: nat, out: nat)
    requires al + 8 <= arena.Length && SliceInside(d, al)
    requires forall x :: 0 <= x < Len(d) ==> Listed(arena[..al], d)[x] < 0x8000_0000
    requires out + Len(d) <= n <= sa.Length
    modifies sa
    ensures sa[..out + Len(d)] == old(sa[..out]) + Listed(arena[..al], d)
    ensures sa[n..] == old(sa[n..])
  {
    hide Len, Off, RelOf, Listed, PosOf, Position;
    ghost var list := Listed(arena[..al], d);
    var len := Len(d);
    ListedPositions(arena[..], al, d);
    if len <= 4 && out + 4 <= n {
      ghost var before := sa[..];
      StoreFour(sa, out, Position(arena[..], d, 0), Position(arena[..], d, 1), Position(arena[..], d, 2),
                Position(arena[..], d, 3));
      Behind(before, sa[..], out + 4, n);
    } else {
      StoreEach(arena, d, sa, n, out, list);
    }
  }

  /** One word at a time. */
  method StoreEach(arena: array<uint16>, d: Desc, sa: array<int32>, n: nat, out: nat, ghost list: seq<nat>)
    requires Off(d) + Len(d) <= arena.Length && out + Len(d) <= n <= sa.Length && |list| == Len(d)
    requires forall k :: 0 <= k < |list| ==> list[k] == Position(arena[..], d, k)
    modifies sa
    ensures sa[..out + Len(d)] == old(sa[..out]) + list
    ensures sa[n..] == old(sa[n..])
  {
    hide Len, Off, RelOf, PosOf, Position;
    ghost var r := sa[..out];
    for z := 0 to Len(d)
      invariant sa[..out + z] == r + list[..z]
      invariant sa[n..] == old(sa[n..])
    {
      sa[out + z] := Position(arena[..], d, z);
    }
  }

  lemma ListedPositions(arena: seq<uint16>, al: nat, d: Desc)
    requires al <= |arena| && SliceInside(d, al)
    ensures forall k :: 0 <= k < Len(d) ==> Listed(arena[..al], d)[k] == Position(arena, d, k)
  {
    hide Len, Off, RelOf, Listed, PosOf, Position;
    forall k | 0 <= k < Len(d) ensures Listed(arena[..al], d)[k] == Position(arena, d, k) {
      assert arena[..al][Off(d) + k] == arena[Off(d) + k];
    }
  }

  /** Load, widen, mask and store one vector. */
  method StoreLanes(arena: array<uint16>, at: nat, rel: nat, sa: array<int32>, dst: nat, count: nat,
                    ghost list: seq<nat>, ghost done: nat, ghost end: nat)
    requires at + 8 <= arena.Length && count <= 8 && dst + count <= end <= sa.Length && done + count <= |list|
    requires LoadLanes(arena[..], at, rel)[..count] == list[done..done + count]
    requires forall x :: 0 <= x < |list| ==> list[x] < 0x8000_0000
    modifies sa
    ensures sa[..dst + count] == old(sa[..dst]) + list[done..done + count]
    ensures sa[end..] == old(sa[end..])
  {
    hide LoadLanes;
    var v := LoadLanes(arena[..], at, rel);
    forall k | 0 <= k < count ensures v[k] < 0x8000_0000 { assert v[k] == v[..count][k] == list[done + k]; }
    ghost var before := sa[..];
    MaskStore(sa, dst, v, count);
    Behind(before, sa[..], dst + count, end);
  }

  /** What is left of one list once the other is exhausted. */
  method CopyRest(t: Text, arena: array<uint16>, d: Desc, p0: nat, sa: array<int32>, dst0: nat,
                  ghost a: seq<nat>, ghost b: seq<nat>, ghost r: seq<int32>, ghost w0: seq<nat>)
    returns (ghost w: seq<nat>)
    requires |t| <= OFF_LIMIT && InText(t, a) && InText(t, b) && Sorted(t, a)
    requires Off(d) + Len(d) <= arena.Length && p0 <= Len(d) == |a|
    requires forall x :: 0 <= x < |a| ==> a[x] == PosOf(arena[Off(d) + x], RelOf(d))
    requires dst0 + (Len(d) - p0) <= sa.Length
    requires MergeState(t, a, b, p0, |b|, w0) && sa[..dst0] == r + w0
    modifies sa
    ensures MergeState(t, a, b, |a|, |b|, w) && |w| == |w0| + (Len(d) - p0)
    ensures sa[..dst0 + (Len(d) - p0)] == r + w
    ensures sa[dst0 + (Len(d) - p0)..] == old(sa[dst0 + (Len(d) - p0)..])
  {
    hide MergeState, Less, PosOf;
    ghost var end := dst0 + (Len(d) - p0);
    var p, dst := p0, dst0;
    w := w0;
    while p < Len(d)
      invariant p0 <= p <= Len(d) && dst == dst0 + (p - p0) && |w| == |w0| + (p - p0)
      invariant MergeState(t, a, b, p, |b|, w) && sa[..dst] == r + w && sa[end..] == old(sa[end..])
    {
      TakeFirst(t, a, b, p, |b|, w);
      var q := PosOf(arena[Off(d) + p], RelOf(d));
      assert q == a[p] < |t|;
      AppendBefore(sa, dst, q, end);
      w := w + [a[p]];
      p, dst := p + 1, dst + 1;
    }
  }

  /** Advance a cursor: the next position and its cached tie-break key. */
  method LoadHead(t: Text, arena: array<uint16>, d: Desc, p: nat, ghost a: seq<nat>) returns (q: nat, h: uint64)
    requires p < Len(d) == |a| && Off(d) + Len(d) <= arena.Length
    requires forall x :: 0 <= x < |a| ==> a[x] == PosOf(arena[Off(d) + x], RelOf(d))
    ensures q == a[p] && h == EKey(t, q)
  {
    q := PosOf(arena[Off(d) + p], RelOf(d));
    h := EKey64(t, q);
  }

  /** The two-cursor merge. */
  method MergeTwoLists(t: Text, arena: array<uint16>, d0: Desc, d1: Desc, sa: array<int32>, out: nat,
                       ghost a: seq<nat>, ghost b: seq<nat>, ghost key: nat)
    returns (ghost w: seq<nat>)
    requires |t| <= OFF_LIMIT && OneKey(t, a, key) && OneKey(t, b, key) && Sorted(t, a) && Sorted(t, b)
    requires Off(d0) + Len(d0) <= arena.Length && 0 < Len(d0) == |a|
    requires Off(d1) + Len(d1) <= arena.Length && 0 < Len(d1) == |b|
    requires forall x :: 0 <= x < |a| ==> a[x] == PosOf(arena[Off(d0) + x], RelOf(d0))
    requires forall x :: 0 <= x < |b| ==> b[x] == PosOf(arena[Off(d1) + x], RelOf(d1))
    requires out + Len(d0) + Len(d1) <= sa.Length
    modifies sa
    ensures sa[..out + Len(d0) + Len(d1)] == old(sa[..out]) + w
    ensures sa[out + Len(d0) + Len(d1)..] == old(sa[out + Len(d0) + Len(d1)..])
    ensures InText(t, w) && Sorted(t, w) && multiset(w) == multiset(a) + multiset(b)
  {
    hide MergeState, Less, PosOf, Key, EKey, Off, Len, RelOf, Sorted;
    ghost var r, end := sa[..out], out + Len(d0) + Len(d1);
    w := [];
    var p0, p1, dst := 0, 0, out;
    var q0, h0 := LoadHead(t, arena, d0, 0, a);
    var q1, h1 := LoadHead(t, arena, d1, 0, b);
    MergeStart(t, a, b);
    while p0 < Len(d0) && p1 < Len(d1)
      invariant p0 <= |a| && p1 <= |b| && dst == out + p0 + p1 && |w| == p0 + p1
      invariant p0 < |a| ==> q0 == a[p0] && h0 == EKey(t, q0)
      invariant p1 < |b| ==> q1 == b[p1] && h1 == EKey(t, q1)
      invariant p0 < |a| || p1 < |b|
      invariant MergeState(t, a, b, p0, p1, w) && sa[..dst] == r + w && sa[end..] == old(sa[end..])
    {
      var take1 := Precedes(t, q1, q0, h1, h0);
      AppendBefore(sa, dst, if take1 then q1 else q0, end);
      if take1 {
        LessAsymmetric(t, q1, q0);
        TakeSecond(t, a, b, p0, p1, w);
        w := w + [b[p1]];
        p1, dst := p1 + 1, dst + 1;
        if p1 < Len(d1) { q1, h1 := LoadHead(t, arena, d1, p1, b); }
      } else {
        TakeFirst(t, a, b, p0, p1, w);
        w := w + [a[p0]];
        p0, dst := p0 + 1, dst + 1;
        if p0 < Len(d0) { q0, h0 := LoadHead(t, arena, d0, p0, a); }
      }
    }
    w := CopyTail(t, arena, d0, d1, p0, p1, sa, dst, a, b, r, w);
    MergeEnd(t, a, b, w);
  }

  /** One list is exhausted; the other goes out as it stands. */
  method CopyTail(t: Text, arena: array<uint16>, d0: Desc, d1: Desc, p0: nat, p1: nat, sa: array<int32>, dst: nat,
                  ghost a: seq<nat>, ghost b: seq<nat>, ghost r: seq<int32>, ghost w0: seq<nat>)
    returns (ghost w: seq<nat>)
    requires |t| <= OFF_LIMIT && InText(t, a) && InText(t, b) && Sorted(t, a) && Sorted(t, b)
    requires Off(d0) + Len(d0) <= arena.Length && p0 <= Len(d0) == |a|
    requires Off(d1) + Len(d1) <= arena.Length && p1 <= Len(d1) == |b|
    requires forall x :: 0 <= x < |a| ==> a[x] == PosOf(arena[Off(d0) + x], RelOf(d0))
    requires forall x :: 0 <= x < |b| ==> b[x] == PosOf(arena[Off(d1) + x], RelOf(d1))
    requires p0 == |a| || p1 == |b|
    requires dst + (|a| - p0) + (|b| - p1) <= sa.Length
    requires MergeState(t, a, b, p0, p1, w0) && sa[..dst] == r + w0
    modifies sa
    ensures MergeState(t, a, b, |a|, |b|, w) && |w| == |w0| + (|a| - p0) + (|b| - p1)
    ensures sa[..dst + (|a| - p0) + (|b| - p1)] == r + w
    ensures sa[dst + (|a| - p0) + (|b| - p1)..] == old(sa[dst + (|a| - p0) + (|b| - p1)..])
  {
    hide MergeState, PosOf, Off, Len, RelOf, Sorted;
    if p1 == Len(d1) {
      w := CopyRest(t, arena, d0, p0, sa, dst, a, b, r, w0);
    } else {
      MergeSymmetric(t, a, b, p0, p1, w0);
      w := CopyRest(t, arena, d1, p1, sa, dst, b, a, r, w0);
      MergeSymmetric(t, b, a, |b|, |a|, w);
    }
  }
}
