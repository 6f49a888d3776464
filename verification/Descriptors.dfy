/** The packed eight-byte descriptors of native/descriptor.c and the lists they stand for. */
module Descriptors {
  import opened MachineTypes
  import opened Permutations

  const KEY_MODULUS := 0x100_0000
  const LEN_MODULUS := 0x1000
  const OFF_LIMIT := 0x10_0000

  /** The longest run of blocks that is walked as one. */
  const RUN_MAX := 512

  /** key: three key bytes under the column; packed: arena offset over the list length. */
  datatype Desc = Desc(key: uint32, packed: uint32)

  function KeyRel(k: uint32, rel: nat): uint32
    requires k < KEY_MODULUS && rel < 256
  {
    k + rel * KEY_MODULUS
  }

  function Pack(off: nat, len: nat): uint32
    requires off < OFF_LIMIT && len < LEN_MODULUS
  {
    off * LEN_MODULUS + len
  }

  function KeyOf(d: Desc): nat { d.key % KEY_MODULUS }
  function RelOf(d: Desc): nat { d.key / KEY_MODULUS }
  function Off(d: Desc): nat { d.packed / LEN_MODULUS }
  function Len(d: Desc): nat { d.packed % LEN_MODULUS }

  /** No field leaks into its neighbour. */
  lemma FieldsRoundTrip(k: uint32, rel: nat, off: nat, len: nat)
    requires k < KEY_MODULUS && rel < 256 && off < OFF_LIMIT && len < LEN_MODULUS
    ensures var d := Desc(KeyRel(k, rel), Pack(off, len));
            && KeyOf(d) == k && RelOf(d) == rel && Off(d) == off && Len(d) == len
            && d.key == rel * 0x100_0000 + k && d.packed == off * 0x1000 + len
  {}

  /** What a descriptor stands for: one column's blocks that share a key, in suffix order. */
  datatype Group = Group(key: nat, rel: nat, blocks: seq<nat>)

  predicate SliceInside(d: Desc, arenaLen: nat) {
    Len(d) > 0 && Off(d) + Len(d) <= arenaLen
  }

  ghost predicate SlicesInside(ds: seq<Desc>, arenaLen: nat) {
    forall i :: 0 <= i < |ds| ==> SliceInside(ds[i], arenaLen)
  }

  function Expand(arena: seq<uint16>, d: Desc): Group
    requires SliceInside(d, |arena|)
  {
    Group(KeyOf(d), RelOf(d), arena[Off(d)..Off(d) + Len(d)])
  }

  ghost function ExpandAll(arena: seq<uint16>, ds: seq<Desc>): (gs: seq<Group>)
    requires SlicesInside(ds, |arena|)
    ensures |gs| == |ds|
  {
    seq(|ds|, i requires 0 <= i < |ds| => Expand(arena, ds[i]))
  }

  /** Appending to the arena changes no list already described. */
  lemma ExpandFramed(arena: seq<uint16>, more: seq<uint16>, ds: seq<Desc>)
    requires SlicesInside(ds, |arena|)
    ensures SlicesInside(ds, |arena + more|)
    ensures ExpandAll(arena + more, ds) == ExpandAll(arena, ds)
  {
    forall i | 0 <= i < |ds| ensures Expand(arena + more, ds[i]) == Expand(arena, ds[i]) {
      var lo, hi := Off(ds[i]), Off(ds[i]) + Len(ds[i]);
      assert (arena + more)[lo..hi] == arena[lo..hi];
    }
  }

  lemma ExpandConcat(arena: seq<uint16>, ds: seq<Desc>, es: seq<Desc>)
    requires SlicesInside(ds, |arena|) && SlicesInside(es, |arena|)
    ensures SlicesInside(ds + es, |arena|)
    ensures ExpandAll(arena, ds + es) == ExpandAll(arena, ds) + ExpandAll(arena, es)
  {}

  /** The position of block b at column rel. */
  function PosOf(b: nat, rel: nat): nat { b * 256 + rel }

  /** The positions of a list of blocks at one column. */
  function At(blocks: seq<nat>, rel: nat): (s: seq<nat>)
    ensures |s| == |blocks|
    ensures forall i :: 0 <= i < |s| ==> s[i] == PosOf(blocks[i], rel)
  {
    seq(|blocks|, i requires 0 <= i < |blocks| => PosOf(blocks[i], rel))
  }

  function Positions(g: Group): seq<nat> { At(g.blocks, g.rel) }

  ghost function Flatten(gs: seq<Group>): multiset<nat> {
    if gs == [] then multiset{} else Flatten(gs[..|gs| - 1]) + multiset(Positions(gs[|gs| - 1]))
  }

  lemma FlattenSnoc(gs: seq<Group>, g: Group)
    ensures Flatten(gs + [g]) == Flatten(gs) + multiset(Positions(g))
  {
    assert (gs + [g])[..|gs|] == gs;
  }

  lemma FlattenOne(g: Group)
    ensures Flatten([g]) == multiset(Positions(g))
  {
    assert [g] == [] + [g];
    FlattenSnoc([], g);
  }

  lemma {:induction false} FlattenConcat(gs: seq<Group>, hs: seq<Group>)
    ensures Flatten(gs + hs) == Flatten(gs) + Flatten(hs)
    decreases |hs|
  {
    if hs == [] {
      assert gs + hs == gs;
    } else {
      hide Positions;
      var hs', h := hs[..|hs| - 1], hs[|hs| - 1];
      assert gs + hs == (gs + hs') + [h];
      FlattenConcat(gs, hs');
      FlattenSnoc(gs + hs', h);
    }
  }

  lemma FlattenRemove(gs: seq<Group>, p: nat)
    requires p < |gs|
    ensures Flatten(gs) == Flatten(Without(gs, p)) + multiset(Positions(gs[p]))
  {
    hide Flatten, Positions;
    assert gs == (gs[..p] + [gs[p]]) + gs[p + 1..];
    FlattenConcat(gs[..p] + [gs[p]], gs[p + 1..]);
    FlattenSnoc(gs[..p], gs[p]);
    FlattenConcat(gs[..p], gs[p + 1..]);
  }

  /** Flattening does not care in which order the lists come. */
  lemma {:induction false} FlattenPermutes(gs: seq<Group>, hs: seq<Group>)
    requires multiset(gs) == multiset(hs)
    ensures Flatten(gs) == Flatten(hs)
    decreases |gs|
  {
    hide Positions;
    SameMembers(gs, hs);
    if gs != [] {
      var p := FindLast(gs, hs);
      FlattenPermutes(gs[..|gs| - 1], Without(hs, p));
      FlattenRemove(hs, p);
    }
  }
}
