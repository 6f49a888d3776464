/** The per-thread working memory of native/descriptor.c, with the source's capacities. */
module ScratchSpace {
  import opened MachineTypes
  import opened Descriptors

  const GROUP_CAP := 4096

  class Scratch {
    const arena: array<uint16>
    const desc: array<Desc>
    const desc2: array<Desc>
    const order: array<uint32>
    const order2: array<uint32>
    const merge: array<uint32>
    const merge2: array<uint32>
    const mkey: array<uint64>
    const mkey2: array<uint64>
    const bnd: array<uint32>
    const bnd2: array<uint32>
    const cap: nat

    ghost predicate Valid() {
      && arena.Length == cap + 16
      && desc.Length == desc2.Length
      && order.Length == order2.Length == RUN_MAX + 8
      && merge.Length == merge2.Length == mkey.Length == mkey2.Length == GROUP_CAP + 8
      && bnd.Length == bnd2.Length == GROUP_CAP + 8
      && desc != desc2 && order != order2 && mkey != mkey2
      && order !in {merge, merge2, bnd, bnd2} && order2 !in {merge, merge2, bnd, bnd2}
      && merge !in {merge2, bnd, bnd2} && merge2 !in {bnd, bnd2} && bnd != bnd2
    }

    /** Everything a sort may write. */
    ghost function Repr(): set<object> {
      {arena as object, desc as object, desc2 as object, order as object, order2 as object, merge as object,
       merge2 as object, mkey as object, mkey2 as object, bnd as object, bnd2 as object}
    }

    constructor (n: nat, wantDesc: nat)
      ensures Valid() && cap == n && desc.Length == wantDesc
      ensures fresh(Repr())
    {
      cap := n;
      arena := new uint16[n + 16];
      desc := new Desc[wantDesc](_ => Desc(0, 0));
      desc2 := new Desc[wantDesc](_ => Desc(0, 0));
      order := new uint32[RUN_MAX + 8];
      order2 := new uint32[RUN_MAX + 8];
      merge := new uint32[GROUP_CAP + 8];
      merge2 := new uint32[GROUP_CAP + 8];
      mkey := new uint64[GROUP_CAP + 8];
      mkey2 := new uint64[GROUP_CAP + 8];
      bnd := new uint32[GROUP_CAP + 8];
      bnd2 := new uint32[GROUP_CAP + 8];
    }
  }
}
