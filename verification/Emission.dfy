/** Appending descriptors and arena slices, and what that adds to the lists described so far. */
module Emission {
  import opened MachineTypes
  import opened SuffixOrder
  import opened Keys
  import opened Descriptors
  import opened NaiveWalk
  import opened Arrays

  /** From (ar0, ds0) to (ar, ds) nothing was overwritten, and the new descriptors stand for
      exactly the lists in added. */
  ghost predicate Extends(ar0: seq<uint16>, ds0: seq<Desc>, ar: seq<uint16>, ds: seq<Desc>, added: multiset<Group>) {
    && ar0 <= ar && ds0 <= ds
    && SlicesInside(ds0, |ar0|)
    && SlicesInside(ds, |ar|)
    && multiset(ExpandAll(ar, ds[|ds0|..])) == added
  }

  lemma SlicesOf(ar0: seq<uint16>, ds0: seq<Desc>, ar: seq<uint16>, ds: seq<Desc>, added: multiset<Group>)
    requires Extends(ar0, ds0, ar, ds, added)
    ensures SlicesInside(ds, |ar|) && ar0 <= ar && ds0 <= ds
  {}

  lemma ExtendsNothing(ar: seq<uint16>, ds: seq<Desc>)
    requires SlicesInside(ds, |ar|)
    ensures Extends(ar, ds, ar, ds, multiset{})
  {
    assert ExpandAll(ar, ds[|ds|..]) == [];
  }

  lemma ExtendsArena(ar: seq<uint16>, ds: seq<Desc>, more: seq<uint16>)
    requires SlicesInside(ds, |ar|)
    ensures Extends(ar, ds, ar + more, ds, multiset{})
  {
    ExpandFramed(ar, more, ds);
    assert ExpandAll(ar + more, ds[|ds|..]) == [];
  }

  lemma ExtendsOne(ar: seq<uint16>, ds: seq<Desc>, d: Desc)
    requires SlicesInside(ds, |ar|) && SliceInside(d, |ar|)
    ensures Extends(ar, ds, ar, ds + [d], multiset{Expand(ar, d)})
  {
    assert (ds + [d])[|ds|..] == [d];
    assert ExpandAll(ar, [d]) == [Expand(ar, d)];
  }

  lemma ExtendsTransitive(ar0: seq<uint16>, ds0: seq<Desc>, ar1: seq<uint16>, ds1: seq<Desc>, g1: multiset<Group>,
                          ar2: seq<uint16>, ds2: seq<Desc>, g2: multiset<Group>)
    requires Extends(ar0, ds0, ar1, ds1, g1) && Extends(ar1, ds1, ar2, ds2, g2)
    ensures Extends(ar0, ds0, ar2, ds2, g1 + g2)
  {
    var first, second := ds1[|ds0|..], ds2[|ds1|..];
    assert ds2[|ds0|..] == first + second;
    assert ar2 == ar1 + ar2[|ar1|..];
    ExpandFramed(ar1, ar2[|ar1|..], first);
    ExpandConcat(ar2, first, second);
  }

  /** One packed descriptor stands for one list. */
  lemma ExtendsGroup(ar0: seq<uint16>, ds0: seq<Desc>, ar: seq<uint16>, ds: seq<Desc>, added: multiset<Group>,
                     k: uint32, rel: nat, off: nat, len: nat)
    requires Extends(ar0, ds0, ar, ds, added)
    requires k < KEY_MODULUS && rel < 256 && off < OFF_LIMIT && 0 < len < LEN_MODULUS && off + len <= |ar|
    ensures Extends(ar0, ds0, ar, ds + [Desc(KeyRel(k, rel), Pack(off, len))],
                    added + multiset{Group(k, rel, ar[off..off + len])})
  {
    var d := Desc(KeyRel(k, rel), Pack(off, len));
    FieldsRoundTrip(k, rel, off, len);
    ExtendsOne(ar, ds, d);
    ExtendsTransitive(ar0, ds0, ar, ds, added, ar, ds + [d], multiset{Expand(ar, d)});
  }

  /** The descriptors of a span of columns that share one slice. */
  ghost function SpanDescs(t: Text, base: nat, lo: nat, end: nat, packed: uint32): (ds: seq<Desc>)
    requires lo <= end <= 256
    ensures |ds| == end - lo
  {
    seq(end - lo, i requires 0 <= i < end - lo => Desc(KeyRel(Key(t, base + lo + i), lo + i), packed))
  }

  /** The lists they stand for. */
  ghost function SpanGroups(t: Text, base: nat, s: seq<nat>, lo: nat, end: nat): (gs: seq<Group>)
    requires lo <= end <= 256
    ensures |gs| == end - lo
  {
    seq(end - lo, i requires 0 <= i < end - lo => Group(Key(t, base + lo + i), lo + i, s))
  }

  lemma SpanExpands(t: Text, base: nat, ar: seq<uint16>, ds: seq<Desc>, off: nat, len: nat, lo: nat, end: nat)
    requires lo <= end <= 256 && SlicesInside(ds, |ar|)
    requires 0 < len < LEN_MODULUS && off < OFF_LIMIT && off + len <= |ar|
    ensures Extends(ar, ds, ar, ds + SpanDescs(t, base, lo, end, Pack(off, len)),
                    multiset(SpanGroups(t, base, ar[off..off + len], lo, end)))
  {
    var es := SpanDescs(t, base, lo, end, Pack(off, len));
    forall i | 0 <= i < |es|
      ensures SliceInside(es[i], |ar|)
      ensures Expand(ar, es[i]) == Group(Key(t, base + lo + i), lo + i, ar[off..off + len])
    {
      FieldsRoundTrip(Key(t, base + lo + i), lo + i, off, len);
    }
    assert ExpandAll(ar, es) == SpanGroups(t, base, ar[off..off + len], lo, end);
    assert (ds + es)[|ds|..] == es;
  }

  /** emit_uniform_span: four columns at a time while eight bytes can be loaded from the block,
      the rest one by one through key32. */
  method EmitUniformSpan(desc: array<Desc>, dl: nat, t: Text, base: nat, lo: nat, hi: nat, packed: uint32)
    returns (dl': nat)
    requires base + 256 <= |t| && lo <= hi <= 255 && dl + (hi - lo + 1) <= desc.Length
    modifies desc
    ensures dl' == dl + (hi - lo + 1)
    ensures desc[..dl'] == old(desc[..dl]) + SpanDescs(t, base, lo, hi + 1, packed)
  {
    ghost var ds := desc[..dl];
    var c := lo;
    dl' := dl;
    while c + 3 <= hi && c <= 248
      invariant lo <= c <= hi + 1 && dl' == dl + (c - lo)
      invariant desc[..dl'] == ds + SpanDescs(t, base, lo, c, packed)
    {
      var bytes := t[base + c..base + c + 8];
      dl' := EmitShuffled(desc, dl', t, base, ds, lo, c, bytes[0], bytes[1], bytes[2], packed);
      dl' := EmitShuffled(desc, dl', t, base, ds, lo, c + 1, bytes[1], bytes[2], bytes[3], packed);
      dl' := EmitShuffled(desc, dl', t, base, ds, lo, c + 2, bytes[2], bytes[3], bytes[4], packed);
      dl' := EmitShuffled(desc, dl', t, base, ds, lo, c + 3, bytes[3], bytes[4], bytes[5], packed);
      c := c + 4;
    }
    while c <= hi
      invariant lo <= c <= hi + 1 && dl' == dl + (c - lo)
      invariant desc[..dl'] == ds + SpanDescs(t, base, lo, c, packed)
    {
      var k := Key32(t, base + c);
      SpanDescsNext(t, base, lo, c, packed);
      Append(desc, dl', Desc(KeyRel(k, c), packed));
      c, dl' := c + 1, dl' + 1;
    }
  }

  lemma SpanDescsNext(t: Text, base: nat, lo: nat, c: nat, packed: uint32)
    requires lo <= c <= 255
    ensures SpanDescs(t, base, lo, c + 1, packed)
         == SpanDescs(t, base, lo, c, packed) + [Desc(KeyRel(Key(t, base + c), c), packed)]
  {}

  /** One lane of the shuffled load: three bytes high to low under the column. */
  method EmitShuffled(desc: array<Desc>, dl: nat, t: Text, base: nat, ghost ds: seq<Desc>, ghost lo: nat, c: nat,
                      b0: byte, b1: byte, b2: byte, packed: uint32) returns (dl': nat)
    requires lo <= c <= 255 && base + c + 3 <= |t| && dl < desc.Length
    requires b0 == t[base + c] && b1 == t[base + c + 1] && b2 == t[base + c + 2]
    requires desc[..dl] == ds + SpanDescs(t, base, lo, c, packed)
    modifies desc
    ensures dl' == dl + 1
    ensures desc[..dl'] == ds + SpanDescs(t, base, lo, c + 1, packed)
  {
    SpanDescsNext(t, base, lo, c, packed);
    Append(desc, dl, Desc(KeyRel(b0 * 0x1_0000 + b1 * 0x100 + b2, c), packed));
    dl' := dl + 1;
  }

  /** While the keys of a column agree and every prepend is constant, each column of the span is
      one list over the same blocks. */
  lemma {:induction false} SpanIsNaive(t: Text, first: nat, blocks: nat, s: seq<nat>, lo: nat, hi: nat)
    requires blocks > 0 && (first + blocks) * 256 <= |t| && lo <= hi <= 255
    requires IsColumnOrder(t, first, blocks, hi, s)
    requires forall b :: first <= b < first + blocks ==> Key(t, PosOf(b, hi)) == Key(t, PosOf(first, hi))
    requires forall c :: lo <= c < hi ==> IsConstant(t, first, blocks, c)
    ensures IsColumnOrder(t, first, blocks, lo, s)
    ensures forall b :: first <= b < first + blocks ==> Key(t, PosOf(b, lo)) == Key(t, PosOf(first, lo))
    ensures multiset(NaiveColumns(t, first, blocks, lo))
         == multiset(NaiveColumns(t, first, blocks, hi + 1)) + multiset(SpanGroups(t, first * 256, s, lo, hi + 1))
    decreases hi - lo
  {
    hide Key, Less, SpanGroups, NaiveColumns;
    if lo == hi {
      SpanGroupsNone(t, first * 256, s, hi + 1);
    } else {
      SpanIsNaive(t, first, blocks, s, lo + 1, hi);
      ConstantKeepsOrder(t, first, blocks, lo + 1, s);
      forall b | first <= b < first + blocks ensures Key(t, PosOf(b, lo)) == Key(t, PosOf(first, lo)) {
        assert PosOf(b, lo) + 1 == PosOf(b, lo + 1) && PosOf(first, lo) + 1 == PosOf(first, lo + 1);
        EqualKeysSlide(t, PosOf(b, lo), PosOf(first, lo));
      }
    }
    UniformColumnIsNaive(t, first, blocks, s, lo);
    SpanGroupsPrepend(t, first * 256, s, lo, hi + 1);
  }

  lemma SpanGroupsNone(t: Text, base: nat, s: seq<nat>, c: nat)
    requires c <= 256
    ensures SpanGroups(t, base, s, c, c) == []
  {}

  lemma SpanGroupsPrepend(t: Text, base: nat, s: seq<nat>, lo: nat, end: nat)
    requires lo < end <= 256
    ensures SpanGroups(t, base, s, lo, end) == [Group(Key(t, base + lo), lo, s)] + SpanGroups(t, base, s, lo + 1, end)
  {}

  lemma UniformColumnIsNaive(t: Text, first: nat, blocks: nat, s: seq<nat>, c: nat)
    requires blocks > 0 && (first + blocks) * 256 <= |t|
    requires IsColumnOrder(t, first, blocks, c, s)
    requires forall b :: first <= b < first + blocks ==> Key(t, PosOf(b, c)) == Key(t, PosOf(first, c))
    ensures NaiveColumns(t, first, blocks, c)
         == NaiveColumns(t, first, blocks, c + 1) + [Group(Key(t, first * 256 + c), c, s)]
  {
    hide Key, Less, ColumnOrder, GroupsFrom;
    ColumnOrderIsOrder(t, first, blocks, c);
    ColumnOrderUnique(t, first, blocks, c, s, ColumnOrder(t, first, blocks, c));
    UniformColumnIsOneGroup(t, s, c, Key(t, PosOf(first, c)));
  }
}
