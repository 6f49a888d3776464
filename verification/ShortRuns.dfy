/** emit_run of native/descriptor.c for runs of one and of two blocks, which stay in registers. */
module ShortRuns {
  import opened MachineTypes
  import opened SuffixOrder
  import opened SuffixCompare
  import opened Keys
  import opened Descriptors
  import opened NaiveWalk
  import opened RunMasks
  import opened Emission
  import opened Arrays

  /** What every emit_run call may rely on. */
  ghost predicate Room(t: Text, first: nat, blocks: nat, arena: array<uint16>, al: nat, desc: array<Desc>, dl: nat)
  {
    && 0 < blocks && (first + blocks) * 256 <= |t| <= OFF_LIMIT
    && arena.Length >= |t| + 16
    && al <= first * 256 && dl <= first * 256 && dl <= desc.Length
  }

  /** A slice that holds one order stands for that order at every column of a span. */
  lemma SpanEmitted(t: Text, first: nat, blocks: nat, s: seq<nat>, ar0: seq<uint16>, ds0: seq<Desc>,
                    ar: seq<uint16>, ds: seq<Desc>, off: nat, lo: nat, hi: nat)
    requires 0 < blocks < LEN_MODULUS && (first + blocks) * 256 <= |t| && lo <= hi <= 255
    requires off < OFF_LIMIT && off + blocks <= |ar| && ar[off..off + blocks] == s
    requires IsColumnOrder(t, first, blocks, hi, s)
    requires forall b :: first <= b < first + blocks ==> Key(t, PosOf(b, hi)) == Key(t, PosOf(first, hi))
    requires forall c :: lo <= c < hi ==> IsConstant(t, first, blocks, c)
    requires Extends(ar0, ds0, ar, ds, multiset(NaiveColumns(t, first, blocks, hi + 1)))
    ensures IsColumnOrder(t, first, blocks, lo, s)
    ensures forall b :: first <= b < first + blocks ==> Key(t, PosOf(b, lo)) == Key(t, PosOf(first, lo))
    ensures Extends(ar0, ds0, ar, ds + SpanDescs(t, first * 256, lo, hi + 1, Pack(off, blocks)),
                    multiset(NaiveColumns(t, first, blocks, lo)))
  {
    hide Key, NaiveColumns, SpanDescs, SpanGroups, IsConstant;
    SpanIsNaive(t, first, blocks, s, lo, hi);
    SpanExpands(t, first * 256, ar, ds, off, blocks, lo, hi + 1);
    ExtendsTransitive(ar0, ds0, ar, ds, multiset(NaiveColumns(t, first, blocks, hi + 1)), ar,
                      ds + SpanDescs(t, first * 256, lo, hi + 1, Pack(off, blocks)),
                      multiset(SpanGroups(t, first * 256, s, lo, hi + 1)));
  }

  lemma OneBlockOrder(t: Text, first: nat)
    requires (first + 1) * 256 <= |t|
    ensures IsColumnOrder(t, first, 1, 255, [first])
    ensures forall c :: 0 <= c < 256 ==> IsConstant(t, first, 1, c)
  {}

  lemma NoColumnsYet(t: Text, first: nat, blocks: nat)
    requires (first + blocks) * 256 <= |t|
    ensures NaiveColumns(t, first, blocks, 256) == []
  {}

  /** One block: 256 descriptors, all pointing at one arena slot. */
  method EmitOneBlock(t: Text, first: nat, arena: array<uint16>, al: nat, desc: array<Desc>, dl: nat)
    returns (ok: bool, al': nat, dl': nat)
    requires Room(t, first, 1, arena, al, desc, dl) && SlicesInside(desc[..dl], al)
    modifies arena, desc
    ensures ok <==> dl + 256 <= desc.Length
    ensures ok ==> al' <= arena.Length && dl' <= desc.Length && al' == al + 1 && dl' == dl + 256
    ensures ok ==> Extends(old(arena[..al]), old(desc[..dl]), arena[..al'], desc[..dl'],
                           multiset(NaiveColumns(t, first, 1, 0)))
  {
    ok, al', dl' := dl + 256 <= desc.Length, al, dl;
    if !ok { return; }
    hide NaiveColumns, Extends, IsColumnOrder, IsConstant, Key, SpanDescs;
    ghost var ar, ds := arena[..al], desc[..dl];
    Append(arena, al, first);
    al' := al + 1;
    ExtendsArena(ar, ds, [first]);
    OneBlockOrder(t, first);
    NoColumnsYet(t, first, 1);
    assert desc[..dl] == ds;
    dl' := EmitUniformSpan(desc, dl, t, first * 256, 0, 255, Pack(al, 1));
    assert arena[..al'] == ar + [first];
    assert (ar + [first])[al..al + 1] == [first];
    SpanEmitted(t, first, 1, [first], ar, ds, arena[..al'], ds, al, 0, 255);
  }

  // Two blocks: the order is one bit.

  function Pair(first: nat, swapped: bool): (s: seq<nat>)
    ensures |s| == 2
  {
    if swapped then [first + 1, first] else [first, first + 1]
  }

  lemma PairIsOrder(t: Text, first: nat, rel: nat, swapped: bool)
    requires rel < 256 && (first + 2) * 256 <= |t|
    requires swapped <==> Less(t, PosOf(first + 1, rel), PosOf(first, rel))
    ensures IsColumnOrder(t, first, 2, rel, Pair(first, swapped))
  {
    var s := Pair(first, swapped);
    LessTotal(t, PosOf(first, rel), PosOf(first + 1, rel));
    forall b | first <= b < first + 2 ensures b in s { assert s[0] == b || s[1] == b; }
  }

  lemma PairOrderIs(t: Text, first: nat, rel: nat, swapped: bool)
    requires rel < 256 && (first + 2) * 256 <= |t|
    requires IsColumnOrder(t, first, 2, rel, Pair(first, swapped))
    ensures swapped <==> Less(t, PosOf(first + 1, rel), PosOf(first, rel))
  {
    var s := Pair(first, swapped);
    assert Less(t, PosOf(s[0], rel), PosOf(s[1], rel));
    LessTotal(t, PosOf(first, rel), PosOf(first + 1, rel));
  }

  /** Unequal new bytes decide the bit, equal bytes keep it. */
  lemma PairPrepend(t: Text, first: nat, rel: nat, swapped: bool)
    requires 0 < rel < 256 && (first + 2) * 256 <= |t|
    requires IsColumnOrder(t, first, 2, rel, Pair(first, swapped))
    ensures var c0, c1 := t[PosOf(first, rel - 1)], t[PosOf(first + 1, rel - 1)];
            IsColumnOrder(t, first, 2, rel - 1, Pair(first, if c0 == c1 then swapped else c1 < c0))
  {
    PairOrderIs(t, first, rel, swapped);
    var p0, p1 := PosOf(first, rel - 1), PosOf(first + 1, rel - 1);
    PrependLess(t, p1, p0);
    PairIsOrder(t, first, rel - 1, if t[p0] == t[p1] then swapped else t[p1] < t[p0]);
  }

  ghost predicate PairKeysTrue(t: Text, first: nat, rel: nat, key0: uint32, key1: uint32) {
    key0 == Key(t, PosOf(first, rel)) && key1 == Key(t, PosOf(first + 1, rel))
  }

  /** The registers as a column starts: the true keys, or two equal stale values standing for
      two equal true keys. */
  ghost predicate PairKeys(t: Text, first: nat, rel: nat, key0: uint32, key1: uint32) {
    && key0 < KEY_MODULUS && key1 < KEY_MODULUS
    && (PairKeysTrue(t, first, rel, key0, key1)
        || (key0 == key1 && Key(t, PosOf(first, rel)) == Key(t, PosOf(first + 1, rel))))
  }

  /** The registers as a column ends: still true, or already slid once over a constant column
      that made them equal. */
  ghost predicate PairKeysLeft(t: Text, first: nat, rel: nat, key0: uint32, key1: uint32)
    requires (first + 2) * 256 <= |t|
  {
    && 0 < rel < 256 && key0 < KEY_MODULUS && key1 < KEY_MODULUS
    && (PairKeysTrue(t, first, rel, key0, key1)
        || (&& key0 == key1
            && t[PosOf(first, rel - 1)] == t[PosOf(first + 1, rel - 1)]
            && PairKeysTrue(t, first, rel - 1, key0, key1)))
  }

  /** Sliding once too often is harmless: the two values stay equal. */
  lemma PairSlide(t: Text, first: nat, rel: nat, key0: uint32, key1: uint32)
    requires (first + 2) * 256 <= |t| && PairKeysLeft(t, first, rel, key0, key1)
    ensures PairKeys(t, first, rel - 1, Slide(t[PosOf(first, rel - 1)], key0),
                     Slide(t[PosOf(first + 1, rel - 1)], key1))
  {
    var p0, p1 := PosOf(first, rel - 1), PosOf(first + 1, rel - 1);
    assert p0 + 1 == PosOf(first, rel) && p1 + 1 == PosOf(first + 1, rel);
    SlideIsExact(t, p0);
    SlideIsExact(t, p1);
  }

  /** Two blocks with different keys are two lists. */
  lemma DifferingPairIsNaive(t: Text, first: nat, rel: nat, x: nat, y: nat)
    requires rel < 256 && (first + 2) * 256 <= |t|
    requires IsColumnOrder(t, first, 2, rel, [x, y])
    requires Key(t, PosOf(x, rel)) != Key(t, PosOf(y, rel))
    ensures NaiveColumns(t, first, 2, rel)
         == NaiveColumns(t, first, 2, rel + 1) +
           [Group(Key(t, PosOf(x, rel)), rel, [x]), Group(Key(t, PosOf(y, rel)), rel, [y])]
  {
    var s := [x, y];
    ColumnOrderIsOrder(t, first, 2, rel);
    ColumnOrderUnique(t, first, 2, rel, s, ColumnOrder(t, first, 2, rel));
    hide Key, ColumnOrder, IsColumnOrder;
    var k, k' := Key(t, PosOf(x, rel)), Key(t, PosOf(y, rel));
    assert KeyAt(t, s, rel, 0) == k && KeyAt(t, s, rel, 1) == k';
    assert RunEnd(t, s, rel, k, 1) == 1 && RunEnd(t, s, rel, k', 2) == 2;
    assert s[0..1] == [x] && s[1..2] == [y];
    assert GroupsFrom(t, s, rel, 2) == [];
    assert GroupsFrom(t, s, rel, 1) == [Group(k', rel, [y])];
    assert GroupsFrom(t, s, rel, 0) == [Group(k, rel, [x])] + [Group(k', rel, [y])];
  }

  lemma DifferingPairEmitted(t: Text, first: nat, rel: nat, swapped: bool, fk: uint32, sk: uint32,
                             ar0: seq<uint16>, ds0: seq<Desc>, ar: seq<uint16>, ds: seq<Desc>, off: nat)
    requires rel < 256 && (first + 2) * 256 <= |t|
    requires IsColumnOrder(t, first, 2, rel, Pair(first, swapped))
    requires fk != sk && fk == Key(t, PosOf(Pair(first, swapped)[0], rel))
             && sk == Key(t, PosOf(Pair(first, swapped)[1], rel))
    requires off + 1 < OFF_LIMIT && off + 2 <= |ar| && ar[off..off + 2] == Pair(first, swapped)
    requires Extends(ar0, ds0, ar, ds, multiset(NaiveColumns(t, first, 2, rel + 1)))
    ensures Extends(ar0, ds0, ar, ds + [Desc(KeyRel(fk, rel), Pack(off, 1))] +
                    [Desc(KeyRel(sk, rel), Pack(off + 1, 1))],
                    multiset(NaiveColumns(t, first, 2, rel)))
  {
    hide Key, IsColumnOrder, NaiveColumns, Pair, Extends, PosOf, KeyRel, Pack;
    var s := Pair(first, swapped);
    assert s == [s[0], s[1]];
    DifferingPairIsNaive(t, first, rel, s[0], s[1]);
    SliceHalves(ar, off, s);
    var g, g' := Group(fk, rel, [s[0]]), Group(sk, rel, [s[1]]);
    var n, n' := NaiveColumns(t, first, 2, rel + 1), NaiveColumns(t, first, 2, rel);
    assert multiset(n') == multiset(n) + multiset{g} + multiset{g'};
    ExtendsGroup(ar0, ds0, ar, ds, multiset(n), fk, rel, off, 1);
    ExtendsGroup(ar0, ds0, ar, ds + [Desc(KeyRel(fk, rel), Pack(off, 1))], multiset(n) + multiset{g}, sk, rel, off + 1,
                 1);
  }

  lemma SliceHalves(ar: seq<uint16>, off: nat, s: seq<nat>)
    requires |s| == 2 && off + 2 <= |ar| && ar[off..off + 2] == s
    ensures ar[off..off + 1] == [s[0]] && ar[off + 1..off + 1 + 1] == [s[1]]
  {
    assert ar[off..off + 2][0] == s[0] && ar[off..off + 2][1] == s[1];
  }

  /** What differing-key columns have in common while the order bit does not move. */
  ghost predicate PairColumn(t: Text, first: nat, rel: nat, swapped: bool, fk: uint32, sk: uint32,
                             ar0: seq<uint16>, ds0: seq<Desc>, ar: seq<uint16>, ds: seq<Desc>, off: nat)
    requires (first + 2) * 256 <= |t|
  {
    && rel < 256
    && IsColumnOrder(t, first, 2, rel, Pair(first, swapped))
    && fk == Key(t, PosOf(Pair(first, swapped)[0], rel)) && sk == Key(t, PosOf(Pair(first, swapped)[1], rel))
    && off + 1 < OFF_LIMIT && off + 2 <= |ar| && ar[off..off + 2] == Pair(first, swapped)
    && Extends(ar0, ds0, ar, ds, multiset(NaiveColumns(t, first, 2, rel + 1)))
  }

  /** A constant prepend moves on to the next column with both keys slid. */
  lemma PairColumnNext(t: Text, first: nat, rel: nat, swapped: bool, fk: uint32, sk: uint32, c: byte)
    requires 0 < rel < 256 && (first + 2) * 256 <= |t|
    requires IsColumnOrder(t, first, 2, rel, Pair(first, swapped))
    requires fk == Key(t, PosOf(Pair(first, swapped)[0], rel)) && sk == Key(t, PosOf(Pair(first, swapped)[1], rel))
    requires t[PosOf(first, rel - 1)] == t[PosOf(first + 1, rel - 1)] == c
    ensures IsColumnOrder(t, first, 2, rel - 1, Pair(first, swapped))
    ensures Slide(c, fk) == Key(t, PosOf(Pair(first, swapped)[0], rel - 1))
    ensures Slide(c, sk) == Key(t, PosOf(Pair(first, swapped)[1], rel - 1))
  {
    PairPrepend(t, first, rel, swapped);
    var p0, p1 := PosOf(first, rel - 1), PosOf(first + 1, rel - 1);
    assert p0 + 1 == PosOf(first, rel) && p1 + 1 == PosOf(first + 1, rel);
    SlideIsExact(t, p0);
    SlideIsExact(t, p1);
  }

  /** The inner loop of the two-block path: differing keys through constant prepends, back to
      back. It stops at column 0, at a column that can move the order, or where the slide makes
      the keys equal - in that last case with the registers already slid. */
  method EmitPairs(t: Text, first: nat, swapped: bool, fk0: uint32, sk0: uint32, off: nat, rel0: nat,
                   desc: array<Desc>, dl: nat,
                   ghost ar0: seq<uint16>, ghost ds0: seq<Desc>, ghost ar: seq<uint16>)
    returns (dl': nat, rel: nat, fk: uint32, sk: uint32)
    requires (first + 2) * 256 <= |t| && dl + 2 * (rel0 + 1) <= desc.Length
    requires PairColumn(t, first, rel0, swapped, fk0, sk0, ar0, ds0, ar, desc[..dl], off) && fk0 != sk0
    modifies desc
    ensures rel <= rel0 && dl' + 2 * rel == dl + 2 * rel0 + 2
    ensures Extends(ar0, ds0, ar, desc[..dl'], multiset(NaiveColumns(t, first, 2, rel)))
    ensures IsColumnOrder(t, first, 2, rel, Pair(first, swapped))
    ensures rel > 0 ==> PairKeysLeft(t, first, rel, if swapped then sk else fk, if swapped then fk else sk)
  {
    hide Key, IsColumnOrder, NaiveColumns, Pair, Extends, Slide, PairKeysLeft, KeyRel, Pack, PairKeysTrue;
    fk, sk, rel, dl' := fk0, sk0, rel0, dl;
    while true
      invariant rel <= rel0 && dl' + 2 * rel == dl + 2 * rel0
      invariant PairColumn(t, first, rel, swapped, fk, sk, ar0, ds0, ar, desc[..dl'], off) && fk != sk
      decreases rel
    {
      DifferingPairEmitted(t, first, rel, swapped, fk, sk, ar0, ds0, ar, desc[..dl'], off);
      Append(desc, dl', Desc(KeyRel(fk, rel), Pack(off, 1)));
      Append(desc, dl' + 1, Desc(KeyRel(sk, rel), Pack(off + 1, 1)));
      dl' := dl' + 2;
      if rel == 0 { return; }
      var c0, c1 := t[PosOf(first, rel - 1)], t[PosOf(first + 1, rel - 1)];
      if c0 != c1 {
        LeftTrue(t, first, rel, swapped, fk, sk);
        return;
      }
      PairColumnNext(t, first, rel, swapped, fk, sk, c0);
      fk, sk := Slide(c0, fk), Slide(c0, sk);
      if fk == sk {
        LeftSlid(t, first, rel, swapped, fk, sk);
        return;
      }
      rel := rel - 1;
    }
  }

  lemma LeftTrue(t: Text, first: nat, rel: nat, swapped: bool, fk: uint32, sk: uint32)
    requires (first + 2) * 256 <= |t| && 0 < rel < 256
    requires fk == Key(t, PosOf(Pair(first, swapped)[0], rel)) && sk == Key(t, PosOf(Pair(first, swapped)[1], rel))
    ensures PairKeysLeft(t, first, rel, if swapped then sk else fk, if swapped then fk else sk)
  {}

  lemma LeftSlid(t: Text, first: nat, rel: nat, swapped: bool, fk: uint32, sk: uint32)
    requires (first + 2) * 256 <= |t| && 0 < rel < 256 && fk == sk
    requires t[PosOf(first, rel - 1)] == t[PosOf(first + 1, rel - 1)]
    requires fk == Key(t, PosOf(Pair(first, swapped)[0], rel - 1))
             && sk == Key(t, PosOf(Pair(first, swapped)[1], rel - 1))
    ensures PairKeysLeft(t, first, rel, if swapped then sk else fk, if swapped then fk else sk)
  {}

  /** The arena holds the current order unless the order has moved since it was written. */
  ghost predicate PairSlice(first: nat, swapped: bool, ar: seq<uint16>, awOff: nat, awDirty: bool) {
    awDirty || (awOff + 2 <= |ar| && ar[awOff..awOff + 2] == Pair(first, swapped))
  }

  method WritePair(first: nat, swapped: bool, arena: array<uint16>, al: nat, awOff: nat, awDirty: bool,
                   ghost ar0: seq<uint16>, ghost ds0: seq<Desc>, ghost ds: seq<Desc>, ghost added: multiset<Group>)
    returns (al': nat, off: nat)
    requires al + 2 <= arena.Length && first + 1 < 0x1_0000
    requires PairSlice(first, swapped, arena[..al], awOff, awDirty)
    requires Extends(ar0, ds0, arena[..al], ds, added)
    modifies arena
    ensures al <= al' <= al + 2 && PairSlice(first, swapped, arena[..al'], off, false)
    ensures Extends(ar0, ds0, arena[..al'], ds, added)
  {
    hide Extends, PairSlice;
    al', off := al, awOff;
    if awDirty {
      off := al;
      ghost var ar := arena[..al];
      Append(arena, al, if swapped then first + 1 else first);
      Append(arena, al + 1, if swapped then first else first + 1);
      al' := al + 2;
      PairAppended(first, swapped, ar0, ds0, ar, ds, added);
    }
  }

  lemma PairAppended(first: nat, swapped: bool, ar0: seq<uint16>, ds0: seq<Desc>, ar: seq<uint16>, ds: seq<Desc>,
                     added: multiset<Group>)
    requires first + 1 < 0x1_0000 && Extends(ar0, ds0, ar, ds, added)
    ensures var ar' := ar + [if swapped then first + 1 else first] + [if swapped then first else first + 1];
            PairSlice(first, swapped, ar', |ar|, false) && Extends(ar0, ds0, ar', ds, added)
  {
    hide Extends, Pair;
    var more: seq<uint16> := [if swapped then first + 1 else first] + [if swapped then first else first + 1];
    assert more == Pair(first, swapped) by { PairAppendedIs(first, swapped); }
    assert (ar + more)[|ar|..|ar| + 2] == more;
    assert ar + more == ar + [if swapped then first + 1 else first] + [if swapped then first else first + 1];
    SlicesOf(ar0, ds0, ar, ds, added);
    ExtendsArena(ar, ds, more);
    ExtendsTransitive(ar0, ds0, ar, ds, added, ar + more, ds, multiset{});
    assert added + multiset{} == added;
  }

  lemma PairAppendedIs(first: nat, swapped: bool)
    ensures Pair(first, swapped) == [if swapped then first + 1 else first] + [if swapped then first else first + 1]
  {}

  /** Emit from column rel down. Equal keys go through the span emitter, differing ones through
      the pair loop; both stop above a column that is then prepended block by block. */
  method EmitPairColumns(t: Text, first: nat, words: seq<Word>, swapped: bool, k0: uint32, k1: uint32, off: nat,
                         rel0: nat, desc: array<Desc>, dl: nat,
                         ghost ar0: seq<uint16>, ghost ds0: seq<Desc>, ghost ar: seq<uint16>)
    returns (dl': nat, rel: nat, key0: uint32, key1: uint32)
    requires |words| == 8 && (first + 2) * 256 <= |t| <= OFF_LIMIT && rel0 < 256 && dl + 2 * (rel0 + 1) <= desc.Length
    requires MaskExact(t, first, 2, words)
    requires PairKeys(t, first, rel0, k0, k1)
    requires off + 2 <= |ar| <= |t| && ar[off..off + 2] == Pair(first, swapped)
    requires IsColumnOrder(t, first, 2, rel0, Pair(first, swapped))
    requires Extends(ar0, ds0, ar, desc[..dl], multiset(NaiveColumns(t, first, 2, rel0 + 1)))
    modifies desc
    ensures rel <= rel0 && dl' + 2 * rel <= dl + 2 * (rel0 + 1)
    ensures Extends(ar0, ds0, ar, desc[..dl'], multiset(NaiveColumns(t, first, 2, rel)))
    ensures IsColumnOrder(t, first, 2, rel, Pair(first, swapped))
    ensures rel > 0 ==> PairKeysLeft(t, first, rel, key0, key1)
  {
    hide Key, IsColumnOrder, NaiveColumns, Pair, Extends, PairKeysLeft, PairKeys, SpanDescs, MaskExact, Pack;
    if k0 == k1 {
      rel := UniformSpanStart(words, rel0);
      PairSpan(t, first, swapped, k0, k1, words, rel, rel0, ar0, ds0, ar, desc[..dl], off);
      dl' := EmitUniformSpan(desc, dl, t, first * 256, rel, rel0, Pack(off, 2));
      key0 := Key32(t, PosOf(first, rel));
      key1 := key0;
    } else {
      PairTrueKeys(t, first, rel0, swapped, k0, k1);
      var fk, sk;
      dl', rel, fk, sk := EmitPairs(t, first, swapped, if swapped then k1 else k0, if swapped then k0 else k1,
                                    off, rel0, desc, dl, ar0, ds0, ar);
      key0, key1 := if swapped then sk else fk, if swapped then fk else sk;
    }
  }

  /** The bit and the registers after one prepend. */
  lemma PairNext(t: Text, first: nat, rel: nat, swapped: bool, key0: uint32, key1: uint32)
    requires (first + 2) * 256 <= |t| && 0 < rel < 256
    requires IsColumnOrder(t, first, 2, rel, Pair(first, swapped)) && PairKeysLeft(t, first, rel, key0, key1)
    ensures key0 < KEY_MODULUS && key1 < KEY_MODULUS
    ensures var c0, c1 := t[PosOf(first, rel - 1)], t[PosOf(first + 1, rel - 1)];
            && PairKeys(t, first, rel - 1, Slide(c0, key0), Slide(c1, key1))
            && IsColumnOrder(t, first, 2, rel - 1, Pair(first, if c0 == c1 then swapped else c1 < c0))
  {
    PairSlide(t, first, rel, key0, key1);
    PairPrepend(t, first, rel, swapped);
  }

  /** Two blocks. */
  method EmitTwoBlocks(t: Text, first: nat, words: seq<Word>, arena: array<uint16>, al0: nat, desc: array<Desc>,
                       dl0: nat)
    returns (ok: bool, al: nat, dl: nat)
    requires Room(t, first, 2, arena, al0, desc, dl0) && SlicesInside(desc[..dl0], al0)
    requires |words| == 8 && MaskExact(t, first, 2, words)
    modifies arena, desc
    ensures ok <==> dl0 + 512 <= desc.Length
    ensures ok ==> al <= arena.Length && dl <= desc.Length && al <= al0 + 512 && dl <= dl0 + 512
    ensures ok ==> Extends(old(arena[..al0]), old(desc[..dl0]), arena[..al], desc[..dl],
                           multiset(NaiveColumns(t, first, 2, 0)))
  {
    hide Key, IsColumnOrder, NaiveColumns, Pair, Extends, Slide, PairKeysLeft, PairKeys, PairSlice, MaskExact, Less;
    ok, al, dl := dl0 + 512 <= desc.Length, al0, dl0;
    if !ok { return; }
    ghost var ar0, ds0 := arena[..al0], desc[..dl0];
    var key0 := Key32(t, PosOf(first, 255));
    var key1 := Key32(t, PosOf(first + 1, 255));
    var swapped := SuffixLess(t, PosOf(first + 1, 255), PosOf(first, 255));
    PairIsOrder(t, first, 255, swapped);
    PairStart(t, first, key0, key1);
    ExtendsNothing(ar0, ds0);
    NoColumnsYet(t, first, 2);
    DirtyIsFine(first, swapped, ar0);
    var awOff, awDirty := 0, true;
    var rel := 255;
    while true
      invariant rel < 256 && al + 2 * (rel + 1) <= al0 + 512 && dl + 2 * (rel + 1) <= dl0 + 512
      invariant IsColumnOrder(t, first, 2, rel, Pair(first, swapped))
      invariant PairKeys(t, first, rel, key0, key1)
      invariant PairSlice(first, swapped, arena[..al], awOff, awDirty)
      invariant Extends(ar0, ds0, arena[..al], desc[..dl], multiset(NaiveColumns(t, first, 2, rel + 1)))
      decreases rel
    {
      al, awOff := WritePair(first, swapped, arena, al, awOff, awDirty, ar0, ds0, desc[..dl],
                             multiset(NaiveColumns(t, first, 2, rel + 1)));
      awDirty := false;
      SliceIsPair(first, swapped, arena[..al], awOff);
      dl, rel, key0, key1 :=
        EmitPairColumns(t, first, words, swapped, key0, key1, awOff, rel, desc, dl, ar0, ds0, arena[..al]);
      if rel == 0 { return; }
      PairNext(t, first, rel, swapped, key0, key1);
      var c0, c1 := t[PosOf(first, rel - 1)], t[PosOf(first + 1, rel - 1)];
      key0, key1 := Slide(c0, key0), Slide(c1, key1);
      if c0 != c1 {
        var next := c1 < c0;
        if next != swapped {
          awDirty, swapped := true, next;
          DirtyIsFine(first, swapped, arena[..al]);
        }
      }
      rel := rel - 1;
    }
  }

  lemma DirtyIsFine(first: nat, swapped: bool, ar: seq<uint16>)
    ensures forall off :: PairSlice(first, swapped, ar, off, true)
  {}

  lemma SliceIsPair(first: nat, swapped: bool, ar: seq<uint16>, off: nat)
    requires PairSlice(first, swapped, ar, off, false)
    ensures off + 2 <= |ar| && ar[off..off + 2] == Pair(first, swapped)
  {}

  lemma PairStart(t: Text, first: nat, key0: uint32, key1: uint32)
    requires PairKeysTrue(t, first, 255, key0, key1)
    ensures PairKeys(t, first, 255, key0, key1)
  {}

  lemma PairTrueKeys(t: Text, first: nat, rel: nat, swapped: bool, key0: uint32, key1: uint32)
    requires PairKeys(t, first, rel, key0, key1) && key0 != key1
    ensures (if swapped then key1 else key0) == Key(t, PosOf(Pair(first, swapped)[0], rel))
    ensures (if swapped then key0 else key1) == Key(t, PosOf(Pair(first, swapped)[1], rel))
  {}

  /** Equal registers, true or stale, mean equal keys, so the whole span up to the next column
      that varies is one list per column. */
  lemma PairSpan(t: Text, first: nat, swapped: bool, key0: uint32, key1: uint32, words: seq<Word>, last: nat, rel: nat,
                 ar0: seq<uint16>, ds0: seq<Desc>, ar: seq<uint16>, ds: seq<Desc>, off: nat)
    requires (first + 2) * 256 <= |t| <= OFF_LIMIT && last <= rel < 256
    requires PairKeys(t, first, rel, key0, key1) && key0 == key1
    requires |words| == 8 && MaskExact(t, first, 2, words) && forall c :: last <= c < rel ==> !BitAt(words, c)
    requires off + 2 <= |ar| && ar[off..off + 2] == Pair(first, swapped) && off < OFF_LIMIT
    requires IsColumnOrder(t, first, 2, rel, Pair(first, swapped))
    requires Extends(ar0, ds0, ar, ds, multiset(NaiveColumns(t, first, 2, rel + 1)))
    ensures Extends(ar0, ds0, ar, ds + SpanDescs(t, first * 256, last, rel + 1, Pack(off, 2)),
                    multiset(NaiveColumns(t, first, 2, last)))
    ensures IsColumnOrder(t, first, 2, last, Pair(first, swapped))
    ensures Key(t, PosOf(first, last)) == Key(t, PosOf(first + 1, last))
    ensures last > 0 ==> PairKeysLeft(t, first, last, Key(t, PosOf(first, last)), Key(t, PosOf(first, last)))
  {
    hide Key, IsColumnOrder, NaiveColumns, Pair, Extends, IsConstant, SpanDescs, MaskExact, PairKeysLeft, PairKeys,
         PosOf, BitAt;
    MaskedSpanIsConstant(t, first, 2, words, last, rel);
    EqualRegisters(t, first, rel, key0, key1);
    SpanEmitted(t, first, 2, Pair(first, swapped), ar0, ds0, ar, ds, off, last, rel);
    if last > 0 { SpanEndKeys(t, first, last); }
  }

  lemma MaskedSpanIsConstant(t: Text, first: nat, blocks: nat, words: seq<Word>, last: nat, rel: nat)
    requires MaskExact(t, first, blocks, words) && rel < 256
    requires forall c :: last <= c < rel ==> !BitAt(words, c)
    ensures forall c :: last <= c < rel ==> IsConstant(t, first, blocks, c)
  {
    hide IsConstant, BitAt;
  }

  lemma EqualRegisters(t: Text, first: nat, rel: nat, key0: uint32, key1: uint32)
    requires PairKeys(t, first, rel, key0, key1) && key0 == key1
    ensures Key(t, PosOf(first + 1, rel)) == Key(t, PosOf(first, rel))
  {}

  lemma SpanEndKeys(t: Text, first: nat, last: nat)
    requires (first + 2) * 256 <= |t| && 0 < last < 256
    requires Key(t, PosOf(first + 1, last)) == Key(t, PosOf(first, last))
    ensures PairKeysLeft(t, first, last, Key(t, PosOf(first, last)), Key(t, PosOf(first, last)))
  {}
}
