/** emit_run of native/descriptor.c for three blocks and more: order and key arrays, the uniform
    state, and arena slices shared between columns. */
module LongRuns {
  import opened MachineTypes
  import opened SuffixOrder
  import opened SuffixCompare
  import opened Keys
  import opened StableOrder
  import opened Descriptors
  import opened NaiveWalk
  import opened RunMasks
  import opened Emission
  import opened Arrays
  import opened ShortRuns
  import ColumnStep

  /** The block behind each block start. */
  function BlocksOf(ord: seq<uint32>): (s: seq<nat>)
    ensures |s| == |ord| && forall x :: 0 <= x < |s| ==> s[x] == ord[x] / 256
  {
    seq(|ord|, x requires 0 <= x < |ord| => ord[x] / 256)
  }

  ghost predicate Starts(ord: seq<uint32>) {
    forall x :: 0 <= x < |ord| ==> ord[x] % 256 == 0
  }

  /** The column-walk invariant: order[] lists the run's blocks by their suffixes at rel. */
  ghost predicate RunOrder(t: Text, first: nat, blocks: nat, rel: nat, ord: seq<uint32>) {
    Starts(ord) && IsColumnOrder(t, first, blocks, rel, BlocksOf(ord))
  }

  /** While uniform, every true key is k0 and the key array may be stale. */
  ghost predicate RunKeys(t: Text, rel: nat, ord: seq<uint32>, ks: seq<uint32>, uniform: bool, k0: uint32)
    requires |ks| == |ord|
  {
    && k0 < KEY_MODULUS
    && if uniform then forall x :: 0 <= x < |ord| ==> Key(t, ord[x] + rel) == k0
       else forall x :: 0 <= x < |ord| ==> ks[x] == Key(t, ord[x] + rel)
  }

  /** The arena holds the current order unless the order has moved since it was written. */
  ghost predicate RunSlice(ord: seq<uint32>, ar: seq<uint16>, awOff: nat, awDirty: bool) {
    awDirty || (awOff + |ord| <= |ar| && ar[awOff..awOff + |ord|] == BlocksOf(ord))
  }

  // Seeding: the suffixes at each block's last byte.

  /** The insertion sort's gap is where InsertBlock puts the block. */
  lemma {:induction false} GapIsInsert(t: Text, s: seq<nat>, b: nat, p: nat)
    requires BlocksInside(t, s) && (b + 1) * 256 <= |t| && p <= |s|
    requires p > 0 ==> !Less(t, PosOf(b, 255), PosOf(s[p - 1], 255))
    requires forall x :: p <= x < |s| ==> Less(t, PosOf(b, 255), PosOf(s[x], 255))
    ensures InsertBlock(t, 255, s, b) == Inserted<nat>(s, p, b)
    decreases |s|
  {
    var n := |s| - 1;
    if p < |s| {
      hide Less;
      GapIsInsert(t, s[..n], b, p);
      assert Inserted<nat>(s, p, b) == Inserted<nat>(s[..n], p, b) + [s[n]];
    }
  }

  /** One round of the seeding sort over last-byte positions. */
  method SeedOne(t: Text, order: array<uint32>, x: nat) returns (ghost p: nat)
    requires x < order.Length && forall i :: 0 <= i <= x ==> order[i] < |t|
    modifies order
    ensures p <= x && order[..] == Rotated(old(order[..]), p, x)
    ensures var o := old(order[..]);
            && (p > 0 ==> !Less(t, o[x], o[p - 1]))
            && (forall i :: p <= i < x ==> Less(t, o[x], o[i]))
  {
    hide Less, Shifted, Rotated, Inserted;
    ghost var o := order[..];
    var v := order[x];
    var j := x;
    ShiftStart(o, x);
    while j > 0
      invariant j <= x && Shifted(o, order[..], j, x)
      invariant forall i :: j <= i < x ==> Less(t, v, o[i])
    {
      ShiftStep(o, order[..], j, x);
      assert order[j - 1] == o[j - 1];
      var less := SuffixLess(t, v, order[j - 1]);
      if !less { break; }
      Set(order, j, order[j - 1]);
      j := j - 1;
    }
    p := j;
    ShiftDone(o, order[..], j, x);
    Set(order, j, v);
  }

  /** Positions of the run's blocks at their last byte, sorted up to x, in block order after. */
  ghost predicate Seeded(t: Text, first: nat, blocks: nat, x: nat, ord: seq<uint32>)
    requires x <= blocks <= |ord| && (first + blocks) * 256 <= |t|
  {
    && ord[..x] == At(ColumnOrder(t, first, x, 255), 255)
    && forall i :: x <= i < blocks ==> ord[i] == PosOf(first + i, 255)
  }

  lemma AtInserted(s: seq<nat>, rel: nat, p: nat, b: nat)
    requires p <= |s|
    ensures At(Inserted<nat>(s, p, b), rel) == Inserted<nat>(At(s, rel), p, PosOf(b, rel))
  {}

  lemma InsertedWidened(s: seq<uint32>, r: seq<nat>, p: nat, v: uint32)
    requires p <= |s| && s == r
    ensures Inserted<uint32>(s, p, v) == Inserted<nat>(r, p, v)
  {}

  lemma RotatedTail<T>(a: seq<T>, p: nat, x: nat, i: nat)
    requires p <= x < i < |a|
    ensures Rotated(a, p, x)[i] == a[i]
  {
    assert Rotated(a, p, x)[i] == Rotated(a, p, x)[x + 1..][i - (x + 1)];
  }

  lemma SeedRound(t: Text, first: nat, blocks: nat, x: nat, ord: seq<uint32>, p: nat)
    requires x < blocks <= |ord| && (first + blocks) * 256 <= |t| && p <= x
    requires Seeded(t, first, blocks, x, ord)
    requires ord[x] < |t| && forall i :: 0 <= i < x ==> ord[i] < |t|
    requires p > 0 ==> !Less(t, ord[x], ord[p - 1])
    requires forall i :: p <= i < x ==> Less(t, ord[x], ord[i])
    ensures Seeded(t, first, blocks, x + 1, Rotated(ord, p, x))
  {
    hide Less, InsertBlock, Rotated, Inserted, ColumnOrder, PosOf, At;
    SeedPrefix(t, first, x, ord[..x], ord[x], p);
    forall i | x + 1 <= i < blocks ensures Rotated(ord, p, x)[i] == PosOf(first + i, 255) {
      RotatedTail(ord, p, x, i);
    }
  }

  /** The sorted prefix grows by one insertion, the reference's. */
  lemma SeedPrefix(t: Text, first: nat, x: nat, prefix: seq<uint32>, v: uint32, p: nat)
    requires (first + x + 1) * 256 <= |t| && p <= x && v == PosOf(first + x, 255)
    requires prefix == At(ColumnOrder(t, first, x, 255), 255)
    requires v < |t| && forall i :: 0 <= i < x ==> prefix[i] < |t|
    requires p > 0 ==> !Less(t, v, prefix[p - 1])
    requires forall i :: p <= i < x ==> Less(t, v, prefix[i])
    ensures Inserted<uint32>(prefix, p, v) == At(ColumnOrder(t, first, x + 1, 255), 255)
  {
    hide Less, InsertBlock, Inserted, ColumnOrder, PosOf;
    var s := ColumnOrder(t, first, x, 255);
    GapIsInsert(t, s, first + x, p);
    ColumnOrderNext(t, first, x, 255);
    AtInserted(s, 255, p, first + x);
    InsertedWidened(prefix, At(s, 255), p, v);
  }

  lemma ColumnOrderNext(t: Text, first: nat, x: nat, rel: nat)
    requires rel < 256 && (first + x + 1) * 256 <= |t|
    ensures ColumnOrder(t, first, x + 1, rel) == InsertBlock(t, rel, ColumnOrder(t, first, x, rel), first + x)
  {}

  lemma SeedFirst(t: Text, first: nat, blocks: nat, ord: seq<uint32>)
    requires 0 < blocks <= |ord| && (first + blocks) * 256 <= |t|
    requires forall i :: 0 <= i < blocks ==> ord[i] == PosOf(first + i, 255)
    ensures Seeded(t, first, blocks, 1, ord)
  {
    ColumnOrderNext(t, first, 0, 255);
    assert ColumnOrder(t, first, 1, 255) == [first];
    assert ord[..1] == At([first], 255);
  }

  lemma SeededInText(t: Text, first: nat, blocks: nat, x: nat, ord: seq<uint32>)
    requires x <= blocks <= |ord| && (first + blocks) * 256 <= |t|
    requires Seeded(t, first, blocks, x, ord)
    ensures forall i :: 0 <= i < blocks ==> ord[i] < |t| && ord[i] % 256 == 255
  {
    var r := At(ColumnOrder(t, first, x, 255), 255);
    forall i | 0 <= i < blocks ensures ord[i] < |t| && ord[i] % 256 == 255 {
      if i < x { assert ord[..x][i] == r[i]; }
    }
  }

  lemma SeedDone(t: Text, first: nat, blocks: nat, last: seq<uint32>, ord: seq<uint32>)
    requires |last| == |ord| == blocks && (first + blocks) * 256 <= |t|
    requires Seeded(t, first, blocks, blocks, last)
    requires forall i :: 0 <= i < blocks ==> ord[i] == last[i] - 255
    ensures RunOrder(t, first, blocks, 255, ord)
  {
    var s := ColumnOrder(t, first, blocks, 255);
    ColumnOrderIsOrder(t, first, blocks, 255);
    hide ColumnOrder, IsColumnOrder;
    assert last[..blocks] == last;
    assert BlocksOf(ord) == s;
  }

  method SeedOrder(t: Text, first: nat, blocks: nat, order: array<uint32>)
    requires 0 < blocks <= order.Length && (first + blocks) * 256 <= |t| <= OFF_LIMIT
    modifies order
    ensures RunOrder(t, first, blocks, 255, order[..blocks])
  {
    hide Less, ColumnOrder, Rotated, RunOrder;
    for i := 0 to blocks
      invariant forall k :: 0 <= k < i ==> order[k] == PosOf(first + k, 255)
    {
      order[i] := first * 256 + i * 256 + 255;
    }
    SeedFirst(t, first, blocks, order[..]);
    for i := 1 to blocks
      invariant Seeded(t, first, blocks, i, order[..])
    {
      ghost var o := order[..];
      SeededInText(t, first, blocks, i, o);
      hide Seeded;
      ghost var p := SeedOne(t, order, i);
      SeedRound(t, first, blocks, i, o, p);
    }
    ghost var last := order[..blocks];
    SeededInText(t, first, blocks, blocks, order[..]);
    for i := 0 to blocks
      invariant forall k :: 0 <= k < i ==> order[k] == last[k] - 255
      invariant forall k :: i <= k < blocks ==> order[k] == last[k]
    {
      order[i] := order[i] - 255;
    }
    SeedDone(t, first, blocks, last, order[..blocks]);
  }

  // Emitting one column, or one span of columns.

  /** emit_ord_plus: the block indices, sixteen bits each, eight at a time. */
  method WriteOrder(arena: array<uint16>, al: nat, order: array<uint32>, blocks: nat)
    requires blocks <= order.Length && al + blocks <= arena.Length
    requires forall x :: 0 <= x < blocks ==> order[x] / 256 < 0x1_0000
    modifies arena
    ensures arena[..al] == old(arena[..al])
    ensures arena[al..al + blocks] == BlocksOf(order[..blocks])
  {
    var x := 0;
    while x + 8 <= blocks
      invariant x <= blocks && arena[..al] == old(arena[..al])
      invariant forall k :: 0 <= k < x ==> arena[al + k] == order[k] / 256
    {
      forall k | x <= k < x + 8 { arena[al + k] := order[k] / 256; }
      x := x + 8;
    }
    while x < blocks
      invariant x <= blocks && arena[..al] == old(arena[..al])
      invariant forall k :: 0 <= k < x ==> arena[al + k] == order[k] / 256
    {
      arena[al + x] := order[x] / 256;
      x := x + 1;
    }
  }

  /** Key arrays that match a column agree with the reference's keys. */
  lemma RunKeysAreKeys(t: Text, rel: nat, ord: seq<uint32>, ks: seq<uint32>, k0: uint32)
    requires rel < 256 && |ks| == |ord| && Starts(ord) && RunKeys(t, rel, ord, ks, false, k0)
    ensures forall x :: 0 <= x < |ord| ==> ks[x] == KeyAt(t, BlocksOf(ord), rel, x)
  {
    hide Key;
    forall x | 0 <= x < |ord| ensures ks[x] == KeyAt(t, BlocksOf(ord), rel, x) {
      assert ord[x] + rel == PosOf(BlocksOf(ord)[x], rel);
    }
  }

  /** The scan for maximal stretches of equal keys, on the key array. */
  method ScanStretch(t: Text, keys: array<uint32>, blocks: nat, i: nat, ghost s: seq<nat>, ghost rel: nat)
    returns (j: nat)
    requires i < blocks == |s| && blocks <= keys.Length
    requires forall x :: 0 <= x < blocks ==> keys[x] == KeyAt(t, s, rel, x)
    ensures j == RunEnd(t, s, rel, KeyAt(t, s, rel, i), i + 1)
    ensures i < j <= blocks
  {
    hide KeyAt;
    j := i + 1;
    while j < blocks && keys[j] == keys[i]
      invariant i < j <= blocks
      invariant RunEnd(t, s, rel, keys[i], j) == RunEnd(t, s, rel, keys[i], i + 1)
    {
      j := j + 1;
    }
  }

  /** The lists of one column from index i on are the stretch at i and the rest. */
  lemma GroupsFromStep(t: Text, s: seq<nat>, rel: nat, i: nat)
    requires i < |s|
    ensures var k := KeyAt(t, s, rel, i);
            var j := RunEnd(t, s, rel, k, i + 1);
            multiset(GroupsFrom(t, s, rel, i)) == multiset{Group(k, rel, s[i..j])} + multiset(GroupsFrom(t, s, rel, j))
  {
    hide KeyAt, RunEnd;
  }

  /** What scanning a column has done when it stands at index i. */
  ghost predicate ScanState(t: Text, s: seq<nat>, rel: nat, i: nat, groups: nat, done: multiset<Group>)
    requires i <= |s|
  {
    && done + multiset(GroupsFrom(t, s, rel, i)) == multiset(GroupsFrom(t, s, rel, 0))
    && (groups == 0 <==> i == 0)
    && (groups == 1 ==> forall x :: 0 <= x < i ==> KeyAt(t, s, rel, x) == KeyAt(t, s, rel, 0))
  }

  lemma ScanNext(t: Text, s: seq<nat>, rel: nat, i: nat, groups: nat, done: multiset<Group>)
    requires i < |s| && ScanState(t, s, rel, i, groups, done)
    ensures var k := KeyAt(t, s, rel, i);
            var j := RunEnd(t, s, rel, k, i + 1);
            ScanState(t, s, rel, j, groups + 1, done + multiset{Group(k, rel, s[i..j])})
  {
    GroupsFromStep(t, s, rel, i);
    hide GroupsFrom, KeyAt;
  }

  /** The general walk at one column: one descriptor per stretch, all into the shared slice. */
  method EmitGroups(t: Text, rel: nat, blocks: nat, keys: array<uint32>, off: nat, desc: array<Desc>, dl: nat,
                    ghost s: seq<nat>, ghost ar0: seq<uint16>, ghost ds0: seq<Desc>, ghost ar: seq<uint16>,
                    ghost before: multiset<Group>)
    returns (dl': nat, groups: nat)
    requires rel < 256 && 0 < blocks == |s| < LEN_MODULUS && blocks <= keys.Length && dl + blocks <= desc.Length
    requires forall x :: 0 <= x < blocks ==> keys[x] == KeyAt(t, s, rel, x)
    requires off + blocks <= |ar| <= OFF_LIMIT && ar[off..off + blocks] == s
    requires Extends(ar0, ds0, ar, desc[..dl], before)
    modifies desc
    ensures dl < dl' <= dl + blocks
    ensures Extends(ar0, ds0, ar, desc[..dl'], before + multiset(GroupsFrom(t, s, rel, 0)))
    ensures groups == 1 ==> forall x :: 0 <= x < blocks ==> keys[x] == keys[0]
  {
    hide KeyAt, RunEnd, GroupsFrom, Extends, ScanState, KeyRel, Pack;
    var i := 0;
    dl', groups := dl, 0;
    ghost var done := multiset{};
    ScanBegin(t, s, rel);
    assert before + done == before;
    while i < blocks
      invariant i <= blocks && dl + (if i > 0 then 1 else 0) <= dl' <= dl + i
      invariant ScanState(t, s, rel, i, groups, done)
      invariant Extends(ar0, ds0, ar, desc[..dl'], before + done)
    {
      var k := keys[i];
      var j := ScanStretch(t, keys, blocks, i, s, rel);
      KeyAtBound(t, s, rel, i);
      SubSlice(ar, off, s, i, j);
      ExtendsGroup(ar0, ds0, ar, desc[..dl'], before + done, k, rel, off + i, j - i);
      Append(desc, dl', Desc(KeyRel(k, rel), Pack(off + i, j - i)));
      ScanNext(t, s, rel, i, groups, done);
      assert before + done + multiset{Group(k, rel, s[i..j])} == before + (done + multiset{Group(k, rel, s[i..j])});
      done := done + multiset{Group(k, rel, s[i..j])};
      i, dl', groups := j, dl' + 1, groups + 1;
    }
    ScanEnd(t, s, rel, groups, done);
  }

  lemma KeyAtBound(t: Text, s: seq<nat>, rel: nat, i: nat)
    requires i < |s|
    ensures KeyAt(t, s, rel, i) < KEY_MODULUS
  {}

  lemma SubSlice(ar: seq<uint16>, off: nat, s: seq<nat>, i: nat, j: nat)
    requires i <= j <= |s| && off + |s| <= |ar| && ar[off..off + |s|] == s
    ensures ar[off + i..off + i + (j - i)] == s[i..j]
  {
    var w, lo := ar[off..off + |s|], off + i;
    forall k | 0 <= k < j - i ensures ar[lo..lo + (j - i)][k] == s[i..j][k] {
      assert w[i + k] == ar[lo + k];
    }
  }

  lemma ScanBegin(t: Text, s: seq<nat>, rel: nat)
    ensures ScanState(t, s, rel, 0, 0, multiset{})
  {}

  lemma ScanEnd(t: Text, s: seq<nat>, rel: nat, groups: nat, done: multiset<Group>)
    requires ScanState(t, s, rel, |s|, groups, done)
    ensures done == multiset(GroupsFrom(t, s, rel, 0))
    ensures groups == 1 ==> forall x :: 0 <= x < |s| ==> KeyAt(t, s, rel, x) == KeyAt(t, s, rel, 0)
  {}

  /** Every block of the run occurs in the order, so a fact about all entries is one about all
      blocks. */
  lemma UniformMeansEqualKeys(t: Text, first: nat, blocks: nat, rel: nat, ord: seq<uint32>, ks: seq<uint32>, k0: uint32)
    requires blocks > 0 && (first + blocks) * 256 <= |t| && |ks| == |ord|
    requires RunOrder(t, first, blocks, rel, ord) && RunKeys(t, rel, ord, ks, true, k0)
    ensures forall b :: first <= b < first + blocks ==> Key(t, PosOf(b, rel)) == k0
  {
    hide Key, Less;
    var s := BlocksOf(ord);
    forall b | first <= b < first + blocks ensures Key(t, PosOf(b, rel)) == k0 {
      assert b in s;
      var x :| 0 <= x < |s| && s[x] == b;
      assert ord[x] + rel == PosOf(b, rel);
    }
  }

  lemma EqualKeysMeanUniform(t: Text, first: nat, blocks: nat, rel: nat, ord: seq<uint32>, ks: seq<uint32>, k0: uint32)
    requires blocks > 0 && (first + blocks) * 256 <= |t| && |ks| == |ord|
    requires RunOrder(t, first, blocks, rel, ord) && k0 == Key(t, PosOf(first, rel))
    requires forall b :: first <= b < first + blocks ==> Key(t, PosOf(b, rel)) == Key(t, PosOf(first, rel))
    ensures RunKeys(t, rel, ord, ks, true, k0)
  {
    var s := BlocksOf(ord);
    forall x | 0 <= x < |ord| ensures Key(t, ord[x] + rel) == k0 {
      assert ord[x] + rel == PosOf(s[x], rel);
    }
  }

  /** The uniform branch: one span, one slice, until the next column that varies. */
  lemma RunSpan(t: Text, first: nat, blocks: nat, words: seq<Word>, ord: seq<uint32>, ks: seq<uint32>, k0: uint32,
                last: nat, rel: nat, ar0: seq<uint16>, ds0: seq<Desc>, ar: seq<uint16>, ds: seq<Desc>, off: nat)
    requires 0 < blocks < LEN_MODULUS && (first + blocks) * 256 <= |t| && last <= rel < 256 && |ks| == |ord| == blocks
    requires RunOrder(t, first, blocks, rel, ord) && RunKeys(t, rel, ord, ks, true, k0)
    requires |words| == 8 && MaskExact(t, first, blocks, words) && forall c :: last <= c < rel ==> !BitAt(words, c)
    requires off < OFF_LIMIT && RunSlice(ord, ar, off, false)
    requires Extends(ar0, ds0, ar, ds, multiset(NaiveColumns(t, first, blocks, rel + 1)))
    ensures Extends(ar0, ds0, ar, ds + SpanDescs(t, first * 256, last, rel + 1, Pack(off, blocks)),
                    multiset(NaiveColumns(t, first, blocks, last)))
    ensures RunOrder(t, first, blocks, last, ord)
    ensures RunKeys(t, last, ord, ks, true, Key(t, PosOf(first, last)))
  {
    hide Key, IsColumnOrder, NaiveColumns, Extends, IsConstant, SpanDescs, MaskExact, PosOf, BitAt, RunKeys, Pack;
    MaskedSpanIsConstant(t, first, blocks, words, last, rel);
    UniformMeansEqualKeys(t, first, blocks, rel, ord, ks, k0);
    SpanEmitted(t, first, blocks, BlocksOf(ord), ar0, ds0, ar, ds, off, last, rel);
    EqualKeysMeanUniform(t, first, blocks, last, ord, ks, Key(t, PosOf(first, last)));
  }

  /** The scan branch covers exactly the reference's column. */
  lemma ScannedColumn(t: Text, first: nat, blocks: nat, rel: nat, ord: seq<uint32>)
    requires rel < 256 && (first + blocks) * 256 <= |t| && RunOrder(t, first, blocks, rel, ord)
    ensures multiset(NaiveColumns(t, first, blocks, rel))
         == multiset(NaiveColumns(t, first, blocks, rel + 1)) + multiset(GroupsFrom(t, BlocksOf(ord), rel, 0))
  {
    ColumnOrderIsOrder(t, first, blocks, rel);
    ColumnOrderUnique(t, first, blocks, rel, BlocksOf(ord), ColumnOrder(t, first, blocks, rel));
    hide GroupsFrom, ColumnOrder, IsColumnOrder;
  }

  /** One visit of the emission half of the loop: a whole span when the keys are uniform,
      otherwise one scanned column, which may discover that they are. */
  method EmitRunColumns(t: Text, first: nat, blocks: nat, words: seq<Word>, keys: array<uint32>, ghost ord: seq<uint32>,
                        uniform0: bool, k0: uint32, off: nat, rel0: nat, desc: array<Desc>, dl: nat,
                        ghost ar0: seq<uint16>, ghost ds0: seq<Desc>, ghost ar: seq<uint16>)
    returns (ok: bool, dl': nat, rel: nat, uniform: bool, k: uint32)
    requires 0 < blocks <= RUN_MAX && (first + blocks) * 256 <= |t| <= OFF_LIMIT && rel0 < 256
    requires |words| == 8 && MaskExact(t, first, blocks, words)
    requires blocks <= keys.Length && |ord| == blocks && dl + blocks <= desc.Length
    requires RunOrder(t, first, blocks, rel0, ord) && RunKeys(t, rel0, ord, keys[..blocks], uniform0, k0)
    requires RunSlice(ord, ar, off, false) && |ar| <= |t|
    requires Extends(ar0, ds0, ar, desc[..dl], multiset(NaiveColumns(t, first, blocks, rel0 + 1)))
    modifies desc
    ensures !ok ==> dl + rel0 + 1 > desc.Length
    ensures ok ==> rel <= rel0 && dl' <= desc.Length && dl' <= dl + (rel0 - rel + 1) * blocks
    ensures ok ==> Extends(ar0, ds0, ar, desc[..dl'], multiset(NaiveColumns(t, first, blocks, rel)))
    ensures ok ==> RunOrder(t, first, blocks, rel, ord) && RunKeys(t, rel, ord, keys[..blocks], uniform, k)
  {
    hide Key, RunOrder, NaiveColumns, Extends, SpanDescs, MaskExact, RunKeys, Pack, GroupsFrom, KeyAt, BitAt;
    ok, dl', rel, uniform, k := true, dl, rel0, uniform0, k0;
    SliceFacts(ord, ar, off);
    if uniform0 {
      if dl + rel0 + 1 > desc.Length { ok := false; return; }
      rel := UniformSpanStart(words, rel0);
      RunSpan(t, first, blocks, words, ord, keys[..blocks], k0, rel, rel0, ar0, ds0, ar, desc[..dl], off);
      SpanRoom(rel0 - rel + 1, blocks);
      dl' := EmitUniformSpan(desc, dl, t, first * 256, rel, rel0, Pack(off, blocks));
      k := Key32(t, PosOf(first, rel));
    } else {
      RunStarts(t, first, blocks, rel0, ord);
      RunKeysAreKeys(t, rel0, ord, keys[..blocks], k0);
      assert forall x :: 0 <= x < blocks ==> keys[x] == keys[..blocks][x];
      var groups;
      dl', groups := EmitGroups(t, rel0, blocks, keys, off, desc, dl, BlocksOf(ord), ar0, ds0, ar,
                                multiset(NaiveColumns(t, first, blocks, rel0 + 1)));
      ScannedColumn(t, first, blocks, rel0, ord);
      if groups == 1 {
        uniform, k := true, keys[0];
        OneGroupIsUniform(t, rel0, ord, keys[..blocks], k0);
      }
    }
  }

  lemma SliceFacts(ord: seq<uint32>, ar: seq<uint16>, off: nat)
    requires RunSlice(ord, ar, off, false)
    ensures off + |ord| <= |ar| && ar[off..off + |ord|] == BlocksOf(ord)
  {}

  lemma SpanRoom(columns: nat, blocks: nat)
    requires blocks > 0
    ensures columns <= columns * blocks
  {}

  lemma RunStarts(t: Text, first: nat, blocks: nat, rel: nat, ord: seq<uint32>)
    requires RunOrder(t, first, blocks, rel, ord)
    ensures Starts(ord) && |ord| == blocks
    ensures forall x :: 0 <= x < |ord| ==> ord[x] + 256 <= |t|
  {
    forall x | 0 <= x < |ord| ensures ord[x] + 256 <= |t| { assert (BlocksOf(ord)[x] + 1) * 256 <= |t|; }
  }

  lemma OneGroupIsUniform(t: Text, rel: nat, ord: seq<uint32>, ks: seq<uint32>, k0: uint32)
    requires |ks| == |ord| > 0 && RunKeys(t, rel, ord, ks, false, k0)
    requires forall x :: 0 <= x < |ks| ==> ks[x] == ks[0]
    ensures RunKeys(t, rel, ord, ks, true, ks[0])
  {}

  // Prepending one column.

  /** keys slid by one byte per block. */
  ghost predicate SlidBy(t: Text, ord: seq<uint32>, col: nat, ks: seq<uint32>, ks': seq<uint32>)
    requires |ord| == |ks| == |ks'|
  {
    forall x :: 0 <= x < |ks| ==> ord[x] + col < |t| && ks[x] < KEY_MODULUS && ks'[x] == Slide(t[ord[x] + col], ks[x])
  }

  lemma SlidKeysAreTrue(t: Text, rel: nat, ord: seq<uint32>, ks: seq<uint32>, ks': seq<uint32>, k0: uint32)
    requires 0 < rel && |ord| == |ks| == |ks'|
    requires RunKeys(t, rel, ord, ks, false, k0) && SlidBy(t, ord, rel - 1, ks, ks')
    ensures RunKeys(t, rel - 1, ord, ks', false, k0)
  {
    forall x | 0 <= x < |ord| ensures ks'[x] == Key(t, ord[x] + (rel - 1)) { SlideIsExact(t, ord[x] + (rel - 1)); }
  }

  lemma TrueKeysAre24(t: Text, rel: nat, ord: seq<uint32>, ks: seq<uint32>, k0: uint32)
    requires |ord| == |ks| && RunKeys(t, rel, ord, ks, false, k0)
    ensures ColumnStep.Keys24(ks)
  {}

  /** A column that does not vary holds one byte for the whole run. */
  lemma ConstantByte(t: Text, first: nat, blocks: nat, rel: nat, words: seq<Word>, ord: seq<uint32>)
    requires 0 < rel < 256 && 0 < blocks && (first + blocks) * 256 <= |t| && RunOrder(t, first, blocks, rel, ord)
    requires |words| == 8 && MaskExact(t, first, blocks, words) && !BitAt(words, rel - 1)
    ensures IsConstant(t, first, blocks, rel - 1)
    ensures forall x :: 0 <= x < |ord| ==> ord[x] + rel <= |t| && t[ord[x] + (rel - 1)] == t[PosOf(first, rel - 1)]
  {
    hide Less, BitAt;
    var s := BlocksOf(ord);
    forall x | 0 <= x < |ord| ensures ord[x] + rel <= |t| && t[ord[x] + (rel - 1)] == t[PosOf(first, rel - 1)] {
      assert ord[x] + (rel - 1) == PosOf(s[x], rel - 1) && (s[x] + 1) * 256 <= |t|;
    }
  }

  lemma ConstantKeepsRun(t: Text, first: nat, blocks: nat, rel: nat, ord: seq<uint32>)
    requires 0 < rel && (first + blocks) * 256 <= |t|
    requires RunOrder(t, first, blocks, rel, ord) && IsConstant(t, first, blocks, rel - 1)
    ensures RunOrder(t, first, blocks, rel - 1, ord)
  {
    ConstantKeepsOrder(t, first, blocks, rel, BlocksOf(ord));
  }

  lemma ConstantKeepsUniform(t: Text, first: nat, blocks: nat, rel: nat, ord: seq<uint32>, ks: seq<uint32>, k0: uint32)
    requires 0 < rel < 256 && 0 < blocks && (first + blocks) * 256 <= |t| && |ks| == |ord|
    requires RunKeys(t, rel, ord, ks, true, k0)
    requires forall x :: 0 <= x < |ord| ==> ord[x] + rel <= |t| && t[ord[x] + (rel - 1)] == t[PosOf(first, rel - 1)]
    ensures RunKeys(t, rel - 1, ord, ks, true, Slide(t[PosOf(first, rel - 1)], k0))
  {
    forall x | 0 <= x < |ord| ensures Key(t, ord[x] + (rel - 1)) == Slide(t[PosOf(first, rel - 1)], k0) {
      SlideIsExact(t, ord[x] + (rel - 1));
    }
  }

  /** One text byte slides every key of a constant column, four at a time. */
  method SlideConstant(t: Text, keys: array<uint32>, blocks: nat, c: byte, ghost ord: seq<uint32>, ghost col: nat)
    requires blocks <= keys.Length && |ord| == blocks && ColumnStep.Keys24(keys[..blocks])
    requires forall x :: 0 <= x < blocks ==> ord[x] + col < |t| && t[ord[x] + col] == c
    modifies keys
    ensures SlidBy(t, ord, col, old(keys[..blocks]), keys[..blocks])
  {
    ghost var ks := keys[..blocks];
    assert forall x :: 0 <= x < blocks ==> keys[x] == ks[x];
    hide Slide;
    var x := 0;
    while x + 4 <= blocks
      invariant x <= blocks
      invariant forall k :: 0 <= k < x ==> keys[k] == Slide(c, ks[k])
      invariant forall k :: x <= k < blocks ==> keys[k] == ks[k]
    {
      forall k | x <= k < x + 4 { keys[k] := Slide(c, keys[k]); }
      x := x + 4;
    }
    while x < blocks
      invariant x <= blocks
      invariant forall k :: 0 <= k < x ==> keys[k] == Slide(c, ks[k])
      invariant forall k :: x <= k < blocks ==> keys[k] == ks[k]
    {
      keys[x] := Slide(c, keys[x]);
      x := x + 1;
    }
  }

  /** One text byte per block. */
  method SlideColumn(t: Text, keys: array<uint32>, order: array<uint32>, blocks: nat, col: nat)
    requires keys != order && blocks <= keys.Length && blocks <= order.Length && ColumnStep.Keys24(keys[..blocks])
    requires forall x :: 0 <= x < blocks ==> order[x] + col < |t|
    modifies keys
    ensures SlidBy(t, order[..blocks], col, old(keys[..blocks]), keys[..blocks])
  {
    ghost var ks := keys[..blocks];
    assert forall x :: 0 <= x < blocks ==> keys[x] == ks[x];
    hide Slide;
    var x := 0;
    while x + 4 <= blocks
      invariant x <= blocks
      invariant forall k :: 0 <= k < x ==> keys[k] == Slide(t[order[k] + col], ks[k])
      invariant forall k :: x <= k < blocks ==> keys[k] == ks[k]
    {
      forall k | x <= k < x + 4 { keys[k] := Slide(t[order[k] + col], keys[k]); }
      x := x + 4;
    }
    while x < blocks
      invariant x <= blocks
      invariant forall k :: 0 <= k < x ==> keys[k] == Slide(t[order[k] + col], ks[k])
      invariant forall k :: x <= k < blocks ==> keys[k] == ks[k]
    {
      keys[x] := Slide(t[order[x] + col], keys[x]);
      x := x + 1;
    }
  }

  /** Before a column that has to read per block, the register goes back into the array. */
  method RestoreKeys(t: Text, rel: nat, keys: array<uint32>, blocks: nat, k0: uint32, ghost ord: seq<uint32>)
    requires blocks <= keys.Length && |ord| == blocks && RunKeys(t, rel, ord, keys[..blocks], true, k0)
    modifies keys
    ensures RunKeys(t, rel, ord, keys[..blocks], false, k0)
  {
    hide Key;
    for y := 0 to blocks
      invariant forall k :: 0 <= k < y ==> keys[k] == k0
    {
      keys[y] := k0;
    }
  }

  /** The stable re-sort takes the run from one column to the next. */
  lemma StepRun(t: Text, first: nat, blocks: nat, rel: nat, ord: seq<uint32>, ks: seq<uint32>,
                ord': seq<uint32>, ks': seq<uint32>, k0: uint32)
    requires 0 < rel < 256 && (first + blocks) * 256 <= |t| && |ord| == |ks| == |ord'| == |ks'|
    requires RunOrder(t, first, blocks, rel, ord) && RunKeys(t, rel - 1, ord, ks, false, k0)
    requires ColumnStep.Moved(ord, ks, ord', ks')
    ensures RunOrder(t, first, blocks, rel - 1, ord') && RunKeys(t, rel - 1, ord', ks', false, k0)
  {
    var s, s' := BlocksOf(ord), BlocksOf(ord');
    var tops := ColumnStep.Tops(ks);
    var q :| IsDestination(tops, q) && Placed(q, ord, ord') && Placed(q, ks, ks');
    TopsArePrepended(t, first, blocks, rel, ord, ks, k0);
    hide IsColumnOrder, IsDestination, Key;
    assert StableSort(tops, s, s') by { assert Placed(q, s, s'); }
    StableStepKeepsOrder(t, first, blocks, rel, s, s');
    DestinationDistinct(tops, q);
    forall i | 0 <= i < |ord'|
      ensures ord'[i] % 256 == 0 && ks'[i] == Key(t, ord'[i] + (rel - 1))
    {
      var x := DistinctIsOnto(q, i);
    }
  }

  lemma TopsArePrepended(t: Text, first: nat, blocks: nat, rel: nat, ord: seq<uint32>, ks: seq<uint32>, k0: uint32)
    requires 0 < rel < 256 && (first + blocks) * 256 <= |t| && |ord| == |ks|
    requires RunOrder(t, first, blocks, rel, ord) && RunKeys(t, rel - 1, ord, ks, false, k0)
    ensures BlocksInside(t, BlocksOf(ord))
    ensures ColumnStep.Tops(ks) == PrependedBytes(t, BlocksOf(ord), rel - 1)
  {
    hide Less;
    var s := BlocksOf(ord);
    forall x | 0 <= x < |ord| ensures ks[x] / 0x1_0000 == t[PosOf(s[x], rel - 1)] {
      assert ord[x] + (rel - 1) == PosOf(s[x], rel - 1) && (s[x] + 1) * 256 <= |t|;
    }
  }

  /** The prepend half of the loop. */
  method PrependColumn(t: Text, first: nat, blocks: nat, words: seq<Word>, order: array<uint32>, keys: array<uint32>,
                       tmp: array<uint32>, rel: nat, uniform0: bool, k0: uint32)
    returns (uniform: bool, k: uint32, awDirty: bool)
    requires order != keys && order != tmp && keys != tmp
    requires 0 < blocks <= RUN_MAX && blocks <= order.Length && blocks <= keys.Length && blocks <= tmp.Length
    requires (first + blocks) * 256 <= |t| && 0 < rel < 256
    requires |words| == 8 && MaskExact(t, first, blocks, words)
    requires RunOrder(t, first, blocks, rel, order[..blocks])
             && RunKeys(t, rel, order[..blocks], keys[..blocks], uniform0, k0)
    modifies order, keys, tmp
    ensures RunOrder(t, first, blocks, rel - 1, order[..blocks])
    ensures RunKeys(t, rel - 1, order[..blocks], keys[..blocks], uniform, k)
    ensures !awDirty ==> order[..blocks] == old(order[..blocks])
  {
    hide RunOrder, RunKeys, MaskExact, Key, BitAt, Slide, SlidBy, PosOf;
    uniform, k, awDirty := uniform0, k0, false;
    ghost var ord := order[..blocks];
    var col := rel - 1;
    RunStarts(t, first, blocks, rel, ord);
    KeyRegister(t, rel, ord, keys[..blocks], uniform, k);
    if !BitAt(words, col) {
      ConstantByte(t, first, blocks, rel, words, ord);
      ConstantKeepsRun(t, first, blocks, rel, ord);
      InBlock(t, first, blocks, col);
      var c := t[PosOf(first, col)];
      if uniform {
        ConstantKeepsUniform(t, first, blocks, rel, ord, keys[..blocks], k);
        k := Slide(c, k);
        return;
      }
      TrueKeysAre24(t, rel, ord, keys[..blocks], k);
      ghost var ks := keys[..blocks];
      SlideConstant(t, keys, blocks, c, ord, col);
      SlidKeysAreTrue(t, rel, ord, ks, keys[..blocks], k);
      return;
    }
    if uniform {
      RestoreKeys(t, rel, keys, blocks, k, ord);
      uniform := false;
    }
    TrueKeysAre24(t, rel, ord, keys[..blocks], k);
    ghost var ks := keys[..blocks];
    assert forall x :: 0 <= x < blocks ==> order[x] == ord[x];
    SlideColumn(t, keys, order, blocks, col);
    SlidKeysAreTrue(t, rel, ord, ks, keys[..blocks], k);
    ks := keys[..blocks];
    TrueKeysAre24(t, col, ord, ks, k);
    ColumnStep.ColumnStepKeys(order, keys, tmp, blocks);
    StepRun(t, first, blocks, rel, ord, ks, order[..blocks], keys[..blocks], k);
    awDirty := true;
  }

  lemma KeyRegister(t: Text, rel: nat, ord: seq<uint32>, ks: seq<uint32>, uniform: bool, k0: uint32)
    requires |ks| == |ord| && RunKeys(t, rel, ord, ks, uniform, k0)
    ensures k0 < KEY_MODULUS
  {}

  lemma InBlock(t: Text, first: nat, blocks: nat, col: nat)
    requires 0 < blocks && (first + blocks) * 256 <= |t| && col < 256
    ensures PosOf(first, col) < |t|
  {}

  // The whole run.

  /** One key per block at the last column, and whether they all agree. */
  method SeedKeys(t: Text, order: array<uint32>, keys: array<uint32>, blocks: nat) returns (uniform: bool, k0: uint32)
    requires order != keys && 0 < blocks <= order.Length && blocks <= keys.Length
    modifies keys
    ensures RunKeys(t, 255, order[..blocks], keys[..blocks], uniform, k0)
  {
    hide Key;
    for i := 0 to blocks
      invariant forall x :: 0 <= x < i ==> keys[x] == Key(t, order[x] as nat + 255)
    {
      keys[i] := Key32(t, order[i] as nat + 255);
    }
    k0, uniform := keys[0], true;
    for i := 1 to blocks
      invariant uniform && forall x :: 0 <= x < i ==> keys[x] == k0
    {
      if keys[i] != k0 { uniform := false; break; }
    }
  }

  method WriteRun(t: Text, first: nat, blocks: nat, rel: nat, arena: array<uint16>, al: nat, order: array<uint32>,
                  awOff: nat, awDirty: bool,
                  ghost ar0: seq<uint16>, ghost ds0: seq<Desc>, ghost ds: seq<Desc>, ghost added: multiset<Group>)
    returns (al': nat, off: nat)
    requires blocks <= order.Length && al + blocks <= arena.Length && |t| <= OFF_LIMIT
    requires RunOrder(t, first, blocks, rel, order[..blocks])
    requires RunSlice(order[..blocks], arena[..al], awOff, awDirty)
    requires Extends(ar0, ds0, arena[..al], ds, added)
    modifies arena
    ensures al <= al' <= al + blocks && RunSlice(order[..blocks], arena[..al'], off, false)
    ensures Extends(ar0, ds0, arena[..al'], ds, added)
  {
    hide RunOrder, RunSlice, Extends;
    al', off := al, awOff;
    if awDirty {
      RunStarts(t, first, blocks, rel, order[..blocks]);
      assert forall x :: 0 <= x < blocks ==> order[x] == order[..blocks][x];
      ghost var ar := arena[..al];
      off, al' := al, al + blocks;
      WriteOrder(arena, al, order, blocks);
      ghost var more := arena[al..al'];
      assert arena[..al'] == ar + more;
      SlicesOf(ar0, ds0, ar, ds, added);
      ExtendsArena(ar, ds, more);
      ExtendsTransitive(ar0, ds0, ar, ds, added, ar + more, ds, multiset{});
      assert added + multiset{} == added;
      FreshSlice(order[..blocks], ar, more);
    }
  }

  lemma FreshSlice(ord: seq<uint32>, ar: seq<uint16>, more: seq<uint16>)
    requires more == BlocksOf(ord)
    ensures RunSlice(ord, ar + more, |ar|, false)
  {
    assert (ar + more)[|ar|..|ar| + |ord|] == more;
  }

  lemma DirtyRunIsFine(ord: seq<uint32>, ar: seq<uint16>)
    ensures forall off :: RunSlice(ord, ar, off, true)
  {}

  /** Capacity left for the columns still to come. */
  lemma RoomLeft(blocks: nat, rel: nat, rel': nat)
    requires rel' <= rel
    ensures (rel + 1) * blocks == (rel - rel' + 1) * blocks + rel' * blocks
    ensures (rel + 1) * blocks >= blocks && rel' * blocks <= rel * blocks
    ensures blocks > 0 ==> rel + 1 <= (rel + 1) * blocks
  {}

  /** Three blocks or more. A refusal means the descriptors would not all have fitted. */
  method EmitManyBlocks(t: Text, first: nat, blocks: nat, words: seq<Word>, arena: array<uint16>, al0: nat,
                        desc: array<Desc>, dl0: nat, order: array<uint32>, order2: array<uint32>)
    returns (ok: bool, al: nat, dl: nat)
    requires Room(t, first, blocks, arena, al0, desc, dl0) && SlicesInside(desc[..dl0], al0)
    requires blocks <= RUN_MAX && |words| == 8 && MaskExact(t, first, blocks, words)
    requires order != order2 && blocks <= order.Length && blocks <= order2.Length
    modifies arena, desc, order, order2
    ensures !ok ==> dl0 + 256 * blocks > desc.Length
    ensures ok ==> al <= arena.Length && dl <= desc.Length && al <= al0 + 256 * blocks && dl <= dl0 + 256 * blocks
    ensures ok ==> Extends(old(arena[..al0]), old(desc[..dl0]), arena[..al], desc[..dl],
                           multiset(NaiveColumns(t, first, blocks, 0)))
  {
    hide Key, RunOrder, NaiveColumns, Extends, MaskExact, RunKeys, RunSlice;
    ok, al, dl := true, al0, dl0;
    ghost var ar0, ds0 := arena[..al0], desc[..dl0];
    SeedOrder(t, first, blocks, order);
    var keys := new uint32[RUN_MAX];
    var uniform, k0 := SeedKeys(t, order, keys, blocks);
    assert arena[..al] == ar0 && desc[..dl] == ds0;
    ExtendsNothing(ar0, ds0);
    NoColumnsYet(t, first, blocks);
    var awOff, awDirty := 0, true;
    DirtyRunIsFine(order[..blocks], ar0);
    var rel: nat := 255;
    while true
      invariant ok && rel < 256
      invariant al + (rel + 1) * blocks <= al0 + 256 * blocks
      invariant dl + (rel + 1) * blocks <= dl0 + 256 * blocks && dl <= desc.Length
      invariant RunOrder(t, first, blocks, rel, order[..blocks])
      invariant RunKeys(t, rel, order[..blocks], keys[..blocks], uniform, k0)
      invariant RunSlice(order[..blocks], arena[..al], awOff, awDirty)
      invariant Extends(ar0, ds0, arena[..al], desc[..dl], multiset(NaiveColumns(t, first, blocks, rel + 1)))
      decreases rel
    {
      RoomLeft(blocks, rel, 0);
      if dl + blocks > desc.Length { ok := false; return; }
      al, awOff := WriteRun(t, first, blocks, rel, arena, al, order, awOff, awDirty, ar0, ds0, desc[..dl],
                            multiset(NaiveColumns(t, first, blocks, rel + 1)));
      awDirty := false;
      ghost var rel0 := rel;
      ok, dl, rel, uniform, k0 :=
        EmitRunColumns(t, first, blocks, words, keys, order[..blocks], uniform, k0, awOff, rel,
                       desc, dl, ar0, ds0, arena[..al]);
      if !ok { return; }
      RoomLeft(blocks, rel0, rel);
      if rel == 0 { return; }
      ghost var ord := order[..blocks];
      uniform, k0, awDirty := PrependColumn(t, first, blocks, words, order, keys, order2, rel, uniform, k0);
      DirtyRunIsFine(order[..blocks], arena[..al]);
      rel := rel - 1;
    }
  }
}
