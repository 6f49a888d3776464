/** dsa_descriptor_suffix_array of native/descriptor.c, end to end. */
module DescriptorSort {
  import opened MachineTypes
  import opened SuffixOrder
  import opened Keys
  import opened StableOrder
  import opened Permutations
  import opened Descriptors
  import opened NaiveWalk
  import opened NaiveCoverage
  import opened RunMasks
  import opened Emission
  import opened Arrays
  import opened ShortRuns
  import opened LongRuns
  import opened RadixSort
  import opened KeyGroups
  import opened Gathering
  import opened WriteOut
  import opened ScratchSpace

  /** emit_run: the block count picks the path; all three emit the reference's lists. */
  method EmitRun(t: Text, first: nat, blocks: nat, words: seq<Word>, s: Scratch, al: nat, dl: nat)
    returns (ok: bool, al': nat, dl': nat)
    requires s.Valid() && Room(t, first, blocks, s.arena, al, s.desc, dl) && SlicesInside(s.desc[..dl], al)
    requires blocks <= RUN_MAX && |words| == 8 && MaskExact(t, first, blocks, words)
    modifies s.arena, s.desc, s.order, s.order2
    ensures !ok ==> dl + 256 * blocks > s.desc.Length
    ensures ok ==> al' <= s.arena.Length && dl' <= s.desc.Length && al' <= al + 256 * blocks && dl' <= dl + 256 * blocks
    ensures ok ==> Extends(old(s.arena[..al]), old(s.desc[..dl]), s.arena[..al'], s.desc[..dl'],
                           multiset(NaiveColumns(t, first, blocks, 0)))
  {
    hide MaskExact, Extends, NaiveColumns;
    if blocks == 1 {
      ok, al', dl' := EmitOneBlock(t, first, s.arena, al, s.desc, dl);
    } else if blocks == 2 {
      ok, al', dl' := EmitTwoBlocks(t, first, words, s.arena, al, s.desc, dl);
    } else {
      ok, al', dl' := EmitManyBlocks(t, first, blocks, words, s.arena, al, s.desc, dl, s.order, s.order2);
    }
  }

  /** The runs so far partition the first g blocks into pieces of at most RUN_MAX. */
  ghost predicate RunsUpTo(lens: seq<nat>, g: nat) {
    && Sum(lens) == g
    && forall i :: 0 <= i < |lens| ==> 1 <= lens[i] <= RUN_MAX
  }

  lemma OneMoreRun(t: Text, lens: seq<nat>, g: nat, len: nat,
                   ar: seq<uint16>, ds: seq<Desc>, ar': seq<uint16>, ds': seq<Desc>)
    requires RunsUpTo(lens, g) && 1 <= len <= RUN_MAX && (g + len) * 256 <= |t|
    requires Extends([], [], ar, ds, multiset(NaiveRuns(t, lens)))
    requires Extends(ar, ds, ar', ds', multiset(NaiveColumns(t, g, len, 0)))
    ensures RunsUpTo(lens + [len], g + len)
    ensures Extends([], [], ar', ds', multiset(NaiveRuns(t, lens + [len])))
  {
    hide Extends, NaiveColumns;
    assert (lens + [len])[..|lens|] == lens;
    ExtendsTransitive([], [], ar, ds, multiset(NaiveRuns(t, lens)), ar', ds', multiset(NaiveColumns(t, g, len, 0)));
  }

  /** One descriptor per suffix past the last whole block, last suffix first, the key slid along. */
  method EmitTail(t: Text, tail: nat, s: Scratch, al0: nat, dl0: nat, ghost before: multiset<Group>)
    returns (al: nat, dl: nat)
    requires s.Valid() && tail <= |t| <= OFF_LIMIT && s.arena.Length >= |t| + 16 && al0 <= tail
    requires dl0 + (|t| - tail) <= s.desc.Length
    requires Extends([], [], s.arena[..al0], s.desc[..dl0], before)
    modifies s.arena, s.desc
    ensures al == al0 + (|t| - tail) && dl == dl0 + (|t| - tail)
    ensures Extends([], [], s.arena[..al], s.desc[..dl], before + multiset(NaiveTail(t, tail)))
  {
    hide Key, Extends, NaiveTail, KeyRel, Pack, Slide;
    al, dl := al0, dl0;
    NoTailYet(t);
    assert before + multiset{} == before;
    if tail == |t| { return; }
    var key := Key32(t, |t| - 1);
    var p := |t|;
    while p > tail
      invariant tail <= p <= |t| && al == al0 + (|t| - p) && dl == dl0 + (|t| - p)
      invariant p > tail ==> key == Key(t, p - 1)
      invariant Extends([], [], s.arena[..al], s.desc[..dl], before + multiset(NaiveTail(t, p)))
    {
      p := p - 1;
      TailOne(t, p, s.arena[..al], s.desc[..dl], before);
      Append(s.desc, dl, Desc(KeyRel(key, p % 256), Pack(al, 1)));
      Append(s.arena, al, p / 256);
      al, dl := al + 1, dl + 1;
      if p != tail {
        SlideIsExact(t, p - 1);
        key := Slide(t[p - 1], key);
      }
    }
  }

  lemma NoTailYet(t: Text)
    ensures NaiveTail(t, |t|) == []
  {}

  lemma TailOne(t: Text, p: nat, ar: seq<uint16>, ds: seq<Desc>, before: multiset<Group>)
    requires p < |t| <= OFF_LIMIT && |ar| < OFF_LIMIT
    requires Extends([], [], ar, ds, before + multiset(NaiveTail(t, p + 1)))
    ensures Extends([], [], ar + [p / 256], ds + [Desc(KeyRel(Key(t, p), p % 256), Pack(|ar|, 1))],
                    before + multiset(NaiveTail(t, p)))
  {
    hide Key, Extends, KeyRel, Pack;
    var added := before + multiset(NaiveTail(t, p + 1));
    SlicesOf([], [], ar, ds, added);
    ExtendsArena(ar, ds, [p / 256]);
    ExtendsTransitive([], [], ar, ds, added, ar + [p / 256], ds, multiset{});
    assert added + multiset{} == added;
    ExtendsGroup([], [], ar + [p / 256], ds, added, Key(t, p), p % 256, |ar|, 1);
    assert (ar + [p / 256])[|ar|..|ar| + 1] == [p / 256];
    var g := Group(Key(t, p), p % 256, [p / 256]);
    assert NaiveTail(t, p) == NaiveTail(t, p + 1) + [g];
    assert added + multiset{g} == before + multiset(NaiveTail(t, p));
  }

  // Choosing the runs.

  /** A partition of the whole blocks that a walk may be asked to use. */
  ghost predicate Usable(t: Text, cuts: Cuts) {
    cuts.Given? ==> RunsUpTo(cuts.lens, |t| / 256)
  }

  /** The runs so far are those the cuts prescribe. */
  ghost predicate Follows(t: Text, cuts: Cuts, lens: seq<nat>) {
    match cuts
    case Discovered => forall i :: 0 <= i < |lens| ==> IsRun(t, Sum(lens[..i]), |t| / 256, lens[i])
    case Given(given) => lens <= given
  }

  /** A finished walk: the runs are the prescribed ones, and the arena and the descriptors stand for
      the reference's lists over them. */
  ghost predicate Walked(t: Text, cuts: Cuts, lens: seq<nat>, ar: seq<uint16>, ds: seq<Desc>) {
    && RunsUpTo(lens, |t| / 256)
    && Follows(t, cuts, lens) && (cuts.Given? ==> lens == cuts.lens)
    && Extends([], [], ar, ds, multiset(Naive(t, lens)))
  }

  lemma {:induction false} SumOfPrefix(lens: seq<nat>, i: nat)
    requires i <= |lens|
    ensures Sum(lens[..i]) <= Sum(lens)
    decreases |lens|
  {
    if i < |lens| {
      var n := |lens| - 1;
      assert lens[..n][..i] == lens[..i];
      SumOfPrefix(lens[..n], i);
    } else {
      assert lens[..i] == lens;
    }
  }

  /** While blocks are left there is a prescribed run, and it fits. */
  lemma NextGiven(lens: seq<nat>, i: nat, full: nat)
    requires RunsUpTo(lens, full) && i <= |lens| && Sum(lens[..i]) < full
    ensures i < |lens| && 1 <= lens[i] <= RUN_MAX && Sum(lens[..i]) + lens[i] <= full
  {
    assert lens[..|lens|] == lens;
    if i < |lens| {
      assert lens[..i + 1][..i] == lens[..i];
      SumOfPrefix(lens, i + 1);
    }
  }

  /** When no block is left every prescribed run was used. */
  lemma AllGiven(lens: seq<nat>, i: nat, full: nat)
    requires RunsUpTo(lens, full) && i <= |lens| && Sum(lens[..i]) == full
    ensures lens[..i] == lens
  {
    if i < |lens| {
      assert lens[..i + 1][..i] == lens[..i];
      SumOfPrefix(lens, i + 1);
    }
  }

  /** The run that starts at block g, and its bitmap. */
  method SelectRun(t: Text, cuts: Cuts, i: nat, g: nat, ghost lens: seq<nat>) returns (len: nat, words: seq<Word>)
    requires Usable(t, cuts) && Follows(t, cuts, lens) && |lens| == i && Sum(lens) == g < |t| / 256
    ensures 1 <= len <= RUN_MAX && g + len <= |t| / 256
    ensures |words| == 8 && MaskExact(t, g, len, words)
    ensures Follows(t, cuts, lens + [len])
  {
    hide MaskExact, DiffCount, Sum;
    match cuts
    case Discovered =>
      len, words := NextRun(t, g, |t| / 256);
      assert forall k :: 0 <= k <= i ==> (lens + [len])[..k] == lens[..k];
      assert lens[..i] == lens;
      MaskWords(t, g, len, words);
    case Given(given) =>
      assert given[..i] == lens;
      NextGiven(given, i, |t| / 256);
      len := given[i];
      words := CutRun(t, g, len);
      MaskWords(t, g, len, words);
  }

  /** Both loops of the walk, over the runs the cuts prescribe; the source discovers its runs. A
      refusal means that fewer descriptors fit than the text has bytes. */
  method Walk(t: Text, cuts: Cuts, s: Scratch) returns (ok: bool, al: nat, dl: nat, ghost lens: seq<nat>)
    requires s.Valid() && 0 < |t| <= OFF_LIMIT && s.cap >= |t| && Usable(t, cuts)
    modifies s.arena, s.desc, s.order, s.order2
    ensures !ok ==> s.desc.Length < |t|
    ensures ok ==> al <= |t| && dl <= |t| && dl <= s.desc.Length
    ensures ok ==> Walked(t, cuts, lens, s.arena[..al], s.desc[..dl])
  {
    hide Extends, NaiveColumns, NaiveRuns, NaiveTail, MaskExact, RunsUpTo, IsRun;
    var full := |t| / 256;
    var g, i: nat := 0, 0;
    al, dl, lens, ok := 0, 0, [], true;
    WalkStart(t);
    assert s.arena[..0] == [] && s.desc[..0] == [];
    while g < full
      invariant ok && g <= full && al <= g * 256 && dl <= g * 256 && dl <= s.desc.Length && |lens| == i
      invariant RunsUpTo(lens, g) && Sum(lens) == g && Follows(t, cuts, lens)
      invariant Extends([], [], s.arena[..al], s.desc[..dl], multiset(NaiveRuns(t, lens)))
    {
      var len, words := SelectRun(t, cuts, i, g, lens);
      SlicesOf([], [], s.arena[..al], s.desc[..dl], multiset(NaiveRuns(t, lens)));
      ghost var ar, ds := s.arena[..al], s.desc[..dl];
      ok, al, dl := EmitRun(t, g, len, words, s, al, dl);
      if !ok { return; }
      OneMoreRun(t, lens, g, len, ar, ds, s.arena[..al], s.desc[..dl]);
      RunsSum(lens + [len], g + len);
      lens := lens + [len];
      g, i := g + len, i + 1;
    }
    FollowedToTheEnd(t, cuts, lens);
    if dl + (|t| - full * 256) > s.desc.Length { ok := false; return; }
    al, dl := EmitTail(t, full * 256, s, al, dl, multiset(NaiveRuns(t, lens)));
    assert multiset(Naive(t, lens)) == multiset(NaiveRuns(t, lens)) + multiset(NaiveTail(t, full * 256));
  }

  lemma FollowedToTheEnd(t: Text, cuts: Cuts, lens: seq<nat>)
    requires Usable(t, cuts) && Follows(t, cuts, lens) && Sum(lens) == |t| / 256
    ensures cuts.Given? ==> lens == cuts.lens
  {
    if cuts.Given? {
      assert cuts.lens[..|lens|] == lens;
      AllGiven(cuts.lens, |lens|, |t| / 256);
    }
  }

  lemma WalkStart(t: Text)
    ensures RunsUpTo([], 0) && NaiveRuns(t, []) == [] && Sum([]) == 0
    ensures Extends([], [], [], [], multiset{})
  {
    ExtendsNothing([], []);
  }

  lemma MaskWords(t: Text, g: nat, len: nat, words: seq<Word>)
    requires MaskExact(t, g, len, words)
    ensures |words| == 8
  {}

  lemma RunsSum(lens: seq<nat>, g: nat)
    requires RunsUpTo(lens, g)
    ensures Sum(lens) == g
  {}

  // After the walk.

  /** Sorting the descriptors permutes the lists they stand for. */
  lemma {:induction false} ExpandPermutes(ar: seq<uint16>, ds: seq<Desc>, es: seq<Desc>)
    requires multiset(ds) == multiset(es) && SlicesInside(ds, |ar|)
    ensures SlicesInside(es, |ar|)
    ensures multiset(ExpandAll(ar, ds)) == multiset(ExpandAll(ar, es))
    decreases |ds|
  {
    SameMembers(ds, es);
    forall i | 0 <= i < |es| ensures SliceInside(es[i], |ar|) { assert es[i] in ds; }
    if ds != [] {
      hide SliceInside, Expand;
      var n := |ds| - 1;
      var p := FindLast(ds, es);
      var rest := Without(es, p);
      ExpandPermutes(ar, ds[..n], rest);
      assert ExpandAll(ar, ds) == ExpandAll(ar, ds[..n]) + [Expand(ar, ds[n])];
      var gs := ExpandAll(ar, es);
      assert Without(gs, p) == ExpandAll(ar, rest);
      WithoutMultiset(gs, p);
      assert gs[p] == Expand(ar, ds[n]);
    }
  }

  /** The sorted descriptors of a finished walk are everything the merge phase relies on. */
  lemma SortedWalkIsSortable(t: Text, lens: seq<nat>, ar: seq<uint16>, ds: seq<Desc>, es: seq<Desc>)
    requires |t| <= OFF_LIMIT && Sum(lens) == |t| / 256
    requires Extends([], [], ar, ds, multiset(Naive(t, lens)))
    requires StableSort(KeysOf(ds), ds, es)
    ensures SlicesInside(es, |ar|)
    ensures Described(t, ar, es, ExpandAll(ar, es)) && Sortable(t, ExpandAll(ar, es))
  {
    hide Naive, GroupOk, Covers, Flatten, KeysOf, StableSort;
    SortedByKey(ds, es);
    assert ds[0..] == ds;
    ExpandPermutes(ar, ds, es);
    var gs, naive := ExpandAll(ar, es), Naive(t, lens);
    NaiveCoversText(t, lens);
    FlattenPermutes(gs, naive);
    SameMembers(gs, naive);
    forall i | 0 <= i < |gs| ensures GroupOk(t, gs[i]) {
      assert gs[i] in naive;
    }
    forall i, j | 0 <= i < j < |gs| ensures gs[i].key <= gs[j].key {
      assert KeyOf(es[i]) <= KeyOf(es[j]);
    }
  }

  function DescBound(n: nat): nat { n + 256 + 8 }

  /** One thread's sorter; the scratch survives from call to call and grows when it has to. */
  class Sorter {
    var scratch: Scratch?

    constructor ()
      ensures scratch == null
    {
      scratch := null;
    }

    ghost predicate Valid()
      reads this
    {
      scratch != null ==> scratch.Valid()
    }

    /** Everything a call may write besides the result. */
    ghost function Repr(): set<object>
      reads this
    {
      {this as object} + (if scratch != null then scratch.Repr() else {})
    }

    /** scratch_get: keep the scratch when it is large enough, otherwise replace it. */
    method ScratchGet(n: nat, wantDesc: nat) returns (s: Scratch)
      requires Valid()
      modifies this
      ensures Valid() && scratch == s && s.Valid() && s.cap >= n && s.desc.Length >= wantDesc
      ensures s == old(scratch) || fresh(s.Repr())
    {
      if scratch != null && scratch.cap >= n && scratch.desc.Length >= wantDesc {
        s := scratch;
      } else {
        s := new Scratch(n, wantDesc);
        scratch := s;
      }
    }

    /** Walk the text, growing the descriptor buffer to its full bound on a refusal. A walk over
        that bound is never refused, so one retry is enough and -3 is not returned. */
    method WalkGrowing(t: Text, cuts: Cuts)
      returns (s: Scratch, rc: int, al: nat, dl: nat, ghost lens: seq<nat>, ghost retries: nat)
      requires Valid() && 0 < |t| <= OFF_LIMIT && Usable(t, cuts)
      modifies Repr()
      ensures Valid() && scratch == s && s.Valid() && s.cap >= |t|
      ensures s == old(scratch) || fresh(s.Repr())
      ensures rc == 0 && retries <= 1
      ensures al <= |t| && dl <= s.desc.Length && dl <= |t|
      ensures Walked(t, cuts, lens, s.arena[..al], s.desc[..dl])
    {
      hide Walked, Usable;
      rc, retries := 0, 0;
      s := ScratchGet(|t|, |t| / 2 + 256 + 8);
      var ok;
      ok, al, dl, lens := Walk(t, cuts, s);
      while !ok
        invariant Valid() && scratch == s && s.Valid() && s.cap >= |t| && rc == 0
        invariant s == old(scratch) || fresh(s.Repr())
        invariant retries <= 1 && (retries == 1 ==> s.desc.Length >= DescBound(|t|))
        invariant !ok ==> s.desc.Length < |t|
        invariant ok ==> al <= |t| && dl <= s.desc.Length && dl <= |t|
        invariant ok ==> Walked(t, cuts, lens, s.arena[..al], s.desc[..dl])
        decreases 1 - retries
      {
        if s.desc.Length >= DescBound(|t|) { rc := -3; return; }
        s := ScratchGet(|t|, DescBound(|t|));
        retries := retries + 1;
        ok, al, dl, lens := Walk(t, cuts, s);
      }
    }

    /** The whole sort, for any way to cut the blocks into runs. For 0 < n <= 2^20 it either leaves
        the suffix array or answers -6, and -6 means exactly that some padded three-byte key occurs
        more than 4,096 times; the codes for bookkeeping that does not add up are never returned,
        the walk is redone at most once, and nothing behind sa[n] is written. */
    method DescriptorSuffixArray(t: Text, cuts: Cuts, sa: array<int32>)
      returns (rc: int, ghost r: seq<nat>, ghost retries: nat)
      requires Valid() && |t| <= 0x10_0000 && sa.Length >= |t| && sa !in Repr() && Usable(t, cuts)
      modifies Repr(), sa
      ensures Valid()
      ensures |t| == 0 ==> rc == -1
      ensures |t| > 0 ==> rc == 0 || rc == -6
      ensures |t| > 0 ==> (rc == -6 <==> KeyOverflows(t))
      ensures rc == 0 ==> sa[..|t|] == r && IsSuffixArray(t, r)
      ensures sa[|t|..] == old(sa[|t|..])
      ensures retries <= 1
      ensures scratch == old(scratch) || (scratch != null && fresh(scratch.Repr()))
    {
      hide KeyOverflows, IsSuffixArray, Walked, Usable;
      retries, r := 0, [];
      if |t| == 0 { return -1, r, 0; }
      var s, al, dl;
      ghost var lens;
      s, rc, al, dl, lens, retries := WalkGrowing(t, cuts);
      if rc != 0 { return; }
      rc, r := SortWalked(t, cuts, s, al, dl, sa, lens);
    }
  }

  /** Radix sort and merge a finished walk. */
  method SortWalked(t: Text, ghost cuts: Cuts, s: Scratch, al: nat, dl: nat, sa: array<int32>, ghost lens: seq<nat>)
    returns (rc: int, ghost r: seq<nat>)
    requires s.Valid() && 0 < |t| <= OFF_LIMIT && s.cap >= |t| && sa.Length >= |t|
    requires al <= |t| && dl <= s.desc.Length && dl <= |t|
    requires Walked(t, cuts, lens, s.arena[..al], s.desc[..dl])
    modifies s.desc, s.desc2, sa, s.merge, s.merge2, s.mkey, s.mkey2, s.bnd, s.bnd2
    ensures rc == 0 || rc == -6
    ensures rc == -6 <==> KeyOverflows(t)
    ensures rc == 0 ==> sa[..|t|] == r && IsSuffixArray(t, r)
    ensures sa[|t|..] == old(sa[|t|..])
  {
    hide KeyOverflows, IsSuffixArray, Extends, Naive, StableSort, Sortable, Described, KeysOf, RunsUpTo;
    if al > |t| { return -4, []; }
    ghost var ar, ds := s.arena[..al], s.desc[..dl];
    var sorted := SortDesc(s.desc, s.desc2, dl);
    RunsSum(lens, |t| / 256);
    SortedWalkIsSortable(t, lens, ar, ds, s.desc[..dl]);
    rc, r := WriteSuffixes(true, t, s, al, dl, sa, ExpandAll(ar, s.desc[..dl]));
  }
}
