/** Neither how the blocks are cut into runs, nor which collision route sorts a key group, can be
    seen in the result. */
module RunIndependence {
  import opened MachineTypes
  import opened SuffixOrder
  import opened NaiveWalk
  import opened Permutations
  import opened WriteOut
  import opened RunMasks
  import opened DescriptorSort

  /** The code run over any two partitions of the blocks answers the same and, on 0, leaves the same
      array; the partition the source discovers is one of them. */
  method RunBoundariesDoNotMatter(t: Text, sorter: Sorter, cuts: Cuts, sa: array<int32>, cuts': Cuts, sa': array<int32>)
    returns (rc: int, rc': int)
    requires sorter.Valid() && |t| <= 0x10_0000
    requires cuts.Given? ==>
      Sum(cuts.lens) == |t| / 256 && forall i :: 0 <= i < |cuts.lens| ==> 1 <= cuts.lens[i] <= 512
    requires cuts'.Given? ==>
      Sum(cuts'.lens) == |t| / 256 && forall i :: 0 <= i < |cuts'.lens| ==> 1 <= cuts'.lens[i] <= 512
    requires sa != sa' && sa !in sorter.Repr() && sa' !in sorter.Repr() && sa.Length >= |t| && sa'.Length >= |t|
    modifies sorter.Repr(), sa, sa'
    ensures rc == rc'
    ensures rc == 0 ==> sa[..|t|] == sa'[..|t|]
  {
    hide IsSuffixArray, KeyOverflows;
    assert Usable(t, cuts) && Usable(t, cuts');
    ghost var r, r', retries, retries';
    rc, r, retries := sorter.DescriptorSuffixArray(t, cuts, sa);
    rc', r', retries' := sorter.DescriptorSuffixArray(t, cuts', sa');
    if rc == 0 { SuffixArrayUnique(t, r, r'); }
  }

  lemma SameHead(t: Text, r: seq<nat>, s: seq<nat>)
    requires InText(t, r) && InText(t, s) && Sorted(t, r) && Sorted(t, s)
    requires multiset(r) == multiset(s) && r != []
    ensures s != [] && r[0] == s[0]
  {
    hide Less;
    SameMembers(r, s);
    assert r[0] in s && s[0] in r;
    var i :| 0 <= i < |r| && r[i] == s[0];
    var j :| 0 <= j < |s| && s[j] == r[0];
    if i > 0 && j > 0 && r[0] != s[0] {
      assert Less(t, r[0], r[i]) && Less(t, s[0], s[j]);
      LessTotal(t, r[0], s[0]);
    }
  }

  /** Sorting a multiset of positions has one answer, so the cursor merge, the insertion sort and
      the merge tree cannot differ on a group. */
  lemma {:induction false} SortedUnique(t: Text, r: seq<nat>, s: seq<nat>)
    requires InText(t, r) && InText(t, s) && Sorted(t, r) && Sorted(t, s)
    requires multiset(r) == multiset(s)
    ensures r == s
    decreases |r|
  {
    hide LessEq;
    SameMembers(r, s);
    if r != [] {
      SameHead(t, r, s);
      WithoutMultiset(r, 0);
      WithoutMultiset(s, 0);
      assert Without(r, 0) == r[1..] && Without(s, 0) == s[1..];
      SortedUnique(t, r[1..], s[1..]);
    }
  }
}
