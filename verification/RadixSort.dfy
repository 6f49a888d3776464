/** sort_desc of native/descriptor.c: two stable counting passes of twelve bits each. */
module RadixSort {
  import opened MachineTypes
  import opened Permutations
  import opened StableOrder
  import opened CountingSort
  import opened Descriptors
  import opened Arrays

  const RBINS := 0x1000

  function Lo(d: Desc): nat { d.key % RBINS }
  function Hi(d: Desc): nat { d.key / RBINS % RBINS }

  function Los(ds: seq<Desc>): (r: seq<int>)
    ensures |r| == |ds| && forall i :: 0 <= i < |r| ==> r[i] == Lo(ds[i])
  {
    seq(|ds|, i requires 0 <= i < |ds| => Lo(ds[i]))
  }

  function His(ds: seq<Desc>): (r: seq<int>)
    ensures |r| == |ds| && forall i :: 0 <= i < |r| ==> r[i] == Hi(ds[i])
  {
    seq(|ds|, i requires 0 <= i < |ds| => Hi(ds[i]))
  }

  /** The low 24 bits: the column byte above them does not take part in the sort. */
  function KeysOf(ds: seq<Desc>): (r: seq<int>)
    ensures |r| == |ds| && forall i :: 0 <= i < |r| ==> r[i] == KeyOf(ds[i])
  {
    seq(|ds|, i requires 0 <= i < |ds| => KeyOf(ds[i]))
  }

  lemma DigitsOf(ds: seq<Desc>)
    requires |ds| < 0x1_0000_0000
    ensures Digits(Los(ds), RBINS) && Digits(His(ds), RBINS)
    ensures forall i :: 0 <= i < |ds| ==> KeysOf(ds)[i] == His(ds)[i] * RBINS + Los(ds)[i]
  {}

  lemma {:induction false} BelowRemove(ks: seq<int>, p: nat, v: int)
    requires p < |ks|
    ensures Below(ks, v) == Below(Without(ks, p), v) + (if ks[p] < v then 1 else 0)
    decreases |ks|
  {
    var n := |ks| - 1;
    var r := Without(ks, p);
    if p == n {
      assert r == ks[..n];
    } else {
      BelowRemove(ks[..n], p, v);
      assert r[..n - 1] == Without(ks[..n], p);
      assert r[n - 1] == ks[n];
    }
  }

  /** A histogram does not change when its input is permuted. */
  lemma {:induction false} BelowPermutes(ks: seq<int>, ls: seq<int>, v: int)
    requires multiset(ks) == multiset(ls)
    ensures Below(ks, v) == Below(ls, v)
    decreases |ks|
  {
    SameMembers(ks, ls);
    if ks != [] {
      var p := FindLast(ks, ls);
      BelowPermutes(ks[..|ks| - 1], Without(ls, p), v);
      BelowRemove(ls, p, v);
    }
  }

  /** Slots counted over one order of the keys serve any other order of them. */
  lemma SlotsPermute(cnt: seq<uint32>, ks: seq<int>, ls: seq<int>)
    requires Slots(cnt, ks, 0) && multiset(ks) == multiset(ls)
    ensures Slots(cnt, ls, 0)
  {
    forall b | 0 <= b < |cnt| ensures cnt[b] == Below(ls, b) + Same(ls[..0], b) {
      BelowPermutes(ks, ls, b);
      assert Same(ks[..0], b) == 0;
    }
  }

  method TallyBoth(h0: array<uint32>, h1: array<uint32>, ghost s: seq<Desc>, ghost x: nat, key: uint32)
    requires h0 != h1 && h0.Length == h1.Length == RBINS
    requires x < |s| < 0x1_0000_0000 && key == s[x].key
    requires Counted(h0[..], Los(s), x) && Counted(h1[..], His(s), x)
    modifies h0, h1
    ensures Counted(h0[..], Los(s), x + 1) && Counted(h1[..], His(s), x + 1)
  {
    DigitsOf(s);
    hide Counted;
    Tally(h0, Los(s), x, key % RBINS);
    Tally(h1, His(s), x, key / RBINS % RBINS);
  }

  /** Both passes' histograms, from one scan, before anything moves. */
  method Histograms(a: array<Desc>, count: nat) returns (h0: array<uint32>, h1: array<uint32>)
    requires count <= a.Length && count < 0x1_0000_0000
    ensures fresh(h0) && fresh(h1) && h0 != h1 && h0.Length == h1.Length == RBINS
    ensures Slots(h0[..], Los(a[..count]), 0) && Slots(h1[..], His(a[..count]), 0)
  {
    ghost var s := a[..count];
    DigitsOf(s);
    hide *;
    h0, h1 := new uint32[RBINS](_ => 0), new uint32[RBINS](_ => 0);
    NothingCounted(Los(s), h0[..]);
    NothingCounted(His(s), h1[..]);
    var i := 0;
    while i + 4 <= count
      invariant i <= count
      invariant Counted(h0[..], Los(s), i) && Counted(h1[..], His(s), i)
    {
      var k0, k1, k2, k3 := a[i].key, a[i + 1].key, a[i + 2].key, a[i + 3].key;
      assert s[i] == a[i] && s[i + 1] == a[i + 1] && s[i + 2] == a[i + 2] && s[i + 3] == a[i + 3];
      TallyBoth(h0, h1, s, i, k0);
      TallyBoth(h0, h1, s, i + 1, k1);
      TallyBoth(h0, h1, s, i + 2, k2);
      TallyBoth(h0, h1, s, i + 3, k3);
      i := i + 4;
    }
    while i < count
      invariant i <= count
      invariant Counted(h0[..], Los(s), i) && Counted(h1[..], His(s), i)
    {
      assert s[i] == a[i];
      TallyBoth(h0, h1, s, i, a[i].key);
      i := i + 1;
    }
    PrefixSums(h0, Los(s));
    PrefixSums(h1, His(s));
  }

  ghost function DigitsAt(pass: nat, ds: seq<Desc>): (r: seq<int>)
    ensures |r| == |ds|
  {
    if pass == 0 then Los(ds) else His(ds)
  }

  function DigitAt(pass: nat, d: Desc): nat {
    if pass == 0 then Lo(d) else Hi(d)
  }

  /** Move element x of one pass to its slot. */
  method ScatterOne(pass: nat, d: Desc, b: array<Desc>, cnt: array<uint32>, ghost s: seq<Desc>, ghost x: nat)
    requires x < |s| < 0x1_0000_0000 && |s| <= b.Length && cnt.Length == RBINS && d == s[x]
    requires Slots(cnt[..], DigitsAt(pass, s), x)
    requires Scattered(Ranks(DigitsAt(pass, s)), s, b[..], x)
    modifies b, cnt
    ensures Slots(cnt[..], DigitsAt(pass, s), x + 1)
    ensures Scattered(Ranks(DigitsAt(pass, s)), s, b[..], x + 1)
  {
    ghost var ks := DigitsAt(pass, s);
    assert Digits(ks, RBINS) && ks[x] == DigitAt(pass, d) by { DigitsOf(s); }
    hide *;
    var slot := Claim(cnt, ks, x, DigitAt(pass, d));
    RanksPermute(ks);
    ScatteredNext(Ranks(ks), s, b[..], x);
    Set(b, slot, d);
  }

  /** The first x elements are in their final slots. */
  ghost predicate Scattered(q: seq<nat>, s: seq<Desc>, b: seq<Desc>, x: nat)
    requires |q| == |s| <= |b| && x <= |q|
  {
    InRange(q) && forall y :: 0 <= y < x ==> b[q[y]] == s[y]
  }

  lemma ScatteredNext(q: seq<nat>, s: seq<Desc>, b: seq<Desc>, x: nat)
    requires |q| == |s| <= |b| && x < |q| && InRange(q) && Distinct(q)
    requires Scattered(q, s, b, x)
    ensures Scattered(q, s, b[q[x] := s[x]], x + 1)
  {}

  /** One stable counting pass. */
  method Scatter(pass: nat, a: array<Desc>, b: array<Desc>, cnt: array<uint32>, count: nat)
    requires a != b && count <= a.Length && count <= b.Length && count < 0x1_0000_0000
    requires cnt.Length == RBINS && Slots(cnt[..], DigitsAt(pass, a[..count]), 0)
    modifies b, cnt
    ensures Placed(Ranks(DigitsAt(pass, old(a[..count]))), old(a[..count]), b[..count])
  {
    hide *;
    ghost var s := a[..count];
    ghost var q := Ranks(DigitsAt(pass, s));
    RanksPermute(DigitsAt(pass, s));
    ScatteredNone(q, s, b[..]);
    var i := 0;
    while i + 4 <= count
      invariant i <= count && a[..count] == s
      invariant Slots(cnt[..], DigitsAt(pass, s), i) && Scattered(q, s, b[..], i)
    {
      var r0, r1, r2, r3 := a[i], a[i + 1], a[i + 2], a[i + 3];
      assert s[i] == r0 && s[i + 1] == r1 && s[i + 2] == r2 && s[i + 3] == r3;
      ScatterOne(pass, r0, b, cnt, s, i);
      ScatterOne(pass, r1, b, cnt, s, i + 1);
      ScatterOne(pass, r2, b, cnt, s, i + 2);
      ScatterOne(pass, r3, b, cnt, s, i + 3);
      i := i + 4;
    }
    while i < count
      invariant i <= count && a[..count] == s
      invariant Slots(cnt[..], DigitsAt(pass, s), i) && Scattered(q, s, b[..], i)
    {
      assert s[i] == a[i];
      ScatterOne(pass, a[i], b, cnt, s, i);
      i := i + 1;
    }
    ScatteredAll(q, s, b[..], count);
    assert b[..][..count] == b[..count];
  }

  lemma ScatteredNone(q: seq<nat>, s: seq<Desc>, b: seq<Desc>)
    requires |q| == |s| <= |b| && InRange(q)
    ensures Scattered(q, s, b, 0)
  {}

  lemma ScatteredAll(q: seq<nat>, s: seq<Desc>, b: seq<Desc>, count: nat)
    requires |q| == |s| == count <= |b| && Scattered(q, s, b, count)
    ensures Placed(q, s, b[..count])
  {}

  /** Two passes, low digit then high digit, sort stably by the low 24 bits. */
  lemma TwoPasses(s: seq<Desc>, m: seq<Desc>, r: seq<Desc>)
    requires |s| < 0x1_0000_0000
    requires Placed(Ranks(Los(s)), s, m) && Placed(Ranks(His(m)), m, r)
    ensures StableSort(KeysOf(s), s, r)
  {
    DigitsOf(s);
    RanksAreDestinations(Los(s));
    RanksAreDestinations(His(m));
    hide Rank, Ranks;
    var q1, q2 := Ranks(Los(s)), Ranks(His(m));
    assert Placed(q1, His(s), His(m));
    var q := DigitsCompose(Los(s), His(s), KeysOf(s), q1, His(m), q2);
    assert Placed(q, s, r) by {
      hide IsDestination;
      forall x | 0 <= x < |q| ensures r[q[x]] == s[x] {
        assert r[q2[q1[x]]] == m[q1[x]] == s[x];
      }
    }
  }

  /** The counters of the second pass were filled before the first pass moved anything. */
  lemma SecondHistogram(cnt: seq<uint32>, s: seq<Desc>, m: seq<Desc>, q: seq<nat>)
    requires Slots(cnt, His(s), 0) && Placed(q, s, m) && Distinct(q)
    ensures Slots(cnt, His(m), 0)
  {
    hide Slots;
    assert Placed(q, His(s), His(m));
    PlacedPermutes(q, His(s), His(m));
    SlotsPermute(cnt, His(s), His(m));
  }

  /** The two swaps of the source bring the result back to the array it started in. */
  method SortDesc(a: array<Desc>, b: array<Desc>, count: nat) returns (sorted: array<Desc>)
    requires a != b && count <= a.Length && count <= b.Length && count < 0x1_0000_0000
    modifies a, b
    ensures sorted == a
    ensures StableSort(KeysOf(old(a[..count])), old(a[..count]), sorted[..count])
  {
    hide Slots, StableSort, Placed, Ranks, Los, His, KeysOf;
    ghost var s := a[..count];
    var h0, h1 := Histograms(a, count);
    Scatter(0, a, b, h0, count);
    ghost var m := b[..count];
    RanksPermute(Los(s));
    SecondHistogram(h1[..], s, m, Ranks(Los(s)));
    Scatter(1, b, a, h1, count);
    TwoPasses(s, m, a[..count]);
    sorted := a;
  }

  /** The sorted descriptors, by value: the same ones, in key order, ties as they were emitted. */
  lemma SortedByKey(s: seq<Desc>, r: seq<Desc>)
    requires StableSort(KeysOf(s), s, r)
    ensures multiset(r) == multiset(s)
    ensures forall i, j :: 0 <= i < j < |r| ==> KeyOf(r[i]) <= KeyOf(r[j])
    ensures forall i, j :: 0 <= i < j < |r| ==> r[i].key % 0x100_0000 <= r[j].key % 0x100_0000
  {
    StableSortPermutes(KeysOf(s), s, r);
    var q :| IsDestination(KeysOf(s), q) && Placed(q, s, r);
    forall i, j | 0 <= i < j < |r| ensures KeyOf(r[i]) <= KeyOf(r[j]) {
      var x, y := SourcesInOrder(KeysOf(s), q, i, j);
    }
  }
}
