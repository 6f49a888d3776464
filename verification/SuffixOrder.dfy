/** Byte-lexicographic order on the suffixes of one text, and what a suffix array is. */
module SuffixOrder {
  import opened MachineTypes

  type Text = seq<byte>

  /** The suffix at a is strictly smaller than the suffix at b; a proper prefix is smaller. */
  predicate Less(t: Text, a: nat, b: nat)
    requires a <= |t| && b <= |t|
    decreases |t| - a
  {
    b < |t| && (a == |t| || t[a] < t[b] || (t[a] == t[b] && Less(t, a + 1, b + 1)))
  }

  predicate LessEq(t: Text, a: nat, b: nat)
    requires a <= |t| && b <= |t|
  {
    a == b || Less(t, a, b)
  }

  ghost predicate InText(t: Text, s: seq<nat>) {
    forall i :: 0 <= i < |s| ==> s[i] < |t|
  }

  /** Non-strict: what the merge routines maintain. */
  ghost predicate Sorted(t: Text, s: seq<nat>)
    requires InText(t, s)
  {
    forall i, j :: 0 <= i < j < |s| ==> LessEq(t, s[i], s[j])
  }

  /** Strict: what a suffix array is. */
  ghost predicate Ascending(t: Text, s: seq<nat>)
    requires InText(t, s)
  {
    forall i, j :: 0 <= i < j < |s| ==> Less(t, s[i], s[j])
  }

  /** sa lists every position of t exactly once, in strictly ascending suffix order. */
  ghost predicate IsSuffixArray(t: Text, sa: seq<nat>) {
    && |sa| == |t|
    && InText(t, sa)
    && (forall p :: 0 <= p < |t| ==> p in sa)
    && Ascending(t, sa)
  }

  lemma {:induction false} LessIrreflexive(t: Text, a: nat)
    requires a <= |t|
    ensures !Less(t, a, a)
    decreases |t| - a
  {
    if a < |t| { LessIrreflexive(t, a + 1); }
  }

  lemma {:induction false} LessTotal(t: Text, a: nat, b: nat)
    requires a <= |t| && b <= |t| && a != b
    ensures Less(t, a, b) <==> !Less(t, b, a)
    decreases |t| - a
  {
    if a < |t| && b < |t| { LessTotal(t, a + 1, b + 1); }
  }

  lemma LessAsymmetric(t: Text, a: nat, b: nat)
    requires a <= |t| && b <= |t| && Less(t, a, b)
    ensures !Less(t, b, a)
  {
    if a == b { LessIrreflexive(t, a); } else { LessTotal(t, a, b); }
  }

  lemma {:induction false} LessTransitive(t: Text, a: nat, b: nat, c: nat)
    requires a <= |t| && b <= |t| && c <= |t|
    requires Less(t, a, b) && Less(t, b, c)
    ensures Less(t, a, c)
    decreases |t| - a
  {
    if a < |t| && t[a] == t[b] && t[b] == t[c] { LessTransitive(t, a + 1, b + 1, c + 1); }
  }

  lemma LessEqTransitive(t: Text, a: nat, b: nat, c: nat)
    requires a <= |t| && b <= |t| && c <= |t|
    requires LessEq(t, a, b) && LessEq(t, b, c)
    ensures LessEq(t, a, c)
  {
    if Less(t, a, b) && Less(t, b, c) { LessTransitive(t, a, b, c); }
  }

  /** The byte at p, or 0 past the end of the text: the padding of key32 and ekey64. */
  function ByteAt(t: Text, p: nat): byte {
    if p < |t| then t[p] else 0
  }

  predicate Agree(t: Text, a: nat, b: nat, j: nat) {
    ByteAt(t, a + j) == ByteAt(t, b + j)
  }

  ghost predicate AgreeUpTo(t: Text, a: nat, b: nat, k: nat) {
    forall j :: 0 <= j < k ==> Agree(t, a, b, j)
  }

  /** A common prefix of real bytes never decides. */
  lemma {:induction false} SkipCommonPrefix(t: Text, a: nat, b: nat, k: nat)
    requires a + k <= |t| && b + k <= |t|
    requires AgreeUpTo(t, a, b, k)
    ensures Less(t, a, b) <==> Less(t, a + k, b + k)
    decreases k
  {
    if k > 0 {
      var a', b' := a + 1, b + 1;
      assert Agree(t, a, b, 0);
      forall j: nat | j < k - 1 ensures Agree(t, a', b', j) {
        assert Agree(t, a, b, j + 1);
      }
      SkipCommonPrefix(t, a', b', k - 1);
    }
  }

  /** The first disagreement decides, even when the bytes before it are padding. */
  lemma FirstDifferenceDecides(t: Text, a: nat, b: nat, k: nat)
    requires a <= |t| && b <= |t|
    requires AgreeUpTo(t, a, b, k)
    requires ByteAt(t, a + k) < ByteAt(t, b + k)
    ensures Less(t, a, b)
  {
    var m := if a + k <= |t| then k else |t| - a;
    forall j: nat | j < m ensures Agree(t, a, b, j) {}
    SkipCommonPrefix(t, a, b, m);
  }

  lemma AscendingIsDistinct(t: Text, s: seq<nat>)
    requires InText(t, s) && Ascending(t, s)
    ensures forall i, j :: 0 <= i < j < |s| ==> s[i] != s[j]
  {
    forall i, j | 0 <= i < j < |s| ensures s[i] != s[j] { LessIrreflexive(t, s[i]); }
  }

  /** Two ascending lists over the same positions are the same list. */
  lemma {:induction false} AscendingUnique(t: Text, r: seq<nat>, s: seq<nat>)
    requires InText(t, r) && InText(t, s)
    requires Ascending(t, r) && Ascending(t, s)
    requires forall p :: p in r <==> p in s
    ensures r == s
    decreases |r|
  {
    assert s != [] ==> s[0] in r;
    if r != [] {
      assert r[0] in s && s != [] && s[0] in r;
      if r[0] != s[0] {
        assert Less(t, s[0], r[0]);
        assert Less(t, r[0], s[0]);
        LessTotal(t, r[0], s[0]);
        assert false;
      }
      AscendingIsDistinct(t, r);
      AscendingIsDistinct(t, s);
      var r', s' := r[1..], s[1..];
      forall p ensures p in r' <==> p in s' {
        assert p in r' <==> p in r && p != r[0];
        assert p in s' <==> p in s && p != s[0];
      }
      AscendingUnique(t, r', s');
    }
  }

  /** A text has at most one suffix array. */
  lemma SuffixArrayUnique(t: Text, r: seq<nat>, s: seq<nat>)
    requires IsSuffixArray(t, r) && IsSuffixArray(t, s)
    ensures r == s
  {
    forall p ensures p in r <==> p in s {}
    AscendingUnique(t, r, s);
  }
}
