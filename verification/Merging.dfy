/** Interleaving lists that share a descriptor key: the comparison, the merge step and the
    insertion step, on values. */
module Merging {
  import opened MachineTypes
  import opened SuffixOrder
  import opened SuffixCompare
  import opened Keys
  import opened Arrays

  /** All of s are suffixes of t under one descriptor key. */
  ghost predicate OneKey(t: Text, s: seq<nat>, key: nat) {
    InText(t, s) && forall i :: 0 <= i < |s| ==> Key(t, s[i]) == key
  }

  /** The comparison of all three routes: the eight-byte keys when they differ, otherwise the full
      comparison past the eleven bytes both keys covered. */
  method Precedes(t: Text, x: nat, y: nat, hx: uint64, hy: uint64) returns (less: bool)
    requires x < |t| && y < |t| && Key(t, x) == Key(t, y) && hx == EKey(t, x) && hy == EKey(t, y)
    ensures less <==> Less(t, x, y)
  {
    hide Key, EKey, Less, AgreeUpTo;
    if hx != hy {
      less := hx < hy;
      if less {
        EKeyOrder(t, x, y);
      } else {
        EKeyOrder(t, y, x);
        if x != y { LessTotal(t, x, y); }
      }
    } else {
      EqualEKeyAgree(t, x, y);
      less := SuffixLessFrom(t, x, y, 3 + 8);
    }
  }

  /** w is a finished merge of a[..i] and b[..j], and nothing in it exceeds either head. */
  ghost predicate MergeState(t: Text, a: seq<nat>, b: seq<nat>, i: nat, j: nat, w: seq<nat>)
    requires i <= |a| && j <= |b|
    requires InText(t, a) && InText(t, b)
  {
    && InText(t, w) && Sorted(t, w)
    && multiset(w) == multiset(a[..i]) + multiset(b[..j])
    && (i < |a| ==> forall x :: 0 <= x < |w| ==> LessEq(t, w[x], a[i]))
    && (j < |b| ==> forall x :: 0 <= x < |w| ==> LessEq(t, w[x], b[j]))
  }

  lemma MergeStart(t: Text, a: seq<nat>, b: seq<nat>)
    requires InText(t, a) && InText(t, b)
    ensures MergeState(t, a, b, 0, 0, [])
  {}

  lemma MergeSymmetric(t: Text, a: seq<nat>, b: seq<nat>, i: nat, j: nat, w: seq<nat>)
    requires i <= |a| && j <= |b| && InText(t, a) && InText(t, b)
    requires MergeState(t, a, b, i, j, w)
    ensures MergeState(t, b, a, j, i, w)
  {}

  /** Taking the head of a is right when the head of b is no smaller, or there is none. */
  lemma TakeFirst(t: Text, a: seq<nat>, b: seq<nat>, i: nat, j: nat, w: seq<nat>)
    requires i < |a| && j <= |b| && InText(t, a) && InText(t, b)
    requires Sorted(t, a) && MergeState(t, a, b, i, j, w)
    requires j < |b| ==> !Less(t, b[j], a[i])
    ensures MergeState(t, a, b, i + 1, j, w + [a[i]])
  {
    hide Less;
    var w' := w + [a[i]];
    assert a[..i + 1] == a[..i] + [a[i]];
    forall x | 0 <= x < |w'| && i + 1 < |a| ensures LessEq(t, w'[x], a[i + 1]) {
      LessEqTransitive(t, w'[x], a[i], a[i + 1]);
    }
    if j < |b| {
      if a[i] != b[j] { LessTotal(t, a[i], b[j]); }
      forall x | 0 <= x < |w'| ensures LessEq(t, w'[x], b[j]) {}
    }
  }

  lemma TakeSecond(t: Text, a: seq<nat>, b: seq<nat>, i: nat, j: nat, w: seq<nat>)
    requires i <= |a| && j < |b| && InText(t, a) && InText(t, b)
    requires Sorted(t, b) && MergeState(t, a, b, i, j, w)
    requires i < |a| ==> !Less(t, a[i], b[j])
    ensures MergeState(t, a, b, i, j + 1, w + [b[j]])
  {
    MergeSymmetric(t, a, b, i, j, w);
    TakeFirst(t, b, a, j, i, w);
    MergeSymmetric(t, b, a, j + 1, i, w + [b[j]]);
  }

  lemma MergeEnd(t: Text, a: seq<nat>, b: seq<nat>, w: seq<nat>)
    requires InText(t, a) && InText(t, b) && MergeState(t, a, b, |a|, |b|, w)
    ensures InText(t, w) && Sorted(t, w) && multiset(w) == multiset(a) + multiset(b)
  {
    assert a[..|a|] == a && b[..|b|] == b;
  }

  lemma RotatedPermutes<T>(a: seq<T>, p: nat, x: nat)
    requires p <= x < |a|
    ensures multiset(Rotated(a, p, x)) == multiset(a)
  {
    assert a == a[..p] + a[p..x] + [a[x]] + a[x + 1..];
    assert Rotated(a, p, x) == a[..p] + [a[x]] + a[p..x] + a[x + 1..];
  }

  /** Dropping element x behind the last element it does not precede extends a sorted prefix. */
  lemma InsertSorts(t: Text, a: seq<nat>, p: nat, x: nat)
    requires p <= x < |a| && InText(t, a) && Sorted(t, a[..x])
    requires p > 0 ==> !Less(t, a[x], a[p - 1])
    requires forall i :: p <= i < x ==> Less(t, a[x], a[i])
    ensures InText(t, Rotated(a, p, x)) && Sorted(t, Rotated(a, p, x)[..x + 1])
  {
    hide Less;
    var r := Inserted<nat>(a[..x], p, a[x]);
    var s := a[..x];
    if p > 0 {
      if a[x] != a[p - 1] { LessTotal(t, a[x], a[p - 1]); }
      assert LessEq(t, s[p - 1], a[x]);
    }
    forall i | 0 <= i < p ensures LessEq(t, s[i], a[x]) {
      LessEqTransitive(t, s[i], s[p - 1], a[x]);
    }
    forall i, j | 0 <= i < j < |r| ensures LessEq(t, r[i], r[j]) {
      if j < p { assert r[i] == s[i] && r[j] == s[j]; }
      else if i < p { assert r[i] == s[i]; if j > p { assert r[j] == s[j - 1]; } }
      else if i > p { assert r[i] == s[i - 1] && r[j] == s[j - 1]; }
      else { assert r[j] == s[j - 1]; }
    }
  }
}
