/** Sequences that hold the same elements in another order. */
module Permutations {

  function Without<T>(s: seq<T>, p: nat): (r: seq<T>)
    requires p < |s|
    ensures |r| == |s| - 1
  {
    s[..p] + s[p + 1..]
  }

  lemma WithoutMultiset<T>(s: seq<T>, p: nat)
    requires p < |s|
    ensures multiset(Without(s, p)) == multiset(s) - multiset{s[p]}
  {
    assert s == s[..p] + [s[p]] + s[p + 1..];
  }

  /** Where the last element of s sits in a permutation r of s, and that what is left of both
      is again a permutation: one induction step. */
  lemma FindLast<T>(s: seq<T>, r: seq<T>) returns (p: nat)
    requires s != [] && multiset(s) == multiset(r)
    ensures |r| == |s| && p < |r| && r[p] == s[|s| - 1]
    ensures multiset(s[..|s| - 1]) == multiset(Without(r, p))
  {
    var n := |s| - 1;
    assert |s| == |multiset(s)| == |multiset(r)| == |r|;
    assert s[n] in multiset(r);
    p :| 0 <= p < |r| && r[p] == s[n];
    WithoutMultiset(r, p);
    WithoutMultiset(s, n);
    assert Without(s, n) == s[..n];
  }

  lemma SameMembers<T>(s: seq<T>, r: seq<T>)
    requires multiset(s) == multiset(r)
    ensures |s| == |r| && forall x :: x in s <==> x in r
  {
    assert |s| == |multiset(s)| == |multiset(r)| == |r|;
    forall x ensures x in s <==> x in r {
      assert x in s <==> x in multiset(s);
      assert x in r <==> x in multiset(r);
    }
  }
}
