/** Single-step array writes with their effect stated on the whole array. */
module Arrays {

  method Set<T>(a: array<T>, i: nat, v: T)
    requires i < a.Length
    modifies a
    ensures a[..] == old(a[..])[i := v]
  {
    a[i] := v;
  }

  /** memcpy of s to the front of a. */
  method CopyBack<T>(a: array<T>, s: seq<T>)
    requires |s| <= a.Length
    modifies a
    ensures a[..|s|] == s
    ensures a[|s|..] == old(a[|s|..])
  {
    forall i | 0 <= i < |s| { a[i] := s[i]; }
  }

  /** Write v just past the first len elements. */
  method Append<T>(a: array<T>, len: nat, v: T)
    requires len < a.Length
    modifies a
    ensures a[..len + 1] == old(a[..len]) + [v]
  {
    a[len] := v;
  }

  /** The same inside a stretch that ends at end: nothing from there on changes. */
  method AppendBefore<T>(a: array<T>, len: nat, v: T, ghost end: nat)
    requires len < end <= a.Length
    modifies a
    ensures a[..len + 1] == old(a[..len]) + [v]
    ensures a[end..] == old(a[end..])
  {
    a[len] := v;
  }

  /** What does not change from i on does not change from a later n on. */
  lemma Behind<T>(before: seq<T>, after: seq<T>, i: nat, n: nat)
    requires i <= n <= |before| == |after| && before[i..] == after[i..]
    ensures before[n..] == after[n..]
  {
    assert before[n..] == before[i..][n - i..] && after[n..] == after[i..][n - i..];
  }

  /** s with v inserted at p. */
  function Inserted<T>(s: seq<T>, p: nat, v: T): (r: seq<T>)
    requires p <= |s|
    ensures |r| == |s| + 1
  {
    s[..p] + [v] + s[p..]
  }

  /** a with element x taken out and put back in at p <= x: one round of an insertion sort. */
  function Rotated<T>(a: seq<T>, p: nat, x: nat): (r: seq<T>)
    requires p <= x < |a|
    ensures |r| == |a|
    ensures r[..x + 1] == Inserted(a[..x], p, a[x])
    ensures r[x + 1..] == a[x + 1..]
  {
    Inserted(a[..x], p, a[x]) + a[x + 1..]
  }

  /** Halfway through a round: a[y..x] has moved up by one, leaving a gap at y. */
  ghost predicate Shifted<T>(a: seq<T>, s: seq<T>, y: nat, x: nat)
    requires y <= x < |a| == |s|
  {
    s == a[..y] + [s[y]] + a[y..x] + a[x + 1..]
  }

  lemma ShiftStart<T>(a: seq<T>, x: nat)
    requires x < |a|
    ensures Shifted(a, a, x, x)
  {}

  lemma ShiftStep<T>(a: seq<T>, s: seq<T>, y: nat, x: nat)
    requires 0 < y <= x < |a| == |s|
    requires Shifted(a, s, y, x)
    ensures s[y - 1] == a[y - 1]
    ensures Shifted(a, s[y := s[y - 1]], y - 1, x)
  {}

  lemma ShiftDone<T>(a: seq<T>, s: seq<T>, y: nat, x: nat)
    requires y <= x < |a| == |s|
    requires Shifted(a, s, y, x)
    ensures s[y := a[x]] == Rotated(a, y, x)
    ensures y > 0 ==> s[y - 1] == a[y - 1]
  {}
}
