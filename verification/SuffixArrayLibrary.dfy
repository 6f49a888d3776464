/** native/derostorm_sa.c: the descriptor sort first, the general sorter when it declines. */
module SuffixArrayLibrary {
  import opened MachineTypes
  import opened SuffixOrder
  import opened KeyGroups
  import opened ScratchSpace
  import opened WriteOut
  import opened DescriptorSort
  import opened RunMasks

  datatype Option<T> = None | Some(value: T)

  /** What the general suffix sorter answers for one text: a code, and on 0 the array it leaves. */
  datatype Fallback = Fallback(rc: int32, sa: seq<nat>)

  ghost predicate Honest(t: Text, f: Fallback) {
    f.rc == 0 ==> IsSuffixArray(t, f.sa)
  }

  /** One thread's library state: its sorter, and whether the fallback's context exists yet. */
  class Library {
    const sorter: Sorter
    var context: bool

    constructor ()
      ensures Valid() && !context && fresh(Repr())
    {
      sorter := new Sorter();
      context := false;
    }

    ghost predicate Valid()
      reads this, sorter
    {
      sorter.Valid()
    }

    ghost function Repr(): set<object>
      reads this, sorter
    {
      {this as object} + sorter.Repr()
    }

    /** dsa_suffix_array. The fallback answers exactly for the texts with a key past the cap, and
        whoever answers 0 leaves the one suffix array of the text. */
    method SuffixArray(text: Option<Text>, sa: array?<int32>, created: bool, fallback: Fallback)
      returns (rc: int, ghost r: seq<nat>)
      requires Valid() && (sa != null ==> sa !in Repr())
      requires text.Some? && sa != null ==> |text.value| <= 0x10_0000 && |text.value| <= sa.Length
      requires text.Some? ==> Honest(text.value, fallback)
      modifies Repr(), sa
      ensures Valid() && (context == old(context) || (context && created))
      ensures text.None? || sa == null || text.value == [] ==> rc == -1
      ensures text.Some? && sa != null && text.value != [] ==>
        var t := text.value;
        && (!KeyOverflows(t) ==> rc == 0 && context == old(context) && sa[|t|..] == old(sa[|t|..]))
        && (KeyOverflows(t) ==> rc == if old(context) || created then fallback.rc else -2)
        && (rc == 0 ==> sa[..|t|] == r && IsSuffixArray(t, r))
    {
      hide KeyOverflows, IsSuffixArray;
      r := [];
      if text.None? || sa == null || text.value == [] { return -1, r; }
      var t := text.value;
      ghost var retries;
      rc, r, retries := sorter.DescriptorSuffixArray(t, Discovered, sa);
      if rc == 0 { return; }
      if !context {
        if !created { return -2, r; }
        context := true;
      }
      rc := fallback.rc;
      if rc == 0 {
        Lengths(t, fallback.sa);
        r := fallback.sa;
        forall i | 0 <= i < |t| { sa[i] := fallback.sa[i]; }
        assert sa[..|t|] == r;
      }
    }

    /** dsa_probe succeeds whatever the fallback is: ten bytes cannot make a key overflow. */
    method Probe(created: bool, fallback: Fallback) returns (rc: int)
      requires Valid() && Honest(ProbeText(), fallback)
      modifies Repr()
      ensures Valid() && rc == 0
    {
      hide KeyOverflows, IsSuffixArray;
      var text, want, sa := ProbeText(), ProbeWant(), new int32[16];
      ghost var r;
      rc, r := SuffixArray(Some(text), sa, created, fallback);
      ShortTextsNeverOverflow(text);
      ProbeVector();
      SuffixArrayUnique(text, r, want);
      for i := 0 to |text|
      {
        assert sa[i] == sa[..|text|][i];
        if sa[i] != want[i] { return -100 - i; }
      }
    }
  }

  lemma Lengths(t: Text, r: seq<nat>)
    requires IsSuffixArray(t, r)
    ensures |r| == |t| && forall i :: 0 <= i < |r| ==> r[i] < |t|
  {}

  function ProbeText(): (t: Text)
    ensures |t| == 10
  {
    [97, 98, 99, 97, 98, 120, 97, 98, 99, 100]
  }

  function ProbeWant(): (r: seq<nat>)
    ensures |r| == 10
  {
    [0, 6, 3, 1, 7, 4, 2, 8, 9, 5]
  }

  /** Each suffix is smaller than the one listed next. */
  ghost predicate Steps(t: Text, w: seq<nat>)
    requires InText(t, w)
  {
    forall i, j :: 0 <= i < |w| && 0 <= j < |w| && j == i + 1 ==> Less(t, w[i], w[j])
  }

  lemma ProbeSteps()
    ensures InText(ProbeText(), ProbeWant()) && Steps(ProbeText(), ProbeWant())
  {
    hide Less;
    var t := ProbeText();
    var w := ProbeWant();
    forall i, j | 0 <= i < |w| && 0 <= j < |w| && j == i + 1 ensures Less(t, w[i], w[j]) {
      ProbeStep(i);
    }
  }

  /** Where two neighbours first differ. */
  lemma ProbeStep(i: nat)
    requires i < 9
    ensures ProbeWant()[i] <= 10 && ProbeWant()[i + 1] <= 10
    ensures Less(ProbeText(), ProbeWant()[i], ProbeWant()[i + 1])
  {
    hide Less;
    var differ := [3, 2, 0, 2, 1, 0, 1, 0, 0];
    FirstDifferenceDecides(ProbeText(), ProbeWant()[i], ProbeWant()[i + 1], differ[i]);
  }

  lemma {:induction false} ChainAscends(t: Text, w: seq<nat>, i: nat, j: nat)
    requires InText(t, w) && Steps(t, w)
    requires i < j < |w|
    ensures Less(t, w[i], w[j])
    decreases j - i
  {
    hide Less;
    assert Less(t, w[i], w[i + 1]);
    if i + 1 < j {
      ChainAscends(t, w, i + 1, j);
      LessTransitive(t, w[i], w[i + 1], w[j]);
    }
  }

  /** The array the library checks itself against is the suffix array of the probe text. */
  lemma ProbeVector()
    ensures ProbeText() == [97, 98, 99, 97, 98, 120, 97, 98, 99, 100]
    ensures ProbeWant() == [0, 6, 3, 1, 7, 4, 2, 8, 9, 5]
    ensures IsSuffixArray(ProbeText(), ProbeWant())
  {
    hide Less;
    var t, w := ProbeText(), ProbeWant();
    ProbeSteps();
    forall i, j | 0 <= i < j < |w| ensures Less(t, w[i], w[j]) { ChainAscends(t, w, i, j); }
    assert w[0] == 0 && w[3] == 1 && w[6] == 2 && w[2] == 3 && w[5] == 4 && w[9] == 5 && w[1] == 6 && w[4] == 7
           && w[7] == 8 && w[8] == 9;
  }

  /** A key past the cap needs more positions than the cap. */
  lemma ShortTextsNeverOverflow(t: Text)
    requires |t| <= GROUP_CAP
    ensures !KeyOverflows(t)
  {
    forall k ensures |Occurring(t, k)| <= GROUP_CAP { BoundedSet(Occurring(t, k), |t|); }
  }
}
