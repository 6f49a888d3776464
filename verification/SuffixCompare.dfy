/** suffix_less_from of native/descriptor.c: the full comparison behind both keys. */
module SuffixCompare {
  import opened SuffixOrder
  import opened Keys

  /** Index of the first lane that differs, or w: a vector compare, its mask and a bit scan. */
  function FirstDifferentLane(t: Text, a: nat, b: nat, w: nat): (k: nat)
    requires a + w <= |t| && b + w <= |t|
    ensures k <= w && AgreeUpTo(t, a, b, k)
    ensures k < w ==> t[a + k] != t[b + k]
  {
    if w == 0 then 0
    else
      var k := FirstDifferentLane(t, a, b, w - 1);
      if k < w - 1 || t[a + w - 1] != t[b + w - 1] then k
      else assert Agree(t, a, b, w - 1); w
  }

  /** Moving a comparison past i agreeing bytes, or past all the bytes one suffix has. */
  lemma AgreeShift(t: Text, a: nat, b: nat, i: nat, k: nat)
    requires AgreeUpTo(t, a, b, i)
    ensures AgreeUpTo(t, a + i, b + i, k) <==> AgreeUpTo(t, a, b, i + k)
  {
    var a', b' := a + i, b + i;
    if AgreeUpTo(t, a', b', k) {
      forall j | 0 <= j < i + k ensures Agree(t, a, b, j) {
        if j >= i { assert Agree(t, a', b', j - i); }
      }
    }
    if AgreeUpTo(t, a, b, i + k) {
      forall j: nat | j < k ensures Agree(t, a', b', j) { assert Agree(t, a, b, i + j); }
    }
  }

  /** An eight-byte word that differs decides as a big-endian number. */
  lemma WordDecides(t: Text, a: nat, b: nat, i: nat, w: nat)
    requires a + i + w <= |t| && b + i + w <= |t|
    requires AgreeUpTo(t, a, b, i)
    ensures LoadBig(t, a + i, w) == LoadBig(t, b + i, w) ==> AgreeUpTo(t, a, b, i + w)
    ensures LoadBig(t, a + i, w) != LoadBig(t, b + i, w) ==>
              (Less(t, a, b) <==> LoadBig(t, a + i, w) < LoadBig(t, b + i, w))
  {
    LoadIsPaddedKey(t, a + i, w);
    LoadIsPaddedKey(t, b + i, w);
    if LoadBig(t, a + i, w) == LoadBig(t, b + i, w) {
      EqualKeysAgree(t, a, b, i, w);
    } else if LoadBig(t, a + i, w) < LoadBig(t, b + i, w) {
      SmallerKeyIsLess(t, a, b, i, w);
    } else {
      AgreeSymmetric(t, a, b, i);
      SmallerKeyIsLess(t, b, a, i, w);
      if a != b { LessTotal(t, a, b); }
    }
  }

  lemma AgreeSymmetric(t: Text, a: nat, b: nat, k: nat)
    requires AgreeUpTo(t, a, b, k)
    ensures AgreeUpTo(t, b, a, k)
  {
    forall j | 0 <= j < k ensures Agree(t, b, a, j) { assert Agree(t, a, b, j); }
  }

  /** When every byte the shorter suffix has agrees, the shorter one is smaller. */
  lemma ShorterDecides(t: Text, a: nat, b: nat, m: nat)
    requires a + m <= |t| && b + m <= |t|
    requires a + m == |t| || b + m == |t|
    requires AgreeUpTo(t, a, b, m)
    ensures Less(t, a, b) <==> |t| - a < |t| - b
  {
    SkipCommonPrefix(t, a, b, m);
  }

  /** A byte that differs after i + k agreeing bytes decides. */
  lemma ByteDecides(t: Text, a: nat, b: nat, i: nat)
    requires a + i < |t| && b + i < |t|
    requires AgreeUpTo(t, a, b, i)
    requires t[a + i] != t[b + i]
    ensures Less(t, a, b) <==> t[a + i] < t[b + i]
  {
    SkipCommonPrefix(t, a, b, i);
  }

  /** One eight-byte word of each suffix, compared as big-endian numbers. */
  method CompareWord(t: Text, a: nat, b: nat, i: nat) returns (differ: bool, less: bool)
    requires a + i + 8 <= |t| && b + i + 8 <= |t|
    requires AgreeUpTo(t, a, b, i)
    ensures differ ==> (less <==> Less(t, a, b))
    ensures !differ ==> AgreeUpTo(t, a, b, i + 8)
  {
    WordDecides(t, a, b, i, 8);
    var x, y := LoadBig(t, a + i, 8), LoadBig(t, b + i, 8);
    differ, less := x != y, x < y;
  }

  /** w lanes of each suffix, compared byte by byte. */
  method CompareLanes(t: Text, a: nat, b: nat, i: nat, w: nat) returns (differ: bool, less: bool)
    requires a + i + w <= |t| && b + i + w <= |t|
    requires AgreeUpTo(t, a, b, i)
    ensures differ ==> (less <==> Less(t, a, b))
    ensures !differ ==> AgreeUpTo(t, a, b, i + w)
  {
    var x, y := a + i, b + i;
    var tz := FirstDifferentLane(t, x, y, w);
    AgreeShift(t, a, b, i, tz);
    differ, less := tz < w, false;
    if differ {
      ByteDecides(t, a, b, i + tz);
      less := t[x + tz] < t[y + tz];
    }
  }

  /** The caller knows that the first `from` padded bytes agree. When one suffix is shorter than
      that, the padding proves nothing and the scan starts over at 0. */
  method SuffixLessFrom(t: Text, a: nat, b: nat, from: nat) returns (less: bool)
    requires a <= |t| && b <= |t|
    requires AgreeUpTo(t, a, b, from)
    ensures less <==> Less(t, a, b)
  {
    var la, lb := |t| - a, |t| - b;
    var m := if la < lb then la else lb;
    var i := if m >= from then from else 0;
    var differ;

    // eight bytes first
    if i + 8 <= m {
      differ, less := CompareWord(t, a, b, i);
      if differ { return; }
      i := i + 8;
    }

    // thirty-two at a time
    while i + 32 <= m
      invariant i <= m && AgreeUpTo(t, a, b, i)
    {
      differ, less := CompareLanes(t, a, b, i, 32);
      if differ { return; }
      i := i + 32;
    }

    // the rest in words, then the bytes that do not fill one
    var remain := m - i;
    var q := if remain < 32 then remain - remain % 8 else 32;
    var k := 0;
    while k < q
      invariant k <= q <= remain && k % 8 == 0 && q % 8 == 0
      invariant AgreeUpTo(t, a, b, i + k)
    {
      differ, less := CompareWord(t, a, b, i + k);
      if differ { return; }
      k := k + 8;
    }
    differ, less := CompareLanes(t, a, b, i + q, remain - q);
    if differ { return; }
    ShorterDecides(t, a, b, m);
    less := la < lb;
  }

  /** suffix_less: nothing is known to agree. */
  method SuffixLess(t: Text, a: nat, b: nat) returns (less: bool)
    requires a <= |t| && b <= |t|
    ensures less <==> Less(t, a, b)
  {
    less := SuffixLessFrom(t, a, b, 0);
  }
}
