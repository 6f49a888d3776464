/** The zero-padded big-endian keys of native/descriptor.c: three bytes to sort descriptors by,
    eight more to break ties with. The padding is order preserving but not injective. */
module Keys {
  import opened MachineTypes
  import opened SuffixOrder

  /** The w bytes at p as a big-endian number, padded with 0 past the end of the text. */
  function PaddedKey(t: Text, p: nat, w: nat): nat {
    if w == 0 then 0 else PaddedKey(t, p, w - 1) * 0x100 + ByteAt(t, p + w - 1)
  }

  /** The descriptor key of the suffix at p. */
  function Key(t: Text, p: nat): (k: uint32)
    ensures k < 0x100_0000
  {
    ByteAt(t, p) * 0x1_0000 + ByteAt(t, p + 1) * 0x100 + ByteAt(t, p + 2)
  }

  /** The tie-break key: the eight bytes after the descriptor key of the suffix at p. */
  function EKey(t: Text, p: nat): nat {
    PaddedKey(t, p + 3, 8)
  }

  /** One column to the left: the new leading byte enters at the top and the last byte drops out.
      The two halves have no bit in common, so the source's OR is this sum. */
  function Slide(c: byte, key: uint32): uint32
    requires key < 0x100_0000
  {
    c * 0x1_0000 + key / 0x100
  }

  lemma KeyIsPadded(t: Text, p: nat)
    ensures Key(t, p) == PaddedKey(t, p, 3)
  {
    assert PaddedKey(t, p, 1) == ByteAt(t, p);
    assert PaddedKey(t, p, 2) == ByteAt(t, p) * 0x100 + ByteAt(t, p + 1);
  }

  /** The slide needs no end-of-text case. */
  lemma SlideIsExact(t: Text, p: nat)
    requires p < |t|
    ensures Slide(t[p], Key(t, p + 1)) == Key(t, p)
  {
    assert Key(t, p + 1) == (ByteAt(t, p + 1) * 0x100 + ByteAt(t, p + 2)) * 0x100 + ByteAt(t, p + 3);
  }

  /** Keys that agree through a constant prepend still agree. */
  lemma EqualKeysSlide(t: Text, a: nat, b: nat)
    requires a < |t| && b < |t| && t[a] == t[b]
    requires Key(t, a + 1) == Key(t, b + 1)
    ensures Key(t, a) == Key(t, b)
  {
    SlideIsExact(t, a);
    SlideIsExact(t, b);
  }

  /** Equal padded keys are equal byte for byte, padding included. */
  lemma {:induction false} EqualKeysAgree(t: Text, a: nat, b: nat, j: nat, w: nat)
    requires AgreeUpTo(t, a, b, j)
    requires PaddedKey(t, a + j, w) == PaddedKey(t, b + j, w)
    ensures AgreeUpTo(t, a, b, j + w)
    decreases w
  {
    if w > 0 {
      EqualKeysAgree(t, a, b, j, w - 1);
      assert Agree(t, a, b, j + w - 1);
    }
  }

  /** A strictly smaller padded key, after j bytes that agree, is a strictly smaller suffix. */
  lemma {:induction false} SmallerKeyIsLess(t: Text, a: nat, b: nat, j: nat, w: nat)
    requires a <= |t| && b <= |t|
    requires AgreeUpTo(t, a, b, j)
    requires PaddedKey(t, a + j, w) < PaddedKey(t, b + j, w)
    ensures Less(t, a, b)
    decreases w
  {
    if PaddedKey(t, a + j, w - 1) < PaddedKey(t, b + j, w - 1) {
      SmallerKeyIsLess(t, a, b, j, w - 1);
    } else {
      EqualKeysAgree(t, a, b, j, w - 1);
      FirstDifferenceDecides(t, a, b, j + w - 1);
    }
  }

  lemma KeyOrder(t: Text, a: nat, b: nat)
    requires a <= |t| && b <= |t|
    requires Key(t, a) < Key(t, b)
    ensures Less(t, a, b)
  {
    KeyIsPadded(t, a);
    KeyIsPadded(t, b);
    SmallerKeyIsLess(t, a, b, 0, 3);
  }

  /** Along a sorted list the keys never decrease, so equal keys are adjacent. */
  lemma SortedKeysAscend(t: Text, s: seq<nat>, i: nat, j: nat)
    requires InText(t, s) && Sorted(t, s)
    requires i <= j < |s|
    ensures Key(t, s[i]) <= Key(t, s[j])
  {
    if Key(t, s[j]) < Key(t, s[i]) {
      KeyOrder(t, s[j], s[i]);
      LessTotal(t, s[i], s[j]);
    }
  }

  lemma EqualKeyAgree(t: Text, a: nat, b: nat)
    requires Key(t, a) == Key(t, b)
    ensures AgreeUpTo(t, a, b, 3)
  {
    KeyIsPadded(t, a);
    KeyIsPadded(t, b);
    EqualKeysAgree(t, a, b, 0, 3);
  }

  /** Within a key group the eight-byte key decides whenever it differs. */
  lemma EKeyOrder(t: Text, a: nat, b: nat)
    requires a <= |t| && b <= |t|
    requires Key(t, a) == Key(t, b) && EKey(t, a) < EKey(t, b)
    ensures Less(t, a, b)
  {
    EqualKeyAgree(t, a, b);
    SmallerKeyIsLess(t, a, b, 3, 8);
  }

  /** Neither key separates these two suffixes: eleven padded bytes agree. */
  lemma EqualEKeyAgree(t: Text, a: nat, b: nat)
    requires Key(t, a) == Key(t, b) && EKey(t, a) == EKey(t, b)
    ensures AgreeUpTo(t, a, b, 11)
  {
    EqualKeyAgree(t, a, b);
    EqualKeysAgree(t, a, b, 3, 8);
  }

  /** A padded key of w bytes fits w bytes; the source never reads one wider than eight. */
  lemma {:induction false} KeyFits(t: Text, p: nat, w: nat)
    requires w <= 8
    ensures PaddedKey(t, p, w) < [0x1, 0x100, 0x1_0000, 0x100_0000, 0x1_0000_0000, 0x100_0000_0000,
                                  0x1_0000_0000_0000, 0x100_0000_0000_0000, 0x1_0000_0000_0000_0000][w]
  {
    if w > 0 { KeyFits(t, p, w - 1); }
  }

  /** A load of w bytes followed by a byte swap. */
  function LoadBig(t: Text, p: nat, w: nat): nat
    requires p + w <= |t|
  {
    if w == 0 then 0 else LoadBig(t, p, w - 1) * 0x100 + t[p + w - 1]
  }

  lemma {:induction false} LoadIsPaddedKey(t: Text, p: nat, w: nat)
    requires p + w <= |t|
    ensures LoadBig(t, p, w) == PaddedKey(t, p, w)
  {
    if w > 0 { LoadIsPaddedKey(t, p, w - 1); }
  }

  /** key32 with DSA_KEY_BYTES == 3: a four-byte load shifted down, or a padded loop at the end. */
  method Key32(t: Text, p: nat) returns (k: uint32)
    ensures k == Key(t, p)
  {
    if p + 4 <= |t| {
      LoadIsPaddedKey(t, p, 4);
      KeyFits(t, p, 4);
      KeyIsPadded(t, p);
      k := LoadBig(t, p, 4) / 0x100;
      return;
    }
    k := 0;
    for i := 0 to 3
      invariant k == PaddedKey(t, p, i)
    {
      KeyFits(t, p, i);
      KeyFits(t, p, i + 1);
      k := k * 0x100;
      if p + i < |t| { k := k + t[p + i]; }
    }
    KeyIsPadded(t, p);
  }

  /** ekey64 at the byte just past the descriptor key of the suffix at p. */
  method EKey64(t: Text, p: nat) returns (k: uint64)
    ensures k == EKey(t, p)
  {
    var at := p + 3;
    KeyFits(t, at, 8);
    if at + 8 <= |t| {
      LoadIsPaddedKey(t, at, 8);
      k := LoadBig(t, at, 8);
      return;
    }
    k := 0;
    for i := 0 to 8
      invariant k == PaddedKey(t, at, i)
    {
      KeyFits(t, at, i + 1);
      k := k * 0x100;
      if at + i < |t| { k := k + t[at + i]; }
    }
  }
}
