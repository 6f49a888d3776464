/** Four-lane vectors and the x86 SHA instructions of native/sha256ni.c, lane by lane. Lane x0 is
    the least significant. */
module Sha256Vectors {
  import opened Sha256Spec

  datatype Vec = Vec(x0: bv32, x1: bv32, x2: bv32, x3: bv32)

  /** The key constants of rounds 4r to 4r + 3. */
  function KVec(r: nat): Vec
    requires r < 16
  {
    Vec(K(4 * r), K(4 * r + 1), K(4 * r + 2), K(4 * r + 3))
  }

  function AddVec(a: Vec, b: Vec): Vec { Vec(Plus(a.x0, b.x0), Plus(a.x1, b.x1), Plus(a.x2, b.x2), Plus(a.x3, b.x3)) }

  /** Sixteen bytes, each word's bytes swapped to big-endian. */
  function LoadVec(m: Octets, at: nat): Vec
    requires at + 16 <= |m|
  {
    Vec(BigEndianWord(m[at], m[at + 1], m[at + 2], m[at + 3]),
        BigEndianWord(m[at + 4], m[at + 5], m[at + 6], m[at + 7]),
        BigEndianWord(m[at + 8], m[at + 9], m[at + 10], m[at + 11]),
        BigEndianWord(m[at + 12], m[at + 13], m[at + 14], m[at + 15]))
  }

  /** alignr by one word: the three upper lanes of low, then the lowest lane of high. */
  function AlignRight4(high: Vec, low: Vec): Vec { Vec(low.x1, low.x2, low.x3, high.x0) }

  /** alignr by two words. */
  function AlignRight8(high: Vec, low: Vec): Vec { Vec(low.x2, low.x3, high.x0, high.x1) }

  /** blend 0xF0: the low half of a, the high half of b. */
  function BlendHigh(a: Vec, b: Vec): Vec { Vec(a.x0, a.x1, b.x2, b.x3) }

  /** shuffle 0xB1 swaps neighbours, 0x1B reverses, 0x0E brings the high half down. */
  function ShuffleB1(a: Vec): Vec { Vec(a.x1, a.x0, a.x3, a.x2) }
  function Shuffle1B(a: Vec): Vec { Vec(a.x3, a.x2, a.x1, a.x0) }
  function Shuffle0E(a: Vec): Vec { Vec(a.x2, a.x3, a.x0, a.x0) }

  /** One of the two rounds inside sha256rnds2, with key and message already added. */
  function RoundWk(s: State, wk: bv32): State {
    var t := Plus(Plus(Plus(Ch(s.e, s.f, s.g), BigSigma1(s.e)), wk), s.h);
    State(Plus(Plus(t, Maj(s.a, s.b, s.c)), BigSigma0(s.a)), s.a, s.b, s.c, Plus(t, s.d), s.e, s.f, s.g)
  }

  /** sha256rnds2: cdgh holds C,D,G,H and abef holds A,B,E,F from the top lane down; the result is
      the new A,B,E,F after two rounds. */
  function Rnds2(cdgh: Vec, abef: Vec, wk: Vec): Vec {
    var s := State(abef.x3, abef.x2, cdgh.x3, cdgh.x2, abef.x1, abef.x0, cdgh.x1, cdgh.x0);
    var r := RoundWk(RoundWk(s, wk.x0), wk.x1);
    Vec(r.f, r.e, r.b, r.a)
  }

  /** sha256msg1 and sha256msg2: the two halves of the message schedule. */
  function Msg1(a: Vec, b: Vec): Vec {
    Vec(Plus(a.x0, SmallSigma0(a.x1)), Plus(a.x1, SmallSigma0(a.x2)),
        Plus(a.x2, SmallSigma0(a.x3)), Plus(a.x3, SmallSigma0(b.x0)))
  }

  function Msg2(a: Vec, d: Vec): Vec {
    var w16 := Plus(a.x0, SmallSigma1(d.x2));
    var w17 := Plus(a.x1, SmallSigma1(d.x3));
    Vec(w16, w17, Plus(a.x2, SmallSigma1(w16)), Plus(a.x3, SmallSigma1(w17)))
  }

  /** The two register layouts of a state. */
  function Abef(s: State): Vec { Vec(s.f, s.e, s.b, s.a) }
  function Cdgh(s: State): Vec { Vec(s.h, s.g, s.d, s.c) }

  lemma PlusCommutes(a: bv32, b: bv32)
    ensures Plus(a, b) == Plus(b, a)
  {}

  lemma AddAssociates(a: bv32, b: bv32, c: bv32)
    ensures (a + b) + c == a + (b + c)
  {}

  lemma PlusAssociates(a: bv32, b: bv32, c: bv32)
    ensures Plus(Plus(a, b), c) == Plus(a, Plus(b, c))
  {
    AddAssociates(a, b, c);
    assert Plus(a, b) == a + b && Plus(b, c) == b + c;
    calc {
      Plus(Plus(a, b), c);
      Plus(a + b, c);
      (a + b) + c;
      a + (b + c);
      Plus(a, b + c);
      Plus(a, Plus(b, c));
    }
  }

  /** T1 as the instruction adds it up is T1 as the standard does. */
  lemma SumOfFive(ch: bv32, s1: bv32, w: bv32, k: bv32, h: bv32)
    ensures Plus(Plus(Plus(ch, s1), Plus(w, k)), h) == Plus(Plus(Plus(Plus(h, s1), ch), k), w)
  {
    hide Plus;
    PlusCommutes(Plus(Plus(ch, s1), Plus(w, k)), h);
    PlusAssociates(h, Plus(ch, s1), Plus(w, k));
    PlusCommutes(ch, s1);
    PlusAssociates(h, s1, ch);
    PlusCommutes(w, k);
    PlusAssociates(Plus(Plus(h, s1), ch), k, w);
  }

  lemma SumOfFour(a: bv32, b: bv32, c: bv32, d: bv32)
    ensures Plus(Plus(Plus(a, b), c), d) == Plus(Plus(Plus(d, c), b), a)
  {
    hide Plus;
    PlusCommutes(Plus(Plus(a, b), c), d);
    PlusCommutes(Plus(a, b), c);
    PlusAssociates(d, c, Plus(a, b));
    PlusCommutes(a, b);
    PlusAssociates(Plus(d, c), b, a);
  }

  lemma RoundWkIsRound(s: State, k: bv32, w: bv32)
    ensures RoundWk(s, Plus(w, k)) == Round(s, k, w)
  {
    hide Ch, BigSigma1, Maj, BigSigma0, Plus;
    var ch, s1, mj, s0 := Ch(s.e, s.f, s.g), BigSigma1(s.e), Maj(s.a, s.b, s.c), BigSigma0(s.a);
    SumOfFive(ch, s1, w, k, s.h);
    var t1 := Plus(Plus(Plus(Plus(s.h, s1), ch), k), w);
    PlusAssociates(t1, mj, s0);
    PlusCommutes(mj, s0);
    PlusCommutes(t1, s.d);
  }

  /** Two rounds in one instruction. The new C,D,G,H is the old A,B,E,F, so one register serves. */
  lemma Rnds2IsTwoRounds(s: State, block: Octets, t: nat, wk: Vec)
    requires |block| == 64 && t + 2 <= 64
    requires wk.x0 == Plus(W(block, t), K(t)) && wk.x1 == Plus(W(block, t + 1), K(t + 1))
    ensures var s0, s2 := Rounds(s, block, t), Rounds(s, block, t + 2);
            Rnds2(Cdgh(s0), Abef(s0), wk) == Abef(s2) && Abef(s0) == Cdgh(s2)
  {
    hide W, Rounds, Round, RoundWk, K, Plus;
    var s0, s1, s2 := Rounds(s, block, t), Rounds(s, block, t + 1), Rounds(s, block, t + 2);
    RoundsNext(s, block, t);
    RoundsNext(s, block, t + 1);
    RoundWkIsRound(s0, K(t), W(block, t));
    RoundWkIsRound(s1, K(t + 1), W(block, t + 1));
    RoundShifts(s0, K(t), W(block, t));
    RoundShifts(s1, K(t + 1), W(block, t + 1));
  }

  lemma RoundsNext(s: State, block: Octets, t: nat)
    requires |block| == 64 && t < 64
    ensures Rounds(s, block, t + 1) == Round(Rounds(s, block, t), K(t), W(block, t))
  {
    hide W, Round, K;
  }

  /** A round moves six of the eight words along unchanged. */
  lemma RoundShifts(s: State, k: bv32, w: bv32)
    ensures var r := Round(s, k, w); r.b == s.a && r.c == s.b && r.d == s.c && r.f == s.e && r.g == s.f && r.h == s.g
  {
    hide Ch, BigSigma0, BigSigma1, Maj, Plus;
  }

  /** Four consecutive schedule words. */
  function Ws(block: Octets, t: nat): Vec
    requires |block| == 64
  {
    Vec(W(block, t), W(block, t + 1), W(block, t + 2), W(block, t + 3))
  }

  /** The order in which the two instructions and the add between them sum up one word. */
  lemma ScheduleWord(block: Octets, t: nat)
    requires |block| == 64 && t >= 16
    ensures W(block, t)
            == Plus(Plus(Plus(W(block, t - 16), SmallSigma0(W(block, t - 15))), W(block, t - 7)),
                    SmallSigma1(W(block, t - 2)))
  {
    hide SmallSigma0, SmallSigma1, BigEndianWord, Plus;
    SumOfFour(W(block, t - 16), SmallSigma0(W(block, t - 15)), W(block, t - 7), SmallSigma1(W(block, t - 2)));
  }

  /** The rolling schedule: from sixteen words in four registers to the next four. */
  lemma ScheduleStep(block: Octets, t: nat)
    requires |block| == 64
    ensures Msg2(AddVec(Msg1(Ws(block, t), Ws(block, t + 4)), AlignRight4(Ws(block, t + 12), Ws(block, t + 8))),
                 Ws(block, t + 12))
         == Ws(block, t + 16)
  {
    hide W, SmallSigma0, SmallSigma1, Plus;
    ScheduleWord(block, t + 16);
    ScheduleWord(block, t + 17);
    ScheduleWord(block, t + 18);
    ScheduleWord(block, t + 19);
  }
}
