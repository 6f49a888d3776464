/** native/sha256arm.c: the same two entry points on the ARMv8 SHA instructions, with another
    register layout and another interleaving of key additions, schedule and rounds. */
module Sha256Arm {
  import opened Sha256Spec
  import opened Sha256Vectors
  import opened Sha256Tail

  // The instructions, lane by lane.

  function Choose(x: bv32, y: bv32, z: bv32): bv32 { ((y ^ z) & x) ^ z }
  function Majority(x: bv32, y: bv32, z: bv32): bv32 { (x & y) | ((x | y) & z) }

  lemma ChooseBits(x: bv32, y: bv32, z: bv32)
    ensures ((y ^ z) & x) ^ z == (x & y) ^ (!x & z)
  {}

  lemma MajorityBits(x: bv32, y: bv32, z: bv32)
    ensures (x & y) | ((x | y) & z) == (x & y) ^ (x & z) ^ (y & z)
  {}

  lemma ChooseIsCh(x: bv32, y: bv32, z: bv32)
    ensures Choose(x, y, z) == Ch(x, y, z)
  {
    ChooseBits(x, y, z);
  }

  lemma MajorityIsMaj(x: bv32, y: bv32, z: bv32)
    ensures Majority(x, y, z) == Maj(x, y, z)
  {
    MajorityBits(x, y, z);
  }

  /** The two register layouts: word A, and word E, in the lowest lane. */
  function Abcd(s: State): Vec { Vec(s.a, s.b, s.c, s.d) }
  function Efgh(s: State): Vec { Vec(s.e, s.f, s.g, s.h) }

  /** One of the four rounds inside sha256h and sha256h2: new A over new D, the rest rotated. */
  function HashRound(x: Vec, y: Vec, wk: bv32): (Vec, Vec) {
    var t := Plus(Plus(Plus(y.x3, BigSigma1(y.x0)), Choose(y.x0, y.x1, y.x2)), wk);
    var a := Plus(Plus(t, BigSigma0(x.x0)), Majority(x.x0, x.x1, x.x2));
    (Vec(a, x.x0, x.x1, x.x2), Vec(Plus(t, x.x3), y.x0, y.x1, y.x2))
  }

  function HashRounds(x: Vec, y: Vec, wk: Vec): (Vec, Vec) {
    var (x1, y1) := HashRound(x, y, wk.x0);
    var (x2, y2) := HashRound(x1, y1, wk.x1);
    var (x3, y3) := HashRound(x2, y2, wk.x2);
    HashRound(x3, y3, wk.x3)
  }

  /** sha256h gives the new A..D, sha256h2 the new E..H; each reads the old state. */
  function Sha256H(abcd: Vec, efgh: Vec, wk: Vec): Vec { HashRounds(abcd, efgh, wk).0 }
  function Sha256H2(efgh: Vec, abcd: Vec, wk: Vec): Vec { HashRounds(abcd, efgh, wk).1 }

  /** sha256su0 and sha256su1: the two halves of the message schedule. */
  function Su0(a: Vec, b: Vec): Vec {
    Vec(Plus(SmallSigma0(a.x1), a.x0), Plus(SmallSigma0(a.x2), a.x1),
        Plus(SmallSigma0(a.x3), a.x2), Plus(SmallSigma0(b.x0), a.x3))
  }

  function Su1(a: Vec, c: Vec, d: Vec): Vec {
    var w16 := Plus(Plus(SmallSigma1(d.x2), a.x0), c.x1);
    var w17 := Plus(Plus(SmallSigma1(d.x3), a.x1), c.x2);
    Vec(w16, w17, Plus(Plus(SmallSigma1(w16), a.x2), c.x3), Plus(Plus(SmallSigma1(w17), a.x3), d.x0))
  }

  // What they compute.

  lemma HashRoundIsRound(s: State, k: bv32, w: bv32)
    ensures var r := Round(s, k, w); HashRound(Abcd(s), Efgh(s), Plus(w, k)) == (Abcd(r), Efgh(r))
  {
    ChooseIsCh(s.e, s.f, s.g);
    MajorityIsMaj(s.a, s.b, s.c);
    hide Ch, BigSigma1, Maj, BigSigma0, Plus, Choose, Majority;
    var head := Plus(Plus(s.h, BigSigma1(s.e)), Ch(s.e, s.f, s.g));
    PlusCommutes(w, k);
    PlusAssociates(head, k, w);
    var t1 := Plus(Plus(head, k), w);
    PlusAssociates(t1, BigSigma0(s.a), Maj(s.a, s.b, s.c));
    PlusCommutes(t1, s.d);
  }

  /** One pair of instructions is four rounds. */
  lemma HashRoundsAreFour(st: State, block: Octets, t: nat)
    requires |block| == 64 && t + 4 <= 64
    ensures var s, r := Rounds(st, block, t), Rounds(st, block, t + 4);
            var wk := AddVec(Ws(block, t), Vec(K(t), K(t + 1), K(t + 2), K(t + 3)));
            Sha256H(Abcd(s), Efgh(s), wk) == Abcd(r) && Sha256H2(Efgh(s), Abcd(s), wk) == Efgh(r)
  {
    hide W, K, Rounds, Round, HashRound, Abcd, Efgh, Plus;
    FourthRound(st, block, t);
    FourthRound(st, block, t + 1);
    FourthRound(st, block, t + 2);
    FourthRound(st, block, t + 3);
  }

  lemma FourthRound(st: State, block: Octets, t: nat)
    requires |block| == 64 && t < 64
    ensures var s, r := Rounds(st, block, t), Rounds(st, block, t + 1);
            HashRound(Abcd(s), Efgh(s), Plus(W(block, t), K(t))) == (Abcd(r), Efgh(r))
  {
    hide W, K, Rounds, Round, HashRound, Abcd, Efgh, Plus;
    RoundsNext(st, block, t);
    HashRoundIsRound(Rounds(st, block, t), K(t), W(block, t));
  }

  lemma ScheduleWordArm(block: Octets, t: nat)
    requires |block| == 64 && t >= 16
    ensures W(block, t)
            == Plus(Plus(SmallSigma1(W(block, t - 2)), Plus(SmallSigma0(W(block, t - 15)), W(block, t - 16))),
                    W(block, t - 7))
  {
    hide SmallSigma0, SmallSigma1, BigEndianWord, Plus;
    var a, b, c, d := SmallSigma1(W(block, t - 2)), W(block, t - 7), SmallSigma0(W(block, t - 15)), W(block, t - 16);
    PlusAssociates(a, Plus(c, d), b);
    PlusCommutes(Plus(c, d), b);
    PlusAssociates(b, c, d);
    PlusAssociates(a, Plus(b, c), d);
    PlusAssociates(a, b, c);
  }

  /** The rolling schedule on this instruction set. */
  lemma ScheduleStepArm(block: Octets, t: nat)
    requires |block| == 64
    ensures Su1(Su0(Ws(block, t), Ws(block, t + 4)), Ws(block, t + 8), Ws(block, t + 12)) == Ws(block, t + 16)
  {
    hide W, SmallSigma0, SmallSigma1, Plus;
    ScheduleWordArm(block, t + 16);
    ScheduleWordArm(block, t + 17);
    ScheduleWordArm(block, t + 18);
    ScheduleWordArm(block, t + 19);
  }

  // One block.

  /** Before group r the state is 4 * r rounds on, and the key sum for the group is already made. */
  ghost predicate Ready(st: State, block: Octets, r: nat, s0: Vec, s1: Vec, wk: Vec) {
    && |block| == 64 && r < 16
    && s0 == Abcd(Rounds(st, block, 4 * r)) && s1 == Efgh(Rounds(st, block, 4 * r))
    && wk == AddVec(Ws(block, 4 * r), KVec(r))
  }

  /** The message registers before group r; the first is overwritten while its sum is in use. */
  ghost predicate Scheduled(block: Octets, r: nat, a: Vec, b: Vec, c: Vec, d: Vec) {
    && |block| == 64
    && a == Ws(block, 4 * r) && b == Ws(block, 4 * r + 4) && c == Ws(block, 4 * r + 8) && d == Ws(block, 4 * r + 12)
  }

  lemma NextGroup(st: State, block: Octets, r: nat, s0: Vec, s1: Vec, wk: Vec, next: Vec)
    requires r < 15 && Ready(st, block, r, s0, s1, wk) && next == Ws(block, 4 * r + 4)
    ensures Ready(st, block, r + 1, Sha256H(s0, s1, wk), Sha256H2(s1, s0, wk), AddVec(next, KVec(r + 1)))
  {
    hide Ws, Rounds, AddVec, Sha256H, Sha256H2, Abcd, Efgh, K;
    HashRoundsAreFour(st, block, 4 * r);
  }

  lemma LastGroup(st: State, block: Octets, s0: Vec, s1: Vec, wk: Vec)
    requires Ready(st, block, 15, s0, s1, wk)
    ensures Sha256H(s0, s1, wk) == Abcd(Rounds(st, block, 64)) && Sha256H2(s1, s0, wk) == Efgh(Rounds(st, block, 64))
  {
    hide Ws, Rounds, AddVec, Sha256H, Sha256H2, Abcd, Efgh;
    HashRoundsAreFour(st, block, 60);
  }

  lemma NextSchedule(block: Octets, r: nat, a: Vec, b: Vec, c: Vec, d: Vec)
    requires Scheduled(block, r, a, b, c, d)
    ensures Scheduled(block, r + 1, b, c, d, Su1(Su0(a, b), c, d))
  {
    hide Ws, Su0, Su1;
    ScheduleStepArm(block, 4 * r);
  }

  /** One of the first twelve groups of sha256_one_block. */
  method Stanza(r: nat, p0: Vec, p1: Vec, a: Vec, b: Vec, c: Vec, d: Vec, tin: Vec, ghost st: State,
                ghost block: Octets)
    returns (s0: Vec, s1: Vec, a': Vec, tout: Vec)
    requires r < 12 && Ready(st, block, r, p0, p1, tin) && Scheduled(block, r, a, b, c, d)
    ensures Ready(st, block, r + 1, s0, s1, tout) && Scheduled(block, r + 1, b, c, d, a')
  {
    hide Ready, Ws, Su0, Su1, AddVec, KVec, Sha256H, Sha256H2;
    NextGroup(st, block, r, p0, p1, tin, b);
    NextSchedule(block, r, a, b, c, d);
    a' := Su0(a, b);
    var tmp2 := p0;
    tout := AddVec(b, KVec(r + 1));
    s0 := Sha256H(p0, p1, tin);
    s1 := Sha256H2(p1, tmp2, tin);
    a' := Su1(a', c, d);
  }

  /** One of the last groups, without a schedule step. */
  method Closing(r: nat, p0: Vec, p1: Vec, b: Vec, tin: Vec, ghost st: State, ghost block: Octets)
    returns (s0: Vec, s1: Vec, tout: Vec)
    requires 12 <= r < 15 && Ready(st, block, r, p0, p1, tin) && b == Ws(block, 4 * r + 4)
    ensures Ready(st, block, r + 1, s0, s1, tout)
  {
    hide Ready, Ws, AddVec, KVec, Sha256H, Sha256H2;
    NextGroup(st, block, r, p0, p1, tin, b);
    var tmp2 := p0;
    tout := AddVec(b, KVec(r + 1));
    s0 := Sha256H(p0, p1, tin);
    s1 := Sha256H2(p1, tmp2, tin);
  }

  /** The two register halves of a state. */
  ghost predicate Holds(s: State, s0: Vec, s1: Vec) { s0 == Abcd(s) && s1 == Efgh(s) }

  lemma FirstGroup(s: State, block: Octets, s0: Vec, s1: Vec, a: Vec, b: Vec, c: Vec, d: Vec)
    requires Holds(s, s0, s1) && Scheduled(block, 0, a, b, c, d)
    ensures Ready(s, block, 0, s0, s1, AddVec(a, KVec(0)))
  {
    hide Ws, AddVec, KVec;
  }

  lemma LastWords(block: Octets, a: Vec, b: Vec, c: Vec, d: Vec)
    requires Scheduled(block, 12, a, b, c, d)
    ensures |block| == 64 && b == Ws(block, 4 * 12 + 4) && c == Ws(block, 4 * 13 + 4) && d == Ws(block, 4 * 14 + 4)
  {
    hide Ws;
  }

  /** The saved input state is added lane by lane. */
  lemma BlockCloses(s: State, block: Octets, p0: Vec, p1: Vec, s0: Vec, s1: Vec)
    requires |block| == 64 && Holds(s, p0, p1)
    requires s0 == Abcd(Rounds(s, block, 64)) && s1 == Efgh(Rounds(s, block, 64))
    ensures Holds(Compress(s, block), AddVec(s0, p0), AddVec(s1, p1))
  {
    hide Rounds, Plus;
  }

  method LoadBlock(m: Octets, at: nat) returns (m0: Vec, m1: Vec, m2: Vec, m3: Vec)
    requires at + 64 <= |m|
    ensures Scheduled(m[at..at + 64], 0, m0, m1, m2, m3)
  {
    hide BigEndianWord;
    ghost var block := m[at..at + 64];
    forall t: nat | t < 16
      ensures W(block, t) == BigEndianWord(m[at + 4 * t], m[at + 4 * t + 1], m[at + 4 * t + 2], m[at + 4 * t + 3])
    {}
    m0, m1, m2, m3 := LoadVec(m, at), LoadVec(m, at + 16), LoadVec(m, at + 32), LoadVec(m, at + 48);
  }

  /** sha256_one_block: the next group's key sum is made before this group's rounds. */
  method OneBlock(p0: Vec, p1: Vec, data: Octets, at: nat, ghost s: State) returns (s0: Vec, s1: Vec)
    requires at + 64 <= |data| && Holds(s, p0, p1)
    ensures Holds(Compress(s, data[at..at + 64]), s0, s1)
  {
    hide *;
    ghost var bk := data[at..at + 64];
    s0, s1 := p0, p1;
    var m0, m1, m2, m3 := LoadBlock(data, at);
    FirstGroup(s, bk, s0, s1, m0, m1, m2, m3);
    var t0 := AddVec(m0, KVec(0));
    var t1;
    s0, s1, m0, t1 := Stanza(0, s0, s1, m0, m1, m2, m3, t0, s, bk);
    s0, s1, m1, t0 := Stanza(1, s0, s1, m1, m2, m3, m0, t1, s, bk);
    s0, s1, m2, t1 := Stanza(2, s0, s1, m2, m3, m0, m1, t0, s, bk);
    s0, s1, m3, t0 := Stanza(3, s0, s1, m3, m0, m1, m2, t1, s, bk);
    s0, s1, m0, t1 := Stanza(4, s0, s1, m0, m1, m2, m3, t0, s, bk);
    s0, s1, m1, t0 := Stanza(5, s0, s1, m1, m2, m3, m0, t1, s, bk);
    s0, s1, m2, t1 := Stanza(6, s0, s1, m2, m3, m0, m1, t0, s, bk);
    s0, s1, m3, t0 := Stanza(7, s0, s1, m3, m0, m1, m2, t1, s, bk);
    s0, s1, m0, t1 := Stanza(8, s0, s1, m0, m1, m2, m3, t0, s, bk);
    s0, s1, m1, t0 := Stanza(9, s0, s1, m1, m2, m3, m0, t1, s, bk);
    s0, s1, m2, t1 := Stanza(10, s0, s1, m2, m3, m0, m1, t0, s, bk);
    s0, s1, m3, t0 := Stanza(11, s0, s1, m3, m0, m1, m2, t1, s, bk);
    LastWords(bk, m0, m1, m2, m3);
    s0, s1, t1 := Closing(12, s0, s1, m1, t0, s, bk);
    s0, s1, t0 := Closing(13, s0, s1, m2, t1, s, bk);
    s0, s1, t1 := Closing(14, s0, s1, m3, t0, s, bk);
    LastGroup(s, bk, s0, s1, t1);
    s0, s1 := Sha256H(s0, s1, t1), Sha256H2(s1, s0, t1);
    BlockCloses(s, bk, p0, p1, s0, s1);
    s0, s1 := AddVec(s0, p0), AddVec(s1, p1);
  }

  /** PAIR_SU: the same step of both messages, instruction by instruction side by side. */
  method PairStanza(r: nat, p0: Vec, p1: Vec, a: Vec, b: Vec, c: Vec, d: Vec, tin: Vec, ghost st: State,
                    ghost block: Octets,
                    P0: Vec, P1: Vec, A: Vec, B: Vec, C: Vec, D: Vec, Tin: Vec, ghost St: State,
                    ghost Block: Octets)
    returns (s0: Vec, s1: Vec, a': Vec, tout: Vec, S0: Vec, S1: Vec, A': Vec, Tout: Vec)
    requires r < 12 && Ready(st, block, r, p0, p1, tin) && Scheduled(block, r, a, b, c, d)
    requires Ready(St, Block, r, P0, P1, Tin) && Scheduled(Block, r, A, B, C, D)
    ensures Ready(st, block, r + 1, s0, s1, tout) && Scheduled(block, r + 1, b, c, d, a')
    ensures Ready(St, Block, r + 1, S0, S1, Tout) && Scheduled(Block, r + 1, B, C, D, A')
  {
    hide Ready, Ws, Su0, Su1, AddVec, KVec, Sha256H, Sha256H2;
    NextGroup(st, block, r, p0, p1, tin, b);
    NextSchedule(block, r, a, b, c, d);
    NextGroup(St, Block, r, P0, P1, Tin, B);
    NextSchedule(Block, r, A, B, C, D);
    a' := Su0(a, b);
    A' := Su0(A, B);
    tout := AddVec(b, KVec(r + 1));
    Tout := AddVec(B, KVec(r + 1));
    s0, s1 := Sha256H(p0, p1, tin), Sha256H2(p1, p0, tin);
    S0, S1 := Sha256H(P0, P1, Tin), Sha256H2(P1, P0, Tin);
    a' := Su1(a', c, d);
    A' := Su1(A', C, D);
  }

  method PairClosing(r: nat, p0: Vec, p1: Vec, b: Vec, tin: Vec, ghost st: State, ghost block: Octets,
                     P0: Vec, P1: Vec, B: Vec, Tin: Vec, ghost St: State, ghost Block: Octets)
    returns (s0: Vec, s1: Vec, tout: Vec, S0: Vec, S1: Vec, Tout: Vec)
    requires 12 <= r < 15 && Ready(st, block, r, p0, p1, tin) && b == Ws(block, 4 * r + 4)
    requires Ready(St, Block, r, P0, P1, Tin) && B == Ws(Block, 4 * r + 4)
    ensures Ready(st, block, r + 1, s0, s1, tout) && Ready(St, Block, r + 1, S0, S1, Tout)
  {
    hide Ready, Ws, AddVec, KVec, Sha256H, Sha256H2;
    NextGroup(st, block, r, p0, p1, tin, b);
    NextGroup(St, Block, r, P0, P1, Tin, B);
    tout := AddVec(b, KVec(r + 1));
    Tout := AddVec(B, KVec(r + 1));
    s0, s1 := Sha256H(p0, p1, tin), Sha256H2(p1, p0, tin);
    S0, S1 := Sha256H(P0, P1, Tin), Sha256H2(P1, P0, Tin);
  }

  /** sha256_two_block. */
  method TwoBlocks(p0: Vec, p1: Vec, da: Octets, P0: Vec, P1: Vec, db: Octets, at: nat, ghost s: State, ghost S: State)
    returns (s0: Vec, s1: Vec, S0: Vec, S1: Vec)
    requires at + 64 <= |da| && at + 64 <= |db| && Holds(s, p0, p1) && Holds(S, P0, P1)
    ensures Holds(Compress(s, da[at..at + 64]), s0, s1) && Holds(Compress(S, db[at..at + 64]), S0, S1)
  {
    hide *;
    ghost var bk, Bk := da[at..at + 64], db[at..at + 64];
    s0, s1, S0, S1 := p0, p1, P0, P1;
    var m0, m1, m2, m3 := LoadBlock(da, at);
    var n0, n1, n2, n3 := LoadBlock(db, at);
    FirstGroup(s, bk, s0, s1, m0, m1, m2, m3);
    FirstGroup(S, Bk, S0, S1, n0, n1, n2, n3);
    var t0, T0 := AddVec(m0, KVec(0)), AddVec(n0, KVec(0));
    var t1, T1;
    s0, s1, m0, t1, S0, S1, n0, T1 :=
      PairStanza(0, s0, s1, m0, m1, m2, m3, t0, s, bk, S0, S1, n0, n1, n2, n3, T0, S, Bk);
    s0, s1, m1, t0, S0, S1, n1, T0 :=
      PairStanza(1, s0, s1, m1, m2, m3, m0, t1, s, bk, S0, S1, n1, n2, n3, n0, T1, S, Bk);
    s0, s1, m2, t1, S0, S1, n2, T1 :=
      PairStanza(2, s0, s1, m2, m3, m0, m1, t0, s, bk, S0, S1, n2, n3, n0, n1, T0, S, Bk);
    s0, s1, m3, t0, S0, S1, n3, T0 :=
      PairStanza(3, s0, s1, m3, m0, m1, m2, t1, s, bk, S0, S1, n3, n0, n1, n2, T1, S, Bk);
    s0, s1, m0, t1, S0, S1, n0, T1 :=
      PairStanza(4, s0, s1, m0, m1, m2, m3, t0, s, bk, S0, S1, n0, n1, n2, n3, T0, S, Bk);
    s0, s1, m1, t0, S0, S1, n1, T0 :=
      PairStanza(5, s0, s1, m1, m2, m3, m0, t1, s, bk, S0, S1, n1, n2, n3, n0, T1, S, Bk);
    s0, s1, m2, t1, S0, S1, n2, T1 :=
      PairStanza(6, s0, s1, m2, m3, m0, m1, t0, s, bk, S0, S1, n2, n3, n0, n1, T0, S, Bk);
    s0, s1, m3, t0, S0, S1, n3, T0 :=
      PairStanza(7, s0, s1, m3, m0, m1, m2, t1, s, bk, S0, S1, n3, n0, n1, n2, T1, S, Bk);
    s0, s1, m0, t1, S0, S1, n0, T1 :=
      PairStanza(8, s0, s1, m0, m1, m2, m3, t0, s, bk, S0, S1, n0, n1, n2, n3, T0, S, Bk);
    s0, s1, m1, t0, S0, S1, n1, T0 :=
      PairStanza(9, s0, s1, m1, m2, m3, m0, t1, s, bk, S0, S1, n1, n2, n3, n0, T1, S, Bk);
    s0, s1, m2, t1, S0, S1, n2, T1 :=
      PairStanza(10, s0, s1, m2, m3, m0, m1, t0, s, bk, S0, S1, n2, n3, n0, n1, T0, S, Bk);
    s0, s1, m3, t0, S0, S1, n3, T0 :=
      PairStanza(11, s0, s1, m3, m0, m1, m2, t1, s, bk, S0, S1, n3, n0, n1, n2, T1, S, Bk);
    LastWords(bk, m0, m1, m2, m3);
    LastWords(Bk, n0, n1, n2, n3);
    s0, s1, t1, S0, S1, T1 := PairClosing(12, s0, s1, m1, t0, s, bk, S0, S1, n1, T0, S, Bk);
    s0, s1, t0, S0, S1, T0 := PairClosing(13, s0, s1, m2, t1, s, bk, S0, S1, n2, T1, S, Bk);
    s0, s1, t1, S0, S1, T1 := PairClosing(14, s0, s1, m3, t0, s, bk, S0, S1, n3, T0, S, Bk);
    LastGroup(s, bk, s0, s1, t1);
    LastGroup(S, Bk, S0, S1, T1);
    s0, s1 := Sha256H(s0, s1, t1), Sha256H2(s1, s0, t1);
    S0, S1 := Sha256H(S0, S1, T1), Sha256H2(S1, S0, T1);
    BlockCloses(s, bk, p0, p1, s0, s1);
    BlockCloses(S, Bk, P0, P1, S0, S1);
    s0, s1, S0, S1 := AddVec(s0, p0), AddVec(s1, p1), AddVec(S0, P0), AddVec(S1, P1);
  }

  // Whole messages.

  /** The words in memory are the lanes in order. */
  method LoadState(st: array<bv32>) returns (s0: Vec, s1: Vec)
    requires st.Length == 8
    ensures Holds(ToState(st[..]), s0, s1)
  {
    s0, s1 := Vec(st[0], st[1], st[2], st[3]), Vec(st[4], st[5], st[6], st[7]);
  }

  method StoreState(st: array<bv32>, s0: Vec, s1: Vec, ghost s: State)
    requires st.Length == 8 && Holds(s, s0, s1)
    modifies st
    ensures ToState(st[..]) == s
  {
    st[0], st[1], st[2], st[3] := s0.x0, s0.x1, s0.x2, s0.x3;
    st[4], st[5], st[6], st[7] := s1.x0, s1.x1, s1.x2, s1.x3;
  }

  method Blocks1(st: array<bv32>, m: Octets, at: nat, blocks: nat)
    requires st.Length == 8 && at + 64 * blocks <= |m|
    modifies st
    ensures ToState(st[..]) == AfterBlocks(old(ToState(st[..])), m, at, blocks)
  {
    hide ToState, Holds, CompressAll, Compress, AfterBlocks;
    ghost var h := ToState(st[..]);
    var s0, s1 := LoadState(st);
    NoBlocksYet(h, m, at);
    for i := 0 to blocks
      invariant Holds(AfterBlocks(h, m, at, i), s0, s1)
    {
      OneMoreBlock(h, m, at, i);
      s0, s1 := OneBlock(s0, s1, m, at + 64 * i, AfterBlocks(h, m, at, i));
    }
    StoreState(st, s0, s1, AfterBlocks(h, m, at, blocks));
  }

  method Blocks2(sta: array<bv32>, a: Octets, stb: array<bv32>, b: Octets, blocks: nat)
    requires sta != stb && sta.Length == stb.Length == 8 && 64 * blocks <= |a| && 64 * blocks <= |b|
    modifies sta, stb
    ensures ToState(sta[..]) == AfterBlocks(old(ToState(sta[..])), a, 0, blocks)
    ensures ToState(stb[..]) == AfterBlocks(old(ToState(stb[..])), b, 0, blocks)
  {
    hide ToState, Holds, CompressAll, Compress, AfterBlocks;
    ghost var h, H := ToState(sta[..]), ToState(stb[..]);
    var s0, s1 := LoadState(sta);
    var S0, S1 := LoadState(stb);
    NoBlocksYet(h, a, 0);
    NoBlocksYet(H, b, 0);
    for i := 0 to blocks
      invariant Holds(AfterBlocks(h, a, 0, i), s0, s1)
      invariant Holds(AfterBlocks(H, b, 0, i), S0, S1)
    {
      OneMoreBlock(h, a, 0, i);
      OneMoreBlock(H, b, 0, i);
      s0, s1, S0, S1 := TwoBlocks(s0, s1, a, S0, S1, b, 0 + 64 * i,
                                  AfterBlocks(h, a, 0, i), AfterBlocks(H, b, 0, i));
    }
    StoreState(sta, s0, s1, AfterBlocks(h, a, 0, blocks));
    StoreState(stb, S0, S1, AfterBlocks(H, b, 0, blocks));
  }
}
