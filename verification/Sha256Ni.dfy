/** native/sha256ni.c: SHA-256 over one message and over two interleaved ones. */
module Sha256Ni {
  import opened Sha256Spec
  import opened Sha256Vectors
  import opened Sha256Tail

  /** The registers before group r of four rounds: the state after 4 * r rounds. */
  ghost predicate Registers(st: State, block: Octets, r: nat, s0: Vec, s1: Vec) {
    && |block| == 64 && r <= 16
    && s0 == Abef(Rounds(st, block, 4 * r)) && s1 == Cdgh(Rounds(st, block, 4 * r))
  }

  /** One group on values: four rounds, and the schedule for the group sixteen rounds later. */
  function FourRounds(r: nat, s0: Vec, s1: Vec, a: Vec): (Vec, Vec)
    requires r < 16
  {
    var m := AddVec(a, KVec(r));
    var t1 := Rnds2(s1, s0, m);
    (Rnds2(s0, t1, Shuffle0E(m)), t1)
  }

  function NextMessage(r: nat, a: Vec, b: Vec, c: Vec, d: Vec): Vec {
    if r < 12 then Msg2(AddVec(Msg1(a, b), AlignRight4(d, c)), d) else a
  }

  lemma FourRoundsAdvance(st: State, block: Octets, r: nat, s0: Vec, s1: Vec)
    requires r < 16 && Registers(st, block, r, s0, s1)
    ensures var (t0, t1) := FourRounds(r, s0, s1, Ws(block, 4 * r)); Registers(st, block, r + 1, t0, t1)
  {
    hide W, K, Rounds, Rnds2, Abef, Cdgh, Plus;
    var m := AddVec(Ws(block, 4 * r), KVec(r));
    Rnds2IsTwoRounds(st, block, 4 * r, m);
    Rnds2IsTwoRounds(st, block, 4 * r + 2, Shuffle0E(m));
  }

  /** The message registers a group reads; the last four groups only read the first. */
  ghost predicate Messages(block: Octets, r: nat, a: Vec, b: Vec, c: Vec, d: Vec) {
    && |block| == 64 && a == Ws(block, 4 * r)
    && (r < 15 ==> b == Ws(block, 4 * r + 4))
    && (r < 14 ==> c == Ws(block, 4 * r + 8))
    && (r < 13 ==> d == Ws(block, 4 * r + 12))
  }

  lemma MessagesAdvance(block: Octets, r: nat, a: Vec, b: Vec, c: Vec, d: Vec)
    requires r < 15 && Messages(block, r, a, b, c, d)
    ensures Messages(block, r + 1, b, c, d, NextMessage(r, a, b, c, d))
  {
    hide Ws, Msg1, Msg2, AddVec, AlignRight4;
    if r < 12 { ScheduleStep(block, 4 * r); }
  }

  /** R1: one message. */
  method Group1(r: nat, s0: Vec, s1: Vec, a: Vec, b: Vec, c: Vec, d: Vec, ghost st: State, ghost block: Octets)
    returns (t0: Vec, t1: Vec, a': Vec)
    requires r < 16 && Registers(st, block, r, s0, s1) && Messages(block, r, a, b, c, d)
    ensures Registers(st, block, r + 1, t0, t1)
    ensures r < 15 ==> Messages(block, r + 1, b, c, d, a')
  {
    hide Registers, Ws, Rnds2, Msg1, Msg2, KVec;
    FourRoundsAdvance(st, block, r, s0, s1);
    if r < 15 { MessagesAdvance(block, r, a, b, c, d); }
    var m := AddVec(a, KVec(r));
    t1 := Rnds2(s1, s0, m);
    m := Shuffle0E(m);
    t0 := Rnds2(s0, t1, m);
    a' := a;
    if r < 12 {
      var t := AddVec(Msg1(a, b), AlignRight4(d, c));
      a' := Msg2(t, d);
    }
  }

  /** R2: two messages, instruction by instruction side by side; the key load is shared. */
  method Group2(r: nat, s0: Vec, s1: Vec, a: Vec, b: Vec, c: Vec, d: Vec, ghost st: State, ghost block: Octets,
                S0: Vec, S1: Vec, A: Vec, B: Vec, C: Vec, D: Vec, ghost St: State, ghost Block: Octets)
    returns (t0: Vec, t1: Vec, a': Vec, T0: Vec, T1: Vec, A': Vec)
    requires r < 16 && Registers(st, block, r, s0, s1) && Messages(block, r, a, b, c, d)
    requires Registers(St, Block, r, S0, S1) && Messages(Block, r, A, B, C, D)
    ensures Registers(st, block, r + 1, t0, t1) && Registers(St, Block, r + 1, T0, T1)
    ensures r < 15 ==> Messages(block, r + 1, b, c, d, a') && Messages(Block, r + 1, B, C, D, A')
  {
    hide Registers, Ws, Rnds2, Msg1, Msg2, KVec;
    FourRoundsAdvance(st, block, r, s0, s1);
    FourRoundsAdvance(St, Block, r, S0, S1);
    if r < 15 {
      MessagesAdvance(block, r, a, b, c, d);
      MessagesAdvance(Block, r, A, B, C, D);
    }
    var k := KVec(r);
    var m, M := AddVec(a, k), AddVec(A, k);
    t1 := Rnds2(s1, s0, m);
    T1 := Rnds2(S1, S0, M);
    m := Shuffle0E(m);
    M := Shuffle0E(M);
    t0 := Rnds2(s0, t1, m);
    T0 := Rnds2(S0, T1, M);
    a', A' := a, A;
    if r < 12 {
      var t := AddVec(Msg1(a, b), AlignRight4(d, c));
      var T := AddVec(Msg1(A, B), AlignRight4(D, C));
      a' := Msg2(t, d);
      A' := Msg2(T, D);
    }
  }

  /** ROUNDS1: sixteen groups, the four message registers taking turns. */
  method Rounds1(p0: Vec, p1: Vec, w0: Vec, w1: Vec, w2: Vec, w3: Vec, ghost st: State, ghost block: Octets)
    returns (s0: Vec, s1: Vec)
    requires Registers(st, block, 0, p0, p1) && Messages(block, 0, w0, w1, w2, w3)
    ensures Registers(st, block, 16, s0, s1)
  {
    hide *;
    s0, s1 := p0, p1;
    var m0, m1, m2, m3 := w0, w1, w2, w3;
    s0, s1, m0 := Group1(0, s0, s1, m0, m1, m2, m3, st, block);
    s0, s1, m1 := Group1(1, s0, s1, m1, m2, m3, m0, st, block);
    s0, s1, m2 := Group1(2, s0, s1, m2, m3, m0, m1, st, block);
    s0, s1, m3 := Group1(3, s0, s1, m3, m0, m1, m2, st, block);
    s0, s1, m0 := Group1(4, s0, s1, m0, m1, m2, m3, st, block);
    s0, s1, m1 := Group1(5, s0, s1, m1, m2, m3, m0, st, block);
    s0, s1, m2 := Group1(6, s0, s1, m2, m3, m0, m1, st, block);
    s0, s1, m3 := Group1(7, s0, s1, m3, m0, m1, m2, st, block);
    s0, s1, m0 := Group1(8, s0, s1, m0, m1, m2, m3, st, block);
    s0, s1, m1 := Group1(9, s0, s1, m1, m2, m3, m0, st, block);
    s0, s1, m2 := Group1(10, s0, s1, m2, m3, m0, m1, st, block);
    s0, s1, m3 := Group1(11, s0, s1, m3, m0, m1, m2, st, block);
    s0, s1, m0 := Group1(12, s0, s1, m0, m1, m2, m3, st, block);
    s0, s1, m1 := Group1(13, s0, s1, m1, m2, m3, m0, st, block);
    s0, s1, m2 := Group1(14, s0, s1, m2, m3, m0, m1, st, block);
    s0, s1, m3 := Group1(15, s0, s1, m3, m0, m1, m2, st, block);
  }

  /** ROUNDS2: the same for two messages. */
  method Rounds2(p0: Vec, p1: Vec, w0: Vec, w1: Vec, w2: Vec, w3: Vec, ghost st: State, ghost block: Octets,
                 P0: Vec, P1: Vec, W0: Vec, W1: Vec, W2: Vec, W3: Vec, ghost St: State, ghost Block: Octets)
    returns (s0: Vec, s1: Vec, S0: Vec, S1: Vec)
    requires Registers(st, block, 0, p0, p1) && Messages(block, 0, w0, w1, w2, w3)
    requires Registers(St, Block, 0, P0, P1) && Messages(Block, 0, W0, W1, W2, W3)
    ensures Registers(st, block, 16, s0, s1) && Registers(St, Block, 16, S0, S1)
  {
    hide *;
    s0, s1, S0, S1 := p0, p1, P0, P1;
    var m0, m1, m2, m3 := w0, w1, w2, w3;
    var n0, n1, n2, n3 := W0, W1, W2, W3;
    s0, s1, m0, S0, S1, n0 := Group2(0, s0, s1, m0, m1, m2, m3, st, block, S0, S1, n0, n1, n2, n3, St, Block);
    s0, s1, m1, S0, S1, n1 := Group2(1, s0, s1, m1, m2, m3, m0, st, block, S0, S1, n1, n2, n3, n0, St, Block);
    s0, s1, m2, S0, S1, n2 := Group2(2, s0, s1, m2, m3, m0, m1, st, block, S0, S1, n2, n3, n0, n1, St, Block);
    s0, s1, m3, S0, S1, n3 := Group2(3, s0, s1, m3, m0, m1, m2, st, block, S0, S1, n3, n0, n1, n2, St, Block);
    s0, s1, m0, S0, S1, n0 := Group2(4, s0, s1, m0, m1, m2, m3, st, block, S0, S1, n0, n1, n2, n3, St, Block);
    s0, s1, m1, S0, S1, n1 := Group2(5, s0, s1, m1, m2, m3, m0, st, block, S0, S1, n1, n2, n3, n0, St, Block);
    s0, s1, m2, S0, S1, n2 := Group2(6, s0, s1, m2, m3, m0, m1, st, block, S0, S1, n2, n3, n0, n1, St, Block);
    s0, s1, m3, S0, S1, n3 := Group2(7, s0, s1, m3, m0, m1, m2, st, block, S0, S1, n3, n0, n1, n2, St, Block);
    s0, s1, m0, S0, S1, n0 := Group2(8, s0, s1, m0, m1, m2, m3, st, block, S0, S1, n0, n1, n2, n3, St, Block);
    s0, s1, m1, S0, S1, n1 := Group2(9, s0, s1, m1, m2, m3, m0, st, block, S0, S1, n1, n2, n3, n0, St, Block);
    s0, s1, m2, S0, S1, n2 := Group2(10, s0, s1, m2, m3, m0, m1, st, block, S0, S1, n2, n3, n0, n1, St, Block);
    s0, s1, m3, S0, S1, n3 := Group2(11, s0, s1, m3, m0, m1, m2, st, block, S0, S1, n3, n0, n1, n2, St, Block);
    s0, s1, m0, S0, S1, n0 := Group2(12, s0, s1, m0, m1, m2, m3, st, block, S0, S1, n0, n1, n2, n3, St, Block);
    s0, s1, m1, S0, S1, n1 := Group2(13, s0, s1, m1, m2, m3, m0, st, block, S0, S1, n1, n2, n3, n0, St, Block);
    s0, s1, m2, S0, S1, n2 := Group2(14, s0, s1, m2, m3, m0, m1, st, block, S0, S1, n2, n3, n0, n1, St, Block);
    s0, s1, m3, S0, S1, n3 := Group2(15, s0, s1, m3, m0, m1, m2, st, block, S0, S1, n3, n0, n1, n2, St, Block);
  }

  lemma LoadedMessages(m: Octets, at: nat)
    requires at + 64 <= |m|
    ensures Messages(m[at..at + 64], 0, LoadVec(m, at), LoadVec(m, at + 16), LoadVec(m, at + 32), LoadVec(m, at + 48))
  {
    hide BigEndianWord;
    var block := m[at..at + 64];
    forall t: nat | t < 16
      ensures W(block, t) == BigEndianWord(m[at + 4 * t], m[at + 4 * t + 1], m[at + 4 * t + 2], m[at + 4 * t + 3])
    {}
  }

  /** state_in and state_out: A..H in memory, {A,B,E,F} and {C,D,G,H} in registers. */
  function StateIn(st: seq<bv32>): (Vec, Vec)
    requires |st| == 8
  {
    var t := ShuffleB1(Vec(st[0], st[1], st[2], st[3]));
    var s1 := Shuffle1B(Vec(st[4], st[5], st[6], st[7]));
    (AlignRight8(t, s1), BlendHigh(s1, t))
  }

  function StateOut(s0: Vec, s1: Vec): seq<bv32> {
    var t := Shuffle1B(s0);
    var u := ShuffleB1(s1);
    var v, w := BlendHigh(t, u), AlignRight8(u, t);
    [v.x0, v.x1, v.x2, v.x3, w.x0, w.x1, w.x2, w.x3]
  }

  /** The shuffles in and out are inverse, and the register layout is the instructions'. */
  lemma LayoutRoundTrip(st: seq<bv32>)
    requires |st| == 8
    ensures StateIn(st) == (Abef(ToState(st)), Cdgh(ToState(st)))
    ensures var (s0, s1) := StateIn(st); StateOut(s0, s1) == st
  {}

  lemma OutOfRegisters(s: State)
    ensures |StateOut(Abef(s), Cdgh(s))| == 8 && ToState(StateOut(Abef(s), Cdgh(s))) == s
  {}

  /** The saved input state is added lane by lane. */
  lemma ClosingAdd(s: State, r: State)
    ensures AddVec(Abef(s), Abef(r)) == Abef(Add(s, r)) && AddVec(Cdgh(s), Cdgh(r)) == Cdgh(Add(s, r))
  {
    hide Plus;
  }

  // Whole messages.

  /** What the registers hold between blocks. */
  ghost predicate Holds(s: State, s0: Vec, s1: Vec) { s0 == Abef(s) && s1 == Cdgh(s) }

  lemma StartRegisters(s: State, block: Octets, s0: Vec, s1: Vec)
    requires |block| == 64 && Holds(s, s0, s1)
    ensures Registers(s, block, 0, s0, s1)
  {}

  /** The state after one more block. */
  lemma BlockDone(st: State, m: Octets, at: nat, i: nat, s: State, a0: Vec, a1: Vec, s0: Vec, s1: Vec)
    requires at + 64 * (i + 1) <= |m|
    requires s == AfterBlocks(st, m, at, i) && Holds(s, a0, a1)
    requires Registers(s, m[at + 64 * i..at + 64 * i + 64], 16, s0, s1)
    ensures Holds(AfterBlocks(st, m, at, i + 1), AddVec(s0, a0), AddVec(s1, a1))
  {
    hide Rounds, AddVec, Abef, Cdgh, Add, AfterBlocks;
    OneMoreBlock(st, m, at, i);
    ClosingAdd(Rounds(s, m[at + 64 * i..at + 64 * i + 64], 64), s);
  }

  method LoadBlock(m: Octets, at: nat) returns (m0: Vec, m1: Vec, m2: Vec, m3: Vec)
    requires at + 64 <= |m|
    ensures Messages(m[at..at + 64], 0, m0, m1, m2, m3)
  {
    LoadedMessages(m, at);
    m0, m1, m2, m3 := LoadVec(m, at), LoadVec(m, at + 16), LoadVec(m, at + 32), LoadVec(m, at + 48);
  }

  method Blocks1(st: array<bv32>, m: Octets, at: nat, blocks: nat)
    requires st.Length == 8 && at + 64 * blocks <= |m|
    modifies st
    ensures ToState(st[..]) == AfterBlocks(old(ToState(st[..])), m, at, blocks)
  {
    hide StateIn, StateOut, ToState, Holds, Registers, Messages, AddVec, Abef, Cdgh, CompressAll, AfterBlocks;
    ghost var h := ToState(st[..]);
    LayoutRoundTrip(st[..]);
    var (s0, s1) := StateIn(st[..]);
    NoBlocksYet(h, m, at);
    HoldsIs(h, s0, s1);
    for i := 0 to blocks
      invariant Holds(AfterBlocks(h, m, at, i), s0, s1)
    {
      ghost var s, block := AfterBlocks(h, m, at, i), m[at + 64 * i..at + 64 * i + 64];
      var a0, a1 := s0, s1;
      var m0, m1, m2, m3 := LoadBlock(m, at + 64 * i);
      StartRegisters(s, block, s0, s1);
      s0, s1 := Rounds1(s0, s1, m0, m1, m2, m3, s, block);
      BlockDone(h, m, at, i, s, a0, a1, s0, s1);
      s0, s1 := AddVec(s0, a0), AddVec(s1, a1);
    }
    StateBack(AfterBlocks(h, m, at, blocks), s0, s1);
    Store(st, StateOut(s0, s1));
  }

  lemma HoldsIs(s: State, s0: Vec, s1: Vec)
    requires (s0, s1) == (Abef(s), Cdgh(s))
    ensures Holds(s, s0, s1)
  {}

  lemma StateBack(s: State, s0: Vec, s1: Vec)
    requires Holds(s, s0, s1)
    ensures |StateOut(s0, s1)| == 8 && ToState(StateOut(s0, s1)) == s
  {
    OutOfRegisters(s);
  }

  method Store(st: array<bv32>, v: seq<bv32>)
    requires st.Length == |v|
    modifies st
    ensures st[..] == v
  {
    forall i | 0 <= i < |v| { st[i] := v[i]; }
  }

  /** Two messages of the same number of blocks, round by round side by side. */
  method Blocks2(sta: array<bv32>, a: Octets, stb: array<bv32>, b: Octets, blocks: nat)
    requires sta != stb && sta.Length == stb.Length == 8 && 64 * blocks <= |a| && 64 * blocks <= |b|
    modifies sta, stb
    ensures ToState(sta[..]) == AfterBlocks(old(ToState(sta[..])), a, 0, blocks)
    ensures ToState(stb[..]) == AfterBlocks(old(ToState(stb[..])), b, 0, blocks)
  {
    hide *;
    ghost var h, H := ToState(sta[..]), ToState(stb[..]);
    LayoutRoundTrip(sta[..]);
    LayoutRoundTrip(stb[..]);
    var (s0, s1) := StateIn(sta[..]);
    var (S0, S1) := StateIn(stb[..]);
    NoBlocksYet(h, a, 0);
    NoBlocksYet(H, b, 0);
    HoldsIs(h, s0, s1);
    HoldsIs(H, S0, S1);
    for i := 0 to blocks
      invariant Holds(AfterBlocks(h, a, 0, i), s0, s1)
      invariant Holds(AfterBlocks(H, b, 0, i), S0, S1)
    {
      ghost var s, block := AfterBlocks(h, a, 0, i), a[0 + 64 * i..0 + 64 * i + 64];
      ghost var S, Block := AfterBlocks(H, b, 0, i), b[0 + 64 * i..0 + 64 * i + 64];
      var a0, a1, A0, A1 := s0, s1, S0, S1;
      var m0, m1, m2, m3 := LoadBlock(a, 0 + 64 * i);
      var n0, n1, n2, n3 := LoadBlock(b, 0 + 64 * i);
      StartRegisters(s, block, s0, s1);
      StartRegisters(S, Block, S0, S1);
      s0, s1, S0, S1 := Rounds2(s0, s1, m0, m1, m2, m3, s, block, S0, S1, n0, n1, n2, n3, S, Block);
      BlockDone(h, a, 0, i, s, a0, a1, s0, s1);
      BlockDone(H, b, 0, i, S, A0, A1, S0, S1);
      s0, s1 := AddVec(s0, a0), AddVec(s1, a1);
      S0, S1 := AddVec(S0, A0), AddVec(S1, A1);
    }
    StateBack(AfterBlocks(h, a, 0, blocks), s0, s1);
    StateBack(AfterBlocks(H, b, 0, blocks), S0, S1);
    Store(sta, StateOut(s0, s1));
    Store(stb, StateOut(S0, S1));
  }
}
