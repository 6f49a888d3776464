/** Known answers: the digests of two published messages, one of a single block and one whose padding
    takes a second, computed round by round on literal working variables. They tie the constants and
    functions of Sha256Spec to numbers that do not come from it. */
module Sha256KnownAnswers {
  import opened Sha256Spec

  /** One round on literals: the key and message words, T1 and T2, and the new A and E. */
  lemma Step(st: State, b: Octets, t: nat, s: State, k: bv32, w: bv32, t1: bv32, t2: bv32, a: bv32, e: bv32)
    returns (r: State)
    requires |b| == 64 && t < 64 && Rounds(st, b, t) == s && K(t) == k && W(b, t) == w
    requires Plus(Plus(Plus(Plus(s.h, BigSigma1(s.e)), Ch(s.e, s.f, s.g)), k), w) == t1
    requires Plus(BigSigma0(s.a), Maj(s.a, s.b, s.c)) == t2 && Plus(t1, t2) == a && Plus(s.d, t1) == e
    ensures r == State(a, s.a, s.b, s.c, e, s.e, s.f, s.g) && Rounds(st, b, t + 1) == r
  {
    hide W, K, Plus, BigSigma0, BigSigma1, Ch, Maj;
    r := State(a, s.a, s.b, s.c, e, s.e, s.f, s.g);
    assert Round(s, k, w) == r;
  }

  /** One word of the schedule on literals: the four earlier words it is made of, and the word. */
  lemma Word(b: Octets, t: nat, w2: bv32, w7: bv32, w15: bv32, w16: bv32, w: bv32)
    requires |b| == 64 && 16 <= t
    requires W(b, t - 2) == w2 && W(b, t - 7) == w7 && W(b, t - 15) == w15 && W(b, t - 16) == w16
    requires Plus(Plus(Plus(SmallSigma1(w2), w7), SmallSigma0(w15)), w16) == w
    ensures W(b, t) == w
  {
    hide Plus, SmallSigma0, SmallSigma1, BigEndianWord;
  }

  /** Sixteen consecutive words of the schedule. */
  ghost predicate Words(b: Octets, t: nat,
                        w0: bv32, w1: bv32, w2: bv32, w3: bv32, w4: bv32, w5: bv32, w6: bv32, w7: bv32,
                        w8: bv32, w9: bv32, wa: bv32, wb: bv32, wc: bv32, wd: bv32, we: bv32, wf: bv32)
    requires |b| == 64
  {
    && W(b, t) == w0 && W(b, t + 1) == w1 && W(b, t + 2) == w2 && W(b, t + 3) == w3
    && W(b, t + 4) == w4 && W(b, t + 5) == w5 && W(b, t + 6) == w6 && W(b, t + 7) == w7
    && W(b, t + 8) == w8 && W(b, t + 9) == w9 && W(b, t + 10) == wa && W(b, t + 11) == wb
    && W(b, t + 12) == wc && W(b, t + 13) == wd && W(b, t + 14) == we && W(b, t + 15) == wf
  }

  lemma NoRounds(st: State, b: Octets)
    requires |b| == 64
    ensures Rounds(st, b, 0) == st
  {}

  lemma OneBlock(st: State, b: Octets)
    requires |b| == 64
    ensures CompressAll(st, b) == Add(Rounds(st, b, 64), st)
  {
    hide Rounds, Add;
    assert b[..0] == [] && b[0..] == b;
    assert CompressAll(st, b[..0]) == st;
  }

  /** A state word as its four octets, most significant first. */
  lemma OctetsOf(x: bv32, b0: bv8, b1: bv8, b2: bv8, b3: bv8)
    requires x == ((b0 as bv32) << 24) | ((b1 as bv32) << 16) | ((b2 as bv32) << 8) | (b3 as bv32)
    ensures WordOctets(x) == [b0, b1, b2, b3]
  {}

  /** The digest of a state is its words' octets one after the other. */
  lemma DigestIs(s: State)
    ensures Digest(s) == (WordOctets(s.a) + WordOctets(s.b) + WordOctets(s.c) + WordOctets(s.d))
                       + (WordOctets(s.e) + WordOctets(s.f) + WordOctets(s.g) + WordOctets(s.h))
  {
    hide WordOctets, WordsOctets;
    var w := [s.a, s.b, s.c, s.d, s.e, s.f, s.g, s.h];
    NoWords();
    FourWords(w, 0);
    FourWords(w, 4);
    assert w[..0] == [] && w[..8] == w;
  }

  lemma NoWords()
    ensures WordsOctets([]) == []
  {}

  lemma FourWords(ws: seq<bv32>, n: nat)
    requires n + 4 <= |ws|
    ensures WordsOctets(ws[..n + 4]) == WordsOctets(ws[..n])
              + (WordOctets(ws[n]) + WordOctets(ws[n + 1]) + WordOctets(ws[n + 2]) + WordOctets(ws[n + 3]))
  {
    hide WordOctets, WordsOctets;
    WordsNext(ws, n + 1);
    WordsNext(ws, n + 2);
    WordsNext(ws, n + 3);
    WordsNext(ws, n + 4);
  }

  lemma WordsNext(ws: seq<bv32>, n: nat)
    requires 0 < n <= |ws|
    ensures WordsOctets(ws[..n]) == WordsOctets(ws[..n - 1]) + WordOctets(ws[n - 1])
  {
    hide WordOctets;
    assert ws[..n][..n - 1] == ws[..n - 1];
  }

  /** One of the first sixteen words on literals: its octets, and the word. */
  lemma Octets4(b: Octets, t: nat, b0: bv8, b1: bv8, b2: bv8, b3: bv8, w: bv32)
    requires |b| == 64 && t < 16 && BigEndianWord(b0, b1, b2, b3) == w
    requires b[4 * t] == b0 && b[4 * t + 1] == b1 && b[4 * t + 2] == b2 && b[4 * t + 3] == b3
    ensures W(b, t) == w
  {
    hide BigEndianWord;
  }

  /** "abc", the marker, zeros, and the length of 24 bits. */
  ghost predicate AbcBlock(b: Octets) {
    && |b| == 64
    && Words(b, 0,
             0x61626380, 0x00000000, 0x00000000, 0x00000000, 0x00000000, 0x00000000, 0x00000000, 0x00000000,
             0x00000000, 0x00000000, 0x00000000, 0x00000000, 0x00000000, 0x00000000, 0x00000000, 0x00000018)
  }

  lemma AbcRounds16(b: Octets)
    requires AbcBlock(b)
    ensures Rounds(IV, b, 16) == State(0xb0fa238e, 0xc0645fde, 0xd932eb16, 0x87912990,
                                       0x07590dcd, 0x0b92f20c, 0x745a48de, 0x1e578218)
  {
    hide W, Rounds;
    NoRounds(IV, b);
    var s := State(0x6a09e667, 0xbb67ae85, 0x3c6ef372, 0xa54ff53a,
                   0x510e527f, 0x9b05688c, 0x1f83d9ab, 0x5be0cd19);
    s := Step(IV, b, 0, s, 0x428a2f98, 0x61626380, 0x54da50e8, 0x08909ae5, 0x5d6aebcd, 0xfa2a4622);
    s := Step(IV, b, 1, s, 0x71374491, 0x00000000, 0x3c5f8617, 0x1e0b5396, 0x5a6ad9ad, 0x78ce7989);
    s := Step(IV, b, 2, s, 0xb5c0fbcf, 0x00000000, 0x3dc18b66, 0x8b01bc41, 0xc8c347a7, 0xf92939eb);
    s := Step(IV, b, 3, s, 0xe9b5dba5, 0x00000000, 0xbad621e9, 0x1a7ad47d, 0xd550f666, 0x24e00850);
    s := Step(IV, b, 4, s, 0x3956c25b, 0x00000000, 0xe642b678, 0x1dfde3f2, 0x04409a6a, 0x43ada245);
    s := Step(IV, b, 5, s, 0x59f111f1, 0x00000000, 0x16d78700, 0x146a82f5, 0x2b4209f5, 0x714260ad);
    s := Step(IV, b, 6, s, 0x923f82a4, 0x00000000, 0xd2645c5a, 0x129ea726, 0xe5030380, 0x9b27a401);
    s := Step(IV, b, 7, s, 0xab1c5ed5, 0x00000000, 0x37148413, 0x4e8bf74c, 0x85a07b5f, 0x0c657a79);
    s := Step(IV, b, 8, s, 0xd807aa98, 0x00000000, 0x2e899322, 0x5f7b5997, 0x8e04ecb9, 0x32ca2d8c);
    s := Step(IV, b, 9, s, 0x12835b01, 0x00000000, 0xf1871ba1, 0x9b0018ca, 0x8c87346b, 0x1cc92596);
    s := Step(IV, b, 10, s, 0x243185be, 0x00000000, 0x5e682068, 0xe930838c, 0x4798a3f4, 0x436b23e8);
    s := Step(IV, b, 11, s, 0x550c7dc3, 0x00000000, 0xfbcf5b8a, 0xfb506a1f, 0xf71fc5a9, 0x816fd6e9);
    s := Step(IV, b, 12, s, 0x72be5d74, 0x00000000, 0x9052955f, 0xf73e9431, 0x87912990, 0x1e578218);
    s := Step(IV, b, 13, s, 0x80deb1fe, 0x00000000, 0xe7d31473, 0xf15fd6a3, 0xd932eb16, 0x745a48de);
    s := Step(IV, b, 14, s, 0x9bdc06a7, 0x00000000, 0xc3fa4e18, 0xfc6a11c6, 0xc0645fde, 0x0b92f20c);
    s := Step(IV, b, 15, s, 0xc19bf174, 0x00000018, 0x10394824, 0xa0c0db6a, 0xb0fa238e, 0x07590dcd);
  }

  lemma AbcRounds32(b: Octets)
    requires AbcBlock(b)
    ensures Words(b, 16,
                  0x61626380, 0x000f0000, 0x7da86405, 0x600003c6, 0x3e9d7b78, 0x0183fc00, 0x12dcbfdb, 0xe2e2c38e,
                  0xc8215c1a, 0xb73679a2, 0xe5bc3909, 0x32663c5b, 0x9d209d67, 0xec8726cb, 0x702138a4, 0xd3b7973b)
    ensures Rounds(IV, b, 32) == State(0x73b33bf5, 0xea992a22, 0xa0060b30, 0x363482c9,
                                       0xba591112, 0x0109ab3a, 0xade79437, 0x6112a3b7)
  {
    hide W, Rounds;
    AbcRounds16(b);
    Word(b, 16, 0x00000000, 0x00000000, 0x00000000, 0x61626380, 0x61626380);
    Word(b, 17, 0x00000018, 0x00000000, 0x00000000, 0x00000000, 0x000f0000);
    Word(b, 18, 0x61626380, 0x00000000, 0x00000000, 0x00000000, 0x7da86405);
    Word(b, 19, 0x000f0000, 0x00000000, 0x00000000, 0x00000000, 0x600003c6);
    Word(b, 20, 0x7da86405, 0x00000000, 0x00000000, 0x00000000, 0x3e9d7b78);
    Word(b, 21, 0x600003c6, 0x00000000, 0x00000000, 0x00000000, 0x0183fc00);
    Word(b, 22, 0x3e9d7b78, 0x00000018, 0x00000000, 0x00000000, 0x12dcbfdb);
    Word(b, 23, 0x0183fc00, 0x61626380, 0x00000000, 0x00000000, 0xe2e2c38e);
    Word(b, 24, 0x12dcbfdb, 0x000f0000, 0x00000000, 0x00000000, 0xc8215c1a);
    Word(b, 25, 0xe2e2c38e, 0x7da86405, 0x00000000, 0x00000000, 0xb73679a2);
    Word(b, 26, 0xc8215c1a, 0x600003c6, 0x00000000, 0x00000000, 0xe5bc3909);
    Word(b, 27, 0xb73679a2, 0x3e9d7b78, 0x00000000, 0x00000000, 0x32663c5b);
    Word(b, 28, 0xe5bc3909, 0x0183fc00, 0x00000000, 0x00000000, 0x9d209d67);
    Word(b, 29, 0x32663c5b, 0x12dcbfdb, 0x00000000, 0x00000000, 0xec8726cb);
    Word(b, 30, 0x9d209d67, 0xe2e2c38e, 0x00000018, 0x00000000, 0x702138a4);
    Word(b, 31, 0xec8726cb, 0xc8215c1a, 0x61626380, 0x00000018, 0xd3b7973b);
    var s := State(0xb0fa238e, 0xc0645fde, 0xd932eb16, 0x87912990,
                   0x07590dcd, 0x0b92f20c, 0x745a48de, 0x1e578218);
    s := Step(IV, b, 16, s, 0xe49b69c1, 0x61626380, 0xf8a2f90c, 0x2937a18f, 0x21da9a9b, 0x8034229c);
    s := Step(IV, b, 17, s, 0xefbe4786, 0x000f0000, 0xab3bf93e, 0x17bfe093, 0xc2fbd9d1, 0x846ee454);
    s := Step(IV, b, 18, s, 0x0fc19dc6, 0x7da86405, 0x0c253983, 0xf252423c, 0xfe777bbf, 0xcc899961);
    s := Step(IV, b, 19, s, 0x240ca1cc, 0x600003c6, 0xff695deb, 0xe288ae48, 0xe1f20c33, 0xb0638179);
    s := Step(IV, b, 20, s, 0x2de92c6f, 0x3e9d7b78, 0x68ffee95, 0x34c69cce, 0x9dc68b63, 0x8ada8930);
    s := Step(IV, b, 21, s, 0x4a7484aa, 0x0183fc00, 0x1e299f9f, 0xa436cdce, 0xc2606d6d, 0xe1257970);
    s := Step(IV, b, 22, s, 0x5cb0a9dc, 0x12dcbfdb, 0x4b7d958b, 0x5c25ccb4, 0xa7a3623f, 0x49f5114a);
    s := Step(IV, b, 23, s, 0x76f988da, 0xe2e2c38e, 0xc855b714, 0xfd7f8679, 0xc5d53d8d, 0xaa47c347);
    s := Step(IV, b, 24, s, 0x983e5152, 0xc8215c1a, 0x8a5d642e, 0x91cec40a, 0x1c2c2838, 0x2823ef91);
    s := Step(IV, b, 25, s, 0xa831c66d, 0xb73679a2, 0x51d7d021, 0x7c10335c, 0xcde8037d, 0x14383d8e);
    s := Step(IV, b, 26, s, 0xb00327c8, 0xe5bc3909, 0x1fa902d7, 0x9685c1e5, 0xb62ec4bc, 0xc74c6516);
    s := Step(IV, b, 27, s, 0xbf597fc7, 0x32663c5b, 0x282a826b, 0x4fa8f2bd, 0x77d37528, 0xedffbff8);
    s := Step(IV, b, 28, s, 0xc6e00bf3, 0x9d209d67, 0x44e67b7f, 0xf14e074a, 0x363482c9, 0x6112a3b7);
    s := Step(IV, b, 29, s, 0xd5a79147, 0xec8726cb, 0xdfff90ba, 0xc0067a76, 0xa0060b30, 0xade79437);
    s := Step(IV, b, 30, s, 0x06ca6351, 0x702138a4, 0x4adae67e, 0x9fbe43a4, 0xea992a22, 0x0109ab3a);
    s := Step(IV, b, 31, s, 0x14292967, 0xd3b7973b, 0x42859bea, 0x312da00b, 0x73b33bf5, 0xba591112);
  }

  lemma AbcRounds48(b: Octets)
    requires AbcBlock(b)
    ensures Words(b, 32,
                  0x93f5997f, 0x3b68ba73, 0xaff4ffc1, 0xf10a5c62, 0x0a8b3996, 0x72af830a, 0x9409e33e, 0x24641522,
                  0x9f47bf94, 0xf0a64f5a, 0x3e246a79, 0x27333ba3, 0x0c4763f2, 0x840abf27, 0x7a290d5d, 0x065c43da)
    ensures Rounds(IV, b, 48) == State(0x4172328d, 0xa14c14b0, 0x72ab4b91, 0x26628815,
                                       0xfecf0bc6, 0xd57b94a9, 0xb7755da1, 0xa80f11f0)
  {
    hide W, Rounds;
    AbcRounds32(b);
    Word(b, 32, 0x702138a4, 0xb73679a2, 0x000f0000, 0x61626380, 0x93f5997f);
    Word(b, 33, 0xd3b7973b, 0xe5bc3909, 0x7da86405, 0x000f0000, 0x3b68ba73);
    Word(b, 34, 0x93f5997f, 0x32663c5b, 0x600003c6, 0x7da86405, 0xaff4ffc1);
    Word(b, 35, 0x3b68ba73, 0x9d209d67, 0x3e9d7b78, 0x600003c6, 0xf10a5c62);
    Word(b, 36, 0xaff4ffc1, 0xec8726cb, 0x0183fc00, 0x3e9d7b78, 0x0a8b3996);
    Word(b, 37, 0xf10a5c62, 0x702138a4, 0x12dcbfdb, 0x0183fc00, 0x72af830a);
    Word(b, 38, 0x0a8b3996, 0xd3b7973b, 0xe2e2c38e, 0x12dcbfdb, 0x9409e33e);
    Word(b, 39, 0x72af830a, 0x93f5997f, 0xc8215c1a, 0xe2e2c38e, 0x24641522);
    Word(b, 40, 0x9409e33e, 0x3b68ba73, 0xb73679a2, 0xc8215c1a, 0x9f47bf94);
    Word(b, 41, 0x24641522, 0xaff4ffc1, 0xe5bc3909, 0xb73679a2, 0xf0a64f5a);
    Word(b, 42, 0x9f47bf94, 0xf10a5c62, 0x32663c5b, 0xe5bc3909, 0x3e246a79);
    Word(b, 43, 0xf0a64f5a, 0x0a8b3996, 0x9d209d67, 0x32663c5b, 0x27333ba3);
    Word(b, 44, 0x3e246a79, 0x72af830a, 0xec8726cb, 0x9d209d67, 0x0c4763f2);
    Word(b, 45, 0x27333ba3, 0x9409e33e, 0x702138a4, 0xec8726cb, 0x840abf27);
    Word(b, 46, 0x0c4763f2, 0x24641522, 0xd3b7973b, 0x702138a4, 0x7a290d5d);
    Word(b, 47, 0x840abf27, 0x9f47bf94, 0x93f5997f, 0xd3b7973b, 0x065c43da);
    var s := State(0x73b33bf5, 0xea992a22, 0xa0060b30, 0x363482c9,
                   0xba591112, 0x0109ab3a, 0xade79437, 0x6112a3b7);
    s := Step(IV, b, 32, s, 0x27b70a85, 0x93f5997f, 0x66a5732d, 0x323bb1da, 0x98e12507, 0x9cd9f5f6);
    s := Step(IV, b, 33, s, 0x2e1b2138, 0x3b68ba73, 0xb91e92a3, 0x4541bb52, 0xfe604df5, 0x59249dd3);
    s := Step(IV, b, 34, s, 0x4d2c6dfc, 0xaff4ffc1, 0x1dc60e11, 0x8be1657b, 0xa9a7738c, 0x085f3833);
    s := Step(IV, b, 35, s, 0x53380d13, 0xf10a5c62, 0x80fcc6e1, 0xe4a40903, 0x65a0cfe4, 0xf4b002d6);
    s := Step(IV, b, 36, s, 0x650a7354, 0x0a8b3996, 0x6e917d64, 0xd314df4d, 0x41a65cb1, 0x0772a26b);
    s := Step(IV, b, 37, s, 0x766a0abb, 0x72af830a, 0xa6a75748, 0x8e37bebc, 0x34df1604, 0xa507a53d);
    s := Step(IV, b, 38, s, 0x81c2c92e, 0x9409e33e, 0x46d0a83c, 0x26f4d24e, 0x6dc57a8a, 0xf0781bc8);
    s := Step(IV, b, 39, s, 0x92722c85, 0x24641522, 0xb95af0bc, 0xc08f77be, 0x79ea687a, 0x1efbc0a0);
    s := Step(IV, b, 40, s, 0xa2bfe8a1, 0x9f47bf94, 0xe48ed0b2, 0xf1d836b4, 0xd6670766, 0x26352d63);
    s := Step(IV, b, 41, s, 0xa81a664b, 0xf0a64f5a, 0x4eac110d, 0x909a5422, 0xdf46652f, 0x838b2711);
    s := Step(IV, b, 42, s, 0xc24b8b70, 0x3e246a79, 0x7107cc8b, 0xa6a24173, 0x17aa0dfe, 0xdecd4715);
    s := Step(IV, b, 43, s, 0xc76c51a3, 0x27333ba3, 0x83b7e3b4, 0x1993cbdf, 0x9d4baf93, 0xfda24c2e);
    s := Step(IV, b, 44, s, 0xd192e819, 0x0c4763f2, 0xd1a80a8a, 0x54ba7d8b, 0x26628815, 0xa80f11f0);
    s := Step(IV, b, 45, s, 0xd6990624, 0x840abf27, 0xd82ef872, 0x9a7c531f, 0x72ab4b91, 0xb7755da1);
    s := Step(IV, b, 46, s, 0xf40e3585, 0x7a290d5d, 0xbdd186ab, 0xe37a8e05, 0xa14c14b0, 0xd57b94a9);
    s := Step(IV, b, 47, s, 0x106aa070, 0x065c43da, 0x61835c33, 0xdfeed65a, 0x4172328d, 0xfecf0bc6);
  }

  lemma AbcRounds64(b: Octets)
    requires AbcBlock(b)
    ensures Words(b, 48,
                  0xfb3e89cb, 0xcc7617db, 0xb9e66c34, 0xa9993667, 0x84badedd, 0xc21462bc, 0x1487472c, 0xb20f7a99,
                  0xef57b9cd, 0xebe6b238, 0x9fe3095e, 0x78bc8d4b, 0xa43fcf15, 0x668b2ff8, 0xeeaba2cc, 0x12b1edeb)
    ensures Rounds(IV, b, 64) == State(0x506e3058, 0xd39a2165, 0x04d24d6c, 0xb85e2ce9,
                                       0x5ef50f24, 0xfb121210, 0x948d25b6, 0x961f4894)
  {
    hide W, Rounds;
    AbcRounds48(b);
    Word(b, 48, 0x7a290d5d, 0xf0a64f5a, 0x3b68ba73, 0x93f5997f, 0xfb3e89cb);
    Word(b, 49, 0x065c43da, 0x3e246a79, 0xaff4ffc1, 0x3b68ba73, 0xcc7617db);
    Word(b, 50, 0xfb3e89cb, 0x27333ba3, 0xf10a5c62, 0xaff4ffc1, 0xb9e66c34);
    Word(b, 51, 0xcc7617db, 0x0c4763f2, 0x0a8b3996, 0xf10a5c62, 0xa9993667);
    Word(b, 52, 0xb9e66c34, 0x840abf27, 0x72af830a, 0x0a8b3996, 0x84badedd);
    Word(b, 53, 0xa9993667, 0x7a290d5d, 0x9409e33e, 0x72af830a, 0xc21462bc);
    Word(b, 54, 0x84badedd, 0x065c43da, 0x24641522, 0x9409e33e, 0x1487472c);
    Word(b, 55, 0xc21462bc, 0xfb3e89cb, 0x9f47bf94, 0x24641522, 0xb20f7a99);
    Word(b, 56, 0x1487472c, 0xcc7617db, 0xf0a64f5a, 0x9f47bf94, 0xef57b9cd);
    Word(b, 57, 0xb20f7a99, 0xb9e66c34, 0x3e246a79, 0xf0a64f5a, 0xebe6b238);
    Word(b, 58, 0xef57b9cd, 0xa9993667, 0x27333ba3, 0x3e246a79, 0x9fe3095e);
    Word(b, 59, 0xebe6b238, 0x84badedd, 0x0c4763f2, 0x27333ba3, 0x78bc8d4b);
    Word(b, 60, 0x9fe3095e, 0xc21462bc, 0x840abf27, 0x0c4763f2, 0xa43fcf15);
    Word(b, 61, 0x78bc8d4b, 0x1487472c, 0x7a290d5d, 0x840abf27, 0x668b2ff8);
    Word(b, 62, 0xa43fcf15, 0xb20f7a99, 0x065c43da, 0x7a290d5d, 0xeeaba2cc);
    Word(b, 63, 0x668b2ff8, 0xef57b9cd, 0xfb3e89cb, 0x065c43da, 0x12b1edeb);
    var s := State(0x4172328d, 0xa14c14b0, 0x72ab4b91, 0x26628815,
                   0xfecf0bc6, 0xd57b94a9, 0xb7755da1, 0xa80f11f0);
    s := Step(IV, b, 48, s, 0x19a4c116, 0xfb3e89cb, 0x970eb823, 0x6e66c4c8, 0x05757ceb, 0xbd714038);
    s := Step(IV, b, 49, s, 0x1e376c08, 0xcc7617db, 0xfbb0ed7b, 0xf56b0d2d, 0xf11bfaa8, 0x6e5c390c);
    s := Step(IV, b, 50, s, 0x2748774c, 0xb9e66c34, 0xb1a5b847, 0xc85f505a, 0x7a0508a1, 0x52f1ccf7);
    s := Step(IV, b, 51, s, 0x34b0bcb5, 0xa9993667, 0x07b0e991, 0x80bd9091, 0x886e7a22, 0x49231c1e);
    s := Step(IV, b, 52, s, 0x391c0cb3, 0x84badedd, 0x4d290015, 0xc2f6d27a, 0x101fd28f, 0x529e7d00);
    s := Step(IV, b, 53, s, 0x4ed8aa4a, 0xc21462bc, 0xae2b8d1b, 0x4744a2c0, 0xf5702fdb, 0x9f4787c3);
    s := Step(IV, b, 54, s, 0x5b9cca4f, 0x1487472c, 0x6b0912ae, 0xd3bb4a2d, 0x3ec45cdb, 0xe50e1b4f);
    s := Step(IV, b, 55, s, 0x682e6ff3, 0xb20f7a99, 0xcc5cac49, 0x6c6fecca, 0x38cc9913, 0x54cb266b);
    s := Step(IV, b, 56, s, 0x748f82ee, 0xef57b9cd, 0x8b3ebddd, 0x7192ca9e, 0xfcd1887b, 0x9b5e906c);
    s := Step(IV, b, 57, s, 0x78a5636f, 0xebe6b238, 0x88d3d0b3, 0x378f03bc, 0xc062d46f, 0x7e44008e);
    s := Step(IV, b, 58, s, 0x84c87814, 0x9fe3095e, 0x2ebf62eb, 0xd0f7a187, 0xffb70472, 0x6d83bfc6);
    s := Step(IV, b, 59, s, 0x8cc70208, 0x78bc8d4b, 0x794f142a, 0x3d5f7bd5, 0xb6ae8fff, 0xb21bad3d);
    s := Step(IV, b, 60, s, 0x90befffa, 0xa43fcf15, 0x994dc019, 0x1f106cd0, 0xb85e2ce9, 0x961f4894);
    s := Step(IV, b, 61, s, 0xa4506ceb, 0x668b2ff8, 0xd42a5147, 0x30a7fc25, 0x04d24d6c, 0x948d25b6);
    s := Step(IV, b, 62, s, 0xbef9a3f7, 0xeeaba2cc, 0xfb5b0d9e, 0xd83f13c7, 0xd39a2165, 0xfb121210);
    s := Step(IV, b, 63, s, 0xc67178f2, 0x12b1edeb, 0xa8467f25, 0xa827b133, 0x506e3058, 0x5ef50f24);
  }

  lemma AbcPadding(b: Octets)
    requires b == Pad([0x61, 0x62, 0x63])
    ensures AbcBlock(b)
  {
    hide W, LengthOctets;
    ShortLength(3, 0x00, 0x18);
    assert ZeroCount(3) == 52;
    assert b[0] == 0x61 && b[1] == 0x62 && b[2] == 0x63 && b[3] == 0x80 && b[63] == 0x18;
    assert forall i :: 4 <= i < 63 ==> b[i] == 0;
    Octets4(b, 0, 0x61, 0x62, 0x63, 0x80, 0x61626380);
    Octets4(b, 1, 0x00, 0x00, 0x00, 0x00, 0x00000000);
    Octets4(b, 2, 0x00, 0x00, 0x00, 0x00, 0x00000000);
    Octets4(b, 3, 0x00, 0x00, 0x00, 0x00, 0x00000000);
    Octets4(b, 4, 0x00, 0x00, 0x00, 0x00, 0x00000000);
    Octets4(b, 5, 0x00, 0x00, 0x00, 0x00, 0x00000000);
    Octets4(b, 6, 0x00, 0x00, 0x00, 0x00, 0x00000000);
    Octets4(b, 7, 0x00, 0x00, 0x00, 0x00, 0x00000000);
    Octets4(b, 8, 0x00, 0x00, 0x00, 0x00, 0x00000000);
    Octets4(b, 9, 0x00, 0x00, 0x00, 0x00, 0x00000000);
    Octets4(b, 10, 0x00, 0x00, 0x00, 0x00, 0x00000000);
    Octets4(b, 11, 0x00, 0x00, 0x00, 0x00, 0x00000000);
    Octets4(b, 12, 0x00, 0x00, 0x00, 0x00, 0x00000000);
    Octets4(b, 13, 0x00, 0x00, 0x00, 0x00, 0x00000000);
    Octets4(b, 14, 0x00, 0x00, 0x00, 0x00, 0x00000000);
    Octets4(b, 15, 0x00, 0x00, 0x00, 0x18, 0x00000018);
  }

  lemma AbcState(m: Octets)
    requires m == [0x61, 0x62, 0x63]
    ensures CompressAll(IV, Pad(m)) ==
            State(0xba7816bf, 0x8f01cfea, 0x414140de, 0x5dae2223,
                  0xb00361a3, 0x96177a9c, 0xb410ff61, 0xf20015ad)
  {
    hide Rounds, Pad, CompressAll;
    AbcPadding(Pad(m));
    AbcRounds64(Pad(m));
    OneBlock(IV, Pad(m));
  }

  /** The digest of "abc", the answer native/derostorm_sa.c checks the library against. */
  lemma AbcDigest(m: Octets)
    requires m == [0x61, 0x62, 0x63]
    ensures Sha256(m) ==
            [0xba, 0x78, 0x16, 0xbf, 0x8f, 0x01, 0xcf, 0xea, 0x41, 0x41, 0x40, 0xde, 0x5d, 0xae, 0x22, 0x23,
             0xb0, 0x03, 0x61, 0xa3, 0x96, 0x17, 0x7a, 0x9c, 0xb4, 0x10, 0xff, 0x61, 0xf2, 0x00, 0x15, 0xad]
  {
    hide Pad, CompressAll, Digest, WordOctets;
    AbcState(m);
    DigestIs(CompressAll(IV, Pad(m)));
    OctetsOf(0xba7816bf, 0xba, 0x78, 0x16, 0xbf);
    OctetsOf(0x8f01cfea, 0x8f, 0x01, 0xcf, 0xea);
    OctetsOf(0x414140de, 0x41, 0x41, 0x40, 0xde);
    OctetsOf(0x5dae2223, 0x5d, 0xae, 0x22, 0x23);
    OctetsOf(0xb00361a3, 0xb0, 0x03, 0x61, 0xa3);
    OctetsOf(0x96177a9c, 0x96, 0x17, 0x7a, 0x9c);
    OctetsOf(0xb410ff61, 0xb4, 0x10, 0xff, 0x61);
    OctetsOf(0xf20015ad, 0xf2, 0x00, 0x15, 0xad);
  }

  /** The 56 bytes, the marker and zeros. */
  ghost predicate FirstBlock(b: Octets) {
    && |b| == 64
    && Words(b, 0,
             0x61626364, 0x62636465, 0x63646566, 0x64656667, 0x65666768, 0x66676869, 0x6768696a, 0x68696a6b,
             0x696a6b6c, 0x6a6b6c6d, 0x6b6c6d6e, 0x6c6d6e6f, 0x6d6e6f70, 0x6e6f7071, 0x80000000, 0x00000000)
  }

  lemma FirstRounds16(b: Octets)
    requires FirstBlock(b)
    ensures Rounds(IV, b, 16) == State(0xc3486194, 0xdd16cbb3, 0xd68e6457, 0x101a4861,
                                       0x1496a54f, 0x9162aded, 0x9243f8af, 0x839a0fc9)
  {
    hide W, Rounds;
    NoRounds(IV, b);
    var s := State(0x6a09e667, 0xbb67ae85, 0x3c6ef372, 0xa54ff53a,
                   0x510e527f, 0x9b05688c, 0x1f83d9ab, 0x5be0cd19);
    s := Step(IV, b, 0, s, 0x428a2f98, 0x61626364, 0x54da50cc, 0x08909ae5, 0x5d6aebb1, 0xfa2a4606);
    s := Step(IV, b, 1, s, 0x71374491, 0x62636465, 0x1242dc5c, 0x1cea8373, 0x2f2d5fcf, 0x4eb1cfce);
    s := Step(IV, b, 2, s, 0xb5c0fbcf, 0x63646566, 0xa76e1619, 0xeff7020c, 0x97651825, 0x62d5c49e);
    s := Step(IV, b, 3, s, 0xe9b5dba5, 0x64656667, 0xfa8a9db4, 0x5002c721, 0x4a8d64d5, 0x6494841b);
    s := Step(IV, b, 4, s, 0x3956c25b, 0x65666768, 0xa85a0cd9, 0x50c7b539, 0xf921c212, 0x05c4f88a);
    s := Step(IV, b, 5, s, 0x59f111f1, 0x66676869, 0x50cbbcc5, 0x04fd3283, 0x55c8ef48, 0x7ff91c94);
    s := Step(IV, b, 6, s, 0x923f82a4, 0x6768696a, 0xa2409aa5, 0xa6179b12, 0x485835b7, 0x39a5b2ca);
    s := Step(IV, b, 7, s, 0xab1c5ed5, 0x68696a6b, 0x59746d3c, 0x78c3799f, 0xd237e6db, 0xa401d211);
    s := Step(IV, b, 8, s, 0xd807aa98, 0x696a6b6c, 0xc77e3cb2, 0x6e20ef1c, 0x359f2bce, 0xc09ffec4);
    s := Step(IV, b, 9, s, 0x12835b01, 0x6a6b6c6d, 0x3a6ec470, 0xffd886bb, 0x3a474b2b, 0x9037b3b8);
    s := Step(IV, b, 10, s, 0x243185be, 0x6b6c6d6e, 0xfbe69ce7, 0xbcfc17e4, 0xb8e2b4cb, 0x443ed29e);
    s := Step(IV, b, 11, s, 0x550c7dc3, 0x6c6d6e6f, 0x1be4b0cd, 0xfb7d708f, 0x1762215c, 0xee1c97a8);
    s := Step(IV, b, 12, s, 0x72be5d74, 0x6d6e6f70, 0x4dfae3fb, 0xc21f6466, 0x101a4861, 0x839a0fc9);
    s := Step(IV, b, 13, s, 0x80deb1fe, 0x6e6f7071, 0x57fcad84, 0x7e91b6d3, 0xd68e6457, 0x9243f8af);
    s := Step(IV, b, 14, s, 0x9bdc06a7, 0x80000000, 0xd87ff922, 0x0496d291, 0xdd16cbb3, 0x9162aded);
    s := Step(IV, b, 15, s, 0xc19bf174, 0x00000000, 0xfd3483f3, 0xc613dda1, 0xc3486194, 0x1496a54f);
  }

  lemma FirstRounds32(b: Octets)
    requires FirstBlock(b)
    ensures Words(b, 16,
                  0xeb8012ad, 0xa7c3ae92, 0x76e93ba2, 0xba42e743, 0x92a92204, 0xd847e75e, 0x9e160036, 0xb280a7cb,
                  0xddeb1516, 0xf36586f4, 0x969cd048, 0xe959d99d, 0x6accc0ec, 0xf54cb098, 0x2af1b2da, 0xee59c4c9)
    ensures Rounds(IV, b, 32) == State(0x5581ab07, 0xeb43f3ed, 0xdf7151a0, 0x74bcf468,
                                       0xdf980085, 0x0635d880, 0x7629c961, 0x72abaecd)
  {
    hide W, Rounds;
    FirstRounds16(b);
    Word(b, 16, 0x80000000, 0x6a6b6c6d, 0x62636465, 0x61626364, 0xeb8012ad);
    Word(b, 17, 0x00000000, 0x6b6c6d6e, 0x63646566, 0x62636465, 0xa7c3ae92);
    Word(b, 18, 0xeb8012ad, 0x6c6d6e6f, 0x64656667, 0x63646566, 0x76e93ba2);
    Word(b, 19, 0xa7c3ae92, 0x6d6e6f70, 0x65666768, 0x64656667, 0xba42e743);
    Word(b, 20, 0x76e93ba2, 0x6e6f7071, 0x66676869, 0x65666768, 0x92a92204);
    Word(b, 21, 0xba42e743, 0x80000000, 0x6768696a, 0x66676869, 0xd847e75e);
    Word(b, 22, 0x92a92204, 0x00000000, 0x68696a6b, 0x6768696a, 0x9e160036);
    Word(b, 23, 0xd847e75e, 0xeb8012ad, 0x696a6b6c, 0x68696a6b, 0xb280a7cb);
    Word(b, 24, 0x9e160036, 0xa7c3ae92, 0x6a6b6c6d, 0x696a6b6c, 0xddeb1516);
    Word(b, 25, 0xb280a7cb, 0x76e93ba2, 0x6b6c6d6e, 0x6a6b6c6d, 0xf36586f4);
    Word(b, 26, 0xddeb1516, 0xba42e743, 0x6c6d6e6f, 0x6b6c6d6e, 0x969cd048);
    Word(b, 27, 0xf36586f4, 0x92a92204, 0x6d6e6f70, 0x6c6d6e6f, 0xe959d99d);
    Word(b, 28, 0x969cd048, 0xd847e75e, 0x6e6f7071, 0x6d6e6f70, 0x6accc0ec);
    Word(b, 29, 0xe959d99d, 0x9e160036, 0x80000000, 0x6e6f7071, 0xf54cb098);
    Word(b, 30, 0x6accc0ec, 0xb280a7cb, 0x00000000, 0x80000000, 0x2af1b2da);
    Word(b, 31, 0xf54cb098, 0xddeb1516, 0xeb8012ad, 0x00000000, 0xee59c4c9);
    var s := State(0xc3486194, 0xdd16cbb3, 0xd68e6457, 0x101a4861,
                   0x1496a54f, 0x9162aded, 0x9243f8af, 0x839a0fc9);
    s := Step(IV, b, 16, s, 0xe49b69c1, 0xeb8012ad, 0xc4dbf9ef, 0xf500b2c2, 0xb9dcacb1, 0xd4f64250);
    s := Step(IV, b, 17, s, 0xefbe4786, 0xa7c3ae92, 0xb1c50c5f, 0x52a50cdf, 0x046a193e, 0x885370b6);
    s := Step(IV, b, 18, s, 0x0fc19dc6, 0x76e93ba2, 0x922c6996, 0x61d686c2, 0xf402f058, 0x6f433549);
    s := Step(IV, b, 19, s, 0x240ca1cc, 0xba42e743, 0xb8e7e072, 0x68513809, 0x2139187b, 0x7c304206);
    s := Step(IV, b, 20, s, 0x2de92c6f, 0x92a92204, 0xc2ea05b1, 0x1420bbcc, 0xd70ac17d, 0x7cc6b262);
    s := Step(IV, b, 21, s, 0x4a7484aa, 0xd847e75e, 0xd0f696ea, 0x4a34cfce, 0x1b2b66b8, 0xd560b028);
    s := Step(IV, b, 22, s, 0x5cb0a9dc, 0x9e160036, 0xfc720c3d, 0xb1bc2112, 0xae2e2d4f, 0xf074fc95);
    s := Step(IV, b, 23, s, 0x76f988da, 0xb280a7cb, 0x818ebca2, 0xd86e2a17, 0x59fce6b9, 0xa2c7d51d);
    s := Step(IV, b, 24, s, 0x983e5152, 0xddeb1516, 0x9f2ad67e, 0xab5d79e7, 0x4a885065, 0x763597fb);
    s := Step(IV, b, 25, s, 0xa831c66d, 0xf36586f4, 0x1bbbe7fc, 0x3b7639de, 0x573221da, 0x36e74eb4);
    s := Step(IV, b, 26, s, 0xb00327c8, 0x969cd048, 0x6334a826, 0xaf51b9b4, 0x128661da, 0x1162d575);
    s := Step(IV, b, 27, s, 0xbf597fc7, 0xe959d99d, 0x8d7f92c6, 0xe678c5e9, 0x73f858af, 0xe77c797f);
    s := Step(IV, b, 28, s, 0xc6e00bf3, 0x6accc0ec, 0x28235e68, 0x4c999600, 0x74bcf468, 0x72abaecd);
    s := Step(IV, b, 29, s, 0xd5a79147, 0xf54cb098, 0x1ef7a787, 0xc079aa19, 0xdf7151a0, 0x7629c961);
    s := Step(IV, b, 30, s, 0x06ca6351, 0x2af1b2da, 0xf3af76a6, 0xf7947d47, 0xeb43f3ed, 0x0635d880);
    s := Step(IV, b, 31, s, 0x14292967, 0xee59c4c9, 0x6b9fa7d6, 0xe9e20331, 0x5581ab07, 0xdf980085);
  }

  lemma FirstRounds48(b: Octets)
    requires FirstBlock(b)
    ensures Words(b, 32,
                  0xa835e16a, 0x1dff4429, 0xd6e15959, 0xc397cd6e, 0x6f1801ca, 0x21574205, 0x35ff7a84, 0x9743ee78,
                  0xe44183e7, 0x0d09f00d, 0x9c89af54, 0x042d5bef, 0x71f134d0, 0x0f94f463, 0x7e49dc63, 0x6f65c997)
    ensures Rounds(IV, b, 48) == State(0x13d82741, 0x165be9cd, 0x18f0d19d, 0xde71e2f2,
                                       0xa7802a4d, 0xa483f080, 0x6b88472c, 0xff61c636)
  {
    hide W, Rounds;
    FirstRounds32(b);
    Word(b, 32, 0x2af1b2da, 0xf36586f4, 0xa7c3ae92, 0xeb8012ad, 0xa835e16a);
    Word(b, 33, 0xee59c4c9, 0x969cd048, 0x76e93ba2, 0xa7c3ae92, 0x1dff4429);
    Word(b, 34, 0xa835e16a, 0xe959d99d, 0xba42e743, 0x76e93ba2, 0xd6e15959);
    Word(b, 35, 0x1dff4429, 0x6accc0ec, 0x92a92204, 0xba42e743, 0xc397cd6e);
    Word(b, 36, 0xd6e15959, 0xf54cb098, 0xd847e75e, 0x92a92204, 0x6f1801ca);
    Word(b, 37, 0xc397cd6e, 0x2af1b2da, 0x9e160036, 0xd847e75e, 0x21574205);
    Word(b, 38, 0x6f1801ca, 0xee59c4c9, 0xb280a7cb, 0x9e160036, 0x35ff7a84);
    Word(b, 39, 0x21574205, 0xa835e16a, 0xddeb1516, 0xb280a7cb, 0x9743ee78);
    Word(b, 40, 0x35ff7a84, 0x1dff4429, 0xf36586f4, 0xddeb1516, 0xe44183e7);
    Word(b, 41, 0x9743ee78, 0xd6e15959, 0x969cd048, 0xf36586f4, 0x0d09f00d);
    Word(b, 42, 0xe44183e7, 0xc397cd6e, 0xe959d99d, 0x969cd048, 0x9c89af54);
    Word(b, 43, 0x0d09f00d, 0x6f1801ca, 0x6accc0ec, 0xe959d99d, 0x042d5bef);
    Word(b, 44, 0x9c89af54, 0x21574205, 0xf54cb098, 0x6accc0ec, 0x71f134d0);
    Word(b, 45, 0x042d5bef, 0x35ff7a84, 0x2af1b2da, 0xf54cb098, 0x0f94f463);
    Word(b, 46, 0x71f134d0, 0x9743ee78, 0xee59c4c9, 0x2af1b2da, 0x7e49dc63);
    Word(b, 47, 0x0f94f463, 0xe44183e7, 0xa835e16a, 0xee59c4c9, 0x6f65c997);
    var s := State(0x5581ab07, 0xeb43f3ed, 0xdf7151a0, 0x74bcf468,
                   0xdf980085, 0x0635d880, 0x7629c961, 0x72abaecd);
    s := Step(IV, b, 32, s, 0x27b70a85, 0xa835e16a, 0x34903689, 0x6b38cf3f, 0x9fc905c8, 0xa94d2af1);
    s := Step(IV, b, 33, s, 0x2e1b2138, 0x1dff4429, 0x8f82651d, 0x0d634112, 0x9ce5a62f, 0x6ef3b6bd);
    s := Step(IV, b, 34, s, 0x4d2c6dfc, 0xd6e15959, 0x3f5a10a1, 0xde9ed7e4, 0x1df8e885, 0x2a9e048e);
    s := Step(IV, b, 35, s, 0x53380d13, 0xc397cd6e, 0x88a876ca, 0x7ede661e, 0x0786dce8, 0xde2a21d1);
    s := Step(IV, b, 36, s, 0x650a7354, 0x6f1801ca, 0x109ebbe7, 0x1bb717bf, 0x2c55d3a6, 0xb067c1af);
    s := Step(IV, b, 37, s, 0x766a0abb, 0x21574205, 0x5a464d24, 0x4f3f679a, 0xa985b4be, 0xf72bf353);
    s := Step(IV, b, 38, s, 0x81c2c92e, 0x35ff7a84, 0x4adfed0b, 0x46ccb052, 0x91ac9d5d, 0x68d8d590);
    s := Step(IV, b, 39, s, 0x92722c85, 0x9743ee78, 0x97d4be85, 0xe6787233, 0x7e4d30b8, 0x9f5b9b6d);
    s := Step(IV, b, 40, s, 0xa2bfe8a1, 0xe44183e7, 0x15e5531a, 0x6820147a, 0x7e056794, 0x423b26c0);
    s := Step(IV, b, 41, s, 0xa81a664b, 0x0d09f00d, 0x9bbfe8d9, 0xb4ca2dd2, 0x508a16ab, 0x45459d97);
    s := Step(IV, b, 42, s, 0xc24b8b70, 0x9c89af54, 0xeefc8ca3, 0xc72fe370, 0xb62c7013, 0x80a92a00);
    s := Step(IV, b, 43, s, 0xc76c51a3, 0x042d5bef, 0xc390078c, 0x52e35a52, 0x167361de, 0x41dd3844);
    s := Step(IV, b, 44, s, 0xd192e819, 0x71f134d0, 0x815c5ea2, 0x5d158450, 0xde71e2f2, 0xff61c636);
    s := Step(IV, b, 45, s, 0xd6990624, 0x0f94f463, 0x1afe3081, 0xfdf2a11c, 0x18f0d19d, 0x6b88472c);
    s := Step(IV, b, 46, s, 0xf40e3585, 0x7e49dc63, 0xee57806d, 0x28046960, 0x165be9cd, 0xa483f080);
    s := Step(IV, b, 47, s, 0x106aa070, 0x6f65c997, 0x910cc86f, 0x82cb5ed2, 0x13d82741, 0xa7802a4d);
  }

  lemma FirstRounds64(b: Octets)
    requires FirstBlock(b)
    ensures Words(b, 48,
                  0x0b706583, 0x179312ca, 0x503054e9, 0xba125c39, 0x7e9392c9, 0xd5cbaa1e, 0x78e0585d, 0xf6e7611c,
                  0x8ac830ce, 0x8b47a303, 0xfd6e627f, 0x8c6e2c6a, 0x4001adf1, 0x1a3dd097, 0xa9df6f62, 0x6aa60a39)
    ensures Rounds(IV, b, 64) == State(0x1bdc6f6f, 0x86126910, 0xf6f443f8, 0xbcfce922,
                                       0x25d2430a, 0x2fc08f85, 0xacc75916, 0x962d8621)
  {
    hide W, Rounds;
    FirstRounds48(b);
    Word(b, 48, 0x7e49dc63, 0x0d09f00d, 0x1dff4429, 0xa835e16a, 0x0b706583);
    Word(b, 49, 0x6f65c997, 0x9c89af54, 0xd6e15959, 0x1dff4429, 0x179312ca);
    Word(b, 50, 0x0b706583, 0x042d5bef, 0xc397cd6e, 0xd6e15959, 0x503054e9);
    Word(b, 51, 0x179312ca, 0x71f134d0, 0x6f1801ca, 0xc397cd6e, 0xba125c39);
    Word(b, 52, 0x503054e9, 0x0f94f463, 0x21574205, 0x6f1801ca, 0x7e9392c9);
    Word(b, 53, 0xba125c39, 0x7e49dc63, 0x35ff7a84, 0x21574205, 0xd5cbaa1e);
    Word(b, 54, 0x7e9392c9, 0x6f65c997, 0x9743ee78, 0x35ff7a84, 0x78e0585d);
    Word(b, 55, 0xd5cbaa1e, 0x0b706583, 0xe44183e7, 0x9743ee78, 0xf6e7611c);
    Word(b, 56, 0x78e0585d, 0x179312ca, 0x0d09f00d, 0xe44183e7, 0x8ac830ce);
    Word(b, 57, 0xf6e7611c, 0x503054e9, 0x9c89af54, 0x0d09f00d, 0x8b47a303);
    Word(b, 58, 0x8ac830ce, 0xba125c39, 0x042d5bef, 0x9c89af54, 0xfd6e627f);
    Word(b, 59, 0x8b47a303, 0x7e9392c9, 0x71f134d0, 0x042d5bef, 0x8c6e2c6a);
    Word(b, 60, 0xfd6e627f, 0xd5cbaa1e, 0x0f94f463, 0x71f134d0, 0x4001adf1);
    Word(b, 61, 0x8c6e2c6a, 0x78e0585d, 0x7e49dc63, 0x0f94f463, 0x1a3dd097);
    Word(b, 62, 0x4001adf1, 0xf6e7611c, 0x6f65c997, 0x7e49dc63, 0xa9df6f62);
    Word(b, 63, 0x1a3dd097, 0x8ac830ce, 0x0b706583, 0x6f65c997, 0x6aa60a39);
    var s := State(0x13d82741, 0x165be9cd, 0x18f0d19d, 0xde71e2f2,
                   0xa7802a4d, 0xa483f080, 0x6b88472c, 0xff61c636);
    s := Step(IV, b, 48, s, 0x19a4c116, 0x0b706583, 0xd03f286e, 0x313c752b, 0x017b9d99, 0xaeb10b60);
    s := Step(IV, b, 49, s, 0x1e376c08, 0x179312ca, 0xfe006319, 0x563c3688, 0x543c99a1, 0x16f134b6);
    s := Step(IV, b, 50, s, 0x2748774c, 0x503054e9, 0xf9b1091d, 0x7bdba05d, 0x758ca97a, 0x100cf2ea);
    s := Step(IV, b, 51, s, 0x34b0bcb5, 0xba125c39, 0x486fc43a, 0x395209a6, 0x81c1cde0, 0x5c47eb7b);
    s := Step(IV, b, 52, s, 0x391c0cb3, 0x7e9392c9, 0x1b04ccc8, 0x9dd08951, 0xb8d55619, 0x1c806a61);
    s := Step(IV, b, 53, s, 0x4ed8aa4a, 0xd5cbaa1e, 0xe0072533, 0x3d66c347, 0x1d6de87a, 0x3443bed4);
    s := Step(IV, b, 54, s, 0x5b9cca4f, 0x78e0585d, 0xec176d97, 0x0cf0457c, 0xf907b313, 0x61a41711);
    s := Step(IV, b, 55, s, 0x682e6ff3, 0xf6e7611c, 0x6cff6768, 0x31585d38, 0x9e57c4a0, 0xeec13548);
    s := Step(IV, b, 56, s, 0x748f82ee, 0x8ac830ce, 0x76973635, 0xfacb6221, 0x71629856, 0x2f6c8c4e);
    s := Step(IV, b, 57, s, 0x78a5636f, 0x8b47a303, 0xae2f5556, 0xcdd204d6, 0x7c015a2c, 0xcb9d3dd0);
    s := Step(IV, b, 58, s, 0x84c87814, 0xfd6e627f, 0x4ad0ed21, 0x474edf95, 0x921fccb6, 0x43d8a034);
    s := Step(IV, b, 59, s, 0x8cc70208, 0x8c6e2c6a, 0xb38993c9, 0x2e0591d1, 0xe18f259a, 0x51e15869);
    s := Step(IV, b, 60, s, 0x90befffa, 0x4001adf1, 0x24caedcb, 0x9831fb57, 0xbcfce922, 0x962d8621);
    s := Step(IV, b, 61, s, 0xa4506ceb, 0x1a3dd097, 0x30c5feea, 0xc62e450e, 0xf6f443f8, 0xacc75916);
    s := Step(IV, b, 62, s, 0xbef9a3f7, 0xa9df6f62, 0x9da0c2cf, 0xe871a641, 0x86126910, 0x2fc08f85);
    s := Step(IV, b, 63, s, 0xc67178f2, 0x6aa60a39, 0x44431d70, 0xd79951ff, 0x1bdc6f6f, 0x25d2430a);
  }

  /** The state between the two blocks. */
  const MIDDLE := State(0x85e655d6, 0x417a1795, 0x3363376a, 0x624cde5c,
                        0x76e09589, 0xcac5f811, 0xcc4b32c1, 0xf20e533a)

  /** Zeros, and the length of 448 bits. */
  ghost predicate SecondBlock(b: Octets) {
    && |b| == 64
    && Words(b, 0,
             0x00000000, 0x00000000, 0x00000000, 0x00000000, 0x00000000, 0x00000000, 0x00000000, 0x00000000,
             0x00000000, 0x00000000, 0x00000000, 0x00000000, 0x00000000, 0x00000000, 0x00000000, 0x000001c0)
  }

  lemma SecondRounds16(b: Octets)
    requires SecondBlock(b)
    ensures Rounds(MIDDLE, b, 16) == State(0x16a8cc79, 0x0cea5cbc, 0xd74080fa, 0x35ee996d,
                                           0x0fcb1f6f, 0x60356548, 0x68aa893f, 0x5c24e2a2)
  {
    hide W, Rounds;
    NoRounds(MIDDLE, b);
    var s := State(0x85e655d6, 0x417a1795, 0x3363376a, 0x624cde5c,
                   0x76e09589, 0xcac5f811, 0xcc4b32c1, 0xf20e533a);
    s := Step(MIDDLE, b, 0, s, 0x428a2f98, 0x00000000, 0xe423d012, 0x97fcf826, 0x7c20c838, 0x4670ae6e);
    s := Step(MIDDLE, b, 1, s, 0x71374491, 0x00000000, 0x58ee86fa, 0x234d888c, 0x7c3c0f86, 0x8c51be64);
    s := Step(MIDDLE, b, 2, s, 0xb5c0fbcf, 0x00000000, 0x6df7a255, 0x8f274987, 0xfd1eebdc, 0xaf71b9ea);
    s := Step(MIDDLE, b, 3, s, 0xe9b5dba5, 0x00000000, 0x5c1d0d19, 0x964bed90, 0xf268faa9, 0xe20362ef);
    s := Step(MIDDLE, b, 4, s, 0x3956c25b, 0x00000000, 0x11de67c9, 0x067bf5b0, 0x185a5d79, 0x8dff3001);
    s := Step(MIDDLE, b, 5, s, 0x59f111f1, 0x00000000, 0x81e4be20, 0xbd06ade6, 0x3eeb6c06, 0xfe20cda6);
    s := Step(MIDDLE, b, 6, s, 0x923f82a4, 0x00000000, 0x0d15f327, 0x7ca5b0ca, 0x89bba3f1, 0x0a34df03);
    s := Step(MIDDLE, b, 7, s, 0xab1c5ed5, 0x00000000, 0x1331c328, 0xac68d078, 0xbf9a93a0, 0x059abdd1);
    s := Step(MIDDLE, b, 8, s, 0xd807aa98, 0x00000000, 0x939fe8e2, 0x98697e62, 0x2c096744, 0xabfa465b);
    s := Step(MIDDLE, b, 9, s, 0x12835b01, 0x00000000, 0x6b3c817c, 0xc259cd0a, 0x2d964e86, 0xaa27ed82);
    s := Step(MIDDLE, b, 10, s, 0x243185be, 0x00000000, 0x872bd332, 0xd4092f29, 0x5b35025b, 0x10e77723);
    s := Step(MIDDLE, b, 11, s, 0x550c7dc3, 0x00000000, 0x2180b1a8, 0x3d343a98, 0x5eb4ec40, 0xe11b4548);
    s := Step(MIDDLE, b, 12, s, 0x72be5d74, 0x00000000, 0x301b7b5e, 0x05d31e0f, 0x35ee996d, 0x5c24e2a2);
    s := Step(MIDDLE, b, 13, s, 0x80deb1fe, 0x00000000, 0x3b143ab9, 0x9c2c4641, 0xd74080fa, 0x68aa893f);
    s := Step(MIDDLE, b, 14, s, 0x9bdc06a7, 0x00000000, 0x050062ed, 0x07e9f9cf, 0x0cea5cbc, 0x60356548);
    s := Step(MIDDLE, b, 15, s, 0xc19bf174, 0x000001c0, 0xb116332f, 0x6592994a, 0x16a8cc79, 0x0fcb1f6f);
  }

  lemma SecondRounds32(b: Octets)
    requires SecondBlock(b)
    ensures Words(b, 16,
                  0x00000000, 0x00d80000, 0x00000000, 0x00003677, 0x00000000, 0x1df5600d, 0x000001c0, 0x1c00501c,
                  0x01b00000, 0x220a8d94, 0x0000a365, 0x177017e7, 0x63d38035, 0x090ab713, 0x4c7539ca, 0x0f19a8c9)
    ensures Rounds(MIDDLE, b, 32) == State(0xb0eab1c5, 0x02ef3a5f, 0x1cfa5eb0, 0xd958b529,
                                           0xf6d93952, 0x5da10665, 0x6c49db9f, 0xc2fa99b1)
  {
    hide W, Rounds;
    SecondRounds16(b);
    Word(b, 16, 0x00000000, 0x00000000, 0x00000000, 0x00000000, 0x00000000);
    Word(b, 17, 0x000001c0, 0x00000000, 0x00000000, 0x00000000, 0x00d80000);
    Word(b, 18, 0x00000000, 0x00000000, 0x00000000, 0x00000000, 0x00000000);
    Word(b, 19, 0x00d80000, 0x00000000, 0x00000000, 0x00000000, 0x00003677);
    Word(b, 20, 0x00000000, 0x00000000, 0x00000000, 0x00000000, 0x00000000);
    Word(b, 21, 0x00003677, 0x00000000, 0x00000000, 0x00000000, 0x1df5600d);
    Word(b, 22, 0x00000000, 0x000001c0, 0x00000000, 0x00000000, 0x000001c0);
    Word(b, 23, 0x1df5600d, 0x00000000, 0x00000000, 0x00000000, 0x1c00501c);
    Word(b, 24, 0x000001c0, 0x00d80000, 0x00000000, 0x00000000, 0x01b00000);
    Word(b, 25, 0x1c00501c, 0x00000000, 0x00000000, 0x00000000, 0x220a8d94);
    Word(b, 26, 0x01b00000, 0x00003677, 0x00000000, 0x00000000, 0x0000a365);
    Word(b, 27, 0x220a8d94, 0x00000000, 0x00000000, 0x00000000, 0x177017e7);
    Word(b, 28, 0x0000a365, 0x1df5600d, 0x00000000, 0x00000000, 0x63d38035);
    Word(b, 29, 0x177017e7, 0x000001c0, 0x00000000, 0x00000000, 0x090ab713);
    Word(b, 30, 0x63d38035, 0x1c00501c, 0x000001c0, 0x00000000, 0x4c7539ca);
    Word(b, 31, 0x090ab713, 0x01b00000, 0x00000000, 0x000001c0, 0x0f19a8c9);
    var s := State(0x16a8cc79, 0x0cea5cbc, 0xd74080fa, 0x35ee996d,
                   0x0fcb1f6f, 0x60356548, 0x68aa893f, 0x5c24e2a2);
    s := Step(MIDDLE, b, 16, s, 0xe49b69c1, 0x00000000, 0x55333454, 0x9c3c2efa, 0xf16f634e, 0x8b21cdc1);
    s := Step(MIDDLE, b, 17, s, 0xefbe4786, 0x00d80000, 0xf35101d9, 0x308bb4e9, 0x23dcb6c2, 0xca9182d3);
    s := Step(MIDDLE, b, 18, s, 0x0fc19dc6, 0x00000000, 0x5cd51ed9, 0x802a2224, 0xdcff40fd, 0x69bf7b95);
    s := Step(MIDDLE, b, 19, s, 0x240ca1cc, 0x00003677, 0xf71f7f38, 0x7fd22384, 0x76f1a2bc, 0x0dc84bb1);
    s := Step(MIDDLE, b, 20, s, 0x2de92c6f, 0x00000000, 0xdad806a4, 0x45d2d1f5, 0x20aad899, 0xcc4769f2);
    s := Step(MIDDLE, b, 21, s, 0x4a7484aa, 0x1df5600d, 0x37d02f6b, 0x9c7d98af, 0xd44dc81a, 0x5bace62d);
    s := Step(MIDDLE, b, 22, s, 0x5cb0a9dc, 0x000001c0, 0xb96b618a, 0x37cf83d1, 0xf13ae55b, 0x966aa287);
    s := Step(MIDDLE, b, 23, s, 0x76f988da, 0x1c00501c, 0x76ea3431, 0x2d2f2760, 0xa4195b91, 0xeddbd6ed);
    s := Step(MIDDLE, b, 24, s, 0x983e5152, 0x01b00000, 0x848600a0, 0xc4fef9d9, 0x4984fa79, 0xa530d939);
    s := Step(MIDDLE, b, 25, s, 0xa831c66d, 0x220a8d94, 0x3711268a, 0x735b92f8, 0xaa6cb982, 0x0b5eeea4);
    s := Step(MIDDLE, b, 26, s, 0xb00327c8, 0x0000a365, 0x17db887f, 0x7c75733d, 0x9450fbbc, 0x09166dda);
    s := Step(MIDDLE, b, 27, s, 0xbf597fc7, 0x177017e7, 0xca3001ba, 0x436369f1, 0x0d936bab, 0x6e495d4b);
    s := Step(MIDDLE, b, 28, s, 0xc6e00bf3, 0x63d38035, 0x79759f38, 0x5fe315f1, 0xd958b529, 0xc2fa99b1);
    s := Step(MIDDLE, b, 29, s, 0xd5a79147, 0x090ab713, 0xc1dd221d, 0x5b1d3c93, 0x1cfa5eb0, 0x6c49db9f);
    s := Step(MIDDLE, b, 30, s, 0x06ca6351, 0x4c7539ca, 0xc9500aa9, 0x399f2fb6, 0x02ef3a5f, 0x5da10665);
    s := Step(MIDDLE, b, 31, s, 0x14292967, 0x0f19a8c9, 0xe945cda7, 0xc7a4e41e, 0xb0eab1c5, 0xf6d93952);
  }

  lemma SecondRounds48(b: Octets)
    requires SecondBlock(b)
    ensures Words(b, 32,
                  0x5df4b0c4, 0xe257036a, 0xc97bb6f1, 0xc5b46f4d, 0xf8253c4e, 0xa558d189, 0x78696285, 0xed07117f,
                  0x107358f6, 0x390ae496, 0x565010a2, 0xc51d7d44, 0x9e74c972, 0x6614b561, 0x30fc129d, 0x9ac684a8)
    ensures Rounds(MIDDLE, b, 48) == State(0xd7354d5b, 0x0b3303a7, 0x104a7db4, 0x0f154e11,
                                           0xaad55b6b, 0xbbe1c39a, 0x5348e8f6, 0x6f9517cb)
  {
    hide W, Rounds;
    SecondRounds32(b);
    Word(b, 32, 0x4c7539ca, 0x220a8d94, 0x00d80000, 0x00000000, 0x5df4b0c4);
    Word(b, 33, 0x0f19a8c9, 0x0000a365, 0x00000000, 0x00d80000, 0xe257036a);
    Word(b, 34, 0x5df4b0c4, 0x177017e7, 0x00003677, 0x00000000, 0xc97bb6f1);
    Word(b, 35, 0xe257036a, 0x63d38035, 0x00000000, 0x00003677, 0xc5b46f4d);
    Word(b, 36, 0xc97bb6f1, 0x090ab713, 0x1df5600d, 0x00000000, 0xf8253c4e);
    Word(b, 37, 0xc5b46f4d, 0x4c7539ca, 0x000001c0, 0x1df5600d, 0xa558d189);
    Word(b, 38, 0xf8253c4e, 0x0f19a8c9, 0x1c00501c, 0x000001c0, 0x78696285);
    Word(b, 39, 0xa558d189, 0x5df4b0c4, 0x01b00000, 0x1c00501c, 0xed07117f);
    Word(b, 40, 0x78696285, 0xe257036a, 0x220a8d94, 0x01b00000, 0x107358f6);
    Word(b, 41, 0xed07117f, 0xc97bb6f1, 0x0000a365, 0x220a8d94, 0x390ae496);
    Word(b, 42, 0x107358f6, 0xc5b46f4d, 0x177017e7, 0x0000a365, 0x565010a2);
    Word(b, 43, 0x390ae496, 0xf8253c4e, 0x63d38035, 0x177017e7, 0xc51d7d44);
    Word(b, 44, 0x565010a2, 0xa558d189, 0x090ab713, 0x63d38035, 0x9e74c972);
    Word(b, 45, 0xc51d7d44, 0x78696285, 0x4c7539ca, 0x090ab713, 0x6614b561);
    Word(b, 46, 0x9e74c972, 0xed07117f, 0x0f19a8c9, 0x4c7539ca, 0x30fc129d);
    Word(b, 47, 0x6614b561, 0x107358f6, 0x5df4b0c4, 0x0f19a8c9, 0x9ac684a8);
    var s := State(0xb0eab1c5, 0x02ef3a5f, 0x1cfa5eb0, 0xd958b529,
                   0xf6d93952, 0x5da10665, 0x6c49db9f, 0xc2fa99b1);
    s := Step(MIDDLE, b, 32, s, 0x27b70a85, 0x5df4b0c4, 0xb2412e80, 0x59ba78bc, 0x0bfba73c, 0x8b99e3a9);
    s := Step(MIDDLE, b, 33, s, 0x2e1b2138, 0xe257036a, 0x7363e5fc, 0xd86df99a, 0x4bd1df96, 0x905e44ac);
    s := Step(MIDDLE, b, 34, s, 0x4d2c6dfc, 0xc97bb6f1, 0x63d3c9de, 0x353427d8, 0x9907f1b6, 0x66c3043d);
    s := Step(MIDDLE, b, 35, s, 0x53380d13, 0xc5b46f4d, 0xacd66821, 0x4007e5ec, 0xecde4e0d, 0x5dc119e6);
    s := Step(MIDDLE, b, 36, s, 0x650a7354, 0xf8253c4e, 0xf2d926e1, 0x3c38a258, 0x2f11c939, 0xfed4ce1d);
    s := Step(MIDDLE, b, 37, s, 0x766a0abb, 0xa558d189, 0xe707b072, 0xf241b7b9, 0xd949682b, 0x32d99008);
    s := Step(MIDDLE, b, 38, s, 0x81c2c92e, 0x78696285, 0x2dc4f349, 0x8005874d, 0xadca7a96, 0xc6cce4ff);
    s := Step(MIDDLE, b, 39, s, 0x92722c85, 0xed07117f, 0x1ea477de, 0x0377127c, 0x221b8a5a, 0x0b82c5eb);
    s := Step(MIDDLE, b, 40, s, 0xa2bfe8a1, 0x107358f6, 0xb50f7369, 0x5dca04dc, 0x12d97845, 0xe4213ca2);
    s := Step(MIDDLE, b, 41, s, 0xa81a664b, 0x390ae496, 0x261df18f, 0x065b56e7, 0x2c794876, 0xff6759ba);
    s := Step(MIDDLE, b, 42, s, 0xc24b8b70, 0x565010a2, 0x3318cae6, 0x4fe831bc, 0x8300fca2, 0xe0e3457c);
    s := Step(MIDDLE, b, 43, s, 0xc76c51a3, 0xc51d7d44, 0xaa2d3d99, 0x48802589, 0xf2ad6322, 0xcc48c7f3);
    s := Step(MIDDLE, b, 44, s, 0xd192e819, 0x9e74c972, 0x5cbb9f86, 0xb259ae8b, 0x0f154e11, 0x6f9517cb);
    s := Step(MIDDLE, b, 45, s, 0xd6990624, 0x6614b561, 0x26cfa080, 0xe97add34, 0x104a7db4, 0x5348e8f6);
    s := Step(MIDDLE, b, 46, s, 0xf40e3585, 0x30fc129d, 0x38e0c6f8, 0xd2523caf, 0x0b3303a7, 0xbbe1c39a);
    s := Step(MIDDLE, b, 47, s, 0x106aa070, 0x9ac684a8, 0xb827f849, 0x1f0d5512, 0xd7354d5b, 0xaad55b6b);
  }

  lemma SecondRounds64(b: Octets)
    requires SecondBlock(b)
    ensures Words(b, 48,
                  0x2b658dbd, 0xe290f793, 0x9eebb24c, 0x9713b5de, 0x41061ab7, 0xe022e23b, 0x0772079e, 0x7de22d9c,
                  0xc8b83778, 0x75a79849, 0xd93dbddb, 0x0a036c9d, 0xcb4f6ac6, 0x823f97e2, 0xea2f2a7a, 0xb9018b52)
    ensures Rounds(MIDDLE, b, 64) == State(0x9ea7148b, 0x908c2123, 0xb25cef29, 0xa9f181dd,
                                           0x2c5c4ed0, 0x9a392956, 0x2aa1bb13, 0x27ccb387)
  {
    hide W, Rounds;
    SecondRounds48(b);
    Word(b, 48, 0x30fc129d, 0x390ae496, 0xe257036a, 0x5df4b0c4, 0x2b658dbd);
    Word(b, 49, 0x9ac684a8, 0x565010a2, 0xc97bb6f1, 0xe257036a, 0xe290f793);
    Word(b, 50, 0x2b658dbd, 0xc51d7d44, 0xc5b46f4d, 0xc97bb6f1, 0x9eebb24c);
    Word(b, 51, 0xe290f793, 0x9e74c972, 0xf8253c4e, 0xc5b46f4d, 0x9713b5de);
    Word(b, 52, 0x9eebb24c, 0x6614b561, 0xa558d189, 0xf8253c4e, 0x41061ab7);
    Word(b, 53, 0x9713b5de, 0x30fc129d, 0x78696285, 0xa558d189, 0xe022e23b);
    Word(b, 54, 0x41061ab7, 0x9ac684a8, 0xed07117f, 0x78696285, 0x0772079e);
    Word(b, 55, 0xe022e23b, 0x2b658dbd, 0x107358f6, 0xed07117f, 0x7de22d9c);
    Word(b, 56, 0x0772079e, 0xe290f793, 0x390ae496, 0x107358f6, 0xc8b83778);
    Word(b, 57, 0x7de22d9c, 0x9eebb24c, 0x565010a2, 0x390ae496, 0x75a79849);
    Word(b, 58, 0xc8b83778, 0x9713b5de, 0xc51d7d44, 0x565010a2, 0xd93dbddb);
    Word(b, 59, 0x75a79849, 0x41061ab7, 0x9e74c972, 0xc51d7d44, 0x0a036c9d);
    Word(b, 60, 0xd93dbddb, 0xe022e23b, 0x6614b561, 0x9e74c972, 0xcb4f6ac6);
    Word(b, 61, 0x0a036c9d, 0x0772079e, 0x30fc129d, 0x6614b561, 0x823f97e2);
    Word(b, 62, 0xcb4f6ac6, 0x7de22d9c, 0x9ac684a8, 0x30fc129d, 0xea2f2a7a);
    Word(b, 63, 0x823f97e2, 0xc8b83778, 0x2b658dbd, 0x9ac684a8, 0xb9018b52);
    var s := State(0xd7354d5b, 0x0b3303a7, 0x104a7db4, 0x0f154e11,
                   0xaad55b6b, 0xbbe1c39a, 0x5348e8f6, 0x6f9517cb);
    s := Step(MIDDLE, b, 48, s, 0x19a4c116, 0x2b658dbd, 0x59dd044f, 0x5d59d357, 0xb736d7a6, 0x68f25260);
    s := Step(MIDDLE, b, 49, s, 0x1e376c08, 0xe290f793, 0xc46b07c2, 0x62ddde2a, 0x2748e5ec, 0xd4b58576);
    s := Step(MIDDLE, b, 50, s, 0x2748774c, 0x9eebb24c, 0x1c51436a, 0xbc59798f, 0xd8aabcf9, 0x27844711);
    s := Step(MIDDLE, b, 51, s, 0x34b0bcb5, 0x9713b5de, 0x28294c75, 0xf24282f5, 0x1a6bcf6a, 0xff5e99d0);
    s := Step(MIDDLE, b, 52, s, 0x391c0cb3, 0x41061ab7, 0xe167f8cb, 0x6d6276d5, 0x4eca6fa0, 0x989ed071);
    s := Step(MIDDLE, b, 53, s, 0x4ed8aa4a, 0xe022e23b, 0x4a08f9a2, 0xa1f95c68, 0xec02560a, 0x7151df8e);
    s := Step(MIDDLE, b, 54, s, 0x5b9cca4f, 0x0772079e, 0x899693cb, 0x505a2d4a, 0xd9f0c115, 0x624150c4);
    s := Step(MIDDLE, b, 55, s, 0x682e6ff3, 0x7de22d9c, 0x07fc376c, 0x8a98efa4, 0x92952710, 0x226806d6);
    s := Step(MIDDLE, b, 56, s, 0x748f82ee, 0xc8b83778, 0xff86eaad, 0x214de637, 0x20d4d0e4, 0x4e515a4d);
    s := Step(MIDDLE, b, 57, s, 0x78a5636f, 0x75a79849, 0xd61c87ef, 0x6d2c6330, 0x4348eb1f, 0xc21eddf9);
    s := Step(MIDDLE, b, 58, s, 0x84c87814, 0xd93dbddb, 0x7a16a54f, 0xae5940a1, 0x286fe5f0, 0x54076664);
    s := Step(MIDDLE, b, 59, s, 0x8cc70208, 0x0a036c9d, 0x61f28143, 0xba5a5c96, 0x1c4cddd9, 0xf487a853);
    s := Step(MIDDLE, b, 60, s, 0x90befffa, 0xcb4f6ac6, 0x06f7e2a3, 0xa2f99f3a, 0xa9f181dd, 0x27ccb387);
    s := Step(MIDDLE, b, 61, s, 0xa4506ceb, 0x823f97e2, 0xe758cff4, 0xcb041f35, 0xb25cef29, 0x2aa1bb13);
    s := Step(MIDDLE, b, 62, s, 0xbef9a3f7, 0xea2f2a7a, 0x71c94366, 0x1ec2ddbd, 0x908c2123, 0x9a392956);
    s := Step(MIDDLE, b, 63, s, 0xc67178f2, 0xb9018b52, 0x100f70f7, 0x8e97a394, 0x9ea7148b, 0x2c5c4ed0);
  }

  function Letter(n: nat): bv8
    requires n < 17
  {
    [[0x61, 0x62, 0x63, 0x64, 0x65], [0x66, 0x67, 0x68, 0x69, 0x6a], [0x6b, 0x6c, 0x6d, 0x6e, 0x6f],
     [0x70, 0x71]][n / 5][n % 5]
  }

  /** "abcdbcdecdef..mnopnopq": fourteen groups of four letters, each starting one letter further on. */
  predicate IsLongMessage(m: Octets) {
    |m| == 56 && forall i :: 0 <= i < 56 ==> m[i] == Letter(i / 4 + i % 4)
  }

  lemma Letters()
    ensures Letter(0) == 0x61 && Letter(1) == 0x62 && Letter(2) == 0x63 && Letter(3) == 0x64 && Letter(4) == 0x65
    ensures Letter(5) == 0x66 && Letter(6) == 0x67 && Letter(7) == 0x68 && Letter(8) == 0x69 && Letter(9) == 0x6a
    ensures Letter(10) == 0x6b && Letter(11) == 0x6c && Letter(12) == 0x6d && Letter(13) == 0x6e && Letter(14) == 0x6f
    ensures Letter(15) == 0x70 && Letter(16) == 0x71
  {}

  /** The message and the marker leave no room for the length: two blocks. */
  lemma LongPadding(m: Octets)
    requires IsLongMessage(m)
    ensures |Pad(m)| == 128 && Pad(m)[..56] == m && Pad(m)[56] == 0x80
    ensures forall i :: 57 <= i < 126 ==> Pad(m)[i] == 0
    ensures Pad(m)[126] == 0x01 && Pad(m)[127] == 0xc0
  {
    hide LengthOctets;
    ShortLength(56, 0x01, 0xc0);
    assert ZeroCount(56) == 63;
  }

  /** The four letters of group t as a word. */
  lemma LongWord(m: Octets, b: Octets, t: nat, b0: bv8, b1: bv8, b2: bv8, b3: bv8, w: bv32)
    requires IsLongMessage(m) && |b| == 64 && b[..56] == m && t < 14 && BigEndianWord(b0, b1, b2, b3) == w
    requires Letter(t) == b0 && Letter(t + 1) == b1 && Letter(t + 2) == b2 && Letter(t + 3) == b3
    ensures W(b, t) == w
  {
    hide BigEndianWord, Letter, W;
    assert forall i :: 0 <= i < 56 ==> b[i] == b[..56][i] == Letter(i / 4 + i % 4);
    Octets4(b, t, b0, b1, b2, b3, w);
  }

  lemma LongFirst(m: Octets, b: Octets)
    requires IsLongMessage(m) && b == Pad(m)[..64]
    ensures FirstBlock(b)
  {
    hide W, Pad, Letter, IsLongMessage;
    LongPadding(m);
    Letters();
    assert b[..56] == m;
    LongWord(m, b, 0, 0x61, 0x62, 0x63, 0x64, 0x61626364);
    LongWord(m, b, 1, 0x62, 0x63, 0x64, 0x65, 0x62636465);
    LongWord(m, b, 2, 0x63, 0x64, 0x65, 0x66, 0x63646566);
    LongWord(m, b, 3, 0x64, 0x65, 0x66, 0x67, 0x64656667);
    LongWord(m, b, 4, 0x65, 0x66, 0x67, 0x68, 0x65666768);
    LongWord(m, b, 5, 0x66, 0x67, 0x68, 0x69, 0x66676869);
    LongWord(m, b, 6, 0x67, 0x68, 0x69, 0x6a, 0x6768696a);
    LongWord(m, b, 7, 0x68, 0x69, 0x6a, 0x6b, 0x68696a6b);
    LongWord(m, b, 8, 0x69, 0x6a, 0x6b, 0x6c, 0x696a6b6c);
    LongWord(m, b, 9, 0x6a, 0x6b, 0x6c, 0x6d, 0x6a6b6c6d);
    LongWord(m, b, 10, 0x6b, 0x6c, 0x6d, 0x6e, 0x6b6c6d6e);
    LongWord(m, b, 11, 0x6c, 0x6d, 0x6e, 0x6f, 0x6c6d6e6f);
    LongWord(m, b, 12, 0x6d, 0x6e, 0x6f, 0x70, 0x6d6e6f70);
    LongWord(m, b, 13, 0x6e, 0x6f, 0x70, 0x71, 0x6e6f7071);
    Octets4(b, 14, 0x80, 0x00, 0x00, 0x00, 0x80000000);
    Octets4(b, 15, 0x00, 0x00, 0x00, 0x00, 0x00000000);
  }

  lemma LongSecond(m: Octets, b: Octets)
    requires IsLongMessage(m) && |Pad(m)| == 128 && b == Pad(m)[64..]
    ensures SecondBlock(b)
  {
    hide W, Pad;
    LongPadding(m);
    assert forall i :: 0 <= i < 62 ==> b[i] == Pad(m)[64 + i] == 0;
    Octets4(b, 0, 0x00, 0x00, 0x00, 0x00, 0x00000000);
    Octets4(b, 1, 0x00, 0x00, 0x00, 0x00, 0x00000000);
    Octets4(b, 2, 0x00, 0x00, 0x00, 0x00, 0x00000000);
    Octets4(b, 3, 0x00, 0x00, 0x00, 0x00, 0x00000000);
    Octets4(b, 4, 0x00, 0x00, 0x00, 0x00, 0x00000000);
    Octets4(b, 5, 0x00, 0x00, 0x00, 0x00, 0x00000000);
    Octets4(b, 6, 0x00, 0x00, 0x00, 0x00, 0x00000000);
    Octets4(b, 7, 0x00, 0x00, 0x00, 0x00, 0x00000000);
    Octets4(b, 8, 0x00, 0x00, 0x00, 0x00, 0x00000000);
    Octets4(b, 9, 0x00, 0x00, 0x00, 0x00, 0x00000000);
    Octets4(b, 10, 0x00, 0x00, 0x00, 0x00, 0x00000000);
    Octets4(b, 11, 0x00, 0x00, 0x00, 0x00, 0x00000000);
    Octets4(b, 12, 0x00, 0x00, 0x00, 0x00, 0x00000000);
    Octets4(b, 13, 0x00, 0x00, 0x00, 0x00, 0x00000000);
    Octets4(b, 14, 0x00, 0x00, 0x00, 0x00, 0x00000000);
    Octets4(b, 15, 0x00, 0x00, 0x01, 0xc0, 0x000001c0);
  }

  lemma LongState(m: Octets)
    requires IsLongMessage(m)
    ensures CompressAll(IV, Pad(m)) ==
            State(0x248d6a61, 0xd20638b8, 0xe5c02693, 0x0c3e6039,
                  0xa33ce459, 0x64ff2167, 0xf6ecedd4, 0x19db06c1)
  {
    hide Rounds, Pad, CompressAll, FirstBlock, SecondBlock, Letter;
    LongPadding(m);
    var b, c := Pad(m)[..64], Pad(m)[64..];
    LongFirst(m, b);
    LongSecond(m, c);
    FirstRounds64(b);
    OneBlock(IV, b);
    assert CompressAll(IV, b) == MIDDLE;
    SecondRounds64(c);
    OneBlock(MIDDLE, c);
    assert Pad(m) == b + c;
    CompressAllConcat(IV, b, c);
  }

  /** The digest of a message of 56 bytes. */
  lemma LongDigest(m: Octets)
    requires IsLongMessage(m)
    ensures Sha256(m) ==
            [0x24, 0x8d, 0x6a, 0x61, 0xd2, 0x06, 0x38, 0xb8, 0xe5, 0xc0, 0x26, 0x93, 0x0c, 0x3e, 0x60, 0x39,
             0xa3, 0x3c, 0xe4, 0x59, 0x64, 0xff, 0x21, 0x67, 0xf6, 0xec, 0xed, 0xd4, 0x19, 0xdb, 0x06, 0xc1]
  {
    hide Pad, CompressAll, Digest, WordOctets;
    LongState(m);
    DigestIs(CompressAll(IV, Pad(m)));
    OctetsOf(0x248d6a61, 0x24, 0x8d, 0x6a, 0x61);
    OctetsOf(0xd20638b8, 0xd2, 0x06, 0x38, 0xb8);
    OctetsOf(0xe5c02693, 0xe5, 0xc0, 0x26, 0x93);
    OctetsOf(0x0c3e6039, 0x0c, 0x3e, 0x60, 0x39);
    OctetsOf(0xa33ce459, 0xa3, 0x3c, 0xe4, 0x59);
    OctetsOf(0x64ff2167, 0x64, 0xff, 0x21, 0x67);
    OctetsOf(0xf6ecedd4, 0xf6, 0xec, 0xed, 0xd4);
    OctetsOf(0x19db06c1, 0x19, 0xdb, 0x06, 0xc1);
  }
}
