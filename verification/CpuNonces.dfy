/** The nonce loops of RunMiner in cmd/derostorm/engine.go: one nonce a step, or two so that their
    final SHA-256s can be interleaved. */
module CpuNonces {
  import opened MachineTypes
  import opened Difficulty
  import opened Miniblock
  import T = Target

  /** The shares of count hashes that continue from nonce i, in order. */
  function SharesFrom(job: Job, tg: T.Target, w: Work, i: uint32, count: nat, pow: Work -> Hash): seq<Share>
    requires T.WellFormed(tg)
  {
    if count == 0 then []
    else SharesFrom(job, tg, w, i, count - 1, pow) + ShareFor(job, tg, WithNonce(w, (i + count) % NONCES), pow)
  }

  /** The c-th hash after nonce i wins and gives this share. */
  predicate Gives(job: Job, tg: T.Target, w: Work, i: uint32, c: nat, pow: Work -> Hash, s: Share)
    requires T.WellFormed(tg)
  {
    var input := WithNonce(w, (i + c) % NONCES);
    T.Meets(tg, pow(input)) && s == Share(job, input, pow(input))
  }

  /** The shares are those of the winning hashes among the count that follow nonce i, and only
      those. */
  lemma {:induction false} SharesExactly(job: Job, tg: T.Target, w: Work, i: uint32, count: nat, pow: Work -> Hash,
                                         s: Share)
    requires T.WellFormed(tg)
    ensures s in SharesFrom(job, tg, w, i, count, pow) <==>
            exists c :: 1 <= c <= count && Gives(job, tg, w, i, c, pow, s)
    decreases count
  {
    hide T.Meets, T.WellFormed, WithNonce;
    if count > 0 {
      SharesExactly(job, tg, w, i, count - 1, pow, s);
      assert s in ShareFor(job, tg, WithNonce(w, (i + count) % NONCES), pow) <==> Gives(job, tg, w, i, count, pow, s);
    }
  }

  /** Every share of the loops was hashed from the job's input and meets the job's difficulty. */
  lemma {:induction false} EveryShareMeetsItsJob(job: Job, tg: T.Target, w: Work, i: uint32, count: nat,
                                                 pow: Work -> Hash)
    requires job.difficulty > 0 && T.IsTargetOf(tg, job.difficulty)
    ensures T.WellFormed(tg)
    ensures forall s :: s in SharesFrom(job, tg, w, i, count, pow) ==>
              && s.job == job && s.hash == pow(s.work) && s.work[..43] == w[..43] && s.work[47] == w[47]
              && HashValue(s.hash) <= ONE_LSH_256 / job.difficulty
  {
    T.TargetWellFormed(tg, job.difficulty);
    hide T.Meets, T.IsTargetOf, T.WellFormed, WithNonce, HashValue, SharesFrom;
    forall s | s in SharesFrom(job, tg, w, i, count, pow)
      ensures s.job == job && s.hash == pow(s.work) && s.work[..43] == w[..43] && s.work[47] == w[47]
      ensures HashValue(s.hash) <= ONE_LSH_256 / job.difficulty
    {
      SharesExactly(job, tg, w, i, count, pow, s);
      var c :| 1 <= c <= count && Gives(job, tg, w, i, c, pow, s);
      NonceChangesOnlyNonce(w, (i + c) % NONCES);
      T.MeetsIsCheckPowHashBig(tg, job.difficulty, s.hash);
    }
  }

  /** One mining thread's state between jobs. */
  class Miner {
    const pow: Work -> Hash
    const tid: nat
    const random: seq<byte>
    const work: array<byte>
    const workB: array<byte>
    var i: uint32
    var hashes: uint64
    var shares: seq<Share>

    constructor (tid: nat, pow: Work -> Hash, random: seq<byte>)
      requires tid < MAX_THREADS && |random| == 12
      ensures Valid() && this.tid == tid && this.pow == pow && this.random == random
      ensures i == 0 && hashes == 0 && shares == [] && fresh(work) && fresh(workB)
    {
      this.tid, this.pow, this.random := tid, pow, random;
      work := new byte[SIZE](_ => 0);
      workB := new byte[SIZE](_ => 0);
      i, hashes, shares := 0, 0, [];
    }

    ghost predicate Valid() {
      work.Length == workB.Length == SIZE && work != workB && tid < MAX_THREADS && |random| == 12
    }

    /** i++, put the nonce, hash, count and perhaps submit. */
    method Step(job: Job, target: T.Target, ghost w: Work)
      requires Valid() && T.WellFormed(target) && SameButNonce(work[..], w)
      modifies this, work
      ensures SameButNonce(work[..], w)
      ensures i == (old(i) + 1) % NONCES && hashes == (old(hashes) + 1) % COUNTS
      ensures shares == old(shares) + ShareFor(job, target, WithNonce(w, i), pow)
    {
      hide SameButNonce, WithNonce, T.Meets, T.WellFormed;
      ghost var was := work[..];
      i := (i + 1) % NONCES;
      PutNonce(work, i);
      SameInput(was, w, i);
      NonceChangesOnlyNonce(w, i);
      var powhash := pow(work[..]);
      hashes := (hashes + 1) % COUNTS;
      if T.Meets(target, powhash) { shares := shares + [Share(job, work[..], powhash)]; }
    }

    /** The shares and counters are those of done hashes that continued from nonce i0. */
    ghost predicate Progress(job: Job, target: T.Target, w: Work, i0: uint32, hashes0: uint64, shares0: seq<Share>,
                             done: nat)
      requires T.WellFormed(target)
      reads this
    {
      && i == (i0 + done) % NONCES && hashes == (hashes0 + done) % COUNTS
      && shares == shares0 + SharesFrom(job, target, w, i0, done, pow)
    }

    /** The plain loop, for as many rounds as pass before the job changes. */
    method MineSingle(job: Job, target: T.Target, rounds: nat)
      requires Valid() && T.WellFormed(target)
      modifies this, work
      ensures i == (old(i) + rounds) % 0x1_0000_0000
      ensures hashes == (old(hashes) + rounds) % 0x1_0000_0000_0000_0000
      ensures shares == old(shares) + SharesFrom(job, target, old(work[..]), old(i), rounds, pow)
    {
      hide SameButNonce, ShareFor, SharesFrom, T.WellFormed, WithNonce;
      ghost var w, i0, h0, s0 := work[..], i, hashes, shares;
      Unchanged(w);
      NoHashesYet(job, target, w, i0, h0, s0, pow);
      for r := 0 to rounds
        invariant SameButNonce(work[..], w) && Progress(job, target, w, i0, h0, s0, r)
      {
        Step(job, target, w);
        OneMoreHash(job, target, w, i0, h0, r, pow);
      }
    }

    /** The paired loop covers the same nonces in the same order as the plain one does in twice as
        many rounds, with the same shares. */
    method MinePaired(job: Job, target: T.Target, rounds: nat)
      requires Valid() && T.WellFormed(target)
      modifies this, work, workB
      ensures i == (old(i) + 2 * rounds) % 0x1_0000_0000
      ensures hashes == (old(hashes) + 2 * rounds) % 0x1_0000_0000_0000_0000
      ensures shares == old(shares) + SharesFrom(job, target, old(work[..]), old(i), 2 * rounds, pow)
    {
      hide SameButNonce, ShareFor, SharesFrom, T.WellFormed, WithNonce;
      ghost var w, i0, h0, s0 := work[..], i, hashes, shares;
      forall k | 0 <= k < SIZE { workB[k] := work[k]; }
      assert workB[..] == w && work[..] == w;
      Unchanged(w);
      NoHashesYet(job, target, w, i0, h0, s0, pow);
      for r := 0 to rounds
        invariant SameButNonce(work[..], w) && SameButNonce(workB[..], w)
        invariant Progress(job, target, w, i0, h0, s0, 2 * r)
      {
        PairStep(job, target, w);
        TwoMoreHashes(job, target, w, i0, h0, 2 * r, pow);
      }
    }

    /** The next two nonces, one into each buffer. */
    method PutPair(ghost w: Work)
      requires Valid() && SameButNonce(work[..], w) && SameButNonce(workB[..], w)
      modifies this`i, work, workB
      ensures i == (old(i) + 2) % NONCES
      ensures work[..] == WithNonce(w, (old(i) + 1) % NONCES) && workB[..] == WithNonce(w, (old(i) + 2) % NONCES)
    {
      hide SameButNonce, WithNonce;
      ghost var a, b := work[..], workB[..];
      i := (i + 1) % NONCES;
      PutNonce(work, i);
      SameInput(a, w, i);
      i := (i + 1) % NONCES;
      PutNonce(workB, i);
      SameInput(b, w, i);
    }

    method PairStep(job: Job, target: T.Target, ghost w: Work)
      requires Valid() && T.WellFormed(target) && SameButNonce(work[..], w) && SameButNonce(workB[..], w)
      modifies this, work, workB
      ensures SameButNonce(work[..], w) && SameButNonce(workB[..], w)
      ensures i == (old(i) + 2) % NONCES && hashes == (old(hashes) + 2) % COUNTS
      ensures shares == old(shares) + ShareFor(job, target, WithNonce(w, (old(i) + 1) % NONCES), pow)
                                    + ShareFor(job, target, WithNonce(w, (old(i) + 2) % NONCES), pow)
    {
      hide SameButNonce, WithNonce, T.Meets, T.WellFormed;
      NonceChangesOnlyNonce(w, (i + 1) % NONCES);
      NonceChangesOnlyNonce(w, (i + 2) % NONCES);
      PutPair(w);
      var hashA, hashB := pow(work[..]), pow(workB[..]);
      hashes := (hashes + 2) % COUNTS;
      if T.Meets(target, hashA) { shares := shares + [Share(job, work[..], hashA)]; }
      if T.Meets(target, hashB) { shares := shares + [Share(job, workB[..], hashB)]; }
    }

    /** One job, for as many rounds of either loop as pass before it is replaced. w is the input it
        was mined from and tg its target. */
    method RunJob(job: Job, paired: bool, rounds: nat) returns (mined: bool, ghost tg: T.Target, ghost w: Work)
      requires Valid() && |job.decoded| <= SIZE
      modifies this, work, workB
      ensures mined <==> job.wellFormed && |job.decoded| == 48 && job.difficulty > 0 && job.decoded[0] % 16 == 1
      ensures !mined ==> i == old(i) && hashes == old(hashes) && shares == old(shares)
      ensures mined ==> w[..36] == job.decoded[..36] && w[36..47] == random[..11] && w[47] == tid
      ensures mined ==> T.IsTargetOf(tg, job.difficulty) && T.WellFormed(tg)
      ensures mined ==> var count := if paired then 2 * rounds else rounds;
                        && i == (old(i) + count) % 0x1_0000_0000
                        && hashes == (old(hashes) + count) % 0x1_0000_0000_0000_0000
                        && shares == old(shares) + SharesFrom(job, tg, w, old(i), count, pow)
    {
      hide T.IsTargetOf, T.WellFormed, Prepared, SharesFrom;
      tg, w := T.Target([0, 0, 0, 0], false), work[..];
      mined := Prepare(work, job, random, tid % 0x100);
      if !mined || job.difficulty <= 0 { return false, tg, w; }
      var checked := T.NewTarget(job.difficulty);
      var target := checked.value;
      T.TargetWellFormed(target, job.difficulty);
      tg, w := target, work[..];
      assert work[0] == work[..36][0];
      if work[0] % 16 != 1 { return false, tg, w; }
      if paired {
        MinePaired(job, target, rounds);
      } else {
        MineSingle(job, target, rounds);
      }
    }
  }

  lemma Unchanged(w: Work)
    ensures SameButNonce(w, w)
  {}

  lemma NoHashesYet(job: Job, tg: T.Target, w: Work, i0: uint32, h0: uint64, s0: seq<Share>, pow: Work -> Hash)
    requires T.WellFormed(tg)
    ensures i0 == (i0 + 0) % NONCES && h0 == (h0 + 0) % COUNTS
    ensures s0 == s0 + SharesFrom(job, tg, w, i0, 0, pow)
  {}

  lemma Wraps(i0: uint32, h0: uint64, done: nat, k: nat)
    ensures ((i0 + done) % NONCES + k) % NONCES == (i0 + (done + k)) % NONCES
    ensures ((h0 + done) % COUNTS + k) % COUNTS == (h0 + (done + k)) % COUNTS
  {
    NonceAdds(i0 + done, k);
    CountAdds(h0 + done, k);
  }

  lemma OneMoreHash(job: Job, tg: T.Target, w: Work, i0: uint32, h0: uint64, done: nat, pow: Work -> Hash)
    requires T.WellFormed(tg)
    ensures ((i0 + done) % NONCES + 1) % NONCES == (i0 + (done + 1)) % NONCES
    ensures ((h0 + done) % COUNTS + 1) % COUNTS == (h0 + (done + 1)) % COUNTS
    ensures SharesFrom(job, tg, w, i0, done + 1, pow)
         == SharesFrom(job, tg, w, i0, done, pow) + ShareFor(job, tg, WithNonce(w, (i0 + (done + 1)) % NONCES), pow)
  {
    hide ShareFor, WithNonce;
    Wraps(i0, h0, done, 1);
  }

  lemma TwoMoreHashes(job: Job, tg: T.Target, w: Work, i0: uint32, h0: uint64, done: nat, pow: Work -> Hash)
    requires T.WellFormed(tg)
    ensures ((i0 + done) % NONCES + 1) % NONCES == (i0 + (done + 1)) % NONCES
    ensures ((i0 + done) % NONCES + 2) % NONCES == (i0 + (done + 2)) % NONCES
    ensures ((h0 + done) % COUNTS + 2) % COUNTS == (h0 + (done + 2)) % COUNTS
    ensures SharesFrom(job, tg, w, i0, done + 2, pow)
         == SharesFrom(job, tg, w, i0, done, pow) + ShareFor(job, tg, WithNonce(w, (i0 + (done + 1)) % NONCES), pow)
                                                  + ShareFor(job, tg, WithNonce(w, (i0 + (done + 2)) % NONCES), pow)
  {
    hide ShareFor, WithNonce, SharesFrom;
    Wraps(i0, h0, done, 1);
    Wraps(i0, h0, done, 2);
    OneMoreHash(job, tg, w, i0, h0, done, pow);
    OneMoreHash(job, tg, w, i0, h0, done + 1, pow);
  }
}
