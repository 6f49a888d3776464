/** What holds of every run of the GPU worker: which nonces its batches cover, what its shares are
    worth, and that nothing a faithful device finds is lost between jobs. */
module PipelineRuns {
  import opened MachineTypes
  import opened Difficulty
  import opened Miniblock
  import opened GpuPipeline
  import opened Permutations
  import T = Target

  /** The k-th nonce of a batch. */
  function NonceOf(b: Batch, k: nat): uint32 { (b.start + k) % NONCES }

  function InputOf(b: Batch, k: nat): Work { WithNonce(b.work, NonceOf(b, k)) }

  /** The place of the k-th hash of batch i in the count. */
  function HashIndex(i: nat, k: nat, batch: nat): nat { i * batch + k }

  /** Batch i covers hashes i * batch to (i + 1) * batch - 1 of one unbroken count, across jobs. */
  lemma RangesAreConsecutive(issued: seq<Issued>, i: nat, k: nat, batch: nat, random: seq<byte>, tag: byte)
    requires |random| == 12 && History(issued, batch, random, tag) && i < |issued| && k < batch
    ensures NonceOf(issued[i].batch, k) == NonceAt(HashIndex(i, k, batch)) == (i * batch + k) % 0x1_0000_0000
  {
    hide T.IsTargetOf, ForJob;
    assert IssuedRight(issued[i], i, batch, random, tag);
    var b := issued[i].batch;
    NonceAdds(i * batch, k);
    calc {
      NonceOf(b, k);
      (b.start + k) % NONCES;
      (i * batch % NONCES + k) % NONCES;
      (i * batch + k) % NONCES;
    }
  }

  lemma IndexIsQuotient(p: nat, i: nat, k: nat, batch: nat)
    requires k < batch
    ensures p == HashIndex(i, k, batch) <==> i == p / batch && k == p % batch
  {
    var q, r := p / batch, p % batch;
    assert p == q * batch + r && r < batch;
    assert i < q ==> (i + 1) * batch <= q * batch;
    assert i > q ==> (q + 1) * batch <= i * batch;
  }

  lemma QuotientInside(p: nat, n: nat, batch: nat)
    requires 0 < batch && p < n * batch
    ensures p / batch < n
  {
    var q := p / batch;
    assert p == q * batch + p % batch;
    assert q >= n ==> q * batch >= n * batch;
  }

  /** No gap and no overlap: every hash of the count a run has queued so far is made by exactly one
      batch at exactly one place, with the nonce that belongs to it. */
  lemma EveryHashHasOnePlace(issued: seq<Issued>, p: nat, batch: nat, random: seq<byte>, tag: byte)
    returns (i: nat, k: nat)
    requires |random| == 12 && History(issued, batch, random, tag) && 0 < batch && p < |issued| * batch
    ensures i < |issued| && k < batch && p == HashIndex(i, k, batch)
    ensures NonceOf(issued[i].batch, k) == NonceAt(p)
    ensures forall i': nat, k': nat :: i' < |issued| && k' < batch && p == HashIndex(i', k', batch) ==>
              i' == i && k' == k
  {
    hide History, HashIndex;
    i, k := p / batch, p % batch;
    QuotientInside(p, |issued|, batch);
    IndexIsQuotient(p, i, k, batch);
    RangesAreConsecutive(issued, i, k, batch, random, tag);
    forall i': nat, k': nat | i' < |issued| && k' < batch && p == HashIndex(i', k', batch)
      ensures i' == i && k' == k
    {
      IndexIsQuotient(p, i', k', batch);
    }
  }

  /** Two hashes of a run use the same nonce exactly when they are whole cycles of 2^32 apart, so
      no range overlaps another before the nonces have wrapped. */
  lemma NoncesRepeatExactly(issued: seq<Issued>, i: nat, k: nat, j: nat, l: nat, batch: nat, random: seq<byte>,
                            tag: byte)
    requires |random| == 12 && History(issued, batch, random, tag)
    requires i < |issued| && j < |issued| && k < batch && l < batch
    requires HashIndex(i, k, batch) <= HashIndex(j, l, batch)
    ensures NonceOf(issued[i].batch, k) == NonceOf(issued[j].batch, l) <==>
            (HashIndex(j, l, batch) - HashIndex(i, k, batch)) % NONCES == 0
  {
    RangesAreConsecutive(issued, i, k, batch, random, tag);
    RangesAreConsecutive(issued, j, l, batch, random, tag);
    NonceRepeats(HashIndex(i, k, batch), HashIndex(j, l, batch));
  }

  /** A share a batch may give. */
  ghost predicate Earned(s: Share, b: Issued, hits: seq<uint32>, pow: Work -> Hash)
    requires T.WellFormed(b.batch.target)
  {
    && s.job == b.job && s.hash == pow(s.work) && T.Meets(b.batch.target, s.hash)
    && exists k :: 0 <= k < |hits| && s.work == WithNonce(b.batch.work, hits[k])
  }

  lemma {:induction false} BatchSharesExactly(b: Issued, hits: seq<uint32>, pow: Work -> Hash, s: Share)
    requires T.WellFormed(b.batch.target)
    ensures s in BatchShares(b, hits, pow) <==> Earned(s, b, hits, pow)
    decreases |hits|
  {
    hide WithNonce, T.Meets, T.WellFormed;
    if hits != [] {
      var n := |hits| - 1;
      var rest := hits[..n];
      BatchSharesExactly(b, rest, pow, s);
      assert forall k :: 0 <= k < n ==> rest[k] == hits[k];
      if Earned(s, b, hits, pow) && s.work != WithNonce(b.batch.work, hits[n]) {
        var k :| 0 <= k < |hits| && s.work == WithNonce(b.batch.work, hits[k]);
        assert rest[k] == hits[k];
      }
    }
  }

  lemma {:induction false} SharesExactly(issued: seq<Issued>, answers: nat -> seq<uint32>, pow: Work -> Hash, s: Share)
    requires AllWellFormed(issued)
    ensures s in SharesOf(issued, answers, pow) <==>
            exists i :: 0 <= i < |issued| && Earned(s, issued[i], answers(i), pow)
    decreases |issued|
  {
    hide Earned, T.WellFormed, BatchShares;
    if issued != [] {
      var n := |issued| - 1;
      var rest := issued[..n];
      SharesExactly(rest, answers, pow, s);
      BatchSharesExactly(issued[n], answers(n), pow, s);
      assert forall i :: 0 <= i < n ==> rest[i] == issued[i];
      if i :| 0 <= i < |issued| && Earned(s, issued[i], answers(i), pow) {
        if i < n { assert Earned(s, rest[i], answers(i), pow); }
      }
      if i :| 0 <= i < n && Earned(s, rest[i], answers(i), pow) {
        assert Earned(s, issued[i], answers(i), pow);
      }
    }
  }

  /** Hashed on the CPU, its job's prepared input, and meeting its job's difficulty. */
  ghost predicate Worthy(s: Share, issued: seq<Issued>, pow: Work -> Hash, random: seq<byte>, tag: byte)
    requires |random| == 12
  {
    && s.hash == pow(s.work) && s.job.difficulty > 0 && |s.job.decoded| == 48
    && HashValue(s.hash) <= ONE_LSH_256 / s.job.difficulty
    && s.work[..36] == s.job.decoded[..36] && s.work[36..43] == random[..7] && s.work[47] == tag
    && s.work[0] % 16 == 1
    && exists i :: 0 <= i < |issued| && issued[i].job == s.job
  }

  /** Whatever the device reports, every submitted share is worth its job. */
  lemma {:induction false} EveryShareMeetsItsJob(issued: seq<Issued>, answers: nat -> seq<uint32>, pow: Work -> Hash,
                                                 batch: nat, random: seq<byte>, tag: byte)
    requires |random| == 12 && History(issued, batch, random, tag) && AllWellFormed(issued)
    ensures forall s :: s in SharesOf(issued, answers, pow) ==> Worthy(s, issued, pow, random, tag)
  {
    hide HashValue, T.Meets, T.IsTargetOf, Prepared, WithNonce, SameButNonce, SharesOf;
    forall s | s in SharesOf(issued, answers, pow) ensures Worthy(s, issued, pow, random, tag) {
      SharesExactly(issued, answers, pow, s);
      var i :| 0 <= i < |issued| && Earned(s, issued[i], answers(i), pow);
      var b := issued[i];
      assert IssuedRight(b, i, batch, random, tag);
      T.MeetsIsCheckPowHashBig(b.batch.target, b.job.difficulty, s.hash);
      var k :| 0 <= k < |answers(i)| && s.work == WithNonce(b.batch.work, answers(i)[k]);
      NonceChangesOnlyNonce(b.batch.work, answers(i)[k]);
      ForJobKept(s.work, b.batch.work, s.job.decoded, random, tag);
      assert s.work[0] == s.work[..36][0] == s.job.decoded[0];
    }
  }

  // A device that keeps its contract.

  predicate Wins(b: Batch, k: nat, pow: Work -> Hash)
    requires T.WellFormed(b.target)
  {
    T.Meets(b.target, pow(InputOf(b, k)))
  }

  /** The winning nonces among the first n of a batch, one entry per hash that wins. */
  function WinningNonces(b: Batch, n: nat, pow: Work -> Hash): seq<uint32>
    requires T.WellFormed(b.target)
  {
    if n == 0 then []
    else WinningNonces(b, n - 1, pow) + if Wins(b, n - 1, pow) then [NonceOf(b, n - 1)] else []
  }

  /** Every winning hash of the batch is reported once, in any order, and nothing else is. */
  ghost predicate Faithful(b: Batch, hits: seq<uint32>, batch: nat, pow: Work -> Hash)
    requires T.WellFormed(b.target)
  {
    multiset(hits) == multiset(WinningNonces(b, batch, pow))
  }

  /** The k-th hash of the batch wins and gives this share. */
  predicate Gives(b: Issued, k: nat, pow: Work -> Hash, s: Share)
    requires T.WellFormed(b.batch.target)
  {
    Wins(b.batch, k, pow) && s == Share(b.job, InputOf(b.batch, k), pow(InputOf(b.batch, k)))
  }

  /** The hashes among the first n of a batch that give this share. */
  ghost function Givers(b: Issued, n: nat, pow: Work -> Hash, s: Share): set<nat>
    requires T.WellFormed(b.batch.target)
  {
    set k | 0 <= k < n && Gives(b, k, pow, s)
  }

  /** The same over all batches of a run. */
  ghost function AllGivers(issued: seq<Issued>, batch: nat, pow: Work -> Hash, s: Share): set<(nat, nat)>
    requires AllWellFormed(issued)
  {
    set i, k | 0 <= i < |issued| && 0 <= k < batch && Gives(issued[i], k, pow, s) :: (i, k)
  }

  /** The order in which nonces are reported does not change which shares come out, or how often. */
  lemma {:induction false} ReportOrder(b: Issued, hits: seq<uint32>, hits': seq<uint32>, pow: Work -> Hash)
    requires T.WellFormed(b.batch.target) && multiset(hits) == multiset(hits')
    ensures multiset(BatchShares(b, hits, pow)) == multiset(BatchShares(b, hits', pow))
    decreases |hits|
  {
    SameMembers(hits, hits');
    if hits != [] {
      hide T.Meets, T.WellFormed, WithNonce;
      var p := FindLast(hits, hits');
      ReportOrder(b, hits[..|hits| - 1], Without(hits', p), pow);
      SharesWithout(b, hits', p, pow);
    }
  }

  lemma {:induction false} SharesConcat(b: Issued, hits: seq<uint32>, more: seq<uint32>, pow: Work -> Hash)
    requires T.WellFormed(b.batch.target)
    ensures BatchShares(b, hits + more, pow) == BatchShares(b, hits, pow) + BatchShares(b, more, pow)
    decreases |more|
  {
    hide ShareFor, WithNonce, T.WellFormed;
    if more == [] {
      assert hits + more == hits;
    } else {
      var n := |more| - 1;
      assert (hits + more)[..|hits| + n] == hits + more[..n];
      SharesConcat(b, hits, more[..n], pow);
    }
  }

  lemma OneReport(b: Issued, nonce: uint32, pow: Work -> Hash)
    requires T.WellFormed(b.batch.target)
    ensures BatchShares(b, [nonce], pow) == ShareFor(b.job, b.batch.target, WithNonce(b.batch.work, nonce), pow)
  {
    hide ShareFor, WithNonce, T.WellFormed;
    assert [nonce][..0] == [];
    assert BatchShares(b, [nonce][..0], pow) == [];
  }

  lemma SharesWithout(b: Issued, hits: seq<uint32>, p: nat, pow: Work -> Hash)
    requires T.WellFormed(b.batch.target) && p < |hits|
    ensures multiset(BatchShares(b, hits, pow)) == multiset(BatchShares(b, Without(hits, p), pow))
              + multiset(ShareFor(b.job, b.batch.target, WithNonce(b.batch.work, hits[p]), pow))
  {
    hide ShareFor, WithNonce, T.WellFormed, BatchShares;
    assert hits == (hits[..p] + [hits[p]]) + hits[p + 1..];
    SharesConcat(b, hits[..p] + [hits[p]], hits[p + 1..], pow);
    SharesConcat(b, hits[..p], [hits[p]], pow);
    SharesConcat(b, hits[..p], hits[p + 1..], pow);
    OneReport(b, hits[p], pow);
  }

  lemma GiversStep(b: Issued, m: nat, pow: Work -> Hash, s: Share)
    requires T.WellFormed(b.batch.target)
    ensures |Givers(b, m + 1, pow, s)| == |Givers(b, m, pow, s)| + if Gives(b, m, pow, s) then 1 else 0
  {
    hide Gives, T.WellFormed;
    if Gives(b, m, pow, s) {
      assert Givers(b, m + 1, pow, s) == Givers(b, m, pow, s) + {m};
    } else {
      assert Givers(b, m + 1, pow, s) == Givers(b, m, pow, s);
    }
  }

  /** One more hash: its nonce is reported when it wins, and re-hashing it gives its share. */
  lemma WinnersStep(b: Issued, m: nat, pow: Work -> Hash, s: Share)
    requires T.WellFormed(b.batch.target)
    ensures multiset(BatchShares(b, WinningNonces(b.batch, m + 1, pow), pow))[s]
         == multiset(BatchShares(b, WinningNonces(b.batch, m, pow), pow))[s] + if Gives(b, m, pow, s) then 1 else 0
  {
    hide T.Meets, T.WellFormed, WithNonce, NonceOf, BatchShares;
    var before := WinningNonces(b.batch, m, pow);
    if Wins(b.batch, m, pow) {
      OneReport(b, NonceOf(b.batch, m), pow);
      SharesConcat(b, before, [NonceOf(b.batch, m)], pow);
    } else {
      assert WinningNonces(b.batch, m + 1, pow) == before;
    }
  }

  lemma NoWinnersYet(b: Issued, pow: Work -> Hash, s: Share)
    requires T.WellFormed(b.batch.target)
    ensures BatchShares(b, WinningNonces(b.batch, 0, pow), pow) == [] && Givers(b, 0, pow, s) == {}
  {}

  /** Re-hashing the winning nonces gives each share as often as hashes give it. */
  lemma {:induction false} WinnersCount(b: Issued, n: nat, pow: Work -> Hash, s: Share)
    requires T.WellFormed(b.batch.target)
    ensures multiset(BatchShares(b, WinningNonces(b.batch, n, pow), pow))[s] == |Givers(b, n, pow, s)|
    decreases n
  {
    hide Gives, T.WellFormed, BatchShares, WinningNonces, Givers;
    if n == 0 {
      NoWinnersYet(b, pow, s);
    } else {
      WinnersCount(b, n - 1, pow, s);
      WinnersStep(b, n - 1, pow, s);
      GiversStep(b, n - 1, pow, s);
    }
  }

  ghost function Tagged(i: nat, ks: set<nat>): set<(nat, nat)> {
    set k: nat | k in ks :: (i, k)
  }

  lemma {:induction false} TaggedSize(i: nat, ks: set<nat>)
    ensures |Tagged(i, ks)| == |ks|
    decreases ks
  {
    if ks != {} {
      var k :| k in ks;
      TaggedSize(i, ks - {k});
      assert Tagged(i, ks) == Tagged(i, ks - {k}) + {(i, k)};
    }
  }

  /** The last batch adds its own hashes to those that give a share. */
  lemma GiversNext(issued: seq<Issued>, batch: nat, pow: Work -> Hash, s: Share)
    requires issued != [] && AllWellFormed(issued)
    ensures AllWellFormed(issued[..|issued| - 1])
    ensures |AllGivers(issued, batch, pow, s)|
         == |AllGivers(issued[..|issued| - 1], batch, pow, s)| + |Givers(issued[|issued| - 1], batch, pow, s)|
  {
    hide Gives, T.WellFormed;
    var n := |issued| - 1;
    var own := Givers(issued[n], batch, pow, s);
    var earlier := AllGivers(issued[..n], batch, pow, s);
    TaggedSize(n, own);
    assert AllGivers(issued, batch, pow, s) == earlier + Tagged(n, own);
    assert earlier !! Tagged(n, own);
  }

  /** With a faithful device every share is submitted exactly as often as hashes of the batches
      queued, before or after a job change, give it: nothing is lost and nothing is doubled. */
  lemma {:induction false} NothingIsLost(issued: seq<Issued>, answers: nat -> seq<uint32>, pow: Work -> Hash,
                                         batch: nat, s: Share)
    requires AllWellFormed(issued)
    requires forall i :: 0 <= i < |issued| ==> Faithful(issued[i].batch, answers(i), batch, pow)
    ensures multiset(SharesOf(issued, answers, pow))[s] == |AllGivers(issued, batch, pow, s)|
    decreases |issued|
  {
    hide T.WellFormed, BatchShares, WinningNonces, Gives, Givers, AllGivers;
    if issued == [] {
      NoGivers(batch, pow, s);
    } else {
      var n := |issued| - 1;
      assert forall i :: 0 <= i < n ==> issued[..n][i] == issued[i];
      NothingIsLost(issued[..n], answers, pow, batch, s);
      GiversNext(issued, batch, pow, s);
      var winning := WinningNonces(issued[n].batch, batch, pow);
      ReportOrder(issued[n], answers(n), winning, pow);
      WinnersCount(issued[n], batch, pow, s);
    }
  }

  lemma NoGivers(batch: nat, pow: Work -> Hash, s: Share)
    ensures AllGivers([], batch, pow, s) == {}
  {}
}
