/** cmd/derostorm/gpu_worker.go: one GPU worker keeping two batches in flight, against the queue
    contract of gpu/derostorm_gpu.h. */
module GpuPipeline {
  import opened MachineTypes
  import opened Difficulty
  import opened Miniblock
  import T = Target

  const DEPTH := 2

  datatype Batch = Batch(work: Work, start: uint32, target: T.Target)

  /** The device: a queue of at most two batches, collected oldest first. Nothing is assumed about
      the nonces it reports: answers may be any function of the number of collections so far. */
  class Device {
    const batch: nat
    const answers: nat -> seq<uint32>
    var queue: seq<Batch>
    var served: nat

    constructor (batch: nat, answers: nat -> seq<uint32>)
      ensures this.batch == batch && this.answers == answers && queue == [] && served == 0
    {
      this.batch, this.answers := batch, answers;
      queue, served := [], 0;
    }

    /** dsg_submit: a third batch is refused and changes nothing. */
    method Submit(work: Work, start: uint32, target: T.Target) returns (ok: bool)
      modifies this
      ensures ok <==> |old(queue)| < 2
      ensures queue == if ok then old(queue) + [Batch(work, start, target)] else old(queue)
      ensures served == old(served)
    {
      ok := |queue| < DEPTH;
      if ok { queue := queue + [Batch(work, start, target)]; }
    }

    /** dsg_collect: fails only when nothing is in flight. */
    method Collect() returns (ok: bool, hits: seq<uint32>)
      modifies this
      ensures ok <==> old(queue) != []
      ensures ok ==> queue == old(queue)[1..] && hits == answers(old(served)) && served == old(served) + 1
      ensures !ok ==> queue == old(queue) && served == old(served)
    {
      ok, hits := queue != [], [];
      if ok {
        hits := answers(served);
        queue, served := queue[1..], served + 1;
      }
    }

    /** dsg_inflight. */
    function InFlight(): nat
      reads this
    {
      |queue|
    }
  }

  // What a run of the worker amounts to.

  /** A batch as it was queued, with the job it was queued for. */
  datatype Issued = Issued(job: Job, batch: Batch)

  /** The shares one collected batch gives, re-hashed one reported nonce after the other. */
  function BatchShares(b: Issued, hits: seq<uint32>, pow: Work -> Hash): seq<Share>
    requires T.WellFormed(b.batch.target)
  {
    if hits == [] then []
    else
      var n := |hits| - 1;
      BatchShares(b, hits[..n], pow) + ShareFor(b.job, b.batch.target, WithNonce(b.batch.work, hits[n]), pow)
  }

  ghost predicate AllWellFormed(issued: seq<Issued>) {
    forall i :: 0 <= i < |issued| ==> T.WellFormed(issued[i].batch.target)
  }

  function SharesOf(issued: seq<Issued>, answers: nat -> seq<uint32>, pow: Work -> Hash): seq<Share>
    requires AllWellFormed(issued)
  {
    if issued == [] then []
    else
      var n := |issued| - 1;
      SharesOf(issued[..n], answers, pow) + BatchShares(issued[n], answers(n), pow)
  }

  function Batches(issued: seq<Issued>): (bs: seq<Batch>)
    ensures |bs| == |issued| && forall i :: 0 <= i < |bs| ==> bs[i] == issued[i].batch
  {
    seq(|issued|, i requires 0 <= i < |issued| => issued[i].batch)
  }

  /** A batch queued as the i-th: its nonces follow the previous batch's, its target is its job's,
      and its input is the one prepared for its job. */
  ghost predicate IssuedRight(b: Issued, i: nat, batch: nat, random: seq<byte>, tag: byte)
    requires |random| == 12
  {
    && b.batch.start == NonceAt(i * batch)
    && b.job.difficulty > 0 && T.IsTargetOf(b.batch.target, b.job.difficulty)
    && ForJob(b.batch.work, b.job.decoded, random, tag) && b.job.decoded[0] % 16 == 1
  }

  ghost predicate History(issued: seq<Issued>, batch: nat, random: seq<byte>, tag: byte)
    requires |random| == 12
  {
    forall i :: 0 <= i < |issued| ==> IssuedRight(issued[i], i, batch, random, tag)
  }

  lemma HistoryWellFormed(issued: seq<Issued>, batch: nat, random: seq<byte>, tag: byte)
    requires |random| == 12 && History(issued, batch, random, tag)
    ensures AllWellFormed(issued)
  {
    forall i | 0 <= i < |issued| ensures T.WellFormed(issued[i].batch.target) {
      assert IssuedRight(issued[i], i, batch, random, tag);
    }
  }

  class Worker {
    const gpu: Device
    const pow: Work -> Hash
    const random: seq<byte>
    const tag: byte
    const work: array<byte>
    var nonce: uint32
    var hashes: uint64
    var shares: seq<Share>
    ghost var issued: seq<Issued>

    constructor (gpu: Device, device: nat, pow: Work -> Hash, random: seq<byte>)
      requires device < MAX_GPUS && |random| == 12 && gpu.queue == [] && gpu.served == 0 && 0 < gpu.batch < NONCES
      ensures Valid() && this.gpu == gpu && this.pow == pow && fresh(work) && tag == 0xf0 + device
      ensures issued == [] && shares == []
    {
      this.gpu, this.pow, this.random, this.tag := gpu, pow, random, GpuTag(device);
      work := new byte[SIZE](_ => 0);
      nonce, hashes, shares, issued := 0, 0, [], [];
    }

    /** At most two batches are in flight and they are the last ones queued; the next nonce follows
        the last batch; the counter is the hashes of the collected batches; and the shares are
        exactly those of the collected batches. */
    ghost predicate Valid()
      reads this, gpu
    {
      && work.Length == SIZE && |random| == 12 && 0 < gpu.batch < NONCES
      && gpu.served <= |issued| && |gpu.queue| <= DEPTH
      && gpu.queue == Batches(issued[gpu.served..])
      && History(issued, gpu.batch, random, tag)
      && nonce == NonceAt(|issued| * gpu.batch)
      && hashes == gpu.served * gpu.batch % COUNTS
      && AllWellFormed(issued[..gpu.served])
      && shares == SharesOf(issued[..gpu.served], gpu.answers, pow)
    }

    /** Everything still in flight was queued for this job, and the buffer still holds its input. */
    ghost predicate Current(job: Job, target: T.Target)
      reads this, gpu, work
    {
      && work.Length == SIZE && gpu.served <= |issued|
      && forall i :: gpu.served <= i < |issued| ==>
           issued[i].job == job && issued[i].batch.target == target && SameButNonce(issued[i].batch.work, work[..])
    }

    /** Put the job into the buffer; nothing is queued. */
    method Load(job: Job) returns (ok: bool)
      requires Valid() && |job.decoded| <= SIZE
      modifies work
      ensures Valid()
      ensures ok <==> job.wellFormed && |job.decoded| == SIZE
      ensures ok ==> work[..36] == job.decoded[..36] && work[36..47] == random[..11] && work[47] == tag
    {
      hide History, SharesOf, Batches, AllWellFormed, Prepared;
      ok := Prepare(work, job, random, tag);
    }

    /** take: collect the oldest batch, count it, and re-hash every nonce it reports. */
    method Take(job: Job, target: T.Target) returns (ok: bool)
      requires Valid() && Current(job, target) && T.WellFormed(target)
      modifies this, gpu, work
      ensures Valid() && Current(job, target) && issued == old(issued)
      ensures ok <==> old(gpu.queue) != []
      ensures gpu.served == old(gpu.served) + (if ok then 1 else 0)
      ensures SameButNonce(work[..], old(work[..]))
    {
      hide History, SameButNonce, Batches, SharesOf, BatchShares;
      ghost var i := gpu.served;
      var hits;
      InFlightCount(issued, i, gpu.queue);
      ok, hits := gpu.Collect();
      SameAsItself(work[..]);
      if !ok { return; }
      AfterCollect(issued, i, old(gpu.queue));
      hashes := (hashes + gpu.batch) % COUNTS;
      CounterStep(i, gpu.batch);
      HistoryWellFormed(issued, gpu.batch, random, tag);
      var found := Rehash(job, target, hits, issued[i]);
      SharesNext(issued, i, gpu.answers, pow);
      shares := shares + found;
      CurrentStays(issued, i, old(work[..]), work[..]);
    }

    /** The loop over the reported nonces. */
    method Rehash(job: Job, target: T.Target, hits: seq<uint32>, ghost b: Issued) returns (found: seq<Share>)
      requires work.Length == SIZE && T.WellFormed(target)
      requires b.job == job && b.batch.target == target && SameButNonce(b.batch.work, work[..])
      modifies work
      ensures found == BatchShares(b, hits, pow)
      ensures SameButNonce(work[..], old(work[..]))
    {
      hide SameButNonce, WithNonce, T.Meets;
      found := [];
      SameAsItself(work[..]);
      ghost var before := work[..];
      for k := 0 to |hits|
        invariant found == BatchShares(b, hits[..k], pow)
        invariant SameButNonce(work[..], before)
      {
        ghost var w := work[..];
        PutNonce(work, hits[k]);
        NonceChangesOnlyNonce(w, hits[k]);
        SameIsTransitive(work[..], w, before);
        SameIsSymmetric(w, before);
        SameIsTransitive(b.batch.work, before, w);
        SameInput(b.batch.work, w, hits[k]);
        assert hits[..k + 1][..k] == hits[..k];
        var powhash := pow(work[..]);
        if T.Meets(target, powhash) {
          found := found + [Share(job, work[..], powhash)];
        }
      }
      assert hits[..|hits|] == hits;
    }

    /** Queue batches until two are in flight; no submit can fail. */
    method Fill(job: Job, target: T.Target) returns (failed: bool)
      requires Valid() && Current(job, target)
      requires job.difficulty > 0 && T.IsTargetOf(target, job.difficulty)
      requires ForJob(work[..], job.decoded, random, tag) && job.decoded[0] % 16 == 1
      modifies this, gpu
      ensures Valid() && Current(job, target) && !failed && |gpu.queue| == DEPTH
      ensures gpu.served == old(gpu.served) && old(issued) <= issued
      ensures forall i :: |old(issued)| <= i < |issued| ==> issued[i].job == job
    {
      hide SameButNonce, ForJob, T.IsTargetOf, Batches, SharesOf, History, AllWellFormed;
      failed := false;
      while gpu.InFlight() < DEPTH
        invariant Valid() && Current(job, target) && !failed
        invariant gpu.served == old(gpu.served) && old(issued) <= issued
        invariant forall i :: |old(issued)| <= i < |issued| ==> issued[i].job == job
        invariant ForJob(work[..], job.decoded, random, tag)
        decreases DEPTH - |gpu.queue|
      {
        ghost var b := Issued(job, Batch(work[..], nonce, target));
        ghost var i := |issued|;
        SameAsItself(work[..]);
        assert IssuedRight(b, i, gpu.batch, random, tag);
        var ok := gpu.Submit(work[..], nonce, target);
        if !ok { failed := true; break; }
        HistoryNext(issued, b, gpu.batch, random, tag);
        BatchesNext(issued, gpu.served, b);
        NonceStep(i, gpu.batch);
        nonce := (nonce + gpu.batch) % NONCES;
        issued := issued + [b];
      }
    }

    /** The mining loop, for as many rounds as pass before the job is replaced or the worker is
        stopped. Each round leaves one batch in flight. */
    method Mine(job: Job, target: T.Target, rounds: nat) returns (failed: bool)
      requires Valid() && Current(job, target) && gpu.queue == [] && gpu.served == |issued|
      requires job.difficulty > 0 && T.IsTargetOf(target, job.difficulty) && T.WellFormed(target)
      requires ForJob(work[..], job.decoded, random, tag) && job.decoded[0] % 16 == 1
      modifies this, gpu, work
      ensures Valid() && Current(job, target) && !failed && old(issued) <= issued
      ensures forall i :: |old(issued)| <= i < |issued| ==> issued[i].job == job
      ensures |issued| == |old(issued)| + (if rounds > 0 then rounds + 1 else 0)
    {
      hide SameButNonce, T.IsTargetOf, T.WellFormed, Batches, SharesOf, History, AllWellFormed;
      failed := false;
      for r := 0 to rounds
        invariant Valid() && Current(job, target) && !failed && old(issued) <= issued
        invariant forall i :: |old(issued)| <= i < |issued| ==> issued[i].job == job
        invariant ForJob(work[..], job.decoded, random, tag)
        invariant gpu.served == |old(issued)| + r
        invariant |issued| == gpu.served + (if r > 0 then 1 else 0)
      {
        failed := Fill(job, target);
        InFlightCount(issued, gpu.served, gpu.queue);
        ghost var w := work[..];
        if !failed {
          var ok := Take(job, target);
          failed := !ok;
        }
        ForJobKept(work[..], w, job.decoded, random, tag);
      }
    }

    /** Collect what is still on the card: it was queued for this job and this input. */
    method Drain(job: Job, target: T.Target)
      requires Valid() && Current(job, target) && T.WellFormed(target)
      modifies this, gpu, work
      ensures Valid() && gpu.queue == [] && gpu.served == |issued| && issued == old(issued)
    {
      hide SameButNonce, T.WellFormed, Batches, SharesOf, History, AllWellFormed;
      while gpu.InFlight() > 0
        invariant Valid() && Current(job, target) && issued == old(issued)
        decreases |issued| - gpu.served
      {
        InFlightCount(issued, gpu.served, gpu.queue);
        var ok := Take(job, target);
        if !ok { break; }
      }
      NothingInFlight(issued, gpu.served, gpu.queue);
    }

    /** One job: mine, then drain. Nothing is in flight before or after, so no batch ever meets
        another job's target, and a job that is mined has one batch more queued than rounds. */
    method RunJob(job: Job, rounds: nat) returns (mined: bool)
      requires Valid() && gpu.queue == [] && |job.decoded| <= SIZE
      modifies this, gpu, work
      ensures Valid() && gpu.queue == [] && gpu.served == |issued|
      ensures mined <==> job.wellFormed && |job.decoded| == 48 && job.difficulty > 0 && job.decoded[0] % 16 == 1
      ensures old(issued) <= issued
      ensures forall i :: |old(issued)| <= i < |issued| ==> issued[i].job == job
      ensures |issued| == |old(issued)| + (if mined && rounds > 0 then rounds + 1 else 0)
    {
      hide SameButNonce, T.IsTargetOf, T.WellFormed, Batches, SharesOf, History, AllWellFormed;
      NothingInFlight(issued, gpu.served, gpu.queue);
      var ok := Load(job);
      if !ok || job.difficulty <= 0 { return false; }
      var checked := T.NewTarget(job.difficulty);
      var target := checked.value;
      T.TargetWellFormed(target, job.difficulty);
      assert work[0] == work[..36][0];
      assert work[36..43] == work[36..47][..7];
      if work[0] % 16 != 1 { return false; }
      mined := true;
      SameAsItself(work[..]);
      var failed := Mine(job, target, rounds);
      if !failed { Drain(job, target); }
    }

    /** The worker's outer loop over whatever jobs it reads. */
    method Run(jobs: seq<Job>, rounds: seq<nat>)
      requires Valid() && gpu.queue == [] && |rounds| == |jobs|
      requires forall i :: 0 <= i < |jobs| ==> |jobs[i].decoded| <= SIZE
      modifies this, gpu, work
      ensures Valid() && gpu.queue == [] && gpu.served == |issued| && old(issued) <= issued
      ensures forall i :: |old(issued)| <= i < |issued| ==> issued[i].job in jobs
      ensures shares == SharesOf(issued, gpu.answers, pow)
      ensures hashes == |issued| * gpu.batch % 0x1_0000_0000_0000_0000
    {
      hide Batches, SharesOf, History;
      NothingInFlight(issued, gpu.served, gpu.queue);
      for j := 0 to |jobs|
        invariant Valid() && gpu.queue == [] && gpu.served == |issued| && old(issued) <= issued
        invariant forall i :: |old(issued)| <= i < |issued| ==> issued[i].job in jobs
      {
        var mined := RunJob(jobs[j], rounds[j]);
      }
      assert issued[..gpu.served] == issued;
    }
  }

  lemma SameAsItself(w: Work)
    ensures SameButNonce(w, w)
  {}

  lemma SameIsSymmetric(v: Work, w: Work)
    requires SameButNonce(v, w)
    ensures SameButNonce(w, v)
  {}

  lemma SameIsTransitive(u: Work, v: Work, w: Work)
    requires SameButNonce(u, v) && SameButNonce(v, w)
    ensures SameButNonce(u, w)
  {}

  lemma InFlightCount(issued: seq<Issued>, served: nat, queue: seq<Batch>)
    requires served <= |issued| && queue == Batches(issued[served..])
    ensures |queue| == |issued| - served
  {}

  lemma NothingInFlight(issued: seq<Issued>, served: nat, queue: seq<Batch>)
    requires served <= |issued| && queue == Batches(issued[served..])
    ensures queue == [] <==> served == |issued|
  {
    InFlightCount(issued, served, queue);
  }

  lemma AfterCollect(issued: seq<Issued>, served: nat, queue: seq<Batch>)
    requires served <= |issued| && queue == Batches(issued[served..]) && queue != []
    ensures served < |issued| && queue[1..] == Batches(issued[served + 1..])
  {}

  lemma BatchesNext(issued: seq<Issued>, served: nat, b: Issued)
    requires served <= |issued|
    ensures Batches((issued + [b])[served..]) == Batches(issued[served..]) + [b.batch]
    ensures (issued + [b])[..served] == issued[..served]
  {}

  lemma HistoryNext(issued: seq<Issued>, b: Issued, batch: nat, random: seq<byte>, tag: byte)
    requires |random| == 12 && History(issued, batch, random, tag) && IssuedRight(b, |issued|, batch, random, tag)
    ensures History(issued + [b], batch, random, tag)
  {
    hide IssuedRight;
  }

  lemma SharesNext(issued: seq<Issued>, i: nat, answers: nat -> seq<uint32>, pow: Work -> Hash)
    requires i < |issued| && AllWellFormed(issued)
    ensures AllWellFormed(issued[..i + 1])
    ensures SharesOf(issued[..i + 1], answers, pow)
            == SharesOf(issued[..i], answers, pow) + BatchShares(issued[i], answers(i), pow)
  {
    hide BatchShares;
    assert issued[..i + 1][..i] == issued[..i];
  }

  lemma CurrentStays(issued: seq<Issued>, from: nat, before: Work, after: Work)
    requires from <= |issued| && SameButNonce(after, before)
    requires forall i :: from <= i < |issued| ==> SameButNonce(issued[i].batch.work, before)
    ensures forall i :: from <= i < |issued| ==> SameButNonce(issued[i].batch.work, after)
  {
    SameIsSymmetric(after, before);
    forall i | from <= i < |issued| ensures SameButNonce(issued[i].batch.work, after) {
      SameIsTransitive(issued[i].batch.work, before, after);
    }
  }

  lemma CounterStep(served: nat, batch: nat)
    ensures (served * batch % COUNTS + batch) % COUNTS
         == (served + 1) * batch % COUNTS
  {
    CountAdds(served * batch, batch);
    assert (served + 1) * batch == served * batch + batch;
  }

  lemma NonceStep(i: nat, batch: nat)
    ensures (NonceAt(i * batch) + batch) % NONCES == NonceAt((i + 1) * batch)
  {
    NonceAdds(i * batch, batch);
    assert (i + 1) * batch == i * batch + batch;
  }
}
