/** The 48-byte hash input of cmd/derostorm/engine.go and gpu_worker.go: 36 bytes of the job, then
    random filler, with the nonce big-endian at bytes 43 to 46 and the worker's tag in byte 47. */
module Miniblock {
  import opened MachineTypes
  import opened Difficulty
  import T = Target

  const SIZE := 48
  const NONCES := 0x1_0000_0000

  type Work = w: seq<byte> | |w| == SIZE witness seq(SIZE, _ => 0)

  /** binary.BigEndian.PutUint32. */
  function NonceBytes(n: uint32): (s: seq<byte>)
    ensures |s| == 4
  {
    [n / 0x100_0000, n / 0x1_0000 % 0x100, n / 0x100 % 0x100, n % 0x100]
  }

  function WithNonce(w: Work, n: uint32): Work {
    w[..43] + NonceBytes(n) + w[47..]
  }

  /** The input a worker prepares for a job: filler over the last twelve bytes, then its tag. */
  function Prepared(blob: Work, random: seq<byte>, tag: byte): Work
    requires |random| == 12
  {
    blob[..36] + random[..11] + [tag]
  }

  /** Where everything lies: 36 bytes of the job, eleven of filler, the tag. */
  lemma PreparedIs(blob: Work, random: seq<byte>, tag: byte)
    requires |random| == 12
    ensures var w := Prepared(blob, random, tag);
            w[..36] == blob[..36] && w[36..47] == random[..11] && w[47] == tag
  {}

  /** An input made for this job by the worker with this filler and tag, whatever its nonce. */
  ghost predicate ForJob(w: Work, blob: seq<byte>, random: seq<byte>, tag: byte)
    requires |random| == 12
  {
    |blob| == SIZE && w[..36] == blob[..36] && w[36..43] == random[..7] && w[47] == tag
  }

  lemma ForJobKept(v: Work, w: Work, blob: seq<byte>, random: seq<byte>, tag: byte)
    requires |random| == 12 && SameButNonce(v, w) && ForJob(w, blob, random, tag)
    ensures ForJob(v, blob, random, tag)
  {
    assert v[..36] == v[..43][..36] && w[..36] == w[..43][..36];
    assert v[36..43] == v[..43][36..] && w[36..43] == w[..43][36..];
  }

  /** The same input except for the nonce. */
  predicate SameButNonce(v: Work, w: Work) {
    v[..43] == w[..43] && v[47] == w[47]
  }

  /** Whatever nonce was left in the buffer, the next one written decides. */
  lemma SameInput(v: Work, w: Work, n: uint32)
    requires SameButNonce(v, w)
    ensures WithNonce(v, n) == WithNonce(w, n)
  {
    assert v[47..] == [v[47]] && w[47..] == [w[47]];
  }

  lemma NonceChangesOnlyNonce(w: Work, n: uint32)
    ensures SameButNonce(WithNonce(w, n), w) && WithNonce(w, n)[47] == w[47]
  {}

  /** Different nonces make different inputs. */
  lemma NonceInjective(v: Work, w: Work, m: uint32, n: uint32)
    requires WithNonce(v, m) == WithNonce(w, n)
    ensures m == n
  {
    assert WithNonce(v, m)[43..47] == NonceBytes(m) && WithNonce(w, n)[43..47] == NonceBytes(n);
    NonceBytesValue(m);
    NonceBytesValue(n);
  }

  function BigEndian4(b: seq<byte>): uint32
    requires |b| == 4
  {
    b[0] as int * 0x100_0000 + b[1] as int * 0x1_0000 + b[2] as int * 0x100 + b[3] as int
  }

  lemma DivByBytes(n: nat)
    ensures n / 0x1_0000 == n / 0x100 / 0x100 && n / 0x100_0000 == n / 0x1_0000 / 0x100
  {}

  /** The nonce reads back big-endian from bytes 43 to 46, and no other byte depends on it. */
  lemma NoncePlaced(w: Work, n: uint32)
    ensures var v := WithNonce(w, n);
            && v[43] as int * 0x100_0000 + v[44] as int * 0x1_0000 + v[45] as int * 0x100 + v[46] as int == n
            && v[..43] == w[..43] && v[47] == w[47]
  {
    NonceBytesValue(n);
  }

  lemma NonceBytesValue(n: uint32)
    ensures BigEndian4(NonceBytes(n)) == n
  {
    DivByBytes(n);
    var q1, q2, q3 := n / 0x100, n / 0x1_0000, n / 0x100_0000;
    assert n == 0x100 * q1 + n % 0x100 && q1 == 0x100 * q2 + q1 % 0x100 && q2 == 0x100 * q3 + q2 % 0x100;
  }

  lemma LowByte(x: nat, y: byte)
    ensures (0x100 * x + y) / 0x100 == x && (0x100 * x + y) % 0x100 == y
  {}

  lemma NonceBytesOf(b: seq<byte>)
    requires |b| == 4
    ensures NonceBytes(BigEndian4(b)) == b
  {
    var n: nat, q2: nat := BigEndian4(b), 0x100 * b[0] as int + b[1] as int;
    var q1: nat := 0x100 * q2 + b[2];
    assert n == 0x100 * q1 + b[3];
    DivByBytes(n);
    LowByte(q1, b[3]);
    LowByte(q2, b[2]);
    LowByte(b[0], b[1]);
  }

  /** binary.BigEndian.PutUint32(work[43:], n) on the buffer. */
  method PutNonce(work: array<byte>, n: uint32)
    requires work.Length == SIZE
    modifies work
    ensures work[..] == WithNonce(old(work[..]), n)
    ensures work[43] as int * 0x100_0000 + work[44] as int * 0x1_0000 + work[45] as int * 0x100 + work[46] as int == n
    ensures work[..43] == old(work[..43]) && work[47] == old(work[47])
  {
    NoncePlaced(work[..], n);
    work[43], work[44] := n / 0x100_0000, n / 0x1_0000 % 0x100;
    work[45], work[46] := n / 0x100 % 0x100, n % 0x100;
  }

  /** Decode the job into the buffer, then the filler, then the tag. A failed decode leaves the bytes
      it managed. */
  method Prepare(work: array<byte>, job: Job, random: seq<byte>, tag: byte) returns (ok: bool)
    requires work.Length == SIZE && |random| == 12 && |job.decoded| <= SIZE
    modifies work
    ensures ok <==> job.wellFormed && |job.decoded| == SIZE
    ensures ok ==> work[..] == Prepared(job.decoded, random, tag)
    ensures ok ==> work[..36] == job.decoded[..36] && work[36..47] == random[..11] && work[47] == tag
  {
    forall i | 0 <= i < |job.decoded| { work[i] := job.decoded[i]; }
    if !job.wellFormed || |job.decoded| != SIZE { return false; }
    forall i | 0 <= i < 12 { work[36 + i] := random[i]; }
    work[47] := tag;
    PreparedIs(job.decoded, random, tag);
    assert work[..] == Prepared(job.decoded, random, tag);
    ok := true;
  }

  // Tags.

  const GPU_TAG := 0xf0
  const MAX_GPUS := 16
  const MAX_THREADS := 256

  function GpuTag(device: nat): byte
    requires device < MAX_GPUS
  {
    GPU_TAG + device
  }

  function CpuTag(tid: nat): byte { tid % 0x100 }

  /** Every input a worker with this tag can hash. */
  ghost predicate CanHash(tag: byte, input: Work) {
    exists blob: Work, random: seq<byte>, n: uint32 ::
      |random| == 12 && input == WithNonce(Prepared(blob, random, tag), n)
  }

  lemma CanHashIsTag(tag: byte, input: Work)
    ensures CanHash(tag, input) <==> input[47] == tag
  {
    hide NonceBytes, BigEndian4;
    if input[47] == tag {
      var n := BigEndian4(input[43..47]);
      var random := input[36..48];
      NonceBytesOf(input[43..47]);
      assert input == input[..36] + input[36..43] + input[43..47] + input[47..];
      assert Prepared(input, random, tag)[..43] == input[..36] + input[36..43];
      assert Prepared(input, random, tag)[47..] == input[47..];
      assert input == WithNonce(Prepared(input, random, tag), n);
    }
  }

  /** A CPU thread and a GPU have an input in common exactly when the thread's id is the device's
      tag. The engine allows 256 threads, so ids 240 to 255 do collide. */
  lemma CpuAndGpuDisjointExactly(tid: nat, device: nat)
    requires tid < MAX_THREADS && device < MAX_GPUS
    ensures (forall input: Work :: !(CanHash(CpuTag(tid), input) && CanHash(GpuTag(device), input))) <==>
            tid != 0xf0 + device
  {
    if tid != GPU_TAG + device {
      forall input: Work ensures !(CanHash(CpuTag(tid), input) && CanHash(GpuTag(device), input)) {
        CanHashIsTag(CpuTag(tid), input);
        CanHashIsTag(GpuTag(device), input);
      }
    } else {
      var input: Work := seq(47, _ => 0) + [GpuTag(device)];
      CanHashIsTag(CpuTag(tid), input);
      CanHashIsTag(GpuTag(device), input);
    }
  }

  /** So a thread is clear of every device exactly when its id is below 240. */
  lemma ThreadIsClearExactly(tid: nat)
    requires tid < 256
    ensures (forall device: nat, input: Work :: device < 16 ==>
               !(CanHash(CpuTag(tid), input) && CanHash(GpuTag(device), input)))
            <==> tid < 240
  {
    hide CanHash;
    forall device: nat | device < MAX_GPUS
      ensures (forall input: Work :: !(CanHash(CpuTag(tid), input) && CanHash(GpuTag(device), input))) <==>
              tid != GPU_TAG + device
    {
      CpuAndGpuDisjointExactly(tid, device);
    }
    if tid >= GPU_TAG { assert GpuTag(tid - GPU_TAG) == CpuTag(tid); CpuAndGpuDisjointExactly(tid, tid - GPU_TAG); }
  }

  /** Two threads, or two devices, never share an input. */
  lemma WorkersAreDisjoint(tag: byte, tag': byte, input: Work)
    requires tag != tag' && CanHash(tag, input)
    ensures !CanHash(tag', input)
  {
    CanHashIsTag(tag, input);
    CanHashIsTag(tag', input);
  }

  // Nonce ranges.

  /** The nonce a worker reaches after p hashes, counted from 0 and wrapping at 2^32. */
  function NonceAt(p: nat): uint32 { p % NONCES }

  lemma NonceAdds(p: nat, k: nat)
    ensures (p % NONCES + k) % NONCES == (p + k) % NONCES
  {}

  /** The hash counters are 64 bits wide. */
  const COUNTS := 0x1_0000_0000_0000_0000

  lemma CountAdds(p: nat, k: nat)
    ensures (p % COUNTS + k) % COUNTS == (p + k) % COUNTS
  {}

  /** Two hashes share a nonce only when they are a multiple of 2^32 hashes apart. */
  lemma NonceRepeats(p: nat, q: nat)
    requires p <= q
    ensures NonceAt(p) == NonceAt(q) <==> (q - p) % NONCES == 0
  {}

  // Shares.

  /** A job as the worker reads it: what its hexadecimal blob decoded to, whether all of it did, and
      its difficulty, zero standing for one that does not parse. */
  datatype Job = Job(id: nat, decoded: seq<byte>, wellFormed: bool, difficulty: int)

  datatype Share = Share(job: Job, work: Work, hash: Hash)

  /** The share one hash gives, if it meets the target. */
  function ShareFor(job: Job, tg: T.Target, work: Work, pow: Work -> Hash): seq<Share>
    requires T.WellFormed(tg)
  {
    if T.Meets(tg, pow(work)) then [Share(job, work, pow(work))] else []
  }
}
