/**
 * The memory download over UDS (ISO 14229): `uds_request_start_download`
 * registers a request with the worker's shared `ThreadData`, the worker
 * opens diagnostic session 0x85, performs the seed/key exchange and reads
 * the requested range chunk by chunk into a freshly allocated payload,
 * publishing its progress, and `uds_request_complete` stops and releases
 * the request.
 *
 * The ECU library is an oracle (`Ecu`): what each of its calls answers is
 * part of the input. The other thread's clearing of `downloadinProgress`
 * is the `cancel` schedule: `cancel(k)` says the flag has been cleared by
 * the time the worker checks it before chunk `k`.
 */
module UdsDownload {
  import opened Options
  import opened CStrings

  type Byte = x: int | 0 <= x < 0x100
  type U16 = x: int | 0 <= x < 0x1_0000

  /** Number of values of `uint32_t`; `transferBytes` wraps modulo this. */
  const U32_MODULUS: int := 0x1_0000_0000

  type U32 = x: int | 0 <= x < U32_MODULUS

  /** The diagnostic session the worker asks for. */
  const DiagSessionType: int := 0x85

  /** An ECU call that returns a status (non-zero on failure) and hands back a buffer. */
  datatype Reply = Reply(failed: bool, buffer: Option<seq<Byte>>)

  /**
   * A memory read: its status and the bytes it leaves in the chunk, which a
   * failed read may leave too (any bytes, none included).
   */
  datatype ReadReply = ReadReply(failed: bool, bytes: seq<Byte>)

  /** What the ECU answers to each call the worker makes. */
  datatype Ecu = Ecu(
    initDiagSession: int -> bool,
    getSeed: Reply,
    calculateKey: Option<seq<Byte>> -> Reply,
    unlock: Option<seq<Byte>> -> bool,
    readMem: (ULong, U16) -> ReadReply)

  /** `struct UDSRequestDownload`; `payload` is NULL until the worker allocates it. */
  class UdsRequestDownload {
    var address: ULong
    var startAddress: ULong
    var endAddress: ULong
    var transferSize: ULong
    var transferChunkSize: U16
    var transferProgress: real
    var transferBytes: U32
    var payload: array?<Byte>
    var downloadinProgress: bool

    /** A request for `size` bytes from `start` in chunks of `chunk` bytes, as the caller fills it in. */
    constructor (start: ULong, size: ULong, chunk: U16)
      ensures startAddress == start && transferSize == size && transferChunkSize == chunk
      ensures address == 0 && endAddress == 0 && transferBytes == 0 && transferProgress == 0.0
      ensures payload == null && !downloadinProgress
    {
      startAddress, transferSize, transferChunkSize := start, size, chunk;
      address, endAddress, transferBytes, transferProgress := 0, 0, 0, 0.0;
      payload := null;
      downloadinProgress := false;
    }
  }

  /** `struct ThreadData`, the single `_thread_data` shared with the worker. */
  class ThreadData {
    var ecu: Option<Ecu>
    var request: UdsRequestDownload?
    var seed: Option<seq<Byte>>
    var key: Option<seq<Byte>>

    /** The zero-initialised global. */
    constructor ()
      ensures ecu.None? && request == null && seed.None? && key.None?
    {
      ecu, request, seed, key := None, null, None, None;
    }

    /** A download is registered: both the ECU and the request are set. */
    predicate Registered()
      reads this
    {
      ecu.Some? && request != null
    }
  }

  // ---------------------------------------------------------------------
  // Starting and completing
  // ---------------------------------------------------------------------

  /**
   * `uds_request_start_download`: refused while another download is
   * registered, or when the chunk size or the transfer size is zero;
   * otherwise the thread data is cleared, the ECU and the request are
   * registered and the request is marked in progress.
   */
  method StartDownload(td: ThreadData, ecu: Ecu, request: UdsRequestDownload)
    modifies td, request
    ensures old(td.Registered()) || old(request.transferChunkSize) == 0 || old(request.transferSize) == 0 ==>
      td.ecu == old(td.ecu) && td.request == old(td.request) && td.seed == old(td.seed) && td.key == old(td.key)
      && request.downloadinProgress == old(request.downloadinProgress)
    ensures !old(td.Registered()) && old(request.transferChunkSize) != 0 && old(request.transferSize) != 0 ==>
      td.ecu == Some(ecu) && td.request == request && td.seed.None? && td.key.None?
      && request.downloadinProgress
    ensures request.address == old(request.address) && request.startAddress == old(request.startAddress)
      && request.endAddress == old(request.endAddress) && request.transferSize == old(request.transferSize)
      && request.transferChunkSize == old(request.transferChunkSize)
      && request.transferBytes == old(request.transferBytes) && request.transferProgress == old(request.transferProgress)
      && request.payload == old(request.payload)
  {
    if td.ecu.Some? && td.request != null {
      return;
    }
    if request.transferChunkSize == 0 {
      return;
    }
    if request.transferSize == 0 {
      return;
    }
    td.ecu, td.request, td.seed, td.key := None, null, None, None;
    td.ecu := Some(ecu);
    td.request := request;
    td.request.downloadinProgress := true;
  }

  /**
   * `uds_request_complete`: clears the in-progress flag, frees the
   * payload and unregisters the download (joining the worker thread is not
   * modelled).
   */
  method Complete(td: ThreadData, request: UdsRequestDownload)
    modifies td, request
    ensures !request.downloadinProgress && request.payload == null
    ensures td.ecu.None? && td.request == null
    ensures td.seed == old(td.seed) && td.key == old(td.key)
    ensures request.address == old(request.address) && request.startAddress == old(request.startAddress)
      && request.endAddress == old(request.endAddress) && request.transferSize == old(request.transferSize)
      && request.transferChunkSize == old(request.transferChunkSize)
      && request.transferBytes == old(request.transferBytes) && request.transferProgress == old(request.transferProgress)
  {
    request.downloadinProgress := false;
    if request.payload != null {
      request.payload := null;
    }
    td.ecu := None;
    td.request := null;
  }

  // ---------------------------------------------------------------------
  // What the transfer loop computes
  // ---------------------------------------------------------------------

  /**
   * The number of chunks the loop `address < endAddress` visits when
   * nothing stops it: the whole range when `startAddress + transferSize`
   * fits in 32 bits, and none when the end address wraps below the start.
   */
  function ChunkCount(start: ULong, size: ULong, c: U16): (n: nat)
    requires c > 0
    ensures n * c <= size
    ensures start + size < ULONG_MODULUS ==> size < (n + 1) * c
    ensures start + size >= ULONG_MODULUS ==> n == 0
  {
    if start + size < ULONG_MODULUS then
      var n := size / c;
      assert size == n * c + size % c;
      MulSucc(n, c);
      n
    else 0
  }

  /** The 32-bit address of chunk `k`. */
  function ChunkAddress(start: ULong, c: U16, k: nat): ULong {
    (start + k * c) % ULONG_MODULUS
  }

  /** The answer to the read of chunk `k`. */
  function ReadChunk(ecu: Ecu, start: ULong, c: U16, k: nat): ReadReply {
    ecu.readMem(ChunkAddress(start, c, k), c)
  }

  /** Whether the loop stops at chunk `k`: the flag was cleared before it, or its read failed. */
  predicate StopsAt(ecu: Ecu, cancel: nat -> bool, start: ULong, c: U16, k: nat) {
    cancel(k) || ReadChunk(ecu, start, c, k).failed
  }

  /** The first chunk from `k` on, below `n`, at which the loop stops; `n` when it runs to the end. */
  function StopIndex(ecu: Ecu, cancel: nat -> bool, start: ULong, c: U16, n: nat, k: nat): (stop: nat)
    requires k <= n
    ensures k <= stop <= n
    ensures forall j :: k <= j < stop ==> !StopsAt(ecu, cancel, start, c, j)
    ensures stop < n ==> StopsAt(ecu, cancel, start, c, stop)
    decreases n - k
  {
    if k == n then n
    else if StopsAt(ecu, cancel, start, c, k) then k
    else StopIndex(ecu, cancel, start, c, n, k + 1)
  }

  /** The `c` bytes a successful read leaves in its chunk: what it wrote, then the zeros `memset` put there. */
  function ChunkBytes(reply: ReadReply, c: nat): (r: seq<Byte>)
    ensures |r| == c
    ensures forall i :: 0 <= i < c ==> r[i] == if i < |reply.bytes| then reply.bytes[i] else 0
  {
    seq(c, i requires 0 <= i < c => if i < |reply.bytes| then reply.bytes[i] else 0)
  }

  /**
   * How many chunks reached the payload when the loop stops at `stop` of
   * `n`: those before it, and the stopping chunk too when the flag was still
   * set, so that its failed read could write into it.
   */
  function Written(cancel: nat -> bool, stop: nat, n: nat): (w: nat)
    requires stop <= n
    ensures stop <= w <= n
    ensures w == stop + 1 <==> stop < n && !cancel(stop)
  {
    if stop < n && !cancel(stop) then stop + 1 else stop
  }

  /** The payload bytes of the first `stop` chunks. */
  function Downloaded(ecu: Ecu, start: ULong, c: U16, stop: nat): (r: seq<Byte>)
    ensures |r| == stop * c
  {
    if stop == 0 then []
    else Downloaded(ecu, start, c, stop - 1) + ChunkBytes(ReadChunk(ecu, start, c, stop - 1), c)
  }

  function Zeros(n: nat): (r: seq<Byte>)
    ensures |r| == n && forall i :: 0 <= i < n ==> r[i] == 0
  {
    seq(n, _ => 0)
  }

  /** The payload once `stop` chunks have been read into the zeroed buffer of `size` bytes. */
  function Payload(ecu: Ecu, start: ULong, c: U16, size: nat, stop: nat): (r: seq<Byte>)
    ensures stop * c <= size ==> |r| == size
  {
    var done := Downloaded(ecu, start, c, stop);
    if |done| <= size then done + Zeros(size - |done|) else done
  }

  /** Whether the handshake lets the worker go on to the transfer: session, seed and key all succeed. */
  predicate HandshakeSucceeds(ecu: Ecu) {
    ecu.initDiagSession(DiagSessionType) && !ecu.getSeed.failed && !ecu.calculateKey(ecu.getSeed.buffer).failed
  }

  /**
   * The progress the worker last published: `transferBytes / transferSize`
   * as it stood before the last chunk read, or the old value when none was.
   */
  function LastProgress(oldProgress: real, stop: nat, c: U16, size: ULong): (r: real)
    requires size > 0
    ensures stop == 0 ==> r == oldProgress
    ensures 0 < stop && stop * c <= size ==> 0.0 <= r < 1.0
  {
    if stop == 0 then oldProgress
    else
      LastChunkRatio(stop, c, size);
      ((stop - 1) * c) as real / size as real
  }

  // ---------------------------------------------------------------------
  // Arithmetic facts the loop needs
  // ---------------------------------------------------------------------

  lemma MulMono(a: nat, b: nat, c: nat)
    requires a <= b
    ensures a * c <= b * c
  {
  }

  lemma MulSucc(a: nat, c: nat)
    ensures (a + 1) * c == a * c + c
  {
  }

  lemma NoWrap(x: int, m: int)
    requires 0 <= x < m
    ensures x % m == x
  {
  }

  /** A chunk whose address does not pass 2^32 is read at `start + k * c` itself. */
  lemma ChunkAddressNoWrap(start: ULong, c: U16, k: nat)
    requires start + k * c < ULONG_MODULUS
    ensures ChunkAddress(start, c, k) == start + k * c
  {
  }

  /** Writing a chunk over the zeros that follow the bytes read so far. */
  lemma AppendChunk(done: seq<Byte>, chunk: seq<Byte>, rest: nat)
    requires |chunk| <= rest
    ensures (done + Zeros(rest))[..|done|] + chunk + (done + Zeros(rest))[|done| + |chunk|..]
      == (done + chunk) + Zeros(rest - |chunk|)
  {
    var z := done + Zeros(rest);
    assert z[..|done|] == done;
    assert z[|done| + |chunk|..] == Zeros(rest - |chunk|);
  }

  /** A ratio of naturals with a smaller numerator lies in [0, 1). */
  lemma RatioBelowOne(a: nat, b: nat)
    requires a < b
    ensures 0.0 <= a as real / b as real < 1.0
  {
  }

  /** The offset of the last chunk of `stop` that fit into `size` bytes is below `size`. */
  lemma LastChunkRatio(stop: nat, c: U16, size: ULong)
    requires 0 < stop && size > 0
    ensures stop * c <= size ==> 0.0 <= ((stop - 1) * c) as real / size as real < 1.0
  {
    if stop * c <= size {
      MulSucc(stop - 1, c);
      RatioBelowOne((stop - 1) * c, size);
    }
  }

  /** With whole chunks, chunk `k` below the count lies inside the range and the address does not wrap. */
  lemma ChunkInRange(start: ULong, size: ULong, c: U16, k: nat)
    requires c > 0 && size % c == 0
    requires k < ChunkCount(start, size, c)
    ensures (k + 1) * c <= size
    ensures start + (k + 1) * c < ULONG_MODULUS
  {
    MulMono(k + 1, size / c, c);
  }

  /** The loop test `address < endAddress` holds exactly for the chunks below the count. */
  lemma LoopTest(start: ULong, size: ULong, c: U16, k: nat)
    requires c > 0 && size % c == 0
    requires k <= ChunkCount(start, size, c)
    requires k > 0 ==> start + k * c < ULONG_MODULUS
    ensures (start + k * c < (start + size) % ULONG_MODULUS) <==> k < ChunkCount(start, size, c)
  {
    var n := ChunkCount(start, size, c);
    if start + size < ULONG_MODULUS {
      assert size == n * c;
      if k < n {
        MulMono(k + 1, n, c);
      } else {
        assert k == n;
      }
    } else {
      assert k == 0;
    }
  }

  // ---------------------------------------------------------------------
  // Properties of the download
  // ---------------------------------------------------------------------

  lemma SliceOfLeft<T>(p: seq<T>, q: seq<T>, lo: nat, hi: nat)
    requires lo <= hi <= |p|
    ensures (p + q)[lo .. hi] == p[lo .. hi]
  {
  }

  lemma SliceOfRight<T>(p: seq<T>, q: seq<T>)
    ensures (p + q)[|p| .. |p| + |q|] == q
  {
  }

  /** Chunk `k` of the payload holds what the read of chunk `k` wrote. */
  lemma {:induction false} DownloadedChunk(ecu: Ecu, start: ULong, c: U16, stop: nat, k: nat)
    requires k < stop
    ensures k * c + c <= |Downloaded(ecu, start, c, stop)|
    ensures Downloaded(ecu, start, c, stop)[k * c .. k * c + c] == ChunkBytes(ReadChunk(ecu, start, c, k), c)
  {
    var prefix := Downloaded(ecu, start, c, stop - 1);
    var chunk := ChunkBytes(ReadChunk(ecu, start, c, stop - 1), c);
    assert Downloaded(ecu, start, c, stop) == prefix + chunk;
    var lo: nat := k * c;
    MulSucc(k, c);
    if k < stop - 1 {
      DownloadedChunk(ecu, start, c, stop - 1, k);
      SliceOfLeft(prefix, chunk, lo, lo + c);
    } else {
      assert |prefix| == lo;
      SliceOfRight(prefix, chunk);
    }
  }

  /** When nothing cancels and no read fails, the loop reads every chunk and the payload is the whole range. */
  lemma FullTransfer(ecu: Ecu, cancel: nat -> bool, start: ULong, size: ULong, c: U16)
    requires c > 0 && size % c == 0 && start + size < ULONG_MODULUS
    requires forall k :: 0 <= k < size / c ==> !cancel(k) && !ReadChunk(ecu, start, c, k).failed
    ensures var n := ChunkCount(start, size, c);
      StopIndex(ecu, cancel, start, c, n, 0) == n && |Downloaded(ecu, start, c, n)| == size
  {
    var n := ChunkCount(start, size, c);
    assert n == size / c;
    assert size == n * c;
  }

  /** Whether the transfer runs does not depend on the answer to `unlock`: a failed key exchange is only logged. */
  lemma UnlockIgnored(ecu: Ecu, unlock: Option<seq<Byte>> -> bool)
    ensures HandshakeSucceeds(ecu.(unlock := unlock)) == HandshakeSucceeds(ecu)
  {
  }

  // ---------------------------------------------------------------------
  // The worker
  // ---------------------------------------------------------------------

  /** `readMem` into the chunk at `offset`: those `c` bytes of the payload become the chunk's bytes, the rest stays. */
  method WriteChunk(payload: array<Byte>, offset: nat, reply: ReadReply, c: nat)
    requires offset + c <= payload.Length
    modifies payload
    ensures payload[..] == old(payload[..offset]) + ChunkBytes(reply, c) + old(payload[offset + c..])
  {
    var chunk := ChunkBytes(reply, c);
    forall i | 0 <= i < c {
      payload[offset + i] := chunk[i];
    }
    assert payload[..] == old(payload[..offset]) + chunk + old(payload[offset + c..]);
  }

  /**
   * The worker thread (`MyThreadFunction`), run to its end. A failed
   * session, seed or key request skips the transfer and goes straight to
   * the cleanup, leaving the request as it was (still marked in progress);
   * a failed key exchange is only logged. The transfer allocates a zeroed
   * payload of `transferSize` bytes and reads chunk after chunk, checking
   * the in-progress flag before each one, until the end address, a cleared
   * flag or a failed read, whose bytes stay in its chunk; the flag is then
   * cleared. The cleanup releases the seed and the key.
   */
  method Worker(td: ThreadData, cancel: nat -> bool)
    requires td.Registered()
    requires td.request.transferChunkSize > 0 && td.request.transferSize > 0
    requires td.request.transferSize % td.request.transferChunkSize == 0
    requires td.request.downloadinProgress
    modifies td, td.request
    ensures td.ecu == old(td.ecu) && td.request == old(td.request)
    ensures td.seed.None? && td.key.None?
    ensures var r := td.request;
      r.startAddress == old(r.startAddress) && r.transferSize == old(r.transferSize)
      && r.transferChunkSize == old(r.transferChunkSize)
    ensures var r := td.request;
      !HandshakeSucceeds(td.ecu.value) ==>
        r.payload == old(r.payload) && r.downloadinProgress == old(r.downloadinProgress)
        && r.address == old(r.address) && r.endAddress == old(r.endAddress)
        && r.transferBytes == old(r.transferBytes) && r.transferProgress == old(r.transferProgress)
    ensures var r := td.request;
      var start, size, c := r.startAddress, r.transferSize, r.transferChunkSize;
      var n := ChunkCount(start, size, c);
      var stop := StopIndex(td.ecu.value, cancel, start, c, n, 0);
      HandshakeSucceeds(td.ecu.value) ==>
        r.payload != null && fresh(r.payload) && r.payload.Length == size
        && r.payload[..] == Payload(td.ecu.value, start, c, size, Written(cancel, stop, n))
        && r.endAddress == (start + size) % ULONG_MODULUS
        && r.address == start + stop * c
        && r.transferBytes == stop * c
        && r.transferProgress == LastProgress(old(r.transferProgress), stop, c, size)
        && !r.downloadinProgress
  {
    var ecu := td.ecu.value;
    var request := td.request;
    if !ecu.initDiagSession(DiagSessionType) {
      td.key, td.seed := None, None;
      return;
    }
    var seedReply := ecu.getSeed;
    td.seed := seedReply.buffer;
    if seedReply.failed {
      td.key, td.seed := None, None;
      return;
    }
    var keyReply := ecu.calculateKey(td.seed);
    td.key := keyReply.buffer;
    if keyReply.failed {
      td.key, td.seed := None, None;
      return;
    }
    var unlocked := ecu.unlock(td.key);
    Transfer(request, ecu, cancel);
    td.key, td.seed := None, None;
  }

  /** The transfer part of the worker, from the allocation of the payload to the clearing of the flag. */
  method Transfer(request: UdsRequestDownload, ecu: Ecu, cancel: nat -> bool)
    requires request.transferChunkSize > 0 && request.transferSize > 0
    requires request.transferSize % request.transferChunkSize == 0
    requires request.downloadinProgress
    modifies request
    ensures request.startAddress == old(request.startAddress) && request.transferSize == old(request.transferSize)
      && request.transferChunkSize == old(request.transferChunkSize)
    ensures var start, size, c := request.startAddress, request.transferSize, request.transferChunkSize;
      var n := ChunkCount(start, size, c);
      var stop := StopIndex(ecu, cancel, start, c, n, 0);
      request.payload != null && fresh(request.payload) && request.payload.Length == size
      && request.payload[..] == Payload(ecu, start, c, size, Written(cancel, stop, n))
      && request.endAddress == (start + size) % ULONG_MODULUS
      && request.address == start + stop * c
      && request.transferBytes == stop * c
      && request.transferProgress == LastProgress(old(request.transferProgress), stop, c, size)
      && !request.downloadinProgress
  {
    var payload := new Byte[request.transferSize](_ => 0);
    request.payload := payload;
    request.endAddress := (request.startAddress + request.transferSize) % ULONG_MODULUS;
    request.address := request.startAddress;
    TransferLoop(request, ecu, cancel, payload);
    request.downloadinProgress := false;
  }

  /**
   * The `for` loop of the worker, from `transferBytes = 0` on: one chunk
   * per pass at `address`, stopping at the end address, when the flag is
   * found cleared, or on a failed read.
   */
  method TransferLoop(request: UdsRequestDownload, ecu: Ecu, cancel: nat -> bool, payload: array<Byte>)
    requires request.transferChunkSize > 0 && request.transferSize > 0
    requires request.transferSize % request.transferChunkSize == 0
    requires request.downloadinProgress
    requires request.payload == payload && payload.Length == request.transferSize
    requires forall i :: 0 <= i < payload.Length ==> payload[i] == 0
    requires request.endAddress == (request.startAddress + request.transferSize) % ULONG_MODULUS
    requires request.address == request.startAddress
    modifies request`address, request`transferBytes, request`transferProgress, request`downloadinProgress, payload
    ensures var start, size, c := request.startAddress, request.transferSize, request.transferChunkSize;
      var n := ChunkCount(start, size, c);
      var stop := StopIndex(ecu, cancel, start, c, n, 0);
      payload[..] == Payload(ecu, start, c, size, Written(cancel, stop, n))
      && request.address == start + stop * c
      && request.transferBytes == stop * c
      && request.transferProgress == LastProgress(old(request.transferProgress), stop, c, size)
  {
    var start, size, c := request.startAddress, request.transferSize, request.transferChunkSize;
    var n := ChunkCount(start, size, c);
    ghost var stop := StopIndex(ecu, cancel, start, c, n, 0);
    ghost var oldProgress := request.transferProgress;
    request.transferBytes := 0;
    var k := 0;
    var off: nat := 0;
    ghost var written := 0;
    assert payload[..] == Payload(ecu, start, c, size, 0);
    while request.address < request.endAddress
      invariant 0 <= k <= stop <= n && written == k
      invariant off == k * c && off <= size
      invariant k > 0 ==> start + off < ULONG_MODULUS
      invariant request.address == start + off
      invariant request.transferBytes == off
      invariant request.transferProgress == LastProgress(oldProgress, k, c, size)
      invariant payload[..] == Payload(ecu, start, c, size, written)
      invariant request.downloadinProgress
      decreases n - k
    {
      LoopTest(start, size, c, k);
      ChunkInRange(start, size, c, k);
      MulSucc(k, c);
      ChunkAddressNoWrap(start, c, k);
      var stopped := TransferChunk(request, ecu, cancel, payload, k, off);
      written := if cancel(k) then k else k + 1;
      if stopped {
        break;
      }
      k := k + 1;
      off := off + c;
    }
    LoopTest(start, size, c, k);
    assert k == stop && off == stop * c;
    assert written == Written(cancel, stop, n);
  }

  /**
   * One pass of the worker's loop, for chunk `k` at payload offset `off`:
   * the flag check, the read into the chunk, the published progress and
   * the advance of `address` and `transferBytes`. `stopped` is whether the
   * loop breaks here; a failed read has written its chunk by then.
   */
  method TransferChunk(request: UdsRequestDownload, ecu: Ecu, cancel: nat -> bool, payload: array<Byte>, k: nat, off: nat)
      returns (stopped: bool)
    requires request.transferChunkSize > 0 && request.transferSize > 0
    requires request.downloadinProgress
    requires off == k * request.transferChunkSize && off + request.transferChunkSize <= payload.Length
    requires request.startAddress + off + request.transferChunkSize < ULONG_MODULUS
    requires request.address == request.startAddress + off && request.transferBytes == off
    requires payload[..] == Payload(ecu, request.startAddress, request.transferChunkSize, payload.Length, k)
    modifies request`address, request`transferBytes, request`transferProgress, request`downloadinProgress, payload
    ensures var start, c := request.startAddress, request.transferChunkSize;
      stopped <==> StopsAt(ecu, cancel, start, c, k)
    ensures cancel(k) ==> payload[..] == old(payload[..])
    ensures !cancel(k) ==> payload[..] == Payload(ecu, request.startAddress, request.transferChunkSize, payload.Length, k + 1)
    ensures stopped ==> request.address == old(request.address)
    ensures stopped ==> request.transferBytes == old(request.transferBytes)
    ensures stopped ==> request.transferProgress == old(request.transferProgress)
    ensures var start, c := request.startAddress, request.transferChunkSize;
      !stopped ==>
        request.address == start + off + c && request.transferBytes == off + c
        && request.transferProgress == off as real / request.transferSize as real
        && request.downloadinProgress
  {
    var start, size, c := request.startAddress, request.transferSize, request.transferChunkSize;
    ChunkAddressNoWrap(start, c, k);
    if cancel(k) {
      request.downloadinProgress := false;
    }
    if !request.downloadinProgress {
      return true;
    }
    var reply := ecu.readMem(request.address, c);
    assert reply == ReadChunk(ecu, start, c, k);
    WriteChunk(payload, off, reply, c);
    AppendChunk(Downloaded(ecu, start, c, k), ChunkBytes(reply, c), payload.Length - off);
    if reply.failed {
      return true;
    }
    request.transferProgress := request.transferBytes as real / request.transferSize as real;
    NoWrap(request.address + c, ULONG_MODULUS);
    request.address := (request.address + c) % ULONG_MODULUS;
    NoWrap(request.transferBytes + c, U32_MODULUS);
    request.transferBytes := (request.transferBytes + c) % U32_MODULUS;
    return false;
  }
}
