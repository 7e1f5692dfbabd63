/**
 * `dump`: the memory range is read in PAGE_SIZE chunks, in order, and each
 * chunk is retried until it is read; the chunks go to the file one after the
 * other. The retry loop has no exit but success, so the model bounds the
 * number of read attempts by `fuel` and reports `OutOfFuel` where the
 * program would still be retrying.
 */
module MemoryDump {
  import opened Proto
  import opened Config
  import opened Errors
  import opened Messages
  import opened SerialPort
  import opened Seqs
  import opened Frame
  import opened MemoryRead

  const Wrap: int := 0x1_0000_0000

  /**
   * One call of `cmdReadMemory` in the retry loop: which chunk, which retry,
   * the address requested, the bytes it wrote to the port, and the data it
   * returned if it read the chunk.
   */
  datatype Attempt = Attempt(chunk: nat, retry: nat, address: bv32, sent: seq<byte>, read: Option<seq<byte>>)

  datatype Status = Dumped | OutOfFuel

  datatype DumpRun = DumpRun(status: Status, chunks: nat, file: seq<byte>, port: Port,
                             log: seq<Message>, trace: seq<Attempt>)

  /** The number of chunks a dump of `size` bytes reads: the last one may run past the range. */
  function NumChunks(size: uint32): nat
  {
    (size + PageSize - 1) / PageSize
  }

  /** The chunk loop's guard as the program computes it, in unsigned 32-bit arithmetic. */
  predicate GuardAsWritten(i: nat, size: uint32)
  {
    (i * PageSize) % Wrap < size
  }

  /** The guard as intended, on unbounded integers; the model uses this one. */
  predicate Guard(i: nat, size: uint32)
  {
    i * PageSize < size
  }

  /** The intended guard lets exactly the chunks of the range through. */
  lemma GuardIsChunkCount(i: nat, size: uint32)
    ensures Guard(i, size) <==> i < NumChunks(size)
  {
    if i < NumChunks(size) {
      assert i * PageSize <= (NumChunks(size) - 1) * PageSize;
    } else {
      assert i * PageSize >= NumChunks(size) * PageSize;
    }
  }

  lemma ModOfMultiple(i: nat)
    ensures (i * PageSize) % Wrap == PageSize * (i % 0x200_0000)
  {
    var q := i / 0x200_0000;
    var r := i % 0x200_0000;
    assert i * PageSize == Wrap * q + PageSize * r;
  }

  /**
   * For a size above 0xFFFF_FF80 the guard as written holds for every `i`:
   * `i * PAGE_SIZE` wraps round before it reaches `size`, and the loop never ends.
   */
  lemma GuardAsWrittenNeverCloses(i: nat, size: uint32)
    requires size > Wrap - PageSize
    ensures GuardAsWritten(i, size)
  {
    ModOfMultiple(i);
  }

  /** With `size` = 0xFFFF_FFFF (the range typed as -1), chunk 0x200_0000 is past the range but the guard holds. */
  lemma GuardAsWrittenCounterexample()
    ensures GuardAsWritten(0x200_0000, 0xFFFF_FFFF) && !Guard(0x200_0000, 0xFFFF_FFFF)
  {
    ModOfMultiple(0x200_0000);
  }

  /** Below that size the two guards agree on every chunk the loop reaches. */
  lemma GuardsAgree(i: nat, size: uint32)
    requires size <= Wrap - PageSize && i <= NumChunks(size)
    ensures GuardAsWritten(i, size) == Guard(i, size)
  {
    assert i * PageSize <= NumChunks(size) * PageSize;
    assert NumChunks(size) * PageSize < Wrap;
  }

  /** `i * PAGE_SIZE + addr` in unsigned 32-bit arithmetic. */
  function ChunkAddress(addr: bv32, i: nat): bv32
  {
    addr + ((i * PageSize) % Wrap) as bv32
  }

  /** The progress dot printed after chunk `i`. */
  function Progress(i: nat): seq<Message>
  {
    if i != 0 && i % RefreshRate == 0 then [Dot] else []
  }

  /** The warning after a failed read of chunk `i`; it is given for the first NRETRY failures only. */
  function RetryWarning(addr: bv32, i: nat, retry: nat): seq<Message>
  {
    if retry < NRetry then [NewLine, Retrain(ChunkAddress(addr, i))] else []
  }

  /** The outer loop of `dump` from chunk `i` on, with what has been written, logged and attempted so far. */
  function DumpFrom(p: Port, addr: bv32, size: uint32, i: nat,
                    file: seq<byte>, log: seq<Message>, trace: seq<Attempt>, fuel: nat): (r: DumpRun)
    ensures i <= r.chunks
    ensures r.status == Dumped ==> !Guard(r.chunks, size)
    decreases fuel, 1
  {
    if !Guard(i, size) then DumpRun(Dumped, i, file, p, log + [DumpOk], trace)
    else RetryFrom(p, addr, size, i, 0, file, log, trace, fuel)
  }

  /** The retry loop on chunk `i`, from retry `retry` on; it ends only when the chunk is read. */
  function RetryFrom(p: Port, addr: bv32, size: uint32, i: nat, retry: nat,
                     file: seq<byte>, log: seq<Message>, trace: seq<Attempt>, fuel: nat): (r: DumpRun)
    ensures i <= r.chunks
    ensures r.status == Dumped ==> !Guard(r.chunks, size)
    decreases fuel, 0
  {
    if fuel == 0 then DumpRun(OutOfFuel, i, file, p, log, trace)
    else TryChunk(p, addr, size, i, retry, file, log, trace, fuel - 1)
  }

  /** One pass of the retry loop: `cmdReadMemory` on chunk `i`. */
  function TryChunk(p: Port, addr: bv32, size: uint32, i: nat, retry: nat,
                    file: seq<byte>, log: seq<Message>, trace: seq<Attempt>, fuel: nat): (r: DumpRun)
    ensures i <= r.chunks
    ensures r.status == Dumped ==> !Guard(r.chunks, size)
    decreases fuel, 3
  {
    var rd := ReadMemory(p, ChunkAddress(addr, i), PageSize);
    DumpNext(rd, RequestSent(p, ChunkAddress(addr, i), PageSize), addr, size, i, retry, file, log, trace, fuel)
  }

  /**
   * After one read of chunk `i`, which wrote `wire` to the port: write the
   * chunk and go on to the next one, or warn and retry this one.
   */
  function DumpNext(rd: (Result<seq<byte>>, Port), wire: seq<byte>, addr: bv32, size: uint32, i: nat, retry: nat,
                    file: seq<byte>, log: seq<Message>, trace: seq<Attempt>, fuel: nat): (r: DumpRun)
    ensures i <= r.chunks
    ensures r.status == Dumped ==> !Guard(r.chunks, size)
    decreases fuel, 2
  {
    if rd.0.Ok? then
      DumpFrom(rd.1, addr, size, i + 1, file + rd.0.value, log + Progress(i),
               trace + [Attempt(i, retry, ChunkAddress(addr, i), wire, Some(rd.0.value))], fuel)
    else
      RetryFrom(rd.1, addr, size, i, retry + 1, file, log + RetryWarning(addr, i, retry),
                trace + [Attempt(i, retry, ChunkAddress(addr, i), wire, None)], fuel)
  }

  /** `dump`; `fileOk` is whether the output file could be opened. */
  function Dump(fileOk: bool, p: Port, addr: bv32, size: uint32, fuel: nat): (r: Result<DumpRun>)
    ensures r.Err? <==> !fileOk
    ensures r.Err? ==> r.error == File(FileOpen)
  {
    if !fileOk then Err(File(FileOpen))
    else Ok(DumpFrom(p, addr, size, 0, [], [Dumping(addr, addr + size as bv32)], [], fuel))
  }

  // ---------------------------------------------------------------------
  // The order of the attempts.

  /**
   * What attempt `a` wrote to the port: the start of the Read Memory request
   * for its address, nothing exactly when the port is closed, and the whole
   * request when it read its chunk.
   */
  predicate Sends(a: Attempt, open: bool)
  {
    a.sent <= Request(a.address, PageSize) &&
    (a.sent == [] <==> !open) &&
    (a.read.Some? ==> a.sent == Request(a.address, PageSize))
  }

  /**
   * A trace in which every attempt writes the request, or its start, for the
   * address of its chunk, a success moves on to the next chunk and a failure
   * retries the same one.
   */
  predicate Follows(t: seq<Attempt>, addr: bv32, i: nat, retry: nat, open: bool)
  {
    t == [] ||
    (t[0].chunk == i && t[0].retry == retry && t[0].address == ChunkAddress(addr, i) && Sends(t[0], open) &&
     Follows(t[1..], addr, if t[0].read.Some? then i + 1 else i, if t[0].read.Some? then 0 else retry + 1, open))
  }

  /** In a trace that follows, every attempt wrote the request for the address of the chunk it names, or its start. */
  lemma {:induction false} FollowsRequests(t: seq<Attempt>, addr: bv32, i: nat, retry: nat, open: bool)
    requires Follows(t, addr, i, retry, open)
    ensures forall k :: 0 <= k < |t| ==> t[k].address == ChunkAddress(addr, t[k].chunk) && Sends(t[k], open)
    decreases |t|
  {
    if t != [] {
      var t' := t[1..];
      FollowsRequests(t', addr, if t[0].read.Some? then i + 1 else i, if t[0].read.Some? then 0 else retry + 1, open);
      forall k | 0 <= k < |t|
        ensures t[k].address == ChunkAddress(addr, t[k].chunk) && Sends(t[k], open)
      {
        if k > 0 {
          assert t[k] == t'[k - 1];
        }
      }
    }
  }

  function Successes(t: seq<Attempt>): nat
  {
    if t == [] then 0 else (if t[0].read.Some? then 1 else 0) + Successes(t[1..])
  }

  /** What an attempt adds to the file: the data it read, or nothing. */
  function Data(a: Attempt): seq<byte>
  {
    if a.read.Some? then a.read.value else []
  }

  /** The data returned by the successful attempts, in order. */
  function Reads(t: seq<Attempt>): seq<byte>
  {
    if t == [] then [] else Data(t[0]) + Reads(t[1..])
  }

  /** The bytes the attempts wrote to the port, in order. */
  function Wire(t: seq<Attempt>): seq<byte>
  {
    if t == [] then [] else t[0].sent + Wire(t[1..])
  }

  /** What an attempt logs: the progress dot after a read, the warning after a failure. */
  function Note(a: Attempt, addr: bv32): seq<Message>
  {
    if a.read.Some? then Progress(a.chunk) else RetryWarning(addr, a.chunk, a.retry)
  }

  /** The messages the attempts log, in order. */
  function Log(t: seq<Attempt>, addr: bv32): seq<Message>
  {
    if t == [] then [] else Note(t[0], addr) + Log(t[1..], addr)
  }

  /**
   * The events `ev` the device sent answer the attempts `t` in order and
   * leave `rest` unread: each attempt takes some events from the head, and
   * one that read its chunk took exactly the three ACKs and the data it
   * returned.
   */
  ghost predicate Answered(ev: seq<RxEvent>, t: seq<Attempt>, rest: seq<RxEvent>)
    decreases |t|
  {
    if t == [] then ev == rest
    else exists k :: 0 <= k <= |ev| && Answers(ev[..k], t[0]) && Answered(ev[k..], t[1..], rest)
  }

  /** The events one attempt took: the reply to its request when it read its chunk. */
  predicate Answers(taken: seq<RxEvent>, a: Attempt)
  {
    a.read.Some? ==> taken == Bytes(Response(a.read.value))
  }

  /**
   * What a run from chunk `i`, retry `retry` on promises, on a port that is
   * `open` or not, that has carried `sent` so far and has `incoming` still
   * to receive: each chunk is retried
   * until it is read and only then does the next one start; every attempt
   * writes the request for its chunk's address, or its start; the port
   * carries exactly the bytes of the attempts and the log exactly their
   * messages, in order; the file grows by exactly the data of the successful
   * reads, in order, PAGE_SIZE bytes each, and that data is what the device
   * sent after acknowledging each request, taken in order; the dump ends exactly when all
   * chunks of the range are read, and otherwise only when the attempts
   * allowed are used up.
   */
  ghost predicate RunFollows(r: DumpRun, addr: bv32, size: uint32, i: nat, retry: nat, open: bool,
                             file: seq<byte>, sent: seq<byte>, incoming: seq<RxEvent>, log: seq<Message>,
                             trace: seq<Attempt>, fuel: nat)
  {
    |trace| <= |r.trace| && r.trace[..|trace|] == trace &&
    var t := r.trace[|trace|..];
    Follows(t, addr, i, retry, open) && |t| <= fuel &&
    r.chunks == i + Successes(t) && r.chunks <= NumChunks(size) &&
    r.file == file + Reads(t) &&
    |r.file| == |file| + PageSize * Successes(t) &&
    r.port.isOpen == open && r.port.sent == sent + Wire(t) &&
    Answered(incoming, t, r.port.incoming) &&
    r.log == log + Log(t, addr) + (if r.status == Dumped then [DumpOk] else []) &&
    (r.status == Dumped <==> r.chunks == NumChunks(size)) &&
    (r.status == OutOfFuel ==> |t| == fuel)
  }

  lemma {:induction false} DumpFromTrace(p: Port, addr: bv32, size: uint32, i: nat,
                                         file: seq<byte>, log: seq<Message>, trace: seq<Attempt>, fuel: nat)
    requires i <= NumChunks(size)
    ensures RunFollows(DumpFrom(p, addr, size, i, file, log, trace, fuel), addr, size, i, 0, p.isOpen,
                       file, p.sent, p.incoming, log, trace, fuel)
    decreases fuel, 1
  {
    GuardIsChunkCount(i, size);
    if !Guard(i, size) {
      var r := DumpFrom(p, addr, size, i, file, log, trace, fuel);
      assert r.trace[|trace|..] == [];
      assert file + [] == file && p.sent + [] == p.sent && log + [] == log;
    } else {
      RetryFromTrace(p, addr, size, i, 0, file, log, trace, fuel);
    }
  }

  lemma {:induction false} RetryFromTrace(p: Port, addr: bv32, size: uint32, i: nat, retry: nat,
                                          file: seq<byte>, log: seq<Message>, trace: seq<Attempt>, fuel: nat)
    requires i < NumChunks(size)
    ensures RunFollows(RetryFrom(p, addr, size, i, retry, file, log, trace, fuel), addr, size, i, retry, p.isOpen,
                       file, p.sent, p.incoming, log, trace, fuel)
    decreases fuel, 0
  {
    if fuel == 0 {
      var r := RetryFrom(p, addr, size, i, retry, file, log, trace, fuel);
      assert r.trace[|trace|..] == [];
      assert file + [] == file && p.sent + [] == p.sent && log + [] + [] == log;
    } else {
      TryChunkTrace(p, addr, size, i, retry, file, log, trace, fuel - 1);
    }
  }

  lemma {:induction false} TryChunkTrace(p: Port, addr: bv32, size: uint32, i: nat, retry: nat,
                                         file: seq<byte>, log: seq<Message>, trace: seq<Attempt>, fuel: nat)
    requires i < NumChunks(size)
    ensures RunFollows(TryChunk(p, addr, size, i, retry, file, log, trace, fuel), addr, size, i, retry, p.isOpen,
                       file, p.sent, p.incoming, log, trace, fuel + 1)
    decreases fuel, 3
  {
    var a := ChunkAddress(addr, i);
    var rd := ReadMemory(p, a, PageSize);
    var wire := RequestSent(p, a, PageSize);
    ReadMemorySends(p, a, PageSize);
    RequestUpToIsPrefix(a, PageSize, if p.isOpen then FramesSent(p.incoming) else 0);
    var used := |p.incoming| - |rd.1.incoming|;
    ReadMemoryLeftOf(p, a, PageSize);
    if rd.0.Ok? {
      ReadMemoryOnlyWhenServed(p, a, PageSize);
    }
    DumpNextTrace(rd, wire, addr, size, i, retry, p.isOpen, file, p.sent, p.incoming, used, log, trace, fuel);
  }

  lemma {:induction false} DumpNextTrace(rd: (Result<seq<byte>>, Port), wire: seq<byte>, addr: bv32, size: uint32,
                                         i: nat, retry: nat, open: bool, file: seq<byte>, sent: seq<byte>,
                                         incoming: seq<RxEvent>, used: nat,
                                         log: seq<Message>, trace: seq<Attempt>, fuel: nat)
    requires i < NumChunks(size)
    requires rd.0.Ok? ==> |rd.0.value| == PageSize
    requires rd.1.isOpen == open && rd.1.sent == sent + wire
    requires used <= |incoming| && rd.1.incoming == incoming[used..]
    requires rd.0.Ok? ==> incoming[..used] == Bytes(Response(rd.0.value))
    requires Sends(Attempt(i, retry, ChunkAddress(addr, i), wire, if rd.0.Ok? then Some(rd.0.value) else None), open)
    ensures RunFollows(DumpNext(rd, wire, addr, size, i, retry, file, log, trace, fuel), addr, size, i, retry, open,
                       file, sent, incoming, log, trace, fuel + 1)
    decreases fuel, 2
  {
    var a := Attempt(i, retry, ChunkAddress(addr, i), wire, if rd.0.Ok? then Some(rd.0.value) else None);
    if rd.0.Ok? {
      DumpFromTrace(rd.1, addr, size, i + 1, file + rd.0.value, log + Progress(i), trace + [a], fuel);
    } else {
      RetryFromTrace(rd.1, addr, size, i, retry + 1, file, log + RetryWarning(addr, i, retry), trace + [a], fuel);
      assert file + Data(a) == file;
    }
    FollowsOneMore(DumpNext(rd, wire, addr, size, i, retry, file, log, trace, fuel), addr, size, i, retry, open,
                   file, sent, incoming, used, log, trace, fuel, a);
  }

  /** A run that starts with attempt `a` follows from where `a` was made. */
  lemma FollowsOneMore(r: DumpRun, addr: bv32, size: uint32, i: nat, retry: nat, open: bool,
                       file: seq<byte>, sent: seq<byte>, incoming: seq<RxEvent>, used: nat,
                       log: seq<Message>, trace: seq<Attempt>, fuel: nat, a: Attempt)
    requires a.chunk == i && a.retry == retry && a.address == ChunkAddress(addr, i) && Sends(a, open)
    requires a.read.Some? ==> |a.read.value| == PageSize
    requires used <= |incoming| && Answers(incoming[..used], a)
    requires RunFollows(r, addr, size, if a.read.Some? then i + 1 else i, if a.read.Some? then 0 else retry + 1, open,
                        file + Data(a), sent + a.sent, incoming[used..], log + Note(a, addr), trace + [a], fuel)
    ensures RunFollows(r, addr, size, i, retry, open, file, sent, incoming, log, trace, fuel + 1)
  {
    var t, t' := r.trace[|trace|..], r.trace[|trace| + 1..];
    assert r.trace[..|trace|] == trace && t[0] == a && t[1..] == t' by {
      assert r.trace[..|trace| + 1][..|trace|] == r.trace[..|trace|];
    }
    OneMoreAccumulates(t, file, sent, log, addr);
    AnsweredOneMore(incoming, used, t, r.port.incoming);
  }

  /** The file, the bytes written and the log of a trace grow by its first attempt's share first. */
  lemma OneMoreAccumulates(t: seq<Attempt>, file: seq<byte>, sent: seq<byte>, log: seq<Message>, addr: bv32)
    requires t != []
    ensures file + Data(t[0]) + Reads(t[1..]) == file + Reads(t)
    ensures sent + t[0].sent + Wire(t[1..]) == sent + Wire(t)
    ensures log + Note(t[0], addr) + Log(t[1..], addr) == log + Log(t, addr)
  {
    Associative(file, Data(t[0]), Reads(t[1..]));
    Associative(sent, t[0].sent, Wire(t[1..]));
    Associative(log, Note(t[0], addr), Log(t[1..], addr));
  }

  lemma AnsweredOneMore(ev: seq<RxEvent>, used: nat, t: seq<Attempt>, rest: seq<RxEvent>)
    requires t != [] && used <= |ev| && Answers(ev[..used], t[0]) && Answered(ev[used..], t[1..], rest)
    ensures Answered(ev, t, rest)
  {
  }

  /**
   * A dump that ends has read the whole range, rounded up to whole chunks,
   * and nothing more; the port carries the requests of its attempts and the
   * log their messages between the header and Ok.
   */
  lemma DumpReadsWholeRange(p: Port, addr: bv32, size: uint32, fuel: nat)
    requires Dump(true, p, addr, size, fuel).value.status == Dumped
    ensures var r := Dump(true, p, addr, size, fuel).value;
            |r.file| == NumChunks(size) * PageSize &&
            size <= |r.file| < size + PageSize &&
            Follows(r.trace, addr, 0, 0, p.isOpen) && Successes(r.trace) == NumChunks(size) &&
            r.file == Reads(r.trace) && r.port.sent == p.sent + Wire(r.trace) &&
            Answered(p.incoming, r.trace, r.port.incoming) &&
            r.log == [Dumping(addr, addr + size as bv32)] + Log(r.trace, addr) + [DumpOk]
  {
    DumpFromTrace(p, addr, size, 0, [], [Dumping(addr, addr + size as bv32)], [], fuel);
    var r := Dump(true, p, addr, size, fuel).value;
    assert r.trace[0..] == r.trace;
    assert [] + Reads(r.trace) == Reads(r.trace);
  }

  // ---------------------------------------------------------------------
  // A device that serves every chunk.

  /** What a device sends when it serves one Read Memory per page, in order. */
  function Served(pages: seq<seq<byte>>): seq<RxEvent>
  {
    if pages == [] then [] else Bytes(Response(pages[0])) + Served(pages[1..])
  }

  function Flatten(pages: seq<seq<byte>>): seq<byte>
  {
    if pages == [] then [] else pages[0] + Flatten(pages[1..])
  }

  /** The Read Memory requests for `n` chunks from chunk `i` on. */
  function Requests(addr: bv32, i: nat, n: nat): seq<byte>
    decreases n
  {
    if n == 0 then [] else Request(ChunkAddress(addr, i), PageSize) + Requests(addr, i + 1, n - 1)
  }

  /** The progress dots after `n` chunks from chunk `i` on. */
  function Dots(i: nat, n: nat): seq<Message>
    decreases n
  {
    if n == 0 then [] else Progress(i) + Dots(i + 1, n - 1)
  }

  /** The attempts of a dump in which every chunk from `i` on is read at the first try, returning `pages`. */
  function FirstTries(addr: bv32, i: nat, pages: seq<seq<byte>>): seq<Attempt>
    decreases |pages|
  {
    if pages == [] then [] else [Attempt(i, 0, ChunkAddress(addr, i), Request(ChunkAddress(addr, i), PageSize), Some(pages[0]))] + FirstTries(addr, i + 1, pages[1..])
  }

  lemma {:induction false} DumpFromServed(p: Port, addr: bv32, size: uint32, pages: seq<seq<byte>>,
                                          rest: seq<RxEvent>, i: nat,
                                          file: seq<byte>, log: seq<Message>, trace: seq<Attempt>, fuel: nat)
    requires p.isOpen && p.incoming == Served(pages) + rest
    requires i + |pages| == NumChunks(size) && fuel >= |pages|
    requires forall j :: 0 <= j < |pages| ==> |pages[j]| == PageSize
    ensures DumpFrom(p, addr, size, i, file, log, trace, fuel)
            == DumpRun(Dumped, NumChunks(size), file + Flatten(pages),
                       p.(incoming := rest, sent := p.sent + Requests(addr, i, |pages|)),
                       log + Dots(i, |pages|) + [DumpOk], trace + FirstTries(addr, i, pages))
    decreases |pages|, 1
  {
    if pages == [] {
      GuardIsChunkCount(i, size);
      assert p.incoming == rest;
      assert p.sent + Requests(addr, i, 0) == p.sent;
      assert file + Flatten(pages) == file;
      assert log + Dots(i, 0) + [DumpOk] == log + [DumpOk];
      assert trace + FirstTries(addr, i, pages) == trace;
    } else {
      ServedStep(p, addr, size, pages, rest, i, file, log, trace, fuel);
    }
  }

  /** One chunk of `DumpFromServed`: the first page is read, and the rest of the run is the run from the next chunk. */
  lemma {:induction false} ServedStep(p: Port, addr: bv32, size: uint32, pages: seq<seq<byte>>,
                                      rest: seq<RxEvent>, i: nat,
                                      file: seq<byte>, log: seq<Message>, trace: seq<Attempt>, fuel: nat)
    requires p.isOpen && pages != [] && p.incoming == Served(pages) + rest
    requires i + |pages| == NumChunks(size) && fuel >= |pages|
    requires forall j :: 0 <= j < |pages| ==> |pages[j]| == PageSize
    ensures DumpFrom(p, addr, size, i, file, log, trace, fuel)
            == DumpRun(Dumped, NumChunks(size), file + Flatten(pages),
                       p.(incoming := rest, sent := p.sent + Requests(addr, i, |pages|)),
                       log + Dots(i, |pages|) + [DumpOk], trace + FirstTries(addr, i, pages))
    decreases |pages|, 0
  {
    var n, tail := |pages|, pages[1..];
    var p' := p.(incoming := Served(tail) + rest, sent := p.sent + Request(ChunkAddress(addr, i), PageSize));
    var file', log', trace' := file + pages[0], log + Progress(i), trace + [Attempt(i, 0, ChunkAddress(addr, i), Request(ChunkAddress(addr, i), PageSize), Some(pages[0]))];
    FullPages(pages);
    DumpFromServed(p', addr, size, tail, rest, i + 1, file', log', trace', fuel - 1);
    ServedFirstChunk(p, addr, size, pages, rest, i, file, log, trace, fuel);
    ServedRunsAgree(p, addr, size, pages, rest, i, file, log, trace);
  }

  /** Pages of PAGE_SIZE bytes stay so once the first is taken. */
  lemma FullPages(pages: seq<seq<byte>>)
    requires pages != [] && forall j :: 0 <= j < |pages| ==> |pages[j]| == PageSize
    ensures |pages[0]| == PageSize && forall j :: 0 <= j < |pages[1..]| ==> |pages[1..][j]| == PageSize
  {
  }

  /** A served first chunk is read at the first try, and the dump goes on from the next chunk. */
  lemma ServedFirstChunk(p: Port, addr: bv32, size: uint32, pages: seq<seq<byte>>, rest: seq<RxEvent>, i: nat,
                         file: seq<byte>, log: seq<Message>, trace: seq<Attempt>, fuel: nat)
    requires p.isOpen && pages != [] && |pages[0]| == PageSize && p.incoming == Served(pages) + rest
    requires i < NumChunks(size) && fuel > 0
    ensures DumpFrom(p, addr, size, i, file, log, trace, fuel)
            == DumpFrom(p.(incoming := Served(pages[1..]) + rest,
                           sent := p.sent + Request(ChunkAddress(addr, i), PageSize)),
                        addr, size, i + 1, file + pages[0], log + Progress(i),
                        trace + [Attempt(i, 0, ChunkAddress(addr, i), Request(ChunkAddress(addr, i), PageSize), Some(pages[0]))], fuel - 1)
  {
    GuardIsChunkCount(i, size);
    RetryFromServed(p, addr, size, i, file, log, trace, fuel, pages, rest);
  }

  /** The run from the next chunk, once the first page is read, is the run `ServedStep` promises. */
  lemma ServedRunsAgree(p: Port, addr: bv32, size: uint32, pages: seq<seq<byte>>, rest: seq<RxEvent>, i: nat,
                        file: seq<byte>, log: seq<Message>, trace: seq<Attempt>)
    requires pages != []
    ensures var p' := p.(incoming := Served(pages[1..]) + rest, sent := p.sent + Request(ChunkAddress(addr, i), PageSize));
            var a := Attempt(i, 0, ChunkAddress(addr, i), Request(ChunkAddress(addr, i), PageSize), Some(pages[0]));
            DumpRun(Dumped, NumChunks(size), file + pages[0] + Flatten(pages[1..]),
                    p'.(incoming := rest, sent := p'.sent + Requests(addr, i + 1, |pages[1..]|)),
                    log + Progress(i) + Dots(i + 1, |pages[1..]|) + [DumpOk],
                    trace + [a] + FirstTries(addr, i + 1, pages[1..]))
            == DumpRun(Dumped, NumChunks(size), file + Flatten(pages),
                       p.(incoming := rest, sent := p.sent + Requests(addr, i, |pages|)),
                       log + Dots(i, |pages|) + [DumpOk], trace + FirstTries(addr, i, pages))
  {
    var n := |pages|;
    assert |pages[1..]| == n - 1;
    ServedAccumulates(addr, i, pages, file, log, trace);
    RequestsAccumulate(p.sent, addr, i, n);
  }

  lemma ServedAccumulates(addr: bv32, i: nat, pages: seq<seq<byte>>,
                          file: seq<byte>, log: seq<Message>, trace: seq<Attempt>)
    requires pages != []
    ensures file + pages[0] + Flatten(pages[1..]) == file + Flatten(pages)
    ensures log + Progress(i) + Dots(i + 1, |pages| - 1) + [DumpOk] == log + Dots(i, |pages|) + [DumpOk]
    ensures trace + [Attempt(i, 0, ChunkAddress(addr, i), Request(ChunkAddress(addr, i), PageSize), Some(pages[0]))] + FirstTries(addr, i + 1, pages[1..]) == trace + FirstTries(addr, i, pages)
  {
    Associative(file, pages[0], Flatten(pages[1..]));
    Associative(log, Progress(i), Dots(i + 1, |pages| - 1));
    Associative(trace, [Attempt(i, 0, ChunkAddress(addr, i), Request(ChunkAddress(addr, i), PageSize), Some(pages[0]))], FirstTries(addr, i + 1, pages[1..]));
  }

  lemma RequestsAccumulate(sent: seq<byte>, addr: bv32, i: nat, n: nat)
    requires n > 0
    ensures sent + Request(ChunkAddress(addr, i), PageSize) + Requests(addr, i + 1, n - 1)
            == sent + Requests(addr, i, n)
  {
    var a := ChunkAddress(addr, i);
    var r := Request(a, PageSize);
    assert Requests(addr, i, n) == r + Requests(addr, i + 1, n - 1);
    Associative(sent, r, Requests(addr, i + 1, n - 1));
  }

  lemma RetryFromServed(p: Port, addr: bv32, size: uint32, i: nat,
                        file: seq<byte>, log: seq<Message>, trace: seq<Attempt>, fuel: nat,
                        pages: seq<seq<byte>>, rest: seq<RxEvent>)
    requires p.isOpen && pages != [] && |pages[0]| == PageSize && p.incoming == Served(pages) + rest
    requires fuel > 0
    ensures RetryFrom(p, addr, size, i, 0, file, log, trace, fuel)
            == DumpFrom(p.(incoming := Served(pages[1..]) + rest,
                           sent := p.sent + Request(ChunkAddress(addr, i), PageSize)),
                        addr, size, i + 1, file + pages[0], log + Progress(i),
                        trace + [Attempt(i, 0, ChunkAddress(addr, i), Request(ChunkAddress(addr, i), PageSize), Some(pages[0]))], fuel - 1)
  {
    var p' := p.(incoming := Served(pages[1..]) + rest, sent := p.sent + Request(ChunkAddress(addr, i), PageSize));
    assert RetryFrom(p, addr, size, i, 0, file, log, trace, fuel) == TryChunk(p, addr, size, i, 0, file, log, trace, fuel - 1);
    assert TryChunk(p, addr, size, i, 0, file, log, trace, fuel - 1)
           == DumpNext((Ok(pages[0]), p'), Request(ChunkAddress(addr, i), PageSize), addr, size, i, 0, file, log, trace, fuel - 1) by {
      ServedHead(p, ChunkAddress(addr, i), pages, rest);
      ReadMemorySends(p, ChunkAddress(addr, i), PageSize);
      RequestUpToIsPrefix(ChunkAddress(addr, i), PageSize, 3);
    }
  }

  lemma ServedHead(p: Port, a: bv32, pages: seq<seq<byte>>, rest: seq<RxEvent>)
    requires p.isOpen && pages != [] && |pages[0]| == PageSize && p.incoming == Served(pages) + rest
    ensures ReadMemory(p, a, PageSize)
            == (Ok(pages[0]), p.(incoming := Served(pages[1..]) + rest, sent := p.sent + Request(a, PageSize)))
  {
    var head, tail := pages[0], Served(pages[1..]) + rest;
    assert p.incoming == Bytes(Response(head)) + tail by {
      Associative(Bytes(Response(head)), Served(pages[1..]), rest);
    }
    ReadMemoryServed(p, a, head, tail);
  }

  /**
   * A device that answers every request: the dump ends with the pages in
   * the file in order, one request per chunk at consecutive addresses, and a
   * dot after every tenth chunk.
   */
  lemma DumpServedDevice(p: Port, addr: bv32, size: uint32, pages: seq<seq<byte>>, rest: seq<RxEvent>, fuel: nat)
    requires p.isOpen && p.incoming == Served(pages) + rest
    requires |pages| == NumChunks(size) && fuel >= |pages|
    requires forall j :: 0 <= j < |pages| ==> |pages[j]| == PageSize
    ensures Dump(true, p, addr, size, fuel)
            == Ok(DumpRun(Dumped, |pages|, Flatten(pages),
                          p.(incoming := rest, sent := p.sent + Requests(addr, 0, |pages|)),
                          [Dumping(addr, addr + size as bv32)] + Dots(0, |pages|) + [DumpOk],
                          FirstTries(addr, 0, pages)))
  {
    var log := [Dumping(addr, addr + size as bv32)];
    var r := DumpFrom(p, addr, size, 0, [], log, [], fuel);
    assert r == DumpRun(Dumped, |pages|, [] + Flatten(pages),
                        p.(incoming := rest, sent := p.sent + Requests(addr, 0, |pages|)),
                        log + Dots(0, |pages|) + [DumpOk], [] + FirstTries(addr, 0, pages)) by {
      DumpFromServed(p, addr, size, pages, rest, 0, [], log, [], fuel);
    }
    assert [] + Flatten(pages) == Flatten(pages) && [] + FirstTries(addr, 0, pages) == FirstTries(addr, 0, pages);
  }

  /** Progress output is made of dots only. */
  lemma {:induction false} DotsAreDots(i: nat, n: nat)
    ensures forall k :: 0 <= k < |Dots(i, n)| ==> Dots(i, n)[k] == Dot
    decreases n
  {
    if n > 0 {
      DotsAreDots(i + 1, n - 1);
    }
  }

  /** Over `n` chunks from the `i`-th, one dot per multiple of ten other than zero. */
  lemma {:induction false} DotsCount(i: nat, n: nat)
    ensures |Dots(i, n)| == (i + n + RefreshRate - 1) / RefreshRate - (i + RefreshRate - 1) / RefreshRate
                              - (if i == 0 && n > 0 then 1 else 0)
    decreases n
  {
    if n > 0 {
      DotsCount(i + 1, n - 1);
      ProgressCount(i);
    }
  }

  lemma ProgressCount(i: nat)
    ensures |Progress(i)| == (i + RefreshRate) / RefreshRate - (i + RefreshRate - 1) / RefreshRate
                               - (if i == 0 then 1 else 0)
  {
    var q, r := i / RefreshRate, i % RefreshRate;
    assert i == q * RefreshRate + r;
    if r == 0 {
      assert (i + RefreshRate) / RefreshRate == q + 1 && (i + RefreshRate - 1) / RefreshRate == q;
    } else {
      assert (i + RefreshRate) / RefreshRate == q + 1 && (i + RefreshRate - 1) / RefreshRate == q + 1;
    }
  }

  // ---------------------------------------------------------------------
  // A device that never answers.

  function Repeat(s: seq<byte>, n: nat): seq<byte>
  {
    if n == 0 then [] else s + Repeat(s, n - 1)
  }

  function Warnings(addr: bv32, retry: nat, n: nat): seq<Message>
    decreases n
  {
    if n == 0 then [] else RetryWarning(addr, 0, retry) + Warnings(addr, retry + 1, n - 1)
  }

  lemma {:induction false} RetryFromSilent(p: Port, addr: bv32, size: uint32, retry: nat,
                                           log: seq<Message>, trace: seq<Attempt>, fuel: nat)
    requires !p.isOpen || p.incoming == []
    ensures var r := RetryFrom(p, addr, size, 0, retry, [], log, trace, fuel);
            r.status == OutOfFuel && r.chunks == 0 && r.file == [] &&
            r.port == p.(sent := p.sent + (if p.isOpen then Repeat(Encode([OpReadMemory]), fuel) else [])) &&
            r.log == log + Warnings(addr, retry, fuel)
    decreases fuel
  {
    if fuel > 0 {
      var p' := p.(sent := p.sent + (if p.isOpen then Encode([OpReadMemory]) else []));
      TryChunkSilent(p, addr, size, retry, log, trace, fuel - 1);
      RetryFromSilent(p', addr, size, retry + 1, log + RetryWarning(addr, 0, retry),
                     trace + [Attempt(0, retry, ChunkAddress(addr, 0), if p.isOpen then Encode([OpReadMemory]) else [], None)], fuel - 1);
      Associative(log, RetryWarning(addr, 0, retry), Warnings(addr, retry + 1, fuel - 1));
      var e := if p.isOpen then Encode([OpReadMemory]) else [];
      var more := if p.isOpen then Repeat(Encode([OpReadMemory]), fuel - 1) else [];
      assert e + more == (if p.isOpen then Repeat(Encode([OpReadMemory]), fuel) else []);
      Associative(p.sent, e, more);
    } else {
      assert p.sent + [] == p.sent;
    }
  }

  lemma TryChunkSilent(p: Port, addr: bv32, size: uint32, retry: nat,
                       log: seq<Message>, trace: seq<Attempt>, fuel: nat)
    requires !p.isOpen || p.incoming == []
    ensures TryChunk(p, addr, size, 0, retry, [], log, trace, fuel)
            == RetryFrom(p.(sent := p.sent + (if p.isOpen then Encode([OpReadMemory]) else [])),
                        addr, size, 0, retry + 1, [], log + RetryWarning(addr, 0, retry),
                        trace + [Attempt(0, retry, ChunkAddress(addr, 0), if p.isOpen then Encode([OpReadMemory]) else [], None)], fuel)
  {
    SendRequestStopsAtFirstRefusal(p, ChunkAddress(addr, 0), PageSize);
  }

  /**
   * The dump never gives up: on a closed port or with a device that never
   * answers it stays on the first chunk for every attempt it is allowed,
   * writes nothing, and warns only for the first NRETRY failures.
   */
  lemma DumpSilentDevice(p: Port, addr: bv32, size: uint32, fuel: nat)
    requires !p.isOpen || p.incoming == []
    requires size > 0
    ensures var r := Dump(true, p, addr, size, fuel).value;
            r.status == OutOfFuel && r.chunks == 0 && r.file == [] &&
            r.log == [Dumping(addr, addr + size as bv32)] + Warnings(addr, 0, fuel) &&
            |Warnings(addr, 0, fuel)| == 2 * Min(fuel, NRetry) &&
            r.port.sent == p.sent + (if p.isOpen then Repeat(Encode([OpReadMemory]), fuel) else [])
  {
    GuardIsChunkCount(0, size);
    RetryFromSilent(p, addr, size, 0, [Dumping(addr, addr + size as bv32)], [], fuel);
    WarningsCount(addr, 0, fuel);
  }

  lemma {:induction false} WarningsCount(addr: bv32, retry: nat, n: nat)
    requires retry <= NRetry
    ensures |Warnings(addr, retry, n)| == 2 * Min(n, NRetry - retry)
    decreases n
  {
    if n > 0 {
      if retry < NRetry {
        WarningsCount(addr, retry + 1, n - 1);
      } else {
        WarningsNone(addr, retry, n);
      }
    }
  }

  lemma {:induction false} WarningsNone(addr: bv32, retry: nat, n: nat)
    requires retry >= NRetry
    ensures Warnings(addr, retry, n) == []
    decreases n
  {
    if n > 0 {
      WarningsNone(addr, retry + 1, n - 1);
    }
  }
}
