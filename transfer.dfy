/**
 * The byte-level exchanges of the host (`rxChar`, `rxAck`, `rx`, `tx`,
 * `txReq`, `txAddr`, `txAck`) and the Read Memory command built on them, as
 * functions from the port before the call to the outcome and the port after.
 */
module Transfer {
  import opened Proto
  import opened Errors
  import opened SerialPort
  import opened Frame

  /** `rxChar`: wait for one byte and take it, or fail with a port timeout. */
  function RxChar(p: Port): (res: (Result<byte>, Port))
    ensures res.0.Ok? <==> Ready(p).Some?
    ensures res.0.Ok? ==> res.0.value == Ready(p).value && res.1 == p.(incoming := p.incoming[1..])
    ensures res.0.Err? ==> res.0.error == Timeout
    ensures res.0.Err? ==> res.1 == if p.isOpen then p.(incoming := AfterWait(p.incoming)) else p
  {
    var w := WaitForReadyRead(p);
    if w.0 then
      match GetChar(w.1)
      case Some(got) => (Ok(got.0), got.1)
      case None => (Err(Timeout), w.1)
    else (Err(Timeout), w.1)
  }

  /** A successful read took the first event, which was that byte. */
  lemma RxCharTakes(p: Port)
    requires RxChar(p).0.Ok?
    ensures p.incoming != [] && p.incoming[0] == Byte(RxChar(p).0.value)
    ensures RxChar(p).1 == p.(incoming := p.incoming[1..])
  {
  }

  /** A byte that is next on an open port is what a read returns, and only it is used up. */
  lemma RxCharGives(p: Port, b: byte)
    requires p.isOpen && p.incoming != [] && p.incoming[0] == Byte(b)
    ensures RxChar(p) == (Ok(b), p.(incoming := p.incoming[1..]))
  {
  }

  /** `rxAck`: one byte, which must be ACK; NACK and anything else are distinct errors. */
  function RxAck(p: Port): (res: (Result<()>, Port))
    ensures res.0.Ok? <==> Ready(p) == Some(Ack)
    ensures Ready(p) == Some(Nack) ==> res.0 == Err(Protocol(NackReceived))
    ensures Ready(p).Some? && Ready(p).value != Ack && Ready(p).value != Nack ==>
              res.0 == Err(Protocol(InvalidResponse))
    ensures Ready(p).None? ==> res.0 == Err(Timeout)
    ensures res.1 == RxChar(p).1
  {
    var c := RxChar(p);
    if c.0.Err? then (Err(c.0.error), c.1)
    else if c.0.value == Nack then (Err(Protocol(NackReceived)), c.1)
    else if c.0.value != Ack then (Err(Protocol(InvalidResponse)), c.1)
    else (Ok(()), c.1)
  }

  /**
   * `tx`: write the payload and its checksum, then require an ACK. The reply
   * is judged exactly as `rxAck` judges it.
   */
  function Tx(p: Port, buf: seq<byte>): (res: (Result<()>, Port))
    ensures res.1.sent == p.sent + (if p.isOpen then Encode(buf) else [])
    ensures res.0 == RxAck(p).0
    ensures res.1.incoming == RxAck(p).1.incoming && res.1.isOpen == p.isOpen
  {
    var crc := Checksum(buf);
    var p1 := Write(Write(p, buf), [crc]);
    assert Encode(buf) == buf + [crc];
    RxAck(p1)
  }

  /** An acknowledged frame: the frame is on the line and the ACK is used up. */
  lemma TxAcked(p: Port, buf: seq<byte>)
    requires Ready(p) == Some(Ack)
    ensures Tx(p, buf) == (Ok(()), p.(incoming := p.incoming[1..], sent := p.sent + Encode(buf)))
  {
  }

  /** A read takes at most the event at the head: a byte, or the silence waited through. */
  lemma RxCharLeftOf(p: Port)
    ensures LeftOf(p, RxChar(p).1)
  {
    assert p.incoming[0..] == p.incoming;
  }

  /** Sending a frame consumes only its answer. */
  lemma TxLeftOf(p: Port, buf: seq<byte>)
    ensures LeftOf(p, Tx(p, buf).1)
  {
    RxCharLeftOf(p);
  }

  /** `txReq`: a one-byte command frame. */
  function TxReq(p: Port, cmd: byte): (res: (Result<()>, Port))
  {
    Tx(p, [cmd])
  }

  /** The command frame is the opcode and its complement, and it is acknowledged like any frame. */
  lemma TxReqFrame(p: Port, cmd: byte)
    ensures TxReq(p, cmd).1.sent == p.sent + (if p.isOpen then [cmd, 0xFF ^ cmd] else [])
    ensures TxReq(p, cmd).0 == RxAck(p).0
  {
  }

  /** `txAddr`: a four-byte address frame. */
  function TxAddr(p: Port, addr: bv32): (res: (Result<()>, Port))
  {
    Tx(p, AddressBytes(addr))
  }

  /** The address goes most significant byte first, closed by the XOR of the four bytes. */
  lemma TxAddrFrame(p: Port, addr: bv32)
    ensures var a := AddressBytes(addr);
            TxAddr(p, addr).1.sent == p.sent + (if p.isOpen then a + [XorAll(a)] else [])
    ensures TxAddr(p, addr).0 == RxAck(p).0
  {
    ChecksumRule(AddressBytes(addr));
  }

  /** `txAck`: a bare ACK byte, with nothing awaited in return. */
  function TxAck(p: Port): (p': Port)
    ensures p'.sent == p.sent + (if p.isOpen then [Ack] else [])
    ensures p'.incoming == p.incoming && p'.isOpen == p.isOpen
  {
    Write(p, [Ack])
  }

  /** The loop of `rx`: while fewer than `maxSize` bytes are held and more are ready, read. */
  function RxLoop(p: Port, maxSize: nat, buf: seq<byte>): (res: (seq<byte>, Port))
    requires |buf| <= maxSize
    decreases maxSize - |buf|
  {
    if |buf| < maxSize then
      var w := WaitForReadyRead(p);
      if w.0 then
        var r := Read(w.1, maxSize - |buf|);
        assert |r.0| >= 1 by {
          assert Run(w.1.incoming) == [w.1.incoming[0].value] + Run(w.1.incoming[1..]);
        }
        RxLoop(r.1, maxSize, buf + r.0)
      else (buf, w.1)
    else (buf, p)
  }

  /**
   * The loop collects the run of bytes ready before the next silence, up to
   * the limit; it consumes that silence only when it stopped short.
   */
  lemma {:induction false} RxLoopReadsRun(p: Port, maxSize: nat, buf: seq<byte>)
    requires p.isOpen && |buf| <= maxSize
    ensures var k := Min(maxSize - |buf|, |Run(p.incoming)|);
            RxLoop(p, maxSize, buf) ==
              (buf + Run(p.incoming)[..k],
               p.(incoming := if k == maxSize - |buf| then p.incoming[k..] else AfterWait(p.incoming[k..])))
    decreases maxSize - |buf|
  {
    var run := Run(p.incoming);
    if |buf| < maxSize {
      var w := WaitForReadyRead(p);
      if w.0 {
        var r := Read(w.1, maxSize - |buf|);
        var j := |r.0|;
        assert run == [p.incoming[0].value] + Run(p.incoming[1..]);
        RxLoopReadsRun(r.1, maxSize, buf + r.0);
        if j < maxSize - |buf| {
          RunEnds(p.incoming);
          assert p.incoming[j..] == r.1.incoming;
        }
      } else {
        assert run == [];
        assert buf + run[..0] == buf;
        assert p.incoming[0..] == p.incoming;
      }
    } else {
      assert buf + run[..0] == buf;
      assert p.incoming[0..] == p.incoming;
    }
  }

  /**
   * What `rx(maxSize)` leaves unread: the rest of the run when it stopped at
   * the limit, and what follows the closing silence when it stopped short.
   */
  function RxRest(ev: seq<RxEvent>, maxSize: nat): seq<RxEvent>
  {
    var k := Min(maxSize, |Run(ev)|);
    if k == maxSize then ev[k..] else AfterWait(ev[k..])
  }

  lemma RxLoopFromStart(p: Port, maxSize: nat)
    ensures var r := RxLoop(p, maxSize, []);
            r.1.sent == p.sent && r.1.isOpen == p.isOpen &&
            (p.isOpen ==> r.0 == Run(p.incoming)[..Min(maxSize, |Run(p.incoming)|)]) &&
            (p.isOpen ==> r.1.incoming == RxRest(p.incoming, maxSize)) &&
            (!p.isOpen ==> r.1 == p) &&
            (r.0 != [] <==> maxSize > 0 && Ready(p).Some?)
  {
    if p.isOpen {
      RxLoopReadsRun(p, maxSize, []);
      if p.incoming != [] && p.incoming[0].Byte? {
        assert Run(p.incoming) == [p.incoming[0].value] + Run(p.incoming[1..]);
      }
    } else {
      assert RxLoop(p, maxSize, []).1 == p;
    }
  }

  /**
   * `rx(maxSize)`: between one and `maxSize` bytes, namely the bytes ready
   * before the next silence; a port timeout exactly when no byte was ready.
   */
  function Rx(p: Port, maxSize: uint32): (res: (Result<seq<byte>>, Port))
    ensures res.0.Ok? <==> maxSize > 0 && Ready(p).Some?
    ensures res.0.Ok? ==> 1 <= |res.0.value| <= maxSize
    ensures res.0.Ok? ==> res.0.value == Run(p.incoming)[..Min(maxSize, |Run(p.incoming)|)]
    ensures res.0.Err? ==> res.0.error == Timeout
    ensures res.1.sent == p.sent && res.1.isOpen == p.isOpen
    ensures p.isOpen ==> res.1.incoming == RxRest(p.incoming, maxSize)
    ensures !p.isOpen ==> res.1 == p
  {
    var r := RxLoop(p, maxSize, []);
    RxLoopFromStart(p, maxSize);
    if r.0 == [] then (Err(Timeout), r.1) else (Ok(r.0), r.1)
  }

  /** `rx` takes the bytes it returns and at most the silence after them. */
  lemma RxLeftOf(p: Port, maxSize: uint32)
    ensures LeftOf(p, Rx(p, maxSize).1)
  {
    var ev := p.incoming;
    if p.isOpen {
      var k := Min(maxSize as int, |Run(ev)|);
      assert k <= |ev| by {
        assert |Run(ev)| <= |ev|;
      }
      assert ev[k..] == ev[|ev| - |ev[k..]|..];
      if ev[k..] != [] {
        assert ev[k..][1..] == ev[k + 1..];
      }
    } else {
      assert ev[0..] == ev;
    }
  }
}
