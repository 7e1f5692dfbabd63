/**
 * The Read Memory command (`cmdReadMemory`): three frames, each of which must
 * be acknowledged before the next is sent, then the requested bytes.
 */
module MemoryRead {
  import opened Proto
  import opened Errors
  import opened SerialPort
  import opened Seqs
  import opened Frame
  import opened Transfer

  /** The three frames of a complete request: opcode, address, length byte. */
  function Request(addr: bv32, size: uint32): seq<byte>
  {
    Encode([OpReadMemory]) + Encode(AddressBytes(addr)) + Encode([LengthByte(size)])
  }

  /** The first `frames` frames of the request. */
  function RequestUpTo(addr: bv32, size: uint32, frames: nat): seq<byte>
  {
    if frames == 0 then []
    else if frames == 1 then Encode([OpReadMemory])
    else if frames == 2 then Encode([OpReadMemory]) + Encode(AddressBytes(addr))
    else Request(addr, size)
  }

  /** What a device that serves the request sends: an ACK per frame, then the data. */
  function Response(data: seq<byte>): seq<byte>
  {
    [Ack, Ack, Ack] + data
  }

  /** How many frames the host gets to send: one more than the ACKs received, at most three. */
  function FramesSent(ev: seq<RxEvent>): nat
  {
    if |ev| >= 1 && ev[0] == Byte(Ack) then
      if |ev| >= 2 && ev[1] == Byte(Ack) then 3 else 2
    else 1
  }

  /** The three frames of `cmdReadMemory`, each of which must be acknowledged. */
  function SendRequest(p: Port, addr: bv32, size: uint32): (res: (Result<()>, Port))
    ensures res.1.isOpen == p.isOpen
  {
    var r1 := TxReq(p, OpReadMemory);
    if r1.0.Err? then r1 else SendAddress(r1.1, addr, size)
  }

  /** The address frame and the length frame, once the opcode was acknowledged. */
  function SendAddress(p: Port, addr: bv32, size: uint32): (res: (Result<()>, Port))
    ensures res.1.isOpen == p.isOpen
  {
    var r2 := TxAddr(p, addr);
    if r2.0.Err? then r2 else Tx(r2.1, [LengthByte(size)])
  }

  /** The events of two and of three ACKs. */
  lemma AckEvents()
    ensures Bytes([Ack, Ack]) == [Byte(Ack), Byte(Ack)]
    ensures Bytes([Ack, Ack, Ack]) == [Byte(Ack), Byte(Ack), Byte(Ack)]
  {
  }

  /** With two ACKs waiting, the address and length frames go out and the ACKs are used up. */
  lemma SendAddressAcked(p: Port, addr: bv32, size: uint32)
    requires |p.incoming| >= 2 && p.incoming[..2] == Bytes([Ack, Ack]) && p.isOpen
    ensures SendAddress(p, addr, size) ==
            (Ok(()), p.(incoming := p.incoming[2..],
                        sent := p.sent + Encode(AddressBytes(addr)) + Encode([LengthByte(size)])))
  {
    var ev := p.incoming;
    var p2 := p.(incoming := ev[1..], sent := p.sent + Encode(AddressBytes(addr)));
    assert TxAddr(p, addr) == (Ok(()), p2) by {
      assert ev[0] == Byte(Ack);
      TxAcked(p, AddressBytes(addr));
    }
    assert Tx(p2, [LengthByte(size)]) == (Ok(()), p2.(incoming := ev[2..], sent := p2.sent + Encode([LengthByte(size)]))) by {
      assert ev[1] == Byte(Ack) && ev[1..][1..] == ev[2..];
      TxAcked(p2, [LengthByte(size)]);
    }
  }

  /** With three ACKs waiting, the whole request goes out and the ACKs are used up. */
  lemma SendRequestAcked(p: Port, addr: bv32, size: uint32)
    requires |p.incoming| >= 3 && p.incoming[..3] == Bytes([Ack, Ack, Ack]) && p.isOpen
    ensures SendRequest(p, addr, size) ==
            (Ok(()), p.(incoming := p.incoming[3..], sent := p.sent + Request(addr, size)))
  {
    var ev := p.incoming;
    var e1, e2, e3 := Encode([OpReadMemory]), Encode(AddressBytes(addr)), Encode([LengthByte(size)]);
    var p1 := p.(incoming := ev[1..], sent := p.sent + e1);
    assert ev[0] == Byte(Ack) && ev[1] == Byte(Ack) && ev[2] == Byte(Ack) by {
      AckEvents();
      assert ev[..3][0] == ev[0] && ev[..3][1] == ev[1] && ev[..3][2] == ev[2];
    }
    assert TxReq(p, OpReadMemory) == (Ok(()), p1) by {
      TxAcked(p, [OpReadMemory]);
    }
    assert SendAddress(p1, addr, size) == (Ok(()), p1.(incoming := ev[3..], sent := p1.sent + e2 + e3)) by {
      AckEvents();
      assert ev[1..][..2] == [ev[1], ev[2]] && ev[1..][2..] == ev[3..];
      SendAddressAcked(p1, addr, size);
    }
    assert p1.sent + e2 + e3 == p.sent + Request(addr, size) by {
      Associative(p.sent, e1, e2);
      Associative(p.sent, e1 + e2, e3);
    }
  }

  /** The request succeeds only when three ACKs were waiting. */
  lemma SendRequestOnlyWhenAcked(p: Port, addr: bv32, size: uint32)
    requires SendRequest(p, addr, size).0.Ok?
    ensures |p.incoming| >= 3 && p.incoming[..3] == Bytes([Ack, Ack, Ack]) && p.isOpen
  {
    var ev := p.incoming;
    var r1 := TxReq(p, OpReadMemory);
    assert Ready(p) == Some(Ack);
    var r2 := TxAddr(r1.1, addr);
    assert Ready(r1.1) == Some(Ack);
    assert r1.1.incoming == ev[1..];
    var r3 := Tx(r2.1, [LengthByte(size)]);
    assert Ready(r2.1) == Some(Ack);
    assert r2.1.incoming == ev[2..];
  }

  /**
   * Every frame waits for an ACK before the next is sent: on an open port
   * the host sends one frame more than the ACKs it received, up to three,
   * and on a closed port it sends nothing and times out.
   */
  lemma SendRequestStopsAtFirstRefusal(p: Port, addr: bv32, size: uint32)
    ensures var res := SendRequest(p, addr, size);
            if p.isOpen then res.1.sent == p.sent + RequestUpTo(addr, size, FramesSent(p.incoming))
            else res == (Err(Timeout), p)
  {
    var ev := p.incoming;
    var e1 := Encode([OpReadMemory]);
    var r1 := TxReq(p, OpReadMemory);
    assert r1.1.sent == p.sent + (if p.isOpen then e1 else []) && r1.0 == RxAck(p).0 by {
      TxReqFrame(p, OpReadMemory);
    }
    if !p.isOpen || Ready(p) != Some(Ack) {
      assert r1.0.Err?;
    } else {
      var p1 := p.(incoming := ev[1..], sent := p.sent + e1);
      assert r1.1 == p1 by {
        TxAcked(p, [OpReadMemory]);
      }
      var e2, e3 := Encode(AddressBytes(addr)), Encode([LengthByte(size)]);
      SendAddressStops(p1, addr, size);
      Associative(p.sent, e1, e2);
      if |ev| >= 2 && ev[1] == Byte(Ack) {
        assert Ready(p1) == Some(Ack);
        Associative(p.sent, e1 + e2, e3);
      } else {
        assert Ready(p1) != Some(Ack);
        assert p.sent + e1 + e2 + [] == p.sent + e1 + e2;
      }
    }
  }

  /** The address frame always goes out; the length frame only once it was acknowledged. */
  lemma SendAddressStops(p: Port, addr: bv32, size: uint32)
    requires p.isOpen
    ensures SendAddress(p, addr, size).1.sent
            == p.sent + Encode(AddressBytes(addr)) + (if Ready(p) == Some(Ack) then Encode([LengthByte(size)]) else [])
  {
    if Ready(p) == Some(Ack) {
      var p2 := p.(incoming := p.incoming[1..], sent := p.sent + Encode(AddressBytes(addr)));
      assert TxAddr(p, addr) == (Ok(()), p2) by {
        TxAcked(p, AddressBytes(addr));
      }
    } else {
      assert TxAddr(p, addr).0.Err?;
    }
  }

  /**
   * The frames sent so far are a prefix of the request: empty exactly when
   * none was sent, and the whole request once all three were.
   */
  lemma RequestUpToIsPrefix(addr: bv32, size: uint32, frames: nat)
    ensures RequestUpTo(addr, size, frames) <= Request(addr, size)
    ensures RequestUpTo(addr, size, frames) == [] <==> frames == 0
    ensures frames >= 3 ==> RequestUpTo(addr, size, frames) == Request(addr, size)
  {
    var e1, e2, e3 := Encode([OpReadMemory]), Encode(AddressBytes(addr)), Encode([LengthByte(size)]);
    assert Request(addr, size) == e1 + e2 + e3;
    if frames == 1 {
      assert Request(addr, size) == e1 + (e2 + e3);
    }
  }

  /**
   * The bytes `cmdReadMemory` writes on port `p`: one frame more than the
   * ACKs the device sends, at most three, and nothing on a closed port.
   */
  function RequestSent(p: Port, addr: bv32, size: uint32): seq<byte>
  {
    RequestUpTo(addr, size, if p.isOpen then FramesSent(p.incoming) else 0)
  }

  /** `cmdReadMemory(addr, size)`: the request, then exactly `size` bytes or a timeout. */
  function ReadMemory(p: Port, addr: bv32, size: uint32): (res: (Result<seq<byte>>, Port))
    ensures res.0.Ok? ==> |res.0.value| == size
    ensures res.1.isOpen == p.isOpen
  {
    var r := SendRequest(p, addr, size);
    if r.0.Err? then (Err(r.0.error), r.1) else ReadData(r.1, size)
  }

  /** The data phase of `cmdReadMemory`: `rx(size)`, and a short read is a timeout. */
  function ReadData(p: Port, size: uint32): (res: (Result<seq<byte>>, Port))
    ensures res.0.Ok? ==> |res.0.value| == size
    ensures res.1.isOpen == p.isOpen
  {
    var data := Rx(p, size);
    if data.0.Err? then (Err(data.0.error), data.1)
    else if |data.0.value| < size then (Err(Timeout), data.1)
    else (Ok(data.0.value), data.1)
  }

  /**
   * A device that acknowledges the three frames and sends `data` makes the
   * command return exactly `data`, after the host sent the full request.
   */
  lemma ReadMemoryServed(p: Port, addr: bv32, data: seq<byte>, rest: seq<RxEvent>)
    requires p.isOpen && 1 <= |data| < 0x1_0000_0000
    requires p.incoming == Bytes(Response(data)) + rest
    ensures ReadMemory(p, addr, |data|)
            == (Ok(data), p.(incoming := rest, sent := p.sent + Request(addr, |data|)))
  {
    var ev := p.incoming;
    var q3 := p.(incoming := Bytes(data) + rest, sent := p.sent + Request(addr, |data|));
    assert SendRequest(p, addr, |data|) == (Ok(()), q3) by {
      BytesAppend([Ack, Ack, Ack], data);
      assert ev[..3] == Bytes([Ack, Ack, Ack]) && ev[3..] == Bytes(data) + rest;
      SendRequestAcked(p, addr, |data|);
    }
    assert Rx(q3, |data|) == (Ok(data), q3.(incoming := rest)) by {
      RunOfBytes(data, rest);
      assert (Bytes(data) + rest)[|data|..] == rest;
    }
  }

  /** The command succeeds only on such a device: the ACKs and the data were what it received. */
  lemma ReadMemoryOnlyWhenServed(p: Port, addr: bv32, size: uint32)
    requires ReadMemory(p, addr, size).0.Ok?
    ensures var res := ReadMemory(p, addr, size);
            p.isOpen && |p.incoming| >= 3 + size &&
            p.incoming[..3 + size] == Bytes(Response(res.0.value)) &&
            res.1 == p.(incoming := p.incoming[3 + size..], sent := p.sent + Request(addr, size))
  {
    var res := ReadMemory(p, addr, size);
    var ev := p.incoming;
    var q := p.(incoming := ev[3..], sent := p.sent + Request(addr, size));
    assert ev[..3] == Bytes([Ack, Ack, Ack]) && res == Rx(q, size) by {
      ReadMemoryIsRx(p, addr, size);
    }
    RxFull(q, size);
    PrefixIsResponse(ev, res.0.value);
  }

  /** `cmdReadMemory` consumes what the device sent only from the head, in order. */
  lemma ReadMemoryLeftOf(p: Port, addr: bv32, size: uint32)
    ensures LeftOf(p, ReadMemory(p, addr, size).1)
  {
    var r := SendRequest(p, addr, size);
    SendRequestLeftOf(p, addr, size);
    if r.0.Ok? {
      RxLeftOf(r.1, size);
      LeftOfTrans(p, r.1, ReadData(r.1, size).1);
    }
  }

  lemma SendRequestLeftOf(p: Port, addr: bv32, size: uint32)
    ensures LeftOf(p, SendRequest(p, addr, size).1)
  {
    var r1 := TxReq(p, OpReadMemory);
    TxLeftOf(p, [OpReadMemory]);
    if r1.0.Ok? {
      SendAddressLeftOf(r1.1, addr, size);
      LeftOfTrans(p, r1.1, SendAddress(r1.1, addr, size).1);
    }
  }

  lemma SendAddressLeftOf(p: Port, addr: bv32, size: uint32)
    ensures LeftOf(p, SendAddress(p, addr, size).1)
  {
    var r2 := TxAddr(p, addr);
    TxLeftOf(p, AddressBytes(addr));
    if r2.0.Ok? {
      TxLeftOf(r2.1, [LengthByte(size)]);
      LeftOfTrans(p, r2.1, Tx(r2.1, [LengthByte(size)]).1);
    }
  }

  /**
   * A refused request: when the answer to frame `k` (the opcode, the address
   * or the length) is the first that is not an ACK, `cmdReadMemory` fails with
   * the error `rxAck` raises on that answer: a NACK, another byte, or a
   * timeout when the device fell silent.
   */
  lemma ReadMemoryRefused(p: Port, addr: bv32, size: uint32, k: nat)
    requires p.isOpen && k < 3 && k <= |p.incoming|
    requires forall j :: 0 <= j < k ==> p.incoming[j] == Byte(Ack)
    requires Ready(p.(incoming := p.incoming[k..])) != Some(Ack)
    ensures ReadMemory(p, addr, size).0 == Err(RxAck(p.(incoming := p.incoming[k..])).0.error)
  {
    var ev := p.incoming;
    var e1 := Encode([OpReadMemory]);
    if k == 0 {
      assert ev[0..] == ev;
      assert TxReq(p, OpReadMemory).0 == RxAck(p).0;
    } else {
      var p1 := p.(incoming := ev[1..], sent := p.sent + e1);
      assert TxReq(p, OpReadMemory) == (Ok(()), p1) by {
        TxAcked(p, [OpReadMemory]);
      }
      if k == 1 {
        assert TxAddr(p1, addr).0 == RxAck(p1).0;
        assert Ready(p1) == Ready(p.(incoming := ev[1..]));
      } else {
        var p2 := p1.(incoming := ev[2..], sent := p1.sent + Encode(AddressBytes(addr)));
        assert ev[1..][1..] == ev[2..];
        assert TxAddr(p1, addr) == (Ok(()), p2) by {
          TxAcked(p1, AddressBytes(addr));
        }
        assert Ready(p2) == Ready(p.(incoming := ev[2..]));
      }
    }
  }

  lemma PrefixIsResponse(ev: seq<RxEvent>, d: seq<byte>)
    requires |ev| >= 3 + |d| && ev[..3] == Bytes([Ack, Ack, Ack]) && ev[3..][..|d|] == Bytes(d)
    ensures ev[..3 + |d|] == Bytes(Response(d)) && ev[3..][|d|..] == ev[3 + |d|..]
  {
    BytesAppend([Ack, Ack, Ack], d);
    assert ev[..3 + |d|] == ev[..3] + ev[3..][..|d|];
  }

  lemma ReadMemoryIsRx(p: Port, addr: bv32, size: uint32)
    requires ReadMemory(p, addr, size).0.Ok?
    ensures p.isOpen && |p.incoming| >= 3 && p.incoming[..3] == Bytes([Ack, Ack, Ack])
    ensures ReadMemory(p, addr, size) == Rx(p.(incoming := p.incoming[3..], sent := p.sent + Request(addr, size)), size)
  {
    SendRequestOnlyWhenAcked(p, addr, size);
    SendRequestAcked(p, addr, size);
  }

  /** A read that returned all `size` bytes took exactly the first `size` events. */
  lemma RxFull(q: Port, size: uint32)
    requires Rx(q, size).0.Ok? && |Rx(q, size).0.value| == size
    ensures |q.incoming| >= size && q.incoming[..size] == Bytes(Rx(q, size).0.value)
    ensures Rx(q, size).1 == q.(incoming := q.incoming[size..])
  {
    var data := Rx(q, size);
    var run := Run(q.incoming);
    assert data.0.value == run[..Min(size, |run|)];
    RunPrefix(q.incoming, size);
  }

  /** After three ACKs, fewer than `size` ready bytes is a port timeout. */
  lemma ShortReadIsTimeout(p: Port, addr: bv32, size: uint32)
    requires p.isOpen && |p.incoming| >= 3 && p.incoming[..3] == Bytes([Ack, Ack, Ack])
    requires |Run(p.incoming[3..])| < size
    ensures ReadMemory(p, addr, size).0 == Err(Timeout)
  {
    var q := p.(incoming := p.incoming[3..], sent := p.sent + Request(addr, size));
    assert ReadMemory(p, addr, size) == ReadData(q, size) by {
      SendRequestAcked(p, addr, size);
    }
  }

  /**
   * What `cmdReadMemory` writes: the request frames up to the first one the
   * device refused (nothing on a closed port); the data phase writes nothing,
   * and a read that succeeds sent the whole request.
   */
  lemma ReadMemorySends(p: Port, addr: bv32, size: uint32)
    ensures var res := ReadMemory(p, addr, size);
            res.1.sent == p.sent + RequestSent(p, addr, size) &&
            (res.0.Ok? ==> p.isOpen && FramesSent(p.incoming) == 3)
  {
    var r := SendRequest(p, addr, size);
    SendRequestStopsAtFirstRefusal(p, addr, size);
    if !p.isOpen {
      assert p.sent + [] == p.sent;
    } else if r.0.Ok? {
      SendRequestOnlyWhenAcked(p, addr, size);
      AckEvents();
      assert p.incoming[..3][0] == p.incoming[0] && p.incoming[..3][1] == p.incoming[1];
    }
  }
}
