/**
 * The identification commands (`cmdGet`, `cmdGetVersion`, `cmdGetID`): each
 * needs an open port, sends its opcode frame and decodes a reply of fixed
 * shape that ends with an ACK.
 */
module Commands {
  import opened Proto
  import opened Errors
  import opened SerialPort
  import opened Seqs
  import opened Frame
  import opened Transfer

  /** The loop of `cmdGet` that appends `n` received opcodes to the supported list. */
  function GetLoop(p: Port, n: nat, cmds: seq<byte>): (res: (Result<()>, Port, seq<byte>))
    ensures res.0.Ok? ==> |res.2| == |cmds| + n
    ensures res.1.isOpen == p.isOpen && res.1.sent == p.sent
    decreases n
  {
    if n == 0 then (Ok(()), p, cmds)
    else
      var c := RxChar(p);
      if c.0.Err? then (Err(c.0.error), c.1, cmds)
      else GetLoop(c.1, n - 1, cmds + [c.0.value])
  }

  /**
   * The loop keeps what it received: `n` ready bytes are appended in order;
   * if fewer are ready, those that were are appended and the loop times out.
   */
  lemma GetLoopReads(p: Port, n: nat, cmds: seq<byte>)
    requires p.isOpen
    ensures var run := Run(p.incoming);
            GetLoop(p, n, cmds) ==
              if n <= |run| then (Ok(()), p.(incoming := p.incoming[n..]), cmds + run[..n])
              else (Err(Timeout), p.(incoming := AfterWait(p.incoming[|run|..])), cmds + run)
  {
    if n <= |Run(p.incoming)| {
      GetLoopReadsAll(p, n, cmds);
    } else {
      GetLoopReadsShort(p, n, cmds);
    }
  }

  lemma {:induction false} GetLoopReadsAll(p: Port, n: nat, cmds: seq<byte>)
    requires p.isOpen && n <= |Run(p.incoming)|
    ensures GetLoop(p, n, cmds) == (Ok(()), p.(incoming := p.incoming[n..]), cmds + Run(p.incoming)[..n])
    decreases n
  {
    var run := Run(p.incoming);
    if n == 0 {
      assert cmds + run[..0] == cmds;
      assert p.incoming[0..] == p.incoming;
    } else {
      var c, q := p.incoming[0].value, p.(incoming := p.incoming[1..]);
      var run' := Run(q.incoming);
      assert run == [c] + run';
      assert GetLoop(p, n, cmds) == GetLoop(q, n - 1, cmds + [c]) by {
        RxCharGives(p, c);
      }
      GetLoopReadsAll(q, n - 1, cmds + [c]);
      assert q.incoming[n - 1..] == p.incoming[n..];
      assert cmds + [c] + run'[..n - 1] == cmds + run[..n] by {
        assert run[..n] == [c] + run'[..n - 1];
        Associative(cmds, [c], run'[..n - 1]);
      }
    }
  }

  lemma {:induction false} GetLoopReadsShort(p: Port, n: nat, cmds: seq<byte>)
    requires p.isOpen && n > |Run(p.incoming)|
    ensures var run := Run(p.incoming);
            GetLoop(p, n, cmds) == (Err(Timeout), p.(incoming := AfterWait(p.incoming[|run|..])), cmds + run)
    decreases n
  {
    var run := Run(p.incoming);
    if Ready(p).Some? {
      var c, q := p.incoming[0].value, p.(incoming := p.incoming[1..]);
      var run' := Run(q.incoming);
      assert GetLoop(p, n, cmds) == GetLoop(q, n - 1, cmds + [c]);
      assert run == [c] + run';
      GetLoopReadsShort(q, n - 1, cmds + [c]);
      assert q.incoming[|run| - 1..] == p.incoming[|run|..];
      assert cmds + [c] + run' == cmds + run by {
        Associative(cmds, [c], run');
      }
    } else {
      assert run == [];
      assert cmds + run == cmds;
      assert p.incoming[0..] == p.incoming;
    }
  }

  /** `cmdGet`: the bootloader version; the supported opcodes replace the stored list. */
  function Get(p: Port, supported: seq<byte>): (res: (Result<byte>, Port, seq<byte>))
    ensures !p.isOpen ==> res == (Err(NotActive), p, supported)
    ensures res.1.isOpen == p.isOpen
  {
    if !p.isOpen then (Err(NotActive), p, supported) else
    var r0 := TxReq(p, OpGet);
    if r0.0.Err? then (Err(r0.0.error), r0.1, supported) else
    GetReply(r0.1, supported)
  }

  /** The part of `cmdGet` after the request was acknowledged: count and version bytes. */
  function GetReply(p: Port, supported: seq<byte>): (res: (Result<byte>, Port, seq<byte>))
    ensures res.1.isOpen == p.isOpen
  {
    var len := RxChar(p);
    if len.0.Err? then (Err(len.0.error), len.1, supported) else
    var version := RxChar(len.1);
    if version.0.Err? then (Err(version.0.error), version.1, supported) else
    GetTail(version.1, len.0.value as nat, version.0.value)
  }

  /** The rest of `cmdGet`: `n` opcodes and the closing ACK; the list is replaced even on failure. */
  function GetTail(p: Port, n: nat, version: byte): (res: (Result<byte>, Port, seq<byte>))
    ensures res.1.isOpen == p.isOpen
  {
    var loop := GetLoop(p, n, []);
    if loop.0.Err? then (Err(loop.0.error), loop.1, loop.2) else
    var ack := RxAck(loop.1);
    if ack.0.Err? then (Err(ack.0.error), ack.1, loop.2) else
    (Ok(version), ack.1, loop.2)
  }

  /** The reply to Get (AN3155, section 3.1): ACK, count, version, the opcodes, ACK. */
  function GetResponse(count: byte, version: byte, cmds: seq<byte>): seq<byte>
  {
    [Ack, count, version] + cmds + [Ack]
  }

  lemma GetResponseEvents(count: byte, version: byte, cmds: seq<byte>)
    ensures Bytes(GetResponse(count, version, cmds))
            == [Byte(Ack)] + ([Byte(count), Byte(version)] + (Bytes(cmds) + [Byte(Ack)]))
  {
    var h := [Ack, count, version];
    var t := [Byte(count), Byte(version)];
    BytesAppend(h + cmds, [Ack]);
    BytesAppend(h, cmds);
    assert Bytes(h) == [Byte(Ack)] + t;
    Associative(Bytes(h), Bytes(cmds), [Byte(Ack)]);
    Associative([Byte(Ack)], t, Bytes(cmds) + [Byte(Ack)]);
  }

  lemma GetTailServed(p: Port, version: byte, cmds: seq<byte>, rest: seq<RxEvent>)
    requires p.isOpen && p.incoming == Bytes(cmds) + [Byte(Ack)] + rest
    ensures GetTail(p, |cmds|, version) == (Ok(version), p.(incoming := rest), cmds)
  {
    RunOfBytes(cmds, [Byte(Ack)] + rest);
    assert p.incoming == Bytes(cmds) + ([Byte(Ack)] + rest);
    GetLoopReads(p, |cmds|, []);
    var run := Run(p.incoming);
    assert [] + run[..|cmds|] == cmds;
    assert p.incoming[|cmds|..] == [Byte(Ack)] + rest;
    var loop := GetLoop(p, |cmds|, []);
    assert loop == (Ok(()), p.(incoming := [Byte(Ack)] + rest), cmds);
    assert Ready(loop.1) == Some(Ack);
    assert ([Byte(Ack)] + rest)[1..] == rest;
  }

  lemma GetReplyServed(p: Port, supported: seq<byte>, count: byte, version: byte, cmds: seq<byte>, rest: seq<RxEvent>)
    requires p.isOpen && count as int == |cmds|
    requires p.incoming == [Byte(count), Byte(version)] + (Bytes(cmds) + [Byte(Ack)] + rest)
    ensures GetReply(p, supported) == (Ok(version), p.(incoming := rest), cmds)
  {
    var q1 := p.(incoming := p.incoming[1..]);
    var q2 := p.(incoming := p.incoming[2..]);
    assert RxChar(p) == (Ok(count), q1);
    assert RxChar(q1) == (Ok(version), q2) by {
      assert q1.incoming[1..] == p.incoming[2..];
    }
    assert q2.incoming == Bytes(cmds) + [Byte(Ack)] + rest;
    GetTailServed(q2, version, cmds, rest);
  }

  /**
   * A well-formed reply, whose count byte gives the number of opcodes, is
   * decoded: the version is returned and the opcodes stored in order.
   */
  lemma GetServed(p: Port, supported: seq<byte>, count: byte, version: byte, cmds: seq<byte>, rest: seq<RxEvent>)
    requires p.isOpen && count as int == |cmds|
    ensures Get(p.(incoming := Bytes(GetResponse(count, version, cmds)) + rest), supported)
            == (Ok(version), p.(incoming := rest, sent := p.sent + Encode([OpGet])), cmds)
  {
    var ev := Bytes(GetResponse(count, version, cmds)) + rest;
    var t := Bytes(cmds) + [Byte(Ack)];
    var x := [Byte(count), Byte(version)] + t;
    assert ev == [Byte(Ack)] + (x + rest) by {
      GetResponseEvents(count, version, cmds);
      Associative([Byte(Ack)], x, rest);
    }
    assert ev[1..] == [Byte(count), Byte(version)] + (t + rest) by {
      assert ev[1..] == x + rest;
      Associative([Byte(count), Byte(version)], t, rest);
    }
    TxAcked(p.(incoming := ev), [OpGet]);
    GetReplyServed(p.(incoming := ev[1..], sent := p.sent + Encode([OpGet])), supported, count, version, cmds, rest);
  }

  lemma GetTailOnlyWhenServed(p: Port, n: nat, version: byte)
    requires p.isOpen && GetTail(p, n, version).0.Ok?
    ensures var res := GetTail(p, n, version);
            |res.2| == n && p.incoming == Bytes(res.2 + [Ack]) + res.1.incoming &&
            res.1 == p.(incoming := res.1.incoming) && res.0 == Ok(version)
  {
    var res := GetTail(p, n, version);
    var ev := p.incoming;
    var run := Run(ev);
    assert n <= |run| && GetLoop(p, n, []) == (Ok(()), p.(incoming := ev[n..]), run[..n]) by {
      GetLoopReads(p, n, []);
      assert [] + run[..n] == run[..n];
    }
    var q := p.(incoming := ev[n..]);
    assert res.2 == run[..n] && Ready(q) == Some(Ack);
    assert ev[n] == Byte(Ack) by {
      assert q.incoming[0] == ev[n];
    }
    assert res.1 == p.(incoming := ev[n + 1..]) by {
      assert ev[n..][1..] == ev[n + 1..];
    }
    RunThenAck(ev, n);
  }

  /** The first `n` bytes of a run, then an ACK, are the first `n + 1` events. */
  lemma RunThenAck(ev: seq<RxEvent>, n: nat)
    requires n <= |Run(ev)| && n < |ev| && ev[n] == Byte(Ack)
    ensures ev == Bytes(Run(ev)[..n] + [Ack]) + ev[n + 1..]
  {
    RunPrefix(ev, n);
    assert ev == ev[..n] + [ev[n]] + ev[n + 1..];
    BytesAppend(Run(ev)[..n], [Ack]);
  }

  lemma GetReplyOnlyWhenServed(p: Port, supported: seq<byte>)
    requires p.isOpen && GetReply(p, supported).0.Ok?
    ensures |p.incoming| >= 2 && p.incoming[0].Byte? && p.incoming[1].Byte? &&
            GetReply(p, supported)
              == GetTail(p.(incoming := p.incoming[2..]), p.incoming[0].value as nat, p.incoming[1].value)
  {
    assert p.incoming[1..][1..] == p.incoming[2..];
  }

  lemma GetIsReply(p: Port, supported: seq<byte>)
    requires Get(p, supported).0.Ok?
    ensures p.isOpen && |p.incoming| >= 1 &&
            Get(p, supported) == GetReply(p.(incoming := p.incoming[1..], sent := p.sent + Encode([OpGet])), supported)
  {
    assert Ready(p) == Some(Ack);
    TxAcked(p, [OpGet]);
  }

  /**
   * Get succeeds only on such a reply: what the device sent is the reply,
   * with the returned version and the stored opcodes, followed by what is
   * left unread.
   */
  lemma GetOnlyWhenServed(p: Port, supported: seq<byte>)
    requires Get(p, supported).0.Ok?
    ensures var res := Get(p, supported);
            p.isOpen && |p.incoming| >= 2 && p.incoming[1].Byte? &&
            var count := p.incoming[1].value;
            count as int == |res.2| &&
            p.incoming == Bytes(GetResponse(count, res.0.value, res.2)) + res.1.incoming &&
            res.1 == p.(incoming := res.1.incoming, sent := p.sent + Encode([OpGet]))
  {
    var res := Get(p, supported);
    var ev := p.incoming;
    var q1 := p.(incoming := ev[1..], sent := p.sent + Encode([OpGet]));
    assert p.isOpen && |ev| >= 1 && ev[0] == Byte(Ack) && res == GetReply(q1, supported) by {
      GetIsReply(p, supported);
    }
    assert |ev| >= 3 && ev[1].Byte? && ev[2].Byte? &&
           res == GetTail(q1.(incoming := ev[3..]), ev[1].value as nat, ev[2].value) by {
      GetReplyOnlyWhenServed(q1, supported);
      assert ev[1..][2..] == ev[3..];
    }
    var n := ev[1].value as nat;
    var q3 := q1.(incoming := ev[3..]);
    assert |res.2| == n && ev[3..] == Bytes(res.2 + [Ack]) + res.1.incoming &&
           res.1 == q3.(incoming := res.1.incoming) && res.0 == Ok(ev[2].value) by {
      GetTailOnlyWhenServed(q3, n, ev[2].value);
    }
    GetReplyLayout(ev, ev[1].value, res.0.value, res.2, res.1.incoming);
  }

  /**
   * A device that answers the Get request with anything but ACK: the command
   * fails with the error `rxAck` raises on that answer (a NACK, another byte
   * or a timeout), after sending the request, and the stored opcodes stay.
   */
  lemma GetRefused(p: Port, supported: seq<byte>)
    requires p.isOpen && Ready(p) != Some(Ack)
    ensures var res := Get(p, supported);
            res.0 == Err(RxAck(p).0.error) && res.1.sent == p.sent + Encode([OpGet]) && res.2 == supported
  {
    assert TxReq(p, OpGet).0.Err?;
  }

  /** The events of a reply to Get, given its parts as they were consumed. */
  lemma GetReplyLayout(ev: seq<RxEvent>, count: byte, version: byte, cmds: seq<byte>, rest: seq<RxEvent>)
    requires |ev| >= 3
    requires ev[0] == Byte(Ack) && ev[1] == Byte(count) && ev[2] == Byte(version)
    requires ev[3..] == Bytes(cmds + [Ack]) + rest
    ensures ev == Bytes(GetResponse(count, version, cmds)) + rest
  {
    GetResponseEvents(count, version, cmds);
    BytesAppend(cmds, [Ack]);
    assert ev == [ev[0]] + [ev[1], ev[2]] + ev[3..];
    Associative([ev[0]] + [ev[1], ev[2]], Bytes(cmds) + [Byte(Ack)], rest);
    Associative([ev[0]], [ev[1], ev[2]], Bytes(cmds) + [Byte(Ack)]);
  }

  /** `cmdGetVersion`: the version byte; the two option bytes that follow are discarded. */
  function GetVersion(p: Port): (res: (Result<byte>, Port))
    ensures !p.isOpen ==> res == (Err(NotActive), p)
    ensures res.1.isOpen == p.isOpen
  {
    if !p.isOpen then (Err(NotActive), p) else
    var r0 := TxReq(p, OpGetVersion);
    if r0.0.Err? then (Err(r0.0.error), r0.1) else
    var version := RxChar(r0.1);
    if version.0.Err? then (Err(version.0.error), version.1) else
    var option1 := RxChar(version.1);
    if option1.0.Err? then (Err(option1.0.error), option1.1) else
    var option2 := RxChar(option1.1);
    if option2.0.Err? then (Err(option2.0.error), option2.1) else
    var ack := RxAck(option2.1);
    if ack.0.Err? then (Err(ack.0.error), ack.1) else
    (Ok(version.0.value), ack.1)
  }

  /** The reply to Get Version (AN3155, section 3.2): ACK, version, two option bytes, ACK. */
  function GetVersionResponse(version: byte, option1: byte, option2: byte): seq<byte>
  {
    [Ack, version, option1, option2, Ack]
  }

  /** Whatever the option bytes, a well-formed reply yields its version byte. */
  lemma GetVersionServed(p: Port, version: byte, option1: byte, option2: byte, rest: seq<RxEvent>)
    requires p.isOpen
    ensures GetVersion(p.(incoming := Bytes(GetVersionResponse(version, option1, option2)) + rest))
            == (Ok(version), p.(incoming := rest, sent := p.sent + Encode([OpGetVersion])))
  {
    var ev := Bytes(GetVersionResponse(version, option1, option2)) + rest;
    var sent := p.sent + Encode([OpGetVersion]);
    var e1, e2, e3, e4 := ev[1..], ev[2..], ev[3..], ev[4..];
    assert ev == [Byte(Ack), Byte(version), Byte(option1), Byte(option2), Byte(Ack)] + rest by {
      BytesOfFive(Ack, version, option1, option2, Ack);
    }
    assert e1[1..] == e2 && e2[1..] == e3 && e3[1..] == e4 && e4[1..] == rest;
    TxAcked(p.(incoming := ev), [OpGetVersion]);
    RxCharGives(p.(incoming := e1, sent := sent), version);
    RxCharGives(p.(incoming := e2, sent := sent), option1);
    RxCharGives(p.(incoming := e3, sent := sent), option2);
    RxCharGives(p.(incoming := e4, sent := sent), Ack);
  }

  /** Get Version succeeds only on such a reply. */
  lemma GetVersionOnlyWhenServed(p: Port)
    requires GetVersion(p).0.Ok?
    ensures var res := GetVersion(p);
            p.isOpen && |p.incoming| >= 5 &&
            p.incoming[..5] == Bytes(GetVersionResponse(res.0.value, p.incoming[2].value, p.incoming[3].value)) &&
            res.1 == p.(incoming := p.incoming[5..], sent := p.sent + Encode([OpGetVersion]))
  {
    var ev := p.incoming;
    assert Ready(p) == Some(Ack);
    TxAcked(p, [OpGetVersion]);
    assert ev[1..][1..] == ev[2..] && ev[2..][1..] == ev[3..] && ev[3..][1..] == ev[4..];
    assert ev[4..][1..] == ev[5..];
  }

  /** A Get Version request answered with anything but ACK fails with `rxAck`'s error. */
  lemma GetVersionRefused(p: Port)
    requires p.isOpen && Ready(p) != Some(Ack)
    ensures var res := GetVersion(p);
            res.0 == Err(RxAck(p).0.error) && res.1.sent == p.sent + Encode([OpGetVersion])
  {
    assert TxReq(p, OpGetVersion).0.Err?;
  }

  /** `cmdGetID`: the length byte is skipped and the two id bytes combine big-endian. */
  function GetId(p: Port): (res: (Result<bv16>, Port))
    ensures !p.isOpen ==> res == (Err(NotActive), p)
    ensures res.1.isOpen == p.isOpen
  {
    if !p.isOpen then (Err(NotActive), p) else
    var r0 := TxReq(p, OpGetId);
    if r0.0.Err? then (Err(r0.0.error), r0.1) else
    var len := RxChar(r0.1);
    if len.0.Err? then (Err(len.0.error), len.1) else
    var hi := RxChar(len.1);
    if hi.0.Err? then (Err(hi.0.error), hi.1) else
    var lo := RxChar(hi.1);
    if lo.0.Err? then (Err(lo.0.error), lo.1) else
    var ack := RxAck(lo.1);
    if ack.0.Err? then (Err(ack.0.error), ack.1) else
    (Ok(ProductId(hi.0.value, lo.0.value)), ack.1)
  }

  /** The reply to Get ID (AN3155, section 3.3): ACK, length, two id bytes, ACK. */
  function GetIdResponse(len: byte, pid: bv16): seq<byte>
  {
    [Ack, len, (pid >> 8) as byte, (pid & 0xFF) as byte, Ack]
  }

  /** Whatever the length byte says, a well-formed reply yields the product id it carries. */
  lemma GetIdServed(p: Port, len: byte, pid: bv16, rest: seq<RxEvent>)
    requires p.isOpen
    ensures GetId(p.(incoming := Bytes(GetIdResponse(len, pid)) + rest))
            == (Ok(pid), p.(incoming := rest, sent := p.sent + Encode([OpGetId])))
  {
    var hi, lo := (pid >> 8) as byte, (pid & 0xFF) as byte;
    var ev := Bytes(GetIdResponse(len, pid)) + rest;
    var sent := p.sent + Encode([OpGetId]);
    var e1, e2, e3, e4 := ev[1..], ev[2..], ev[3..], ev[4..];
    assert ev == [Byte(Ack), Byte(len), Byte(hi), Byte(lo), Byte(Ack)] + rest by {
      BytesOfFive(Ack, len, hi, lo, Ack);
    }
    assert e1[1..] == e2 && e2[1..] == e3 && e3[1..] == e4 && e4[1..] == rest;
    TxAcked(p.(incoming := ev), [OpGetId]);
    RxCharGives(p.(incoming := e1, sent := sent), len);
    RxCharGives(p.(incoming := e2, sent := sent), hi);
    RxCharGives(p.(incoming := e3, sent := sent), lo);
    RxCharGives(p.(incoming := e4, sent := sent), Ack);
    assert ProductId(hi, lo) == pid;
  }

  /** Get ID succeeds only on such a reply. */
  lemma GetIdOnlyWhenServed(p: Port)
    requires GetId(p).0.Ok?
    ensures var res := GetId(p);
            p.isOpen && |p.incoming| >= 5 &&
            p.incoming[..5] == Bytes(GetIdResponse(p.incoming[1].value, res.0.value)) &&
            res.1 == p.(incoming := p.incoming[5..], sent := p.sent + Encode([OpGetId]))
  {
    var ev := p.incoming;
    GetIdSteps(p);
    BytesOfFive(Ack, ev[1].value, ev[2].value, ev[3].value, Ack);
    assert ev[..5] == [ev[0], ev[1], ev[2], ev[3], ev[4]];
  }

  /** A Get ID request answered with anything but ACK fails with `rxAck`'s error. */
  lemma GetIdRefused(p: Port)
    requires p.isOpen && Ready(p) != Some(Ack)
    ensures var res := GetId(p);
            res.0 == Err(RxAck(p).0.error) && res.1.sent == p.sent + Encode([OpGetId])
  {
    assert TxReq(p, OpGetId).0.Err?;
  }

  /** The events a successful Get ID consumed, one read at a time. */
  lemma GetIdSteps(p: Port)
    requires GetId(p).0.Ok?
    ensures var ev := p.incoming;
            p.isOpen && |ev| >= 5 && ev[0] == Byte(Ack) && ev[1].Byte? && ev[2].Byte? && ev[3].Byte? && ev[4] == Byte(Ack) &&
            GetId(p) == (Ok(ProductId(ev[2].value, ev[3].value)),
                         p.(incoming := ev[5..], sent := p.sent + Encode([OpGetId])))
  {
    var ev := p.incoming;
    var q := p.(incoming := ev[1..], sent := p.sent + Encode([OpGetId]));
    assert Ready(p) == Some(Ack);
    assert TxReq(p, OpGetId) == (Ok(()), q) by {
      TxAcked(p, [OpGetId]);
    }
    var len := RxChar(q);
    var hi := RxChar(len.1);
    var lo := RxChar(hi.1);
    assert len.0.Ok? && hi.0.Ok? && lo.0.Ok? && RxAck(lo.1).0.Ok?;
    RxCharTakes(q);
    RxCharTakes(len.1);
    RxCharTakes(hi.1);
    assert len.1.incoming == ev[2..] && hi.1.incoming == ev[3..] && lo.1.incoming == ev[4..] by {
      assert ev[1..][1..] == ev[2..] && ev[2..][1..] == ev[3..] && ev[3..][1..] == ev[4..];
    }
    assert RxAck(lo.1).1.incoming == ev[5..] by {
      assert ev[4..][1..] == ev[5..];
    }
  }
}
