/**
 * `open`: the port is (re)opened and the start frame 0x7F is sent up to
 * ACK_TIMEOUT_COUNT times until the device answers with ACK, or with NACK
 * when it has been synchronised before (AN3155, section 2).
 */
module Handshake {
  import opened Proto
  import opened Config
  import opened Errors
  import opened Messages
  import opened SerialPort

  datatype Greeting = DeviceAck | AlreadyAcked

  /** The byte values that end the handshake. */
  function GreetingOf(b: byte): Option<Greeting>
  {
    if b == Ack then Some(DeviceAck) else if b == Nack then Some(AlreadyAcked) else None
  }

  function GreetingMessage(g: Greeting): Message
  {
    if g == DeviceAck then DeviceAcked else AlreadyConnected
  }

  /** The inner `getChar` loop: ready bytes are taken until one of them is ACK or NACK. */
  function Drain(p: Port): (res: (Option<Greeting>, Port))
    ensures res.1.isOpen == p.isOpen && res.1.sent == p.sent
    decreases |p.incoming|
  {
    match GetChar(p)
    case None => (None, p)
    case Some((c, q)) => if GreetingOf(c).Some? then (GreetingOf(c), q) else Drain(q)
  }

  /** The `for` loop from attempt `i` on: each attempt sends one start frame and reads what is ready. */
  function Probe(p: Port, i: nat): (res: (Result<Greeting>, Port))
    requires i <= AckTimeoutCount
    ensures res.1.isOpen == p.isOpen
    ensures res.0.Err? ==> res.0.error == Timeout
    decreases AckTimeoutCount - i
  {
    if i == AckTimeoutCount then (Err(Timeout), p)
    else
      var w := WaitForReadyRead(Write(p, [StartFrame]));
      var d := if w.0 then Drain(w.1) else (None, w.1);
      if d.0.Some? then (Ok(d.0.value), d.1) else Probe(d.1, i + 1)
  }

  /**
   * `open`; `canOpen` is whether the system lets the port be opened. On
   * every failure the port is left closed.
   */
  function Open(p: Port, canOpen: bool): (res: (Result<()>, Port, seq<Message>))
    ensures !canOpen ==> res == (Err(PortFault(PortOpen)), Close(p), [])
    ensures res.0.Ok? <==> res.1.isOpen
    ensures canOpen && res.0.Err? ==> res.0.error == Timeout && res.2 == [EnterIspHint]
  {
    var c := Close(p);
    if !canOpen then (Err(PortFault(PortOpen)), c, [])
    else
      var r := Probe(c.(isOpen := true), 0);
      if r.0.Ok? then (Ok(()), r.1, [EnterIspHint, GreetingMessage(r.0.value)])
      else (Err(r.0.error), Close(r.1), [EnterIspHint])
  }

  // ---------------------------------------------------------------------
  // An independent account of the handshake in terms of what the device sends.

  /** `n` start frames. */
  function Starts(n: nat): (s: seq<byte>)
    ensures |s| == n && forall k :: 0 <= k < n ==> s[k] == StartFrame
  {
    seq(n, k => StartFrame)
  }

  predicate IsGreeting(e: RxEvent)
  {
    e.Byte? && GreetingOf(e.value).Some?
  }

  /** The answer carried by the first ACK or NACK the device sends, if any. */
  function FirstGreeting(ev: seq<RxEvent>): Option<Greeting>
  {
    if ev == [] then None
    else if IsGreeting(ev[0]) then GreetingOf(ev[0].value)
    else FirstGreeting(ev[1..])
  }

  /** What the device sends after its first ACK or NACK. */
  function AfterGreeting(ev: seq<RxEvent>): seq<RxEvent>
  {
    if ev == [] then []
    else if IsGreeting(ev[0]) then ev[1..]
    else AfterGreeting(ev[1..])
  }

  /**
   * The number of attempts up to and including the one that reads the
   * first ACK or NACK: one per silence the host waits through, one per
   * burst of other bytes it drains before such a silence, and the last.
   * `afterByte` says whether the events before `ev` end in such a burst.
   */
  function Rounds(ev: seq<RxEvent>, afterByte: bool): nat
  {
    if ev == [] then 0
    else if IsGreeting(ev[0]) then 1
    else if ev[0].Byte? then Rounds(ev[1..], true)
    else (if afterByte then 2 else 1) + Rounds(ev[1..], false)
  }

  /** The number of leading bytes that are neither ACK nor NACK. */
  function JunkLen(ev: seq<RxEvent>): (k: nat)
    ensures k <= |ev|
    ensures k < |ev| && ev[k].Byte? ==> IsGreeting(ev[k])
  {
    if ev != [] && ev[0].Byte? && !IsGreeting(ev[0]) then 1 + JunkLen(ev[1..]) else 0
  }

  lemma StartsAdd(a: nat, b: nat)
    ensures Starts(a) + Starts(b) == Starts(a + b)
  {
  }

  /** Draining skips the other bytes and stops after a greeting or where the burst ends. */
  lemma {:induction false} DrainSkipsJunk(p: Port)
    requires p.isOpen
    ensures var rest := p.incoming[JunkLen(p.incoming)..];
            Drain(p) == if rest != [] && rest[0].Byte?
                        then (GreetingOf(rest[0].value), p.(incoming := rest[1..]))
                        else (None, p.(incoming := rest))
    decreases |p.incoming|
  {
    var ev := p.incoming;
    if ev != [] && ev[0].Byte? && !IsGreeting(ev[0]) {
      DrainSkipsJunk(p.(incoming := ev[1..]));
      assert ev[1..][JunkLen(ev[1..])..] == ev[JunkLen(ev)..];
    } else {
      assert ev[0..] == ev;
    }
  }

  lemma {:induction false} JunkKeepsGreeting(ev: seq<RxEvent>, afterByte: bool)
    ensures var k := JunkLen(ev);
            FirstGreeting(ev) == FirstGreeting(ev[k..]) &&
            AfterGreeting(ev) == AfterGreeting(ev[k..]) &&
            Rounds(ev, afterByte) == Rounds(ev[k..], afterByte || k > 0)
    decreases |ev|
  {
    if ev != [] && ev[0].Byte? && !IsGreeting(ev[0]) {
      JunkKeepsGreeting(ev[1..], true);
      assert ev[1..][JunkLen(ev[1..])..] == ev[JunkLen(ev)..];
    } else {
      assert ev[0..] == ev;
    }
  }

  /** With nothing more to come every remaining attempt sends its start frame and fails. */
  lemma {:induction false} ProbeSilent(p: Port, i: nat)
    requires p.isOpen && p.incoming == [] && i <= AckTimeoutCount
    ensures Probe(p, i) == (Err(Timeout), p.(sent := p.sent + Starts(AckTimeoutCount - i)))
    decreases AckTimeoutCount - i
  {
    if i < AckTimeoutCount {
      var q := p.(sent := p.sent + [StartFrame]);
      assert Probe(p, i) == Probe(q, i + 1);
      ProbeSilent(q, i + 1);
      StartsAdd(1, AckTimeoutCount - i - 1);
      assert [StartFrame] == Starts(1);
      assert q.sent + Starts(AckTimeoutCount - i - 1) == p.sent + Starts(AckTimeoutCount - i);
    } else {
      assert p.sent + Starts(0) == p.sent;
    }
  }

  /**
   * The attempts from `i` on succeed exactly when the device sends ACK or
   * NACK within the attempts that remain: then one start frame has gone out
   * per attempt used and what followed the answer is left unread.
   * Otherwise every remaining attempt sends its start frame and the result
   * is a timeout.
   */
  lemma {:induction false} ProbeOutcome(p: Port, i: nat)
    requires p.isOpen && i <= AckTimeoutCount
    ensures var ev := p.incoming;
            var r := Probe(p, i);
            if FirstGreeting(ev).Some? && Rounds(ev, false) <= AckTimeoutCount - i
            then r == (Ok(FirstGreeting(ev).value),
                       p.(incoming := AfterGreeting(ev), sent := p.sent + Starts(Rounds(ev, false))))
            else r.0 == Err(Timeout) && r.1.isOpen && r.1.sent == p.sent + Starts(AckTimeoutCount - i)
    decreases AckTimeoutCount - i, 2
  {
    var ev := p.incoming;
    if i == AckTimeoutCount {
      if FirstGreeting(ev).Some? {
        GreetingNeedsARound(ev, false);
      }
      assert p.sent + Starts(0) == p.sent;
    } else if ev == [] {
      ProbeSilent(p, i);
    } else if ev[0].Silence? {
      var n := AckTimeoutCount - i;
      var q1 := p.(incoming := ev[1..], sent := p.sent + [StartFrame]);
      assert Probe(p, i) == Probe(q1, i + 1);
      ProbeOutcome(q1, i + 1);
      assert [StartFrame] == Starts(1);
      StartsAdd(1, n - 1);
      assert q1.sent + Starts(n - 1) == p.sent + Starts(n);
      if FirstGreeting(ev).Some? {
        StartsAdd(1, Rounds(ev[1..], false));
        assert q1.sent + Starts(Rounds(ev[1..], false)) == p.sent + Starts(Rounds(ev, false));
      }
    } else {
      ProbeOutcomeBurst(p, i);
    }
  }

  /** The case of `ProbeOutcome` where the first event is a byte: the burst it starts is drained. */
  lemma {:induction false} ProbeOutcomeBurst(p: Port, i: nat)
    requires p.isOpen && i < AckTimeoutCount && p.incoming != [] && p.incoming[0].Byte?
    ensures var ev := p.incoming;
            var r := Probe(p, i);
            if FirstGreeting(ev).Some? && Rounds(ev, false) <= AckTimeoutCount - i
            then r == (Ok(FirstGreeting(ev).value),
                       p.(incoming := AfterGreeting(ev), sent := p.sent + Starts(Rounds(ev, false))))
            else r.0 == Err(Timeout) && r.1.isOpen && r.1.sent == p.sent + Starts(AckTimeoutCount - i)
    decreases AckTimeoutCount - i, 1
  {
    var ev := p.incoming;
    var q := p.(sent := p.sent + [StartFrame]);
    var n := AckTimeoutCount - i;
    DrainSkipsJunk(q);
    JunkKeepsGreeting(ev, false);
    var k := JunkLen(ev);
    var rest := ev[k..];
    if rest != [] && rest[0].Byte? {
      assert IsGreeting(rest[0]);
      assert Probe(p, i) == (Ok(GreetingOf(rest[0].value).value), q.(incoming := rest[1..]));
      assert [StartFrame] == Starts(1);
    } else if rest == [] {
      assert Probe(p, i) == Probe(q.(incoming := rest), i + 1);
      ProbeSilent(q.(incoming := rest), i + 1);
      assert [StartFrame] == Starts(1);
      StartsAdd(1, n - 1);
      assert q.sent + Starts(n - 1) == p.sent + Starts(n);
    } else {
      ProbeOutcomeBurstThenSilence(p, i);
    }
  }

  /** A burst of bytes none of which is a greeting, then a silence: two attempts are used. */
  lemma {:induction false} ProbeOutcomeBurstThenSilence(p: Port, i: nat)
    requires p.isOpen && i < AckTimeoutCount && p.incoming != [] && p.incoming[0].Byte?
    requires JunkLen(p.incoming) < |p.incoming| && p.incoming[JunkLen(p.incoming)].Silence?
    ensures var ev := p.incoming;
            var r := Probe(p, i);
            if FirstGreeting(ev).Some? && Rounds(ev, false) <= AckTimeoutCount - i
            then r == (Ok(FirstGreeting(ev).value),
                       p.(incoming := AfterGreeting(ev), sent := p.sent + Starts(Rounds(ev, false))))
            else r.0 == Err(Timeout) && r.1.isOpen && r.1.sent == p.sent + Starts(AckTimeoutCount - i)
    decreases AckTimeoutCount - i, 0
  {
    var ev := p.incoming;
    var q := p.(sent := p.sent + [StartFrame]);
    var n := AckTimeoutCount - i;
    DrainSkipsJunk(q);
    JunkKeepsGreeting(ev, false);
    var k := JunkLen(ev);
    var rest := ev[k..];
    assert k > 0;
    assert FirstGreeting(rest) == FirstGreeting(rest[1..]);
    assert AfterGreeting(rest) == AfterGreeting(rest[1..]);
    assert Rounds(rest, true) == 2 + Rounds(rest[1..], false);
    if i + 1 == AckTimeoutCount {
      assert Probe(p, i) == (Err(Timeout), q.(incoming := rest));
      assert FirstGreeting(ev).Some? ==> Rounds(ev, false) > 1 by {
        if FirstGreeting(ev).Some? {
          GreetingNeedsARound(rest[1..], false);
        }
      }
      assert [StartFrame] == Starts(1);
    } else {
      var q2 := q.(incoming := rest[1..], sent := q.sent + [StartFrame]);
      assert Probe(p, i) == Probe(q2, i + 2);
      ProbeOutcome(q2, i + 2);
      assert q.sent + [StartFrame] == p.sent + Starts(2);
      StartsAdd(2, n - 2);
      assert q2.sent + Starts(n - 2) == p.sent + Starts(n);
      if FirstGreeting(ev).Some? {
        StartsAdd(2, Rounds(rest[1..], false));
        assert q2.sent + Starts(Rounds(rest[1..], false)) == p.sent + Starts(Rounds(ev, false));
      }
    }
  }

  lemma {:induction false} GreetingNeedsARound(ev: seq<RxEvent>, afterByte: bool)
    requires FirstGreeting(ev).Some?
    ensures Rounds(ev, afterByte) >= 1
    decreases |ev|
  {
    if !IsGreeting(ev[0]) {
      GreetingNeedsARound(ev[1..], ev[0].Byte?);
    }
  }

  /**
   * The whole of `open` once the port could be opened: the hint, then the
   * start frames and the greeting as above; on a timeout the port is closed.
   */
  lemma OpenOutcome(p: Port)
    ensures var ev := p.incoming;
            var r := Open(p, true);
            if FirstGreeting(ev).Some? && Rounds(ev, false) <= AckTimeoutCount
            then r == (Ok(()), p.(isOpen := true, incoming := AfterGreeting(ev), sent := p.sent + Starts(Rounds(ev, false))),
                       [EnterIspHint, GreetingMessage(FirstGreeting(ev).value)])
            else r.0 == Err(Timeout) && !r.1.isOpen && r.1.sent == p.sent + Starts(AckTimeoutCount) &&
                 r.2 == [EnterIspHint]
  {
    ProbeOutcome(p.(isOpen := true), 0);
  }

  /** A device that answers the first start frame at once is connected in one attempt. */
  lemma OpenAnsweredAtOnce(p: Port, b: byte, rest: seq<RxEvent>)
    requires b == Ack || b == Nack
    ensures Open(p.(incoming := [Byte(b)] + rest), true)
            == (Ok(()), p.(isOpen := true, incoming := rest, sent := p.sent + [StartFrame]),
                [EnterIspHint, if b == Ack then DeviceAcked else AlreadyConnected])
  {
    var ev := [Byte(b)] + rest;
    OpenOutcome(p.(incoming := ev));
    assert ev[1..] == rest;
  }
}
