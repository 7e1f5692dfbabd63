/**
 * The serial port as the flasher sees it (a QSerialPort): a flag telling
 * whether it is open, what the device will send from now on, and every byte
 * written so far. Baud rate, parity and the length of a wait are not modelled.
 */
module SerialPort {
  import opened Proto
  import opened Errors

  /**
   * What a wait on the line observes: a received byte, or a wait window that
   * closes with nothing received.
   */
  datatype RxEvent = Byte(value: byte) | Silence

  datatype Port = Port(isOpen: bool, incoming: seq<RxEvent>, sent: seq<byte>)

  function Min(a: int, b: int): int { if a <= b then a else b }

  /** The bytes that can be read before the next silence. */
  function Run(ev: seq<RxEvent>): (r: seq<byte>)
    ensures |r| <= |ev|
  {
    if ev == [] || ev[0].Silence? then [] else [ev[0].value] + Run(ev[1..])
  }

  /** The run is the longest prefix of received bytes: a silence or the end follows it. */
  lemma {:induction false} RunIsMaximal(ev: seq<RxEvent>)
    ensures forall k :: 0 <= k < |Run(ev)| ==> ev[k] == Byte(Run(ev)[k])
    ensures |Run(ev)| < |ev| ==> ev[|Run(ev)|] == Silence
  {
    if ev != [] && ev[0].Byte? {
      RunIsMaximal(ev[1..]);
    }
  }

  /** A device that sends `bs` back to back. */
  function Bytes(bs: seq<byte>): (ev: seq<RxEvent>)
    ensures |ev| == |bs|
    ensures forall k :: 0 <= k < |bs| ==> ev[k] == Byte(bs[k])
  {
    seq(|bs|, k requires 0 <= k < |bs| => Byte(bs[k]))
  }

  lemma {:induction false} RunOfBytes(bs: seq<byte>, rest: seq<RxEvent>)
    ensures Run(Bytes(bs) + rest) == bs + Run(rest)
  {
    if bs != [] {
      assert (Bytes(bs) + rest)[1..] == Bytes(bs[1..]) + rest;
      RunOfBytes(bs[1..], rest);
      assert bs == [bs[0]] + bs[1..];
    } else {
      assert Bytes(bs) + rest == rest;
    }
  }

  lemma BytesAppend(a: seq<byte>, b: seq<byte>)
    ensures Bytes(a + b) == Bytes(a) + Bytes(b)
  {
  }

  /** The events of a five-byte reply. */
  lemma BytesOfFive(a: byte, b: byte, c: byte, d: byte, e: byte)
    ensures Bytes([a, b, c, d, e]) == [Byte(a), Byte(b), Byte(c), Byte(d), Byte(e)]
  {
  }

  /** The first `n` events of a run are the first `n` bytes it delivers. */
  lemma RunPrefix(ev: seq<RxEvent>, n: nat)
    requires n <= |Run(ev)|
    ensures ev[..n] == Bytes(Run(ev)[..n])
  {
    RunIsMaximal(ev);
  }

  /** The byte a read would take now without waiting, if any. */
  function Ready(p: Port): Option<byte>
  {
    if p.isOpen && p.incoming != [] && p.incoming[0].Byte? then Some(p.incoming[0].value) else None
  }

  /** What is left of `ev` once a wait has closed on its first event: a silence is used up. */
  function AfterWait(ev: seq<RxEvent>): seq<RxEvent>
  {
    if ev == [] then [] else ev[1..]
  }

  /** Nothing is ready just after the bytes of a run. */
  lemma RunEnds(ev: seq<RxEvent>)
    ensures Run(ev[|Run(ev)|..]) == []
  {
    RunIsMaximal(ev);
  }

  /** `waitForReadyRead`: true when a byte is ready; a silence it waits through is gone. */
  function WaitForReadyRead(p: Port): (res: (bool, Port))
    ensures res.0 <==> p.isOpen && p.incoming != [] && p.incoming[0].Byte?
    ensures res.1.isOpen == p.isOpen && res.1.sent == p.sent
    ensures res.1.incoming == if p.isOpen && p.incoming != [] && p.incoming[0].Silence? then p.incoming[1..] else p.incoming
  {
    if !p.isOpen || p.incoming == [] then (false, p)
    else if p.incoming[0].Byte? then (true, p)
    else (false, p.(incoming := p.incoming[1..]))
  }

  /** `getChar`: takes one byte that is ready, without waiting. */
  function GetChar(p: Port): (res: Option<(byte, Port)>)
    ensures res.Some? <==> p.isOpen && p.incoming != [] && p.incoming[0].Byte?
    ensures res.Some? ==> res.value == (p.incoming[0].value, p.(incoming := p.incoming[1..]))
  {
    if p.isOpen && p.incoming != [] && p.incoming[0].Byte?
    then Some((p.incoming[0].value, p.(incoming := p.incoming[1..])))
    else None
  }

  /** `read(n)`: takes at most `n` of the bytes that are ready. */
  function Read(p: Port, n: nat): (res: (seq<byte>, Port))
    ensures p.isOpen ==> res.0 == Run(p.incoming)[..Min(n, |Run(p.incoming)|)]
    ensures |res.0| <= n && |res.0| <= |p.incoming|
    ensures res.1 == p.(incoming := p.incoming[|res.0|..])
    ensures !p.isOpen ==> res.0 == []
    decreases n
  {
    if n == 0 || !p.isOpen || p.incoming == [] || p.incoming[0].Silence? then ([], p)
    else
      var q := Read(p.(incoming := p.incoming[1..]), n - 1);
      assert p.incoming[1..][|q.0|..] == p.incoming[|q.0| + 1..];
      ([p.incoming[0].value] + q.0, q.1)
  }

  /**
   * `q` is `p` after reads only: what `q` has still to receive is what `p`
   * had, less some events at the head.
   */
  predicate LeftOf(p: Port, q: Port)
  {
    |q.incoming| <= |p.incoming| && q.incoming == p.incoming[|p.incoming| - |q.incoming|..]
  }

  lemma LeftOfTrans(p: Port, q: Port, r: Port)
    requires LeftOf(p, q) && LeftOf(q, r)
    ensures LeftOf(p, r)
  {
    var n, m := |p.incoming| - |q.incoming|, |q.incoming| - |r.incoming|;
    assert p.incoming[n..][m..] == p.incoming[n + m..];
  }

  /** `write` and `putChar`: a closed port drops what it is given. */
  function Write(p: Port, bs: seq<byte>): (p': Port)
    ensures p'.sent == if p.isOpen then p.sent + bs else p.sent
    ensures p'.isOpen == p.isOpen && p'.incoming == p.incoming
  {
    if p.isOpen then p.(sent := p.sent + bs) else p
  }

  function Close(p: Port): (p': Port)
    ensures !p'.isOpen && p'.incoming == p.incoming && p'.sent == p.sent
  {
    p.(isOpen := false)
  }
}
