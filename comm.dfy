/**
 * The link layer object `Comm`: it owns the serial port, the list of
 * commands the bootloader reported and the messages it has emitted. Each
 * method updates the port step by step, as the program does, and is proved
 * to end in the state that the matching function of the other modules
 * describes.
 */
module Comm {
  import opened Proto
  import opened Config
  import opened Errors
  import opened Messages
  import opened SerialPort
  import opened Seqs
  import opened Frame
  import Transfer
  import Handshake
  import Commands
  import MemoryRead
  import MemoryDump

  class Comm {
    /** The serial port (`com`). */
    var com: Port
    /** The opcodes reported by the last Get command. */
    var supportedCmds: seq<byte>
    /** Everything sent to the `hint`, `info` and `warning` signals, in order. */
    var log: seq<Message>

    /** A closed port, in front of a device that will send `device`. */
    constructor(device: seq<RxEvent>)
      ensures com == Port(false, device, []) && supportedCmds == [] && log == []
    {
      com := Port(false, device, []);
      supportedCmds := [];
      log := [];
    }

    /** `isActive`. */
    method IsActive() returns (active: bool)
      ensures active == com.isOpen
    {
      active := com.isOpen;
    }

    /** `close`. */
    method Close()
      modifies this
      ensures com == SerialPort.Close(old(com))
      ensures supportedCmds == old(supportedCmds) && log == old(log)
    {
      com := SerialPort.Close(com);
    }

    /** `rxChar`. */
    method RxChar() returns (r: Result<byte>)
      modifies this
      ensures (r, com) == Transfer.RxChar(old(com))
      ensures supportedCmds == old(supportedCmds) && log == old(log)
    {
      var w := WaitForReadyRead(com);
      com := w.1;
      if w.0 {
        var got := GetChar(com);
        if got.Some? {
          com := got.value.1;
          return Ok(got.value.0);
        }
      }
      r := Err(Timeout);
    }

    /** `rxAck`. */
    method RxAck() returns (r: Result<()>)
      modifies this
      ensures (r, com) == Transfer.RxAck(old(com))
      ensures supportedCmds == old(supportedCmds) && log == old(log)
    {
      var c := RxChar();
      if c.Err? {
        r := Err(c.error);
      } else if c.value == Nack {
        r := Err(Protocol(NackReceived));
      } else if c.value != Ack {
        r := Err(Protocol(InvalidResponse));
      } else {
        r := Ok(());
      }
    }

    /** `tx`: the checksum loop, the payload and its checksum on the line, then the ACK. */
    method Tx(buf: seq<byte>) returns (r: Result<()>)
      modifies this
      ensures (r, com) == Transfer.Tx(old(com), buf)
      ensures supportedCmds == old(supportedCmds) && log == old(log)
    {
      var seed: byte := if |buf| > 1 then 0x00 else 0xFF;
      var crc := seed;
      for k := 0 to |buf|
        invariant XorFrom(crc, buf[k..]) == XorFrom(seed, buf)
      {
        assert buf[k..][1..] == buf[k + 1..];
        crc := crc ^ buf[k];
      }
      assert buf[|buf|..] == [];
      com := Write(com, buf);
      com := Write(com, [crc]);
      r := RxAck();
    }

    /** `txAck`. */
    method TxAck()
      modifies this
      ensures com == Transfer.TxAck(old(com))
      ensures supportedCmds == old(supportedCmds) && log == old(log)
    {
      com := Write(com, [Ack]);
    }

    /** `txReq`. */
    method TxReq(cmd: byte) returns (r: Result<()>)
      modifies this
      ensures (r, com) == Transfer.TxReq(old(com), cmd)
      ensures supportedCmds == old(supportedCmds) && log == old(log)
    {
      r := Tx([cmd]);
    }

    /** `txAddr`. */
    method TxAddr(addr: bv32) returns (r: Result<()>)
      modifies this
      ensures (r, com) == Transfer.TxAddr(old(com), addr)
      ensures supportedCmds == old(supportedCmds) && log == old(log)
    {
      var buf := [((addr >> 24) & 0xFF) as byte, ((addr >> 16) & 0xFF) as byte,
                  ((addr >> 8) & 0xFF) as byte, (addr & 0xFF) as byte];
      r := Tx(buf);
    }

    /** `rx`: read while fewer than `maxSize` bytes are held and a wait finds more. */
    method Rx(maxSize: uint32) returns (r: Result<seq<byte>>)
      modifies this
      ensures (r, com) == Transfer.Rx(old(com), maxSize)
      ensures supportedCmds == old(supportedCmds) && log == old(log)
    {
      ghost var target := Transfer.RxLoop(com, maxSize, []);
      var buf: seq<byte> := [];
      while |buf| < maxSize
        invariant |buf| <= maxSize
        invariant Transfer.RxLoop(com, maxSize, buf) == target
        invariant supportedCmds == old(supportedCmds) && log == old(log)
        decreases maxSize - |buf|
      {
        var w := WaitForReadyRead(com);
        com := w.1;
        if !w.0 {
          break;
        }
        var got := Read(com, maxSize - |buf|);
        assert Run(com.incoming) == [com.incoming[0].value] + Run(com.incoming[1..]);
        com := got.1;
        buf := buf + got.0;
      }
      if buf == [] {
        r := Err(Timeout);
      } else {
        r := Ok(buf);
      }
    }

    /** The `getChar` loop of `open`: take the ready bytes until one of them is ACK or NACK. */
    method DrainToGreeting() returns (g: Option<Handshake.Greeting>)
      modifies this
      ensures (g, com) == Handshake.Drain(old(com))
      ensures supportedCmds == old(supportedCmds) && log == old(log)
    {
      while true
        invariant Handshake.Drain(com) == Handshake.Drain(old(com))
        invariant supportedCmds == old(supportedCmds) && log == old(log)
        decreases |com.incoming|
      {
        var got := GetChar(com);
        if got.None? {
          return None;
        }
        com := got.value.1;
        var c := got.value.0;
        if c == Ack {
          return Some(Handshake.DeviceAck);
        }
        if c == Nack {
          return Some(Handshake.AlreadyAcked);
        }
      }
    }

    /**
     * `open`; `canOpen` is whether the system lets the port be opened. Up to
     * ACK_TIMEOUT_COUNT start frames are sent; after each, the bytes that
     * are ready are drained until an ACK or a NACK is found.
     */
    method Open(canOpen: bool) returns (r: Result<()>)
      modifies this
      ensures var spec := Handshake.Open(old(com), canOpen);
              r == spec.0 && com == spec.1 && log == old(log) + spec.2
      ensures supportedCmds == old(supportedCmds)
    {
      com := SerialPort.Close(com);
      if !canOpen {
        return Err(PortFault(PortOpen));
      }
      com := com.(isOpen := true);
      log := log + [EnterIspHint];
      var g := SendStartFrames();
      if g.Ok? {
        log := log + [Handshake.GreetingMessage(g.value)];
        return Ok(());
      }
      com := SerialPort.Close(com);
      r := Err(Timeout);
    }

    /**
     * The loop of `open`: up to ACK_TIMEOUT_COUNT start frames, each followed
     * by a wait and, if bytes are ready, a drain up to an ACK or a NACK.
     */
    method SendStartFrames() returns (r: Result<Handshake.Greeting>)
      requires com.isOpen
      modifies this
      ensures (r, com) == Handshake.Probe(old(com), 0)
      ensures log == old(log) && supportedCmds == old(supportedCmds)
    {
      ghost var target := Handshake.Probe(com, 0);
      for i := 0 to AckTimeoutCount
        invariant com.isOpen && Handshake.Probe(com, i) == target
        invariant log == old(log) && supportedCmds == old(supportedCmds)
      {
        com := Write(com, [StartFrame]);
        var w := WaitForReadyRead(com);
        com := w.1;
        if w.0 {
          var g := DrainToGreeting();
          if g.Some? {
            return Ok(g.value);
          }
        }
      }
      r := Err(Timeout);
    }

    /** `cmdGet`: the version is returned and the reported opcodes replace `supportedCmds`. */
    method CmdGet() returns (r: Result<byte>)
      modifies this
      ensures (r, com, supportedCmds) == Commands.Get(old(com), old(supportedCmds))
      ensures log == old(log)
    {
      if !com.isOpen {
        return Err(NotActive);
      }
      var sent := TxReq(OpGet);
      if sent.Err? {
        return Err(sent.error);
      }
      var len := RxChar();
      if len.Err? {
        return Err(len.error);
      }
      var version := RxChar();
      if version.Err? {
        return Err(version.error);
      }
      r := ReadCommandList(len.value as nat, version.value);
    }

    /** The rest of `cmdGet`: the `n` supported opcodes, one `rxChar` each, then the closing ACK. */
    method ReadCommandList(n: nat, version: byte) returns (r: Result<byte>)
      modifies this
      ensures (r, com, supportedCmds) == Commands.GetTail(old(com), n, version)
      ensures log == old(log)
    {
      ghost var target := Commands.GetLoop(com, n, []);
      supportedCmds := [];
      for i := 0 to n
        invariant Commands.GetLoop(com, n - i, supportedCmds) == target
        invariant log == old(log)
      {
        var c := RxChar();
        if c.Err? {
          return Err(c.error);
        }
        supportedCmds := supportedCmds + [c.value];
      }
      var ack := RxAck();
      if ack.Err? {
        return Err(ack.error);
      }
      r := Ok(version);
    }

    /** `cmdGetVersion`: the version byte; the two option bytes are read and dropped. */
    method CmdGetVersion() returns (r: Result<byte>)
      modifies this
      ensures (r, com) == Commands.GetVersion(old(com))
      ensures supportedCmds == old(supportedCmds) && log == old(log)
    {
      if !com.isOpen {
        return Err(NotActive);
      }
      var sent := TxReq(OpGetVersion);
      if sent.Err? {
        return Err(sent.error);
      }
      var version := RxChar();
      if version.Err? {
        return Err(version.error);
      }
      var option := RxChar();
      if option.Err? {
        return Err(option.error);
      }
      option := RxChar();
      if option.Err? {
        return Err(option.error);
      }
      var ack := RxAck();
      if ack.Err? {
        return Err(ack.error);
      }
      r := Ok(version.value);
    }

    /** `cmdGetID`: the length byte is dropped and the two id bytes make the product id. */
    method CmdGetId() returns (r: Result<bv16>)
      modifies this
      ensures (r, com) == Commands.GetId(old(com))
      ensures supportedCmds == old(supportedCmds) && log == old(log)
    {
      if !com.isOpen {
        return Err(NotActive);
      }
      var sent := TxReq(OpGetId);
      if sent.Err? {
        return Err(sent.error);
      }
      var len := RxChar();
      if len.Err? {
        return Err(len.error);
      }
      var hi := RxChar();
      if hi.Err? {
        return Err(hi.error);
      }
      var pid: bv16 := (hi.value as bv16) << 8;
      var lo := RxChar();
      if lo.Err? {
        return Err(lo.error);
      }
      pid := pid | lo.value as bv16;
      var ack := RxAck();
      if ack.Err? {
        return Err(ack.error);
      }
      r := Ok(pid);
    }

    /** `cmdReadMemory`: the three frames, then exactly `size` bytes or a port timeout. */
    method CmdReadMemory(addr: bv32, size: uint32) returns (r: Result<seq<byte>>)
      modifies this
      ensures (r, com) == MemoryRead.ReadMemory(old(com), addr, size)
      ensures supportedCmds == old(supportedCmds) && log == old(log)
    {
      var sent := TxReq(OpReadMemory);
      if sent.Err? {
        return Err(sent.error);
      }
      sent := TxAddr(addr);
      if sent.Err? {
        return Err(sent.error);
      }
      sent := Tx([LengthByte(size)]);
      if sent.Err? {
        return Err(sent.error);
      }
      var buf := Rx(size);
      if buf.Err? {
        return Err(buf.error);
      }
      if |buf.value| < size {
        return Err(Timeout);
      }
      r := Ok(buf.value);
    }

    /**
     * One pass of the retry loop of `dump`: `cmdReadMemory` on chunk `i`,
     * then, if it failed, the warning for the first NRETRY failures.
     * `msgs` and `trace` are what the dump has logged and attempted so far,
     * `log` holds `base + msgs`, and `fuel` attempts are left, this one included.
     */
    method ReadAttempt(addr: bv32, size: uint32, i: nat, retry: nat, ghost file: seq<byte>,
                       ghost base: seq<Message>, ghost msgs: seq<Message>, ghost trace: seq<MemoryDump.Attempt>,
                       ghost fuel: nat)
      returns (data: Result<seq<byte>>, ghost msgs': seq<Message>, ghost trace': seq<MemoryDump.Attempt>)
      requires log == base + msgs && fuel > 0
      modifies this
      ensures MemoryDump.RetryFrom(old(com), addr, size, i, retry, file, msgs, trace, fuel)
              == if data.Ok? then MemoryDump.DumpFrom(com, addr, size, i + 1, file + data.value,
                                                     msgs' + MemoryDump.Progress(i), trace', fuel - 1)
                 else MemoryDump.RetryFrom(com, addr, size, i, retry + 1, file, msgs', trace', fuel - 1)
      ensures log == base + msgs' && supportedCmds == old(supportedCmds)
    {
      data := CmdReadMemory(MemoryDump.ChunkAddress(addr, i), PageSize);
      ghost var wire := MemoryRead.RequestSent(old(com), MemoryDump.ChunkAddress(addr, i), PageSize);
      assert MemoryDump.RetryFrom(old(com), addr, size, i, retry, file, msgs, trace, fuel)
             == MemoryDump.DumpNext((data, com), wire, addr, size, i, retry, file, msgs, trace, fuel - 1);
      if data.Ok? {
        msgs', trace' := msgs, trace + [MemoryDump.Attempt(i, retry, MemoryDump.ChunkAddress(addr, i), wire, Some(data.value))];
        return;
      }
      if retry < NRetry {
        log := log + [NewLine, Retrain(MemoryDump.ChunkAddress(addr, i))];
      }
      Associative(base, msgs, MemoryDump.RetryWarning(addr, i, retry));
      msgs' := msgs + MemoryDump.RetryWarning(addr, i, retry);
      trace' := trace + [MemoryDump.Attempt(i, retry, MemoryDump.ChunkAddress(addr, i), wire, None)];
    }

    /**
     * The retry loop of `dump` on chunk `i`: `cmdReadMemory` until it reads
     * the chunk, with a warning for each of the first NRETRY failures, or
     * until `fuel` attempts are spent. `msgs` and `trace` are what the dump
     * has logged and attempted so far; `log` holds `base + msgs`.
     */
    method RetryRead(addr: bv32, size: uint32, i: nat, fuel: nat, ghost file: seq<byte>,
                     ghost base: seq<Message>, ghost msgs: seq<Message>, ghost trace: seq<MemoryDump.Attempt>)
      returns (chunk: Option<seq<byte>>, fuelLeft: nat,
               ghost msgs': seq<Message>, ghost trace': seq<MemoryDump.Attempt>)
      requires log == base + msgs
      modifies this
      ensures MemoryDump.RetryFrom(old(com), addr, size, i, 0, file, msgs, trace, fuel) ==
              if chunk.Some? then MemoryDump.DumpFrom(com, addr, size, i + 1, file + chunk.value,
                                                      msgs' + MemoryDump.Progress(i), trace', fuelLeft)
              else MemoryDump.DumpRun(MemoryDump.OutOfFuel, i, file, com, msgs', trace')
      ensures chunk.Some? ==> fuelLeft < fuel
      ensures log == base + msgs' && supportedCmds == old(supportedCmds)
    {
      ghost var target := MemoryDump.RetryFrom(com, addr, size, i, 0, file, msgs, trace, fuel);
      msgs', trace' := msgs, trace;
      fuelLeft := fuel;
      var retry: nat := 0;
      while true
        invariant log == base + msgs' && supportedCmds == old(supportedCmds)
        invariant MemoryDump.RetryFrom(com, addr, size, i, retry, file, msgs', trace', fuelLeft) == target
        invariant fuelLeft + retry == fuel
        decreases fuelLeft
      {
        if fuelLeft == 0 {
          return None, fuelLeft, msgs', trace';
        }
        var data;
        data, msgs', trace' := ReadAttempt(addr, size, i, retry, file, base, msgs', trace', fuelLeft);
        fuelLeft := fuelLeft - 1;
        if data.Ok? {
          return Some(data.value), fuelLeft, msgs', trace';
        }
        retry := retry + 1;
      }
    }

    /**
     * `dump`: the range is read chunk after chunk, each chunk retried until
     * it is read, and the chunks are returned in `written`, the bytes the
     * program writes to the file. `fileOk` is whether the file could be
     * opened; `fuel` bounds the number of read attempts.
     */
    method Dump(fileOk: bool, addr: bv32, size: uint32, fuel: nat)
      returns (r: Result<MemoryDump.Status>, written: seq<byte>)
      modifies this
      ensures var spec := MemoryDump.Dump(fileOk, old(com), addr, size, fuel);
              if spec.Err? then r == Err(spec.error) && written == [] && com == old(com) && log == old(log)
              else r == Ok(spec.value.status) && written == spec.value.file && com == spec.value.port &&
                   log == old(log) + spec.value.log
      ensures supportedCmds == old(supportedCmds)
    {
      written := [];
      if !fileOk {
        return Err(File(FileOpen)), written;
      }
      ghost var msgs := [Dumping(addr, addr + size as bv32)];
      ghost var trace: seq<MemoryDump.Attempt> := [];
      ghost var target := MemoryDump.DumpFrom(com, addr, size, 0, written, msgs, trace, fuel);
      assert MemoryDump.Dump(fileOk, old(com), addr, size, fuel) == Ok(target);
      log := log + [Dumping(addr, addr + size as bv32)];
      var fuelLeft: nat := fuel;
      var i: nat := 0;
      while i * PageSize < size
        invariant log == old(log) + msgs && supportedCmds == old(supportedCmds)
        invariant MemoryDump.DumpFrom(com, addr, size, i, written, msgs, trace, fuelLeft) == target
        decreases fuelLeft
      {
        var chunk;
        chunk, fuelLeft, msgs, trace := RetryRead(addr, size, i, fuelLeft, written, old(log), msgs, trace);
        if chunk.None? {
          return Ok(MemoryDump.OutOfFuel), written;
        }
        written := written + chunk.value;
        if i != 0 && i % RefreshRate == 0 {
          log := log + [Dot];
        }
        Associative(old(log), msgs, MemoryDump.Progress(i));
        msgs := msgs + MemoryDump.Progress(i);
        i := i + 1;
      }
      log := log + [DumpOk];
      r := Ok(MemoryDump.Dumped);
    }
  }
}
