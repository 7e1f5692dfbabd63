/**
 * The checksummed frame of the USART bootloader protocol and the byte layouts
 * the host puts inside frames: the big-endian address and the length byte.
 */
module Frame {
  import opened Proto

  /** XOR of all bytes: the reference definition the checksum is compared with. */
  function XorAll(s: seq<byte>): byte
  {
    if s == [] then 0 else s[0] ^ XorAll(s[1..])
  }

  lemma {:induction false} XorAllAppend(a: seq<byte>, b: seq<byte>)
    ensures XorAll(a + b) == XorAll(a) ^ XorAll(b)
  {
    if a == [] {
      assert a + b == b;
    } else {
      assert (a + b)[1..] == a[1..] + b;
      XorAllAppend(a[1..], b);
    }
  }

  /** The checksum loop of the sender: start from `seed`, XOR each byte in turn. */
  function XorFrom(seed: byte, s: seq<byte>): byte
    decreases s
  {
    if s == [] then seed else XorFrom(seed ^ s[0], s[1..])
  }

  lemma {:induction false} XorFromIsXorAll(seed: byte, s: seq<byte>)
    ensures XorFrom(seed, s) == seed ^ XorAll(s)
    decreases s
  {
    if s != [] {
      XorFromIsXorAll(seed ^ s[0], s[1..]);
    }
  }

  /**
   * The checksum byte that follows a payload: seeded with 0xFF for a payload
   * of at most one byte (the complement of a command opcode) and with 0x00
   * otherwise (the XOR of the data).
   */
  function Checksum(payload: seq<byte>): (c: byte)
    ensures |payload| == 0 ==> c == 0xFF
    ensures |payload| == 1 ==> c == 0xFF ^ payload[0]
  {
    var seed: byte := if |payload| > 1 then 0x00 else 0xFF;
    assert |payload| == 1 ==> XorFrom(seed, payload) == XorFrom(seed ^ payload[0], []);
    XorFrom(seed, payload)
  }

  /** A block of more than one byte is checked by the XOR of its bytes. */
  lemma ChecksumRule(payload: seq<byte>)
    ensures |payload| > 1 ==> Checksum(payload) == XorAll(payload)
  {
    XorFromIsXorAll(if |payload| > 1 then 0x00 else 0xFF, payload);
  }

  /** A payload followed by its checksum, as written to the line. */
  function Encode(payload: seq<byte>): (frame: seq<byte>)
    ensures |frame| == |payload| + 1 && frame[..|payload|] == payload
  {
    payload + [Checksum(payload)]
  }

  /**
   * The bootloader's test of a received frame (AN3155, section 2): a command
   * byte must be followed by its complement, and a multi-byte block must XOR
   * to zero together with its checksum.
   */
  predicate DeviceAccepts(frame: seq<byte>)
  {
    |frame| >= 2 &&
    if |frame| == 2 then frame[1] == 0xFF ^ frame[0] else XorAll(frame) == 0
  }

  /** The checksum the host computes is the only one the device accepts. */
  lemma ChecksumIsTheAcceptedOne(payload: seq<byte>, c: byte)
    requires |payload| >= 1
    ensures DeviceAccepts(payload + [c]) <==> c == Checksum(payload)
  {
    ChecksumRule(payload);
    if |payload| > 1 {
      XorAllAppend(payload, [c]);
    }
  }

  lemma EncodeIsAccepted(payload: seq<byte>)
    requires |payload| >= 1
    ensures DeviceAccepts(Encode(payload))
  {
    ChecksumIsTheAcceptedOne(payload, Checksum(payload));
  }

  /** The four bytes of an address, most significant first. */
  function AddressBytes(addr: bv32): (bs: seq<byte>)
    ensures |bs| == 4
  {
    [((addr >> 24) & 0xFF) as byte, ((addr >> 16) & 0xFF) as byte,
     ((addr >> 8) & 0xFF) as byte, (addr & 0xFF) as byte]
  }

  /** How the device reassembles an address from four big-endian bytes. */
  function AddressOf(bs: seq<byte>): bv32
    requires |bs| == 4
  {
    (bs[0] as bv32 << 24) | (bs[1] as bv32 << 16) | (bs[2] as bv32 << 8) | bs[3] as bv32
  }

  lemma AddressRoundTrip(addr: bv32)
    ensures AddressOf(AddressBytes(addr)) == addr
  {
  }

  lemma AddressBytesRoundTrip(bs: seq<byte>)
    requires |bs| == 4
    ensures AddressBytes(AddressOf(bs)) == bs
  {
  }

  /** The length byte of a read request: the low byte of `size - 1` in unsigned arithmetic. */
  function LengthByte(size: uint32): (n: byte)
    ensures size == 0 ==> n == 0xFF
  {
    if 1 <= size <= 256 then (size - 1) as byte else ((size + 255) % 256) as byte
  }

  /**
   * The device returns one byte more than the length byte says: for every
   * byte `n`, a request for `n + 1` bytes carries `n`.
   */
  lemma LengthByteCounts(n: byte)
    ensures LengthByte(n as int + 1) == n
  {
  }

  /** The product id from its two big-endian bytes: `(hi << 8) | lo` in 16 bits. */
  function ProductId(hi: byte, lo: byte): (pid: bv16)
    ensures (pid >> 8) as byte == hi && (pid & 0xFF) as byte == lo
  {
    (hi as bv16 << 8) | lo as bv16
  }
}
