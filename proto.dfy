/** Wire constants of the USART bootloader protocol (ST application note AN3155). */
module Proto {
  /** One byte on the serial line. */
  type byte = bv8

  /** An `unsigned int` of the host: sizes and counts. */
  type uint32 = x: int | 0 <= x < 0x1_0000_0000

  /** Sent by the host to let the bootloader detect the baud rate. */
  const StartFrame: byte := 0x7F
  const Ack: byte := 0x79
  const Nack: byte := 0x1F

  /** Command opcodes. */
  const OpGet: byte := 0x00
  const OpGetVersion: byte := 0x01
  const OpGetId: byte := 0x02
  /** Read Memory, section 3.4 of AN3155; the header that should define it does not. */
  const OpReadMemory: byte := 0x11
}
