/**
  The constant tables of the dongle driver: the command opcodes and the
  RF data rates, each as a datatype with its wire byte and a decoder back
  from the byte.
 */
module Radio {
  import opened Wrappers

  /** One octet of a USB transfer. */
  type Byte = b: int | 0 <= b < 256

  /** The eleven commands the dongle firmware understands. */
  datatype Opcode =
    | TransmitPayload
    | EnterSnifferMode
    | EnterPromiscuousMode
    | EnterToneTestMode
    | TransmitAckPayload
    | SetChannel
    | GetChannel
    | EnableLnaPa
    | TransmitPayloadGeneric
    | EnterPromiscuousModeGeneric
    | ReceivePayload

  /** The wire value of each opcode. */
  function Code(op: Opcode): Byte
  {
    match op
    case TransmitPayload => 0x04
    case EnterSnifferMode => 0x05
    case EnterPromiscuousMode => 0x06
    case EnterToneTestMode => 0x07
    case TransmitAckPayload => 0x08
    case SetChannel => 0x09
    case GetChannel => 0x0A
    case EnableLnaPa => 0x0B
    case TransmitPayloadGeneric => 0x0C
    case EnterPromiscuousModeGeneric => 0x0D
    case ReceivePayload => 0x12
  }

  /** Reads an opcode back from the first byte of a frame; None for a byte no command uses. */
  function OpcodeOf(b: Byte): (r: Option<Opcode>)
    ensures r.Some? ==> Code(r.value) == b
  {
    if b == 0x04 then Some(TransmitPayload)
    else if b == 0x05 then Some(EnterSnifferMode)
    else if b == 0x06 then Some(EnterPromiscuousMode)
    else if b == 0x07 then Some(EnterToneTestMode)
    else if b == 0x08 then Some(TransmitAckPayload)
    else if b == 0x09 then Some(SetChannel)
    else if b == 0x0A then Some(GetChannel)
    else if b == 0x0B then Some(EnableLnaPa)
    else if b == 0x0C then Some(TransmitPayloadGeneric)
    else if b == 0x0D then Some(EnterPromiscuousModeGeneric)
    else if b == 0x12 then Some(ReceivePayload)
    else None
  }

  /** Decoding is exact: a byte names an opcode precisely when it is that opcode's code. */
  lemma OpcodeOfCode(op: Opcode, b: Byte)
    ensures OpcodeOf(b) == Some(op) <==> Code(op) == b
  {
    match op
    case TransmitPayload =>
    case EnterSnifferMode =>
    case EnterPromiscuousMode =>
    case EnterToneTestMode =>
    case TransmitAckPayload =>
    case SetChannel =>
    case GetChannel =>
    case EnableLnaPa =>
    case TransmitPayloadGeneric =>
    case EnterPromiscuousModeGeneric =>
    case ReceivePayload =>
  }

  /** The opcode constants are pairwise distinct. */
  lemma CodeInjective(a: Opcode, b: Opcode)
    ensures Code(a) == Code(b) <==> a == b
  {
    OpcodeOfCode(a, Code(b));
  }

  /** The RF data rates accepted by promiscuous mode. */
  datatype RfRate = Rate250K | Rate1M | Rate2M

  /** Promiscuous mode without CRC runs at 2 Mbit/s unless told otherwise. */
  const DEFAULT_RATE: RfRate := Rate2M

  /** The wire value of each rate. */
  function RateCode(rate: RfRate): (b: Byte)
    ensures b <= 2
  {
    match rate
    case Rate250K => 0
    case Rate1M => 1
    case Rate2M => 2
  }

  /** Reads a rate back from its wire byte; None for any byte above 2. */
  function RateOf(b: Byte): (r: Option<RfRate>)
    ensures r.Some? <==> b <= 2
    ensures r.Some? ==> RateCode(r.value) == b
  {
    if b == 0 then Some(Rate250K)
    else if b == 1 then Some(Rate1M)
    else if b == 2 then Some(Rate2M)
    else None
  }

  /** Every rate survives encoding and decoding. */
  lemma RateOfRateCode(rate: RfRate)
    ensures RateOf(RateCode(rate)) == Some(rate)
  {
  }
}
