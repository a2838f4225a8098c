/**
  The command-frame encoders of the nrf24 dongle driver. Each public
  command of the driver writes one outbound USB transfer, the frame
  `[opcode] ++ body`; here each command is the pure function from its
  arguments to that frame. The USB write and the 64-byte reply read
  that follow each command are not part of this model.
 */
module Nrf24 {
  import opened Wrappers
  import opened Radio

  /** The highest RF channel the driver lets through. */
  const MAX_CHANNEL: Byte := 125

  /** Default address prefix of pseudo-promiscuous mode: none. */
  const DEFAULT_PREFIX: seq<Byte> := []

  /** Default destination of a generic transmit: five bytes of 0x33. */
  const DEFAULT_ADDRESS: seq<Byte> := [0x33, 0x33, 0x33, 0x33, 0x33]

  /** Default ESB retry delay and retransmit count of a transmit. */
  const DEFAULT_TIMEOUT: Byte := 4
  const DEFAULT_RETRANSMITS: Byte := 15

  /** A field whose length fits the one-byte length prefix the firmware expects. */
  predicate Fits(x: seq<Byte>)
  {
    |x| < 256
  }

  /** The outbound frame of every command: the opcode byte, then the body unchanged. */
  function SendUsbCommand(request: Opcode, data: seq<Byte>): (frame: seq<Byte>)
    ensures |frame| == |data| + 1
    ensures frame[0] == Code(request) && frame[1..] == data
  {
    [Code(request)] + data
  }

  /** A field preceded by its own length. */
  function LengthPrefixed(x: seq<Byte>): (body: seq<Byte>)
    requires Fits(x)
    ensures |body| == |x| + 1
    ensures body[0] == |body| - 1 && body[1..] == x
  {
    [|x|] + x
  }

  /** Pseudo-promiscuous mode, listening for addresses starting with `prefix`. */
  function EnterPromiscuousMode(prefix: seq<Byte>): (frame: seq<Byte>)
    requires Fits(prefix)
    ensures |frame| == |prefix| + 2 && frame[1] == |frame| - 2 && frame[2..] == prefix
    ensures frame[0] == Code(Opcode.EnterPromiscuousMode)
  {
    SendUsbCommand(Opcode.EnterPromiscuousMode, LengthPrefixed(prefix))
  }

  /** Pseudo-promiscuous mode without CRC checking, at the given data rate. */
  function EnterPromiscuousModeGeneric(prefix: seq<Byte>, rate: RfRate): (frame: seq<Byte>)
    requires Fits(prefix)
    ensures |frame| == |prefix| + 3 && frame[1] == |frame| - 3 && frame[3..] == prefix
    ensures frame[0] == Code(Opcode.EnterPromiscuousModeGeneric)
    ensures RateOf(frame[2]) == Some(rate)
  {
    SendUsbCommand(Opcode.EnterPromiscuousModeGeneric, [|prefix|, RateCode(rate)] + prefix)
  }

  /** ESB sniffer mode (ESB without auto-acknowledgement) on one address. */
  function EnterSnifferMode(address: seq<Byte>): (frame: seq<Byte>)
    requires Fits(address)
    ensures |frame| == |address| + 2 && frame[1] == |frame| - 2 && frame[2..] == address
    ensures frame[0] == Code(Opcode.EnterSnifferMode)
  {
    SendUsbCommand(Opcode.EnterSnifferMode, LengthPrefixed(address))
  }

  /** Continuous-tone transmit test mode; the frame has no body. */
  function EnterToneTestMode(): (frame: seq<Byte>)
    ensures frame == [Code(Opcode.EnterToneTestMode)]
  {
    SendUsbCommand(Opcode.EnterToneTestMode, [])
  }

  /** Polls for a received payload; the frame has no body. */
  function ReceivePayload(): (frame: seq<Byte>)
    ensures frame == [Code(Opcode.ReceivePayload)]
  {
    SendUsbCommand(Opcode.ReceivePayload, [])
  }

  /**
    Generic (non-ESB) transmit of `payload` to `address`: both lengths,
    then the payload bytes, then the address bytes, flat. This is the
    layout the driver means; the literal JavaScript concatenates the two
    arrays as nested elements (see module AsWritten).
   */
  function TransmitPayloadGeneric(payload: seq<Byte>, address: seq<Byte>): (frame: seq<Byte>)
    requires Fits(payload) && Fits(address)
    ensures |frame| == |payload| + |address| + 3
    ensures frame[0] == Code(Opcode.TransmitPayloadGeneric)
    ensures frame[1] == |payload| && frame[2] == |address|
    ensures frame[3..3 + |payload|] == payload && frame[3 + |payload|..] == address
  {
    SendUsbCommand(Opcode.TransmitPayloadGeneric, [|payload|, |address|] + payload + address)
  }

  /** ESB transmit with the retry delay and retransmit count of the link layer. */
  function TransmitPayload(payload: seq<Byte>, timeout: Byte, retransmits: Byte): (frame: seq<Byte>)
    requires Fits(payload)
    ensures |frame| == |payload| + 4 && frame[1] == |frame| - 4
    ensures frame[0] == Code(Opcode.TransmitPayload)
    ensures frame[2] == timeout && frame[3] == retransmits && frame[4..] == payload
  {
    SendUsbCommand(Opcode.TransmitPayload, [|payload|, timeout, retransmits] + payload)
  }

  /** Queues the payload of the next ESB acknowledgement. */
  function TransmitAckPayload(payload: seq<Byte>): (frame: seq<Byte>)
    requires Fits(payload)
    ensures |frame| == |payload| + 2 && frame[1] == |frame| - 2 && frame[2..] == payload
    ensures frame[0] == Code(Opcode.TransmitAckPayload)
  {
    SendUsbCommand(Opcode.TransmitAckPayload, LengthPrefixed(payload))
  }

  /** The channel the driver actually tunes to: never above MAX_CHANNEL. */
  function ClampChannel(channel: nat): (c: Byte)
    ensures c <= MAX_CHANNEL
    ensures c == channel || (channel > MAX_CHANNEL && c == MAX_CHANNEL)
  {
    if channel > MAX_CHANNEL then MAX_CHANNEL else channel
  }

  /** Tunes the radio; a channel above MAX_CHANNEL is sent as MAX_CHANNEL. */
  function SetChannel(channel: nat): (frame: seq<Byte>)
    ensures |frame| == 2 && frame[0] == Code(Opcode.SetChannel)
    ensures frame[1] <= MAX_CHANNEL
    ensures channel <= MAX_CHANNEL ==> frame[1] == channel
  {
    SendUsbCommand(Opcode.SetChannel, [ClampChannel(channel)])
  }

  /** Asks for the current channel; the frame has no body. */
  function GetChannel(): (frame: seq<Byte>)
    ensures frame == [Code(Opcode.GetChannel)]
  {
    SendUsbCommand(Opcode.GetChannel, [])
  }

  /** Switches on the low-noise amplifier of a CrazyRadio PA; the frame has no body. */
  function EnableLna(): (frame: seq<Byte>)
    ensures frame == [Code(Opcode.EnableLnaPa)]
  {
    SendUsbCommand(Opcode.EnableLnaPa, [])
  }

  /** The clamped channel is the largest valid channel not above the requested one. */
  lemma ClampIsLargestValidBelow(channel: nat, v: Byte)
    requires v <= MAX_CHANNEL && v <= channel
    ensures v <= ClampChannel(channel)
  {
  }

  /** Clamping twice is clamping once. */
  lemma ClampIdempotent(channel: nat)
    ensures ClampChannel(ClampChannel(channel)) == ClampChannel(channel)
  {
  }

  /** Every channel above the limit gives the very frame of the limit itself. */
  lemma SetChannelAboveLimit(channel: nat)
    requires channel > MAX_CHANNEL
    ensures SetChannel(channel) == SetChannel(MAX_CHANNEL) == [0x09, 0x7D]
  {
  }

  /** The frames the driver sends when its optional arguments are left out. */
  lemma DefaultFrames(payload: seq<Byte>)
    requires Fits(payload)
    ensures EnterPromiscuousMode(DEFAULT_PREFIX) == [0x06, 0x00]
    ensures EnterPromiscuousModeGeneric(DEFAULT_PREFIX, DEFAULT_RATE) == [0x0D, 0x00, 0x02]
    ensures TransmitPayload(payload, DEFAULT_TIMEOUT, DEFAULT_RETRANSMITS)
         == [0x04, |payload|, 0x04, 0x0F] + payload
    ensures TransmitPayloadGeneric(payload, DEFAULT_ADDRESS)
         == [0x0C, |payload|, 0x05] + payload + [0x33, 0x33, 0x33, 0x33, 0x33]
  {
  }

  /** The single-byte frames of the commands without arguments. */
  lemma EmptyBodyFrames()
    ensures EnterToneTestMode() == [0x07]
    ensures ReceivePayload() == [0x12]
    ensures GetChannel() == [0x0A]
    ensures EnableLna() == [0x0B]
  {
  }
}
