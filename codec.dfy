/**
  Every driver command as one value, its frame, and a decoder that splits
  a frame back into the command and its fields. The round-trip lemmas say
  that a frame carries exactly its command's arguments (up to the channel
  clamp of set_channel), and that the decoder accepts nothing but frames
  the driver can produce.
 */
module Codec {
  import opened Wrappers
  import opened Radio
  import N = Nrf24

  /** A call of one of the driver's commands, with its arguments. */
  datatype Command =
    | Promiscuous(prefix: seq<Byte>)
    | PromiscuousGeneric(prefix: seq<Byte>, rate: RfRate)
    | Sniffer(address: seq<Byte>)
    | ToneTest
    | Receive
    | TransmitGeneric(payload: seq<Byte>, address: seq<Byte>)
    | Transmit(payload: seq<Byte>, timeout: Byte, retransmits: Byte)
    | TransmitAck(payload: seq<Byte>)
    | SetChannelTo(channel: nat)
    | QueryChannel
    | EnableLna

  /** The arguments fit the one-byte length fields of the frame. */
  predicate Encodable(cmd: Command)
  {
    match cmd
    case Promiscuous(prefix) => N.Fits(prefix)
    case PromiscuousGeneric(prefix, _) => N.Fits(prefix)
    case Sniffer(address) => N.Fits(address)
    case TransmitGeneric(payload, address) => N.Fits(payload) && N.Fits(address)
    case Transmit(payload, _, _) => N.Fits(payload)
    case TransmitAck(payload) => N.Fits(payload)
    case _ => true
  }

  /** The command the dongle actually receives: set_channel's argument clamped. */
  function Clamped(cmd: Command): (c: Command)
    ensures c.SetChannelTo? <==> cmd.SetChannelTo?
    ensures c.SetChannelTo? ==> c.channel <= N.MAX_CHANNEL
    ensures !cmd.SetChannelTo? ==> c == cmd
  {
    if cmd.SetChannelTo? then SetChannelTo(N.ClampChannel(cmd.channel)) else cmd
  }

  /** The opcode under which each command is sent. */
  function OpcodeFor(cmd: Command): Opcode
  {
    match cmd
    case Promiscuous(_) => Opcode.EnterPromiscuousMode
    case PromiscuousGeneric(_, _) => Opcode.EnterPromiscuousModeGeneric
    case Sniffer(_) => Opcode.EnterSnifferMode
    case ToneTest => Opcode.EnterToneTestMode
    case Receive => Opcode.ReceivePayload
    case TransmitGeneric(_, _) => Opcode.TransmitPayloadGeneric
    case Transmit(_, _, _) => Opcode.TransmitPayload
    case TransmitAck(_) => Opcode.TransmitAckPayload
    case SetChannelTo(_) => Opcode.SetChannel
    case QueryChannel => Opcode.GetChannel
    case EnableLna => Opcode.EnableLnaPa
  }

  /** The frame the driver writes for a command. */
  function Encode(cmd: Command): (frame: seq<Byte>)
    requires Encodable(cmd)
    ensures |frame| >= 1 && frame[0] == Code(OpcodeFor(cmd))
  {
    match cmd
    case Promiscuous(prefix) => N.EnterPromiscuousMode(prefix)
    case PromiscuousGeneric(prefix, rate) => N.EnterPromiscuousModeGeneric(prefix, rate)
    case Sniffer(address) => N.EnterSnifferMode(address)
    case ToneTest => N.EnterToneTestMode()
    case Receive => N.ReceivePayload()
    case TransmitGeneric(payload, address) => N.TransmitPayloadGeneric(payload, address)
    case Transmit(payload, timeout, retransmits) => N.TransmitPayload(payload, timeout, retransmits)
    case TransmitAck(payload) => N.TransmitAckPayload(payload)
    case SetChannelTo(channel) => N.SetChannel(channel)
    case QueryChannel => N.GetChannel()
    case EnableLna => N.EnableLna()
  }

  /** Splits a frame into its opcode and its body; None for an empty frame or an unknown opcode. */
  function SplitFrame(frame: seq<Byte>): (r: Option<(Opcode, seq<Byte>)>)
    ensures r.Some? ==> frame == N.SendUsbCommand(r.value.0, r.value.1)
  {
    if |frame| == 0 then None
    else match OpcodeOf(frame[0])
      case None => None
      case Some(op) =>
        assert frame == [frame[0]] + frame[1..];
        Some((op, frame[1..]))
  }

  /** Reads a length-prefixed field; None unless the prefix counts exactly the bytes after it. */
  function DecodeLengthPrefixed(body: seq<Byte>): (r: Option<seq<Byte>>)
    ensures r.Some? ==> N.Fits(r.value) && N.LengthPrefixed(r.value) == body
  {
    if |body| >= 1 && body[0] == |body| - 1 then
      assert body == [body[0]] + body[1..];
      Some(body[1..])
    else None
  }

  /** Reads the body of a frame sent under `op` back into its command. */
  function DecodeBody(op: Opcode, body: seq<Byte>): Option<Command>
  {
    match op
    case EnterPromiscuousMode =>
      (match DecodeLengthPrefixed(body)
       case Some(prefix) => Some(Promiscuous(prefix))
       case None => None)
    case EnterPromiscuousModeGeneric =>
      if |body| >= 2 && body[0] == |body| - 2 && RateOf(body[1]).Some? then
        Some(PromiscuousGeneric(body[2..], RateOf(body[1]).value))
      else None
    case EnterSnifferMode =>
      (match DecodeLengthPrefixed(body)
       case Some(address) => Some(Sniffer(address))
       case None => None)
    case EnterToneTestMode => if body == [] then Some(ToneTest) else None
    case ReceivePayload => if body == [] then Some(Receive) else None
    case TransmitPayloadGeneric =>
      if |body| >= 2 && body[0] as int + body[1] as int == |body| - 2 then
        Some(TransmitGeneric(body[2..2 + body[0]], body[2 + body[0]..]))
      else None
    case TransmitPayload =>
      if |body| >= 3 && body[0] == |body| - 3 then
        Some(Transmit(body[3..], body[1], body[2]))
      else None
    case TransmitAckPayload =>
      (match DecodeLengthPrefixed(body)
       case Some(payload) => Some(TransmitAck(payload))
       case None => None)
    case SetChannel =>
      if |body| == 1 && body[0] <= N.MAX_CHANNEL then Some(SetChannelTo(body[0])) else None
    case GetChannel => if body == [] then Some(QueryChannel) else None
    case EnableLnaPa => if body == [] then Some(EnableLna) else None
  }

  /** Reads a whole frame back into the command that produced it. */
  function Decode(frame: seq<Byte>): Option<Command>
  {
    match SplitFrame(frame)
    case None => None
    case Some((op, body)) => DecodeBody(op, body)
  }

  /** Splitting a frame recovers the opcode and the body exactly. */
  lemma SplitSendUsbCommand(request: Opcode, data: seq<Byte>)
    ensures SplitFrame(N.SendUsbCommand(request, data)) == Some((request, data))
  {
    OpcodeOfCode(request, Code(request));
  }

  /** Decoding a length-prefixed field recovers it exactly. */
  lemma DecodeLengthPrefixedRoundTrip(x: seq<Byte>)
    requires N.Fits(x)
    ensures DecodeLengthPrefixed(N.LengthPrefixed(x)) == Some(x)
  {
  }

  /** Every frame the driver writes decodes to the command it was given, channel clamped. */
  lemma DecodeEncode(cmd: Command)
    requires Encodable(cmd)
    ensures Decode(Encode(cmd)) == Some(Clamped(cmd))
  {
    var frame := Encode(cmd);
    var op := OpcodeFor(cmd);
    var body := frame[1..];
    assert frame == N.SendUsbCommand(op, body);
    SplitSendUsbCommand(op, body);
    match cmd
    case Promiscuous(prefix) => DecodeLengthPrefixedRoundTrip(prefix);
    case Sniffer(address) => DecodeLengthPrefixedRoundTrip(address);
    case TransmitAck(payload) => DecodeLengthPrefixedRoundTrip(payload);
    case PromiscuousGeneric(prefix, rate) => RateOfRateCode(rate);
    case TransmitGeneric(payload, address) =>
      assert body[2..2 + |payload|] == payload;
      assert body[2 + |payload|..] == address;
    case _ =>
  }

  /** A body that decodes under `op` is the body the driver writes for the decoded command. */
  lemma EncodeDecodeBody(op: Opcode, body: seq<Byte>, cmd: Command)
    requires DecodeBody(op, body) == Some(cmd)
    ensures Encodable(cmd) && Clamped(cmd) == cmd && OpcodeFor(cmd) == op
    ensures Encode(cmd) == N.SendUsbCommand(op, body)
  {
    match op
    case EnterPromiscuousModeGeneric =>
      assert body == [body[0], body[1]] + body[2..];
    case TransmitPayloadGeneric =>
      assert body == [body[0], body[1]] + body[2..2 + body[0]] + body[2 + body[0]..];
    case TransmitPayload =>
      assert body == [body[0], body[1], body[2]] + body[3..];
    case SetChannel =>
      assert body == [body[0]];
    case _ =>
  }

  /** The decoder accepts only frames the driver writes: a decoded frame re-encodes to itself. */
  lemma EncodeDecode(frame: seq<Byte>, cmd: Command)
    requires Decode(frame) == Some(cmd)
    ensures Encodable(cmd) && Clamped(cmd) == cmd
    ensures Encode(cmd) == frame
  {
    var (op, body) := SplitFrame(frame).value;
    EncodeDecodeBody(op, body, cmd);
  }

  /** Two commands give the same frame exactly when the dongle receives the same command. */
  lemma EncodeInjective(a: Command, b: Command)
    requires Encodable(a) && Encodable(b)
    ensures Encode(a) == Encode(b) <==> Clamped(a) == Clamped(b)
  {
    DecodeEncode(a);
    DecodeEncode(b);
    if Clamped(a) == Clamped(b) {
      EncodeDecode(Encode(a), Clamped(a));
      EncodeDecode(Encode(b), Clamped(b));
    }
  }

  /** The first byte of a frame alone tells which command it is. */
  lemma FirstByteIdentifiesCommand(a: Command, b: Command)
    requires Encodable(a) && Encodable(b)
    ensures Encode(a)[0] == Encode(b)[0] <==> OpcodeFor(a) == OpcodeFor(b)
  {
    CodeInjective(OpcodeFor(a), OpcodeFor(b));
  }
}
