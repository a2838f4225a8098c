/**
  The three transmit commands as the JavaScript literally executes them,
  kept apart from the intended frames of module Nrf24.

  Two things differ from the intent. The generic transmit body is built
  with `[len, len].concat([payload, address])`, and `concat` spreads only
  one level, so the payload and address arrays end up as two nested
  elements of the frame instead of its bytes. And the three transmit
  methods assign `data = …` without declaring it; a class body is
  strict-mode code, where assigning an undeclared name throws a
  ReferenceError unless the program has a global binding of that name.
 */
module AsWritten {
  import opened Wrappers
  import opened Radio
  import N = Nrf24

  /** The JavaScript values found in the driver's arrays: numbers and arrays. */
  datatype JsValue = Num(n: int) | Arr(elems: seq<JsValue>)

  /** A byte sequence as a JavaScript array of numbers. */
  function Nums(s: seq<Byte>): (r: seq<JsValue>)
    ensures |r| == |s|
    ensures forall i :: 0 <= i < |s| ==> r[i] == Num(s[i])
  {
    seq(|s|, i requires 0 <= i < |s| => Num(s[i]))
  }

  /** An array every element of which is a number in byte range. */
  predicate IsByteArray(a: seq<JsValue>)
  {
    forall i :: 0 <= i < |a| ==> a[i].Num? && 0 <= a[i].n < 256
  }

  /**
    The byte sequence a JavaScript array stands for when it is a flat array
    of numbers in byte range; None as soon as one element is not.
   */
  function ToBytes(a: seq<JsValue>): (r: Option<seq<Byte>>)
    ensures r.Some? <==> IsByteArray(a)
    ensures r.Some? ==> Nums(r.value) == a
  {
    if a == [] then Some([])
    else if a[0].Num? && 0 <= a[0].n < 256 then
      match ToBytes(a[1..])
      case None =>
        assert exists i :: 0 <= i < |a[1..]| && !(a[1..][i].Num? && 0 <= a[1..][i].n < 256);
        None
      case Some(rest) =>
        var b: Byte := a[0].n;
        assert a == [a[0]] + a[1..];
        assert Nums([b] + rest) == [Num(b)] + Nums(rest);
        Some([b] + rest)
    else None
  }

  /** Reading back the bytes of an array of byte numbers recovers them. */
  lemma {:induction false} ToBytesNums(s: seq<Byte>)
    ensures ToBytes(Nums(s)) == Some(s)
  {
    if s != [] {
      assert Nums(s)[1..] == Nums(s[1..]);
      ToBytesNums(s[1..]);
      assert s == [s[0]] + s[1..];
    }
  }

  /** `receiver.concat(arg)` with one argument: an array argument is spread one level, anything else is appended. */
  function Concat(receiver: seq<JsValue>, arg: JsValue): (r: seq<JsValue>)
    ensures |r| == |receiver| + (if arg.Arr? then |arg.elems| else 1)
    ensures r[..|receiver|] == receiver
  {
    match arg
    case Arr(elems) => receiver + elems
    case Num(_) => receiver + [arg]
  }

  /** `send_usb_command(request, data)`: the array `[request].concat([...data])`. */
  function SendUsbCommandJs(request: Opcode, data: seq<JsValue>): seq<JsValue>
  {
    Concat([Num(Code(request))], Arr(data))
  }

  /** The outcome of calling a transmit method. */
  datatype Outcome = Sent(frame: seq<JsValue>) | ReferenceError

  /**
    `transmit_payload_generic` as written. `hasGlobalData` says whether the
    program around the driver declares a global `data`.
   */
  function TransmitPayloadGenericAsWritten(payload: seq<Byte>, address: seq<Byte>, hasGlobalData: bool): Outcome
  {
    if !hasGlobalData then ReferenceError
    else
      var data := Concat([Num(|payload|), Num(|address|)], Arr([Arr(Nums(payload)), Arr(Nums(address))]));
      Sent(SendUsbCommandJs(Opcode.TransmitPayloadGeneric, data))
  }

  /** `transmit_payload` as written. */
  function TransmitPayloadAsWritten(payload: seq<Byte>, timeout: Byte, retransmits: Byte, hasGlobalData: bool): Outcome
  {
    if !hasGlobalData then ReferenceError
    else
      var data := Concat([Num(|payload|), Num(timeout), Num(retransmits)], Arr(Nums(payload)));
      Sent(SendUsbCommandJs(Opcode.TransmitPayload, data))
  }

  /** `transmit_ack_payload` as written. */
  function TransmitAckPayloadAsWritten(payload: seq<Byte>, hasGlobalData: bool): Outcome
  {
    if !hasGlobalData then ReferenceError
    else
      var data := Concat([Num(|payload|)], Arr(Nums(payload)));
      Sent(SendUsbCommandJs(Opcode.TransmitAckPayload, data))
  }

  /** Writing bytes as JavaScript numbers commutes with concatenation. */
  lemma NumsAppend(a: seq<Byte>, b: seq<Byte>)
    ensures Nums(a + b) == Nums(a) + Nums(b)
  {
    assert forall i :: 0 <= i < |a + b| ==> Nums(a + b)[i] == (Nums(a) + Nums(b))[i];
  }

  /** `send_usb_command` on a flat byte array produces exactly the frame of Nrf24.SendUsbCommand. */
  lemma SendUsbCommandJsIsFlat(request: Opcode, data: seq<Byte>)
    ensures SendUsbCommandJs(request, Nums(data)) == Nums(N.SendUsbCommand(request, data))
  {
    NumsAppend([Code(request)], data);
  }

  /** A body built as `header.concat(x)` from flat arrays is sent as the flat frame `[request] ++ header ++ x`. */
  lemma HeaderConcatIsFlat(request: Opcode, header: seq<Byte>, x: seq<Byte>)
    ensures SendUsbCommandJs(request, Concat(Nums(header), Arr(Nums(x))))
         == Nums(N.SendUsbCommand(request, header + x))
  {
    NumsAppend(header, x);
    SendUsbCommandJsIsFlat(request, header + x);
  }

  /**
    The commands whose body is `[x.length].concat(x)` or
    `[prefix.length, rate].concat(prefix)` send the flat frames of Nrf24.
   */
  lemma PrefixedConcatIsFlat(x: seq<Byte>, rate: RfRate)
    requires N.Fits(x)
    ensures SendUsbCommandJs(Opcode.EnterPromiscuousMode, Concat([Num(|x|)], Arr(Nums(x))))
         == Nums(N.EnterPromiscuousMode(x))
    ensures SendUsbCommandJs(Opcode.EnterSnifferMode, Concat([Num(|x|)], Arr(Nums(x))))
         == Nums(N.EnterSnifferMode(x))
    ensures SendUsbCommandJs(Opcode.EnterPromiscuousModeGeneric, Concat([Num(|x|), Num(RateCode(rate))], Arr(Nums(x))))
         == Nums(N.EnterPromiscuousModeGeneric(x, rate))
  {
    assert Nums([|x|]) == [Num(|x|)];
    assert Nums([|x|, RateCode(rate)]) == [Num(|x|), Num(RateCode(rate))];
    HeaderConcatIsFlat(Opcode.EnterPromiscuousMode, [|x|], x);
    HeaderConcatIsFlat(Opcode.EnterSnifferMode, [|x|], x);
    HeaderConcatIsFlat(Opcode.EnterPromiscuousModeGeneric, [|x|, RateCode(rate)], x);
  }

  /**
    Without a global `data`, each of the three transmit commands throws
    before it writes any frame.
   */
  lemma UndeclaredDataThrows(payload: seq<Byte>, address: seq<Byte>, timeout: Byte, retransmits: Byte)
    ensures TransmitPayloadGenericAsWritten(payload, address, false) == ReferenceError
    ensures TransmitPayloadAsWritten(payload, timeout, retransmits, false) == ReferenceError
    ensures TransmitAckPayloadAsWritten(payload, false) == ReferenceError
  {
  }

  /**
    With a global `data` present, transmit_payload and transmit_ack_payload
    send the flat frames of Nrf24: only the missing declaration is wrong in them.
   */
  lemma FlatTransmitsWithGlobalData(payload: seq<Byte>, timeout: Byte, retransmits: Byte)
    requires N.Fits(payload)
    ensures TransmitPayloadAsWritten(payload, timeout, retransmits, true)
         == Sent(Nums(N.TransmitPayload(payload, timeout, retransmits)))
    ensures TransmitAckPayloadAsWritten(payload, true)
         == Sent(Nums(N.TransmitAckPayload(payload)))
  {
    assert Nums([|payload|]) == [Num(|payload|)];
    assert Nums([|payload|, timeout, retransmits]) == [Num(|payload|), Num(timeout), Num(retransmits)];
    HeaderConcatIsFlat(Opcode.TransmitPayload, [|payload|, timeout, retransmits], payload);
    HeaderConcatIsFlat(Opcode.TransmitAckPayload, [|payload|], payload);
  }

  /**
    Even with a global `data`, transmit_payload_generic sends five elements
    whatever the payload and address, the last two of them arrays, so the
    frame never stands for a byte sequence.
   */
  lemma GenericFrameIsNested(payload: seq<Byte>, address: seq<Byte>)
    requires N.Fits(payload) && N.Fits(address)
    ensures TransmitPayloadGenericAsWritten(payload, address, true)
         == Sent([Num(0x0C), Num(|payload|), Num(|address|), Arr(Nums(payload)), Arr(Nums(address))])
    ensures ToBytes(TransmitPayloadGenericAsWritten(payload, address, true).frame) == None
  {
    var frame := TransmitPayloadGenericAsWritten(payload, address, true).frame;
    assert !frame[3].Num?;
  }

  /**
    A one-byte payload to the default address: the intended frame has nine
    bytes, the frame as written has five elements.
   */
  lemma GenericFrameDiffers()
    ensures |N.TransmitPayloadGeneric([0xAA], N.DEFAULT_ADDRESS)| == 9
    ensures TransmitPayloadGenericAsWritten([0xAA], N.DEFAULT_ADDRESS, true)
         != Sent(Nums(N.TransmitPayloadGeneric([0xAA], N.DEFAULT_ADDRESS)))
  {
    GenericFrameIsNested([0xAA], N.DEFAULT_ADDRESS);
  }
}
