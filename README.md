# nrf24-usb command frames in Dafny

A model of the command-frame encoder of the `nrf24` driver for the nRF24LU1+
USB radio dongle (CrazyRadio and compatible firmware). Each public command of
the driver writes one outbound USB transfer, the frame `[opcode] ++ body`, where
the body holds the command's arguments: length-prefixed address or payload
fields, the ESB retry settings, a data-rate byte, a clamped channel byte, or
nothing at all. The model states each command as a pure function from its
arguments to that byte frame and proves what a frame carries:

- `radio.dfy`, module `Radio`: the opcode table and the RF-rate table as
  datatypes with their wire bytes and decoders.
- `nrf24.dfy`, module `Nrf24`: one function per driver command, the default
  arguments as constants, and the channel clamp.
- `codec.dfy`, module `Codec`: every command as one `Command` value, `Encode`,
  and a decoder that splits a frame back into its fields; round trips in both
  directions.
- `as_written.dfy`, module `AsWritten`: the three transmit commands as the
  JavaScript literally evaluates them (see Findings).
- `wrappers.dfy`, module `Wrappers`: `Option`.

Bytes are the subset type `Byte` (integers 0 to 255). Every length field is one
byte, so the encoders require each field to have fewer than 256 bytes (`Fits`).

## Model

| member | source | states |
|---|---|---|
| Radio.OpcodeOf | nrf24-usb.js:4-14 | a byte decodes to an opcode only if it is that opcode's table value |
| Radio.OpcodeOfCode | nrf24-usb.js:4-14 | a byte decodes to an opcode exactly when it is that opcode's value, for all eleven opcodes |
| Radio.CodeInjective | nrf24-usb.js:4-14 | the eleven opcode constants are pairwise distinct |
| Radio.RateCode | nrf24-usb.js:23-25 | the rate values are 0, 1 and 2 |
| Radio.RateOf | nrf24-usb.js:23-25 | a byte is a rate exactly when it is at most 2, and then it is that rate's value |
| Radio.RateOfRateCode | nrf24-usb.js:23-25 | every rate survives encoding and decoding |
| Nrf24.SendUsbCommand | nrf24-usb.js:40-41 | the frame is one byte longer than the body, byte 0 is the opcode and the rest is the body unchanged |
| Nrf24.LengthPrefixed | nrf24-usb.js:48 | the length byte counts exactly the bytes that follow it, which are the field unchanged |
| Nrf24.EnterPromiscuousMode | nrf24-usb.js:47-48 | frame is opcode 0x06, the prefix length (equal to the frame length minus 2), then the prefix |
| Nrf24.EnterPromiscuousModeGeneric | nrf24-usb.js:56-57 | frame is opcode 0x0D, the prefix length, a byte that decodes to the given rate, then the prefix |
| Nrf24.EnterSnifferMode | nrf24-usb.js:66-67 | frame is opcode 0x05, the address length, then the address |
| Nrf24.EnterToneTestMode | nrf24-usb.js:76-77 | the frame is the single opcode byte 0x07 |
| Nrf24.ReceivePayload | nrf24-usb.js:86-87 | the frame is the single opcode byte 0x12 |
| Nrf24.TransmitPayloadGeneric | nrf24-usb.js:96-97 | frame is opcode 0x0C, the payload length, the address length, the payload, then the address, flat |
| Nrf24.TransmitPayload | nrf24-usb.js:107-108 | frame is opcode 0x04, the payload length, timeout, retransmits, then the payload |
| Nrf24.TransmitAckPayload | nrf24-usb.js:118-119 | frame is opcode 0x08, the payload length, then the payload |
| Nrf24.ClampChannel | nrf24-usb.js:129-130 | the channel sent is at most 125, and is the requested channel unless that exceeds 125 |
| Nrf24.SetChannel | nrf24-usb.js:129-131 | two-byte frame with opcode 0x09; the channel byte is at most 125 and equals any channel up to 125 |
| Nrf24.GetChannel | nrf24-usb.js:141-142 | the frame is the single opcode byte 0x0A |
| Nrf24.EnableLna | nrf24-usb.js:151-152 | the frame is the single opcode byte 0x0B |
| Nrf24.ClampIsLargestValidBelow | nrf24-usb.js:130 | the clamped channel is the largest channel that is at most 125 and at most the request (the minimum) |
| Nrf24.ClampIdempotent | nrf24-usb.js:130 | clamping twice is clamping once |
| Nrf24.SetChannelAboveLimit | nrf24-usb.js:129-131 | every channel above 125 gives the frame of 125, `[0x09, 0x7D]` |
| Nrf24.DefaultFrames | nrf24-usb.js:47-108 | with default arguments: `[0x06, 0x00]`, `[0x0D, 0x00, 0x02]`, timeout 4 and retransmits 15, address five bytes of 0x33 |
| Nrf24.EmptyBodyFrames | nrf24-usb.js:76-152 | the four argument-less commands send `[0x07]`, `[0x12]`, `[0x0A]` and `[0x0B]` |
| Codec.Clamped | nrf24-usb.js:130 | only set_channel is changed on its way to the dongle, and its channel ends up at most 125 |
| Codec.Encode | nrf24-usb.js:46-152 | every command's frame starts with that command's opcode |
| Codec.SplitFrame | nrf24-usb.js:41 | a frame that splits into an opcode and a body is exactly that opcode followed by that body |
| Codec.DecodeLengthPrefixed | nrf24-usb.js:48 | a field is read back only from a body whose length byte counts the rest, and re-encodes to that body |
| Codec.SplitSendUsbCommand | nrf24-usb.js:40-41 | splitting a frame recovers its opcode and body exactly |
| Codec.DecodeLengthPrefixedRoundTrip | nrf24-usb.js:48 | decoding a length-prefixed field recovers the field |
| Codec.DecodeEncode | nrf24-usb.js:46-152 | every frame decodes to the command that produced it, with all its arguments (set_channel's clamped) |
| Codec.EncodeDecodeBody | nrf24-usb.js:46-152 | a body that decodes under an opcode is exactly the body the driver writes for the decoded command under that opcode |
| Codec.EncodeDecode | nrf24-usb.js:46-152 | whatever decodes is a command with fitting fields and a valid channel that re-encodes to the same frame |
| Codec.EncodeInjective | nrf24-usb.js:46-152 | two commands have equal frames exactly when they are equal after the channel clamp |
| Codec.FirstByteIdentifiesCommand | nrf24-usb.js:4-41 | two frames share byte 0 exactly when they come from the same command |
| AsWritten.ToBytes | nrf24-usb.js:41-42 | the array handed to the transfer stands for a byte sequence exactly when every element is a number in byte range, and then it is those bytes written as numbers |
| AsWritten.ToBytesNums | nrf24-usb.js:41-42 | reading back the bytes of an array of byte numbers recovers them |
| AsWritten.SendUsbCommandJsIsFlat | nrf24-usb.js:40-41 | `[request].concat([...data])` on a flat array gives the frame of Nrf24.SendUsbCommand |
| AsWritten.HeaderConcatIsFlat | nrf24-usb.js:41-48 | a body built as `header.concat(x)` from flat arrays is sent as the flat frame `[request] ++ header ++ x` |
| AsWritten.PrefixedConcatIsFlat | nrf24-usb.js:47-67 | the literal `concat` bodies of the promiscuous and sniffer commands give the Nrf24 frames |
| AsWritten.FlatTransmitsWithGlobalData | nrf24-usb.js:107-119 | given a global `data`, transmit_payload and transmit_ack_payload send the Nrf24 frames |
| AsWritten.UndeclaredDataThrows | nrf24-usb.js:97-119 | without a global `data`, the three transmit commands throw before writing a frame |
| AsWritten.GenericFrameIsNested | nrf24-usb.js:96-97 | the literal generic-transmit frame has five elements, two of them arrays, so it never stands for a byte sequence |
| AsWritten.GenericFrameDiffers | nrf24-usb.js:96-97 | for a one-byte payload and the default address the literal frame differs from the intended nine-byte frame |

## Left out

- Device setup (nrf24-usb.js:30-37): finding the dongle by vendor and product ID, opening it, claiming interface 0. This is I/O in a foreign USB library.
- How the USB library turns a JavaScript array with nested arrays into transfer bytes: the model only shows that such an array is not a flat byte array (AsWritten.ToBytes).
- Transfers: the write on endpoint 0x01 and the 64-byte read on endpoint 0x81 after every command, and the Promise each command returns. These are asynchronous I/O. The reply is never decoded by the driver, so nothing about it is modelled.
- The `logging` flag and the unused `RF_CH` register constant (nrf24-usb.js:17, 20): nothing reads them.
- Values outside a byte: how the USB library coerces negative numbers, non-integers, numbers above 255 or lengths of 256 and more when it builds the transfer buffer. The model takes `Byte` arguments and requires every length-prefixed field to have fewer than 256 bytes.
- Nrf24.SetChannel: takes a natural number; a negative channel, which the JavaScript passes through the clamp unchanged, is not modelled.
- Nrf24.EnterPromiscuousModeGeneric: the rate is one of the three rate constants; the JavaScript would send any other number given as the rate unchanged.
- Default arguments are named constants (`DEFAULT_PREFIX`, `DEFAULT_RATE`, `DEFAULT_ADDRESS`, `DEFAULT_TIMEOUT`, `DEFAULT_RETRANSMITS`) that the caller passes, rather than optional parameters; Nrf24.DefaultFrames states the frames they give.
- Ordering of writes and reads: the driver does not enforce one request in flight at a time, so no request/response state machine is modelled.
- The frames of module Nrf24 for transmit_payload_generic, transmit_payload and transmit_ack_payload are the intended ones; module AsWritten holds what the JavaScript literally does (see Findings).

## Findings

| source | as written | input that shows it | evidently intended | confidence | as-written member | corrected member |
|---|---|---|---|---|---|---|
| nrf24-usb.js:97 | `[payload.length, address.length].concat([payload, address])` spreads only one level, so the payload and address stay nested arrays and the frame has five elements | payload `[0xAA]` with the default address: five elements instead of the nine bytes `[0x0C, 1, 5, 0xAA, 0x33, 0x33, 0x33, 0x33, 0x33]` | the flat frame `[0x0C, len(payload), len(address)] ++ payload ++ address` | high; not executed | AsWritten.GenericFrameDiffers | Nrf24.TransmitPayloadGeneric |
| nrf24-usb.js:97 | `data = …` assigns an undeclared name inside a class body, which is strict-mode code, so it throws a ReferenceError; the same happens at lines 108 and 119 | any call of transmit_payload_generic, transmit_payload or transmit_ack_payload in a program without a global `data` | a local declaration of `data`, so that the frame is sent | high, assuming no global `data` in the host program; not executed | AsWritten.UndeclaredDataThrows | Codec.DecodeEncode |
