/** The inner message frame v1: the server's encoder and decoder and the client's encoder,
    which is a separate program. */
module MessageFrame {
  import opened Basics
  import opened BigEndian

  const FRAME_VERSION_V1: byte := 1
  const MSG_TYPE_INJECT: byte := 1
  const MSG_TYPE_APPROVE: byte := 2
  const MSG_TYPE_ARM: byte := 3
  const MSG_TYPE_DISARM: byte := 4

  datatype Inner = Inner(device: bytes, msgType: byte, payload: bytes)

  datatype FrameError =
    | DeviceRequired | InvalidMsgType | DeviceTooLong | PayloadTooLong
    | FrameTooShort | UnsupportedVersion | DeviceLenInvalid | LengthMismatch

  predicate KnownType(t: byte) {
    t in {MSG_TYPE_INJECT, MSG_TYPE_APPROVE, MSG_TYPE_ARM, MSG_TYPE_DISARM}
  }

  /** The messages the frame format can carry. */
  predicate Carriable(x: Inner) {
    1 <= |x.device| < TWO_16 && KnownType(x.msgType) && |x.payload| < TWO_32
  }

  /** The layout of a frame; the length field holds the low 32 bits of the payload length. */
  function Layout(x: Inner): bytes
    requires |x.device| < TWO_16
  {
    [FRAME_VERSION_V1, x.msgType] + U16(|x.device|) + U32(|x.payload| % TWO_32) + x.device + x.payload
  }

  /** The server's encoder refuses payloads of 2^32 bytes and more. */
  method EncodeMessageFrame(deviceID: bytes, msgType: byte, payload: bytes) returns (r: Result<bytes, FrameError>)
    ensures r.Ok? <==> Carriable(Inner(deviceID, msgType, payload))
    ensures r.Ok? ==> r.value == Layout(Inner(deviceID, msgType, payload))
    ensures r.Err? ==>
      r.error == if deviceID == [] then DeviceRequired
                 else if !KnownType(msgType) then InvalidMsgType
                 else if |deviceID| >= TWO_16 then DeviceTooLong
                 else PayloadTooLong
  {
    if deviceID == [] {
      return Err(DeviceRequired);
    }
    if !KnownType(msgType) {
      return Err(InvalidMsgType);
    }
    if |deviceID| > 0xFFFF {
      return Err(DeviceTooLong);
    }
    if |payload| > 0xFFFF_FFFF {
      return Err(PayloadTooLong);
    }
    var out: bytes := [];
    out := out + [FRAME_VERSION_V1];
    out := out + [msgType];
    out := out + U16(|deviceID|);
    out := out + U32(|payload|);
    out := out + deviceID;
    out := out + payload;
    return Ok(out);
  }

  /** The client's encoder truncates the payload length instead. */
  method EncodeInnerMessageFrame(deviceID: bytes, msgType: byte, payload: bytes) returns (r: Result<bytes, FrameError>)
    ensures r.Ok? <==> 1 <= |deviceID| < TWO_16 && KnownType(msgType)
    ensures r.Ok? ==> r.value == Layout(Inner(deviceID, msgType, payload))
    ensures r.Err? ==>
      r.error == if deviceID == [] then DeviceRequired
                 else if !KnownType(msgType) then InvalidMsgType
                 else DeviceTooLong
  {
    if deviceID == [] {
      return Err(DeviceRequired);
    }
    if !KnownType(msgType) {
      return Err(InvalidMsgType);
    }
    if |deviceID| > 0xFFFF {
      return Err(DeviceTooLong);
    }
    var out: bytes := [];
    out := out + [FRAME_VERSION_V1];
    out := out + [msgType];
    out := out + U16(|deviceID|);
    out := out + U32(|payload| % TWO_32);
    out := out + deviceID;
    out := out + payload;
    return Ok(out);
  }

  function DecodeMessageFrame(b: bytes): (r: Result<Inner, FrameError>) {
    if |b| < 8 then Err(FrameTooShort)
    else if b[0] != FRAME_VERSION_V1 then Err(UnsupportedVersion)
    else if !KnownType(b[1]) then Err(InvalidMsgType)
    else
      var devLen := Get16(b[2..4]);
      var plLen := Get32(b[4..8]);
      if devLen < 1 then Err(DeviceLenInvalid)
      else if |b| != 8 + devLen + plLen then Err(LengthMismatch)
      else Ok(Inner(b[8..8 + devLen], b[1], b[8 + devLen..8 + devLen + plLen]))
  }

  lemma LayoutFields(x: Inner)
    requires |x.device| < TWO_16
    ensures var b := Layout(x);
            && |b| == 8 + |x.device| + |x.payload|
            && b[0] == FRAME_VERSION_V1 && b[1] == x.msgType
            && b[2..4] == U16(|x.device|) && b[4..8] == U32(|x.payload| % TWO_32)
            && b[8..8 + |x.device|] == x.device && b[8 + |x.device|..] == x.payload
  {
  }

  /** The decoder inverts the layout exactly for the carriable messages. A longer payload,
      which only the client's encoder lets through, is rejected and never misread. */
  lemma DecodeLayout(x: Inner)
    requires 1 <= |x.device| < TWO_16 && KnownType(x.msgType)
    ensures DecodeMessageFrame(Layout(x)) == if Carriable(x) then Ok(x) else Err(LengthMismatch)
  {
    LayoutFields(x);
    RoundTrip16(|x.device|);
    RoundTrip32(|x.payload| % TWO_32);
    var b := Layout(x);
    if Carriable(x) {
      assert b[8 + |x.device|..] == b[8 + |x.device|..8 + |x.device| + |x.payload|];
    }
  }

  lemma Reassembled(b: bytes, x: Inner)
    requires |b| >= 8 && |x.device| < TWO_16 && |x.payload| < TWO_32 && |b| == 8 + |x.device| + |x.payload|
    requires b[0] == FRAME_VERSION_V1 && b[1] == x.msgType
    requires b[2..4] == U16(|x.device|) && b[4..8] == U32(|x.payload|)
    requires b[8..8 + |x.device|] == x.device && b[8 + |x.device|..] == x.payload
    ensures Layout(x) == b
  {
    assert |x.payload| % TWO_32 == |x.payload|;
  }

  /** Whatever the decoder accepts is the layout of what it returns: no two frames mean the same. */
  lemma DecodedIsLayout(b: bytes)
    requires DecodeMessageFrame(b).Ok?
    ensures Carriable(DecodeMessageFrame(b).value) && Layout(DecodeMessageFrame(b).value) == b
  {
    var devLen, plLen := Get16(b[2..4]), Get32(b[4..8]);
    var x := DecodeMessageFrame(b).value;
    Canonical16(b[2..4]);
    Canonical32(b[4..8]);
    assert b[8 + devLen..8 + devLen + plLen] == b[8 + devLen..];
    Reassembled(b, x);
  }
}
