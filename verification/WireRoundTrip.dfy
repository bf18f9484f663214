/** From the client's message to the handler: decryption with the guard in its place, the
    end-to-end round trip, and the step system fed with real bytes. */
module WireRoundTrip {
  import opened Basics
  import opened BigEndian
  import opened MessageFrame
  import opened OuterFrame
  import RG = ReplayGuard
  import MH = MsgHandler
  import MS = MsgSystem

  datatype MessageError =
    | Outer(outer: OuterError) | NoTimestamp | NotFresh(verdict: RG.Verdict) | EmptyBody
    | NotInnerV1 | BadInner(inner: FrameError) | DeviceMismatch

  /** The checks on the decrypted body, after the guard has accepted the call. */
  function ReadBody(outerDevice: bytes, body: bytes): Result<Inner, MessageError> {
    if |body| < 1 then Err(EmptyBody)
    else if body[0] != FRAME_VERSION_V1 then Err(NotInnerV1)
    else
      match DecodeMessageFrame(body)
      case Err(e) => Err(BadInner(e))
      case Ok(x) => if x.device != outerDevice then Err(DeviceMismatch) else Ok(x)
  }

  /** `decryptMessageFrame`: the outer frame, then freshness, replay and rate, then the body. */
  function DecryptMessageFrame(cr: Crypto, server: Server, guard: RG.Store, limit: int, frame: bytes, now: int)
    : (RG.Store, Result<Inner, MessageError>)
  {
    match DecryptOuterV3(cr, server, frame)
    case Err(e) => (guard, Err(Outer(e)))
    case Ok(o) =>
      if |o.plaintext| < 8 then (guard, Err(NoTimestamp))
      else
        var ts := Signed64(Get64(o.plaintext[..8]));
        var (guard', verdict) := RG.Step(guard, RG.Call(DeviceId(o.device), o.nonce, ts, now), limit);
        if !verdict.Accepted? then (guard', Err(NotFresh(verdict)))
        else (guard', ReadBody(o.device, o.plaintext[8..]))
  }

  /** What the client seals: the timestamp and the inner frame. */
  function ClientPlaintext(c: Client, msgType: byte, payload: bytes): bytes
    requires |c.deviceID| <= 255 && 0 <= c.now < TWO_63
  {
    U64(c.now) + Layout(Inner(c.deviceID, msgType, payload))
  }

  /** The bytes the client puts on the wire for one message. */
  function ClientFrame(cr: Crypto, c: Client, msgType: byte, payload: bytes): bytes
    requires 1 <= |c.deviceID| <= 255 && |c.kemCt| == CIPHERTEXT_SIZE && 0 <= c.now < TWO_63
  {
    FrameOf(cr, c.deviceID, cr.derive(c.staticKey, c.shared), c.kemCt, c.nonce, ClientPlaintext(c, msgType, payload))
  }

  /** What follows the route line: a 16-bit length and the frame. */
  function Prefixed(frame: bytes): bytes
    requires |frame| < TWO_16
  {
    U16(|frame|) + frame
  }

  /** The client program, from its message to what it sends. */
  method SendV3OuterFrame(cr: Crypto, c: Client, msgType: byte, payload: bytes) returns (sent: Option<bytes>)
    requires cr.Lawful() && 0 <= c.now < TWO_63 && |c.nonce| == NONCE_SIZE
    ensures sent.Some? <==>
      && c.staticKey != [] && c.serverKey != [] && 1 <= |c.deviceID| <= 255 && |c.kemCt| == CIPHERTEXT_SIZE
      && KnownType(msgType) && 1149 + 2 * |c.deviceID| + |payload| <= 0xFFFF
    ensures sent.Some? ==>
      |ClientFrame(cr, c, msgType, payload)| < TWO_16 && sent.value == Prefixed(ClientFrame(cr, c, msgType, payload))
  {
    var inner := EncodeInnerMessageFrame(c.deviceID, msgType, payload);
    if inner.Err? {
      return None;
    }
    var frame := EncryptV3OuterFrame(cr, c, inner.value);
    if frame.Err? {
      return None;
    }
    ClientFrameLength(cr, c, msgType, payload);
    if |frame.value| > 0xFFFF {
      return None;
    }
    return Some(U16(|frame.value|) + frame.value);
  }

  /** How the daemon reads a request from the bytes that arrive before the connection ends. */
  function ReadRequest(stream: bytes, maxPayloadLen: int): Result<bytes, MH.Unread> {
    if |stream| < 2 then Err(MH.NoLength)
    else
      var length := Get16(stream[..2]);
      if length == 0 || length > maxPayloadLen then Err(MH.BadLength)
      else if |stream| < 2 + length then Err(MH.PayloadCutShort)
      else Ok(stream[2..2 + length])
  }

  lemma ReadPrefixed(frame: bytes, more: bytes, maxPayloadLen: int)
    requires 0 < |frame| < TWO_16
    ensures ReadRequest(Prefixed(frame) + more, maxPayloadLen)
            == if |frame| <= maxPayloadLen then Ok(frame) else Err(MH.BadLength)
  {
    var stream := Prefixed(frame) + more;
    RoundTrip16(|frame|);
    assert stream[..2] == U16(|frame|);
    assert stream[2..2 + |frame|] == frame;
  }

  /** What a request must look like to be read: a non-zero length within the limit, most significant
      byte first, and that many bytes. */
  lemma ReadRequestMeans(stream: bytes, maxPayloadLen: int, frame: bytes)
    ensures ReadRequest(stream, maxPayloadLen) == Ok(frame) <==>
            && 2 + |frame| <= |stream| && stream[2..2 + |frame|] == frame
            && 256 * stream[0] as int + stream[1] as int == |frame| && 0 < |frame| <= maxPayloadLen
    ensures ReadRequest(stream, maxPayloadLen) == Err(MH.NoLength) <==> |stream| < 2
    ensures ReadRequest(stream, maxPayloadLen) == Err(MH.BadLength) <==>
            |stream| >= 2 && var length := 256 * stream[0] as int + stream[1] as int;
                             length == 0 || length > maxPayloadLen
    ensures ReadRequest(stream, maxPayloadLen) == Err(MH.PayloadCutShort) <==>
            |stream| >= 2 && var length := 256 * stream[0] as int + stream[1] as int;
                             0 < length <= maxPayloadLen && |stream| < 2 + length
  {
  }

  lemma ClientFrameLength(cr: Crypto, c: Client, msgType: byte, payload: bytes)
    requires cr.Lawful() && 0 <= c.now < TWO_63 && |c.nonce| == NONCE_SIZE
    requires 1 <= |c.deviceID| <= 255 && |c.kemCt| == CIPHERTEXT_SIZE
    ensures |ClientFrame(cr, c, msgType, payload)| == 1149 + 2 * |c.deviceID| + |payload|
  {
    var plaintext := U64(c.now) + Layout(Inner(c.deviceID, msgType, payload));
    var header := HeaderOf(c.deviceID, c.kemCt);
    LayoutFields(Inner(c.deviceID, msgType, payload));
    assert |cr.seal(cr.derive(c.staticKey, c.shared), c.nonce, plaintext, header)| == |plaintext| + OVERHEAD;
  }

  /** Where every byte of a client's frame is: version 3, type 1, the id with its length, 1088 bytes of
      encapsulated key with their length, a 24-byte nonce, and the sealed rest, which authenticates
      everything before the nonce. */
  lemma FrameBytes(cr: Crypto, c: Client, msgType: byte, payload: bytes)
    requires 1 <= |c.deviceID| <= 255 && |c.kemCt| == 1088 && |c.nonce| == 24 && 0 <= c.now < TWO_63
    ensures var f, n := ClientFrame(cr, c, msgType, payload), |c.deviceID|;
            && |f| >= 1117 + n
            && f[0] == 3 && f[1] == 1 && f[2] as int == n && f[3..3 + n] == c.deviceID
            && Value(f[3 + n..5 + n]) == 1088 && f[5 + n..1093 + n] == c.kemCt
            && f[1093 + n..1117 + n] == c.nonce
            && f[1117 + n..] == cr.seal(cr.derive(c.staticKey, c.shared), c.nonce,
                                        ClientPlaintext(c, msgType, payload), f[..1093 + n])
  {
    var plaintext := ClientPlaintext(c, msgType, payload);
    FrameFields(cr, c.deviceID, cr.derive(c.staticKey, c.shared), c.kemCt, c.nonce, plaintext);
    var f, n := ClientFrame(cr, c, msgType, payload), |c.deviceID|;
    Get16IsValue(U16(1088));
    RoundTrip16(1088);
  }

  lemma LayoutBytes(x: Inner)
    requires |x.device| < TWO_16 && |x.payload| < TWO_32
    ensures var b, n := Layout(x), |x.device|;
            && |b| == 8 + n + |x.payload| && b[0] == 1 && b[1] == x.msgType
            && Value(b[2..4]) == n && Value(b[4..8]) == |x.payload|
            && b[8..8 + n] == x.device && b[8 + n..] == x.payload
  {
    LayoutFields(x);
    RoundTrip16(|x.device|);
    Get16IsValue(U16(|x.device|));
    RoundTrip32(|x.payload|);
    Get32IsValue(U32(|x.payload|));
  }

  /** Where every byte under the seal is: eight bytes of timestamp, then version 1, the type, the
      lengths of id and payload, the id and the payload. */
  lemma PlaintextBytes(c: Client, msgType: byte, payload: bytes)
    requires 1 <= |c.deviceID| <= 255 && 0 <= c.now < TWO_63 && |payload| < 0x1_0000_0000
    ensures var p, n := ClientPlaintext(c, msgType, payload), |c.deviceID|;
            && |p| == 16 + n + |payload| && Value(p[..8]) == c.now
            && var b := p[8..];
               && b[0] == 1 && b[1] == msgType && Value(b[2..4]) == n && Value(b[4..8]) == |payload|
               && b[8..8 + n] == c.deviceID && b[8 + n..] == payload
  {
    var p := ClientPlaintext(c, msgType, payload);
    LayoutBytes(Inner(c.deviceID, msgType, payload));
    assert p[..8] == U64(c.now) && p[8..] == Layout(Inner(c.deviceID, msgType, payload));
    RoundTrip64(c.now);
    Get64IsValue(U64(c.now));
  }

  /** The message types by number. */
  lemma TypeNumbers(x: Inner, armMs: bytes -> Option<int>)
    ensures KnownType(x.msgType) <==> 1 <= x.msgType <= 4
    ensures x.msgType == 1 ==> MessageOf(x, armMs) == MH.Inject(x.payload)
    ensures x.msgType == 2 ==> MessageOf(x, armMs) == MH.Message.Approve
    ensures x.msgType == 3 ==>
              MessageOf(x, armMs) == MH.Message.Arm(if x.payload == [] then None else armMs(x.payload))
    ensures x.msgType == 4 ==> MessageOf(x, armMs) == MH.Message.Disarm
  {
  }

  /** The guard is asked between the two halves of decryption: a frame that does not open leaves it
      alone, one that opens spends its nonce and its place in the window whatever its body holds. */
  lemma OrderOfChecks(cr: Crypto, server: Server, guard: RG.Store, limit: int, frame: bytes, now: int)
    ensures var outer, (guard', r) := DecryptOuterV3(cr, server, frame),
                                      DecryptMessageFrame(cr, server, guard, limit, frame, now);
            if outer.Err? || |outer.value.plaintext| < 8 then guard' == guard && r.Err?
            else
              var o := outer.value;
              var ts := Signed64(Get64(o.plaintext[..8]));
              var step := RG.Step(guard, RG.Call(DeviceId(o.device), o.nonce, ts, now), limit);
              && guard' == step.0
              && (r.Ok? <==> step.1.Accepted? && exists x :: IsInnerOf(o, x))
              && (r.Ok? ==> IsInnerOf(o, r.value))
  {
    var outer := DecryptOuterV3(cr, server, frame);
    if outer.Ok? && |outer.value.plaintext| >= 8 {
      var o := outer.value;
      if ReadBody(o.device, o.plaintext[8..]).Ok? {
        DecodedIsLayout(o.plaintext[8..]);
        assert IsInnerOf(o, ReadBody(o.device, o.plaintext[8..]).value);
      }
      forall x | IsInnerOf(o, x)
        ensures ReadBody(o.device, o.plaintext[8..]).Ok?
      {
        LayoutFields(x);
        DecodeLayout(x);
      }
    }
  }

  /** What is left after the timestamp is a frame that carries `x` for the device of the outer frame. */
  ghost predicate IsInnerOf(o: Opened, x: Inner) {
    |o.plaintext| >= 8 && Carriable(x) && x.device == o.device && o.plaintext[8..] == Layout(x)
  }

  /** So the lengths of id and payload alone decide whether a message that is sent is read: the
      frame must keep to the daemon's limit. */
  lemma Deliverable(cr: Crypto, c: Client, msgType: byte, payload: bytes, maxPayloadLen: int, more: bytes)
    requires cr.Lawful() && 0 <= c.now < TWO_63 && |c.nonce| == NONCE_SIZE
    requires 1 <= |c.deviceID| <= 255 && |c.kemCt| == CIPHERTEXT_SIZE
    requires 1149 + 2 * |c.deviceID| + |payload| <= 0xFFFF
    ensures var frame := ClientFrame(cr, c, msgType, payload);
            && |frame| < TWO_16
            && ReadRequest(Prefixed(frame) + more, maxPayloadLen)
               == if 1149 + 2 * |c.deviceID| + |payload| <= maxPayloadLen then Ok(frame) else Err(MH.BadLength)
  {
    ClientFrameLength(cr, c, msgType, payload);
    ReadPrefixed(ClientFrame(cr, c, msgType, payload), more, maxPayloadLen);
  }

  /** End to end: if the daemon knows the device under the client's key and its guard accepts
      the call, it reads exactly the message the client was given. */
  lemma EndToEnd(cr: Crypto, server: Server, guard: RG.Store, limit: int, c: Client, msgType: byte, payload: bytes,
                 now: int)
    requires cr.Lawful() && 0 <= c.now < TWO_63 && |c.nonce| == NONCE_SIZE
    requires 1 <= |c.deviceID| <= 255 && |c.kemCt| == CIPHERTEXT_SIZE
    requires KnownType(msgType) && |payload| < TWO_32
    requires server.devices.Some? && c.deviceID in server.devices.value
             && server.devices.value[c.deviceID] == c.staticKey
    requires server.decapsulate.Some? && server.decapsulate.value(c.kemCt) == Some(c.shared)
    ensures var (guard', r) := DecryptMessageFrame(cr, server, guard, limit, ClientFrame(cr, c, msgType, payload), now);
            var step := RG.Step(guard, RG.Call(DeviceId(c.deviceID), c.nonce, c.now, now), limit);
            && guard' == step.0
            && r == if step.1.Accepted? then Ok(Inner(c.deviceID, msgType, payload)) else Err(NotFresh(step.1))
  {
    var x := Inner(c.deviceID, msgType, payload);
    var plaintext := U64(c.now) + Layout(x);
    OuterRoundTrip(cr, server, c.deviceID, c.staticKey, c.kemCt, c.shared, c.nonce, plaintext);
    assert plaintext[..8] == U64(c.now) && plaintext[8..] == Layout(x);
    RoundTrip64(c.now);
    LayoutFields(x);
    DecodeLayout(x);
  }

  /** The daemon reads a message out of bytes only if those bytes seal, under the device's key,
      a timestamp and that very message. */
  lemma ReadMeansSealed(cr: Crypto, server: Server, guard: RG.Store, limit: int, frame: bytes, now: int)
    requires cr.Lawful() && DecryptMessageFrame(cr, server, guard, limit, frame, now).1.Ok?
    ensures |frame| >= 3 + frame[2] as int + 2 + CIPHERTEXT_SIZE
    ensures var x := DecryptMessageFrame(cr, server, guard, limit, frame, now).1.value;
            var kemCt := KemCtIn(frame);
            && Carriable(x) && |x.device| < 256 && x.device in server.devices.value
            && server.decapsulate.value(kemCt).Some?
            && exists stamp: bytes, nonce: bytes ::
                 && |stamp| == 8 && |nonce| == NONCE_SIZE
                 && frame == FrameOf(cr, x.device,
                                     cr.derive(server.devices.value[x.device], server.decapsulate.value(kemCt).value),
                                     kemCt, nonce, stamp + Layout(x))
  {
    AcceptedIsSealed(cr, server, frame);
    var o := DecryptOuterV3(cr, server, frame).value;
    var x := DecryptMessageFrame(cr, server, guard, limit, frame, now).1.value;
    DecodedIsLayout(o.plaintext[8..]);
    assert o.plaintext == o.plaintext[..8] + Layout(x);
  }

  // ---- The step system fed with bytes --------------------------------------------------------

  /** The message of an accepted inner frame; `armMs` parses the optional arm payload. */
  function MessageOf(x: Inner, armMs: bytes -> Option<int>): MH.Message {
    if x.msgType == MSG_TYPE_INJECT then MH.Inject(x.payload)
    else if x.msgType == MSG_TYPE_APPROVE then MH.Approve
    else if x.msgType == MSG_TYPE_ARM then MH.Arm(if x.payload == [] then None else armMs(x.payload))
    else MH.Disarm
  }

  /** What the step system needs to know about a frame that was read. */
  function Abstract(cr: Crypto, server: Server, frame: bytes, armMs: bytes -> Option<int>): MS.Frame {
    match DecryptOuterV3(cr, server, frame)
    case Err(_) => MS.Frame(None, false, DeviceId([]), [], 0, None)
    case Ok(o) =>
      if |o.plaintext| < 8 then MS.Frame(None, false, DeviceId(o.device), o.nonce, 0, None)
      else
        MS.Frame(None, true, DeviceId(o.device), o.nonce, Signed64(Get64(o.plaintext[..8])),
                 match ReadBody(o.device, o.plaintext[8..])
                 case Ok(x) => Some(MessageOf(x, armMs))
                 case Err(_) => None)
  }

  /** What is fixed while the daemon runs: cryptography, length limit, JSON parser of arm payloads. */
  datatype Setup = Setup(cr: Crypto, maxPayloadLen: int, armMs: bytes -> Option<int>)

  /** What the step system needs to know about a connection on which `stream` arrives, decrypted
      with the keys that `server` holds. */
  function Connection(u: Setup, server: Server, stream: bytes): MS.Frame {
    match ReadRequest(stream, u.maxPayloadLen)
    case Err(why) => MS.Frame(Some(why), false, DeviceId([]), [], 0, None)
    case Ok(frame) => Abstract(u.cr, server, frame, u.armMs)
  }

  /** The first step of a handler is what reading and decrypting the bytes does. */
  lemma FirstStepIsReading(u: Setup, server: Server, stream: bytes, s: MS.Sys, tid: nat, now: int,
                           cfg: MH.Config, limit: int)
    requires MS.InPhase(s, tid, MS.Reading) && s.threads[tid].frame == Connection(u, server, stream)
    ensures var giveUp, decrypt := MS.GiveUp(tid), MS.Decrypt(tid, now);
            MS.Enabled(s, giveUp) != MS.Enabled(s, decrypt)
            && (MS.Enabled(s, decrypt) <==> ReadRequest(stream, u.maxPayloadLen).Ok?)
    ensures var read := ReadRequest(stream, u.maxPayloadLen);
            if read.Err? then
              var s' := MS.Next(cfg, limit, s, MS.GiveUp(tid));
              s'.guard == s.guard && s'.threads[tid].progress == MH.Answer(MH.BadRequest, MH.NotRead(read.error))
            else
              var (guard', r) := DecryptMessageFrame(u.cr, server, s.guard, limit, read.value, now);
              var s' := MS.Next(cfg, limit, s, MS.Decrypt(tid, now));
              && s'.guard == guard'
              && (r.Ok? <==> s'.threads[tid].phase == MS.Accepted)
              && (r.Ok? ==> s'.threads[tid].frame.body == Some(MessageOf(r.value, u.armMs))
                            && s'.threads[tid].frame.device == DeviceId(r.value.device))
              && (r.Err? ==> s'.threads[tid].progress == MH.Answer(MH.CryptoFail, MH.Undecryptable))
  {
    if ReadRequest(stream, u.maxPayloadLen).Ok? {
      var frame := ReadRequest(stream, u.maxPayloadLen).value;
      assert Connection(u, server, stream) == Abstract(u.cr, server, frame, u.armMs);
    }
  }
}
