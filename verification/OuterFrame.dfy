/** The outer v3 frame between client and daemon, over abstract cryptography. */
module OuterFrame {
  import opened Basics
  import opened BigEndian
  import opened MessageFrame

  const PROTOCOL_VERSION: byte := 3
  const OUTER_MSG_TYPE: byte := 1
  const CIPHERTEXT_SIZE := 1088  // ML-KEM-768, section 8 of FIPS 203
  const NONCE_SIZE := 24         // XChaCha20
  const OVERHEAD := 16           // Poly1305 tag, section 2.8 of RFC 8439

  /** The primitives: key derivation from device key and KEM secret, and the AEAD. */
  datatype Crypto = Crypto(
    derive: (bytes, bytes) -> bytes,
    seal: (bytes, bytes, bytes, bytes) -> bytes,
    open: (bytes, bytes, bytes, bytes) -> Option<bytes>)
  {
    /** Sealing adds the tag, and opening accepts exactly what sealing produces. */
    ghost predicate Lawful() {
      && (forall k, n, p, a :: |seal(k, n, p, a)| == |p| + OVERHEAD)
      && (forall k, n, c, a, p :: open(k, n, c, a) == Some(p) <==> c == seal(k, n, p, a))
    }
  }

  datatype Server = Server(devices: Option<map<bytes, bytes>>, decapsulate: Option<bytes -> Option<bytes>>)

  datatype Opened = Opened(device: bytes, plaintext: bytes, nonce: bytes)

  datatype OuterError =
    | TooShort | BadVersion | BadOuterType | BadIdLen | TooShortForId | NotInitialised | UnknownDevice
    | NoServerKey | TooShortForKemLen | BadKemLen | TooShortForKem | DecapsulateFailed
    | TooShortForCiphertext | OpenFailed

  function DecryptOuterV3(cr: Crypto, server: Server, frame: bytes): (r: Result<Opened, OuterError>) {
    if |frame| < 3 then Err(TooShort)
    else if frame[0] != PROTOCOL_VERSION then Err(BadVersion)
    else if frame[1] != OUTER_MSG_TYPE then Err(BadOuterType)
    else
      var idLen := frame[2] as int;
      if idLen <= 0 then Err(BadIdLen)
      else if |frame| < 3 + idLen then Err(TooShortForId)
      else
        var deviceID := frame[3..3 + idLen];
        if server.devices.None? then Err(NotInitialised)
        else if deviceID !in server.devices.value then Err(UnknownDevice)
        else if server.decapsulate.None? then Err(NoServerKey)
        else
          var headerBaseEnd := 3 + idLen;
          if |frame| < headerBaseEnd + 2 then Err(TooShortForKemLen)
          else if Get16(frame[headerBaseEnd..headerBaseEnd + 2]) != CIPHERTEXT_SIZE then Err(BadKemLen)
          else
            var kemStart := headerBaseEnd + 2;
            var kemEnd := kemStart + CIPHERTEXT_SIZE;
            if |frame| < kemEnd then Err(TooShortForKem)
            else
              match server.decapsulate.value(frame[kemStart..kemEnd])
              case None => Err(DecapsulateFailed)
              case Some(shared) =>
                var key := cr.derive(server.devices.value[deviceID], shared);
                var rest := frame[kemEnd..];
                if |rest| < NONCE_SIZE + OVERHEAD then Err(TooShortForCiphertext)
                else
                  match cr.open(key, rest[..NONCE_SIZE], rest[NONCE_SIZE..], frame[..kemEnd])
                  case None => Err(OpenFailed)
                  case Some(plaintext) => Ok(Opened(deviceID, plaintext, rest[..NONCE_SIZE]))
  }

  // ---- The client -----------------------------------------------------------------------

  /** Everything the client's encryption depends on; kemCt and shared come from encapsulation. */
  datatype Client = Client(
    deviceID: bytes, staticKey: bytes, serverKey: bytes, kemCt: bytes, shared: bytes, nonce: bytes, now: int)

  datatype ClientError = NoStaticKey | NoEncapKey | BadDeviceID | BadKemCt

  function HeaderOf(deviceID: bytes, kemCt: bytes): bytes
    requires |deviceID| < 256 && |kemCt| < TWO_16
  {
    [PROTOCOL_VERSION, OUTER_MSG_TYPE, |deviceID|] + deviceID + U16(|kemCt|) + kemCt
  }

  function FrameOf(cr: Crypto, deviceID: bytes, key: bytes, kemCt: bytes, nonce: bytes, plaintext: bytes): bytes
    requires |deviceID| < 256 && |kemCt| < TWO_16
  {
    HeaderOf(deviceID, kemCt) + nonce + cr.seal(key, nonce, plaintext, HeaderOf(deviceID, kemCt))
  }

  method EncryptV3OuterFrame(cr: Crypto, c: Client, innerBody: bytes) returns (r: Result<bytes, ClientError>)
    requires 0 <= c.now < TWO_63
    ensures r.Ok? <==>
      c.staticKey != [] && c.serverKey != [] && 1 <= |c.deviceID| <= 255 && |c.kemCt| == CIPHERTEXT_SIZE
    ensures r.Ok? ==>
      r.value == FrameOf(cr, c.deviceID, cr.derive(c.staticKey, c.shared), c.kemCt, c.nonce, U64(c.now) + innerBody)
  {
    if c.staticKey == [] {
      return Err(NoStaticKey);
    }
    if c.serverKey == [] {
      return Err(NoEncapKey);
    }
    if |c.deviceID| == 0 || |c.deviceID| > 255 {
      return Err(BadDeviceID);
    }
    if |c.kemCt| != CIPHERTEXT_SIZE {
      return Err(BadKemCt);
    }
    var aeadKey := cr.derive(c.staticKey, c.shared);
    var header: bytes := [];
    header := header + [PROTOCOL_VERSION];
    header := header + [OUTER_MSG_TYPE];
    header := header + [|c.deviceID|];
    header := header + c.deviceID;
    header := header + U16(|c.kemCt|);
    header := header + c.kemCt;
    assert header == HeaderOf(c.deviceID, c.kemCt);
    var plaintext := U64(c.now) + innerBody;
    var ct := cr.seal(aeadKey, c.nonce, plaintext, header);
    var out: bytes := [];
    out := out + header;
    out := out + c.nonce;
    out := out + ct;
    return Ok(out);
  }

  // ---- Outer round trip -------------------------------------------------------------------

  lemma FrameFields(cr: Crypto, deviceID: bytes, key: bytes, kemCt: bytes, nonce: bytes, plaintext: bytes)
    requires 1 <= |deviceID| < 256 && |kemCt| == CIPHERTEXT_SIZE && |nonce| == NONCE_SIZE
    ensures var f := FrameOf(cr, deviceID, key, kemCt, nonce, plaintext);
            var h := 3 + |deviceID|;
            var k := h + 2 + CIPHERTEXT_SIZE;
            && |f| >= k + NONCE_SIZE && f[0] == PROTOCOL_VERSION && f[1] == OUTER_MSG_TYPE && f[2] == |deviceID|
            && f[3..h] == deviceID && f[h..h + 2] == U16(CIPHERTEXT_SIZE) && f[h + 2..k] == kemCt
            && f[..k] == HeaderOf(deviceID, kemCt)
            && f[k..][..NONCE_SIZE] == nonce
            && f[k..][NONCE_SIZE..] == cr.seal(key, nonce, plaintext, HeaderOf(deviceID, kemCt))
  {
    var f := FrameOf(cr, deviceID, key, kemCt, nonce, plaintext);
    var h := 3 + |deviceID|;
    var k := h + 2 + CIPHERTEXT_SIZE;
    var header := HeaderOf(deviceID, kemCt);
    assert header[3..h] == deviceID && header[h..h + 2] == U16(CIPHERTEXT_SIZE) && header[h + 2..] == kemCt;
    assert f[..k] == header;
    assert f[3..h] == f[..k][3..h] && f[h..h + 2] == f[..k][h..h + 2] && f[h + 2..k] == f[..k][h + 2..];
  }

  /** What a client seals for a device the server knows under the same key comes back intact. */
  lemma OuterRoundTrip(cr: Crypto, server: Server, deviceID: bytes, key: bytes, kemCt: bytes, shared: bytes,
                       nonce: bytes, plaintext: bytes)
    requires cr.Lawful()
    requires 1 <= |deviceID| < 256 && |kemCt| == CIPHERTEXT_SIZE && |nonce| == NONCE_SIZE
    requires server.devices.Some? && deviceID in server.devices.value && server.devices.value[deviceID] == key
    requires server.decapsulate.Some? && server.decapsulate.value(kemCt) == Some(shared)
    ensures DecryptOuterV3(cr, server, FrameOf(cr, deviceID, cr.derive(key, shared), kemCt, nonce, plaintext))
            == Ok(Opened(deviceID, plaintext, nonce))
  {
    var k := cr.derive(key, shared);
    FrameFields(cr, deviceID, k, kemCt, nonce, plaintext);
    RoundTrip16(CIPHERTEXT_SIZE);
    var sealed := cr.seal(k, nonce, plaintext, HeaderOf(deviceID, kemCt));
    assert |sealed| == |plaintext| + OVERHEAD;
    assert cr.open(k, nonce, sealed, HeaderOf(deviceID, kemCt)) == Some(plaintext);
  }

  /** Where the encapsulated key sits in an accepted frame. */
  function KemCtIn(frame: bytes): bytes
    requires |frame| >= 3 && |frame| >= 3 + frame[2] as int + 2 + CIPHERTEXT_SIZE
  {
    var start := 3 + frame[2] as int + 2;
    frame[start..start + CIPHERTEXT_SIZE]
  }

  /** Conversely the server accepts only what a client that holds the device key would send:
      an accepted frame is byte for byte the encoding of what was read from it. */
  lemma AcceptedIsSealed(cr: Crypto, server: Server, frame: bytes)
    requires cr.Lawful() && DecryptOuterV3(cr, server, frame).Ok?
    ensures |frame| >= 3 + frame[2] as int + 2 + CIPHERTEXT_SIZE
    ensures var o := DecryptOuterV3(cr, server, frame).value;
            var kemCt := KemCtIn(frame);
            && 1 <= |o.device| < 256 && o.device in server.devices.value && |o.nonce| == NONCE_SIZE
            && server.decapsulate.value(kemCt).Some?
            && frame == FrameOf(cr, o.device,
                                cr.derive(server.devices.value[o.device], server.decapsulate.value(kemCt).value),
                                kemCt, o.nonce, o.plaintext)
  {
    var o := DecryptOuterV3(cr, server, frame).value;
    var h := 3 + frame[2] as int;
    var k := h + 2 + CIPHERTEXT_SIZE;
    var kemCt := KemCtIn(frame);
    Canonical16(frame[h..h + 2]);
    assert frame[..k] == [frame[0], frame[1], frame[2]] + frame[3..h] + frame[h..h + 2] + kemCt;
    assert frame[..k] == HeaderOf(o.device, kemCt);
    var rest := frame[k..];
    assert frame == frame[..k] + rest[..NONCE_SIZE] + rest[NONCE_SIZE..];
  }
}
