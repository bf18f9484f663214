/** From bytes on the wire to the injector, over whole runs: which sealed messages a keystroke
    rests on. A message counts as sealed if the bytes that arrived equal what a holder of the
    device key sends for it. */
module WireToInjector {
  import opened Basics
  import opened BigEndian
  import opened MessageFrame
  import opened OuterFrame
  import opened WireRoundTrip
  import MH = MsgHandler
  import MS = MsgSystem
  import MI = MsgInvariants
  import MA = MsgAuthorisation

  /** On every connection of the run some bytes arrive. `servers[k]` holds the device store with
      which the request that arrives at step `k` is decrypted: pairing may change it from one
      request to the next. */
  ghost predicate FedWithBytes(u: Setup, servers: seq<Server>, actions: seq<MS.Action>) {
    && |servers| == |actions|
    && forall k :: 0 <= k < |actions| && actions[k].Arrive? ==> Delivered(u, servers[k], actions[k].frame)
  }

  ghost predicate Delivered(u: Setup, server: Server, f: MS.Frame) {
    exists stream: bytes :: f == Connection(u, server, stream)
  }

  /** Every handler's frame arrived at some step. */
  lemma {:induction false} FrameArrived(cfg: MH.Config, limit: int, actions: seq<MS.Action>, t: nat)
      returns (k: nat)
    requires t < |MS.Run(cfg, limit, actions).threads|
    ensures k < |actions| && actions[k] == MS.Arrive(MS.Run(cfg, limit, actions).threads[t].frame)
  {
    var front, a := actions[..|actions| - 1], actions[|actions| - 1];
    var s := MS.Run(cfg, limit, front);
    if MS.Enabled(s, a) {
      MI.FramesStay(cfg, limit, s, a);
    }
    if t < |s.threads| {
      k := FrameArrived(cfg, limit, front, t);
    } else {
      k := |actions| - 1;
    }
  }

  /** `stream` carries a frame equal to what a holder of the key that `server` has for `x.device`
      sends to seal a timestamp and `x`. */
  ghost predicate Seals(u: Setup, server: Server, stream: bytes, kemCt: bytes, nonce: bytes, stamp: bytes, x: Inner) {
    && Carriable(x) && |x.device| < 256 && |kemCt| == CIPHERTEXT_SIZE && |nonce| == NONCE_SIZE && |stamp| == 8
    && server.devices.Some? && x.device in server.devices.value
    && server.decapsulate.Some? && server.decapsulate.value(kemCt).Some?
    && var key := u.cr.derive(server.devices.value[x.device], server.decapsulate.value(kemCt).value);
       ReadRequest(stream, u.maxPayloadLen) == Ok(FrameOf(u.cr, x.device, key, kemCt, nonce, stamp + Layout(x)))
  }

  /** Bytes arrived that seal this message of the frame's device, with the frame's nonce and timestamp. */
  ghost predicate Sealed(u: Setup, server: Server, f: MS.Frame, msgType: byte, payload: bytes) {
    exists stream: bytes, kemCt: bytes, stamp: bytes ::
      && Seals(u, server, stream, kemCt, f.nonce, stamp, Inner(f.device.name, msgType, payload))
      && f == Connection(u, server, stream)
      && -0x8000_0000_0000_0000 <= f.ts < 0x8000_0000_0000_0000
      && (Value(stamp) == f.ts || Value(stamp) == f.ts + 0x1_0000_0000_0000_0000)
  }

  /** The message the system acts on is the one that was sealed, by the number of its type. */
  ghost predicate ActsOnSealed(u: Setup, server: Server, f: MS.Frame) {
    match f.body
    case None => false
    case Some(Inject(text)) => Sealed(u, server, f, 1, text)
    case Some(Approve) => exists payload :: Sealed(u, server, f, 2, payload)
    case Some(Arm(ms)) =>
      exists payload :: Sealed(u, server, f, 3, payload) && ms == if payload == [] then None else u.armMs(payload)
    case Some(Disarm) => exists payload :: Sealed(u, server, f, 4, payload)
  }

  lemma OpenedWasSealed(u: Setup, server: Server, stream: bytes) returns (kemCt: bytes, stamp: bytes, x: Inner)
    requires u.cr.Lawful() && Connection(u, server, stream).opens && Connection(u, server, stream).body.Some?
    ensures var f := Connection(u, server, stream);
            && Seals(u, server, stream, kemCt, f.nonce, stamp, x)
            && f.device == DeviceId(x.device) && f.ts == Signed64(Get64(stamp)) && f.body == Some(MessageOf(x, u.armMs))
  {
    var w := ReadRequest(stream, u.maxPayloadLen).value;
    AcceptedIsSealed(u.cr, server, w);
    var o := DecryptOuterV3(u.cr, server, w).value;
    kemCt, stamp, x := KemCtIn(w), o.plaintext[..8], ReadBody(o.device, o.plaintext[8..]).value;
    DecodedIsLayout(o.plaintext[8..]);
    assert o.plaintext == stamp + Layout(x);
  }

  /** A frame that opened with a message in it is what a holder of the device key sends for it. */
  lemma DeliveredMessageWasSealed(u: Setup, server: Server, f: MS.Frame)
    requires u.cr.Lawful() && Delivered(u, server, f)
    ensures f.opens && f.body.Some? ==> ActsOnSealed(u, server, f)
  {
    if f.opens && f.body.Some? {
      var stream :| f == Connection(u, server, stream);
      var kemCt, stamp, x := OpenedWasSealed(u, server, stream);
      assert x == Inner(f.device.name, x.msgType, x.payload);
      Get64IsValue(stamp);
      Signed64Means(Value(stamp), f.ts);
      assert Sealed(u, server, f, x.msgType, x.payload);
      TypeNumbers(x, u.armMs);
    }
  }

  /** The frame arrived at some step and is acted on as sealed for the device store of that request. */
  ghost predicate ArrivedSealed(u: Setup, servers: seq<Server>, actions: seq<MS.Action>, f: MS.Frame) {
    exists k :: 0 <= k < |actions| == |servers| && actions[k] == MS.Arrive(f) && ActsOnSealed(u, servers[k], f)
  }

  lemma AcceptedArrivedSealed(u: Setup, servers: seq<Server>, cfg: MH.Config, limit: int,
                              actions: seq<MS.Action>, t: nat)
    requires u.cr.Lawful() && FedWithBytes(u, servers, actions)
    requires t < |MS.Run(cfg, limit, actions).threads| && MS.Run(cfg, limit, actions).threads[t].accepted
    ensures ArrivedSealed(u, servers, actions, MS.Run(cfg, limit, actions).threads[t].frame)
  {
    var s := MS.Run(cfg, limit, actions);
    MA.RunKeepsInv(cfg, limit, actions);
    assert MI.ThreadOk(cfg, s.threads[t]);
    var k := FrameArrived(cfg, limit, actions, t);
    DeliveredMessageWasSealed(u, servers[k], s.threads[t].frame);
  }

  /** Every injector call of every run over arbitrary bytes types a text that arrived sealed as an
      inject message of its device, behind an arm message that arrived sealed and, with two-man,
      behind an approve message that arrived sealed under the same device id. */
  lemma KeystrokesWereSealed(u: Setup, servers: seq<Server>, cfg: MH.Config, limit: int,
                             actions: seq<MS.Action>, i: nat)
    requires u.cr.Lawful() && FedWithBytes(u, servers, actions)
    requires i < |MS.Run(cfg, limit, actions).log| && MS.Run(cfg, limit, actions).log[i].InjectorCalled?
    ensures var s := MS.Run(cfg, limit, actions);
            && MA.IsInjection(s, i) && MA.Authorised(cfg, limit, s, i)
            && var f, arm := s.threads[s.log[i].tid].frame, MA.ArmFrame(cfg, limit, s, i);
               && ArrivedSealed(u, servers, actions, f) && f.body.Some? && f.body.value.Inject?
               && ArrivedSealed(u, servers, actions, arm) && arm.body.Some? && arm.body.value.Arm?
               && (cfg.twoManEnabled != Some(false) ==>
                     var approval := MA.ApprovalFrame(cfg, limit, s, i);
                     && ArrivedSealed(u, servers, actions, approval)
                     && approval.body == Some(MH.Message.Approve) && approval.device == f.device)
  {
    var s := MS.Run(cfg, limit, actions);
    MA.InjectionAuthorised(cfg, limit, actions, i);
    AcceptedArrivedSealed(u, servers, cfg, limit, actions, s.log[i].tid);
    AcceptedArrivedSealed(u, servers, cfg, limit, actions, s.log[MA.ArmSpendOf(s, i).granted].tid);
    if cfg.twoManEnabled != Some(false) {
      AcceptedArrivedSealed(u, servers, cfg, limit, actions, s.log[MA.ApprovalSpendOf(s, i).granted].tid);
    }
  }
}
