/** What the daemon does with one accepted message: the stages of `handleMsgConn` as
    functions, the handler as a method over the real gates, and what its one reply means. */
module MsgHandler {
  import opened Basics
  import opened Gates

  const MILLISECOND := 1_000_000
  const DEFAULT_APPROVE_WINDOW_MS := 15000

  datatype Config = Config(
    armDurationMs: int,
    armConsumeOnInject: Option<bool>,
    twoManEnabled: Option<bool>,
    approveWindowMs: int,
    approveConsumeOnInject: Option<bool>,
    allowClipboardWhenDisarmed: Option<bool>,
    allowClipboardOnInjectFailure: Option<bool>,
    maxInjectLen: int,
    allowNewlines: bool)
  {
    predicate TwoMan() { BoolDeref(twoManEnabled, true) }
    predicate ConsumesApproval() { BoolDeref(approveConsumeOnInject, true) }
    predicate ConsumesArm() { BoolDeref(armConsumeOnInject, true) }
    predicate ClipboardWhenBlocked() { BoolDeref(allowClipboardWhenDisarmed, false) }
    predicate ClipboardOnInjectFailure() { BoolDeref(allowClipboardOnInjectFailure, false) }

    function ApproveWindow(): int {
      (if approveWindowMs <= 0 then DEFAULT_APPROVE_WINDOW_MS else approveWindowMs) * MILLISECOND
    }
  }

  /** `ms` is the positive-or-not number found in an arm payload, if it parsed at all. */
  datatype Message = Inject(text: bytes) | Approve | Arm(ms: Option<int>) | Disarm

  datatype InjectResult = Direct | Typing | ClipboardPaste | UnavailableOnWayland | Failed
  {
    predicate Succeeded() { Direct? || Typing? || ClipboardPaste? }
  }

  /** Everything the operating system answers while one message is handled. */
  datatype Env = Env(policyAllows: bool, wayland: bool, clipboardSets: bool, injection: InjectResult)

  datatype Status =
    | OK | NotArmed | NeedsApprove | BadRequest | CryptoFail | OKClipboard | Internal
  {
    function Code(): int {
      match this
      case OK => 0x00
      case NotArmed => 0x01
      case NeedsApprove => 0x02
      case BadRequest => 0x04
      case CryptoFail => 0x08
      case OKClipboard => 0x09
      case Internal => 0x7F
    }
  }

  /** The client's success test on the numeric status. */
  predicate ClientSuccess(code: int) {
    code == 0x00 || code == 0x09
  }

  /** Why the bytes of a request could not be read: no length, a zero or oversized length, or
      fewer bytes than announced. */
  datatype Unread = NoLength | BadLength | PayloadCutShort

  /** Which exit of the handler produced the reply; stands for the stage, reason and text. */
  datatype Exit =
    | NotRead(why: Unread) | Undecryptable | ArmedExit | DisarmedExit | ApprovedExit | ApproveIgnored
    | UnsafeText | PolicyBlocked | PolicyUnavailable | NotApprovedExit | NotArmedExit
    | InjectFailed | Injected

  datatype Reply = Reply(status: Status, exit: Exit)

  /** What has happened for one connection so far. */
  datatype Progress = Progress(injected: Option<bool>, clipboard: Option<bool>, replies: seq<Reply>)

  const NOTHING_YET := Progress(None, None, [])

  function Answer(status: Status, exit: Exit): Progress {
    Progress(None, None, [Reply(status, exit)])
  }

  /** A refusal, softened to a clipboard copy when `allowed`. */
  function Refuse(allowed: bool, env: Env, status: Status, exit: Exit): Progress {
    if !allowed then Answer(status, exit)
    else Progress(None, Some(env.clipboardSets), [Reply(if env.clipboardSets then OKClipboard else status, exit)])
  }

  /** The record of a finished inject connection: one reply, successful for the client exactly
      when the secret reached the target or the clipboard, and never both. */
  ghost predicate HonestInject(cfg: Config, p: Progress) {
    && |p.replies| == 1
    && (ClientSuccess(p.replies[0].status.Code()) <==> p.injected == Some(true) || p.clipboard == Some(true))
    && !(p.injected == Some(true) && p.clipboard == Some(true))
    && (p.replies[0].status == OK <==> p.injected == Some(true))
    && (p.replies[0].status == OKClipboard <==> p.clipboard == Some(true))
    // the clipboard is tried only under the flag of the failure class, and never after a success
    && (p.clipboard.Some? ==>
          if p.injected.Some? then p.injected == Some(false) && cfg.allowClipboardOnInjectFailure == Some(true)
          else cfg.allowClipboardWhenDisarmed == Some(true))
    // the injector runs only after both gates, and its exits are its own
    && (p.injected.Some? <==> p.replies[0].exit in {Injected, InjectFailed})
    && (p.injected == Some(true) <==> p.replies[0].exit == Injected)
  }

  /** The record of a finished approve, arm or disarm connection, or of a request that was refused
      before its message was known. */
  ghost predicate OnlyAnswered(p: Progress) {
    && p.injected.None? && p.clipboard.None?
    && |p.replies| == 1 && p.replies[0].exit !in {Injected, InjectFailed}
    && (p.replies[0].exit.NotRead? ==> p.replies[0].status == BadRequest)
    && (p.replies[0].exit == Undecryptable ==> p.replies[0].status == CryptoFail)
  }

  predicate UnsafeToInject(cfg: Config, text: bytes) {
    || (cfg.maxInjectLen > 0 && |text| > cfg.maxInjectLen)
    || (!cfg.allowNewlines && (10 in text || 13 in text))
  }

  /** The checks made before any gate is touched; None lets the message go on. */
  function Screen(cfg: Config, text: bytes, env: Env): Option<Progress> {
    if UnsafeToInject(cfg, text) then Some(Refuse(cfg.ClipboardWhenBlocked(), env, BadRequest, UnsafeText))
    else if !env.policyAllows then
      Some(Refuse(cfg.ClipboardWhenBlocked(), env, BadRequest,
                  if env.wayland then PolicyUnavailable else PolicyBlocked))
    else None
  }

  /** The OS call and what follows it, once both gates are open. */
  function InjectStage(cfg: Config, env: Env): Progress {
    if env.injection.Succeeded() then Progress(Some(true), None, [Reply(OK, Injected)])
    else Refuse(cfg.ClipboardOnInjectFailure(), env, Internal, InjectFailed).(injected := Some(false))
  }

  function ArmDuration(cfg: Config, ms: Option<int>): int {
    (if ms.Some? && ms.value > 0 then ms.value else cfg.armDurationMs) * MILLISECOND
  }

  /** Clock readings taken while one message is handled, in the order they are taken. */
  datatype Readings = Readings(first: Instant, second: Instant)

  datatype Outcome = Outcome(arm: Option<Instant>, until: Approvals, progress: Progress)

  /** The gate part of the inject path: approval first, then arm, then the OS call. */
  function PassGates(cfg: Config, arm: Option<Instant>, until: Approvals, device: DeviceId, env: Env, at: Readings)
    : Outcome
  {
    var (until', approved) :=
      if cfg.TwoMan() then ConsumeApproval(until, device, at.first, cfg.ConsumesApproval()) else (until, true);
    if !approved then Outcome(arm, until', Refuse(cfg.ClipboardWhenBlocked(), env, NeedsApprove, NotApprovedExit))
    else PassArmGate(cfg, arm, until', env, at.second)
  }

  function PassArmGate(cfg: Config, arm: Option<Instant>, until: Approvals, env: Env, at: Instant): Outcome {
    var (arm', armed) := ConsumeArm(arm, at, cfg.ConsumesArm());
    if !armed then Outcome(arm', until, Refuse(cfg.ClipboardWhenBlocked(), env, NotArmed, NotArmedExit))
    else Outcome(arm', until, InjectStage(cfg, env))
  }

  /** One accepted message, handled without interruption. */
  function Handle(cfg: Config, arm: Option<Instant>, until: Approvals, device: DeviceId, msg: Message, env: Env,
                  at: Readings)
    : (o: Outcome)
    ensures if msg.Inject? then HonestInject(cfg, o.progress) else OnlyAnswered(o.progress)
  {
    match msg
    case Arm(ms) => Outcome(Some(at.first + ArmDuration(cfg, ms)), until, Answer(OK, ArmedExit))
    case Disarm => Outcome(None, until, Answer(OK, DisarmedExit))
    case Approve =>
      if !cfg.TwoMan() then Outcome(arm, until, Answer(BadRequest, ApproveIgnored))
      else
        var until' := GrantApproval(until, device, at.first, at.second, cfg.ApproveWindow());
        Outcome(arm, until', Answer(OK, ApprovedExit))
    case Inject(text) =>
      match Screen(cfg, text, env)
      case Some(stopped) => Outcome(arm, until, stopped)
      case None => PassGates(cfg, arm, until, device, env, at)
  }

  // ---- The handler itself -------------------------------------------------------------------

  /** One connection: the operating system's answers and the record of what was done. */
  class Session {
    const env: Env
    var injected: Option<bool>
    var clipboard: Option<bool>
    var replies: seq<Reply>

    constructor (env: Env)
      ensures this.env == env && Record() == NOTHING_YET
    {
      this.env := env;
      injected, clipboard, replies := None, None, [];
    }

    function Record(): Progress
      reads this
    {
      Progress(injected, clipboard, replies)
    }

    method Respond(status: Status, exit: Exit)
      modifies this`replies
      ensures replies == old(replies) + [Reply(status, exit)]
    {
      replies := replies + [Reply(status, exit)];
    }

    method TrySetClipboard() returns (ok: bool)
      modifies this`clipboard
      ensures ok == env.clipboardSets && clipboard == Some(ok)
    {
      ok := env.clipboardSets;
      clipboard := Some(ok);
    }

    method InjectPassword() returns (r: InjectResult)
      modifies this`injected
      ensures r == env.injection && injected == Some(r.Succeeded())
    {
      r := env.injection;
      injected := Some(r.Succeeded());
    }
  }

  class Daemon {
    const cfg: Config
    const armGate: ArmGate
    const approvalGate: TwoManGate

    constructor (cfg: Config)
      ensures this.cfg == cfg && fresh(armGate) && fresh(approvalGate)
      ensures armGate.armedUntil == None && approvalGate.until == map[]
    {
      this.cfg := cfg;
      armGate := new ArmGate();
      approvalGate := new TwoManGate();
    }

    /** The handler from the dispatch on the message type to the reply, run alone. */
    method HandleMessage(session: Session, device: DeviceId, msg: Message, at: Readings)
      requires session.Record() == NOTHING_YET
      modifies armGate, approvalGate, session
      ensures Outcome(armGate.armedUntil, approvalGate.until, session.Record())
              == Handle(cfg, old(armGate.armedUntil), old(approvalGate.until), device, msg, session.env, at)
    {
      match msg {
        case Arm(parsed) =>
          var ms := cfg.armDurationMs;
          if parsed.Some? && parsed.value > 0 {
            ms := parsed.value;
          }
          var _ := armGate.ArmFor(ms * MILLISECOND, at.first);
          session.Respond(OK, ArmedExit);
        case Disarm =>
          armGate.Disarm();
          session.Respond(OK, DisarmedExit);
        case Approve =>
          if !cfg.TwoMan() {
            session.Respond(BadRequest, ApproveIgnored);
            return;
          }
          var _ := approvalGate.Approve(device, cfg.ApproveWindow(), at.first, at.second);
          session.Respond(OK, ApprovedExit);
        case Inject(text) =>
          HandleInject(session, device, text, at);
      }
    }

    /** Reply with a refusal, trying the clipboard first if that is allowed. */
    method Decline(session: Session, allowed: bool, status: Status, exit: Exit)
      requires session.clipboard.None? && session.replies == []
      modifies session
      ensures session.Record() == Refuse(allowed, session.env, status, exit).(injected := old(session.injected))
    {
      if allowed {
        var ok := session.TrySetClipboard();
        session.Respond(if ok then OKClipboard else status, exit);
        return;
      }
      session.Respond(status, exit);
    }

    method HandleInject(session: Session, device: DeviceId, text: bytes, at: Readings)
      requires session.Record() == NOTHING_YET
      modifies armGate, approvalGate, session
      ensures Outcome(armGate.armedUntil, approvalGate.until, session.Record())
              == Handle(cfg, old(armGate.armedUntil), old(approvalGate.until), device, Inject(text), session.env, at)
    {
      if UnsafeToInject(cfg, text) {
        Decline(session, cfg.ClipboardWhenBlocked(), BadRequest, UnsafeText);
        return;
      }
      if !session.env.policyAllows {
        if session.env.wayland {
          Decline(session, cfg.ClipboardWhenBlocked(), BadRequest, PolicyUnavailable);
          return;
        }
        Decline(session, cfg.ClipboardWhenBlocked(), BadRequest, PolicyBlocked);
        return;
      }

      if cfg.TwoMan() {
        var approved := approvalGate.Consume(device, cfg.ConsumesApproval(), at.first);
        if !approved {
          Decline(session, cfg.ClipboardWhenBlocked(), NeedsApprove, NotApprovedExit);
          return;
        }
      }
      var armed := armGate.Consume(cfg.ConsumesArm(), at.second);
      if !armed {
        Decline(session, cfg.ClipboardWhenBlocked(), NotArmed, NotArmedExit);
        return;
      }

      var result := session.InjectPassword();
      if !result.Succeeded() {
        Decline(session, cfg.ClipboardOnInjectFailure(), Internal, InjectFailed);
        return;
      }
      session.Respond(OK, Injected);
    }
  }
}
