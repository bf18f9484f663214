/** The `/msg` handlers of the daemon as a concurrent step system. Each locked region is one
    step. Inject handlers hold `injectMu` from before the approval gate to the reply; approve,
    arm and disarm handlers do not take it and may run between any two of their steps. */
module MsgSystem {
  import opened Basics
  import opened Gates
  import opened MsgHandler
  import RG = ReplayGuard

  /** What the daemon makes of the bytes of one request: why they cannot be read, if so; whether
      the outer frame opens; and which message the inner frame holds, if it is well formed and
      names the same device. */
  datatype Frame = Frame(
    unread: Option<Unread>, opens: bool, device: DeviceId, nonce: bytes, ts: int, body: Option<Message>)

  datatype Phase =
    | Reading      // connected
    | Accepted     // decrypted and fresh
    | Waiting      // an inject that passed the screen and wants injectMu
    | AtApproval   // holds injectMu, approval gate next
    | AtArm        // holds injectMu, arm gate next
    | AtInjector   // holds injectMu, injector next
    | Done

  /** One handler. The last fields are bookkeeping for the proofs: whether the frame was
      accepted and by which guard call, and where the log records the handler's gate
      consumptions and injector call. */
  datatype Thread = Thread(
    frame: Frame, phase: Phase, progress: Progress,
    accepted: bool, callAt: nat, approvalAt: nat, armAt: nat, injectAt: nat)
  {
    /** The handler serves an accepted inject message. */
    predicate Injecting() {
      accepted && frame.body.Some? && frame.body.value.Inject?
    }
  }

  datatype Event =
    | ArmGranted(tid: nat, until: Instant)
    | Disarmed(tid: nat)
    | ApprovalGranted(tid: nat, device: DeviceId, until: Instant)
    | ApprovalTaken(tid: nat, device: DeviceId, at: Instant, consumed: bool)
    | ApprovalRefused(tid: nat, device: DeviceId, at: Instant)
    | ArmTaken(tid: nat, at: Instant, consumed: bool)
    | ArmRefused(tid: nat, at: Instant)
    | InjectorCalled(tid: nat)

  datatype Sys = Sys(
    guard: RG.Store,
    arm: Option<Instant>,
    until: Approvals,
    holder: Option<nat>,
    armClock: Instant,
    approvalClock: Instant,
    threads: seq<Thread>,
    calls: seq<RG.Call>,
    log: seq<Event>)

  const INITIAL := Sys(RG.EMPTY, None, map[], None, 0, 0, [], [], [])

  datatype Action =
    | Arrive(frame: Frame)
    | GiveUp(tid: nat)
    | Decrypt(tid: nat, now: int)
    | Dispatch(tid: nat, readings: Readings, env: Env)
    | Lock(tid: nat)
    | TakeApproval(tid: nat, at: Instant, env: Env)
    | TakeArm(tid: nat, at: Instant, env: Env)
    | CallInjector(tid: nat, env: Env)

  predicate InPhase(s: Sys, tid: nat, phase: Phase) {
    tid < |s.threads| && s.threads[tid].phase == phase
  }

  /** Each gate reads the clock inside its own mutex, so its readings do not decrease. Nothing
      orders the readings of one gate with those of the other. */
  predicate ReadingsOk(s: Sys, th: Thread, at: Readings) {
    match th.frame.body
    case Some(Arm(_)) => s.armClock <= at.first
    case Some(Approve) => s.approvalClock <= at.first <= at.second
    case _ => true
  }

  /** Whether the handler may take this step now. */
  predicate Enabled(s: Sys, a: Action) {
    match a
    case Arrive(_) => true
    case GiveUp(tid) => InPhase(s, tid, Reading) && s.threads[tid].frame.unread.Some?
    case Decrypt(tid, _) => InPhase(s, tid, Reading) && s.threads[tid].frame.unread.None?
    case Dispatch(tid, readings, _) =>
      InPhase(s, tid, Accepted) && ReadingsOk(s, s.threads[tid], readings)
    case Lock(tid) => InPhase(s, tid, Waiting) && s.holder.None?
    case TakeApproval(tid, at, _) => InPhase(s, tid, AtApproval) && s.approvalClock <= at
    case TakeArm(tid, at, _) => InPhase(s, tid, AtArm) && s.armClock <= at
    case CallInjector(tid, _) => InPhase(s, tid, AtInjector)
  }

  function Set(s: Sys, tid: nat, th: Thread): Sys
    requires tid < |s.threads|
  {
    s.(threads := s.threads[tid := th])
  }

  function Finish(th: Thread, p: Progress): Thread {
    th.(phase := Done, progress := p)
  }

  function Record(s: Sys, e: Event): Sys {
    s.(log := s.log + [e])
  }

  /** The reply to a request whose message never came to light. */
  function Unaccepted(f: Frame): Progress {
    if f.unread.Some? then Answer(BadRequest, NotRead(f.unread.value)) else Answer(CryptoFail, Undecryptable)
  }

  function DoGiveUp(s: Sys, tid: nat): Sys
    requires InPhase(s, tid, Reading)
  {
    Set(s, tid, Finish(s.threads[tid], Unaccepted(s.threads[tid].frame)))
  }

  function DoDecrypt(s: Sys, tid: nat, now: int, limit: int): Sys
    requires InPhase(s, tid, Reading)
  {
    var th := s.threads[tid];
    var refused := Finish(th, Unaccepted(th.frame));
    if !th.frame.opens then Set(s, tid, refused)
    else
      var c := RG.Call(th.frame.device, th.frame.nonce, th.frame.ts, now);
      var (guard', verdict) := RG.Step(s.guard, c, limit);
      var s' := s.(guard := guard', calls := s.calls + [c]);
      if verdict.Accepted? && th.frame.body.Some?
      then Set(s', tid, th.(phase := Accepted, accepted := true, callAt := |s.calls|))
      else Set(s', tid, refused)
  }

  function DoDispatch(cfg: Config, s: Sys, tid: nat, at: Readings, env: Env): Sys
    requires InPhase(s, tid, Accepted)
  {
    var th := s.threads[tid];
    match th.frame.body
    case None => s
    case Some(Arm(ms)) =>
      var until := at.first + ArmDuration(cfg, ms);
      Record(Set(s.(arm := Some(until), armClock := at.first), tid, Finish(th, Answer(OK, ArmedExit))),
             ArmGranted(tid, until))
    case Some(Disarm) =>
      Record(Set(s.(arm := None), tid, Finish(th, Answer(OK, DisarmedExit))), Disarmed(tid))
    case Some(Approve) =>
      if !cfg.TwoMan() then Set(s, tid, Finish(th, Answer(BadRequest, ApproveIgnored)))
      else
        var until' := GrantApproval(s.until, th.frame.device, at.first, at.second, cfg.ApproveWindow());
        Record(Set(s.(until := until', approvalClock := at.second), tid, Finish(th, Answer(OK, ApprovedExit))),
               ApprovalGranted(tid, th.frame.device, at.second + cfg.ApproveWindow()))
    case Some(Inject(text)) =>
      match Screen(cfg, text, env)
      case Some(stopped) => Set(s, tid, Finish(th, stopped))
      case None => Set(s, tid, th.(phase := Waiting))
  }

  function DoApproval(cfg: Config, s: Sys, tid: nat, at: Instant, env: Env): Sys
    requires InPhase(s, tid, AtApproval)
  {
    var th := s.threads[tid];
    if !cfg.TwoMan() then Set(s, tid, th.(phase := AtArm))
    else
      var (until', ok) := ConsumeApproval(s.until, th.frame.device, at, cfg.ConsumesApproval());
      var s' := s.(until := until', approvalClock := at);
      if ok
      then Record(Set(s', tid, th.(phase := AtArm, approvalAt := |s.log|)),
                  ApprovalTaken(tid, th.frame.device, at, cfg.ConsumesApproval()))
      else
        var refused := Finish(th, Refuse(cfg.ClipboardWhenBlocked(), env, NeedsApprove, NotApprovedExit));
        Record(Set(s'.(holder := None), tid, refused), ApprovalRefused(tid, th.frame.device, at))
  }

  function DoArm(cfg: Config, s: Sys, tid: nat, at: Instant, env: Env): Sys
    requires InPhase(s, tid, AtArm)
  {
    var th := s.threads[tid];
    var (arm', ok) := ConsumeArm(s.arm, at, cfg.ConsumesArm());
    var s' := s.(arm := arm', armClock := at);
    if ok
    then Record(Set(s', tid, th.(phase := AtInjector, armAt := |s.log|)), ArmTaken(tid, at, cfg.ConsumesArm()))
    else
      var refused := Finish(th, Refuse(cfg.ClipboardWhenBlocked(), env, NotArmed, NotArmedExit));
      Record(Set(s'.(holder := None), tid, refused), ArmRefused(tid, at))
  }

  function DoInject(cfg: Config, s: Sys, tid: nat, env: Env): Sys
    requires InPhase(s, tid, AtInjector)
  {
    var th := s.threads[tid];
    Record(Set(s.(holder := None), tid, Finish(th, InjectStage(cfg, env)).(injectAt := |s.log|)), InjectorCalled(tid))
  }

  /** One step; an action that is not enabled changes nothing. */
  function Next(cfg: Config, limit: int, s: Sys, a: Action): Sys {
    if !Enabled(s, a) then s
    else
      match a
      case Arrive(frame) => s.(threads := s.threads + [Thread(frame, Reading, NOTHING_YET, false, 0, 0, 0, 0)])
      case GiveUp(tid) => DoGiveUp(s, tid)
      case Decrypt(tid, now) => DoDecrypt(s, tid, now, limit)
      case Dispatch(tid, readings, env) => DoDispatch(cfg, s, tid, readings, env)
      case Lock(tid) => Set(s.(holder := Some(tid)), tid, s.threads[tid].(phase := AtApproval))
      case TakeApproval(tid, at, env) => DoApproval(cfg, s, tid, at, env)
      case TakeArm(tid, at, env) => DoArm(cfg, s, tid, at, env)
      case CallInjector(tid, env) => DoInject(cfg, s, tid, env)
  }

  /** The state a run reaches; a run is any sequence of actions, in any interleaving. */
  function Run(cfg: Config, limit: int, actions: seq<Action>): Sys {
    if actions == [] then INITIAL
    else Next(cfg, limit, Run(cfg, limit, actions[..|actions| - 1]), actions[|actions| - 1])
  }

  // ---- The gates share nothing --------------------------------------------------------------

  ghost predicate ArmWaiting(s: Sys, u: nat) {
    InPhase(s, u, Accepted) && s.threads[u].frame.body.Some? && s.threads[u].frame.body.value.Arm?
  }

  ghost predicate ApproveWaiting(s: Sys, t: nat) {
    InPhase(s, t, Accepted) && s.threads[t].frame.body == Some(Message.Approve)
  }

  lemma ArmStep(cfg: Config, limit: int, s: Sys, u: nat, y: Readings, env: Env)
    requires ArmWaiting(s, u) && s.armClock <= y.first
    ensures var until := y.first + ArmDuration(cfg, s.threads[u].frame.body.value.ms);
            && Enabled(s, Dispatch(u, y, env))
            && Next(cfg, limit, s, Dispatch(u, y, env))
               == s.(arm := Some(until), armClock := y.first, log := s.log + [ArmGranted(u, until)],
                     threads := s.threads[u := Finish(s.threads[u], Answer(OK, ArmedExit))])
  {
  }

  lemma ApproveStep(cfg: Config, limit: int, s: Sys, t: nat, x: Readings, env: Env)
    requires ApproveWaiting(s, t) && s.approvalClock <= x.first <= x.second && cfg.TwoMan()
    ensures var device, until := s.threads[t].frame.device, x.second + cfg.ApproveWindow();
            && Enabled(s, Dispatch(t, x, env))
            && Next(cfg, limit, s, Dispatch(t, x, env))
               == s.(until := GrantApproval(s.until, device, x.first, x.second, cfg.ApproveWindow()),
                     approvalClock := x.second, log := s.log + [ApprovalGranted(t, device, until)],
                     threads := s.threads[t := Finish(s.threads[t], Answer(OK, ApprovedExit))])
  {
  }

  /** With two-man on, an arm message may be handled before or after an approve message, whether or
      not its clock reading falls between the two readings of the latter. The order shows in the
      log and nowhere else. */
  lemma ArmAndApproveCommute(cfg: Config, limit: int, s: Sys, t: nat, x: Readings, u: nat, y: Readings, env: Env)
    requires ApproveWaiting(s, t) && ArmWaiting(s, u) && cfg.TwoMan()
    requires s.approvalClock <= x.first <= x.second && s.armClock <= y.first
    ensures var a, b := Dispatch(t, x, env), Dispatch(u, y, env);
            && Enabled(s, a) && Enabled(Next(cfg, limit, s, a), b)
            && Enabled(s, b) && Enabled(Next(cfg, limit, s, b), a)
            && Next(cfg, limit, Next(cfg, limit, s, a), b).(log := [])
               == Next(cfg, limit, Next(cfg, limit, s, b), a).(log := [])
  {
    ApproveStep(cfg, limit, s, t, x, env);
    ArmStep(cfg, limit, s, u, y, env);
    var p, q := Next(cfg, limit, s, Dispatch(t, x, env)), Next(cfg, limit, s, Dispatch(u, y, env));
    ArmStep(cfg, limit, p, u, y, env);
    ApproveStep(cfg, limit, q, t, x, env);
    var th, uh := Finish(s.threads[t], Answer(OK, ApprovedExit)), Finish(s.threads[u], Answer(OK, ArmedExit));
    assert s.threads[t := th][u := uh] == s.threads[u := uh][t := th];
  }

  // ---- Reading the log ----------------------------------------------------------------------

  /** Ends whatever arming was in force. */
  predicate EndsArm(e: Event) {
    e.ArmGranted? || e.Disarmed? || (e.ArmTaken? && e.consumed)
  }

  predicate EndsApproval(e: Event, device: DeviceId) {
    (e.ApprovalGranted? && e.device == device) || (e.ApprovalTaken? && e.device == device && e.consumed)
  }

  /** Index of the arm grant in force after the first `n` events, expired or not. */
  function LiveArm(log: seq<Event>, n: nat): (g: Option<nat>)
    requires n <= |log|
    ensures g.Some? ==>
      && g.value < n && log[g.value].ArmGranted?
      && forall m :: g.value < m < n ==> !EndsArm(log[m])
  {
    if n == 0 then None
    else if log[n - 1].ArmGranted? then Some(n - 1)
    else if EndsArm(log[n - 1]) then None
    else LiveArm(log, n - 1)
  }

  function LiveApproval(log: seq<Event>, n: nat, device: DeviceId): (g: Option<nat>)
    requires n <= |log|
    ensures g.Some? ==>
      && g.value < n && log[g.value].ApprovalGranted? && log[g.value].device == device
      && forall m :: g.value < m < n ==> !EndsApproval(log[m], device)
  {
    if n == 0 then None
    else if log[n - 1].ApprovalGranted? && log[n - 1].device == device then Some(n - 1)
    else if EndsApproval(log[n - 1], device) then None
    else LiveApproval(log, n - 1, device)
  }

  lemma {:induction false} LiveArmPrefix(log: seq<Event>, e: Event, n: nat)
    requires n <= |log|
    ensures LiveArm(log + [e], n) == LiveArm(log, n)
  {
    if n > 0 {
      LiveArmPrefix(log, e, n - 1);
    }
  }

  lemma {:induction false} LiveApprovalPrefix(log: seq<Event>, e: Event, n: nat, device: DeviceId)
    requires n <= |log|
    ensures LiveApproval(log + [e], n, device) == LiveApproval(log, n, device)
  {
    if n > 0 {
      LiveApprovalPrefix(log, e, n - 1, device);
    }
  }
}
