/** Invariants of the `/msg` step system over every run and interleaving, and what they
    authorise. */
module MsgInvariants {
  import opened Basics
  import opened Gates
  import opened MsgHandler
  import opened MsgSystem
  import RG = ReplayGuard
  import RH = ReplayHistory

  // ---- The gates decide by the log --------------------------------------------------------

  /** The gate fields agree with the log up to entries that have already expired. */
  ghost predicate ArmMatchesLog(arm: Option<Instant>, clock: Instant, log: seq<Event>) {
    var g := LiveArm(log, |log|);
    if arm.Some? then g.Some? && log[g.value].until == arm.value
    else g.None? || log[g.value].until < clock
  }

  ghost predicate ApprovalMatchesLog(until: Approvals, clock: Instant, log: seq<Event>, d: DeviceId) {
    var g := LiveApproval(log, |log|, d);
    if d in until then g.Some? && log[g.value].until == until[d]
    else g.None? || log[g.value].until < clock
  }

  ghost predicate GatesMatchLog(s: Sys) {
    && ArmMatchesLog(s.arm, s.armClock, s.log)
    && forall d :: ApprovalMatchesLog(s.until, s.approvalClock, s.log, d)
  }

  /** An unexpired arm grant that nothing has ended is in force at time `at`. */
  ghost predicate Armed(log: seq<Event>, n: nat, at: Instant)
    requires n <= |log|
  {
    var g := LiveArm(log, n);
    g.Some? && at <= log[g.value].until
  }

  ghost predicate Approved(log: seq<Event>, n: nat, device: DeviceId, at: Instant)
    requires n <= |log|
  {
    var g := LiveApproval(log, n, device);
    g.Some? && at <= log[g.value].until
  }

  /** The gate decision recorded at `k` is the one the grants recorded before it call for. */
  ghost predicate DecisionOk(cfg: Config, log: seq<Event>, k: nat)
    requires k < |log|
  {
    match log[k]
    case ArmTaken(_, at, consumed) => Armed(log, k, at) && (consumed <==> cfg.armConsumeOnInject != Some(false))
    case ArmRefused(_, at) => !Armed(log, k, at)
    case ApprovalTaken(_, device, at, consumed) =>
      && cfg.twoManEnabled != Some(false) && Approved(log, k, device, at)
      && (consumed <==> cfg.approveConsumeOnInject != Some(false))
    case ApprovalRefused(_, device, at) => cfg.twoManEnabled != Some(false) && !Approved(log, k, device, at)
    case ApprovalGranted(_, _, _) => cfg.twoManEnabled != Some(false)
    case _ => true
  }

  ghost predicate DecisionsOk(cfg: Config, s: Sys) {
    forall k :: 0 <= k < |s.log| ==> DecisionOk(cfg, s.log, k)
  }

  lemma DecisionPrefix(cfg: Config, log: seq<Event>, e: Event, k: nat)
    requires k < |log|
    ensures DecisionOk(cfg, log + [e], k) == DecisionOk(cfg, log, k)
  {
    LiveArmPrefix(log, e, k);
    match log[k]
    case ApprovalTaken(_, device, _, _) => LiveApprovalPrefix(log, e, k, device);
    case ApprovalRefused(_, device, _) => LiveApprovalPrefix(log, e, k, device);
    case _ =>
  }

  /** Appending an event disturbs no earlier decision and no earlier grant. */
  lemma LogAppended(cfg: Config, log: seq<Event>, e: Event)
    ensures LiveArm(log + [e], |log|) == LiveArm(log, |log|)
    ensures forall d :: LiveApproval(log + [e], |log|, d) == LiveApproval(log, |log|, d)
    ensures (forall k :: 0 <= k < |log| ==> DecisionOk(cfg, log, k)) && DecisionOk(cfg, log + [e], |log|) ==>
              forall k :: 0 <= k < |log + [e]| ==> DecisionOk(cfg, log + [e], k)
  {
    LiveArmPrefix(log, e, |log|);
    forall d
      ensures LiveApproval(log + [e], |log|, d) == LiveApproval(log, |log|, d)
    {
      LiveApprovalPrefix(log, e, |log|, d);
    }
    forall k | 0 <= k < |log|
      ensures DecisionOk(cfg, log + [e], k) == DecisionOk(cfg, log, k)
    {
      DecisionPrefix(cfg, log, e, k);
    }
  }

  lemma ArmGrantMatches(cfg: Config, s: Sys, e: Event, clock': Instant)
    requires GatesMatchLog(s) && s.armClock <= clock' && (e.ArmGranted? || e.Disarmed?)
    ensures ArmMatchesLog(if e.ArmGranted? then Some(e.until) else None, clock', s.log + [e])
    ensures forall d :: ApprovalMatchesLog(s.until, s.approvalClock, s.log + [e], d)
  {
    LogAppended(cfg, s.log, e);
    forall d
      ensures ApprovalMatchesLog(s.until, s.approvalClock, s.log + [e], d)
    {
      assert ApprovalMatchesLog(s.until, s.approvalClock, s.log, d);
    }
  }

  lemma ApprovalGrantMatches(cfg: Config, s: Sys, tid: nat, device: DeviceId, at: Readings)
    requires GatesMatchLog(s) && s.approvalClock <= at.first <= at.second
    ensures var log' := s.log + [ApprovalGranted(tid, device, at.second + cfg.ApproveWindow())];
            var until' := GrantApproval(s.until, device, at.first, at.second, cfg.ApproveWindow());
            && ArmMatchesLog(s.arm, s.armClock, log')
            && forall d :: ApprovalMatchesLog(until', at.second, log', d)
  {
    var e := ApprovalGranted(tid, device, at.second + cfg.ApproveWindow());
    var until' := GrantApproval(s.until, device, at.first, at.second, cfg.ApproveWindow());
    LogAppended(cfg, s.log, e);
    forall d
      ensures ApprovalMatchesLog(until', at.second, s.log + [e], d)
    {
      assert ApprovalMatchesLog(s.until, s.approvalClock, s.log, d);
    }
  }

  lemma GatesDispatch(cfg: Config, s: Sys, tid: nat, at: Readings, env: Env)
    requires GatesMatchLog(s) && DecisionsOk(cfg, s)
    requires InPhase(s, tid, Phase.Accepted) && ReadingsOk(s, s.threads[tid], at)
    ensures var s' := DoDispatch(cfg, s, tid, at, env); GatesMatchLog(s') && DecisionsOk(cfg, s')
  {
    var s' := DoDispatch(cfg, s, tid, at, env);
    match s.threads[tid].frame.body
    case Some(Arm(ms)) =>
      var e := ArmGranted(tid, at.first + ArmDuration(cfg, ms));
      assert s'.log == s.log + [e];
      ArmGrantMatches(cfg, s, e, at.first);
      LogAppended(cfg, s.log, e);
    case Some(Disarm) =>
      assert s'.log == s.log + [Disarmed(tid)];
      ArmGrantMatches(cfg, s, Disarmed(tid), s.armClock);
      LogAppended(cfg, s.log, Disarmed(tid));
    case Some(Approve) =>
      if cfg.TwoMan() {
        var e := ApprovalGranted(tid, s.threads[tid].frame.device, at.second + cfg.ApproveWindow());
        assert s'.log == s.log + [e];
        ApprovalGrantMatches(cfg, s, tid, s.threads[tid].frame.device, at);
        LogAppended(cfg, s.log, e);
      }
    case _ =>
      assert s'.log == s.log && s'.arm == s.arm && s'.until == s.until
          && s'.armClock == s.armClock && s'.approvalClock == s.approvalClock;
  }

  lemma ApprovalTakeMatches(cfg: Config, s: Sys, tid: nat, device: DeviceId, at: Instant)
    requires GatesMatchLog(s) && s.approvalClock <= at && cfg.TwoMan()
    ensures var (until', ok) := ConsumeApproval(s.until, device, at, cfg.ConsumesApproval());
            var e := if ok then ApprovalTaken(tid, device, at, cfg.ConsumesApproval())
                     else ApprovalRefused(tid, device, at);
            && DecisionOk(cfg, s.log + [e], |s.log|)
            && ArmMatchesLog(s.arm, s.armClock, s.log + [e])
            && forall d :: ApprovalMatchesLog(until', at, s.log + [e], d)
  {
    var (until', ok) := ConsumeApproval(s.until, device, at, cfg.ConsumesApproval());
    var e := if ok then ApprovalTaken(tid, device, at, cfg.ConsumesApproval()) else ApprovalRefused(tid, device, at);
    LogAppended(cfg, s.log, e);
    assert ApprovalMatchesLog(s.until, s.approvalClock, s.log, device);
    forall d
      ensures ApprovalMatchesLog(until', at, s.log + [e], d)
    {
      assert ApprovalMatchesLog(s.until, s.approvalClock, s.log, d);
    }
  }

  lemma GatesApproval(cfg: Config, s: Sys, tid: nat, at: Instant, env: Env)
    requires GatesMatchLog(s) && DecisionsOk(cfg, s)
    requires InPhase(s, tid, AtApproval) && s.approvalClock <= at
    ensures var s' := DoApproval(cfg, s, tid, at, env); GatesMatchLog(s') && DecisionsOk(cfg, s')
  {
    if cfg.TwoMan() {
      var device := s.threads[tid].frame.device;
      var s' := DoApproval(cfg, s, tid, at, env);
      var e := s'.log[|s.log|];
      assert s'.log == s.log + [e];
      ApprovalTakeMatches(cfg, s, tid, device, at);
      LogAppended(cfg, s.log, e);
    }
  }

  lemma ArmTakeMatches(cfg: Config, s: Sys, tid: nat, at: Instant)
    requires GatesMatchLog(s) && s.armClock <= at
    ensures var (arm', ok) := ConsumeArm(s.arm, at, cfg.ConsumesArm());
            var e := if ok then ArmTaken(tid, at, cfg.ConsumesArm()) else ArmRefused(tid, at);
            && DecisionOk(cfg, s.log + [e], |s.log|)
            && ArmMatchesLog(arm', at, s.log + [e])
            && forall d :: ApprovalMatchesLog(s.until, s.approvalClock, s.log + [e], d)
  {
    var (arm', ok) := ConsumeArm(s.arm, at, cfg.ConsumesArm());
    var e := if ok then ArmTaken(tid, at, cfg.ConsumesArm()) else ArmRefused(tid, at);
    LogAppended(cfg, s.log, e);
    forall d
      ensures ApprovalMatchesLog(s.until, s.approvalClock, s.log + [e], d)
    {
      assert ApprovalMatchesLog(s.until, s.approvalClock, s.log, d);
    }
  }

  lemma GatesArm(cfg: Config, s: Sys, tid: nat, at: Instant, env: Env)
    requires GatesMatchLog(s) && DecisionsOk(cfg, s)
    requires InPhase(s, tid, AtArm) && s.armClock <= at
    ensures var s' := DoArm(cfg, s, tid, at, env); GatesMatchLog(s') && DecisionsOk(cfg, s')
  {
    var s' := DoArm(cfg, s, tid, at, env);
    var e := s'.log[|s.log|];
    assert s'.log == s.log + [e];
    ArmTakeMatches(cfg, s, tid, at);
    LogAppended(cfg, s.log, e);
  }

  lemma GatesInject(cfg: Config, s: Sys, tid: nat, env: Env)
    requires GatesMatchLog(s) && DecisionsOk(cfg, s)
    requires InPhase(s, tid, AtInjector)
    ensures var s' := DoInject(cfg, s, tid, env); GatesMatchLog(s') && DecisionsOk(cfg, s')
  {
    var s' := DoInject(cfg, s, tid, env);
    LogAppended(cfg, s.log, InjectorCalled(tid));
    forall d
      ensures ApprovalMatchesLog(s'.until, s'.approvalClock, s'.log, d)
    {
      assert ApprovalMatchesLog(s.until, s.approvalClock, s.log, d);
    }
  }

  lemma GatesStep(cfg: Config, limit: int, s: Sys, a: Action)
    requires GatesMatchLog(s) && DecisionsOk(cfg, s) && Enabled(s, a)
    ensures GatesMatchLog(Next(cfg, limit, s, a)) && DecisionsOk(cfg, Next(cfg, limit, s, a))
  {
    match a
    case Dispatch(tid, readings, env) => GatesDispatch(cfg, s, tid, readings, env);
    case TakeApproval(tid, at, env) => GatesApproval(cfg, s, tid, at, env);
    case TakeArm(tid, at, env) => GatesArm(cfg, s, tid, at, env);
    case CallInjector(tid, env) => GatesInject(cfg, s, tid, env);
    case _ =>
      var s' := Next(cfg, limit, s, a);
      assert s'.log == s.log && s'.arm == s.arm && s'.until == s.until
          && s'.armClock == s.armClock && s'.approvalClock == s.approvalClock;
  }

  // ---- Every handler is backed by its own accepted frame ----------------------------------

  ghost predicate BackedByGuard(calls: seq<RG.Call>, th: Thread, limit: int) {
    && th.callAt < |calls|
    && RH.SameMessage(calls[th.callAt], RG.Call(th.frame.device, th.frame.nonce, th.frame.ts, 0))
    && RH.VerdictAt(calls, th.callAt, limit).Accepted?
  }

  ghost predicate PastScreen(th: Thread) {
    th.phase in {Waiting, AtApproval, AtArm, AtInjector}
  }

  /** What a finished handler has done and said: exactly one reply, the one its request calls for. */
  ghost predicate Answered(cfg: Config, th: Thread) {
    if !th.accepted then th.progress == Unaccepted(th.frame)
    else
      match th.frame.body
      case Some(Inject(_)) => HonestInject(cfg, th.progress)
      case Some(Arm(_)) => th.progress == Answer(OK, ArmedExit)
      case Some(Disarm) => th.progress == Answer(OK, DisarmedExit)
      case Some(Approve) =>
        th.progress == if cfg.twoManEnabled != Some(false) then Answer(OK, ApprovedExit)
                       else Answer(BadRequest, ApproveIgnored)
      case None => false
  }

  /** A handler is either unfinished and silent, or finished with one honest reply. */
  ghost predicate ThreadOk(cfg: Config, th: Thread) {
    && (th.accepted ==> th.frame.unread.None? && th.frame.opens && th.frame.body.Some?)
    && (th.phase == Reading ==> !th.accepted)
    && (th.phase !in {Reading, Done} ==> th.accepted)
    && (PastScreen(th) ==> th.Injecting())
    && (if th.phase != Done then th.progress == NOTHING_YET else Answered(cfg, th))
  }

  ghost predicate DistinctCalls(threads: seq<Thread>) {
    forall t, u :: 0 <= t < u < |threads| && threads[t].accepted && threads[u].accepted ==>
      threads[t].callAt != threads[u].callAt
  }

  ghost predicate ThreadsBacked(cfg: Config, limit: int, s: Sys) {
    && s.guard == RH.After(s.calls, |s.calls|, limit)
    && (forall t :: 0 <= t < |s.threads| ==> ThreadOk(cfg, s.threads[t]))
    && (forall t :: 0 <= t < |s.threads| && s.threads[t].accepted ==> BackedByGuard(s.calls, s.threads[t], limit))
    && DistinctCalls(s.threads)
  }

  lemma BackingSurvives(calls: seq<RG.Call>, c: RG.Call, th: Thread, limit: int)
    requires BackedByGuard(calls, th, limit)
    ensures BackedByGuard(calls + [c], th, limit)
  {
    RH.AfterPrefix(calls, [c], th.callAt, limit);
  }

  /** Decryption changes the handler and, if the outer frame opens, makes one guard call. */
  lemma DecryptShape(cfg: Config, limit: int, s: Sys, tid: nat, now: int)
    requires InPhase(s, tid, Reading) && s.threads[tid].frame.unread.None? && ThreadOk(cfg, s.threads[tid])
    requires s.guard == RH.After(s.calls, |s.calls|, limit)
    ensures var s' := DoDecrypt(s, tid, now, limit);
            && |s'.threads| == |s.threads| && s'.threads == s.threads[tid := s'.threads[tid]]
            && ThreadOk(cfg, s'.threads[tid])
            && s'.guard == RH.After(s'.calls, |s'.calls|, limit)
            && (s'.calls == s.calls || (s'.calls != [] && s'.calls == s.calls + [s'.calls[|s.calls|]]))
            && (s'.threads[tid].accepted ==>
                  s'.threads[tid].callAt == |s.calls| && BackedByGuard(s'.calls, s'.threads[tid], limit))
  {
    var th := s.threads[tid];
    if th.frame.opens {
      RH.CallAppended(s.calls, RG.Call(th.frame.device, th.frame.nonce, th.frame.ts, now), limit);
    }
  }

  lemma ThreadsBackedDecrypt(cfg: Config, limit: int, s: Sys, tid: nat, now: int)
    requires ThreadsBacked(cfg, limit, s) && InPhase(s, tid, Reading) && s.threads[tid].frame.unread.None?
    ensures ThreadsBacked(cfg, limit, DoDecrypt(s, tid, now, limit))
  {
    assert ThreadOk(cfg, s.threads[tid]);
    DecryptShape(cfg, limit, s, tid, now);
    var s' := DoDecrypt(s, tid, now, limit);
    forall t | 0 <= t < |s'.threads| && s'.threads[t].accepted
      ensures BackedByGuard(s'.calls, s'.threads[t], limit)
      ensures t != tid ==> s'.threads[t].callAt < |s.calls|
    {
      if t != tid && s'.calls != s.calls {
        BackingSurvives(s.calls, s'.calls[|s.calls|], s.threads[t], limit);
      }
    }
  }

  /** `s'` differs from `s` in gates, log and one handler, whose frame and backing stay. */
  ghost predicate OnlyHandlerChanged(cfg: Config, s: Sys, s': Sys, tid: nat) {
    && tid < |s.threads| == |s'.threads|
    && s'.threads == s.threads[tid := s'.threads[tid]]
    && s'.guard == s.guard && s'.calls == s.calls
    && s'.threads[tid].accepted == s.threads[tid].accepted
    && s'.threads[tid].callAt == s.threads[tid].callAt
    && s'.threads[tid].frame == s.threads[tid].frame
    && (ThreadOk(cfg, s.threads[tid]) ==> ThreadOk(cfg, s'.threads[tid]))
  }

  lemma DispatchChangesHandler(cfg: Config, s: Sys, tid: nat, at: Readings, env: Env)
    requires InPhase(s, tid, Phase.Accepted)
    ensures OnlyHandlerChanged(cfg, s, DoDispatch(cfg, s, tid, at, env), tid)
  {
    match s.threads[tid].frame.body
    case Some(Inject(text)) => assert Screen(cfg, text, env).Some? ==> HonestInject(cfg, Screen(cfg, text, env).value);
    case _ =>
  }

  lemma GateChangesHandler(cfg: Config, s: Sys, tid: nat, at: Instant, env: Env)
    ensures InPhase(s, tid, AtApproval) ==> OnlyHandlerChanged(cfg, s, DoApproval(cfg, s, tid, at, env), tid)
    ensures InPhase(s, tid, AtArm) ==> OnlyHandlerChanged(cfg, s, DoArm(cfg, s, tid, at, env), tid)
  {
    assert HonestInject(cfg, Refuse(cfg.ClipboardWhenBlocked(), env, NeedsApprove, NotApprovedExit));
    assert HonestInject(cfg, Refuse(cfg.ClipboardWhenBlocked(), env, NotArmed, NotArmedExit));
  }

  lemma InjectChangesHandler(cfg: Config, s: Sys, tid: nat, env: Env)
    requires InPhase(s, tid, AtInjector)
    ensures OnlyHandlerChanged(cfg, s, DoInject(cfg, s, tid, env), tid)
  {
    assert HonestInject(cfg, InjectStage(cfg, env));
  }

  /** A step past decryption changes one handler and nothing that backs it. */
  lemma LaterStepShape(cfg: Config, limit: int, s: Sys, a: Action)
    requires !a.Arrive? && !a.Decrypt? && Enabled(s, a)
    ensures OnlyHandlerChanged(cfg, s, Next(cfg, limit, s, a), a.tid)
  {
    match a
    case Dispatch(tid, readings, env) => DispatchChangesHandler(cfg, s, tid, readings, env);
    case TakeApproval(tid, at, env) => GateChangesHandler(cfg, s, tid, at, env);
    case TakeArm(tid, at, env) => GateChangesHandler(cfg, s, tid, at, env);
    case CallInjector(tid, env) => InjectChangesHandler(cfg, s, tid, env);
    case _ =>
  }

  /** A step keeps the frames of the handlers there are; only an arrival adds one. */
  lemma FramesStay(cfg: Config, limit: int, s: Sys, a: Action)
    requires Enabled(s, a)
    ensures var s' := Next(cfg, limit, s, a);
            && |s.threads| <= |s'.threads| <= |s.threads| + 1
            && (forall t :: 0 <= t < |s.threads| ==> s'.threads[t].frame == s.threads[t].frame)
            && (|s'.threads| > |s.threads| ==> a.Arrive? && s'.threads[|s.threads|].frame == a.frame)
  {
    if !a.Arrive? && !a.Decrypt? {
      LaterStepShape(cfg, limit, s, a);
    }
  }

  lemma ThreadsBackedStep(cfg: Config, limit: int, s: Sys, a: Action)
    requires ThreadsBacked(cfg, limit, s) && Enabled(s, a)
    ensures ThreadsBacked(cfg, limit, Next(cfg, limit, s, a))
  {
    if a.Decrypt? {
      ThreadsBackedDecrypt(cfg, limit, s, a.tid, a.now);
    } else if !a.Arrive? {
      LaterStepShape(cfg, limit, s, a);
      var s' := Next(cfg, limit, s, a);
      forall t | 0 <= t < |s'.threads|
        ensures ThreadOk(cfg, s'.threads[t])
        ensures s'.threads[t].accepted ==> BackedByGuard(s'.calls, s'.threads[t], limit)
      {
        assert ThreadOk(cfg, s.threads[t]);
      }
      assert DistinctCalls(s'.threads);
    }
  }
}
