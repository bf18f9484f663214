/** What every run owes to the fields of the configuration, the numbers in the messages and the
    answers of the operating system: how long a grant lasts, and what each handler does and says.
    The statements read those fields directly and give the status codes as the client sees them. */
module MsgOutcomes {
  import opened Basics
  import opened MsgHandler
  import opened MsgSystem
  import opened MsgInvariants
  import opened MsgScreen
  import G = Gates
  import MA = MsgAuthorisation

  // ---- How long a grant lasts --------------------------------------------------------------------

  /** Milliseconds from the reading on: the positive number of the message, else the configured one. */
  ghost predicate ArmDated(cfg: Config, f: Frame, a: Action, tid: nat, until: int) {
    && a.Dispatch? && a.tid == tid && f.body.Some? && f.body.value.Arm?
    && match f.body.value.ms
       case Some(ms) =>
         until - a.readings.first == 1_000_000 * if ms > 0 then ms else cfg.armDurationMs
       case None => until - a.readings.first == 1_000_000 * cfg.armDurationMs
  }

  ghost predicate ApprovalDated(cfg: Config, f: Frame, a: Action, tid: nat, device: DeviceId, until: int) {
    && a.Dispatch? && a.tid == tid && f.body == Some(Message.Approve) && f.device == device
    && until - a.readings.second == 1_000_000 * if cfg.approveWindowMs > 0 then cfg.approveWindowMs else 15_000
  }

  /** The grant `e` was made by `a`, for the time that the message and the configuration call for. */
  ghost predicate Dated(cfg: Config, threads: seq<Thread>, a: Action, e: Event) {
    && e.tid < |threads|
    && (e.ArmGranted? ==> ArmDated(cfg, threads[e.tid].frame, a, e.tid, e.until))
    && (e.ApprovalGranted? ==> ApprovalDated(cfg, threads[e.tid].frame, a, e.tid, e.device, e.until))
  }

  lemma GrantStep(cfg: Config, limit: int, s: Sys, a: Action)
    requires Enabled(s, a)
    ensures var s' := Next(cfg, limit, s, a);
            s'.log == s.log
            || (s'.log == s.log + [s'.log[|s.log|]]
                && (MA.IsGrant(s'.log[|s.log|]) ==> Dated(cfg, s.threads, a, s'.log[|s.log|])))
  {
    if a.Dispatch? {
      DispatchDated(cfg, s, a.tid, a.readings, a.env);
    } else {
      MA.OtherStepsGrantNothing(cfg, limit, s, a);
    }
  }

  lemma DispatchDated(cfg: Config, s: Sys, tid: nat, at: Readings, env: Env)
    requires InPhase(s, tid, Phase.Accepted)
    ensures var s' := DoDispatch(cfg, s, tid, at, env);
            s'.log == s.log
            || (s'.log == s.log + [s'.log[|s.log|]]
                && (MA.IsGrant(s'.log[|s.log|]) ==> Dated(cfg, s.threads, Dispatch(tid, at, env), s'.log[|s.log|])))
  {
  }

  /** Every grant in every run lasts exactly as long as its message and the configuration say. */
  lemma {:induction false} GrantsAreDated(cfg: Config, limit: int, actions: seq<Action>, i: nat) returns (k: nat)
    requires i < |Run(cfg, limit, actions).log| && MA.IsGrant(Run(cfg, limit, actions).log[i])
    ensures k < |actions|
    ensures Dated(cfg, Run(cfg, limit, actions).threads, actions[k], Run(cfg, limit, actions).log[i])
  {
    var front, a := actions[..|actions| - 1], actions[|actions| - 1];
    var s := Run(cfg, limit, front);
    if Enabled(s, a) {
      FramesStay(cfg, limit, s, a);
      GrantStep(cfg, limit, s, a);
    }
    if i < |s.log| {
      k := GrantsAreDated(cfg, limit, front, i);
    } else {
      k := |actions| - 1;
    }
  }

  // ---- Which reply each handler gives --------------------------------------------------------------

  /** Nothing but one reply, with this numeric status. */
  ghost predicate Said(p: Progress, code: int, exit: Exit) {
    && p.injected.None? && p.clipboard.None?
    && |p.replies| == 1 && p.replies[0].status.Code() == code && p.replies[0].exit == exit
  }

  /** The clipboard was tried exactly if `allowed` is set to true; the reply says so if it worked. */
  ghost predicate Declined(p: Progress, allowed: Option<bool>, env: Env, code: int, exit: Exit) {
    && p.clipboard == (if allowed == Some(true) then Some(env.clipboardSets) else None)
    && |p.replies| == 1 && p.replies[0].exit == exit
    && p.replies[0].status.Code() == if p.clipboard == Some(true) then 0x09 else code
  }

  ghost predicate Blocked(cfg: Config, p: Progress, env: Env, code: int, exit: Exit) {
    p.injected.None? && Declined(p, cfg.allowClipboardWhenDisarmed, env, code, exit)
  }

  /** What a finished handler has done and said if `a` was its last step. */
  ghost predicate FinishedBy(cfg: Config, th: Thread, a: Action) {
    match a
    case Arrive(_) => false
    case Lock(_) => false
    case GiveUp(_) => !th.accepted && th.frame.unread.Some? && Said(th.progress, 0x04, NotRead(th.frame.unread.value))
    case Decrypt(_, _) => !th.accepted && th.frame.unread.None? && Said(th.progress, 0x08, Undecryptable)
    case Dispatch(_, _, env) =>
      th.accepted && th.frame.body.Some? && FinishedAtDispatch(cfg, th.frame.body.value, env, th.progress)
    case TakeApproval(_, _, env) =>
      th.Injecting() && cfg.twoManEnabled != Some(false) && Blocked(cfg, th.progress, env, 0x02, NotApprovedExit)
    case TakeArm(_, _, env) => th.Injecting() && Blocked(cfg, th.progress, env, 0x01, NotArmedExit)
    case CallInjector(_, env) => th.Injecting() && FinishedAtInjector(cfg, env, th.progress)
  }

  ghost predicate FinishedAtInjector(cfg: Config, env: Env, p: Progress) {
    if env.injection in {Direct, Typing, ClipboardPaste} then
      && p.injected == Some(true) && p.clipboard.None?
      && |p.replies| == 1 && p.replies[0].exit == Injected && p.replies[0].status.Code() == 0x00
    else
      p.injected == Some(false) && Declined(p, cfg.allowClipboardOnInjectFailure, env, 0x7F, InjectFailed)
  }

  ghost predicate FinishedAtDispatch(cfg: Config, body: Message, env: Env, p: Progress) {
    match body
    case Arm(_) => Said(p, 0x00, ArmedExit)
    case Disarm => Said(p, 0x00, DisarmedExit)
    case Approve =>
      if cfg.twoManEnabled != Some(false) then Said(p, 0x00, ApprovedExit) else Said(p, 0x04, ApproveIgnored)
    case Inject(text) =>
      if !SafeText(cfg, text) then Blocked(cfg, p, env, 0x04, UnsafeText)
      else
        && !env.policyAllows
        && Blocked(cfg, p, env, 0x04, if env.wayland then PolicyUnavailable else PolicyBlocked)
  }

  lemma ScreenFinishes(cfg: Config, text: bytes, env: Env)
    ensures Screen(cfg, text, env).Some? ==>
              FinishedAtDispatch(cfg, Inject(text), env, Screen(cfg, text, env).value)
  {
    ScreenMeans(cfg, text, env);
  }

  lemma DispatchFinishes(cfg: Config, s: Sys, tid: nat, at: Readings, env: Env)
    requires InPhase(s, tid, Phase.Accepted) && s.threads[tid].frame.body.Some?
    ensures var th := DoDispatch(cfg, s, tid, at, env).threads;
            tid < |th| && (th[tid].phase == Done ==>
              FinishedAtDispatch(cfg, s.threads[tid].frame.body.value, env, th[tid].progress))
  {
    match s.threads[tid].frame.body.value
    case Inject(text) => ScreenFinishes(cfg, text, env);
    case _ =>
  }

  lemma GatesFinish(cfg: Config, s: Sys, tid: nat, at: G.Instant, env: Env)
    requires tid < |s.threads| && ThreadOk(cfg, s.threads[tid])
    ensures InPhase(s, tid, AtApproval) ==>
              var th := DoApproval(cfg, s, tid, at, env).threads;
              tid < |th| && (th[tid].phase == Done ==> FinishedBy(cfg, th[tid], TakeApproval(tid, at, env)))
    ensures InPhase(s, tid, AtArm) ==>
              var th := DoArm(cfg, s, tid, at, env).threads;
              tid < |th| && (th[tid].phase == Done ==> FinishedBy(cfg, th[tid], TakeArm(tid, at, env)))
  {
  }

  lemma InjectorFinishes(cfg: Config, s: Sys, tid: nat, env: Env)
    requires InPhase(s, tid, AtInjector) && ThreadOk(cfg, s.threads[tid])
    ensures var th := DoInject(cfg, s, tid, env).threads;
            tid < |th| && FinishedBy(cfg, th[tid], CallInjector(tid, env))
  {
  }

  /** A step that finishes a handler makes it do and say what it should. */
  lemma FinishingStep(cfg: Config, limit: int, s: Sys, a: Action)
    requires Enabled(s, a) && !a.Arrive? && ThreadOk(cfg, s.threads[a.tid])
    ensures var th := Next(cfg, limit, s, a).threads;
            a.tid < |th| && (th[a.tid].phase == Done ==> FinishedBy(cfg, th[a.tid], a))
  {
    match a
    case Dispatch(tid, readings, env) =>
      DispatchFinishes(cfg, s, tid, readings, env);
      DispatchChangesHandler(cfg, s, tid, readings, env);
    case TakeApproval(tid, at, env) => GatesFinish(cfg, s, tid, at, env);
    case TakeArm(tid, at, env) => GatesFinish(cfg, s, tid, at, env);
    case CallInjector(tid, env) => InjectorFinishes(cfg, s, tid, env);
    case _ =>
  }

  lemma OthersUntouched(cfg: Config, limit: int, s: Sys, a: Action, t: nat)
    requires Enabled(s, a) && t < |s.threads| && (a.Arrive? || a.tid != t)
    ensures t < |Next(cfg, limit, s, a).threads| && Next(cfg, limit, s, a).threads[t] == s.threads[t]
  {
    if !a.Arrive? && !a.Decrypt? {
      LaterStepShape(cfg, limit, s, a);
    }
  }

  /** In every run each finished handler has done and said what its request, the configuration and
      the answers it got from the operating system call for. */
  lemma {:induction false} EveryReplyByTheBook(cfg: Config, limit: int, actions: seq<Action>, t: nat) returns (k: nat)
    requires t < |Run(cfg, limit, actions).threads| && Run(cfg, limit, actions).threads[t].phase == Done
    ensures k < |actions| && !actions[k].Arrive? && actions[k].tid == t
    ensures FinishedBy(cfg, Run(cfg, limit, actions).threads[t], actions[k])
  {
    var front, a := actions[..|actions| - 1], actions[|actions| - 1];
    var s := Run(cfg, limit, front);
    MA.RunKeepsInv(cfg, limit, front);
    if !Enabled(s, a) {
      k := EveryReplyByTheBook(cfg, limit, front, t);
    } else {
      FramesStay(cfg, limit, s, a);
      if t < |s.threads| && (a.Arrive? || a.tid != t) {
        OthersUntouched(cfg, limit, s, a, t);
        k := EveryReplyByTheBook(cfg, limit, front, t);
      } else {
        if t < |s.threads| {
          assert ThreadOk(cfg, s.threads[t]);
          FinishingStep(cfg, limit, s, a);
        }
        k := |actions| - 1;
      }
    }
  }

  /** The filter stops exactly the unsafe texts. */
  lemma UnsafeTextsStopped(cfg: Config, limit: int, actions: seq<Action>, t: nat)
    requires t < |Run(cfg, limit, actions).threads|
    ensures var th := Run(cfg, limit, actions).threads[t];
            th.phase == Done && th.Injecting() ==>
              |th.progress.replies| == 1
              && (th.progress.replies[0].exit == UnsafeText <==> !SafeText(cfg, th.frame.body.value.text))
  {
    var th := Run(cfg, limit, actions).threads[t];
    if th.phase == Done && th.Injecting() {
      var k := EveryReplyByTheBook(cfg, limit, actions, t);
      if PassedScreen(th) {
        var j := PassedWasScreened(cfg, limit, actions, t);
      } else {
        assert actions[k].Dispatch?;
      }
    }
  }

  // ---- Nothing is answered without being done ----------------------------------------------------

  /** The event that an answer stands for. */
  ghost predicate Does(e: Event, t: nat, device: DeviceId, exit: Exit) {
    && e.tid == t
    && match exit
       case ArmedExit => e.ArmGranted?
       case DisarmedExit => e.Disarmed?
       case ApprovedExit => e.ApprovalGranted? && e.device == device
       case NotApprovedExit => e.ApprovalRefused? && e.device == device
       case NotArmedExit => e.ArmRefused?
       case Injected => e.InjectorCalled?
       case InjectFailed => e.InjectorCalled?
       case _ => false
  }

  predicate LeavesATrace(exit: Exit) {
    exit in {ArmedExit, DisarmedExit, ApprovedExit, NotApprovedExit, NotArmedExit, Injected, InjectFailed}
  }

  ghost predicate AnsweredTrace(th: Thread) {
    th.phase == Done && th.accepted && |th.progress.replies| == 1 && LeavesATrace(th.progress.replies[0].exit)
  }

  lemma TraceStep(cfg: Config, limit: int, s: Sys, a: Action)
    requires Enabled(s, a) && !a.Arrive? && ThreadOk(cfg, s.threads[a.tid])
    ensures var s' := Next(cfg, limit, s, a);
            a.tid < |s'.threads| && (AnsweredTrace(s'.threads[a.tid]) ==>
              var th := s'.threads[a.tid];
              |s'.log| == |s.log| + 1 && Does(s'.log[|s.log|], a.tid, th.frame.device, th.progress.replies[0].exit))
  {
    match a
    case Dispatch(tid, readings, env) => DispatchTrace(cfg, s, tid, readings, env);
    case TakeApproval(tid, at, env) => GateTrace(cfg, s, tid, at, env);
    case TakeArm(tid, at, env) => GateTrace(cfg, s, tid, at, env);
    case CallInjector(tid, env) =>
    case _ =>
  }

  lemma DispatchTrace(cfg: Config, s: Sys, tid: nat, at: Readings, env: Env)
    requires InPhase(s, tid, Phase.Accepted)
    ensures var s' := DoDispatch(cfg, s, tid, at, env);
            tid < |s'.threads| && (AnsweredTrace(s'.threads[tid]) ==>
              var th := s'.threads[tid];
              |s'.log| == |s.log| + 1 && Does(s'.log[|s.log|], tid, th.frame.device, th.progress.replies[0].exit))
  {
    match s.threads[tid].frame.body
    case Some(Inject(text)) => ScreenFinishes(cfg, text, env);
    case _ =>
  }

  lemma GateTrace(cfg: Config, s: Sys, tid: nat, at: G.Instant, env: Env)
    requires tid < |s.threads|
    ensures InPhase(s, tid, AtApproval) ==>
              var s' := DoApproval(cfg, s, tid, at, env);
              tid < |s'.threads| && (AnsweredTrace(s'.threads[tid]) ==>
                var th := s'.threads[tid];
                |s'.log| == |s.log| + 1 && Does(s'.log[|s.log|], tid, th.frame.device, th.progress.replies[0].exit))
    ensures InPhase(s, tid, AtArm) ==>
              var s' := DoArm(cfg, s, tid, at, env);
              tid < |s'.threads| && (AnsweredTrace(s'.threads[tid]) ==>
                var th := s'.threads[tid];
                |s'.log| == |s.log| + 1 && Does(s'.log[|s.log|], tid, th.frame.device, th.progress.replies[0].exit))
  {
  }

  /** In every run an answer that reports something done, or refused by a gate, has its event in
      the log: an arm message that is answered with success has armed, and so on. */
  lemma {:induction false} AnsweredIsLogged(cfg: Config, limit: int, actions: seq<Action>, t: nat) returns (k: nat)
    requires t < |Run(cfg, limit, actions).threads| && AnsweredTrace(Run(cfg, limit, actions).threads[t])
    ensures var s := Run(cfg, limit, actions);
            k < |s.log| && Does(s.log[k], t, s.threads[t].frame.device, s.threads[t].progress.replies[0].exit)
  {
    var front, a := actions[..|actions| - 1], actions[|actions| - 1];
    var s := Run(cfg, limit, front);
    MA.RunKeepsInv(cfg, limit, front);
    if !Enabled(s, a) {
      k := AnsweredIsLogged(cfg, limit, front, t);
    } else {
      FramesStay(cfg, limit, s, a);
      GrantStep(cfg, limit, s, a);
      if t < |s.threads| && (a.Arrive? || a.tid != t) {
        OthersUntouched(cfg, limit, s, a, t);
        k := AnsweredIsLogged(cfg, limit, front, t);
      } else {
        if t < |s.threads| {
          assert ThreadOk(cfg, s.threads[t]);
          TraceStep(cfg, limit, s, a);
        }
        k := |s.log|;
      }
    }
  }
}
