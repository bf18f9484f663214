/** What every injector call in every run rests on, and the conservation of gate grants. */
module MsgAuthorisation {
  import opened Basics
  import opened Gates
  import opened MsgHandler
  import opened MsgSystem
  import opened MsgInvariants
  import RG = ReplayGuard
  import RH = ReplayHistory

  // ---- The mutex and the log entries of each handler -----------------------------------------

  predicate InCritical(p: Phase) {
    p in {AtApproval, AtArm, AtInjector}
  }

  ghost predicate MutexOk(s: Sys) {
    forall t: nat :: (t < |s.threads| && InCritical(s.threads[t].phase)) <==> s.holder == Some(t)
  }

  /** Each gate event belongs to one handler, which remembers where it was logged. */
  ghost predicate EventOwned(s: Sys, k: nat)
    requires k < |s.log|
  {
    var t := s.log[k].tid;
    && t < |s.threads|
    && var th := s.threads[t];
       var exits := if |th.progress.replies| == 1 then {th.progress.replies[0].exit} else {};
       match s.log[k]
       case ArmGranted(_, _) => th.phase == Done && th.accepted && th.frame.body.Some? && th.frame.body.value.Arm?
       case Disarmed(_) => th.phase == Done && th.accepted && th.frame.body == Some(Message.Disarm)
       case ApprovalGranted(_, device, _) =>
         th.phase == Done && th.accepted && th.frame.body == Some(Message.Approve) && th.frame.device == device
       case ApprovalTaken(_, device, _, _) =>
         && th.approvalAt == k && th.frame.device == device
         && (th.phase in {AtArm, AtInjector} || (th.phase == Done && exits <= {NotArmedExit, InjectFailed, Injected}))
       case ApprovalRefused(_, device, _) =>
         th.frame.device == device && th.phase == Done && exits <= {NotApprovedExit}
       case ArmTaken(_, _, _) =>
         th.armAt == k && (th.phase == AtInjector || (th.phase == Done && exits <= {InjectFailed, Injected}))
       case ArmRefused(_, _) => th.phase == Done && exits <= {NotArmedExit}
       case InjectorCalled(_) => th.injectAt == k && th.phase == Done && th.progress.injected.Some?
  }

  ghost predicate PassedApproval(th: Thread) {
    th.phase in {AtArm, AtInjector} || th.progress.injected.Some?
  }

  ghost predicate PassedArm(th: Thread) {
    th.phase == AtInjector || th.progress.injected.Some?
  }

  /** What a handler got past is in the log, in order. */
  ghost predicate PassageLogged(cfg: Config, s: Sys, t: nat)
    requires t < |s.threads|
  {
    var th, log := s.threads[t], s.log;
    && (cfg.TwoMan() && PassedApproval(th) ==>
          th.approvalAt < |log| && log[th.approvalAt].ApprovalTaken? && log[th.approvalAt].tid == t)
    && (PassedArm(th) ==>
          && th.armAt < |log| && log[th.armAt].ArmTaken? && log[th.armAt].tid == t
          && (cfg.TwoMan() ==> th.approvalAt < th.armAt))
    && (th.progress.injected.Some? ==> th.armAt < th.injectAt < |log| && log[th.injectAt] == InjectorCalled(t))
  }

  ghost predicate Bookkept(cfg: Config, s: Sys) {
    && MutexOk(s)
    && (forall t :: 0 <= t < |s.threads| ==> PassageLogged(cfg, s, t))
    && (forall k :: 0 <= k < |s.log| ==> EventOwned(s, k))
  }

  /** At most one event is appended, and it is the acting handler's. */
  ghost predicate OneEvent(s: Sys, s': Sys, tid: nat) {
    || s'.log == s.log
    || (|s'.log| == |s.log| + 1 && s'.log == s.log + [s'.log[|s.log|]] && s'.log[|s.log|].tid == tid)
  }

  /** The obligations left to the acting handler once the rest of the state is untouched. */
  lemma BookkeptUpdate(cfg: Config, s: Sys, s': Sys, tid: nat)
    requires Bookkept(cfg, s)
    requires tid < |s.threads| == |s'.threads| && s'.threads == s.threads[tid := s'.threads[tid]]
    requires OneEvent(s, s', tid)
    requires s'.holder == (if InCritical(s'.threads[tid].phase) then Some(tid)
                           else if s.holder == Some(tid) then None
                           else s.holder)
    requires InCritical(s'.threads[tid].phase) ==> s.holder == None || s.holder == Some(tid)
    requires PassageLogged(cfg, s', tid)
    requires |s'.log| > |s.log| ==> EventOwned(s', |s.log|)
    requires forall k :: 0 <= k < |s.log| && s.log[k].tid == tid ==> EventOwned(s', k)
    ensures Bookkept(cfg, s')
  {
    forall t | 0 <= t < |s'.threads|
      ensures PassageLogged(cfg, s', t)
    {
      if t != tid {
        assert PassageLogged(cfg, s, t);
      }
    }
    forall k | 0 <= k < |s'.log|
      ensures EventOwned(s', k)
    {
      if k < |s.log| {
        assert EventOwned(s, k);
        if s.log[k].tid != tid {
          assert s'.threads[s.log[k].tid] == s.threads[s.log[k].tid];
        }
      }
    }
  }

  /** Before its critical section a handler has no entry in the log. */
  lemma NoEventBefore(s: Sys, cfg: Config, tid: nat)
    requires Bookkept(cfg, s) && tid < |s.threads|
    requires s.threads[tid].phase in {Reading, Phase.Accepted, Waiting, AtApproval}
    ensures forall k :: 0 <= k < |s.log| ==> s.log[k].tid != tid
  {
    forall k | 0 <= k < |s.log|
      ensures s.log[k].tid != tid
    {
      assert EventOwned(s, k);
    }
  }

  lemma BookkeptDispatch(cfg: Config, s: Sys, tid: nat, at: Readings, env: Env)
    requires Bookkept(cfg, s) && InPhase(s, tid, Phase.Accepted) && ThreadOk(cfg, s.threads[tid])
    ensures Bookkept(cfg, DoDispatch(cfg, s, tid, at, env))
  {
    var s' := DoDispatch(cfg, s, tid, at, env);
    NoEventBefore(s, cfg, tid);
    DispatchChangesHandler(cfg, s, tid, at, env);
    assert s'.threads[tid].progress.injected.None?;
    BookkeptUpdate(cfg, s, s', tid);
  }

  lemma BookkeptApproval(cfg: Config, s: Sys, tid: nat, at: Instant, env: Env)
    requires Bookkept(cfg, s) && InPhase(s, tid, AtApproval) && ThreadOk(cfg, s.threads[tid])
    ensures Bookkept(cfg, DoApproval(cfg, s, tid, at, env))
  {
    var s' := DoApproval(cfg, s, tid, at, env);
    NoEventBefore(s, cfg, tid);
    BookkeptUpdate(cfg, s, s', tid);
  }

  /** The arm step leaves the handler's earlier entries in its hands. */
  lemma EarlierEventsOwned(cfg: Config, s: Sys, tid: nat, at: Instant, env: Env, k: nat)
    requires Bookkept(cfg, s) && InPhase(s, tid, AtArm) && k < |s.log| && s.log[k].tid == tid
    ensures EventOwned(DoArm(cfg, s, tid, at, env), k)
  {
    assert EventOwned(s, k);
  }

  lemma BookkeptArm(cfg: Config, s: Sys, tid: nat, at: Instant, env: Env)
    requires Bookkept(cfg, s) && InPhase(s, tid, AtArm) && ThreadOk(cfg, s.threads[tid])
    ensures Bookkept(cfg, DoArm(cfg, s, tid, at, env))
  {
    var s' := DoArm(cfg, s, tid, at, env);
    assert PassageLogged(cfg, s, tid);
    forall k | 0 <= k < |s.log| && s.log[k].tid == tid
      ensures EventOwned(s', k)
    {
      EarlierEventsOwned(cfg, s, tid, at, env, k);
    }
    BookkeptUpdate(cfg, s, s', tid);
  }

  lemma BookkeptInject(cfg: Config, s: Sys, tid: nat, env: Env)
    requires Bookkept(cfg, s) && InPhase(s, tid, AtInjector) && ThreadOk(cfg, s.threads[tid])
    ensures Bookkept(cfg, DoInject(cfg, s, tid, env))
  {
    var s' := DoInject(cfg, s, tid, env);
    assert PassageLogged(cfg, s, tid);
    forall k | 0 <= k < |s.log| && s.log[k].tid == tid
      ensures EventOwned(s', k)
    {
      assert EventOwned(s, k);
    }
    BookkeptUpdate(cfg, s, s', tid);
  }

  /** Steps before the critical section log nothing. */
  lemma BookkeptEarly(cfg: Config, limit: int, s: Sys, tid: nat, s': Sys, now: int)
    requires Bookkept(cfg, s) && tid < |s.threads| && ThreadOk(cfg, s.threads[tid])
    requires
      || (InPhase(s, tid, Reading) && s' == DoGiveUp(s, tid))
      || (InPhase(s, tid, Reading) && s' == DoDecrypt(s, tid, now, limit))
      || (InPhase(s, tid, Waiting) && s.holder.None?
          && s' == Set(s.(holder := Some(tid)), tid, s.threads[tid].(phase := AtApproval)))
    ensures Bookkept(cfg, s')
  {
    NoEventBefore(s, cfg, tid);
    BookkeptUpdate(cfg, s, s', tid);
  }

  lemma BookkeptArrival(cfg: Config, limit: int, s: Sys, frame: Frame)
    requires Bookkept(cfg, s)
    ensures Bookkept(cfg, Next(cfg, limit, s, Arrive(frame)))
  {
    var s' := Next(cfg, limit, s, Arrive(frame));
    forall t | 0 <= t < |s'.threads|
      ensures PassageLogged(cfg, s', t)
    {
      if t < |s.threads| {
        assert PassageLogged(cfg, s, t);
      }
    }
    forall k | 0 <= k < |s'.log|
      ensures EventOwned(s', k)
    {
      assert EventOwned(s, k);
    }
  }

  lemma BookkeptStep(cfg: Config, limit: int, s: Sys, a: Action)
    requires Bookkept(cfg, s) && ThreadsBacked(cfg, limit, s) && Enabled(s, a)
    ensures Bookkept(cfg, Next(cfg, limit, s, a))
  {
    if a.Arrive? {
      BookkeptArrival(cfg, limit, s, a.frame);
    } else {
      assert ThreadOk(cfg, s.threads[a.tid]);
      match a
      case GiveUp(tid) => BookkeptEarly(cfg, limit, s, tid, DoGiveUp(s, tid), 0);
      case Decrypt(tid, now) => BookkeptEarly(cfg, limit, s, tid, DoDecrypt(s, tid, now, limit), now);
      case Dispatch(tid, readings, env) => BookkeptDispatch(cfg, s, tid, readings, env);
      case Lock(tid) => BookkeptEarly(cfg, limit, s, tid, Next(cfg, limit, s, a), 0);
      case TakeApproval(tid, at, env) => BookkeptApproval(cfg, s, tid, at, env);
      case TakeArm(tid, at, env) => BookkeptArm(cfg, s, tid, at, env);
      case CallInjector(tid, env) => BookkeptInject(cfg, s, tid, env);
    }
  }

  // ---- Counting what was spent ------------------------------------------------------------------

  datatype Kind = ApprovalSpent | ArmSpent | BlockedUnarmed | Injections

  predicate OfKind(e: Event, kind: Kind) {
    match kind
    case ApprovalSpent => e.ApprovalTaken? && e.consumed
    case ArmSpent => e.ArmTaken? && e.consumed
    case BlockedUnarmed => e.ArmRefused?
    case Injections => e.InjectorCalled?
  }

  function Tally(log: seq<Event>, kind: Kind): nat {
    if log == [] then 0
    else Tally(log[..|log| - 1], kind) + if OfKind(log[|log| - 1], kind) then 1 else 0
  }

  /** The phase of the handler inside the critical section, Done when there is none. */
  function HeldPhase(s: Sys): Phase {
    if s.holder.Some? && s.holder.value < |s.threads| then s.threads[s.holder.value].phase else Done
  }

  /** Approvals spent are injector calls, not-armed blocks, or still in the hands of the one
      handler between the gates; arms spent are injector calls or about to be one. */
  ghost predicate Balanced(cfg: Config, log: seq<Event>, held: Phase) {
    && (cfg.TwoMan() && cfg.ConsumesApproval() ==>
          Tally(log, ApprovalSpent) == Tally(log, Injections) + Tally(log, BlockedUnarmed)
                                       + if held in {AtArm, AtInjector} then 1 else 0)
    && (cfg.ConsumesArm() ==>
          Tally(log, ArmSpent) == Tally(log, Injections) + if held == AtInjector then 1 else 0)
  }

  ghost predicate Conserved(cfg: Config, s: Sys) {
    Balanced(cfg, s.log, HeldPhase(s))
  }

  lemma TallyAppended(log: seq<Event>, e: Event, kind: Kind)
    ensures Tally(log + [e], kind) == Tally(log, kind) + if OfKind(e, kind) then 1 else 0
  {
    assert (log + [e])[..|log|] == log;
  }

  /** The balance after one event, by what the event counts as and who holds the mutex then. */
  lemma BalanceMoves(cfg: Config, log: seq<Event>, e: Event, held: Phase, held': Phase)
    requires Balanced(cfg, log, held)
    requires match e
             case ApprovalTaken(_, _, _, consumed) =>
               cfg.TwoMan() && held == AtApproval && held' == AtArm && consumed == cfg.ConsumesApproval()
             case ArmTaken(_, _, consumed) => held == AtArm && held' == AtInjector && consumed == cfg.ConsumesArm()
             case ArmRefused(_, _) => held == AtArm && held' == Done
             case InjectorCalled(_) => held == AtInjector && held' == Done
             case ApprovalRefused(_, _, _) => held == AtApproval && held' == Done
             case _ => held' == held
    ensures Balanced(cfg, log + [e], held')
  {
    TallyAppended(log, e, ApprovalSpent);
    TallyAppended(log, e, ArmSpent);
    TallyAppended(log, e, BlockedUnarmed);
    TallyAppended(log, e, Injections);
  }

  /** A dispatch concerns a handler outside the critical section and logs at most a grant or a disarm. */
  lemma DispatchOutside(cfg: Config, s: Sys, tid: nat, at: Readings, env: Env)
    requires MutexOk(s) && InPhase(s, tid, Phase.Accepted)
    ensures var s' := DoDispatch(cfg, s, tid, at, env);
            && s.holder != Some(tid) && s'.holder == s.holder
            && (s'.log == s.log
                || (s'.log == s.log + [s'.log[|s.log|]]
                    && var e := s'.log[|s.log|]; e.ArmGranted? || e.Disarmed? || e.ApprovalGranted?))
  {
  }

  lemma ConservedDispatch(cfg: Config, s: Sys, tid: nat, at: Readings, env: Env)
    requires Conserved(cfg, s) && MutexOk(s) && InPhase(s, tid, Phase.Accepted)
    ensures Conserved(cfg, DoDispatch(cfg, s, tid, at, env))
  {
    var s' := DoDispatch(cfg, s, tid, at, env);
    DispatchOutside(cfg, s, tid, at, env);
    DispatchChangesHandler(cfg, s, tid, at, env);
    assert HeldPhase(s') == HeldPhase(s);
    if s'.log != s.log {
      BalanceMoves(cfg, s.log, s'.log[|s.log|], HeldPhase(s), HeldPhase(s));
    }
  }

  lemma ConservedApproval(cfg: Config, s: Sys, tid: nat, at: Instant, env: Env)
    requires Conserved(cfg, s) && MutexOk(s) && InPhase(s, tid, AtApproval)
    ensures Conserved(cfg, DoApproval(cfg, s, tid, at, env))
  {
    var s' := DoApproval(cfg, s, tid, at, env);
    assert s.holder == Some(tid) && HeldPhase(s) == AtApproval;
    if cfg.TwoMan() {
      var e := s'.log[|s.log|];
      assert s'.log == s.log + [e];
      BalanceMoves(cfg, s.log, e, AtApproval, if e.ApprovalTaken? then AtArm else Done);
    }
  }

  lemma ConservedArm(cfg: Config, s: Sys, tid: nat, at: Instant, env: Env)
    requires Conserved(cfg, s) && MutexOk(s) && InPhase(s, tid, AtArm)
    ensures Conserved(cfg, DoArm(cfg, s, tid, at, env))
  {
    var s' := DoArm(cfg, s, tid, at, env);
    assert s.holder == Some(tid) && HeldPhase(s) == AtArm;
    var e := s'.log[|s.log|];
    assert s'.log == s.log + [e];
    BalanceMoves(cfg, s.log, e, AtArm, if e.ArmTaken? then AtInjector else Done);
  }

  lemma ConservedInject(cfg: Config, s: Sys, tid: nat, env: Env)
    requires Conserved(cfg, s) && MutexOk(s) && InPhase(s, tid, AtInjector)
    ensures Conserved(cfg, DoInject(cfg, s, tid, env))
  {
    assert s.holder == Some(tid) && HeldPhase(s) == AtInjector;
    BalanceMoves(cfg, s.log, InjectorCalled(tid), AtInjector, Done);
  }

  lemma ConservedStep(cfg: Config, limit: int, s: Sys, a: Action)
    requires Conserved(cfg, s) && MutexOk(s) && Enabled(s, a)
    ensures Conserved(cfg, Next(cfg, limit, s, a))
  {
    match a
    case Arrive(_) => assert HeldPhase(Next(cfg, limit, s, a)) == HeldPhase(s);
    case GiveUp(tid) => assert HeldPhase(DoGiveUp(s, tid)) == HeldPhase(s);
    case Decrypt(tid, now) => assert HeldPhase(DoDecrypt(s, tid, now, limit)) == HeldPhase(s);
    case Dispatch(tid, readings, env) => ConservedDispatch(cfg, s, tid, readings, env);
    case Lock(tid) => assert HeldPhase(Next(cfg, limit, s, a)) == AtApproval && HeldPhase(s) == Done;
    case TakeApproval(tid, at, env) => ConservedApproval(cfg, s, tid, at, env);
    case TakeArm(tid, at, env) => ConservedArm(cfg, s, tid, at, env);
    case CallInjector(tid, env) => ConservedInject(cfg, s, tid, env);
  }

  // ---- All invariants, over all runs --------------------------------------------------------------

  ghost predicate Inv(cfg: Config, limit: int, s: Sys) {
    && GatesMatchLog(s) && DecisionsOk(cfg, s)
    && ThreadsBacked(cfg, limit, s)
    && Bookkept(cfg, s)
    && Conserved(cfg, s)
  }

  lemma {:induction false} RunKeepsInv(cfg: Config, limit: int, actions: seq<Action>)
    ensures Inv(cfg, limit, Run(cfg, limit, actions))
  {
    if actions != [] {
      var s := Run(cfg, limit, actions[..|actions| - 1]);
      var a := actions[|actions| - 1];
      RunKeepsInv(cfg, limit, actions[..|actions| - 1]);
      if Enabled(s, a) {
        GatesStep(cfg, limit, s, a);
        ThreadsBackedStep(cfg, limit, s, a);
        BookkeptStep(cfg, limit, s, a);
        ConservedStep(cfg, limit, s, a);
      }
    }
  }

  // ---- What an injector call rests on -----------------------------------------------------------

  ghost predicate IsInjection(s: Sys, i: nat) {
    i < |s.log| && s.log[i].InjectorCalled? && s.log[i].tid < |s.threads|
  }

  /** A grant and the later entry that took it. */
  datatype Spend = Spend(granted: nat, taken: nat)

  /** `tid` opened the arm gate at `taken` on the strength of the arm message logged at
      `granted`: unexpired, and not disarmed, re-armed or spent in between. */
  ghost predicate ArmSpend(cfg: Config, s: Sys, tid: nat, sp: Spend) {
    && sp.granted < sp.taken < |s.log|
    && s.log[sp.granted].ArmGranted?
    && s.log[sp.taken].ArmTaken? && s.log[sp.taken].tid == tid
    && (s.log[sp.taken].consumed <==> cfg.armConsumeOnInject != Some(false))
    && s.log[sp.taken].at <= s.log[sp.granted].until
    && forall m :: sp.granted < m < sp.taken ==>
         !s.log[m].ArmGranted? && !s.log[m].Disarmed? && !(s.log[m].ArmTaken? && s.log[m].consumed)
  }

  ghost predicate ApprovalSpend(cfg: Config, s: Sys, tid: nat, sp: Spend) {
    && tid < |s.threads| && sp.granted < sp.taken < |s.log|
    && var device := s.threads[tid].frame.device;
       && s.log[sp.granted].ApprovalGranted? && s.log[sp.granted].device == device
       && s.log[sp.taken].ApprovalTaken? && s.log[sp.taken].tid == tid && s.log[sp.taken].device == device
       && (s.log[sp.taken].consumed <==> cfg.approveConsumeOnInject != Some(false))
       && s.log[sp.taken].at <= s.log[sp.granted].until
       && forall m :: sp.granted < m < sp.taken ==>
            && !(s.log[m].ApprovalGranted? && s.log[m].device == device)
            && !(s.log[m].ApprovalTaken? && s.log[m].device == device && s.log[m].consumed)
  }

  ghost function ArmSpendOf(s: Sys, i: nat): Spend
    requires IsInjection(s, i)
  {
    var at := s.threads[s.log[i].tid].armAt;
    var g := if at <= |s.log| then LiveArm(s.log, at) else None;
    Spend(if g.Some? then g.value else 0, at)
  }

  ghost function ApprovalSpendOf(s: Sys, i: nat): Spend
    requires IsInjection(s, i)
  {
    var th := s.threads[s.log[i].tid];
    var g := if th.approvalAt <= |s.log| then LiveApproval(s.log, th.approvalAt, th.frame.device) else None;
    Spend(if g.Some? then g.value else 0, th.approvalAt)
  }

  /** Entry `i` serves an accepted inject frame, behind an accepted arm message that was still in
      force when its gate was passed, and with two-man also behind an accepted approve message
      of the same device. */
  ghost predicate Authorised(cfg: Config, limit: int, s: Sys, i: nat)
    requires IsInjection(s, i)
  {
    var tid := s.log[i].tid;
    var arm, approval := ArmSpendOf(s, i), ApprovalSpendOf(s, i);
    && s.threads[tid].Injecting() && BackedByGuard(s.calls, s.threads[tid], limit)
    && ArmSpend(cfg, s, tid, arm) && arm.taken < i && EventOwned(s, arm.granted)
    && (cfg.twoManEnabled != Some(false) ==>
          ApprovalSpend(cfg, s, tid, approval) && approval.taken < arm.taken && EventOwned(s, approval.granted))
  }

  /** The arm message behind injector call `i`. */
  ghost function ArmFrame(cfg: Config, limit: int, s: Sys, i: nat): Frame
    requires IsInjection(s, i) && Authorised(cfg, limit, s, i)
  {
    s.threads[s.log[ArmSpendOf(s, i).granted].tid].frame
  }

  /** The approve message behind injector call `i`. */
  ghost function ApprovalFrame(cfg: Config, limit: int, s: Sys, i: nat): Frame
    requires IsInjection(s, i) && Authorised(cfg, limit, s, i) && cfg.twoManEnabled != Some(false)
  {
    s.threads[s.log[ApprovalSpendOf(s, i).granted].tid].frame
  }

  lemma AuthorisedInState(cfg: Config, limit: int, s: Sys, i: nat)
    requires Inv(cfg, limit, s) && IsInjection(s, i)
    ensures Authorised(cfg, limit, s, i)
  {
    assert EventOwned(s, i);
    var tid := s.log[i].tid;
    var th := s.threads[tid];
    assert PassageLogged(cfg, s, tid) && ThreadOk(cfg, th);
    assert DecisionOk(cfg, s.log, th.armAt);
    assert forall m :: 0 <= m < |s.log| && !EndsArm(s.log[m]) ==>
                         !s.log[m].ArmGranted? && !s.log[m].Disarmed? && !(s.log[m].ArmTaken? && s.log[m].consumed);
    if cfg.twoManEnabled != Some(false) {
      assert DecisionOk(cfg, s.log, th.approvalAt) && EventOwned(s, th.approvalAt);
    }
  }

  /** Every injector call of every run, in every interleaving, is authorised. */
  lemma InjectionAuthorised(cfg: Config, limit: int, actions: seq<Action>, i: nat)
    requires i < |Run(cfg, limit, actions).log| && Run(cfg, limit, actions).log[i].InjectorCalled?
    ensures IsInjection(Run(cfg, limit, actions), i)
    ensures Authorised(cfg, limit, Run(cfg, limit, actions), i)
  {
    var s := Run(cfg, limit, actions);
    RunKeepsInv(cfg, limit, actions);
    assert EventOwned(s, i);
    AuthorisedInState(cfg, limit, s, i);
  }

  /** Two handlers never spend the same grant: taking it ends it. */
  lemma ArmSpendsDistinct(cfg: Config, s: Sys, t: nat, sp: Spend, u: nat, sq: Spend)
    requires cfg.armConsumeOnInject != Some(false) && t != u
    requires ArmSpend(cfg, s, t, sp) && ArmSpend(cfg, s, u, sq)
    ensures sp.granted != sq.granted
  {
  }

  lemma ApprovalSpendsDistinct(cfg: Config, s: Sys, t: nat, sp: Spend, u: nat, sq: Spend)
    requires cfg.approveConsumeOnInject != Some(false) && t != u
    requires ApprovalSpend(cfg, s, t, sp) && ApprovalSpend(cfg, s, u, sq)
    ensures sp.granted != sq.granted
  {
  }

  /** No two injector calls share a handler, an accepted frame, or a grant that is spent on use. */
  lemma InjectionsDistinct(cfg: Config, limit: int, actions: seq<Action>, i: nat, j: nat)
    requires i < j < |Run(cfg, limit, actions).log|
    requires Run(cfg, limit, actions).log[i].InjectorCalled? && Run(cfg, limit, actions).log[j].InjectorCalled?
    ensures var s := Run(cfg, limit, actions);
            && IsInjection(s, i) && IsInjection(s, j)
            && s.log[i].tid != s.log[j].tid
            && s.threads[s.log[i].tid].callAt != s.threads[s.log[j].tid].callAt
            && (cfg.armConsumeOnInject != Some(false) ==> ArmSpendOf(s, i).granted != ArmSpendOf(s, j).granted)
            && (cfg.twoManEnabled != Some(false) && cfg.approveConsumeOnInject != Some(false) ==>
                  ApprovalSpendOf(s, i).granted != ApprovalSpendOf(s, j).granted)
  {
    var s := Run(cfg, limit, actions);
    RunKeepsInv(cfg, limit, actions);
    InjectionAuthorised(cfg, limit, actions, i);
    InjectionAuthorised(cfg, limit, actions, j);
    assert EventOwned(s, i) && EventOwned(s, j);
    var t, u := s.log[i].tid, s.log[j].tid;
    assert t < u || u < t;
    assert DistinctCalls(s.threads);
    if cfg.armConsumeOnInject != Some(false) {
      ArmSpendsDistinct(cfg, s, t, ArmSpendOf(s, i), u, ArmSpendOf(s, j));
    }
    if cfg.twoManEnabled != Some(false) && cfg.approveConsumeOnInject != Some(false) {
      ApprovalSpendsDistinct(cfg, s, t, ApprovalSpendOf(s, i), u, ApprovalSpendOf(s, j));
    }
  }

  /** Readings up to `top`, at most 180 seconds stale. */
  ghost predicate ClockOk(calls: seq<RG.Call>, top: int) {
    RH.ValidCalls(calls) && RH.ReadingsUpTo(calls, top) && RH.Stalled(calls, 180)
  }

  /** Two frames that can never both be accepted copies of one sealed message. */
  ghost predicate DifferentMessages(f: Frame, g: Frame, top: int) {
    f.ts >= RH.LeastSafeTs(top) ==> (f.device, f.nonce, f.ts) != (g.device, g.nonce, g.ts)
  }

  /** Different handlers serve different messages. */
  lemma HandlersServeDifferentMessages(cfg: Config, limit: int, s: Sys, top: int, t: nat, u: nat)
    requires Inv(cfg, limit, s) && ClockOk(s.calls, top)
    requires t < |s.threads| && u < |s.threads| && t != u && s.threads[t].accepted && s.threads[u].accepted
    ensures DifferentMessages(s.threads[t].frame, s.threads[u].frame, top)
  {
    var th, uh := s.threads[t], s.threads[u];
    assert BackedByGuard(s.calls, th, limit) && BackedByGuard(s.calls, uh, limit);
    assert th.callAt != uh.callAt by {
      assert t < u || u < t;
    }
    var f, g := th.frame, uh.frame;
    if f.ts >= RH.LeastSafeTs(top) && (f.device, f.nonce, f.ts) == (g.device, g.nonce, g.ts) {
      RH.NotTwice(s.calls, Min(th.callAt, uh.callAt), Max(th.callAt, uh.callAt), top, limit);
      assert false;
    }
  }

  /** From the replay guard to the injector: with clock readings up to `top` and at most 180
      seconds stale, a sealed message with a safe timestamp reaches the injector at most once,
      however its copies are delivered and interleaved. */
  lemma MessageInjectedOnce(cfg: Config, limit: int, actions: seq<Action>, top: int, i: nat, j: nat)
    requires i < j < |Run(cfg, limit, actions).log| && ClockOk(Run(cfg, limit, actions).calls, top)
    requires Run(cfg, limit, actions).log[i].InjectorCalled? && Run(cfg, limit, actions).log[j].InjectorCalled?
    ensures var s := Run(cfg, limit, actions);
            && IsInjection(s, i) && IsInjection(s, j)
            && DifferentMessages(s.threads[s.log[i].tid].frame, s.threads[s.log[j].tid].frame, top)
  {
    var s := Run(cfg, limit, actions);
    RunKeepsInv(cfg, limit, actions);
    InjectionsDistinct(cfg, limit, actions, i, j);
    InjectionAuthorised(cfg, limit, actions, i);
    InjectionAuthorised(cfg, limit, actions, j);
    HandlersServeDifferentMessages(cfg, limit, s, top, s.log[i].tid, s.log[j].tid);
  }

  predicate IsGrant(e: Event) {
    e.ArmGranted? || e.ApprovalGranted?
  }

  /** A handler grants at most once. */
  ghost predicate GrantsOnce(log: seq<Event>) {
    forall k, l :: 0 <= k < l < |log| && IsGrant(log[k]) && IsGrant(log[l]) ==> log[k].tid != log[l].tid
  }

  lemma GrantsOnceStep(cfg: Config, limit: int, s: Sys, a: Action)
    requires Inv(cfg, limit, s) && Enabled(s, a) && GrantsOnce(s.log)
    ensures GrantsOnce(Next(cfg, limit, s, a).log)
  {
    if a.Dispatch? {
      NoEventBefore(s, cfg, a.tid);
      DispatchOutside(cfg, s, a.tid, a.readings, a.env);
      DispatchLogs(cfg, s, a.tid, a.readings, a.env);
    } else {
      OtherStepsGrantNothing(cfg, limit, s, a);
    }
  }

  lemma DispatchLogs(cfg: Config, s: Sys, tid: nat, at: Readings, env: Env)
    requires InPhase(s, tid, Phase.Accepted)
    ensures OneEvent(s, DoDispatch(cfg, s, tid, at, env), tid)
  {
  }

  lemma OtherStepsGrantNothing(cfg: Config, limit: int, s: Sys, a: Action)
    requires Enabled(s, a) && !a.Dispatch?
    ensures var log' := Next(cfg, limit, s, a).log;
            log' == s.log || (log' == s.log + [log'[|s.log|]] && !IsGrant(log'[|s.log|]))
  {
  }

  lemma {:induction false} EveryHandlerGrantsOnce(cfg: Config, limit: int, actions: seq<Action>)
    ensures GrantsOnce(Run(cfg, limit, actions).log)
  {
    if actions != [] {
      var front, a := actions[..|actions| - 1], actions[|actions| - 1];
      EveryHandlerGrantsOnce(cfg, limit, front);
      RunKeepsInv(cfg, limit, front);
      if Enabled(Run(cfg, limit, front), a) {
        GrantsOnceStep(cfg, limit, Run(cfg, limit, front), a);
      }
    }
  }

  /** Different grants come from different sealed messages. */
  lemma GrantsFromDifferentMessages(cfg: Config, limit: int, actions: seq<Action>, top: int, k: nat, l: nat)
    requires var s := Run(cfg, limit, actions);
             && k < |s.log| && l < |s.log| && k != l && ClockOk(s.calls, top)
             && IsGrant(s.log[k]) && IsGrant(s.log[l])
    ensures var s := Run(cfg, limit, actions);
            && s.log[k].tid < |s.threads| && s.log[l].tid < |s.threads|
            && DifferentMessages(s.threads[s.log[k].tid].frame, s.threads[s.log[l].tid].frame, top)
  {
    var s := Run(cfg, limit, actions);
    RunKeepsInv(cfg, limit, actions);
    EveryHandlerGrantsOnce(cfg, limit, actions);
    assert EventOwned(s, k) && EventOwned(s, l);
    assert k < l || l < k;
    HandlersServeDifferentMessages(cfg, limit, s, top, s.log[k].tid, s.log[l].tid);
  }

  /** One sealed arm message, and one sealed approve message, authorises at most one keystroke if
      the grants are spent on use. */
  lemma GrantMessagesServeOnce(cfg: Config, limit: int, actions: seq<Action>, top: int, i: nat, j: nat)
    requires i < j < |Run(cfg, limit, actions).log| && ClockOk(Run(cfg, limit, actions).calls, top)
    requires Run(cfg, limit, actions).log[i].InjectorCalled? && Run(cfg, limit, actions).log[j].InjectorCalled?
    ensures IsInjection(Run(cfg, limit, actions), i) && Authorised(cfg, limit, Run(cfg, limit, actions), i)
    ensures IsInjection(Run(cfg, limit, actions), j) && Authorised(cfg, limit, Run(cfg, limit, actions), j)
    ensures cfg.armConsumeOnInject != Some(false) ==>
              DifferentMessages(ArmFrame(cfg, limit, Run(cfg, limit, actions), i),
                                ArmFrame(cfg, limit, Run(cfg, limit, actions), j), top)
    ensures cfg.twoManEnabled != Some(false) && cfg.approveConsumeOnInject != Some(false) ==>
              DifferentMessages(ApprovalFrame(cfg, limit, Run(cfg, limit, actions), i),
                                ApprovalFrame(cfg, limit, Run(cfg, limit, actions), j), top)
  {
    var s := Run(cfg, limit, actions);
    InjectionAuthorised(cfg, limit, actions, i);
    InjectionAuthorised(cfg, limit, actions, j);
    InjectionsDistinct(cfg, limit, actions, i, j);
    if cfg.armConsumeOnInject != Some(false) {
      GrantsFromDifferentMessages(cfg, limit, actions, top, ArmSpendOf(s, i).granted, ArmSpendOf(s, j).granted);
    }
    if cfg.twoManEnabled != Some(false) && cfg.approveConsumeOnInject != Some(false) {
      GrantsFromDifferentMessages(cfg, limit, actions, top,
                                  ApprovalSpendOf(s, i).granted, ApprovalSpendOf(s, j).granted);
    }
  }

  /** Whenever no handler is inside the critical section, the books balance. */
  lemma GrantsConserved(cfg: Config, limit: int, actions: seq<Action>)
    requires Run(cfg, limit, actions).holder.None?
    ensures var log := Run(cfg, limit, actions).log;
            && (cfg.twoManEnabled != Some(false) && cfg.approveConsumeOnInject != Some(false) ==>
                  Tally(log, ApprovalSpent) == Tally(log, Injections) + Tally(log, BlockedUnarmed))
            && (cfg.armConsumeOnInject != Some(false) ==> Tally(log, ArmSpent) == Tally(log, Injections))
  {
    RunKeepsInv(cfg, limit, actions);
  }

  /** The handler of an accepted inject message stopped at the text filter or the target policy. */
  ghost predicate Screened(th: Thread) {
    && th.Injecting() && th.phase == Done && |th.progress.replies| == 1
    && th.progress.replies[0].exit in {UnsafeText, PolicyBlocked, PolicyUnavailable}
  }

  /** Such a handler leaves no trace in the gates. */
  lemma ScreenedSpendNothing(cfg: Config, limit: int, actions: seq<Action>)
    ensures var s := Run(cfg, limit, actions);
            forall tid, k :: 0 <= tid < |s.threads| && Screened(s.threads[tid]) && 0 <= k < |s.log| ==>
                               s.log[k].tid != tid
  {
    var s := Run(cfg, limit, actions);
    RunKeepsInv(cfg, limit, actions);
    forall tid, k | 0 <= tid < |s.threads| && Screened(s.threads[tid]) && 0 <= k < |s.log|
      ensures s.log[k].tid != tid
    {
      assert EventOwned(s, k);
    }
  }

  /** In every run a gate is passed exactly when the log holds an unexpired grant that nothing
      has ended: forgetting expired entries never changes a decision. */
  lemma GatesDecideByLog(cfg: Config, limit: int, actions: seq<Action>, k: nat)
    requires k < |Run(cfg, limit, actions).log|
    ensures DecisionOk(cfg, Run(cfg, limit, actions).log, k)
  {
    RunKeepsInv(cfg, limit, actions);
  }

  /** With two-man switched off the approval gate is never touched; only that value switches it off. */
  lemma NoApprovalsWhenOff(cfg: Config, limit: int, actions: seq<Action>, k: nat)
    requires cfg.twoManEnabled == Some(false) && k < |Run(cfg, limit, actions).log|
    ensures var e := Run(cfg, limit, actions).log[k];
            !e.ApprovalGranted? && !e.ApprovalTaken? && !e.ApprovalRefused?
  {
    GatesDecideByLog(cfg, limit, actions, k);
  }

  /** In every interleaving an unfinished handler has done and said nothing, and a finished one has
      answered exactly once and honestly. */
  lemma EveryReplyHonest(cfg: Config, limit: int, actions: seq<Action>, tid: nat)
    requires tid < |Run(cfg, limit, actions).threads|
    ensures var th := Run(cfg, limit, actions).threads[tid];
            if th.phase != Done then th.progress == NOTHING_YET else Answered(cfg, th)
  {
    RunKeepsInv(cfg, limit, actions);
    assert ThreadOk(cfg, Run(cfg, limit, actions).threads[tid]);
  }
}
