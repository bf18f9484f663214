/** One handler left alone: the steps of the system, run without interruption, are the handler. */
module MsgSolo {
  import opened Basics
  import opened Gates
  import opened MsgHandler
  import opened MsgSystem

  /** The steps a handler takes after decryption; those its message does not need are not enabled. */
  function SoloSteps(tid: nat, at: Readings, env: Env): seq<Action> {
    [Dispatch(tid, at, env), Lock(tid), TakeApproval(tid, at.first, env), TakeArm(tid, at.second, env),
     CallInjector(tid, env)]
  }

  function Steps(cfg: Config, limit: int, s: Sys, actions: seq<Action>): Sys
    decreases |actions|
  {
    if actions == [] then s else Steps(cfg, limit, Next(cfg, limit, s, actions[0]), actions[1..])
  }

  lemma StepsCons(cfg: Config, limit: int, s: Sys, actions: seq<Action>)
    requires actions != []
    ensures Steps(cfg, limit, s, actions) == Steps(cfg, limit, Next(cfg, limit, s, actions[0]), actions[1..])
  {
  }

  /** A finished handler has no step left. */
  lemma {:induction false} DoneStaysDone(cfg: Config, limit: int, s: Sys, tid: nat, actions: seq<Action>)
    requires InPhase(s, tid, Done)
    requires forall i :: 0 <= i < |actions| ==> !actions[i].Arrive? && actions[i].tid == tid
    ensures Steps(cfg, limit, s, actions) == s
  {
    if actions != [] {
      assert !Enabled(s, actions[0]);
      DoneStaysDone(cfg, limit, s, tid, actions[1..]);
    }
  }

  lemma SoloArmGate(cfg: Config, limit: int, s: Sys, tid: nat, at: Readings, env: Env)
    requires InPhase(s, tid, AtArm) && s.armClock <= at.second
    ensures var s' := Steps(cfg, limit, s, SoloSteps(tid, at, env)[3..]);
            && tid < |s'.threads| && s'.threads[tid].phase == Done
            && Outcome(s'.arm, s'.until, s'.threads[tid].progress) == PassArmGate(cfg, s.arm, s.until, env, at.second)
  {
    var a := SoloSteps(tid, at, env);
    var s4 := Next(cfg, limit, s, a[3]);
    StepsCons(cfg, limit, s, a[3..]);
    assert a[3..][1..] == a[4..] && a[4..][1..] == [];
    if s4.threads[tid].phase == AtInjector {
      StepsCons(cfg, limit, s4, a[4..]);
      DoneStaysDone(cfg, limit, Next(cfg, limit, s4, a[4]), tid, []);
    } else {
      DoneStaysDone(cfg, limit, s4, tid, a[4..]);
    }
  }

  lemma SoloGates(cfg: Config, limit: int, s: Sys, tid: nat, at: Readings, env: Env)
    requires InPhase(s, tid, AtApproval) && s.approvalClock <= at.first && s.armClock <= at.second
    ensures var s' := Steps(cfg, limit, s, SoloSteps(tid, at, env)[2..]);
            && tid < |s'.threads| && s'.threads[tid].phase == Done
            && Outcome(s'.arm, s'.until, s'.threads[tid].progress)
               == PassGates(cfg, s.arm, s.until, s.threads[tid].frame.device, env, at)
  {
    var a := SoloSteps(tid, at, env);
    var s3 := Next(cfg, limit, s, a[2]);
    StepsCons(cfg, limit, s, a[2..]);
    assert a[2..][1..] == a[3..];
    if s3.threads[tid].phase == AtArm {
      SoloArmGate(cfg, limit, s3, tid, at, env);
    } else {
      DoneStaysDone(cfg, limit, s3, tid, a[3..]);
    }
  }

  lemma SoloDispatch(cfg: Config, s: Sys, tid: nat, at: Readings, env: Env)
    requires InPhase(s, tid, Phase.Accepted) && s.threads[tid].frame.body.Some?
    ensures var s' := DoDispatch(cfg, s, tid, at, env);
            var device, body := s.threads[tid].frame.device, s.threads[tid].frame.body.value;
            var outcome := Handle(cfg, s.arm, s.until, device, body, env, at);
            && tid < |s'.threads|
            && if InPhase(s', tid, Waiting)
               then s' == Set(s, tid, s.threads[tid].(phase := Waiting))
                    && outcome == PassGates(cfg, s.arm, s.until, device, env, at)
               else InPhase(s', tid, Done) && Outcome(s'.arm, s'.until, s'.threads[tid].progress) == outcome
  {
    match s.threads[tid].frame.body.value
    case Inject(text) =>
    case _ =>
  }

  /** Uninterrupted, the step system does what the handler method does. */
  lemma SoloRunIsHandle(cfg: Config, limit: int, s: Sys, tid: nat, at: Readings, env: Env)
    requires InPhase(s, tid, Phase.Accepted) && s.holder.None? && s.threads[tid].frame.body.Some?
    requires ReadingsOk(s, s.threads[tid], at)
    requires s.threads[tid].frame.body.value.Inject? ==> s.approvalClock <= at.first && s.armClock <= at.second
    ensures var s' := Steps(cfg, limit, s, SoloSteps(tid, at, env));
            && tid < |s'.threads| && s'.threads[tid].phase == Done
            && Outcome(s'.arm, s'.until, s'.threads[tid].progress)
               == Handle(cfg, s.arm, s.until, s.threads[tid].frame.device, s.threads[tid].frame.body.value, env, at)
  {
    var a := SoloSteps(tid, at, env);
    var s1 := DoDispatch(cfg, s, tid, at, env);
    SoloDispatch(cfg, s, tid, at, env);
    StepsCons(cfg, limit, s, a);
    if s1.threads[tid].phase == Waiting {
      var s2 := Next(cfg, limit, s1, a[1]);
      StepsCons(cfg, limit, s1, a[1..]);
      assert a[1..][1..] == a[2..];
      assert s2 == Set(s1.(holder := Some(tid)), tid, s1.threads[tid].(phase := AtApproval));
      SoloGates(cfg, limit, s2, tid, at, env);
    } else {
      DoneStaysDone(cfg, limit, s1, tid, a[1..]);
    }
  }
}
