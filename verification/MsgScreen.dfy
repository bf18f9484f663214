/** Who gets past the text filter and the target policy in a run. */
module MsgScreen {
  import opened Basics
  import opened MsgHandler
  import opened MsgSystem
  import opened MsgInvariants
  import MA = MsgAuthorisation
  import TP = TargetPolicy

  // ---- The text filter and the policy ---------------------------------------------------------

  /** Short enough, and without line feed and carriage return unless they are allowed. */
  ghost predicate SafeText(cfg: Config, text: bytes) {
    && (cfg.maxInjectLen > 0 ==> |text| <= cfg.maxInjectLen)
    && (cfg.allowNewlines || forall k :: 0 <= k < |text| ==> text[k] != 10 && text[k] != 13)
  }

  lemma ScreenMeans(cfg: Config, text: bytes, env: Env)
    ensures UnsafeToInject(cfg, text) <==> !SafeText(cfg, text)
    ensures Screen(cfg, text, env).None? <==> SafeText(cfg, text) && env.policyAllows
  {
  }

  /** The handler is past both checks, or has got past them before it finished. */
  ghost predicate PassedScreen(th: Thread) {
    || PastScreen(th)
    || th.progress.injected.Some?
    || (|th.progress.replies| == 1 && th.progress.replies[0].exit in {NotApprovedExit, NotArmedExit})
  }

  /** This action is the dispatch at which handler `t` passed the checks with `text`. */
  ghost predicate ScreenedBy(cfg: Config, a: Action, t: nat, text: bytes) {
    a.Dispatch? && a.tid == t && SafeText(cfg, text) && a.env.policyAllows
  }

  /** A handler past the screen had passed before the step, or the step is that dispatch. */
  lemma PassingStep(cfg: Config, limit: int, s: Sys, a: Action, t: nat)
    requires ThreadsBacked(cfg, limit, s) && Enabled(s, a)
    ensures var threads := Next(cfg, limit, s, a).threads;
            t < |threads| && PassedScreen(threads[t]) ==>
              && t < |s.threads| && threads[t].frame == s.threads[t].frame
              && (PassedScreen(s.threads[t])
                  || (s.threads[t].frame.body.Some? && s.threads[t].frame.body.value.Inject?
                      && ScreenedBy(cfg, a, t, s.threads[t].frame.body.value.text)))
  {
    if !a.Arrive? {
      var tid := a.tid;
      assert ThreadOk(cfg, s.threads[tid]);
      if a.Dispatch? {
        DispatchPasses(cfg, s, tid, a.readings, a.env);
      } else {
        OtherStepsPassNobody(cfg, limit, s, a);
      }
    }
  }

  lemma DispatchPasses(cfg: Config, s: Sys, tid: nat, at: Readings, env: Env)
    requires InPhase(s, tid, Phase.Accepted) && ThreadOk(cfg, s.threads[tid])
    ensures var s' := DoDispatch(cfg, s, tid, at, env);
            && s'.threads == s.threads[tid := s'.threads[tid]]
            && s'.threads[tid].frame == s.threads[tid].frame
            && (PassedScreen(s'.threads[tid]) ==>
                  && s.threads[tid].frame.body.value.Inject?
                  && SafeText(cfg, s.threads[tid].frame.body.value.text) && env.policyAllows)
  {
    DispatchChangesHandler(cfg, s, tid, at, env);
    if s.threads[tid].frame.body.value.Inject? {
      ScreenMeans(cfg, s.threads[tid].frame.body.value.text, env);
    }
  }

  lemma OtherStepsPassNobody(cfg: Config, limit: int, s: Sys, a: Action)
    requires Enabled(s, a) && !a.Arrive? && !a.Dispatch? && ThreadOk(cfg, s.threads[a.tid])
    ensures var s' := Next(cfg, limit, s, a);
            && s'.threads == s.threads[a.tid := s'.threads[a.tid]]
            && s'.threads[a.tid].frame == s.threads[a.tid].frame
            && (PassedScreen(s'.threads[a.tid]) ==> PassedScreen(s.threads[a.tid]))
  {
    if !a.Decrypt? {
      LaterStepShape(cfg, limit, s, a);
    }
  }

  /** Whoever is past the screen in a run went through it, with its own text. */
  lemma {:induction false} PassedWasScreened(cfg: Config, limit: int, actions: seq<Action>, t: nat) returns (k: nat)
    requires t < |Run(cfg, limit, actions).threads| && PassedScreen(Run(cfg, limit, actions).threads[t])
    ensures var body := Run(cfg, limit, actions).threads[t].frame.body;
            body.Some? && body.value.Inject? && k < |actions| && ScreenedBy(cfg, actions[k], t, body.value.text)
  {
    var front, a := actions[..|actions| - 1], actions[|actions| - 1];
    var s := Run(cfg, limit, front);
    MA.RunKeepsInv(cfg, limit, front);
    if Enabled(s, a) {
      PassingStep(cfg, limit, s, a, t);
    }
    if PassedScreen(s.threads[t]) {
      k := PassedWasScreened(cfg, limit, front, t);
    } else {
      k := |actions| - 1;
    }
  }

  /** The policy's answer at each dispatch is its decision on the target focused then. */
  ghost predicate PolicyAsked(text: TP.Text, policy: TP.PolicyConfig, actions: seq<Action>,
                              focused: seq<Option<TP.Focus>>) {
    && |focused| == |actions|
    && forall k :: 0 <= k < |actions| && actions[k].Dispatch? ==>
         (actions[k].env.policyAllows <==> TP.Decide(text, policy, focused[k]) == TP.Allow)
  }

  /** Every injector call of every run serves a text that is safe to type, in a handler for which
      the policy allowed the target that was focused when it was asked. */
  lemma KeystrokesWereScreened(cfg: Config, limit: int, text: TP.Text, policy: TP.PolicyConfig,
                               actions: seq<Action>, focused: seq<Option<TP.Focus>>, i: nat) returns (k: nat)
    requires PolicyAsked(text, policy, actions, focused)
    requires i < |Run(cfg, limit, actions).log| && Run(cfg, limit, actions).log[i].InjectorCalled?
    ensures var s := Run(cfg, limit, actions);
            && MA.IsInjection(s, i)
            && var body := s.threads[s.log[i].tid].frame.body;
               && body.Some? && body.value.Inject? && SafeText(cfg, body.value.text)
               && k < |actions| && actions[k].Dispatch? && actions[k].tid == s.log[i].tid
               && TP.Decide(text, policy, focused[k]) == TP.Allow
  {
    var s := Run(cfg, limit, actions);
    MA.RunKeepsInv(cfg, limit, actions);
    assert MA.EventOwned(s, i);
    k := PassedWasScreened(cfg, limit, actions, s.log[i].tid);
  }
}
