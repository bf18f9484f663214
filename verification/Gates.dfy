/** The arm gate and the two-man approval gate. Both read the clock inside their lock. */
module Gates {
  import opened Basics

  /** An instant of the monotonic clock, in nanoseconds. A zero `time.Time` is None. */
  type Instant = int

  type Approvals = map<DeviceId, Instant>

  // ---- Arm gate -----------------------------------------------------------------------

  function ConsumeArm(armed: Option<Instant>, now: Instant, consume: bool): (Option<Instant>, bool) {
    if armed.None? then (None, false)
    else if now > armed.value then (None, false)
    else (if consume then None else armed, true)
  }

  class ArmGate {
    var armedUntil: Option<Instant>

    constructor ()
      ensures armedUntil == None
    {
      armedUntil := None;
    }

    method ArmFor(dur: int, now: Instant) returns (until: Instant)
      modifies this
      ensures until == now + dur && armedUntil == Some(until)
    {
      armedUntil := Some(now + dur);
      return now + dur;
    }

    method Disarm()
      modifies this
      ensures armedUntil == None
    {
      armedUntil := None;
    }

    method Consume(consume: bool, now: Instant) returns (ok: bool)
      modifies this
      ensures (armedUntil, ok) == ConsumeArm(old(armedUntil), now, consume)
    {
      if armedUntil.None? {
        return false;
      }
      if now > armedUntil.value {
        armedUntil := None;
        return false;
      }
      if consume {
        armedUntil := None;
      }
      return true;
    }
  }

  // ---- Two-man gate -------------------------------------------------------------------

  function Cleanup(until: Approvals, now: Instant): Approvals {
    map id | id in until && now <= until[id] :: until[id]
  }

  /** `Approve` reads the clock twice: once to clean up, once for the deadline. */
  function GrantApproval(until: Approvals, device: DeviceId, cleanedAt: Instant, now: Instant, d: int): Approvals {
    Cleanup(until, cleanedAt)[device := now + d]
  }

  function ConsumeApproval(until: Approvals, device: DeviceId, now: Instant, consume: bool): (Approvals, bool) {
    var live := Cleanup(until, now);
    if device !in live || now > live[device] then (live, false)
    else (if consume then live - {device} else live, true)
  }

  class TwoManGate {
    var until: Approvals

    constructor ()
      ensures until == map[]
    {
      until := map[];
    }

    /** Deletes expired approvals, visiting the devices in any order. */
    method CleanupLocked(now: Instant)
      modifies this
      ensures until == Cleanup(old(until), now)
    {
      var todo := until.Keys;
      while todo != {}
        invariant todo <= until.Keys <= old(until).Keys
        invariant forall id :: id in until ==> until[id] == old(until)[id]
        invariant forall id :: id in old(until) && id !in todo ==> (id in until <==> now <= old(until)[id])
        decreases todo
      {
        var id :| id in todo;
        todo := todo - {id};
        if now > until[id] {
          until := until - {id};
        }
      }
    }

    method Approve(deviceID: DeviceId, d: int, cleanedAt: Instant, now: Instant) returns (u: Instant)
      modifies this
      ensures u == now + d
      ensures until == GrantApproval(old(until), deviceID, cleanedAt, now, d)
    {
      CleanupLocked(cleanedAt);
      u := now + d;
      until := until[deviceID := u];
    }

    method Consume(deviceID: DeviceId, consume: bool, now: Instant) returns (ok: bool)
      modifies this
      ensures (until, ok) == ConsumeApproval(old(until), deviceID, now, consume)
    {
      CleanupLocked(now);
      if deviceID !in until || now > until[deviceID] {
        return false;
      }
      if consume {
        until := until - {deviceID};
      }
      return true;
    }
  }

  // ---- Runs of the two-man gate -----------------------------------------------------------

  datatype GateCall =
    | Approve(device: DeviceId, cleanedAt: Instant, now: Instant, d: int)
    | Consume(device: DeviceId, now: Instant, consume: bool)
  {
    function First(): Instant {
      if Approve? then cleanedAt else now
    }
  }

  function GateStep(until: Approvals, c: GateCall): (Approvals, bool) {
    match c
    case Approve(device, cleanedAt, now, d) => (GrantApproval(until, device, cleanedAt, now, d), true)
    case Consume(device, now, consume) => ConsumeApproval(until, device, now, consume)
  }

  /** The same gate, but expired approvals are never deleted. */
  function HoardingStep(until: Approvals, c: GateCall): (Approvals, bool) {
    match c
    case Approve(device, _, now, d) => (until[device := now + d], true)
    case Consume(device, now, consume) =>
      if device !in until || now > until[device] then (until, false)
      else (if consume then until - {device} else until, true)
  }

  function GateAfter(calls: seq<GateCall>, n: nat): Approvals
    requires n <= |calls|
  {
    if n == 0 then map[] else GateStep(GateAfter(calls, n - 1), calls[n - 1]).0
  }

  function HoardAfter(calls: seq<GateCall>, n: nat): Approvals
    requires n <= |calls|
  {
    if n == 0 then map[] else HoardingStep(HoardAfter(calls, n - 1), calls[n - 1]).0
  }

  /** The clock is monotonic and read inside the lock. */
  ghost predicate ClockForward(calls: seq<GateCall>) {
    && (forall i :: 0 <= i < |calls| ==> calls[i].First() <= calls[i].now)
    && (forall i :: 0 < i < |calls| ==> calls[i - 1].now <= calls[i].First())
  }

  lemma {:induction false} CleanupOnlyForgetsExpired(calls: seq<GateCall>, n: nat)
    requires n <= |calls| && ClockForward(calls)
    ensures forall id :: id in GateAfter(calls, n) ==>
      id in HoardAfter(calls, n) && HoardAfter(calls, n)[id] == GateAfter(calls, n)[id]
    ensures forall id :: id in HoardAfter(calls, n) && id !in GateAfter(calls, n) ==>
      n > 0 && HoardAfter(calls, n)[id] < calls[n - 1].now
  {
    if n > 0 {
      CleanupOnlyForgetsExpired(calls, n - 1);
      if n > 1 {
        assert calls[n - 2].now <= calls[n - 1].First();
      }
    }
  }

  /** Cleaning up is invisible: every Consume is decided as if nothing were ever deleted. */
  lemma CleanupInvisible(calls: seq<GateCall>, n: nat)
    requires n < |calls| && ClockForward(calls)
    ensures GateStep(GateAfter(calls, n), calls[n]).1 == HoardingStep(HoardAfter(calls, n), calls[n]).1
  {
    CleanupOnlyForgetsExpired(calls, n);
    if n > 0 {
      assert calls[n - 1].now <= calls[n].First();
    }
  }

  /** And it is thorough: what is stored after a call had not expired when that call cleaned up. */
  lemma NothingExpiredStored(calls: seq<GateCall>, n: nat)
    requires 0 < n <= |calls| && ClockForward(calls)
    requires calls[n - 1].Approve? ==> calls[n - 1].d >= 0
    ensures forall id :: id in GateAfter(calls, n) ==> GateAfter(calls, n)[id] >= calls[n - 1].First()
  {
    var before := GateAfter(calls, n - 1);
    var c := calls[n - 1];
    assert c.First() <= c.now;
    assert GateAfter(calls, n) == GateStep(before, c).0;
  }

  function GateCallsOf(calls: seq<GateCall>, n: nat, device: DeviceId): seq<GateCall>
    requires n <= |calls|
  {
    if n == 0 then []
    else GateCallsOf(calls, n - 1, device) + if calls[n - 1].device == device then [calls[n - 1]] else []
  }

  lemma {:induction false} HoardPrefix(calls: seq<GateCall>, more: seq<GateCall>, n: nat)
    requires n <= |calls|
    ensures HoardAfter(calls + more, n) == HoardAfter(calls, n)
  {
    if n > 0 {
      HoardPrefix(calls, more, n - 1);
    }
  }

  lemma {:induction false} HoardProjection(calls: seq<GateCall>, n: nat, device: DeviceId)
    requires n <= |calls|
    ensures var own := GateCallsOf(calls, n, device);
            var a, b := HoardAfter(calls, n), HoardAfter(own, |own|);
            (device in a <==> device in b) && (device in a ==> a[device] == b[device])
  {
    if n > 0 {
      HoardProjection(calls, n - 1, device);
      var before := GateCallsOf(calls, n - 1, device);
      if calls[n - 1].device == device {
        var own := before + [calls[n - 1]];
        HoardPrefix(before, [calls[n - 1]], |before|);
        assert own == GateCallsOf(calls, n, device) && own[|own| - 1] == calls[n - 1];
        assert HoardAfter(own, |own|) == HoardingStep(HoardAfter(before, |before|), calls[n - 1]).0;
      } else {
        assert before == GateCallsOf(calls, n, device);
      }
    }
  }

  lemma {:induction false} ProjectionKeepsClock(calls: seq<GateCall>, n: nat, device: DeviceId)
    requires n <= |calls| && ClockForward(calls)
    ensures ClockForward(GateCallsOf(calls, n, device))
    ensures var own := GateCallsOf(calls, n, device);
            own != [] ==> n > 0 && own[|own| - 1].now <= calls[n - 1].now
  {
    if n > 0 {
      ProjectionKeepsClock(calls, n - 1, device);
      assert calls[n - 1].First() <= calls[n - 1].now;
      if n > 1 {
        assert calls[n - 2].now <= calls[n - 1].First();
      }
    }
  }

  /** A device's approvals are consumed as if it were the only device. */
  lemma ApprovalNonInterference(calls: seq<GateCall>, n: nat)
    requires n < |calls| && ClockForward(calls)
    ensures var own := GateCallsOf(calls, n + 1, calls[n].device);
            && own != [] && own[|own| - 1] == calls[n]
            && GateStep(GateAfter(calls, n), calls[n]).1
               == GateStep(GateAfter(own, |own| - 1), calls[n]).1
  {
    var device := calls[n].device;
    var before := GateCallsOf(calls, n, device);
    var own := GateCallsOf(calls, n + 1, device);
    CleanupInvisible(calls, n);
    ProjectionKeepsClock(calls, n + 1, device);
    CleanupInvisible(own, |own| - 1);
    HoardProjection(calls, n, device);
    HoardPrefix(before, [calls[n]], |before|);
  }
}
