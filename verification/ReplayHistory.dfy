/** Whole runs of the guard: what the evicting cache knows, when a message can be
    accepted twice, and that devices do not influence each other. */
module ReplayHistory {
  import opened Basics
  import opened BigEndian
  import opened ReplayGuard
  import Hex

  /** The device id of the example runs. */
  const PHONE := DeviceId([112, 104, 111, 110, 101])

  /** The state after the first `n` calls, in the order they take the mutex. */
  function After(calls: seq<Call>, n: nat, limit: int): Store
    requires n <= |calls|
  {
    if n == 0 then EMPTY else Step(After(calls, n - 1, limit), calls[n - 1], limit).0
  }

  function VerdictAt(calls: seq<Call>, i: nat, limit: int): Verdict
    requires i < |calls|
  {
    Step(After(calls, i, limit), calls[i], limit).1
  }

  predicate AcceptedFor(calls: seq<Call>, i: nat, device: DeviceId, limit: int)
    requires i < |calls|
  {
    calls[i].device == device && VerdictAt(calls, i, limit).Accepted?
  }

  ghost predicate ValidCalls(calls: seq<Call>) {
    forall i :: 0 <= i < |calls| ==> ValidCall(calls[i])
  }

  /** `now` is read before the mutex is taken: among the calls that take it, a later one
      may carry a reading up to `d` seconds behind an earlier one. */
  ghost predicate Stalled(calls: seq<Call>, d: int) {
    forall i, j :: 0 <= i < j < |calls| && Locked(calls[i]) && Locked(calls[j]) ==>
      calls[j].now >= calls[i].now - d
  }

  ghost predicate SameMessage(a: Call, b: Call) {
    a.device == b.device && a.nonce == b.nonce && a.ts == b.ts
  }

  /** The freshness verdicts in exact arithmetic: more than 120 seconds ahead, or more than 300
      seconds behind unless the difference leaves the int64 range. */
  lemma FreshnessDecided(s: Store, c: Call, limit: int)
    requires ValidCall(c)
    ensures var v := Step(s, c, limit).1;
            && (v.InFuture? <==> c.ts - c.now > 120)
            && (v.TooOld? <==> 300 < c.now - c.ts < 0x8000_0000_0000_0000)
            && (Locked(c) <==> c.ts - c.now <= 120 && !(300 < c.now - c.ts < 0x8000_0000_0000_0000))
  {
  }

  // ---- What the cache remembers -------------------------------------------------

  /** Call `e`, for the same device, was late enough to evict what call `i` stored. */
  predicate Evicts(calls: seq<Call>, i: nat, e: nat)
    requires i < |calls| && e < |calls|
  {
    Locked(calls[e]) && calls[e].device == calls[i].device && calls[e].now - calls[i].now > REPLAY_CACHE_TTL
  }

  ghost predicate StillCached(calls: seq<Call>, n: nat, i: nat, limit: int)
    requires i < n <= |calls|
  {
    var m := CacheOf(After(calls, n, limit), calls[i].device);
    var key := Hex.Encode(calls[i].nonce);
    key in m && m[key] == calls[i].now
  }

  /** An accepted message stays in the cache until a late enough call of its device. */
  lemma {:induction false} Remembered(calls: seq<Call>, n: nat, i: nat, limit: int)
    requires i < n <= |calls| && VerdictAt(calls, i, limit).Accepted?
    ensures StillCached(calls, n, i, limit) || exists e :: i < e < n && Evicts(calls, i, e)
  {
    if n > i + 1 {
      Remembered(calls, n - 1, i, limit);
      if StillCached(calls, n - 1, i, limit) && !StillCached(calls, n, i, limit) {
        assert Evicts(calls, i, n - 1);
      }
    }
  }

  /** Every cache entry was stored by an accepted call of that device. */
  lemma {:induction false} EntryHasSource(calls: seq<Call>, n: nat, device: DeviceId, key: string, limit: int)
      returns (i: nat)
    requires n <= |calls| && key in CacheOf(After(calls, n, limit), device)
    ensures i < n && AcceptedFor(calls, i, device, limit)
    ensures Hex.Encode(calls[i].nonce) == key
    ensures calls[i].now == CacheOf(After(calls, n, limit), device)[key]
  {
    var before := CacheOf(After(calls, n - 1, limit), device);
    var here := CacheOf(After(calls, n, limit), device);
    if key in before && before[key] == here[key] {
      i := EntryHasSource(calls, n - 1, device, key, limit);
    } else {
      i := n - 1;
    }
  }

  /** After a call that reaches the cache, the device's entries lie between two readings of
      the full history: everything accepted at most 600 - d seconds ago is there, and
      everything there was accepted at most 600 seconds ago. */
  lemma CacheBetweenHistories(calls: seq<Call>, n: nat, d: int, limit: int)
    requires 0 < n <= |calls| && Locked(calls[n - 1]) && 0 <= d && Stalled(calls, d)
    ensures forall i ::
              0 <= i < n && AcceptedFor(calls, i, calls[n - 1].device, limit)
              && calls[n - 1].now - calls[i].now <= REPLAY_CACHE_TTL - d ==>
                StillCached(calls, n, i, limit)
    ensures var m := CacheOf(After(calls, n, limit), calls[n - 1].device);
            forall key :: key in m ==> calls[n - 1].now - m[key] <= REPLAY_CACHE_TTL
  {
    forall i | 0 <= i < n && AcceptedFor(calls, i, calls[n - 1].device, limit)
               && calls[n - 1].now - calls[i].now <= REPLAY_CACHE_TTL - d
      ensures StillCached(calls, n, i, limit)
    {
      Remembered(calls, n, i, limit);
    }
  }

  /** `device` accepted `nonce` at time `at` somewhere in the first `n` calls. */
  ghost predicate InHistory(calls: seq<Call>, n: nat, device: DeviceId, nonce: bytes, at: int, limit: int)
    requires n <= |calls|
  {
    exists i :: 0 <= i < n && AcceptedFor(calls, i, device, limit) && calls[i].nonce == nonce && calls[i].now == at
  }

  /** With a clock that never runs backwards the forgetful cache is exactly the recent
      part of the full history. */
  lemma CacheIsRecentHistory(calls: seq<Call>, n: nat, nonce: bytes, at: int, limit: int)
    requires 0 < n <= |calls| && Locked(calls[n - 1]) && Stalled(calls, 0)
    ensures var device := calls[n - 1].device;
            var m := CacheOf(After(calls, n, limit), device);
            (Hex.Encode(nonce) in m && m[Hex.Encode(nonce)] == at) <==>
            (InHistory(calls, n, device, nonce, at, limit) && calls[n - 1].now - at <= REPLAY_CACHE_TTL)
  {
    var device := calls[n - 1].device;
    var m := CacheOf(After(calls, n, limit), device);
    CacheBetweenHistories(calls, n, 0, limit);
    if Hex.Encode(nonce) in m {
      var i := EntryHasSource(calls, n, device, Hex.Encode(nonce), limit);
      Hex.EncodeInjective(calls[i].nonce, nonce);
    }
  }

  /** So the replay decision is the one a scan of the whole log would take. */
  lemma ReplayDecidedByHistory(calls: seq<Call>, n: nat, limit: int)
    requires n < |calls| && Locked(calls[n]) && Stalled(calls, 0)
    requires !VerdictAt(calls, n, limit).RateLimited?
    ensures VerdictAt(calls, n, limit).Replayed? <==>
            exists at :: InHistory(calls, n, calls[n].device, calls[n].nonce, at, limit)
                         && calls[n].now - at <= REPLAY_CACHE_TTL
    ensures VerdictAt(calls, n, limit).Replayed? ==>
              InHistory(calls, n, calls[n].device, calls[n].nonce, VerdictAt(calls, n, limit).seenAt, limit)
  {
    var c := calls[n];
    var key := Hex.Encode(c.nonce);
    var m := CacheOf(After(calls, n, limit), c.device);
    if VerdictAt(calls, n, limit).Replayed? {
      var i := EntryHasSource(calls, n, c.device, key, limit);
      Hex.EncodeInjective(calls[i].nonce, c.nonce);
      assert InHistory(calls, n, c.device, c.nonce, m[key], limit);
    }
    forall at | InHistory(calls, n, c.device, c.nonce, at, limit) && c.now - at <= REPLAY_CACHE_TTL
      ensures VerdictAt(calls, n, limit).Replayed?
    {
      var i :| 0 <= i < n && AcceptedFor(calls, i, c.device, limit) && calls[i].nonce == c.nonce && calls[i].now == at;
      Remembered(calls, n, i, limit);
    }
  }

  // ---- Replay safety --------------------------------------------------------------

  /** Between two acceptances of one nonce, the first one's entry was evicted. */
  lemma EvictedInBetween(calls: seq<Call>, i: nat, j: nat, limit: int) returns (e: nat)
    requires i < j < |calls|
    requires calls[i].device == calls[j].device && calls[i].nonce == calls[j].nonce
    requires VerdictAt(calls, i, limit).Accepted? && VerdictAt(calls, j, limit).Accepted?
    ensures i < e <= j && Evicts(calls, i, e)
  {
    Remembered(calls, j, i, limit);
    if StillCached(calls, j, i, limit) {
      e := j;
    } else {
      e :| i < e < j && Evicts(calls, i, e);
    }
  }

  /** The clock never shows more than `top` in the run. */
  ghost predicate ReadingsUpTo(calls: seq<Call>, top: int) {
    forall i :: 0 <= i < |calls| ==> calls[i].now <= top
  }

  /** With clock readings at most 180 seconds stale, a message is accepted a second time
      only if its age computation wrapped around in int64. */
  lemma SecondAcceptanceWraps(calls: seq<Call>, i: nat, j: nat, top: int, limit: int)
    requires i < j < |calls| && ValidCalls(calls) && ReadingsUpTo(calls, top) && Stalled(calls, 180)
    requires SameMessage(calls[i], calls[j])
    requires VerdictAt(calls, i, limit).Accepted? && VerdictAt(calls, j, limit).Accepted?
    ensures AgeWraps(calls[j])
    ensures calls[i].now + REPLAY_CACHE_TTL + 1 <= top
  {
    var e := EvictedInBetween(calls, i, j, limit);
    AcceptedIsLocked(calls, i, limit);
    AcceptedIsLocked(calls, j, limit);
    assert calls[e].now <= top;
    assert calls[j].now >= calls[i].now + 421 by {
      assert e == j || calls[j].now >= calls[e].now - 180;
    }
    assert ValidCall(calls[i]) && ValidCall(calls[j]);
    LateMeansWrapped(calls[i], calls[j]);
  }

  /** A message that is fresh at one time can be fresh again 421 seconds later only by wrapping. */
  lemma LateMeansWrapped(a: Call, b: Call)
    requires ValidCall(a) && ValidCall(b) && SameMessage(a, b) && Locked(a) && Locked(b)
    requires b.now >= a.now + 421
    ensures AgeWraps(b)
  {
  }

  lemma AcceptedIsLocked(calls: seq<Call>, i: nat, limit: int)
    requires i < |calls| && VerdictAt(calls, i, limit).Accepted?
    ensures Locked(calls[i])
  {
  }

  /** The least timestamp whose age does not wrap at any reading up to `top - 601`, that is, early
      enough for an entry stored then to have expired by `top`. */
  function LeastSafeTs(top: int): int {
    top - REPLAY_CACHE_TTL - TWO_63
  }

  lemma LeastSafeMeans(device: DeviceId, nonce: bytes, ts: int, top: int)
    requires REPLAY_CACHE_TTL + 1 < top
    ensures ts >= LeastSafeTs(top) <==>
            forall now :: 0 < now <= top - REPLAY_CACHE_TTL - 1 ==> !AgeWraps(Call(device, nonce, ts, now))
  {
    var now := top - REPLAY_CACHE_TTL - 1;
    assert AgeWraps(Call(device, nonce, ts, now)) <==> ts < LeastSafeTs(top);
  }

  /** No message with such a timestamp or a later one is accepted twice in the run. */
  ghost predicate ReplayFree(calls: seq<Call>, top: int, limit: int) {
    forall i, j :: 0 <= i < j < |calls| && SameMessage(calls[i], calls[j]) && calls[i].ts >= LeastSafeTs(top) ==>
      !(VerdictAt(calls, i, limit).Accepted? && VerdictAt(calls, j, limit).Accepted?)
  }

  lemma NotTwice(calls: seq<Call>, i: nat, j: nat, top: int, limit: int)
    requires i < j < |calls| && ValidCalls(calls) && ReadingsUpTo(calls, top) && Stalled(calls, 180)
    requires SameMessage(calls[i], calls[j])
    requires calls[i].ts >= LeastSafeTs(top) || top <= REPLAY_CACHE_TTL + 1
    ensures !(VerdictAt(calls, i, limit).Accepted? && VerdictAt(calls, j, limit).Accepted?)
  {
    assert ValidCall(calls[i]);
    if VerdictAt(calls, i, limit).Accepted? && VerdictAt(calls, j, limit).Accepted? {
      SecondAcceptanceWraps(calls, i, j, top, limit);
    }
  }

  lemma ReplayFreeUpTo180(calls: seq<Call>, top: int, limit: int)
    requires ValidCalls(calls) && ReadingsUpTo(calls, top) && Stalled(calls, 180)
    ensures ReplayFree(calls, top, limit)
  {
    forall i, j | 0 <= i < j < |calls| && SameMessage(calls[i], calls[j]) && calls[i].ts >= LeastSafeTs(top)
      ensures !(VerdictAt(calls, i, limit).Accepted? && VerdictAt(calls, j, limit).Accepted?)
    {
      NotTwice(calls, i, j, top, limit);
    }
  }

  /** Two messages, then a call that is refused and stores nothing but evicts the first one, then
      a last call with a reading taken before that. */
  function LateRun(ts: int, last: Call): seq<Call> {
    [Call(PHONE, [1], ts, 1), Call(PHONE, [2], 62, 62), Call(PHONE, [2], 602, 602), last]
  }

  /** With the last reading 181 seconds stale, the first message can come back. */
  function TooStaleRun(): seq<Call> {
    LateRun(121, Call(PHONE, [1], 121, 421))
  }

  /** Where such a run stands before its third and before its last call. */
  lemma LateRunStates(ts: int, last: Call, limit: int)
    requires 1 <= limit && 1 <= ts <= 121
    ensures var run := LateRun(ts, last);
            var k1, k2 := Hex.Encode([1]), Hex.Encode([2]);
            && k1 != k2
            && VerdictAt(run, 0, limit).Accepted? && !VerdictAt(run, 2, limit).Accepted?
            && CacheOf(After(run, 2, limit), PHONE) == map[k1 := 1, k2 := 62]
            && CacheOf(After(run, 3, limit), PHONE) == map[k2 := 62]
            && WindowOf(After(run, 2, limit), PHONE) == WindowOf(After(run, 3, limit), PHONE) == RateWindow(62, 1)
  {
    var run := LateRun(ts, last);
    var k1, k2 := Hex.Encode([1]), Hex.Encode([2]);
    if k1 == k2 {
      Hex.EncodeInjective([1], [2]);
      assert false;
    }
    var s1 := Step(EMPTY, run[0], limit).0;
    assert After(run, 1, limit) == s1;
    assert CacheOf(s1, PHONE) == map[k1 := 1];
    var s2 := Step(s1, run[1], limit).0;
    assert After(run, 2, limit) == s2;
    assert CacheOf(s2, PHONE) == map[k1 := 1, k2 := 62];
    var s3 := Step(s2, run[2], limit).0;
    assert After(run, 3, limit) == s3;
    assert CacheOf(s3, PHONE) == map[k2 := 62];
  }

  /** The last call after the eviction and without it. */
  lemma LastCallDecided(s: Store, t: Store, last: Call, limit: int)
    requires var k1, k2 := Hex.Encode([1]), Hex.Encode([2]);
             k1 != k2 && CacheOf(s, PHONE) == map[k2 := 62] && CacheOf(t, PHONE) == map[k1 := 1, k2 := 62]
    requires WindowOf(s, PHONE) == WindowOf(t, PHONE) == RateWindow(62, 1) && 1 <= limit
    requires Locked(last) && last.device == PHONE && last.nonce == [1] && 122 <= last.now <= 601
    ensures Step(s, last, limit).1.Accepted? && Step(t, last, limit).1.Replayed?
  {
  }

  lemma TooStale()
    ensures var run := TooStaleRun(); ValidCalls(run) && ReadingsUpTo(run, 602) && Stalled(run, 181)
  {
  }

  lemma TooStaleRunReplays(limit: int)
    requires 1 <= limit
    ensures var run := TooStaleRun();
            && ValidCalls(run) && ReadingsUpTo(run, 602) && Stalled(run, 181)
            && SameMessage(run[0], run[3]) && VerdictAt(run, 0, limit).Accepted? && VerdictAt(run, 3, limit).Accepted?
  {
    var run := TooStaleRun();
    TooStale();
    LateRunStates(121, run[3], limit);
    LastCallDecided(After(run, 3, limit), After(run, 2, limit), run[3], limit);
  }

  /** The constants leave exactly 180 seconds of slack, on a clock of any range that outlives
      one cache entry. */
  lemma SlackIsExactly180(d: int, top: int, limit: int)
    requires 1 <= limit && 602 <= top <= CLOCK_MAX
    ensures (forall calls :: ValidCalls(calls) && ReadingsUpTo(calls, top) && Stalled(calls, d) ==>
                               ReplayFree(calls, top, limit)) <==> d <= 180
  {
    if d <= 180 {
      forall calls | ValidCalls(calls) && ReadingsUpTo(calls, top) && Stalled(calls, d)
        ensures ReplayFree(calls, top, limit)
      {
        ReplayFreeUpTo180(calls, top, limit);
      }
    } else {
      TooStaleRunReplays(limit);
      assert ReadingsUpTo(TooStaleRun(), top) && Stalled(TooStaleRun(), d);
      assert !ReplayFree(TooStaleRun(), top, limit);
    }
  }

  /** Over all runs with readings up to `top` and at most 180 seconds stale, this message is
      accepted at most once. */
  ghost predicate NeverReplayed(device: DeviceId, nonce: bytes, ts: int, top: int, limit: int) {
    forall calls: seq<Call>, i, j ::
      0 <= i < j < |calls| && ValidCalls(calls) && ReadingsUpTo(calls, top) && Stalled(calls, 180)
      && SameMessage(calls[i], Call(device, nonce, ts, 0)) && SameMessage(calls[j], Call(device, nonce, ts, 0)) ==>
        !(VerdictAt(calls, i, limit).Accepted? && VerdictAt(calls, j, limit).Accepted?)
  }

  /** Once the clock shows `top`, such a message has been acceptable 601 seconds earlier and is
      acceptable again. */
  lemma WrappedMessageReplays(device: DeviceId, nonce: bytes, ts: int, top: int, limit: int)
    requires 1 <= limit && REPLAY_CACHE_TTL + 1 < top <= CLOCK_MAX && -TWO_63 <= ts < LeastSafeTs(top)
    ensures !NeverReplayed(device, nonce, ts, top, limit)
  {
    var first := Call(device, nonce, ts, top - REPLAY_CACHE_TTL - 1);
    var second := first.(now := top);
    var run := [first, second];
    assert After(run, 1, limit) == Step(EMPTY, first, limit).0;
    assert VerdictAt(run, 0, limit).Accepted?;
    assert VerdictAt(run, 1, limit).Accepted?;
    assert ValidCalls(run) && ReadingsUpTo(run, top) && Stalled(run, 180);
    assert SameMessage(run[0], Call(device, nonce, ts, 0)) && SameMessage(run[1], Call(device, nonce, ts, 0));
  }

  /** The signed timestamp is the other half of replay safety, whatever the latest reading the
      clock ever shows: a message is accepted at most once unless its age wraps early enough for
      its entry to expire while the clock still runs. */
  lemma ReplaySafeIffWrapsTooLate(device: DeviceId, nonce: bytes, ts: int, top: int, limit: int)
    requires 1 <= limit && -TWO_63 <= ts < TWO_63 && top <= CLOCK_MAX
    ensures NeverReplayed(device, nonce, ts, top, limit) <==> ts >= LeastSafeTs(top) || top <= REPLAY_CACHE_TTL + 1
  {
    if ts >= LeastSafeTs(top) || top <= REPLAY_CACHE_TTL + 1 {
      forall calls: seq<Call>, i, j |
        0 <= i < j < |calls| && ValidCalls(calls) && ReadingsUpTo(calls, top) && Stalled(calls, 180)
        && SameMessage(calls[i], Call(device, nonce, ts, 0)) && SameMessage(calls[j], Call(device, nonce, ts, 0))
        ensures !(VerdictAt(calls, i, limit).Accepted? && VerdictAt(calls, j, limit).Accepted?)
      {
        NotTwice(calls, i, j, top, limit);
      }
    } else {
      WrappedMessageReplays(device, nonce, ts, top, limit);
    }
  }

  // ---- Devices do not influence each other ----------------------------------------

  /** The calls of one device among the first `n`, in order. */
  function CallsOf(calls: seq<Call>, n: nat, device: DeviceId): seq<Call>
    requires n <= |calls|
  {
    if n == 0 then []
    else CallsOf(calls, n - 1, device) + if calls[n - 1].device == device then [calls[n - 1]] else []
  }

  lemma {:induction false} AfterPrefix(calls: seq<Call>, more: seq<Call>, n: nat, limit: int)
    requires n <= |calls|
    ensures After(calls + more, n, limit) == After(calls, n, limit)
  {
    if n > 0 {
      AfterPrefix(calls, more, n - 1, limit);
    }
  }

  lemma CallAppended(calls: seq<Call>, c: Call, limit: int)
    ensures var calls' := calls + [c];
            && After(calls', |calls'|, limit) == Step(After(calls, |calls|, limit), c, limit).0
            && VerdictAt(calls', |calls|, limit) == Step(After(calls, |calls|, limit), c, limit).1
  {
    AfterPrefix(calls, [c], |calls|, limit);
  }

  ghost predicate AgreeOn(s: Store, t: Store, device: DeviceId) {
    CacheOf(s, device) == CacheOf(t, device) && WindowOf(s, device) == WindowOf(t, device)
  }

  /** A call looks at and changes its own device only. */
  lemma StepIsLocal(s: Store, t: Store, c: Call, limit: int, other: DeviceId)
    requires AgreeOn(s, t, c.device)
    ensures AgreeOn(Step(s, c, limit).0, Step(t, c, limit).0, c.device)
    ensures Step(s, c, limit).1 == Step(t, c, limit).1
    ensures other != c.device ==> AgreeOn(Step(s, c, limit).0, s, other)
  {
  }

  /** A device ends up with the cache and window it would have had alone. */
  lemma {:induction false} ProjectionAgrees(calls: seq<Call>, n: nat, device: DeviceId, limit: int)
    requires n <= |calls|
    ensures var own := CallsOf(calls, n, device);
            AgreeOn(After(calls, n, limit), After(own, |own|, limit), device)
  {
    if n > 0 {
      ProjectionAgrees(calls, n - 1, device, limit);
      var before := CallsOf(calls, n - 1, device);
      var c := calls[n - 1];
      if c.device == device {
        CallAppended(before, c, limit);
        StepIsLocal(After(calls, n - 1, limit), After(before, |before|, limit), c, limit, device);
      } else {
        StepIsLocal(After(calls, n - 1, limit), After(calls, n - 1, limit), c, limit, device);
        assert before == CallsOf(calls, n, device);
      }
    }
  }

  /** Each call gets the verdict it would get if its device were the only one. */
  lemma DeviceNonInterference(calls: seq<Call>, n: nat, limit: int)
    requires n < |calls|
    ensures var own := CallsOf(calls, n + 1, calls[n].device);
            && own != [] && own[|own| - 1] == calls[n]
            && VerdictAt(calls, n, limit) == VerdictAt(own, |own| - 1, limit)
  {
    var device := calls[n].device;
    var before := CallsOf(calls, n, device);
    ProjectionAgrees(calls, n, device, limit);
    CallAppended(before, calls[n], limit);
    StepIsLocal(After(calls, n, limit), After(before, |before|, limit), calls[n], limit, device);
  }

  // ---- Rejected calls leave no trace ------------------------------------------------

  function Without(calls: seq<Call>, r: nat): seq<Call>
    requires r < |calls|
  {
    calls[..r] + calls[r + 1..]
  }

  /** `s` differs from `t` at `device` only by cache entries that an earlier locked call among
      the first `n` had found expired. */
  ghost predicate SameButExpired(calls: seq<Call>, n: nat, s: Store, t: Store, device: DeviceId)
    requires n <= |calls|
  {
    var a, b := CacheOf(s, device), CacheOf(t, device);
    && WindowOf(s, device) == WindowOf(t, device)
    && (forall k :: k in a ==> k in b && b[k] == a[k])
    && (forall k :: k in b && k !in a ==>
          exists e :: 0 <= e < n && Locked(calls[e]) && calls[e].now - b[k] > REPLAY_CACHE_TTL)
  }

  /** The next call finds those entries expired too, so it cannot tell the stores apart. */
  lemma CannotTellApart(calls: seq<Call>, n: nat, s: Store, t: Store, limit: int, device: DeviceId)
    requires n < |calls| && Stalled(calls, 0)
    requires SameButExpired(calls, n, s, t, device)
    ensures SameButExpired(calls, n + 1, Step(s, calls[n], limit).0, Step(t, calls[n], limit).0, device)
    ensures calls[n].device == device ==> Step(s, calls[n], limit).1 == Step(t, calls[n], limit).1
  {
    var c := calls[n];
    if c.device != device {
      StepIsLocal(s, s, c, limit, device);
      StepIsLocal(t, t, c, limit, device);
    } else if Locked(c) {
      SameEviction(calls, n, s, t, device);
      StepNeedsEviction(s, t, c, limit);
    }
  }

  lemma SameEviction(calls: seq<Call>, n: nat, s: Store, t: Store, device: DeviceId)
    requires n < |calls| && Stalled(calls, 0) && Locked(calls[n])
    requires SameButExpired(calls, n, s, t, device)
    ensures Evict(CacheOf(s, device), calls[n].now) == Evict(CacheOf(t, device), calls[n].now)
  {
    var a, b := CacheOf(s, device), CacheOf(t, device);
    forall k | k in b && k !in a
      ensures calls[n].now - b[k] > REPLAY_CACHE_TTL
    {
      var e :| 0 <= e < n && Locked(calls[e]) && calls[e].now - b[k] > REPLAY_CACHE_TTL;
      assert calls[n].now >= calls[e].now;
    }
  }

  /** A locked call sees of the cache only what survives its own eviction. */
  lemma StepNeedsEviction(s: Store, t: Store, c: Call, limit: int)
    requires Locked(c) && WindowOf(s, c.device) == WindowOf(t, c.device)
    requires Evict(CacheOf(s, c.device), c.now) == Evict(CacheOf(t, c.device), c.now)
    ensures Step(s, c, limit).1 == Step(t, c, limit).1
    ensures AgreeOn(Step(s, c, limit).0, Step(t, c, limit).0, c.device)
  {
  }

  /** Rejection at most evicts. */
  lemma RejectionOnlyEvicts(calls: seq<Call>, r: nat, s: Store, limit: int, device: DeviceId)
    requires r < |calls| && !Step(s, calls[r], limit).1.Accepted?
    ensures SameButExpired(calls, r + 1, Step(s, calls[r], limit).0, s, device)
  {
    var c := calls[r];
    if c.device != device {
      StepIsLocal(s, s, c, limit, device);
    }
  }

  lemma {:induction false} WithoutPrefix(calls: seq<Call>, r: nat, n: nat, limit: int)
    requires n <= r < |calls|
    ensures After(Without(calls, r), n, limit) == After(calls, n, limit)
  {
    if n > 0 {
      WithoutPrefix(calls, r, n - 1, limit);
    }
  }

  lemma {:induction false} WithoutAgrees(calls: seq<Call>, r: nat, n: nat, limit: int, device: DeviceId,
                                         s: Store, t: Store)
    requires r < n <= |calls| && Stalled(calls, 0) && !VerdictAt(calls, r, limit).Accepted?
    requires s == After(calls, n, limit) && t == After(Without(calls, r), n - 1, limit)
    ensures SameButExpired(calls, n, s, t, device)
  {
    if n == r + 1 {
      WithoutPrefix(calls, r, r, limit);
      RejectionOnlyEvicts(calls, r, t, limit, device);
    } else {
      var s0, t0 := After(calls, n - 1, limit), After(Without(calls, r), n - 2, limit);
      WithoutAgrees(calls, r, n - 1, limit, device, s0, t0);
      assert Without(calls, r)[n - 2] == calls[n - 1];
      CannotTellApart(calls, n - 1, s0, t0, limit, device);
    }
  }

  /** With a clock that never runs backwards, a rejected call influences nothing that follows:
      it consumes neither its nonce nor a place in the window, and what it evicts had expired
      for everyone. */
  lemma RejectedCallInvisible(calls: seq<Call>, r: nat, n: nat, limit: int)
    requires r < n < |calls| && Stalled(calls, 0) && !VerdictAt(calls, r, limit).Accepted?
    ensures VerdictAt(calls, n, limit) == VerdictAt(Without(calls, r), n - 1, limit)
  {
    var s, t := After(calls, n, limit), After(Without(calls, r), n - 1, limit);
    WithoutAgrees(calls, r, n, limit, calls[n].device, s, t);
    assert Without(calls, r)[n - 1] == calls[n];
    CannotTellApart(calls, n, s, t, limit, calls[n].device);
  }

  /** A clock one second behind breaks this: the rejected third call evicts the first nonce, and
      only because of it the last call gets through. */
  function SlightlyStaleRun(): seq<Call> {
    LateRun(1, Call(PHONE, [1], 601, 601))
  }

  lemma SlightlyStale()
    ensures var run := SlightlyStaleRun(); ValidCalls(run) && ReadingsUpTo(run, 602) && Stalled(run, 1)
  {
  }

  lemma RejectedCallVisibleWhenStale(limit: int)
    requires 1 <= limit
    ensures var run := SlightlyStaleRun();
            && ValidCalls(run) && ReadingsUpTo(run, 602) && Stalled(run, 1)
            && !VerdictAt(run, 2, limit).Accepted?
            && VerdictAt(run, 3, limit).Accepted? && VerdictAt(Without(run, 2), 2, limit).Replayed?
  {
    var run := SlightlyStaleRun();
    SlightlyStale();
    LateRunStates(1, run[3], limit);
    WithoutPrefix(run, 2, 2, limit);
    LastCallDecided(After(run, 3, limit), After(run, 2, limit), run[3], limit);
    assert Without(run, 2)[2] == run[3] == Call(PHONE, [1], 601, 601);
  }

  /** In every run with readings at most `d` stale, deleting any rejected call changes no later verdict. */
  ghost predicate RejectionsInvisible(d: int, top: int, limit: int) {
    forall calls: seq<Call>, r, n ::
      0 <= r < n < |calls| && ValidCalls(calls) && ReadingsUpTo(calls, top) && Stalled(calls, d)
      && !VerdictAt(calls, r, limit).Accepted? ==>
        VerdictAt(calls, n, limit) == VerdictAt(Without(calls, r), n - 1, limit)
  }

  /** So rejections are invisible exactly on a clock that never runs backwards: here the constants
      leave no slack at all. */
  lemma RejectionsInvisibleIffForward(d: int, top: int, limit: int)
    requires 1 <= limit && 602 <= top <= CLOCK_MAX
    ensures RejectionsInvisible(d, top, limit) <==> d <= 0
  {
    if d <= 0 {
      forall calls: seq<Call>, r, n |
        0 <= r < n < |calls| && ValidCalls(calls) && ReadingsUpTo(calls, top) && Stalled(calls, d)
        && !VerdictAt(calls, r, limit).Accepted?
        ensures VerdictAt(calls, n, limit) == VerdictAt(Without(calls, r), n - 1, limit)
      {
        assert Stalled(calls, 0);
        RejectedCallInvisible(calls, r, n, limit);
      }
    } else {
      RejectedCallVisibleWhenStale(limit);
      var run := SlightlyStaleRun();
      assert ReadingsUpTo(run, top) && Stalled(run, d);
    }
  }
}
