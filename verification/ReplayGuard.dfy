/** Freshness window, replay cache and per-device rate limiter of the daemon
    (`validateFreshnessAndRate`), as a class over the two mutable maps and as the
    state-transition function that the class refines. */
module ReplayGuard {
  import opened Basics
  import opened BigEndian
  import FW = FixedWindow
  import Hex

  const MAX_CLOCK_SKEW_SEC := 120
  const MAX_MSG_AGE_SEC := 300
  const REPLAY_CACHE_TTL := 600
  const MAX_REQUESTS_PER_DEVICE_PER_MIN := 60

  /** Clock readings are positive and far enough below 2^63 that adding a window to one cannot wrap. */
  const CLOCK_MAX := 0x4000_0000_0000_0000

  /** The value an int64 holds after arithmetic whose exact result is `x`. */
  function Wrap64(x: int): int {
    (x + TWO_63) % (2 * TWO_63) - TWO_63
  }

  datatype RateWindow = RateWindow(windowStart: int, count: int)

  /** One call: `now` is read before the mutex is taken. */
  datatype Call = Call(device: DeviceId, nonce: bytes, ts: int, now: int)

  datatype Verdict =
    | Accepted
    | InFuture
    | TooOld
    | RateLimited
    | Replayed(seenAt: int)

  datatype Store = Store(cache: map<DeviceId, map<string, int>>, rates: map<DeviceId, RateWindow>)

  const EMPTY := Store(map[], map[])

  /** `ts` is a signed 64-bit number decoded from the frame; nothing bounds it from below. */
  predicate ValidCall(c: Call) {
    0 < c.now <= CLOCK_MAX && -TWO_63 <= c.ts < TWO_63
  }

  predicate FromFuture(c: Call) {
    c.ts > c.now + MAX_CLOCK_SKEW_SEC
  }

  predicate Stale(c: Call) {
    Wrap64(c.now - c.ts) > MAX_MSG_AGE_SEC
  }

  /** The call passes the freshness test and goes on to take the mutex. */
  predicate Locked(c: Call) {
    !FromFuture(c) && !Stale(c)
  }

  /** `now - ts` leaves the int64 range, so the age test sees a negative age. */
  predicate AgeWraps(c: Call) {
    c.now - c.ts >= TWO_63
  }

  function CacheOf(s: Store, device: DeviceId): map<string, int> {
    if device in s.cache then s.cache[device] else map[]
  }

  function WindowOf(s: Store, device: DeviceId): RateWindow {
    if device in s.rates then s.rates[device] else RateWindow(0, 0)
  }

  function Evict(m: map<string, int>, now: int): map<string, int> {
    map k | k in m && now - m[k] <= REPLAY_CACHE_TTL :: m[k]
  }

  /** The window a call at `now` counts in: the current one, or a fresh one after 60 seconds. */
  function Refresh(rw: RateWindow, now: int): RateWindow {
    if rw.windowStart == 0 || now - rw.windowStart >= FW.WINDOW then RateWindow(now, 0) else rw
  }

  function Limit(maxRequestsPerMin: int): (limit: int)
    ensures limit >= 1
    ensures limit == maxRequestsPerMin || (maxRequestsPerMin <= 0 && limit == 60)
  {
    if maxRequestsPerMin > 0 then maxRequestsPerMin else MAX_REQUESTS_PER_DEVICE_PER_MIN
  }

  function Step(s: Store, c: Call, limit: int): (Store, Verdict) {
    if FromFuture(c) then (s, InFuture)
    else if Stale(c) then (s, TooOld)
    else
      var m := Evict(CacheOf(s, c.device), c.now);
      var swept := s.(cache := s.cache[c.device := m]);
      var rw := Refresh(WindowOf(s, c.device), c.now);
      var key := Hex.Encode(c.nonce);
      if rw.count + 1 > limit then (swept, RateLimited)
      else if key in m then (swept, Replayed(m[key]))
      else
        (Store(s.cache[c.device := m[key := c.now]],
               s.rates[c.device := rw.(count := rw.count + 1)]), Accepted)
  }

  class Guard {
    var replayCache: map<DeviceId, map<string, int>>
    var rateState: map<DeviceId, RateWindow>
    const maxRequestsPerMin: int

    function State(): Store
      reads this
    {
      Store(replayCache, rateState)
    }

    constructor (maxRequestsPerMin: int)
      ensures State() == EMPTY && this.maxRequestsPerMin == maxRequestsPerMin
    {
      this.maxRequestsPerMin := maxRequestsPerMin;
      replayCache := map[];
      rateState := map[];
    }

    /** Deletes the expired entries of one device's map, visiting the keys in any order. */
    method EvictOld(deviceID: DeviceId, now: int)
      requires deviceID in replayCache
      modifies this`replayCache
      ensures replayCache == old(replayCache)[deviceID := Evict(old(replayCache[deviceID]), now)]
    {
      var m := replayCache[deviceID];
      ghost var before := m;
      var todo := m.Keys;
      while todo != {}
        invariant todo <= m.Keys <= before.Keys
        invariant forall k :: k in m ==> m[k] == before[k]
        invariant forall k :: k in before && k !in todo ==> (k in m <==> now - before[k] <= REPLAY_CACHE_TTL)
        decreases todo
      {
        var k :| k in todo;
        todo := todo - {k};
        if now - m[k] > REPLAY_CACHE_TTL {
          m := m - {k};
        }
      }
      assert m == Evict(before, now);
      replayCache := replayCache[deviceID := m];
    }

    method ValidateFreshnessAndRate(deviceID: DeviceId, nonce: bytes, ts: int, now: int) returns (v: Verdict)
      modifies this`replayCache, this`rateState
      ensures (State(), v) == Step(old(State()), Call(deviceID, nonce, ts, now), Limit(maxRequestsPerMin))
    {
      if ts > now + MAX_CLOCK_SKEW_SEC {
        return InFuture;
      }
      if Wrap64(now - ts) > MAX_MSG_AGE_SEC {
        return TooOld;
      }
      var nonceHex := Hex.Encode(nonce);

      if deviceID !in replayCache {
        replayCache := replayCache[deviceID := map[]];
      }
      EvictOld(deviceID, now);
      ghost var swept := Evict(CacheOf(old(State()), deviceID), now);
      assert replayCache == old(replayCache)[deviceID := swept];

      var rw := if deviceID in rateState then rateState[deviceID] else RateWindow(0, 0);
      if rw.windowStart == 0 || now - rw.windowStart >= FW.WINDOW {
        rw := RateWindow(now, 0);
      }
      var limit := MAX_REQUESTS_PER_DEVICE_PER_MIN;
      if maxRequestsPerMin > 0 {
        limit := maxRequestsPerMin;
      }
      if rw.count + 1 > limit {
        return RateLimited;
      }
      var m := replayCache[deviceID];
      if nonceHex in m {
        return Replayed(m[nonceHex]);
      }
      replayCache := replayCache[deviceID := m[nonceHex := now]];
      assert replayCache == old(replayCache)[deviceID := swept[nonceHex := now]];
      rateState := rateState[deviceID := rw.(count := rw.count + 1)];
      return Accepted;
    }
  }
}
