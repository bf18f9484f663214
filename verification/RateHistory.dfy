/** The per-device rate limiter over whole runs: how many messages any span of time can
    let through, that the bound is reached, and what a rejection proves. */
module RateHistory {
  import opened Basics
  import opened ReplayGuard
  import opened ReplayHistory
  import FW = FixedWindow
  import Hex

  /** How many of the first `n` calls were accepted for `device` with a clock reading in [lo, hi). */
  ghost function AcceptedIn(calls: seq<Call>, n: nat, device: DeviceId, lo: int, hi: int, limit: int): nat
    requires n <= |calls|
  {
    if n == 0 then 0
    else AcceptedIn(calls, n - 1, device, lo, hi, limit)
         + if AcceptedFor(calls, n - 1, device, limit) && lo <= calls[n - 1].now < hi then 1 else 0
  }

  /** The accepted calls of a device with the window and count each was committed with. */
  ghost function Hits(calls: seq<Call>, n: nat, device: DeviceId, limit: int): seq<FW.Hit>
    requires n <= |calls|
  {
    if n == 0 then []
    else
      Hits(calls, n - 1, device, limit)
      + if AcceptedFor(calls, n - 1, device, limit) then
          var rw := WindowOf(After(calls, n, limit), device);
          [FW.Hit(calls[n - 1].now, rw.windowStart, rw.count)]
        else []
  }

  lemma {:induction false} HitsCounted(calls: seq<Call>, n: nat, device: DeviceId, lo: int, hi: int, limit: int)
    requires n <= |calls|
    ensures AcceptedIn(calls, n, device, lo, hi, limit) == FW.Count(Hits(calls, n, device, limit), lo, hi)
  {
    if n > 0 {
      HitsCounted(calls, n - 1, device, lo, hi, limit);
      var front, h := Hits(calls, n - 1, device, limit), Hits(calls, n, device, limit);
      if h != front {
        assert h[..|h| - 1] == front;
      }
    }
  }

  lemma {:induction false} HitsReadInRun(calls: seq<Call>, n: nat, device: DeviceId, hi: int, limit: int)
    requires n <= |calls|
    requires forall i :: 0 <= i < n && Locked(calls[i]) ==> calls[i].now < hi
    ensures FW.AllBefore(Hits(calls, n, device, limit), hi)
  {
    if n > 0 {
      HitsReadInRun(calls, n - 1, device, hi, limit);
      if AcceptedFor(calls, n - 1, device, limit) {
        assert Locked(calls[n - 1]);
      }
    }
  }

  /** The committed window is that of the device's last accepted call, and it starts at an
      earlier clock reading. */
  ghost predicate WindowMatches(calls: seq<Call>, n: nat, device: DeviceId, limit: int)
    requires n <= |calls|
  {
    var rw := WindowOf(After(calls, n, limit), device);
    var h := Hits(calls, n, device, limit);
    if h == [] then rw == RateWindow(0, 0)
    else
      && rw.windowStart == h[|h| - 1].start && rw.count == h[|h| - 1].ordinal
      && rw.windowStart > 0
      && exists i :: 0 <= i < n && Locked(calls[i]) && calls[i].now == rw.windowStart
  }

  /** How one call moves the window of a device. */
  lemma WindowStep(s: Store, c: Call, limit: int, device: DeviceId)
    ensures var (s', v) := Step(s, c, limit);
            var before, after := WindowOf(s, device), WindowOf(s', device);
            if v.Accepted? && c.device == device then
              && Locked(c) && after.count <= limit
              && (if before.windowStart == 0 || c.now - before.windowStart >= FW.WINDOW
                  then after == RateWindow(c.now, 1)
                  else after == RateWindow(before.windowStart, before.count + 1))
            else after == before
  {
  }

  lemma {:induction false} HitsChain(calls: seq<Call>, n: nat, device: DeviceId, d: int, limit: int)
    requires n <= |calls| && ValidCalls(calls) && Stalled(calls, d) && 0 <= d && 1 <= limit
    ensures FW.Chain(Hits(calls, n, device, limit), limit, d)
    ensures WindowMatches(calls, n, device, limit)
  {
    if n > 0 {
      HitsChain(calls, n - 1, device, d, limit);
      WindowStep(After(calls, n - 1, limit), calls[n - 1], limit, device);
      if AcceptedFor(calls, n - 1, device, limit) {
        HitAdded(calls, n, device, d, limit);
      } else {
        assert Hits(calls, n, device, limit) == Hits(calls, n - 1, device, limit);
      }
    }
  }

  lemma HitAdded(calls: seq<Call>, n: nat, device: DeviceId, d: int, limit: int)
    requires 0 < n <= |calls| && ValidCalls(calls) && Stalled(calls, d) && 0 <= d && 1 <= limit
    requires AcceptedFor(calls, n - 1, device, limit)
    requires FW.Chain(Hits(calls, n - 1, device, limit), limit, d) && WindowMatches(calls, n - 1, device, limit)
    ensures FW.Chain(Hits(calls, n, device, limit), limit, d) && WindowMatches(calls, n, device, limit)
  {
    var c := calls[n - 1];
    WindowStep(After(calls, n - 1, limit), c, limit, device);
    var front := Hits(calls, n - 1, device, limit);
    var rw := WindowOf(After(calls, n, limit), device);
    var hit := FW.Hit(c.now, rw.windowStart, rw.count);
    assert Hits(calls, n, device, limit) == front + [hit];
    if front != [] && rw.windowStart != c.now {
      var i :| 0 <= i < n - 1 && Locked(calls[i]) && calls[i].now == rw.windowStart;
      assert c.now >= calls[i].now - d;
    }
    assert ValidCall(c);
    assert FW.HitOk(hit, limit, d);
    assert front != [] ==> FW.Follows(front[|front| - 1], hit);
  }

  /** No span of `width` seconds holds more than SpanBound accepted messages of one device,
      whatever the span's start and however stale (up to d) the clock readings. */
  lemma RateUpperBound(calls: seq<Call>, device: DeviceId, a: int, width: int, d: int, limit: int)
    requires ValidCalls(calls) && Stalled(calls, d) && 0 <= d && 1 <= limit && 1 <= width
    ensures AcceptedIn(calls, |calls|, device, a, a + width, limit) <= FW.SpanBound(width, d, limit)
  {
    HitsChain(calls, |calls|, device, d, limit);
    HitsCounted(calls, |calls|, device, a, a + width, limit);
    FW.ChainBound(Hits(calls, |calls|, device, limit), a, width, d, limit);
  }

  /** With a clock that never runs backwards, k minutes hold at most (k + 1) * limit - 1. */
  lemma RateUpperBoundMinutes(calls: seq<Call>, device: DeviceId, a: int, k: nat, limit: int)
    requires ValidCalls(calls) && Stalled(calls, 0) && 1 <= limit && 1 <= k
    ensures AcceptedIn(calls, |calls|, device, a, a + 60 * k, limit) <= (k + 1) * limit - 1
  {
    RateUpperBound(calls, device, a, 60 * k, 0, limit);
    FW.WholeMinutes(k, limit);
  }

  /** A rate rejection means the device really was busy: with readings at most d seconds
      stale, at least `limit` of its messages were accepted in (now - 60 - d, now + d]. */
  lemma RejectionMeansBusy(calls: seq<Call>, n: nat, d: int, limit: int)
    requires n < |calls| && ValidCalls(calls) && Stalled(calls, d) && 0 <= d && 1 <= limit
    requires VerdictAt(calls, n, limit).RateLimited?
    ensures AcceptedIn(calls, n, calls[n].device, calls[n].now - 59 - d, calls[n].now + d + 1, limit) >= limit
  {
    var c := calls[n];
    var h := Hits(calls, n, c.device, limit);
    HitsChain(calls, n, c.device, d, limit);
    assert Locked(c);
    assert h != [];
    forall i | 0 <= i < n && Locked(calls[i])
      ensures calls[i].now < c.now + d + 1
    {
      assert calls[n].now >= calls[i].now - d;
    }
    HitsReadInRun(calls, n, c.device, c.now + d + 1, limit);
    FW.CurrentWindowCounted(h, c.now + d + 1, d, limit);
    FW.CountWider(h, h[|h| - 1].start - d, c.now + d + 1, c.now - 59 - d, c.now + d + 1);
    HitsCounted(calls, n, c.device, c.now - 59 - d, c.now + d + 1, limit);
  }

  /** The rate decision in terms of the accepted messages alone: a call is rate-rejected exactly
      when it is fresh and the window of the device's last accepted message is both full and
      under 60 seconds old. The nonce plays no part, seen or not. */
  lemma RateDecidedByLog(calls: seq<Call>, n: nat, d: int, limit: int)
    requires n < |calls| && ValidCalls(calls) && Stalled(calls, d) && 0 <= d && 1 <= limit
    ensures var h := Hits(calls, n, calls[n].device, limit);
            && FW.Chain(h, limit, d)
            && (VerdictAt(calls, n, limit).RateLimited? <==>
                  && Locked(calls[n]) && h != []
                  && h[|h| - 1].ordinal == limit && calls[n].now - h[|h| - 1].start < 60)
  {
    HitsChain(calls, n, calls[n].device, d, limit);
    assert ValidCall(calls[n]);
  }

  // ---- The upper bound is reached ---------------------------------------------------

  /** A burst of full windows, one a minute, aimed at the span of `width` seconds from `a`, on a
      clock whose readings may be `stall` seconds stale. */
  datatype Aim = Aim(first: int, windows: nat, a: int, width: int, stall: int, limit: nat)
  {
    function Start(m: nat): int {
      first + FW.WINDOW * m
    }

    predicate Inside(m: nat) {
      a <= Start(m) < a + width
    }

    /** Every window of the burst can still put hits into the span. */
    predicate Ok() {
      && 1 <= limit && 1 <= width && 0 <= stall && 1 <= first && 1 <= windows
      && a - 59 <= first && Start(windows - 1) < a + width + stall && Start(windows) <= CLOCK_MAX
      && 1 <= a <= CLOCK_MAX - width
    }
  }

  /** Call `i` of the burst is number `ordinal` of window `window`. */
  datatype Slot = Slot(window: nat, ordinal: nat)

  function SlotOf(i: nat, limit: nat): (s: Slot)
    requires 1 <= limit
    ensures s.ordinal < limit
    ensures i == s.window * limit + s.ordinal
  {
    if i == 0 then Slot(0, 0)
    else
      var p := SlotOf(i - 1, limit);
      if p.ordinal == limit - 1 then Slot(p.window + 1, 0) else Slot(p.window, p.ordinal + 1)
  }

  /** The first message of a window begins it, the others keep as close to that as the span allows. */
  function BurstTime(b: Aim, s: Slot): int {
    if s.ordinal == 0 then b.Start(s.window) else Max(b.a, Min(b.Start(s.window), b.a + b.width - 1))
  }

  function BurstCall(b: Aim, i: nat): Call
    requires b.Ok()
  {
    Call(PHONE, seq(i, _ => 0), BurstTime(b, SlotOf(i, b.limit)), BurstTime(b, SlotOf(i, b.limit)))
  }

  function Burst(b: Aim): (calls: seq<Call>)
    requires b.Ok()
    ensures |calls| == b.windows * b.limit
  {
    seq(b.windows * b.limit, (i: nat) => BurstCall(b, i))
  }

  lemma WindowsCompared(m: nat, m': nat, limit: int)
    requires 1 <= limit
    ensures m <= m' ==> m * limit <= m' * limit
    ensures m < m' ==> m * limit + limit <= m' * limit
  {
    var gap := m' - m;
    assert m' * limit == m * limit + gap * limit;
    assert gap >= 1 ==> gap * limit >= limit;
  }

  lemma SlotInBurst(b: Aim, i: nat)
    requires b.Ok() && i < b.windows * b.limit
    ensures SlotOf(i, b.limit).window < b.windows
  {
    WindowsCompared(b.windows, SlotOf(i, b.limit).window, b.limit);
  }

  /** A stale reading is at most `stall` seconds behind its window and still within it. */
  lemma BurstTimeInWindow(b: Aim, s: Slot)
    requires b.Ok() && s.window < b.windows
    ensures var t := BurstTime(b, s);
            && b.Start(s.window) - b.stall <= t < b.Start(s.window) + FW.WINDOW
            && 0 < t <= CLOCK_MAX
            && (b.a <= t < b.a + b.width <==> s.ordinal > 0 || b.Inside(s.window))
  {
    assert b.first <= b.Start(s.window) <= b.Start(b.windows - 1);
  }

  lemma {:induction false} SlotsInOrder(i: nat, j: nat, limit: nat)
    requires 1 <= limit && i < j
    ensures var s, t := SlotOf(i, limit), SlotOf(j, limit);
            s.window < t.window || (s.window == t.window && s.ordinal < t.ordinal)
    decreases j - i
  {
    if i + 1 < j {
      SlotsInOrder(i, j - 1, limit);
    }
  }

  lemma BurstIsARun(b: Aim)
    requires b.Ok()
    ensures ValidCalls(Burst(b)) && Stalled(Burst(b), b.stall)
  {
    var calls := Burst(b);
    forall i | 0 <= i < |calls|
      ensures ValidCall(calls[i])
    {
      SlotInBurst(b, i);
      BurstTimeInWindow(b, SlotOf(i, b.limit));
    }
    forall i, j | 0 <= i < j < |calls|
      ensures calls[j].now >= calls[i].now - b.stall
    {
      SlotInBurst(b, j);
      SlotsInOrder(i, j, b.limit);
      LaterSlotTime(b, SlotOf(i, b.limit), SlotOf(j, b.limit));
    }
  }

  lemma LaterSlotTime(b: Aim, s: Slot, t: Slot)
    requires b.Ok() && t.window < b.windows
    requires s.window < t.window || (s.window == t.window && s.ordinal < t.ordinal)
    ensures BurstTime(b, t) >= BurstTime(b, s) - b.stall
  {
    BurstTimeInWindow(b, s);
    BurstTimeInWindow(b, t);
    if s.window < t.window {
      assert b.Start(t.window) >= b.Start(s.window) + FW.WINDOW;
    }
  }

  /** The window in force before call `i` of the burst. */
  function BurstWindow(b: Aim, i: nat): RateWindow
    requires b.Ok()
  {
    if i == 0 then RateWindow(0, 0)
    else var p := SlotOf(i - 1, b.limit); RateWindow(b.Start(p.window), p.ordinal + 1)
  }

  lemma BurstStep(b: Aim, s: Store, i: nat)
    requires b.Ok() && i < b.windows * b.limit
    requires WindowOf(s, PHONE) == BurstWindow(b, i)
    requires Hex.Encode(BurstCall(b, i).nonce) !in CacheOf(s, PHONE)
    ensures var r := Step(s, BurstCall(b, i), b.limit);
            r.1.Accepted? && WindowOf(r.0, PHONE) == BurstWindow(b, i + 1)
  {
    var c := BurstCall(b, i);
    SlotInBurst(b, i);
    BurstTimeInWindow(b, SlotOf(i, b.limit));
    assert Locked(c);
    assert Refresh(WindowOf(s, PHONE), c.now)
        == RateWindow(b.Start(SlotOf(i, b.limit).window), SlotOf(i, b.limit).ordinal);
  }

  lemma BurstNonceIsNew(b: Aim, n: nat)
    requires b.Ok() && n < b.windows * b.limit
    ensures Hex.Encode(BurstCall(b, n).nonce) !in CacheOf(After(Burst(b), n, b.limit), PHONE)
  {
    var calls := Burst(b);
    var key := Hex.Encode(BurstCall(b, n).nonce);
    if key in CacheOf(After(calls, n, b.limit), PHONE) {
      var i := EntryHasSource(calls, n, PHONE, key, b.limit);
      Hex.EncodeInjective(calls[i].nonce, BurstCall(b, n).nonce);
    }
  }

  /** Every call of the burst is accepted. */
  lemma {:induction false} BurstAccepted(b: Aim, n: nat)
    requires b.Ok() && n <= |Burst(b)|
    ensures n > 0 ==> VerdictAt(Burst(b), n - 1, b.limit).Accepted?
    ensures WindowOf(After(Burst(b), n, b.limit), PHONE) == BurstWindow(b, n)
  {
    if n > 0 {
      BurstAccepted(b, n - 1);
      BurstNonceIsNew(b, n - 1);
      assert Burst(b)[n - 1] == BurstCall(b, n - 1);
      BurstStep(b, After(Burst(b), n - 1, b.limit), n - 1);
    }
  }

  /** How many of the first `m` windows begin in the span. */
  ghost function InsideBefore(b: Aim, m: nat): nat {
    if m == 0 then 0 else InsideBefore(b, m - 1) + if b.Inside(m - 1) then 1 else 0
  }

  /** What the slots before this one have put into the span. */
  ghost function Yield(b: Aim, s: Slot): int {
    FW.Most(s.window, InsideBefore(b, s.window), b.limit)
    + if s.ordinal == 0 then 0 else s.ordinal - 1 + if b.Inside(s.window) then 1 else 0
  }

  lemma YieldStep(b: Aim, i: nat)
    requires b.Ok()
    ensures var s := SlotOf(i, b.limit);
            Yield(b, SlotOf(i + 1, b.limit)) == Yield(b, s) + if s.ordinal > 0 || b.Inside(s.window) then 1 else 0
  {
    var s := SlotOf(i, b.limit);
    FW.MostGrows(s.window, InsideBefore(b, s.window + 1), s.window, InsideBefore(b, s.window + 1), b.limit);
  }

  /** How many of the first `n` calls read the clock inside [lo, hi). */
  ghost function ReadIn(calls: seq<Call>, n: nat, lo: int, hi: int): nat
    requires n <= |calls|
  {
    if n == 0 then 0 else ReadIn(calls, n - 1, lo, hi) + if lo <= calls[n - 1].now < hi then 1 else 0
  }

  ghost predicate AllAccepted(calls: seq<Call>, device: DeviceId, limit: int) {
    forall i :: 0 <= i < |calls| ==> AcceptedFor(calls, i, device, limit)
  }

  lemma {:induction false} AllAcceptedCounted(calls: seq<Call>, n: nat, device: DeviceId, lo: int, hi: int, limit: int)
    requires n <= |calls| && AllAccepted(calls, device, limit)
    ensures AcceptedIn(calls, n, device, lo, hi, limit) == ReadIn(calls, n, lo, hi)
  {
    if n > 0 {
      assert AcceptedFor(calls, n - 1, device, limit);
      AllAcceptedCounted(calls, n - 1, device, lo, hi, limit);
    }
  }

  lemma BurstAllAccepted(b: Aim)
    requires b.Ok()
    ensures AllAccepted(Burst(b), PHONE, b.limit)
  {
    forall i | 0 <= i < |Burst(b)|
      ensures AcceptedFor(Burst(b), i, PHONE, b.limit)
    {
      BurstAccepted(b, i + 1);
      assert Burst(b)[i] == BurstCall(b, i);
    }
  }

  /** The calls read the clock as the burst has it. */
  ghost predicate TimedAsBurst(b: Aim, calls: seq<Call>)
    requires b.Ok()
  {
    forall i :: 0 <= i < |calls| ==> CallTimed(b, i, calls[i].now)
  }

  ghost predicate CallTimed(b: Aim, i: nat, now: int)
    requires b.Ok()
  {
    SlotOf(i, b.limit).window < b.windows && now == BurstTime(b, SlotOf(i, b.limit))
  }

  lemma BurstTimed(b: Aim)
    requires b.Ok()
    ensures TimedAsBurst(b, Burst(b))
  {
    forall i | 0 <= i < |Burst(b)|
      ensures CallTimed(b, i, Burst(b)[i].now)
    {
      SlotInBurst(b, i);
      assert Burst(b)[i] == BurstCall(b, i);
    }
  }

  /** A call adds to the count what its slot adds to the yield. */
  lemma CallYields(b: Aim, i: nat, now: int)
    requires b.Ok() && CallTimed(b, i, now)
    ensures Yield(b, SlotOf(i + 1, b.limit))
            == Yield(b, SlotOf(i, b.limit)) + if b.a <= now < b.a + b.width then 1 else 0
  {
    BurstTimeInWindow(b, SlotOf(i, b.limit));
    YieldStep(b, i);
  }

  lemma {:induction false} BurstCounted(b: Aim, calls: seq<Call>, n: nat)
    requires b.Ok() && n <= |calls| && TimedAsBurst(b, calls)
    ensures ReadIn(calls, n, b.a, b.a + b.width) == Yield(b, SlotOf(n, b.limit))
  {
    if n > 0 {
      BurstCounted(b, calls, n - 1);
      CallYields(b, n - 1, calls[n - 1].now);
    } else {
      assert SlotOf(0, b.limit) == Slot(0, 0);
    }
  }

  lemma LastSlot(windows: nat, limit: nat)
    requires 1 <= limit
    ensures SlotOf(windows * limit, limit) == Slot(windows, 0)
  {
    var s := SlotOf(windows * limit, limit);
    WindowsCompared(windows, s.window, limit);
    WindowsCompared(s.window, windows, limit);
  }

  lemma {:induction false} InsideFromStart(b: Aim, m: nat)
    requires b.Ok() && b.first == b.a
    ensures InsideBefore(b, m) == Min(m, FW.FromStart(b.width))
  {
    if m > 0 {
      InsideFromStart(b, m - 1);
    }
  }

  lemma {:induction false} InsideFromBefore(b: Aim, m: nat)
    requires b.Ok() && b.first == b.a - 59
    ensures InsideBefore(b, m) == if m == 0 then 0 else Min(m - 1, FW.FromBefore(b.width))
  {
    if m > 0 {
      InsideFromBefore(b, m - 1);
    }
  }

  /** What a burst puts into its span. */
  lemma BurstYields(b: Aim)
    requires b.Ok()
    ensures AcceptedIn(Burst(b), |Burst(b)|, PHONE, b.a, b.a + b.width, b.limit)
            == FW.Most(b.windows, InsideBefore(b, b.windows), b.limit)
  {
    BurstAllAccepted(b);
    BurstTimed(b);
    LastSlot(b.windows, b.limit);
    AllYields(b, Burst(b));
  }

  lemma AllYields(b: Aim, calls: seq<Call>)
    requires b.Ok() && SlotOf(|calls|, b.limit) == Slot(b.windows, 0)
    requires AllAccepted(calls, PHONE, b.limit) && TimedAsBurst(b, calls)
    ensures AcceptedIn(calls, |calls|, PHONE, b.a, b.a + b.width, b.limit)
            == FW.Most(b.windows, InsideBefore(b, b.windows), b.limit)
  {
    AllAcceptedCounted(calls, |calls|, PHONE, b.a, b.a + b.width, b.limit);
    BurstCounted(b, calls, |calls|);
  }

  /** The better of the two ways to place the windows. */
  lemma BestAim(a: int, width: int, d: int, limit: nat) returns (b: Aim)
    requires 1 <= limit && 1 <= width && 0 <= d && 60 <= a && a + width + d + 60 <= CLOCK_MAX
    ensures b.Ok() && b.a == a && b.width == width && b.stall == d && b.limit == limit
    ensures FW.Most(b.windows, InsideBefore(b, b.windows), limit) == FW.SpanBound(width, d, limit)
  {
    var from := Aim(a, FW.FromStart(width + d), a, width, d, limit);
    var before := Aim(a - 59, FW.FromBefore(width + d) + 1, a, width, d, limit);
    InsideFromStart(from, from.windows);
    InsideFromBefore(before, before.windows);
    b := if FW.Most(from.windows, FW.FromStart(width), limit) >= FW.Most(before.windows, FW.FromBefore(width), limit)
         then from else before;
  }

  /** The bound of RateUpperBound is attained, for every limit, staleness, width and position of
      the span, so it is the exact maximum. */
  lemma RateUpperBoundTight(a: int, width: int, d: int, limit: nat) returns (calls: seq<Call>)
    requires 1 <= limit && 1 <= width && 0 <= d && 60 <= a && a + width + d + 60 <= CLOCK_MAX
    ensures ValidCalls(calls) && Stalled(calls, d)
    ensures AcceptedIn(calls, |calls|, PHONE, a, a + width, limit) == FW.SpanBound(width, d, limit)
  {
    var best := BestAim(a, width, d, limit);
    calls := Burst(best);
    BurstIsARun(best);
    BurstYields(best);
  }

  /** In particular k minutes can hold (k + 1) * limit - 1 messages on a forward clock. */
  lemma RateMinutesTight(a: int, k: nat, limit: nat) returns (calls: seq<Call>)
    requires 1 <= limit && 1 <= k && 60 <= a && a + 60 * k + 60 <= CLOCK_MAX
    ensures ValidCalls(calls) && Stalled(calls, 0)
    ensures AcceptedIn(calls, |calls|, PHONE, a, a + 60 * k, limit) == (k + 1) * limit - 1
  {
    calls := RateUpperBoundTight(a, 60 * k, 0, limit);
    FW.WholeMinutes(k, limit);
  }
}
