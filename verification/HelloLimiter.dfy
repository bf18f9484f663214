/** The per-address limiter of pairing hellos (`allowPairHelloFromIP`). It counts denied
    attempts too, and commits its window on every attempt. */
module HelloLimiter {
  import opened Basics
  import opened ReplayGuard
  import FW = FixedWindow

  const DEFAULT_HELLO_LIMIT := 30

  type Windows = map<string, RateWindow>

  datatype Attempt = Attempt(ip: string, now: int)

  function HelloLimit(pairHelloMaxPerMin: int): (limit: int)
    ensures 1 <= limit
    ensures limit == pairHelloMaxPerMin || (pairHelloMaxPerMin <= 0 && limit == 30)
  {
    if pairHelloMaxPerMin <= 0 then DEFAULT_HELLO_LIMIT else pairHelloMaxPerMin
  }

  function WindowFor(w: Windows, ip: string): RateWindow {
    if ip in w then w[ip] else RateWindow(0, 0)
  }

  function Record(w: Windows, a: Attempt): Windows {
    var rw := Refresh(WindowFor(w, a.ip), a.now);
    w[a.ip := rw.(count := rw.count + 1)]
  }

  class Limiter {
    var pairHelloRL: Windows
    const pairHelloMaxPerMin: int

    constructor (pairHelloMaxPerMin: int)
      ensures pairHelloRL == map[] && this.pairHelloMaxPerMin == pairHelloMaxPerMin
    {
      this.pairHelloMaxPerMin := pairHelloMaxPerMin;
      pairHelloRL := map[];
    }

    method AllowPairHelloFromIP(ip: string, now: int) returns (ok: bool)
      modifies this`pairHelloRL
      ensures pairHelloRL == Record(old(pairHelloRL), Attempt(ip, now))
      ensures ok <==> pairHelloRL[ip].count <= HelloLimit(pairHelloMaxPerMin)
    {
      var limit := pairHelloMaxPerMin;
      if limit <= 0 {
        limit := DEFAULT_HELLO_LIMIT;
      }
      var rw := if ip in pairHelloRL then pairHelloRL[ip] else RateWindow(0, 0);
      if rw.windowStart == 0 || now - rw.windowStart >= FW.WINDOW {
        rw := RateWindow(now, 0);
      }
      rw := rw.(count := rw.count + 1);
      pairHelloRL := pairHelloRL[ip := rw];
      return rw.count <= limit;
    }
  }

  // ---- Whole runs -------------------------------------------------------------------

  function After(run: seq<Attempt>, n: nat): Windows
    requires n <= |run|
  {
    if n == 0 then map[] else Record(After(run, n - 1), run[n - 1])
  }

  predicate Allowed(run: seq<Attempt>, i: nat, limit: int)
    requires i < |run|
  {
    WindowFor(After(run, i + 1), run[i].ip).count <= limit
  }

  ghost predicate PositiveClock(run: seq<Attempt>) {
    forall i :: 0 <= i < |run| ==> run[i].now > 0
  }

  ghost predicate Stalled(run: seq<Attempt>, d: int) {
    forall i, j :: 0 <= i < j < |run| ==> run[j].now >= run[i].now - d
  }

  ghost function AllowedIn(run: seq<Attempt>, n: nat, ip: string, lo: int, hi: int, limit: int): nat
    requires n <= |run|
  {
    if n == 0 then 0
    else AllowedIn(run, n - 1, ip, lo, hi, limit)
         + if run[n - 1].ip == ip && Allowed(run, n - 1, limit) && lo <= run[n - 1].now < hi then 1 else 0
  }

  ghost function Hits(run: seq<Attempt>, n: nat, ip: string, limit: int): seq<FW.Hit>
    requires n <= |run|
  {
    if n == 0 then []
    else
      Hits(run, n - 1, ip, limit)
      + if run[n - 1].ip == ip && Allowed(run, n - 1, limit) then
          var rw := WindowFor(After(run, n), ip);
          [FW.Hit(run[n - 1].now, rw.windowStart, rw.count)]
        else []
  }

  lemma {:induction false} HitsCounted(run: seq<Attempt>, n: nat, ip: string, lo: int, hi: int, limit: int)
    requires n <= |run|
    ensures AllowedIn(run, n, ip, lo, hi, limit) == FW.Count(Hits(run, n, ip, limit), lo, hi)
  {
    if n > 0 {
      HitsCounted(run, n - 1, ip, lo, hi, limit);
      var front, h := Hits(run, n - 1, ip, limit), Hits(run, n, ip, limit);
      if h != front {
        assert h[..|h| - 1] == front;
      }
    }
  }

  lemma {:induction false} HitsReadInRun(run: seq<Attempt>, n: nat, ip: string, hi: int, limit: int)
    requires n <= |run|
    requires forall i :: 0 <= i < n ==> run[i].now < hi
    ensures FW.AllBefore(Hits(run, n, ip, limit), hi)
  {
    if n > 0 {
      HitsReadInRun(run, n - 1, ip, hi, limit);
    }
  }

  /** The committed window is that of the last allowed hello; denied attempts only push its
      count past the limit. */
  ghost predicate WindowMatches(run: seq<Attempt>, n: nat, ip: string, limit: int)
    requires n <= |run|
  {
    var rw := WindowFor(After(run, n), ip);
    var h := Hits(run, n, ip, limit);
    if h == [] then rw == RateWindow(0, 0)
    else
      && rw.windowStart == h[|h| - 1].start > 0
      && h[|h| - 1].ordinal == Min(rw.count, limit)
      && exists i :: 0 <= i < n && run[i].ip == ip && run[i].now == rw.windowStart
  }

  lemma HitAdded(run: seq<Attempt>, n: nat, ip: string, d: int, limit: int)
    requires 0 < n <= |run| && PositiveClock(run) && Stalled(run, d) && 0 <= d && 1 <= limit
    requires run[n - 1].ip == ip && Allowed(run, n - 1, limit)
    requires FW.Chain(Hits(run, n - 1, ip, limit), limit, d) && WindowMatches(run, n - 1, ip, limit)
    ensures FW.Chain(Hits(run, n, ip, limit), limit, d) && WindowMatches(run, n, ip, limit)
  {
    var a := run[n - 1];
    var front := Hits(run, n - 1, ip, limit);
    var rw := WindowFor(After(run, n), ip);
    var hit := FW.Hit(a.now, rw.windowStart, rw.count);
    assert Hits(run, n, ip, limit) == front + [hit];
    if front != [] && rw.windowStart != a.now {
      var i :| 0 <= i < n - 1 && run[i].ip == ip && run[i].now == rw.windowStart;
      assert a.now >= run[i].now - d;
    }
    assert FW.HitOk(hit, limit, d);
    assert front != [] ==> FW.Follows(front[|front| - 1], hit);
  }

  /** An attempt of another address, or a denied one, changes neither the hits nor what they say. */
  lemma NoHitAdded(run: seq<Attempt>, n: nat, ip: string, limit: int)
    requires 0 < n <= |run| && PositiveClock(run) && 1 <= limit
    requires run[n - 1].ip != ip || !Allowed(run, n - 1, limit)
    requires WindowMatches(run, n - 1, ip, limit)
    ensures Hits(run, n, ip, limit) == Hits(run, n - 1, ip, limit)
    ensures WindowMatches(run, n, ip, limit)
  {
    var rw, rw' := WindowFor(After(run, n - 1), ip), WindowFor(After(run, n), ip);
    if run[n - 1].ip == ip {
      assert rw' == rw.(count := rw.count + 1);
    } else {
      assert rw' == rw;
    }
  }

  lemma {:induction false} HitsChain(run: seq<Attempt>, n: nat, ip: string, d: int, limit: int)
    requires n <= |run| && PositiveClock(run) && Stalled(run, d) && 0 <= d && 1 <= limit
    ensures FW.Chain(Hits(run, n, ip, limit), limit, d)
    ensures WindowMatches(run, n, ip, limit)
  {
    if n > 0 {
      HitsChain(run, n - 1, ip, d, limit);
      var a := run[n - 1];
      if a.ip == ip && Allowed(run, n - 1, limit) {
        HitAdded(run, n, ip, d, limit);
      } else {
        NoHitAdded(run, n, ip, limit);
      }
    }
  }

  /** Although denied attempts are counted, no span lets through more than the message
      limiter would. */
  lemma HelloUpperBound(run: seq<Attempt>, ip: string, a: int, width: int, d: int, limit: int)
    requires PositiveClock(run) && Stalled(run, d) && 0 <= d && 1 <= limit && 1 <= width
    ensures AllowedIn(run, |run|, ip, a, a + width, limit) <= FW.SpanBound(width, d, limit)
  {
    HitsChain(run, |run|, ip, d, limit);
    HitsCounted(run, |run|, ip, a, a + width, limit);
    FW.ChainBound(Hits(run, |run|, ip, limit), a, width, d, limit);
  }

  lemma HelloUpperBoundMinutes(run: seq<Attempt>, ip: string, a: int, k: nat, limit: int)
    requires PositiveClock(run) && Stalled(run, 0) && 1 <= limit && 1 <= k
    ensures AllowedIn(run, |run|, ip, a, a + 60 * k, limit) <= (k + 1) * limit - 1
  {
    HelloUpperBound(run, ip, a, 60 * k, 0, limit);
    FW.WholeMinutes(k, limit);
  }

  /** A denial finds the window full and under 60 seconds old. */
  lemma DeniedWindowFull(run: seq<Attempt>, n: nat, d: int, limit: int)
    requires n < |run| && PositiveClock(run) && Stalled(run, d) && 0 <= d && 1 <= limit
    requires !Allowed(run, n, limit)
    ensures var h := Hits(run, n, run[n].ip, limit);
            FW.Chain(h, limit, d) && h != []
            && h[|h| - 1].ordinal == limit && run[n].now - h[|h| - 1].start < 60
  {
    HitsChain(run, n, run[n].ip, d, limit);
    var rw := WindowFor(After(run, n), run[n].ip);
    var refreshed := Refresh(rw, run[n].now);
    assert WindowFor(After(run, n + 1), run[n].ip) == refreshed.(count := refreshed.count + 1);
  }

  lemma EarlierReadings(run: seq<Attempt>, n: nat, d: int)
    requires n < |run| && Stalled(run, d)
    ensures forall i :: 0 <= i < n ==> run[i].now < run[n].now + d + 1
  {
    forall i | 0 <= i < n
      ensures run[i].now < run[n].now + d + 1
    {
      assert run[n].now >= run[i].now - d;
    }
  }

  lemma DenialCounted(run: seq<Attempt>, n: nat, d: int, limit: int)
    requires n < |run| && PositiveClock(run) && Stalled(run, d) && 0 <= d && 1 <= limit
    requires !Allowed(run, n, limit)
    ensures AllowedIn(run, n, run[n].ip, run[n].now - 59 - d, run[n].now + d + 1, limit) >= limit
  {
    var ip, end := run[n].ip, run[n].now + d + 1;
    var h := Hits(run, n, ip, limit);
    DeniedWindowFull(run, n, d, limit);
    EarlierReadings(run, n, d);
    HitsReadInRun(run, n, ip, end, limit);
    FW.CurrentWindowCounted(h, end, d, limit);
    FW.CountWider(h, h[|h| - 1].start - d, end, run[n].now - 59 - d, end);
    HitsCounted(run, n, ip, run[n].now - 59 - d, end, limit);
  }

  /** Recovery: a denial never extends the lock-out. An attempt is denied only while the
      window is under 60 seconds old, that window was opened by a hello that was allowed,
      and `limit` hellos were really let through in (now - 60 - d, now + d]. */
  lemma DenialMeansBusy(run: seq<Attempt>, n: nat, d: int, limit: int)
    requires n < |run| && PositiveClock(run) && Stalled(run, d) && 0 <= d && 1 <= limit
    requires !Allowed(run, n, limit)
    ensures AllowedIn(run, n, run[n].ip, run[n].now - 59 - d, run[n].now + d + 1, limit) >= limit
    ensures exists i :: 0 <= i < n && run[i].ip == run[n].ip && Allowed(run, i, limit) && run[n].now - run[i].now < 60
  {
    DenialCounted(run, n, d, limit);
    var i := WindowOpener(run, n, run[n].ip, limit);
  }

  /** The call that opened the current window: it read the window start and was allowed. */
  lemma {:induction false} WindowOpener(run: seq<Attempt>, n: nat, ip: string, limit: int) returns (i: nat)
    requires n <= |run| && ip in After(run, n) && 1 <= limit
    ensures i < n && run[i].ip == ip && Allowed(run, i, limit)
    ensures run[i].now == After(run, n)[ip].windowStart
  {
    var rw := After(run, n)[ip];
    if run[n - 1].ip == ip && rw.count == 1 && rw.windowStart == run[n - 1].now {
      i := n - 1;
    } else {
      i := WindowOpener(run, n - 1, ip, limit);
    }
  }
}
