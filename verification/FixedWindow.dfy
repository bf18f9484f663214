/** Fixed-window counting, the discipline that the message limiter and the pairing
    hello limiter share. A chain records what a limiter let through: when, in which
    window, and as the how-manieth of that window. */
module FixedWindow {
  import opened Basics

  const WINDOW := 60

  datatype Hit = Hit(at: int, start: int, ordinal: int)

  /** A hit may carry a clock reading at most `stall` seconds behind its window start,
      because the clock is read before the lock is taken. */
  ghost predicate HitOk(h: Hit, limit: int, stall: int) {
    && 1 <= h.ordinal <= limit
    && h.start - stall <= h.at < h.start + WINDOW
    && (h.ordinal == 1 ==> h.at == h.start)
  }

  ghost predicate Follows(p: Hit, q: Hit) {
    if q.ordinal == 1 then q.start >= p.start + WINDOW
    else q.start == p.start && q.ordinal == p.ordinal + 1
  }

  ghost predicate Chain(h: seq<Hit>, limit: int, stall: int) {
    && (forall i :: 0 <= i < |h| ==> HitOk(h[i], limit, stall))
    && (forall i :: 0 < i < |h| ==> Follows(h[i - 1], h[i]))
    && (h != [] ==> h[0].ordinal == 1)
  }

  /** How many hits fall in [lo, hi). */
  ghost function Count(h: seq<Hit>, lo: int, hi: int): nat {
    if h == [] then 0
    else Count(h[..|h| - 1], lo, hi) + if lo <= h[|h| - 1].at < hi then 1 else 0
  }

  /** What `windows` full windows put into a span that `inside` of them begin in: the others
      have spent their first hit outside it. */
  function Most(windows: int, inside: int, limit: int): int {
    (limit - 1) * windows + inside
  }

  lemma MostGrows(k: int, i: int, k': int, i': int, limit: int)
    requires 1 <= limit && k <= k' && i <= i'
    ensures Most(k, i, limit) <= Most(k', i', limit)
    ensures Most(k + 1, i, limit) == Most(k, i, limit) + limit - 1
  {
    assert (limit - 1) * k' == (limit - 1) * k + (limit - 1) * (k' - k);
    assert (limit - 1) * (k' - k) >= 0;
    assert (limit - 1) * (k + 1) == (limit - 1) * k + (limit - 1);
  }

  /** How many windows can begin in a span of `width` seconds, the first at its start. */
  function FromStart(width: int): int {
    (width - 1) / WINDOW + 1
  }

  /** How many windows can begin in it if one has begun 59 seconds before it. */
  function FromBefore(width: int): int {
    (width + 58) / WINDOW
  }

  /** The most hits any span of `width` seconds can hold: either the first window begins with the
      span, or 59 seconds before it. Windows that begin up to `stall` seconds after the span may
      still have stale hits in it. */
  function SpanBound(width: int, stall: int, limit: int): int {
    Max(Most(FromStart(width + stall), FromStart(width), limit),
        Most(FromBefore(width + stall) + 1, FromBefore(width), limit))
  }

  /** What is known of the count once the current window starts at `ws` and holds `c` hits. */
  ghost predicate Budget(total: int, ws: int, c: int, a: int, width: int, stall: int, limit: int) {
    var late := if ws >= a + width then 1 else 0;
    if ws < a - 59 then total == 0
    else if ws >= a + width + stall then total <= SpanBound(width, stall, limit)
    else
      || (a <= ws && total <= Most((ws - a) / WINDOW, Min((ws - a) / WINDOW, FromStart(width)), limit) + c - late)
      || total <= Most((ws - a + 59) / WINDOW, Min((ws - a + 59) / WINDOW - 1, FromBefore(width)), limit) + c - late
  }

  lemma BudgetGivesBound(total: int, ws: int, c: int, a: int, width: int, stall: int, limit: int)
    requires 1 <= c <= limit && 0 <= stall && 1 <= width
    requires Budget(total, ws, c, a, width, stall, limit)
    ensures total <= SpanBound(width, stall, limit)
  {
    if ws < a - 59 {
      MostGrows(0, 0, FromStart(width + stall), FromStart(width), limit);
    } else if ws < a + width + stall {
      var k, m := (ws - a) / WINDOW, (ws - a + 59) / WINDOW;
      var i, j := Min(k, FromStart(width)), Min(m - 1, FromBefore(width));
      var late := if ws >= a + width then 1 else 0;
      MostGrows(k, i, k, i, limit);
      MostGrows(m, j, m, j, limit);
      if a <= ws {
        MostGrows(k + 1, i + 1 - late, FromStart(width + stall), FromStart(width), limit);
      }
      MostGrows(m + 1, j + 1 - late, FromBefore(width + stall) + 1, FromBefore(width), limit);
    }
  }

  /** The next window begins: nothing of the budget so far is lost. */
  lemma BudgetNextWindow(total: int, p: Hit, q: Hit, a: int, width: int, stall: int, limit: int)
    requires 0 <= stall && 1 <= width
    requires HitOk(p, limit, stall) && HitOk(q, limit, stall) && Follows(p, q) && q.ordinal == 1
    requires a - 59 <= p.start && q.start < a + width + stall
    requires Budget(total, p.start, p.ordinal, a, width, stall, limit)
    ensures Budget(total + if a <= q.at < a + width then 1 else 0, q.start, 1, a, width, stall, limit)
  {
    var late := if p.start >= a + width then 1 else 0;
    var k, k' := (p.start - a) / WINDOW, (q.start - a) / WINDOW;
    var m, m' := (p.start - a + 59) / WINDOW, (q.start - a + 59) / WINDOW;
    var i, i' := Min(k, FromStart(width)), Min(k', FromStart(width));
    var j, j' := Min(m - 1, FromBefore(width)), Min(m' - 1, FromBefore(width));
    assert k + 1 <= k' && m + 1 <= m';
    MostGrows(k, i, k, i, limit);
    MostGrows(m, j, m, j, limit);
    if a <= p.start {
      MostGrows(k + 1, i + 1 - late, k', i', limit);
    }
    MostGrows(m + 1, j + 1 - late, m', j', limit);
  }

  /** The first window that matters begins. */
  lemma BudgetStart(h: Hit, a: int, width: int, stall: int, limit: int)
    requires 0 <= stall && 1 <= width && HitOk(h, limit, stall) && h.ordinal == 1
    ensures Budget(if a <= h.at < a + width then 1 else 0, h.start, 1, a, width, stall, limit)
  {
    MostGrows(0, 0, FromStart(width + stall), FromStart(width), limit);
    if a <= h.start {
      var k := (h.start - a) / WINDOW;
      MostGrows(0, 0, k, Min(k, FromStart(width)), limit);
    }
  }

  /** One more hit keeps the budget. */
  lemma BudgetStep(total: int, p: Hit, q: Hit, a: int, width: int, stall: int, limit: int)
    requires 0 <= stall && 1 <= width
    requires HitOk(p, limit, stall) && HitOk(q, limit, stall) && Follows(p, q)
    requires Budget(total, p.start, p.ordinal, a, width, stall, limit)
    ensures Budget(total + if a <= q.at < a + width then 1 else 0, q.start, q.ordinal, a, width, stall, limit)
  {
    BudgetGivesBound(total, p.start, p.ordinal, a, width, stall, limit);
    if q.ordinal == 1 {
      if p.start < a - 59 {
        BudgetStart(q, a, width, stall, limit);
      } else if q.start < a + width + stall {
        BudgetNextWindow(total, p, q, a, width, stall, limit);
      }
    }
  }

  lemma {:induction false} ChainBudget(h: seq<Hit>, a: int, width: int, stall: int, limit: int)
    requires Chain(h, limit, stall) && h != [] && 0 <= stall && 1 <= width
    ensures Budget(Count(h, a, a + width), h[|h| - 1].start, h[|h| - 1].ordinal, a, width, stall, limit)
  {
    var last := h[|h| - 1];
    var front := h[..|h| - 1];
    if front == [] {
      assert Count(front, a, a + width) == 0;
      BudgetStart(last, a, width, stall, limit);
    } else {
      ChainBudget(front, a, width, stall, limit);
      BudgetStep(Count(front, a, a + width), front[|front| - 1], last, a, width, stall, limit);
    }
  }

  lemma ChainBound(h: seq<Hit>, a: int, width: int, stall: int, limit: int)
    requires Chain(h, limit, stall) && 0 <= stall && 1 <= width && 1 <= limit
    ensures Count(h, a, a + width) <= SpanBound(width, stall, limit)
  {
    if h != [] {
      ChainBudget(h, a, width, stall, limit);
      BudgetGivesBound(Count(h, a, a + width), h[|h| - 1].start, h[|h| - 1].ordinal, a, width, stall, limit);
    } else {
      MostGrows(0, 0, FromStart(width + stall), FromStart(width), limit);
    }
  }

  lemma WholeMinutes(k: nat, limit: int)
    requires 1 <= limit && 1 <= k
    ensures SpanBound(WINDOW * k, 0, limit) == (k + 1) * limit - 1
  {
    assert FromStart(WINDOW * k) == k && FromBefore(WINDOW * k) == k;
    MostGrows(k, k, k + 1, k, limit);
    assert (limit - 1) * (k + 1) + k == (k + 1) * limit - 1;
  }

  lemma {:induction false} CountWider(h: seq<Hit>, lo: int, hi: int, lo': int, hi': int)
    requires lo' <= lo && hi <= hi'
    ensures Count(h, lo, hi) <= Count(h, lo', hi')
  {
    if h != [] {
      CountWider(h[..|h| - 1], lo, hi, lo', hi');
    }
  }

  ghost predicate AllBefore(h: seq<Hit>, hi: int) {
    forall i :: 0 <= i < |h| ==> h[i].at < hi
  }

  /** All hits of the current window lie in one span, so a full window means `limit` recent hits. */
  lemma {:induction false} CurrentWindowCounted(h: seq<Hit>, hi: int, stall: int, limit: int)
    requires Chain(h, limit, stall) && h != [] && 0 <= stall
    requires AllBefore(h, hi)
    ensures Count(h, h[|h| - 1].start - stall, hi) >= h[|h| - 1].ordinal
  {
    var front := h[..|h| - 1];
    if h[|h| - 1].ordinal > 1 {
      assert Follows(h[|h| - 2], h[|h| - 1]);
      CurrentWindowCounted(front, hi, stall, limit);
    }
  }
}
