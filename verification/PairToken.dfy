/** The one-time pairing token. Bytes are machine octets here because the comparison works on
    their bits. */
module PairToken {
  import opened Basics

  type octets = seq<bv8>
  type Instant = int

  const DEFAULT_TTL := 600_000_000_000  // ten minutes, in nanoseconds

  /** The base64 text form of a token, with the usual inverse law. */
  datatype TextForm = TextForm(encode: octets -> string, decode: string -> Option<octets>)
  {
    ghost predicate Lawful() {
      forall b :: decode(encode(b)) == Some(b)
    }
  }

  datatype Slot = Slot(active: bool, token: octets, expires: Instant)

  datatype PairError = NotActive | Expired | BadEncoding | Unauthorized

  /** `firstNow` decides whether a token is live; `secondNow` dates a new one. */
  function Refreshed(s: Slot, ttl: int, firstNow: Instant, secondNow: Instant, random: octets): Slot {
    if s.active && firstNow < s.expires && s.token != [] then s
    else Slot(true, random, secondNow + if ttl <= 0 then DEFAULT_TTL else ttl)
  }

  function Consumed(s: Slot, got: Option<octets>, now: Instant): (Slot, Result<octets, PairError>) {
    if !s.active || s.token == [] then (s, Err(NotActive))
    else if now > s.expires then (s.(active := false, token := []), Err(Expired))
    else if got.None? then (s, Err(BadEncoding))
    else if got.value != s.token then (s, Err(Unauthorized))
    else (Slot(false, [], 0), Ok(s.token))
  }

  /** Compares without an early exit: the differences are or-ed together. */
  method ConstTimeEq(a: octets, b: octets) returns (eq: bool)
    ensures eq <==> a == b
  {
    if |a| != |b| {
      return false;
    }
    var v: bv8 := 0;
    for i := 0 to |a|
      invariant v == 0 <==> a[..i] == b[..i]
    {
      assert a[..i + 1] == a[..i] + [a[i]] && b[..i + 1] == b[..i] + [b[i]];
      OrXor(v, a[i], b[i]);
      v := v | (a[i] ^ b[i]);
    }
    assert a[..|a|] == a && b[..|b|] == b;
    return v == 0;
  }

  lemma OrXor(v: bv8, x: bv8, y: bv8)
    ensures v | (x ^ y) == 0 <==> v == 0 && x == y
  {
  }

  class PairTokenState {
    var active: bool
    var token: octets
    var expires: Instant
    const form: TextForm

    function State(): Slot
      reads this
    {
      Slot(active, token, expires)
    }

    constructor (form: TextForm)
      ensures !active && token == [] && this.form == form
    {
      active, token, expires := false, [], 0;
      this.form := form;
    }

    method StartOrRefresh(ttl: int, firstNow: Instant, secondNow: Instant, random: octets)
        returns (text: string, exp: Instant)
      modifies this
      ensures State() == Refreshed(old(State()), ttl, firstNow, secondNow, random)
      ensures text == form.encode(token) && exp == expires
    {
      var life := if ttl <= 0 then DEFAULT_TTL else ttl;
      if active && firstNow < expires && |token| > 0 {
        return form.encode(token), expires;
      }
      active := true;
      token := random;
      expires := secondNow + life;
      return form.encode(token), expires;
    }

    method Consume(text: string, now: Instant) returns (r: Result<octets, PairError>)
      modifies this
      ensures (State(), r) == Consumed(old(State()), form.decode(text), now)
    {
      if !active || |token| == 0 {
        return Err(NotActive);
      }
      if now > expires {
        active := false;
        token := [];
        return Err(Expired);
      }
      var got := form.decode(text);
      if got.None? {
        return Err(BadEncoding);
      }
      var same := ConstTimeEq(got.value, token);
      if !same {
        return Err(Unauthorized);
      }
      var out := token;
      active := false;
      token := [];
      expires := 0;
      return Ok(out);
    }
  }

  // ---- Whole runs ---------------------------------------------------------------------------------

  datatype Op =
    | Refresh(ttl: int, firstNow: Instant, secondNow: Instant, random: octets)
    | Consume(got: Option<octets>, now: Instant)

  function Apply(s: Slot, op: Op): Slot {
    match op
    case Refresh(ttl, firstNow, secondNow, random) => Refreshed(s, ttl, firstNow, secondNow, random)
    case Consume(got, now) => Consumed(s, got, now).0
  }

  function After(ops: seq<Op>, n: nat): Slot
    requires n <= |ops|
  {
    if n == 0 then Slot(false, [], 0) else Apply(After(ops, n - 1), ops[n - 1])
  }

  predicate Live(s: Slot, now: Instant) {
    s.active && now < s.expires && s.token != []
  }

  /** Call `i` made a new token rather than returning the live one. */
  predicate Generates(ops: seq<Op>, i: nat)
    requires i < |ops|
  {
    ops[i].Refresh? && !Live(After(ops, i), ops[i].firstNow)
  }

  predicate Succeeds(ops: seq<Op>, i: nat)
    requires i < |ops|
  {
    ops[i].Consume? && Consumed(After(ops, i), ops[i].got, ops[i].now).1.Ok?
  }

  /** When the token made by this call expires: the given lifetime, else ten minutes, from the call's
      second clock reading. */
  ghost function Deadline(op: Op): Instant
    requires op.Refresh?
  {
    op.secondNow + if op.ttl > 0 then op.ttl else 600_000_000_000
  }

  /** A generation installs its draw until its deadline. */
  lemma GenerationMakes(ops: seq<Op>, g: nat)
    requires g < |ops| && Generates(ops, g)
    ensures After(ops, g + 1) == Slot(true, ops[g].random, Deadline(ops[g]))
  {
  }

  /** The last generation before `n`. */
  function Generation(ops: seq<Op>, n: nat): (g: Option<nat>)
    requires n <= |ops|
    ensures g.Some? ==>
      g.value < n && Generates(ops, g.value) && forall m :: g.value < m < n ==> !Generates(ops, m)
  {
    if n == 0 then None else if Generates(ops, n - 1) then Some(n - 1) else Generation(ops, n - 1)
  }

  /** An active slot is what the last generation made, and nothing has consumed it since. */
  lemma {:induction false} ActiveSlotIsGenerated(ops: seq<Op>, n: nat)
    requires n <= |ops|
    ensures var s := After(ops, n);
            s.active && s.token != [] ==>
              && Generation(ops, n).Some?
              && (var g := Generation(ops, n).value;
                  && s == After(ops, g + 1)
                  && s.token == ops[g].random
                  && forall m :: g < m < n ==> !Succeeds(ops, m))
  {
    if n > 0 {
      ActiveSlotIsGenerated(ops, n - 1);
    }
  }

  /** A successful consume presents the token of the last generation, no later than that
      generation's expiry, and is the first to do so. */
  lemma SuccessNeedsGeneration(ops: seq<Op>, n: nat)
    requires n < |ops| && Succeeds(ops, n)
    ensures Generation(ops, n).Some?
    ensures var g := Generation(ops, n).value;
            && ops[n].got == Some(ops[g].random)
            && ops[n].now <= Deadline(ops[g])
            && forall m :: g < m < n ==> !Succeeds(ops, m)
  {
    ActiveSlotIsGenerated(ops, n);
    GenerationMakes(ops, Generation(ops, n).value);
  }

  /** Every random draw of the run is a new value. */
  ghost predicate FreshDraws(ops: seq<Op>) {
    forall i, j :: 0 <= i < j < |ops| && Generates(ops, i) && Generates(ops, j) ==> ops[i].random != ops[j].random
  }

  /** One time: two successes come from different generations, so with fresh draws the same text
      is never accepted twice. */
  lemma OneTime(ops: seq<Op>, i: nat, j: nat)
    requires i < j < |ops| && Succeeds(ops, i) && Succeeds(ops, j)
    ensures Generation(ops, i).Some? && Generation(ops, j).Some?
    ensures Generation(ops, i).value < i < Generation(ops, j).value
    ensures FreshDraws(ops) ==> ops[i].got != ops[j].got
  {
    SuccessNeedsGeneration(ops, i);
    SuccessNeedsGeneration(ops, j);
    var g, h := Generation(ops, i).value, Generation(ops, j).value;
    assert i != h;
    assert g < h && Generates(ops, g) && Generates(ops, h);
  }

  /** A refresh while a token is live changes nothing; it returns the same token and expiry. */
  lemma RefreshKeepsLive(ops: seq<Op>, n: nat)
    requires n < |ops| && ops[n].Refresh? && Live(After(ops, n), ops[n].firstNow)
    ensures After(ops, n + 1) == After(ops, n)
    ensures Generation(ops, n + 1) == Generation(ops, n)
    ensures Generation(ops, n).Some?
    ensures After(ops, n).expires == Deadline(ops[Generation(ops, n).value])
  {
    ActiveSlotIsGenerated(ops, n);
    GenerationMakes(ops, Generation(ops, n).value);
  }

  function FirstReading(op: Op): Instant {
    if op.Refresh? then op.firstNow else op.now
  }

  function LastReading(op: Op): Instant {
    if op.Refresh? then op.secondNow else op.now
  }

  /** The clock is read inside the mutex and never runs backwards; a draw is not empty. */
  ghost predicate Orderly(ops: seq<Op>) {
    && (forall i :: 0 <= i < |ops| ==> FirstReading(ops[i]) <= LastReading(ops[i]))
    && (forall i, j :: 0 <= i < j < |ops| ==> LastReading(ops[i]) <= FirstReading(ops[j]))
    && (forall i :: 0 <= i < |ops| && ops[i].Refresh? ==> ops[i].random != [])
  }

  /** Wrong attempts and refreshes of a live token leave it alone. */
  lemma {:induction false} TokenStays(ops: seq<Op>, k: nat, n: nat)
    requires k <= n <= |ops| && After(ops, k).active && After(ops, k).token != []
    requires forall m :: k <= m < n ==>
               !Generates(ops, m) && !Succeeds(ops, m) && FirstReading(ops[m]) <= After(ops, k).expires
    ensures After(ops, n) == After(ops, k)
  {
    if k < n {
      TokenStays(ops, k, n - 1);
    }
  }

  ghost predicate NoneSucceeds(ops: seq<Op>, from: nat, to: nat)
    requires to <= |ops|
  {
    forall m :: from < m < to ==> !Succeeds(ops, m)
  }

  /** The token of a generation is still there at its expiry if nothing replaced or used it. */
  lemma GeneratedStays(ops: seq<Op>, g: nat, n: nat)
    requires g < n < |ops| && Orderly(ops) && Generates(ops, g)
    requires FirstReading(ops[n]) <= After(ops, g + 1).expires
    requires NoneSucceeds(ops, g, n) && forall m :: g < m < n ==> !Generates(ops, m)
    ensures After(ops, n) == After(ops, g + 1)
  {
    GenerationMakes(ops, g);
    forall m | g + 1 <= m < n
      ensures FirstReading(ops[m]) <= After(ops, g + 1).expires
    {
      assert LastReading(ops[m]) <= FirstReading(ops[n]);
    }
    TokenStays(ops, g + 1, n);
  }

  /** Consume `n` presents the draw of generation `g` by its expiry, and none succeeded since. */
  ghost predicate PresentsDraw(ops: seq<Op>, g: nat, n: nat)
    requires g < n < |ops| && ops[n].Consume? && Generates(ops, g)
  {
    ops[n].got == Some(ops[g].random) && ops[n].now <= Deadline(ops[g]) && NoneSucceeds(ops, g, n)
  }

  lemma LastTokenAccepted(ops: seq<Op>, g: nat, n: nat)
    requires g < n < |ops| && Orderly(ops) && Generates(ops, g) && ops[n].Consume?
    requires PresentsDraw(ops, g, n) && forall m :: g < m < n ==> !Generates(ops, m)
    ensures Succeeds(ops, n)
  {
    GenerationMakes(ops, g);
    GeneratedStays(ops, g, n);
  }

  /** Exactly when a consume succeeds: it presents the draw of the last generation by that
      generation's expiry, and none succeeded since. Whatever else happened does not matter. */
  lemma SucceedsIff(ops: seq<Op>, n: nat)
    requires n < |ops| && Orderly(ops) && ops[n].Consume?
    ensures Succeeds(ops, n) <==>
            && Generation(ops, n).Some?
            && PresentsDraw(ops, Generation(ops, n).value, n)
  {
    if Succeeds(ops, n) {
      SuccessNeedsGeneration(ops, n);
    } else if Generation(ops, n).Some? && PresentsDraw(ops, Generation(ops, n).value, n) {
      LastTokenAccepted(ops, Generation(ops, n).value, n);
    }
  }

  /** While a token is unexpired, no refresh replaces it unless it was used. */
  lemma {:induction false} NotReplaced(ops: seq<Op>, k: nat, n: nat)
    requires k <= n <= |ops| && After(ops, k).active && After(ops, k).token != []
    requires forall m :: k <= m < n ==> !Succeeds(ops, m) && FirstReading(ops[m]) < After(ops, k).expires
    ensures forall m :: k <= m < n ==> !Generates(ops, m)
    ensures After(ops, n) == After(ops, k)
  {
    if k < n {
      NotReplaced(ops, k, n - 1);
    }
  }

  /** The text handed out by call `m` is accepted when it comes back before the deadline of the
      generation it belongs to, however many wrong attempts and refreshes lie in between, as long as
      nothing used it up. */
  lemma HandedOutIsAccepted(form: TextForm, ops: seq<Op>, m: nat, n: nat)
    requires form.Lawful() && Orderly(ops) && m < n < |ops| && ops[m].Refresh? && ops[n].Consume?
    requires ops[n].got == form.decode(form.encode(After(ops, m + 1).token))
    requires forall k :: m < k < n ==> !Succeeds(ops, k)
    ensures Generation(ops, m + 1).Some?
    ensures var g := Generation(ops, m + 1).value;
            ops[n].now < Deadline(ops[g]) ==>
              Succeeds(ops, n) && Consumed(After(ops, n), ops[n].got, ops[n].now).1 == Ok(ops[g].random)
  {
    var token := After(ops, m + 1).token;
    ActiveSlotIsGenerated(ops, m + 1);
    var g := Generation(ops, m + 1).value;
    GenerationMakes(ops, g);
    if ops[n].now < Deadline(ops[g]) {
      forall k | m + 1 <= k < n
        ensures FirstReading(ops[k]) < After(ops, m + 1).expires
      {
        assert LastReading(ops[k]) <= FirstReading(ops[n]);
      }
      NotReplaced(ops, m + 1, n);
      assert form.decode(form.encode(token)) == Some(token);
    }
  }

  /** The two tests differ at the very instant of expiry: a refresh then replaces a token that a
      consume would still have accepted. */
  lemma ReplacedAtExpiry()
    ensures var ops := [Refresh(5, 0, 0, [1]), Refresh(5, 5, 5, [2]), Consume(Some([1]), 5)];
            && Orderly(ops) && After(ops, 1).expires == 5 && Generates(ops, 1) && !Succeeds(ops, 2)
            && Succeeds([ops[0], ops[2]], 1)
  {
    var ops := [Refresh(5, 0, 0, [1]), Refresh(5, 5, 5, [2]), Consume(Some([1]), 5)];
    assert After(ops, 1) == Slot(true, [1], 5) && After(ops, 2) == Slot(true, [2], 10);
    assert After([ops[0], ops[2]], 1) == Slot(true, [1], 5);
  }

  // ---- Every answer of a consume ------------------------------------------------------------------

  /** Since generation `g`, some consume came too late or presented the token: the token is gone. */
  ghost predicate Gone(ops: seq<Op>, g: nat, n: nat)
    requires g < n <= |ops| && ops[g].Refresh?
  {
    exists m :: g < m < n && ops[m].Consume?
                && (ops[m].now > Deadline(ops[g]) || ops[m].got == Some(ops[g].random))
  }

  lemma {:induction false} SinceGeneration(ops: seq<Op>, g: nat, n: nat)
    requires g < n <= |ops| && Generates(ops, g) && ops[g].random != []
    requires forall m :: g < m < n ==> !Generates(ops, m)
    ensures if Gone(ops, g, n) then !After(ops, n).active || After(ops, n).token == []
            else After(ops, n) == Slot(true, ops[g].random, Deadline(ops[g]))
  {
    GenerationMakes(ops, g);
    if n > g + 1 {
      SinceGeneration(ops, g, n - 1);
      assert !Generates(ops, n - 1);
      if Gone(ops, g, n - 1) {
        assert Gone(ops, g, n);
      } else if ops[n - 1].Consume? && (ops[n - 1].now > Deadline(ops[g]) || ops[n - 1].got == Some(ops[g].random)) {
        assert Gone(ops, g, n);
      } else {
        assert !Gone(ops, g, n);
      }
    }
  }

  /** A refresh makes a new token exactly if there is none that is still there and unexpired. */
  lemma GeneratesIff(ops: seq<Op>, n: nat)
    requires n < |ops| && ops[n].Refresh?
    requires forall i :: 0 <= i < |ops| && ops[i].Refresh? ==> ops[i].random != []
    ensures var g := Generation(ops, n);
            Generates(ops, n) <==> g.None? || Gone(ops, g.value, n) || ops[n].firstNow >= Deadline(ops[g.value])
  {
    if Generation(ops, n).Some? {
      SinceGeneration(ops, Generation(ops, n).value, n);
    } else {
      ActiveSlotIsGenerated(ops, n);
    }
  }

  /** What a consume answers, whatever came before and whatever the clock did: not active without a
      token that is still there, else expired after the deadline, else by what was presented. */
  lemma ConsumeDecided(ops: seq<Op>, n: nat)
    requires n < |ops| && ops[n].Consume?
    requires forall i :: 0 <= i < |ops| && ops[i].Refresh? ==> ops[i].random != []
    ensures var r, g := Consumed(After(ops, n), ops[n].got, ops[n].now).1, Generation(ops, n);
            r == if g.None? || Gone(ops, g.value, n) then Err(NotActive)
                 else if ops[n].now > Deadline(ops[g.value]) then Err(Expired)
                 else if ops[n].got.None? then Err(BadEncoding)
                 else if ops[n].got != Some(ops[g.value].random) then Err(Unauthorized)
                 else Ok(ops[g.value].random)
  {
    if Generation(ops, n).Some? {
      SinceGeneration(ops, Generation(ops, n).value, n);
    } else {
      ActiveSlotIsGenerated(ops, n);
    }
  }
}
