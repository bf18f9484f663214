/** The decimal request numbers of the log, written backwards into a 20-byte buffer. */
module RequestId {

  const U64 := 0x1_0000_0000_0000_0000

  predicate IsDigit(c: char) {
    '0' <= c <= '9'
  }

  /** A decimal numeral without leading zeros. */
  predicate Canonical(s: string) {
    && s != ""
    && (forall k :: 0 <= k < |s| ==> IsDigit(s[k]))
    && (|s| > 1 ==> s[0] != '0')
  }

  /** The number a digit string stands for. */
  function Value(s: string): int
    requires forall k :: 0 <= k < |s| ==> IsDigit(s[k])
  {
    if s == "" then 0 else 10 * Value(s[..|s| - 1]) + (s[|s| - 1] as int - '0' as int)
  }

  /** Nothing for zero, a canonical numeral otherwise. */
  ghost predicate Spells(s: string, v: nat) {
    if v == 0 then s == "" else Canonical(s) && s[0] != '0' && Value(s) == v
  }

  function Pow10(n: nat): (p: nat)
    ensures p >= 1
  {
    if n == 0 then 1 else 10 * Pow10(n - 1)
  }

  /** What is still to be written in front of `tail` to spell `v`. */
  ghost predicate Prefix(v: nat, w: nat, tail: string) {
    forall front: string :: Spells(front, w) ==> Spells(front + tail, v)
  }

  lemma OneDigit(v: nat, w: nat, tail: string)
    requires Prefix(v, w, tail) && w > 0
    ensures Prefix(v, w / 10, [('0' + (w % 10) as char)] + tail)
  {
    var d := '0' + (w % 10) as char;
    forall front: string | Spells(front, w / 10)
      ensures Spells(front + ([d] + tail), v)
    {
      assert (front + [d])[..|front|] == front;
      assert Spells(front + [d], w);
      assert front + ([d] + tail) == front + [d] + tail;
    }
  }

  lemma NothingInFront(v: nat, tail: string)
    requires Prefix(v, 0, tail)
    ensures Spells(tail, v)
  {
    assert Spells("", 0);
    assert "" + tail == tail;
  }

  lemma AllInFront(v: nat)
    ensures Prefix(v, v, "")
  {
    forall front: string | Spells(front, v)
      ensures Spells(front + "", v)
    {
      assert front + "" == front;
    }
  }

  /** The largest uint64 has twenty digits. */
  lemma TwentyDigits()
    ensures U64 <= Pow10(20)
  {
    assert Pow10(5) == 10_0000;
    assert Pow10(10) == 100000 * Pow10(5);
    assert Pow10(15) == 100000 * Pow10(10);
    assert Pow10(20) == 100000 * Pow10(15);
  }

  method Itoa64(v: nat) returns (s: string)
    requires v < U64
    ensures Canonical(s) && Value(s) == v
    ensures |s| <= 20
  {
    if v == 0 {
      return "0";
    }
    var buf := new char[20];
    var i := buf.Length;
    var w: nat := v;
    TwentyDigits();
    AllInFront(v);
    assert buf[20..] == "";
    while w > 0
      invariant 0 <= i <= 20 && w < Pow10(i)
      invariant Prefix(v, w, buf[i..])
    {
      assert w < 10 * Pow10(i - 1);
      ghost var tail := buf[i..];
      OneDigit(v, w, tail);
      i := i - 1;
      buf[i] := '0' + (w % 10) as char;
      assert buf[i..] == [buf[i]] + tail;
      w := w / 10;
    }
    s := buf[i..];
    NothingInFront(v, s);
  }

  lemma {:induction false} ValueAtLeast(s: string)
    requires Canonical(s) && s[0] != '0'
    ensures Value(s) >= Pow10(|s| - 1)
  {
    if |s| > 1 {
      ValueAtLeast(s[..|s| - 1]);
    }
  }

  /** Numbers have one canonical numeral, so different requests have different names in the log. */
  lemma {:induction false} NumeralUnique(s: string, t: string)
    requires Canonical(s) && Canonical(t) && Value(s) == Value(t)
    ensures s == t
  {
    var s', t' := s[..|s| - 1], t[..|t| - 1];
    assert s == s' + [s[|s| - 1]] && t == t' + [t[|t| - 1]];
    if |s| > 1 {
      ValueAtLeast(s);
      ValueAtLeast(s');
    }
    if |t| > 1 {
      ValueAtLeast(t);
      ValueAtLeast(t');
    }
    if |s| > 1 && |t| > 1 {
      NumeralUnique(s', t');
    }
  }
}
