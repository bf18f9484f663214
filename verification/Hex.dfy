/** Base16 text (section 8 of RFC 4648) as the daemon writes and reads it: it
    encodes in lower case and accepts either case. */
module Hex {
  import opened Basics

  function Digit(n: int): (c: char)
    requires 0 <= n < 16
  {
    if n < 10 then '0' + n as char else 'a' + (n - 10) as char
  }

  function DigitValue(c: char): (v: Option<int>)
    ensures v.Some? ==> 0 <= v.value < 16
  {
    if '0' <= c <= '9' then Some((c - '0') as int)
    else if 'a' <= c <= 'f' then Some((c - 'a') as int + 10)
    else if 'A' <= c <= 'F' then Some((c - 'A') as int + 10)
    else None
  }

  function Encode(b: bytes): (s: string) {
    if b == [] then "" else [Digit(b[0] / 16), Digit(b[0] % 16)] + Encode(b[1..])
  }

  function Decode(s: string): (r: Option<bytes>) {
    if s == "" then Some([])
    else if |s| == 1 then None
    else
      match (DigitValue(s[0]), DigitValue(s[1]), Decode(s[2..]))
      case (Some(hi), Some(lo), Some(rest)) => Some([hi * 16 + lo] + rest)
      case _ => None
  }

  lemma {:induction false} DecodeEncode(b: bytes)
    ensures Decode(Encode(b)) == Some(b)
  {
    if b != [] {
      DecodeEncode(b[1..]);
      assert Encode(b)[2..] == Encode(b[1..]);
      assert b == [b[0]] + b[1..];
    }
  }

  /** The digits of either case, at the place of their value. */
  lemma DigitsMeans(c: char, v: int)
    requires 0 <= v < 16
    ensures Digit(v) == "0123456789abcdef"[v]
    ensures DigitValue(c) == Some(v) <==> c == "0123456789abcdef"[v] || c == "0123456789ABCDEF"[v]
  {
  }

  /** Two digits a byte, the high one first. */
  lemma {:induction false} EncodedAt(b: bytes, k: nat)
    requires k < |b|
    ensures |Encode(b)| == 2 * |b|
    ensures Encode(b)[2 * k] == "0123456789abcdef"[b[k] / 16]
    ensures Encode(b)[2 * k + 1] == "0123456789abcdef"[b[k] % 16]
  {
    if k > 0 {
      EncodedAt(b[1..], k - 1);
      assert Encode(b)[2..] == Encode(b[1..]);
    } else if |b| > 1 {
      EncodedAt(b[1..], 0);
    }
  }

  predicate IsHexDigit(c: char) {
    '0' <= c <= '9' || 'a' <= c <= 'f' || 'A' <= c <= 'F'
  }

  /** What is accepted: an even number of digits and nothing else, two for each byte. */
  lemma {:induction false} DecodeAccepts(s: string)
    ensures Decode(s).Some? <==> |s| % 2 == 0 && forall k :: 0 <= k < |s| ==> IsHexDigit(s[k])
    ensures Decode(s).Some? ==> |s| == 2 * |Decode(s).value|
  {
    if |s| >= 2 {
      DecodeAccepts(s[2..]);
      assert (forall k :: 0 <= k < |s| ==> IsHexDigit(s[k])) <==>
             IsHexDigit(s[0]) && IsHexDigit(s[1]) && forall k :: 0 <= k < |s[2..]| ==> IsHexDigit(s[2..][k]) by {
        assert forall k :: 2 <= k < |s| ==> s[k] == s[2..][k - 2];
      }
    }
  }

  /** Two nonces share a cache key only when they are the same bytes. */
  lemma EncodeInjective(a: bytes, b: bytes)
    requires Encode(a) == Encode(b)
    ensures a == b
  {
    DecodeEncode(a);
    DecodeEncode(b);
  }
}
