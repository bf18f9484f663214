/** Fixed-width big-endian integers, as the frames carry them. */
module BigEndian {
  import opened Basics

  const TWO_16 := 0x1_0000
  const TWO_32 := 0x1_0000_0000
  const TWO_63 := 0x8000_0000_0000_0000
  const TWO_64 := 0x1_0000_0000_0000_0000

  function U16(n: int): (b: bytes)
    requires 0 <= n < TWO_16
    ensures |b| == 2
  {
    [n / 256, n % 256]
  }

  function U32(n: int): (b: bytes)
    requires 0 <= n < TWO_32
    ensures |b| == 4
  {
    U16(n / TWO_16) + U16(n % TWO_16)
  }

  function U64(n: int): (b: bytes)
    requires 0 <= n < TWO_64
    ensures |b| == 8
  {
    U32(n / TWO_32) + U32(n % TWO_32)
  }

  function Get16(b: bytes): (n: int)
    requires |b| == 2
    ensures 0 <= n < TWO_16
  {
    b[0] as int * 256 + b[1] as int
  }

  function Get32(b: bytes): (n: int)
    requires |b| == 4
    ensures 0 <= n < TWO_32
  {
    Get16(b[..2]) * TWO_16 + Get16(b[2..])
  }

  function Get64(b: bytes): (n: int)
    requires |b| == 8
    ensures 0 <= n < TWO_64
  {
    Get32(b[..4]) * TWO_32 + Get32(b[4..])
  }

  /** The conversion of a uint64 to an int64. */
  function Signed64(n: int): (i: int)
    requires 0 <= n < TWO_64
    ensures -TWO_63 <= i < TWO_63
  {
    if n < TWO_63 then n else n - TWO_64
  }

  lemma RoundTrip16(n: int)
    requires 0 <= n < TWO_16
    ensures Get16(U16(n)) == n
  {
  }

  lemma RoundTrip32(n: int)
    requires 0 <= n < TWO_32
    ensures Get32(U32(n)) == n
  {
    var b := U32(n);
    assert b[..2] == U16(n / TWO_16) && b[2..] == U16(n % TWO_16);
  }

  lemma RoundTrip64(n: int)
    requires 0 <= n < TWO_64
    ensures Get64(U64(n)) == n
  {
    var b := U64(n);
    assert b[..4] == U32(n / TWO_32) && b[4..] == U32(n % TWO_32);
    RoundTrip32(n / TWO_32);
    RoundTrip32(n % TWO_32);
  }

  lemma Canonical16(b: bytes)
    requires |b| == 2
    ensures U16(Get16(b)) == b
  {
  }

  lemma Canonical32(b: bytes)
    requires |b| == 4
    ensures U32(Get32(b)) == b
  {
    Canonical16(b[..2]);
    Canonical16(b[2..]);
    assert b == b[..2] + b[2..];
  }

  // ---- What the bytes stand for -----------------------------------------------------------------

  /** The number a byte string stands for, most significant byte first. */
  function Value(b: bytes): int {
    if b == [] then 0 else 256 * Value(b[..|b| - 1]) + b[|b| - 1]
  }

  lemma ValueAppended(a: bytes, x: byte)
    ensures Value(a + [x]) == 256 * Value(a) + x
  {
    assert (a + [x])[..|a|] == a;
  }

  lemma ValueOfHalves(a: bytes, b: bytes)
    requires |b| == 2
    ensures Value(a + b) == 65536 * Value(a) + Value(b)
  {
    ValueAppended(a, b[0]);
    ValueAppended(a + [b[0]], b[1]);
    assert a + b == a + [b[0]] + [b[1]];
    Get16IsValue(b);
  }

  lemma Get16IsValue(b: bytes)
    requires |b| == 2
    ensures Get16(b) == Value(b)
  {
    ValueAppended([], b[0]);
    ValueAppended([b[0]], b[1]);
    assert [] + [b[0]] == [b[0]] && b == [b[0]] + [b[1]];
  }

  lemma Get32IsValue(b: bytes)
    requires |b| == 4
    ensures Get32(b) == Value(b)
  {
    Get16IsValue(b[..2]);
    Get16IsValue(b[2..]);
    ValueOfHalves(b[..2], b[2..]);
    assert b == b[..2] + b[2..];
  }

  /** All widths are big-endian. */
  lemma Get64IsValue(b: bytes)
    requires |b| == 8
    ensures Get64(b) == Value(b)
  {
    var high, low := b[..4], b[4..];
    Get32IsValue(high);
    Get32IsValue(low);
    ValueOfHalves(low[..2], low[2..]);
    ValueOfHalves(high, low[..2]);
    ValueOfHalves(high + low[..2], low[2..]);
    Get16IsValue(low[..2]);
    Get16IsValue(low[2..]);
    assert low == low[..2] + low[2..] && b == high + low[..2] + low[2..];
  }

  /** The signed reading of eight bytes: the number in int64 range that differs by a multiple of 2^64. */
  lemma Signed64Means(n: int, i: int)
    requires 0 <= n < TWO_64
    ensures Signed64(n) == i <==>
            -0x8000_0000_0000_0000 <= i < 0x8000_0000_0000_0000 && (n == i || n == i + 0x1_0000_0000_0000_0000)
  {
  }
}
