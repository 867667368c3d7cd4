/** Byte strings, the fixed-width integers they carry, and big-endian order. */
module Bytes {

  type byte = x: int | 0 <= x < 256
  type uint16 = x: int | 0 <= x < 0x1_0000
  type uint32 = x: int | 0 <= x < 0x1_0000_0000

  const TWO_32: int := 0x1_0000_0000

  /** Unsigned 32-bit addition, which wraps around. */
  function Add32(a: uint32, b: uint32): (r: uint32)
    ensures r <= a + b
    ensures a + b < TWO_32 ==> r == a + b
  {
    (a + b) % TWO_32
  }

  lemma SmallModulo(x: nat, m: nat)
    requires x < m
    ensures x % m == x
  {
  }

  function Put16(v: uint16): (s: seq<byte>)
    ensures |s| == 2 && Get16(s) == v
  {
    [v / 256, v % 256]
  }

  function Get16(s: seq<byte>): uint16
    requires |s| == 2
  {
    s[0] as int * 256 + s[1] as int
  }

  function Put32(v: uint32): (s: seq<byte>)
    ensures |s| == 4 && Get32(s) == v
  {
    var high, low := Put16(v / 0x1_0000), Put16(v % 0x1_0000);
    assert (high + low)[..2] == high && (high + low)[2..] == low;
    high + low
  }

  function Get32(s: seq<byte>): uint32
    requires |s| == 4
  {
    Get16(s[..2]) as int * 0x1_0000 + Get16(s[2..]) as int
  }

  lemma Put16OfGet16(s: seq<byte>)
    requires |s| == 2
    ensures Put16(Get16(s)) == s
  {
    assert Put16(Get16(s))[0] == s[0] && Put16(Get16(s))[1] == s[1];
  }

  lemma Put32OfGet32(s: seq<byte>)
    requires |s| == 4
    ensures Put32(Get32(s)) == s
  {
    Put16OfGet16(s[..2]);
    Put16OfGet16(s[2..]);
    assert s == s[..2] + s[2..];
  }

  /** Two to the power n. */
  function Power(n: nat): (r: nat)
    ensures r >= 1
  {
    if n == 0 then 1 else 2 * Power(n - 1)
  }

  lemma Power32()
    ensures Power(31) == 0x8000_0000 && Power(32) == TWO_32
  {
    assert Power(8) == 256;
    assert Power(16) == 0x1_0000;
    assert Power(24) == 0x100_0000;
  }

  lemma QuotientIs(x: nat, p: nat, q: nat, r: nat)
    requires x == q * p + r && r < p
    ensures x / p == q
  {
    LeadingByte(x / p, x % p, q, r, p);
  }

  /** 256 to the power n. */
  function Pow256(n: nat): (p: nat)
    ensures p > 0
  {
    if n == 0 then 1 else 256 * Pow256(n - 1)
  }

  /** The number a byte string denotes, most significant byte first. */
  function BigEndian(s: seq<byte>): (v: nat)
    ensures v < Pow256(|s|)
  {
    if s == [] then 0
    else
      LeadingByteBound(s[0], BigEndian(s[1..]), Pow256(|s| - 1));
      s[0] as int * Pow256(|s| - 1) + BigEndian(s[1..])
  }

  lemma LeadingByteBound(x: byte, u: nat, p: nat)
    requires u < p
    ensures 0 <= x * p + u < 256 * p
  {
    assert x * p <= 255 * p;
  }

  /** Byte-wise comparison from the left: the sign of the first difference. */
  function LexCompare(a: seq<byte>, b: seq<byte>): int
    requires |a| == |b|
  {
    if a == [] then 0
    else if a[0] < b[0] then -1
    else if a[0] > b[0] then 1
    else LexCompare(a[1..], b[1..])
  }

  /** Comparing byte by byte compares the big-endian numbers. */
  lemma {:induction false} LexIsNumeric(a: seq<byte>, b: seq<byte>)
    requires |a| == |b|
    ensures LexCompare(a, b) < 0 <==> BigEndian(a) < BigEndian(b)
    ensures LexCompare(a, b) == 0 <==> a == b
    ensures a == b <==> BigEndian(a) == BigEndian(b)
  {
    if a != [] {
      LexIsNumeric(a[1..], b[1..]);
      assert a == [a[0]] + a[1..] && b == [b[0]] + b[1..];
      LeadingByte(a[0], BigEndian(a[1..]), b[0], BigEndian(b[1..]), Pow256(|a| - 1));
    }
  }

  lemma LeadingByte(x: int, u: nat, y: int, v: nat, p: nat)
    requires u < p && v < p
    ensures x < y ==> x * p + u < y * p + v
    ensures x > y ==> x * p + u > y * p + v
  {
    if x < y {
      assert (x + 1) * p <= y * p;
    } else if x > y {
      assert (y + 1) * p <= x * p;
    }
  }

  lemma {:induction false} LexOfConcat(a: seq<byte>, b: seq<byte>, c: seq<byte>, d: seq<byte>)
    requires |a| == |b| && |c| == |d|
    ensures LexCompare(a + c, b + d)
         == if LexCompare(a, b) != 0 then LexCompare(a, b) else LexCompare(c, d)
  {
    if a == [] {
      assert a + c == c && b + d == d;
    } else {
      LexOfConcat(a[1..], b[1..], c, d);
      assert (a + c)[1..] == a[1..] + c && (b + d)[1..] == b[1..] + d;
    }
  }
}
