/**
 * Fixed-width unsigned integers and their little-endian byte representation,
 * as Rust's `to_le_bytes` / `from_le_bytes` define it for u16, u32 and u64.
 */
module Bytes {
  type byte = b: int | 0 <= b < 0x100
  type u16 = x: int | 0 <= x < 0x1_0000
  type u32 = x: int | 0 <= x < 0x1_0000_0000
  type u64 = x: int | 0 <= x < 0x1_0000_0000_0000_0000
  type u256 = x: int | 0 <= x < 0x1_0000_0000_0000_0000_0000_0000_0000_0000_0000_0000_0000_0000_0000_0000_0000_0000

  /** 256 to the power n: the number of values n bytes can hold. */
  function Pow256(n: nat): (p: nat)
    ensures p >= 1
  {
    if n == 0 then 1 else 256 * Pow256(n - 1)
  }

  lemma Pow256Widths()
    ensures Pow256(2) == 0x1_0000
    ensures Pow256(4) == 0x1_0000_0000
    ensures Pow256(8) == 0x1_0000_0000_0000_0000
  {
  }

  /** The low n bytes of x, least significant byte first. */
  function LeBytes(x: nat, n: nat): (bs: seq<byte>)
    ensures |bs| == n
  {
    if n == 0 then [] else [x % 256] + LeBytes(x / 256, n - 1)
  }

  /** The number whose little-endian bytes are bs: the sum of bs[i] * 256^i. */
  function LeValue(bs: seq<byte>): (v: nat)
    ensures v < Pow256(|bs|)
  {
    if bs == [] then 0
    else
      var rest := LeValue(bs[1..]);
      assert 256 * rest <= 256 * (Pow256(|bs| - 1) - 1);
      bs[0] + 256 * rest
  }

  /** Euclidean division is determined by its quotient and remainder. */
  lemma DivModUnique(x: int, d: int, q: int, r: int)
    requires d > 0 && 0 <= r < d && x == d * q + r
    ensures x / d == q && x % d == r
  {
    var q', r' := x / d, x % d;
    assert d * (q' - q) == r - r';
    MulSign(d, q' - q);
  }

  lemma MulSign(d: int, k: int)
    requires d > 0
    ensures k >= 1 ==> d * k >= d
    ensures k <= -1 ==> d * k <= -d
  {
    if k >= 1 {
      assert d * k == d * (k - 1) + d;
    } else if k <= -1 {
      assert d * k == d * (k + 1) - d;
    }
  }

  lemma ModSplit(x: nat, m: nat)
    requires m >= 1
    ensures x % (256 * m) == x % 256 + 256 * ((x / 256) % m)
  {
    var q, r := x / 256, x % 256;
    var a, b := q / m, q % m;
    assert q == m * a + b;
    assert x == 256 * q + r;
    assert x == (256 * m) * a + (256 * b + r);
    assert 256 * b + r < 256 * m by {
      assert 256 * b <= 256 * (m - 1);
    }
    DivModUnique(x, 256 * m, a, 256 * b + r);
  }

  /** Dividing by a and then by b is dividing by a * b. */
  lemma DivDiv(x: nat, a: nat, b: nat)
    requires a >= 1 && b >= 1
    ensures x / a / b == x / (a * b)
  {
    var q1, r1 := x / a, x % a;
    var q2, r2 := q1 / b, q1 % b;
    MulDistrib(a, b, q2, r2);
    MulMono(a, r2, b - 1);
    assert a * (b - 1) == a * b - a;
    DivModUnique(x, a * b, q2, a * r2 + r1);
  }

  lemma MulDistrib(a: int, b: int, q: int, r: int)
    ensures a * (b * q + r) == (a * b) * q + a * r
  {
  }

  lemma MulMono(a: nat, u: nat, v: nat)
    requires u <= v
    ensures a * u <= a * v
  {
  }

  /** Byte i of the little-endian representation is digit i of x in base 256. */
  lemma {:induction false} LeBytesAt(x: nat, n: nat, i: nat)
    requires i < n
    ensures LeBytes(x, n)[i] == (x / Pow256(i)) % 256
  {
    if i > 0 {
      LeBytesAt(x / 256, n - 1, i - 1);
      DivDiv(x, 256, Pow256(i - 1));
    }
  }

  /** Reading back the low n bytes of x gives x modulo 256^n. */
  lemma {:induction false} LeValueOfLeBytes(x: nat, n: nat)
    ensures LeValue(LeBytes(x, n)) == x % Pow256(n)
  {
    if n > 0 {
      LeValueOfLeBytes(x / 256, n - 1);
      ModSplit(x, Pow256(n - 1));
    }
  }

  /** Every byte sequence is the little-endian representation of its value. */
  lemma {:induction false} LeBytesOfLeValue(bs: seq<byte>)
    ensures LeBytes(LeValue(bs), |bs|) == bs
  {
    if bs != [] {
      DivModUnique(LeValue(bs), 256, LeValue(bs[1..]), bs[0]);
      LeBytesOfLeValue(bs[1..]);
    }
  }

  /** The value of a concatenation: the second part's bytes weigh 256^|a| more. */
  lemma {:induction false} LeValueAppend(a: seq<byte>, b: seq<byte>)
    ensures LeValue(a + b) == LeValue(a) + Pow256(|a|) * LeValue(b)
  {
    if a != [] {
      assert (a + b)[1..] == a[1..] + b;
      LeValueAppend(a[1..], b);
      var p, va, vb := Pow256(|a| - 1), LeValue(a[1..]), LeValue(b);
      calc {
        LeValue(a + b);
        a[0] + 256 * LeValue(a[1..] + b);
        a[0] + 256 * (va + p * vb);
        { Distribute(va, p, vb); }
        (a[0] + 256 * va) + (256 * p) * vb;
        LeValue(a) + Pow256(|a|) * LeValue(b);
      }
    } else {
      assert a + b == b;
    }
  }

  lemma Distribute(va: int, p: int, vb: int)
    ensures 256 * (va + p * vb) == 256 * va + (256 * p) * vb
  {
  }

  /** u16::from_le_bytes([lo, hi]). */
  function U16FromLe(lo: byte, hi: byte): (v: u16)
    ensures v == lo + 256 * hi
  {
    assert [lo, hi][1..] == [hi] && [hi][1..] == [];
    assert LeValue([hi]) == hi;
    LeValue([lo, hi])
  }

  /** u32::from_le_bytes of a four-byte group. */
  function U32FromLe(group: seq<byte>): (v: u32)
    requires |group| == 4
    ensures LeBytes(v, 4) == group
  {
    Pow256Widths();
    LeBytesOfLeValue(group);
    LeValue(group)
  }

  /** A 32-bit word read back from its four little-endian bytes. */
  lemma U32RoundTrip(w: u32)
    ensures U32FromLe(LeBytes(w, 4)) == w
  {
    Pow256Widths();
    LeValueOfLeBytes(w, 4);
  }
}
