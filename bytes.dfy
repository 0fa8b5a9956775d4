/** Bytes, fixed-width unsigned integers and their little-endian encodings. */
module Bytes {

  type byte = x: int | 0 <= x < 256
  type u32 = x: int | 0 <= x < 0x1_0000_0000
  type u64 = x: int | 0 <= x < 0x1_0000_0000_0000_0000

  const TWO_32: int := 0x1_0000_0000
  const TWO_63: int := 0x8000_0000_0000_0000
  const TWO_64: int := 0x1_0000_0000_0000_0000

  function Pow256(n: nat): (r: nat)
    ensures r > 0
  {
    if n == 0 then 1 else 256 * Pow256(n - 1)
  }

  lemma Pow256Widths()
    ensures Pow256(4) == TWO_32
    ensures Pow256(8) == TWO_64
  {
    assert Pow256(4) == 256 * 256 * 256 * 256;
    assert Pow256(8) == Pow256(4) * Pow256(4) by { Pow256Add(4, 4); }
  }

  lemma {:induction false} Pow256Add(m: nat, n: nat)
    ensures Pow256(m + n) == Pow256(m) * Pow256(n)
  {
    if m > 0 {
      Pow256Add(m - 1, n);
    }
  }

  /** The unsigned value of a little-endian byte string. */
  function FromLE(b: seq<byte>): (r: nat)
    ensures r < Pow256(|b|)
  {
    if b == [] then 0 else b[0] + 256 * FromLE(b[1..])
  }

  /** The n-byte little-endian encoding of x (x taken modulo 256^n). */
  function ToLE(x: nat, n: nat): (r: seq<byte>)
    ensures |r| == n
  {
    if n == 0 then [] else [x % 256] + ToLE(x / 256, n - 1)
  }

  lemma {:induction false} FromToLE(x: nat, n: nat)
    requires x < Pow256(n)
    ensures FromLE(ToLE(x, n)) == x
  {
    if n > 0 {
      FromToLE(x / 256, n - 1);
      assert ToLE(x, n)[1..] == ToLE(x / 256, n - 1);
    }
  }

  lemma {:induction false} ToFromLE(b: seq<byte>)
    ensures ToLE(FromLE(b), |b|) == b
  {
    if b != [] {
      ToFromLE(b[1..]);
      var x := FromLE(b);
      assert x % 256 == b[0] && x / 256 == FromLE(b[1..]);
    }
  }

  lemma FromLE4(b: seq<byte>)
    requires |b| == 4
    ensures FromLE(b) == b[0] as int + 256 * (b[1] as int) + 65536 * (b[2] as int) + 16777216 * (b[3] as int)
  {
    assert b[3..][1..] == [];
    assert FromLE(b[3..]) == b[3] as int;
    assert b[2..][1..] == b[3..];
    assert FromLE(b[2..]) == b[2] as int + 256 * (b[3] as int);
    assert b[1..][1..] == b[2..];
    assert FromLE(b[1..]) == b[1] as int + 256 * (b[2] as int) + 65536 * (b[3] as int);
  }

  /** uint32_t read from 4 bytes of a little-endian file. */
  function U32(b: seq<byte>): (r: u32)
    requires |b| == 4
    ensures r == FromLE(b)
  {
    Pow256Widths();
    FromLE(b)
  }

  /** uint64_t read from 8 bytes of a little-endian file. */
  function U64(b: seq<byte>): (r: u64)
    requires |b| == 8
    ensures r == FromLE(b)
  {
    Pow256Widths();
    FromLE(b)
  }

  /** int32_t read from 4 bytes: two's complement of the unsigned value. */
  function I32(b: seq<byte>): (r: int)
    requires |b| == 4
    ensures -0x8000_0000 <= r < 0x8000_0000
    ensures r >= 0 <==> b[3] < 128
    ensures r >= 0 ==> r == FromLE(b)
    ensures r < 0 ==> r == FromLE(b) - TWO_32
  {
    var u := U32(b);
    FromLE4(b);
    if u < 0x8000_0000 then u else u - TWO_32
  }

  /** Conversion of a uint64_t to std::streamoff (a signed 64-bit integer). */
  function ToStreamOff(x: u64): (r: int)
    ensures r >= 0 <==> x < TWO_63
    ensures r >= 0 ==> r == x
    ensures r < 0 ==> r == x - TWO_64
  {
    if x < TWO_63 then x else x - TWO_64
  }

  /** Unsigned 64-bit addition and multiplication wrap around. */
  function Wrap64(x: int): (r: u64)
    ensures 0 <= x < TWO_64 ==> r == x
    ensures TWO_64 <= x < 2 * TWO_64 ==> r == x - TWO_64
    ensures -TWO_64 <= x < 0 ==> r == x + TWO_64
  {
    if TWO_64 <= x < 2 * TWO_64 then DivUnique(x, TWO_64, 1, x - TWO_64); x % TWO_64
    else if -TWO_64 <= x < 0 then DivUnique(x, TWO_64, -1, x + TWO_64); x % TWO_64
    else x % TWO_64
  }

  /** Euclidean division is unique: x == q * d + r with 0 <= r < d fixes
      the quotient and the remainder. */
  lemma DivUnique(x: int, d: int, q: int, r: int)
    requires d > 0 && 0 <= r < d && x == q * d + r
    ensures x % d == r && x / d == q
  {
    var q', r' := x / d, x % d;
    assert (q - q') * d == r' - r;
    MulSign(q - q', d);
  }

  /** A product with a positive factor has the other factor's sign, at least
      that factor's size. */
  lemma MulSign(a: int, d: int)
    requires d > 0
    ensures a >= 1 ==> a * d >= d
    ensures a <= -1 ==> a * d <= -d
  {
    if a >= 1 {
      assert a * d == (a - 1) * d + d;
    } else if a <= -1 {
      assert a * d == (a + 1) * d - d;
    }
  }
}
