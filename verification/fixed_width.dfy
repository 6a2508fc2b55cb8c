/** Machine integers of the C probe and the Go program, over Dafny's unbounded
    `int`: the ranges of the fixed-width types, two's-complement wrap-around
    and the conversions between signed and unsigned views of the same bits,
    and the division that truncates toward zero (C and Go `/`), as opposed to
    Dafny's Euclidean `/`. */
module FixedWidth {

  const TWO_31: int := 0x8000_0000
  const TWO_32: int := 0x1_0000_0000
  const TWO_63: int := 0x8000_0000_0000_0000
  const TWO_64: int := 0x1_0000_0000_0000_0000

  type byte = x: int | 0 <= x < 0x100
  type u32 = x: int | 0 <= x < 0x1_0000_0000
  type i32 = x: int | -0x8000_0000 <= x < 0x8000_0000
  type u64 = x: int | 0 <= x < 0x1_0000_0000_0000_0000
  type i64 = x: int | -0x8000_0000_0000_0000 <= x < 0x8000_0000_0000_0000

  /** The int32 a 32-bit register holds after an exact result `x`: the unique
      int32 congruent to `x` modulo 2^32. */
  function WrapI32(x: int): (r: i32)
    ensures (x - r) % TWO_32 == 0
    ensures -TWO_31 <= x < TWO_31 ==> r == x
  {
    (x + TWO_31) % TWO_32 - TWO_31
  }

  /** The int64 a 64-bit register holds after an exact result `x`. */
  function WrapI64(x: int): (r: i64)
    ensures (x - r) % TWO_64 == 0
    ensures -TWO_63 <= x < TWO_63 ==> r == x
  {
    (x + TWO_63) % TWO_64 - TWO_63
  }

  /** C's `(unsigned int)` applied to an `int`: same 32 bits, read unsigned. */
  function AsUnsigned32(x: i32): (r: u32)
    ensures (r - x) % TWO_32 == 0
    ensures 0 <= x ==> r == x
    ensures x < 0 ==> r >= TWO_31
  {
    if x < 0 then x + TWO_32 else x
  }

  /** Go's `int64(u)` for a `uint64` u: same 64 bits, read signed. */
  function AsSigned64(x: u64): (r: i64)
    ensures (x - r) % TWO_64 == 0
    ensures x < TWO_63 ==> r == x
  {
    WrapI64(x)
  }

  /** Go's `uint64(i)` for an `int64` i: same 64 bits, read unsigned. */
  function AsUnsigned64(x: i64): (r: u64)
    ensures (r - x) % TWO_64 == 0
  {
    if x < 0 then x + TWO_64 else x
  }

  /** Reading 64 bits signed loses nothing: the unsigned view comes back. */
  lemma SignedViewIsExact(x: u64)
    ensures AsUnsigned64(AsSigned64(x)) == x
  {
  }

  /** Adding to a wrapped value and wrapping again is the same as wrapping the
      exact sum once: 32-bit addition is addition modulo 2^32. */
  lemma WrapI32Add(x: int, y: int)
    ensures WrapI32(WrapI32(x) + y) == WrapI32(x + y)
  {
    var k := (x + TWO_31) / TWO_32;
    assert WrapI32(x) == x - k * TWO_32;
    WrapI32Shift(x + y, k);
  }

  lemma WrapI32Shift(z: int, k: int)
    ensures WrapI32(z - k * TWO_32) == WrapI32(z)
  {
  }

  /** Multiplying a wrapped value and wrapping again is the same as wrapping
      the exact product once: 64-bit multiplication is modulo 2^64. */
  lemma WrapI64Mul(x: int, y: int)
    ensures WrapI64(WrapI64(x) * y) == WrapI64(x * y)
  {
    var k := (x + TWO_63) / TWO_64;
    assert WrapI64(x) == x - k * TWO_64;
    var j := k * y;
    assert WrapI64(x) * y == x * y - j * TWO_64 by {
      assert (x - k * TWO_64) * y == x * y - (k * y) * TWO_64;
    }
    WrapI64Shift(x * y, j);
  }

  lemma WrapI64Shift(z: int, k: int)
    ensures WrapI64(z - k * TWO_64) == WrapI64(z)
  {
  }

  /** C and Go integer division by a positive divisor: the quotient is
      truncated toward zero, so `q * b` is the multiple of `b` nearest to `a`
      on the side of zero. */
  function Quot(a: int, b: int): (q: int)
    requires b > 0
    ensures 0 <= a ==> 0 <= q && q * b <= a < q * b + b
    ensures a < 0 ==> q <= 0 && q * b - b < a <= q * b
  {
    var n := if a >= 0 then a else -a;
    var m := n / b;
    EuclidBounds(n, b);
    if a >= 0 then m
    else
      assert (-m) * b == -(m * b);
      -m
  }

  lemma EuclidBounds(n: int, b: int)
    requires n >= 0 && b > 0
    ensures 0 <= n / b && (n / b) * b <= n < (n / b) * b + b
  {
    var m, r := n / b, n % b;
    assert m * b + r == n;
    assert 0 <= r < b;
  }
}
