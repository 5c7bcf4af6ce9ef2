/** Fixed-width integer arithmetic of the 8-bit AVR target.

    On this target `int` and `unsigned int` are 16 bits wide and `long` and
    `unsigned long` are 32 bits wide. Every width is a subset of Dafny's
    unbounded `int`; a wrap-around that the C code performs implicitly is
    written out here with one of the Wrap functions. */
module FixedWidth {

  type int8 = x: int | -0x80 <= x < 0x80
  type int16 = x: int | -0x8000 <= x < 0x8000
  type int32 = x: int | -0x8000_0000 <= x < 0x8000_0000
  type uint16 = x: int | 0 <= x < 0x1_0000
  type uint32 = x: int | 0 <= x < 0x1_0000_0000

  const U16_MODULUS: int := 0x1_0000
  const U32_MODULUS: int := 0x1_0000_0000

  /** Conversion of any integer to `unsigned int` (reduction modulo 2^16). */
  function WrapU16(x: int): (r: uint16)
    ensures (x - r) % U16_MODULUS == 0
    ensures 0 <= x < U16_MODULUS ==> r == x
  {
    x % U16_MODULUS
  }

  /** Conversion of any integer to `unsigned long` (reduction modulo 2^32). */
  function WrapU32(x: int): (r: uint32)
    ensures (x - r) % U32_MODULUS == 0
    ensures 0 <= x < U32_MODULUS ==> r == x
  {
    x % U32_MODULUS
  }

  /** Two's-complement reduction to a 16-bit `int`. C leaves signed overflow
      undefined; the model chooses two's-complement wrap for that case. */
  function WrapS16(x: int): (r: int16)
    ensures (x - r) % U16_MODULUS == 0
    ensures -0x8000 <= x < 0x8000 ==> r == x
  {
    (x + 0x8000) % U16_MODULUS - 0x8000
  }

  /** `a + b` on `unsigned long`: the carry out of bit 31 is dropped. */
  function AddU32(a: uint32, b: uint32): (r: uint32)
  {
    var s := a + b;
    if s < U32_MODULUS then s else s - U32_MODULUS
  }

  /** Dropping the carry is reduction modulo 2^32. */
  lemma AddU32IsWrap(a: uint32, b: uint32)
    ensures AddU32(a, b) == WrapU32(a + b)
  {
    if a + b < U32_MODULUS {
      DivModUnique(a + b, U32_MODULUS, 0, a + b);
    } else {
      DivModUnique(a + b, U32_MODULUS, 1, a + b - U32_MODULUS);
    }
  }

  function Pow2(k: nat): (r: nat)
    ensures r >= 1
  {
    if k == 0 then 1 else 2 * Pow2(k - 1)
  }

  /** The shift amounts that occur in the tone generator. */
  lemma Pow2Constants()
    ensures Pow2(2) == 4 && Pow2(6) == 64 && Pow2(10) == 1024 && Pow2(16) == U16_MODULUS
  {
  }

  /** `x >> k` on an unsigned operand. */
  function ShiftRight(x: nat, k: nat): (r: nat)
    ensures r <= x
    ensures r * Pow2(k) <= x < (r + 1) * Pow2(k)
  {
    DivisionBounds(x, Pow2(k));
    x / Pow2(k)
  }

  /** `x >> k` on a signed operand: avr-gcc shifts arithmetically, which
      rounds towards minus infinity. */
  function ArithShiftRight(x: int, k: nat): (r: int)
    ensures r * Pow2(k) <= x < (r + 1) * Pow2(k)
  {
    DivisionBounds(x, Pow2(k));
    x / Pow2(k)
  }

  /** Bitwise `a & b` on naturals, one bit per recursion step. */
  function BitAnd(a: nat, b: nat): (r: nat)
    decreases a
    ensures r <= a && r <= b
  {
    if a == 0 || b == 0 then 0
    else 2 * BitAnd(a / 2, b / 2) + (if a % 2 == 1 && b % 2 == 1 then 1 else 0)
  }

  predicate IsPowerOfTwo(n: int)
    decreases if n < 0 then 0 else n
  {
    n == 1 || (n > 1 && n % 2 == 0 && IsPowerOfTwo(n / 2))
  }

  /** Masking with `n - 1` keeps the low bits: for a power of two `n` it is
      the remainder modulo `n`. */
  lemma {:induction false} MaskIsRemainder(x: nat, n: int)
    requires IsPowerOfTwo(n)
    ensures BitAnd(x, n - 1) == x % n
    decreases n
  {
    if n > 1 && x != 0 {
      var h := n / 2;
      HalveEven(n);
      MaskIsRemainder(x / 2, h);
      MaskStep(x, n - 1, h - 1);
      RemainderOfDouble(x, h);
    }
  }

  lemma HalveEven(n: int)
    requires n > 1 && IsPowerOfTwo(n)
    ensures n == 2 * (n / 2) && n / 2 >= 1 && IsPowerOfTwo(n / 2)
    ensures (n - 1) / 2 == n / 2 - 1 && (n - 1) % 2 == 1
  {
  }

  /** One recursion step of `BitAnd` against an all-ones mask `2 * m + 1`. */
  lemma MaskStep(x: nat, mask: nat, m: nat)
    requires x != 0 && mask == 2 * m + 1
    ensures BitAnd(x, mask) == 2 * BitAnd(x / 2, m) + x % 2
  {
    assert mask / 2 == m && mask % 2 == 1;
  }

  lemma RemainderOfDouble(x: nat, h: nat)
    requires h >= 1
    ensures x % (2 * h) == 2 * ((x / 2) % h) + x % 2
  {
    var q, s := (x / 2) / h, (x / 2) % h;
    assert x / 2 == h * q + s;
    assert x == (2 * h) * q + (2 * s + x % 2);
    DivModUnique(x, 2 * h, q, 2 * s + x % 2);
  }

  /** A smaller power of two divides a larger one. */
  lemma {:induction false} PowerOfTwoDivides(a: int, b: int)
    requires IsPowerOfTwo(a) && IsPowerOfTwo(b) && a <= b
    ensures b % a == 0
    decreases b
  {
    if a == b {
      DivModUnique(b, a, 1, 0);
    } else if a > 1 {
      HalveEven(a);
      HalveEven(b);
      var ha, hb := a / 2, b / 2;
      PowerOfTwoDivides(ha, hb);
      var q := hb / ha;
      ExactQuotient(hb, ha);
      DoubleBoth(ha, q);
      DivModUnique(b, a, q, 0);
    }
  }

  lemma ExactQuotient(x: int, d: int)
    requires d >= 1 && x % d == 0
    ensures x == d * (x / d)
  {
  }

  lemma DoubleBoth(h: int, q: int)
    ensures 2 * (h * q) == (2 * h) * q
  {
  }

  /** Two successive shifts compose: `(x >> j) >> k == x >> (j + k)`. */
  lemma {:induction false} ShiftRightTwice(x: nat, j: nat, k: nat)
    ensures ShiftRight(ShiftRight(x, j), k) == ShiftRight(x, j + k)
  {
    PowerOfTwoProduct(j, k);
    DivideTwice(x, Pow2(j), Pow2(k));
  }

  lemma {:induction false} PowerOfTwoProduct(j: nat, k: nat)
    ensures Pow2(j) * Pow2(k) == Pow2(j + k)
  {
    if j > 0 {
      PowerOfTwoProduct(j - 1, k);
    }
  }

  lemma DivideTwice(x: nat, a: nat, b: nat)
    requires a >= 1 && b >= 1
    ensures x / a / b == x / (a * b)
  {
    var q := x / a;
    var q2, r2 := q / b, q % b;
    assert x == a * q + x % a;
    assert q == b * q2 + r2;
    assert a * q == (a * b) * q2 + a * r2;
    MulAtMost(a, r2, b - 1);
    assert a * (b - 1) == a * b - a;
    DivModUnique(x, a * b, q2, a * r2 + x % a);
  }

  lemma DivisionBounds(x: int, d: int)
    requires d >= 1
    ensures (x / d) * d <= x < (x / d + 1) * d
    ensures x >= 0 ==> 0 <= x / d <= x
  {
    var q, m := x / d, x % d;
    assert x == d * q + m;
    assert (q + 1) * d == q * d + d;
    if q < 0 {
      MulNegative(d, q);
    } else if q > 0 {
      MulAtLeast(q, d);
    }
  }

  lemma MulNegative(d: int, k: int)
    requires d >= 1 && k <= -1
    ensures d * k <= -d
  {
    MulAtLeast(d, -k);
    assert d * k == -(d * (-k));
  }

  lemma MulAtLeast(d: int, k: int)
    requires d >= 1 && k >= 1
    ensures d * k >= d
  {
  }

  lemma MulAtMost(d: nat, k: nat, m: nat)
    requires k <= m
    ensures d * k <= d * m
  {
  }

  /** Euclidean division is determined by its defining equation. */
  lemma DivModUnique(x: int, d: int, q: int, r: int)
    requires d >= 1 && 0 <= r < d && x == d * q + r
    ensures x / d == q && x % d == r
  {
    var q0, r0 := x / d, x % d;
    assert x == d * q0 + r0;
    assert d * (q - q0) == r0 - r by { assert d * (q - q0) == d * q - d * q0; }
    if q > q0 { MulAtLeast(d, q - q0); }
    if q < q0 { MulAtLeast(d, q0 - q); }
  }
}
