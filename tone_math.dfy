/** The arithmetic of the drawbar tone generator as functions on values:
    table indexing, the two-table cross-fade, the 16-bit accumulation of the
    seven readings, the frequency-to-increment conversion, the pitch bend,
    and the drawbar gain computation. The class in module Drawbar applies
    these to its fields. */
module ToneMath {
  import opened FixedWidth

  /** Fractional bits of a phase accumulator. */
  const OSCIL_F_BITS: nat := 16

  /** Number of drawbars (oscillators an octave apart). */
  const HARMONICS: nat := 7

  // ---------------------------------------------------------------- lookup

  /** `(p >> OSCIL_F_BITS) & (NUM_TABLE_CELLS - 1)`: the integer part of the
      phase, wrapped onto the table. */
  function TableIndex(p: uint32, cells: int): (i: nat)
    requires IsPowerOfTwo(cells)
    ensures i < cells
    ensures i == (p / U16_MODULUS) % cells
  {
    Pow2Constants();
    MaskIsRemainder(ShiftRight(p, OSCIL_F_BITS), cells);
    BitAnd(ShiftRight(p, OSCIL_F_BITS), cells - 1)
  }

  /** The exact (unbounded) weighted sum of two table cells. */
  function Weighted(c1: int8, c2: int8, g1: int, g2: int): (r: int)
    ensures 0 <= g1 && 0 <= g2 ==> -128 * (g1 + g2) <= r <= 127 * (g1 + g2)
  {
    CellTimesGain(c1, g1);
    CellTimesGain(c2, g2);
    c1 * g1 + c2 * g2
  }

  lemma CellTimesGain(c: int8, g: int)
    ensures 0 <= g ==> -128 * g <= c * g <= 127 * g
  {
    if 0 <= g {
      assert (c + 128) * g >= 0;
      assert (127 - c) * g >= 0;
    }
  }

  /** A product of two bytes fits comfortably in 16 bits. */
  lemma ByteProduct(a: int8, b: int8)
    ensures -0x4000 <= a * b <= 0x4000
  {
    var x, y := a as int, b as int;
    if x >= 0 && y >= 0 {
      MulAtMost(x, y, 128);
      MulAtMost(128, x, 128);
    } else if x < 0 && y < 0 {
      MulAtMost(-x, -y, 128);
      MulAtMost(128, -x, 128);
      assert x * y == (-x) * (-y);
    } else if x < 0 {
      MulAtMost(-x, y, 128);
      MulAtMost(128, -x, 128);
      assert x * y == -((-x) * y);
    } else {
      MulAtMost(x, -y, 128);
      MulAtMost(128, x, 128);
      assert x * y == -(x * (-y));
    }
  }

  /** The body of `read_interpolate`: both cells promoted to 16-bit `int`,
      multiplied by their gains and added in 16-bit arithmetic. */
  function CrossFade(c1: int8, c2: int8, g1: int8, g2: int8): (r: int16)
    ensures 0 <= g1 && 0 <= g2 ==> r == Weighted(c1, c2, g1, g2)
  {
    WrapS16(c1 * g1 + c2 * g2)
  }

  // ---------------------------------------------------------- accumulation

  /** Exact sum of the first k elements of s. */
  function SumUpTo(s: seq<int>, k: nat): (total: int)
    requires k <= |s|
  {
    if k == 0 then 0 else SumUpTo(s, k - 1) + s[k - 1]
  }

  lemma SumOfSeven(s: seq<int>)
    requires |s| == 7
    ensures SumUpTo(s, 7) == s[0] + s[1] + s[2] + s[3] + s[4] + s[5] + s[6]
  {
    assert SumUpTo(s, 1) == s[0];
    assert SumUpTo(s, 2) == s[0] + s[1];
    assert SumUpTo(s, 3) == s[0] + s[1] + s[2];
    assert SumUpTo(s, 4) == s[0] + s[1] + s[2] + s[3];
    assert SumUpTo(s, 5) == s[0] + s[1] + s[2] + s[3] + s[4];
    assert SumUpTo(s, 6) == s[0] + s[1] + s[2] + s[3] + s[4] + s[5];
  }

  /** The first k readings added left to right in 16-bit `int`, as the
      expression in `peek` adds its seven terms. */
  function Accumulate16(s: seq<int>, k: nat): (r: int16)
    requires k <= |s|
    ensures (SumUpTo(s, k) - r) % U16_MODULUS == 0
  {
    if k == 0 then 0
    else
      var prev := Accumulate16(s, k - 1);
      var r := WrapS16(prev + s[k - 1]);
      CongruentSum(SumUpTo(s, k - 1), prev, s[k - 1], r);
      r
  }

  lemma CongruentSum(a: int, b: int, t: int, r: int)
    requires (a - b) % U16_MODULUS == 0 && (b + t - r) % U16_MODULUS == 0
    ensures (a + t - r) % U16_MODULUS == 0
  {
    var m := (a - b) / U16_MODULUS;
    var n := (b + t - r) / U16_MODULUS;
    assert a + t - r == U16_MODULUS * (m + n);
    DivModUnique(a + t - r, U16_MODULUS, m + n, 0);
  }

  /** When the exact total fits in 16 bits, the 16-bit accumulation is the
      exact total. */
  lemma AccumulateExact(s: seq<int>, k: nat)
    requires k <= |s|
    requires -0x8000 <= SumUpTo(s, k) < 0x8000
    ensures Accumulate16(s, k) == SumUpTo(s, k)
  {
    CongruentInRange(SumUpTo(s, k), Accumulate16(s, k));
  }

  /** Two 16-bit values congruent modulo 2^16 are equal. */
  lemma CongruentInRange(a: int, r: int)
    requires -0x8000 <= a < 0x8000 && -0x8000 <= r < 0x8000
    requires (a - r) % U16_MODULUS == 0
    ensures a == r
  {
    var q := (a - r) / U16_MODULUS;
    assert a - r == U16_MODULUS * q;
  }

  /** Readings bounded by non-negative weights have partial sums bounded by
      the partial sums of the weights. */
  lemma {:induction false} PartialSumsBounded(s: seq<int>, w: seq<int>, k: nat)
    requires |s| == |w| && k <= |s|
    requires forall i :: 0 <= i < |s| ==> 0 <= w[i] && -128 * w[i] <= s[i] <= 127 * w[i]
    ensures -128 * SumUpTo(w, k) <= SumUpTo(s, k) <= 127 * SumUpTo(w, k)
  {
    if k > 0 {
      PartialSumsBounded(s, w, k - 1);
    }
  }

  /** Seven terms, each within its non-negative weight times the signed-byte
      range, with weights summing to at most 256: every partial sum fits a
      16-bit `int`, so the 16-bit accumulation is the exact sum. */
  lemma BoundedMixIsExact(s: seq<int>, w: seq<int>)
    requires |s| == |w| == HARMONICS
    requires forall i :: 0 <= i < |s| ==> 0 <= w[i] && -128 * w[i] <= s[i] <= 127 * w[i]
    requires SumUpTo(w, HARMONICS) <= 256
    ensures forall k :: 0 <= k <= HARMONICS ==> -0x8000 <= SumUpTo(s, k) < 0x8000
    ensures -128 * 256 <= SumUpTo(s, HARMONICS) <= 127 * 256
    ensures Accumulate16(s, HARMONICS) == SumUpTo(s, HARMONICS)
  {
    forall k | 0 <= k <= HARMONICS
      ensures -0x8000 <= SumUpTo(s, k) < 0x8000
    {
      PartialSumsBounded(s, w, k);
      WeightsMonotone(w, k, HARMONICS);
    }
    PartialSumsBounded(s, w, HARMONICS);
    WeightsMonotone(w, HARMONICS, HARMONICS);
    AccumulateExact(s, HARMONICS);
  }

  /** Partial sums of non-negative weights grow with their length. */
  lemma {:induction false} WeightsMonotone(w: seq<int>, j: nat, k: nat)
    requires j <= k <= |w|
    requires forall i :: 0 <= i < |w| ==> 0 <= w[i]
    ensures 0 <= SumUpTo(w, j) <= SumUpTo(w, k)
  {
    if j < k {
      WeightsMonotone(w, j, k - 1);
    } else if j > 0 {
      WeightsMonotone(w, j - 1, j - 1);
    }
  }

  /** A sum of k terms each at most b is at most k * b. */
  lemma {:induction false} SumAtMost(w: seq<int>, k: nat, b: int)
    requires k <= |w|
    requires forall i :: 0 <= i < |w| ==> w[i] <= b
    ensures SumUpTo(w, k) <= k * b
  {
    if k > 0 {
      SumAtMost(w, k - 1, b);
    }
  }

  // ------------------------------------------------------------- frequency

  /** `phase_increment[0]` for a 16.16 frequency, in 32-bit unsigned
      arithmetic: multiply by the table-to-rate ratio when the table is at
      least as large as the update rate, divide by the inverse ratio
      otherwise. */
  function PhaseIncrementFor(frequency: uint32, cells: uint16, rate: uint16): (r: uint32)
    requires cells >= 1 && rate >= 1
    ensures cells == rate ==> r == frequency
    ensures cells < rate ==> r <= frequency
  {
    RatioAtLeastOne(cells, rate);
    if cells >= rate then WrapU32(frequency * (cells / rate))
    else
      DivisionBounds(frequency, rate / cells);
      frequency / (rate / cells)
  }

  /** Equal sizes give the ratio 1; a larger update rate gives an inverse
      ratio of at least 1. */
  lemma RatioAtLeastOne(cells: nat, rate: nat)
    requires cells >= 1 && rate >= 1
    ensures cells == rate ==> cells / rate == 1
    ensures cells < rate ==> rate / cells >= 1
  {
    if cells == rate {
      DivModUnique(cells, rate, 1, 0);
    } else if cells < rate {
      DivModUnique(cells, cells, 1, 0);
      DivMonotone(cells, rate, cells);
    }
  }

  /** Both branches compute `frequency * cells / rate`, the phase advance per
      update that makes the table cycle `frequency` times per second (as long
      as the product does not wrap). */
  lemma PhaseIncrementIsExactRatio(frequency: uint32, cells: uint16, rate: uint16)
    requires IsPowerOfTwo(cells) && IsPowerOfTwo(rate)
    requires cells >= rate ==> frequency * (cells / rate) < U32_MODULUS
    ensures PhaseIncrementFor(frequency, cells, rate) == frequency * cells / rate
  {
    if cells >= rate {
      PowerOfTwoDivides(rate, cells);
      MultiplyBranchIsExact(frequency, cells, rate);
    } else {
      PowerOfTwoDivides(cells, rate);
      DivideBranchIsExact(frequency, cells, rate);
    }
  }

  lemma MultiplyBranchIsExact(frequency: uint32, cells: uint16, rate: uint16)
    requires 1 <= rate <= cells && cells % rate == 0
    requires frequency * (cells / rate) < U32_MODULUS
    ensures PhaseIncrementFor(frequency, cells, rate) == frequency * cells / rate
  {
    MultiplyFirstIsExact(frequency, cells, rate);
  }

  lemma DivideBranchIsExact(frequency: uint32, cells: uint16, rate: uint16)
    requires 1 <= cells < rate && rate % cells == 0
    ensures PhaseIncrementFor(frequency, cells, rate) == frequency * cells / rate
  {
    DivideFirstIsExact(frequency, cells, rate);
  }

  lemma MultiplyFirstIsExact(f: nat, c: nat, r: nat)
    requires r >= 1 && c % r == 0
    ensures f * (c / r) == f * c / r
  {
    var q := c / r;
    assert c == r * q;
    assert f * c == r * (f * q) by {
      assert f * c == f * (r * q);
    }
    DivModUnique(f * c, r, f * q, 0);
  }

  lemma DivideFirstIsExact(f: nat, c: nat, r: nat)
    requires c >= 1 && r >= c && r % c == 0
    ensures f / (r / c) == f * c / r
  {
    var q := r / c;
    assert r == c * q;
    var d, m := f / q, f % q;
    assert f == q * d + m;
    assert f * c == r * d + c * m by {
      assert f * c == (q * d + m) * c;
      assert (q * d) * c == (c * q) * d;
    }
    MulAtMost(c, m, q - 1);
    assert c * (q - 1) == r - c;
    DivModUnique(f * c, r, d, c * m);
  }

  /** The drawbar stack: increment i is increment 0 shifted right by i. */
  ghost predicate IsOctaveStack(inc: seq<uint32>)
  {
    |inc| == HARMONICS && forall i :: 0 <= i < HARMONICS ==> inc[i] == ShiftRight(inc[0], i)
  }

  /** The increments `setMasterFrequency` derives from the top one. */
  function OctaveStack(top: uint32): (inc: seq<uint32>)
    ensures |inc| == HARMONICS && inc[0] == top
  {
    [top, ShiftRight(top, 1), ShiftRight(top, 2), ShiftRight(top, 3),
     ShiftRight(top, 4), ShiftRight(top, 5), ShiftRight(top, 6)]
  }

  lemma OctavesOf(top: uint32)
    ensures IsOctaveStack(OctaveStack(top))
  {
    var inc := OctaveStack(top);
    forall i | 0 <= i < HARMONICS
      ensures inc[i] == ShiftRight(top, i)
    {
      if i == 0 {
        assert Pow2(0) == 1;
      } else if i == 1 {
      } else if i == 2 {
      } else if i == 3 {
      } else if i == 4 {
      } else if i == 5 {
      } else {
        assert i == 6;
      }
    }
  }

  /** Each drawbar of an octave stack runs at half the speed of the one
      above it (rounded down) and at 1/2^i of the top one. */
  lemma OctaveStackHalves(inc: seq<uint32>, i: nat)
    requires IsOctaveStack(inc) && 1 <= i < HARMONICS
    ensures inc[i] == inc[i - 1] / 2
    ensures inc[i] * Pow2(i) <= inc[0] < (inc[i] + 1) * Pow2(i)
  {
    ShiftRightTwice(inc[0], i - 1, 1);
  }

  /** The note number handed to the note-to-frequency conversion:
      `96 + note` in 16-bit `int`. */
  function BiasedNote(note: int16): (r: int16)
    ensures note < 0x8000 - 96 ==> r == note + 96
  {
    WrapS16(96 + note)
  }

  /** `frequency += frequency/1023*shift`: `shift` is converted to `unsigned
      long`, and the product and sum wrap modulo 2^32. */
  function ShiftedFrequency(frequency: uint32, shift: int16): (r: uint32)
    ensures shift == 0 ==> r == frequency
  {
    AddU32(frequency, WrapU32((frequency / 1023) * WrapU32(shift)))
  }

  /** Within a bend range of +-1023 and for frequencies below 2^31 nothing
      wraps: the shifted frequency is `f + (f/1023)*shift`, at least `f` for
      an upward bend and at most `2f`, at most `f` for a downward bend and
      never negative. */
  lemma ShiftedFrequencyInRange(frequency: uint32, shift: int16)
    requires -1023 <= shift <= 1023 && frequency < 0x8000_0000
    ensures ShiftedFrequency(frequency, shift) == frequency + (frequency / 1023) * shift
    ensures 0 <= shift ==> frequency <= ShiftedFrequency(frequency, shift) <= 2 * frequency
    ensures shift <= 0 ==> 0 <= ShiftedFrequency(frequency, shift) <= frequency
  {
    var q := frequency / 1023;
    assert q * 1023 <= frequency;
    if shift >= 0 {
      BendUp(frequency, q, shift);
    } else {
      BendDown(frequency, q, shift);
    }
  }

  lemma BendUp(f: uint32, q: nat, s: int16)
    requires 0 <= s <= 1023 && q * 1023 <= f < 0x8000_0000
    ensures AddU32(f, WrapU32(q * WrapU32(s))) == f + q * s
    ensures f <= f + q * s <= 2 * f
  {
    MulAtMost(q, s, 1023);
    assert WrapU32(s) == s;
    assert WrapU32(q * s) == q * s;
  }

  /** A negative shift becomes `shift + 2^32` as `unsigned long`; the product
      wraps back to `2^32 + q * shift` and the addition wraps once more. */
  lemma BendDown(f: uint32, q: nat, s: int16)
    requires -1023 <= s < 0 && q * 1023 <= f < 0x8000_0000
    ensures AddU32(f, WrapU32(q * WrapU32(s))) == f + q * s
    ensures 0 <= f + q * s <= f
  {
    MulAtMost(q, -s, 1023);
    assert q * s == -(q * (-s));
    assert WrapU32(s) == s + U32_MODULUS;
    var p := q * (s + U32_MODULUS);
    assert p == U32_MODULUS * q + q * s;
    if q == 0 {
      assert p == 0;
    } else {
      MulAtLeast(q, -s);
      DivModUnique(p, U32_MODULUS, q - 1, q * s + U32_MODULUS);
    }
  }

  // ----------------------------------------------------------------- gains

  /** `scale1 = 36 * (64 - mix) >> 6` in 16-bit `unsigned int`. */
  function Scale1(mix: uint16): (s: uint16)
    ensures mix <= 64 ==> s == 36 * (64 - mix) / 64
  {
    ShiftRight(WrapU16(36 * WrapU16(64 - mix)), 6)
  }

  /** `scale2 = 36 * mix >> 6` in 16-bit `unsigned int`. */
  function Scale2(mix: uint16): (s: uint16)
    ensures mix <= 64 ==> s == 36 * mix / 64
  {
    ShiftRight(WrapU16(36 * mix), 6)
  }

  /** `level * scale >> 10` in 16-bit `unsigned int`. Whatever the inputs,
      the result is at most 63 and so fits the `int8_t` gain it is stored in. */
  function GainOf(level: uint16, scale: uint16): (g: int8)
    ensures 0 <= g <= 63
    ensures level * scale < U16_MODULUS ==> g == level * scale / 1024
  {
    ShiftRight(WrapU16(level * scale), 10)
  }

  /** The seven gains for one table set. The drawbar levels come in
      lowest-pitched first, so level i goes to harmonic 6 - i. */
  function DrawbarGains(levels: seq<uint16>, scale: uint16): (r: seq<int8>)
    requires |levels| == HARMONICS
    ensures |r| == HARMONICS
    ensures forall i :: 0 <= i < HARMONICS ==> 0 <= r[i] <= 63
  {
    seq(HARMONICS, i requires 0 <= i < HARMONICS => GainOf(levels[HARMONICS - 1 - i], scale))
  }

  /** The combined weight of harmonic i: its gain for table set 1 plus its
      gain for table set 2. */
  function PairSums(g1: seq<int8>, g2: seq<int8>): (r: seq<int>)
    requires |g1| == |g2|
    ensures |r| == |g1|
  {
    seq(|g1|, i requires 0 <= i < |g1| => g1[i] as int + g2[i] as int)
  }

  /** Sum of all fourteen gains. */
  function TotalGain(g1: seq<int8>, g2: seq<int8>): (total: int)
    requires |g1| == |g2|
  {
    SumUpTo(PairSums(g1, g2), |g1|)
  }

  /** Drawbar levels in 0..1023 and a mix in 0..64 are the documented input
      ranges of `setGains`. */
  predicate GainInputsInRange(levels: seq<uint16>, mix: uint16)
  {
    (forall i :: 0 <= i < |levels| ==> levels[i] <= 1023) && mix <= 64
  }

  lemma ScalesWithinBudget(mix: uint16)
    requires mix <= 64
    ensures Scale1(mix) + Scale2(mix) <= 36
  {
    QuotientsAtMost(36 * (64 - mix), 36 * mix, 64);
    DivModUnique(36 * 64, 64, 36, 0);
  }

  /** Rounding each quotient down loses at least as much as rounding their
      sum: a/d + b/d <= (a + b)/d. */
  lemma QuotientsAtMost(a: nat, b: nat, d: nat)
    requires d >= 1
    ensures a / d + b / d <= (a + b) / d
  {
    var qa, qb := a / d, b / d;
    var ra, rb := a % d, b % d;
    assert a + b == d * (qa + qb) + (ra + rb);
    if ra + rb < d {
      DivModUnique(a + b, d, qa + qb, ra + rb);
    } else {
      DivModUnique(a + b, d, qa + qb + 1, ra + rb - d);
    }
  }

  /** For one drawbar in range, both gains lie in 0..35 and so does their
      sum: the cross-fade never adds volume. */
  lemma GainPairWithinBudget(level: uint16, mix: uint16)
    requires level <= 1023 && mix <= 64
    ensures GainOf(level, Scale1(mix)) <= 35 && GainOf(level, Scale2(mix)) <= 35
    ensures GainOf(level, Scale1(mix)) + GainOf(level, Scale2(mix)) <= 35
  {
    var s1, s2 := Scale1(mix), Scale2(mix);
    ScalesWithinBudget(mix);
    ProductsWithinBudget(level, s1, s2);
    var a, b := level * s1, level * s2;
    assert GainOf(level, s1) == a / 1024;
    assert GainOf(level, s2) == b / 1024;
  }

  lemma ProductsWithinBudget(level: nat, s1: nat, s2: nat)
    requires level <= 1023 && s1 + s2 <= 36
    ensures level * s1 + level * s2 <= 36828
    ensures level * s1 < U16_MODULUS && level * s2 < U16_MODULUS
    ensures (level * s1) / 1024 + (level * s2) / 1024 <= 35
  {
    MulAtMost(level, s1 + s2, 36);
    MulAtMost(36, level, 1023);
    var a, b := level * s1, level * s2;
    assert a + b == level * (s1 + s2);
    QuotientsAtMost(a, b, 1024);
    DivMonotone(a + b, 36828, 1024);
    DivModUnique(36828, 1024, 35, 988);
  }

  lemma DivMonotone(x: nat, y: nat, d: nat)
    requires d >= 1 && x <= y
    ensures x / d <= y / d
  {
    var qx, qy := x / d, y / d;
    assert d * qx <= x && y < d * qy + d;
    assert d * (qx - qy) == d * qx - d * qy;
    if qx > qy {
      MulAtLeast(d, qx - qy);
    }
  }

  /** For inputs in range every gain lies in 0..35, every pair sums to at
      most 35, and all fourteen gains sum to at most 245, below the 256 that
      keeps the mixed sample inside 16 bits. */
  lemma DrawbarGainsWithinBudget(levels: seq<uint16>, mix: uint16)
    requires |levels| == HARMONICS && GainInputsInRange(levels, mix)
    ensures forall i :: 0 <= i < HARMONICS ==>
      0 <= DrawbarGains(levels, Scale1(mix))[i] <= 35 && 0 <= DrawbarGains(levels, Scale2(mix))[i] <= 35
    ensures forall i :: 0 <= i < HARMONICS ==>
      PairSums(DrawbarGains(levels, Scale1(mix)), DrawbarGains(levels, Scale2(mix)))[i] <= 35
    ensures TotalGain(DrawbarGains(levels, Scale1(mix)), DrawbarGains(levels, Scale2(mix))) <= 245
  {
    var g1, g2 := DrawbarGains(levels, Scale1(mix)), DrawbarGains(levels, Scale2(mix));
    forall i | 0 <= i < HARMONICS
      ensures 0 <= g1[i] <= 35 && 0 <= g2[i] <= 35 && g1[i] as int + g2[i] as int <= 35
    {
      assert levels[HARMONICS - 1 - i] <= 1023;
      assert g1[i] == GainOf(levels[HARMONICS - 1 - i], Scale1(mix));
      assert g2[i] == GainOf(levels[HARMONICS - 1 - i], Scale2(mix));
      GainPairWithinBudget(levels[HARMONICS - 1 - i], mix);
    }
    forall i | 0 <= i < HARMONICS ensures PairSums(g1, g2)[i] <= 35 {
      assert PairSums(g1, g2)[i] == g1[i] as int + g2[i] as int;
    }
    SumAtMost(PairSums(g1, g2), HARMONICS, 35);
  }

  /** `mix == 0` silences table set 2. */
  lemma MixZeroSilencesSecondSet(levels: seq<uint16>)
    requires |levels| == HARMONICS
    ensures forall i :: 0 <= i < HARMONICS ==> DrawbarGains(levels, Scale2(0))[i] == 0
  {
    Pow2Constants();
    assert Scale2(0) == 0;
    forall i | 0 <= i < HARMONICS ensures DrawbarGains(levels, Scale2(0))[i] == 0 {
      assert GainOf(levels[HARMONICS - 1 - i], 0) == 0;
    }
  }

  /** `mix == 64` silences table set 1. */
  lemma MixFullSilencesFirstSet(levels: seq<uint16>)
    requires |levels| == HARMONICS
    ensures forall i :: 0 <= i < HARMONICS ==> DrawbarGains(levels, Scale1(64))[i] == 0
  {
    Pow2Constants();
    assert Scale1(64) == 0;
    forall i | 0 <= i < HARMONICS ensures DrawbarGains(levels, Scale1(64))[i] == 0 {
      assert GainOf(levels[HARMONICS - 1 - i], 0) == 0;
    }
  }

  /** `setGains(1023, 0, 0, 0, 0, 0, 0, 0)`: only the bass harmonic sounds,
      from table set 1, with gain 35. */
  lemma LowestDrawbarOnly()
    ensures DrawbarGains([1023, 0, 0, 0, 0, 0, 0], Scale1(0)) == [0, 0, 0, 0, 0, 0, 35]
    ensures DrawbarGains([1023, 0, 0, 0, 0, 0, 0], Scale2(0)) == [0, 0, 0, 0, 0, 0, 0]
  {
    Pow2Constants();
    assert Scale1(0) == 36 && Scale2(0) == 0;
    assert GainOf(1023, 36) == 35 && GainOf(0, 36) == 0 && GainOf(1023, 0) == 0 && GainOf(0, 0) == 0;
  }

  // ----------------------------------------------------------------- phase

  /** A phase after k updates by `inc`, each update one 32-bit addition. */
  function AdvanceBy(p: uint32, inc: uint32, k: nat): (r: uint32)
  {
    if k == 0 then p else AddU32(AdvanceBy(p, inc, k - 1), inc)
  }

  /** k updates move a phase to `p + k * inc` modulo 2^32. */
  lemma AdvanceByClosedForm(p: uint32, inc: uint32, k: nat)
    ensures AdvanceBy(p, inc, k) == (p + k * inc) % U32_MODULUS
  {
    AdvanceCongruent(p, inc, k);
    var x, r := p + k * inc, AdvanceBy(p, inc, k);
    var m := (x - r) / U32_MODULUS;
    assert x - r == U32_MODULUS * m;
    DivModUnique(x, U32_MODULUS, m, r);
  }

  lemma {:induction false} AdvanceCongruent(p: uint32, inc: uint32, k: nat)
    ensures (p + k * inc - AdvanceBy(p, inc, k)) % U32_MODULUS == 0
  {
    if k > 0 {
      AdvanceCongruent(p, inc, k - 1);
      var a := p + (k - 1) * inc;
      StepCongruent(a, AdvanceBy(p, inc, k - 1), inc);
      assert p + k * inc == a + inc;
    }
  }

  /** One more 32-bit addition keeps the phase congruent to the exact sum. */
  lemma StepCongruent(a: int, prev: uint32, inc: uint32)
    requires (a - prev) % U32_MODULUS == 0
    ensures (a + inc - AddU32(prev, inc)) % U32_MODULUS == 0
  {
    var m := (a - prev) / U32_MODULUS;
    assert a - prev == U32_MODULUS * m;
    if prev + inc < U32_MODULUS {
      DivModUnique(a + inc - AddU32(prev, inc), U32_MODULUS, m, 0);
    } else {
      DivModUnique(a + inc - AddU32(prev, inc), U32_MODULUS, m + 1, 0);
    }
  }

  /** Advancing j updates and then k more is advancing j + k updates: the
      phase after a run of Next calls depends only on how many there were. */
  lemma {:induction false} AdvanceComposes(p: uint32, inc: uint32, j: nat, k: nat)
    ensures AdvanceBy(AdvanceBy(p, inc, j), inc, k) == AdvanceBy(p, inc, j + k)
  {
    if k > 0 {
      AdvanceComposes(p, inc, j, k - 1);
    }
  }
}
