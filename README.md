# Drawbar tone generator

This project models `ToneGenerator<NUM_TABLE_CELLS, UPDATE_RATE>` from the
arduino-organ sketch in Dafny. The class is a drawbar-organ oscillator bank.

- **Phases.** It has seven 16.16 fixed-point phase accumulators. Their
  increments are an octave apart: harmonic `i` advances at the top
  increment shifted right by `i`.
- **Sample.** For each sample, every harmonic reads the same cell of two
  signed 8-bit wavetables. Harmonics 0..5 read `wave1`/`wave2`; harmonic 6
  reads `bass_wave1`/`bass_wave2`. The two cells are cross-faded with a
  pair of per-harmonic gains. The seven readings are added in 16-bit `int`
  and shifted right by 2.
- **Setters.** They choose the pitch (`setMasterFrequency_Q16n16`,
  `setMasterNote`, `setMasterNoteShifted`), the gains (`setGains`, from
  seven drawbar levels and a mix between the two table sets) and the tables
  (`setWaveTables`).

The model has three modules:

- `FixedWidth` (`fixed_width.dfy`): the AVR integer widths and their
  arithmetic, written out explicitly:
  - types: 8-bit `int8_t`, 16-bit `int`/`unsigned int`, 32-bit
    `long`/`unsigned long`;
  - wrap-around modulo 2^w;
  - `>>` as division by a power of two;
  - `&` on naturals;
  - power-of-two facts.
- `ToneMath` (`tone_math.dfy`): the class's arithmetic as functions on
  values, with the lemmas about it:
  - the table index;
  - the cross-fade;
  - the 16-bit accumulation of the seven readings;
  - the frequency-to-increment conversion;
  - the octave stack;
  - the pitch bend;
  - the gain computation;
  - phase advance over several updates.
- `Drawbar` (`tone_generator.dfy`): the class itself as
  `Drawbar.ToneGenerator`.
  - **Fields.** The `phase`, `phaseIncrement`, `gain1` and `gain2` arrays,
    updated in place. The four table references are `seq<int8>` fields that
    `SetWaveTables` reassigns.
  - **Constructor and setters.** These are methods with `modifies` clauses.
  - **Readers.** `peek` and the four readers are functions of the current
    state, so `peek` changes nothing by construction and two calls in a row
    agree.

Integer widths follow the AVR target:

| C type | width |
|---|---|
| `int`, `unsigned int` | 16 bits |
| `long`, `unsigned long` | 32 bits |
| `Q15n16` | signed 32 bits |
| `Q16n16` | unsigned 32 bits |

Where C arithmetic can leave its range, the model writes the wrap out:
- unsigned wrap is modelled modulo 2^w;
- signed 16-bit overflow is undefined in C; the model chooses
  two's-complement wrap for this undefined case.

The lemmas then show that, with the gains `setGains` produces from inputs in
the documented ranges, no 16-bit `int` product or partial sum in `peek`
overflows. The 32-bit phase-plus-offset additions still wrap modulo 2^32,
as `unsigned long` arithmetic does.

The external pieces become parameters:
- the pseudo-random seeds of the constructor;
- the note-to-frequency conversion of the Mozzi library.

## Model

| member | source | states |
|---|---|---|
| FixedWidth.MaskIsRemainder | ToneGenerator.h:152 | masking with `NUM_TABLE_CELLS - 1` is the remainder modulo `NUM_TABLE_CELLS` when that is a power of two |
| ToneMath.TableIndex | ToneGenerator.h:152 | the index `(p >> 16) & (NUM_TABLE_CELLS - 1)` is below `NUM_TABLE_CELLS`, so every table read is in bounds, and equals the integer part of the phase modulo the table size |
| FixedWidth.BitAnd | ToneGenerator.h:152 | bitwise `&` on naturals, bit by bit; the result is at most either operand (its meaning as a remainder is MaskIsRemainder) |
| FixedWidth.ShiftRight | ToneGenerator.h:152 | `x >> k` on an unsigned value is the quotient by 2^k: `r * 2^k <= x < (r + 1) * 2^k` |
| FixedWidth.WrapS16 | ToneGenerator.h:153 | reduction to 16-bit `int` is congruent to its argument modulo 2^16 and the identity on in-range values |
| ToneMath.CrossFade | ToneGenerator.h:153 | the 16-bit cross-fade of two cells equals their exact weighted sum whenever both gains are non-negative (nothing wraps) |
| ToneMath.Weighted | ToneGenerator.h:153 | the exact weighted sum of two signed bytes lies between -128 and 127 times the sum of the non-negative gains |
| ToneMath.ByteProduct | ToneGenerator.h:168 | a product of two signed bytes stays within +-0x4000, so `read_wave1`/`read_wave2` never overflow `int` |
| Drawbar.ToneGenerator.ReadInterpolate | ToneGenerator.h:150-155 | the reading of `wave1`/`wave2` at the phase's cell is bounded by the signed-byte range times the sum of non-negative gains |
| Drawbar.ToneGenerator.ReadInterpolateBass | ToneGenerator.h:158-162 | the same bound for the bass tables |
| Drawbar.ToneGenerator.ReadWave1 | ToneGenerator.h:165-169 | `read_wave1` is the cross-fade with table set 2 silenced (gain 0) |
| Drawbar.ToneGenerator.ReadWave2 | ToneGenerator.h:172-176 | `read_wave2` is the cross-fade with table set 1 silenced (gain 0) |
| Drawbar.ToneGenerator.PeekAt | ToneGenerator.h:179-189 | whatever the gains, the sample shifted right by 2 lies in the signed 14-bit range |
| FixedWidth.ArithShiftRight | ToneGenerator.h:188 | the `>> 2` on the signed sum is floor division by 2^k: `r * 2^k <= x < (r + 1) * 2^k` |
| Drawbar.ToneGenerator.Readings | ToneGenerator.h:182-188 | the seven terms of `peek`, harmonic i read at `phase[i]` plus the offset, the bass tables for harmonic 6; what they sum to is stated by ReadingsWeighted and PeekIsExact |
| Drawbar.ToneGenerator.PeekIsExact | ToneGenerator.h:179-189 | with safe gains, no 16-bit `int` product or partial sum of `peek`'s seven-term expression overflows, and the sample is the exact fourteen-cell mix divided by 4 (rounded down), between -8192 and 8128 |
| Drawbar.ToneGenerator.ReadingsWeighted | ToneGenerator.h:182-188 | each of the seven readings equals its exact weighted value and lies within its combined gain times the signed-byte range |
| ToneMath.BoundedMixIsExact | ToneGenerator.h:182-188 | seven terms bounded by weights that sum to at most 256 have every partial sum inside 16 bits, so the 16-bit accumulation equals the exact sum |
| ToneMath.Accumulate16 | ToneGenerator.h:182-188 | the left-to-right 16-bit sum is congruent modulo 2^16 to the exact sum |
| ToneMath.AccumulateExact | ToneGenerator.h:182-188 | when the exact sum fits 16 bits the 16-bit accumulation is exact |
| ToneMath.PartialSumsBounded | ToneGenerator.h:182-188 | partial sums of readings are bounded by the corresponding partial sums of their weights |
| ToneMath.SumOfSeven | ToneGenerator.h:182-188 | the seven-term partial sum is the seven-term expression of `peek` |
| Drawbar.ToneGenerator.IncrementPhase | ToneGenerator.h:138-147 | every phase advances by its increment modulo 2^32; only `phase` changes |
| Drawbar.ToneGenerator.Next | ToneGenerator.h:32-36 | `next()` advances every phase by one update and returns the new `peek()`; with safe gains that is the exact mix over 4, between -8192 and 8128 |
| Drawbar.ToneGenerator.PhMod | ToneGenerator.h:45-49 | `phMod` advances the phases exactly as `next()` does, reads at phase plus `proportion * NUM_TABLE_CELLS` without storing the offset, and `phMod(0)` returns `next()`'s sample; with safe gains the sample is the exact mix at the offset phases over 4, between -8192 and 8128 |
| ToneMath.AdvanceByClosedForm | ToneGenerator.h:140-146 | k updates by an increment move a phase to `(p + k * inc) mod 2^32` |
| ToneMath.AdvanceComposes | ToneGenerator.h:34 | j updates followed by k updates are j + k updates, so k calls of `next()` move each phase by `k * inc` modulo 2^32 |
| Drawbar.ToneGenerator.constructor | ToneGenerator.h:26-29 | the seven phases are the pseudo-random seeds; increments and gains start at zero, which is an octave stack and safe gains |
| Drawbar.ToneGenerator.SetWaveTables | ToneGenerator.h:51-60 | exactly the four table references are replaced by the arguments; the tables are loaded iff all four have `NUM_TABLE_CELLS` cells; no array changes |
| Drawbar.ToneGenerator.SetMasterFrequency | ToneGenerator.h:77-101 | the top increment is the two-branch conversion of the frequency, increments 1..6 are it shifted right by 1..6, phases and gains are untouched |
| ToneMath.PhaseIncrementFor | ToneGenerator.h:86-90 | the two-branch 32-bit conversion; equal table size and rate give the frequency itself, a larger rate never increases it; its exactness as `frequency * NUM_TABLE_CELLS / UPDATE_RATE` is PhaseIncrementIsExactRatio |
| ToneMath.PhaseIncrementIsExactRatio | ToneGenerator.h:86-90 | for power-of-two table size and update rate both branches equal `frequency * NUM_TABLE_CELLS / UPDATE_RATE` (when the multiply does not wrap) |
| ToneMath.MultiplyFirstIsExact | ToneGenerator.h:87 | multiplying by an exact ratio `c / r` is `f * c / r` |
| ToneMath.DivideFirstIsExact | ToneGenerator.h:89 | dividing by an exact ratio `r / c` is `f * c / r` |
| ToneMath.OctavesOf | ToneGenerator.h:94-99 | the seven increments written by the setter form an octave stack |
| ToneMath.OctaveStack | ToneGenerator.h:94-99 | the seven increments the setter writes, the top one first; that they form an octave stack is OctavesOf, and how they halve is OctaveStackHalves |
| ToneMath.OctaveStackHalves | ToneGenerator.h:94-99 | in an octave stack each increment is half the one above it, rounded down, and `inc[i] * 2^i <= inc[0] < (inc[i] + 1) * 2^i` |
| FixedWidth.ShiftRightTwice | ToneGenerator.h:94-99 | two successive right shifts are one shift by the sum |
| FixedWidth.PowerOfTwoDivides | ToneGenerator.h:86-90 | of two powers of two the smaller divides the larger, so the table-to-rate ratio is exact |
| Drawbar.ToneGenerator.SetMasterNote | ToneGenerator.h:63-66 | the increments are set from the frequency of note `96 + note` |
| ToneMath.BiasedNote | ToneGenerator.h:65 | `96 + note` in 16-bit `int` is the plain sum whenever it does not overflow |
| Drawbar.ToneGenerator.SetMasterNoteShifted | ToneGenerator.h:69-74 | the increments are set from the note's frequency bent by `frequency/1023*shift` |
| ToneMath.ShiftedFrequency | ToneGenerator.h:72 | a zero shift leaves the frequency as it is |
| ToneMath.ShiftedFrequencyInRange | ToneGenerator.h:72 | for a shift in +-1023 and a frequency below 2^31 the 32-bit bend is exactly `f + (f/1023)*shift`: at least `f` and at most `2f` upwards, between 0 and `f` downwards |
| Drawbar.ToneGenerator.SetGains | ToneGenerator.h:107-128 | gain set 1 and gain set 2 are the drawbar levels in reverse order scaled by `scale1` and `scale2`; inputs in the documented ranges leave the gains safe; phases and increments are untouched |
| Drawbar.GainsMatch | ToneGenerator.h:113-126 | the fourteen element writes make up the reversed, scaled gain sequences |
| ToneMath.DrawbarGains | ToneGenerator.h:113-126 | one gain set: harmonic i from level 6 - i, each gain in 0..63; its budget is DrawbarGainsWithinBudget and its boundary cases MixZeroSilencesSecondSet, MixFullSilencesFirstSet and LowestDrawbarOnly |
| ToneMath.GainOf | ToneGenerator.h:113 | `level * scale >> 10` in 16-bit `unsigned int` is at most 63, so it always fits `int8_t`, and is the exact quotient when the product does not wrap |
| ToneMath.Scale1 | ToneGenerator.h:109 | `36 * (64 - mix) >> 6` is the exact quotient for mix in 0..64 |
| ToneMath.Scale2 | ToneGenerator.h:109 | `36 * mix >> 6` is the exact quotient for mix in 0..64 |
| ToneMath.ScalesWithinBudget | ToneGenerator.h:109 | the two scales add up to at most 36 |
| ToneMath.GainPairWithinBudget | ToneGenerator.h:112-126 | for one level in 0..1023 both gains lie in 0..35 and so does their sum |
| ToneMath.DrawbarGainsWithinBudget | ToneGenerator.h:112-126 | for inputs in range every gain is in 0..35, every pair sums to at most 35, and all fourteen sum to at most 245, which is below 256 |
| ToneMath.MixZeroSilencesSecondSet | ToneGenerator.h:109-126 | `mix == 0` makes every gain of table set 2 zero |
| ToneMath.MixFullSilencesFirstSet | ToneGenerator.h:109-126 | `mix == 64` makes every gain of table set 1 zero |
| ToneMath.LowestDrawbarOnly | ToneGenerator.h:109-126 | `setGains(1023, 0, 0, 0, 0, 0, 0, 0)` leaves only the bass gain of table set 1 non-zero, equal to 35 |
| ToneMath.QuotientsAtMost | ToneGenerator.h:109 | rounding two quotients down separately loses at least as much as rounding their sum |
| FixedWidth.AddU32IsWrap | ToneGenerator.h:140 | `+=` on `unsigned long`, which drops the carry, is addition modulo 2^32 |

## Left out

- Interrupt masking: `ATOMIC_BLOCK` and the `volatile` qualifiers are left out. Each setter is one sequential state update.
- `xorshift96()`: the pseudo-random generator is not part of this model. The constructor takes its seven outputs as a parameter.
- `Q16n16_mtof` and `Q16n0_to_Q16n16`: these Mozzi conversions are not part of this model. `SetMasterNote` and `SetMasterNoteShifted` take their composition as a function parameter, and the model covers only the note bias and the shift arithmetic.
- `pgm_read_byte_near`: the flash read becomes indexing into a read-only `seq<int8>`.
- The unused `ADJUST_FOR_NUM_TABLE_CELLS` constant and the commented-out alternatives are left out. So is audio fidelity.
- Unset tables: before the first `setWaveTables` the table pointers are unset. The model uses empty sequences for them, and reading requires every table to hold `NUM_TABLE_CELLS` cells, which is the caller's duty in the source.
- Constructor state: the source constructor does not initialise the increments, gains or table pointers. For a static instance they are zero, which is what the model's constructor assumes.
- Drawbar.ToneGenerator.PhMod: it requires that `proportion * NUM_TABLE_CELLS` fits a signed 32-bit `long`. The source computes it in `long`, where overflow is undefined. The model also computes the product before advancing the phases. It depends only on the argument, so nothing observable differs.
- Signed 16-bit overflow: in C it is undefined behaviour. The model uses two's-complement wrap, and proves in Drawbar.ToneGenerator.PeekIsExact that with safe gains it never occurs.
- Negative right shift: `>>` on a negative `int` is implementation-defined in C. The model uses the arithmetic shift the AVR compiler performs.
- Pitch bend: the bend is modelled as the code computes it. The code divides before multiplying (`frequency/1023*shift`). A description that multiplies first (`frequency*shift/1023`) gives a different rounding; the model follows the code.
- Drawbar.ToneGenerator.Peek: `peek()` is `PeekAt(0)`. Its freedom from side effects holds by construction, since it is a function of the state, so it carries no contract of its own.
