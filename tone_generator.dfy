/** The drawbar-organ oscillator bank `ToneGenerator<NUM_TABLE_CELLS,
    UPDATE_RATE>`: seven phase accumulators an octave apart, each reading the
    same cell of two wavetables and cross-fading them with a pair of gains. */
module Drawbar {
  import opened FixedWidth
  import opened ToneMath

  /** Seven gains written one by one, harmonic i from level 6 - i, are
      DrawbarGains of the levels. */
  lemma GainsMatch(gains: seq<int8>, levels: seq<uint16>, scale: uint16)
    requires |gains| == HARMONICS && |levels| == HARMONICS
    requires gains[0] == GainOf(levels[6], scale) && gains[1] == GainOf(levels[5], scale)
    requires gains[2] == GainOf(levels[4], scale) && gains[3] == GainOf(levels[3], scale)
    requires gains[4] == GainOf(levels[2], scale) && gains[5] == GainOf(levels[1], scale)
    requires gains[6] == GainOf(levels[0], scale)
    ensures gains == DrawbarGains(levels, scale)
  {
    var d := DrawbarGains(levels, scale);
    forall i | 0 <= i < HARMONICS
      ensures gains[i] == d[i]
    {
      if i == 0 {
      } else if i == 1 {
      } else if i == 2 {
      } else if i == 3 {
      } else if i == 4 {
      } else if i == 5 {
      } else {
        assert i == 6;
      }
    }
  }

  class ToneGenerator {
    /** The template parameters NUM_TABLE_CELLS and UPDATE_RATE. */
    const numTableCells: uint16
    const updateRate: uint16

    /** 16.16 fixed-point phase of each harmonic; harmonic 0 is the highest. */
    const phase: array<uint32>
    const phaseIncrement: array<uint32>
    /** Per-harmonic weights of table set 1 and table set 2. */
    const gain1: array<int8>
    const gain2: array<int8>

    /** The four table references: harmonics 0..5 read `wave1`/`wave2`, the
        bass harmonic 6 reads `bassWave1`/`bassWave2`. An empty table stands
        for a pointer that has not been set. */
    var wave1: seq<int8>
    var bassWave1: seq<int8>
    var wave2: seq<int8>
    var bassWave2: seq<int8>

    ghost predicate Valid()
    {
      phase.Length == HARMONICS && phaseIncrement.Length == HARMONICS &&
      gain1.Length == HARMONICS && gain2.Length == HARMONICS &&
      phase != phaseIncrement && gain1 != gain2 &&
      IsPowerOfTwo(numTableCells) && updateRate >= 1
    }

    /** Every table holds NUM_TABLE_CELLS cells, as the callers of
        `setWaveTables` must ensure before the first sample is read. */
    ghost predicate TablesLoaded()
      reads this
    {
      |wave1| == numTableCells && |bassWave1| == numTableCells &&
      |wave2| == numTableCells && |bassWave2| == numTableCells
    }

    /** Harmonic i advances at the top harmonic's rate shifted right by i. */
    ghost predicate IncrementsAreOctaves()
      reads phaseIncrement
      requires Valid()
    {
      IsOctaveStack(phaseIncrement[..])
    }

    /** The gains are non-negative and all fourteen sum to at most 256, the
        budget under which the mixed sample cannot overflow 16 bits. */
    ghost predicate GainsSafe()
      reads gain1, gain2
      requires Valid()
    {
      (forall i :: 0 <= i < HARMONICS ==> 0 <= gain1[i] && 0 <= gain2[i]) &&
      TotalGain(gain1[..], gain2[..]) <= 256
    }

    /** The constructor seeds the seven phases from the pseudo-random source's
        outputs `seeds`; increments and gains start at zero and the tables
        unset. */
    constructor (cells: uint16, rate: uint16, seeds: seq<uint32>)
      requires IsPowerOfTwo(cells) && rate >= 1 && |seeds| == HARMONICS
      ensures Valid() && numTableCells == cells && updateRate == rate
      ensures fresh(phase) && fresh(phaseIncrement) && fresh(gain1) && fresh(gain2)
      ensures phase[..] == seeds
      ensures forall i :: 0 <= i < HARMONICS ==> phaseIncrement[i] == 0 && gain1[i] == 0 && gain2[i] == 0
      ensures wave1 == [] && bassWave1 == [] && wave2 == [] && bassWave2 == []
      ensures IncrementsAreOctaves() && GainsSafe()
    {
      numTableCells, updateRate := cells, rate;
      var p := new uint32[HARMONICS];
      for i := 0 to HARMONICS
        invariant forall j :: 0 <= j < i ==> p[j] == seeds[j]
      {
        p[i] := seeds[i];
      }
      phase := p;
      phaseIncrement := new uint32[HARMONICS](_ => 0);
      gain1 := new int8[HARMONICS](_ => 0);
      gain2 := new int8[HARMONICS](_ => 0);
      wave1, bassWave1, wave2, bassWave2 := [], [], [], [];
      new;
      SumAtMost(PairSums(gain1[..], gain2[..]), HARMONICS, 0);
    }

    // ------------------------------------------------------------- reading

    /** `read_interpolate`: the same cell of `wave1` and `wave2`, weighted by
        the two gains. With non-negative gains the result lies between -128
        and 127 times their sum. */
    function ReadInterpolate(p: uint32, g1: int8, g2: int8): (r: int16)
      reads this
      requires Valid() && TablesLoaded()
      ensures 0 <= g1 && 0 <= g2 ==> -128 * (g1 as int + g2 as int) <= r <= 127 * (g1 as int + g2 as int)
    {
      var index := TableIndex(p, numTableCells);
      CrossFade(wave1[index], wave2[index], g1, g2)
    }

    /** `read_interpolate_bass`: as ReadInterpolate, on the bass tables. */
    function ReadInterpolateBass(p: uint32, g1: int8, g2: int8): (r: int16)
      reads this
      requires Valid() && TablesLoaded()
      ensures 0 <= g1 && 0 <= g2 ==> -128 * (g1 as int + g2 as int) <= r <= 127 * (g1 as int + g2 as int)
    {
      var index := TableIndex(p, numTableCells);
      CrossFade(bassWave1[index], bassWave2[index], g1, g2)
    }

    /** `read_wave1`: one weighted cell of `wave1`, which is the cross-fade
        with table set 2 silenced. */
    function ReadWave1(p: uint32, gain: int8): (r: int16)
      reads this
      requires Valid() && TablesLoaded()
      ensures r == ReadInterpolate(p, gain, 0)
    {
      var index := TableIndex(p, numTableCells);
      ByteProduct(wave1[index], gain);
      wave1[index] * gain
    }

    /** `read_wave2`: one weighted cell of `wave2`, which is the cross-fade
        with table set 1 silenced. */
    function ReadWave2(p: uint32, gain: int8): (r: int16)
      reads this
      requires Valid() && TablesLoaded()
      ensures r == ReadInterpolate(p, 0, gain)
    {
      var index := TableIndex(p, numTableCells);
      ByteProduct(wave2[index], gain);
      wave2[index] * gain
    }

    /** The seven terms of `peek`, each harmonic read at its phase plus the
        modulation offset. */
    function Readings(offset: uint32): (r: seq<int16>)
      reads this, phase, gain1, gain2
      requires Valid() && TablesLoaded()
      ensures |r| == HARMONICS
    {
      [ReadInterpolate(AddU32(phase[0], offset), gain1[0], gain2[0]),
       ReadInterpolate(AddU32(phase[1], offset), gain1[1], gain2[1]),
       ReadInterpolate(AddU32(phase[2], offset), gain1[2], gain2[2]),
       ReadInterpolate(AddU32(phase[3], offset), gain1[3], gain2[3]),
       ReadInterpolate(AddU32(phase[4], offset), gain1[4], gain2[4]),
       ReadInterpolate(AddU32(phase[5], offset), gain1[5], gain2[5]),
       ReadInterpolateBass(AddU32(phase[6], offset), gain1[6], gain2[6])]
    }

    /** Reference value of the mix: the exact sum of the fourteen weighted
        cells, with no 16-bit arithmetic anywhere. */
    function ExactMix(offset: uint32): (mix: int)
      reads this, phase, gain1, gain2
      requires Valid() && TablesLoaded()
    {
      ExactReading(0, offset) + ExactReading(1, offset) + ExactReading(2, offset) +
      ExactReading(3, offset) + ExactReading(4, offset) + ExactReading(5, offset) +
      ExactReading(6, offset)
    }

    function ExactReading(i: nat, offset: uint32): (r: int)
      reads this, phase, gain1, gain2
      requires Valid() && TablesLoaded() && i < HARMONICS
    {
      var index := TableIndex(AddU32(phase[i], offset), numTableCells);
      if i < HARMONICS - 1 then Weighted(wave1[index], wave2[index], gain1[i], gain2[i])
      else Weighted(bassWave1[index], bassWave2[index], gain1[i], gain2[i])
    }

    /** `peek(phmod)`: the seven readings at phase + phmod (converted to
        `unsigned long`) added in 16-bit `int` and shifted right by 2. The
        shift leaves the sample in the signed 14-bit range. */
    function PeekAt(phmod: int32): (r: int16)
      reads this, phase, gain1, gain2
      requires Valid() && TablesLoaded()
      ensures -0x2000 <= r < 0x2000
    {
      Pow2Constants();
      ArithShiftRight(Accumulate16(Readings(WrapU32(phmod)), HARMONICS), 2)
    }

    /** `peek()`: the current sample, without modulation. */
    function Peek(): (r: int16)
      reads this, phase, gain1, gain2
      requires Valid() && TablesLoaded()
    {
      PeekAt(0)
    }

    /** With safe gains no 16-bit `int` product or partial sum of `peek`'s
        expression overflows: the sample is the exact mix divided by 4,
        between -8192 and 8128. */
    lemma PeekIsExact(phmod: int32)
      requires Valid() && TablesLoaded() && GainsSafe()
      ensures forall k :: 0 <= k <= HARMONICS ==> -0x8000 <= SumUpTo(Readings(WrapU32(phmod)), k) < 0x8000
      ensures PeekAt(phmod) == ArithShiftRight(ExactMix(WrapU32(phmod)), 2)
      ensures -8192 <= PeekAt(phmod) <= 8128
    {
      var offset := WrapU32(phmod);
      var rs := Readings(offset);
      var w := PairSums(gain1[..], gain2[..]);
      ReadingsWeighted(offset);
      assert SumUpTo(w, HARMONICS) <= 256;
      BoundedMixIsExact(rs, w);
      SumOfSeven(rs);
      var a := Accumulate16(rs, HARMONICS);
      assert a == ExactMix(offset);
      Pow2Constants();
      assert PeekAt(phmod) == ArithShiftRight(a, 2);
    }

    /** Each reading is its exact weighted value, within its combined gain
        times the signed-byte range. */
    lemma ReadingsWeighted(offset: uint32)
      requires Valid() && TablesLoaded() && GainsSafe()
      ensures forall i :: 0 <= i < HARMONICS ==>
        0 <= PairSums(gain1[..], gain2[..])[i] &&
        -128 * PairSums(gain1[..], gain2[..])[i] <= Readings(offset)[i] <= 127 * PairSums(gain1[..], gain2[..])[i]
      ensures forall i :: 0 <= i < HARMONICS ==> Readings(offset)[i] == ExactReading(i, offset)
    {
      var rs := Readings(offset);
      var w := PairSums(gain1[..], gain2[..]);
      forall i | 0 <= i < HARMONICS
        ensures 0 <= w[i] && -128 * w[i] <= rs[i] <= 127 * w[i]
        ensures rs[i] == ExactReading(i, offset)
      {
        assert w[i] == gain1[i] as int + gain2[i] as int;
      }
    }

    // ----------------------------------------------------------- producing

    /** `incrementPhase`: every phase advances by its increment modulo 2^32. */
    method IncrementPhase()
      requires Valid()
      modifies phase
      ensures forall i :: 0 <= i < HARMONICS ==> phase[i] == AddU32(old(phase[i]), phaseIncrement[i])
    {
      phase[0] := AddU32(phase[0], phaseIncrement[0]);
      phase[1] := AddU32(phase[1], phaseIncrement[1]);
      phase[2] := AddU32(phase[2], phaseIncrement[2]);
      phase[3] := AddU32(phase[3], phaseIncrement[3]);
      phase[4] := AddU32(phase[4], phaseIncrement[4]);
      phase[5] := AddU32(phase[5], phaseIncrement[5]);
      phase[6] := AddU32(phase[6], phaseIncrement[6]);
    }

    /** `next()`: advance every phase, then read the sample. */
    method Next() returns (r: int16)
      requires Valid() && TablesLoaded()
      modifies phase
      ensures forall i :: 0 <= i < HARMONICS ==> phase[i] == AddU32(old(phase[i]), phaseIncrement[i])
      ensures r == Peek()
      ensures GainsSafe() ==> r == ArithShiftRight(ExactMix(0), 2)
      ensures GainsSafe() ==> -8192 <= r <= 8128
    {
      IncrementPhase();
      r := PeekAt(0);
      if GainsSafe() {
        PeekIsExact(0);
      }
    }

    /** `phMod(proportion)`: advance every phase as Next does, then read at
        the phases offset by `proportion * NUM_TABLE_CELLS`. The offset is
        never stored, and a zero proportion gives Next's sample. */
    method PhMod(proportion: int32) returns (r: int16)
      requires Valid() && TablesLoaded()
      requires -0x8000_0000 <= proportion * numTableCells < 0x8000_0000
      modifies phase
      ensures forall i :: 0 <= i < HARMONICS ==> phase[i] == AddU32(old(phase[i]), phaseIncrement[i])
      ensures r == PeekAt(proportion * numTableCells)
      ensures proportion == 0 ==> r == Peek()
      ensures GainsSafe() ==> r == ArithShiftRight(ExactMix(WrapU32(proportion * numTableCells)), 2)
      ensures GainsSafe() ==> -8192 <= r <= 8128
    {
      var phmod: int32 := proportion * numTableCells;
      assert proportion == 0 ==> phmod == 0;
      IncrementPhase();
      r := PeekAt(phmod);
      if GainsSafe() {
        PeekIsExact(phmod);
      }
    }

    // --------------------------------------------------------- configuring

    /** `setWaveTables`: replaces the four table references and nothing
        else. */
    method SetWaveTables(w1: seq<int8>, b1: seq<int8>, w2: seq<int8>, b2: seq<int8>)
      modifies this`wave1, this`bassWave1, this`wave2, this`bassWave2
      ensures wave1 == w1 && bassWave1 == b1 && wave2 == w2 && bassWave2 == b2
      ensures TablesLoaded() <==>
        |w1| == numTableCells && |b1| == numTableCells && |w2| == numTableCells && |b2| == numTableCells
      ensures unchanged(phase) && unchanged(phaseIncrement) && unchanged(gain1) && unchanged(gain2)
    {
      wave1 := w1;
      bassWave1 := b1;
      wave2 := w2;
      bassWave2 := b2;
    }

    /** `setMasterFrequency_Q16n16`: the top increment from the frequency,
        the other six as its right shifts. */
    method SetMasterFrequency(frequency: uint32)
      requires Valid()
      modifies phaseIncrement
      ensures phaseIncrement[0] == PhaseIncrementFor(frequency, numTableCells, updateRate)
      ensures IncrementsAreOctaves()
      ensures unchanged(phase) && unchanged(gain1) && unchanged(gain2)
    {
      var top := PhaseIncrementFor(frequency, numTableCells, updateRate);
      phaseIncrement[0] := top;
      phaseIncrement[1] := ShiftRight(top, 1);
      phaseIncrement[2] := ShiftRight(top, 2);
      phaseIncrement[3] := ShiftRight(top, 3);
      phaseIncrement[4] := ShiftRight(top, 4);
      phaseIncrement[5] := ShiftRight(top, 5);
      phaseIncrement[6] := ShiftRight(top, 6);
      OctavesOf(top);
      assert phaseIncrement[..] == OctaveStack(top);
    }

    /** `setMasterNote`: the frequency of note `96 + note`, as given by the
        note-to-frequency conversion. */
    method SetMasterNote(note: int16, noteToFrequency: int16 -> uint32)
      requires Valid()
      modifies phaseIncrement
      ensures phaseIncrement[0] == PhaseIncrementFor(noteToFrequency(BiasedNote(note)), numTableCells, updateRate)
      ensures IncrementsAreOctaves()
      ensures unchanged(phase) && unchanged(gain1) && unchanged(gain2)
    {
      SetMasterFrequency(noteToFrequency(BiasedNote(note)));
    }

    /** `setMasterNoteShifted`: as SetMasterNote, with the frequency bent by
        `shift`. */
    method SetMasterNoteShifted(note: int16, shift: int16, noteToFrequency: int16 -> uint32)
      requires Valid()
      modifies phaseIncrement
      ensures phaseIncrement[0] ==
        PhaseIncrementFor(ShiftedFrequency(noteToFrequency(BiasedNote(note)), shift), numTableCells, updateRate)
      ensures IncrementsAreOctaves()
      ensures unchanged(phase) && unchanged(gain1) && unchanged(gain2)
    {
      var frequency := noteToFrequency(BiasedNote(note));
      frequency := ShiftedFrequency(frequency, shift);
      SetMasterFrequency(frequency);
    }

    /** `setGains`: drawbar levels g0 (lowest) .. g6 (highest) and the mix
        between the table sets. Harmonic i takes level g(6-i). Inputs in
        the documented ranges make the gains safe. */
    method SetGains(g0: uint16, g1: uint16, g2: uint16, g3: uint16, g4: uint16, g5: uint16, g6: uint16, mix: uint16)
      requires Valid()
      modifies gain1, gain2
      ensures gain1[..] == DrawbarGains([g0, g1, g2, g3, g4, g5, g6], Scale1(mix))
      ensures gain2[..] == DrawbarGains([g0, g1, g2, g3, g4, g5, g6], Scale2(mix))
      ensures GainInputsInRange([g0, g1, g2, g3, g4, g5, g6], mix) ==> GainsSafe()
      ensures unchanged(phase) && unchanged(phaseIncrement)
    {
      var scale1, scale2 := Scale1(mix), Scale2(mix);
      gain1[0] := GainOf(g6, scale1);
      gain2[0] := GainOf(g6, scale2);
      gain1[1] := GainOf(g5, scale1);
      gain2[1] := GainOf(g5, scale2);
      gain1[2] := GainOf(g4, scale1);
      gain2[2] := GainOf(g4, scale2);
      gain1[3] := GainOf(g3, scale1);
      gain2[3] := GainOf(g3, scale2);
      gain1[4] := GainOf(g2, scale1);
      gain2[4] := GainOf(g2, scale2);
      gain1[5] := GainOf(g1, scale1);
      gain2[5] := GainOf(g1, scale2);
      gain1[6] := GainOf(g0, scale1);
      gain2[6] := GainOf(g0, scale2);
      ghost var levels := [g0, g1, g2, g3, g4, g5, g6];
      GainsMatch(gain1[..], levels, scale1);
      GainsMatch(gain2[..], levels, scale2);
      if GainInputsInRange(levels, mix) {
        DrawbarGainsWithinBudget(levels, mix);
      }
    }
  }
}
