/** The PVTPLL calibration loop of the CRU. The oscillator is any function from the
    lengths written so far to the next reading, so it may answer anything. */
module Pvtpll {
  import opened Basics

  /** A target rate is a positive C int. */
  type Target = x: int | 0 < x < 0x8000_0000 witness 1

  /** What the count register reads after these writes. */
  type Oscillator = seq<U32> -> U32

  /** The kernel's `abs` of an unsigned difference: taken as a signed int, whose
      most negative value is its own `abs`. */
  function AbsDiff(a: U32, b: U32): int {
    var d := (a - b) % WRAP;
    if d < 0x8000_0000 then d else if d == 0x8000_0000 then -d else WRAP - d
  }

  /** 3.125% of the target. */
  function Margin(target: Target): int { target / 32 }

  predicate InBand(rate: U32, target: Target) { AbsDiff(rate, target) < Margin(target) }

  /** In plain numbers: within a 32nd of the target on either side, or exactly 2^31 above
      it. */
  lemma InBandIs(rate: U32, target: Target)
    ensures InBand(rate, target) <==>
            || 32 * ((if rate >= target then rate - target else target - rate) + 1) <= target
            || rate == target + 0x8000_0000
  {}

  /** The first test, on unsigned numbers. */
  predicate Fast(rate: U32, target: Target) { rate >= target && rate - target >= Margin(target) }

  /** The second test, through `abs`. */
  predicate StillFast(rate: U32, target: Target) { rate >= target && !InBand(rate, target) }

  /** The slope the code assumes after its probe step. */
  function Slope(rate0: U32, rate1: U32): (s: int)
    ensures s >= 5
  {
    if rate1 < rate0 && rate0 - rate1 > 5 then rate0 - rate1 else 5
  }

  /** Every write after the second follows a reading out of band, and is one more than
      the last if that reading was above the target, one less otherwise. */
  predicate Corrects(osc: Oscillator, writes: seq<U32>, target: Target) {
    forall i | 2 <= i < |writes| :: Corrected(osc, writes, target, i)
  }

  predicate Corrected(osc: Oscillator, writes: seq<U32>, target: Target, i: nat)
    requires 0 < i < |writes|
  {
    var rate := osc(writes[..i]);
    !InBand(rate, target) && OneStep(writes[i - 1], writes[i], rate > target)
  }

  predicate OneStep(a: int, b: int, up: bool) { b == if up then a + 1 else a - 1 }

  lemma CorrectsSnoc(osc: Oscillator, writes: seq<U32>, target: Target, length: U32)
    requires Corrects(osc, writes, target) && |writes| >= 2 && !InBand(osc(writes), target)
    requires OneStep(writes[|writes| - 1], length, osc(writes) > target)
    ensures Corrects(osc, writes + [length], target)
  {
    hide InBand;
    var more := writes + [length];
    assert more[..|writes|] == writes;
    forall i | 2 <= i < |more| ensures Corrected(osc, more, target, i) {
      if i < |writes| {
        assert more[..i] == writes[..i];
        assert Corrected(osc, writes, target, i);
      }
    }
  }

  predicate Above(writes: seq<U32>, ori: int) { forall i | 0 <= i < |writes| :: writes[i] > ori }

  /** The closing loop: one step up or down per reading, until in band, or 21 steps,
      or the next step would fall back to the original length. */
  method Settle(osc: Oscillator, jump: seq<U32>, ori: U32, target: Target) returns (writes: seq<U32>)
    requires |jump| == 2 && ori < 0x80 && Above(jump, ori) && jump[1] < 0x4000_0000
    ensures jump <= writes && |writes| <= 23 && Above(writes, ori) && Corrects(osc, writes, target)
    ensures || InBand(osc(writes), target)
            || |writes| == 23
            || (writes[|writes| - 1] == ori + 1 && osc(writes) <= target)
    ensures InBand(osc(jump), target) ==> writes == jump
  {
    writes := jump;
    var length: U32 := jump[1];
    var rate0 := osc(writes);
    var i: nat := 0;
    while AbsDiff(rate0, target) >= target / 32
      invariant jump <= writes && |writes| == i + 2 && i <= 21
      invariant Above(writes, ori) && Corrects(osc, writes, target)
      invariant writes[|writes| - 1] == length && length < 0x4000_0000 + i && rate0 == osc(writes)
      invariant InBand(osc(jump), target) ==> writes == jump
      decreases 22 - i
    {
      if i > 20 {
        break;
      }
      if rate0 > target {
        length := length + 1;
      } else {
        length := length - 1;
      }
      if length <= ori {
        break;
      }
      i := i + 1;
      CorrectsSnoc(osc, writes, target, length);
      writes := writes + [length];
      rate0 := osc(writes);
    }
  }

  /** What a calibration may have written: at most 23 lengths, all above the original
      one; first a probe of one step if the clock is fast, then, if it still is, a jump
      by the measured slope, then single steps towards the target until in band, out of
      patience, or about to fall back to the original length. */
  predicate Outcome(osc: Oscillator, lengthReg: U32, target: Target, writes: seq<U32>) {
    var ori: U32 := lengthReg % 0x80;
    && |writes| <= 23 && Above(writes, ori) && Corrects(osc, writes, target)
    && (writes != [] <==> Fast(osc([]), target))
    && (writes != [] ==> writes[0] == ori + 1)
    && (|writes| >= 2 <==> Fast(osc([]), target) && StillFast(osc([ori + 1]), target))
    && (|writes| >= 2 ==>
          && writes[1] == writes[0] + (osc(writes[..1]) - target) / Slope(osc([]), osc(writes[..1]))
          && (InBand(osc(writes[..2]), target) ==> |writes| == 2)
          && (|| InBand(osc(writes), target)
              || |writes| == 23
              || (writes[|writes| - 1] == ori + 1 && osc(writes) <= target)))
  }

  /** `_cru_pvtpll_calibrate`. The result is the values of `length` written, in order:
      a probe step, a jump, then the closing loop. */
  method Calibrate(osc: Oscillator, lengthReg: U32, target: Target) returns (writes: seq<U32>)
    ensures Outcome(osc, lengthReg, target, writes)
  {
    var rate0 := osc([]);
    if rate0 < target {
      return [];
    }
    if rate0 - target < target / 32 {
      return [];
    }
    var lengthOri: U32 := lengthReg % 0x80;
    var length: U32 := lengthOri + 1;
    var probe: seq<U32> := [length];
    var rate1 := osc(probe);
    if rate1 < target {
      return probe;
    }
    if AbsDiff(rate1, target) < target / 32 {
      return probe;
    }
    var step := if rate1 < rate0 then rate0 - rate1 else 5;
    step := if step < 5 then 5 else step;
    var delta := rate1 - target;
    Quotient(delta, step, delta / step);
    length := length + delta / step;
    var jump := probe + [length];
    writes := Settle(osc, jump, lengthOri, target);
    assert writes[..1] == probe && writes[..2] == jump;
  }

  lemma Quotient(delta: nat, step: int, q: int)
    requires step >= 5 && q == delta / step
    ensures q >= 0 && 5 * q <= delta
  {
    QuotientNonneg(delta, step);
    assert step * q <= delta;
    Scales(q, step);
  }

  lemma Scales(q: nat, step: int)
    requires step >= 5
    ensures 5 * q <= step * q
  {
    NonNegative(step - 5, q);
    assert (step - 5) * q == step * q - 5 * q;
  }

  lemma QuotientNonneg(delta: nat, step: int)
    requires step > 0
    ensures delta / step >= 0
  {}

  /** The same in plain numbers: nothing is written unless the clock is a 32nd or more
      too fast; the probe is one longer; the run goes on from it unless the probe reads
      below the target or in band; the jump is the excess over the measured slope,
      taken as 5 at least. */
  lemma CalibrationIs(osc: Oscillator, lengthReg: U32, target: Target, writes: seq<U32>)
    requires Outcome(osc, lengthReg, target, writes)
    ensures writes == [] <==> 32 * (osc([]) - target + 1) <= target
    ensures writes != [] ==> writes[0] == lengthReg % 0x80 + 1
    ensures |writes| == 1 ==> osc(writes) < target || InBand(osc(writes), target)
    ensures |writes| >= 2 ==>
              && osc(writes[..1]) >= target && !InBand(osc(writes[..1]), target)
              && var drop := osc([]) - osc(writes[..1]);
                 writes[1] == writes[0] + (osc(writes[..1]) - target) / (if drop > 5 then drop else 5)
    ensures forall i | 2 <= i < |writes| ::
              && !InBand(osc(writes[..i]), target)
              && OneStep(writes[i - 1], writes[i], osc(writes[..i]) > target)
  {
    hide InBand;
    if writes != [] {
      assert [lengthReg % 0x80 + 1] == writes[..1];
      if |writes| == 1 {
        assert writes[..1] == writes;
      }
    }
    forall i | 2 <= i < |writes|
      ensures !InBand(osc(writes[..i]), target)
      ensures OneStep(writes[i - 1], writes[i], osc(writes[..i]) > target)
    {
      assert Corrected(osc, writes, target, i);
    }
  }

  // ----- an oscillator that slows by `slope` per unit of length

  /** The field that a write of `length` leaves in the register. */
  function Field(length: U32): int { length % 0x80 }

  /** Its reading at that field, if it reads `rate` at field `ori`. */
  function Reading(ori: int, rate: U32, slope: int, length: U32): int { rate - slope * (Field(length) - ori) }

  /** The oscillator reads on that line, down to zero; its fastest reading fits the
      counter. */
  ghost predicate Linear(osc: Oscillator, ori: int, rate: U32, slope: int) {
    && osc([]) == rate && rate + slope * ori < WRAP
    && forall w: seq<U32> | w != [] && Reading(ori, rate, slope, w[|w| - 1]) >= 0 ::
         osc(w) == Reading(ori, rate, slope, w[|w| - 1])
  }

  /** The code stops at a reading this much above the target: within the margin, or at
      the one excess that `abs` takes for a hit. */
  predicate Hit(excess: int, target: Target) { excess < Margin(target) || excess == 0x8000_0000 }

  lemma BandAbove(rate: U32, target: Target)
    requires target <= rate
    ensures InBand(rate, target) <==> Hit(rate - target, target)
  {}

  lemma LinearAt(osc: Oscillator, ori: int, rate: U32, slope: int, w: seq<U32>)
    requires Linear(osc, ori, rate, slope) && w != [] && Reading(ori, rate, slope, w[|w| - 1]) >= 0
    ensures osc(w) == Reading(ori, rate, slope, w[|w| - 1])
  {}

  /** The next length reads one slope less, or, past the end of the field, the most. */
  lemma NextReading(ori: int, rate: U32, slope: int, length: U32)
    requires 0 <= ori && slope >= 0 && length + 1 < WRAP
    ensures
      var next := Reading(ori, rate, slope, length + 1);
      next == Reading(ori, rate, slope, length) - slope || next >= rate
  {
    if Field(length) == 0x7f {
      assert Field(length + 1) == 0;
      NonNegative(slope, ori);
    } else {
      assert Field(length + 1) == Field(length) + 1;
    }
  }

  lemma NonNegative(a: int, b: int)
    requires a >= 0 && b >= 0
    ensures a * b >= 0 && a * (0 - b) == -(a * b)
  {}

  /** Where the jump goes. */
  function Jump(ori: int, target: Target, rate: U32, slope: int): int
    requires slope > 0
  {
    ori + 1 + (rate - slope - target) / slope
  }

  /** How far above the target it reads there: less than a slope, and one full field of
      slopes more for every time the length has gone around the field. */
  function Excess(target: Target, rate: U32, slope: int, jump: int): int
    requires slope > 0
  {
    (rate - slope - target) % slope + 0x80 * slope * (jump / 0x80)
  }

  lemma JumpReads(ori: int, target: Target, rate: U32, slope: int, jump: U32)
    requires 0 <= ori && slope > 0 && rate - slope >= target && jump == Jump(ori, target, rate, slope)
    ensures Reading(ori, rate, slope, jump) == target + Excess(target, rate, slope, jump)
    ensures Excess(target, rate, slope, jump) >= 0
    ensures jump < 0x80 ==> Excess(target, rate, slope, jump) < slope
  {
    var delta := rate - slope - target;
    var q, rest, k := delta / slope, delta % slope, jump / 0x80;
    assert delta == slope * q + rest;
    assert Field(jump) - ori == 1 + q - 0x80 * k;
    Distribute(slope, q, k);
    NonNegative(slope, k);
  }

  lemma Distribute(slope: int, q: int, k: int)
    ensures slope * (1 + q - 0x80 * k) == slope + slope * q - 0x80 * slope * k
  {}

  /** From a jump that reads no less than the target the closing loop only climbs. */
  lemma {:induction false} Climbs(osc: Oscillator, ori: int, target: Target, rate: U32, slope: int, writes: seq<U32>, i: nat)
    requires Linear(osc, ori, rate, slope) && Corrects(osc, writes, target)
    requires 0 <= ori && 5 <= slope <= Margin(target) && rate >= target
    requires 1 <= i < |writes| && Reading(ori, rate, slope, writes[1]) >= target
    ensures writes[i] == writes[1] + i - 1
    ensures osc(writes[..i + 1]) == Reading(ori, rate, slope, writes[i]) >= target
    decreases i
  {
    hide Linear, Reading, InBand;
    if i > 1 {
      Climbs(osc, ori, target, rate, slope, writes, i - 1);
      assert Corrected(osc, writes, target, i);
      BandAbove(osc(writes[..i]), target);
      NextReading(ori, rate, slope, writes[i - 1]);
    }
    LinearAt(osc, ori, rate, slope, writes[..i + 1]);
  }

  /** The `k`-th length tried after the jump stops the calibration. */
  predicate HitAt(ori: int, target: Target, rate: U32, slope: int, jump: U32, k: nat) {
    jump + k < WRAP && Hit(Reading(ori, rate, slope, jump + k) - target, target)
  }

  lemma TriedAt(osc: Oscillator, ori: int, target: Target, rate: U32, slope: int, writes: seq<U32>, i: nat)
    requires Linear(osc, ori, rate, slope) && Corrects(osc, writes, target)
    requires 0 <= ori && 5 <= slope <= Margin(target) && rate >= target
    requires 1 <= i < |writes| && Reading(ori, rate, slope, writes[1]) >= target
    ensures osc(writes[..i + 1]) >= target
    ensures InBand(osc(writes[..i + 1]), target) <==> HitAt(ori, target, rate, slope, writes[1], i - 1)
  {
    hide Linear, Reading, InBand, Hit, Corrects;
    Climbs(osc, ori, target, rate, slope, writes, i);
    BandAbove(osc(writes[..i + 1]), target);
  }

  /** How a calibration that jumped may have ended. */
  predicate Ended(osc: Oscillator, target: Target, writes: seq<U32>) {
    && 2 <= |writes| <= 23 && Corrects(osc, writes, target)
    && (InBand(osc(writes[..2]), target) ==> |writes| == 2)
    && (InBand(osc(writes), target) || |writes| == 23 || osc(writes) <= target)
  }

  /** It ends in band exactly when one of the 22 lengths from the jump on is a hit. */
  lemma LoopEndsInBandIff(osc: Oscillator, ori: int, target: Target, rate: U32, slope: int, writes: seq<U32>)
    requires Ended(osc, target, writes)
    requires Linear(osc, ori, rate, slope) && 0 <= ori && 5 <= slope <= Margin(target) && rate >= target
    requires Reading(ori, rate, slope, writes[1]) >= target
    ensures osc(writes) >= target
    ensures InBand(osc(writes), target) <==> exists k | 0 <= k <= 21 :: HitAt(ori, target, rate, slope, writes[1], k)
    ensures HitAt(ori, target, rate, slope, writes[1], 0) ==> |writes| == 2
  {
    hide Linear, Reading, InBand, HitAt, Corrects;
    var n := |writes| - 1;
    assert writes[..n + 1] == writes;
    TriedAt(osc, ori, target, rate, slope, writes, n);
    TriedAt(osc, ori, target, rate, slope, writes, 1);
    if InBand(osc(writes), target) {
      assert HitAt(ori, target, rate, slope, writes[1], n - 1);
    } else {
      assert osc(writes) != target by { InBandIs(target, target); }
      assert n == 22;
      forall k | 0 <= k <= 21 ensures !HitAt(ori, target, rate, slope, writes[1], k) {
        TriedAt(osc, ori, target, rate, slope, writes, k + 1);
        if k < 21 {
          CorrectedAt(osc, writes, target, k + 2);
        }
      }
    }
  }

  lemma CorrectedAt(osc: Oscillator, writes: seq<U32>, target: Target, i: nat)
    requires Corrects(osc, writes, target) && 2 <= i < |writes|
    ensures !InBand(osc(writes[..i]), target)
  {
    assert Corrected(osc, writes, target, i);
  }

  /** On a linear oscillator with a slope between 5 and the margin, from any length but
      the last: the calibration acts when the reading is the margin or more above the
      target; it stops at its probe if that is a hit; otherwise it jumps, and ends in
      band exactly when one of the 22 lengths from there on is a hit. A jump within the
      7-bit field is one, with no closing steps. */
  lemma LinearConverges(osc: Oscillator, lengthReg: U32, target: Target, rate: U32, slope: int, writes: seq<U32>)
    requires Outcome(osc, lengthReg, target, writes)
    requires Linear(osc, lengthReg % 0x80, rate, slope)
    requires 5 <= slope <= Margin(target) && lengthReg % 0x80 < 0x7f
    ensures
      var ori: U32 := lengthReg % 0x80;
      var jump := Jump(ori, target, rate, slope);
      && (writes == [] <==> rate < target + Margin(target))
      && (|writes| == 1 <==> rate >= target + Margin(target) && Hit(rate - slope - target, target))
      && (|writes| == 1 ==> osc(writes) == rate - slope)
      && (|writes| >= 2 ==>
            && writes[1] == jump && osc(writes) >= target
            && Reading(ori, rate, slope, jump) == target + Excess(target, rate, slope, jump)
            && (InBand(osc(writes), target) <==> exists k | 0 <= k <= 21 :: HitAt(ori, target, rate, slope, jump, k))
            && (HitAt(ori, target, rate, slope, jump, 0) ==> |writes| == 2)
            && (jump < 0x80 ==> |writes| == 2 && osc(writes) < target + slope))
  {
    var ori: U32 := lengthReg % 0x80;
    assert osc([]) == rate;
    hide Linear, InBand, Corrects, Above, HitAt, Reading, Excess, Jump, Slope;
    if rate >= target + Margin(target) {
      var probe: seq<U32> := [ori + 1];
      ProbeReads(osc, ori, rate, slope, probe);
      BandAbove(osc(probe), target);
      if |writes| == 1 {
        assert writes == probe;
      } else {
        assert writes[..1] == probe;
        var jump := writes[1];
        JumpIsMeasured(ori, target, rate, slope, jump);
        JumpReads(ori, target, rate, slope, jump);
        JumpConverges(osc, ori, target, rate, slope, writes, Excess(target, rate, slope, jump));
      }
    }
  }

  /** The slope the code measures on a line is the line's. */
  lemma JumpIsMeasured(ori: int, target: Target, rate: U32, slope: int, jump: U32)
    requires 5 <= slope <= rate && jump == ori + 1 + (rate - slope - target) / Slope(rate, rate - slope)
    ensures jump == Jump(ori, target, rate, slope)
  {
    assert Slope(rate, rate - slope) == slope;
  }

  lemma ProbeReads(osc: Oscillator, ori: int, rate: U32, slope: int, probe: seq<U32>)
    requires Linear(osc, ori, rate, slope) && 0 <= ori < 0x7f && rate >= slope && probe == [ori + 1]
    ensures osc(probe) == rate - slope
  {
    hide Linear, Reading;
    OneLonger(ori, rate, slope);
    LinearAt(osc, ori, rate, slope, probe);
  }

  lemma OneLonger(ori: int, rate: U32, slope: int)
    requires 0 <= ori < 0x7f
    ensures Reading(ori, rate, slope, ori + 1) == rate - slope
  {
    assert Field(ori + 1) - ori == 1;
  }

  lemma JumpConverges(osc: Oscillator, ori: int, target: Target, rate: U32, slope: int, writes: seq<U32>, excess: nat)
    requires Linear(osc, ori, rate, slope) && 0 <= ori && 5 <= slope <= Margin(target) && rate >= target
    requires Ended(osc, target, writes) && Reading(ori, rate, slope, writes[1]) == target + excess
    ensures
      && osc(writes) >= target
      && (InBand(osc(writes), target) <==> exists k | 0 <= k <= 21 :: HitAt(ori, target, rate, slope, writes[1], k))
      && (HitAt(ori, target, rate, slope, writes[1], 0) ==> |writes| == 2)
      && (excess < slope ==> |writes| == 2 && osc(writes) == target + excess)
  {
    hide Linear, InBand, Reading;
    LoopEndsInBandIff(osc, ori, target, rate, slope, writes);
    if excess < slope {
      assert HitAt(ori, target, rate, slope, writes[1], 0);
      LinearAt(osc, ori, rate, slope, writes);
    }
  }

  /** From the last length of the field nothing helps: whatever is written, the
      oscillator reads no less than before. */
  lemma LastLengthNeverConverges(osc: Oscillator, lengthReg: U32, target: Target, rate: U32, slope: int, writes: seq<U32>)
    requires Outcome(osc, lengthReg, target, writes) && writes != []
    requires Linear(osc, lengthReg % 0x80, rate, slope) && slope >= 0 && lengthReg % 0x80 == 0x7f
    ensures osc(writes) >= rate >= target + Margin(target)
  {
    NonNegative(slope, 0x7f - Field(writes[|writes| - 1]));
    LinearAt(osc, 0x7f, rate, slope, writes);
  }
}
