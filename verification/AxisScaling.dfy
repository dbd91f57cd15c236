/**
 Axis calibration, scaling and direction of the evdev input code, and the readings that the
 mapping wizard accepts (src/input/evdev.c).
 */
module AxisScaling {
  import opened CTypes
  import opened Options

  datatype AbsParms = AbsParms(min: int, max: int, flat: int, avg: int, range: int, diff: int)

  function InitParms(min: int, max: int, flat: int): (p: AbsParms)
  {
    var avg := TruncDiv(min + max, 2);
    AbsParms(min, max, flat, avg, max - avg, max - min)
  }

  /** The centre is the middle of the range, rounded towards zero; the half range reaches from there to its end. */
  lemma ParmsExactly(min: int, max: int, flat: int)
    ensures var p := InitParms(min, max, flat);
      && p.min == min && p.max == max && p.flat == flat && p.diff == max - min && p.range == max - p.avg
      && (min + max >= 0 ==> 0 <= min + max - 2 * p.avg <= 1)
      && (min + max <= 0 ==> -1 <= min + max - 2 * p.avg <= 0)
  {
  }

  /** The width of the scale once the dead zone is cut out: the divisor of the scaling. */
  function Width(p: AbsParms): int {
    p.max - p.min - p.flat * 2
  }

  /** `None` is the division by zero of a calibration without any width. */
  function ConvertValue(v: int, p: AbsParms, reverse: bool): Option<short> {
    if Abs(v - p.avg) < p.flat then Some(0)
    else if v > p.max then Some(if reverse then SHRT_MIN else SHRT_MAX)
    else if v < p.min then Some(if reverse then SHRT_MAX else SHRT_MIN)
    else if Width(p) == 0 then None
    else if reverse then
      Some(ToShort(
        TruncDiv((p.max - (if v < p.avg then p.flat * 2 else 0) - v) * (SHRT_MAX - SHRT_MIN), Width(p)) + SHRT_MIN))
    else
      Some(ToShort(
        TruncDiv((v - (if v > p.avg then p.flat * 2 else 0) - p.min) * (SHRT_MAX - SHRT_MIN), Width(p)) + SHRT_MIN))
  }

  function ConvertByte(v: int, p: AbsParms): Option<byte> {
    if Abs(v - p.min) < p.flat then Some(0)
    else if v > p.max then Some(UCHAR_MAX)
    else if p.diff - p.flat == 0 then None
    else Some(ToByte(TruncDiv((v - p.flat - p.min) * UCHAR_MAX, p.diff - p.flat)))
  }

  function ConvertDirection(v: int, p: AbsParms, reverse: bool): int {
    if v > p.avg + TruncDiv(p.range, 4) then (if reverse then -1 else 1)
    else if v < p.avg - TruncDiv(p.range, 4) then (if reverse then 1 else -1)
    else 0
  }

  /** What the wizard makes of a reading: the reverse flag it records, or nothing. */
  function WizardReverse(v: int, p: AbsParms): Option<bool> {
    if v > p.avg + TruncDiv(p.range, 2) then Some(false)
    else if v < p.avg - TruncDiv(p.range, 2) then Some(true)
    else None
  }

  /** The calibrations as they come from a device, whatever its dead zone. */
  ghost predicate Initialised(p: AbsParms) {
    p == InitParms(p.min, p.max, p.flat) && p.min <= p.max && p.flat >= 0
  }

  /** Those with some width left outside the dead zone. */
  ghost predicate Calibrated(p: AbsParms) {
    p == InitParms(p.min, p.max, p.flat) && p.flat >= 0 && Width(p) > 0
  }

  lemma InitialisedAre(min: int, max: int, flat: int)
    ensures Initialised(InitParms(min, max, flat)) <==> min <= max && flat >= 0
    ensures Calibrated(InitParms(min, max, flat)) <==> max - min > 2 * flat >= 0
  {
  }

  ghost predicate InDeadZone(v: int, p: AbsParms) {
    Abs(v - p.avg) < p.flat
  }

  /** The position of a reading on the scale 0..Width, with the dead zone cut out. */
  function Position(v: int, p: AbsParms): int {
    if v < p.min then 0
    else if v > p.max then Width(p)
    else if v > p.avg then v - p.flat * 2 - p.min
    else v - p.min
  }

  lemma CentreInside(p: AbsParms)
    requires Calibrated(p)
    ensures p.min <= p.avg - p.flat && p.avg + p.flat <= p.max
  {
  }

  lemma PositionInScale(v: int, p: AbsParms)
    requires Calibrated(p) && !InDeadZone(v, p)
    ensures 0 <= Position(v, p) <= Width(p)
  {
    CentreInside(p);
  }

  /**
   Outside the dead zone the scaling is the one affine map of the position onto the full range of
   a short, rounded down; reversing replaces the position by its complement. No branch of the code
   overflows the short it returns.
   */
  lemma ScalesPosition(v: int, p: AbsParms)
    requires Calibrated(p) && !InDeadZone(v, p)
    ensures 0 <= Position(v, p) <= Width(p)
    ensures 0 <= Position(v, p) * 65535 / Width(p) <= 65535
    ensures 0 <= (Width(p) - Position(v, p)) * 65535 / Width(p) <= 65535
    ensures ConvertValue(v, p, false) == Some(Position(v, p) * 65535 / Width(p) - 32768)
    ensures ConvertValue(v, p, true) == Some((Width(p) - Position(v, p)) * 65535 / Width(p) - 32768)
  {
    ScalesForward(v, p);
    ScalesReversed(v, p);
  }

  lemma ScalesForward(v: int, p: AbsParms)
    requires Calibrated(p) && !InDeadZone(v, p)
    ensures 0 <= Position(v, p) <= Width(p) && 0 <= Position(v, p) * 65535 / Width(p) <= 65535
    ensures ConvertValue(v, p, false) == Some(Position(v, p) * 65535 / Width(p) - 32768)
  {
    PositionInScale(v, p);
    ScaledBounds(Position(v, p), Width(p));
  }

  lemma ScalesReversed(v: int, p: AbsParms)
    requires Calibrated(p) && !InDeadZone(v, p)
    ensures 0 <= (Width(p) - Position(v, p)) * 65535 / Width(p) <= 65535
    ensures ConvertValue(v, p, true) == Some((Width(p) - Position(v, p)) * 65535 / Width(p) - 32768)
  {
    PositionInScale(v, p);
    ScaledBounds(Width(p) - Position(v, p), Width(p));
  }

  /** The numerator of the scaling for a reading within the range, before it is multiplied. */
  function Numerator(v: int, p: AbsParms, reverse: bool): int {
    var up := v - p.min - if v > p.avg then 2 * p.flat else 0;
    if reverse then Width(p) - up else up
  }

  /**
   For every dead zone, a reading scales to 0 exactly if it is less than the dead zone from the centre, or
   within the range and exactly so far up the scale that its quotient is half of 65536.
   */
  lemma ReadsZeroExactly(v: int, p: AbsParms, reverse: bool)
    requires Initialised(p)
    ensures ConvertValue(v, p, reverse) == Some(0)
       <==> || p.avg - p.flat < v < p.avg + p.flat
            || (p.min <= v <= p.max
                && 32768 * Width(p) <= 65535 * Numerator(v, p, reverse) < 32769 * Width(p))
  {
    if InDeadZone(v, p) {
    } else if Width(p) > 0 {
      ScaledIsZeroExactly(v, p, reverse);
    } else if ConvertValue(v, p, reverse).Some? {
      FilledRangeValue(v, p, reverse);
      if p.min <= v <= p.max { OverfilledWidth(v, p); }
    }
  }

  lemma OverfilledWidth(v: int, p: AbsParms)
    requires Initialised(p) && Width(p) <= 0 && p.min <= v <= p.max && !InDeadZone(v, p)
    requires ConvertValue(v, p, false).Some? || ConvertValue(v, p, true).Some?
    ensures Width(p) == -1
  {
    OverfilledRangeEnds(v, p);
  }

  lemma ScaledIsZeroExactly(v: int, p: AbsParms, reverse: bool)
    requires Calibrated(p) && !InDeadZone(v, p)
    ensures ConvertValue(v, p, reverse) == Some(0)
       <==> p.min <= v <= p.max && 32768 * Width(p) <= 65535 * Numerator(v, p, reverse) < 32769 * Width(p)
  {
    if v <= p.min || v >= p.max { EndsAreExtremes(v, p); }
    if p.min <= v <= p.max {
      ValueAt(v, p, reverse, Numerator(v, p, reverse));
      QuotientAtLeast(Numerator(v, p, reverse) * 65535, Width(p), 32768);
      QuotientAtLeast(Numerator(v, p, reverse) * 65535, Width(p), 32769);
    }
  }

  lemma ScaledBounds(n: int, w: int)
    requires 0 <= n <= w && w > 0
    ensures 0 <= n * 65535 / w <= 65535
    ensures n == 0 ==> n * 65535 / w == 0
    ensures n == w ==> n * 65535 / w == 65535
  {
    QuotientAtLeast(n * 65535, w, 0);
    QuotientAtLeast(n * 65535, w, 65535);
    QuotientAtLeast(n * 65535, w, 65536);
  }

  lemma ScaledMonotone(m: int, n: int, w: int)
    requires m <= n && w > 0
    ensures m * 65535 / w <= n * 65535 / w
  {
    QuotientBounds(m * 65535, w);
    QuotientAtLeast(n * 65535, w, m * 65535 / w);
  }

  /** The ends of the range, and every reading beyond them, give the extremes of a short. */
  lemma EndsAreExtremes(v: int, p: AbsParms)
    requires Calibrated(p)
    ensures v <= p.min ==> ConvertValue(v, p, false) == Some(-32768) && ConvertValue(v, p, true) == Some(32767)
    ensures v >= p.max ==> ConvertValue(v, p, false) == Some(32767) && ConvertValue(v, p, true) == Some(-32768)
  {
    CentreInside(p);
    if v <= p.min || v >= p.max {
      ScalesPosition(v, p);
      ScaledBounds(Position(v, p), Width(p));
      ScaledBounds(Width(p) - Position(v, p), Width(p));
    }
  }

  /** Outside the dead zone scaling is monotone, and antitone when reversed, also from one side to the other. */
  lemma MonotoneOutsideDeadZone(v: int, w: int, p: AbsParms)
    requires Calibrated(p) && v <= w && !InDeadZone(v, p) && !InDeadZone(w, p)
    ensures ConvertValue(v, p, false).Some? && ConvertValue(w, p, false).Some?
    ensures ConvertValue(v, p, true).Some? && ConvertValue(w, p, true).Some?
    ensures ConvertValue(v, p, false).value <= ConvertValue(w, p, false).value
    ensures ConvertValue(v, p, true).value >= ConvertValue(w, p, true).value
  {
    ScalesPosition(v, p);
    ScalesPosition(w, p);
    CentreInside(p);
    ScaledMonotone(Position(v, p), Position(w, p), Width(p));
    ScaledMonotone(Width(p) - Position(w, p), Width(p) - Position(v, p), Width(p));
  }

  /** A reversed axis is the mirror of the plain one; the sum is -1 where the scale is hit exactly, else -2. */
  lemma ReversalMirrors(v: int, p: AbsParms)
    requires Calibrated(p) && !InDeadZone(v, p)
    ensures ConvertValue(v, p, false).Some? && ConvertValue(v, p, true).Some?
    ensures ConvertValue(v, p, false).value + ConvertValue(v, p, true).value
         == if Position(v, p) * 65535 % Width(p) == 0 then -1 else -2
  {
    ScalesPosition(v, p);
    ComplementQuotient(Position(v, p), Width(p));
  }

  lemma ComplementQuotient(n: int, w: int)
    requires 0 <= n <= w && w > 0
    ensures n * 65535 / w + (w - n) * 65535 / w == if n * 65535 % w == 0 then 65535 else 65534
  {
    var q, r := n * 65535 / w, n * 65535 % w;
    assert n * 65535 == w * q + r;
    assert (w - n) * 65535 == w * (65535 - q) - r;
    if r == 0 {
      QuotientAtLeast((w - n) * 65535, w, 65535 - q);
      QuotientAtLeast((w - n) * 65535, w, 65536 - q);
      assert (65536 - q) * w == w * (65535 - q) + w;
    } else {
      QuotientAtLeast((w - n) * 65535, w, 65535 - q);
      QuotientAtLeast((w - n) * 65535, w, 65534 - q);
      assert (65534 - q) * w == w * (65535 - q) - w;
    }
  }

  /** The position of both rims of the dead zone: half the scale, rounded with the centre. */
  function RimPosition(p: AbsParms, reverse: bool): int {
    if reverse then p.max - p.avg - p.flat else p.avg - p.flat - p.min
  }

  lemma RimsAtPosition(p: AbsParms, reverse: bool)
    requires Calibrated(p)
    ensures !InDeadZone(p.avg - p.flat, p) && !InDeadZone(p.avg + p.flat, p)
    ensures Position(p.avg - p.flat, p) == Position(p.avg + p.flat, p)
    ensures RimPosition(p, reverse)
         == if reverse then Width(p) - Position(p.avg + p.flat, p) else Position(p.avg + p.flat, p)
  {
    CentreInside(p);
  }

  lemma RimValue(p: AbsParms, reverse: bool)
    requires Calibrated(p)
    ensures 0 <= RimPosition(p, reverse) * 65535 / Width(p) <= 65535
    ensures ConvertValue(p.avg - p.flat, p, reverse) == Some(RimPosition(p, reverse) * 65535 / Width(p) - 32768)
    ensures ConvertValue(p.avg + p.flat, p, reverse) == Some(RimPosition(p, reverse) * 65535 / Width(p) - 32768)
  {
    RimsAtPosition(p, reverse);
    ValueAt(p.avg - p.flat, p, reverse, RimPosition(p, reverse));
    ValueAt(p.avg + p.flat, p, reverse, RimPosition(p, reverse));
  }

  lemma ValueAt(v: int, p: AbsParms, reverse: bool, n: int)
    requires Calibrated(p) && !InDeadZone(v, p)
    requires n == if reverse then Width(p) - Position(v, p) else Position(v, p)
    ensures 0 <= n * 65535 / Width(p) <= 65535
    ensures ConvertValue(v, p, reverse) == Some(n * 65535 / Width(p) - 32768)
  {
    if reverse { ScalesReversed(v, p); } else { ScalesForward(v, p); }
  }

  /** The rim is at half the scale, or half a step beside it where the centre had to be rounded. */
  lemma RimAtHalf(p: AbsParms, reverse: bool)
    requires Calibrated(p)
    ensures 2 * RimPosition(p, reverse) == Width(p)
      + if (p.min + p.max) % 2 == 0 then 0 else if (p.min + p.max > 0) == reverse then 1 else -1
  {
  }

  /**
   The calibrations whose dead-zone rims scale to exactly 0: a medium-sized scale, and a centre
   rounded towards the end that scales to the positive extreme.
   */
  predicate RimIsZero(p: AbsParms, reverse: bool) {
    && (p.min + p.max > 0) == reverse
    && (p.min + p.max) % 2 == 1
    && 21845 < Width(p) <= 65535
  }

  lemma RimIsZeroExactly(p: AbsParms, reverse: bool)
    requires Calibrated(p)
    ensures RimIsZero(p, reverse) <==> RimPosition(p, reverse) * 65535 / Width(p) == 32768
  {
    RimAtHalf(p, reverse);
    QuotientAtLeast(RimPosition(p, reverse) * 65535, Width(p), 32768);
    QuotientAtLeast(RimPosition(p, reverse) * 65535, Width(p), 32769);
  }

  /** Larger readings give larger values, or smaller ones when reversed. */
  ghost predicate Monotone(p: AbsParms, reverse: bool) {
    forall v, w :: v <= w && ConvertValue(v, p, reverse).Some? && ConvertValue(w, p, reverse).Some?
      ==> InOrder(ConvertValue(v, p, reverse).value, ConvertValue(w, p, reverse).value, reverse)
  }

  predicate InOrder(a: int, b: int, reverse: bool) {
    if reverse then a >= b else a <= b
  }

  /**
   Over all readings, the dead zone included, scaling is monotone, and antitone when reversed,
   exactly for the calibrations without a dead zone, for those whose rims happen to scale to 0, and
   for those whose dead zone fills the range, where there is nothing between 0 and the extremes.
   */
  lemma MonotoneEverywhereExactly(p: AbsParms, reverse: bool)
    requires Initialised(p)
    ensures Monotone(p, reverse) <==> p.flat == 0 || RimIsZero(p, reverse) || Width(p) <= 0
  {
    if Width(p) <= 0 {
      FilledRangeIsMonotone(p, reverse);
    } else if p.flat > 0 && !RimIsZero(p, reverse) {
      RimJumps(p, reverse);
    } else {
      RimValue(p, reverse);
      RimIsZeroExactly(p, reverse);
      forall v, w | v <= w && ConvertValue(v, p, reverse).Some? && ConvertValue(w, p, reverse).Some?
        ensures InOrder(ConvertValue(v, p, reverse).value, ConvertValue(w, p, reverse).value, reverse)
      {
        AcrossZeroRims(v, w, p, reverse);
      }
    }
  }

  /** The rims of a dead zone scale alike, the centre to 0: scaling goes up and down again, or down and up. */
  lemma RimJumps(p: AbsParms, reverse: bool)
    requires Calibrated(p) && p.flat > 0 && !RimIsZero(p, reverse)
    ensures !Monotone(p, reverse)
  {
    RimValue(p, reverse);
    RimIsZeroExactly(p, reverse);
    assert ConvertValue(p.avg, p, reverse) == Some(0);
    assert p.avg - p.flat <= p.avg <= p.avg + p.flat;
  }

  /** In a range that the dead zone fills, what scales at all scales to 0 or, from an end on, to an extreme. */
  lemma FilledRangeIsMonotone(p: AbsParms, reverse: bool)
    requires Initialised(p) && Width(p) <= 0
    ensures Monotone(p, reverse)
  {
    forall v, w | v <= w && ConvertValue(v, p, reverse).Some? && ConvertValue(w, p, reverse).Some?
      ensures InOrder(ConvertValue(v, p, reverse).value, ConvertValue(w, p, reverse).value, reverse)
    {
      FilledRangeValue(v, p, reverse);
      FilledRangeValue(w, p, reverse);
    }
  }

  lemma FilledRangeValue(v: int, p: AbsParms, reverse: bool)
    requires Initialised(p) && Width(p) <= 0 && ConvertValue(v, p, reverse).Some?
    ensures ConvertValue(v, p, reverse).value
         == if InDeadZone(v, p) then 0 else if (v < p.avg) == reverse then SHRT_MAX else SHRT_MIN
  {
    if !InDeadZone(v, p) && p.min <= v <= p.max {
      OverfilledRangeEnds(v, p);
    }
  }

  /** A dead zone that overfills its range leaves out at most one reading of it, an end, and then by one step. */
  lemma OverfilledRangeEnds(v: int, p: AbsParms)
    requires Initialised(p) && Width(p) < 0 && p.min <= v <= p.max && !InDeadZone(v, p)
    ensures Width(p) == -1 && v != p.avg && v == if v < p.avg then p.min else p.max
  {
  }

  lemma AcrossZeroRims(v: int, w: int, p: AbsParms, reverse: bool)
    requires Calibrated(p) && v <= w
    requires p.flat == 0
      || (ConvertValue(p.avg - p.flat, p, reverse) == Some(0) && ConvertValue(p.avg + p.flat, p, reverse) == Some(0))
    ensures ConvertValue(v, p, reverse).Some? && ConvertValue(w, p, reverse).Some?
    ensures InOrder(ConvertValue(v, p, reverse).value, ConvertValue(w, p, reverse).value, reverse)
  {
    if InDeadZone(v, p) {
      if !InDeadZone(w, p) { MonotoneOutsideDeadZone(p.avg + p.flat, w, p); }
    } else if InDeadZone(w, p) {
      MonotoneOutsideDeadZone(v, p.avg - p.flat, p);
    } else {
      MonotoneOutsideDeadZone(v, w, p);
    }
  }

  /** With an even centre every dead zone leaves a jump: both rims scale to -1, reversed or not. */
  lemma EvenCentreRim(p: AbsParms, reverse: bool)
    requires Calibrated(p) && (p.min + p.max) % 2 == 0
    ensures ConvertValue(p.avg + p.flat, p, reverse) == Some(-1) == ConvertValue(p.avg - p.flat, p, reverse)
  {
    RimValue(p, reverse);
    RimAtHalf(p, reverse);
    QuotientAtLeast(RimPosition(p, reverse) * 65535, Width(p), 32767);
    QuotientAtLeast(RimPosition(p, reverse) * 65535, Width(p), 32768);
  }

  /** Scaling divides by zero exactly at the two end readings of a calibration whose dead zone fills its range. */
  lemma TrapsExactly(v: int, min: int, max: int, flat: int, reverse: bool)
    requires min <= max && flat >= 0
    ensures ConvertValue(v, InitParms(min, max, flat), reverse).None?
        <==> max - min == 2 * flat && (v == min || v == max)
  {
  }

  /** So does that of a trigger, for one whose dead zone fills its range, at its maximum and well below its minimum. */
  lemma TriggerTrapsExactly(v: int, min: int, max: int, flat: int)
    requires min <= max && flat >= 0
    ensures ConvertByte(v, InitParms(min, max, flat)).None? <==> max - min == flat && (v == max || v <= min - flat)
  {
  }

  /** A d-pad axis is centred within a quarter of its half range, both ends included; reversing swaps the directions. */
  lemma DirectionExactly(v: int, min: int, max: int, flat: int)
    requires min <= max
    ensures var p := InitParms(min, max, flat);
      && ConvertDirection(v, p, false) == (if 4 * Abs(v - p.avg) <= p.range then 0 else if v > p.avg then 1 else -1)
      && ConvertDirection(v, p, true) == -ConvertDirection(v, p, false)
  {
    QuotientAtLeast(InitParms(min, max, flat).range, 4, Abs(v - InitParms(min, max, flat).avg));
  }

  /** The wizard accepts a reading that is more than half the half range from the centre, on either side. */
  lemma WizardAcceptsExactly(v: int, min: int, max: int, flat: int)
    requires min <= max
    ensures var p := InitParms(min, max, flat);
      && (WizardReverse(v, p) == Some(false) <==> 2 * (v - p.avg) > p.range)
      && (WizardReverse(v, p) == Some(true) <==> 2 * (p.avg - v) > p.range)
  {
  }

  /** A reading that the wizard accepts for a direction gives direction 1 later, whatever the dead zone. */
  lemma WizardAgreesWithDirection(v: int, min: int, max: int, flat: int)
    requires min <= max
    requires WizardReverse(v, InitParms(min, max, flat)).Some?
    ensures ConvertDirection(v, InitParms(min, max, flat), WizardReverse(v, InitParms(min, max, flat)).value) == 1
  {
  }

  // ---- the wizard and the scaling ----

  /** A third of full deflection, in the direction that the wizard asked for. */
  predicate Deflects(v: int, p: AbsParms, reverse: bool) {
    ConvertValue(v, p, reverse).Some? && ConvertValue(v, p, reverse).value >= 10922
  }

  /** Every reading that the wizard accepts deflects later, under the reverse flag recorded for it. */
  ghost predicate WizardAgrees(p: AbsParms) {
    forall v :: WizardReverse(v, p).Some? ==> Deflects(v, p, WizardReverse(v, p).value)
  }

  /**
   The dead zones with which the wizard and the scaling agree. The excess is how far the centre, as
   rounded, stands off the middle: each side of it bounds the dead zone. A dead zone that overfills
   the range must leave out every reading the wizard accepts; then only the two ends can be left.
   */
  predicate DeadZoneFits(p: AbsParms) {
    var half, excess := TruncDiv(p.range, 2), p.diff - 2 * p.range;
    if Width(p) > 0 then
      && 2 * p.flat <= 3 * half + 3 - p.range + excess
      && 2 * p.flat <= 3 * half + 3 - p.range - 2 * excess
    else p.flat <= half + 1 && (Width(p) < 0 || p.min == p.max)
  }

  /** Deflection, outside the dead zone: two thirds of the scale in the direction of the flag. */
  lemma DeflectsAtTwoThirds(v: int, p: AbsParms, reverse: bool)
    requires Calibrated(p)
    ensures Deflects(v, p, reverse) <==>
      !InDeadZone(v, p) && 3 * (if reverse then Width(p) - Position(v, p) else Position(v, p)) >= 2 * Width(p)
  {
    if !InDeadZone(v, p) {
      ScalesPosition(v, p);
      QuotientAtLeast((if reverse then Width(p) - Position(v, p) else Position(v, p)) * 65535, Width(p), 43690);
    }
  }

  /** A dead zone that fits leaves every accepted reading two thirds up the scale. */
  lemma FittingDeadZoneDeflects(v: int, p: AbsParms)
    requires Initialised(p) && DeadZoneFits(p) && WizardReverse(v, p).Some?
    ensures Deflects(v, p, WizardReverse(v, p).value)
  {
    if Width(p) > 0 {
      DeflectsAtTwoThirds(v, p, WizardReverse(v, p).value);
    } else {
      OverfilledRangeDeflects(v, p);
    }
  }

  /** And for one that does not, the least reading accepted on one of the sides is too low. */
  lemma UnfitDeadZoneDisagrees(p: AbsParms)
    requires Calibrated(p) && !DeadZoneFits(p)
    ensures !WizardAgrees(p)
  {
    var above, below := p.avg + TruncDiv(p.range, 2) + 1, p.avg - TruncDiv(p.range, 2) - 1;
    assert WizardReverse(above, p) == Some(false) && WizardReverse(below, p) == Some(true);
    DeflectsAtTwoThirds(above, p, false);
    DeflectsAtTwoThirds(below, p, true);
  }

  /** Where the dead zone overfills the range, an accepted reading outside it deflects fully: the divisor is -1. */
  lemma OverfilledRangeDeflects(v: int, p: AbsParms)
    requires Initialised(p) && Width(p) <= 0 && DeadZoneFits(p) && WizardReverse(v, p).Some?
    ensures Deflects(v, p, WizardReverse(v, p).value)
  {
    assert !InDeadZone(v, p);
    if p.min <= v <= p.max {
      OverfilledRangeEnds(v, p);
    }
  }

  lemma UnfitFilledRangeDisagrees(p: AbsParms)
    requires Initialised(p) && Width(p) <= 0 && !DeadZoneFits(p)
    ensures !WizardAgrees(p)
  {
    var above := p.avg + TruncDiv(p.range, 2) + 1;
    if Width(p) < 0 || p.min == p.max {
      assert WizardReverse(above, p) == Some(false) && ConvertValue(above, p, false) == Some(0);
    } else {
      assert WizardReverse(p.max, p) == Some(false) && ConvertValue(p.max, p, false) == None;
    }
  }

  /**
   The wizard and the scaling agree on all readings exactly for these dead zones: what the wizard
   accepts then scales, with the reverse flag recorded for it, to at least a third of full deflection.
   */
  lemma WizardAgreesExactly(p: AbsParms)
    requires Initialised(p)
    ensures WizardAgrees(p) <==> DeadZoneFits(p)
  {
    if DeadZoneFits(p) {
      forall v | WizardReverse(v, p).Some? ensures Deflects(v, p, WizardReverse(v, p).value) {
        FittingDeadZoneDeflects(v, p);
      }
    } else if Width(p) > 0 {
      UnfitDeadZoneDisagrees(p);
    } else {
      UnfitFilledRangeDisagrees(p);
    }
  }

  /** A dead zone of a quarter of the half range always fits. */
  lemma WizardAgreesWithScaling(p: AbsParms)
    requires Initialised(p) && p.min < p.max && p.flat <= TruncDiv(p.range, 4)
    ensures Calibrated(p) && WizardAgrees(p)
  {
    WizardAgreesExactly(p);
  }

  /**
   The worst of the disagreements: where the dead zone leaves a scale of width 1 off a centre that
   was rounded upwards, the very reading that recorded the flag scales to the opposite end under it.
   */
  lemma WideDeadZoneDisagrees(p: AbsParms)
    requires Calibrated(p) && p.flat > 0 && Width(p) == 1 && p.min + p.max < 0
    ensures WizardReverse(p.avg - p.flat, p) == Some(true)
    ensures ConvertValue(p.avg - p.flat, p, true) == Some(SHRT_MIN)
  {
    CentreInside(p);
    ScalesPosition(p.avg - p.flat, p);
  }

  /** From its minimum upwards a trigger scales monotonically into a byte, from 0 at rest to full at the maximum. */
  lemma TriggerScaling(v: int, w: int, min: int, max: int, flat: int)
    requires 0 <= flat < max - min && min <= v <= w
    ensures var p := InitParms(min, max, flat);
            && ConvertByte(v, p).Some? && ConvertByte(w, p).Some?
            && ConvertByte(v, p).value <= ConvertByte(w, p).value
            && (v < min + flat || v == min ==> ConvertByte(v, p).value == 0)
            && (v >= max ==> ConvertByte(v, p).value == 255)
  {
    if v >= min + flat && v <= max { TriggerQuotient(v, min, max, flat); }
    if w >= min + flat && w <= max { TriggerQuotient(w, min, max, flat); }
    if min + flat <= v && w <= max {
      TriggerQuotientMonotone(v - flat - min, w - flat - min, max - min - flat);
    }
  }

  lemma TriggerQuotient(v: int, min: int, max: int, flat: int)
    requires 0 <= flat < max - min && min + flat <= v <= max
    ensures 0 <= (v - flat - min) * 255 / (max - min - flat) <= 255
    ensures v == max ==> (v - flat - min) * 255 / (max - min - flat) == 255
    ensures v == min ==> (v - flat - min) * 255 / (max - min - flat) == 0
    ensures ConvertByte(v, InitParms(min, max, flat)) == Some((v - flat - min) * 255 / (max - min - flat))
  {
    ByteQuotient(v - flat - min, max - min - flat);
  }

  lemma ByteQuotient(n: int, d: int)
    requires 0 <= n <= d && d > 0
    ensures 0 <= n * 255 / d <= 255
    ensures n == d ==> n * 255 / d == 255
    ensures n == 0 ==> n * 255 / d == 0
  {
    QuotientAtLeast(n * 255, d, 0);
    QuotientAtLeast(n * 255, d, 255);
    QuotientAtLeast(n * 255, d, 256);
  }

  lemma TriggerQuotientMonotone(m: int, n: int, d: int)
    requires m <= n && d > 0
    ensures m * 255 / d <= n * 255 / d
  {
    QuotientBounds(m * 255, d);
    QuotientAtLeast(n * 255, d, m * 255 / d);
  }

  // ---- the wizard and the triggers ----

  predicate Pulled(v: int, p: AbsParms) {
    ConvertByte(v, p).Some? && ConvertByte(v, p).value >= 128
  }

  /**
   The calibrations with which the least reading that the wizard accepts on the upper side is at least
   half way up the trigger's scale. A dead zone that fills the range must leave out all such readings,
   which then are beyond the maximum.
   */
  predicate TriggerFits(p: AbsParms) {
    if p.flat < p.diff then
      255 * (p.diff - p.range + TruncDiv(p.range, 2) + 1 - p.flat) >= 128 * (p.diff - p.flat)
    else p.range == 0 && p.flat <= p.diff + 1
  }

  lemma HighSidePulls(v: int, p: AbsParms)
    requires Initialised(p) && TriggerFits(p) && WizardReverse(v, p) == Some(false)
    ensures Pulled(v, p)
  {
    if p.flat < p.diff && v <= p.max {
      TriggerQuotient(v, p.min, p.max, p.flat);
      QuotientAtLeast((v - p.flat - p.min) * 255, p.diff - p.flat, 128);
    }
  }

  /** Every reading accepted on the upper side pulls the trigger past half exactly for these calibrations. */
  lemma TriggerAgreesExactly(p: AbsParms)
    requires Initialised(p)
    ensures (forall v :: WizardReverse(v, p) == Some(false) ==> Pulled(v, p)) <==> TriggerFits(p)
  {
    if TriggerFits(p) {
      forall v | WizardReverse(v, p) == Some(false) ensures Pulled(v, p) {
        HighSidePulls(v, p);
      }
    } else if p.flat < p.diff {
      LeastHighSideReleases(p);
    } else {
      FilledTriggerReleases(p);
    }
  }

  lemma LeastHighSideReleases(p: AbsParms)
    requires Initialised(p) && p.flat < p.diff && !TriggerFits(p)
    ensures exists v :: WizardReverse(v, p) == Some(false) && !Pulled(v, p)
  {
    var above := p.avg + TruncDiv(p.range, 2) + 1;
    assert WizardReverse(above, p) == Some(false);
    if above >= p.min + p.flat {
      TriggerQuotient(above, p.min, p.max, p.flat);
      QuotientAtLeast((above - p.flat - p.min) * 255, p.diff - p.flat, 128);
    }
  }

  /** The maximum is then in the dead zone or divides by zero, or else the reading above it is in the dead zone. */
  lemma FilledTriggerReleases(p: AbsParms)
    requires Initialised(p) && p.flat >= p.diff && !TriggerFits(p)
    ensures exists v :: WizardReverse(v, p) == Some(false) && !Pulled(v, p)
  {
    var v := if p.range > 0 then p.max else p.max + 1;
    assert WizardReverse(v, p) == Some(false) && !Pulled(v, p);
  }

  /** Below the minimum, outside the dead zone, the quotient wraps: its low byte can be past half. */
  predicate WrapsPastHalf(v: int, p: AbsParms) {
    && v < p.min && v <= p.min - p.flat && p.flat != p.diff
    && var n := (p.min + p.flat - v) * 255;
       ToByte(if p.flat < p.diff then -(n / (p.diff - p.flat)) else n / (p.flat - p.diff)) >= 128
  }

  /** With no reversal a reading accepted on the lower side pulls a trigger past half exactly where that happens. */
  lemma LowSidePullsExactly(v: int, p: AbsParms)
    requires Initialised(p) && WizardReverse(v, p) == Some(true)
    ensures Pulled(v, p) <==> WrapsPastHalf(v, p)
  {
    if p.flat >= p.diff {
      FilledTriggerByte(v, p);
    } else if v < p.min {
      TriggerBelowMinimum(v, p.min, p.max, p.flat);
    } else {
      LowSideReleases(v, p);
    }
  }

  /** In a range that the dead zone fills, a trigger below its centre is at rest down to the end of the dead zone. */
  lemma FilledTriggerByte(v: int, p: AbsParms)
    requires Initialised(p) && p.flat >= p.diff && WizardReverse(v, p) == Some(true)
    ensures ConvertByte(v, p)
         == if v > p.min - p.flat then Some(0)
            else if p.flat == p.diff then None
            else Some(ToByte((p.min + p.flat - v) * 255 / (p.flat - p.diff)))
  {
    var n := p.min + p.flat - v;
    assert (v - p.flat - p.min) * 255 == -(n * 255);
    if v <= p.min - p.flat {
      QuotientAtLeast(n * 255, 1, 0);
    }
  }

  /** Within the range it is by at most a third. */
  lemma LowSideReleases(v: int, p: AbsParms)
    requires Initialised(p) && p.flat < p.diff && v >= p.min && WizardReverse(v, p) == Some(true)
    ensures ConvertByte(v, p).Some? && ConvertByte(v, p).value <= 85
  {
    if v >= p.min + p.flat {
      TriggerQuotient(v, p.min, p.max, p.flat);
      QuotientAtLeast((v - p.flat - p.min) * 255, p.diff - p.flat, 86);
    }
  }

  // ---- triggers below their minimum ----

  /** Below the minimum nothing clamps: the quotient is negative, and its low byte is what a trigger reads. */
  lemma TriggerBelowMinimum(v: int, min: int, max: int, flat: int)
    requires 0 <= flat < max - min && v < min
    ensures ConvertByte(v, InitParms(min, max, flat))
         == Some(if v > min - flat then 0 else ToByte(-((min + flat - v) * 255 / (max - min - flat))))
  {
    assert (v - flat - min) * 255 == -((min + flat - v) * 255);
  }

  /** A trigger at or below rest reads 0 exactly inside the dead zone, or where the quotient is a multiple of 256. */
  lemma TriggerRestsExactly(v: int, min: int, max: int, flat: int)
    requires 0 <= flat < max - min && v <= min
    ensures ConvertByte(v, InitParms(min, max, flat)) == Some(0)
       <==> v > min - flat || v == min || (min + flat - v) * 255 / (max - min - flat) % 256 == 0
  {
    if v < min {
      TriggerBelowMinimum(v, min, max, flat);
      NegatedByte((min + flat - v) * 255 / (max - min - flat));
    } else {
      TriggerScaling(v, v, min, max, flat);
    }
  }

  lemma NegatedByte(n: int)
    ensures ToByte(-n) == 0 <==> n % 256 == 0
    ensures ToByte(-(n * 255)) == n % 256
  {
    assert -(n * 255) == n - n * 256;
  }

  /** Each calibration has readings below its minimum, accepted by the wizard, that read as any byte there is. */
  lemma EveryTriggerWraps(p: AbsParms, b: byte)
    requires Initialised(p) && p.flat < p.diff
    ensures exists v :: v < p.min && WizardReverse(v, p) == Some(true) && ConvertByte(v, p) == Some(b)
  {
    var k := FarResidue(p.flat, b);
    var t := Product(k, p.diff - p.flat);
    TriggerFarBelow(k, t, p.diff - p.flat, p);
  }

  lemma FarResidue(flat: int, b: byte) returns (k: nat)
    requires flat >= 0
    ensures k > 2 * flat && k % 256 == b
  {
    k := 512 * flat + 256 + b;
  }

  lemma Product(k: nat, d: nat) returns (t: nat)
    requires d >= 1
    ensures t == k * d && t >= k
  {
    t := k * d;
  }

  /** Below the dead zone by a multiple of the scale's width, the quotient is that multiple of 255. */
  lemma TriggerFarBelow(k: int, t: int, d: int, p: AbsParms)
    requires Initialised(p) && p.flat < p.diff && d == p.diff - p.flat && t == k * d && t > 2 * p.flat
    ensures exists v :: v < p.min && WizardReverse(v, p) == Some(true) && ConvertByte(v, p) == Some(k % 256)
  {
    Multiple(k, d);
    var v := p.min + p.flat - t;
    TriggerByQuotient(v, t, k * 255, p.min, p.max, p.flat);
    NegatedByte(k);
    assert WizardReverse(v, p) == Some(true);
  }

  lemma TriggerByQuotient(v: int, t: int, q: int, min: int, max: int, flat: int)
    requires 0 <= flat < max - min && v < min && v <= min - flat
    requires t == min + flat - v && q == t * 255 / (max - min - flat)
    ensures ConvertByte(v, InitParms(min, max, flat)) == Some(ToByte(-q))
  {
    TriggerBelowMinimum(v, min, max, flat);
  }

  lemma Multiple(k: int, d: int)
    requires d > 0
    ensures k * d * 255 / d == k * 255
  {
    QuotientAtLeast(k * d * 255, d, k * 255);
    QuotientAtLeast(k * d * 255, d, k * 255 + 1);
  }

  /** Just below rest such a reading can be full: one step under the minimum of a trigger of 256 positions. */
  lemma TriggerBelowMinimumWraps()
    ensures ConvertByte(-1, InitParms(0, 255, 0)) == Some(UCHAR_MAX)
  {
    assert InitParms(0, 255, 0) == AbsParms(0, 255, 0, 127, 128, 255);
  }

  /**
   All that a trigger reads, for every dead zone: nothing less than a dead zone from its minimum, full above
   its maximum, and elsewhere the low byte of the quotient, rounded towards zero, unless that has no divisor.
   */
  lemma TriggerReadsExactly(v: int, p: AbsParms)
    requires Initialised(p)
    ensures p.min - p.flat < v < p.min + p.flat ==> ConvertByte(v, p) == Some(0)
    ensures v >= p.min + p.flat && v > p.max ==> ConvertByte(v, p) == Some(255)
    ensures p.flat == p.diff && (v <= p.min - p.flat || v == p.max) && (v <= p.max) && (v != p.min || p.flat == 0) ==>
      ConvertByte(v, p) == None
    ensures p.flat < p.diff && p.min + p.flat <= v <= p.max ==>
      ConvertByte(v, p) == Some((v - p.flat - p.min) * 255 / (p.diff - p.flat))
    ensures p.flat < p.diff && v <= p.min - p.flat && v < p.min ==>
      ConvertByte(v, p) == Some(ToByte(-((p.min + p.flat - v) * 255 / (p.diff - p.flat))))
    ensures p.flat > p.diff && v <= p.min - p.flat ==>
      ConvertByte(v, p) == Some(ToByte((p.min + p.flat - v) * 255 / (p.flat - p.diff)))
  {
    if p.flat < p.diff {
      if p.min + p.flat <= v <= p.max {
        TriggerQuotient(v, p.min, p.max, p.flat);
      } else if v < p.min {
        TriggerBelowMinimum(v, p.min, p.max, p.flat);
      }
    } else if p.flat > p.diff && v <= p.min - p.flat {
      OverfilledTriggerByte(v, p);
    }
  }

  lemma OverfilledTriggerByte(v: int, p: AbsParms)
    requires Initialised(p) && p.flat > p.diff && v <= p.min - p.flat
    ensures ConvertByte(v, p) == Some(ToByte((p.min + p.flat - v) * 255 / (p.flat - p.diff)))
  {
    var n := p.min + p.flat - v;
    assert (v - p.flat - p.min) * 255 == -(n * 255);
  }
}
