/**
 * Conversions between encoder pulses and millimetres of travel, and the
 * scaling of the speed by a percentage. Doubles are modelled as exact reals;
 * the `(int)` cast truncates toward zero. The direction enters as its value,
 * -1 or +1: the adjusted millimetre divides by it, the adjusted pulse
 * multiplies by it.
 */
module Units {
  import opened AxisDriver
  import opened Numerals

  /** The `(int)` cast of a double: truncation toward zero. */
  function Trunc(x: real): (n: int)
    ensures x >= 0.0 ==> 0 <= n && n as real <= x < n as real + 1.0
    ensures x <= 0.0 ==> n <= 0 && n as real - 1.0 < x <= n as real
  {
    if x >= 0.0 then x.Floor else -((-x).Floor)
  }

  /** Truncation keeps whole numbers. */
  lemma TruncWhole(n: int)
    ensures Trunc(n as real) == n
  {
  }

  /** The magnitude of a real. */
  function Abs(x: real): (a: real)
    ensures a >= 0.0 && (a == x || a == -x)
  {
    if x >= 0.0 then x else -x
  }

  /** Truncation moves toward zero by less than one. */
  lemma TruncTowardZero(x: real)
    ensures Abs(Trunc(x) as real) <= Abs(x) < Abs(Trunc(x) as real) + 1.0
    ensures Abs(x - Trunc(x) as real) < 1.0
  {
  }

  /** Millimetres per pulse times the pulse count. */
  function PulseToMillimetre(pulse: int, displacementPerRev: real, pulsePerRev: int): real
    requires pulsePerRev != 0
  {
    pulse as real * (displacementPerRev / pulsePerRev as real)
  }

  /** Pulses per millimetre times the distance, truncated toward zero. */
  function MillimetreToPulse(millimetre: real, displacementPerRev: real, pulsePerRev: int): int
    requires displacementPerRev != 0.0
  {
    Trunc(ExactPulses(millimetre, displacementPerRev, pulsePerRev))
  }

  /** The pulse count before truncation. */
  function ExactPulses(millimetre: real, displacementPerRev: real, pulsePerRev: int): real
    requires displacementPerRev != 0.0
  {
    millimetre * (pulsePerRev as real / displacementPerRev)
  }

  /** The exact pulse count is truncated, never rounded: within one pulse, and no larger in magnitude. */
  lemma MillimetreToPulseBounds(millimetre: real, displacementPerRev: real, pulsePerRev: int)
    requires displacementPerRev != 0.0
    ensures var exact := ExactPulses(millimetre, displacementPerRev, pulsePerRev);
      var p := MillimetreToPulse(millimetre, displacementPerRev, pulsePerRev);
      Abs(p as real) <= Abs(exact) && Abs(exact - p as real) < 1.0 &&
      (exact >= 0.0 ==> p >= 0) && (exact <= 0.0 ==> p <= 0)
  {
    TruncTowardZero(ExactPulses(millimetre, displacementPerRev, pulsePerRev));
  }

  /** A whole number of pulses converted to millimetres converts back to itself. */
  lemma PulseRoundTrip(pulse: int, displacementPerRev: real, pulsePerRev: int)
    requires displacementPerRev != 0.0 && pulsePerRev != 0
    ensures MillimetreToPulse(PulseToMillimetre(pulse, displacementPerRev, pulsePerRev), displacementPerRev, pulsePerRev) == pulse
  {
    var d, n := displacementPerRev, pulsePerRev as real;
    calc {
      pulse as real * (d / n) * (n / d);
    ==
      pulse as real * ((d / n) * (n / d));
    == { assert (d / n) * (n / d) == 1.0; }
      pulse as real;
    }
    TruncWhole(pulse);
  }

  /** The position reported to the user: millimetres divided by the direction, plus the offset. */
  function AdjustedMillimetre(pulse: int, displacementPerRev: real, pulsePerRev: int, direction: Direction, absoluteMillimetre: real): real
    requires pulsePerRev != 0
  {
    PulseToMillimetre(pulse, displacementPerRev, pulsePerRev) / Sign(direction) as real + absoluteMillimetre
  }

  /** The target sent to the device: the offset removed, multiplied by the direction, converted to pulses. */
  function AdjustedPulse(millimetre: real, displacementPerRev: real, pulsePerRev: int, direction: Direction, absoluteMillimetre: real): int
    requires displacementPerRev != 0.0
  {
    MillimetreToPulse((millimetre - absoluteMillimetre) * Sign(direction) as real, displacementPerRev, pulsePerRev)
  }

  /**
   * A target converted to pulses and reported back misses it only by the
   * truncation: the truncated fraction of a pulse (less than one), times
   * the millimetres of one pulse, with the direction's sign.
   */
  lemma AdjustedRoundTrip(millimetre: real, displacementPerRev: real, pulsePerRev: int, direction: Direction, absoluteMillimetre: real)
    requires displacementPerRev != 0.0 && pulsePerRev != 0
    ensures var s := Sign(direction) as real;
      var x := ExactPulses((millimetre - absoluteMillimetre) * s, displacementPerRev, pulsePerRev);
      var p := AdjustedPulse(millimetre, displacementPerRev, pulsePerRev, direction, absoluteMillimetre);
      AdjustedMillimetre(p, displacementPerRev, pulsePerRev, direction, absoluteMillimetre)
        == millimetre + (p as real - x) * (displacementPerRev / pulsePerRev as real) * s &&
      Abs(p as real - x) < 1.0
  {
    var s := Sign(direction) as real;
    var offset := (millimetre - absoluteMillimetre) * s;
    var p := AdjustedPulse(millimetre, displacementPerRev, pulsePerRev, direction, absoluteMillimetre);
    TruncTowardZero(ExactPulses(offset, displacementPerRev, pulsePerRev));
    ReportedPosition(p, displacementPerRev, pulsePerRev, direction, absoluteMillimetre, offset);
    UnitSquare(millimetre - absoluteMillimetre, s);
  }

  /** The reported position of `p` pulses, in terms of an offset and its exact pulse count. */
  lemma ReportedPosition(p: int, displacementPerRev: real, pulsePerRev: int, direction: Direction, absoluteMillimetre: real, offset: real)
    requires displacementPerRev != 0.0 && pulsePerRev != 0
    ensures var s := Sign(direction) as real;
      AdjustedMillimetre(p, displacementPerRev, pulsePerRev, direction, absoluteMillimetre) ==
        offset * s + (p as real - ExactPulses(offset, displacementPerRev, pulsePerRev)) * (displacementPerRev / pulsePerRev as real) * s + absoluteMillimetre
  {
    var perMillimetre := pulsePerRev as real / displacementPerRev;
    var step := displacementPerRev / pulsePerRev as real;
    Reciprocal(displacementPerRev, pulsePerRev as real);
    ConvertBack(offset, perMillimetre, step, p as real, Sign(direction) as real);
  }

  /** `d / n` and `n / d` are reciprocal. */
  lemma Reciprocal(d: real, n: real)
    requires d != 0.0 && n != 0.0
    ensures (n / d) * (d / n) == 1.0
  {
  }

  /** Converting `p` pulses back, divided by a unit sign, is the offset plus the scaled truncation error. */
  lemma ConvertBack(offset: real, perMillimetre: real, step: real, p: real, s: real)
    requires perMillimetre * step == 1.0 && (s == 1.0 || s == -1.0)
    ensures (p * step) / s == offset * s + (p - offset * perMillimetre) * step * s
  {
    assert (p * step) / s == p * step * s;
    assert (p - offset * perMillimetre) * step * s == p * step * s - offset * (perMillimetre * step) * s;
  }

  /** Multiplying twice by a unit sign changes nothing. */
  lemma UnitSquare(x: real, s: real)
    requires s == 1.0 || s == -1.0
    ensures x * s * s == x
  {
  }

  /** `FinalSpeed * (percentage / 100)`, truncated toward zero. */
  function AdjustedSpeed(finalSpeed: int, speedPercentage: real): int
  {
    Trunc(finalSpeed as real * (speedPercentage / 100.0))
  }

  /** At 100 percent the speed is the final speed; between 0 and 100 percent it lies between 0 and the final speed. */
  lemma AdjustedSpeedBounds(finalSpeed: int, speedPercentage: real)
    ensures AdjustedSpeed(finalSpeed, 100.0) == finalSpeed
    ensures 0 <= finalSpeed && 0.0 <= speedPercentage <= 100.0 ==>
      0 <= AdjustedSpeed(finalSpeed, speedPercentage) <= finalSpeed
  {
    TruncWhole(finalSpeed);
    if 0 <= finalSpeed && 0.0 <= speedPercentage <= 100.0 {
      var x := finalSpeed as real * (speedPercentage / 100.0);
      assert x <= finalSpeed as real;
    }
  }

  /**
   * Signing a 32-bit pulse count by the direction in unchecked 32-bit
   * arithmetic changes it only in one case: the smallest count in the
   * negative direction, which stays the smallest count instead of becoming
   * positive.
   */
  lemma SignedPulseWraps(pulse: int, direction: Direction)
    requires IsInt32(pulse)
    ensures Wrap32(pulse * Sign(direction)) != pulse * Sign(direction) <==> pulse == Int32Min && direction == Negative
    ensures pulse == Int32Min && direction == Negative ==> Wrap32(pulse * Sign(direction)) == Int32Min
  {
    if pulse == Int32Min && direction == Negative {
      assert pulse * Sign(direction) == Int32Max + 1;
    }
  }
}
