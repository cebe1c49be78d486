/**
 * `get_cardinal`: a wind direction in degrees to one of the 16 compass points.
 * The source shifts by half a bin (11.25 degrees), divides by the bin width
 * (22.5 degrees), converts with Python's `int()` -- which truncates toward zero --
 * and wraps the index with `% 16` (non-negative for a positive divisor, in Python
 * as in Dafny).
 */
module Compass {

  /** The 16 labels, clockwise from north. */
  const Points: seq<string> :=
    ["N", "NNE", "NE", "ENE", "E", "ESE", "SE", "SSE",
     "S", "SSW", "SW", "WSW", "W", "WNW", "NW", "NNW"]

  const BinWidth: real := 22.5
  const HalfBin: real := 11.25

  /** Python's `int()` on a float: the integer part, rounding toward zero. */
  function Trunc(x: real): (n: int)
    ensures x >= 0.0 ==> n as real <= x < n as real + 1.0
    ensures x < 0.0 ==> n as real - 1.0 < x <= n as real
  {
    if x >= 0.0 then x.Floor else -((-x).Floor)
  }

  /** The table index `get_cardinal` looks up. */
  function PointIndex(deg: real): (i: int)
    ensures 0 <= i < 16
  {
    Trunc((deg + HalfBin) / BinWidth) % 16
  }

  function Cardinal(deg: real): (point: string)
    ensures point in Points
  {
    Points[PointIndex(deg)]
  }

  /** The angle brought into the turn [-11.25, 348.75) that starts half a bin west of north. */
  function ReduceAngle(deg: real): (a: real)
    ensures -HalfBin <= a < 360.0 - HalfBin
  {
    deg - 360.0 * ((deg + HalfBin) / 360.0).Floor as real
  }

  lemma FloorOfSixteenth(x: real)
    requires x >= 0.0
    ensures (x / 16.0).Floor == x.Floor / 16
  {
  }

  lemma PointsDistinct(i: int, j: int)
    requires 0 <= i < 16 && 0 <= j < 16 && i != j
    ensures Points[i] != Points[j]
  {
  }

  /**
   * The bins are centred on their labels: for a direction at or above -11.25 degrees,
   * the label is point k exactly when the reduced angle lies within half a bin of
   * 22.5 * k degrees.
   */
  lemma CardinalBins(deg: real, k: int)
    requires deg >= -HalfBin
    requires 0 <= k < 16
    ensures Cardinal(deg) == Points[k] <==>
              BinWidth * k as real - HalfBin <= ReduceAngle(deg) < BinWidth * k as real + HalfBin
  {
    var x := (deg + HalfBin) / BinWidth;
    var t := x.Floor;
    assert Trunc(x) == t;
    FloorOfSixteenth(x);
    assert (deg + HalfBin) / 360.0 == x / 16.0;
    var q := t / 16;
    assert ReduceAngle(deg) + HalfBin == BinWidth * (x - 16.0 * q as real);
    assert PointIndex(deg) == t - 16 * q;
    if PointIndex(deg) != k {
      PointsDistinct(PointIndex(deg), k);
    }
  }

  /** The four cardinal directions. */
  lemma CardinalCompassPoints()
    ensures Cardinal(0.0) == "N"
    ensures Cardinal(90.0) == "E"
    ensures Cardinal(180.0) == "S"
    ensures Cardinal(270.0) == "W"
  {
    assert PointIndex(0.0) == 0 by { assert (0.0 + HalfBin) / BinWidth == 0.5; }
    assert PointIndex(90.0) == 4 by { assert (90.0 + HalfBin) / BinWidth == 4.5; }
    assert PointIndex(180.0) == 8 by { assert (180.0 + HalfBin) / BinWidth == 8.5; }
    assert PointIndex(270.0) == 12 by { assert (270.0 + HalfBin) / BinWidth == 12.5; }
  }

  /** Directions from 348.75 up to 371.25 degrees fall in index 16, which wraps to north. */
  lemma CardinalWrapsToNorth(deg: real)
    requires 348.75 <= deg < 371.25
    ensures Cardinal(deg) == "N"
  {
    var x := (deg + HalfBin) / BinWidth;
    assert 16.0 <= x < 17.0;
    assert Trunc(x) == 16;
  }

  lemma TruncShift(x: real)
    requires x >= 0.0
    ensures Trunc(x + 16.0) == Trunc(x) + 16
  {
  }

  lemma ModShift(t: int)
    ensures (t + 16) % 16 == t % 16
  {
  }

  /** A full turn does not change the label, wherever truncation and floor agree. */
  lemma CardinalPeriodic(deg: real)
    requires deg >= -HalfBin
    ensures Cardinal(deg + 360.0) == Cardinal(deg)
  {
    var x := (deg + HalfBin) / BinWidth;
    assert (deg + 360.0 + HalfBin) / BinWidth == x + 16.0;
    TruncShift(x);
    ModShift(Trunc(x));
    assert PointIndex(deg + 360.0) == PointIndex(deg);
  }

  /**
   * Below -11.25 degrees truncation no longer floors: -20 degrees is labelled north
   * while 340 degrees, the same direction, is NNW.
   */
  lemma CardinalTruncationBelowOffset()
    ensures Cardinal(-20.0) == "N"
    ensures Cardinal(340.0) == "NNW"
  {
    assert Trunc((-20.0 + HalfBin) / BinWidth) == 0;
    assert PointIndex(340.0) == 15 by { assert 15.0 <= (340.0 + HalfBin) / BinWidth < 16.0; }
  }
}
