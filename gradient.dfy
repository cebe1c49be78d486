/**
 * The thermal-gradient indicator of the dashboard's analysis panel: the difference
 * between the virtual potential temperature (theta-v) of the inland reference station
 * and that of the maritime station, classified against a fixed threshold of 1.5 K.
 *
 * The two theta-v values are inputs here: `calc_theta_v` (exponentials and a
 * fractional power) is not part of this model.
 */
module ThermalGradient {
  import opened Optional

  /** Half-width, in kelvin, of the band of differences read as "no gradient". */
  const Threshold: real := 1.5

  /** Onshore sea breeze likely, offshore land breeze likely, or no significant gradient. */
  datatype Trend = Virazon | Terral | Stable

  /** What the panel shows: a classified gradient, or the "missing pressure/humidity" message. */
  datatype Analysis =
    | Gradient(thetaSea: real, thetaLand: real, diff: real, trend: Trend)
    | MissingData

  /** Python truthiness of `calc_theta_v`'s result: neither `None` nor `0.0`. */
  predicate Truthy(theta: Option<real>) {
    theta.Some? && theta.value != 0.0
  }

  /** The `if diff > 1.5 / elif diff < -1.5 / else` chain of the panel. */
  function Classify(diff: real): (t: Trend)
    ensures t == Virazon <==> diff > Threshold
    ensures t == Terral <==> diff < -Threshold
    ensures t == Stable <==> -Threshold <= diff <= Threshold
  {
    if diff > Threshold then Virazon
    else if diff < -Threshold then Terral
    else Stable
  }

  /** The panel: classified only when both theta-v values are truthy; the difference is land minus sea. */
  function Analyse(thetaSea: Option<real>, thetaLand: Option<real>): (a: Analysis)
    ensures a.Gradient? <==> Truthy(thetaSea) && Truthy(thetaLand)
    ensures a.Gradient? ==> a.thetaSea == thetaSea.value && a.thetaLand == thetaLand.value
    ensures a.Gradient? ==> a.diff == thetaLand.value - thetaSea.value
    ensures a.Gradient? ==> a.trend == Classify(a.diff)
  {
    if Truthy(thetaSea) && Truthy(thetaLand) then
      var diff := thetaLand.value - thetaSea.value;
      Gradient(thetaSea.value, thetaLand.value, diff, Classify(diff))
    else
      MissingData
  }

  /** Orders the trends from "land colder" to "land warmer". */
  function Rank(t: Trend): (n: nat)
    ensures n <= 2
  {
    match t
    case Terral => 0
    case Stable => 1
    case Virazon => 2
  }

  /** The trend the opposite gradient gives. */
  function Mirror(t: Trend): (m: Trend)
    ensures Rank(m) == 2 - Rank(t)
  {
    match t
    case Terral => Virazon
    case Stable => Stable
    case Virazon => Terral
  }

  /** A larger land-minus-sea difference never gives a "colder land" trend. */
  lemma ClassifyMonotone(d1: real, d2: real)
    requires d1 <= d2
    ensures Rank(Classify(d1)) <= Rank(Classify(d2))
  {
  }

  /** Swapping the two stations mirrors the classification. */
  lemma ClassifyAntisymmetric(thetaSea: real, thetaLand: real)
    ensures Classify(thetaSea - thetaLand) == Mirror(Classify(thetaLand - thetaSea))
  {
  }

  /** The three worked examples: land 2 K warmer, 2 K colder, and 0.5 K colder than the sea. */
  lemma AnalyseExamples()
    ensures Analyse(Some(18.0), Some(20.0)) == Gradient(18.0, 20.0, 2.0, Virazon)
    ensures Analyse(Some(20.0), Some(18.0)) == Gradient(20.0, 18.0, -2.0, Terral)
    ensures Analyse(Some(19.5), Some(19.0)).trend == Stable
    ensures Analyse(Some(19.0), Some(19.5)).trend == Stable
    ensures Analyse(None, Some(19.0)) == MissingData
    ensures Analyse(Some(0.0), Some(19.0)) == MissingData
  {
  }
}
