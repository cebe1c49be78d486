/**
 * The wind cards' numeric helpers: metres per second to knots, and the colour band
 * a speed in knots is drawn in.
 */
module WindDisplay {

  /** Knots per metre per second. */
  const KnotsPerMps: real := 1.94384

  /**
   * `mps_to_knots`: a falsy speed (zero) gives `0.0` without multiplying; any other
   * speed is scaled. Both branches agree with the plain conversion.
   */
  function MpsToKnots(mps: real): (knots: real)
    ensures knots == mps * KnotsPerMps
  {
    if mps != 0.0 then mps * KnotsPerMps else 0.0
  }

  lemma KnotsMonotone(a: real, b: real)
    requires a <= b
    ensures MpsToKnots(a) <= MpsToKnots(b)
  {
  }

  lemma KnotsNonNegative(mps: real)
    requires mps >= 0.0
    ensures MpsToKnots(mps) >= 0.0
  {
  }

  /** A card's background and text colours. */
  datatype Style = Style(background: string, foreground: string)

  /** Lower bounds, in knots, of bands 1 to 6; each test in the chain is strict-less-than. */
  const Thresholds: seq<real> := [4.0, 12.0, 16.0, 21.0, 27.0, 34.0]

  /** The seven colour pairs, calm (light grey) to storm (violet). */
  const Palette: seq<Style> := [
    Style("#F5F5F5", "#000000"),
    Style("#1ba0cc", "#000000"),
    Style("#1bcc62", "#000000"),
    Style("#c9cc1b", "#000000"),
    Style("#cc7c1b", "#000000"),
    Style("#cc201b", "#000000"),
    Style("#cc1b76", "#000000")
  ]

  /** `get_wind_style`: the first threshold the speed is below picks the colours. */
  function WindStyle(knots: real): (s: Style)
    ensures s.foreground == "#000000"
    ensures s in Palette
  {
    if knots < 4.0 then Style("#F5F5F5", "#000000")
    else if knots < 12.0 then Style("#1ba0cc", "#000000")
    else if knots < 16.0 then Style("#1bcc62", "#000000")
    else if knots < 21.0 then Style("#c9cc1b", "#000000")
    else if knots < 27.0 then Style("#cc7c1b", "#000000")
    else if knots < 34.0 then Style("#cc201b", "#000000")
    else Style("#cc1b76", "#000000")
  }

  ghost predicate Ascending(ts: seq<real>) {
    forall i, j :: 0 <= i < j < |ts| ==> ts[i] < ts[j]
  }

  /** How many of the thresholds `ts` the speed has reached. */
  function CountReached(ts: seq<real>, knots: real): (n: nat)
    ensures n <= |ts|
  {
    if ts == [] then 0
    else (if ts[0] <= knots then 1 else 0) + CountReached(ts[1..], knots)
  }

  /** The band index 0..6: the number of thresholds at or below the speed. */
  function Band(knots: real): (b: nat)
    ensures b <= 6
  {
    CountReached(Thresholds, knots)
  }

  lemma {:induction false} CountReachedMonotone(ts: seq<real>, a: real, b: real)
    requires a <= b
    ensures CountReached(ts, a) <= CountReached(ts, b)
  {
    if ts != [] {
      CountReachedMonotone(ts[1..], a, b);
    }
  }

  /** Over ascending thresholds, the count is the position of the first threshold above the speed. */
  lemma {:induction false} CountReachedPosition(ts: seq<real>, knots: real)
    requires Ascending(ts)
    ensures var n := CountReached(ts, knots);
      && (forall i :: 0 <= i < n ==> ts[i] <= knots)
      && (forall i :: n <= i < |ts| ==> knots < ts[i])
  {
    if ts != [] {
      var rest := ts[1..];
      assert Ascending(rest) by {
        forall i, j | 0 <= i < j < |rest| ensures rest[i] < rest[j] {
          assert rest[i] == ts[i + 1] && rest[j] == ts[j + 1];
        }
      }
      CountReachedPosition(rest, knots);
      var m := CountReached(rest, knots);
      if ts[0] <= knots {
        forall i | 0 <= i < 1 + m ensures ts[i] <= knots {
          if i > 0 { assert ts[i] == rest[i - 1]; }
        }
        forall i | 1 + m <= i < |ts| ensures knots < ts[i] {
          assert ts[i] == rest[i - 1];
        }
      } else {
        forall i | 0 <= i < |ts| ensures knots < ts[i] {
          if i > 0 { assert ts[0] < ts[i]; }
        }
      }
    }
  }

  /** The band lies between the threshold below the speed and the one above it. */
  lemma BandBounds(knots: real)
    ensures Band(knots) == 0 || Thresholds[Band(knots) - 1] <= knots
    ensures Band(knots) == 6 || knots < Thresholds[Band(knots)]
  {
    CountReachedPosition(Thresholds, knots);
  }

  /** The if-chain and the threshold count agree: the colours are the band's palette entry. */
  lemma WindStyleIsBandColour(knots: real)
    ensures WindStyle(knots) == Palette[Band(knots)]
  {
    BandBounds(knots);
  }

  /** A faster wind never gets a lower band. */
  lemma BandMonotone(a: real, b: real)
    requires a <= b
    ensures Band(a) <= Band(b)
  {
    CountReachedMonotone(Thresholds, a, b);
  }

  /** Below 4 knots is calm; from 34 knots on is the last band. */
  lemma BandExtremes(knots: real)
    ensures knots < 4.0 <==> Band(knots) == 0
    ensures knots >= 34.0 <==> Band(knots) == 6
  {
    BandBounds(knots);
  }
}
