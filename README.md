# Ría de Vigo wind monitor — verified model of its data logic

The dashboard (`app.py`) polls MeteoGalicia's "last 10 minutes" observation service
for two coastal stations (Cíes 10125, Cangas 10906) and one inland reference
(O Viso 10154). It turns each station record into a seven-field reading, shows wind
cards (speed in knots, a colour band, a 16-point compass label) and has an analysis
panel meant to classify the thermal gradient between land and sea. The panel's
classification code is modelled. As written, though, the panel fails before it gets
there: the readings have no `pres` key, so `mar['pres']` at app.py:195 raises
`KeyError` whenever both stations are present. This project models that logic in Dafny
and proves properties of it:

- `normaliser.dfy` (`StationNormaliser`): the parsing half of `fetch_all_data`.
  Specification functions cover code dispatch (`Dispatch`), one measurement (`Apply`),
  the inner loop (`Fold`), the gust-direction rule (`GustFallback`), one record
  (`BuildReading`), the outer loop (`Readings`, `LastUpdate`) and the whole payload
  (`Normalise`). The source's two loops are the methods `ReadMeasures` and
  `ParseStations`, and each is proved to compute its specification function.
- `wind.dfy` (`WindDisplay`): `mps_to_knots` and `get_wind_style`. The style's
  if-chain is tied to an independent band index, which counts the thresholds the
  speed has reached.
- `compass.dfy` (`Compass`): `get_cardinal`. Python's truncating `int()` is modelled
  exactly, and the labels are characterised as bins centred on multiples of 22.5°.
- `gradient.dfy` (`ThermalGradient`): the virazón / terral / stability decision of the
  analysis panel.
- `option.dfy` (`Optional`): the optional value used for JSON keys that may be absent.

All numbers are Dafny `real`s. This idealises Python floats; the modelled code only
compares values, adds and subtracts them, and multiplies or divides them by constants;
`int()` and `% 16` are modelled exactly.

Three points about app.py that shape the model:
- Compass: Python's `int()` truncates toward zero, so below -11.25° the label differs
  from a floor-based bin (`CardinalTruncationBelowOffset`: -20° is labelled N while
  340° is NNW). Periodicity is proved for directions of at least -11.25°.
- Pressure: app.py maps no `PR_AVG_1.5m` code, and the reading has no pressure field.
- The colour thresholds are 4, 12, 16, 21, 27 and 34 knots.

## Model

| member | source | states |
|---|---|---|
| `StationNormaliser.Dispatch` | app.py:84-90 | exactly `VV_AVG_10m`, `DV_AVG_10m`, `VV_RACHA_10m`, `DV_RACHA_10m` select the four wind fields; otherwise the first of `TA_AVG_1.5m`, `HR_AVG_1.5m`, `DV_SD_10m` contained in the code selects temperature, humidity or deviation; no field exactly when nothing matches |
| `StationNormaliser.ContainsIffOccurs` | app.py:88-90 | the substring test `p in c` holds exactly when `p` occurs at some offset of `c` |
| `StationNormaliser.DispatchTemperatureCode` | app.py:88 | the code `TA_AVG_1.5m` selects the temperature |
| `StationNormaliser.DispatchHumidityCode` | app.py:89 | the code `HR_AVG_1.5m` selects the humidity (the temperature test before it fails) |
| `StationNormaliser.DispatchDirStdDevCode` | app.py:90 | the code `DV_SD_10m` selects the direction deviation |
| `StationNormaliser.DispatchEmbeddedCode` | app.py:88 | any code that embeds `TA_AVG_1.5m` selects the temperature |
| `StationNormaliser.Set` | app.py:84-90 | `d[key] = v`: the key takes the value and the other six keys keep theirs |
| `StationNormaliser.Apply` | app.py:82-90 | one measurement sets the dispatched field to its value; every other field keeps its value |
| `StationNormaliser.IgnoredCodeChangesNothing` | app.py:83-90 | a code that matches no test leaves the reading unchanged |
| `StationNormaliser.Fold` | app.py:82-90 | the inner loop over `listaMedidas`: each field keeps its start value or holds the value of a measurement dispatched to it; `FoldKeepsUnmentioned` and `FoldLastWins` say which one |
| `StationNormaliser.FoldKeepsUnmentioned` | app.py:80-90 | a field no measurement dispatches to keeps its starting value through the loop |
| `StationNormaliser.FoldLastWins` | app.py:82-90 | after the loop a field holds the value of the last measurement dispatched to it |
| `StationNormaliser.GustFallback` | app.py:92 | afterwards a zero gust direction never sits beside a non-zero mean direction; a zero gust direction becomes the mean direction; no other field changes |
| `StationNormaliser.GustFallbackIdempotent` | app.py:92 | applying the gust rule twice is the same as applying it once |
| `StationNormaliser.BuildReading` | app.py:80-92 | one record's dict, started at zero, filled by the inner loop and patched by the gust rule: it satisfies the gust invariant; `BuildReadingDefaults` and `BuildReadingLastWins` give its fields |
| `StationNormaliser.BuildReadingDefaults` | app.py:80-92 | a field whose code never appears is 0, except the gust direction, which then equals the mean direction |
| `StationNormaliser.BuildReadingLastWins` | app.py:82-92 | a field holds its last measurement's value; the gust direction does so unless that value is 0, when it takes the mean direction |
| `StationNormaliser.BuildReadingExample` | app.py:80-92 | a record with only `VV_AVG_10m`=5 and `DV_AVG_10m`=90 gives gust speed 0 and gust direction 90 |
| `StationNormaliser.ReadMeasures` | app.py:80-92 | the inner loop with its if/elif chain, followed by the gust rule, computes the record's reading |
| `StationNormaliser.StationKey` | app.py:78 | `str(est['idEstacion'])` for an integer id: non-empty text that starts with `-` exactly for a negative id; `StationKeyInjective` and `StationKeyExample` specify it further |
| `StationNormaliser.StationKeyInjective` | app.py:78 | `str()` of distinct integer ids gives distinct keys |
| `StationNormaliser.StationKeyExample` | app.py:78 | id 10125 is stored under the key "10125" |
| `StationNormaliser.Readings` | app.py:77-93 | the `parsed_data` map: every stored reading satisfies the gust rule's invariant (app.py:92-93); `ReadingsKeys` and `ReadingsLastWriteWins` say which keys it has and which record each entry comes from |
| `StationNormaliser.ReadingsKeys` | app.py:77-93 | the result map's keys are exactly the records' ids as text |
| `StationNormaliser.ReadingsLastWriteWins` | app.py:77-93 | a station's entry is the reading of the last record with its id |
| `StationNormaliser.Normalise` | app.py:73-97 | the whole parse: it fails exactly when `listUltimos10min` is present and some record lacks `listaMedidas`; otherwise it gives the map and the last update |
| `StationNormaliser.NormaliseEmpty` | app.py:73-79 | a payload without `listUltimos10min`, or with an empty one, yields an empty map and "N/D" |
| `StationNormaliser.NormaliseFails` | app.py:82 | a record without `listaMedidas` makes the whole fetch fail |
| `StationNormaliser.ReadingsStep` | app.py:77-93 | the step lemma of `ParseStations`'s loop (a proof step, not a separate fact about the program): one more pass of the outer loop stores the next record's reading under its key and sets `last_update` to its timestamp |
| `StationNormaliser.ParseStations` | app.py:73-95 | the outer loop returns the readings map and last update of `Normalise`, or the failure when a record lacks its measurement list; because the loop rewrites `last_update` on every record (app.py:79), a successful parse of a non-empty list ends with the last record's timestamp ("N/D" if it has none), and a missing or empty list gives "N/D" |
| `StationNormaliser.FetchAllData` | app.py:66-97 | a failed request or undecodable body gives the failure result; otherwise the parse result |
| `WindDisplay.MpsToKnots` | app.py:38 | the falsy-zero branch agrees with the conversion: the result is always `mps * 1.94384` |
| `WindDisplay.KnotsMonotone` | app.py:38 | the conversion is monotone |
| `WindDisplay.KnotsNonNegative` | app.py:38 | a non-negative speed gives a non-negative speed in knots |
| `WindDisplay.WindStyle` | app.py:49-58 | the text colour is always `#000000` and the pair is one of the seven palette entries |
| `WindDisplay.WindStyleIsBandColour` | app.py:49-58 | the if-chain's colours are the palette entry of the band, which is the number of thresholds 4/12/16/21/27/34 reached |
| `WindDisplay.BandBounds` | app.py:52-58 | the band lies between the threshold at or below the speed and the first threshold above it |
| `WindDisplay.BandMonotone` | app.py:49-58 | the band is non-decreasing in knots |
| `WindDisplay.BandExtremes` | app.py:52-58 | below 4 knots exactly gives the calm band; at least 34 knots exactly gives the last band |
| `Compass.Trunc` | app.py:62 | `int()` rounds toward zero: floor for non-negative values, ceiling for negative ones |
| `Compass.PointIndex` | app.py:62-63 | the wrapped table index is in 0..15 |
| `Compass.Cardinal` | app.py:60-63 | the label is always one of the 16 compass points |
| `Compass.CardinalBins` | app.py:60-63 | at or above -11.25°, the label is point k exactly when the angle, reduced to [-11.25, 348.75), lies within 11.25° of 22.5·k |
| `Compass.CardinalCompassPoints` | app.py:60-63 | 0, 90, 180 and 270 degrees give N, E, S and W |
| `Compass.CardinalWrapsToNorth` | app.py:62-63 | directions from 348.75 up to 371.25 wrap to N |
| `Compass.CardinalPeriodic` | app.py:62-63 | a full turn leaves the label unchanged for directions of at least -11.25° |
| `Compass.CardinalTruncationBelowOffset` | app.py:62 | below -11.25° truncation breaks periodicity: -20° is N but 340° is NNW |
| `ThermalGradient.Classify` | app.py:206-211 | virazón exactly when Δ > 1.5, terral exactly when Δ < -1.5, stability exactly otherwise |
| `ThermalGradient.Analyse` | app.py:198-213 | the panel classifies only when both θv values are truthy (present and non-zero), with Δ = land − sea; otherwise it reports the missing data |
| `ThermalGradient.ClassifyMonotone` | app.py:206-211 | a larger Δ never gives a trend further toward terral |
| `ThermalGradient.ClassifyAntisymmetric` | app.py:199-211 | swapping the two stations swaps virazón and terral and keeps stability |
| `ThermalGradient.AnalyseExamples` | app.py:198-211 | Δ = 2 gives virazón, Δ = -2 gives terral, Δ = ±0.5 give stability; a missing or zero θv gives the missing-data message |

## Left out

- Streamlit UI: the CSS, `render_wind_card`'s HTML, buttons, columns and metrics (app.py:8-31, 99-187). These are presentation.
- The HTTP request, `raise_for_status`, `r.json()` and the five-minute cache (app.py:65-71). The request's outcome is the `Option<Payload>` parameter of `FetchAllData`, so every network or decoding failure becomes the single failure result.
- Other ways the bare `except` is reached: a record without `idEstacion`, or a measurement without `codigoParametro` or `valor`, raises `KeyError`. The model's records always carry these keys, so those paths are not modelled. A missing `listaMedidas` is modelled (`NormaliseFails`).
- JSON value types: `valor` is modelled as a number; a `null` or text value is not modelled. `codigoParametro` is modelled as text. A number, boolean or `null` code makes `'TA_AVG_1.5m' in c` at app.py:88 raise `TypeError`. An array or object code turns `in` into a membership test of the array's elements or the object's keys. Neither case is modelled. `idEstacion` is modelled as an integer, with `str()` as its decimal text.
- Payload shapes: a `listUltimos10min` that is `null`, a number or a boolean makes `for est in ...` at app.py:77 raise `TypeError`, which gives `(None, None)`. An empty object or string iterates zero times and gives `({}, "N/D")`, the same result as `Payload(Some([]))`. A non-empty object or string yields strings as `est`, so `est['idEstacion']` at app.py:78 raises `TypeError`, which gives `(None, None)`. A decoded body that is not an object changes what `'listUltimos10min' in data` means. The model's `Payload` holds either no list or a list of records, so only the empty case is expressed.
- A timestamp key that is present but `null` is treated like a missing one. In the source, `est.get(...)` would then return `None` rather than "N/D".
- `calc_theta_v` (app.py:40-47) uses an exponential and a fractional power. It is floating-point numerics, so the two θv values are inputs to `ThermalGradient.Analyse`.
- The end-to-end θv pipeline: the reading has no `pres` key, so app.py:195 would raise `KeyError` in the source. The model claims no pipeline from readings to the gradient.
- Timestamp parsing and time-zone conversion (app.py:130-133). These are library calls.
- The turbulence card's text and its gust-factor fallback (app.py:157-172). These are UI formatting.
- Station selection for the cards and the panel (`data.get(...)`, app.py:137-141, 191-194). This is UI glue.
