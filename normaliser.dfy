/**
 * The parsing half of `fetch_all_data`: the decoded answer of the observation service
 * becomes a map from station id (as text) to a seven-field reading, plus the time of
 * the last record ("N/D" when there is none).
 *
 * Each measurement is dispatched to at most one field by the first matching test of an
 * if/elif chain -- exact comparison for the four wind codes, substring search for
 * temperature, humidity and direction deviation -- so a repeated code keeps its last
 * value and an unknown code changes nothing. Afterwards a zero gust direction is
 * replaced by a non-zero mean direction. A later record with the same station id
 * replaces the earlier one.
 *
 * The specification is a set of functions (`Dispatch`, `Apply`, `Fold`, `BuildReading`,
 * `Readings`, `Normalise`); the methods `ReadMeasures` and `ParseStations` are the
 * source's loops, proved to compute them.
 */
module StationNormaliser {
  import opened Optional

  // ---------------------------------------------------------------------------
  // Readings

  /** The seven keys of the per-station dict. */
  datatype Field = WindSpeed | WindDir | GustSpeed | GustDir | Temperature | Humidity | DirStdDev

  /** One station's dict: `w_spd`, `w_dir`, `g_spd`, `g_dir`, `temp`, `hr`, `std`. */
  datatype Reading = Reading(wSpd: real, wDir: real, gSpd: real, gDir: real, temp: real, hr: real, std: real)

  /** Every field starts at 0. */
  const Zero: Reading := Reading(0.0, 0.0, 0.0, 0.0, 0.0, 0.0, 0.0)

  function Get(d: Reading, f: Field): real {
    match f
    case WindSpeed => d.wSpd
    case WindDir => d.wDir
    case GustSpeed => d.gSpd
    case GustDir => d.gDir
    case Temperature => d.temp
    case Humidity => d.hr
    case DirStdDev => d.std
  }

  /** `d[f] = v`: that key takes the value and the others keep theirs. */
  function Set(d: Reading, f: Field, v: real): (r: Reading)
    ensures Get(r, f) == v
    ensures forall g :: g != f ==> Get(r, g) == Get(d, g)
  {
    match f
    case WindSpeed => d.(wSpd := v)
    case WindDir => d.(wDir := v)
    case GustSpeed => d.(gSpd := v)
    case GustDir => d.(gDir := v)
    case Temperature => d.(temp := v)
    case Humidity => d.(hr := v)
    case DirStdDev => d.(std := v)
  }

  // ---------------------------------------------------------------------------
  // Dispatch of parameter codes

  /** Python's `p in s` on strings: `p` occurs somewhere in `s`. */
  predicate Contains(s: string, p: string) {
    p <= s || (s != [] && Contains(s[1..], p))
  }

  ghost predicate OccursAt(s: string, p: string, i: int) {
    0 <= i && i + |p| <= |s| && s[i..i + |p|] == p
  }

  /** The recursive search finds exactly the offsets at which the pattern occurs. */
  lemma {:induction false} OccursImpliesContains(s: string, p: string, i: int)
    requires OccursAt(s, p, i)
    ensures Contains(s, p)
    decreases i
  {
    if i == 0 {
      assert s[..|p|] == p;
    } else {
      assert s[1..][i - 1..i - 1 + |p|] == s[i..i + |p|];
      OccursImpliesContains(s[1..], p, i - 1);
    }
  }

  lemma {:induction false} ContainsImpliesOccurs(s: string, p: string)
    requires Contains(s, p)
    ensures exists i :: OccursAt(s, p, i)
    decreases |s|
  {
    if p <= s {
      assert s[0..|p|] == p;
      assert OccursAt(s, p, 0);
    } else {
      ContainsImpliesOccurs(s[1..], p);
      var i :| OccursAt(s[1..], p, i);
      assert s[1..][i..i + |p|] == s[i + 1..i + 1 + |p|];
      assert OccursAt(s, p, i + 1);
    }
  }

  /** The recursive search finds exactly the offsets at which the pattern occurs. */
  lemma ContainsIffOccurs(s: string, p: string)
    ensures Contains(s, p) <==> exists i :: OccursAt(s, p, i)
  {
    if Contains(s, p) {
      ContainsImpliesOccurs(s, p);
    }
    if exists i :: OccursAt(s, p, i) {
      var i :| OccursAt(s, p, i);
      OccursImpliesContains(s, p, i);
    }
  }

  const WindSpeedCode := "VV_AVG_10m"
  const WindDirCode := "DV_AVG_10m"
  const GustSpeedCode := "VV_RACHA_10m"
  const GustDirCode := "DV_RACHA_10m"
  const TemperatureCode := "TA_AVG_1.5m"
  const HumidityCode := "HR_AVG_1.5m"
  const DirStdDevCode := "DV_SD_10m"

  predicate IsWindCode(code: string) {
    code == WindSpeedCode || code == WindDirCode || code == GustSpeedCode || code == GustDirCode
  }

  /** The if/elif chain: the field the first matching test selects, if any. */
  function Dispatch(code: string): (r: Option<Field>)
    ensures r == Some(WindSpeed) <==> code == WindSpeedCode
    ensures r == Some(WindDir) <==> code == WindDirCode
    ensures r == Some(GustSpeed) <==> code == GustSpeedCode
    ensures r == Some(GustDir) <==> code == GustDirCode
    ensures r == Some(Temperature) <==> !IsWindCode(code) && Contains(code, TemperatureCode)
    ensures r == Some(Humidity) <==>
              !IsWindCode(code) && !Contains(code, TemperatureCode) && Contains(code, HumidityCode)
    ensures r == Some(DirStdDev) <==>
              !IsWindCode(code) && !Contains(code, TemperatureCode) && !Contains(code, HumidityCode)
              && Contains(code, DirStdDevCode)
    ensures r == None <==>
              !IsWindCode(code) && !Contains(code, TemperatureCode) && !Contains(code, HumidityCode)
              && !Contains(code, DirStdDevCode)
  {
    if code == WindSpeedCode then Some(WindSpeed)
    else if code == WindDirCode then Some(WindDir)
    else if code == GustSpeedCode then Some(GustSpeed)
    else if code == GustDirCode then Some(GustDir)
    else if Contains(code, TemperatureCode) then Some(Temperature)
    else if Contains(code, HumidityCode) then Some(Humidity)
    else if Contains(code, DirStdDevCode) then Some(DirStdDev)
    else None
  }

  /** The service's own codes for the substring-matched fields reach the fields they name. */
  lemma DispatchTemperatureCode()
    ensures Dispatch(TemperatureCode) == Some(Temperature)
  {
  }

  lemma DispatchHumidityCode()
    ensures Dispatch(HumidityCode) == Some(Humidity)
  {
    NotContainsLonger(HumidityCode, TemperatureCode);
    assert HumidityCode <= HumidityCode;
  }

  lemma DispatchDirStdDevCode()
    ensures Dispatch(DirStdDevCode) == Some(DirStdDev)
  {
  }

  /** Substring matching: a code that merely embeds the temperature code is a temperature. */
  lemma DispatchEmbeddedCode(prefix: string, suffix: string)
    ensures Dispatch(prefix + TemperatureCode + suffix) == Some(Temperature)
  {
    var c := prefix + TemperatureCode + suffix;
    assert !IsWindCode(c) by {
      assert c[|prefix|] == 'T';
      assert |c| >= |TemperatureCode| == 11;
      if |c| == 12 {
        assert |prefix| <= 1;
      }
    }
    assert OccursAt(c, TemperatureCode, |prefix|) by {
      assert c[|prefix|..|prefix| + |TemperatureCode|] == TemperatureCode;
    }
    ContainsIffOccurs(c, TemperatureCode);
  }

  /** A string cannot contain a longer one, or an equally long different one. */
  lemma {:induction false} NotContainsLonger(s: string, p: string)
    requires |s| < |p| || (|s| == |p| && s != p)
    ensures !Contains(s, p)
  {
    if s != [] {
      NotContainsLonger(s[1..], p);
    }
  }

  // ---------------------------------------------------------------------------
  // One station's measurements

  /** One `{codigoParametro, valor}` entry of `listaMedidas`. */
  datatype Measure = Measure(code: string, value: real)

  /** One pass of the inner loop: at most the dispatched field changes, and it takes the value. */
  function Apply(d: Reading, m: Measure): (r: Reading)
    ensures forall f :: Dispatch(m.code) == Some(f) ==> Get(r, f) == m.value
    ensures forall f :: Dispatch(m.code) != Some(f) ==> Get(r, f) == Get(d, f)
  {
    match Dispatch(m.code)
    case Some(f) => Set(d, f, m.value)
    case None => d
  }

  /** The inner loop over `ms`, starting from `d`: every field keeps its start value or takes a value dispatched to it. */
  function Fold(d: Reading, ms: seq<Measure>): (r: Reading)
    ensures forall f :: Get(r, f) == Get(d, f) ||
              exists j :: 0 <= j < |ms| && Dispatch(ms[j].code) == Some(f) && Get(r, f) == ms[j].value
    decreases |ms|
  {
    if ms == [] then d else Apply(Fold(d, ms[..|ms| - 1]), ms[|ms| - 1])
  }

  /** The invariant the gust rule establishes: a zero gust direction only beside a zero mean direction. */
  predicate GustSettled(d: Reading) {
    !(d.gDir == 0.0 && d.wDir != 0.0)
  }

  /** After the loop: a zero gust direction takes the mean direction; nothing else changes. */
  function GustFallback(d: Reading): (r: Reading)
    ensures GustSettled(r)
    ensures r.gDir == (if d.gDir == 0.0 then d.wDir else d.gDir)
    ensures r == d.(gDir := r.gDir)
  {
    if d.gDir == 0.0 && d.wDir != 0.0 then d.(gDir := d.wDir) else d
  }

  lemma GustFallbackIdempotent(d: Reading)
    ensures GustFallback(GustFallback(d)) == GustFallback(d)
  {
  }

  /** The reading one station record yields. */
  function BuildReading(ms: seq<Measure>): (r: Reading)
    ensures GustSettled(r)
  {
    GustFallback(Fold(Zero, ms))
  }

  /** No measurement of `ms` dispatches to `f`. */
  ghost predicate Unmentioned(ms: seq<Measure>, f: Field) {
    forall j :: 0 <= j < |ms| ==> Dispatch(ms[j].code) != Some(f)
  }

  /** `ms[j]` is the last measurement of `ms` that dispatches to `f`. */
  ghost predicate LastFor(ms: seq<Measure>, f: Field, j: int) {
    && 0 <= j < |ms|
    && Dispatch(ms[j].code) == Some(f)
    && forall k :: j < k < |ms| ==> Dispatch(ms[k].code) != Some(f)
  }

  /** A field no measurement dispatches to keeps its starting value. */
  lemma {:induction false} FoldKeepsUnmentioned(d: Reading, ms: seq<Measure>, f: Field)
    requires Unmentioned(ms, f)
    ensures Get(Fold(d, ms), f) == Get(d, f)
    decreases |ms|
  {
    if ms != [] {
      var init := ms[..|ms| - 1];
      assert Unmentioned(init, f) by {
        forall j | 0 <= j < |init| ensures Dispatch(init[j].code) != Some(f) {
          assert init[j] == ms[j];
        }
      }
      FoldKeepsUnmentioned(d, init, f);
    }
  }

  /** A field takes the value of the last measurement that dispatches to it. */
  lemma {:induction false} FoldLastWins(d: Reading, ms: seq<Measure>, f: Field, j: int)
    requires LastFor(ms, f, j)
    ensures Get(Fold(d, ms), f) == ms[j].value
    decreases |ms|
  {
    var init := ms[..|ms| - 1];
    if j < |ms| - 1 {
      assert LastFor(init, f, j) by {
        forall k | j < k < |init| ensures Dispatch(init[k].code) != Some(f) {
          assert init[k] == ms[k];
        }
        assert init[j] == ms[j];
      }
      FoldLastWins(d, init, f, j);
    }
  }

  /** Defaults: a field whose code never appears is 0, the gust direction then being the mean direction. */
  lemma BuildReadingDefaults(ms: seq<Measure>, f: Field)
    requires Unmentioned(ms, f)
    ensures f != GustDir ==> Get(BuildReading(ms), f) == 0.0
    ensures f == GustDir ==> BuildReading(ms).gDir == BuildReading(ms).wDir
  {
    FoldKeepsUnmentioned(Zero, ms, f);
  }

  /** Last-write-wins: a field other than the gust direction holds the value of its last measurement. */
  lemma BuildReadingLastWins(ms: seq<Measure>, f: Field, j: int)
    requires LastFor(ms, f, j)
    ensures f != GustDir ==> Get(BuildReading(ms), f) == ms[j].value
    ensures f == GustDir ==>
              BuildReading(ms).gDir == (if ms[j].value == 0.0 then BuildReading(ms).wDir else ms[j].value)
  {
    FoldLastWins(Zero, ms, f, j);
  }

  /** A measurement whose code matches no test leaves the reading as it was. */
  lemma IgnoredCodeChangesNothing(d: Reading, m: Measure)
    requires Dispatch(m.code) == None
    ensures Apply(d, m) == d
  {
  }

  /** Only mean wind data: no gust speed, and the gust direction falls back to the mean direction. */
  lemma BuildReadingExample()
    ensures BuildReading([Measure(WindSpeedCode, 5.0), Measure(WindDirCode, 90.0)])
         == Reading(5.0, 90.0, 0.0, 90.0, 0.0, 0.0, 0.0)
  {
    var ms := [Measure(WindSpeedCode, 5.0), Measure(WindDirCode, 90.0)];
    assert ms[..1] == [Measure(WindSpeedCode, 5.0)];
    assert ms[..1][..0] == [];
    assert Fold(Zero, ms[..1]) == Zero.(wSpd := 5.0);
    assert Fold(Zero, ms) == Zero.(wSpd := 5.0, wDir := 90.0);
  }

  /** The inner loop of `fetch_all_data` and the gust rule after it. */
  method ReadMeasures(ms: seq<Measure>) returns (d: Reading)
    ensures d == BuildReading(ms)
  {
    d := Zero;
    var i := 0;
    while i < |ms|
      invariant 0 <= i <= |ms|
      invariant d == Fold(Zero, ms[..i])
    {
      var c, v := ms[i].code, ms[i].value;
      if c == WindSpeedCode { d := d.(wSpd := v); }
      else if c == WindDirCode { d := d.(wDir := v); }
      else if c == GustSpeedCode { d := d.(gSpd := v); }
      else if c == GustDirCode { d := d.(gDir := v); }
      else if Contains(c, TemperatureCode) { d := d.(temp := v); }
      else if Contains(c, HumidityCode) { d := d.(hr := v); }
      else if Contains(c, DirStdDevCode) { d := d.(std := v); }
      assert ms[..i + 1][..i] == ms[..i];
      i := i + 1;
    }
    assert ms[..i] == ms;
    if d.gDir == 0.0 && d.wDir != 0.0 {
      d := d.(gDir := d.wDir);
    }
  }

  // ---------------------------------------------------------------------------
  // Station ids as text

  function DigitChar(n: nat): (c: char)
    requires n < 10
    ensures '0' <= c <= '9'
  {
    "0123456789"[n]
  }

  /** Decimal digits of a natural number, no leading zeros. */
  function NatText(n: nat): (s: string)
    ensures |s| >= 1 && '0' <= s[0] <= '9'
    ensures n >= 10 ==> |s| >= 2
    decreases n
  {
    if n < 10 then [DigitChar(n)] else NatText(n / 10) + [DigitChar(n % 10)]
  }

  /** `str(idEstacion)` for an integer id. */
  function StationKey(id: int): (key: string)
    ensures |key| >= 1
    ensures key[0] == '-' <==> id < 0
  {
    if id < 0 then "-" + NatText(-id) else NatText(id)
  }

  lemma DigitCharInjective(a: nat, b: nat)
    requires a < 10 && b < 10 && DigitChar(a) == DigitChar(b)
    ensures a == b
  {
  }

  lemma {:induction false} NatTextInjective(a: nat, b: nat)
    requires NatText(a) == NatText(b)
    ensures a == b
    decreases a
  {
    var s := NatText(a);
    if a < 10 && b < 10 {
      DigitCharInjective(a, b);
    } else if a >= 10 && b >= 10 {
      assert s[|s| - 1] == DigitChar(a % 10) == DigitChar(b % 10);
      DigitCharInjective(a % 10, b % 10);
      assert s[..|s| - 1] == NatText(a / 10) == NatText(b / 10);
      NatTextInjective(a / 10, b / 10);
    }
  }

  /** Distinct ids get distinct keys, so only a repeated id overwrites. */
  lemma StationKeyInjective(a: int, b: int)
    requires StationKey(a) == StationKey(b)
    ensures a == b
  {
    if a < 0 && b < 0 {
      var s := StationKey(a);
      assert s == "-" + NatText(-a) == "-" + NatText(-b);
      assert s[1..] == NatText(-a) && s[1..] == NatText(-b);
      NatTextInjective(-a, -b);
    } else if a >= 0 && b >= 0 {
      NatTextInjective(a, b);
    }
  }

  lemma StationKeyExample()
    ensures StationKey(10125) == "10125"
  {
  }

  // ---------------------------------------------------------------------------
  // The whole payload

  /** One element of `listUltimos10min`; `measures` is `None` when `listaMedidas` is missing. */
  datatype Station = Station(id: int, timestamp: Option<string>, measures: Option<seq<Measure>>)

  /** The decoded JSON; `stations` is `None` when `listUltimos10min` is missing. */
  datatype Payload = Payload(stations: Option<seq<Station>>)

  /** What `fetch_all_data` returns: the readings and the last update, or `(None, None)`. */
  datatype Outcome = Fetched(readings: map<string, Reading>, lastUpdate: string) | Failed

  const NoData := "N/D"

  predicate AllHaveMeasures(sts: seq<Station>) {
    forall i :: 0 <= i < |sts| ==> sts[i].measures.Some?
  }

  /** The map built by the outer loop: each record stored under its key, later records overwriting; every stored reading satisfies the gust rule. */
  function Readings(sts: seq<Station>): (m: map<string, Reading>)
    requires AllHaveMeasures(sts)
    ensures forall key :: key in m ==> GustSettled(m[key])
    decreases |sts|
  {
    if sts == [] then map[]
    else
      var last := sts[|sts| - 1];
      Readings(sts[..|sts| - 1])[StationKey(last.id) := BuildReading(last.measures.value)]
  }

  /** `last_update` after the outer loop: the last record's timestamp. */
  function LastUpdate(sts: seq<Station>): string {
    if sts == [] then NoData else sts[|sts| - 1].timestamp.GetOr(NoData)
  }

  /** The result of parsing: a missing record list gives no readings; a record without measurements fails the fetch. */
  function Normalise(p: Payload): (r: Outcome)
    ensures r.Failed? <==> p.stations.Some? && exists i :: 0 <= i < |p.stations.value| && p.stations.value[i].measures.None?
  {
    match p.stations
    case None => Fetched(map[], NoData)
    case Some(sts) => if AllHaveMeasures(sts) then Fetched(Readings(sts), LastUpdate(sts)) else Failed
  }

  lemma AllHaveMeasuresPrefix(sts: seq<Station>, n: int)
    requires AllHaveMeasures(sts) && 0 <= n <= |sts|
    ensures AllHaveMeasures(sts[..n])
  {
  }

  /** The keys are exactly the records' ids as text. */
  lemma {:induction false} ReadingsKeys(sts: seq<Station>)
    requires AllHaveMeasures(sts)
    ensures Readings(sts).Keys == set st | st in sts :: StationKey(st.id)
    decreases |sts|
  {
    if sts != [] {
      var init, last := sts[..|sts| - 1], sts[|sts| - 1];
      AllHaveMeasuresPrefix(sts, |sts| - 1);
      ReadingsKeys(init);
      assert sts == init + [last];
      assert forall st :: st in sts <==> st in init || st == last;
      var all := set st | st in sts :: StationKey(st.id);
      var before := set st | st in init :: StationKey(st.id);
      assert all == before + {StationKey(last.id)};
    }
  }

  /** Last-write-wins: a station's entry is the reading of the last record carrying its id. */
  lemma {:induction false} ReadingsLastWriteWins(sts: seq<Station>, j: int)
    requires AllHaveMeasures(sts)
    requires 0 <= j < |sts|
    requires forall k :: j < k < |sts| ==> sts[k].id != sts[j].id
    ensures StationKey(sts[j].id) in Readings(sts)
    ensures Readings(sts)[StationKey(sts[j].id)] == BuildReading(sts[j].measures.value)
    decreases |sts|
  {
    var init := sts[..|sts| - 1];
    if j < |sts| - 1 {
      AllHaveMeasuresPrefix(sts, |sts| - 1);
      assert init[j] == sts[j];
      forall k | j < k < |init| ensures init[k].id != init[j].id {
        assert init[k] == sts[k];
      }
      ReadingsLastWriteWins(init, j);
      var last := sts[|sts| - 1].id;
      if StationKey(last) == StationKey(sts[j].id) {
        StationKeyInjective(last, sts[j].id);
      }
    }
  }

  /** A payload without the record list, or with an empty one, yields no readings and "N/D". */
  lemma NormaliseEmpty(p: Payload)
    requires p.stations.None? || p.stations == Some([])
    ensures Normalise(p) == Fetched(map[], NoData)
  {
  }

  /** The fetch fails when the list is present and some record lacks its measurement list. */
  lemma NormaliseFails(p: Payload, i: int)
    requires p.stations.Some? && 0 <= i < |p.stations.value|
    requires p.stations.value[i].measures.None?
    ensures Normalise(p) == Failed
  {
  }

  /** One more pass of the outer loop stores the next record's reading and timestamp. */
  lemma ReadingsStep(sts: seq<Station>, i: int)
    requires 0 <= i < |sts|
    requires AllHaveMeasures(sts[..i]) && sts[i].measures.Some?
    ensures AllHaveMeasures(sts[..i + 1])
    ensures Readings(sts[..i + 1])
         == Readings(sts[..i])[StationKey(sts[i].id) := BuildReading(sts[i].measures.value)]
    ensures LastUpdate(sts[..i + 1]) == sts[i].timestamp.GetOr(NoData)
  {
    var done := sts[..i + 1];
    assert done[..i] == sts[..i];
    forall k | 0 <= k < |done| ensures done[k].measures.Some? {
      if k < i { assert done[k] == sts[..i][k]; }
    }
  }

  /** The outer loop of `fetch_all_data`. */
  method ParseStations(p: Payload) returns (res: Outcome)
    ensures res == Normalise(p)
    ensures res.Fetched? && p.stations.Some? && p.stations.value != [] ==>
              res.lastUpdate == p.stations.value[|p.stations.value| - 1].timestamp.GetOr(NoData)
    ensures p.stations.None? || p.stations == Some([]) ==> res.Fetched? && res.lastUpdate == NoData
  {
    var parsed: map<string, Reading> := map[];
    var lastUpdate := NoData;
    if p.stations.Some? {
      var sts := p.stations.value;
      var i := 0;
      while i < |sts|
        invariant 0 <= i <= |sts|
        invariant AllHaveMeasures(sts[..i])
        invariant parsed == Readings(sts[..i])
        invariant lastUpdate == LastUpdate(sts[..i])
      {
        var est := sts[i];
        var sid := StationKey(est.id);
        lastUpdate := est.timestamp.GetOr(NoData);
        if est.measures.None? {
          return Failed;
        }
        var d := ReadMeasures(est.measures.value);
        parsed := parsed[sid := d];
        ReadingsStep(sts, i);
        i := i + 1;
      }
      assert sts[..i] == sts;
    }
    res := Fetched(parsed, lastUpdate);
  }

  /** `fetch_all_data` around the parse: a failed request or undecodable body (`None`) gives `(None, None)`. */
  method FetchAllData(body: Option<Payload>) returns (res: Outcome)
    ensures body.None? ==> res == Failed
    ensures body.Some? ==> res == Normalise(body.value)
  {
    if body.None? {
      return Failed;
    }
    res := ParseStations(body.value);
  }
}
