/** The read side of a stored activity: the chart series and the GeoJSON
    line that the track endpoint assembles from the activity's stored points,
    and the two per-point conversions it applies to speed (km/h and a
    minutes-and-seconds pace). */
module Handlers {
  import opened Nullable
  import opened Numeric
  import Clock

  /** A stored point as the track query returns it, ordered by `t`. */
  datatype StoredRow = StoredRow(
    t: int,               // instant, in nanoseconds since the Unix epoch
    ele: Option<real>,    // elevation in meters
    hr: Option<int>,      // heart rate in beats per minute
    spd: Option<real>,    // speed in meters per second
    lon: real,
    lat: real)

  /** One GeoJSON position. Section 3.1.1 of RFC 7946 puts longitude first,
      then latitude; the field order here is the order of the JSON array. */
  datatype Position = Position(lon: real, lat: real)

  /** The eight index-aligned arrays of the track response. */
  datatype TrackSeries = TrackSeries(
    coords: seq<Position>,
    timeIso: seq<string>,
    ele: seq<Option<real>>,
    hr: seq<Option<int>>,
    spd: seq<Option<real>>,
    kmh: seq<Option<real>>,
    pace: seq<Option<real>>,
    elapsed: seq<real>)

  /** Why a track cannot be served. */
  datatype ReadError = NoTrackpoints

  /** Rendering of an instant in UTC with the RFC 3339 nanosecond layout. */
  type IsoFormat = int -> string

  /** Speed in meters per second converted to kilometers per hour. */
  function Kmh(speed: Option<real>): (r: Option<real>)
    ensures r.None? <==> speed.None?
    ensures r.Some? ==> r.value / 3.6 == speed.value
    ensures r.Some? ==> (r.value > 0.0 <==> speed.value > 0.0)
  {
    if speed.None? then None else Some(speed.value * 3.6)
  }

  /** Pace in "minutes.seconds" per kilometer: the whole minutes of the time
      per kilometer, plus its remaining seconds, rounded, over 100. There is
      no carry, so a remainder that rounds to 60 is shown as `.60`. */
  function PaceMinPerKm(speed: Option<real>): (r: Option<real>)
    ensures r.None? <==> speed.None? || speed.value <= 0.0
  {
    if speed.None? || speed.value <= 0.0 then None
    else
      var secPerKm := 1000.0 / speed.value;
      var minutes := (secPerKm / 60.0).Floor;
      var seconds := Round(ModSixty(secPerKm));
      Some(minutes as real + seconds as real / 100.0)
  }

  /** Reading a pace back as a clock time: its integer part is the whole
      minutes of the time per kilometer, never carried into by the seconds;
      its hundredths are whole seconds between 0 and 60, the remaining
      seconds rounded half up; so the time read is within half a second of
      the true time per kilometer. */
  lemma PaceIsClockEncoding(v: real)
    requires v > 0.0
    ensures PaceMinPerKm(Some(v)).Some?
    ensures var p := PaceMinPerKm(Some(v)).value;
      var m := p.Floor;
      var k := 100.0 * (p - m as real);
      var rest := 1000.0 / v - 60.0 * m as real;
      && 0 <= m && m == (1000.0 / v / 60.0).Floor
      && 0.0 <= k <= 60.0 && IsIntegral(k)
      && rest - 0.5 < k <= rest + 0.5
  {
    var s := 1000.0 / v;
    var m := (s / 60.0).Floor;
    var rem := ModSixty(s);
    var k := Round(rem);
    WholeMinutes(s);
    assert 0 <= k <= 60;
    var p := m as real + k as real / 100.0;
    assert PaceMinPerKm(Some(v)).value == p;
    HundredthsOfPace(m, k);
  }

  /** A non-negative time splits into whole minutes and the remainder that
      `ModSixty` leaves. */
  lemma WholeMinutes(s: real)
    requires s >= 0.0
    ensures 0 <= (s / 60.0).Floor
    ensures 60.0 * (s / 60.0).Floor as real + ModSixty(s) == s
  {
    var rem := ModSixty(s);
    var j := (s - rem) / 60.0;
    assert IsIntegral(j);
    assert s / 60.0 == j + rem / 60.0;
    assert 0.0 <= rem / 60.0 < 1.0;
    assert j.Floor == (s / 60.0).Floor;
  }

  /** Whole minutes plus at most sixty seconds over 100 read back exactly. */
  lemma HundredthsOfPace(m: int, k: int)
    requires 0 <= k <= 60
    ensures (m as real + k as real / 100.0).Floor == m
    ensures 100.0 * ((m as real + k as real / 100.0) - m as real) == k as real
  {
    assert 0.0 <= k as real / 100.0 < 1.0;
  }

  /** The two concrete paces a runner would read off a watch: 4 m/s is
      4'10" per kilometer and 3.33 m/s is 5'00". */
  lemma PaceOfTestSpeeds()
    ensures PaceMinPerKm(Some(4.0)) == Some(4.10)
    ensures PaceMinPerKm(Some(3.33)) == Some(5.00)
  {
    assert 1000.0 / 4.0 == 250.0;
    assert (250.0 / 60.0).Floor == 4;
    assert ModSixty(250.0) == 10.0 by {
      var r := ModSixty(250.0);
      var q := (250.0 - r) / 60.0;
      assert IsIntegral(q) && 190.0 / 60.0 < q <= 250.0 / 60.0;
      assert q.Floor == 4;
    }
    assert Round(10.0) == 10;
    var s := 1000.0 / 3.33;
    assert s == 100000.0 / 333.0;
    assert (s / 60.0).Floor == 5;
    assert ModSixty(s) == s - 300.0 by {
      var r := ModSixty(s);
      var q := (s - r) / 60.0;
      assert IsIntegral(q) && (s - 60.0) / 60.0 < q <= s / 60.0;
      assert q.Floor == 5;
    }
    assert s - 300.0 == 100.0 / 333.0;
    assert Round(100.0 / 333.0) == 0;
  }

  /** The missing carry: a time per kilometer of 3'59.6" is shown as 3.60,
      not as 4.00. */
  lemma PaceShowsSixtySeconds()
    ensures PaceMinPerKm(Some(2500.0 / 599.0)) == Some(3.60)
  {
    var s := 1000.0 / (2500.0 / 599.0);
    assert s == 239.6;
    assert (s / 60.0).Floor == 3;
    assert ModSixty(s) == 59.6 by {
      var r := ModSixty(s);
      var q := (s - r) / 60.0;
      assert IsIntegral(q) && (s - 60.0) / 60.0 < q <= s / 60.0;
      assert q.Floor == 3;
    }
    assert Round(59.6) == 60;
  }

  /** Entry `i` of every array of `ts` is derived from row `i` alone (and
      the elapsed time also from row 0, the baseline). */
  ghost predicate RowAt(rows: seq<StoredRow>, iso: IsoFormat, ts: TrackSeries, i: nat)
    requires i < |rows|
    requires |ts.coords| == |ts.timeIso| == |ts.ele| == |ts.hr| == |rows|
    requires |ts.spd| == |ts.kmh| == |ts.pace| == |ts.elapsed| == |rows|
  {
    var p := rows[i];
    && ts.coords[i] == Position(p.lon, p.lat)
    && ts.timeIso[i] == iso(p.t)
    && ts.ele[i] == p.ele
    && ts.hr[i] == p.hr
    && ts.spd[i] == p.spd
    && ts.kmh[i] == Kmh(p.spd)
    && ts.pace[i] == PaceMinPerKm(p.spd)
    && ts.elapsed[i] == Clock.Seconds(Clock.Sub(p.t, rows[0].t))
  }

  /** All eight arrays have one entry per row, index-aligned with the rows. */
  ghost predicate Aligned(rows: seq<StoredRow>, iso: IsoFormat, ts: TrackSeries) {
    && |ts.coords| == |ts.timeIso| == |ts.ele| == |ts.hr| == |rows|
    && |ts.spd| == |ts.kmh| == |ts.pace| == |ts.elapsed| == |rows|
    && forall i :: 0 <= i < |rows| ==> RowAt(rows, iso, ts, i)
  }

  /** The rows arrive in time order, as the query's `ORDER BY t` asks. */
  ghost predicate SortedByTime(rows: seq<StoredRow>) {
    forall i, j :: 0 <= i <= j < |rows| ==> rows[i].t <= rows[j].t
  }

  /** Assembles the track response's series from the stored rows: nothing
      when there are no rows, otherwise one aligned entry per row. */
  method BuildTrack(rows: seq<StoredRow>, iso: IsoFormat) returns (r: Result<TrackSeries, ReadError>)
    ensures r.Err? <==> |rows| == 0
    ensures r.Ok? ==> Aligned(rows, iso, r.value)
  {
    if |rows| == 0 {
      return Err(NoTrackpoints);
    }
    var baseline := rows[0].t;
    var coords: seq<Position> := [];
    var timeIso: seq<string> := [];
    var ele: seq<Option<real>> := [];
    var hr: seq<Option<int>> := [];
    var spd: seq<Option<real>> := [];
    var kmh: seq<Option<real>> := [];
    var pace: seq<Option<real>> := [];
    var elapsed: seq<real> := [];
    var n := 0;
    while n < |rows|
      invariant 0 <= n <= |rows|
      invariant |coords| == |timeIso| == |ele| == |hr| == n
      invariant |spd| == |kmh| == |pace| == |elapsed| == n
      invariant forall i :: 0 <= i < n ==> coords[i] == Position(rows[i].lon, rows[i].lat)
      invariant forall i :: 0 <= i < n ==> timeIso[i] == iso(rows[i].t)
      invariant forall i :: 0 <= i < n ==> ele[i] == rows[i].ele
      invariant forall i :: 0 <= i < n ==> hr[i] == rows[i].hr
      invariant forall i :: 0 <= i < n ==> spd[i] == rows[i].spd
      invariant forall i :: 0 <= i < n ==> kmh[i] == Kmh(rows[i].spd)
      invariant forall i :: 0 <= i < n ==> pace[i] == PaceMinPerKm(rows[i].spd)
      invariant forall i :: 0 <= i < n ==> elapsed[i] == Clock.Seconds(Clock.Sub(rows[i].t, baseline))
    {
      var p := rows[n];
      coords := coords + [Position(p.lon, p.lat)];
      timeIso := timeIso + [iso(p.t)];
      ele := ele + [p.ele];
      hr := hr + [p.hr];
      spd := spd + [p.spd];
      kmh := kmh + [Kmh(p.spd)];
      pace := pace + [PaceMinPerKm(p.spd)];
      elapsed := elapsed + [Clock.Seconds(Clock.Sub(p.t, baseline))];
      n := n + 1;
    }
    var ts := TrackSeries(coords, timeIso, ele, hr, spd, kmh, pace, elapsed);
    assert forall i :: 0 <= i < |rows| ==> RowAt(rows, iso, ts, i);
    return Ok(ts);
  }

  /** Elapsed time starts at zero and, for rows in time order, never goes
      negative and never decreases. */
  lemma ElapsedFromBaseline(rows: seq<StoredRow>, iso: IsoFormat, ts: TrackSeries)
    requires |rows| > 0 && Aligned(rows, iso, ts)
    ensures ts.elapsed[0] == 0.0
    ensures SortedByTime(rows) ==>
      forall i, j :: 0 <= i <= j < |rows| ==> 0.0 <= ts.elapsed[i] <= ts.elapsed[j]
  {
    assert RowAt(rows, iso, ts, 0);
    if SortedByTime(rows) {
      forall i, j | 0 <= i <= j < |rows|
        ensures 0.0 <= ts.elapsed[i] <= ts.elapsed[j]
      {
        assert RowAt(rows, iso, ts, i) && RowAt(rows, iso, ts, j);
        var di := Clock.Sub(rows[i].t, rows[0].t);
        var dj := Clock.Sub(rows[j].t, rows[0].t);
        Clock.SubMonotone(rows[0].t, rows[0].t, rows[i].t);
        Clock.SubMonotone(rows[0].t, rows[i].t, rows[j].t);
        SecondsMonotone(0, di);
        SecondsMonotone(di, dj);
      }
    }
  }

  /** A longer duration is more seconds. */
  lemma SecondsMonotone(d1: int, d2: int)
    requires d1 <= d2
    ensures Clock.Seconds(d1) <= Clock.Seconds(d2)
  {
    ScaleLe(d1 as real, d2 as real, 1.0 / Clock.NanosPerSecond as real);
  }
}
