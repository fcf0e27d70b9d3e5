/** The single left-to-right import pass: timestamps are normalised, points
    whose timestamp does not parse are skipped, and each surviving point
    updates the bounding box, the heart-rate statistics and, against the
    previous surviving point, the speed and the running distance.

    `Step`/`Pass` follow the importer's loop statement by statement. The
    reference definitions below them (`Timed`, `Enrich`, `TotalDistance`,
    `HrCount`, `HrSum`, `Covers`, `Tight`, `IsMaxHR`) say what the pass
    computes without a running state, and the `Pass...` lemmas connect the two. */
module Kinematics {
  import opened Nullable
  import Clock
  import Numeric
  import opened TimeParse
  import opened GpxDoc

  /** A point with a parsed timestamp (nanoseconds) and its derived speed (m/s). */
  datatype ParsedPt = ParsedPt(t: int, lat: real, lon: real, ele: Option<real>, hr: Option<int>, speed: Option<real>)

  datatype BBox = BBox(minLat: real, maxLat: real, minLon: real, maxLon: real)

  /** The box the pass starts from: inverted, so that any point narrows it. */
  const Sentinels: BBox := BBox(90.0, -90.0, 180.0, -180.0)

  /** Great-circle distance in meters between (lat1, lon1) and (lat2, lon2).
      The haversine formula is not modelled: any function can be supplied. */
  type Haversine = (real, real, real, real) -> real

  /** The running state of the loop. `prev` indexes the previous surviving
      point in `series`; `hrSum` is the variable `Import` calls `avgHR`
      until the final division. */
  datatype PassState = PassState(
    series: seq<ParsedPt>,
    prev: Option<nat>,
    totalDistM: real,
    box: BBox,
    hrSum: int,
    hrCnt: nat,
    maxHR: int)

  const Start: PassState := PassState([], None, 0.0, Sentinels, 0, 0, 0)

  /** `prev` points at the last appended point, and only exists once one is. */
  predicate Linked(st: PassState) {
    st.prev == if |st.series| == 0 then None else Some(|st.series| - 1)
  }

  /** The four comparisons that widen the box to include (lat, lon). */
  function Widen(b: BBox, lat: real, lon: real): BBox {
    BBox(
      if lat < b.minLat then lat else b.minLat,
      if lat > b.maxLat then lat else b.maxLat,
      if lon < b.minLon then lon else b.minLon,
      if lon > b.maxLon then lon else b.maxLon)
  }

  /** One iteration of the import loop. An unparsable timestamp leaves the
      state untouched; otherwise exactly one point is appended and `prev`
      moves to it. */
  function Step(parse: LayoutParser, dist: Haversine, st: PassState, p: GpxPoint): (r: PassState)
    requires Linked(st)
    ensures Linked(r)
    ensures ParseTime(parse, p.time).None? ==> r == st
    ensures ParseTime(parse, p.time).Some? ==>
      && |r.series| == |st.series| + 1
      && r.series[..|st.series|] == st.series
      && r.series[|st.series|].t == ParseTime(parse, p.time).value
  {
    match ParseTime(parse, p.time)
    case None => st
    case Some(tt) =>
      var box := Widen(st.box, p.lat, p.lon);
      var hr := HeartRate(p);
      var hrCnt := if hr.Some? then st.hrCnt + 1 else st.hrCnt;
      var hrSum := if hr.Some? then st.hrSum + hr.value else st.hrSum;
      var maxHR := if hr.Some? && hr.value > st.maxHR then hr.value else st.maxHR;
      var np := ParsedPt(tt, p.lat, p.lon, p.ele, hr, None);
      var linked :=
        match st.prev
        case None => (np, st.totalDistM)
        case Some(k) =>
          var q := st.series[k];
          var d := dist(q.lat, q.lon, np.lat, np.lon);
          var dt := Clock.Seconds(Clock.Sub(np.t, q.t));
          if dt > 0.0 && d >= 0.0 then (np.(speed := Some(d / dt)), st.totalDistM + d)
          else (np, st.totalDistM);
      assert (st.series + [linked.0])[..|st.series|] == st.series;
      PassState(st.series + [linked.0], Some(|st.series|), linked.1, box, hrSum, hrCnt, maxHR)
  }

  /** The loop over the flattened points, as a left fold. */
  function Pass(parse: LayoutParser, dist: Haversine, pts: seq<GpxPoint>): (st: PassState)
    ensures Linked(st)
    decreases |pts|
  {
    if |pts| == 0 then Start
    else Step(parse, dist, Pass(parse, dist, pts[..|pts| - 1]), pts[|pts| - 1])
  }

  // ---------------------------------------------------------------------
  // Reference definitions

  /** A point whose timestamp parsed to `t`, before any speed is derived. */
  function TimedPoint(p: GpxPoint, t: int): ParsedPt {
    ParsedPt(t, p.lat, p.lon, p.ele, HeartRate(p), None)
  }

  /** The surviving points: those whose timestamp parses, in input order. */
  function Timed(parse: LayoutParser, pts: seq<GpxPoint>): (s: seq<ParsedPt>)
    ensures |s| <= |pts|
    ensures forall i :: 0 <= i < |s| ==> s[i].speed.None?
    decreases |pts|
  {
    if |pts| == 0 then []
    else
      var s := Timed(parse, pts[..|pts| - 1]);
      var p := pts[|pts| - 1];
      match ParseTime(parse, p.time)
      case None => s
      case Some(t) => s + [TimedPoint(p, t)]
  }

  /** Speed of the leg from `a` to `b`: present exactly when the elapsed time
      is positive and the distance is not negative. */
  function LegSpeed(dist: Haversine, a: ParsedPt, b: ParsedPt): (v: Option<real>)
    ensures v.Some? <==> b.t > a.t && dist(a.lat, a.lon, b.lat, b.lon) >= 0.0
  {
    var d := dist(a.lat, a.lon, b.lat, b.lon);
    var dt := Clock.Seconds(Clock.Sub(b.t, a.t));
    if dt > 0.0 && d >= 0.0 then Some(d / dt) else None
  }

  /** A leg's speed is non-negative, and covering the leg's elapsed time at
      that speed covers exactly the leg's distance. */
  lemma LegSpeedCoversLeg(dist: Haversine, a: ParsedPt, b: ParsedPt)
    requires LegSpeed(dist, a, b).Some?
    ensures LegSpeed(dist, a, b).value >= 0.0
    ensures LegSpeed(dist, a, b).value * Clock.Seconds(Clock.Sub(b.t, a.t)) == dist(a.lat, a.lon, b.lat, b.lon)
  {
    var d := dist(a.lat, a.lon, b.lat, b.lon);
    var dt := Clock.Seconds(Clock.Sub(b.t, a.t));
    assert dt > 0.0;
    assert d / dt * dt == d;
    Numeric.QuotientSign(d, dt);
  }

  /** The distance a leg contributes to the total: its length when it yields
      a speed, else nothing. */
  function LegDistance(dist: Haversine, a: ParsedPt, b: ParsedPt): (d: real)
    ensures d >= 0.0
    ensures LegSpeed(dist, a, b).Some? ==> d == dist(a.lat, a.lon, b.lat, b.lon)
    ensures LegSpeed(dist, a, b).None? ==> d == 0.0
  {
    if LegSpeed(dist, a, b).Some? then dist(a.lat, a.lon, b.lat, b.lon) else 0.0
  }

  /** The surviving points with speeds attached, each measured against the
      point just before it in the surviving sequence. */
  function Enrich(dist: Haversine, s: seq<ParsedPt>): (r: seq<ParsedPt>)
    ensures |r| == |s|
    ensures |r| > 0 ==> r[0].speed.None?
    ensures forall i :: 0 < i < |s| ==> r[i].speed == LegSpeed(dist, s[i - 1], s[i])
    ensures forall i :: 0 <= i < |s| ==>
      r[i].t == s[i].t && r[i].lat == s[i].lat && r[i].lon == s[i].lon && r[i].ele == s[i].ele && r[i].hr == s[i].hr
  {
    seq(|s|, i requires 0 <= i < |s| => s[i].(speed := if i == 0 then None else LegSpeed(dist, s[i - 1], s[i])))
  }

  /** Sum of the leg distances along the surviving sequence. */
  function TotalDistance(dist: Haversine, s: seq<ParsedPt>): (d: real)
    ensures d >= 0.0
    decreases |s|
  {
    if |s| < 2 then 0.0
    else TotalDistance(dist, s[..|s| - 1]) + LegDistance(dist, s[|s| - 2], s[|s| - 1])
  }

  /** Number of surviving points carrying a heart rate. */
  function HrCount(s: seq<ParsedPt>): (n: nat)
    ensures n <= |s|
    ensures n == 0 <==> forall i :: 0 <= i < |s| ==> s[i].hr.None?
    decreases |s|
  {
    if |s| == 0 then 0
    else
      var n := HrCount(s[..|s| - 1]) + (if s[|s| - 1].hr.Some? then 1 else 0);
      assert forall i :: 0 <= i < |s| - 1 ==> s[..|s| - 1][i] == s[i];
      n
  }

  /** Sum of the heart rates carried by surviving points. */
  function HrSum(s: seq<ParsedPt>): int
    decreases |s|
  {
    if |s| == 0 then 0
    else HrSum(s[..|s| - 1]) + (if s[|s| - 1].hr.Some? then s[|s| - 1].hr.value else 0)
  }

  /** `m` is the largest of 0 and the heart rates in `s`. */
  ghost predicate IsMaxHR(m: int, s: seq<ParsedPt>) {
    && 0 <= m
    && (forall i :: 0 <= i < |s| && s[i].hr.Some? ==> s[i].hr.value <= m)
    && (m == 0 || exists i :: 0 <= i < |s| && s[i].hr == Some(m))
  }

  /** Every point of `s` lies inside `b`. */
  ghost predicate Covers(b: BBox, s: seq<ParsedPt>) {
    forall i :: 0 <= i < |s| ==> b.minLat <= s[i].lat <= b.maxLat && b.minLon <= s[i].lon <= b.maxLon
  }

  /** Each side of `b` is its sentinel or is touched by a point: with `Covers`,
      `minLat` is min(90, lats), `maxLat` max(-90, lats), and likewise for the
      longitudes with 180 and -180. */
  ghost predicate Tight(b: BBox, s: seq<ParsedPt>) {
    && b.minLat <= 90.0 && (b.minLat == 90.0 || exists i :: 0 <= i < |s| && s[i].lat == b.minLat)
    && b.maxLat >= -90.0 && (b.maxLat == -90.0 || exists i :: 0 <= i < |s| && s[i].lat == b.maxLat)
    && b.minLon <= 180.0 && (b.minLon == 180.0 || exists i :: 0 <= i < |s| && s[i].lon == b.minLon)
    && b.maxLon >= -180.0 && (b.maxLon == -180.0 || exists i :: 0 <= i < |s| && s[i].lon == b.maxLon)
  }

  // ---------------------------------------------------------------------
  // The pass computes the reference definitions

  /** Dropping unparsable points is an order-preserving filter: it distributes
      over concatenation, keeps a parsable point and drops an unparsable one. */
  lemma {:induction false} TimedAppend(parse: LayoutParser, a: seq<GpxPoint>, b: seq<GpxPoint>)
    ensures Timed(parse, a + b) == Timed(parse, a) + Timed(parse, b)
    ensures |b| == 1 && ParseTime(parse, b[0].time).None? ==> Timed(parse, b) == []
    ensures |b| == 1 && ParseTime(parse, b[0].time).Some? ==>
      Timed(parse, b) == [TimedPoint(b[0], ParseTime(parse, b[0].time).value)]
    decreases |b|
  {
    if |b| == 0 {
      assert a + b == a;
    } else {
      var b' := b[..|b| - 1];
      assert (a + b)[..|a + b| - 1] == a + b';
      assert (a + b)[|a + b| - 1] == b[|b| - 1];
      TimedAppend(parse, a, b');
      if |b| == 1 {
        assert b' == [];
      }
    }
  }

  /** Appending a surviving point extends the enriched sequence by that point
      with its speed measured against the previous survivor. */
  lemma EnrichSnoc(dist: Haversine, s: seq<ParsedPt>, x: ParsedPt)
    requires |s| > 0
    ensures Enrich(dist, s + [x]) == Enrich(dist, s) + [x.(speed := LegSpeed(dist, s[|s| - 1], x))]
  {
    var l, r := Enrich(dist, s + [x]), Enrich(dist, s) + [x.(speed := LegSpeed(dist, s[|s| - 1], x))];
    assert |l| == |r|;
    forall i | 0 <= i < |l| ensures l[i] == r[i] {
      if i < |s| && i > 0 {
        assert (s + [x])[i - 1] == s[i - 1];
      }
    }
  }

  /** What one iteration does with a point whose timestamp parses to `t`. */
  lemma StepTimed(parse: LayoutParser, dist: Haversine, st: PassState, p: GpxPoint, t: int)
    requires Linked(st) && ParseTime(parse, p.time) == Some(t)
    ensures var r := Step(parse, dist, st, p);
      var x := TimedPoint(p, t);
      && r.box == Widen(st.box, p.lat, p.lon)
      && r.hrCnt == st.hrCnt + (if x.hr.Some? then 1 else 0)
      && r.hrSum == st.hrSum + (if x.hr.Some? then x.hr.value else 0)
      && r.maxHR == (if x.hr.Some? && x.hr.value > st.maxHR then x.hr.value else st.maxHR)
      && (|st.series| == 0 ==> r.series == [x] && r.totalDistM == st.totalDistM)
      && (|st.series| > 0 ==>
           var q := st.series[|st.series| - 1];
           && r.series == st.series + [x.(speed := LegSpeed(dist, q, x))]
           && r.totalDistM == st.totalDistM + LegDistance(dist, q, x))
  {
  }

  /** The output series of the pass is the surviving points, in order, with
      speeds measured against the previous surviving point. */
  lemma {:induction false} PassSeries(parse: LayoutParser, dist: Haversine, pts: seq<GpxPoint>)
    ensures Pass(parse, dist, pts).series == Enrich(dist, Timed(parse, pts))
    decreases |pts|
  {
    if |pts| > 0 {
      var init, p := pts[..|pts| - 1], pts[|pts| - 1];
      var st := Pass(parse, dist, init);
      assert Pass(parse, dist, pts) == Step(parse, dist, st, p);
      PassSeries(parse, dist, init);
      var s := Timed(parse, init);
      match ParseTime(parse, p.time)
      case None =>
      case Some(t) =>
        var x := TimedPoint(p, t);
        assert Timed(parse, pts) == s + [x];
        StepTimed(parse, dist, st, p, t);
        if |s| == 0 {
          assert Enrich(dist, s + [x]) == [x];
        } else {
          assert LegSpeed(dist, st.series[|s| - 1], x) == LegSpeed(dist, s[|s| - 1], x);
          EnrichSnoc(dist, s, x);
        }
    }
  }

  /** The running distance of the pass is the sum of the surviving legs. */
  lemma {:induction false} PassDistance(parse: LayoutParser, dist: Haversine, pts: seq<GpxPoint>)
    ensures Pass(parse, dist, pts).totalDistM == TotalDistance(dist, Timed(parse, pts))
    decreases |pts|
  {
    if |pts| > 0 {
      var init, p := pts[..|pts| - 1], pts[|pts| - 1];
      var st := Pass(parse, dist, init);
      assert Pass(parse, dist, pts) == Step(parse, dist, st, p);
      PassDistance(parse, dist, init);
      PassSeries(parse, dist, init);
      var s := Timed(parse, init);
      match ParseTime(parse, p.time)
      case None =>
      case Some(t) =>
        var x := TimedPoint(p, t);
        assert Timed(parse, pts) == s + [x];
        StepTimed(parse, dist, st, p, t);
        assert (s + [x])[..|s|] == s;
        if |s| > 0 {
          assert LegDistance(dist, st.series[|s| - 1], x) == LegDistance(dist, s[|s| - 1], x);
        }
    }
  }

  /** After the pass the box bounds every surviving point and each side is
      its sentinel or attained by a surviving point. */
  lemma {:induction false} PassBounds(parse: LayoutParser, dist: Haversine, pts: seq<GpxPoint>)
    ensures Covers(Pass(parse, dist, pts).box, Timed(parse, pts))
    ensures Tight(Pass(parse, dist, pts).box, Timed(parse, pts))
    decreases |pts|
  {
    if |pts| > 0 {
      var init, p := pts[..|pts| - 1], pts[|pts| - 1];
      var st := Pass(parse, dist, init);
      assert Pass(parse, dist, pts) == Step(parse, dist, st, p);
      PassBounds(parse, dist, init);
      var s := Timed(parse, init);
      match ParseTime(parse, p.time)
      case None =>
      case Some(t) =>
        var x := TimedPoint(p, t);
        assert Timed(parse, pts) == s + [x];
        StepTimed(parse, dist, st, p, t);
        WidenBounds(st.box, s, x);
    }
  }

  /** Widening a box that bounds `s` tightly by the point `x` bounds `s + [x]` tightly. */
  lemma WidenBounds(b: BBox, s: seq<ParsedPt>, x: ParsedPt)
    requires Covers(b, s) && Tight(b, s)
    ensures Covers(Widen(b, x.lat, x.lon), s + [x])
    ensures Tight(Widen(b, x.lat, x.lon), s + [x])
  {
    var s' := s + [x];
    assert forall i :: 0 <= i < |s| ==> s'[i] == s[i];
    assert s'[|s|] == x;
  }

  /** The heart-rate counters of the pass: the count and sum over surviving
      points carrying a heart rate, and the maximum of 0 and those rates. */
  lemma {:induction false} PassHeartRate(parse: LayoutParser, dist: Haversine, pts: seq<GpxPoint>)
    ensures Pass(parse, dist, pts).hrCnt == HrCount(Timed(parse, pts))
    ensures Pass(parse, dist, pts).hrSum == HrSum(Timed(parse, pts))
    ensures IsMaxHR(Pass(parse, dist, pts).maxHR, Timed(parse, pts))
    decreases |pts|
  {
    if |pts| > 0 {
      var init, p := pts[..|pts| - 1], pts[|pts| - 1];
      var st := Pass(parse, dist, init);
      assert Pass(parse, dist, pts) == Step(parse, dist, st, p);
      PassHeartRate(parse, dist, init);
      var s := Timed(parse, init);
      match ParseTime(parse, p.time)
      case None =>
      case Some(t) =>
        var x := TimedPoint(p, t);
        assert Timed(parse, pts) == s + [x];
        StepTimed(parse, dist, st, p, t);
        assert (s + [x])[..|s|] == s;
        MaxHRSnoc(st.maxHR, s, x);
    }
  }

  /** Folding one more point into the running maximum keeps `IsMaxHR`. */
  lemma MaxHRSnoc(m: int, s: seq<ParsedPt>, x: ParsedPt)
    requires IsMaxHR(m, s)
    ensures IsMaxHR(if x.hr.Some? && x.hr.value > m then x.hr.value else m, s + [x])
  {
    var s' := s + [x];
    assert forall i :: 0 <= i < |s| ==> s'[i] == s[i];
    assert s'[|s|] == x;
  }

  /** A point whose timestamp does not parse can be removed from anywhere in
      the input without changing anything the pass computes. */
  lemma {:induction false} UntimedPointIsInert(parse: LayoutParser, dist: Haversine, a: seq<GpxPoint>, p: GpxPoint, b: seq<GpxPoint>)
    requires ParseTime(parse, p.time).None?
    ensures Pass(parse, dist, a + [p] + b) == Pass(parse, dist, a + b)
    decreases |b|
  {
    if |b| == 0 {
      assert a + [p] + b == a + [p];
      assert (a + [p])[..|a|] == a;
      assert a + b == a;
    } else {
      var b' := b[..|b| - 1];
      assert (a + [p] + b)[..|a + [p] + b| - 1] == a + [p] + b';
      assert (a + b)[..|a + b| - 1] == a + b';
      assert (a + [p] + b)[|a + [p] + b| - 1] == (a + b)[|a + b| - 1];
      UntimedPointIsInert(parse, dist, a, p, b');
    }
  }
}
