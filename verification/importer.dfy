/** The import of one GPX document: flatten, run the pass, reject documents
    with too few points, and derive the activity summary that is written
    beside the points. The transaction that writes them is not modelled; its
    inputs are the `Imported` value. */
module Importer {
  import opened Nullable
  import opened Numeric
  import Clock
  import opened TimeParse
  import opened GpxDoc
  import opened Kinematics

  /** The two ways an already-decoded document is refused. */
  datatype ImportError =
    | NotEnoughPoints  // fewer than two points in the document
    | NoTimedPoints    // fewer than two points with a parsable timestamp

  /** The activity row: start instant, duration in whole seconds, distance in
      whole meters, heart-rate statistics and the bounding polygon. */
  datatype Activity = Activity(
    startedAt: int,
    durationSec: int,
    distanceM: int,
    avgHR: Option<int>,
    maxHR: Option<int>,
    bounds: seq<Vertex>)

  /** What the transaction writes: one activity row and one row per point. */
  datatype Imported = Imported(activity: Activity, points: seq<ParsedPt>)

  // ---------------------------------------------------------------------
  // Helpers

  /** `nullIntPtr`: the value when `ok`, nil otherwise. */
  function NullInt(v: int, ok: bool): (r: Option<int>)
    ensures r.Some? <==> ok
    ensures r.Some? ==> r.value == v
  {
    if !ok then None else Some(v)
  }

  /** A polygon vertex, longitude first as in WKT. */
  datatype Vertex = Vertex(lon: real, lat: real)

  /** The bounding box as a closed polygon ring in lon/lat order. */
  function BBoxRing(minLat: real, minLon: real, maxLat: real, maxLon: real): (ring: seq<Vertex>)
    ensures |ring| == 5 && ring[0] == ring[4]
    ensures ring[0] == Vertex(minLon, minLat)
    ensures forall i :: 0 <= i < |ring| ==>
      (ring[i].lon == minLon || ring[i].lon == maxLon) && (ring[i].lat == minLat || ring[i].lat == maxLat)
    ensures forall lon, lat :: (lon == minLon || lon == maxLon) && (lat == minLat || lat == maxLat) ==>
      Vertex(lon, lat) in ring
    ensures forall i :: 0 <= i < |ring| - 1 ==> ring[i].lon == ring[i + 1].lon || ring[i].lat == ring[i + 1].lat
  {
    [Vertex(minLon, minLat), Vertex(maxLon, minLat), Vertex(maxLon, maxLat), Vertex(minLon, maxLat), Vertex(minLon, minLat)]
  }

  /** Twice the signed area of a ring: the shoelace sum over its edges from
      vertex `k` on. */
  function TwiceSignedArea(ring: seq<Vertex>, k: nat): real
    decreases |ring| - k
  {
    if k + 1 >= |ring| then 0.0
    else ring[k].lon * ring[k + 1].lat - ring[k + 1].lon * ring[k].lat + TwiceSignedArea(ring, k + 1)
  }

  /** The ring encloses exactly the box, counter-clockwise in (lon, lat): its
      signed area is the box's area, positive for a box of positive size. With
      latitude and longitude swapped the sign would flip. */
  lemma BBoxRingArea(minLat: real, minLon: real, maxLat: real, maxLon: real)
    ensures TwiceSignedArea(BBoxRing(minLat, minLon, maxLat, maxLon), 0) == 2.0 * (maxLon - minLon) * (maxLat - minLat)
  {
    var ring := BBoxRing(minLat, minLon, maxLat, maxLon);
    var e0 := minLon * minLat - maxLon * minLat;
    var e1 := maxLon * maxLat - maxLon * minLat;
    var e2 := maxLon * maxLat - minLon * maxLat;
    var e3 := minLon * minLat - minLon * maxLat;
    assert TwiceSignedArea(ring, 4) == 0.0;
    assert TwiceSignedArea(ring, 3) == e3;
    assert TwiceSignedArea(ring, 2) == e2 + e3;
    assert TwiceSignedArea(ring, 1) == e1 + e2 + e3;
    assert TwiceSignedArea(ring, 0) == e0 + e1 + e2 + e3;
    assert e0 + e1 + e2 + e3 == 2.0 * (maxLon - minLon) * (maxLat - minLat);
  }

  /** `fmt`'s `%f` verb; its digits are not modelled. */
  type Fixed6 = real -> string

  function VertexText(f: Fixed6, v: Vertex): string {
    f(v.lon) + " " + f(v.lat)
  }

  /** The vertices from `k` on, separated by commas. */
  function JoinVertices(f: Fixed6, ring: seq<Vertex>, k: nat): string
    decreases |ring| - k
  {
    if k >= |ring| then ""
    else if k + 1 == |ring| then VertexText(f, ring[k])
    else VertexText(f, ring[k]) + "," + JoinVertices(f, ring, k + 1)
  }

  /** `bboxToWKT`: the well-known-text polygon of the box, a closed ring of
      "lon lat" pairs starting and ending at the south-west corner and going
      east, north, west. */
  function Wkt(f: Fixed6, minLat: real, minLon: real, maxLat: real, maxLon: real): (r: string)
    ensures r ==
      "POLYGON((" + (f(minLon) + " " + f(minLat) + "," + (f(maxLon) + " " + f(minLat) + ","
      + (f(maxLon) + " " + f(maxLat) + "," + (f(minLon) + " " + f(maxLat) + ","
      + f(minLon) + " " + f(minLat))))) + "))"
  {
    var ring := BBoxRing(minLat, minLon, maxLat, maxLon);
    RingText(f, minLat, minLon, maxLat, maxLon);
    "POLYGON((" + JoinVertices(f, ring, 0) + "))"
  }

  /** The vertex list of the ring, written out corner by corner. */
  lemma RingText(f: Fixed6, minLat: real, minLon: real, maxLat: real, maxLon: real)
    ensures JoinVertices(f, BBoxRing(minLat, minLon, maxLat, maxLon), 0) ==
      f(minLon) + " " + f(minLat) + "," + (f(maxLon) + " " + f(minLat) + ","
      + (f(maxLon) + " " + f(maxLat) + "," + (f(minLon) + " " + f(maxLat) + ","
      + f(minLon) + " " + f(minLat))))
  {
    var ring := [Vertex(minLon, minLat), Vertex(maxLon, minLat), Vertex(maxLon, maxLat),
      Vertex(minLon, maxLat), Vertex(minLon, minLat)];
    assert ring == BBoxRing(minLat, minLon, maxLat, maxLon);
    var sw, se := f(minLon) + " " + f(minLat), f(maxLon) + " " + f(minLat);
    var ne, nw := f(maxLon) + " " + f(maxLat), f(minLon) + " " + f(maxLat);
    var j3 := nw + "," + sw;
    var j2 := ne + "," + j3;
    var j1 := se + "," + j2;
    assert JoinVertices(f, ring, 3) == j3;
    assert JoinVertices(f, ring, 2) == j2;
    assert JoinVertices(f, ring, 1) == j1;
    assert JoinVertices(f, ring, 0) == sw + "," + j1;
  }

  /** The test's box (minLat 10, minLon 20, maxLat 30, maxLon 40) renders as
      the ring (20 10, 40 10, 40 30, 20 30, 20 10); with `%f` printing six
      decimals this is the text the test expects. */
  lemma WktOfTestBox(f: Fixed6)
    ensures Wkt(f, 10.0, 20.0, 30.0, 40.0) ==
      "POLYGON((" + (f(20.0) + " " + f(10.0) + "," + (f(40.0) + " " + f(10.0) + "," + (f(40.0) + " " + f(30.0) + ","
      + (f(20.0) + " " + f(30.0) + "," + f(20.0) + " " + f(10.0))))) + "))"
  {
  }

  /** The activity's duration: the elapsed time between the first and last
      surviving points, truncated to whole seconds, never negative. */
  function DurationSeconds(start: int, end: int): (r: int)
    ensures r >= 0
    ensures end <= start ==> r == 0
    ensures start <= end && end - start <= Clock.MaxDuration ==> r == (end - start) / Clock.NanosPerSecond
    ensures end - start > Clock.MaxDuration ==> r == Clock.MaxDuration / Clock.NanosPerSecond
  {
    var d := Clock.Sub(end, start);
    Clock.TruncSeconds(d);
    var secs := Trunc(Clock.Seconds(d));
    if secs < 0 then 0 else secs
  }

  /** The mean heart rate rounded to the nearest integer, a half away from
      zero. */
  function AverageHR(sum: int, cnt: int): (r: int)
    requires cnt > 0
    ensures var mean := sum as real / cnt as real;
      && (mean >= 0.0 ==> mean - 0.5 < r as real <= mean + 0.5)
      && (mean < 0.0 ==> mean - 0.5 <= r as real < mean + 0.5)
  {
    Round(sum as real / cnt as real)
  }

  // ---------------------------------------------------------------------
  // The import

  /** Flatten, fold, validate and summarise one decoded document. The
      `Import...` lemmas below state what an accepted import holds. */
  function Import(parse: LayoutParser, dist: Haversine, g: GpxFile): (r: Result<Imported, ImportError>)
    ensures r == Err(NotEnoughPoints) <==> |Flatten(g.tracks)| < 2
    ensures r.Ok? ==> |r.value.points| >= 2 && |r.value.activity.bounds| == 5
    ensures r.Ok? ==> r.value.activity.durationSec >= 0
  {
    var pts := Flatten(g.tracks);
    if |pts| < 2 then Err(NotEnoughPoints)
    else Summarize(Pass(parse, dist, pts))
  }

  /** After the pass: refuse fewer than two surviving points, otherwise derive
      the activity row from the final state. */
  function Summarize(st: PassState): (r: Result<Imported, ImportError>)
    ensures r.Err? <==> |st.series| < 2
    ensures r.Err? ==> r.error == NoTimedPoints
    ensures r.Ok? ==> r.value.points == st.series
  {
    if |st.series| < 2 then Err(NoTimedPoints)
    else
      var start := st.series[0].t;
      var end := st.series[|st.series| - 1].t;
      var avgHR := if st.hrCnt > 0 then AverageHR(st.hrSum, st.hrCnt) else st.hrSum;
      var b := st.box;
      Ok(Imported(
        Activity(
          start,
          DurationSeconds(start, end),
          Trunc(st.totalDistM),
          NullInt(avgHR, st.hrCnt > 0),
          NullInt(st.maxHR, st.hrCnt > 0),
          BBoxRing(b.minLat, b.minLon, b.maxLat, b.maxLon)),
        st.series))
  }

  /** The activity row `Summarize` derives from a final state. */
  lemma SummarizeFields(st: PassState)
    requires |st.series| >= 2
    ensures var a := Summarize(st).value.activity;
      var b := st.box;
      && a.startedAt == st.series[0].t
      && a.durationSec == DurationSeconds(st.series[0].t, st.series[|st.series| - 1].t)
      && a.distanceM == Trunc(st.totalDistM)
      && a.avgHR == NullInt(if st.hrCnt > 0 then AverageHR(st.hrSum, st.hrCnt) else st.hrSum, st.hrCnt > 0)
      && a.maxHR == NullInt(st.maxHR, st.hrCnt > 0)
      && a.bounds == BBoxRing(b.minLat, b.minLon, b.maxLat, b.maxLon)
  {
  }

  /** The import is refused for fewer than two points in the document, then
      for fewer than two surviving points, and accepted otherwise. */
  lemma ImportRejects(parse: LayoutParser, dist: Haversine, g: GpxFile)
    ensures Import(parse, dist, g) == Err(NotEnoughPoints) <==> |Flatten(g.tracks)| < 2
    ensures Import(parse, dist, g) == Err(NoTimedPoints) <==>
      |Flatten(g.tracks)| >= 2 && |Timed(parse, Flatten(g.tracks))| < 2
    ensures Import(parse, dist, g).Ok? <==> |Timed(parse, Flatten(g.tracks))| >= 2
  {
    PassSeries(parse, dist, Flatten(g.tracks));
  }

  /** The stored points are the surviving points in document order, the first
      without a speed and each later one with the speed of its leg from the
      previous survivor (`Enrich`). */
  lemma ImportPoints(parse: LayoutParser, dist: Haversine, g: GpxFile)
    requires Import(parse, dist, g).Ok?
    ensures var s := Timed(parse, Flatten(g.tracks));
      && |s| >= 2
      && Import(parse, dist, g).value.points == Enrich(dist, s)
  {
    PassSeries(parse, dist, Flatten(g.tracks));
  }

  /** Start, duration and distance of an accepted import. */
  lemma ImportTotals(parse: LayoutParser, dist: Haversine, g: GpxFile)
    requires Import(parse, dist, g).Ok?
    ensures var s := Timed(parse, Flatten(g.tracks));
      var a := Import(parse, dist, g).value.activity;
      && |s| >= 2
      && a.startedAt == s[0].t
      && a.durationSec == DurationSeconds(s[0].t, s[|s| - 1].t)
      && a.distanceM == Trunc(TotalDistance(dist, s))
      && a.distanceM >= 0
  {
    var s := Timed(parse, Flatten(g.tracks));
    PassSeries(parse, dist, Flatten(g.tracks));
    PassDistance(parse, dist, Flatten(g.tracks));
  }

  /** Heart-rate statistics of an accepted import: both are null exactly when
      no surviving point carries a heart rate; otherwise the maximum is the
      largest of 0 and the rates and the average is the mean, rounded. */
  lemma ImportHeartRate(parse: LayoutParser, dist: Haversine, g: GpxFile)
    requires Import(parse, dist, g).Ok?
    ensures var s := Timed(parse, Flatten(g.tracks));
      var a := Import(parse, dist, g).value.activity;
      && (a.avgHR.None? <==> HrCount(s) == 0)
      && (a.maxHR.None? <==> HrCount(s) == 0)
      && (a.maxHR.Some? ==> IsMaxHR(a.maxHR.value, s))
      && (a.avgHR.Some? ==>
            var mean := HrSum(s) as real / HrCount(s) as real;
            && (mean >= 0.0 ==> mean - 0.5 < a.avgHR.value as real <= mean + 0.5)
            && (mean < 0.0 ==> mean - 0.5 <= a.avgHR.value as real < mean + 0.5))
  {
    PassHeartRate(parse, dist, Flatten(g.tracks));
  }

  /** The stored polygon bounds every stored point, and each of its sides is
      the sentinel or touches a stored point. */
  lemma ImportBounds(parse: LayoutParser, dist: Haversine, g: GpxFile)
    requires Import(parse, dist, g).Ok?
    ensures var imp := Import(parse, dist, g).value;
      var ring := imp.activity.bounds;
      var box := BBox(ring[0].lat, ring[2].lat, ring[0].lon, ring[2].lon);
      && |ring| == 5
      && Covers(box, imp.points)
      && Tight(box, imp.points)
  {
    var pts := Flatten(g.tracks);
    var s := Timed(parse, pts);
    var st := Pass(parse, dist, pts);
    PassSeries(parse, dist, pts);
    PassBounds(parse, dist, pts);
    var imp := Import(parse, dist, g).value;
    assert imp == Summarize(st).value;
    SummarizeFields(st);
    assert imp.points == Enrich(dist, s);
    var ring := imp.activity.bounds;
    assert BBox(ring[0].lat, ring[2].lat, ring[0].lon, ring[2].lon) == st.box;
    SameBounds(st.box, s, imp.points);
  }

  /** Bounds depend only on the positions of the points. */
  lemma SameBounds(b: BBox, s: seq<ParsedPt>, s': seq<ParsedPt>)
    requires |s| == |s'|
    requires forall i :: 0 <= i < |s| ==> s[i].lat == s'[i].lat && s[i].lon == s'[i].lon
    requires Covers(b, s) && Tight(b, s)
    ensures Covers(b, s') && Tight(b, s')
  {
  }

  /** Two points ten seconds apart: duration 10, distance the length of the
      one leg, and a speed on the second point only. */
  lemma TwoPointImport(parse: LayoutParser, dist: Haversine, p1: GpxPoint, p2: GpxPoint, t1: int)
    requires ParseTime(parse, p1.time) == Some(t1)
    requires ParseTime(parse, p2.time) == Some(t1 + 10 * Clock.NanosPerSecond)
    requires dist(p1.lat, p1.lon, p2.lat, p2.lon) >= 0.0
    ensures var d := dist(p1.lat, p1.lon, p2.lat, p2.lon);
      var r := Import(parse, dist, GpxFile([Track([Segment([p1, p2])])]));
      && r.Ok?
      && r.value.activity.durationSec == 10
      && r.value.activity.distanceM == Trunc(d)
      && r.value.points[0].speed.None?
      && r.value.points[1].speed == Some(d / 10.0)
  {
    var g := GpxFile([Track([Segment([p1, p2])])]);
    FlattenPair(g, p1, p2);
    var st1 := Step(parse, dist, Start, p1);
    StepTimed(parse, dist, Start, p1, t1);
    assert [p1][..0] == [];
    assert Pass(parse, dist, [p1]) == st1;
    assert [p1, p2][..1] == [p1];
    assert Pass(parse, dist, [p1, p2]) == Step(parse, dist, st1, p2);
    var x := TimedPoint(p2, t1 + 10 * Clock.NanosPerSecond);
    StepTimed(parse, dist, st1, p2, t1 + 10 * Clock.NanosPerSecond);
    var st2 := Step(parse, dist, st1, p2);
    var d := dist(p1.lat, p1.lon, p2.lat, p2.lon);
    assert Clock.Sub(x.t, st1.series[0].t) == 10 * Clock.NanosPerSecond;
    assert Clock.Seconds(10 * Clock.NanosPerSecond) == 10.0;
    assert LegSpeed(dist, st1.series[0], x) == Some(d / 10.0);
    assert st2.series == [st1.series[0], x.(speed := Some(d / 10.0))];
    assert st2.totalDistM == d;
    assert DurationSeconds(t1, x.t) == 10;
    SummarizeFields(st2);
  }

  /** A document with only one parsable timestamp is refused, however many
      points it has. */
  lemma OneTimedPointRejected(parse: LayoutParser, dist: Haversine, p1: GpxPoint, p2: GpxPoint)
    requires ParseTime(parse, p1.time).Some? && ParseTime(parse, p2.time).None?
    ensures Import(parse, dist, GpxFile([Track([Segment([p1, p2])])])) == Err(NoTimedPoints)
  {
    var g := GpxFile([Track([Segment([p1, p2])])]);
    FlattenPair(g, p1, p2);
    var st1 := Step(parse, dist, Start, p1);
    assert [p1][..0] == [];
    assert Pass(parse, dist, [p1]) == st1;
    assert [p1, p2][..1] == [p1];
    assert Pass(parse, dist, [p1, p2]) == Step(parse, dist, st1, p2);
    assert |st1.series| == 1;
  }

  /** A document of one track with one two-point segment flattens to those points. */
  lemma FlattenPair(g: GpxFile, p1: GpxPoint, p2: GpxPoint)
    requires g == GpxFile([Track([Segment([p1, p2])])])
    ensures Flatten(g.tracks) == [p1, p2]
  {
    var seg := Segment([p1, p2]);
    assert [seg][..0] == [];
    assert SegmentPoints([seg]) == [p1, p2];
    FlattenAppend([], g.tracks);
  }
}
