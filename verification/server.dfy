/** The older track assembly of the single-binary server: the same stored
    rows and the same empty-track refusal as the track endpoint, but only the
    coordinates and the time, elevation, heart-rate and speed arrays. */
module Server {
  import opened Nullable
  import opened Handlers

  /** The five index-aligned arrays of the older track response. */
  datatype BasicSeries = BasicSeries(
    coords: seq<Position>,
    timeIso: seq<string>,
    ele: seq<Option<real>>,
    hr: seq<Option<int>>,
    spd: seq<Option<real>>)

  /** All five arrays have one entry per row, and entry `i` is row `i`'s
      longitude and latitude, formatted instant, elevation, heart rate and
      speed. */
  ghost predicate BasicAligned(rows: seq<StoredRow>, iso: IsoFormat, b: BasicSeries) {
    && |b.coords| == |b.timeIso| == |b.ele| == |b.hr| == |b.spd| == |rows|
    && (forall i :: 0 <= i < |rows| ==> b.coords[i] == Position(rows[i].lon, rows[i].lat))
    && (forall i :: 0 <= i < |rows| ==> b.timeIso[i] == iso(rows[i].t))
    && (forall i :: 0 <= i < |rows| ==> b.ele[i] == rows[i].ele)
    && (forall i :: 0 <= i < |rows| ==> b.hr[i] == rows[i].hr)
    && (forall i :: 0 <= i < |rows| ==> b.spd[i] == rows[i].spd)
  }

  /** Assembles the older response's series: nothing when there are no rows,
      otherwise one aligned entry per row. */
  method BuildTrackBasic(rows: seq<StoredRow>, iso: IsoFormat) returns (r: Result<BasicSeries, ReadError>)
    ensures r.Err? <==> |rows| == 0
    ensures r.Ok? ==> BasicAligned(rows, iso, r.value)
  {
    if |rows| == 0 {
      return Err(NoTrackpoints);
    }
    var coords: seq<Position> := [];
    var timeIso: seq<string> := [];
    var ele: seq<Option<real>> := [];
    var hr: seq<Option<int>> := [];
    var spd: seq<Option<real>> := [];
    var n := 0;
    while n < |rows|
      invariant 0 <= n <= |rows|
      invariant |coords| == |timeIso| == |ele| == |hr| == |spd| == n
      invariant forall i :: 0 <= i < n ==> coords[i] == Position(rows[i].lon, rows[i].lat)
      invariant forall i :: 0 <= i < n ==> timeIso[i] == iso(rows[i].t)
      invariant forall i :: 0 <= i < n ==> ele[i] == rows[i].ele
      invariant forall i :: 0 <= i < n ==> hr[i] == rows[i].hr
      invariant forall i :: 0 <= i < n ==> spd[i] == rows[i].spd
    {
      var p := rows[n];
      coords := coords + [Position(p.lon, p.lat)];
      timeIso := timeIso + [iso(p.t)];
      ele := ele + [p.ele];
      hr := hr + [p.hr];
      spd := spd + [p.spd];
      n := n + 1;
    }
    return Ok(BasicSeries(coords, timeIso, ele, hr, spd));
  }

  /** The older response is the newer one without its three derived arrays
      and without elapsed time: the five shared arrays are equal. */
  lemma BasicIsNewerWithoutDerived(rows: seq<StoredRow>, iso: IsoFormat, b: BasicSeries, ts: TrackSeries)
    requires BasicAligned(rows, iso, b) && Aligned(rows, iso, ts)
    ensures b == BasicSeries(ts.coords, ts.timeIso, ts.ele, ts.hr, ts.spd)
  {
    forall i | 0 <= i < |rows|
      ensures b.coords[i] == ts.coords[i] && b.timeIso[i] == ts.timeIso[i]
      ensures b.ele[i] == ts.ele[i] && b.hr[i] == ts.hr[i] && b.spd[i] == ts.spd[i]
    {
      assert RowAt(rows, iso, ts, i);
    }
  }
}
