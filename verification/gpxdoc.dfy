/** The decoded GPX document: tracks of segments of points, each point with
    optional elevation and an optional Garmin TrackPointExtension heart rate.
    Decoding the XML itself is not part of this model. */
module GpxDoc {
  import opened Nullable

  /** `<gpxtpx:TrackPointExtension>`: the heart-rate child is optional. */
  datatype TrackPointExt = TrackPointExt(hr: Option<int>)

  /** `<extensions>`: the Garmin extension is optional. */
  datatype Extensions = Extensions(trackExt: Option<TrackPointExt>)

  /** `<trkpt>`: the timestamp text is kept unparsed at this stage. */
  datatype GpxPoint = GpxPoint(lat: real, lon: real, ele: Option<real>, time: string, ext: Option<Extensions>)

  datatype Segment = Segment(points: seq<GpxPoint>)

  datatype Track = Track(segments: seq<Segment>)

  datatype GpxFile = GpxFile(tracks: seq<Track>)

  /** The heart rate of a point, present only when the whole extension chain is. */
  function HeartRate(p: GpxPoint): (r: Option<int>)
    ensures r.Some? <==>
      p.ext.Some? && p.ext.value.trackExt.Some? && p.ext.value.trackExt.value.hr.Some?
    ensures r.Some? ==> r == p.ext.value.trackExt.value.hr
  {
    match p.ext
    case Some(Extensions(Some(TrackPointExt(Some(hr))))) => Some(hr)
    case _ => None
  }

  /** All points of the segments, segment after segment. */
  function SegmentPoints(segs: seq<Segment>): (r: seq<GpxPoint>)
    ensures forall p :: p in r <==> exists s :: s in segs && p in s.points
    decreases |segs|
  {
    if |segs| == 0 then []
    else
      var init := segs[..|segs| - 1];
      var r := SegmentPoints(init) + segs[|segs| - 1].points;
      assert forall s :: s in segs <==> s in init || s == segs[|segs| - 1];
      r
  }

  /** All points of the tracks, track after track. */
  function Flatten(tracks: seq<Track>): (r: seq<GpxPoint>)
    ensures forall p :: p in r <==> exists t, s :: t in tracks && s in t.segments && p in s.points
    decreases |tracks|
  {
    if |tracks| == 0 then []
    else
      var init := tracks[..|tracks| - 1];
      var r := Flatten(init) + SegmentPoints(tracks[|tracks| - 1].segments);
      assert forall t :: t in tracks <==> t in init || t == tracks[|tracks| - 1];
      r
  }

  /** Flattening a concatenation of segment lists concatenates their points. */
  lemma {:induction false} SegmentPointsAppend(a: seq<Segment>, b: seq<Segment>)
    ensures SegmentPoints(a + b) == SegmentPoints(a) + SegmentPoints(b)
    decreases |b|
  {
    if |b| == 0 {
      assert a + b == a;
    } else {
      var b' := b[..|b| - 1];
      assert (a + b)[..|a + b| - 1] == a + b';
      assert (a + b)[|a + b| - 1] == b[|b| - 1];
      SegmentPointsAppend(a, b');
    }
  }

  /** Flattening distributes over concatenation of track lists, and one track
      contributes its segments' points in order: together these fix `Flatten`
      as the document-order concatenation. */
  lemma {:induction false} FlattenAppend(a: seq<Track>, b: seq<Track>)
    ensures Flatten(a + b) == Flatten(a) + Flatten(b)
    ensures Flatten([]) == []
    ensures |b| == 1 ==> Flatten(b) == SegmentPoints(b[0].segments)
    decreases |b|
  {
    if |b| == 0 {
      assert a + b == a;
    } else {
      var b' := b[..|b| - 1];
      assert (a + b)[..|a + b| - 1] == a + b';
      assert (a + b)[|a + b| - 1] == b[|b| - 1];
      FlattenAppend(a, b');
      if |b| == 1 {
        assert b' == [];
      }
    }
  }

  /** The flattening loop of the importer: `pts = append(pts, seg.Points...)`
      for every segment of every track. */
  method FlattenLoop(g: GpxFile) returns (pts: seq<GpxPoint>)
    ensures pts == Flatten(g.tracks)
  {
    pts := [];
    var i := 0;
    while i < |g.tracks|
      invariant 0 <= i <= |g.tracks|
      invariant pts == Flatten(g.tracks[..i])
    {
      var segs := g.tracks[i].segments;
      var j := 0;
      while j < |segs|
        invariant 0 <= j <= |segs|
        invariant pts == Flatten(g.tracks[..i]) + SegmentPoints(segs[..j])
      {
        assert segs[..j + 1][..j] == segs[..j];
        pts := pts + segs[j].points;
        j := j + 1;
      }
      assert segs[..j] == segs;
      assert g.tracks[..i + 1][..i] == g.tracks[..i];
      i := i + 1;
    }
    assert g.tracks[..i] == g.tracks;
  }
}
