/** The chart helper that turns a speed series into a pace series, in
    decimal minutes per kilometer. */
module Series {
  import opened Nullable
  import Numeric
  import Handlers

  /** Decimal minutes per kilometer at a positive speed in meters per
      second: at that pace, one kilometer takes `p * 60` seconds. */
  function DecimalPace(v: real): (p: real)
    requires v > 0.0
    ensures p > 0.0
    ensures p * 60.0 * v == 1000.0
  {
    1000.0 / v / 60.0
  }

  /** The entry for one speed: none for a missing, zero or negative speed. */
  function PaceEntry(speed: Option<real>): Option<real> {
    if speed.None? || speed.value <= 0.0 then None else Some(DecimalPace(speed.value))
  }

  /** Converts every speed to a pace, entry by entry, into an array of the
      same length. */
  method SpeedToPaceMinPerKm(speeds: seq<Option<real>>) returns (res: seq<Option<real>>)
    ensures |res| == |speeds|
    ensures forall i :: 0 <= i < |speeds| ==>
      (res[i].None? <==> speeds[i].None? || speeds[i].value <= 0.0)
    ensures forall i :: 0 <= i < |speeds| && res[i].Some? ==>
      res[i].value > 0.0 && res[i].value * 60.0 * speeds[i].value == 1000.0
  {
    res := seq(|speeds|, _ => None);
    var i := 0;
    while i < |speeds|
      invariant 0 <= i <= |speeds|
      invariant |res| == |speeds|
      invariant forall j :: 0 <= j < i ==> res[j] == PaceEntry(speeds[j])
    {
      var v := speeds[i];
      if v.None? || v.value <= 0.0 {
        res := res[i := None];
        i := i + 1;
        continue;
      }
      var secPerKm := 1000.0 / v.value;
      var pace := secPerKm / 60.0;
      res := res[i := Some(pace)];
      i := i + 1;
    }
  }

  /** A faster speed is a smaller pace. */
  lemma PaceDecreasing(v1: real, v2: real)
    requires 0.0 < v1 < v2
    ensures DecimalPace(v2) < DecimalPace(v1)
  {
    var x1, x2 := 1000.0 / v1, 1000.0 / v2;
    assert x1 * v1 == 1000.0 && x2 * v2 == 1000.0;
    if x1 <= x2 {
      Numeric.ScaleLe(x1, x2, v1);
      Numeric.ScaleLt(v1, v2, x2);
      assert false;
    }
    assert DecimalPace(v1) == x1 / 60.0 && DecimalPace(v2) == x2 / 60.0;
  }

  /** Decimal minutes are not the minutes-and-seconds reading of a watch:
      at 4 m/s and at 3.33 m/s the decimal pace is more than 0.005 away from
      4.10 and 5.00, which the minutes-and-seconds pace of the track
      endpoint meets exactly. */
  lemma DecimalPaceMissesClockTest()
    ensures DecimalPace(4.0) - 4.10 > 0.005
    ensures DecimalPace(3.33) - 5.00 > 0.005
    ensures Handlers.PaceMinPerKm(Some(4.0)) == Some(4.10)
    ensures Handlers.PaceMinPerKm(Some(3.33)) == Some(5.00)
  {
    assert DecimalPace(4.0) == 25.0 / 6.0;
    assert DecimalPace(3.33) == 100000.0 / 19980.0;
    Handlers.PaceOfTestSpeeds();
  }

  /** The two readings of the same speed agree to within half a second per
      kilometer once the minutes-and-seconds pace is read as a clock. */
  lemma DecimalAndClockPaceAgree(v: real)
    requires v > 0.0
    ensures var p := Handlers.PaceMinPerKm(Some(v)).value;
      -0.5 <= 60.0 * p.Floor as real + 100.0 * (p - p.Floor as real) - 60.0 * DecimalPace(v) <= 0.5
  {
    Handlers.PaceIsClockEncoding(v);
    assert 60.0 * DecimalPace(v) == 1000.0 / v;
  }
}
