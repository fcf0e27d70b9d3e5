# TrackAndFeel: the GPX import and track-read pipeline

TrackAndFeel stores GPS activities. This project models the in-memory part of
its pipeline in Dafny and proves what that part computes.

- **Import** (`gpx.Import`, duplicated as `importGPX` in the server's
  `main.go`, identical apart from the XML-decode error message). A decoded GPX document is flattened into one point sequence, and
  a document with fewer than two points is refused. Each timestamp is parsed
  against five layouts, the first that accepts winning (`parseTime`). Points
  whose timestamp does not parse are skipped. One left-to-right pass over the
  surviving points computes each point's speed against the previous surviving
  point, the total distance, the bounding box and the heart-rate
  count/sum/maximum. Fewer than two surviving points refuse the import.
  Otherwise the activity row is derived: start, duration truncated to whole
  seconds and clamped at zero, distance truncated to whole meters, average
  heart rate rounded, both heart-rate fields null (`nullIntPtr`) when no point
  carries one, and the bounding polygon (`bboxToWKT`).
- **Track read** (`GetActivityTrack` in `handlers.go`, and the older
  `activityTrackHandler` in `main.go`). The stored rows of an activity, in
  time order, become index-aligned arrays: GeoJSON `[lon, lat]` positions
  (section 3.1.1 of RFC 7946), formatted instants, elevation, heart rate,
  speed and, in the newer handler, km/h (`toKMH`), a minutes-and-seconds pace
  (`paceMinPerKm`) and elapsed seconds since the first row.
- **Pace series** (`series.SpeedToPaceMinPerKm`). Speeds become paces in
  decimal minutes per kilometer, element by element.

Modules follow the program: `Nullable` (optional values and results),
`Numeric` (Go's `int(x)`, `math.Round`, `math.Mod(x, 60)`), `Clock` (instants
in nanoseconds, `Time.Sub` saturating at the `time.Duration` bounds,
`Duration.Seconds`), `TimeParse`, `GpxDoc` (the document tree and its
flattening), `Kinematics` (the pass as a left fold `Pass` of `Step`, and
reference definitions of what it computes), `Importer`, `Handlers`, `Server`
and `Series`.

Three library calls are parameters of the model, so every property holds for
any behaviour they may have:
- `haversineMeters` is a `Haversine` function;
- `time.Parse` is a per-layout `LayoutParser`;
- `fmt`'s `%f` and the RFC 3339 formatting of instants are `Fixed6` and
  `IsoFormat`.

Coordinates, speeds and distances are exact reals.

`parseTime`, `bboxToWKT`, `haversineMeters` and `nullIntPtr` in `main.go`
are line-for-line copies of the `gpx` package's functions. `importGPX` is
identical to `gpx.Import` apart from the XML-decode error message, which is in
the decoding step left out below. They are modelled once,
and some rows below cite the `main.go` copy.

`pace.go` and its test disagree. The test expects 4 m/s to give 4.10 and
3.33 m/s to give 5.00 within 0.005. Those are the minutes-and-seconds readings
that `paceMinPerKm` in `handlers.go` produces. `pace.go` computes decimal
minutes instead: 4.1666… and 5.005005…, both off by more than 0.005. The model
follows the code: `Series.DecimalPaceMissesClockTest` proves the miss, and
`Handlers.PaceOfTestSpeeds` proves that the handler's pace meets both values.

## Model

| member | source | states |
|---|---|---|
| Numeric.Trunc | backend/internal/gpx/importer.go:143 | `int(x)` truncates toward zero: the result is the integer between 0 and `x` less than 1 away from `x` |
| Numeric.Round | backend/internal/gpx/importer.go:148 | `math.Round` gives the integer within one half of `x`, and a half is rounded away from zero |
| Numeric.ModSixty | backend/internal/handlers/handlers.go:267 | `math.Mod(x, 60)` has the sign of `x`, magnitude below 60, and differs from `x` by a whole multiple of 60 |
| Clock.Sub | backend/internal/gpx/importer.go:127 | `Time.Sub` is the exact difference in nanoseconds when it fits a `time.Duration`, otherwise the nearest bound; its sign and zero are those of the exact difference |
| Clock.Seconds | backend/internal/gpx/importer.go:127 | `Duration.Seconds` times 10^9 is the duration in nanoseconds |
| TimeParse.ParseFrom | backend/internal/gpx/importer.go:195-200 | trying the layouts from position `k` on fails exactly when every one of them rejects the text, and a success is some layout's reading |
| TimeParse.ParseTime | backend/internal/gpx/importer.go:186-201 | `parseTime` is total; it reports failure exactly when all five layouts reject the text, and otherwise returns the reading of the first layout that accepts it |
| TimeParse.ParseTimeAgreesWithAcceptingLayout | backend/internal/gpx/importer_test.go:60-69 | a text that every accepting layout reads as the same instant parses to that instant; given layouts that agree on it, "2020-01-02T15:04:05Z" would so parse to that UTC time |
| TimeParse.ParseTimeFallsThrough | backend/internal/gpx/importer.go:195-199 | when the first `k` layouts reject a text and layout `k` accepts it, layout `k`'s reading is returned |
| GpxDoc.SegmentPoints | backend/internal/gpx/importer.go:73-75 | a point is in the concatenation of the segments exactly when it is in one of them |
| GpxDoc.Flatten | backend/internal/gpx/importer.go:70-76 | a point is in the flattened document exactly when it is in some segment of some track |
| GpxDoc.SegmentPointsAppend | backend/internal/gpx/importer.go:73-75 | concatenating segments distributes over appending segment lists, so segment order is kept |
| GpxDoc.FlattenAppend | backend/internal/gpx/importer.go:72-76 | flattening distributes over appending track lists: tracks are concatenated in document order, and one track contributes its segments' points |
| GpxDoc.FlattenLoop | backend/cmd/server/main.go:167-173 | the nested loop appending each segment's points yields the flattened sequence |
| GpxDoc.HeartRate | backend/internal/gpx/importer.go:113-114 | a point has a heart rate exactly when its extensions, its TrackPointExtension and the extension's heart rate are all present, and it is that heart rate |
| Kinematics.Step | backend/internal/gpx/importer.go:90-136 | one loop iteration leaves the state unchanged for an unparsable timestamp; otherwise it appends exactly one point, keeps the earlier ones, and moves `prev` to the appended point |
| Kinematics.Pass | backend/internal/gpx/importer.go:88-136 | after any prefix of the loop, `prev` is absent before the first surviving point and otherwise indexes the last appended point |
| Kinematics.Timed | backend/internal/gpx/importer.go:93-97 | keeping only the points with a parsable time yields no more points than the input, none of them with a speed yet |
| Kinematics.TimedAppend | backend/internal/gpx/importer.go:93-97 | dropping unparsable points is an order-preserving filter: it distributes over concatenation, keeps a parsable point and drops an unparsable one |
| Kinematics.LegSpeed | backend/internal/gpx/importer.go:125-133 | a leg gets a speed exactly when its time goes forward and its distance is not negative |
| Kinematics.LegSpeedCoversLeg | backend/internal/gpx/importer.go:129 | the speed is not negative, and speed times elapsed seconds is the leg's distance |
| Kinematics.LegDistance | backend/internal/gpx/importer.go:128-131 | a leg adds to the total exactly its haversine distance when it gets a speed and nothing otherwise, so never a negative amount |
| Kinematics.Enrich | backend/internal/gpx/importer.go:124-135 | the first point has no speed, each later point has the speed of its leg from the previous surviving point, and every other field is kept |
| Kinematics.TotalDistance | backend/internal/gpx/importer.go:131 | the total distance over the legs that get a speed is never negative |
| Kinematics.HrCount | backend/internal/gpx/importer.go:112-115 | the heart-rate count is at most the number of points, and zero exactly when no point carries a heart rate |
| Kinematics.EnrichSnoc | backend/internal/gpx/importer.go:134-135 | appending a surviving point adds it with the speed of its leg from the previous last point and changes nothing before it |
| Kinematics.PassSeries | backend/internal/gpx/importer.go:124-135 | the series the pass builds is the surviving points in document order, with speeds against the previous surviving point |
| Kinematics.PassDistance | backend/cmd/server/main.go:221-230 | the pass's total distance is the sum of the distances of exactly the legs that get a speed |
| Kinematics.PassBounds | backend/internal/gpx/importer.go:84-110 | the final box contains every surviving point, and each side is its 90/-90/180/-180 start value or touched by a surviving point |
| Kinematics.WidenBounds | backend/internal/gpx/importer.go:99-110 | the four comparisons keep the box containing and tight around the points seen so far plus the new one |
| Kinematics.PassHeartRate | backend/internal/gpx/importer.go:112-120 | the count and sum are over exactly the surviving points with a heart rate, and the maximum is the largest of 0 and their rates |
| Kinematics.MaxHRSnoc | backend/internal/gpx/importer.go:117-119 | replacing the maximum only by a larger rate keeps it the largest of 0 and the rates seen |
| Kinematics.UntimedPointIsInert | backend/cmd/server/main.go:190-194 | inserting a point with an unparsable timestamp anywhere changes nothing in the pass's result, so `prev` only advances over appended points |
| Importer.NullInt | backend/internal/gpx/importer.go:222-227 | `nullIntPtr` gives nothing exactly when `ok` is false, and `v` otherwise |
| Importer.BBoxRing | backend/internal/gpx/importer.go:203-209 | the ring has five vertices in (lon, lat) order starting at (minLon, minLat), is closed, has the four corners, and its edges are axis-parallel |
| Importer.BBoxRingArea | backend/cmd/server/main.go:302-308 | the ring encloses exactly the box, counter-clockwise: twice its signed area is twice the box's area |
| Importer.Wkt | backend/internal/gpx/importer.go:203-209 | `bboxToWKT` writes `POLYGON((` then the five "lon lat" pairs (minLon minLat, maxLon minLat, maxLon maxLat, minLon maxLat, minLon minLat) separated by commas, then `))` |
| Importer.WktOfTestBox | backend/internal/gpx/importer_test.go:34-40 | the polygon text for latitudes 10..30 and longitudes 20..40 lists (20 10, 40 10, 40 30, 20 30, 20 10) |
| Importer.DurationSeconds | backend/internal/gpx/importer.go:141-146 | the duration is never negative, zero when the end is not after the start, and the whole seconds between them otherwise, with the span capped at the largest `time.Duration` |
| Importer.AverageHR | backend/internal/gpx/importer.go:147-149 | the average heart rate is the mean rounded to the nearest integer, a half rounded away from zero |
| Importer.Summarize | backend/internal/gpx/importer.go:137-139 | fewer than two surviving points refuse the import with "no timed points"; otherwise the stored points are the pass's series |
| Importer.Import | backend/internal/gpx/importer.go:70-149 | the import refuses with "not enough points" exactly when the document holds fewer than two points; an accepted import stores at least two points, a five-vertex polygon and a non-negative duration (the `Import...` lemmas below give the full content) |
| Importer.ImportRejects | backend/internal/gpx/importer.go:70-139 | the import fails with "not enough points" exactly for documents under two points, with "no timed points" exactly when at least two points but under two survivors exist, and succeeds exactly with two or more survivors |
| Importer.ImportPoints | backend/internal/gpx/importer.go:170-174 | the stored points are the surviving points in document order, with speeds against the previous survivor |
| Importer.ImportTotals | backend/cmd/server/main.go:238-243 | an accepted import starts at the first survivor, lasts from the first to the last survivor, and has the truncated, non-negative total distance |
| Importer.ImportHeartRate | backend/internal/gpx/importer.go:147-164 | both heart-rate fields are null exactly when no survivor carries a heart rate; otherwise the maximum is the largest of 0 and the rates, and the average is their mean rounded to the nearest integer, a half away from zero |
| Importer.ImportBounds | backend/cmd/server/main.go:196-207 | the stored polygon contains every stored point, and each of its sides is the sentinel or touches a stored point |
| Importer.TwoPointImport | backend/internal/gpx/importer.go:124-146 | two timed points ten seconds apart give duration 10, distance the truncated leg, no speed on the first point and leg/10 on the second |
| Importer.OneTimedPointRejected | backend/cmd/server/main.go:234-236 | a two-point document with one parsable timestamp is refused with "no timed points" |
| Handlers.Kmh | backend/internal/handlers/handlers.go:272-278 | `toKMH` keeps absence, and the km/h value divided by 3.6 is the speed in m/s |
| Handlers.PaceMinPerKm | backend/internal/handlers/handlers.go:261-264 | the pace is absent exactly when the speed is absent, zero or negative |
| Handlers.PaceIsClockEncoding | backend/internal/handlers/handlers.go:265-269 | a pace reads as a clock time: the integer part is floor(1000/v / 60) whole minutes, never carried into, and the hundredths are the remaining seconds rounded half up, a whole number from 0 to 60 |
| Handlers.WholeMinutes | backend/internal/handlers/handlers.go:266-267 | the whole minutes and the remainder `math.Mod` leaves add up to the time per kilometer |
| Handlers.HundredthsOfPace | backend/internal/handlers/handlers.go:268 | minutes plus at most 60 seconds over 100 keep the minutes as the integer part and the seconds as the hundredths |
| Handlers.PaceOfTestSpeeds | backend/internal/series/pace_test.go:14-15 | 4 m/s gives exactly 4.10 and 3.33 m/s exactly 5.00 |
| Handlers.PaceShowsSixtySeconds | backend/internal/handlers/handlers.go:266-268 | a remainder that rounds to 60 s is shown as .60 without a carry: 3'59.6" is 3.60 |
| Handlers.BuildTrack | backend/internal/handlers/handlers.go:199-225 | no rows give "no trackpoints"; otherwise all eight arrays have one entry per row, and entry `i` is row `i`'s `[lon, lat]`, instant, elevation, heart rate, speed, km/h, pace and seconds since row 0 |
| Handlers.ElapsedFromBaseline | backend/internal/handlers/handlers.go:214-224 | elapsed time is 0 at the first row, and for rows in time order it is never negative and never decreases |
| Server.BuildTrackBasic | backend/cmd/server/main.go:475-493 | no rows give not-found; otherwise coordinates, time, elevation, heart rate and speed have one entry per row, aligned with the rows |
| Server.BasicIsNewerWithoutDerived | backend/cmd/server/main.go:480-493 | the older handler's five arrays equal the newer handler's corresponding arrays |
| Series.DecimalPace | backend/internal/series/pace.go:14-15 | the pace is positive, and pace × 60 × speed is 1000: a kilometer takes pace minutes |
| Series.SpeedToPaceMinPerKm | backend/internal/series/pace.go:6-22 | the result has the input's length; entry `i` is absent exactly when speed `i` is absent, zero or negative, and otherwise is the positive decimal pace of speed `i` |
| Series.PaceDecreasing | backend/internal/series/pace.go:14-15 | a higher speed gives a strictly smaller pace |
| Series.DecimalPaceMissesClockTest | backend/internal/series/pace_test.go:14-15 | the decimal pace is more than 0.005 above 4.10 at 4 m/s and above 5.00 at 3.33 m/s, values the handler's pace meets exactly |
| Series.DecimalAndClockPaceAgree | backend/internal/series/pace.go:3-5 | read as a clock time, the handler's pace is within half a second of 60 × the decimal pace |

## Left out

- Decoding: `io.ReadAll` and `encoding/xml` are left out. The model starts from the decoded track/segment/point tree.
- Storage: the database transaction, the activity insert, the batched point inserts and the `ST_*` SQL are external I/O. `Imported` is what would be written. UUID generation is also left out.
- WKT text: `%f` is an abstract formatter, so the digits are not modelled; `Importer.Wkt` states the text for every box in terms of that formatter.
- `haversineMeters`: its trigonometry and the ~1350 m test are floating-point numerics. Distance is a parameter, and the importer's own `d >= 0` guard makes every property hold for any distance function.
- `time.Parse`: its layout grammar, and the RFC 3339 formatting of instants on the read side, are library internals. Both are parameters. As a result, the test's five concrete accepted strings and "not-a-time" are not checked individually.
- Floating point: speeds, distances, `*3.6`, `1000/v`, `math.Mod` and `math.Round` are exact reals. No rounding error of `float64` is modelled. Coordinates are never NaN or infinite: `encoding/xml` reads `lat`/`lon` with `strconv.ParseFloat`, which accepts "NaN" and "±Inf", and a NaN latitude fails every comparison of the bounding-box update, so for such a document the stored box need not cover the stored points as `Kinematics.PassBounds` and `Importer.ImportBounds` state.
- Numeric.ModSixty: only models `math.Mod` with divisor 60, the only divisor the pipeline uses.
- Heart-rate sum: it is an unbounded integer. The `int` overflow of a very long sum is not modelled.
- HTTP plumbing is left out: the upload handler and its extension check, activity listing with limit/offset parsing, path splitting, UUID parsing, the summary query, JSON encoding and router.go.
- The rows of a track read are given in time order, as the query's `ORDER BY t` requests. `Handlers.ElapsedFromBaseline` assumes that order and does not enforce it.
- Process lifecycle, migrations (`migrate.go`), connection setup (`db.go`) and the frontend are configuration and I/O, and are not part of this model.
