/**
 * The row pipeline of src/main.py: a GeoJSON feature collection from the
 * USGS feed becomes rows (`parse_earthquake_data`), rows without a magnitude
 * are dropped, rows below the chosen minimum magnitude are filtered out, and
 * each remaining row gets its RGBA colour (`get_color`).
 */
module Quakes {
  import opened Wrappers
  import opened Selection

  /** A GeoJSON position: longitude first, then latitude, then optional depth (RFC 7946, section 3.1.1). */
  datatype Geometry = Geometry(coordinates: seq<real>)

  /** The feed's `properties`: `mag` may be null; `time` is milliseconds since the Unix epoch. */
  datatype Properties = Properties(mag: Option<real>, place: string, time: int)

  datatype Feature = Feature(geometry: Geometry, properties: Properties)

  datatype FeatureCollection = FeatureCollection(features: seq<Feature>)

  /** One row of the data frame built by `parse_earthquake_data`. */
  datatype Row = Row(latitude: real, longitude: real, magnitude: Option<real>, place: string, time: int)

  /**
   * What the frame operations raise: `coordinates[1]` on a position with fewer
   * than two numbers raises IndexError; `dropna(subset=["magnitude"])` on a
   * frame that has no `magnitude` column raises KeyError.
   */
  datatype FrameError = IndexError | MissingColumn(column: string)

  predicate HasPosition(f: Feature) {
    |f.geometry.coordinates| >= 2
  }

  /** The list comprehension of `parse_earthquake_data`, evaluated feature by feature. */
  function ParseEarthquakeData(data: FeatureCollection): (r: Result<seq<Row>, FrameError>)
    ensures r.Ok? <==> forall i :: 0 <= i < |data.features| ==> HasPosition(data.features[i])
    ensures r.Ok? ==> |r.value| == |data.features|
    ensures r.Ok? ==> forall i :: 0 <= i < |r.value| ==>
      var c, p := data.features[i].geometry.coordinates, data.features[i].properties;
      && r.value[i].latitude == c[1]
      && r.value[i].longitude == c[0]
      && r.value[i].magnitude == p.mag
      && r.value[i].place == p.place
      && r.value[i].time == p.time
    decreases |data.features|
  {
    var fs := data.features;
    if fs == [] then Ok([])
    else if !HasPosition(fs[0]) then Err(IndexError)
    else
      match ParseEarthquakeData(FeatureCollection(fs[1..]))
      case Err(e) => Err(e)
      case Ok(rest) =>
        var c, p := fs[0].geometry.coordinates, fs[0].properties;
        Ok([Row(c[1], c[0], p.mag, p.place, p.time)] + rest)
  }

  predicate Measured(r: Row) {
    r.magnitude.Some?
  }

  predicate AllMeasured(rows: seq<Row>) {
    forall i :: 0 <= i < |rows| ==> rows[i].magnitude.Some?
  }

  /** `df.dropna(subset=["magnitude"])`. */
  function DropMissingMagnitude(rows: seq<Row>): (r: seq<Row>)
    ensures AllMeasured(r)
  {
    Keep(rows, Measured)
  }

  /** The mask `df["magnitude"] >= min`; a missing magnitude (NaN) compares false. */
  predicate AtLeast(r: Row, min: real) {
    r.magnitude.Some? && r.magnitude.value >= min
  }

  function AtLeastMask(min: real): Row -> bool {
    r => AtLeast(r, min)
  }

  /** `df[df["magnitude"] >= min_magnitude]`. */
  function FilterByMagnitude(rows: seq<Row>, min: real): (r: seq<Row>)
    ensures forall i :: 0 <= i < |r| ==> r[i].magnitude.Some? && r[i].magnitude.value >= min
  {
    Keep(rows, AtLeastMask(min))
  }

  /** Python's `int()` on a float: the integer part, rounding toward zero. */
  function Trunc(x: real): (n: int)
    ensures 0.0 <= x ==> n as real <= x < n as real + 1.0
    ensures x < 0.0 ==> n as real - 1.0 < x <= n as real
  {
    if x >= 0.0 then x.Floor else -((-x).Floor)
  }

  function GreenChannel(magnitude: real): int {
    Trunc(255.0 * (1.0 - magnitude / 10.0))
  }

  /** `get_color`: red fixed, green fading with magnitude, no blue, fixed alpha. */
  function GetColor(magnitude: real): (c: seq<int>)
    ensures |c| == 4 && c[0] == 255 && c[2] == 0 && c[3] == 200
    ensures 0.0 <= magnitude <= 10.0 ==> 0 <= c[1] <= 255
  {
    [255, GreenChannel(magnitude), 0, 200]
  }

  /** A row with the `color` column added. */
  datatype RenderRow = RenderRow(row: Row, color: seq<int>)

  /** `df["color"] = df["magnitude"].apply(get_color)`; `int()` of a NaN raises, so every row must be measured. */
  function AddColor(rows: seq<Row>): (r: seq<RenderRow>)
    requires AllMeasured(rows)
    ensures |r| == |rows|
    ensures forall i :: 0 <= i < |r| ==> r[i].row == rows[i] && r[i].color == GetColor(rows[i].magnitude.value)
  {
    seq(|rows|, i requires 0 <= i < |rows| => RenderRow(rows[i], GetColor(rows[i].magnitude.value)))
  }

  /**
   * src/main.py:88-95 on a fetched collection: parse, drop rows without a
   * magnitude, apply the last submitted minimum magnitude if the filter button
   * has been pressed (`threshold` is None otherwise), then add the colours.
   */
  function PrepareRows(data: FeatureCollection, threshold: Option<real>): (r: Result<seq<RenderRow>, FrameError>)
    ensures r.Ok? <==> |data.features| > 0 && forall i :: 0 <= i < |data.features| ==> HasPosition(data.features[i])
    ensures data.features == [] ==> r == Err(MissingColumn("magnitude"))
    ensures r.Ok? ==> forall i :: 0 <= i < |r.value| ==>
      && Qualifies(r.value[i].row, threshold)
      && r.value[i].color == GetColor(r.value[i].row.magnitude.value)
  {
    match ParseEarthquakeData(data)
    case Err(e) => Err(e)
    case Ok(rows) =>
      // `pd.DataFrame([])` has no columns at all, so the `dropna` on "magnitude" raises.
      if rows == [] then Err(MissingColumn("magnitude"))
      else Ok(AddColor(SelectRows(rows, threshold)))
  }

  /* ---------------- Properties of the selection steps ---------------- */

  /**
   * `dropna` keeps exactly the rows that have a magnitude, each as often as it
   * occurs, in their original relative order.
   */
  lemma DropMissingMagnitudeSelects(rows: seq<Row>)
    ensures IsSubsequence(DropMissingMagnitude(rows), rows)
    ensures forall x :: multiset(DropMissingMagnitude(rows))[x] == (if x.magnitude.Some? then multiset(rows)[x] else 0)
  {
    KeepIsSubsequence(rows, Measured);
    KeepCount(rows, Measured);
  }

  /**
   * The threshold filter is the one ordered subsequence of `rows` that holds
   * every row with `magnitude >= min`, with its multiplicity, and no other row.
   */
  lemma FilterByMagnitudeCharacterized(rows: seq<Row>, min: real, r: seq<Row>)
    ensures r == FilterByMagnitude(rows, min) <==>
      && IsSubsequence(r, rows)
      && forall x :: multiset(r)[x] == (if AtLeast(x, min) then multiset(rows)[x] else 0)
  {
    var mask := AtLeastMask(min);
    KeepIsSubsequence(rows, mask);
    KeepCount(rows, mask);
    if IsSubsequence(r, rows) && forall x :: multiset(r)[x] == (if AtLeast(x, min) then multiset(rows)[x] else 0) {
      KeepUnique(rows, mask, r);
    }
  }

  /** A row survives the filter exactly when its magnitude is present and at least `min` (equality kept). */
  lemma FilterByMagnitudeMembership(rows: seq<Row>, min: real, x: Row)
    requires x in rows
    ensures x in FilterByMagnitude(rows, min) <==> AtLeast(x, min)
  {
    KeepCount(rows, AtLeastMask(min));
    assert x in multiset(rows);
    if AtLeast(x, min) {
      assert multiset(FilterByMagnitude(rows, min))[x] > 0;
    }
  }

  /** Filtering splits over concatenation: relative order is preserved. */
  lemma FilterByMagnitudeAppend(a: seq<Row>, b: seq<Row>, min: real)
    ensures FilterByMagnitude(a + b, min) == FilterByMagnitude(a, min) + FilterByMagnitude(b, min)
  {
    KeepAppend(a, b, AtLeastMask(min));
  }

  /**
   * Filtering at `t` and at a lower or equal `t2`, in either order, is
   * filtering at `t` alone; with `t2 == t` the filter is idempotent.
   */
  lemma FilterByMagnitudeNested(rows: seq<Row>, t: real, t2: real)
    requires t2 <= t
    ensures FilterByMagnitude(FilterByMagnitude(rows, t), t2) == FilterByMagnitude(rows, t)
    ensures FilterByMagnitude(FilterByMagnitude(rows, t2), t) == FilterByMagnitude(rows, t)
  {
    KeepNested(rows, AtLeastMask(t), AtLeastMask(t2));
  }

  /** The filter changes nothing exactly when every row already meets the threshold. */
  lemma FilterByMagnitudeKeepsAll(rows: seq<Row>, min: real)
    ensures FilterByMagnitude(rows, min) == rows <==> forall i :: 0 <= i < |rows| ==> AtLeast(rows[i], min)
  {
    KeepAll(rows, AtLeastMask(min));
  }

  /**
   * After `dropna`, the slider's lowest setting 0.0 keeps every row exactly
   * when no magnitude in the feed is negative (the feed does report small
   * negative magnitudes).
   */
  lemma ZeroThresholdAfterDrop(rows: seq<Row>)
    ensures FilterByMagnitude(DropMissingMagnitude(rows), 0.0) == DropMissingMagnitude(rows)
      <==> forall i :: 0 <= i < |rows| && rows[i].magnitude.Some? ==> rows[i].magnitude.value >= 0.0
  {
    var d := DropMissingMagnitude(rows);
    FilterByMagnitudeKeepsAll(d, 0.0);
    KeepCount(rows, Measured);
    if forall i :: 0 <= i < |rows| && rows[i].magnitude.Some? ==> rows[i].magnitude.value >= 0.0 {
      forall j | 0 <= j < |d| ensures AtLeast(d[j], 0.0) {
        assert d[j] in multiset(d);
        assert d[j] in rows;
      }
    }
    if forall j :: 0 <= j < |d| ==> AtLeast(d[j], 0.0) {
      forall i | 0 <= i < |rows| && rows[i].magnitude.Some? ensures rows[i].magnitude.value >= 0.0 {
        assert rows[i] in multiset(rows);
        assert rows[i] in multiset(d);
        assert rows[i] in d;
      }
    }
  }

  /* ---------------- Properties of the colour ---------------- */

  /** The anchor values: yellow at magnitude 0, red at 10, and 127 (truncated, not rounded) at 5. */
  lemma GetColorAnchors()
    ensures GetColor(0.0) == [255, 255, 0, 200]
    ensures GetColor(10.0) == [255, 0, 0, 200]
    ensures GetColor(5.0) == [255, 127, 0, 200]
  {
  }

  lemma TruncMonotone(x: real, y: real)
    requires x <= y
    ensures Trunc(x) <= Trunc(y)
  {
  }

  /** The green channel never increases as the magnitude grows. */
  lemma GreenNonIncreasing(m1: real, m2: real)
    requires m1 <= m2
    ensures GetColor(m1)[1] >= GetColor(m2)[1]
  {
  }

  /**
   * The channel is not clamped: it leaves [0, 255] exactly for magnitudes
   * beyond 10 + 2/51 or below -2/51 (truncation toward zero keeps it at 0 or
   * 255 just outside [0, 10]).
   */
  lemma GreenOutOfRange(m: real)
    ensures GetColor(m)[1] < 0 <==> m >= 10.0 + 2.0 / 51.0
    ensures GetColor(m)[1] > 255 <==> m <= -2.0 / 51.0
  {
  }

  /* ---------------- End to end ---------------- */

  /** The rows src/main.py:89-94 keep: measured, and meeting the threshold when one has been submitted. */
  predicate Qualifies(x: Row, threshold: Option<real>) {
    x.magnitude.Some? && (threshold.Some? ==> x.magnitude.value >= threshold.value)
  }

  function QualifyMask(threshold: Option<real>): Row -> bool {
    x => Qualifies(x, threshold)
  }

  /** The row-selection part of `PrepareRows`: `dropna`, then the mask if a threshold was submitted. */
  function SelectRows(rows: seq<Row>, threshold: Option<real>): (r: seq<Row>)
    ensures AllMeasured(r)
    ensures forall i :: 0 <= i < |r| ==> Qualifies(r[i], threshold)
  {
    var measured := DropMissingMagnitude(rows);
    if threshold.Some? then FilterByMagnitude(measured, threshold.value) else measured
  }

  /** Dropping the unmeasured rows before the mask is subsumed by the mask: the two steps are one selection. */
  lemma SelectRowsIsOneSelection(rows: seq<Row>, threshold: Option<real>)
    ensures SelectRows(rows, threshold) == Keep(rows, QualifyMask(threshold))
  {
    if threshold.Some? {
      KeepNested(rows, AtLeastMask(threshold.value), Measured);
      KeepSamePredicate(rows, AtLeastMask(threshold.value), QualifyMask(threshold));
    } else {
      KeepSamePredicate(rows, Measured, QualifyMask(threshold));
    }
  }

  /**
   * Selection yields exactly the ordered subsequence of the rows that holds
   * every qualifying row, with its multiplicity, and no other row.
   */
  lemma SelectRowsCharacterized(rows: seq<Row>, threshold: Option<real>, r: seq<Row>)
    ensures r == SelectRows(rows, threshold) <==>
      && IsSubsequence(r, rows)
      && forall x :: multiset(r)[x] == (if Qualifies(x, threshold) then multiset(rows)[x] else 0)
  {
    var mask := QualifyMask(threshold);
    SelectRowsIsOneSelection(rows, threshold);
    KeepIsSubsequence(rows, mask);
    KeepCount(rows, mask);
    if IsSubsequence(r, rows) && forall x :: multiset(r)[x] == (if Qualifies(x, threshold) then multiset(rows)[x] else 0) {
      KeepUnique(rows, mask, r);
    }
  }

  lemma SelectRowsKeeps(rows: seq<Row>, threshold: Option<real>, x: Row)
    requires x in rows && x.magnitude.Some?
    requires threshold.Some? ==> x.magnitude.value >= threshold.value
    ensures x in SelectRows(rows, threshold)
  {
    var d := DropMissingMagnitude(rows);
    KeepCount(rows, Measured);
    assert x in multiset(rows);
    assert x in multiset(d);
    if threshold.Some? {
      KeepCount(d, AtLeastMask(threshold.value));
      assert x in multiset(SelectRows(rows, threshold));
    }
  }

  /**
   * Every feature that has a magnitude meeting the submitted threshold ends up
   * as a coloured row.
   */
  lemma PrepareRowsKeepsQualifying(data: FeatureCollection, threshold: Option<real>, i: nat)
    requires PrepareRows(data, threshold).Ok?
    requires i < |data.features|
    requires data.features[i].properties.mag.Some?
    requires threshold.Some? ==> data.features[i].properties.mag.value >= threshold.value
    ensures exists j :: (0 <= j < |PrepareRows(data, threshold).value|
      && PrepareRows(data, threshold).value[j].row == ParseEarthquakeData(data).value[i])
  {
    var rows := ParseEarthquakeData(data).value;
    var x := rows[i];
    assert x.magnitude == data.features[i].properties.mag;
    SelectRowsKeeps(rows, threshold, x);
    var selected := SelectRows(rows, threshold);
    var j :| 0 <= j < |selected| && selected[j] == x;
    var out := PrepareRows(data, threshold).value;
    assert out == AddColor(selected);
    assert out[j].row == x;
  }

  /** The rows of a coloured frame, without their colours. */
  function Uncolored(rs: seq<RenderRow>): seq<Row> {
    seq(|rs|, i requires 0 <= i < |rs| => rs[i].row)
  }

  /**
   * The pipeline's rows are the parsed rows that qualify, in feature order and
   * with their multiplicity, and nothing else.
   */
  lemma PrepareRowsSelects(data: FeatureCollection, threshold: Option<real>)
    requires PrepareRows(data, threshold).Ok?
    ensures var rows, out := ParseEarthquakeData(data).value, Uncolored(PrepareRows(data, threshold).value);
      && IsSubsequence(out, rows)
      && forall x :: multiset(out)[x] == (if Qualifies(x, threshold) then multiset(rows)[x] else 0)
  {
    var rows := ParseEarthquakeData(data).value;
    var out := Uncolored(PrepareRows(data, threshold).value);
    assert out == SelectRows(rows, threshold);
    SelectRowsCharacterized(rows, threshold, out);
  }
}
