/**
 * The map part of src/main.py: the style table `MAP_API_URLS` with
 * `switch_map_style`, the choice between the heat-map and scatter-plot layer,
 * and the deck the two are handed to. The layer is modelled as the record of
 * its constants and the values its accessors read from each row; drawing it
 * is the rendering library's business.
 */
module MapView {
  import opened Wrappers
  import opened Quakes

  const MapApiUrls: map<string, string> := map[
    "Light Map" := "mapbox://styles/mapbox/light-v9",
    "Dark Map" := "mapbox://styles/mapbox/dark-v9",
    "Street Map" := "mapbox://styles/mapbox/streets-v11",
    "Satellite Map" := "mapbox://styles/mapbox/satellite-v9",
    "Heat Map" := "mapbox://styles/mapbox/dark-v9"
  ]

  /** The default argument of `switch_map_style`, written in lower case. */
  const DefaultMapType := "dark map"

  const HeatMapType := "Heat Map"

  /** `MAP_API_URLS[map_type]`. */
  function SwitchMapStyle(mapType: string): (r: Result<string, KeyError<string>>)
    ensures r.Ok? <==> mapType in {"Light Map", "Dark Map", "Street Map", "Satellite Map", "Heat Map"}
    ensures r.Ok? ==> r.value == MapApiUrls[mapType]
    ensures r.Err? ==> r.error == KeyError(mapType)
    ensures r.Ok? ==> r.value in {"mapbox://styles/mapbox/light-v9", "mapbox://styles/mapbox/dark-v9",
                                  "mapbox://styles/mapbox/streets-v11", "mapbox://styles/mapbox/satellite-v9"}
  {
    Lookup(MapApiUrls, mapType)
  }

  /** `get_position=["longitude", "latitude"]`: a GeoJSON-ordered position again. */
  function Position(r: Row): seq<real> {
    [r.longitude, r.latitude]
  }

  datatype HeatPoint = HeatPoint(position: seq<real>, weight: real)

  datatype ScatterPoint = ScatterPoint(position: seq<real>, color: seq<int>, radius: real)

  datatype Layer =
    | HeatmapLayer(heatPoints: seq<HeatPoint>, radiusPixels: int, intensity: int, threshold: real)
    | ScatterplotLayer(scatterPoints: seq<ScatterPoint>, pickable: bool)

  /** src/main.py:107-125: the layer for the chosen map type over the coloured rows. */
  function BuildLayer(mapType: string, rows: seq<RenderRow>): (l: Layer)
    requires forall i :: 0 <= i < |rows| ==> rows[i].row.magnitude.Some?
    ensures l.HeatmapLayer? <==> mapType == HeatMapType
    ensures l.HeatmapLayer? ==>
      && l.radiusPixels == 50 && l.intensity == 1 && l.threshold == 0.3
      && |l.heatPoints| == |rows|
      && forall i :: 0 <= i < |rows| ==>
           l.heatPoints[i].position == [rows[i].row.longitude, rows[i].row.latitude]
           && l.heatPoints[i].weight == rows[i].row.magnitude.value
    ensures l.ScatterplotLayer? ==>
      && l.pickable
      && |l.scatterPoints| == |rows|
      && forall i :: 0 <= i < |rows| ==>
           l.scatterPoints[i].position == [rows[i].row.longitude, rows[i].row.latitude]
           && l.scatterPoints[i].color == rows[i].color
           && l.scatterPoints[i].radius == rows[i].row.magnitude.value * 10000.0
  {
    if mapType == HeatMapType then
      HeatmapLayer(
        seq(|rows|, i requires 0 <= i < |rows| => HeatPoint(Position(rows[i].row), rows[i].row.magnitude.value)),
        50, 1, 0.3)
    else
      ScatterplotLayer(
        seq(|rows|, i requires 0 <= i < |rows| =>
          ScatterPoint(Position(rows[i].row), rows[i].color, rows[i].row.magnitude.value * 10000.0)),
        true)
  }

  datatype ViewState = ViewState(latitude: real, longitude: real, zoom: int, pitch: int)

  datatype Deck = Deck(mapStyle: string, initialViewState: ViewState, layers: seq<Layer>)

  /** The fixed initial view over Pakistan. */
  const InitialView := ViewState(30.3753, 69.3451, 3, 0)

  /** src/main.py:127-140: the deck; the style lookup raises on an unknown map type. */
  function BuildDeck(mapType: string, rows: seq<RenderRow>): (r: Result<Deck, KeyError<string>>)
    requires forall i :: 0 <= i < |rows| ==> rows[i].row.magnitude.Some?
    ensures r.Ok? <==> mapType in MapApiUrls
    ensures r.Ok? ==> r.value.mapStyle == MapApiUrls[mapType] && r.value.initialViewState == InitialView
    ensures r.Ok? ==> r.value.layers == [BuildLayer(mapType, rows)]
  {
    match SwitchMapStyle(mapType)
    case Err(e) => Err(e)
    case Ok(style) => Ok(Deck(style, InitialView, [BuildLayer(mapType, rows)]))
  }

  /* ---------------- Properties ---------------- */

  /** The default argument is not a key (the keys are capitalised), so `switch_map_style()` raises. */
  lemma DefaultMapStyleFails()
    ensures SwitchMapStyle(DefaultMapType) == Err(KeyError("dark map"))
  {
  }

  /** "Dark Map" and "Heat Map" use the same base style. */
  lemma HeatMapUsesDarkStyle()
    ensures SwitchMapStyle("Heat Map") == SwitchMapStyle("Dark Map") == Ok("mapbox://styles/mapbox/dark-v9")
  {
  }

  /** The positions a layer draws at, in row order. */
  function Positions(l: Layer): seq<seq<real>> {
    if l.HeatmapLayer? then seq(|l.heatPoints|, i requires 0 <= i < |l.heatPoints| => l.heatPoints[i].position)
    else seq(|l.scatterPoints|, i requires 0 <= i < |l.scatterPoints| => l.scatterPoints[i].position)
  }

  /** A layer draws row `i` at the row's `[longitude, latitude]`. */
  lemma PositionsOfLayer(mapType: string, rows: seq<RenderRow>)
    requires forall i :: 0 <= i < |rows| ==> rows[i].row.magnitude.Some?
    ensures var ps := Positions(BuildLayer(mapType, rows));
      |ps| == |rows| && forall i :: 0 <= i < |ps| ==> ps[i] == Position(rows[i].row)
  {
  }

  /** One parsed row sits at the first two numbers of its feature's position. */
  lemma ParsedRowPosition(data: FeatureCollection, x: Row)
    requires ParseEarthquakeData(data).Ok? && x in ParseEarthquakeData(data).value
    ensures exists j :: 0 <= j < |data.features| && Position(x) == data.features[j].geometry.coordinates[..2]
  {
    var rows := ParseEarthquakeData(data).value;
    var j :| 0 <= j < |rows| && rows[j] == x;
    assert Position(x) == data.features[j].geometry.coordinates[..2];
  }

  /**
   * Parsing swaps `[lon, lat]` into separate latitude and longitude columns and
   * the layer swaps them back: every point drawn sits at the first two numbers
   * of the GeoJSON position of some feature of the feed.
   */
  lemma LayerPositionsAreFeaturePositions(data: FeatureCollection, threshold: Option<real>, mapType: string)
    requires PrepareRows(data, threshold).Ok?
    ensures var ps := Positions(BuildLayer(mapType, PrepareRows(data, threshold).value));
      forall i :: 0 <= i < |ps| ==>
        exists j :: 0 <= j < |data.features| && ps[i] == data.features[j].geometry.coordinates[..2]
  {
    var rows := ParseEarthquakeData(data).value;
    var rs := PrepareRows(data, threshold).value;
    var out := Uncolored(rs);
    PrepareRowsSelects(data, threshold);
    PositionsOfLayer(mapType, rs);
    forall i | 0 <= i < |rs|
      ensures exists j :: 0 <= j < |data.features| && Position(rs[i].row) == data.features[j].geometry.coordinates[..2]
    {
      assert out[i] == rs[i].row;
      assert out[i] in multiset(out);
      assert multiset(rows)[out[i]] > 0;
      ParsedRowPosition(data, out[i]);
    }
  }
}
