# EQ Forecaster core, modelled in Dafny

EQ Forecaster is a Streamlit page that shows earthquakes from the USGS
GeoJSON feed on a pydeck map with a data table beside it. Under the UI sits a
small data pipeline, and this project models it:

- the period key resolves to a feed URL (`API_URLS`), including the three
  date-window queries. The single fetch keeps the response body only on
  HTTP 200;
- each GeoJSON feature becomes a row (`parse_earthquake_data`). The feed's
  `[longitude, latitude]` position order (RFC 7946, section 3.1.1) is split
  into separate latitude and longitude columns;
- rows without a magnitude are dropped (`dropna`);
- rows below the submitted minimum magnitude are filtered out;
- each remaining row gets its colour (`get_color`);
- the map type selects a style (`switch_map_style`) and a heat-map or
  scatter-plot layer;
- the overview page formats "time ago" texts (`time_since`) and projects the
  frame into the displayed table (`show_data_table`).

Modules:

| file | module | models |
|---|---|---|
| wrappers.dfy | `Wrappers` | Option/Result, and the dictionary subscript that raises `KeyError` |
| decimal.dfy | `Decimal` | decimal text of integers (`str()`, zero-padded `strftime` fields) with its inverse |
| calendar.dfy | `Calendar` | `datetime` dates, `today - timedelta(days=n)`, and `strftime('%Y-%m-%d')` |
| selection.dfy | `Selection` | order-preserving selection by a predicate (a pandas boolean mask), characterised exactly |
| quakes.dfy | `Quakes` | feature → row, `dropna`, the threshold filter, `get_color`, the pipeline of src/main.py:87-95 |
| endpoints.dfy | `Endpoints` | `API_URLS`, the date windows, `fetch_earthquake_data` |
| map_view.dfy | `MapView` | `MAP_API_URLS`/`switch_map_style`, the layer choice, the deck |
| overview.dfy | `Overview` | `time_since` and `show_data_table` |

Modelling choices:

- Magnitudes and coordinates are `real`, an idealisation of Python floats.
- `int()` is modelled as truncation toward zero (`Quakes.Trunc`).
- A feed `time` is an opaque integer in milliseconds.
- Instants given to `time_since` are integers in microseconds, the resolution
  of `datetime`. The timedelta's floored `days` and its `seconds` in
  [0, 86400) are Dafny's Euclidean `/` and `%`, which agree with floor
  semantics for positive divisors.
- The clock is a parameter. `today` is the date `datetime.now()` gave when
  `API_URLS` was built, and `now` is the instant used by `time_since`.
- The HTTP collaborator is a parameter `get: string -> HttpResponse`.
- The session-state branch at src/main.py:91-94 is a parameter
  `threshold: Option<real>`. It holds the minimum magnitude last submitted
  with "Filter Magnitude", or None when the button has not been pressed.
- Dates follow Python's `datetime` range (years 1 to 9999). `%Y` is modelled
  for four-digit years only, so the URL table is defined for `today` in years
  1001 to 9999.

Behaviour of the code that the model keeps as written:

- The colour's green channel is truncated, not rounded, so magnitude 5.0
  gives 127.
- It is not clamped: it goes negative at or above magnitude 10 + 2/51 and
  exceeds 255 at or below -2/51.
- The threshold 0.0 does not keep every measured row: the feed reports small
  negative magnitudes, and those rows fail `>= 0.0`
  (`Quakes.ZeroThresholdAfterDrop`).
- A feed with no features builds a frame without columns, so `dropna` on
  "magnitude" fails (`Quakes.PrepareRows`).

## Model

| member | source | states |
|---|---|---|
| `Quakes.ParseEarthquakeData` | src/main.py:44-56 | parsing succeeds iff every feature has at least two coordinates (otherwise IndexError); one row per feature in feature order; latitude is `coordinates[1]`, longitude `coordinates[0]`, magnitude, place and time copied unchanged |
| `Quakes.DropMissingMagnitude` | src/main.py:89 | no row of the result lacks a magnitude |
| `Quakes.DropMissingMagnitudeSelects` | src/main.py:89 | the result is an ordered subsequence of the input and holds every row with a magnitude, as often as it occurs, and no other row |
| `Quakes.FilterByMagnitude` | src/main.py:92 | every kept row has a magnitude that is `>=` the minimum |
| `Quakes.FilterByMagnitudeCharacterized` | src/main.py:92 | a sequence equals the filter's result iff it is an ordered subsequence of the rows holding exactly the rows with magnitude `>= min`, with multiplicity |
| `Quakes.FilterByMagnitudeMembership` | src/main.py:92 | an input row is kept iff its magnitude is present and `>= min`; equality is kept, failing rows are dropped |
| `Quakes.FilterByMagnitudeAppend` | src/main.py:92 | filtering a concatenation is the concatenation of the filtered parts (relative order preserved) |
| `Quakes.FilterByMagnitudeNested` | src/main.py:92 | filtering at t and at t2 <= t, in either order, equals filtering at t; with t2 = t the filter is idempotent |
| `Quakes.FilterByMagnitudeKeepsAll` | src/main.py:92 | the filter returns its input unchanged iff every row meets the threshold |
| `Quakes.ZeroThresholdAfterDrop` | src/main.py:89-92 | after `dropna`, threshold 0.0 keeps every row iff no magnitude in the input is negative |
| `Quakes.Trunc` | src/main.py:61 | `int()` of a float: the integer between the value and zero that is less than 1 away from it |
| `Quakes.GetColor` | src/main.py:58-64 | the colour is `[255, g, 0, 200]` with g in [0, 255] for magnitudes in [0, 10] |
| `Quakes.GetColorAnchors` | src/main.py:58-64 | magnitude 0 gives `[255,255,0,200]`, 10 gives `[255,0,0,200]`, 5 gives `[255,127,0,200]` (truncation) |
| `Quakes.TruncMonotone` | src/main.py:61 | `int()` of floats preserves their order |
| `Quakes.GreenNonIncreasing` | src/main.py:61 | the green channel never increases as the magnitude grows |
| `Quakes.GreenOutOfRange` | src/main.py:61 | no clamping: green is negative iff magnitude >= 10 + 2/51 and above 255 iff magnitude <= -2/51 |
| `Quakes.AddColor` | src/main.py:93-95 | one coloured row per row, same order, each row unchanged and coloured by `get_color` of its magnitude |
| `Quakes.SelectRows` | src/main.py:89-94 | every row handed to colouring has a magnitude, and that magnitude is `>=` the submitted threshold when one was submitted |
| `Quakes.SelectRowsIsOneSelection` | src/main.py:89-94 | `dropna` followed by the threshold mask is a single order-preserving selection of the rows that have a magnitude meeting the threshold |
| `Quakes.SelectRowsCharacterized` | src/main.py:89-94 | a sequence is the selection iff it is an ordered subsequence of the rows holding every qualifying row as often as it occurs and no other row |
| `Quakes.SelectRowsKeeps` | src/main.py:89-94 | a row with a magnitude meeting the submitted threshold (or any measured row when none is submitted) survives selection |
| `Quakes.PrepareRows` | src/main.py:87-95 | succeeds iff the feed has at least one feature and every feature has two coordinates; a feed with no features fails on the missing `magnitude` column; every output row has a magnitude meeting the submitted threshold and carries `get_color` of its magnitude |
| `Quakes.PrepareRowsSelects` | src/main.py:87-95 | the output rows, colours aside, are an ordered subsequence of the parsed rows holding every qualifying row as often as it occurs and no other row |
| `Quakes.PrepareRowsKeepsQualifying` | src/main.py:87-95 | every feature whose magnitude is present and meets the threshold appears, as its parsed row, in the output |
| `Calendar.PrevDay` | src/main.py:10 | the day before a date is a valid date whose day number is one less |
| `Calendar.MinusDays` | src/main.py:10 | `date - timedelta(days=n)` is a valid date exactly n days earlier by day number |
| `Calendar.FormatDate` | src/main.py:20-22 | `strftime('%Y-%m-%d')` of a four-digit-year date is ten characters with dashes at positions 4 and 7 |
| `Calendar.FormatDateRoundTrip` | src/main.py:20-22 | the formatted text reads back to the same date |
| `Endpoints.SixMonthsWindow` | src/main.py:9-10 | the "Past 6 Months" window ends today and starts 182 days earlier, both with four-digit years |
| `Endpoints.ThisYearWindow` | src/main.py:11 | the "This Year" window starts on the first day of today's year (by day number) and ends today |
| `Endpoints.PreviousYearWindow` | src/main.py:12-13 | the "Previous Year" window starts on the first day of the previous year and ends on its last day, the day before 1 January of today's year |
| `Endpoints.QueryUrl` | src/main.py:20-22 | a query URL is the base URL and `?starttime=`, a `YYYY-MM-DD` date, `&endtime=`, a second `YYYY-MM-DD` date, then `&format=geojson&limit=20000` and nothing else |
| `Endpoints.ApiUrls` | src/main.py:15-23 | the table's keys are exactly the seven period names |
| `Endpoints.ApiUrl` | src/main.py:34 | `API_URLS[time_period]` succeeds iff the key is one of the seven periods, giving that entry; otherwise it fails with `KeyError` of the key |
| `Endpoints.ThisYearSpan` | src/main.py:11-21 | "This Year" resolves to the query from 1 January of today's year to today |
| `Endpoints.PreviousYearSpan` | src/main.py:12-22 | "Previous Year" resolves to the query from 1 January to 31 December of the previous year, covering all its days |
| `Endpoints.SixMonthsSpan` | src/main.py:9-20 | "Past 6 Months" resolves to the query from 182 days before today to today |
| `Endpoints.QueryUrlRoundTrip` | src/main.py:20-22 | a query URL has exactly the `starttime`/`endtime` layout, and the start and end dates read back from it |
| `Endpoints.FetchEarthquakeData` | src/main.py:33-39 | raises iff the (defaulted) key is unknown; returns a body iff the response to the GET of that key's URL has status 200, and then it is that response's body |
| `Endpoints.DefaultFetchResolves` | src/main.py:82-85 | with no period selected, the past day's summary feed is requested; a body is returned iff its status is 200, and it is that response's body |
| `MapView.SwitchMapStyle` | src/main.py:25-42 | succeeds iff the key is one of the five style names, giving that key's entry of `MAP_API_URLS` (one of the four style ids); otherwise fails with `KeyError` of the key |
| `MapView.DefaultMapStyleFails` | src/main.py:41-42 | the default argument "dark map" is not a key, so the default call raises KeyError |
| `MapView.HeatMapUsesDarkStyle` | src/main.py:27-30 | "Heat Map" and "Dark Map" give the same dark style |
| `MapView.BuildLayer` | src/main.py:107-125 | "Heat Map" selects the heat map (radius 50, intensity 1, threshold 0.3, weight = magnitude); any other type selects the pickable scatter plot with the row colour and radius magnitude × 10000; one point per row at `[longitude, latitude]` |
| `MapView.BuildDeck` | src/main.py:127-140 | the deck exists iff the map type is a style key; it carries that style, the fixed initial view and the chosen layer |
| `MapView.LayerPositionsAreFeaturePositions` | src/main.py:44-56 | the parse swap and the layer's `[longitude, latitude]` accessor cancel: every point drawn from the pipeline's rows sits at the first two coordinates of some feature of the feed |
| `Overview.Split` | src/components/overview_page/earthquake_map_app.py:25-29 | hours in [0, 23], minutes in [0, 59], and days·1d + hours·1h + minutes·1min is the whole-minute floor of the difference |
| `Overview.SplitUnique` | src/components/overview_page/earthquake_map_app.py:25-29 | any in-range days/hours/minutes bracketing the difference are the split's |
| `Overview.SplitDaysSign` | src/components/overview_page/earthquake_map_app.py:27-30 | days are negative iff the timestamp is in the future, positive iff a whole day has passed |
| `Overview.TimeSince` | src/components/overview_page/earthquake_map_app.py:23-35 | every result ends with " ago" |
| `Overview.Quantity` | src/components/overview_page/earthquake_map_app.py:31-35 | a quantity ends in "s" iff its value is above 1 (so 0 and 1 are singular) |
| `Overview.WordsOfQuantity` | src/components/overview_page/earthquake_map_app.py:31-35 | a quantity splits on spaces into the decimal number and the unit word |
| `Overview.TimeSinceReadBack` | src/components/overview_page/earthquake_map_app.py:23-35 | the numbers read back from the text are the split's days (when positive), hours and minutes; for a timestamp not in the future, exactly the split |
| `Overview.SplitMinuteGranular` | src/components/overview_page/earthquake_map_app.py:25-29 | differences with the same number of whole minutes have the same days, hours and minutes |
| `Overview.TimeSinceMinuteGranular` | src/components/overview_page/earthquake_map_app.py:25-35 | differences with the same number of whole minutes give the same text |
| `Overview.TimeSinceShowsDays` | src/components/overview_page/earthquake_map_app.py:30-31 | the day part appears iff at least a day has passed; never for a future timestamp |
| `Overview.TimeSinceShowsHourUnit` | src/components/overview_page/earthquake_map_app.py:30-33 | the hour part appears iff days or hours are non-zero |
| `Overview.NinetyMinutesAgo` | src/components/overview_page/earthquake_map_app.py:32-33 | 90 minutes gives "1 hour 30 minutes ago" |
| `Overview.JustNow` | src/components/overview_page/earthquake_map_app.py:34-35 | a zero difference gives "0 minute ago" |
| `Overview.OneDayAgo` | src/components/overview_page/earthquake_map_app.py:30-31 | exactly one day gives "1 day 0 hour 0 minute ago": zero hour and minute parts are kept |
| `Overview.FutureSecondReadsAsHoursAgo` | src/components/overview_page/earthquake_map_app.py:27-33 | a timestamp one second ahead gives "23 hours 59 minutes ago" |
| `Overview.TimeSinceShowsHoursForFuture` | src/components/overview_page/earthquake_map_app.py:27-33 | as written, the hour part can appear although less than an hour (indeed, negative time) has passed |
| `Overview.TimeSinceClamped` | src/components/overview_page/earthquake_map_app.py:23-35 | for a past or present timestamp the clamped text equals `time_since` |
| `Overview.TimeSinceClampedShowsHours` | src/components/overview_page/earthquake_map_app.py:23-35 | with the clamp, the hour part appears iff at least an hour has passed |
| `Overview.ShowDataTable` | src/components/overview_page/earthquake_map_app.py:16-20 | the columns are exactly Time, Magnitude, Latitude, Longitude, Place; row labels are 1..n for n input rows |
| `Overview.ShowDataTableLosesOnlyColor` | src/components/overview_page/earthquake_map_app.py:17-20 | the table rows with the colours put back give the input frame, row for row and in order: only `color` is dropped |

## Left out

- HTTP: the GET itself, transport errors and `response.json()` are left out. The response is a parameter, and `st.error` is not modelled.
- Streamlit: widgets, columns, markdown, `st.session_state` and `st.dataframe` are left out. The session-state filter result is reduced to the `threshold` parameter, so a filter result kept from any earlier fetch (of this or another period) is not modelled.
- pydeck: rendering, the tooltip and the colour-bar HTML are left out. Only the layer and deck records are modelled.
- `EarthquakeMapApp.run` and its collaborators: `DataFetcher`, `DataProcessor`, `MapRenderer` and `SidebarRenderer` are not part of this model. The in-place overwrite of the `time` column by `time_since` at earthquake_map_app.py:57 is therefore out of scope.
- `ShowDataTable`: the Time column holds the raw millisecond timestamp, not the `time_since` text that `run` puts there before display.
- `Calendar.FormatDate`: years below 1000 are not modelled, because their `%Y` text differs between platforms.
- `Endpoints.ApiUrls`: defined for years 1001 to 9999 only, because `datetime(today.year - 1, ...)` must also have a four-digit year.
- `pd.to_datetime(..., unit='ms')`: the feed time stays an integer.
- Floating point: exact IEEE-754 rounding of `255 * (1 - m / 10)`, of `magnitude * 10000` and of the comparisons is idealised as real arithmetic.
- `datetime.now()`: the clock is not modelled; `today` and `now` are parameters.

## Findings

| source | as written | input that shows it | evidently intended | confidence | as-written member | corrected member |
|---|---|---|---|---|---|---|
| src/components/overview_page/earthquake_map_app.py:25-33 | a negative difference has days = -1 and `seconds` near 86400, so the hour branch reports almost a day | a timestamp one second ahead of `now` gives "23 hours 59 minutes ago" | a timestamp not yet reached reads as "0 minute ago", and hours appear only when an hour has passed | medium (feed times are naive UTC, src/main.py:52, while `datetime.now()` is local time, so west of UTC every quake of the last few hours has a negative difference); not executed | `Overview.TimeSinceShowsHoursForFuture` | `Overview.TimeSinceClampedShowsHours` |
