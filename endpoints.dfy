/**
 * The time-period keys of src/main.py and the feed URL each resolves to
 * (`API_URLS`), and the single-attempt fetch (`fetch_earthquake_data`).
 * The clock is a parameter: `today` is the date `datetime.now()` returned
 * when the table was built.
 */
module Endpoints {
  import opened Wrappers
  import opened Calendar
  import Quakes

  const BaseUrl := "https://earthquake.usgs.gov/fdsnws/event/1/query"
  const SummaryUrl := "https://earthquake.usgs.gov/earthquakes/feed/v1.0/summary/"
  /** Result cap of the three date-window queries. */
  const QueryLimit := "20000"
  /** "Past 6 Months" reaches back this many days. */
  const SixMonthsDays := 182
  /** The key used when no period has been selected. */
  const DefaultPeriod := "Past Day"

  /** Dates for which every window below can be formatted: `%Y` is four digits for `today` and the year before it. */
  predicate ValidToday(today: Date) {
    ValidDate(today) && today.year >= 1001
  }

  datatype Window = Window(start: Date, end: Date)

  /** `today - timedelta(days=182)` to `today`. */
  function SixMonthsWindow(today: Date): (w: Window)
    requires ValidToday(today)
    ensures FourDigitYear(w.start) && FourDigitYear(w.end)
    ensures w.end == today && Ordinal(w.end) - Ordinal(w.start) == SixMonthsDays
  {
    assert Ordinal(today) > DaysBeforeYear(today.year) >= DaysBeforeYear(2) == 365;
    MinusDaysYear(today, SixMonthsDays);
    Window(MinusDays(today, SixMonthsDays), today)
  }

  /** `datetime(today.year, 1, 1)` to `today`. */
  function ThisYearWindow(today: Date): (w: Window)
    requires ValidToday(today)
    ensures FourDigitYear(w.start) && FourDigitYear(w.end)
    ensures w.end == today
    ensures Ordinal(w.start) == DaysBeforeYear(today.year) + 1  // the first day of today's year
  {
    Window(Date(today.year, 1, 1), today)
  }

  /** `datetime(today.year - 1, 1, 1)` to `datetime(today.year - 1, 12, 31)`. */
  function PreviousYearWindow(today: Date): (w: Window)
    requires ValidToday(today)
    ensures FourDigitYear(w.start) && FourDigitYear(w.end)
    ensures Ordinal(w.start) == DaysBeforeYear(today.year - 1) + 1  // the first day of the previous year
    ensures Ordinal(w.end) == DaysBeforeYear(today.year)  // the last day of the previous year
  {
    DaysBeforeDecember(today.year - 1);
    Window(Date(today.year - 1, 1, 1), Date(today.year - 1, 12, 31))
  }

  const StartParam := "?starttime="
  const EndParam := "&endtime="
  const QuerySuffix := "&format=geojson&limit=" + QueryLimit

  /** Where the start date, the `&endtime=` parameter and the end date begin in a query URL. */
  const StartAt := |BaseUrl + StartParam|
  const EndParamAt := StartAt + 10
  const EndAt := EndParamAt + |EndParam|

  /**
   * The f-string of the three date-window entries: the start date as
   * `starttime`, the end date as `endtime`, then the format and the limit.
   */
  function QueryUrl(w: Window): (u: string)
    requires FourDigitYear(w.start) && FourDigitYear(w.end)
    ensures |u| == EndAt + 10 + |QuerySuffix|
    ensures u[..StartAt] == BaseUrl + StartParam
    ensures IsDateText(u[StartAt..EndParamAt])
    ensures u[EndParamAt..EndAt] == EndParam
    ensures IsDateText(u[EndAt..EndAt + 10])
    ensures u[EndAt + 10..] == QuerySuffix
  {
    FormatDateRoundTrip(w.start);
    FormatDateRoundTrip(w.end);
    var u := BaseUrl + StartParam + FormatDate(w.start) + EndParam + FormatDate(w.end) + QuerySuffix;
    assert u[StartAt..EndParamAt] == FormatDate(w.start);
    assert u[EndAt..EndAt + 10] == FormatDate(w.end);
    u
  }

  const PeriodKeys := {"Past Hour", "Past Day", "Past 7 Days", "Past 30 Days", "Past 6 Months", "This Year", "Previous Year"}

  /** The dictionary `API_URLS` as built for `today`. */
  function ApiUrls(today: Date): (m: map<string, string>)
    requires ValidToday(today)
    ensures m.Keys == PeriodKeys
  {
    var sixMonths, thisYear, previousYear :=
      QueryUrl(SixMonthsWindow(today)), QueryUrl(ThisYearWindow(today)), QueryUrl(PreviousYearWindow(today));
    map[
      "Past Hour" := SummaryUrl + "all_hour.geojson",
      "Past Day" := SummaryUrl + "all_day.geojson",
      "Past 7 Days" := SummaryUrl + "all_week.geojson",
      "Past 30 Days" := SummaryUrl + "all_month.geojson",
      "Past 6 Months" := sixMonths,
      "This Year" := thisYear,
      "Previous Year" := previousYear
    ]
  }

  /** `API_URLS[time_period]`. */
  function ApiUrl(period: string, today: Date): (r: Result<string, KeyError<string>>)
    requires ValidToday(today)
    ensures r.Ok? <==> period in PeriodKeys
    ensures r.Ok? ==> r.value == ApiUrls(today)[period]
    ensures r.Err? ==> r.error == KeyError(period)
  {
    Lookup(ApiUrls(today), period)
  }

  /** What the HTTP collaborator returned for a GET. */
  datatype HttpResponse = HttpResponse(statusCode: int, body: Quakes.FeatureCollection)

  /**
   * src/main.py:82-85 with `fetch_earthquake_data`: the selected period, or
   * "Past Day" when none is selected, is looked up (an unknown key raises),
   * one GET is made through `get`, and the body is returned only on status 200.
   */
  function FetchEarthquakeData(selection: Option<string>, today: Date, get: string -> HttpResponse)
    : (r: Result<Option<Quakes.FeatureCollection>, KeyError<string>>)
    requires ValidToday(today)
    ensures r.Err? <==> selection.GetOr(DefaultPeriod) !in ApiUrls(today)
    ensures r.Ok? && r.value.Some? <==>
      selection.GetOr(DefaultPeriod) in ApiUrls(today) && get(ApiUrls(today)[selection.GetOr(DefaultPeriod)]).statusCode == 200
    ensures r.Ok? && r.value.Some? ==> r.value.value == get(ApiUrls(today)[selection.GetOr(DefaultPeriod)]).body
  {
    match ApiUrl(selection.GetOr(DefaultPeriod), today)
    case Err(e) => Err(e)
    case Ok(url) =>
      var response := get(url);
      if response.statusCode == 200 then Ok(Some(response.body)) else Ok(None)
  }

  /* ---------------- Properties ---------------- */

  /** With no selection the fetch asks for the past day's summary feed. */
  lemma DefaultFetchResolves(today: Date, get: string -> HttpResponse)
    requires ValidToday(today)
    ensures FetchEarthquakeData(None, today, get).Ok?
    ensures FetchEarthquakeData(None, today, get).value.Some? <==> get(SummaryUrl + "all_day.geojson").statusCode == 200
    ensures FetchEarthquakeData(None, today, get).value.Some? ==>
      FetchEarthquakeData(None, today, get).value.value == get(SummaryUrl + "all_day.geojson").body
  {
    var url := SummaryUrl + "all_day.geojson";
    assert ApiUrls(today)[DefaultPeriod] == url;
    assert ApiUrl(DefaultPeriod, today) == Ok(url);
  }

  /** "This Year" runs from 1 January of the current year up to and including today. */
  lemma ThisYearSpan(today: Date)
    requires ValidToday(today)
    ensures ApiUrl("This Year", today) == Ok(QueryUrl(ThisYearWindow(today)))
    ensures ThisYearWindow(today).start == Date(today.year, 1, 1) && ThisYearWindow(today).end == today
    ensures Ordinal(ThisYearWindow(today).end) - Ordinal(ThisYearWindow(today).start) == DaysBeforeMonth(today.year, today.month) + today.day - 1
  {
  }

  /** "Previous Year" covers every day of the year before today's, from 1 January to 31 December. */
  lemma PreviousYearSpan(today: Date)
    requires ValidToday(today)
    ensures ApiUrl("Previous Year", today) == Ok(QueryUrl(PreviousYearWindow(today)))
    ensures PreviousYearWindow(today).start.year == PreviousYearWindow(today).end.year == today.year - 1
    ensures Ordinal(PreviousYearWindow(today).end) - Ordinal(PreviousYearWindow(today).start) + 1 == DaysInYear(today.year - 1)
  {
    var w := PreviousYearWindow(today);
    DaysBeforeDecember(today.year - 1);
    assert Ordinal(w.start) == DaysBeforeYear(today.year - 1) + 1;
    assert Ordinal(w.end) == DaysBeforeYear(today.year - 1) + DaysBeforeMonth(today.year - 1, 12) + 31;
  }

  /** "Past 6 Months" ends today and starts 182 days earlier. */
  lemma SixMonthsSpan(today: Date)
    requires ValidToday(today)
    ensures ApiUrl("Past 6 Months", today) == Ok(QueryUrl(SixMonthsWindow(today)))
    ensures SixMonthsWindow(today).end == today
    ensures Ordinal(today) - Ordinal(SixMonthsWindow(today).start) == 182
  {
  }

  /**
   * The dates a query URL carries: the text must be the base URL, a date as
   * `starttime`, a date as `endtime` and the format and limit, and nothing else.
   */
  function QueryWindow(url: string): Option<Window> {
    if |url| == EndAt + 10 + |QuerySuffix|
      && url[..StartAt] == BaseUrl + StartParam
      && IsDateText(url[StartAt..EndParamAt])
      && url[EndParamAt..EndAt] == EndParam
      && IsDateText(url[EndAt..EndAt + 10])
      && url[EndAt + 10..] == QuerySuffix
    then Some(Window(ParseDate(url[StartAt..EndParamAt]), ParseDate(url[EndAt..EndAt + 10])))
    else None
  }

  /** A query URL encodes its window without loss: the start and end dates can be read back from it. */
  lemma QueryUrlRoundTrip(w: Window)
    requires FourDigitYear(w.start) && FourDigitYear(w.end)
    ensures QueryWindow(QueryUrl(w)) == Some(w)
  {
    var url := QueryUrl(w);
    assert url[StartAt..EndParamAt] == FormatDate(w.start);
    assert url[EndAt..EndAt + 10] == FormatDate(w.end);
    FormatDateRoundTrip(w.start);
    FormatDateRoundTrip(w.end);
  }
}
