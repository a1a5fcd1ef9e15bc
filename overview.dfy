/**
 * The two pure helpers of `EarthquakeMapApp` in
 * src/components/overview_page/earthquake_map_app.py: the "time ago" text of
 * a timestamp (`time_since`) and the frame shown as the data table
 * (`show_data_table`). Instants are microseconds since the epoch, the
 * resolution of Python's `datetime`; `now` is the value `datetime.now()`
 * returned.
 */
module Overview {
  import opened Wrappers
  import opened Decimal
  import opened Quakes

  const MicrosPerSecond := 1000000
  const MicrosPerMinute := 60 * MicrosPerSecond
  const MicrosPerHour := 3600 * MicrosPerSecond
  const MicrosPerDay := 86400 * MicrosPerSecond

  datatype Elapsed = Elapsed(days: int, hours: int, minutes: int)

  /**
   * `diff.days`, `divmod(diff.seconds, 3600)` and `remainder // 60` for a
   * `timedelta` of `delta` microseconds. A timedelta keeps its seconds in
   * [0, 86400) and floors the days, so a negative difference has negative days.
   */
  function Split(delta: int): (e: Elapsed)
    ensures 0 <= e.hours < 24 && 0 <= e.minutes < 60
    ensures e.days * MicrosPerDay + e.hours * MicrosPerHour + e.minutes * MicrosPerMinute <= delta
    ensures delta < e.days * MicrosPerDay + e.hours * MicrosPerHour + (e.minutes + 1) * MicrosPerMinute
  {
    var days := delta / MicrosPerDay;
    var seconds := (delta % MicrosPerDay) / MicrosPerSecond;
    Elapsed(days, seconds / 3600, seconds % 3600 / 60)
  }

  /** The pieces of `s` between single spaces: the reader behind `TimeSinceReadBack`, not a step of `time_since`. */
  function SplitWords(s: string): (w: seq<string>)
    ensures |w| >= 1
  {
    if s == [] then [[]]
    else
      var rest := SplitWords(s[1..]);
      if s[0] == ' ' then [[]] + rest else [[s[0]] + rest[0]] + rest[1..]
  }

  lemma {:induction false} SplitWordsNoSpace(a: string)
    requires ' ' !in a
    ensures SplitWords(a) == [a]
  {
    if a != [] {
      SplitWordsNoSpace(a[1..]);
      assert [a[0]] + a[1..] == a;
    }
  }

  lemma {:induction false} SplitWordsAfterWord(a: string, rest: string)
    requires ' ' !in a
    ensures SplitWords(a + " " + rest) == [a] + SplitWords(rest)
    decreases |a|
  {
    if a == [] {
      assert a + " " + rest == [' '] + rest;
      assert ([' '] + rest)[1..] == rest;
    } else {
      assert (a + " " + rest)[1..] == a[1..] + " " + rest;
      SplitWordsAfterWord(a[1..], rest);
      assert [a[0]] + a[1..] == a;
    }
  }

  /** The unit word, with "s" appended only for values above 1 (so 0 and 1 are both singular). */
  function UnitWord(v: nat, unit: string): string {
    unit + (if v > 1 then "s" else "")
  }

  /** A number and its unit word. */
  function Quantity(v: nat, unit: string): (q: string)
    requires unit != [] && unit[|unit| - 1] != 's'
    ensures |q| > |unit| && (q[|q| - 1] == 's' <==> v > 1)
  {
    NatToString(v) + " " + UnitWord(v, unit)
  }

  /** The text `time_since` builds from a split: days when positive, hours when the days or the hours are, and always the minutes. */
  function Ago(e: Elapsed): (s: string)
    requires e.hours >= 0 && e.minutes >= 0
    ensures |s| >= 4 && s[|s| - 4..] == " ago"
  {
    if e.days > 0 then
      Quantity(e.days, "day") + " " + Quantity(e.hours, "hour") + " " + Quantity(e.minutes, "minute") + " ago"
    else if e.hours > 0 then
      Quantity(e.hours, "hour") + " " + Quantity(e.minutes, "minute") + " ago"
    else
      Quantity(e.minutes, "minute") + " ago"
  }

  /** `time_since(timestamp)` evaluated at `now`. */
  function TimeSince(now: int, timestamp: int): (s: string)
    ensures |s| >= 4 && s[|s| - 4..] == " ago"
  {
    Ago(Split(now - timestamp))
  }

  /* ---------------- Properties of the split ---------------- */

  /** The split is the unique one: any days/hours/minutes in range that bracket `delta` are Split's. */
  lemma SplitUnique(delta: int, e: Elapsed)
    requires 0 <= e.hours < 24 && 0 <= e.minutes < 60
    requires e.days * MicrosPerDay + e.hours * MicrosPerHour + e.minutes * MicrosPerMinute <= delta
    requires delta < e.days * MicrosPerDay + e.hours * MicrosPerHour + (e.minutes + 1) * MicrosPerMinute
    ensures Split(delta) == e
  {
    var f := Split(delta);
    var a := e.days * 1440 + e.hours * 60 + e.minutes;
    var b := f.days * 1440 + f.hours * 60 + f.minutes;
    assert a * MicrosPerMinute <= delta < (a + 1) * MicrosPerMinute;
    assert b * MicrosPerMinute <= delta < (b + 1) * MicrosPerMinute;
    assert a == b;
    assert e.days == f.days;
  }

  /** A future timestamp gives negative days; a past one non-negative days. */
  lemma SplitDaysSign(delta: int)
    ensures Split(delta).days < 0 <==> delta < 0
    ensures Split(delta).days > 0 <==> delta >= MicrosPerDay
  {
  }

  /* ---------------- Properties of the text ---------------- */

  lemma NoLetterInNumber(n: nat, c: char)
    requires !IsDigit(c)
    ensures c !in NatToString(n)
  {
  }

  /** A letter other than "s" is in a quantity exactly when it is in the unit. */
  lemma LetterInQuantity(v: nat, unit: string, c: char)
    requires unit != [] && unit[|unit| - 1] != 's'
    requires !IsDigit(c) && c != ' ' && c != 's'
    ensures c in Quantity(v, unit) <==> c in unit
  {
    NoLetterInNumber(v, c);
  }

  /** A day count is shown exactly when at least a whole day has passed; a future timestamp never shows one. */
  lemma TimeSinceShowsDays(now: int, timestamp: int)
    ensures 'd' in TimeSince(now, timestamp) <==> now - timestamp >= MicrosPerDay
  {
    SplitDaysSign(now - timestamp);
    AgoShowsDays(Split(now - timestamp));
  }

  /** The text has a "d" exactly when the days are positive. */
  lemma AgoShowsDays(e: Elapsed)
    requires e.hours >= 0 && e.minutes >= 0
    ensures 'd' in Ago(e) <==> e.days > 0
  {
    LetterInQuantity(e.hours, "hour", 'd');
    LetterInQuantity(e.minutes, "minute", 'd');
    if e.days > 0 {
      LetterInQuantity(e.days, "day", 'd');
    }
  }

  /** The text depends only on the number of whole minutes elapsed. */
  lemma TimeSinceMinuteGranular(now1: int, timestamp1: int, now2: int, timestamp2: int)
    requires (now1 - timestamp1) / MicrosPerMinute == (now2 - timestamp2) / MicrosPerMinute
    ensures TimeSince(now1, timestamp1) == TimeSince(now2, timestamp2)
  {
    SplitMinuteGranular(now1 - timestamp1, now2 - timestamp2);
  }

  /** Differences with the same number of whole minutes have the same split. */
  lemma SplitMinuteGranular(delta1: int, delta2: int)
    requires delta1 / MicrosPerMinute == delta2 / MicrosPerMinute
    ensures Split(delta1) == Split(delta2)
  {
    var e := Split(delta1);
    var a := e.days * 1440 + e.hours * 60 + e.minutes;
    assert a * MicrosPerMinute <= delta1 < (a + 1) * MicrosPerMinute;
    assert a == delta1 / MicrosPerMinute;
    SplitUnique(delta2, e);
  }

  /** Reads the days, hours and minutes back from a `time_since` text; a part that is not written reads as zero. */
  function ReadTimeSince(s: string): Option<Elapsed> {
    var w := SplitWords(s);
    if |w| == 7 && AllDigits(w[0]) && AllDigits(w[2]) && AllDigits(w[4]) then
      Some(Elapsed(DigitsValue(w[0]), DigitsValue(w[2]), DigitsValue(w[4])))
    else if |w| == 5 && AllDigits(w[0]) && AllDigits(w[2]) then
      Some(Elapsed(0, DigitsValue(w[0]), DigitsValue(w[2])))
    else if |w| == 3 && AllDigits(w[0]) then
      Some(Elapsed(0, 0, DigitsValue(w[0])))
    else None
  }

  /** A quantity followed by more text splits into the number, the unit and the words of the rest. */
  lemma WordsOfQuantity(v: nat, unit: string, rest: string)
    requires unit != [] && ' ' !in unit && unit[|unit| - 1] != 's'
    ensures SplitWords(Quantity(v, unit) + " " + rest) == [NatToString(v), UnitWord(v, unit)] + SplitWords(rest)
  {
    var word := UnitWord(v, unit);
    NoLetterInNumber(v, ' ');
    assert Quantity(v, unit) + " " + rest == NatToString(v) + " " + (word + " " + rest);
    SplitWordsAfterWord(NatToString(v), word + " " + rest);
    SplitWordsAfterWord(word, rest);
  }

  /** The minutes part with " ago" splits into the number, the unit and "ago". */
  lemma WordsOfMinutes(m: nat)
    ensures var w := SplitWords(Quantity(m, "minute") + " ago");
      |w| == 3 && w[0] == NatToString(m)
  {
    SplitWordsNoSpace("ago");
    assert Quantity(m, "minute") + " ago" == Quantity(m, "minute") + " " + "ago";
    WordsOfQuantity(m, "minute", "ago");
  }

  lemma ReadBackDays(d: nat, h: nat, m: nat)
    ensures ReadTimeSince(Quantity(d, "day") + " " + Quantity(h, "hour") + " " + Quantity(m, "minute") + " ago") == Some(Elapsed(d, h, m))
  {
    var minutes := Quantity(m, "minute") + " ago";
    var mid := Quantity(h, "hour") + " " + minutes;
    var text := Quantity(d, "day") + " " + Quantity(h, "hour") + " " + Quantity(m, "minute") + " ago";
    WordsOfMinutes(m);
    WordsOfQuantity(h, "hour", minutes);
    WordsOfQuantity(d, "day", mid);
    assert text == Quantity(d, "day") + " " + mid;
    var w := SplitWords(text);
    assert w == [NatToString(d), UnitWord(d, "day")] + ([NatToString(h), UnitWord(h, "hour")] + SplitWords(minutes));
    assert |w| == 7 && w[0] == NatToString(d) && w[2] == NatToString(h) && w[4] == NatToString(m);
    NatToStringRoundTrip(d);
    NatToStringRoundTrip(h);
    NatToStringRoundTrip(m);
  }

  lemma ReadBackHours(h: nat, m: nat)
    ensures ReadTimeSince(Quantity(h, "hour") + " " + Quantity(m, "minute") + " ago") == Some(Elapsed(0, h, m))
  {
    var minutes := Quantity(m, "minute") + " ago";
    WordsOfMinutes(m);
    WordsOfQuantity(h, "hour", minutes);
    assert Quantity(h, "hour") + " " + Quantity(m, "minute") + " ago" == Quantity(h, "hour") + " " + minutes;
    NatToStringRoundTrip(h);
    NatToStringRoundTrip(m);
  }

  lemma ReadBackMinutes(m: nat)
    ensures ReadTimeSince(Quantity(m, "minute") + " ago") == Some(Elapsed(0, 0, m))
  {
    WordsOfMinutes(m);
    NatToStringRoundTrip(m);
  }

  /**
   * The numbers written are the split's: days when positive, hours when the
   * days or the hours are, and always the minutes. For a timestamp that is not
   * in the future the text gives back the whole split.
   */
  lemma TimeSinceReadBack(now: int, timestamp: int)
    ensures var e := Split(now - timestamp);
      ReadTimeSince(TimeSince(now, timestamp)) == Some(Elapsed(if e.days > 0 then e.days else 0, e.hours, e.minutes))
    ensures now >= timestamp ==> ReadTimeSince(TimeSince(now, timestamp)) == Some(Split(now - timestamp))
  {
    var e := Split(now - timestamp);
    SplitDaysSign(now - timestamp);
    if e.days > 0 {
      ReadBackDays(e.days, e.hours, e.minutes);
    } else if e.hours > 0 {
      ReadBackHours(e.hours, e.minutes);
    } else {
      ReadBackMinutes(e.minutes);
    }
  }

  /** 90 minutes ago: one hour (singular), thirty minutes (plural). */
  lemma NinetyMinutesAgo(t: int)
    ensures TimeSince(t + 90 * MicrosPerMinute, t) == "1 hour 30 minutes ago"
  {
    SplitUnique(90 * MicrosPerMinute, Elapsed(0, 1, 30));
    assert Quantity(1, "hour") == "1 hour";
    assert NatToString(30) == "30";
    assert Quantity(30, "minute") == "30 minutes";
  }

  /** The same instant: zero minutes, and zero is not pluralised. */
  lemma JustNow(t: int)
    ensures TimeSince(t, t) == "0 minute ago"
  {
    assert Split(0) == Elapsed(0, 0, 0);
  }

  /** Exactly one day: the zero hour and minute parts are still written. */
  lemma OneDayAgo(t: int)
    ensures TimeSince(t + MicrosPerDay, t) == "1 day 0 hour 0 minute ago"
  {
    SplitUnique(MicrosPerDay, Elapsed(1, 0, 0));
    assert TimeSince(t + MicrosPerDay, t) == Quantity(1, "day") + " " + Quantity(0, "hour") + " " + Quantity(0, "minute") + " ago";
    assert NatToString(1) == "1" && NatToString(0) == "0";
  }

  /** A timestamp one second in the future reads as nearly a day old. */
  lemma FutureSecondReadsAsHoursAgo(t: int)
    ensures TimeSince(t, t + MicrosPerSecond) == "23 hours 59 minutes ago"
  {
    SplitUnique(-MicrosPerSecond, Elapsed(-1, 23, 59));
    assert NatToString(23) == "23";
    assert NatToString(59) == "59";
  }

  /**
   * `time_since` with the difference clamped at zero: a timestamp ahead of the
   * clock reads as "0 minute ago".
   */
  function TimeSinceClamped(now: int, timestamp: int): (s: string)
    ensures now - timestamp >= 0 ==> s == TimeSince(now, timestamp)
  {
    if now - timestamp >= 0 then TimeSince(now, timestamp) else TimeSince(now, now)
  }

  /** At or after the timestamp, the days or the hours are non-zero exactly when an hour has passed. */
  lemma SplitShowsHours(delta: int)
    requires delta >= 0
    ensures Split(delta).days > 0 || Split(delta).hours > 0 <==> delta >= MicrosPerHour
  {
  }

  /** The word "hour" appears exactly when the days or the hours are non-zero. */
  lemma TimeSinceShowsHourUnit(now: int, timestamp: int)
    ensures 'h' in TimeSince(now, timestamp) <==> Split(now - timestamp).days > 0 || Split(now - timestamp).hours > 0
  {
  }

  /** With the clamp, an hour count is shown exactly when at least an hour has passed. */
  lemma TimeSinceClampedShowsHours(now: int, timestamp: int)
    ensures 'h' in TimeSinceClamped(now, timestamp) <==> now - timestamp >= MicrosPerHour
  {
    if now - timestamp < 0 {
      JustNow(now);
      assert TimeSinceClamped(now, timestamp) == "0 minute ago";
    } else {
      TimeSinceShowsHourUnit(now, timestamp);
      SplitShowsHours(now - timestamp);
    }
  }

  /** As written, the same property fails: a timestamp one second ahead shows hours. */
  lemma TimeSinceShowsHoursForFuture(t: int)
    ensures 'h' in TimeSince(t, t + MicrosPerSecond) && t - (t + MicrosPerSecond) < MicrosPerHour
  {
  }

  /* ---------------- The data table ---------------- */

  /** One displayed row: Time, Magnitude, Latitude, Longitude, Place. */
  datatype TableRow = TableRow(time: int, magnitude: Option<real>, latitude: real, longitude: real, place: string)

  /** A displayed frame: its column labels, its row labels and its rows. */
  datatype Table = Table(columns: seq<string>, index: seq<int>, rows: seq<TableRow>)

  const DisplayColumns := ["Time", "Magnitude", "Latitude", "Longitude", "Place"]

  function DisplayRow(r: RenderRow): TableRow {
    TableRow(r.row.time, r.row.magnitude, r.row.latitude, r.row.longitude, r.row.place)
  }

  /** `show_data_table`: drop `color`, fix the column order, relabel the columns and number the rows from 1. */
  function ShowDataTable(df: seq<RenderRow>): (t: Table)
    ensures t.columns == DisplayColumns
    ensures |t.index| == |t.rows| == |df|
    ensures forall i :: 0 <= i < |t.index| ==> t.index[i] == i + 1
  {
    Table(DisplayColumns, seq(|df|, i => i + 1), seq(|df|, i requires 0 <= i < |df| => DisplayRow(df[i])))
  }

  /** Puts the colours back on the displayed rows. */
  function RestoreRows(t: Table, colors: seq<seq<int>>): seq<RenderRow>
    requires |colors| == |t.rows|
  {
    seq(|t.rows|, i requires 0 <= i < |t.rows| =>
      var d := t.rows[i];
      RenderRow(Row(d.latitude, d.longitude, d.magnitude, d.place, d.time), colors[i]))
  }

  /**
   * The table loses only the colour: from it and the colours the input frame
   * is recovered row for row, in the same order.
   */
  lemma ShowDataTableLosesOnlyColor(df: seq<RenderRow>)
    ensures RestoreRows(ShowDataTable(df), seq(|df|, i requires 0 <= i < |df| => df[i].color)) == df
  {
  }
}
