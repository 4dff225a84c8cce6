/** The analytics endpoint: the last 90 days of reservations, aggregated per
    day and per hour, with zero-filled daily series, totals and the number
    of distinct customer emails. Dates are day indices: `today` is a day
    number and the window is the 90 days ending with it. */
module Analytics {

  import opened Base
  import opened Strings
  import opened Seqs

  /** The columns the query selects, with the date as a day index and the
      restaurant the query filters on. */
  datatype Sample = Sample(day: int, time: Option<string>, guests: Option<int>,
                           email: Option<string>, restaurant: string)

  /** The rows `.gte('date', startDate)` returns, restricted to one
      restaurant when the query string names one. */
  function Queried(rows: seq<Sample>, start: int, restaurant: Option<string>): (q: seq<Sample>)
    ensures forall i :: 0 <= i < |q| ==> q[i].day >= start
    ensures Truthy(restaurant) ==> forall i :: 0 <= i < |q| ==> q[i].restaurant == restaurant.value
    ensures forall x :: (multiset(q)[x]
      == if x.day >= start && (Truthy(restaurant) ==> x.restaurant == restaurant.value) then multiset(rows)[x] else 0)
  {
    var p := (s: Sample) => s.day >= start && (Truthy(restaurant) ==> s.restaurant == restaurant.value);
    assert forall x :: multiset(Filter(rows, p))[x] == if p(x) then multiset(rows)[x] else 0 by {
      forall x ensures multiset(Filter(rows, p))[x] == if p(x) then multiset(rows)[x] else 0 {
        FilterMultiset(rows, p, x);
      }
    }
    Filter(rows, p)
  }

  // ---------------------------------------------------------------------
  // per-day statistics

  datatype DayStats = DayStats(bookings: nat, guests: int)


  /** `r.guests ?? 0`. */
  function GuestsOf(s: Sample): int {
    s.guests.GetOr(0)
  }

  /** One more booking with its guests. */
  function Add(t: DayStats, s: Sample): DayStats {
    DayStats(t.bookings + 1, t.guests + GuestsOf(s))
  }

  function Plus(a: DayStats, b: DayStats): DayStats {
    DayStats(a.bookings + b.bookings, a.guests + b.guests)
  }

  /** `daily[k] || { bookings: 0, guests: 0 }`. */
  function StatsFor(daily: map<int, DayStats>, day: int): DayStats {
    if day in daily then daily[day] else DayStats(0, 0)
  }

  /** The bookings and guests of the rows on `day`: the reference the
      per-day aggregation is proved against. */
  function DayTally(rows: seq<Sample>, day: int): DayStats {
    if rows == [] then DayStats(0, 0)
    else
      var t := DayTally(rows[..|rows| - 1], day);
      if rows[|rows| - 1].day == day then Add(t, rows[|rows| - 1]) else t
  }

  /** The bookings and guests of the rows on the `n` days from `start`: the
      reference the totals are proved against. */
  function WindowTally(rows: seq<Sample>, start: int, n: nat): DayStats {
    if rows == [] then DayStats(0, 0)
    else
      var t := WindowTally(rows[..|rows| - 1], start, n);
      if start <= rows[|rows| - 1].day < start + n then Add(t, rows[|rows| - 1]) else t
  }

  function OnDay(day: int): Sample -> bool {
    (s: Sample) => s.day == day
  }

  function InWindow(start: int, n: nat): Sample -> bool {
    (s: Sample) => start <= s.day < start + n
  }

  /** A day's booking count is the number of rows on that day. */
  lemma {:induction false} DayTallyCountsRows(rows: seq<Sample>, day: int)
    ensures DayTally(rows, day).bookings == |Filter(rows, OnDay(day))|
  {
    if rows != [] {
      DayTallyCountsRows(rows[..|rows| - 1], day);
    }
  }

  /** A window's booking count is the number of rows inside it. */
  lemma {:induction false} WindowTallyCountsRows(rows: seq<Sample>, start: int, n: nat)
    ensures WindowTally(rows, start, n).bookings == |Filter(rows, InWindow(start, n))|
  {
    if rows != [] {
      WindowTallyCountsRows(rows[..|rows| - 1], start, n);
    }
  }

  /** The `daily` dictionary after the aggregation loop has seen `rows`. */
  function Daily(rows: seq<Sample>): map<int, DayStats> {
    if rows == [] then map[]
    else
      var m := Daily(rows[..|rows| - 1]);
      var s := rows[|rows| - 1];
      m[s.day := Add(StatsFor(m, s.day), s)]
  }

  /** A day's entry counts exactly the rows of that day, and a day has an
      entry exactly when some row falls on it. */
  lemma {:induction false} DailyIsTally(rows: seq<Sample>, day: int)
    ensures StatsFor(Daily(rows), day) == DayTally(rows, day)
    ensures day in Daily(rows) <==> DayTally(rows, day).bookings > 0
  {
    if rows != [] {
      DailyIsTally(rows[..|rows| - 1], day);
    }
  }

  // ---------------------------------------------------------------------
  // per-hour counts and distinct emails

  /** `r.time || '00:00'`. */
  function TimeOrMidnight(time: Option<string>): string {
    if Truthy(time) then time.value else "00:00"
  }

  /** `String((r.time || '00:00').split(':')[0]).padStart(2, '0') + ':00'`. */
  function HourKey(time: Option<string>): string {
    PadStart2(BeforeFirst(TimeOrMidnight(time), ':')) + ":00"
  }

  /** A missing time counts as midnight; a time "HH:MM" counts in "HH:00";
      a one-digit hour is padded; every key ends in ":00". */
  lemma HourKeyCases(time: Option<string>)
    ensures !Truthy(time) ==> HourKey(time) == "00:00"
    ensures Truthy(time) && |time.value| >= 3 && time.value[2] == ':' && ':' !in time.value[..2]
      ==> HourKey(time) == time.value[..2] + ":00"
    ensures Truthy(time) && |time.value| >= 2 && time.value[1] == ':' && time.value[0] != ':'
      ==> HourKey(time) == "0" + time.value[..1] + ":00"
    ensures |HourKey(time)| >= 5 && HourKey(time)[|HourKey(time)| - 3..] == ":00"
  {
    var t := TimeOrMidnight(time);
    if !Truthy(time) {
      assert BeforeFirst(t, ':') == "00" by {
        assert t == "00:00";
        assert BeforeFirst(t[2..], ':') == [];
        assert BeforeFirst(t[1..], ':') == [t[1]] + BeforeFirst(t[2..], ':');
      }
    }
    if |t| >= 3 && t[2] == ':' && ':' !in t[..2] {
      BeforeFirstAt(t, 2);
    }
    if |t| >= 2 && t[1] == ':' && t[0] != ':' {
      BeforeFirstAt(t, 1);
    }
  }

  /** The text before the first `sep` is the prefix up to a position holding
      `sep` when the prefix holds none. */
  lemma BeforeFirstAt(s: string, n: nat)
    requires n < |s| && s[n] == ':' && ':' !in s[..n]
    ensures BeforeFirst(s, ':') == s[..n]
  {
    BeforeFirstStops(s, ':');
  }

  /** The hour keys of the rows, in order. */
  function HourKeys(rows: seq<Sample>): (ks: seq<string>)
    ensures |ks| == |rows|
    ensures forall i :: 0 <= i < |rows| ==> ks[i] == HourKey(rows[i].time)
  {
    seq(|rows|, i requires 0 <= i < |rows| => HourKey(rows[i].time))
  }

  /** `byHour[hour] || 0`. */
  function Count(m: map<string, nat>, k: string): nat {
    if k in m then m[k] else 0
  }

  /** The `byHour` dictionary after the loop has seen rows with the hour
      keys `hours`. */
  function ByHour(hours: seq<string>): map<string, nat> {
    if hours == [] then map[]
    else
      var m := ByHour(hours[..|hours| - 1]);
      var k := hours[|hours| - 1];
      m[k := Count(m, k) + 1]
  }

  /** Each hour present counts its rows, and an hour is present exactly
      when some row falls in it. */
  lemma {:induction false} ByHourCounts(hours: seq<string>, k: string)
    ensures Count(ByHour(hours), k) == multiset(hours)[k]
    ensures k in ByHour(hours) <==> k in hours
  {
    if hours != [] {
      var init := hours[..|hours| - 1];
      ByHourCounts(init, k);
      assert hours == init + [hours[|hours| - 1]];
    }
  }

  /** The `uniqueEmails` set after the loop has seen `rows`. */
  function Emails(rows: seq<Sample>): set<string> {
    if rows == [] then {}
    else
      var e := rows[|rows| - 1].email;
      Emails(rows[..|rows| - 1]) + (if Truthy(e) then {e.value} else {})
  }

  /** Some row carries the email `e`. */
  predicate HasEmail(rows: seq<Sample>, e: string) {
    exists i :: 0 <= i < |rows| && rows[i].email == Some(e)
  }

  /** The set holds exactly the non-empty emails of the rows. */
  lemma {:induction false} EmailsExactly(rows: seq<Sample>, e: string)
    ensures e in Emails(rows) <==> e != "" && HasEmail(rows, e)
  {
    if rows != [] {
      var init := rows[..|rows| - 1];
      EmailsExactly(init, e);
      if e in Emails(init) {
        var i :| 0 <= i < |init| && init[i].email == Some(e);
        assert rows[i] == init[i];
      }
      if exists i :: 0 <= i < |rows| && rows[i].email == Some(e) {
        var i :| 0 <= i < |rows| && rows[i].email == Some(e);
        if i < |init| {
          assert init[i] == rows[i];
        }
      }
    }
  }

  /** The three values the aggregation loop keeps. */
  datatype Aggregates = Aggregates(daily: map<int, DayStats>, byHour: map<string, nat>, emails: set<string>)

  /** The loop's values once it has seen `rows`, whose hour keys are
      `hours`. */
  function AggregatesOf(rows: seq<Sample>, hours: seq<string>): Aggregates {
    Aggregates(Daily(rows), ByHour(hours), Emails(rows))
  }

  /** What the loop body does with one row and its hour key. */
  function AddTo(a: Aggregates, r: Sample, hour: string): Aggregates {
    Aggregates(a.daily[r.day := Add(StatsFor(a.daily, r.day), r)],
               a.byHour[hour := Count(a.byHour, hour) + 1],
               a.emails + (if Truthy(r.email) then {r.email.value} else {}))
  }

  /** One more row updates the three aggregates as the loop body does. */
  lemma AggregateStep(rows: seq<Sample>, hours: seq<string>, i: nat)
    requires i < |rows| == |hours|
    ensures AggregatesOf(rows[..i + 1], hours[..i + 1]) == AddTo(AggregatesOf(rows[..i], hours[..i]), rows[i], hours[i])
  {
    assert rows[..i + 1][..i] == rows[..i];
    ByHourStep(hours, i);
  }

  /** One more hour key updates the hour counts as the loop body does. */
  lemma ByHourStep(hours: seq<string>, i: nat)
    requires i < |hours|
    ensures ByHour(hours[..i + 1]) == ByHour(hours[..i])[hours[i] := Count(ByHour(hours[..i]), hours[i]) + 1]
  {
    assert hours[..i + 1][..i] == hours[..i];
  }

  /** The body of the aggregation loop for one row. */
  method AddSample(daily: map<int, DayStats>, byHour: map<string, nat>, emails: set<string>, r: Sample)
    returns (daily': map<int, DayStats>, byHour': map<string, nat>, emails': set<string>)
    ensures Aggregates(daily', byHour', emails') == AddTo(Aggregates(daily, byHour, emails), r, HourKey(r.time))
  {
    var entry := StatsFor(daily, r.day);
    entry := entry.(bookings := entry.bookings + 1);
    entry := entry.(guests := entry.guests + GuestsOf(r));
    daily' := daily[r.day := entry];
    var hour := HourKey(r.time);
    byHour' := byHour[hour := Count(byHour, hour) + 1];
    emails' := emails;
    if Truthy(r.email) {
      emails' := emails' + {r.email.value};
    }
  }

  /** The aggregation loop over the rows. */
  method Aggregate(rows: seq<Sample>) returns (daily: map<int, DayStats>, byHour: map<string, nat>, emails: set<string>)
    ensures daily == Daily(rows) && byHour == ByHour(HourKeys(rows)) && emails == Emails(rows)
  {
    daily, byHour, emails := map[], map[], {};
    ghost var hours := HourKeys(rows);
    var i := 0;
    while i < |rows|
      invariant 0 <= i <= |rows|
      invariant Aggregates(daily, byHour, emails) == AggregatesOf(rows[..i], hours[..i])
    {
      AggregateStep(rows, hours, i);
      assert hours[i] == HourKey(rows[i].time);
      daily, byHour, emails := AddSample(daily, byHour, emails, rows[i]);
      i := i + 1;
    }
    assert rows[..i] == rows && hours[..i] == hours;
  }

  // ---------------------------------------------------------------------
  // the zero-filled series and the totals

  datatype DayEntry = DayEntry(day: int, bookings: nat, guests: int)

  /** The entry of one day: its figures, or zeros. */
  function EntryFor(daily: map<int, DayStats>, day: int): DayEntry {
    DayEntry(day, StatsFor(daily, day).bookings, StatsFor(daily, day).guests)
  }

  /** The `n` days from `start`, each with its entry or zeros. */
  function SeriesOf(daily: map<int, DayStats>, start: int, n: nat): (series: seq<DayEntry>)
    ensures |series| == n
    ensures forall i :: 0 <= i < n ==> series[i] == EntryFor(daily, start + i)
  {
    seq(n, i requires 0 <= i < n => EntryFor(daily, start + i))
  }

  /** The series of `n` days extends the series of `n - 1` days by one entry. */
  lemma SeriesPrefix(daily: map<int, DayStats>, start: int, n: nat)
    requires n > 0
    ensures SeriesOf(daily, start, n) == SeriesOf(daily, start, n - 1) + [EntryFor(daily, start + n - 1)]
  {
  }

  /** The number of days the analytics window spans, today included. */
  const WindowDays: nat := 90

  /** `start.setDate(today.getDate() - 89)`. */
  function WindowStart(today: int): int {
    today - (WindowDays - 1)
  }

  /** The loop that pushes one entry per day of the window. */
  method DailySeries(daily: map<int, DayStats>, start: int) returns (series: seq<DayEntry>)
    ensures series == SeriesOf(daily, start, WindowDays)
  {
    series := [];
    var i := 0;
    while i < WindowDays
      invariant 0 <= i <= WindowDays
      invariant series == SeriesOf(daily, start, i)
    {
      var k := start + i;
      var v := StatsFor(daily, k);
      series := series + [DayEntry(k, v.bookings, v.guests)];
      SeriesPrefix(daily, start, i + 1);
      i := i + 1;
    }
  }

  /** The `reduce` that adds up the series. */
  function TotalsOf(series: seq<DayEntry>): DayStats {
    if series == [] then DayStats(0, 0)
    else
      var acc := TotalsOf(series[..|series| - 1]);
      var x := series[|series| - 1];
      DayStats(acc.bookings + x.bookings, acc.guests + x.guests)
  }

  /** Widening the window by one day adds that day's rows. */
  lemma {:induction false} WindowWiden(rows: seq<Sample>, start: int, n: nat)
    ensures WindowTally(rows, start, n + 1) == Plus(WindowTally(rows, start, n), DayTally(rows, start + n))
  {
    if rows != [] {
      WindowWiden(rows[..|rows| - 1], start, n);
    }
  }

  /** An empty window selects nothing. */
  lemma {:induction false} WindowEmpty(rows: seq<Sample>, start: int)
    ensures WindowTally(rows, start, 0) == DayStats(0, 0)
  {
    if rows != [] {
      WindowEmpty(rows[..|rows| - 1], start);
    }
  }

  /** Adding up one more entry adds its figures. */
  lemma TotalsSnoc(prev: seq<DayEntry>, e: DayEntry)
    ensures TotalsOf(prev + [e]) == Plus(TotalsOf(prev), DayStats(e.bookings, e.guests))
  {
    assert (prev + [e])[..|prev|] == prev;
  }

  /** Widening the window to `n` days adds the figures of its last day. */
  lemma WindowStep(rows: seq<Sample>, start: int, n: nat)
    requires n > 0
    ensures WindowTally(rows, start, n) == Plus(WindowTally(rows, start, n - 1), StatsFor(Daily(rows), start + n - 1))
  {
    WindowWiden(rows, start, n - 1);
    DailyIsTally(rows, start + n - 1);
  }

  /** The series adds up to the rows inside its window, and only those. */
  lemma {:induction false} SeriesTotals(rows: seq<Sample>, start: int, n: nat)
    ensures TotalsOf(SeriesOf(Daily(rows), start, n)) == WindowTally(rows, start, n)
  {
    if n == 0 {
      WindowEmpty(rows, start);
    } else {
      var d := Daily(rows);
      SeriesPrefix(d, start, n);
      TotalsSnoc(SeriesOf(d, start, n - 1), EntryFor(d, start + n - 1));
      SeriesTotals(rows, start, n - 1);
      WindowStep(rows, start, n);
    }
  }

  // ---------------------------------------------------------------------
  // the endpoint

  datatype Totals = Totals(bookings: nat, guests: int, uniqueUsers: nat)

  datatype AnalyticsReply =
    | Failed(status: int, message: string)
    | Report(windowStart: int, windowEnd: int, daily: seq<DayEntry>, byHour: map<string, nat>,
             totals: Totals, today: DayStats)

  const FetchFailed := "Failed to fetch analytics"

  /** The report the endpoint builds from the queried rows. */
  function ReportFor(rows: seq<Sample>, today: int, restaurant: Option<string>): AnalyticsReply {
    var q := Queried(rows, WindowStart(today), restaurant);
    var daily := Daily(q);
    var series := SeriesOf(daily, WindowStart(today), WindowDays);
    var t := TotalsOf(series);
    Report(WindowStart(today), today, series, ByHour(HourKeys(q)), Totals(t.bookings, t.guests, |Emails(q)|), StatsFor(daily, today))
  }

  /** `GET /api/analytics`: a failed query is a 500; otherwise the rows are
      aggregated, the series zero-filled and the totals added up. */
  method Get(rows: seq<Sample>, today: int, restaurant: Option<string>, queryFailed: bool) returns (reply: AnalyticsReply)
    ensures queryFailed ==> reply == Failed(500, FetchFailed)
    ensures !queryFailed ==> reply == ReportFor(rows, today, restaurant)
  {
    if queryFailed {
      return Failed(500, FetchFailed);
    }
    var start := WindowStart(today);
    var data := Queried(rows, start, restaurant);
    var daily, byHour, emails := Aggregate(data);
    var series := DailySeries(daily, start);
    var totals := TotalsOf(series);
    var todayStats := StatsFor(daily, today);
    reply := Report(start, today, series, byHour, Totals(totals.bookings, totals.guests, |emails|), todayStats);
  }

  /** Entry `i` of a series over the aggregated rows is day `start + i`
      with that day's rows and guests. */
  lemma SeriesEntry(q: seq<Sample>, start: int, n: nat, i: nat)
    requires i < n
    ensures SeriesOf(Daily(q), start, n)[i].day == start + i
    ensures SeriesOf(Daily(q), start, n)[i].bookings == |Filter(q, OnDay(start + i))|
    ensures SeriesOf(Daily(q), start, n)[i].guests == DayTally(q, start + i).guests
  {
    DailyIsTally(q, start + i);
    DayTallyCountsRows(q, start + i);
  }

  /** The window runs from 89 days before today to today: 90 entries, one
      per day in order, each counting exactly that day's rows (zeros when
      there are none), and today's figures are the last entry. */
  lemma ReportSeries(rows: seq<Sample>, today: int, restaurant: Option<string>, report: AnalyticsReply, i: nat)
    requires report == ReportFor(rows, today, restaurant)
    requires i < WindowDays
    ensures report.Report?
    ensures report.windowEnd - report.windowStart == WindowDays - 1
    ensures |report.daily| == WindowDays
    ensures report.daily[i].day == WindowStart(today) + i
    ensures report.daily[i].bookings == |Filter(Queried(rows, WindowStart(today), restaurant), OnDay(WindowStart(today) + i))|
    ensures report.daily[i].guests == DayTally(Queried(rows, WindowStart(today), restaurant), WindowStart(today) + i).guests
    ensures report.daily[WindowDays - 1].bookings == report.today.bookings
    ensures report.daily[WindowDays - 1].guests == report.today.guests
  {
    var q := Queried(rows, WindowStart(today), restaurant);
    SeriesEntry(q, WindowStart(today), WindowDays, i);
  }

  /** The totals count the rows inside the window, while the hour counts and
      the distinct users count every queried row, including rows dated
      after today. */
  lemma ReportTotals(rows: seq<Sample>, today: int, restaurant: Option<string>, k: string, e: string)
    ensures ReportFor(rows, today, restaurant).totals.bookings
      == |Filter(Queried(rows, WindowStart(today), restaurant), InWindow(WindowStart(today), WindowDays))|
    ensures ReportFor(rows, today, restaurant).totals.guests
      == WindowTally(Queried(rows, WindowStart(today), restaurant), WindowStart(today), WindowDays).guests
    ensures Count(ReportFor(rows, today, restaurant).byHour, k)
      == multiset(HourKeys(Queried(rows, WindowStart(today), restaurant)))[k]
    ensures e in Emails(Queried(rows, WindowStart(today), restaurant)) <==>
      e != "" && HasEmail(Queried(rows, WindowStart(today), restaurant), e)
  {
    var q := Queried(rows, WindowStart(today), restaurant);
    SeriesTotals(q, WindowStart(today), WindowDays);
    WindowTallyCountsRows(q, WindowStart(today), WindowDays);
    ByHourCounts(HourKeys(q), k);
    EmailsExactly(q, e);
  }

  /** A row dated after today leaves the totals as they were, but adds one
      to its hour. */
  lemma FutureRowOnlyInHours(rows: seq<Sample>, s: Sample, today: int)
    requires s.day > today
    ensures WindowTally(rows + [s], WindowStart(today), WindowDays) == WindowTally(rows, WindowStart(today), WindowDays)
    ensures Count(ByHour(HourKeys(rows + [s])), HourKey(s.time)) == Count(ByHour(HourKeys(rows)), HourKey(s.time)) + 1
  {
    assert (rows + [s])[..|rows|] == rows;
    assert HourKeys(rows + [s]) == HourKeys(rows) + [HourKey(s.time)];
  }
}
