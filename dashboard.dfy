/** The admin dashboard's derived values: the `tel:` form of a phone number,
    location labels, bookings per hour with the sorted chart and the
    busiest hour, today's totals, and the calendar-status badge. */
module Dashboard {

  import opened Base
  import opened Strings
  import opened Seqs
  import opened Store
  import ReservationsApi

  type Booking = ReservationsApi.View

  // ---------------------------------------------------------------------
  // normalizePhoneForTel

  /** A character of `/[\s().-]/`. */
  predicate IsTelPunct(c: char) {
    IsJsWhitespace(c) || c == '(' || c == ')' || c == '.' || c == '-'
  }

  /** `p.replace(/[\s().-]/g, '')`. */
  function StripTelPunct(s: string): (r: string)
    ensures forall i :: 0 <= i < |r| ==> !IsTelPunct(r[i])
  {
    Filter(s, (c: char) => !IsTelPunct(c))
  }

  /** A leading "00" becomes "+". */
  function InternationalPrefix(t: string): (r: string)
    ensures StartsWith(t, "00") ==> r == "+" + t[2..]
    ensures !StartsWith(t, "00") ==> r == t
  {
    if StartsWith(t, "00") then "+" + t[2..] else t
  }

  function NormalizedPhone(phone: Option<string>): string {
    if !Truthy(phone) then "" else StripTelPunct(InternationalPrefix(Trim(phone.value)))
  }

  /** `normalizePhoneForTel(phone)`: `p` is trimmed, re-prefixed and
      stripped in turn. */
  method NormalizePhoneForTel(phone: Option<string>) returns (p: string)
    ensures p == NormalizedPhone(phone)
  {
    if !Truthy(phone) {
      return "";
    }
    p := Trim(phone.value);
    if StartsWith(p, "00") {
      p := "+" + p[2..];
    }
    p := StripTelPunct(p);
  }

  /** The normalised number keeps exactly the characters that are not
      spaces or punctuation, in order; an empty or absent phone gives "". */
  lemma NormalizedPhoneKeepsDigits(phone: Option<string>, c: char)
    ensures !Truthy(phone) ==> NormalizedPhone(phone) == ""
    ensures Truthy(phone) ==>
      (c in NormalizedPhone(phone) <==> c in InternationalPrefix(Trim(phone.value)) && !IsTelPunct(c))
    ensures forall i :: 0 <= i < |NormalizedPhone(phone)| ==> !IsTelPunct(NormalizedPhone(phone)[i])
  {
    if Truthy(phone) {
      FilterMembers(InternationalPrefix(Trim(phone.value)), (c: char) => !IsTelPunct(c), c);
    }
  }

  /** A number written with a leading "00" is dialled with "+". */
  lemma DoubleZeroBecomesPlus(phone: string)
    requires StartsWith(Trim(phone), "00")
    ensures NormalizedPhone(Some(phone)) == "+" + StripTelPunct(Trim(phone)[2..])
  {
    var t := Trim(phone);
    assert Truthy(Some(phone)) by {
      var i :| OccursAt(phone, t, i);
    }
    assert InternationalPrefix(t) == "+" + t[2..];
    PlusKept(t[2..]);
  }

  lemma PlusKept(rest: string)
    ensures StripTelPunct("+" + rest) == "+" + StripTelPunct(rest)
  {
    FilterAppend("+", rest, (c: char) => !IsTelPunct(c));
    FilterSingleton('+', (c: char) => !IsTelPunct(c));
  }

  // ---------------------------------------------------------------------
  // getLocationLabel

  const PulkvezaAddress := "Pulkve\U{017E}a Brie\U{017E}a iela 2"
  const GertrudesAddress := "\U{0122}ertr\U{016B}des iela 32"

  function LocationLabel(slug: Option<string>): (l: string)
    ensures !Truthy(slug) ==> l == "\U{2014}"
    ensures slug == Some("singhs_pulkveza") ==> l == PulkvezaAddress
    ensures slug == Some("singhs_gertrudes") ==> l == GertrudesAddress
    ensures Truthy(slug) && slug.value != "singhs_pulkveza" && slug.value != "singhs_gertrudes" ==> l == slug.value
    ensures l != ""
  {
    if !Truthy(slug) then "\U{2014}"
    else if slug.value == "singhs_pulkveza" then PulkvezaAddress
    else if slug.value == "singhs_gertrudes" then GertrudesAddress
    else slug.value
  }

  // ---------------------------------------------------------------------
  // bookingsByHour, chartData, busiestHour

  /** The hour key of every booking, in order. */
  function BookingHours(bookings: seq<Booking>): (hs: seq<string>)
    ensures |hs| == |bookings|
    ensures forall i :: 0 <= i < |bookings| ==> hs[i] == ReservationsApi.HourKey(bookings[i].time)
  {
    if bookings == [] then []
    else BookingHours(bookings[..|bookings| - 1]) + [ReservationsApi.HourKey(bookings[|bookings| - 1].time)]
  }

  /** The `reduce` into `acc`, over the bookings' hour keys. */
  method BookingsByHour(bookings: seq<Booking>) returns (acc: map<string, nat>)
    ensures forall k :: k in acc <==> k in BookingHours(bookings)
    ensures forall k :: k in acc ==> acc[k] == multiset(BookingHours(bookings))[k]
  {
    acc := CountKeys(BookingHours(bookings));
  }

  /** The body of the `reduce`: `acc[hour] = (acc[hour] || 0) + 1` per key. */
  method CountKeys(hours: seq<string>) returns (acc: map<string, nat>)
    ensures forall k :: k in acc <==> k in hours
    ensures forall k :: k in acc ==> acc[k] == multiset(hours)[k]
  {
    acc := map[];
    var i := 0;
    while i < |hours|
      invariant 0 <= i <= |hours|
      invariant forall k :: k in acc <==> k in hours[..i]
      invariant forall k :: k in acc ==> acc[k] == multiset(hours[..i])[k]
    {
      var hour := hours[i];
      assert hours[..i + 1] == hours[..i] + [hour];
      acc := acc[hour := if hour in acc then acc[hour] + 1 else 1];
      i := i + 1;
    }
    assert hours[..i] == hours;
  }

  /** The count of each key of `keys` among `hours`. */
  function CountsOf(hours: seq<string>, keys: seq<string>): (c: seq<int>)
    ensures |c| == |keys|
  {
    if keys == [] then [] else CountsOf(hours, keys[..|keys| - 1]) + [multiset(hours)[keys[|keys| - 1]]]
  }

  /** The per-hour counts add up to the number of bookings. */
  lemma {:induction false} CountsSumToBookings(hours: seq<string>)
    ensures Sum(CountsOf(hours, Distinct(hours))) == |hours|
  {
    if hours != [] {
      var init, x := hours[..|hours| - 1], hours[|hours| - 1];
      assert hours == init + [x];
      var d := Distinct(init);
      CountsSumToBookings(init);
      CountsStep(init, x, d);
      if x in d {
        assert Distinct(hours) == d;
      } else {
        assert Distinct(hours) == d + [x];
        assert multiset(init)[x] == 0;
        SumAppend(CountsOf(hours, d), [multiset(hours)[x]]);
      }
    }
  }

  /** Adding one hour adds one to the sum of counts over keys that hold it
      once, and nothing over keys that do not hold it. */
  lemma {:induction false} CountsStep(init: seq<string>, x: string, keys: seq<string>)
    requires NoDuplicates(keys)
    ensures Sum(CountsOf(init + [x], keys)) == Sum(CountsOf(init, keys)) + (if x in keys then 1 else 0)
  {
    if keys != [] {
      var front, k := keys[..|keys| - 1], keys[|keys| - 1];
      assert keys == front + [k];
      assert x in keys <==> x in front || x == k;
      assert k !in front;
      CountsStep(init, x, front);
      assert multiset(init + [x]) == multiset(init) + multiset{x};
      SumAppend(CountsOf(init + [x], front), [multiset(init + [x])[k]]);
      SumAppend(CountsOf(init, front), [multiset(init)[k]]);
    }
  }

  /** One bar of the chart. */
  datatype HourCount = HourCount(hour: string, bookings: nat)

  /** `Object.entries(bookingsByHour)`, in the order the hours first
      appeared. */
  function ChartEntries(hours: seq<string>): (e: seq<HourCount>)
    ensures |e| == |Distinct(hours)|
    ensures forall i :: 0 <= i < |e| ==> e[i] == HourCount(Distinct(hours)[i], multiset(hours)[Distinct(hours)[i]])
  {
    var d := Distinct(hours);
    seq(|d|, i requires 0 <= i < |d| => HourCount(d[i], multiset(hours)[d[i]]))
  }

  predicate SortedByHour(s: seq<HourCount>) {
    forall i, j :: 0 <= i < j < |s| ==> LessEq(s[i].hour, s[j].hour)
  }

  function InsertByHour(x: HourCount, s: seq<HourCount>): (r: seq<HourCount>)
    ensures multiset(r) == multiset(s) + multiset{x}
  {
    if s == [] then [x]
    else if LessEq(x.hour, s[0].hour) then [x] + s
    else
      var r := [s[0]] + InsertByHour(x, s[1..]);
      assert s == [s[0]] + s[1..];
      r
  }

  /** A bar no later than every bar of a sorted chart can go in front. */
  lemma ConsSortedByHour(a: HourCount, r: seq<HourCount>)
    requires SortedByHour(r)
    requires forall j :: 0 <= j < |r| ==> LessEq(a.hour, r[j].hour)
    ensures SortedByHour([a] + r)
  {
    var res := [a] + r;
    forall i, j | 0 <= i < j < |res| ensures LessEq(res[i].hour, res[j].hour) {
      if i == 0 {
        assert res[j] == r[j - 1];
      } else {
        assert res[i] == r[i - 1] && res[j] == r[j - 1];
      }
    }
  }

  lemma SortedByHourTail(s: seq<HourCount>)
    requires s != [] && SortedByHour(s)
    ensures SortedByHour(s[1..])
  {
    var tail := s[1..];
    forall i, j | 0 <= i < j < |tail| ensures LessEq(tail[i].hour, tail[j].hour) {
      assert tail[i] == s[i + 1] && tail[j] == s[j + 1];
    }
  }

  /** A bound below `x` and below every bar of `s` is below every bar of the
      insertion. */
  lemma InsertByHourBound(y: string, x: HourCount, s: seq<HourCount>)
    requires LessEq(y, x.hour)
    requires forall j :: 0 <= j < |s| ==> LessEq(y, s[j].hour)
    ensures forall j :: 0 <= j < |InsertByHour(x, s)| ==> LessEq(y, InsertByHour(x, s)[j].hour)
  {
    var r := InsertByHour(x, s);
    forall j | 0 <= j < |r| ensures LessEq(y, r[j].hour) {
      assert r[j] in multiset(r);
      assert r[j] in multiset(s) + multiset{x};
      if r[j] != x {
        assert r[j] in s;
      }
    }
  }

  lemma {:induction false} InsertByHourSorted(x: HourCount, s: seq<HourCount>)
    requires SortedByHour(s)
    ensures SortedByHour(InsertByHour(x, s))
  {
    if s == [] {
    } else if LessEq(x.hour, s[0].hour) {
      forall j | 0 <= j < |s| ensures LessEq(x.hour, s[j].hour) {
        if j > 0 {
          LessEqTransitive(x.hour, s[0].hour, s[j].hour);
        }
      }
      ConsSortedByHour(x, s);
    } else {
      var tail := s[1..];
      SortedByHourTail(s);
      InsertByHourSorted(x, tail);
      LessTotal(x.hour, s[0].hour);
      assert forall j :: 0 <= j < |tail| ==> LessEq(s[0].hour, tail[j].hour) by {
        forall j | 0 <= j < |tail| ensures LessEq(s[0].hour, tail[j].hour) {
          assert tail[j] == s[j + 1];
        }
      }
      InsertByHourBound(s[0].hour, x, tail);
      ConsSortedByHour(s[0], InsertByHour(x, tail));
    }
  }

  /** `.sort((a, b) => a.hour.localeCompare(b.hour))`, as an insertion sort. */
  function SortByHour(s: seq<HourCount>): (r: seq<HourCount>)
    ensures multiset(r) == multiset(s)
  {
    if s == [] then []
    else
      var r := InsertByHour(s[0], SortByHour(s[1..]));
      assert s == [s[0]] + s[1..];
      r
  }

  lemma {:induction false} SortByHourSorted(s: seq<HourCount>)
    ensures SortedByHour(SortByHour(s))
  {
    if s != [] {
      SortByHourSorted(s[1..]);
      InsertByHourSorted(s[0], SortByHour(s[1..]));
    }
  }

  function ChartData(bookings: seq<Booking>): seq<HourCount> {
    SortByHour(ChartEntries(BookingHours(bookings)))
  }

  /** The chart is in ascending hour order and holds one bar per hour
      with its count. */
  lemma ChartIsSortedCounts(bookings: seq<Booking>)
    ensures SortedByHour(ChartData(bookings))
    ensures multiset(ChartData(bookings)) == multiset(ChartEntries(BookingHours(bookings)))
  {
    SortByHourSorted(ChartEntries(BookingHours(bookings)));
  }

  /** The `reduce` that picks the busiest bar, starting from `N/A` with 0;
      on a tie the later bar wins. */
  function Busiest(chart: seq<HourCount>): HourCount {
    if chart == [] then HourCount("N/A", 0)
    else
      var prev := Busiest(chart[..|chart| - 1]);
      var current := chart[|chart| - 1];
      if prev.bookings > current.bookings then prev else current
  }

  /** Bar `i` has the largest count, and every later bar a smaller one. */
  predicate LastMaximum(chart: seq<HourCount>, i: int) {
    0 <= i < |chart|
    && (forall j :: 0 <= j < |chart| ==> chart[j].bookings <= chart[i].bookings)
    && (forall j :: i < j < |chart| ==> chart[j].bookings < chart[i].bookings)
  }

  /** Appending a bar keeps the last maximum when it is smaller, and makes
      the new bar the last maximum otherwise. */
  lemma LastMaximumSnoc(init: seq<HourCount>, last: HourCount, i: int)
    requires LastMaximum(init, i)
    ensures init[i].bookings > last.bookings ==> LastMaximum(init + [last], i)
    ensures init[i].bookings <= last.bookings ==> LastMaximum(init + [last], |init|)
  {
    var chart := init + [last];
    assert forall j :: 0 <= j < |init| ==> chart[j] == init[j];
  }

  /** With no bookings the busiest hour is `N/A`; otherwise it is the last
      bar with the largest count. */
  lemma {:induction false} BusiestIsLastMaximum(chart: seq<HourCount>)
    ensures chart == [] ==> Busiest(chart).hour == "N/A"
    ensures chart != [] ==> exists i :: LastMaximum(chart, i) && Busiest(chart) == chart[i]
  {
    if chart != [] {
      var init, last := chart[..|chart| - 1], chart[|chart| - 1];
      assert chart == init + [last];
      if init == [] {
        assert Busiest(chart) == chart[0];
        assert LastMaximum(chart, 0);
      } else {
        BusiestIsLastMaximum(init);
        var i :| LastMaximum(init, i) && Busiest(init) == init[i];
        LastMaximumSnoc(init, last, i);
        if init[i].bookings > last.bookings {
          assert Busiest(chart) == chart[i];
        } else {
          assert Busiest(chart) == chart[|init|];
        }
      }
    }
  }

  // ---------------------------------------------------------------------
  // today's totals

  function TodaysBookings(bookings: seq<Booking>, today: string): (t: seq<Booking>)
    ensures forall i :: 0 <= i < |t| ==> t[i].date == today
  {
    Filter(bookings, (b: Booking) => b.date == today)
  }

  /** `reduce((acc, b) => acc + b.guests, 0)`. */
  function GuestSum(bookings: seq<Booking>): int {
    if bookings == [] then 0 else GuestSum(bookings[..|bookings| - 1]) + bookings[|bookings| - 1].guests
  }

  lemma {:induction false} GuestSumAppend(a: seq<Booking>, b: seq<Booking>)
    ensures GuestSum(a + b) == GuestSum(a) + GuestSum(b)
    decreases |b|
  {
    if b == [] {
      assert a + b == a;
    } else {
      var ab := a + b;
      assert ab[..|ab| - 1] == a + b[..|b| - 1];
      GuestSumAppend(a, b[..|b| - 1]);
    }
  }

  function GuestsToday(bookings: seq<Booking>, today: string): int {
    GuestSum(TodaysBookings(bookings, today))
  }

  /** A new booking adds its guests to today's total exactly when it is for
      today, and one to today's count; other bookings change nothing. */
  lemma GuestsTodayStep(bookings: seq<Booking>, b: Booking, today: string)
    ensures GuestsToday(bookings + [b], today)
      == GuestsToday(bookings, today) + (if b.date == today then b.guests else 0)
    ensures |TodaysBookings(bookings + [b], today)|
      == |TodaysBookings(bookings, today)| + (if b.date == today then 1 else 0)
  {
    var p := (x: Booking) => x.date == today;
    FilterAppend(bookings, [b], p);
    FilterSingleton(b, p);
    GuestSumAppend(TodaysBookings(bookings, today), Filter([b], p));
    assert GuestSum([b]) == b.guests by {
      assert [b][..0] == [];
    }
  }

  // ---------------------------------------------------------------------
  // getCalendarStatusBadge

  datatype Badge = Green | Red | Yellow

  /** The badge colour of a calendar status (`None` is an absent status). */
  function StatusBadge(status: Option<CalendarStatus>): (b: Badge)
    ensures b == Green <==> status == Some(Synced)
    ensures b == Red <==> status == Some(Error)
    ensures b == Yellow <==> status.None? || status == Some(Pending)
  {
    match status
    case Some(Synced) => Green
    case Some(Error) => Red
    case _ => Yellow
  }
}
