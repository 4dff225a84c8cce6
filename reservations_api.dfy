/** The reservations route: public availability for a date, the sorted list
    for the dashboard, and the create pipeline behind a per-address rate
    limit. */
module ReservationsApi {

  import opened Base
  import opened Strings
  import opened Seqs
  import opened Store
  import opened Api
  import opened Validation
  import opened SlotPolicy
  import opened ReservationCode
  import Calendar
  import Auth
  import RateLimit

  // ---------------------------------------------------------------------
  // GET ?date=: availability

  /** `time.split(':')[0] + ':00'`: the bucket a reservation counts in. */
  function HourKey(time: string): string {
    BeforeFirst(time, ':') + ":00"
  }

  /** The bucket keys of the rows, in row order. */
  function HourKeys(rows: seq<Row>): (ks: seq<string>)
    ensures |ks| == |rows|
    ensures forall i :: 0 <= i < |rows| ==> ks[i] == HourKey(rows[i].time)
  {
    if rows == [] then [] else HourKeys(rows[..|rows| - 1]) + [HourKey(rows[|rows| - 1].time)]
  }

  /** The rows of `.eq('date', date)`: every restaurant's. */
  function OnDate(rows: seq<Row>, date: string): seq<Row> {
    Filter(rows, (r: Row) => r.date == date)
  }

  /** A bucket holds at least `MaxBookingsPerHour` of `keys`. */
  function AtCapacity(keys: seq<string>): string -> bool {
    (k: string) => multiset(keys)[k] >= MaxBookingsPerHour
  }

  /** The buckets of a date with at least `MaxBookingsPerHour` reservations,
      in the order the buckets were first seen. */
  function FullyBooked(rows: seq<Row>, date: string): seq<string> {
    var keys := HourKeys(OnDate(rows, date));
    Filter(Distinct(keys), AtCapacity(keys))
  }

  /** One more key: it is counted once more, and added to the distinct keys
      when new. */
  lemma KeysStep(ks: seq<string>, i: nat)
    requires i < |ks|
    ensures Distinct(ks[..i + 1]) ==
      var d := Distinct(ks[..i]);
      if ks[i] in d then d else d + [ks[i]]
    ensures forall k :: (multiset(ks[..i + 1])[k]
      == multiset(ks[..i])[k] + (if k == ks[i] then 1 else 0))
  {
    assert ks[..i + 1][..i] == ks[..i];
    assert ks[..i + 1] == ks[..i] + [ks[i]];
  }

  /** The loop that fills `bookingCounts`, then the filter over its entries. */
  method Availability(rows: seq<Row>, date: string) returns (full: seq<string>)
    ensures full == FullyBooked(rows, date)
  {
    var data := OnDate(rows, date);
    // the hour of each row, `r.time.split(':')[0] + ':00'`
    var keys := HourKeys(data);
    var counts, order := CountBuckets(keys);
    full := [];
    var j := 0;
    while j < |order|
      invariant 0 <= j <= |order|
      invariant full == Filter(order[..j], AtCapacity(keys))
    {
      assert order[..j + 1][..j] == order[..j];
      assert order[j] in order;
      if counts[order[j]] >= MaxBookingsPerHour {
        full := full + [order[j]];
      }
      j := j + 1;
    }
    assert order[..j] == order;
  }

  /** The counting loop of `Availability` over the rows' hours: every
      bucket's count, and the buckets in the order first seen. */
  method CountBuckets(hours: seq<string>) returns (counts: map<string, nat>, order: seq<string>)
    ensures order == Distinct(hours)
    ensures forall k :: k in counts <==> k in order
    ensures forall k :: k in counts ==> counts[k] == multiset(hours)[k]
  {
    counts := map[];
    order := [];
    var i := 0;
    while i < |hours|
      invariant 0 <= i <= |hours|
      invariant order == Distinct(hours[..i])
      invariant forall k :: k in counts <==> k in order
      invariant forall k :: k in counts ==> counts[k] == multiset(hours[..i])[k]
    {
      var hour := hours[i];
      KeysStep(hours, i);
      if hour in counts {
        counts := counts[hour := counts[hour] + 1];
      } else {
        assert hour !in hours[..i];
        counts := counts[hour := 1];
        order := order + [hour];
      }
      i := i + 1;
    }
    assert hours[..i] == hours;
  }

  /** A key is a bucket of the date exactly when some reservation on that date
      falls in it. */
  lemma KeyOnDate(rows: seq<Row>, date: string, k: string)
    ensures k in HourKeys(OnDate(rows, date)) <==>
      exists i :: 0 <= i < |rows| && rows[i].date == date && HourKey(rows[i].time) == k
  {
    var p := (r: Row) => r.date == date;
    var d := OnDate(rows, date);
    var ks := HourKeys(d);
    if k in ks {
      var j :| 0 <= j < |ks| && ks[j] == k;
      FilterMembers(rows, p, d[j]);
      var i :| 0 <= i < |rows| && rows[i] == d[j];
      assert rows[i].date == date && HourKey(rows[i].time) == k;
    }
    if exists i :: 0 <= i < |rows| && rows[i].date == date && HourKey(rows[i].time) == k {
      var i :| 0 <= i < |rows| && rows[i].date == date && HourKey(rows[i].time) == k;
      FilterMembers(rows, p, rows[i]);
      var j :| 0 <= j < |d| && d[j] == rows[i];
      assert ks[j] == k;
    }
  }

  /** A bucket is reported exactly when some reservation of that date falls in
      it and the bucket holds at least ten; none is reported twice. */
  lemma FullyBookedExactly(rows: seq<Row>, date: string, k: string)
    ensures k in FullyBooked(rows, date) <==>
      (exists i :: 0 <= i < |rows| && rows[i].date == date && HourKey(rows[i].time) == k)
      && multiset(HourKeys(OnDate(rows, date)))[k] >= MaxBookingsPerHour
    ensures NoDuplicates(FullyBooked(rows, date))
  {
    var keys := HourKeys(OnDate(rows, date));
    FilterMembers(Distinct(keys), AtCapacity(keys), k);
    KeyOnDate(rows, date, k);
    FilterKeepsNoDuplicates(Distinct(keys), AtCapacity(keys));
  }

  /** A filtered sequence without duplicates has none. */
  lemma {:induction false} FilterKeepsNoDuplicates<T(!new)>(s: seq<T>, p: T -> bool)
    requires NoDuplicates(s)
    ensures NoDuplicates(Filter(s, p))
  {
    if s != [] {
      var init, last := s[..|s| - 1], s[|s| - 1];
      FilterKeepsNoDuplicates(init, p);
      FilterMembers(init, p, last);
      forall j | 0 <= j < |init| ensures init[j] != last {
        assert init[j] == s[j];
      }
    }
  }

  /** The count ignores the restaurant: moving reservations to other
      restaurants changes nothing. */
  lemma {:induction false} FullyBookedIgnoresRestaurant(rows: seq<Row>, moved: seq<Row>, date: string)
    requires |moved| == |rows|
    requires forall i :: 0 <= i < |rows| ==> moved[i] == rows[i].(restaurant := moved[i].restaurant)
    ensures FullyBooked(moved, date) == FullyBooked(rows, date)
  {
    SameKeysOnDate(rows, moved, date);
  }

  lemma {:induction false} SameKeysOnDate(rows: seq<Row>, moved: seq<Row>, date: string)
    requires |moved| == |rows|
    requires forall i :: 0 <= i < |rows| ==> moved[i] == rows[i].(restaurant := moved[i].restaurant)
    ensures HourKeys(OnDate(moved, date)) == HourKeys(OnDate(rows, date))
  {
    if rows != [] {
      var n := |rows| - 1;
      SameKeysOnDate(rows[..n], moved[..n], date);
      var a, b := OnDate(rows[..n], date), OnDate(moved[..n], date);
      var ta := if rows[n].date == date then [rows[n]] else [];
      var tb := if moved[n].date == date then [moved[n]] else [];
      assert OnDate(rows, date) == a + ta;
      assert OnDate(moved, date) == b + tb;
      HourKeysAppend(a, ta);
      HourKeysAppend(b, tb);
    }
  }

  lemma {:induction false} HourKeysAppend(a: seq<Row>, b: seq<Row>)
    ensures HourKeys(a + b) == HourKeys(a) + HourKeys(b)
  {
  }

  /** Every time of an hour counts in that hour's bucket. */
  lemma BucketExamples()
    ensures HourKey("12:30") == "12:00" && HourKey("12:00") == "12:00" && HourKey("9") == "9:00"
  {
    assert BeforeFirst("12:30", ':') == "12" by {
      assert BeforeFirst(":30", ':') == "";
      assert BeforeFirst("2:30", ':') == "2";
    }
    assert BeforeFirst("12:00", ':') == "12" by {
      assert BeforeFirst(":00", ':') == "";
      assert BeforeFirst("2:00", ':') == "2";
    }
    assert BeforeFirst("9", ':') == "9" by {
      assert BeforeFirst("", ':') == "";
    }
  }

  // ---------------------------------------------------------------------
  // GET without a date: the dashboard list

  /** The JSON shape of a reservation in the list and create replies. */
  datatype View = View(id: nat, name: string, email: string, phone: string, guests: int,
    date: string, time: string, calendarStatus: CalendarStatus, reservationCode: string,
    restaurantSlug: Option<string>)

  /** The list's mapping, which includes the restaurant. */
  function ListView(r: Row): (v: View)
    ensures v.id == r.id && v.reservationCode == r.code && v.restaurantSlug == Some(r.restaurant)
    ensures v.date == r.date && v.time == r.time && v.guests == r.guests
  {
    View(r.id, r.name, r.email, r.phone, r.guests, r.date, r.time, r.calendarStatus, r.code, Some(r.restaurant))
  }

  /** `.order('date', { ascending: false }).order('time', { ascending: true })`:
      `a` may come before `b`. */
  predicate ListOrder(a: Row, b: Row) {
    Less(b.date, a.date) || (a.date == b.date && LessEq(a.time, b.time))
  }

  predicate SortedForList(s: seq<Row>) {
    forall i, j :: 0 <= i < j < |s| ==> ListOrder(s[i], s[j])
  }

  lemma ListOrderTotal(a: Row, b: Row)
    ensures ListOrder(a, b) || ListOrder(b, a)
  {
    LessTotal(a.date, b.date);
    LessTotal(a.time, b.time);
  }

  lemma ListOrderTransitive(a: Row, b: Row, c: Row)
    requires ListOrder(a, b) && ListOrder(b, c)
    ensures ListOrder(a, c)
  {
    LessIrreflexive(a.date);
    LessIrreflexive(b.date);
    if Less(b.date, a.date) && Less(c.date, b.date) { LessTransitive(c.date, b.date, a.date); }
    if a.date == b.date && b.date == c.date { LessEqTransitive(a.time, b.time, c.time); }
  }

  /** Insert into a sorted list after every row that may come first. */
  function InsertRow(x: Row, s: seq<Row>): (r: seq<Row>)
    ensures multiset(r) == multiset(s) + multiset{x}
  {
    if s == [] then [x]
    else if ListOrder(x, s[0]) then [x] + s
    else
      var r := [s[0]] + InsertRow(x, s[1..]);
      assert s == [s[0]] + s[1..];
      r
  }

  lemma {:induction false} InsertRowSorted(x: Row, s: seq<Row>)
    requires SortedForList(s)
    ensures SortedForList(InsertRow(x, s))
  {
    if s != [] && !ListOrder(x, s[0]) {
      var tail := s[1..];
      SortedTail(s);
      InsertRowSorted(x, tail);
      ListOrderTotal(x, s[0]);
      InsertRowBound(x, tail, s[0]);
      assert InsertRow(x, s) == [s[0]] + InsertRow(x, tail);
      ConsSorted(s[0], InsertRow(x, tail));
    } else if s != [] {
      forall j | 0 <= j < |s| ensures ListOrder(x, s[j]) {
        if j > 0 { ListOrderTransitive(x, s[0], s[j]); }
      }
      ConsSorted(x, s);
    }
  }

  lemma SortedTail(s: seq<Row>)
    requires s != [] && SortedForList(s)
    ensures SortedForList(s[1..])
  {
    var tail := s[1..];
    forall i, j | 0 <= i < j < |tail| ensures ListOrder(tail[i], tail[j]) {
      assert tail[i] == s[i + 1] && tail[j] == s[j + 1];
    }
  }

  /** A row that may precede every row of a sorted list may head it. */
  lemma ConsSorted(a: Row, r: seq<Row>)
    requires SortedForList(r)
    requires forall j :: 0 <= j < |r| ==> ListOrder(a, r[j])
    ensures SortedForList([a] + r)
  {
    var res := [a] + r;
    forall i, j | 0 <= i < j < |res| ensures ListOrder(res[i], res[j]) {
      assert res[j] == r[j - 1];
      if i > 0 { assert res[i] == r[i - 1]; }
    }
  }

  /** Inserting keeps a lower bound of the list and the new row. */
  lemma InsertRowBound(x: Row, s: seq<Row>, y: Row)
    requires ListOrder(y, x)
    requires forall j :: 0 <= j < |s| ==> ListOrder(y, s[j])
    ensures forall j :: 0 <= j < |InsertRow(x, s)| ==> ListOrder(y, InsertRow(x, s)[j])
  {
    var r := InsertRow(x, s);
    forall j | 0 <= j < |r| ensures ListOrder(y, r[j]) {
      assert r[j] in multiset(r);
      assert r[j] in multiset(s) + multiset{x};
      if r[j] != x {
        assert r[j] in s;
      }
    }
  }

  /** The rows in list order (insertion sort). */
  function SortForList(s: seq<Row>): (r: seq<Row>)
    ensures multiset(r) == multiset(s)
  {
    if s == [] then []
    else
      var r := InsertRow(s[0], SortForList(s[1..]));
      assert s == [s[0]] + s[1..];
      r
  }

  lemma {:induction false} SortForListSorted(s: seq<Row>)
    ensures SortedForList(SortForList(s))
  {
    if s != [] {
      SortForListSorted(s[1..]);
      InsertRowSorted(s[0], SortForList(s[1..]));
    }
  }

  /** The rows the list reply shows: the restaurant's rows when a restaurant
      is given, else all rows. `Listed` puts them in order. */
  function Selected(rows: seq<Row>, restaurant: Option<string>): (s: seq<Row>)
    ensures Truthy(restaurant) ==> forall i :: 0 <= i < |s| ==> s[i].restaurant == restaurant.value
    ensures !Truthy(restaurant) ==> s == rows
    ensures forall x :: (multiset(s)[x]
      == if !Truthy(restaurant) || x.restaurant == restaurant.value then multiset(rows)[x] else 0)
  {
    if Truthy(restaurant) then
      var p := (r: Row) => r.restaurant == restaurant.value;
      assert forall x :: multiset(Filter(rows, p))[x] == if p(x) then multiset(rows)[x] else 0 by {
        forall x ensures multiset(Filter(rows, p))[x] == if p(x) then multiset(rows)[x] else 0 {
          FilterMultiset(rows, p, x);
        }
      }
      Filter(rows, p)
    else rows
  }

  /** The list reply: the selected rows, newest date first and earliest time
      first within a date, as views. */
  function Listed(rows: seq<Row>, restaurant: Option<string>): seq<View> {
    var sorted := SortForList(Selected(rows, restaurant));
    seq(|sorted|, i requires 0 <= i < |sorted| => ListView(sorted[i]))
  }

  /** The list holds every selected row once (as a multiset) and is in order. */
  lemma ListedIsSortedSelection(rows: seq<Row>, restaurant: Option<string>)
    ensures var selected := Selected(rows, restaurant);
      && |Listed(rows, restaurant)| == |selected|
      && multiset(SortForList(selected)) == multiset(selected)
      && SortedForList(SortForList(selected))
      && forall i :: 0 <= i < |selected| ==> Listed(rows, restaurant)[i] == ListView(SortForList(selected)[i])
  {
    var selected := Selected(rows, restaurant);
    SortForListSorted(selected);
    assert |SortForList(selected)| == |multiset(SortForList(selected))|;
  }

  /** With a restaurant given, only that restaurant's rows are listed. */
  lemma ListedOnlyThatRestaurant(rows: seq<Row>, slug: string, i: nat)
    requires slug != [] && i < |Listed(rows, Some(slug))|
    ensures Listed(rows, Some(slug))[i].restaurantSlug == Some(slug)
  {
    var selected := Selected(rows, Some(slug));
    var sorted := SortForList(selected);
    assert sorted[i] in multiset(selected);
    var k :| 0 <= k < |selected| && selected[k] == sorted[i];
  }

  /** The body of a GET reply. */
  datatype GetBody = Slots(fullyBookedSlots: seq<string>) | Reservations(reservations: seq<View>)

  /** `GET`: a truthy `date` asks for availability, otherwise the list;
      `clientFault` is `createServerSupabase()` throwing, which the
      catch-all answers, and `failed` is the store returning an error for
      the query. */
  method Get(rows: seq<Row>, date: Option<string>, restaurant: Option<string>, clientFault: bool, failed: bool)
    returns (reply: Reply<GetBody>)
    ensures clientFault ==> reply == Fail(500, "An unexpected error occurred.")
    ensures !clientFault && Truthy(date) && failed ==> reply == Fail(500, "Failed to fetch availability")
    ensures !clientFault && !Truthy(date) && failed ==> reply == Fail(500, "Failed to fetch reservations")
    ensures !clientFault && Truthy(date) && !failed ==> reply == Reply(200, None, Some(Slots(FullyBooked(rows, date.value))), None)
    ensures !clientFault && !Truthy(date) && !failed ==> reply == Reply(200, None, Some(Reservations(Listed(rows, restaurant))), None)
  {
    if clientFault {
      return Fail(500, "An unexpected error occurred.");
    }
    if Truthy(date) {
      if failed {
        return Fail(500, "Failed to fetch availability");
      }
      var full := Availability(rows, date.value);
      return Reply(200, None, Some(Slots(full)), None);
    }
    if failed {
      return Fail(500, "Failed to fetch reservations");
    }
    return Reply(200, None, Some(Reservations(Listed(rows, restaurant))), None);
  }
}
