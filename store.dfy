/** The record store the routes query: reservations, restaurants and admin
    users, with the queries and writes the routes issue against it. */
module Store {

  import opened Base
  import opened Seqs

  /** `calendar_status`. */
  datatype CalendarStatus = Pending | Synced | Error

  /** One row of `reservations`. */
  datatype Row = Row(
    id: nat, name: string, email: string, phone: string, guests: int,
    date: string, time: string, code: string, restaurant: string,
    calendarStatus: CalendarStatus, eventId: Option<string>)

  /** One row of `restaurants`. */
  datatype Restaurant = Restaurant(slug: string, name: string)

  /** One row of `admin_users`. */
  datatype AdminUser = AdminUser(username: string, passwordHash: string, restaurantSlug: Option<string>)

  /** The whole store; `nextId` is the next id the store will assign. */
  datatype Db = Db(rows: seq<Row>, restaurants: seq<Restaurant>, admins: seq<AdminUser>, nextId: nat)

  /** Ids are below `nextId` and distinct, and reservation codes are distinct. */
  predicate Valid(db: Db) {
    && (forall i :: 0 <= i < |db.rows| ==> db.rows[i].id < db.nextId)
    && DistinctIds(db.rows)
    && DistinctCodes(db.rows)
  }

  /** A row matches `.eq('date', d).eq('time', t).eq('restaurant', r)`. */
  predicate InSlot(row: Row, date: string, time: string, restaurant: string) {
    row.date == date && row.time == time && row.restaurant == restaurant
  }

  /** The rows a capacity query returns. */
  function SlotRows(rows: seq<Row>, date: string, time: string, restaurant: string): seq<Row> {
    Filter(rows, (r: Row) => InSlot(r, date, time, restaurant))
  }

  /** The rows the update's capacity query returns: `.neq('id', self)` added. */
  function OtherSlotRows(rows: seq<Row>, date: string, time: string, restaurant: string, self: nat): seq<Row> {
    Filter(rows, (r: Row) => InSlot(r, date, time, restaurant) && r.id != self)
  }

  /** Excluding one's own row removes exactly that row from the count, when the
      row is in the slot and ids are distinct. */
  lemma {:induction false} OtherSlotCount(rows: seq<Row>, date: string, time: string, restaurant: string, k: nat)
    requires k < |rows|
    requires DistinctIds(rows)
    ensures |OtherSlotRows(rows, date, time, restaurant, rows[k].id)|
      == |SlotRows(rows, date, time, restaurant)| - (if InSlot(rows[k], date, time, restaurant) then 1 else 0)
  {
    var init := rows[..|rows| - 1];
    var last := rows[|rows| - 1];
    var self := rows[k].id;
    if k == |rows| - 1 {
      forall i | 0 <= i < |init| ensures init[i].id != self { }
      SlotWithoutSelf(init, date, time, restaurant, self);
    } else {
      OtherSlotCount(init, date, time, restaurant, k);
      assert init[k] == rows[k];
    }
  }

  lemma {:induction false} SlotWithoutSelf(rows: seq<Row>, date: string, time: string, restaurant: string, self: nat)
    requires forall i :: 0 <= i < |rows| ==> rows[i].id != self
    ensures OtherSlotRows(rows, date, time, restaurant, self) == SlotRows(rows, date, time, restaurant)
  {
    FilterExt(rows, (r: Row) => InSlot(r, date, time, restaurant) && r.id != self,
      (r: Row) => InSlot(r, date, time, restaurant));
  }

  /** Rows carrying a reservation code. */
  function WithCode(rows: seq<Row>, code: string): seq<Row> {
    Filter(rows, (r: Row) => r.code == code)
  }

  /** The result of `.eq('reservation_code', code).maybeSingle()`. */
  datatype Lookup = NoRow | OneRow(row: Row) | ManyRows

  function FindByCode(rows: seq<Row>, code: string): (l: Lookup)
    ensures l.OneRow? ==> l.row in rows && l.row.code == code
    ensures l.NoRow? <==> forall i :: 0 <= i < |rows| ==> rows[i].code != code
  {
    var m := WithCode(rows, code);
    if |m| == 0 then
      NoCodeMeansNoRow(rows, code);
      NoRow
    else if |m| == 1 then
      FilterMembers(rows, (r: Row) => r.code == code, m[0]);
      OneRow(m[0])
    else
      FilterMembers(rows, (r: Row) => r.code == code, m[0]);
      ManyRows
  }

  lemma NoCodeMeansNoRow(rows: seq<Row>, code: string)
    requires |WithCode(rows, code)| == 0
    ensures forall i :: 0 <= i < |rows| ==> rows[i].code != code
  {
    forall i | 0 <= i < |rows| ensures rows[i].code != code {
      FilterMembers(rows, (r: Row) => r.code == code, rows[i]);
    }
  }

  /** With distinct codes a lookup never sees two rows. */
  lemma {:induction false} UniqueCodeLookup(rows: seq<Row>, k: nat)
    requires k < |rows|
    requires DistinctCodes(rows)
    ensures FindByCode(rows, rows[k].code) == OneRow(rows[k])
  {
    var code := rows[k].code;
    forall i | 0 <= i < |rows| && i != k ensures rows[i].code != code { }
    WithCodeSingle(rows, k);
  }

  lemma {:induction false} WithCodeSingle(rows: seq<Row>, k: nat)
    requires k < |rows|
    requires forall i :: 0 <= i < |rows| && i != k ==> rows[i].code != rows[k].code
    ensures WithCode(rows, rows[k].code) == [rows[k]]
  {
    var code := rows[k].code;
    var pre, post := rows[..k], rows[k + 1..];
    assert rows == pre + [rows[k]] + post;
    FilterAppend(pre + [rows[k]], post, (r: Row) => r.code == code);
    FilterAppend(pre, [rows[k]], (r: Row) => r.code == code);
    FilterSingleton(rows[k], (r: Row) => r.code == code);
    NoneMatch(pre, code);
    NoneMatch(post, code);
  }

  lemma {:induction false} NoneMatch(rows: seq<Row>, code: string)
    requires forall i :: 0 <= i < |rows| ==> rows[i].code != code
    ensures WithCode(rows, code) == []
  {
    if rows != [] { NoneMatch(rows[..|rows| - 1], code); }
  }

  /** `restaurants` rows with a slug (`.eq('slug', s)`). */
  function RestaurantsWithSlug(db: Db, slug: string): seq<Restaurant> {
    Filter(db.restaurants, (r: Restaurant) => r.slug == slug)
  }

  /** `admin_users` rows with a username. */
  function AdminsNamed(db: Db, username: string): seq<AdminUser> {
    Filter(db.admins, (a: AdminUser) => a.username == username)
  }

  /** `insert(row).select('*').single()`: the store assigns the id; the unique
      constraint on `reservation_code` refuses a code already in use. */
  function Insert(db: Db, row: Row): (r: Option<(Db, Row)>)
    ensures r.None? <==> exists i :: 0 <= i < |db.rows| && db.rows[i].code == row.code
    ensures r.Some? ==> (r.value.1 == row.(id := db.nextId)
      && r.value.0 == db.(rows := db.rows + [r.value.1], nextId := db.nextId + 1))
  {
    if exists i :: 0 <= i < |db.rows| && db.rows[i].code == row.code then None
    else
      var stored := row.(id := db.nextId);
      Some((db.(rows := db.rows + [stored], nextId := db.nextId + 1), stored))
  }

  lemma InsertKeepsValid(db: Db, row: Row)
    requires Valid(db) && Insert(db, row).Some?
    ensures Valid(Insert(db, row).value.0)
  {
  }

  /** `.update(f).eq('id', id)`: every row with that id is rewritten. */
  function UpdateWhere(rows: seq<Row>, id: nat, f: Row -> Row): (r: seq<Row>)
    ensures |r| == |rows|
    ensures forall i :: 0 <= i < |rows| ==> r[i] == if rows[i].id == id then f(rows[i]) else rows[i]
  {
    seq(|rows|, i requires 0 <= i < |rows| => if rows[i].id == id then f(rows[i]) else rows[i])
  }

  /** A rewrite that keeps each row's id and code keeps the store valid, and
      leaves the rows with other ids as they were. */
  lemma UpdateWhereKeepsValid(db: Db, id: nat, f: Row -> Row)
    requires Valid(db)
    requires forall x: Row :: f(x).id == x.id && f(x).code == x.code
    ensures Valid(db.(rows := UpdateWhere(db.rows, id, f)))
    ensures forall i :: 0 <= i < |db.rows| && db.rows[i].id != id ==> UpdateWhere(db.rows, id, f)[i] == db.rows[i]
  {
    var rs := UpdateWhere(db.rows, id, f);
    assert forall i :: 0 <= i < |rs| ==> rs[i].id == db.rows[i].id && rs[i].code == db.rows[i].code;
  }

  /** `.delete().eq('id', id)`. */
  function DeleteWhere(rows: seq<Row>, id: nat): (r: seq<Row>)
    ensures |r| <= |rows|
    ensures forall i :: 0 <= i < |r| ==> r[i].id != id
  {
    Filter(rows, (x: Row) => x.id != id)
  }

  /** Deleting one row keeps every other row. */
  lemma DeleteKeepsOthers(rows: seq<Row>, id: nat, x: Row)
    ensures x in DeleteWhere(rows, id) <==> x in rows && x.id != id
  {
    FilterMembers(rows, (r: Row) => r.id != id, x);
  }

  /** Ids are distinct. */
  predicate DistinctIds(rows: seq<Row>) {
    forall i, j :: 0 <= i < j < |rows| ==> rows[i].id != rows[j].id
  }

  /** Reservation codes are distinct. */
  predicate DistinctCodes(rows: seq<Row>) {
    forall i, j :: 0 <= i < j < |rows| ==> rows[i].code != rows[j].code
  }

  /** Deleting keeps the store valid. */
  lemma {:induction false} DeleteKeepsValid(db: Db, id: nat)
    requires Valid(db)
    ensures Valid(db.(rows := DeleteWhere(db.rows, id)))
  {
    var p := (r: Row) => r.id != id;
    var rs := DeleteWhere(db.rows, id);
    FilterKeepsDistinct(db.rows, p);
    forall i | 0 <= i < |rs| ensures rs[i].id < db.nextId {
      FilterMembers(db.rows, p, rs[i]);
    }
  }

  /** Filtering rows keeps ids and codes distinct. */
  lemma {:induction false} FilterKeepsDistinct(rows: seq<Row>, p: Row -> bool)
    requires DistinctIds(rows) && DistinctCodes(rows)
    ensures DistinctIds(Filter(rows, p)) && DistinctCodes(Filter(rows, p))
  {
    if rows != [] {
      var init, last := rows[..|rows| - 1], rows[|rows| - 1];
      FilterKeepsDistinct(init, p);
      var f0 := Filter(init, p);
      forall i | 0 <= i < |f0| ensures f0[i].id != last.id && f0[i].code != last.code {
        FilterMembers(init, p, f0[i]);
        var j :| 0 <= j < |init| && init[j] == f0[i];
        assert rows[j] == init[j];
      }
      var f := Filter(rows, p);
      assert f == f0 + (if p(last) then [last] else []);
    }
  }
}
