/**
 * The `bookings` table as the bot changes it: the insert at the end of the
 * booking dialogue, `set_status`, the administrators' delete, and the
 * paged listing `fetch_bookings`. The tables themselves are never changed
 * by the bot.
 */
module Store {
  import opened Wrappers
  import opened Clock
  import opened Availability
  import Validators

  /** `PAGE_SIZE`: rows per page of the administrators' listing. */
  const PageSize := 10

  /** Why the database refuses an insert. */
  datatype DbError =
    | GuestsCheckViolation   // CHECK (guests BETWEEN 1 AND 30)
    | TableForeignKeyViolation   // table_id REFERENCES tables(id)

  /** Some table has this id. */
  predicate HasTable(tables: seq<Table>, id: int) {
    exists t :: t in tables && t.id == id
  }

  /** The table ids are a primary key drawn from a sequence, and every table seats someone. */
  predicate TablesWellFormed(tables: seq<Table>) {
    && (forall i, j :: 0 <= i < j < |tables| ==> tables[i].id != tables[j].id)
    && (forall t :: t in tables ==> t.id >= 1)
    && (forall t :: t in tables ==> t.seats > 0)
  }

  /** A stored row satisfies the table's constraints, and its id was handed out. */
  predicate RowWellFormed(b: Booking, id: int, nextId: int, tables: seq<Table>) {
    && b.id == id
    && 1 <= id < nextId
    && Validators.MinGuests <= b.guests <= Validators.MaxGuests
    && (b.tableId.Some? ==> HasTable(tables, b.tableId.value))
  }

  /** The table id the insert stores: the picked table, or 0 when none was picked. */
  function TableRef(picked: Option<int>): (id: int)
    ensures picked.Some? ==> id == picked.value
    ensures picked.None? ==> id == 0
  {
    picked.GetOr(0)
  }

  /** With no table picked the insert names table 0, which never exists: it is refused. */
  lemma UnpickedTableRefused(tables: seq<Table>)
    requires TablesWellFormed(tables)
    ensures !HasTable(tables, TableRef(None))
  {
  }

  /** The seeded tables satisfy the table constraints. */
  lemma SeedTablesWellFormed()
    ensures TablesWellFormed(SeedTables)
  {
  }

  /** The bookings after `UPDATE bookings SET status = s WHERE id = id`. */
  function WithStatus(bs: map<int, Booking>, id: int, status: string): (r: map<int, Booking>)
    ensures r.Keys == bs.Keys
    ensures forall k :: k in bs && k != id ==> r[k] == bs[k]
    ensures id in bs ==> r[id] == bs[id].(status := status)
  {
    if id in bs then bs[id := bs[id].(status := status)] else bs
  }

  /** Setting the same status twice changes nothing the second time. */
  lemma WithStatusIdempotent(bs: map<int, Booking>, id: int, status: string)
    ensures WithStatus(WithStatus(bs, id, status), id, status) == WithStatus(bs, id, status)
  {
  }

  /** Re-setting the status a booking already has (cancelling a cancelled booking) changes nothing. */
  lemma WithSameStatus(bs: map<int, Booking>, id: int)
    requires id in bs
    ensures WithStatus(bs, id, bs[id].status) == bs
  {
    assert bs[id].(status := bs[id].status) == bs[id];
  }

  /** Only the last status set survives: there is no transition check. */
  lemma WithStatusLastWins(bs: map<int, Booking>, id: int, s1: string, s2: string)
    ensures WithStatus(WithStatus(bs, id, s1), id, s2) == WithStatus(bs, id, s2)
  {
  }

  /** Cancelling a booking never takes a table away from any request. */
  lemma CancelFreesOnly(tables: seq<Table>, bs: map<int, Booking>, id: int, date: int, start: TimeOfDay, guests: int)
    ensures var after := WithStatus(bs, id, "cancelled");
            forall t :: t in FreeTables(tables, bs.Values, date, start, guests) ==>
                          t in FreeTables(tables, after.Values, date, start, guests)
  {
    var after := WithStatus(bs, id, "cancelled");
    FreeTablesSpec(tables, bs.Values, date, start, guests);
    FreeTablesSpec(tables, after.Values, date, start, guests);
    forall t | Taken(t, after.Values, date, start)
      ensures Taken(t, bs.Values, date, start)
    {
      var b :| b in after.Values && Blocks(b, date, start, RequestEnd(start)) && b.tableId == Some(t.id);
      var k := KeyOf(after, b);
      assert k != id;
      assert bs[k] == b;
    }
  }

  // ---------------------------------------------------------------------
  // The administrators' listing

  /** `ORDER BY booking_date DESC, booking_time DESC, id DESC`: `a` is listed before `b`. */
  predicate ListedBefore(a: Booking, b: Booking) {
    || a.date > b.date
    || (a.date == b.date && (a.time > b.time || (a.time == b.time && a.id > b.id)))
  }

  /** Every row comes strictly before the rows after it. */
  predicate Listed(s: seq<Booking>) {
    forall i, j :: 0 <= i < j < |s| ==> ListedBefore(s[i], s[j])
  }

  /** The status filter: `"all"` shows every row. */
  predicate Shown(b: Booking, status: string) {
    status == "all" || b.status == status
  }

  /** The rows the listing's WHERE clause keeps. */
  function Selected(bs: map<int, Booking>, status: string): (r: set<Booking>)
    ensures forall b :: b in r <==> b in bs.Values && Shown(b, status)
  {
    set b | b in bs.Values && Shown(b, status)
  }

  /** Two listings in order with the same rows are the same listing. */
  lemma {:induction false} ListedUnique(x: seq<Booking>, y: seq<Booking>)
    requires Listed(x) && Listed(y)
    requires forall c :: c in x <==> c in y
    ensures x == y
  {
    if x == [] {
      assert forall i :: 0 <= i < |y| ==> y[i] in y;
    } else {
      assert x[0] in x;
      SameFirst(x, y);
      SameRest(x, y);
      ListedUnique(x[1..], y[1..]);
      assert x == [x[0]] + x[1..] && y == [y[0]] + y[1..];
    }
  }

  /** Two non-empty listings with the same rows start with the same row. */
  lemma SameFirst(x: seq<Booking>, y: seq<Booking>)
    requires Listed(x) && Listed(y) && x != [] && y != []
    requires forall c :: c in x <==> c in y
    ensures x[0] == y[0]
  {
    var a, b := x[0], y[0];
    assert a in x && b in y;
    var m :| 0 <= m < |y| && y[m] == a;
    var k :| 0 <= k < |x| && x[k] == b;
    assert m == 0 || ListedBefore(b, a);
    assert k == 0 || ListedBefore(a, b);
  }

  /** Two listings with the same rows and the same first row have the same other rows. */
  lemma SameRest(x: seq<Booking>, y: seq<Booking>)
    requires Listed(x) && Listed(y) && x != [] && y != [] && x[0] == y[0]
    requires forall c :: c in x <==> c in y
    ensures forall c :: c in x[1..] <==> c in y[1..]
  {
    forall c | c in x[1..]
      ensures c in y[1..]
    {
      RestMember(x, y, c);
    }
    forall c | c in y[1..]
      ensures c in x[1..]
    {
      RestMember(y, x, c);
    }
  }

  lemma RestMember(x: seq<Booking>, y: seq<Booking>, c: Booking)
    requires Listed(x) && Listed(y) && x != [] && y != [] && x[0] == y[0]
    requires forall c :: c in x <==> c in y
    requires c in x[1..]
    ensures c in y[1..]
  {
    var i :| 0 <= i < |x[1..]| && x[1..][i] == c;
    assert ListedBefore(x[0], x[i + 1]);
    assert c in x;
    var j :| 0 <= j < |y| && y[j] == c;
    assert j != 0;
    assert y[1..][j - 1] == c;
  }

  /** Puts `b` into a listing in front of the first row it comes before. */
  function InsertListed(b: Booking, s: seq<Booking>): (r: seq<Booking>)
    ensures forall c :: c in r <==> c == b || c in s
  {
    if s == [] then [b]
    else if ListedBefore(b, s[0]) then [b] + s
    else
      assert s == [s[0]] + s[1..];
      [s[0]] + InsertListed(b, s[1..])
  }

  lemma {:induction false} InsertListedKeepsOrder(b: Booking, s: seq<Booking>)
    requires Listed(s)
    requires forall c :: c in s ==> c.id != b.id
    ensures Listed(InsertListed(b, s))
  {
    if s != [] && !ListedBefore(b, s[0]) {
      assert ListedBefore(s[0], b);
      var rest := InsertListed(b, s[1..]);
      InsertListedKeepsOrder(b, s[1..]);
      var r := [s[0]] + rest;
      forall i, j | 0 <= i < j < |r|
        ensures ListedBefore(r[i], r[j])
      {
        if i == 0 {
          var x := rest[j - 1];
          assert x in rest;
          if x != b {
            var k :| 0 <= k < |s[1..]| && s[1..][k] == x;
            assert s[k + 1] == x;
          }
        }
      }
    }
  }

  /** The rows of `s`, in listing order. */
  ghost function Ordered(s: set<Booking>): (r: seq<Booking>)
    ensures forall c :: c in r <==> c in s
  {
    if s == {} then []
    else
      var b :| b in s;
      InsertListed(b, Ordered(s - {b}))
  }

  /** No two rows share an id. */
  ghost predicate DistinctIds(s: set<Booking>) {
    forall a, b :: a in s && b in s && a.id == b.id ==> a == b
  }

  lemma {:induction false} OrderedIsListed(s: set<Booking>)
    requires DistinctIds(s)
    ensures Listed(Ordered(s))
  {
    if s != {} {
      var b :| b in s && Ordered(s) == InsertListed(b, Ordered(s - {b}));
      OrderedIsListed(s - {b});
      InsertListedKeepsOrder(b, Ordered(s - {b}));
    }
  }

  /** Every row `fetch_bookings` can see, with the status filter, in listing order. */
  ghost function Listing(bs: map<int, Booking>, status: string): seq<Booking> {
    Ordered(Selected(bs, status))
  }

  /** `LIMIT PAGE_SIZE OFFSET page * PAGE_SIZE`. */
  function Page(s: seq<Booking>, page: nat): (r: seq<Booking>)
    ensures |r| <= PageSize
    ensures forall i :: 0 <= i < |r| ==> page * PageSize + i < |s| && r[i] == s[page * PageSize + i]
  {
    var offset := page * PageSize;
    if offset >= |s| then []
    else if offset + PageSize <= |s| then s[offset..offset + PageSize]
    else s[offset..]
  }

  /** Every row of a listing is on exactly one page: page i / 10, at position i % 10. */
  lemma PageCovers(s: seq<Booking>, i: nat)
    requires i < |s|
    ensures var p := Page(s, i / PageSize);
            i % PageSize < |p| && p[i % PageSize] == s[i]
  {
  }

  /** Two consecutive pages are the listing's rows from the first page's offset, up to twenty of them. */
  lemma PagesConsecutive(s: seq<Booking>, k: nat)
    ensures var from := k * PageSize;
            from <= |s| ==>
              Page(s, k) + Page(s, k + 1) == s[from..if from + 2 * PageSize <= |s| then from + 2 * PageSize else |s|]
  {
  }

  /** In a listing without repeated rows, different pages share no row. */
  lemma PagesDisjoint(s: seq<Booking>, k1: nat, k2: nat)
    requires Listed(s)
    requires k1 != k2
    ensures forall c :: c in Page(s, k1) ==> c !in Page(s, k2)
  {
    var p1, p2 := Page(s, k1), Page(s, k2);
    forall i, j | 0 <= i < |p1| && 0 <= j < |p2|
      ensures p1[i] != p2[j]
    {
      var a, b := k1 * PageSize + i, k2 * PageSize + j;
      if a < b {
        assert ListedBefore(s[a], s[b]);
      } else {
        assert ListedBefore(s[b], s[a]);
      }
    }
  }

  // ---------------------------------------------------------------------
  // The store

  /** A key under which `v` is stored. */
  lemma KeyOf<K, V>(m: map<K, V>, v: V) returns (k: K)
    requires v in m.Values
    ensures k in m && m[k] == v
  {
    k :| k in m && m[k] == v;
  }

  /** Some element of a non-empty set: the next row a scan visits. */
  method PickOne<T>(s: set<T>) returns (x: T)
    requires s != {}
    ensures x in s
  {
    x :| x in s;
  }

  class BookingStore {
    /** The `tables` rows; the bot never changes them. */
    const tables: seq<Table>
    /** The `bookings` rows by id. */
    var bookings: map<int, Booking>
    /** The next value of the `bookings.id` sequence. */
    var nextId: int

    ghost predicate Valid()
      reads this
    {
      && TablesWellFormed(tables)
      && 1 <= nextId
      && forall id :: id in bookings ==> RowWellFormed(bookings[id], id, nextId, tables)
    }

    /** Every stored row sits under its own id. */
    lemma RowsUnderTheirIds()
      requires Valid()
      ensures forall c :: c in bookings.Values ==> c.id in bookings && bookings[c.id] == c
    {
      forall c | c in bookings.Values
        ensures c.id in bookings && bookings[c.id] == c
      {
        var k := KeyOf(bookings, c);
      }
    }

    constructor(tables: seq<Table>)
      requires TablesWellFormed(tables)
      ensures Valid()
      ensures this.tables == tables && bookings == map[] && nextId == 1
    {
      this.tables := tables;
      bookings := map[];
      nextId := 1;
    }

    /**
     * The insert of `step_phone`: a `new` two-hour booking of the picked
     * table (table 0 when none was picked). The database refuses a guest
     * count outside 1..30 and a table id that names no table; the id is
     * drawn from the sequence either way. Availability is not re-checked.
     */
    method Insert(userId: int, name: string, phone: string, date: int, time: TimeOfDay,
                  guests: int, picked: Option<int>) returns (r: Result<int, DbError>)
      requires Valid()
      modifies this
      ensures Valid()
      ensures nextId == old(nextId) + 1
      ensures r == Err(GuestsCheckViolation) <==> !(Validators.MinGuests <= guests <= Validators.MaxGuests)
      ensures r == Err(TableForeignKeyViolation) <==>
                Validators.MinGuests <= guests <= Validators.MaxGuests && !HasTable(tables, TableRef(picked))
      ensures r.Err? ==> bookings == old(bookings)
      ensures r.Ok? ==> r.value == old(nextId) && r.value !in old(bookings)
      ensures r.Ok? ==>
                bookings == old(bookings)[r.value :=
                  Booking(r.value, userId, name, phone, date, time, guests, Some(TableRef(picked)), "new", DurationMin)]
    {
      var id := nextId;
      nextId := nextId + 1;
      if !(Validators.MinGuests <= guests <= Validators.MaxGuests) {
        return Err(GuestsCheckViolation);
      }
      var tableId := TableRef(picked);
      if !HasTable(tables, tableId) {
        return Err(TableForeignKeyViolation);
      }
      bookings := bookings[id := Booking(id, userId, name, phone, date, time, guests, Some(tableId), "new", DurationMin)];
      return Ok(id);
    }

    /**
     * `set_status`: any status is accepted. Returns the booking's id and
     * its user when the booking exists, and nothing otherwise.
     */
    method SetStatus(id: int, status: string) returns (bid: Option<int>, userId: Option<int>)
      requires Valid()
      modifies this
      ensures Valid()
      ensures nextId == old(nextId)
      ensures bookings == WithStatus(old(bookings), id, status)
      ensures id in old(bookings) ==> bid == Some(id) && userId == Some(old(bookings)[id].userId)
      ensures id !in old(bookings) ==> bid == None && userId == None
    {
      if id in bookings {
        var b := bookings[id];
        bookings := bookings[id := b.(status := status)];
        return Some(id), Some(b.userId);
      }
      return None, None;
    }

    /** `DELETE FROM bookings WHERE id = $1 RETURNING id`: reports whether a row went. */
    method Delete(id: int) returns (deleted: bool)
      requires Valid()
      modifies this
      ensures Valid()
      ensures nextId == old(nextId)
      ensures deleted <==> id in old(bookings)
      ensures bookings == old(bookings) - {id}
    {
      deleted := id in bookings;
      bookings := bookings - {id};
    }

    /**
     * `fetch_bookings`: page `page` of the rows with status `status`
     * (every row for `"all"`), newest first.
     */
    method FetchPage(page: nat, status: string) returns (rows: seq<Booking>)
      requires Valid()
      ensures rows == Page(Listing(bookings, status), page)
    {
      RowsUnderTheirIds();
      var all: seq<Booking> := [];
      var rest := bookings.Keys;
      while rest != {}
        invariant rest <= bookings.Keys
        invariant Listed(all)
        invariant forall c :: c in all <==> c in Selected(bookings, status) && c.id !in rest
        decreases |rest|
      {
        var id := PickOne(rest);
        var b := bookings[id];
        if Shown(b, status) {
          InsertListedKeepsOrder(b, all);
          all := InsertListed(b, all);
        }
        rest := rest - {id};
      }
      var selected := Selected(bookings, status);
      assert DistinctIds(selected);
      OrderedIsListed(selected);
      ListedUnique(all, Listing(bookings, status));
      rows := Page(all, page);
    }
  }
}
