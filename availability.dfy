/**
 * Which tables can be offered for a request: the query `step_guests`
 * runs once the date, the start time and the number of guests are known.
 * A table is offered when it is active, seats enough guests and no live
 * booking on that date overlaps the requested two hours; the offer is
 * ordered by seats, then by title.
 */
module Availability {
  import opened Wrappers
  import opened Clock

  /** `DURATION_MIN`: every booking holds its table for two hours. */
  const DurationMin := 120

  /** A row of `tables`. */
  datatype Table = Table(id: int, title: string, seats: int, isActive: bool)

  /** A row of `bookings`; `date` is a day number and `time` minutes since midnight. */
  datatype Booking = Booking(
    id: int, userId: int, name: string, phone: string,
    date: int, time: TimeOfDay, guests: int, tableId: Option<int>,
    status: string, durationMin: int)

  /** The tables a fresh database is seeded with. */
  const SeedTables: seq<Table> := [
    Table(1, "Зал №1", 4, true),
    Table(2, "Терраса", 2, true),
    Table(3, "VIP", 6, true)
  ]

  // ---------------------------------------------------------------------
  // The overlap test

  /** Only bookings with status `new` or `confirmed` hold a table. */
  predicate Live(b: Booking) {
    b.status == "new" || b.status == "confirmed"
  }

  /** The end of a request starting at `start`, as a time of day (it wraps past midnight). */
  function RequestEnd(start: TimeOfDay): TimeOfDay {
    AddMinutes(start, DurationMin)
  }

  /**
   * The subquery's condition: `b` holds its table during the request
   * `[start, end)` on `date`. Both ends are times of day, so a booking or
   * a request that runs past midnight has a wrapped end.
   */
  predicate Blocks(b: Booking, date: int, start: TimeOfDay, end: TimeOfDay) {
    && b.date == date
    && Live(b)
    && b.tableId.Some?
    && b.time < end
    && AddMinutes(b.time, b.durationMin) > start
  }

  /** The ids the subquery returns: tables some booking holds during the request. */
  function BlockedTableIds(bookings: set<Booking>, date: int, start: TimeOfDay, end: TimeOfDay): (r: set<int>)
    ensures forall id :: id in r <==> exists b :: b in bookings && Blocks(b, date, start, end) && b.tableId == Some(id)
  {
    set b | b in bookings && Blocks(b, date, start, end) :: b.tableId.value
  }

  /** Minute `m` falls in the half-open interval of `length` minutes from `from`. */
  predicate During(from: int, length: int, m: int) {
    from <= m < from + length
  }

  /**
   * When neither the booking nor the request runs past midnight, a booking
   * blocks exactly when the two half-open intervals share a minute.
   */
  lemma OverlapIff(b: Booking, date: int, start: TimeOfDay)
    requires 0 < b.durationMin && b.time + b.durationMin < MinutesPerDay
    requires start + DurationMin < MinutesPerDay
    ensures Blocks(b, date, start, RequestEnd(start)) <==>
              && b.date == date && Live(b) && b.tableId.Some?
              && b.time < start + DurationMin && start < b.time + b.durationMin
    ensures Blocks(b, date, start, RequestEnd(start)) <==>
              && b.date == date && Live(b) && b.tableId.Some?
              && exists m :: During(b.time, b.durationMin, m) && During(start, DurationMin, m)
  {
    assert RequestEnd(start) == start + DurationMin;
    assert AddMinutes(b.time, b.durationMin) == b.time + b.durationMin;
    if b.time < start + DurationMin && start < b.time + b.durationMin {
      var m := if b.time < start then start else b.time;
      assert During(b.time, b.durationMin, m) && During(start, DurationMin, m);
    }
  }

  /** Touching intervals do not overlap: a booking ending at the start, or starting at the end, does not block. */
  lemma TouchingDoesNotBlock(b: Booking, date: int, start: TimeOfDay)
    requires 0 <= b.durationMin && b.time + b.durationMin < MinutesPerDay
    requires start + DurationMin < MinutesPerDay
    requires b.time + b.durationMin == start || b.time == start + DurationMin
    ensures !Blocks(b, date, start, RequestEnd(start))
  {
  }

  /**
   * A request at closing time (22:00) ends at 00:00 once wrapped, and no
   * booking starts before 00:00: nothing blocks it.
   */
  lemma LastSlotNeverBlocked(b: Booking, date: int)
    ensures RequestEnd(22 * 60) == 0
    ensures !Blocks(b, date, 22 * 60, RequestEnd(22 * 60))
  {
  }

  /**
   * A booking whose end wraps exactly to 00:00 (a two-hour booking at
   * 22:00) ends "before" every start, so it blocks no request.
   */
  lemma MidnightEndNeverBlocks(b: Booking, date: int, start: TimeOfDay, end: TimeOfDay)
    requires b.time + b.durationMin == MinutesPerDay
    ensures !Blocks(b, date, start, end)
  {
  }

  // ---------------------------------------------------------------------
  // The filter

  /** The WHERE clause on `tables`. */
  predicate Available(t: Table, guests: int, blocked: set<int>) {
    t.isActive && t.seats >= guests && t.id !in blocked
  }

  /** The tables that pass the WHERE clause, in their original order. */
  function Eligible(tables: seq<Table>, guests: int, blocked: set<int>): (r: seq<Table>)
    ensures forall t :: multiset(r)[t] == if Available(t, guests, blocked) then multiset(tables)[t] else 0
  {
    if tables == [] then []
    else
      assert tables == [tables[0]] + tables[1..];
      var rest := Eligible(tables[1..], guests, blocked);
      if Available(tables[0], guests, blocked) then [tables[0]] + rest else rest
  }

  // ---------------------------------------------------------------------
  // ORDER BY seats, title

  /** Titles compare character by character, by code point. */
  predicate TitleLe(a: string, b: string) {
    a == [] || (b != [] && (a[0] < b[0] || (a[0] == b[0] && TitleLe(a[1..], b[1..]))))
  }

  lemma {:induction false} TitleLeTotal(a: string, b: string)
    ensures TitleLe(a, b) || TitleLe(b, a)
  {
    if a != [] && b != [] && a[0] == b[0] {
      TitleLeTotal(a[1..], b[1..]);
    }
  }

  lemma {:induction false} TitleLeTrans(a: string, b: string, c: string)
    requires TitleLe(a, b) && TitleLe(b, c)
    ensures TitleLe(a, c)
  {
    if a != [] && a[0] == b[0] && b[0] == c[0] {
      TitleLeTrans(a[1..], b[1..], c[1..]);
    }
  }

  lemma {:induction false} TitleLeAntisymmetric(a: string, b: string)
    requires TitleLe(a, b) && TitleLe(b, a)
    ensures a == b
  {
    if a != [] {
      TitleLeAntisymmetric(a[1..], b[1..]);
      assert a == [a[0]] + a[1..] && b == [b[0]] + b[1..];
    }
  }

  /** `ORDER BY t.seats, t.title`. */
  predicate TableLe(a: Table, b: Table) {
    a.seats < b.seats || (a.seats == b.seats && TitleLe(a.title, b.title))
  }

  predicate Sorted(ts: seq<Table>) {
    forall i, j :: 0 <= i < j < |ts| ==> TableLe(ts[i], ts[j])
  }

  lemma TableLeTotal(a: Table, b: Table)
    ensures TableLe(a, b) || TableLe(b, a)
  {
    TitleLeTotal(a.title, b.title);
  }

  lemma TableLeTrans(a: Table, b: Table, c: Table)
    requires TableLe(a, b) && TableLe(b, c)
    ensures TableLe(a, c)
  {
    if a.seats == b.seats && b.seats == c.seats {
      TitleLeTrans(a.title, b.title, c.title);
    }
  }

  /** Puts `t` into a sorted list of tables, after every table that does not sort after it. */
  function InsertTable(t: Table, ts: seq<Table>): (r: seq<Table>)
    ensures multiset(r) == multiset(ts) + multiset{t}
  {
    if ts == [] then [t]
    else if TableLe(t, ts[0]) then [t] + ts
    else
      assert ts == [ts[0]] + ts[1..];
      [ts[0]] + InsertTable(t, ts[1..])
  }

  lemma {:induction false} InsertTableSorted(t: Table, ts: seq<Table>)
    requires Sorted(ts)
    ensures Sorted(InsertTable(t, ts))
  {
    if ts == [] {
    } else if TableLe(t, ts[0]) {
      var r := [t] + ts;
      forall i, j | 0 <= i < j < |r|
        ensures TableLe(r[i], r[j])
      {
        if i == 0 && j > 1 {
          TableLeTrans(t, ts[0], ts[j - 1]);
        }
      }
    } else {
      TableLeTotal(t, ts[0]);
      var rest := InsertTable(t, ts[1..]);
      InsertTableSorted(t, ts[1..]);
      var r := [ts[0]] + rest;
      forall i, j | 0 <= i < j < |r|
        ensures TableLe(r[i], r[j])
      {
        if i == 0 {
          var x := rest[j - 1];
          assert x in multiset(rest);
          if x != t {
            assert x in multiset(ts[1..]);
            var k :| 0 <= k < |ts[1..]| && ts[1..][k] == x;
            assert ts[k + 1] == x;
          }
        }
      }
    }
  }

  /** Insertion sort by seats, then title. */
  function SortTables(ts: seq<Table>): (r: seq<Table>)
    ensures multiset(r) == multiset(ts)
  {
    if ts == [] then []
    else
      assert ts == [ts[0]] + ts[1..];
      InsertTable(ts[0], SortTables(ts[1..]))
  }

  lemma {:induction false} SortTablesSorted(ts: seq<Table>)
    ensures Sorted(SortTables(ts))
  {
    if ts != [] {
      SortTablesSorted(ts[1..]);
      InsertTableSorted(ts[0], SortTables(ts[1..]));
    }
  }

  // ---------------------------------------------------------------------
  // The query

  /** The tables offered for `guests` guests on `date` from `start`, in display order. */
  function FreeTables(tables: seq<Table>, bookings: set<Booking>, date: int, start: TimeOfDay, guests: int): seq<Table> {
    var blocked := BlockedTableIds(bookings, date, start, RequestEnd(start));
    SortTables(Eligible(tables, guests, blocked))
  }

  /** A table held by some live booking overlapping the request. */
  predicate Taken(t: Table, bookings: set<Booking>, date: int, start: TimeOfDay) {
    exists b :: b in bookings && Blocks(b, date, start, RequestEnd(start)) && b.tableId == Some(t.id)
  }

  /**
   * What the query returns: every table that is active, seats the guests
   * and is not taken, as often as it is listed, and nothing else; sorted
   * by seats, then title.
   */
  lemma FreeTablesSpec(tables: seq<Table>, bookings: set<Booking>, date: int, start: TimeOfDay, guests: int)
    ensures var r := FreeTables(tables, bookings, date, start, guests);
            && Sorted(r)
            && (forall t :: multiset(r)[t] ==
                  if t.isActive && t.seats >= guests && !Taken(t, bookings, date, start)
                  then multiset(tables)[t] else 0)
            && (forall t :: t in r <==>
                  t in tables && t.isActive && t.seats >= guests && !Taken(t, bookings, date, start))
  {
    var blocked := BlockedTableIds(bookings, date, start, RequestEnd(start));
    var e := Eligible(tables, guests, blocked);
    var r := SortTables(e);
    SortTablesSorted(e);
    forall t: Table
      ensures multiset(r)[t] ==
                if t.isActive && t.seats >= guests && !Taken(t, bookings, date, start)
                then multiset(tables)[t] else 0
    {
      assert t.id in blocked <==> Taken(t, bookings, date, start);
    }
  }

  /**
   * Bookings that are not live, are on another date, or have no table
   * never take a table away.
   */
  lemma IrrelevantBookingIgnored(tables: seq<Table>, bookings: set<Booking>, b: Booking, date: int, start: TimeOfDay, guests: int)
    requires !Live(b) || b.date != date || b.tableId.None?
    ensures FreeTables(tables, bookings + {b}, date, start, guests) == FreeTables(tables, bookings, date, start, guests)
  {
    var end := RequestEnd(start);
    assert BlockedTableIds(bookings + {b}, date, start, end) == BlockedTableIds(bookings, date, start, end);
  }

  /** The first table offered has the fewest seats of all the tables that could be offered. */
  lemma FirstOfferFewestSeats(tables: seq<Table>, bookings: set<Booking>, date: int, start: TimeOfDay, guests: int, t: Table)
    requires t in tables && t.isActive && t.seats >= guests && !Taken(t, bookings, date, start)
    ensures var r := FreeTables(tables, bookings, date, start, guests);
            r != [] && r[0].seats <= t.seats
  {
    FreeTablesSpec(tables, bookings, date, start, guests);
    var r := FreeTables(tables, bookings, date, start, guests);
    var k :| 0 <= k < |r| && r[k] == t;
    if k > 0 {
      assert TableLe(r[0], r[k]);
    }
  }

  /** More guests never free up a table. */
  lemma MoreGuestsFewerTables(tables: seq<Table>, bookings: set<Booking>, date: int, start: TimeOfDay, g1: int, g2: int)
    requires g1 <= g2
    ensures forall t :: t in FreeTables(tables, bookings, date, start, g2) ==> t in FreeTables(tables, bookings, date, start, g1)
  {
    FreeTablesSpec(tables, bookings, date, start, g1);
    FreeTablesSpec(tables, bookings, date, start, g2);
  }

  /** More bookings never free up a table. */
  lemma MoreBookingsFewerTables(tables: seq<Table>, bs1: set<Booking>, bs2: set<Booking>, date: int, start: TimeOfDay, guests: int)
    requires bs1 <= bs2
    ensures forall t :: t in FreeTables(tables, bs2, date, start, guests) ==> t in FreeTables(tables, bs1, date, start, guests)
  {
    FreeTablesSpec(tables, bs1, date, start, guests);
    FreeTablesSpec(tables, bs2, date, start, guests);
  }
}
