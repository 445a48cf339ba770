/**
 * The steps of the booking form a guest walks through: time, guests,
 * table, name and phone. Each step reads one answer, checks it with the
 * validators and either stays where it is (the answer was refused) or
 * records the answer and moves on. The date step is not part of this
 * model; a session enters it with its date already chosen.
 */
module Dialogue {
  import opened Wrappers
  import opened Clock
  import opened Validators
  import opened Availability
  import opened Store

  /** The states of `BookingForm`, plus `Idle` once the form is cleared. */
  datatype Phase = Idle | WaitingForDate | WaitingForTime | WaitingForGuests | WaitingForTable | WaitingForName | WaitingForPhone

  /** The form's current state and the answers stored so far. */
  datatype Session = Session(
    phase: Phase,
    date: Option<int>,
    time: Option<TimeOfDay>,
    guests: Option<int>,
    table: Option<int>,
    name: Option<string>)

  const Cleared := Session(Idle, None, None, None, None, None)

  /** `step_time`: a valid time is stored and the form asks for the guests. */
  function StepTime(s: Session, text: string): (r: Session)
    ensures ParseTime(text).Err? ==> r == s
    ensures ParseTime(text).Ok? ==>
              && r.phase == WaitingForGuests
              && r.time == Some(ParseTime(text).value)
              && OpenTime <= r.time.value <= CloseTime
              && r.(phase := s.phase, time := s.time) == s
  {
    match ParseTime(text)
    case Err(_) => s
    case Ok(t) => s.(time := Some(t), phase := WaitingForGuests)
  }

  /**
   * `step_guests`: a valid guest count is stored, then the free tables
   * are looked up. With none, the form goes back to asking for a time;
   * otherwise it offers them. Returns the new session and the offer.
   */
  function StepGuests(s: Session, text: string, tables: seq<Table>, bookings: set<Booking>): (r: (Session, seq<Table>))
    requires s.date.Some? && s.time.Some?
    ensures ParseGuests(text).Err? ==> r == (s, [])
    ensures ParseGuests(text).Ok? ==>
              && r.0.guests == Some(ParseGuests(text).value)
              && r.1 == FreeTables(tables, bookings, s.date.value, s.time.value, ParseGuests(text).value)
              && r.0.phase == (if r.1 == [] then WaitingForTime else WaitingForTable)
              && r.0.(phase := s.phase, guests := s.guests) == s
  {
    match ParseGuests(text)
    case Err(_) => (s, [])
    case Ok(g) =>
      var offer := FreeTables(tables, bookings, s.date.value, s.time.value, g);
      var phase := if offer == [] then WaitingForTime else WaitingForTable;
      (s.(guests := Some(g), phase := phase), offer)
  }

  /** `pick_table`: the chosen table is stored and the form asks for a name. */
  function PickTable(s: Session, tableId: int): (r: Session)
    ensures r.phase == WaitingForName && r.table == Some(tableId)
    ensures r.(phase := s.phase, table := s.table) == s
  {
    s.(table := Some(tableId), phase := WaitingForName)
  }

  /** `step_name`: a name of at least two characters, stripped, is stored. */
  function StepName(s: Session, text: string): (r: Session)
    ensures CheckName(text).Err? ==> r == s
    ensures CheckName(text).Ok? ==>
              && r.phase == WaitingForPhone
              && r.name == Some(CheckName(text).value)
              && |r.name.value| >= MinNameLength
              && r.(phase := s.phase, name := s.name) == s
  {
    match CheckName(text)
    case Err(_) => s
    case Ok(n) => s.(name := Some(n), phase := WaitingForPhone)
  }

  /**
   * When no table is free the form returns to the time step with no table
   * chosen by this step, and the guest count kept; with tables free, every
   * table offered can take the party.
   */
  lemma GuestsStepOutcome(s: Session, text: string, tables: seq<Table>, bookings: set<Booking>)
    requires s.date.Some? && s.time.Some?
    requires ParseGuests(text).Ok?
    ensures var (r, offer) := StepGuests(s, text, tables, bookings);
            var g := ParseGuests(text).value;
            && MinGuests <= g <= MaxGuests
            && r.table == s.table
            && (offer == [] <==> r.phase == WaitingForTime)
            && forall t :: t in offer ==>
                 && t in tables && t.isActive && t.seats >= g
                 && !Taken(t, bookings, s.date.value, s.time.value)
  {
    FreeTablesSpec(tables, bookings, s.date.value, s.time.value, ParseGuests(text).value);
  }

  /** The answers `step_phone` reads from the form before it inserts. */
  predicate Complete(s: Session) {
    s.date.Some? && s.time.Some? && s.guests.Some? && s.name.Some?
  }

  /**
   * A table button pressed after the form was cleared still stores the
   * table and asks for a name, so the form reaches the phone step with no
   * date, time or guest count.
   */
  lemma StaleTableButton(tableId: int, text: string)
    requires CheckName(text).Ok?
    ensures StepName(PickTable(Cleared, tableId), text).phase == WaitingForPhone
    ensures !Complete(StepName(PickTable(Cleared, tableId), text))
  {
  }

  /**
   * `step_phone`: a phone of at least six characters, stripped, completes
   * the form and the booking is inserted; the form is then cleared. A form
   * missing an answer (reached through a table button pressed after the
   * form was cleared) makes the handler fail before the insert, and so
   * does a refused insert: in both cases the form stays at the phone step.
   */
  method StepPhone(s: Session, text: string, userId: int, store: BookingStore)
    returns (r: Session, booked: Option<int>)
    requires store.Valid()
    requires s.phase == WaitingForPhone
    modifies store
    ensures store.Valid()
    ensures CheckPhone(text).Err? ==> r == s && booked.None? && unchanged(store)
    ensures !Complete(s) ==> r == s && booked.None? && unchanged(store)
    ensures booked.Some? <==> r == Cleared
    ensures booked.Some? ==>
              && CheckPhone(text).Ok? && Complete(s)
              && booked.value !in old(store.bookings)
              && store.bookings == old(store.bookings)[booked.value :=
                   Booking(booked.value, userId, s.name.value, CheckPhone(text).value,
                           s.date.value, s.time.value, s.guests.value,
                           Some(TableRef(s.table)), "new", DurationMin)]
    ensures CheckPhone(text).Ok? && booked.None? ==> r == s && store.bookings == old(store.bookings)
    ensures booked.Some? <==>
              && CheckPhone(text).Ok? && Complete(s)
              && Validators.MinGuests <= s.guests.value <= Validators.MaxGuests
              && HasTable(store.tables, TableRef(s.table))
  {
    match CheckPhone(text)
    case Err(_) =>
      return s, None;
    case Ok(phone) =>
      if !Complete(s) {
        return s, None;
      }
      var inserted := store.Insert(userId, s.name.value, phone, s.date.value, s.time.value, s.guests.value, s.table);
      match inserted
      case Ok(id) =>
        return Cleared, Some(id);
      case Err(e) =>
        assert e == GuestsCheckViolation || e == TableForeignKeyViolation;
        return s, None;
  }
}
