# Table-booking bot: a Dafny model of its reservation rules

The bot takes table reservations for a restaurant over Telegram. A guest
walks through a form (date, time, number of guests, table, name, phone);
the bot offers the tables that are free for two hours from the chosen
time, stores the booking with status `new`, and notifies the
administrators, who can confirm, cancel, delete and list bookings.

This project models the rules behind that, all of them in `main.py`:

- `Text` — the Python string operations the rules rely on (`strip`,
  `isdigit`, `int`, `split`, `lstrip`, `replace`, `lower`), ASCII only.
- `Clock` — times of day as minutes since midnight, PostgreSQL's
  wrapping `time + interval`, and the `%H:%M` text form.
- `Validators` — the guest-count, time, name and phone checks, and the
  parsing of booking ids typed by administrators.
- `Access` — the staff id list (`_parse_ids`, a loop, modelled as a
  method proved against a function), `is_staff`, `can_admin`, and the
  interface-language helpers.
- `Availability` — the availability query of `step_guests`: the overlap
  test, the WHERE filter and the `ORDER BY seats, title`.
- `Store` — the `bookings` table as a class holding a map from id to row,
  with the insert, `set_status`, delete and the paged listing
  `fetch_bookings`, and the database constraints that refuse an insert.
- `Dialogue` — the time, guests, table, name and phone steps of the form.
- `Admin` — the administrators' handlers: `/del`, the id reply, the
  notification buttons and the panel buttons.

Dates are day numbers and times are minutes since midnight. Where the
code does something surprising, the model keeps it and states it:

- A time outside opening hours is refused with the *format* error, not a
  separate opening-hours error: that error is raised inside the `try` and
  caught by it (main.py:542-546). The model follows the code here.
- A request at 22:00 ends at 00:00 once wrapped, so the strict `<` of the
  overlap test lets nothing block it (`LastSlotNeverBlocked`).
- With no table picked, the insert writes table id 0, which the foreign key
  refuses, so the handler fails and the form stays at the phone step
  (`UnpickedTableRefused`, `Dialogue.StepPhone`).
- A table button pressed after the form was cancelled still stores the
  table and asks for a name (main.py:705-713), so the phone step can run
  with no date: the handler then fails before the insert
  (`Dialogue.StaleTableButton`, `Dialogue.StepPhone`).
- The confirm/cancel buttons on a new-booking notification (main.py:824-850)
  do not check the sender's rights (`Admin.NotificationSetStatus`).
- The id handler at main.py:922 is registered after a catch-all handler for
  the same state, so it never runs; its reader is modelled and shown to
  agree with the live one on every id the live one accepts.
- When no table is free the form goes back to the time step, but a table
  chosen earlier stays stored (`Dialogue.GuestsStepOutcome`).
- Only the start time is checked against opening hours: a booking may start
  at 22:00 and run past closing. Any status string is accepted, with no
  transition check (`Store.WithStatusLastWins`).

## Model

| member | source | states |
|---|---|---|
| Access.ParseIds | main.py:339-345 | the loop returns exactly the ids of the fields (after ';' is read as ',') that are digits once stripped |
| Access.StaffIdsOfMembership | main.py:339-345 | an id is in the parsed list iff some field of the list, stripped, is its digits |
| Access.CollectMembership | main.py:340-344 | an id is collected iff some field yields it |
| Access.StaffIdsOfJoin | main.py:341 | a list joined by ';' or ',' names the ids of both halves |
| Access.StaffIdsOfOne | main.py:341-344 | one number with whitespace around it names that number alone |
| Access.StaffSet | main.py:354-356 | the staff set holds a non-zero admin user and otherwise only listed ids |
| Access.CanAdminIff | main.py:349-362 | `can_admin` iff the user is non-zero, is the admin user or named by a list field, and writes in a private chat or the configured admin chat |
| Access.ZeroIsNeverStaff | main.py:358-359 | user 0 is never staff, even when the list names 0 |
| Access.NoAdminChatMeansPrivateOnly | main.py:361-362 | with no admin chat set, admin rights hold only in private chats |
| Access.PickDefaultLang | main.py:316-324 | no or an empty language code gives Russian; otherwise, lower-cased, a code starting with "ru" gives Russian, one starting with "lv" or "lt" Latvian, and any other English |
| Access.PickDefaultLangIgnoresCase | main.py:319 | the choice of language ignores letter case |
| Access.PickDefaultLangFirstTwo | main.py:319-324 | only the first two letters of the code decide the language |
| Access.NormaliseLang | main.py:459-461 | a known code is kept; any other is stored as Russian |
| Access.LangRoundTrip | main.py:113 | every language's code is a known code and is stored as that language |
| Clock.AddMinutes | main.py:683 | adding minutes to a time wraps past midnight |
| Clock.ParseClock | main.py:541 | an accepted time is hours 0..23 and minutes 0..59, each one or two digits around the first colon |
| Clock.ParseClockAccepts | main.py:541 | conversely, any such text is accepted as that time, one-digit fields included ("9:30", "10:5") |
| Clock.ClockRoundTrip | main.py:541 | a time written as `%H:%M` reads back as itself |
| Validators.ParseGuests | main.py:548-555 | the count is accepted iff the stripped text with every space removed is all digits and its value is within 1..30, and the accepted count is that value; the "not a number" error comes iff that text is not all digits |
| Validators.ParseGuestsInnerSpace | main.py:549 | a space between two digits is ignored: "1 2" is read as "12" |
| Validators.ParseGuestsLeadingZero | main.py:552 | a leading zero does not change the count: "07" is read as "7" |
| Validators.ParseGuestsRoundTrip | main.py:548-555 | every count 1..30, with whitespace around it, is accepted as itself |
| Validators.ParseGuestsOutOfRange | main.py:552-554 | a count outside 1..30 is refused with the range error |
| Validators.ParseTime | main.py:536-546 | a time is accepted iff the cleaned-up text reads as a clock time within 10:00..22:00, and the accepted time is the one the text spells; every refusal is the format error |
| Validators.ParseTimeRoundTrip | main.py:537-541 | a time within opening hours is accepted as HH:MM, HH.MM and HHMM |
| Validators.ParseTimeOutOfHours | main.py:542-546 | a well-formed time outside opening hours gets the format error |
| Validators.StrippedAtLeast | main.py:718-730 | the stripped text is kept iff it has at least the minimum length |
| Validators.CheckName | main.py:718-720 | an accepted name has at least two characters |
| Validators.CheckPhone | main.py:728-730 | an accepted phone has at least six characters |
| Validators.StrippedAtLeastIdempotent | main.py:718-728 | what the check keeps passes it again unchanged |
| Validators.StrippedAtLeastPadded | main.py:718-730 | whitespace around the text never changes the verdict or the kept value |
| Validators.ParseDelCommand | main.py:795-802 | `/del` asks for an id iff it has fewer than two words; it names a booking iff the second word, with leading '#' removed, is all digits, and the booking is that number; otherwise it is not a number |
| Validators.ParseDelCommandRoundTrip | main.py:795-802 | `/del`, `/del n` and `/del #n` read as intended |
| Validators.ParseIdReply | main.py:807-821 | a reply is an id iff, stripped, it is digits with at most one leading '#', and the id is the value of those digits; any other reply is ignored iff it starts with '/' and is otherwise not a number |
| Validators.ParseIdReplyRoundTrip | main.py:807-811 | `n` and `#n` with whitespace around read as booking n |
| Validators.ParseIdWaiting | main.py:926-932 | the unreachable reader ignores exactly the texts that start with '/' once stripped; otherwise it reads an id iff the stripped text, with its leading '#'s and every space removed, is all digits, and the id is their value |
| Validators.ParseIdWaitingInnerSpace | main.py:929 | that reader takes "1 2" as booking 12 |
| Validators.ParseIdWaitingHashes | main.py:929 | that reader takes "##5" as booking 5 |
| Validators.IdReadersAgree | main.py:926-932 | both id readers read every accepted reply the same way |
| Availability.BlockedTableIds | main.py:676-685 | a table id is excluded iff some live booking on that date with that table overlaps the request |
| Availability.OverlapIff | main.py:681-684 | without a wrap, a booking blocks iff `b < s + 120` and `s < b + d`, i.e. iff the half-open intervals share a minute |
| Availability.TouchingDoesNotBlock | main.py:682-683 | a booking ending at the start, or starting at the end, does not block |
| Availability.LastSlotNeverBlocked | main.py:682-688 | a 22:00 request ends at 00:00 and no booking blocks it |
| Availability.MidnightEndNeverBlocks | main.py:683 | a booking ending exactly at midnight blocks nothing |
| Availability.Eligible | main.py:673-675 | each table appears as often as it is listed if it passes the WHERE clause, otherwise never |
| Availability.TitleLeTotal | main.py:686 | any two titles are ordered one way or the other |
| Availability.TitleLeTrans | main.py:686 | the title order is transitive |
| Availability.TitleLeAntisymmetric | main.py:686 | titles ordered both ways are equal |
| Availability.TableLeTotal | main.py:686 | any two tables are ordered by seats, then title |
| Availability.TableLeTrans | main.py:686 | the table order is transitive |
| Availability.InsertTable | main.py:686 | inserting a table adds exactly that table |
| Availability.InsertTableSorted | main.py:686 | inserting into a sorted list keeps it sorted |
| Availability.SortTables | main.py:686 | sorting is a permutation |
| Availability.SortTablesSorted | main.py:686 | sorting orders by seats, then title |
| Availability.FreeTablesSpec | main.py:668-689 | the offer is sorted and holds exactly the active tables with enough seats that are not taken, as often as listed |
| Availability.IrrelevantBookingIgnored | main.py:678-680 | cancelled, other-day and tableless bookings never change the offer |
| Availability.FirstOfferFewestSeats | main.py:686 | the first table offered has the fewest seats among all free tables |
| Availability.MoreGuestsFewerTables | main.py:674 | more guests never add a table to the offer |
| Availability.MoreBookingsFewerTables | main.py:676-685 | more bookings never add a table to the offer |
| Store.TableRef | main.py:749 | the insert names the picked table, or 0 when none was picked |
| Store.UnpickedTableRefused | main.py:749 | table 0 never exists, so an insert without a table is refused |
| Store.SeedTablesWellFormed | main.py:440-445 | the seeded tables have distinct positive ids and positive seats |
| Store.WithStatus | main.py:558-566 | a status update changes only that booking's status and keeps every other row and key |
| Store.WithStatusIdempotent | main.py:558-566 | setting the same status twice is setting it once |
| Store.WithSameStatus | main.py:558-566 | re-setting a booking's current status changes nothing |
| Store.WithStatusLastWins | main.py:558-566 | with no transition check, only the last status set remains |
| Store.CancelFreesOnly | main.py:558-566 | cancelling a booking never removes a table from any offer |
| Store.Selected | main.py:861-867 | the listing keeps a row iff the filter is "all" or the row has that status |
| Store.ListedUnique | main.py:868 | there is one listing order for a set of rows: two ordered sequences with the same rows are equal |
| Store.InsertListed | main.py:868 | inserting a row adds exactly that row |
| Store.InsertListedKeepsOrder | main.py:868 | inserting a new row keeps the listing order |
| Store.OrderedIsListed | main.py:868 | rows with distinct ids are listed by date, time and id, all descending, each once |
| Store.Page | main.py:860-869 | a page has at most 10 rows, row i being row `page*10 + i` of the listing |
| Store.PageCovers | main.py:860-869 | row i of the listing is on page i / 10 at position i % 10 |
| Store.PagesConsecutive | main.py:860-869 | pages k and k+1 together are the next (up to) twenty rows from page k's offset |
| Store.PagesDisjoint | main.py:860-869 | different pages share no row |
| Store.BookingStore.RowsUnderTheirIds | main.py:418 | every stored row is stored under its own id |
| Store.BookingStore.constructor | main.py:416-430 | the store starts empty, with the id sequence at 1 |
| Store.BookingStore.Insert | main.py:739-752 | the id is drawn either way; guests outside 1..30 or a missing table are refused, and nothing else is; otherwise exactly one new `new` two-hour row is added under a fresh id |
| Store.BookingStore.SetStatus | main.py:558-566 | the rows become `WithStatus`; returns the id and user when the row existed, nothing otherwise |
| Store.BookingStore.Delete | main.py:803-805 | exactly that id is removed; reports deletion iff it existed |
| Store.BookingStore.FetchPage | main.py:859-873 | returns the requested page of the filtered rows in listing order |
| Dialogue.StepTime | main.py:642-651 | a refused time changes nothing; an accepted one, within opening hours, is stored and the form asks for guests |
| Dialogue.StepGuests | main.py:653-703 | an accepted count is stored and the free tables are offered; none sends the form back to the time step |
| Dialogue.GuestsStepOutcome | main.py:653-703 | the count is within 1..30, the stored table is unchanged, the time step follows iff nothing is offered, and every offered table fits and is free |
| Dialogue.PickTable | main.py:705-713 | the chosen table is stored and the form asks for a name; nothing else changes |
| Dialogue.StepName | main.py:715-723 | a refused name changes nothing; an accepted one is stored, stripped |
| Dialogue.StaleTableButton | main.py:705-723 | a table button pressed after the form was cleared leads to the phone step with the date, time and guests missing |
| Dialogue.StepPhone | main.py:725-780 | a booking is made iff the phone passes, the form is complete, the guest count is within 1..30 and the picked table exists; it adds exactly that booking and clears the form; otherwise the form and the bookings stay as they were |
| Admin.DeleteOutcome | main.py:805 | the reply says "deleted" iff the booking existed |
| Admin.DelCommand | main.py:791-805 | without rights nothing happens; otherwise it asks for an id and starts the wait for one, refuses a non-number, or deletes that booking and reports whether it existed; only asking starts a wait, and none ends one |
| Admin.IdReply | main.py:807-821 | among the messages that reach the two handlers of the wait: an id from someone with rights deletes that booking and ends the wait; everything else leaves the bookings alone and keeps waiting |
| Admin.NotificationSetStatus | main.py:824-850 | the status is set with no rights check beyond the chat filter every handler sits behind; reports a missing booking, and otherwise notifies its user |
| Admin.PanelSetStatus | main.py:984-1008 | only a sender with rights changes a status |
| Admin.PanelDelete | main.py:1010-1016 | only a sender with rights deletes a booking |
| Admin.ClampPage | main.py:943 | negative page numbers read as the first page |
| Admin.PanelPage | main.py:938-959 | a sender with rights gets the clamped page of the listing; others get nothing |

## Left out

- Date parsing (`parse_date_localized`, `step_date`), `date.today()` and `created_at`: calendar parsing and clocks. A session enters the model with its date already chosen.
- Unicode digits and whitespace: `isdigit`, `strip`, `\d` and `\s` are modelled on ASCII only, and `lower` on ASCII letters only.
- Title order: titles compare by code point, not by the database collation.
- Message texts, I18N tables, keyboards, message edits and sends, and the notification to the admin chat: static text and Telegram I/O.
- The aiogram router and callback-data parsing: the ids and page numbers the handlers read from button data are parameters.
- `ap_delask` (main.py:783-789) only starts the wait for an id after a rights check; the wait itself is modelled by `Admin.IdReply`.
- `ap_set_status` (main.py:961-982) only re-renders the listing with a filter; it is `Admin.PanelPage` with that filter.
- The router filter (main.py:485-486): messages and button presses reach the handlers only from private chats and from the chat `ADMIN_CHAT_ID`. Every handler here is modelled for the updates that pass it, so "no rights check" (`Admin.NotificationSetStatus`) means anyone writing in a private chat or in the admin chat.
- Concurrency: the availability query and the insert are separate statements, so the model does not claim that a table is never double-booked.
- `app.py`, the webhook, startup and shutdown handlers, command registration, the connection pool and the schema DDL: plumbing. The schema constraints the insert relies on are modelled in `Store.BookingStore.Insert`.
- `get_lang`'s database lookup and the storage side of `set_lang`: a key-value read and write; only the code normalisation is modelled.
- The auto-leave of group chats (main.py:488-501): Telegram membership plumbing.
- A message without text (`msg.text` is None) in the form steps: the handlers then fail before any rule applies.
- `ADMIN_USER_ID` and `ADMIN_CHAT_ID` that are not integers: start-up fails; the settings are modelled as integers.
- Availability.OverlapIff: stated only for bookings of positive length that do not run past midnight; the wrapping cases are covered by `LastSlotNeverBlocked` and `MidnightEndNeverBlocks`.
- Store.BookingStore.FetchPage: takes a page number of at least 0; the handlers clamp it first (`Admin.ClampPage`).
- Dialogue.StepPhone: a refused insert, and a form missing its date, time, guests or name (a `KeyError` at main.py:735-751), are unhandled exceptions in the handler; the model returns the unchanged form and no booking.
- Admin.IdReply: commands with handlers registered before main.py:807 (`/start`, `/lang`, `/id`, `/book`, `/del` and the menu buttons) are taken by those handlers even while an id is awaited; `/del 12` then deletes through `Admin.DelCommand`. Only the messages that reach the handlers at main.py:807 and main.py:817 are modelled.
- `pick_table` runs whatever state the form is in (main.py:705); `Dialogue.PickTable` models it on any session.
