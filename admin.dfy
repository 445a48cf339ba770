/**
 * The administrators' handlers that change or list bookings: `/del`, the
 * reply to "which booking?", the confirm/cancel buttons of a new-booking
 * notification, and the panel's page, confirm, cancel and delete buttons.
 * Each checks the sender's rights (except the notification buttons),
 * reads the booking id and calls the store.
 */
module Admin {
  import opened Wrappers
  import opened Validators
  import opened Access
  import opened Availability
  import opened Store

  /** Where a message or button press comes from. */
  datatype Sender = Sender(userId: Option<int>, chatId: Option<int>, chatType: Option<string>)

  predicate MayAdminister(who: Sender, cfg: Config) {
    CanAdmin(who.userId, who.chatId, who.chatType, cfg)
  }

  /** What the bot answers to a delete request. */
  datatype DeleteReply =
    | Silent                // no answer
    | AskedForId            // "give the id" (the form now waits for it)
    | IdNotANumber          // "the id must be a number"
    | Removed(id: nat)      // "booking #id deleted"
    | NotFound(id: nat)     // "booking #id not found"

  /** The answer after deleting booking `id`, given whether it existed. */
  function DeleteOutcome(id: nat, existed: bool): (r: DeleteReply)
    ensures r.Removed? <==> existed
    ensures r == Removed(id) || r == NotFound(id)
  {
    if existed then Removed(id) else NotFound(id)
  }

  /**
   * `/del [id]`: from someone without rights, nothing happens. Without an
   * id the form starts waiting for one; with a numeric id (a leading '#'
   * is allowed) that booking is deleted and the reply says whether it
   * existed. `startsWait` says whether this command starts a wait for an
   * id; when it is false, a wait already in progress is left as it was.
   */
  method DelCommand(text: string, who: Sender, cfg: Config, store: BookingStore)
    returns (reply: DeleteReply, startsWait: bool)
    requires store.Valid()
    modifies store
    ensures store.Valid()
    ensures store.nextId == old(store.nextId)
    ensures !MayAdminister(who, cfg) ==> reply == Silent && !startsWait && store.bookings == old(store.bookings)
    ensures MayAdminister(who, cfg) ==>
              match ParseDelCommand(text)
              case BookingId(n) =>
                && !startsWait
                && reply == DeleteOutcome(n, n in old(store.bookings))
                && store.bookings == old(store.bookings) - {n}
              case AskForId => reply == AskedForId && startsWait && store.bookings == old(store.bookings)
              case _ => reply == IdNotANumber && !startsWait && store.bookings == old(store.bookings)
  {
    if !MayAdminister(who, cfg) {
      return Silent, false;
    }
    match ParseDelCommand(text)
    case AskForId =>
      return AskedForId, true;
    case BookingId(n) =>
      var deleted := store.Delete(n);
      return DeleteOutcome(n, deleted), false;
    case _ =>
      return IdNotANumber, false;
  }

  /**
   * A message while the form waits for a booking id, among those that
   * reach the two handlers registered for that wait: the commands and
   * menu buttons with handlers registered earlier (`/start`, `/lang`,
   * `/id`, `/book`, `/del`) are taken by those and are not modelled here. A number (with at
   * most one leading '#', whitespace around it) goes to the handler that
   * checks rights, deletes the booking and ends the wait; any other text
   * goes to the fallback, which checks no rights, stays silent for text
   * starting with '/' and otherwise asks for a number, and keeps waiting.
   */
  method IdReply(text: string, who: Sender, cfg: Config, store: BookingStore)
    returns (reply: DeleteReply, stillWaiting: bool)
    requires store.Valid()
    modifies store
    ensures store.Valid()
    ensures store.nextId == old(store.nextId)
    ensures match ParseIdReply(text)
            case BookingId(n) =>
              if MayAdminister(who, cfg) then
                && reply == DeleteOutcome(n, n in old(store.bookings))
                && !stillWaiting
                && store.bookings == old(store.bookings) - {n}
              else reply == Silent && stillWaiting && store.bookings == old(store.bookings)
            case Ignored => reply == Silent && stillWaiting && store.bookings == old(store.bookings)
            case _ => reply == IdNotANumber && stillWaiting && store.bookings == old(store.bookings)
  {
    match ParseIdReply(text)
    case BookingId(n) =>
      if !MayAdminister(who, cfg) {
        return Silent, true;
      }
      var deleted := store.Delete(n);
      return DeleteOutcome(n, deleted), false;
    case Ignored =>
      return Silent, true;
    case _ =>
      return IdNotANumber, true;
  }

  /**
   * The confirm/cancel buttons of a new-booking notification: the status
   * is set with no check of the sender's rights; the answer reports a
   * booking that no longer exists.
   */
  method NotificationSetStatus(id: int, status: string, store: BookingStore)
    returns (found: bool, notify: Option<int>)
    requires store.Valid()
    modifies store
    ensures store.Valid()
    ensures store.nextId == old(store.nextId)
    ensures store.bookings == WithStatus(old(store.bookings), id, status)
    ensures found <==> id in old(store.bookings)
    ensures found ==> notify == Some(old(store.bookings)[id].userId)
    ensures !found ==> notify.None?
  {
    var bid, userId := store.SetStatus(id, status);
    if bid.None? {
      return false, None;
    }
    return true, userId;
  }

  /** The panel's confirm, cancel and delete buttons act only for senders with rights. */
  method PanelSetStatus(id: int, status: string, who: Sender, cfg: Config, store: BookingStore)
    requires store.Valid()
    modifies store
    ensures store.Valid()
    ensures store.nextId == old(store.nextId)
    ensures store.bookings == if MayAdminister(who, cfg) then WithStatus(old(store.bookings), id, status) else old(store.bookings)
  {
    if MayAdminister(who, cfg) {
      var _, _ := store.SetStatus(id, status);
    }
  }

  method PanelDelete(id: int, who: Sender, cfg: Config, store: BookingStore)
    requires store.Valid()
    modifies store
    ensures store.Valid()
    ensures store.nextId == old(store.nextId)
    ensures store.bookings == if MayAdminister(who, cfg) then old(store.bookings) - {id} else old(store.bookings)
  {
    if MayAdminister(who, cfg) {
      var _ := store.Delete(id);
    }
  }

  /** The page a panel button asks for: negative page numbers read as the first page. */
  function ClampPage(page: int): (p: nat)
    ensures page >= 0 ==> p == page
    ensures page < 0 ==> p == 0
  {
    if page < 0 then 0 else page
  }

  /** The panel's page buttons: the rows of the requested page, for senders with rights. */
  method PanelPage(page: int, status: string, who: Sender, cfg: Config, store: BookingStore)
    returns (rows: Option<seq<Booking>>)
    requires store.Valid()
    ensures !MayAdminister(who, cfg) ==> rows.None?
    ensures MayAdminister(who, cfg) ==> rows == Some(Page(Listing(store.bookings, status), ClampPage(page)))
  {
    if !MayAdminister(who, cfg) {
      return None;
    }
    var r := store.FetchPage(ClampPage(page), status);
    return Some(r);
  }
}
