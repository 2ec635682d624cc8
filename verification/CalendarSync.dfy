/**
 The two-way calendar sync as a state machine: the scheduling tables, the technicians' calendars
 and one clock that every step moves forward. The dispatcher projects the outbox one entry at a
 time; guests edit events behind its back; a poll reconciles one event's current state.
 */
module CalendarSync {
  import opened Strings
  import opened Time
  import opened Scheduling

  datatype Life = Live | Removed | Deleted

  /** A calendar event. `uid` is the appointment its iCalUID names; no range means all-day.
      Life says whether a guest removed it or the dispatcher deleted it. `unpolled` and `described`
      are history: edited by a guest since the last poll, description edited since the last
      projection. */
  datatype Event = Event(
    uid: Id, calendar: Id, range: Option<TimeRange>, details: Option<string>, declined: bool,
    life: Life, updatedAt: int, unpolled: bool, described: bool)

  datatype World = World(tables: Tables, events: map<Id, Event>, now: int)

  // ---------- What the calendar answers ----------

  datatype Answer = Raised | Answered(events: map<Id, Event>, id: Option<Id>)

  predicate Holds(events: map<Id, Event>, x: Id, calendar: Id, uid: Id) {
    x in events && events[x].calendar == calendar && events[x].uid == uid
  }

  function Projected(a: Id, row: AppointmentRow, now: int): Event {
    Event(a, row.technician, Some(row.range), row.details, false, Live, now, false, false)
  }

  /** Insert; a duplicate iCalUID is rejected and recovered to the live event that holds it. */
  ghost function CreateEvent(events: map<Id, Event>, a: Id, row: AppointmentRow, newId: Id, now: int): Answer {
    if exists x :: Holds(events, x, row.technician, a) then
      if exists x :: Holds(events, x, row.technician, a) && events[x].life.Live? then
        var x :| Holds(events, x, row.technician, a) && events[x].life.Live?;
        Answered(events, Some(x))
      else Raised
    else Answered(events[newId := Projected(a, row, now)], Some(newId))
  }

  function UpdateEvent(events: map<Id, Event>, x: Id, row: AppointmentRow, now: int): Answer {
    if x in events && events[x].life.Live? then
      var event := events[x].(range := Some(row.range), details := row.details, declined := false,
                              updatedAt := now, described := false);
      Answered(events[x := event], None)
    else Raised
  }

  function DeleteEvent(events: map<Id, Event>, x: Id, now: int): Answer {
    if x in events && events[x].life.Live? then
      Answered(events[x := events[x].(life := Deleted, updatedAt := now)], None)
    else Raised
  }

  // ---------- One dispatch ----------

  /** How the calendar call went: it answered; it raised before any effect; its effect happened
      but an error came back; its effect happened and the process died before committing. */
  datatype Outcome = Done | Refused | Lost | Crashed

  ghost function Call(t: Tables, events: map<Id, Event>, e: Entry, newId: Id, now: int): Answer {
    if e.appointment !in t.appointments then Raised
    else
      var row := t.appointments[e.appointment];
      match e.op
      case Create => CreateEvent(events, e.appointment, row, newId, now)
      case Update => if row.event.None? then Raised else UpdateEvent(events, row.event.value, row, now)
      case Delete => if e.event.None? then Answered(events, None) else DeleteEvent(events, e.event.value, now)
  }

  /** A Delete that captured no event id makes no calendar call, so the calendar cannot fail it. */
  predicate NeedsNoCall(e: Entry) {
    e.op.Delete? && e.event.None?
  }

  predicate Succeeds(e: Entry, answer: Answer, outcome: Outcome) {
    answer.Answered? && (outcome.Done? || NeedsNoCall(e))
  }

  function EventsAfter(events: map<Id, Event>, answer: Answer, outcome: Outcome): map<Id, Event> {
    if answer.Answered? && !outcome.Refused? then answer.events else events
  }

  function TablesAfter(t: Tables, k: nat, answer: Answer, outcome: Outcome): Tables
    requires k < |t.outbox|
  {
    var e := t.outbox[k];
    if outcome.Crashed? then t
    else if Succeeds(e, answer, outcome) then
      var t := t.(outbox := t.outbox[k := Completed(e)]);
      if e.op.Create? && e.appointment in t.appointments then
        Saved(t, e.appointment, t.appointments[e.appointment].(event := answer.id), [])
      else t
    else t.(outbox := t.outbox[k := Attempted(e)])
  }

  /** Claiming the oldest pending entry and projecting it; nothing happens on an empty queue. */
  ghost function Dispatch(w: World, outcome: Outcome, newId: Id): World {
    var k := FirstPending(w.tables.outbox);
    if k == |w.tables.outbox| then w.(now := w.now + 1)
    else
      var answer := Call(w.tables, w.events, w.tables.outbox[k], newId, w.now + 1);
      World(TablesAfter(w.tables, k, answer, outcome), EventsAfter(w.events, answer, outcome), w.now + 1)
  }

  // ---------- Edits and polls ----------

  datatype Edit = Move(range: TimeRange) | MakeAllDay | Describe(text: Option<string>) | Decline | Accept | Remove

  function Edited(event: Event, edit: Edit, now: int): Event {
    var event := event.(updatedAt := now, unpolled := true);
    match edit
    case Move(range) => event.(range := Some(range))
    case MakeAllDay => event.(range := None)
    case Describe(text) => event.(details := text, described := true)
    case Decline => event.(declined := true)
    case Accept => event.(declined := false)
    case Remove => event.(life := Removed)
  }

  function ChangeOf(event: Event): Change {
    Change(event.uid, !event.life.Live?, event.declined, event.range, event.updatedAt)
  }

  ghost function Poll(w: World, x: Id, allowed: bool): World
    requires x in w.events
  {
    var (t, _) := Reconcile(w.tables, ChangeOf(w.events[x]), allowed, w.now + 1);
    World(t, w.events[x := w.events[x].(unpolled := false)], w.now + 1)
  }

  // ---------- Steps and runs ----------

  datatype Step =
    | OpenCall(call: Id)
    | BookIt(appointment: Id, call: Id, technician: Id, customer: Id, range: TimeRange)
    | RescheduleIt(appointment: Id, range: TimeRange)
    | AddDetailsTo(appointment: Id, text: string)
    | CancelIt(appointment: Id)
    | DispatchOne(outcome: Outcome, newId: Id)
    | EditEvent(event: Id, edit: Edit)
    | PollEvent(event: Id, allowed: bool)

  /** New ids are new, ranges are non-empty, and a guest can only edit a live event. */
  predicate Possible(w: World, step: Step) {
    match step
    case OpenCall(c) => c !in w.tables.calls
    case BookIt(a, _, _, _, range) => a !in w.tables.appointments && range.Valid()
    case RescheduleIt(_, range) => range.Valid()
    case DispatchOne(_, newId) => newId !in w.events
    case EditEvent(x, edit) => x in w.events && w.events[x].life.Live? && (edit.Move? ==> edit.range.Valid())
    case PollEvent(x, _) => x in w.events
    case _ => true
  }

  /** A committed use case replaces the tables, a refused one leaves them. */
  function Committed(w: World, t: Option<Tables>): World {
    World(if t.Some? then t.value else w.tables, w.events, w.now + 1)
  }

  ghost function Next(w: World, step: Step): World
    requires Possible(w, step)
  {
    match step
    case OpenCall(c) => Committed(w, Some(w.tables.(calls := w.tables.calls[c := CallOpen])))
    case BookIt(a, c, technician, customer, range) =>
      Committed(w, Book(w.tables, a, c, technician, customer, range, w.now + 1))
    case RescheduleIt(a, range) => Committed(w, Reschedule(w.tables, a, range, w.now + 1))
    case AddDetailsTo(a, text) => Committed(w, AddDetails(w.tables, a, text, w.now + 1))
    case CancelIt(a) => Committed(w, Cancel(w.tables, a, w.now + 1))
    case DispatchOne(outcome, newId) => Dispatch(w, outcome, newId)
    case EditEvent(x, edit) => w.(events := w.events[x := Edited(w.events[x], edit, w.now + 1)], now := w.now + 1)
    case PollEvent(x, allowed) => Poll(w, x, allowed)
  }

  /** The world after a run from an empty store; a step that is not possible does not happen. */
  ghost function After(run: seq<Step>, start: int): World {
    if run == [] then World(Tables(map[], map[], [], []), map[], start)
    else
      var w := After(run[..|run| - 1], start);
      if Possible(w, run[|run| - 1]) then Next(w, run[|run| - 1]) else w
  }
}
