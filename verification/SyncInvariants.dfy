/**
 What every step of the two-way sync keeps, whatever the calendar and the guests do.
 */
module SyncInvariants {
  import opened Strings
  import opened Time
  import opened Scheduling
  import opened BookingInvariants
  import opened CalendarSync

  // ---------- What the outbox still owes ----------

  predicate Owed(e: Entry, op: Operation, a: Id) {
    e.op == op && e.appointment == a && e.status != Processed
  }

  /** An unfinished entry, pending or dead-lettered, of that operation for the appointment. */
  ghost predicate Owes(t: Tables, op: Operation, a: Id) {
    exists e :: e in t.outbox && Owed(e, op, a)
  }

  predicate DeleteOf(e: Entry, a: Id) {
    e.op.Delete? && e.appointment == a
  }

  ghost predicate HasDelete(t: Tables, a: Id) {
    exists e :: e in t.outbox && DeleteOf(e, a)
  }

  /** The Delete entry recorded an event id when the appointment was cancelled. */
  ghost predicate CapturedId(t: Tables, a: Id) {
    exists e :: e in t.outbox && DeleteOf(e, a) && e.event.Some?
  }

  // ---------- The invariants ----------

  predicate EventSound(t: Tables, x: Id, event: Event, now: int) {
    && event.uid in t.appointments
    && event.calendar == t.appointments[event.uid].technician
    && event.updatedAt <= now
    && (event.range.Some? ==> event.range.value.Valid())
    && (t.appointments[event.uid].event.Some? ==> t.appointments[event.uid].event == Some(x))
  }

  ghost predicate EventsSound(w: World) {
    forall x :: x in w.events ==> EventSound(w.tables, x, w.events[x], w.now)
  }

  /** An iCalUID names at most one event. */
  ghost predicate OneEventEach(w: World) {
    forall x, y :: x in w.events && y in w.events && w.events[x].uid == w.events[y].uid ==> x == y
  }

  /** A recorded event id is the appointment's own event; until one is recorded a Create is owed. */
  ghost predicate Linked(w: World) {
    forall a :: a in w.tables.appointments ==>
      match w.tables.appointments[a].event
      case Some(x) => x in w.events && w.events[x].uid == a
      case None => Owes(w.tables, Create, a)
  }

  predicate Standing(event: Event) {
    event.life.Live? && !event.declined
  }

  predicate Matches(event: Event, row: AppointmentRow) {
    Standing(event) && event.range == Some(row.range)
  }

  predicate AllDay(event: Event) {
    Standing(event) && event.range.None?
  }

  /** A guest's edit the database has yet to see and will not discard as stale. */
  predicate Unseen(event: Event, row: AppointmentRow) {
    event.unpolled && event.updatedAt > row.updatedAt
  }

  ghost predicate InStep(t: Tables, event: Event) {
    event.uid in t.appointments && t.appointments[event.uid].Active() ==>
      var row := t.appointments[event.uid];
      Matches(event, row) || AllDay(event) || Unseen(event, row) || Owes(t, Update, event.uid)
  }

  ghost predicate Told(t: Tables, event: Event) {
    event.uid in t.appointments && t.appointments[event.uid].Active() ==>
      event.described || event.details == t.appointments[event.uid].details || Owes(t, Update, event.uid)
  }

  /** No lost projection: an active appointment's event shows its row, or an Update is owed, or a
      guest's edit is unseen, or a guest turned the event into an all-day one. */
  ghost predicate NothingLost(w: World) {
    forall x :: x in w.events ==> InStep(w.tables, w.events[x]) && Told(w.tables, w.events[x])
  }

  predicate DeleteTook(e: Entry, event: Event) {
    e.op.Delete? && e.event.Some? && e.status == Processed ==> !event.life.Live?
  }

  /** A finished Delete that had an id took its event away, and only such a Delete deletes. */
  ghost predicate DeletesStand(w: World) {
    && (forall x, e :: x in w.events && e in w.tables.outbox && e.appointment == w.events[x].uid ==>
        DeleteTook(e, w.events[x]))
    && (forall x :: x in w.events && w.events[x].life.Deleted? ==> CapturedId(w.tables, w.events[x].uid))
  }

  ghost predicate RemovedBy(events: map<Id, Event>, a: Id) {
    exists x :: x in events && events[x].uid == a && events[x].life.Removed?
  }

  /** A cancelled appointment has a Delete entry, or a guest removed its event. */
  ghost predicate CancelsAccounted(w: World) {
    forall a :: a in w.tables.appointments && !w.tables.appointments[a].Active() ==>
      HasDelete(w.tables, a) || RemovedBy(w.events, a)
  }

  ghost predicate Invariant(w: World) {
    && Sound(w.tables, w.now)
    && EventsSound(w) && OneEventEach(w) && Linked(w)
    && NothingLost(w) && DeletesStand(w) && CancelsAccounted(w)
  }

  // ---------- Use cases: events stand still ----------

  ghost predicate Grows(t: Tables, u: Tables) {
    && (forall e :: e in t.outbox ==> e in u.outbox)
    && (forall e :: e in u.outbox && e !in t.outbox ==> e.status == Pending)
  }

  ghost predicate RowKept(t: Tables, u: Tables, a: Id)
    requires a in t.appointments
  {
    && a in u.appointments
    && u.appointments[a].technician == t.appointments[a].technician
    && u.appointments[a].event == t.appointments[a].event
    && (u.appointments[a].Active() ==> t.appointments[a].Active())
  }

  ghost predicate RowBorn(u: Tables, a: Id)
    requires a in u.appointments
  {
    u.appointments[a].Active() && u.appointments[a].event.None? && Owes(u, Create, a)
  }

  ghost predicate TablesStep(t: Tables, u: Tables) {
    && Grows(t, u)
    && (forall a :: a in t.appointments ==> RowKept(t, u, a))
    && (forall a :: a in u.appointments && a !in t.appointments ==> RowBorn(u, a))
  }

  /** A change to a row still active owes an Update; a row only just cancelled has its Delete. */
  ghost predicate RowAnswered(t: Tables, u: Tables, a: Id)
    requires a in t.appointments && a in u.appointments
  {
    if u.appointments[a].Active() then u.appointments[a] == t.appointments[a] || Owes(u, Update, a)
    else !t.appointments[a].Active() || HasDelete(u, a)
  }

  ghost predicate UseCaseStep(t: Tables, u: Tables) {
    TablesStep(t, u) && forall a :: a in t.appointments ==> RowAnswered(t, u, a)
  }

  lemma GrowingKeepsDebts(t: Tables, u: Tables)
    requires Grows(t, u)
    ensures forall op, a :: Owes(t, op, a) ==> Owes(u, op, a)
    ensures forall a :: (HasDelete(t, a) ==> HasDelete(u, a)) && (CapturedId(t, a) ==> CapturedId(u, a))
  {
  }

  lemma UseCaseKeepsInvariant(w: World, u: Tables)
    requires Invariant(w) && UseCaseStep(w.tables, u) && Sound(u, w.now + 1)
    ensures Invariant(World(u, w.events, w.now + 1))
  {
    hide EntriesSound, RowsSound, NoDoubleBooking, BookedOnce, Matches, AllDay, Unseen, Owes, HasDelete, CapturedId,
         DeleteTook;
    var v := World(u, w.events, w.now + 1);
    GrowingKeepsDebts(w.tables, u);
    TablesStepKeepsEvents(w, u);
    assert NothingLost(v);
    assert CancelsAccounted(v);
  }

  lemma TablesStepKeepsEvents(w: World, u: Tables)
    requires Invariant(w) && TablesStep(w.tables, u)
    ensures var v := World(u, w.events, w.now + 1);
      EventsSound(v) && OneEventEach(v) && Linked(v) && DeletesStand(v)
  {
    hide Owes, InStep, Told;
    GrowingKeepsDebts(w.tables, u);
    DeletedMeansCancelled(w);
  }

  lemma DeletedMeansCancelled(w: World)
    requires EventsSound(w) && DeletesStand(w) && EntriesSound(w.tables)
    ensures forall x :: x in w.events && w.events[x].life.Deleted? ==> !w.tables.appointments[w.events[x].uid].Active()
  {
  }

  lemma UseCasesStep(t: Tables, step: Step, now: int)
    ensures step.BookIt? && step.appointment !in t.appointments ==>
      var u := Book(t, step.appointment, step.call, step.technician, step.customer, step.range, now);
      u.Some? ==> UseCaseStep(t, u.value)
    ensures step.RescheduleIt? ==>
      var u := Reschedule(t, step.appointment, step.range, now); u.Some? ==> UseCaseStep(t, u.value)
    ensures step.AddDetailsTo? ==>
      var u := AddDetails(t, step.appointment, step.text, now); u.Some? ==> UseCaseStep(t, u.value)
    ensures step.CancelIt? ==>
      var u := Cancel(t, step.appointment, now); u.Some? ==> UseCaseStep(t, u.value)
  {
    hide Conflict;
    var op := if step.BookIt? then Create else if step.CancelIt? then Delete else Update;
    var a := match step
      case BookIt(a, _, _, _, _) => a
      case RescheduleIt(a, _) => a
      case AddDetailsTo(a, _) => a
      case CancelIt(a) => a
      case _ => 0;
    var event := if op.Delete? && a in t.appointments then t.appointments[a].event else None;
    EnqueueGrows(t, op, a, event);
  }

  lemma EnqueueGrows(t: Tables, op: Operation, a: Id, event: Option<Id>)
    ensures var u := Enqueued(t, op, a, event);
      && (forall e :: e in t.outbox ==> e in u.outbox)
      && (forall e :: e in u.outbox && e !in t.outbox ==> e == Entry(op, a, event, Pending, 0))
      && (op.Delete? ==> HasDelete(u, a))
      && Owes(u, op, a)
  {
    var u := Enqueued(t, op, a, event);
    var e := Entry(op, a, event, Pending, 0);
    assert e in u.outbox && Owed(e, op, a);
    assert op.Delete? ==> DeleteOf(e, a);
  }

  // ---------- One event changes ----------

  /** What may happen to an event without the dispatcher: it can be removed, never deleted or restored. */
  predicate EventStep(event: Event, after: Event, now: int) {
    && after.uid == event.uid && after.calendar == event.calendar
    && after.updatedAt <= now
    && (after.range.Some? ==> after.range.value.Valid())
    && (after.life == event.life || (event.life.Live? && after.life.Removed?))
  }

  lemma EventStepKeepsInvariant(w: World, x: Id, after: Event, now: int)
    requires Invariant(w) && x in w.events && w.now <= now && EventStep(w.events[x], after, now)
    requires InStep(w.tables, after) && Told(w.tables, after)
    ensures Invariant(World(w.tables, w.events[x := after], now))
  {
    hide EntriesSound, NoDoubleBooking, BookedOnce, InStep, Told, Owes, HasDelete, RemovedBy;
    var v := World(w.tables, w.events[x := after], now);
    RemovalIsKept(w.events, x, after);
    assert EventsSound(v);
    assert Linked(v);
    assert NothingLost(v);
    assert DeletesStand(v);
    assert CancelsAccounted(v);
  }

  lemma RemovalIsKept(events: map<Id, Event>, x: Id, after: Event)
    requires x in events && events[x].uid == after.uid && (events[x].life.Removed? ==> after.life.Removed?)
    ensures forall a :: RemovedBy(events, a) ==> RemovedBy(events[x := after], a)
  {
    forall a | RemovedBy(events, a) ensures RemovedBy(events[x := after], a) {
      var y :| y in events && events[y].uid == a && events[y].life.Removed?;
      assert events[x := after][y].uid == a;
    }
  }

  lemma EditKeepsInvariant(w: World, x: Id, edit: Edit)
    requires Invariant(w) && Possible(w, EditEvent(x, edit))
    ensures Invariant(Next(w, EditEvent(x, edit)))
  {
    hide Invariant, InStep, Told, Edited, EventStep;
    var after := Edited(w.events[x], edit, w.now + 1);
    EditIsUnseen(w, x, edit);
    EventStepKeepsInvariant(w, x, after, w.now + 1);
    assert Next(w, EditEvent(x, edit)) == World(w.tables, w.events[x := after], w.now + 1);
  }

  lemma EditIsUnseen(w: World, x: Id, edit: Edit)
    requires Invariant(w) && Possible(w, EditEvent(x, edit))
    ensures var after := Edited(w.events[x], edit, w.now + 1);
      InStep(w.tables, after) && Told(w.tables, after) && EventStep(w.events[x], after, w.now + 1)
  {
    hide Linked, OneEventEach, DeletesStand, CancelsAccounted, BookedOnce, NoDoubleBooking, EntriesSound, Owes,
         Matches, AllDay;
    var event := w.events[x];
    assert EventSound(w.tables, x, event, w.now) && Told(w.tables, event);
  }

  // ---------- Polls ----------

  /** What a poll must leave behind before the edit counts as seen. */
  ghost predicate Seen(t: Tables, event: Event) {
    event.uid in t.appointments && t.appointments[event.uid].Active() ==>
      var row := t.appointments[event.uid];
      Matches(event, row) || AllDay(event) || event.updatedAt <= row.updatedAt || Owes(t, Update, event.uid)
  }

  lemma MarkSeenKeepsInvariant(w: World, x: Id, now: int)
    requires Invariant(w) && x in w.events && Seen(w.tables, w.events[x]) && w.now <= now
    ensures Invariant(World(w.tables, w.events[x := w.events[x].(unpolled := false)], now))
  {
    assert EventSound(w.tables, x, w.events[x], w.now);
    assert InStep(w.tables, w.events[x]) && Told(w.tables, w.events[x]);
    EventStepKeepsInvariant(w, x, w.events[x].(unpolled := false), now);
  }

  /** An event's own appointment was cancelled because a guest removed the event. */
  lemma CancelByRemovalKeepsInvariant(w: World, x: Id)
    requires Invariant(w) && x in w.events && !w.events[x].life.Live?
    requires w.tables.appointments[w.events[x].uid].Active()
    ensures var u := CancelledAt(w.tables, w.events[x].uid, w.now + 1);
      Invariant(World(u, w.events, w.now + 1))
  {
    hide InStep, Told, Linked, EntriesSound, NoDoubleBooking, BookedOnce, RowsSound, Owes, HasDelete;
    var a := w.events[x].uid;
    var u := CancelledAt(w.tables, a, w.now + 1);
    CancelKeepsSound(w.tables, a, w.now + 1, w.now);
    DeletedMeansCancelled(w);
    TablesStepKeepsEvents(w, u);
    OneRowChanges(w, u, a);
  }

  /** The database took over the event's time. */
  lemma MoveByEditKeepsInvariant(w: World, x: Id, range: TimeRange)
    requires Invariant(w) && x in w.events && Standing(w.events[x]) && w.events[x].range == Some(range)
    requires w.tables.appointments[w.events[x].uid].Active()
    requires Sound(MovedTo(w.tables, w.events[x].uid, range, w.now + 1), w.now + 1)
    ensures var u := MovedTo(w.tables, w.events[x].uid, range, w.now + 1);
      Invariant(World(u, w.events, w.now + 1))
  {
    hide EntriesSound, NoDoubleBooking, BookedOnce, RowsSound, Owes, Linked, HasDelete;
    var a := w.events[x].uid;
    var u := MovedTo(w.tables, a, range, w.now + 1);
    TablesStepKeepsEvents(w, u);
    OneRowChanges(w, u, a);
    SameDebts(w.tables, u);
    assert Told(w.tables, w.events[x]);
  }

  lemma SameDebts(t: Tables, u: Tables)
    requires u.outbox == t.outbox
    ensures forall op, a :: Owes(t, op, a) <==> Owes(u, op, a)
    ensures forall a :: HasDelete(t, a) <==> HasDelete(u, a)
  {
  }

  lemma OneRowChanges(w: World, u: Tables, a: Id)
    requires a in w.tables.appointments && a in u.appointments
    requires u.outbox == w.tables.outbox && u.appointments == w.tables.appointments[a := u.appointments[a]]
    requires NothingLost(w) && CancelsAccounted(w)
    ensures forall x :: x in w.events && w.events[x].uid != a ==> InStep(u, w.events[x]) && Told(u, w.events[x])
    ensures forall x :: x in w.events && w.events[x].uid == a && !u.appointments[a].Active() ==>
        InStep(u, w.events[x]) && Told(u, w.events[x])
    ensures forall b :: b in u.appointments && b != a && !u.appointments[b].Active() ==>
        HasDelete(u, b) || RemovedBy(w.events, b)
  {
  }

  lemma PollKeepsInvariant(w: World, x: Id, allowed: bool)
    requires Invariant(w) && x in w.events
    ensures Invariant(Poll(w, x, allowed))
  {
    hide Invariant, Seen, Reconcile;
    var u := Reconcile(w.tables, ChangeOf(w.events[x]), allowed, w.now + 1).0;
    ReconcileIsSeen(w, x, allowed);
    MarkSeenKeepsInvariant(World(u, w.events, w.now + 1), x, w.now + 1);
  }

  lemma ReconcileIsSeen(w: World, x: Id, allowed: bool)
    requires Invariant(w) && x in w.events
    ensures var u := Reconcile(w.tables, ChangeOf(w.events[x]), allowed, w.now + 1).0;
      Invariant(World(u, w.events, w.now + 1)) && Seen(u, w.events[x])
  {
    hide EntriesSound, NoDoubleBooking, BookedOnce, Conflict, Owes, HasDelete, Linked, NothingLost, DeletesStand,
         CancelsAccounted, OneEventEach;
    var c := ChangeOf(w.events[x]);
    var a := c.appointment;
    var (u, _) := Reconcile(w.tables, c, allowed, w.now + 1);
    assert EventSound(w.tables, x, w.events[x], w.now);
    ReconcileKeepsSound(w.tables, c, allowed, w.now + 1, w.now);
    if c.updatedAt > w.tables.appointments[a].updatedAt && w.tables.appointments[a].Active() {
      if c.cancelled {
        CancelByRemovalKeepsInvariant(w, x);
      } else if c.declined {
        EnqueueGrows(CancelledAt(w.tables, a, w.now + 1), Delete, a, w.tables.appointments[a].event);
        UseCaseKeepsInvariant(w, u);
      } else if u.appointments[a].range != w.tables.appointments[a].range {
        MoveByEditKeepsInvariant(w, x, c.range.value);
      } else {
        EnqueueGrows(w.tables, Update, a, None);
        UseCaseKeepsInvariant(w, u);
      }
    } else {
      UseCaseKeepsInvariant(w, u);
    }
  }

  // ---------- Dispatches: first the calendar changes, then the tables ----------

  ghost predicate Claims(w: World, k: nat) {
    k < |w.tables.outbox| && w.tables.outbox[k].status == Pending
  }

  /** The row the claimed entry is about. */
  ghost function RowOf(w: World, k: nat): AppointmentRow
    requires Sound(w.tables, w.now) && Claims(w, k)
    ensures w.tables.outbox[k] in w.tables.outbox && EntrySound(w.tables, w.tables.outbox[k])
  {
    assert w.tables.outbox[k] in w.tables.outbox;
    w.tables.appointments[w.tables.outbox[k].appointment]
  }

  lemma InsertKeepsInvariant(w: World, k: nat, newId: Id)
    requires Invariant(w) && Claims(w, k) && newId !in w.events
    requires w.tables.outbox[k].op.Create?
    requires forall x :: !Holds(w.events, x, RowOf(w, k).technician, w.tables.outbox[k].appointment)
    ensures var event := Projected(w.tables.outbox[k].appointment, RowOf(w, k), w.now + 1);
      Invariant(World(w.tables, w.events[newId := event], w.now + 1))
  {
    hide NoDoubleBooking, BookedOnce, Owes, HasDelete, CapturedId, InStep, Told, RemovedBy;
    var a := w.tables.outbox[k].appointment;
    var event := Projected(a, RowOf(w, k), w.now + 1);
    var v := World(w.tables, w.events[newId := event], w.now + 1);
    NoEventYet(w, a);
    InsertIsInStep(w.tables, a, w.now + 1);
    assert EventsSound(v);
    assert OneEventEach(v);
    assert Linked(v);
    assert NothingLost(v);
    assert DeletesStand(v);
    InsertKeepsRemovals(w, newId, event);
  }

  lemma NoEventYet(w: World, a: Id)
    requires Invariant(w) && a in w.tables.appointments
    requires forall x :: !Holds(w.events, x, w.tables.appointments[a].technician, a)
    ensures w.tables.appointments[a].event.None?
    ensures forall x :: x in w.events ==> w.events[x].uid != a
    ensures forall e :: e in w.tables.outbox && e.appointment == a ==> e.event.None?
  {
    hide NoDoubleBooking, BookedOnce, RowsSound, Owes, HasDelete, CapturedId, InStep, Told, RemovedBy;
    forall x | x in w.events ensures w.events[x].uid != a {
      assert EventSound(w.tables, x, w.events[x], w.now);
      assert !Holds(w.events, x, w.tables.appointments[a].technician, a);
    }
  }

  lemma InsertIsInStep(t: Tables, a: Id, now: int)
    requires a in t.appointments
    ensures var event := Projected(a, t.appointments[a], now); InStep(t, event) && Told(t, event)
  {
  }

  lemma InsertKeepsRemovals(w: World, newId: Id, event: Event)
    requires CancelsAccounted(w) && newId !in w.events
    ensures CancelsAccounted(World(w.tables, w.events[newId := event], w.now + 1))
  {
    forall a | RemovedBy(w.events, a) ensures RemovedBy(w.events[newId := event], a) {
      var y :| y in w.events && w.events[y].uid == a && w.events[y].life.Removed?;
      assert w.events[newId := event][y].uid == a;
    }
  }

  lemma UpdateKeepsInvariant(w: World, k: nat, x: Id)
    requires Invariant(w) && Claims(w, k)
    requires RowOf(w, k).event == Some(x)
    requires UpdateEvent(w.events, x, RowOf(w, k), w.now + 1).Answered?
    ensures var events := UpdateEvent(w.events, x, RowOf(w, k), w.now + 1).events;
      Invariant(World(w.tables, events, w.now + 1)) && x in events
      && events[x].uid == w.tables.outbox[k].appointment && Matches(events[x], RowOf(w, k))
      && events[x].details == RowOf(w, k).details
  {
    hide NoDoubleBooking, BookedOnce, Owes, HasDelete, CapturedId, DeletesStand, NothingLost, CancelsAccounted,
         OneEventEach;
    var events := UpdateEvent(w.events, x, RowOf(w, k), w.now + 1).events;
    assert w.events[x].uid == w.tables.outbox[k].appointment;
    EventStepKeepsInvariant(w, x, events[x], w.now + 1);
  }

  lemma DeleteKeepsInvariant(w: World, k: nat, x: Id)
    requires Invariant(w) && Claims(w, k)
    requires w.tables.outbox[k].op.Delete? && w.tables.outbox[k].event == Some(x)
    requires DeleteEvent(w.events, x, w.now + 1).Answered?
    ensures var events := DeleteEvent(w.events, x, w.now + 1).events;
      Invariant(World(w.tables, events, w.now + 1)) && x in events && !events[x].life.Live?
  {
    hide NoDoubleBooking, BookedOnce, Owes, HasDelete, CapturedId, RemovedBy;
    var e := w.tables.outbox[k];
    var v := World(w.tables, DeleteEvent(w.events, x, w.now + 1).events, w.now + 1);
    assert EntrySound(w.tables, e);
    assert w.events[x].uid == e.appointment;
    CapturedBy(w.tables, e);
    assert EventsSound(v);
    assert Linked(v);
    assert NothingLost(v);
    assert DeletesStand(v);
    RemovalIsKept(w.events, x, v.events[x]);
    assert CancelsAccounted(v);
  }

  lemma CapturedBy(t: Tables, e: Entry)
    requires e in t.outbox && e.op.Delete? && e.event.Some?
    ensures CapturedId(t, e.appointment)
  {
  }

  /** u is t with entry k replaced by `after`, which is about the same thing. */
  ghost predicate EntryStep(t: Tables, u: Tables, k: nat, after: Entry) {
    && k < |t.outbox| && u.outbox == t.outbox[k := after]
    && after.op == t.outbox[k].op && after.appointment == t.outbox[k].appointment && after.event == t.outbox[k].event
  }

  lemma EntryStepKeepsDebts(t: Tables, u: Tables, k: nat, after: Entry)
    requires EntryStep(t, u, k, after)
    ensures forall op, a ::
        Owes(t, op, a) && !(after.status == Processed && op == after.op && a == after.appointment) ==> Owes(u, op, a)
    ensures forall a :: HasDelete(t, a) ==> HasDelete(u, a)
    ensures forall a :: CapturedId(t, a) ==> CapturedId(u, a)
    ensures forall e :: e in u.outbox ==> e in t.outbox || e == after
  {
    forall i | 0 <= i < |t.outbox| ensures u.outbox[i] in u.outbox && (i != k ==> t.outbox[i] == u.outbox[i]) {
    }
    assert after == u.outbox[k];
  }

  lemma FailureKeepsInvariant(w: World, k: nat)
    requires Invariant(w) && Claims(w, k)
    ensures Invariant(w.(tables := w.tables.(outbox := w.tables.outbox[k := Attempted(w.tables.outbox[k])])))
  {
    hide NoDoubleBooking, Owes, HasDelete, CapturedId, RemovedBy, Matches, AllDay, Unseen;
    var after := Attempted(w.tables.outbox[k]);
    var u := w.tables.(outbox := w.tables.outbox[k := after]);
    var v := w.(tables := u);
    EntryStepKeepsDebts(w.tables, u, k, after);
    SameRowsApart(w.tables, u);
    assert EntrySound(u, after) by { assert EntrySound(w.tables, w.tables.outbox[k]); }
    assert Sound(u, w.now);
    assert EventsSound(v);
    assert NothingLost(v);
    assert DeletesStand(v);
  }

  lemma SameRowsApart(t: Tables, u: Tables)
    requires NoDoubleBooking(t) && u.appointments == t.appointments
    ensures NoDoubleBooking(u)
  {
  }

  ghost function CompletedAt(t: Tables, k: nat): Tables
    requires k < |t.outbox|
  {
    t.(outbox := t.outbox[k := Completed(t.outbox[k])])
  }

  ghost function CreateDone(w: World, k: nat, x: Id): Tables
    requires Sound(w.tables, w.now) && Claims(w, k)
  {
    Saved(CompletedAt(w.tables, k), w.tables.outbox[k].appointment, RowOf(w, k).(event := Some(x)), [])
  }

  /** A Create is done once the appointment's own event is recorded. */
  lemma CreateDoneKeepsInvariant(w: World, k: nat, x: Id)
    requires Invariant(w) && Claims(w, k) && w.tables.outbox[k].op.Create?
    requires x in w.events && w.events[x].uid == w.tables.outbox[k].appointment
    ensures Invariant(w.(tables := CreateDone(w, k, x)))
  {
    hide EntriesSound, NoDoubleBooking, BookedOnce, RowsSound, Owes, HasDelete, CapturedId, RemovedBy, InStep, Told;
    var after := Completed(w.tables.outbox[k]);
    var u := CreateDone(w, k, x);
    var v := w.(tables := u);
    EntryStepKeepsDebts(w.tables, u, k, after);
    RecordingKeepsSound(w, k, x);
    RecordingKeepsViews(w, k, x);
    assert EventsSound(v);
    assert Linked(v);
    assert DeletesStand(v);
    assert CancelsAccounted(v);
  }

  lemma RecordingKeepsSound(w: World, k: nat, x: Id)
    requires Invariant(w) && Claims(w, k) && w.tables.outbox[k].op.Create?
    requires x in w.events && w.events[x].uid == w.tables.outbox[k].appointment
    ensures Sound(CreateDone(w, k, x), w.now)
  {
    hide NothingLost, DeletesStand, CancelsAccounted, Owes;
    var after := Completed(w.tables.outbox[k]);
    var u := CreateDone(w, k, x);
    EntryStepKeepsDebts(w.tables, u, k, after);
    assert RowOf(w, k).event.Some? ==> RowOf(w, k).event == Some(x);
  }

  lemma RecordingKeepsViews(w: World, k: nat, x: Id)
    requires Invariant(w) && Claims(w, k) && w.tables.outbox[k].op.Create?
    ensures NothingLost(w.(tables := CreateDone(w, k, x)))
  {
    hide EntriesSound, NoDoubleBooking, BookedOnce, RowsSound, Owes, DeletesStand, CancelsAccounted, Linked,
         EventsSound, OneEventEach;
    var after := Completed(w.tables.outbox[k]);
    var u := CreateDone(w, k, x);
    EntryStepKeepsDebts(w.tables, u, k, after);
    forall y | y in w.events ensures InStep(u, w.events[y]) && Told(u, w.events[y]) {
      assert InStep(w.tables, w.events[y]) && Told(w.tables, w.events[y]);
    }
  }

  /** An Update is done once the event shows the row. */
  lemma UpdateDoneKeepsInvariant(w: World, k: nat, x: Id)
    requires Invariant(w) && Claims(w, k) && w.tables.outbox[k].op.Update?
    requires x in w.events && w.events[x].uid == w.tables.outbox[k].appointment
    requires Matches(w.events[x], RowOf(w, k)) && w.events[x].details == RowOf(w, k).details
    ensures Invariant(w.(tables := CompletedAt(w.tables, k)))
  {
    hide Owes, HasDelete, CapturedId, RemovedBy, NoDoubleBooking;
    var after := Completed(w.tables.outbox[k]);
    var u := CompletedAt(w.tables, k);
    var v := w.(tables := u);
    EntryStepKeepsDebts(w.tables, u, k, after);
    SameRowsApart(w.tables, u);
    assert Sound(u, w.now);
    assert Linked(v);
    assert NothingLost(v);
    assert DeletesStand(v);
    assert CancelsAccounted(v);
  }

  /** A Delete is done once its event is gone, or at once when it captured none. */
  lemma DeleteDoneKeepsInvariant(w: World, k: nat)
    requires Invariant(w) && Claims(w, k) && w.tables.outbox[k].op.Delete?
    requires var x := w.tables.outbox[k].event; x.Some? ==> x.value in w.events && !w.events[x.value].life.Live?
    ensures Invariant(w.(tables := CompletedAt(w.tables, k)))
  {
    hide Owes, HasDelete, CapturedId, RemovedBy, NoDoubleBooking;
    var after := Completed(w.tables.outbox[k]);
    var u := CompletedAt(w.tables, k);
    var v := w.(tables := u);
    EntryStepKeepsDebts(w.tables, u, k, after);
    SameRowsApart(w.tables, u);
    assert RowOf(w, k).event == RowOf(w, k).event;
    assert Sound(u, w.now);
    assert Linked(v);
    assert NothingLost(v);
    assert DeletesStand(v);
    assert CancelsAccounted(v);
  }

  // ---------- A whole dispatch ----------

  lemma TimeKeepsInvariant(w: World)
    requires Invariant(w)
    ensures Invariant(w.(now := w.now + 1))
  {
    assert Sound(w.tables, w.now + 1);
    UseCaseKeepsInvariant(w, w.tables);
  }

  /** What the calendar did for entry k when it answered. */
  ghost predicate Answers(w: World, k: nat, answer: Answer)
    requires Sound(w.tables, w.now) && Claims(w, k)
  {
    answer.Answered? ==>
      match w.tables.outbox[k].op
      case Create => answer.id.Some? && answer.id.value in answer.events
          && answer.events[answer.id.value].uid == w.tables.outbox[k].appointment
      case Update => exists x :: x in answer.events && answer.events[x].uid == w.tables.outbox[k].appointment
                                 && Matches(answer.events[x], RowOf(w, k))
                                 && answer.events[x].details == RowOf(w, k).details
      case Delete => w.tables.outbox[k].event.Some? ==>
        w.tables.outbox[k].event.value in answer.events && !answer.events[w.tables.outbox[k].event.value].life.Live?
  }

  lemma CallKeepsInvariant(w: World, k: nat, newId: Id)
    requires Invariant(w) && Claims(w, k) && newId !in w.events
    ensures var answer := Call(w.tables, w.events, w.tables.outbox[k], newId, w.now + 1);
      Answers(w, k, answer) && (answer.Answered? ==> Invariant(World(w.tables, answer.events, w.now + 1)))
  {
    hide Sound, EventsSound, OneEventEach, Linked, NothingLost, DeletesStand, CancelsAccounted, Holds, Matches,
         UpdateEvent, DeleteEvent;
    var e := w.tables.outbox[k];
    var row := RowOf(w, k);
    TimeKeepsInvariant(w);
    var answer := Call(w.tables, w.events, e, newId, w.now + 1);
    match e.op
    case Create =>
      if exists x :: Holds(w.events, x, row.technician, e.appointment) {
        RecoveredIsOwn(w.events, e.appointment, row, newId, w.now + 1);
      } else {
        InsertKeepsInvariant(w, k, newId);
      }
    case Update =>
      if answer.Answered? {
        UpdateKeepsInvariant(w, k, row.event.value);
      }
    case Delete =>
      if answer.Answered? && e.event.Some? {
        DeleteKeepsInvariant(w, k, e.event.value);
      }
  }

  lemma RecoveredIsOwn(events: map<Id, Event>, a: Id, row: AppointmentRow, newId: Id, now: int)
    requires exists x :: Holds(events, x, row.technician, a)
    ensures var answer := CreateEvent(events, a, row, newId, now);
      answer.Answered? ==>
          answer.events == events && answer.id.Some? && answer.id.value in events && events[answer.id.value].uid == a
  {
  }

  lemma OutcomeKeepsInvariant(w: World, v: World, k: nat, answer: Answer, outcome: Outcome)
    requires Invariant(w) && Claims(w, k) && Answers(w, k, answer)
    requires v.tables == w.tables && Invariant(v) && v.events == EventsAfter(w.events, answer, outcome)
    ensures Invariant(v.(tables := TablesAfter(w.tables, k, answer, outcome)))
  {
    hide Sound, EventsSound, OneEventEach, Linked, NothingLost, DeletesStand, CancelsAccounted, Matches, Attempted,
         Completed;
    var e := w.tables.outbox[k];
    var row := RowOf(v, k);
    if !outcome.Crashed? {
      if Succeeds(e, answer, outcome) {
        match e.op
        case Create => CreateDoneKeepsInvariant(v, k, answer.id.value);
        case Update =>
          var x :| x in answer.events && answer.events[x].uid == e.appointment
                   && Matches(answer.events[x], RowOf(w, k)) && answer.events[x].details == RowOf(w, k).details;
          UpdateDoneKeepsInvariant(v, k, x);
        case Delete => DeleteDoneKeepsInvariant(v, k);
      } else {
        FailureKeepsInvariant(v, k);
      }
    }
  }

  lemma DispatchKeepsInvariant(w: World, outcome: Outcome, newId: Id)
    requires Invariant(w) && newId !in w.events
    ensures Invariant(Dispatch(w, outcome, newId))
  {
    hide Invariant, Answers, Call, TablesAfter;
    var k := FirstPending(w.tables.outbox);
    TimeKeepsInvariant(w);
    if k < |w.tables.outbox| {
      var answer := Call(w.tables, w.events, w.tables.outbox[k], newId, w.now + 1);
      CallKeepsInvariant(w, k, newId);
      OutcomeKeepsInvariant(w, World(w.tables, EventsAfter(w.events, answer, outcome), w.now + 1), k, answer, outcome);
    }
  }
}
