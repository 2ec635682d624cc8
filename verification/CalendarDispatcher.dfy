/**
 The calendar adapter and the dispatcher that projects the outbox, step by step over a session and
 a remote calendar, proved to do what CalendarSync says one dispatch and one run do.
 */
module CalendarDispatcher {
  import opened Strings
  import opened Scheduling
  import opened SchedulingService
  import opened CalendarSync
  import opened SyncTheorems

  datatype InsertReply = Inserted(id: Id) | DuplicateUid | InsertFailed

  /** No calendar holds two events with one iCalUID. */
  ghost predicate UniqueUids(events: map<Id, Event>) {
    forall x, y :: x in events && y in events && SameUid(events[x], events[y]) ==> x == y
  }

  predicate SameUid(e: Event, f: Event) {
    e.uid == f.uid && e.calendar == f.calendar
  }

  /** The technicians' calendars behind the API; each call is told how it will go. */
  class GoogleCalendar {
    var events: map<Id, Event>

    constructor ()
      ensures events == map[]
    {
      events := map[];
    }

    /** Rejects an event whose uid the calendar already holds, live or not. */
    method InsertEvent(event: Event, newId: Id, outcome: Outcome) returns (reply: InsertReply)
      modifies this
      ensures var taken := exists x :: Holds(old(events), x, event.calendar, event.uid);
        && events == (if taken || outcome.Refused? then old(events) else old(events)[newId := event])
        && reply == if outcome.Refused? then InsertFailed else if taken then DuplicateUid
                    else if outcome.Lost? then InsertFailed else Inserted(newId)
    {
      if outcome.Refused? {
        return InsertFailed;
      }
      var left := events.Keys;
      while left != {}
        invariant left <= events.Keys && events == old(events)
        invariant forall x :: x in events && x !in left ==> !Holds(events, x, event.calendar, event.uid)
        decreases |left|
      {
        var x :| x in left;
        left := left - {x};
        if Holds(events, x, event.calendar, event.uid) {
          return DuplicateUid;
        }
      }
      events := events[newId := event];
      return if outcome.Lost? then InsertFailed else Inserted(newId);
    }

    /** The live event that carries the uid, if any. */
    method FindEventIdByIcalUid(calendar: Id, uid: Id) returns (found: Option<Id>)
      ensures found.Some? ==> Holds(events, found.value, calendar, uid) && events[found.value].life.Live?
      ensures found.None? ==> forall x :: Holds(events, x, calendar, uid) ==> !events[x].life.Live?
    {
      var left := events.Keys;
      while left != {}
        invariant left <= events.Keys
        invariant forall x :: x in events && x !in left && Holds(events, x, calendar, uid) ==> !events[x].life.Live?
        decreases |left|
      {
        var x :| x in left;
        left := left - {x};
        if Holds(events, x, calendar, uid) && events[x].life.Live? {
          return Some(x);
        }
      }
      return None;
    }

    /** None means an error was raised. A duplicate insert recovers the event that holds the uid. */
    method CreateAppointmentEvent(a: Appointment, newId: Id, now: int, outcome: Outcome) returns (id: Option<Id>)
      requires UniqueUids(events)
      modifies this
      ensures var answer := old(CreateEvent(events, a.id, a.Row(), newId, now));
        && events == old(EventsAfter(events, answer, outcome))
        && id == if answer.Answered? && (outcome.Done? || outcome.Crashed?) then answer.id else None
    {
      var row := a.Row();
      var reply := InsertEvent(Projected(a.id, row, now), newId, outcome);
      match reply
      case Inserted(x) => return Some(x);
      case InsertFailed => return None;
      case DuplicateUid =>
        if outcome.Lost? {
          return None;
        }
        id := FindEventIdByIcalUid(row.technician, a.id);
    }

    /** False means an error was raised. */
    method UpdateAppointmentEvent(x: Id, a: Appointment, now: int, outcome: Outcome) returns (ok: bool)
      modifies this
      ensures var answer := old(UpdateEvent(events, x, a.Row(), now));
        && events == old(EventsAfter(events, answer, outcome))
        && ok == (answer.Answered? && (outcome.Done? || outcome.Crashed?))
    {
      if outcome.Refused? || x !in events || !events[x].life.Live? {
        return false;
      }
      events := events[x := events[x].(range := Some(a.range), details := a.details, declined := false,
                                       updatedAt := now, described := false)];
      return !outcome.Lost?;
    }

    /** False means an error was raised: deleting an event that is not live is one. */
    method DeleteEventById(x: Id, now: int, outcome: Outcome) returns (ok: bool)
      modifies this
      ensures var answer := old(DeleteEvent(events, x, now));
        && events == old(EventsAfter(events, answer, outcome))
        && ok == (answer.Answered? && (outcome.Done? || outcome.Crashed?))
    {
      if outcome.Refused? || x !in events || !events[x].life.Live? {
        return false;
      }
      events := events[x := events[x].(life := Deleted, updatedAt := now)];
      return !outcome.Lost?;
    }
  }

  // ---------- One entry ----------

  datatype Processing = EntryProcessed | QueueEmpty | EntryFailed | ProcessDied

  /** Makes the calendar call an entry asks for. False means an error was raised; a created or recovered
      event's id comes back. */
  method CallCalendar(g: GoogleCalendar, a: Appointment?, entry: Entry, newId: Id, now: int, outcome: Outcome,
                      ghost t: Tables)
    returns (ok: bool, id: Option<Id>)
    requires UniqueUids(g.events)
    requires a == null <==> entry.appointment !in t.appointments
    requires a != null ==> a.id == entry.appointment && a.Row() == t.appointments[entry.appointment]
    modifies g
    ensures var answer := Call(t, old(g.events), entry, newId, now);
      && g.events == EventsAfter(old(g.events), answer, outcome)
      && ok == (answer.Answered? && (outcome.Done? || outcome.Crashed? || NeedsNoCall(entry)))
      && (ok && entry.op.Create? ==> id == answer.id && id.Some?)
  {
    if a == null {
      return false, None;
    }
    match entry.op
    case Create =>
      id := g.CreateAppointmentEvent(a, newId, now, outcome);
      ok := id.Some?;
    case Update =>
      id, ok := None, false;
      if a.event.Some? {
        ok := g.UpdateAppointmentEvent(a.event.value, a, now, outcome);
      }
    case Delete =>
      id, ok := None, true;
      if entry.event.Some? {
        ok := g.DeleteEventById(entry.event.value, now, outcome);
      }
  }

  /** Claims the oldest pending entry and projects it in one transaction. When the process dies
      before the commit, what it did to the calendar stays and nothing is stored. */
  method ProcessOne(s: Session, g: GoogleCalendar, outcome: Outcome, newId: Id, now: int) returns (r: Processing)
    requires UniqueUids(g.events)
    modifies s, g
    ensures World(s.Snapshot(), g.events, now) == old(Dispatch(World(s.Snapshot(), g.events, now - 1), outcome, newId))
    ensures var k := FirstPending(old(s.outbox));
      match r
      case QueueEmpty => k == |old(s.outbox)| && s.Snapshot() == old(s.Snapshot()) && g.events == old(g.events)
      case EntryProcessed => k < |old(s.outbox)| && !outcome.Crashed? && s.outbox[k].status == Processed
      case EntryFailed => k < |old(s.outbox)| && !outcome.Crashed? && s.outbox[k].status != Processed
      case ProcessDied => k < |old(s.outbox)| && outcome.Crashed?
  {
    var claimed := s.ClaimNext();
    if claimed.None? {
      return QueueEmpty;
    }
    var k := claimed.value;
    var entry := s.outbox[k];
    var a := s.GetAppointment(entry.appointment);
    var ok, id := CallCalendar(g, a, entry, newId, now, outcome, s.Snapshot());
    if outcome.Crashed? {
      return ProcessDied;
    }
    if ok {
      if entry.op.Create? {
        a.AssignExternalEvent(id.value);
        var saved := s.SaveAppointment(a);
      }
      var marked := s.MarkProcessed(k);
      return EntryProcessed;
    }
    var marked := s.MarkFailed(k);
    return EntryFailed;
  }

  // ---------- A run ----------

  lemma CreateKeepsUnique(events: map<Id, Event>, a: Id, row: AppointmentRow, newId: Id, now: int)
    requires UniqueUids(events)
    ensures var answer := CreateEvent(events, a, row, newId, now); answer.Answered? ==> UniqueUids(answer.events)
  {
    assert forall x :: x in events && events[x].calendar == row.technician && events[x].uid == a ==>
        Holds(events, x, row.technician, a);
  }

  lemma DispatchKeepsUnique(w: World, outcome: Outcome, newId: Id)
    requires UniqueUids(w.events)
    ensures UniqueUids(Dispatch(w, outcome, newId).events)
  {
    hide CreateEvent, TablesAfter;
    var k := FirstPending(w.tables.outbox);
    if k < |w.tables.outbox| {
      var a := w.tables.outbox[k].appointment;
      if a in w.tables.appointments {
        CreateKeepsUnique(w.events, a, w.tables.appointments[a], newId, w.now + 1);
      }
    }
  }

  /** Claims entries one at a time until nothing is pending or the limit is reached; `calls` says how
      each claim's calendar call goes. Returns the number processed. */
  method RunDispatcher(s: Session, g: GoogleCalendar, calls: seq<(Outcome, Id)>, now: int) returns (processed: nat)
    requires UniqueUids(g.events) && forall c :: c in calls ==> !c.0.Crashed?
    modifies s, g
    ensures var (w, n) := old(RunOnce(World(s.Snapshot(), g.events, now), calls));
      s.Snapshot() == w.tables && g.events == w.events && processed == n
  {
    hide Dispatch;
    processed := 0;
    var i := 0;
    while i < |calls|
      invariant 0 <= i <= |calls| && UniqueUids(g.events)
      invariant old(RunOnce(World(s.Snapshot(), g.events, now), calls)) ==
        var (w, n) := RunOnce(World(s.Snapshot(), g.events, now + i), calls[i..]); (w, n + processed)
    {
      assert calls[i..][1..] == calls[i + 1..] && calls[i..][0] == calls[i];
      DispatchKeepsUnique(World(s.Snapshot(), g.events, now + i), calls[i].0, calls[i].1);
      var claimed := ProcessOne(s, g, calls[i].0, calls[i].1, now + i + 1);
      if claimed.QueueEmpty? {
        return;
      }
      if claimed.EntryProcessed? {
        processed := processed + 1;
      }
      i := i + 1;
    }
  }
}
