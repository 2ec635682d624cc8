/**
 Which outbox entries a run of the dispatcher dead-letters while the calendar answers every call, read
 off the state the run starts from, and what it therefore leaves settled.
 */
module DeadLetters {
  import opened Strings
  import opened Scheduling
  import opened BookingInvariants
  import opened CalendarSync
  import opened SyncInvariants
  import opened SyncTheorems

  // ---------- The order of the queue ----------

  /** Of two entries for one appointment the later is no Create and the earlier no Delete. */
  ghost predicate Ordered(outbox: seq<Entry>) {
    forall i, j :: 0 <= i < j < |outbox| && outbox[i].appointment == outbox[j].appointment ==>
      !outbox[j].op.Create? && !outbox[i].op.Delete?
  }

  /** A Create is for a new appointment, anything else for an active one. */
  predicate MayEnqueue(t: Tables, e: Entry) {
    if e.op.Create? then e.appointment !in t.appointments
    else e.appointment in t.appointments && t.appointments[e.appointment].Active()
  }

  lemma AppendKeepsOrder(t: Tables, e: Entry)
    requires EntriesSound(t) && Ordered(t.outbox) && MayEnqueue(t, e)
    ensures Ordered(t.outbox + [e])
  {
    var outbox := t.outbox + [e];
    forall i, j | 0 <= i < j < |outbox| && outbox[i].appointment == outbox[j].appointment
      ensures !outbox[j].op.Create? && !outbox[i].op.Delete?
    {
      assert outbox[i] == t.outbox[i] && EntrySound(t, t.outbox[i]);
      assert j < |t.outbox| ==> outbox[j] == t.outbox[j];
    }
  }

  lemma ReplaceKeepsOrder(outbox: seq<Entry>, k: nat, e: Entry)
    requires Ordered(outbox) && k < |outbox| && e.op == outbox[k].op && e.appointment == outbox[k].appointment
    ensures Ordered(outbox[k := e])
  {
  }

  /** The queue grew by at most one entry. */
  ghost predicate QueueStep(t: Tables, u: Tables) {
    u.outbox == t.outbox || exists e :: MayEnqueue(t, e) && u.outbox == t.outbox + [e]
  }

  lemma QueueStepKeepsOrder(t: Tables, u: Tables)
    requires EntriesSound(t) && Ordered(t.outbox) && QueueStep(t, u)
    ensures Ordered(u.outbox)
  {
    if u.outbox != t.outbox {
      var e :| MayEnqueue(t, e) && u.outbox == t.outbox + [e];
      AppendKeepsOrder(t, e);
    }
  }

  lemma Queued(t: Tables, u: Tables, op: Operation, a: Id, event: Option<Id>)
    requires u.outbox == Enqueued(t, op, a, event).outbox && MayEnqueue(t, Entry(op, a, event, Pending, 0))
    ensures QueueStep(t, u)
  {
  }

  lemma UseCaseQueues(w: World, step: Step)
    requires Possible(w, step) && !step.DispatchOne?
    ensures QueueStep(w.tables, Next(w, step).tables)
  {
    hide QueueStep, Conflict;
    var t, u := w.tables, Next(w, step).tables;
    if u.outbox == t.outbox {
      assert QueueStep(t, u) by { SameQueue(t, u); }
    } else {
      var e := u.outbox[|u.outbox| - 1];
      Queued(t, u, e.op, e.appointment, e.event);
    }
  }

  lemma SameQueue(t: Tables, u: Tables)
    requires u.outbox == t.outbox
    ensures QueueStep(t, u)
  {
  }

  lemma NextIsOrdered(w: World, step: Step)
    requires Invariant(w) && Ordered(w.tables.outbox) && Possible(w, step)
    ensures Ordered(Next(w, step).tables.outbox)
  {
    hide Ordered, QueueStep, Call, FirstPending;
    if step.DispatchOne? {
      var k := FirstPending(w.tables.outbox);
      if k < |w.tables.outbox| {
        ReplaceKeepsOrder(w.tables.outbox, k, Completed(w.tables.outbox[k]));
        ReplaceKeepsOrder(w.tables.outbox, k, Attempted(w.tables.outbox[k]));
      }
    } else {
      UseCaseQueues(w, step);
      QueueStepKeepsOrder(w.tables, Next(w, step).tables);
    }
  }

  /** In every run an appointment's Create comes first in the queue and its Delete last. */
  lemma {:induction false} EveryRunIsOrdered(run: seq<Step>, start: int)
    ensures Ordered(After(run, start).tables.outbox)
  {
    hide Invariant, Next, Ordered;
    if run == [] {
      EmptyQueueIsOrdered();
    } else {
      var w := After(run[..|run| - 1], start);
      EveryRunIsOrdered(run[..|run| - 1], start);
      EveryRunKeepsInvariant(run[..|run| - 1], start);
      if Possible(w, run[|run| - 1]) {
        NextIsOrdered(w, run[|run| - 1]);
      }
    }
  }

  lemma EmptyQueueIsOrdered()
    ensures Ordered([])
  {
  }

  // ---------- Which calls can no longer succeed ----------

  /** The appointment had an event and it is no longer live. */
  ghost predicate Gone(events: map<Id, Event>, a: Id) {
    exists x :: x in events && events[x].uid == a && !events[x].life.Live?
  }

  ghost predicate AwaitsCreate(t: Tables, a: Id) {
    exists e :: e in t.outbox && e.op.Create? && e.appointment == a && e.status == Pending
  }

  /** The entry needs a calendar call, and its event is gone, or it is an Update of an appointment whose
      event id is unknown and not about to be recorded. */
  ghost predicate Doomed(w: World, e: Entry) {
    && !NeedsNoCall(e)
    && (Gone(w.events, e.appointment)
        || (e.op.Update? && e.appointment in w.tables.appointments
            && w.tables.appointments[e.appointment].event.None? && !AwaitsCreate(w.tables, e.appointment)))
  }

  /** What becomes of an entry once the queue is empty. */
  ghost function Fate(w: World, e: Entry): EntryStatus {
    if e.status != Pending then e.status else if Doomed(w, e) then Failed else Processed
  }

  // Nothing pending stands before the claimed entry, so a pending Create of its appointment is itself.
  lemma NoCreateAhead(w: World, k: nat)
    requires Ordered(w.tables.outbox) && k == FirstPending(w.tables.outbox) < |w.tables.outbox|
    requires !w.tables.outbox[k].op.Create?
    ensures !AwaitsCreate(w.tables, w.tables.outbox[k].appointment)
  {
    hide FirstPending;
    var outbox := w.tables.outbox;
    assert forall i :: k < i < |outbox| && outbox[k].appointment == outbox[i].appointment ==> !outbox[i].op.Create?;
  }

  /** A claim whose calendar call is answered succeeds exactly if the entry is not doomed. */
  lemma ClaimSucceedsExactly(w: World, newId: Id)
    requires Invariant(w) && Ordered(w.tables.outbox) && newId !in w.events
    requires FirstPending(w.tables.outbox) < |w.tables.outbox|
    ensures var e := w.tables.outbox[FirstPending(w.tables.outbox)];
      Call(w.tables, w.events, e, newId, w.now + 1).Answered? <==> !Doomed(w, e)
  {
    hide FirstPending, Ordered, RowsSound, BookedOnce, NoDoubleBooking, NothingLost, DeletesStand, CancelsAccounted,
         AwaitsCreate, Owes;
    var k := FirstPending(w.tables.outbox);
    var e := w.tables.outbox[k];
    assert EntrySound(w.tables, e);
    var row := w.tables.appointments[e.appointment];
    if e.op.Create? {
      CreateAnsweredExactly(w, e.appointment, newId);
    } else {
      NoCreateAhead(w, k);
      if row.event.Some? { GoneExactly(w, e.appointment, row.event.value); }
    }
  }

  lemma GoneExactly(w: World, a: Id, x: Id)
    requires OneEventEach(w) && x in w.events && w.events[x].uid == a
    ensures Gone(w.events, a) <==> !w.events[x].life.Live?
  {
  }

  lemma CreateAnsweredExactly(w: World, a: Id, newId: Id)
    requires EventsSound(w) && OneEventEach(w) && a in w.tables.appointments
    ensures CreateEvent(w.events, a, w.tables.appointments[a], newId, w.now + 1).Answered? <==> !Gone(w.events, a)
  {
    var technician := w.tables.appointments[a].technician;
    if Gone(w.events, a) {
      var x :| x in w.events && w.events[x].uid == a && !w.events[x].life.Live?;
      assert EventSound(w.tables, x, w.events[x], w.now);
      assert Holds(w.events, x, technician, a);
    }
  }

  // ---------- A claim changes no other entry's fate ----------

  lemma SameAwaiting(t: Tables, u: Tables, k: nat, after: Entry, a: Id)
    requires EntryStep(t, u, k, after) && !(after.op.Create? && after.appointment == a)
    ensures AwaitsCreate(u, a) <==> AwaitsCreate(t, a)
  {
    var before, now := t.outbox, u.outbox;
    forall i | 0 <= i < |before| && i != k ensures now[i] == before[i] && now[i] in now && before[i] in before {
    }
    assert now[k] == after;
  }

  // A failed claim: only its own Create can stop being awaited, and then the event is gone.
  lemma FailureKeepsDoom(w: World, v: World, k: nat, e: Entry)
    requires k < |w.tables.outbox| && Doomed(w, w.tables.outbox[k])
    requires v.tables == w.tables.(outbox := w.tables.outbox[k := Attempted(w.tables.outbox[k])])
    requires v.events == w.events
    ensures Doomed(v, e) <==> Doomed(w, e)
  {
    hide Gone, AwaitsCreate;
    var claimed := w.tables.outbox[k];
    if !(claimed.op.Create? && claimed.appointment == e.appointment) {
      SameAwaiting(w.tables, v.tables, k, Attempted(claimed), e.appointment);
    }
  }

  lemma SuccessElsewhere(w: World, v: World, k: nat, e: Entry)
    requires k < |w.tables.outbox| && e.appointment != w.tables.outbox[k].appointment
    requires EntryStep(w.tables, v.tables, k, Completed(w.tables.outbox[k]))
    requires forall b :: b != w.tables.outbox[k].appointment ==>
      (b in v.tables.appointments <==> b in w.tables.appointments)
      && (b in w.tables.appointments ==> v.tables.appointments[b] == w.tables.appointments[b])
    requires Gone(v.events, e.appointment) <==> Gone(w.events, e.appointment)
    ensures Doomed(v, e) <==> Doomed(w, e)
  {
    hide Gone, AwaitsCreate;
    SameAwaiting(w.tables, v.tables, k, Completed(w.tables.outbox[k]), e.appointment);
  }

  lemma GoneElsewhere(events: map<Id, Event>, x: Id, after: Event, a: Id)
    requires after.uid != a && (x in events ==> events[x].uid != a)
    ensures Gone(events[x := after], a) <==> Gone(events, a)
  {
    if Gone(events, a) {
      var y :| y in events && events[y].uid == a && !events[y].life.Live?;
      assert events[x := after][y] == events[y];
    }
  }

  lemma GoneWithLife(events: map<Id, Event>, x: Id, after: Event, a: Id)
    requires x in events && after.uid == events[x].uid && after.life == events[x].life
    ensures Gone(events[x := after], a) <==> Gone(events, a)
  {
    var changed := events[x := after];
    forall y | y in events ensures changed[y].uid == events[y].uid && changed[y].life == events[y].life {
    }
  }

  ghost predicate ClaimsFirst(w: World, k: nat, newId: Id) {
    && Invariant(w) && Ordered(w.tables.outbox) && newId !in w.events
    && k == FirstPending(w.tables.outbox) < |w.tables.outbox|
  }

  lemma CreateKeepsDoom(w: World, k: nat, newId: Id, e: Entry)
    requires ClaimsFirst(w, k, newId) && w.tables.outbox[k].op.Create? && !Doomed(w, w.tables.outbox[k])
    ensures Doomed(Dispatch(w, Done, newId), e) <==> Doomed(w, e)
  {
    hide Ordered, RowsSound, BookedOnce, NoDoubleBooking, NothingLost, DeletesStand, CancelsAccounted, FirstPending,
         AwaitsCreate, Gone;
    var claimed, v := w.tables.outbox[k], Dispatch(w, Done, newId);
    var a := claimed.appointment;
    assert EntrySound(w.tables, claimed);
    ClaimSucceedsExactly(w, newId);
    if e.appointment == a {
      assert AwaitsCreate(w.tables, a) by { Awaited(w.tables, claimed); }
      CreatedIsLive(w, k, newId);
    } else {
      var event := Projected(a, w.tables.appointments[a], w.now + 1);
      GoneElsewhere(w.events, newId, event, e.appointment);
      SuccessElsewhere(w, v, k, e);
    }
  }

  lemma Awaited(t: Tables, e: Entry)
    requires e in t.outbox && e.op.Create? && e.status == Pending
    ensures AwaitsCreate(t, e.appointment)
  {
  }

  lemma CreatedIsLive(w: World, k: nat, newId: Id)
    requires ClaimsFirst(w, k, newId) && w.tables.outbox[k].op.Create?
    requires !Gone(w.events, w.tables.outbox[k].appointment)
    ensures !Gone(Dispatch(w, Done, newId).events, w.tables.outbox[k].appointment)
  {
    hide Invariant, Ordered, FirstPending;
  }

  lemma UpdateKeepsDoom(w: World, k: nat, newId: Id, e: Entry)
    requires ClaimsFirst(w, k, newId) && w.tables.outbox[k].op.Update? && !Doomed(w, w.tables.outbox[k])
    ensures Doomed(Dispatch(w, Done, newId), e) <==> Doomed(w, e)
  {
    hide Invariant, Ordered, FirstPending, AwaitsCreate, Gone;
    var claimed, v := w.tables.outbox[k], Dispatch(w, Done, newId);
    ClaimSucceedsExactly(w, newId);
    var x := w.tables.appointments[claimed.appointment].event.value;
    GoneWithLife(w.events, x, v.events[x], e.appointment);
    SameAwaiting(w.tables, v.tables, k, Completed(claimed), e.appointment);
  }

  lemma DeleteKeepsDoom(w: World, k: nat, newId: Id, e: Entry)
    requires ClaimsFirst(w, k, newId) && w.tables.outbox[k].op.Delete? && !Doomed(w, w.tables.outbox[k])
    requires e.appointment != w.tables.outbox[k].appointment
    ensures Doomed(Dispatch(w, Done, newId), e) <==> Doomed(w, e)
  {
    hide Ordered, RowsSound, BookedOnce, NoDoubleBooking, NothingLost, DeletesStand, CancelsAccounted, FirstPending,
         AwaitsCreate, Gone;
    var claimed, v := w.tables.outbox[k], Dispatch(w, Done, newId);
    assert EntrySound(w.tables, claimed);
    ClaimSucceedsExactly(w, newId);
    if claimed.event.Some? {
      var x := claimed.event.value;
      GoneElsewhere(w.events, x, v.events[x], e.appointment);
    }
    SuccessElsewhere(w, v, k, e);
  }

  /** An answered claim settles the first pending entry as its fate says and changes no entry's fate. */
  lemma ClaimKeepsFates(w: World, newId: Id, i: nat)
    requires ClaimsFirst(w, FirstPending(w.tables.outbox), newId) && i < |w.tables.outbox|
    ensures var v := Dispatch(w, Done, newId);
      |v.tables.outbox| == |w.tables.outbox| && Fate(v, v.tables.outbox[i]) == Fate(w, w.tables.outbox[i])
  {
    hide Invariant, FirstPending, Doomed, Call;
    var k, v := FirstPending(w.tables.outbox), Dispatch(w, Done, newId);
    var claimed, e := w.tables.outbox[k], w.tables.outbox[i];
    ClaimSucceedsExactly(w, newId);
    if Doomed(w, claimed) {
      FailureKeepsDoom(w, v, k, e);
      SameDoom(v, e, Attempted(e));
    } else if i > k {
      match claimed.op
      case Create => CreateKeepsDoom(w, k, newId, e);
      case Update => UpdateKeepsDoom(w, k, newId, e);
      case Delete => DeleteKeepsDoom(w, k, newId, e);
    }
  }

  lemma SameDoom(w: World, e: Entry, f: Entry)
    requires f.op == e.op && f.appointment == e.appointment && f.event == e.event
    ensures Doomed(w, f) <==> Doomed(w, e)
  {
  }

  /** While the calendar answers every call, a long enough run dead-letters exactly the pending entries
      whose event is gone, or that are Updates of an appointment whose Create was dead-lettered, and
      processes all other pending ones. */
  lemma {:induction false} DeadLettersExactly(w: World, calls: seq<(Outcome, Id)>, i: nat)
    requires Invariant(w) && Ordered(w.tables.outbox) && NewIds(w.events, calls) && i < |w.tables.outbox|
    requires (forall c :: c in calls ==> c.0.Done?) && |calls| >= Work(w.tables.outbox)
    ensures var u := RunOnce(w, calls).0;
      |u.tables.outbox| == |w.tables.outbox| && u.tables.outbox[i].status == Fate(w, w.tables.outbox[i])
    decreases |calls|
  {
    hide Invariant, Dispatch, Work, FirstPending, Ordered, Doomed;
    var k := FirstPending(w.tables.outbox);
    SoundMeansAttemptsSound(w);
    if k == |w.tables.outbox| {
    } else {
      DispatchLowersWork(w, Refused, 0);
      DispatchLowersWork(w, calls[0].0, calls[0].1);
      var v := Dispatch(w, Done, calls[0].1);
      ClaimKeepsFates(w, calls[0].1, i);
      DispatchKeepsInvariant(w, Done, calls[0].1);
      DispatchIsOrdered(w, Done, calls[0].1);
      DispatchAddsOnly(w, Done, calls[0].1);
      DeadLettersExactly(v, calls[1..], i);
    }
  }

  lemma DispatchIsOrdered(w: World, outcome: Outcome, newId: Id)
    requires Invariant(w) && Ordered(w.tables.outbox) && newId !in w.events
    ensures Ordered(Dispatch(w, outcome, newId).tables.outbox)
  {
    hide Dispatch, Invariant, Ordered;
    NextIsOrdered(w, DispatchOne(outcome, newId));
  }

  // ---------- What an answered drain settles ----------

  /** Nothing was dead-lettered so far and no pending entry calls for an event that is gone. */
  ghost predicate Healthy(w: World) {
    forall e :: e in w.tables.outbox ==>
      e.status != Failed && (e.status == Pending ==> NeedsNoCall(e) || !Gone(w.events, e.appointment))
  }

  lemma HealthyExactly(w: World)
    requires Invariant(w)
    ensures Healthy(w) <==> forall e :: e in w.tables.outbox ==> Fate(w, e) != Failed
  {
    hide RowsSound, BookedOnce, NoDoubleBooking, NothingLost, DeletesStand, CancelsAccounted, EventsSound,
         OneEventEach, Gone;
    if Healthy(w) {
      forall e | e in w.tables.outbox ensures Fate(w, e) != Failed {
        assert EntrySound(w.tables, e);
        if Owes(w.tables, Create, e.appointment) {
          var c :| c in w.tables.outbox && Owed(c, Create, e.appointment);
          assert c.status == Pending;
          Awaited(w.tables, c);
        }
      }
    }
  }

  /** A long enough run whose calls are all answered leaves no dead letter exactly when it starts from a
      healthy state. */
  lemma DrainsCleanExactly(w: World, calls: seq<(Outcome, Id)>)
    requires Invariant(w) && Ordered(w.tables.outbox) && NewIds(w.events, calls)
    requires (forall c :: c in calls ==> c.0.Done?) && |calls| >= Work(w.tables.outbox)
    ensures AllProcessed(RunOnce(w, calls).0.tables) <==> Healthy(w)
  {
    hide Invariant, Ordered, Work, RunOnce, Fate, NewIds, Healthy;
    var u := RunOnce(w, calls).0;
    HealthyExactly(w);
    SoundMeansAttemptsSound(w);
    DrainTerminates(w, calls);
    forall i: nat | i < |w.tables.outbox|
      ensures |u.tables.outbox| == |w.tables.outbox| && u.tables.outbox[i].status == Fate(w, w.tables.outbox[i])
    {
      DeadLettersExactly(w, calls, i);
    }
    SameStatuses(w, u);
  }

  lemma SameStatuses(w: World, u: World)
    requires |u.tables.outbox| == |w.tables.outbox|
    requires forall i: nat :: i < |w.tables.outbox| ==> u.tables.outbox[i].status == Fate(w, w.tables.outbox[i])
    ensures (forall e :: e in u.tables.outbox ==> e.status != Failed)
       <==> forall e :: e in w.tables.outbox ==> Fate(w, e) != Failed
  {
    hide Fate;
    if forall e :: e in u.tables.outbox ==> e.status != Failed {
      forall i: nat | i < |w.tables.outbox| ensures Fate(w, w.tables.outbox[i]) != Failed {
        assert u.tables.outbox[i] in u.tables.outbox;
      }
    }
  }

  lemma {:induction false} RunOnceKeepsPolled(w: World, calls: seq<(Outcome, Id)>)
    requires AllPolled(w.events) && forall c :: c in calls ==> !c.0.Crashed?
    ensures AllPolled(RunOnce(w, calls).0.events)
    ensures RunOnce(w, calls).0.tables.appointments.Keys == w.tables.appointments.Keys
    decreases |calls|
  {
    hide Dispatch, AllPolled;
    if calls == [] {
    } else {
      DispatchKeepsPolled(w, calls[0].0, calls[0].1);
      RunOnceKeepsPolled(Dispatch(w, calls[0].0, calls[0].1), calls[1..]);
    }
  }

  lemma DispatchKeepsPolled(w: World, outcome: Outcome, newId: Id)
    requires AllPolled(w.events)
    ensures AllPolled(Dispatch(w, outcome, newId).events)
    ensures Dispatch(w, outcome, newId).tables.appointments.Keys == w.tables.appointments.Keys
  {
    hide FirstPending, Attempted, Completed;
  }

  /** From any state a run reaches with every edit polled, a dispatcher whose calls are answered puts
      every calendar right unless some pending entry calls for an event that is gone: an active
      appointment's event stands at its time unless it was made all-day, a cancelled one has no live
      event unless no id was captured. */
  lemma AnsweredDrainSettles(run: seq<Step>, start: int, calls: seq<(Outcome, Id)>, a: Id)
    requires var w := After(run, start);
      && NewIds(w.events, calls) && (forall c :: c in calls ==> c.0.Done?) && |calls| >= Work(w.tables.outbox)
      && Healthy(w) && AllPolled(w.events) && a in w.tables.appointments
    ensures var u := RunOnce(After(run, start), calls).0;
      && AllProcessed(u.tables) && a in u.tables.appointments
      && if u.tables.appointments[a].Active() then (ShowsItsRow(u, a) <==> !ShownAllDay(u, a)) && ShowsItsDetails(u, a)
         else LeavesEvent(u, a) <==> !CapturedId(u.tables, a) && !RemovedBy(u.events, a)
  {
    hide *;
    var w := After(run, start);
    EveryRunKeepsInvariant(run, start);
    EveryRunIsOrdered(run, start);
    DrainsCleanExactly(w, calls);
    RunOnceKeepsPolled(w, calls);
    RunOnceKeepsInvariant(w, calls);
    BothSettle(RunOnce(w, calls).0, a);
  }
}
