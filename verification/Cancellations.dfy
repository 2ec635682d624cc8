/**
 What becomes of a cancelled appointment's event, told by the appointment's row as it was cancelled: an
 event whose id was known then is taken off the calendar, one whose id was not stays.
 */
module Cancellations {
  import opened Strings
  import opened Scheduling
  import opened BookingInvariants
  import opened CalendarSync
  import opened SyncInvariants
  import opened SyncTheorems

  // ---------- What a cancellation captures ----------

  /** The appointment is called off and a Delete of the event known now is queued last. */
  ghost predicate CalledOffWith(t: Tables, u: Tables, a: Id, event: Option<Id>) {
    && a in u.appointments && !u.appointments[a].Active() && u.appointments[a].event == event
    && |u.outbox| == |t.outbox| + 1 && u.outbox[..|t.outbox|] == t.outbox
    && var e := u.outbox[|t.outbox|];
       e.op == Delete && e.appointment == a && e.event == event && e.status == Pending
  }

  /** Cancelling captures the event id the row holds. */
  lemma CancelCapturesTheId(t: Tables, a: Id, now: int)
    requires a in t.appointments && t.appointments[a].Active()
    ensures var u := Cancel(t, a, now);
      && u.Some? && CalledOffWith(t, u.value, a, t.appointments[a].event)
      && (CapturedId(u.value, a) <== t.appointments[a].event.Some?)
  {
    var u := Cancel(t, a, now).value;
    assert u.outbox[|t.outbox|] in u.outbox;
    assert DeleteOf(u.outbox[|t.outbox|], a);
  }

  /** So does a decline; a removal on the calendar has nothing left to delete. */
  lemma InboundCancellationCaptures(t: Tables, c: Change, allowed: bool, now: int)
    requires c.appointment in t.appointments && t.appointments[c.appointment].Active()
    requires c.updatedAt > t.appointments[c.appointment].updatedAt && (c.cancelled || c.declined)
    ensures var a := c.appointment;
      var u := Reconcile(t, c, allowed, now).0;
      && (c.cancelled ==> a in u.appointments && !u.appointments[a].Active() && u.outbox == t.outbox)
      && (!c.cancelled ==> CalledOffWith(t, u, a, t.appointments[a].event))
      && (!c.cancelled && t.appointments[a].event.Some? ==> CapturedId(u, a))
  {
    var a := c.appointment;
    var u := Reconcile(t, c, allowed, now).0;
    if !c.cancelled {
      assert u.outbox[|t.outbox|] in u.outbox;
      assert DeleteOf(u.outbox[|t.outbox|], a);
    }
  }

  // ---------- The step that cancels ----------

  /** Step i of the run turned the appointment from active to cancelled. */
  ghost predicate CancelsAt(run: seq<Step>, start: int, i: nat, a: Id) {
    && i < |run|
    && var before, after := After(run[..i], start).tables, After(run[..i + 1], start).tables;
       && a in before.appointments && before.appointments[a].Active()
       && a in after.appointments && !after.appointments[a].Active()
  }

  ghost predicate Inactive(t: Tables, a: Id) {
    a in t.appointments && !t.appointments[a].Active()
  }

  lemma ActiveHasNoDelete(t: Tables, a: Id)
    requires EntriesSound(t) && a in t.appointments && t.appointments[a].Active()
    ensures !CapturedId(t, a)
  {
    forall e | e in t.outbox ensures !DeleteOf(e, a) {
      assert EntrySound(t, e);
    }
  }

  lemma AppendedCapture(t: Tables, u: Tables, e: Entry, a: Id)
    requires u.outbox == t.outbox + [e]
    ensures CapturedId(u, a) <==> CapturedId(t, a) || (DeleteOf(e, a) && e.event.Some?)
  {
    if CapturedId(t, a) {
      var d :| d in t.outbox && DeleteOf(d, a) && d.event.Some?;
      assert d in u.outbox;
    }
    assert e in u.outbox;
  }

  lemma SameCapture(t: Tables, u: Tables, a: Id)
    requires u.outbox == t.outbox
    ensures CapturedId(u, a) <==> CapturedId(t, a)
  {
  }

  lemma EntryStepCapture(t: Tables, u: Tables, k: nat, after: Entry, a: Id)
    requires EntryStep(t, u, k, after)
    ensures CapturedId(u, a) <==> CapturedId(t, a)
  {
    forall i | 0 <= i < |t.outbox|
      ensures u.outbox[i] in u.outbox && t.outbox[i] in t.outbox
          && (DeleteOf(u.outbox[i], a) <==> DeleteOf(t.outbox[i], a)) && u.outbox[i].event == t.outbox[i].event
    {
    }
  }

  /** The cancelling step captures the id the row held, or follows a guest's removal of the event. */
  lemma CancellingCaptures(w: World, step: Step, a: Id)
    requires Invariant(w) && Possible(w, step)
    requires a in w.tables.appointments && w.tables.appointments[a].Active() && Inactive(Next(w, step).tables, a)
    ensures var v := Next(w, step);
      (CapturedId(v.tables, a) <==> w.tables.appointments[a].event.Some?) || RemovedBy(v.events, a)
    ensures CapturedId(Next(w, step).tables, a) ==> w.tables.appointments[a].event.Some?
  {
    hide EventsSound, OneEventEach, Linked, NothingLost, CancelsAccounted, CapturedId, RemovedBy, Conflict, Call;
    var t, u := w.tables, Next(w, step).tables;
    ActiveHasNoDelete(t, a);
    match step
    case CancelIt(b) =>
      AppendedCapture(t, u, Entry(Delete, a, t.appointments[a].event, Pending, 0), a);
    case PollEvent(x, allowed) =>
      var event := w.events[x];
      if !event.life.Live? {
        SameCapture(t, u, a);
        GoneIsRemoved(w, x, a);
      } else {
        AppendedCapture(t, u, Entry(Delete, a, t.appointments[a].event, Pending, 0), a);
      }
    case _ =>
  }

  lemma GoneIsRemoved(w: World, x: Id, a: Id)
    requires Invariant(w) && x in w.events && w.events[x].uid == a && !w.events[x].life.Live?
    requires a in w.tables.appointments && w.tables.appointments[a].Active()
    ensures RemovedBy(w.events[x := w.events[x].(unpolled := false)], a)
  {
    hide NothingLost, CancelsAccounted, Linked, OneEventEach;
    DeletedMeansCancelled(w);
    assert EventSound(w.tables, x, w.events[x], w.now);
    assert w.events[x := w.events[x].(unpolled := false)][x].life.Removed?;
  }

  // ---------- From there on ----------

  /** The queue is as before, or one entry for another appointment longer, or one entry further on. */
  ghost predicate QueueKeeps(t: Tables, u: Tables, a: Id) {
    || u.outbox == t.outbox
    || (exists e :: u.outbox == t.outbox + [e] && e.appointment != a)
    || (exists k, after :: EntryStep(t, u, k, after))
  }

  lemma QueueKeepsCapture(t: Tables, u: Tables, a: Id)
    requires QueueKeeps(t, u, a)
    ensures CapturedId(u, a) <==> CapturedId(t, a)
  {
    if u.outbox == t.outbox {
      SameCapture(t, u, a);
    } else if e :| u.outbox == t.outbox + [e] && e.appointment != a {
      AppendedCapture(t, u, e, a);
    } else {
      var k, after :| EntryStep(t, u, k, after);
      EntryStepCapture(t, u, k, after, a);
    }
  }

  lemma OneEntryMore(t: Tables, u: Tables, e: Entry, a: Id)
    requires u.outbox == t.outbox + [e] && e.appointment != a
    ensures QueueKeeps(t, u, a)
  {
  }

  lemma OneEntryOn(t: Tables, u: Tables, k: nat, after: Entry, a: Id)
    requires EntryStep(t, u, k, after)
    ensures QueueKeeps(t, u, a)
  {
  }

  lemma SameEntries(t: Tables, u: Tables, a: Id)
    requires u.outbox == t.outbox
    ensures QueueKeeps(t, u, a)
  {
  }

  lemma QueueKeepsQuiet(w: World, step: Step, a: Id)
    requires Possible(w, step) && Inactive(w.tables, a)
    ensures Inactive(Next(w, step).tables, a) && QueueKeeps(w.tables, Next(w, step).tables, a)
  {
    hide QueueKeeps, Conflict, Call, FirstPending;
    var t, u := w.tables, Next(w, step).tables;
    if u.outbox == t.outbox {
      SameEntries(t, u, a);
    } else if step.DispatchOne? {
      var k := FirstPending(t.outbox);
      OneEntryOn(t, u, k, u.outbox[k], a);
    } else {
      OneEntryMore(t, u, u.outbox[|t.outbox|], a);
    }
  }

  lemma RemovalStays(w: World, step: Step, a: Id)
    requires Possible(w, step) && RemovedBy(w.events, a)
    ensures RemovedBy(Next(w, step).events, a)
  {
    hide Reconcile, Book, Reschedule, AddDetails, Cancel, FirstPending, Holds;
    var x :| x in w.events && w.events[x].uid == a && w.events[x].life.Removed?;
    assert x in Next(w, step).events && Next(w, step).events[x].uid == a && Next(w, step).events[x].life.Removed?;
  }

  /** Once cancelled an appointment stays so, and what was captured for it stays what it was. */
  lemma {:induction false} CancelledCarriesOn(run: seq<Step>, start: int, i: nat, n: nat, a: Id)
    requires i <= n <= |run| && Inactive(After(run[..i], start).tables, a)
    ensures var v, w := After(run[..i], start), After(run[..n], start);
      && Inactive(w.tables, a) && (CapturedId(w.tables, a) <==> CapturedId(v.tables, a))
      && (RemovedBy(v.events, a) ==> RemovedBy(w.events, a))
    decreases n
  {
    hide Inactive, CapturedId, RemovedBy, After, Next, QueueKeeps;
    if n > i {
      CancelledCarriesOn(run, start, i, n - 1, a);
      AfterOne(run, n - 1, start);
      var w := After(run[..n - 1], start);
      if Possible(w, run[n - 1]) {
        QueueKeepsQuiet(w, run[n - 1], a);
        QueueKeepsCapture(w.tables, Next(w, run[n - 1]).tables, a);
        if RemovedBy(w.events, a) { RemovalStays(w, run[n - 1], a); }
      }
    }
  }

  /** Once everything is processed, a cancelled appointment keeps a live event exactly when its row held no
      event id as it was cancelled and no guest removed the event. */
  lemma CancelledKeepsEventExactly(run: seq<Step>, start: int, i: nat, a: Id)
    requires CancelsAt(run, start, i, a) && AllProcessed(After(run, start).tables)
    ensures var w := After(run, start);
      && Inactive(w.tables, a)
      && (LeavesEvent(w, a) <==>
            After(run[..i], start).tables.appointments[a].event.None? && !RemovedBy(w.events, a))
  {
    hide Invariant, CapturedId, RemovedBy, After, Next, LeavesEvent;
    var w := After(run[..i], start);
    EveryRunKeepsInvariant(run[..i], start);
    AfterOne(run, i, start);
    CancellingCaptures(w, run[i], a);
    CancelledCarriesOn(run, start, i + 1, |run|, a);
    assert run[..|run|] == run;
    CancelledLeavesEventExactly(run, start, a);
  }

  /** Every cancelled appointment was cancelled by some step of the run. */
  lemma {:induction false} SomeStepCancels(run: seq<Step>, start: int, a: Id) returns (i: nat)
    requires Inactive(After(run, start).tables, a)
    ensures CancelsAt(run, start, i, a)
  {
    hide After, Next;
    var n := |run| - 1;
    i := 0;
    if run == [] {
      AfterNothing(start);
    } else if Inactive(After(run[..n], start).tables, a) {
      i := SomeStepCancels(run[..n], start, a);
      assert run[..n][..i] == run[..i] && run[..n][..i + 1] == run[..i + 1];
    } else {
      i := n;
      assert run[..n + 1] == run;
      AfterOne(run, n, start);
      BornActive(After(run[..n], start), run[n], a);
    }
  }

  lemma BornActive(w: World, step: Step, a: Id)
    ensures Possible(w, step) && a !in w.tables.appointments ==> !Inactive(Next(w, step).tables, a)
  {
    hide Conflict, Call, FirstPending;
  }
}
