/**
 The main results about the two-way sync: what every run keeps, what is left once the outbox has
 drained, and where the code leaves a calendar wrong.
 */
module SyncTheorems {
  import opened Strings
  import opened Time
  import opened Scheduling
  import opened BookingInvariants
  import opened CalendarSync
  import opened SyncInvariants

  // ---------- Every run ----------

  lemma NextKeepsInvariant(w: World, step: Step)
    requires Invariant(w) && Possible(w, step)
    ensures Invariant(Next(w, step))
  {
    match step
    case DispatchOne(outcome, newId) => DispatchKeepsInvariant(w, outcome, newId);
    case EditEvent(x, edit) => EditKeepsInvariant(w, x, edit);
    case PollEvent(x, allowed) => PollKeepsInvariant(w, x, allowed);
    case _ => UseCasesKeepInvariant(w, step);
  }

  lemma UseCasesKeepInvariant(w: World, step: Step)
    requires Invariant(w) && Possible(w, step)
    requires step.OpenCall? || step.BookIt? || step.RescheduleIt? || step.AddDetailsTo? || step.CancelIt?
    ensures Invariant(Next(w, step))
  {
    hide Invariant, UseCaseStep, Book, Reschedule, AddDetails, Cancel;
    var v := Next(w, step);
    TimeKeepsInvariant(w);
    UseCasesStep(w.tables, step, w.now + 1);
    UseCasesStaySound(w, step);
    if v.tables != w.tables {
      UseCaseKeepsInvariant(w, v.tables);
    }
  }

  lemma UseCasesStaySound(w: World, step: Step)
    requires Invariant(w) && Possible(w, step)
    requires step.OpenCall? || step.BookIt? || step.RescheduleIt? || step.AddDetailsTo? || step.CancelIt?
    ensures Sound(Next(w, step).tables, w.now + 1)
    ensures step.OpenCall? ==> UseCaseStep(w.tables, Next(w, step).tables)
  {
    hide EventsSound, OneEventEach, Linked, NothingLost, DeletesStand, CancelsAccounted, Conflict;
    var now := w.now + 1;
    match step
    case OpenCall(c) =>
    case BookIt(a, c, technician, customer, range) =>
      BookKeepsSound(w.tables, a, c, technician, customer, range, now, w.now);
    case RescheduleIt(a, range) => RescheduleKeepsSound(w.tables, a, range, now, w.now);
    case AddDetailsTo(a, text) => AddDetailsKeepsSound(w.tables, a, text, now, w.now);
    case CancelIt(a) =>
      if a in w.tables.appointments {
        CancelKeepsSound(w.tables, a, now, w.now);
      }
  }

  /** Whatever is booked, moved, cancelled, dispatched, lost, crashed, edited and polled, in any
      order: no double booking, no call booked twice, one event an appointment, no lost projection. */
  lemma {:induction false} EveryRunKeepsInvariant(run: seq<Step>, start: int)
    ensures Invariant(After(run, start))
  {
    hide Invariant, Next;
    if run == [] {
      EmptyStoreIsFine(start);
    } else {
      var w := After(run[..|run| - 1], start);
      EveryRunKeepsInvariant(run[..|run| - 1], start);
      if Possible(w, run[|run| - 1]) {
        NextKeepsInvariant(w, run[|run| - 1]);
      }
    }
  }

  lemma EmptyStoreIsFine(start: int)
    ensures Invariant(World(Tables(map[], map[], [], []), map[], start))
  {
  }

  /** In every run a technician's active appointments are pairwise disjoint and no call is booked twice. */
  lemma NeverDoubleBooked(run: seq<Step>, start: int, a: Id, b: Id)
    requires var t := After(run, start).tables; a in t.appointments && b in t.appointments && a != b
    ensures var t := After(run, start).tables;
      && t.appointments[a].call != t.appointments[b].call
      && Apart(t.appointments[a], t.appointments[b])
  {
    hide After;
    EveryRunKeepsInvariant(run, start);
    assert Apart(After(run, start).tables.appointments[a], After(run, start).tables.appointments[b]);
  }

  /** In every run, crashes between insert and commit included, an appointment has at most one event,
      on its technician's calendar, and an event id recorded for it is that event's. */
  lemma OneEventPerAppointment(run: seq<Step>, start: int, a: Id)
    requires a in After(run, start).tables.appointments
    ensures var w := After(run, start);
      && (forall x, y :: x in w.events && y in w.events && w.events[x].uid == a && w.events[y].uid == a ==> x == y)
      && (forall x :: x in w.events && w.events[x].uid == a ==>
          w.events[x].calendar == w.tables.appointments[a].technician)
      && (w.tables.appointments[a].event.Some? ==>
            w.tables.appointments[a].event.value in w.events && w.events[w.tables.appointments[a].event.value].uid == a)
  {
    hide After, Sound, NothingLost, DeletesStand, CancelsAccounted;
    EveryRunKeepsInvariant(run, start);
    assert forall x :: x in After(run, start).events ==>
      EventSound(After(run, start).tables, x, After(run, start).events[x], After(run, start).now);
  }

  ghost predicate HasUnseenEdit(w: World, a: Id)
    requires a in w.tables.appointments
  {
    exists x :: x in w.events && w.events[x].uid == a && Unseen(w.events[x], w.tables.appointments[a])
  }

  /** No lost projection: in every run, an active appointment whose event is missing or does not show
      its row has a Create or Update still owed, or a guest's edit unseen, or an all-day event. */
  lemma NoLostProjection(run: seq<Step>, start: int, a: Id)
    requires a in After(run, start).tables.appointments && After(run, start).tables.appointments[a].Active()
    ensures var w := After(run, start);
      ShowsItsRow(w, a) || Owes(w.tables, Create, a) || Owes(w.tables, Update, a)
      || HasUnseenEdit(w, a) || ShownAllDay(w, a)
  {
    hide After, Sound, DeletesStand, CancelsAccounted, Owes;
    EveryRunKeepsInvariant(run, start);
    var w := After(run, start);
    if w.tables.appointments[a].event.Some? {
      assert InStep(w.tables, w.events[w.tables.appointments[a].event.value]);
    }
  }

  // ---------- After a full drain ----------

  /** Nothing is pending, nothing was dead-lettered. */
  ghost predicate AllProcessed(t: Tables) {
    forall e :: e in t.outbox ==> e.status == Processed
  }

  ghost predicate AllPolled(events: map<Id, Event>) {
    forall x :: x in events ==> !events[x].unpolled
  }

  ghost predicate ShowsItsRow(w: World, a: Id)
    requires a in w.tables.appointments
  {
    exists x :: x in w.events && w.events[x].uid == a && Matches(w.events[x], w.tables.appointments[a])
  }

  ghost predicate ShownAllDay(w: World, a: Id) {
    exists x :: x in w.events && w.events[x].uid == a && w.events[x].range.None?
  }

  ghost predicate ShowsItsDetails(w: World, a: Id)
    requires a in w.tables.appointments
  {
    exists x :: x in w.events && w.events[x].uid == a
        && (w.events[x].described || w.events[x].details == w.tables.appointments[a].details)
  }

  /** Once everything is processed and polled, an active appointment has its event, and the event
      stands at the appointment's time unless a guest made it an all-day event: such an edit is
      never reconciled. Its details are the appointment's unless a guest rewrote them. */
  lemma SettledExactly(run: seq<Step>, start: int, a: Id)
    requires var w := After(run, start);
      AllProcessed(w.tables) && AllPolled(w.events) && a in w.tables.appointments && w.tables.appointments[a].Active()
    ensures var w := After(run, start);
      (ShowsItsRow(w, a) <==> !ShownAllDay(w, a)) && ShowsItsDetails(w, a)
  {
    hide After, Invariant, ShowsItsRow, ShownAllDay, ShowsItsDetails;
    EveryRunKeepsInvariant(run, start);
    SettledWorld(After(run, start), a);
  }

  lemma SettledWorld(w: World, a: Id)
    requires Invariant(w) && AllProcessed(w.tables) && AllPolled(w.events)
    requires a in w.tables.appointments && w.tables.appointments[a].Active()
    ensures (ShowsItsRow(w, a) <==> !ShownAllDay(w, a)) && ShowsItsDetails(w, a)
  {
    hide Sound, DeletesStand, CancelsAccounted;
    var row := w.tables.appointments[a];
    assert !Owes(w.tables, Create, a) && !Owes(w.tables, Update, a);
    var x := row.event.value;
    assert InStep(w.tables, w.events[x]) && Told(w.tables, w.events[x]);
    assert forall y :: y in w.events && w.events[y].uid == a ==> y == x;
    assert Matches(w.events[x], row) || AllDay(w.events[x]);
  }

  // ---------- Cancelled appointments ----------

  ghost predicate LeavesEvent(w: World, a: Id) {
    exists x :: x in w.events && w.events[x].uid == a && w.events[x].life.Live?
  }

  /** Once everything is processed, a cancelled appointment still has a live event exactly when no
      event id was captured as it was cancelled and no guest removed the event. */
  lemma CancelledLeavesEventExactly(run: seq<Step>, start: int, a: Id)
    requires var w := After(run, start);
      AllProcessed(w.tables) && a in w.tables.appointments && !w.tables.appointments[a].Active()
    ensures var w := After(run, start);
      LeavesEvent(w, a) <==> !CapturedId(w.tables, a) && !RemovedBy(w.events, a)
  {
    hide After, Invariant, LeavesEvent, CapturedId, RemovedBy;
    EveryRunKeepsInvariant(run, start);
    CancelledWorld(After(run, start), a);
  }

  lemma CancelledWorld(w: World, a: Id)
    requires Invariant(w) && AllProcessed(w.tables)
    requires a in w.tables.appointments && !w.tables.appointments[a].Active()
    ensures LeavesEvent(w, a) <==> !CapturedId(w.tables, a) && !RemovedBy(w.events, a)
  {
    hide Sound, NothingLost;
    assert !Owes(w.tables, Create, a);
    var x := w.tables.appointments[a].event.value;
    assert x in w.events && w.events[x].uid == a;
    assert forall y :: y in w.events && w.events[y].uid == a ==> y == x;
    if CapturedId(w.tables, a) {
      var e :| e in w.tables.outbox && DeleteOf(e, a) && e.event.Some?;
      assert DeleteTook(e, w.events[x]);
    }
  }

  function EarlyCancel(range: TimeRange): seq<Step> {
    [OpenCall(1), BookIt(2, 1, 3, 4, range), CancelIt(2), DispatchOne(Done, 5), DispatchOne(Done, 6)]
  }

  /** Cancelling before the Create is dispatched leaves the event on the calendar for good. */
  lemma EarlyCancelLeavesEvent(range: TimeRange)
    requires range.Valid()
    ensures var w := After(EarlyCancel(range), 0); AllProcessed(w.tables) && LeavesEvent(w, 2)
  {
    hide After;
    var steps := EarlyCancel(range);
    BookedThenCancelled(range);
    var w := After(steps[..3], 0);
    AfterOne(steps, 3, 0);
    CreateIsDispatched(w, 2, Done, 5);
    assert After(steps[..4], 0).tables.outbox ==
      [Entry(Create, 2, None, Processed, 0), Entry(Delete, 2, None, Pending, 0)];
    AfterOne(steps, 4, 0);
    assert steps[..5] == steps;
    assert After(steps, 0).events[5].life.Live?;
  }

  lemma BookedThenCancelled(range: TimeRange)
    requires range.Valid()
    ensures var w := After(EarlyCancel(range)[..3], 0);
      && w.events == map[] && 2 in w.tables.appointments
      && w.tables.outbox == [Entry(Create, 2, None, Pending, 0), Entry(Delete, 2, None, Pending, 0)]
  {
    hide After;
    var steps := EarlyCancel(range);
    AfterNothing(0);
    AfterOne(steps, 0, 0);
    AfterOne(steps, 1, 0);
    assert !Conflict(After(steps[..1], 0).tables, 3, range, None);
    AfterOne(steps, 2, 0);
  }

  function AllDayEdit(range: TimeRange): seq<Step> {
    [OpenCall(1), BookIt(2, 1, 3, 4, range), DispatchOne(Done, 5), EditEvent(5, MakeAllDay), PollEvent(5, true)]
  }

  /** An event made all-day stays so, with nothing pending and nothing left to poll. */
  lemma AllDayEditIsNotReconciled(range: TimeRange)
    requires range.Valid()
    ensures var w := After(AllDayEdit(range), 0);
      && AllProcessed(w.tables) && AllPolled(w.events)
      && 2 in w.tables.appointments && w.tables.appointments[2].Active() && ShownAllDay(w, 2) && !ShowsItsRow(w, 2)
  {
    hide After;
    var steps := AllDayEdit(range);
    BookedAndProjected(range);
    AfterOne(steps, 3, 0);
    AfterOne(steps, 4, 0);
    assert steps[..5] == steps;
    assert After(steps, 0).events[5].range.None?;
  }

  lemma BookedAndProjected(range: TimeRange)
    requires range.Valid()
    ensures var w := After(AllDayEdit(range)[..3], 0);
      && 2 in w.tables.appointments && w.tables.appointments[2].Active() && w.tables.appointments[2].range == range
      && w.tables.appointments[2].updatedAt < w.now && AllProcessed(w.tables)
      && w.events.Keys == {5} && w.events[5].uid == 2 && Standing(w.events[5])
  {
    hide After;
    var steps := AllDayEdit(range);
    AfterNothing(0);
    AfterOne(steps, 0, 0);
    AfterOne(steps, 1, 0);
    assert !Conflict(After(steps[..1], 0).tables, 3, range, None);
    var w := After(steps[..2], 0);
    assert w.tables.outbox == [Entry(Create, 2, None, Pending, 0)];
    AfterOne(steps, 2, 0);
    CreateIsDispatched(w, 2, Done, 5);
  }

  lemma AfterNothing(start: int)
    ensures forall run: seq<Step> :: run == [] ==>
        After(run, start) == World(Tables(map[], map[], [], []), map[], start)
  {
  }

  lemma AfterOne(run: seq<Step>, k: nat, start: int)
    requires k < |run|
    ensures var w := After(run[..k], start);
      After(run[..k + 1], start) == if Possible(w, run[k]) then Next(w, run[k]) else w
  {
    assert run[..k + 1][..k] == run[..k];
  }

  lemma CreateIsDispatched(w: World, a: Id, outcome: Outcome, newId: Id)
    requires w.events == map[] && a in w.tables.appointments && outcome.Done?
    requires w.tables.outbox != [] && w.tables.outbox[0] == Entry(Create, a, None, Pending, 0)
    ensures var v := Dispatch(w, outcome, newId);
      && v.events == map[newId := Projected(a, w.tables.appointments[a], w.now + 1)]
      && v.tables.outbox == w.tables.outbox[0 := Completed(w.tables.outbox[0])]
      && v.tables.appointments == w.tables.appointments[a := w.tables.appointments[a].(event := Some(newId))]
  {
  }

  // ---------- A rejected move ----------

  /** The guest's unseen move of this appointment's event, which the policy or another appointment
      forbids. */
  ghost predicate MoveIsRejected(w: World, x: Id, verdict: bool) {
    && x in w.events && w.events[x].uid in w.tables.appointments
    && var row := w.tables.appointments[w.events[x].uid];
       && row.Active() && Unseen(w.events[x], row) && Standing(w.events[x])
       && w.events[x].range.Some? && w.events[x].range.value != row.range
       && !Accepts(w.tables, w.events[x].uid, w.events[x].range.value, verdict)
  }

  /** A rejected move is undone by one Update: afterwards the event stands at the appointment's time
      again, and polling it once more changes nothing. */
  lemma RejectedMoveSettles(w: World, x: Id, newId: Id, verdict: bool, again: bool)
    requires MoveIsRejected(w, x, verdict)
    requires FirstPending(w.tables.outbox) == |w.tables.outbox|
    requires w.tables.appointments[w.events[x].uid].event == Some(x)
    ensures var a := w.events[x].uid;
      var settled := Dispatch(Poll(w, x, verdict), Done, newId);
      && settled.tables.appointments == w.tables.appointments
      && x in settled.events && Matches(settled.events[x], w.tables.appointments[a])
      && FirstPending(settled.tables.outbox) == |settled.tables.outbox|
      && Poll(settled, x, again).tables == settled.tables
  {
    var a := w.events[x].uid;
    var v := Poll(w, x, verdict);
    assert v.tables == Enqueued(w.tables, Update, a, None);
    var k := |w.tables.outbox|;
    assert v.tables.outbox[k].status == Pending && v.tables.outbox[..k] == w.tables.outbox;
    assert FirstPending(v.tables.outbox) == k;
    var settled := Dispatch(v, Done, newId);
    assert settled.tables.outbox == v.tables.outbox[k := Completed(v.tables.outbox[k])];
    EchoChangesNothing(settled.tables, ChangeOf(settled.events[x]), again, settled.now + 1);
  }

  // ---------- The drain ----------

  function Left(e: Entry): nat {
    if e.status == Pending && e.attempts < MAX_ATTEMPTS then MAX_ATTEMPTS - e.attempts else 0
  }

  /** The attempts the pending entries have left. */
  function Work(outbox: seq<Entry>): nat {
    if outbox == [] then 0 else Left(outbox[0]) + Work(outbox[1..])
  }

  function CountOf(outbox: seq<Entry>, status: EntryStatus): nat {
    if outbox == [] then 0 else (if outbox[0].status == status then 1 else 0) + CountOf(outbox[1..], status)
  }

  ghost predicate AttemptsSound(outbox: seq<Entry>) {
    forall e :: e in outbox ==> e.attempts <= MAX_ATTEMPTS && (e.status == Failed <==> e.attempts == MAX_ATTEMPTS)
  }

  lemma {:induction false} Replacing(outbox: seq<Entry>, k: nat, e: Entry, status: EntryStatus)
    requires k < |outbox|
    ensures Work(outbox[k := e]) == Work(outbox) - Left(outbox[k]) + Left(e)
    ensures CountOf(outbox[k := e], status) == CountOf(outbox, status)
      - (if outbox[k].status == status then 1 else 0) + (if e.status == status then 1 else 0)
  {
    if k == 0 {
      assert outbox[0 := e][1..] == outbox[1..];
    } else {
      assert outbox[k := e][1..] == outbox[1..][k - 1 := e];
      Replacing(outbox[1..], k - 1, e, status);
    }
  }

  /** Every claim that lives to commit uses up attempts. */
  lemma ClaimLowersWork(t: Tables, k: nat, answer: Answer, outcome: Outcome)
    requires AttemptsSound(t.outbox) && k < |t.outbox| && t.outbox[k].status == Pending && !outcome.Crashed?
    ensures var u := TablesAfter(t, k, answer, outcome);
      && AttemptsSound(u.outbox) && |u.outbox| == |t.outbox| && Work(u.outbox) < Work(t.outbox)
      && CountOf(u.outbox, Processed) ==
        CountOf(t.outbox, Processed) + (if Succeeds(t.outbox[k], answer, outcome) then 1 else 0)
  {
    hide Work, CountOf;
    assert t.outbox[k] in t.outbox;
    Replacing(t.outbox, k, Completed(t.outbox[k]), Processed);
    Replacing(t.outbox, k, Attempted(t.outbox[k]), Processed);
  }

  /** One run of the dispatcher: at most one claim per expected calendar call, until nothing is
      pending; with the number of entries processed. */
  ghost function RunOnce(w: World, calls: seq<(Outcome, Id)>): (World, nat)
    requires forall c :: c in calls ==> !c.0.Crashed?
    decreases |calls|
  {
    var k := FirstPending(w.tables.outbox);
    if calls == [] || k == |w.tables.outbox| then (w, 0)
    else
      var v := Dispatch(w, calls[0].0, calls[0].1);
      var (u, n) := RunOnce(v, calls[1..]);
      (u, n + if v.tables.outbox[k].status == Processed then 1 else 0)
  }

  /** Whatever the calendar answers, a long enough run empties the queue: every entry is processed
      or was dead-lettered after exactly five attempts, and the run reports how many it processed. */
  lemma {:induction false} DrainTerminates(w: World, calls: seq<(Outcome, Id)>)
    requires AttemptsSound(w.tables.outbox) && |calls| >= Work(w.tables.outbox)
    requires forall c :: c in calls ==> !c.0.Crashed?
    ensures var (u, n) := RunOnce(w, calls);
      && |u.tables.outbox| == |w.tables.outbox|
      && (forall e :: e in u.tables.outbox ==>
          e.status == Processed || (e.status == Failed && e.attempts == 5))
      && CountOf(u.tables.outbox, Processed) == CountOf(w.tables.outbox, Processed) + n
    decreases |calls|
  {
    hide Dispatch, Work, CountOf, FirstPending;
    var k := FirstPending(w.tables.outbox);
    if k == |w.tables.outbox| {
    } else {
      DispatchLowersWork(w, Refused, 0);
      DispatchLowersWork(w, calls[0].0, calls[0].1);
      DrainTerminates(Dispatch(w, calls[0].0, calls[0].1), calls[1..]);
    }
  }

  lemma DispatchLowersWork(w: World, outcome: Outcome, newId: Id)
    requires AttemptsSound(w.tables.outbox) && FirstPending(w.tables.outbox) < |w.tables.outbox| && !outcome.Crashed?
    ensures var k := FirstPending(w.tables.outbox);
      var outbox := Dispatch(w, outcome, newId).tables.outbox;
      && AttemptsSound(outbox) && |outbox| == |w.tables.outbox| && Work(outbox) < Work(w.tables.outbox)
      && CountOf(outbox, Processed) ==
        CountOf(w.tables.outbox, Processed) + (if outbox[k].status == Processed then 1 else 0)
  {
    hide AttemptsSound, Work, CountOf, Call, FirstPending;
    var k := FirstPending(w.tables.outbox);
    ClaimLowersWork(w.tables, k, Call(w.tables, w.events, w.tables.outbox[k], newId, w.now + 1), outcome);
  }

  /** Five calls for each pending entry are always enough. */
  lemma {:induction false} FiveCallsEach(outbox: seq<Entry>)
    ensures Work(outbox) <= 5 * CountOf(outbox, Pending)
  {
    if outbox == [] {
    } else {
      FiveCallsEach(outbox[1..]);
    }
  }

  ghost predicate NewIds(events: map<Id, Event>, calls: seq<(Outcome, Id)>) {
    && (forall i :: 0 <= i < |calls| ==> calls[i].1 !in events)
    && (forall i, j :: 0 <= i < j < |calls| ==> calls[i].1 != calls[j].1)
  }

  lemma DispatchAddsOnly(w: World, outcome: Outcome, newId: Id)
    ensures forall x :: x in Dispatch(w, outcome, newId).events ==> x in w.events || x == newId
  {
  }

  lemma {:induction false} RunOnceKeepsInvariant(w: World, calls: seq<(Outcome, Id)>)
    requires Invariant(w) && NewIds(w.events, calls) && forall c :: c in calls ==> !c.0.Crashed?
    ensures Invariant(RunOnce(w, calls).0)
    decreases |calls|
  {
    hide Invariant, Dispatch;
    if calls == [] {
    } else {
      var v := Dispatch(w, calls[0].0, calls[0].1);
      DispatchKeepsInvariant(w, calls[0].0, calls[0].1);
      DispatchAddsOnly(w, calls[0].0, calls[0].1);
      RunOnceKeepsInvariant(v, calls[1..]);
    }
  }

  /** What a dispatch leaves alone: rows but for their event ids, and which edits are unseen. */
  ghost predicate Undisturbed(w: World, u: World, x: Id)
    requires x in w.events
  {
    && u.tables.appointments.Keys == w.tables.appointments.Keys
    && (forall a :: a in w.tables.appointments ==>
         u.tables.appointments[a].(event := w.tables.appointments[a].event) == w.tables.appointments[a])
    && x in u.events && u.events[x].uid == w.events[x].uid && u.events[x].unpolled == w.events[x].unpolled
    && (w.events[x].range.Some? ==> u.events[x].range.Some?)
  }

  lemma DispatchUndisturbing(w: World, outcome: Outcome, newId: Id, x: Id)
    requires x in w.events && newId != x
    ensures Undisturbed(w, Dispatch(w, outcome, newId), x)
  {
    hide FirstPending, Attempted, Completed;
  }

  lemma {:induction false} RunOnceUndisturbing(w: World, calls: seq<(Outcome, Id)>, x: Id)
    requires x in w.events && NewIds(w.events, calls) && forall c :: c in calls ==> !c.0.Crashed?
    ensures Undisturbed(w, RunOnce(w, calls).0, x)
    decreases |calls|
  {
    hide Dispatch;
    if calls == [] {
    } else {
      var v := Dispatch(w, calls[0].0, calls[0].1);
      DispatchUndisturbing(w, calls[0].0, calls[0].1, x);
      DispatchAddsOnly(w, calls[0].0, calls[0].1);
      RunOnceUndisturbing(v, calls[1..], x);
    }
  }

  /** Whatever else is queued and however the calendar answers: once no Update of its appointment is
      owed, a rejected move is undone, and polling the event again changes nothing. */
  lemma RejectedMoveSettlesInAnyQueue(w: World, x: Id, verdict: bool, calls: seq<(Outcome, Id)>, again: bool)
    requires Invariant(w) && MoveIsRejected(w, x, verdict)
    requires NewIds(w.events, calls) && forall c :: c in calls ==> !c.0.Crashed?
    requires !Owes(RunOnce(Poll(w, x, verdict), calls).0.tables, Update, w.events[x].uid)
    ensures var a := w.events[x].uid;
      var u := RunOnce(Poll(w, x, verdict), calls).0;
      && a in u.tables.appointments
      && u.tables.appointments[a].(event := w.tables.appointments[a].event) == w.tables.appointments[a]
      && x in u.events && Matches(u.events[x], w.tables.appointments[a])
      && Poll(u, x, again).tables == u.tables
  {
    hide Invariant, Poll, RunOnce, Matches, Owes, Undisturbed, Accepts, NewIds;
    var v := Poll(w, x, verdict);
    RejectedPoll(w, x, verdict);
    PollKeepsInvariant(w, x, verdict);
    NewIdsAfterPoll(w, x, verdict, calls);
    RunOnceKeepsInvariant(v, calls);
    RunOnceUndisturbing(v, calls, x);
    UndisturbedSettles(w, v, RunOnce(v, calls).0, x, again);
  }

  lemma RejectedPoll(w: World, x: Id, verdict: bool)
    requires MoveIsRejected(w, x, verdict)
    ensures w.events[x].uid in w.tables.appointments && w.tables.appointments[w.events[x].uid].Active()
    ensures var v := Poll(w, x, verdict);
      && v.tables.appointments == w.tables.appointments
      && v.events == w.events[x := w.events[x].(unpolled := false)] && w.events[x].range.Some?
  {
    hide Conflict;
  }

  lemma NewIdsAfterPoll(w: World, x: Id, verdict: bool, calls: seq<(Outcome, Id)>)
    requires MoveIsRejected(w, x, verdict) && NewIds(w.events, calls)
    ensures NewIds(Poll(w, x, verdict).events, calls)
  {
    hide Reconcile;
  }

  lemma UndisturbedSettles(w: World, v: World, u: World, x: Id, again: bool)
    requires x in w.events && w.events[x].uid in w.tables.appointments
    && w.tables.appointments[w.events[x].uid].Active()
    requires v.tables.appointments == w.tables.appointments && w.events[x].range.Some?
    requires v.events == w.events[x := w.events[x].(unpolled := false)]
    requires Undisturbed(v, u, x) && Invariant(u) && !Owes(u.tables, Update, w.events[x].uid)
    ensures var a := w.events[x].uid;
      && a in u.tables.appointments
      && u.tables.appointments[a].(event := w.tables.appointments[a].event) == w.tables.appointments[a]
      && x in u.events && Matches(u.events[x], w.tables.appointments[a])
      && Poll(u, x, again).tables == u.tables
  {
    hide Sound, EventsSound, OneEventEach, Linked, DeletesStand, CancelsAccounted, Owes, Reconcile;
    assert InStep(u.tables, u.events[x]);
    EchoChangesNothing(u.tables, ChangeOf(u.events[x]), again, u.now + 1);
  }

  /** A full drain without dead letters puts every calendar right, up to all-day edits and
      appointments cancelled before their event id was known. */
  lemma DrainSettles(w: World, calls: seq<(Outcome, Id)>, a: Id)
    requires Invariant(w) && NewIds(w.events, calls) && forall c :: c in calls ==> !c.0.Crashed?
    requires |calls| >= Work(w.tables.outbox)
    requires var u := RunOnce(w, calls).0;
      (forall e :: e in u.tables.outbox ==> e.status != Failed) && AllPolled(u.events) && a in u.tables.appointments
    ensures var u := RunOnce(w, calls).0;
      if u.tables.appointments[a].Active() then (ShowsItsRow(u, a) <==> !ShownAllDay(u, a)) && ShowsItsDetails(u, a)
      else LeavesEvent(u, a) <==> !CapturedId(u.tables, a) && !RemovedBy(u.events, a)
  {
    hide Invariant, RunOnce, ShowsItsRow, ShownAllDay, ShowsItsDetails, LeavesEvent, CapturedId, RemovedBy;
    var u := RunOnce(w, calls).0;
    SoundMeansAttemptsSound(w);
    RunOnceKeepsInvariant(w, calls);
    DrainTerminates(w, calls);
    BothSettle(u, a);
  }

  lemma BothSettle(u: World, a: Id)
    requires Invariant(u) && AllProcessed(u.tables) && AllPolled(u.events) && a in u.tables.appointments
    ensures
      if u.tables.appointments[a].Active() then (ShowsItsRow(u, a) <==> !ShownAllDay(u, a)) && ShowsItsDetails(u, a)
      else LeavesEvent(u, a) <==> !CapturedId(u.tables, a) && !RemovedBy(u.events, a)
  {
    hide Invariant, ShowsItsRow, ShownAllDay, ShowsItsDetails, LeavesEvent, CapturedId, RemovedBy;
    if u.tables.appointments[a].Active() {
      SettledWorld(u, a);
    } else {
      CancelledWorld(u, a);
    }
  }

  lemma SoundMeansAttemptsSound(w: World)
    requires Invariant(w)
    ensures AttemptsSound(w.tables.outbox)
  {
  }
}
