/**
 An appointment told by what was done to it: who it is for, its time, details and status, and its audit
 log, in every run of bookings, moves, details, cancellations, dispatches, guest edits and polls.
 */
module AppointmentHistory {
  import opened Strings
  import opened Time
  import opened Scheduling
  import opened BookingInvariants
  import opened CalendarSync
  import opened SyncInvariants
  import AuditTrail

  datatype Deed =
    | Born(call: Id, technician: Id, customer: Id, range: TimeRange)
    | MovedTo(range: TimeRange)
    | Told(text: string)
    | Ended

  /** What a step does to appointment a, if anything: a booking of an open call at a free time, a move
      with room beside the others, details for an active appointment, a cancellation, or a guest's newer
      edit seen by a poll. */
  ghost function DeedOf(w: World, step: Step, a: Id): Option<Deed> {
    var t := w.tables;
    if !Possible(w, step) then None
    else
      match step
      case BookIt(b, call, technician, customer, range) =>
        if b == a && call in t.calls && t.calls[call] == CallOpen && RoomFor(t, technician, range)
        then Some(Born(call, technician, customer, range)) else None
      case RescheduleIt(b, range) =>
        if b == a && Active(t, a) && RoomBeside(t, t.appointments[a].technician, range, a)
        then Some(MovedTo(range)) else None
      case AddDetailsTo(b, text) => if b == a && Active(t, a) then Some(Told(text)) else None
      case CancelIt(b) => if b == a && Active(t, a) then Some(Ended) else None
      case PollEvent(x, allowed) =>
        if w.events[x].uid == a && Active(t, a) && w.events[x].updatedAt > t.appointments[a].updatedAt
        then Asked(t, a, w.events[x], allowed) else None
      case _ => None
  }

  predicate Active(t: Tables, a: Id) {
    a in t.appointments && t.appointments[a].status != Cancelled
  }

  /** What a guest's newer edit asks for and is granted. */
  ghost function Asked(t: Tables, a: Id, event: Event, allowed: bool): Option<Deed>
    requires a in t.appointments
  {
    if !event.life.Live? || event.declined then Some(Ended)
    else
      match event.range
      case None => None
      case Some(range) =>
        if range != t.appointments[a].range && allowed && RoomBeside(t, t.appointments[a].technician, range, a)
        then Some(MovedTo(range)) else None
  }

  /** Everything done to the appointment, oldest first, with the time of the step. */
  ghost function Deeds(run: seq<Step>, start: int, a: Id): seq<(Deed, int)> {
    if run == [] then []
    else
      var init := run[..|run| - 1];
      var w := After(init, start);
      Extended(Deeds(init, start, a), DeedOf(w, run[|run| - 1], a), w.now + 1)
  }

  function Extended(deeds: seq<(Deed, int)>, deed: Option<Deed>, at: int): seq<(Deed, int)> {
    if deed.Some? then deeds + [(deed.value, at)] else deeds
  }

  // ---------- What the deeds tell ----------

  function TimeGiven(deed: Deed): Option<TimeRange> {
    match deed
    case Born(_, _, _, range) => Some(range)
    case MovedTo(range) => Some(range)
    case _ => None
  }

  /** Deed i is the last that gives a time. */
  ghost predicate LastTime(deeds: seq<(Deed, int)>, i: int) {
    0 <= i < |deeds| && TimeGiven(deeds[i].0).Some? && forall k :: i < k < |deeds| ==> TimeGiven(deeds[k].0).None?
  }

  ghost predicate LastDetails(deeds: seq<(Deed, int)>, i: int) {
    0 <= i < |deeds| && deeds[i].0.Told? && forall k :: i < k < |deeds| ==> !deeds[k].0.Told?
  }

  /** It was born once, for this call, technician and customer. */
  predicate TellBirth(deeds: seq<(Deed, int)>, row: AppointmentRow) {
    && deeds != [] && deeds[0].0.Born? && (forall i :: 0 < i < |deeds| ==> !deeds[i].0.Born?)
    && row.call == deeds[0].0.call && row.technician == deeds[0].0.technician
    && row.customer == deeds[0].0.customer && row.createdAt == deeds[0].1
    && row.updatedAt == deeds[|deeds| - 1].1
  }

  /** It stands at the last time given and holds the last details told. */
  ghost predicate TellContent(deeds: seq<(Deed, int)>, row: AppointmentRow) {
    && (exists i :: LastTime(deeds, i) && TimeGiven(deeds[i].0) == Some(row.range))
    && if row.details.None? then forall i :: 0 <= i < |deeds| ==> !deeds[i].0.Told?
       else exists i :: LastDetails(deeds, i) && deeds[i].0.text == row.details.value
  }

  ghost predicate Has(deeds: seq<(Deed, int)>, ended: bool) {
    exists i :: 0 <= i < |deeds| && if ended then deeds[i].0.Ended? else deeds[i].0.MovedTo?
  }

  /** It is cancelled iff it was ended, which nothing follows; else rescheduled iff it was moved. */
  ghost predicate TellStatus(deeds: seq<(Deed, int)>, row: AppointmentRow) {
    && (forall i :: 0 <= i < |deeds| - 1 ==> !deeds[i].0.Ended?)
    && row.status == if Has(deeds, true) then Cancelled else if Has(deeds, false) then Rescheduled else Scheduled
  }

  function ActionOf(deed: Deed): Action {
    match deed
    case Born(_, _, _, _) => Booked
    case MovedTo(_) => Moved
    case Told(_) => DetailsAdded
    case Ended => CalledOff
  }

  /** Each deed left its audit record and nothing else did. */
  predicate TellLog(deeds: seq<(Deed, int)>, records: seq<AuditRecord>) {
    && |records| == |deeds|
    && forall i :: 0 <= i < |deeds| ==> records[i] == AuditRecord(ActionOf(deeds[i].0), deeds[i].1)
  }

  ghost predicate Tell(deeds: seq<(Deed, int)>, row: AppointmentRow) {
    TellBirth(deeds, row) && TellContent(deeds, row) && TellStatus(deeds, row)
  }

  // ---------- One step ----------

  /** The row after a deed, or after none: then only the event id may differ. */
  ghost predicate RowStep(before: Option<AppointmentRow>, after: Option<AppointmentRow>, deed: Option<Deed>, at: int) {
    match deed
    case None =>
      && (before.None? <==> after.None?)
      && (before.Some? ==> after.value == before.value.(event := after.value.event))
    case Some(Born(call, technician, customer, range)) =>
      && before.None? && after.Some?
      && after.value.call == call && after.value.technician == technician && after.value.customer == customer
      && after.value.range == range && after.value.details.None? && after.value.status == Scheduled
      && after.value.createdAt == at && after.value.updatedAt == at
    case Some(MovedTo(range)) =>
      && before.Some? && before.value.status != Cancelled
      && after == Some(before.value.(range := range, status := Rescheduled, updatedAt := at))
    case Some(Told(text)) =>
      && before.Some? && before.value.status != Cancelled
      && after == Some(before.value.(details := Some(text), updatedAt := at))
    case Some(Ended) =>
      && before.Some? && before.value.status != Cancelled
      && after == Some(before.value.(status := Cancelled, updatedAt := at))
  }

  function RowAt(t: Tables, a: Id): Option<AppointmentRow> {
    if a in t.appointments then Some(t.appointments[a]) else None
  }

  predicate LogStep(before: seq<AuditRow>, after: seq<AuditRow>, a: Id, deed: Option<Deed>, at: int) {
    AuditTrail.RecordsOf(after, a) ==
      AuditTrail.RecordsOf(before, a) + if deed.Some? then [AuditRecord(ActionOf(deed.value), at)] else []
  }

  ghost predicate AppointmentStep(t: Tables, u: Tables, a: Id, deed: Option<Deed>, at: int) {
    RowStep(RowAt(t, a), RowAt(u, a), deed, at) && LogStep(t.audits, u.audits, a, deed, at)
  }

  lemma SameAudits(t: Tables, u: Tables, a: Id, at: int)
    requires u.audits == t.audits
    ensures LogStep(t.audits, u.audits, a, None, at)
  {
    hide AuditTrail.RecordsOf;
    assert AuditTrail.RecordsOf(t.audits, a) + [] == AuditTrail.RecordsOf(t.audits, a);
  }

  lemma SavedAudit(t: Tables, b: Id, row: AppointmentRow, record: AuditRecord, a: Id)
    ensures AuditTrail.RecordsOf(Saved(t, b, row, [record]).audits, a) ==
      AuditTrail.RecordsOf(t.audits, a) + if a == b then [record] else []
  {
    hide AuditTrail.RecordsOf;
    assert AuditRows(b, [record]) == [AuditRow(b, record)];
    AuditTrail.AppendRecord(t.audits, b, record, a);
  }

  lemma UseCaseDoes(w: World, step: Step, a: Id)
    requires Possible(w, step)
    requires step.BookIt? || step.RescheduleIt? || step.AddDetailsTo? || step.CancelIt? || step.OpenCall?
    ensures AppointmentStep(w.tables, Next(w, step).tables, a, DeedOf(w, step, a), w.now + 1)
  {
    hide AuditTrail.RecordsOf, Conflict, RoomFor, RoomBeside;
    var t, u, now := w.tables, Next(w, step).tables, w.now + 1;
    match step
    case OpenCall(_) => SameAudits(t, u, a, now);
    case BookIt(b, call, technician, customer, range) =>
      RoomIsNoConflict(t, technician, range, a);
      if u.audits == t.audits { SameAudits(t, u, a, now); }
      SavedAudit(t, b, AppointmentRow(call, technician, customer, range, Scheduled, None, now, now, None),
                 AuditRecord(Booked, now), a);
    case RescheduleIt(b, range) =>
      if u.audits == t.audits { SameAudits(t, u, a, now); }
      if b in t.appointments {
        RoomIsNoConflict(t, t.appointments[b].technician, range, b);
        SavedAudit(t, b, t.appointments[b].(range := range, status := Rescheduled, updatedAt := now),
                   AuditRecord(Moved, now), a);
      }
    case AddDetailsTo(b, text) =>
      if u.audits == t.audits { SameAudits(t, u, a, now); }
      if b in t.appointments {
        var row := t.appointments[b].(details := Some(text), updatedAt := now);
        SavedAudit(t, b, row, AuditRecord(DetailsAdded, now), a);
      }
    case CancelIt(b) =>
      if u.audits == t.audits { SameAudits(t, u, a, now); }
      if b in t.appointments {
        SavedAudit(t, b, t.appointments[b].(status := Cancelled, updatedAt := now), AuditRecord(CalledOff, now), a);
      }
  }

  lemma PollDoes(w: World, x: Id, allowed: bool, a: Id)
    requires x in w.events
    ensures AppointmentStep(w.tables, Poll(w, x, allowed).tables, a, DeedOf(w, PollEvent(x, allowed), a), w.now + 1)
  {
    hide AuditTrail.RecordsOf, Conflict, RoomBeside;
    var t, u, now := w.tables, Poll(w, x, allowed).tables, w.now + 1;
    var b := w.events[x].uid;
    SameAudits(t, t, a, now);
    if b in t.appointments {
      var row := t.appointments[b];
      SavedAudit(t, b, row.(status := Cancelled, updatedAt := now), AuditRecord(CalledOff, now), a);
      if w.events[x].range.Some? {
        var range := w.events[x].range.value;
        RoomIsNoConflict(t, row.technician, range, b);
        SavedAudit(t, b, row.(range := range, status := Rescheduled, updatedAt := now), AuditRecord(Moved, now), a);
      }
    }
  }

  lemma DispatchDoes(w: World, outcome: Outcome, newId: Id, a: Id)
    requires Possible(w, DispatchOne(outcome, newId))
    ensures AppointmentStep(w.tables, Dispatch(w, outcome, newId).tables, a, None, w.now + 1)
  {
    hide AuditTrail.RecordsOf, Call, FirstPending;
    SameAudits(w.tables, Dispatch(w, outcome, newId).tables, a, w.now + 1);
  }

  lemma NextDoes(w: World, step: Step, a: Id)
    requires Possible(w, step)
    ensures AppointmentStep(w.tables, Next(w, step).tables, a, DeedOf(w, step, a), w.now + 1)
  {
    hide AppointmentStep, Dispatch, Poll, Asked;
    match step
    case DispatchOne(outcome, newId) => DispatchDoes(w, outcome, newId, a);
    case PollEvent(x, allowed) => PollDoes(w, x, allowed, a);
    case EditEvent(_, _) => NothingDone(w.tables, a, w.now + 1);
    case _ => UseCaseDoes(w, step, a);
  }

  lemma NothingDone(t: Tables, a: Id, at: int)
    ensures AppointmentStep(t, t, a, None, at)
  {
    hide AuditTrail.RecordsOf;
    SameAudits(t, t, a, at);
  }

  // ---------- Every run ----------

  lemma BornIsTold(row: AppointmentRow, deed: Deed, at: int)
    requires RowStep(None, Some(row), Some(deed), at)
    ensures Tell([(deed, at)], row)
  {
    var deeds := [(deed, at)];
    assert LastTime(deeds, 0);
  }

  lemma SameIsTold(deeds: seq<(Deed, int)>, before: AppointmentRow, after: AppointmentRow)
    requires Tell(deeds, before) && after == before.(event := after.event)
    ensures Tell(deeds, after)
  {
  }

  lemma BirthGoesOn(deeds: seq<(Deed, int)>, before: AppointmentRow, after: AppointmentRow, deed: Deed, at: int)
    requires TellBirth(deeds, before) && RowStep(Some(before), Some(after), Some(deed), at)
    ensures TellBirth(deeds + [(deed, at)], after)
  {
    var all := deeds + [(deed, at)];
    assert all[|all| - 1] == (deed, at) && all[0] == deeds[0];
  }

  lemma TimeGoesOn(deeds: seq<(Deed, int)>, i: int, deed: Deed, at: int)
    requires LastTime(deeds, i)
    ensures var all := deeds + [(deed, at)];
      if TimeGiven(deed).Some? then LastTime(all, |deeds|) && all[|deeds|].0 == deed
      else LastTime(all, i) && all[i] == deeds[i]
  {
  }

  lemma DetailsGoOn(deeds: seq<(Deed, int)>, i: int, deed: Deed, at: int)
    requires LastDetails(deeds, i) && !deed.Told?
    ensures var all := deeds + [(deed, at)]; LastDetails(all, i) && all[i] == deeds[i]
  {
  }

  lemma DetailsBegin(deeds: seq<(Deed, int)>, deed: Deed, at: int)
    requires deed.Told?
    ensures var all := deeds + [(deed, at)]; LastDetails(all, |deeds|) && all[|deeds|].0 == deed
  {
  }

  lemma ContentGoesOn(deeds: seq<(Deed, int)>, before: AppointmentRow, after: AppointmentRow, deed: Deed, at: int)
    requires TellContent(deeds, before) && RowStep(Some(before), Some(after), Some(deed), at)
    ensures TellContent(deeds + [(deed, at)], after)
  {
    var i :| LastTime(deeds, i) && TimeGiven(deeds[i].0) == Some(before.range);
    TimeGoesOn(deeds, i, deed, at);
    if deed.Told? {
      DetailsBegin(deeds, deed, at);
    } else if before.details.Some? {
      var j :| LastDetails(deeds, j) && deeds[j].0.text == before.details.value;
      DetailsGoOn(deeds, j, deed, at);
    }
  }

  lemma HasSnoc(deeds: seq<(Deed, int)>, deed: Deed, at: int, ended: bool)
    ensures Has(deeds + [(deed, at)], ended) <==> Has(deeds, ended) || (if ended then deed.Ended? else deed.MovedTo?)
  {
    var all := deeds + [(deed, at)];
    assert all[|deeds|] == (deed, at);
    if i :| 0 <= i < |deeds| && if ended then deeds[i].0.Ended? else deeds[i].0.MovedTo? {
      assert all[i] == deeds[i];
    }
  }

  lemma StatusGoesOn(deeds: seq<(Deed, int)>, before: AppointmentRow, after: AppointmentRow, deed: Deed, at: int)
    requires TellStatus(deeds, before) && RowStep(Some(before), Some(after), Some(deed), at)
    ensures TellStatus(deeds + [(deed, at)], after)
  {
    var all := deeds + [(deed, at)];
    HasSnoc(deeds, deed, at, true);
    HasSnoc(deeds, deed, at, false);
    forall i | 0 <= i < |all| - 1 ensures !all[i].0.Ended? {
      assert all[i] == deeds[i];
    }
  }

  lemma StepIsTold(deeds: seq<(Deed, int)>, before: Option<AppointmentRow>, after: Option<AppointmentRow>,
                   deed: Option<Deed>, at: int)
    requires if before.Some? then Tell(deeds, before.value) else deeds == []
    requires RowStep(before, after, deed, at)
    ensures var all := Extended(deeds, deed, at); if after.Some? then Tell(all, after.value) else all == []
  {
    hide TellBirth, TellContent, TellStatus;
    if deed.None? {
      if before.Some? { SameIsTold(deeds, before.value, after.value); }
    } else if before.None? {
      BornIsTold(after.value, deed.value, at);
      assert [] + [(deed.value, at)] == [(deed.value, at)];
    } else {
      BirthGoesOn(deeds, before.value, after.value, deed.value, at);
      ContentGoesOn(deeds, before.value, after.value, deed.value, at);
      StatusGoesOn(deeds, before.value, after.value, deed.value, at);
    }
  }

  lemma LogGoesOn(deeds: seq<(Deed, int)>, before: seq<AuditRow>, after: seq<AuditRow>, a: Id, deed: Option<Deed>,
                  at: int)
    requires TellLog(deeds, AuditTrail.RecordsOf(before, a)) && LogStep(before, after, a, deed, at)
    ensures TellLog(Extended(deeds, deed, at), AuditTrail.RecordsOf(after, a))
  {
    hide AuditTrail.RecordsOf, ActionOf;
  }

  /** In every run an appointment is what was done to it: booked once, for its call, technician and
      customer; standing at the last time it was given by a booking, a move or a guest's accepted edit;
      holding the last details told; cancelled iff it was ended; and its audit log lists exactly these
      deeds with their times. */
  lemma {:induction false} EveryRunIsTold(run: seq<Step>, start: int, a: Id)
    ensures var t := After(run, start).tables;
      var deeds := Deeds(run, start, a);
      && (if a in t.appointments then Tell(deeds, t.appointments[a]) else deeds == [])
      && TellLog(deeds, AuditTrail.RecordsOf(t.audits, a))
  {
    hide Next, Possible, Tell, TellLog, RowStep, LogStep, DeedOf, Extended, AuditTrail.RecordsOf;
    if run == [] {
      NothingTold(a);
    } else {
      var init := run[..|run| - 1];
      var w, step := After(init, start), run[|run| - 1];
      EveryRunIsTold(init, start, a);
      if Possible(w, step) {
        var deed := DeedOf(w, step, a);
        NextDoes(w, step, a);
        StepIsTold(Deeds(init, start, a), RowAt(w.tables, a), RowAt(Next(w, step).tables, a), deed, w.now + 1);
        LogGoesOn(Deeds(init, start, a), w.tables.audits, Next(w, step).tables.audits, a, deed, w.now + 1);
      } else {
        ImpossibleDoesNothing(w, step, a, Deeds(init, start, a));
      }
    }
  }

  lemma NothingTold(a: Id)
    ensures TellLog([], AuditTrail.RecordsOf([], a))
  {
  }

  lemma ImpossibleDoesNothing(w: World, step: Step, a: Id, deeds: seq<(Deed, int)>)
    requires !Possible(w, step)
    ensures Extended(deeds, DeedOf(w, step, a), w.now + 1) == deeds
  {
  }
}
