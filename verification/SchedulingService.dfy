/**
 Entities that are changed in place, the repositories of one committed transaction, and the use
 cases over them, each proved to do to the tables what Scheduling says. A refused use case returns
 null or false and leaves the tables alone.
 */
module SchedulingService {
  import opened Strings
  import opened Time
  import opened WorkingHours
  import opened Scheduling
  import opened BookingInvariants
  import Availability

  /** A visit; each change appends an audit record that the repository later drains. */
  class Appointment {
    const id: Id
    const call: Id
    const technician: Id
    const customer: Id
    const createdAt: int
    var range: TimeRange
    var status: Status
    var details: Option<string>
    var updatedAt: int
    var event: Option<Id>
    var pendingAudits: seq<AuditRecord>

    constructor (id: Id, row: AppointmentRow)
      ensures this.id == id && Row() == row && pendingAudits == []
    {
      this.id := id;
      call := row.call;
      technician := row.technician;
      customer := row.customer;
      createdAt := row.createdAt;
      range := row.range;
      status := row.status;
      details := row.details;
      updatedAt := row.updatedAt;
      event := row.event;
      pendingAudits := [];
    }

    /** What the row mapper stores. */
    function Row(): AppointmentRow
      reads this
    {
      AppointmentRow(call, technician, customer, range, status, details, createdAt, updatedAt, event)
    }

    method RecordBooked(now: int)
      modifies this`pendingAudits
      ensures pendingAudits == old(pendingAudits) + [AuditRecord(Booked, now)]
    {
      pendingAudits := pendingAudits + [AuditRecord(Booked, now)];
    }

    method DrainAudits() returns (records: seq<AuditRecord>)
      modifies this`pendingAudits
      ensures records == old(pendingAudits) && pendingAudits == []
    {
      records, pendingAudits := pendingAudits, [];
    }

    method AssignExternalEvent(x: Id)
      modifies this`event
      ensures Row() == old(Row()).(event := Some(x))
    {
      event := Some(x);
    }

    method Reschedule(newRange: TimeRange, now: int) returns (ok: bool)
      modifies this
      ensures ok == old(Row().Active())
      ensures ok ==> Row() == old(Row()).(range := newRange, status := Rescheduled, updatedAt := now)
      ensures ok ==> pendingAudits == old(pendingAudits) + [AuditRecord(Moved, now)]
      ensures !ok ==> unchanged(this)
    {
      if status == Cancelled {
        return false;
      }
      range := newRange;
      status := Rescheduled;
      updatedAt := now;
      pendingAudits := pendingAudits + [AuditRecord(Moved, now)];
      return true;
    }

    method Cancel(now: int) returns (ok: bool)
      modifies this
      ensures ok == old(Row().Active())
      ensures ok ==> Row() == old(Row()).(status := Cancelled, updatedAt := now)
      ensures ok ==> pendingAudits == old(pendingAudits) + [AuditRecord(CalledOff, now)]
      ensures !ok ==> unchanged(this)
    {
      if status == Cancelled {
        return false;
      }
      status := Cancelled;
      updatedAt := now;
      pendingAudits := pendingAudits + [AuditRecord(CalledOff, now)];
      return true;
    }

    method AddDetails(text: string, now: int) returns (ok: bool)
      modifies this
      ensures ok == old(Row().Active())
      ensures ok ==> Row() == old(Row()).(details := Some(text), updatedAt := now)
      ensures ok ==> pendingAudits == old(pendingAudits) + [AuditRecord(DetailsAdded, now)]
      ensures !ok ==> unchanged(this)
    {
      if status == Cancelled {
        return false;
      }
      details := Some(text);
      updatedAt := now;
      pendingAudits := pendingAudits + [AuditRecord(DetailsAdded, now)];
      return true;
    }
  }

  /** A customer's request, scheduled once. */
  class ServiceCall {
    const id: Id
    var status: CallStatus

    constructor (id: Id, status: CallStatus)
      ensures this.id == id && this.status == status
    {
      this.id := id;
      this.status := status;
    }

    method MarkScheduled() returns (ok: bool)
      modifies this
      ensures ok == (old(status) == CallOpen)
      ensures status == if ok then CallScheduled else old(status)
    {
      if status != CallOpen {
        return false;
      }
      status := CallScheduled;
      return true;
    }
  }

  /** The session behind one unit of work: the repositories' tables. */
  class Session {
    var appointments: map<Id, AppointmentRow>
    var calls: map<Id, CallStatus>
    var audits: seq<AuditRow>
    var outbox: seq<Entry>

    constructor ()
      ensures Snapshot() == Tables(map[], map[], [], [])
    {
      appointments := map[];
      calls := map[];
      audits := [];
      outbox := [];
    }

    function Snapshot(): Tables
      reads this
    {
      Tables(appointments, calls, audits, outbox)
    }

    // ---------- Appointment repository ----------

    method AddAppointment(a: Appointment)
      modifies this, a`pendingAudits
      ensures Snapshot() == old(Saved(Snapshot(), a.id, a.Row(), a.pendingAudits)) && a.pendingAudits == []
    {
      appointments := appointments[a.id := a.Row()];
      StoreAudits(a);
    }

    /** A fresh entity for the stored row; null is NotFound. */
    method GetAppointment(id: Id) returns (a: Appointment?)
      ensures a == null <==> id !in appointments
      ensures a != null ==> fresh(a) && a.id == id && a.Row() == appointments[id] && a.pendingAudits == []
    {
      if id !in appointments {
        return null;
      }
      a := new Appointment(id, appointments[id]);
    }

    /** False is NotFound. */
    method SaveAppointment(a: Appointment) returns (ok: bool)
      modifies this, a`pendingAudits
      ensures ok == (a.id in old(appointments))
      ensures ok ==> Snapshot() == old(Saved(Snapshot(), a.id, a.Row(), a.pendingAudits)) && a.pendingAudits == []
      ensures !ok ==> unchanged(this) && unchanged(a)
    {
      if a.id !in appointments {
        return false;
      }
      appointments := appointments[a.id := a.Row()];
      StoreAudits(a);
      return true;
    }

    /** Every pending record is written exactly once, in order. */
    method StoreAudits(a: Appointment)
      modifies this`audits, a`pendingAudits
      ensures a.pendingAudits == []
      ensures audits == old(audits) + AuditRows(a.id, old(a.pendingAudits))
    {
      var records := a.DrainAudits();
      var i := 0;
      while i < |records|
        invariant 0 <= i <= |records| && a.pendingAudits == []
        invariant audits == old(audits) + AuditRows(a.id, records)[..i]
      {
        audits := audits + [AuditRow(a.id, records[i])];
        i := i + 1;
      }
    }

    /** The technician's active appointments that overlap the range. */
    method ListForTechnicianBetween(technician: Id, range: TimeRange) returns (found: seq<(Id, TimeRange)>)
      ensures forall b, r :: (b, r) in found <==>
        b in appointments && r == appointments[b].range && Blocks(appointments[b], b, technician, range, None)
    {
      found := [];
      var left := appointments.Keys;
      while left != {}
        invariant left <= appointments.Keys
        invariant forall b, r :: (b, r) in found <==>
          b in appointments && b !in left && r == appointments[b].range
              && Blocks(appointments[b], b, technician, range, None)
        decreases |left|
      {
        var b :| b in left;
        left := left - {b};
        if Blocks(appointments[b], b, technician, range, None) {
          found := found + [(b, appointments[b].range)];
        }
      }
    }

    // ---------- Outbox repository ----------

    method Enqueue(op: Operation, a: Id, event: Option<Id>)
      modifies this`outbox
      ensures Snapshot() == Enqueued(old(Snapshot()), op, a, event)
    {
      outbox := outbox + [Entry(op, a, event, Pending, 0)];
    }

    /** The position of the oldest pending entry. */
    method ClaimNext() returns (k: Option<nat>)
      ensures FirstPending(outbox) < |outbox| ==> k == Some(FirstPending(outbox))
      ensures FirstPending(outbox) == |outbox| ==> k == None
    {
      var i := 0;
      while i < |outbox|
        invariant 0 <= i <= FirstPending(outbox) <= |outbox|
      {
        if outbox[i].status == Pending {
          return Some(i);
        }
        i := i + 1;
      }
      return None;
    }

    /** False is NotFound. */
    method MarkProcessed(k: nat) returns (ok: bool)
      modifies this`outbox
      ensures ok == (k < |old(outbox)|)
      ensures outbox == if ok then old(outbox)[k := Completed(old(outbox)[k])] else old(outbox)
    {
      if k >= |outbox| {
        return false;
      }
      outbox := outbox[k := outbox[k].(status := Processed)];
      return true;
    }

    /** One attempt more; at the limit the entry is dead-lettered. False is NotFound. */
    method MarkFailed(k: nat) returns (ok: bool)
      modifies this`outbox
      ensures ok == (k < |old(outbox)|)
      ensures outbox == if ok then old(outbox)[k := Attempted(old(outbox)[k])] else old(outbox)
    {
      if k >= |outbox| {
        return false;
      }
      outbox := outbox[k := outbox[k].(attempts := outbox[k].attempts + 1)];
      if outbox[k].attempts >= MAX_ATTEMPTS {
        outbox := outbox[k := outbox[k].(status := Failed)];
      }
      return true;
    }
  }

  // ---------- Use cases ----------

  /** True iff no other active appointment of the technician overlaps the range. */
  method GuardNoOverlap(s: Session, technician: Id, range: TimeRange, except: Option<Id>) returns (clear: bool)
    ensures clear <==> !Conflict(s.Snapshot(), technician, range, except)
  {
    var conflicting := s.ListForTechnicianBetween(technician, range);
    var i := 0;
    while i < |conflicting|
      invariant 0 <= i <= |conflicting|
      invariant forall j :: 0 <= j < i ==> Some(conflicting[j].0) == except
    {
      var (b, existing) := conflicting[i];
      assert (b, existing) in conflicting;
      if Some(b) != except {
        if existing.Overlaps(range) {
          assert Blocks(s.appointments[b], b, technician, range, except);
          return false;
        }
      }
      i := i + 1;
    }
    forall b | b in s.appointments ensures !Blocks(s.appointments[b], b, technician, range, except) {
      if Blocks(s.appointments[b], b, technician, range, None) {
        assert (b, s.appointments[b].range) in conflicting;
      }
    }
    return true;
  }

  /** Books an open call; null when the call is missing or not open, the customer has cancelled too
      often of late, contact data is missing, or the time is taken. The two verdicts on the customer
      and the technician come from outside. */
  method BookAppointment(s: Session, newId: Id, call: Id, technician: Id, customer: Id, range: TimeRange, now: int,
                         rateLimited: bool, contactComplete: bool)
    returns (a: Appointment?)
    requires newId !in s.appointments
    modifies s
    ensures var booked := old(Book(s.Snapshot(), newId, call, technician, customer, range, now));
      && (a != null <==> booked.Some? && !rateLimited && contactComplete)
      && s.Snapshot() == if a != null then booked.value else old(s.Snapshot())
    ensures a != null ==> fresh(a) && a.id == newId && a.Row() == s.appointments[newId]
  {
    if call !in s.calls {
      return null;
    }
    var sc := new ServiceCall(call, s.calls[call]);
    if sc.status != CallOpen {
      return null;
    }
    if rateLimited || !contactComplete {
      return null;
    }
    var clear := GuardNoOverlap(s, technician, range, None);
    if !clear {
      return null;
    }
    a := new Appointment(newId, AppointmentRow(call, technician, customer, range, Scheduled, None, now, now, None));
    var marked := sc.MarkScheduled();
    a.RecordBooked(now);
    s.AddAppointment(a);
    s.calls := s.calls[call := sc.status];
    s.Enqueue(Create, newId, None);
  }

  /** Null when the appointment is missing or cancelled, or the time is taken by another. */
  method RescheduleAppointment(s: Session, id: Id, range: TimeRange, now: int) returns (a: Appointment?)
    modifies s
    ensures var moved := old(Reschedule(s.Snapshot(), id, range, now));
      (a != null <==> moved.Some?) && s.Snapshot() == if moved.Some? then moved.value else old(s.Snapshot())
  {
    a := s.GetAppointment(id);
    if a == null {
      return null;
    }
    var clear := GuardNoOverlap(s, a.technician, range, Some(id));
    if !clear {
      return null;
    }
    var ok := a.Reschedule(range, now);
    if !ok {
      return null;
    }
    ok := s.SaveAppointment(a);
    s.Enqueue(Update, id, None);
  }

  /** The event id known now is captured for the Delete. */
  method CancelAppointment(s: Session, id: Id, now: int) returns (a: Appointment?)
    modifies s
    ensures var cancelled := old(Cancel(s.Snapshot(), id, now));
      (a != null <==> cancelled.Some?) && s.Snapshot() == if cancelled.Some? then cancelled.value else old(s.Snapshot())
  {
    a := s.GetAppointment(id);
    if a == null {
      return null;
    }
    var ok := a.Cancel(now);
    if !ok {
      return null;
    }
    ok := s.SaveAppointment(a);
    s.Enqueue(Delete, id, a.event);
  }

  /** Attaches details and projects them. */
  method AddDetailsToAppointment(s: Session, id: Id, text: string, now: int) returns (a: Appointment?)
    modifies s
    ensures var added := old(AddDetails(s.Snapshot(), id, text, now));
      (a != null <==> added.Some?) && s.Snapshot() == if added.Some? then added.value else old(s.Snapshot())
  {
    a := s.GetAppointment(id);
    if a == null {
      return null;
    }
    var ok := a.AddDetails(text, now);
    if !ok {
      return null;
    }
    ok := s.SaveAppointment(a);
    s.Enqueue(Update, id, None);
  }

  // ---------- Inbound reconciliation ----------

  /** The inputs of the booking policy for one technician. */
  datatype Policy = Policy(windows: seq<DailyHours>, zone: Availability.Zone, excluded: set<int>) {
    predicate Allows(range: TimeRange) {
      Availability.IsAvailable(windows, zone, excluded, range)
    }
  }

  /** The booking policy first, then the other appointments. */
  method AcceptsMove(s: Session, a: Appointment, range: TimeRange, policy: Policy) returns (accepted: bool)
    requires a.id in s.appointments && a.Row() == s.appointments[a.id]
    ensures accepted <==> Accepts(s.Snapshot(), a.id, range, policy.Allows(range))
  {
    if !Availability.IsAvailable(policy.windows, policy.zone, policy.excluded, range) {
      return false;
    }
    accepted := GuardNoOverlap(s, a.technician, range, Some(a.id));
  }

  /** Applies one inbound change; true iff it is reported as committed. */
  method ReconcileChange(s: Session, c: Change, policy: Policy, now: int) returns (reported: bool)
    modifies s
    ensures (s.Snapshot(), reported) ==
      old(Reconcile(s.Snapshot(), c, c.range.Some? && policy.Allows(c.range.value), now))
  {
    var a := s.GetAppointment(c.appointment);
    if a == null || c.updatedAt <= a.updatedAt || a.status == Cancelled {
      return false;
    }
    if c.cancelled {
      var ok := a.Cancel(now);
      assert a.pendingAudits == [AuditRecord(CalledOff, now)];
      ok := s.SaveAppointment(a);
      return true;
    }
    if c.declined {
      var ok := a.Cancel(now);
      assert a.pendingAudits == [AuditRecord(CalledOff, now)];
      ok := s.SaveAppointment(a);
      s.Enqueue(Delete, a.id, a.event);
      return true;
    }
    if c.range.Some? && c.range.value != a.range {
      var accepted := AcceptsMove(s, a, c.range.value, policy);
      if !accepted {
        s.Enqueue(Update, a.id, None);
        return false;
      }
      var ok := a.Reschedule(c.range.value, now);
      assert a.pendingAudits == [AuditRecord(Moved, now)];
      ok := s.SaveAppointment(a);
      return true;
    }
    return false;
  }

  /** A newer inbound move is taken exactly when it lies in working hours with room beside the
      technician's other appointments; then it is not projected back. Otherwise the row stands and one
      Update is owed, to put the event back. */
  lemma MoveIsTakenExactly(t: Tables, c: Change, policy: Policy, now: int)
    requires ValidWeek(policy.windows) && c.appointment in t.appointments && !c.cancelled && !c.declined
    requires var row := t.appointments[c.appointment];
      row.Active() && row.updatedAt < c.updatedAt && c.range.Some? && c.range.value != row.range
    ensures var a, range := c.appointment, c.range.value;
      var row := t.appointments[a];
      var taken := Availability.InHours(policy.windows, policy.zone, policy.excluded, range)
          && RoomBeside(t, row.technician, range, a);
      var (u, reported) := Reconcile(t, c, policy.Allows(range), now);
      && reported == taken
      && u.appointments ==
         (if taken then t.appointments[a := row.(range := range, status := Rescheduled, updatedAt := now)]
          else t.appointments)
      && u.outbox == if taken then t.outbox else t.outbox + [Entry(Update, a, None, Pending, 0)]
  {
    hide Conflict, RoomBeside, Availability.InHours, Availability.IsAvailable;
    Availability.AvailableExactly(policy.windows, policy.zone, policy.excluded, c.range.value);
    RoomIsNoConflict(t, t.appointments[c.appointment].technician, c.range.value, c.appointment);
  }
}
