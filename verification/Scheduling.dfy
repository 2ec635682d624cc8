/**
 The scheduling tables and what each use case does to them in one committed transaction.
 A refused use case (the source raises) is None and changes nothing.
 */
module Scheduling {
  import opened Strings
  import opened Time

  type Id = nat

  datatype Status = Scheduled | Rescheduled | Cancelled
  datatype Action = Booked | Moved | CalledOff | DetailsAdded

  datatype AuditRecord = AuditRecord(action: Action, at: int)
  datatype AuditRow = AuditRow(appointment: Id, record: AuditRecord)

  datatype AppointmentRow = AppointmentRow(
    call: Id, technician: Id, customer: Id,
    range: TimeRange, status: Status, details: Option<string>,
    createdAt: int, updatedAt: int, event: Option<Id>)
  {
    predicate Active() {
      status != Cancelled
    }
  }

  datatype CallStatus = CallOpen | CallScheduled | CallCancelled

  datatype Operation = Create | Update | Delete
  datatype EntryStatus = Pending | Processed | Failed

  /** The event id is captured for Delete entries only. */
  datatype Entry = Entry(op: Operation, appointment: Id, event: Option<Id>, status: EntryStatus, attempts: nat)

  const MAX_ATTEMPTS: nat := 5

  datatype Tables = Tables(
    appointments: map<Id, AppointmentRow>, calls: map<Id, CallStatus>,
    audits: seq<AuditRow>, outbox: seq<Entry>)

  // ---------- Shared pieces ----------

  function AuditRows(a: Id, records: seq<AuditRecord>): (rows: seq<AuditRow>)
    ensures |rows| == |records| && forall i :: 0 <= i < |rows| ==> rows[i] == AuditRow(a, records[i])
  {
    seq(|records|, i requires 0 <= i < |records| => AuditRow(a, records[i]))
  }

  /** The row stored, with one audit row for each pending record. */
  function Saved(t: Tables, a: Id, row: AppointmentRow, records: seq<AuditRecord>): Tables {
    t.(appointments := t.appointments[a := row], audits := t.audits + AuditRows(a, records))
  }

  function Enqueued(t: Tables, op: Operation, a: Id, event: Option<Id>): Tables {
    t.(outbox := t.outbox + [Entry(op, a, event, Pending, 0)])
  }

  /** Another active appointment of the technician overlaps the range. */
  ghost predicate Conflict(t: Tables, technician: Id, range: TimeRange, except: Option<Id>) {
    exists b :: b in t.appointments && Blocks(t.appointments[b], b, technician, range, except)
  }

  predicate Blocks(row: AppointmentRow, b: Id, technician: Id, range: TimeRange, except: Option<Id>) {
    row.technician == technician && row.Active() && Some(b) != except && row.range.Overlaps(range)
  }

  // ---------- The four use cases ----------

  ghost function Book(t: Tables, a: Id, call: Id, technician: Id, customer: Id, range: TimeRange,
      now: int): Option<Tables> {
    if call !in t.calls || t.calls[call] != CallOpen || Conflict(t, technician, range, None) then None
    else
      var row := AppointmentRow(call, technician, customer, range, Scheduled, None, now, now, None);
      var t := Saved(t, a, row, [AuditRecord(Booked, now)]);
      Some(Enqueued(t.(calls := t.calls[call := CallScheduled]), Create, a, None))
  }

  ghost function Reschedule(t: Tables, a: Id, range: TimeRange, now: int): Option<Tables> {
    if a !in t.appointments then None
    else
      var row := t.appointments[a];
      if Conflict(t, row.technician, range, Some(a)) || !row.Active() then None
      else Some(Enqueued(MovedTo(t, a, range, now), Update, a, None))
  }

  function MovedTo(t: Tables, a: Id, range: TimeRange, now: int): Tables
    requires a in t.appointments
  {
    Saved(t, a, t.appointments[a].(range := range, status := Rescheduled, updatedAt := now), [AuditRecord(Moved, now)])
  }

  function CancelledAt(t: Tables, a: Id, now: int): Tables
    requires a in t.appointments
  {
    Saved(t, a, t.appointments[a].(status := Cancelled, updatedAt := now), [AuditRecord(CalledOff, now)])
  }

  function Cancel(t: Tables, a: Id, now: int): Option<Tables> {
    if a !in t.appointments || !t.appointments[a].Active() then None
    else Some(Enqueued(CancelledAt(t, a, now), Delete, a, t.appointments[a].event))
  }

  function AddDetails(t: Tables, a: Id, text: string, now: int): Option<Tables> {
    if a !in t.appointments || !t.appointments[a].Active() then None
    else
      var row := t.appointments[a].(details := Some(text), updatedAt := now);
      Some(Enqueued(Saved(t, a, row, [AuditRecord(DetailsAdded, now)]), Update, a, None))
  }

  // ---------- Inbound changes ----------

  /** A change read off the technician's calendar; no range when the event carries no clock times. */
  datatype Change = Change(appointment: Id, cancelled: bool, declined: bool, range: Option<TimeRange>, updatedAt: int)

  ghost predicate Accepts(t: Tables, a: Id, range: TimeRange, allowed: bool)
    requires a in t.appointments
  {
    allowed && !Conflict(t, t.appointments[a].technician, range, Some(a))
  }

  /** The tables after an inbound change, and whether it is reported as committed. `allowed` is the
      booking policy's verdict on the proposed range. */
  ghost function Reconcile(t: Tables, c: Change, allowed: bool, now: int): (Tables, bool) {
    var a := c.appointment;
    if a !in t.appointments || c.updatedAt <= t.appointments[a].updatedAt || !t.appointments[a].Active() then (t, false)
    else if c.cancelled then (CancelledAt(t, a, now), true)
    else if c.declined then (Enqueued(CancelledAt(t, a, now), Delete, a, t.appointments[a].event), true)
    else if c.range.Some? && c.range.value != t.appointments[a].range then
      if !Accepts(t, a, c.range.value, allowed) then (Enqueued(t, Update, a, None), false)
      else (MovedTo(t, a, c.range.value, now), true)
    else (t, false)
  }

  // ---------- Outbox bookkeeping ----------

  /** The position of the oldest pending entry; |outbox| when there is none. */
  function FirstPending(outbox: seq<Entry>): (k: nat)
    ensures k <= |outbox| && (k < |outbox| ==> outbox[k].status == Pending)
    ensures forall i :: 0 <= i < k ==> outbox[i].status != Pending
  {
    if outbox == [] || outbox[0].status == Pending then 0 else 1 + FirstPending(outbox[1..])
  }

  function Completed(e: Entry): Entry {
    e.(status := Processed)
  }

  function Attempted(e: Entry): Entry {
    e.(attempts := e.attempts + 1, status := if e.attempts + 1 >= MAX_ATTEMPTS then Failed else e.status)
  }

  // ---------- Reconciling a change again ----------

  /** Reconciling a change a second time leaves every appointment as the first time did, and only
      one of the two can report it. */
  lemma ReconcileTwice(t: Tables, c: Change, allowed: bool, now: int, later: int)
    ensures var (once, first) := Reconcile(t, c, allowed, now);
      var (twice, second) := Reconcile(once, c, allowed, later);
      twice.appointments == once.appointments && twice.audits == once.audits && !(first && second)
  {
  }

  /** A change that carries the row's own time, neither cancelled nor declined, changes nothing. */
  lemma EchoChangesNothing(t: Tables, c: Change, allowed: bool, now: int)
    requires !c.cancelled && !c.declined && c.appointment in t.appointments
    requires c.range == Some(t.appointments[c.appointment].range) || c.range == None
    ensures Reconcile(t, c, allowed, now) == (t, false)
  {
  }
}
