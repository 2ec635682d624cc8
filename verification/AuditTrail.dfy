/**
 The audit log refines the appointments: in every run, an appointment's stored audit records replay
 to its status and its last change.
 */
module AuditTrail {
  import opened Scheduling
  import opened CalendarSync

  /** The records of one appointment, oldest first. */
  function RecordsOf(audits: seq<AuditRow>, a: Id): seq<AuditRecord> {
    if audits == [] then []
    else
      var last := audits[|audits| - 1];
      RecordsOf(audits[..|audits| - 1], a) + if last.appointment == a then [last.record] else []
  }

  /** The status a history leaves behind. */
  function Replay(h: seq<AuditRecord>): Status {
    if h == [] then Scheduled
    else
      match h[|h| - 1].action
      case Booked => Scheduled
      case Moved => Rescheduled
      case CalledOff => Cancelled
      case DetailsAdded => Replay(h[..|h| - 1])
  }

  /** Booked first and only once, called off last if at all, times strictly increasing. */
  predicate Legal(h: seq<AuditRecord>) {
    && h != []
    && h[0].action == Booked
    && (forall i :: 0 < i < |h| ==> h[i].action != Booked)
    && (forall i :: 0 <= i < |h| - 1 ==> h[i].action != CalledOff)
    && (forall i, j :: 0 <= i < j < |h| ==> h[i].at < h[j].at)
  }

  predicate Tells(h: seq<AuditRecord>, row: AppointmentRow) {
    && Legal(h)
    && row.status == Replay(h)
    && row.createdAt == h[0].at
    && row.updatedAt == h[|h| - 1].at
  }

  ghost predicate Recorded(h: seq<AuditRecord>, action: Action) {
    exists i :: 0 <= i < |h| && h[i].action == action
  }

  /** Replaying a legal history: cancelled iff it was ever called off, rescheduled iff it was ever
      moved and never called off. */
  lemma {:induction false} ReplayReadsHistory(h: seq<AuditRecord>)
    requires Legal(h)
    ensures Replay(h) == Cancelled <==> Recorded(h, CalledOff)
    ensures Replay(h) == Rescheduled <==> Recorded(h, Moved) && !Recorded(h, CalledOff)
  {
    var n := |h| - 1;
    if n == 0 {
    } else {
      ReplayReadsHistory(h[..n]);
      forall action ensures Recorded(h, action) <==> Recorded(h[..n], action) || h[n].action == action {
        assert Recorded(h[..n], action) ==> exists i ::
            0 <= i < n && h[..n][i].action == action && h[i].action == action;
        assert h[n].action == action ==> Recorded(h, action);
        if Recorded(h, action) && h[n].action != action {
          var i :| 0 <= i < |h| && h[i].action == action;
          assert h[..n][i].action == action;
        }
      }
    }
  }

  predicate LogTellsOf(t: Tables, a: Id, now: int) {
    var h := RecordsOf(t.audits, a);
    if a in t.appointments then Tells(h, t.appointments[a]) && t.appointments[a].updatedAt <= now else h == []
  }

  ghost predicate LogTells(t: Tables, now: int) {
    forall a :: LogTellsOf(t, a, now)
  }

  lemma AppendRecord(audits: seq<AuditRow>, a: Id, record: AuditRecord, b: Id)
    ensures RecordsOf(audits + [AuditRow(a, record)], b) == RecordsOf(audits, b) + if b == a then [record] else []
  {
  }

  function StatusAfter(status: Status, action: Action): Status {
    match action
    case Booked => Scheduled
    case Moved => Rescheduled
    case CalledOff => Cancelled
    case DetailsAdded => status
  }

  /** A saved row and its one new record agree. */
  predicate RecordFits(t: Tables, a: Id, row: AppointmentRow, record: AuditRecord) {
    && row.updatedAt == record.at
    && if a in t.appointments
       then t.appointments[a].Active() && record.action != Booked
            && row.createdAt == t.appointments[a].createdAt
            && row.status == StatusAfter(t.appointments[a].status, record.action)
       else record.action == Booked && row.createdAt == record.at && row.status == Scheduled
  }

  lemma SavedKeepsLog(t: Tables, a: Id, row: AppointmentRow, record: AuditRecord, before: int)
    requires LogTells(t, before) && before < record.at && RecordFits(t, a, row, record)
    ensures LogTells(Saved(t, a, row, [record]), record.at)
  {
    hide RecordsOf, Replay;
    var u := Saved(t, a, row, [record]);
    assert u.audits == t.audits + [AuditRow(a, record)];
    forall b ensures LogTellsOf(u, b, record.at) {
      assert LogTellsOf(t, b, before);
      AppendRecord(t.audits, a, record, b);
      if b == a {
        assert record.action == Booked <==> RecordsOf(t.audits, a) == [];
        HistoryGrows(RecordsOf(t.audits, a), record);
        assert Tells(RecordsOf(u.audits, a), row);
      } else {
        assert RecordsOf(u.audits, b) == RecordsOf(t.audits, b);
      }
    }
  }

  lemma HistoryGrows(h: seq<AuditRecord>, record: AuditRecord)
    requires h == [] || (Legal(h) && Replay(h) != Cancelled && h[|h| - 1].at < record.at)
    requires record.action == Booked <==> h == []
    ensures var g := h + [record];
      Legal(g) && g[0] == (if h == [] then record else h[0]) && Replay(g) == StatusAfter(Replay(h), record.action)
  {
  }

  // ---------- Every step, every run ----------

  /** Rows that differ in neither status nor times, and the same log. */
  ghost predicate SameLog(t: Tables, u: Tables) {
    && u.audits == t.audits
    && u.appointments.Keys == t.appointments.Keys
    && forall a :: a in t.appointments ==>
         var r, s := t.appointments[a], u.appointments[a];
         s.status == r.status && s.createdAt == r.createdAt && s.updatedAt == r.updatedAt
  }

  lemma SameLogTells(t: Tables, u: Tables, now: int)
    requires LogTells(t, now) && SameLog(t, u)
    ensures LogTells(u, now) && LogTells(u, now + 1)
  {
    hide Tells;
    forall a ensures LogTellsOf(u, a, now) {
      assert LogTellsOf(t, a, now);
      SameTells(RecordsOf(t.audits, a), t, u, a);
    }
    var later := now + 1;
    forall a ensures LogTellsOf(u, a, later) {
      assert LogTellsOf(u, a, now);
    }
  }

  lemma SameTells(h: seq<AuditRecord>, t: Tables, u: Tables, a: Id)
    requires SameLog(t, u)
    ensures a in t.appointments ==> (Tells(h, t.appointments[a]) <==> Tells(h, u.appointments[a]))
  {
  }

  lemma DispatchKeepsLog(w: World, outcome: Outcome, newId: Id)
    requires LogTells(w.tables, w.now)
    ensures LogTells(Dispatch(w, outcome, newId).tables, w.now + 1)
  {
    hide LogTells, Call;
    SameLogTells(w.tables, Dispatch(w, outcome, newId).tables, w.now);
  }

  lemma ReconcileKeepsLog(t: Tables, c: Change, allowed: bool, now: int, before: int)
    requires LogTells(t, before) && before + 1 == now
    ensures LogTells(Reconcile(t, c, allowed, now).0, now)
  {
    hide LogTells, Accepts;
    var u := Reconcile(t, c, allowed, now).0;
    if c.appointment in t.appointments && u.audits != t.audits {
      var a := c.appointment;
      var row := t.appointments[a];
      if c.cancelled || c.declined {
        SavedKeepsLog(t, a, row.(status := Cancelled, updatedAt := now), AuditRecord(CalledOff, now), before);
        SameLogTells(CancelledAt(t, a, now), u, now);
      } else {
        SavedKeepsLog(t, a, row.(range := c.range.value, status := Rescheduled, updatedAt := now),
          AuditRecord(Moved, now), before);
      }
    } else {
      SameLogTells(t, u, before);
    }
  }

  lemma UseCasesKeepLog(w: World, step: Step)
    requires LogTells(w.tables, w.now) && Possible(w, step)
    requires step.BookIt? || step.RescheduleIt? || step.AddDetailsTo? || step.CancelIt?
    ensures LogTells(Next(w, step).tables, w.now + 1)
  {
    hide LogTells, Conflict;
    var t, u, now := w.tables, Next(w, step).tables, w.now + 1;
    if u.audits == t.audits {
      assert u == t;
      SameLogTells(t, u, w.now);
    } else {
      var record := u.audits[|t.audits|].record;
      var a := step.appointment;
      SavedKeepsLog(t, a, u.appointments[a], record, w.now);
      SameLogTells(Saved(t, a, u.appointments[a], [record]), u, now);
    }
  }

  lemma NextKeepsLog(w: World, step: Step)
    requires LogTells(w.tables, w.now) && Possible(w, step)
    ensures LogTells(Next(w, step).tables, w.now + 1)
  {
    hide LogTells, Dispatch, Reconcile;
    match step
    case DispatchOne(outcome, newId) => DispatchKeepsLog(w, outcome, newId);
    case PollEvent(x, allowed) => ReconcileKeepsLog(w.tables, ChangeOf(w.events[x]), allowed, w.now + 1, w.now);
    case OpenCall(_) => SameLogTells(w.tables, Next(w, step).tables, w.now);
    case EditEvent(_, _) => SameLogTells(w.tables, w.tables, w.now);
    case _ => UseCasesKeepLog(w, step);
  }

  /** In every run each appointment's records form a legal history that replays to its status, and
      its last change is the last record's. */
  lemma {:induction false} LogTellsInEveryRun(run: seq<Step>, start: int)
    ensures var w := After(run, start); LogTells(w.tables, w.now)
  {
    hide LogTells, Next;
    if run == [] {
      EmptyLogTells(start);
    } else {
      var w := After(run[..|run| - 1], start);
      LogTellsInEveryRun(run[..|run| - 1], start);
      if Possible(w, run[|run| - 1]) {
        NextKeepsLog(w, run[|run| - 1]);
        TimeMovesOn(w, run[|run| - 1]);
      }
    }
  }

  lemma EmptyLogTells(start: int)
    ensures LogTells(Tables(map[], map[], [], []), start)
  {
  }

  lemma TimeMovesOn(w: World, step: Step)
    requires Possible(w, step)
    ensures Next(w, step).now == w.now + 1
  {
  }
}
