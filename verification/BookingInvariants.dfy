/**
 What every use case keeps in the scheduling tables: no technician is double-booked, no service
 call is booked twice, and every outbox entry is in order.
 */
module BookingInvariants {
  import opened Strings
  import opened Time
  import opened Scheduling

  ghost predicate RowsSound(t: Tables, now: int) {
    forall a :: a in t.appointments ==> RowSound(t, t.appointments[a], now)
  }

  predicate RowSound(t: Tables, row: AppointmentRow, now: int) {
    row.range.Valid() && row.updatedAt <= now && row.call in t.calls && t.calls[row.call] == CallScheduled
  }

  /** Each service call is booked by at most one appointment. */
  ghost predicate BookedOnce(t: Tables) {
    forall a, b :: a in t.appointments && b in t.appointments && t.appointments[a].call == t.appointments[b].call ==>
        a == b
  }

  predicate Apart(r: AppointmentRow, s: AppointmentRow) {
    r.Active() && s.Active() && r.technician == s.technician ==> !r.range.Overlaps(s.range)
  }

  /** Active appointments of one technician never overlap: what the database's exclusion
      constraint demands. */
  ghost predicate NoDoubleBooking(t: Tables) {
    forall a, b :: a in t.appointments && b in t.appointments && a != b ==> Apart(t.appointments[a], t.appointments[b])
  }

  predicate EntrySound(t: Tables, e: Entry) {
    && e.appointment in t.appointments
    && e.attempts <= MAX_ATTEMPTS
    && (e.status == Failed <==> e.attempts == MAX_ATTEMPTS)
    && (e.op.Delete? ==> !t.appointments[e.appointment].Active())
    && (e.event.Some? ==> e.op.Delete? && e.event == t.appointments[e.appointment].event)
  }

  ghost predicate EntriesSound(t: Tables) {
    forall e :: e in t.outbox ==> EntrySound(t, e)
  }

  ghost predicate Sound(t: Tables, now: int) {
    RowsSound(t, now) && BookedOnce(t) && NoDoubleBooking(t) && EntriesSound(t)
  }

  // ---------- Each use case keeps them ----------

  lemma BookKeepsSound(t: Tables, a: Id, call: Id, technician: Id, customer: Id, range: TimeRange, now: int,
      before: int)
    requires Sound(t, before) && before < now && a !in t.appointments && range.Valid()
    ensures var u := Book(t, a, call, technician, customer, range, now); u.Some? ==> Sound(u.value, now)
  {
    var u := Book(t, a, call, technician, customer, range, now);
    if u.Some? {
      forall b | b in t.appointments
        ensures Apart(u.value.appointments[a], t.appointments[b]) && Apart(t.appointments[b], u.value.appointments[a]) {
        assert !Blocks(t.appointments[b], b, technician, range, None);
      }
    }
  }

  lemma RescheduleKeepsSound(t: Tables, a: Id, range: TimeRange, now: int, before: int)
    requires Sound(t, before) && before < now && range.Valid()
    ensures var u := Reschedule(t, a, range, now); u.Some? ==> Sound(u.value, now)
  {
    if Reschedule(t, a, range, now).Some? {
      MoveKeepsSound(t, a, range, now, before);
    }
  }

  lemma MoveKeepsSound(t: Tables, a: Id, range: TimeRange, now: int, before: int)
    requires Sound(t, before) && before < now && range.Valid()
    requires a in t.appointments && t.appointments[a].Active()
    requires !Conflict(t, t.appointments[a].technician, range, Some(a))
    ensures Sound(MovedTo(t, a, range, now), now)
  {
    var u := MovedTo(t, a, range, now);
    forall b | b in t.appointments && b != a
      ensures Apart(u.appointments[a], t.appointments[b]) && Apart(t.appointments[b], u.appointments[a]) {
      assert !Blocks(t.appointments[b], b, t.appointments[a].technician, range, Some(a));
    }
  }

  lemma CancelKeepsSound(t: Tables, a: Id, now: int, before: int)
    requires Sound(t, before) && before < now && a in t.appointments
    ensures Sound(CancelledAt(t, a, now), now)
  {
  }

  lemma AddDetailsKeepsSound(t: Tables, a: Id, text: string, now: int, before: int)
    requires Sound(t, before) && before < now
    ensures var u := AddDetails(t, a, text, now); u.Some? ==> Sound(u.value, now)
  {
  }

  lemma ReconcileKeepsSound(t: Tables, c: Change, allowed: bool, now: int, before: int)
    requires Sound(t, before) && before < now && (c.range.Some? ==> c.range.value.Valid())
    ensures Sound(Reconcile(t, c, allowed, now).0, now)
  {
    var a := c.appointment;
    if a in t.appointments && t.appointments[a].Active() {
      CancelKeepsSound(t, a, now, before);
      if c.range.Some? && Accepts(t, a, c.range.value, allowed) {
        MoveKeepsSound(t, a, c.range.value, now, before);
      }
    }
  }

  // ---------- What the use cases do to each other ----------

  /** Apart from appointment a, nothing that can be read about appointments or calls differs. */
  ghost predicate OthersUntouched(t: Tables, u: Tables, a: Id) {
    forall b :: b != a ==> (b in u.appointments <==> b in t.appointments) && (b in t.appointments ==>
        u.appointments[b] == t.appointments[b])
  }

  ghost predicate RoomFor(t: Tables, technician: Id, range: TimeRange) {
    forall b :: b in t.appointments && t.appointments[b].technician == technician && t.appointments[b].Active() ==>
      t.appointments[b].range.end <= range.start || range.end <= t.appointments[b].range.start
  }

  /** A booking succeeds exactly for an open call and a range that lies before or after every active
      appointment of the technician; the call cannot be booked again. */
  lemma BooksExactlyWhenFree(t: Tables, a: Id, call: Id, technician: Id, customer: Id, range: TimeRange, now: int)
    requires a !in t.appointments
    ensures var u := Book(t, a, call, technician, customer, range, now);
      && (u.Some? <==> call in t.calls && t.calls[call] == CallOpen && RoomFor(t, technician, range))
      && (u.Some? ==>
            && OthersUntouched(t, u.value, a) && a in u.value.appointments
            && u.value.appointments[a].technician == technician && u.value.appointments[a].range == range
            && (forall b, k, c, r, later :: Book(u.value, b, call, k, c, r, later).None?))
  {
  }

  /** Cancelling gives the time back: it can be booked at once for another call. */
  lemma CancelFreesTheSlot(t: Tables, a: Id, b: Id, call: Id, customer: Id, now: int, before: int)
    requires Sound(t, before) && a in t.appointments && b !in t.appointments && call in t.calls
        && t.calls[call] == CallOpen
    ensures var u := Cancel(t, a, now);
      && (u.Some? <==> t.appointments[a].Active())
      && (u.Some? ==>
            && OthersUntouched(t, u.value, a) && Cancel(u.value, a, now).None?
            && Book(u.value, b, call, t.appointments[a].technician, customer, t.appointments[a].range, now).Some?)
  {
  }

  /** Moving an appointment gives its old time back exactly when the new one does not overlap it,
      and keeps everything else about it but its status and time of change. */
  lemma MoveFreesTheOldSlotExactly(t: Tables, a: Id, range: TimeRange, b: Id, call: Id, customer: Id, now: int,
      before: int)
    requires Sound(t, before) && a in t.appointments && b !in t.appointments && call in t.calls
        && t.calls[call] == CallOpen
    requires Reschedule(t, a, range, now).Some?
    ensures var u := Reschedule(t, a, range, now).value;
      var row := t.appointments[a];
      && OthersUntouched(t, u, a)
      && u.appointments[a] == row.(range := range, status := Rescheduled, updatedAt := now)
      && (Book(u, b, call, row.technician, customer, row.range, now).Some? <==> !range.Overlaps(row.range))
  {
  }

  /** Every other active appointment of the technician lies before or after the range. */
  ghost predicate RoomBeside(t: Tables, technician: Id, range: TimeRange, a: Id) {
    forall b :: b in t.appointments && b != a && t.appointments[b].technician == technician
                && t.appointments[b].Active() ==>
      t.appointments[b].range.end <= range.start || range.end <= t.appointments[b].range.start
  }

  lemma RoomIsNoConflict(t: Tables, technician: Id, range: TimeRange, a: Id)
    ensures Conflict(t, technician, range, None) <==> !RoomFor(t, technician, range)
    ensures Conflict(t, technician, range, Some(a)) <==> !RoomBeside(t, technician, range, a)
  {
    forall b | b in t.appointments
      ensures Blocks(t.appointments[b], b, technician, range, None) <==>
        t.appointments[b].technician == technician && t.appointments[b].Active()
            && t.appointments[b].range.start < range.end && range.start < t.appointments[b].range.end
    {
    }
  }

  /** A move succeeds exactly for an active appointment and a range with room beside the others of its
      technician: its own old time is no obstacle. */
  lemma ReschedulesExactlyWhenFree(t: Tables, a: Id, range: TimeRange, now: int)
    ensures Reschedule(t, a, range, now).Some? <==>
      a in t.appointments && t.appointments[a].Active() && RoomBeside(t, t.appointments[a].technician, range, a)
  {
    hide Conflict, RoomBeside, RoomFor;
    if a in t.appointments {
      RoomIsNoConflict(t, t.appointments[a].technician, range, a);
    }
  }

  // ---------- What inbound changes do ----------

  /** A change matters exactly when it is strictly newer than an active row and cancels, declines or
      asks for another time; it is reported exactly when it touched the row. */
  lemma ReconcileActsExactly(t: Tables, c: Change, allowed: bool, now: int)
    ensures var (u, reported) := Reconcile(t, c, allowed, now);
      var a := c.appointment;
      && (u != t <==>
            && a in t.appointments && c.updatedAt > t.appointments[a].updatedAt && t.appointments[a].Active()
            && (c.cancelled || c.declined || (c.range.Some? && c.range.value != t.appointments[a].range)))
      && (reported <==> u.appointments != t.appointments)
      && (reported && u.appointments[a].Active() ==>
            c.range == Some(u.appointments[a].range) && allowed
                && !Conflict(t, t.appointments[a].technician, c.range.value, Some(a)))
      && OthersUntouched(t, u, a)
  {
    hide Conflict;
    var (u, reported) := Reconcile(t, c, allowed, now);
    var a := c.appointment;
    if a in t.appointments && c.updatedAt > t.appointments[a].updatedAt && t.appointments[a].Active() {
      if c.cancelled || c.declined {
        assert u.appointments[a].status != t.appointments[a].status;
      } else if c.range.Some? && c.range.value != t.appointments[a].range {
        if reported {
          assert u.appointments[a].range != t.appointments[a].range;
        } else {
          assert |u.outbox| == |t.outbox| + 1;
        }
      }
    }
  }
}
