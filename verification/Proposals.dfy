/**
 Slot proposals: what is offered is exactly what can be booked, and all of it can be.
 */
module Proposals {
  import opened Strings
  import opened Time
  import opened WorkingHours
  import opened Availability
  import opened Scheduling
  import opened SchedulingService

  function NotBefore(slots: seq<TimeRange>, now: int): (r: seq<TimeRange>)
    ensures forall s :: s in r <==> s in slots && s.start >= now
  {
    if slots == [] then []
    else (if slots[0].start >= now then [slots[0]] else []) + NotBefore(slots[1..], now)
  }

  lemma {:induction false} NotBeforeInOrder(slots: seq<TimeRange>, now: int)
    requires InOrder(slots)
    ensures InOrder(NotBefore(slots, now))
  {
    if slots == [] {
    } else {
      NotBeforeInOrder(slots[1..], now);
      var rest := NotBefore(slots[1..], now);
      assert slots[0].Valid();
      forall i | 0 <= i < |rest| ensures slots[0].end <= rest[i].start {
        assert rest[i] in rest && rest[i] in slots[1..];
      }
      hide InOrder;
      InOrderCons(slots[0], rest);
    }
  }

  /** The technician's active appointment b, with range r, overlaps the window. */
  predicate Busy(t: Tables, technician: Id, window: TimeRange, b: Id, r: TimeRange) {
    b in t.appointments && r == t.appointments[b].range && Blocks(t.appointments[b], b, technician, window, None)
  }

  /** Busy time was read for the days asked for only; inside them that misses no conflict. */
  lemma ListedIsAllThatConflicts(t: Tables, technician: Id, window: TimeRange, slot: TimeRange, listed: seq<TimeRange>)
    requires forall r :: r in listed <==> exists b: Id :: Busy(t, technician, window, b, r)
    requires window.start <= slot.start && slot.end <= window.end
    ensures Free(slot, listed) <==> !Conflict(t, technician, slot, None)
  {
    if Conflict(t, technician, slot, None) {
      var b :| b in t.appointments && Blocks(t.appointments[b], b, technician, slot, None);
      assert Busy(t, technician, window, b, t.appointments[b].range);
      assert t.appointments[b].range in listed;
    } else {
      forall i | 0 <= i < |listed| ensures !slot.Overlaps(listed[i]) {
        assert listed[i] in listed;
        var b: Id :| Busy(t, technician, window, b, listed[i]);
        assert !Blocks(t.appointments[b], b, technician, slot, None);
      }
    }
  }

  lemma FreeOfBoth(slot: TimeRange, a: seq<TimeRange>, b: seq<TimeRange>)
    ensures Free(slot, a + b) <==> Free(slot, a) && Free(slot, b)
  {
    if Free(slot, a + b) {
      assert forall i :: 0 <= i < |a| ==> a[i] == (a + b)[i];
      assert forall i :: 0 <= i < |b| ==> b[i] == (a + b)[|a| + i];
    }
  }

  /** A slot of the days asked for that nothing blocks and that has not started. */
  ghost predicate Offerable(t: Tables, technician: Id, policy: Policy, first: int, last: int, duration: int,
                            calendarBusy: seq<TimeRange>, now: int, slot: TimeRange)
    requires duration > 0
  {
    && slot in Grid(policy.windows, policy.excluded, duration, policy.zone, first, last)
    && Free(slot, calendarBusy)
    && !Conflict(t, technician, slot, None)
    && slot.start >= now
  }

  /** The proposals are exactly the offerable slots, in order and disjoint; with windows that start
      on whole minutes the booking policy accepts each of them. */
  method ProposeSlots(s: Session, technician: Id, policy: Policy, first: int, last: int, duration: int,
                      calendarBusy: seq<TimeRange>, now: int)
    returns (slots: Option<seq<TimeRange>>)
    requires ValidWeek(policy.windows) && Regular(policy.zone, policy.windows) && first <= last + 1
    ensures slots.None? <==> duration <= 0 && Opens(policy.windows, policy.excluded, first, last)
    ensures duration > 0 ==> forall slot ::
      slot in slots.value <==>
        Offerable(s.Snapshot(), technician, policy, first, last, duration, calendarBusy, now, slot)
    ensures duration > 0 ==> InOrder(slots.value)
    ensures duration > 0 && (forall day :: first <= day <= last ==>
        StartsWhole(policy.windows, policy.excluded, duration, day)) ==>
      forall slot :: slot in slots.value ==> policy.Allows(slot)
  {
    hide FreeSlots, Grid, Regular, Free, Conflict, InOrder, IsAvailable, StartsWhole;
    var window := TimeRange(policy.zone.toInstant(first * DAY), policy.zone.toInstant((last + 1) * DAY));
    var rows := s.ListForTechnicianBetween(technician, window);
    var apptBusy := [];
    var i := 0;
    while i < |rows|
      invariant 0 <= i <= |rows| && |apptBusy| == i
      invariant forall j :: 0 <= j < i ==> apptBusy[j] == rows[j].1
    {
      apptBusy := apptBusy + [rows[i].1];
      i := i + 1;
    }
    var free := GenerateSlots(policy.windows, first, last, calendarBusy + apptBusy,
        policy.excluded, duration, policy.zone);
    if free.None? {
      return None;
    }
    slots := Some(NotBefore(free.value, now));
    if duration > 0 {
      OfferedInOrder(policy.windows, policy.excluded, duration, policy.zone, first, last, calendarBusy + apptBusy);
      NotBeforeInOrder(free.value, now);
      GridIsBookableExactly(policy.windows, policy.excluded, duration, policy.zone, first, last);
      GridInOrder(policy.windows, policy.excluded, duration, policy.zone, first, last);
      RowsListed(s.Snapshot(), technician, window, rows, apptBusy);
      forall slot | slot in Grid(policy.windows, policy.excluded, duration, policy.zone, first, last)
        ensures Free(slot, calendarBusy + apptBusy) <==>
          Free(slot, calendarBusy) && !Conflict(s.Snapshot(), technician, slot, None)
      {
        FreeOfBoth(slot, calendarBusy, apptBusy);
        ListedIsAllThatConflicts(s.Snapshot(), technician, window, slot, apptBusy);
      }
    }
  }

  lemma RowsListed(t: Tables, technician: Id, window: TimeRange, rows: seq<(Id, TimeRange)>, listed: seq<TimeRange>)
    requires forall b: Id, r :: (b, r) in rows <==> Busy(t, technician, window, b, r)
    requires |listed| == |rows| && forall j :: 0 <= j < |rows| ==> listed[j] == rows[j].1
    ensures forall r :: r in listed <==> exists b: Id :: Busy(t, technician, window, b, r)
  {
    forall r ensures r in listed <==> exists b: Id :: Busy(t, technician, window, b, r)
    {
      if r in listed {
        var j :| 0 <= j < |listed| && listed[j] == r;
        assert rows[j] in rows && rows[j] == (rows[j].0, r);
      }
      if b: Id :| Busy(t, technician, window, b, r) {
        assert (b, r) in rows;
        var j :| 0 <= j < |rows| && rows[j] == (b, r);
        assert listed[j] == r;
      }
    }
  }

  // ---------- Booking everything offered ----------

  /** Booking the slots one after another, each for its own call. */
  ghost function BookAll(t: Tables, ids: seq<Id>, calls: seq<Id>, technician: Id, customer: Id, slots: seq<TimeRange>,
      now: int): Option<Tables>
    requires |ids| == |calls| == |slots|
    decreases |slots|
  {
    if slots == [] then Some(t)
    else
      var u := Book(t, ids[0], calls[0], technician, customer, slots[0], now);
      if u.None? then None else BookAll(u.value, ids[1..], calls[1..], technician, customer, slots[1..], now)
  }

  ghost predicate Bookable(t: Tables, ids: seq<Id>, calls: seq<Id>, technician: Id, slots: seq<TimeRange>)
    requires |ids| == |calls| == |slots|
  {
    && (forall i :: 0 <= i < |slots| ==>
        ids[i] !in t.appointments && calls[i] in t.calls && t.calls[calls[i]] == CallOpen)
    && (forall i, j :: 0 <= i < j < |slots| ==> ids[i] != ids[j] && calls[i] != calls[j])
    && (forall i :: 0 <= i < |slots| ==> !Conflict(t, technician, slots[i], None))
  }

  /** Slots that are each free and pairwise in order can all be booked, one after another. */
  lemma {:induction false} AllOfferedCanBeBooked(t: Tables, ids: seq<Id>, calls: seq<Id>, technician: Id,
      customer: Id, slots: seq<TimeRange>, now: int)
    requires |ids| == |calls| == |slots| && InOrder(slots) && Bookable(t, ids, calls, technician, slots)
    ensures BookAll(t, ids, calls, technician, customer, slots, now).Some?
    decreases |slots|
  {
    if slots == [] {
    } else {
      var u := Book(t, ids[0], calls[0], technician, customer, slots[0], now).value;
      forall i | 0 < i < |slots| ensures !Conflict(u, technician, slots[i], None) {
        BookingAnother(t, u, ids[0], technician, slots[0], slots[i]);
      }
      AllOfferedCanBeBooked(u, ids[1..], calls[1..], technician, customer, slots[1..], now);
    }
  }

  lemma BookingAnother(t: Tables, u: Tables, a: Id, technician: Id, taken: TimeRange, slot: TimeRange)
    requires a !in t.appointments && a in u.appointments && u.appointments == t.appointments[a := u.appointments[a]]
    requires u.appointments[a].range == taken && taken.end <= slot.start
    requires !Conflict(t, technician, slot, None)
    ensures !Conflict(u, technician, slot, None)
  {
  }
}
