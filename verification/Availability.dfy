/** Half-open time intervals over instants, in microseconds. */
module Time {
  const MINUTE := 60_000_000
  const DAY := 86_400_000_000

  datatype TimeRange = TimeRange(start: int, end: int) {
    predicate Valid() {
      start < end
    }

    predicate Overlaps(other: TimeRange) {
      start < other.end && other.start < end
    }
  }

  predicate Covers(r: TimeRange, t: int) {
    r.start <= t < r.end
  }

  /** Two ranges overlap iff some instant lies in both. */
  lemma OverlapIsACommonInstant(a: TimeRange, b: TimeRange)
    requires a.Valid() && b.Valid()
    ensures a.Overlaps(b) <==> exists t :: Covers(a, t) && Covers(b, t)
  {
    var t := if a.start < b.start then b.start else a.start;
    assert a.Overlaps(b) ==> Covers(a, t) && Covers(b, t);
  }
}

/** Weekly working hours: at most one bookable window a weekday (Monday is 0). */
module WorkingHours {
  import opened Strings
  import opened Time

  /** Offsets from local midnight. */
  datatype DailyHours = DailyHours(weekday: int, start: int, end: int) {
    predicate Valid() {
      0 <= start < end < DAY
    }
  }

  predicate ValidWeek(windows: seq<DailyHours>) {
    && (forall i :: 0 <= i < |windows| ==> windows[i].Valid())
    && (forall i, j :: 0 <= i < j < |windows| ==> windows[i].weekday != windows[j].weekday)
  }

  /** The first window of that weekday. */
  function WindowFor(windows: seq<DailyHours>, weekday: int): (r: Option<DailyHours>)
    ensures r.Some? ==> r.value in windows && r.value.weekday == weekday
    ensures r.None? <==> forall d :: d in windows ==> d.weekday != weekday
  {
    if windows == [] then None
    else if windows[0].weekday == weekday then Some(windows[0])
    else
      assert windows == [windows[0]] + windows[1..];
      WindowFor(windows[1..], weekday)
  }

  /** Uniqueness of weekdays makes first-match the only match. */
  lemma WindowForIsTheOnlyMatch(windows: seq<DailyHours>, d: DailyHours)
    requires ValidWeek(windows) && d in windows
    ensures WindowFor(windows, d.weekday) == Some(d)
  {
  }
}

/**
 Slot generation by a two-pointer sweep over busy intervals sorted by start, against the naive
 reading: the grid slots that overlap nothing busy. Local wall-clock time is an integer; the zone
 maps it to instants and back.
 */
module Availability {
  import opened Strings
  import opened Time
  import opened WorkingHours

  datatype Zone = Zone(toInstant: int -> int, toLocal: int -> int)

  function Weekday(day: int): int {
    (day + 3) % 7
  }

  /** Dropping seconds, as the sweep does when it reads a window's hour and minute. */
  function WholeMinute(t: int): int {
    t / MINUTE * MINUTE
  }

  predicate InWindow(windows: seq<DailyHours>, local: int) {
    var w := WindowFor(windows, Weekday(local / DAY));
    w.Some? && WholeMinute(w.value.start) <= local % DAY <= w.value.end
  }

  predicate Charted(windows: seq<DailyHours>, local: int) {
    InWindow(windows, local) || local % DAY == 0
  }

  /** The zone keeps order on working windows and midnights, and reads windows back unchanged:
      no daylight-saving transition falls inside one. */
  ghost predicate Regular(zone: Zone, windows: seq<DailyHours>) {
    && (forall x, y :: x < y && Charted(windows, x) && Charted(windows, y) ==> zone.toInstant(x) < zone.toInstant(y))
    && (forall x :: InWindow(windows, x) ==> zone.toLocal(zone.toInstant(x)) == x)
  }

  function Slot(zone: Zone, from: int, duration: int): TimeRange {
    TimeRange(zone.toInstant(from), zone.toInstant(from + duration))
  }

  /** The slots carved from local time [from, until), in order. */
  function Carve(zone: Zone, from: int, until: int, duration: int): seq<TimeRange>
    requires duration > 0
    decreases until - from
  {
    if from + duration > until then []
    else [Slot(zone, from, duration)] + Carve(zone, from + duration, until, duration)
  }

  function OpenWindow(windows: seq<DailyHours>, holidays: set<int>, day: int): Option<DailyHours> {
    if day in holidays then None else WindowFor(windows, Weekday(day))
  }

  function DaySlots(windows: seq<DailyHours>, holidays: set<int>, duration: int, zone: Zone, day: int): seq<TimeRange>
    requires duration > 0
  {
    var w := OpenWindow(windows, holidays, day);
    if w.None? then []
    else Carve(zone, day * DAY + WholeMinute(w.value.start), day * DAY + WholeMinute(w.value.end), duration)
  }

  /** Every slot of the days [day, last], busy or not. */
  function Grid(windows: seq<DailyHours>, holidays: set<int>, duration: int, zone: Zone, day: int,
      last: int): seq<TimeRange>
    requires duration > 0
    decreases last + 1 - day
  {
    if day > last then []
    else DaySlots(windows, holidays, duration, zone, day) + Grid(windows, holidays, duration, zone, day + 1, last)
  }

  predicate Free(slot: TimeRange, busy: seq<TimeRange>) {
    forall i :: 0 <= i < |busy| ==> !slot.Overlaps(busy[i])
  }

  function FreeSlots(slots: seq<TimeRange>, busy: seq<TimeRange>): (r: seq<TimeRange>)
    ensures forall s :: s in r <==> s in slots && Free(s, busy)
  {
    if slots == [] then []
    else (if Free(slots[0], busy) then [slots[0]] else []) + FreeSlots(slots[1..], busy)
  }

  lemma {:induction false} FreeSlotsConcat(a: seq<TimeRange>, b: seq<TimeRange>, busy: seq<TimeRange>)
    ensures FreeSlots(a + b, busy) == FreeSlots(a, busy) + FreeSlots(b, busy)
  {
    if a == [] {
      assert a + b == b;
    } else {
      hide Free;
      FreeSlotsConcat(a[1..], b, busy);
      DropConcat(a, b, 1);
      Assoc(if Free(a[0], busy) then [a[0]] else [], FreeSlots(a[1..], busy), FreeSlots(b, busy));
    }
  }

  // ---------- Sorting busy time by start ----------

  predicate SortedByStart(s: seq<TimeRange>) {
    forall i, j :: 0 <= i < j < |s| ==> s[i].start <= s[j].start
  }

  lemma PutFirstSorted(b: TimeRange, s: seq<TimeRange>)
    requires SortedByStart(s) && (s != [] ==> b.start <= s[0].start)
    ensures SortedByStart([b] + s)
  {
    var t := [b] + s;
    forall i, j | 0 <= i < j < |t| ensures t[i].start <= t[j].start {
      assert t[j] == s[j - 1] && s[0].start <= s[j - 1].start;
      assert i > 0 ==> t[i] == s[i - 1];
    }
  }

  function Insert(b: TimeRange, s: seq<TimeRange>): (r: seq<TimeRange>)
    requires SortedByStart(s)
    ensures SortedByStart(r) && multiset(r) == multiset(s) + multiset{b}
    ensures |r| > 0 && (r[0] == b || (s != [] && r[0] == s[0]))
  {
    if s == [] || b.start <= s[0].start then
      assert [b] + s == [b] + s;
      [b] + s
    else
      assert s == [s[0]] + s[1..];
      var t := Insert(b, s[1..]);
      assert s[0].start <= t[0].start;
      PutFirstSorted(s[0], t);
      [s[0]] + t
  }

  function SortByStart(busy: seq<TimeRange>): (r: seq<TimeRange>)
    ensures SortedByStart(r) && multiset(r) == multiset(busy)
  {
    if busy == [] then []
    else
      assert busy == [busy[0]] + busy[1..];
      Insert(busy[0], SortByStart(busy[1..]))
  }

  lemma SortingKeepsFree(slots: seq<TimeRange>, busy: seq<TimeRange>, sorted: seq<TimeRange>)
    requires multiset(sorted) == multiset(busy)
    ensures FreeSlots(slots, sorted) == FreeSlots(slots, busy)
  {
    if slots != [] {
      FreeEither(slots[0], busy, sorted);
      SortingKeepsFree(slots[1..], busy, sorted);
    }
  }

  lemma FreeEither(slot: TimeRange, a: seq<TimeRange>, b: seq<TimeRange>)
    requires multiset(a) == multiset(b)
    ensures Free(slot, a) <==> Free(slot, b)
  {
    forall i | 0 <= i < |b| ensures b[i] in a { assert b[i] in multiset(b); }
    forall i | 0 <= i < |a| ensures a[i] in b { assert a[i] in multiset(a); }
  }

  // ---------- The sweep ----------

  /** Everything left of the pointer has ended by this instant. */
  predicate Passed(busy: seq<TimeRange>, left: int, instant: int) {
    0 <= left <= |busy| && forall i :: 0 <= i < left ==> busy[i].end <= instant
  }

  /** Moves the left pointer past intervals that ended by the slot's start, then looks ahead from it. */
  method SlotIsFree(busy: seq<TimeRange>, slot: TimeRange, from: nat) returns (left: nat, free: bool)
    requires SortedByStart(busy) && Passed(busy, from, slot.start)
    ensures from <= left && Passed(busy, left, slot.start)
    ensures free <==> Free(slot, busy)
  {
    left := from;
    while left < |busy| && busy[left].end <= slot.start
      invariant from <= left <= |busy| && Passed(busy, left, slot.start)
    {
      left := left + 1;
    }
    free := ScanFrom(busy, slot, left);
  }

  /** Looks at the intervals that start before the slot ends, from the left pointer on. */
  method ScanFrom(busy: seq<TimeRange>, slot: TimeRange, left: nat) returns (free: bool)
    requires SortedByStart(busy) && left <= |busy|
    ensures free <==> forall i :: left <= i < |busy| ==> !slot.Overlaps(busy[i])
  {
    free := true;
    var i := left;
    while i < |busy| && busy[i].start < slot.end
      invariant left <= i <= |busy|
      invariant free && forall k :: left <= k < i ==> !slot.Overlaps(busy[k])
    {
      if slot.Overlaps(busy[i]) {
        free := false;
        break;
      }
      i := i + 1;
    }
  }

  /** Sweeps one day's window, appending its free slots. */
  method SweepDay(windows: seq<DailyHours>, day: int, busy: seq<TimeRange>, holidays: set<int>, duration: int,
                  zone: Zone, from: nat, already: seq<TimeRange>, ghost seen: seq<TimeRange>)
    returns (left: nat, found: seq<TimeRange>)
    requires duration > 0 && ValidWeek(windows) && Regular(zone, windows) && SortedByStart(busy)
    requires OpenWindow(windows, holidays, day).Some?
    requires Passed(busy, from, zone.toInstant(day * DAY)) && already == FreeSlots(seen, busy)
    ensures Passed(busy, left, zone.toInstant((day + 1) * DAY))
    ensures found == FreeSlots(seen + DaySlots(windows, holidays, duration, zone, day), busy)
  {
    hide FreeSlots, Regular, Passed, Carve, InWindow, SortedByStart, WholeMinute, ValidWeek;
    var daily := OpenWindow(windows, holidays, day).value;
    var naive := day * DAY + WholeMinute(daily.start);
    var until := day * DAY + WholeMinute(daily.end);
    WindowBounds(windows, holidays, day);
    AfterMidnight(zone, windows, day, naive);
    StaysPassed(busy, from, zone.toInstant(day * DAY), zone.toInstant(naive));
    left, found := from, already;
    ghost var whole := seen + Carve(zone, naive, until, duration);
    ghost var done := seen;
    while naive + duration <= until
      invariant InWindow(windows, naive) && naive <= until
      invariant whole == done + Carve(zone, naive, until, duration)
      invariant found == FreeSlots(done, busy)
      invariant Passed(busy, left, zone.toInstant(naive))
      decreases until - naive
    {
      var slot := Slot(zone, naive, duration);
      LaterInstant(zone, windows, naive, naive + duration);
      var free;
      left, free := SlotIsFree(busy, slot, left);
      FreeSlotsSnoc(done, slot, busy);
      if free {
        found := found + [slot];
      }
      CarveStep(zone, naive, until, duration, done);
      StaysPassed(busy, left, slot.start, slot.end);
      done := done + [slot];
      naive := naive + duration;
    }
    CarveDone(zone, naive, until, duration, done);
    BeforeNextMidnight(zone, windows, day, naive);
    StaysPassed(busy, left, zone.toInstant(naive), zone.toInstant((day + 1) * DAY));
  }

  lemma BeforeNextMidnight(zone: Zone, windows: seq<DailyHours>, day: int, local: int)
    requires Regular(zone, windows) && InWindow(windows, local) && local < (day + 1) * DAY
    ensures zone.toInstant(local) <= zone.toInstant((day + 1) * DAY)
  {
    hide Regular, InWindow;
    Midnight(day + 1);
    LaterInstant(zone, windows, local, (day + 1) * DAY);
  }

  lemma AfterMidnight(zone: Zone, windows: seq<DailyHours>, day: int, local: int)
    requires Regular(zone, windows) && InWindow(windows, local) && day * DAY <= local
    ensures zone.toInstant(day * DAY) <= zone.toInstant(local)
  {
    hide Regular, InWindow;
    Midnight(day);
    LaterInstant(zone, windows, day * DAY, local);
  }

  lemma OffsetInDay(day: int, offset: int)
    requires 0 <= offset < DAY
    ensures (day * DAY + offset) / DAY == day && (day * DAY + offset) % DAY == offset
  {
  }

  lemma Midnight(day: int)
    ensures day * DAY % DAY == 0
  {
    OffsetInDay(day, 0);
  }

  lemma CarveStep(zone: Zone, from: int, until: int, duration: int, done: seq<TimeRange>)
    requires duration > 0 && from + duration <= until
    ensures done + Carve(zone, from, until, duration)
         == (done + [Slot(zone, from, duration)]) + Carve(zone, from + duration, until, duration)
  {
  }

  lemma CarveDone(zone: Zone, from: int, until: int, duration: int, done: seq<TimeRange>)
    requires duration > 0 && from + duration > until
    ensures done + Carve(zone, from, until, duration) == done
  {
  }

  lemma FreeSlotsSnoc(done: seq<TimeRange>, slot: TimeRange, busy: seq<TimeRange>)
    ensures FreeSlots(done + [slot], busy)
         == if Free(slot, busy) then FreeSlots(done, busy) + [slot] else FreeSlots(done, busy)
  {
    FreeSlotsConcat(done, [slot], busy);
    assert [slot][1..] == [] && FreeSlots([], busy) == [];
  }

  lemma LaterMidnight(zone: Zone, windows: seq<DailyHours>, day: int, later: int)
    requires Regular(zone, windows) && day <= later
    ensures zone.toInstant(day * DAY) <= zone.toInstant(later * DAY)
  {
    hide Regular, InWindow;
    Midnight(day);
    Midnight(later);
    assert day * DAY <= later * DAY;
    LaterInstant(zone, windows, day * DAY, later * DAY);
  }

  lemma StaysPassed(busy: seq<TimeRange>, left: nat, a: int, b: int)
    requires Passed(busy, left, a) && a <= b
    ensures Passed(busy, left, b)
  {
  }

  lemma NothingYet(windows: seq<DailyHours>, holidays: set<int>, duration: int, zone: Zone, first: int, last: int,
                   busy: seq<TimeRange>)
    ensures FreeSlots([], busy) == [] && Passed(busy, 0, zone.toInstant(first * DAY))
    ensures duration > 0 ==>
      Grid(windows, holidays, duration, zone, first, last) == [] + Grid(windows, holidays, duration, zone, first, last)
  {
  }

  lemma NextDay(windows: seq<DailyHours>, holidays: set<int>, duration: int, zone: Zone, day: int, last: int,
                done: seq<TimeRange>)
    requires duration > 0 && day <= last
    ensures done + Grid(windows, holidays, duration, zone, day, last)
         == (done + DaySlots(windows, holidays, duration, zone, day))
            + Grid(windows, holidays, duration, zone, day + 1, last)
  {
  }

  lemma PastTheEnd(windows: seq<DailyHours>, holidays: set<int>, duration: int, zone: Zone, day: int, last: int,
                   done: seq<TimeRange>)
    requires duration > 0 && day > last
    ensures done + Grid(windows, holidays, duration, zone, day, last) == done
  {
  }

  predicate Opens(windows: seq<DailyHours>, holidays: set<int>, first: int, last: int) {
    exists day :: first <= day <= last && OpenWindow(windows, holidays, day).Some?
  }

  /** None is the invalid range a non-positive duration builds. */
  method GenerateSlots(windows: seq<DailyHours>, first: int, last: int, busy: seq<TimeRange>,
                       holidays: set<int>, duration: int, zone: Zone)
    returns (slots: Option<seq<TimeRange>>)
    requires ValidWeek(windows) && Regular(zone, windows)
    ensures slots.None? <==> duration <= 0 && Opens(windows, holidays, first, last)
    ensures duration > 0 ==>
      slots == Some(FreeSlots(Grid(windows, holidays, duration, zone, first, last), busy))
  {
    hide FreeSlots, Grid, Regular, Passed, Carve, SortByStart;
    var sorted := SortByStart(busy);
    var found := [];
    var left := 0;
    var current := first;
    ghost var done: seq<TimeRange> := [];
    NothingYet(windows, holidays, duration, zone, first, last, sorted);
    while current <= last
      invariant duration <= 0 ==> found == [] && !Opens(windows, holidays, first, current - 1)
      invariant duration > 0 ==>
        Grid(windows, holidays, duration, zone, first, last) ==
          done + Grid(windows, holidays, duration, zone, current, last)
      invariant found == FreeSlots(done, sorted)
      invariant Passed(sorted, left, zone.toInstant(current * DAY))
      decreases last - current
    {
      if duration > 0 { NextDay(windows, holidays, duration, zone, current, last, done); }
      var daily := OpenWindow(windows, holidays, current);
      if daily.Some? {
        if duration <= 0 {
          return None;
        }
        left, found := SweepDay(windows, current, sorted, holidays, duration, zone, left, found, done);
        done := done + DaySlots(windows, holidays, duration, zone, current);
      } else {
        LaterMidnight(zone, windows, current, current + 1);
        StaysPassed(sorted, left, zone.toInstant(current * DAY), zone.toInstant((current + 1) * DAY));
        assert done + [] == done;
      }
      current := current + 1;
    }
    assert duration > 0 ==> done == Grid(windows, holidays, duration, zone, first, last) by {
      if duration > 0 { PastTheEnd(windows, holidays, duration, zone, current, last, done); }
    }
    SortingKeepsFree(done, busy, sorted);
    slots := Some(found);
  }

  lemma LaterInstant(zone: Zone, windows: seq<DailyHours>, x: int, y: int)
    requires Regular(zone, windows) && Charted(windows, x) && Charted(windows, y) && x <= y
    ensures zone.toInstant(x) <= zone.toInstant(y)
  {
    hide Charted;
  }

  lemma EarlierInstant(zone: Zone, windows: seq<DailyHours>, x: int, y: int)
    requires Regular(zone, windows) && InWindow(windows, x) && InWindow(windows, y) && x < y
    ensures zone.toInstant(x) < zone.toInstant(y)
  {
    hide InWindow;
  }

  lemma WholeMinuteBounds(a: int, b: int)
    requires 0 <= a <= b
    ensures 0 <= WholeMinute(a) <= WholeMinute(b) <= b && WholeMinute(a) <= a
  {
  }

  lemma WindowBounds(windows: seq<DailyHours>, holidays: set<int>, day: int)
    requires ValidWeek(windows) && OpenWindow(windows, holidays, day).Some?
    ensures var w := OpenWindow(windows, holidays, day).value;
      0 <= WholeMinute(w.start) <= WholeMinute(w.end) <= w.end < DAY && WholeMinute(w.start) <= w.start
    ensures var w := OpenWindow(windows, holidays, day).value;
      forall t :: day * DAY + WholeMinute(w.start) <= t <= day * DAY + w.end ==> InWindow(windows, t)
  {
    hide WholeMinute, WindowFor, Weekday;
    var w := OpenWindow(windows, holidays, day).value;
    WholeMinuteBounds(w.start, w.end);
    forall t | day * DAY + WholeMinute(w.start) <= t <= day * DAY + w.end ensures InWindow(windows, t) {
      OffsetInDay(day, t - day * DAY);
    }
  }

  // ---------- What the grid is ----------

  /** The k-th slot of an open day. */
  ghost predicate IsGridSlot(windows: seq<DailyHours>, holidays: set<int>, duration: int, zone: Zone,
                             day: int, k: nat, slot: TimeRange) {
    var w := OpenWindow(windows, holidays, day);
    && w.Some?
    && var from := day * DAY + WholeMinute(w.value.start) + k * duration;
       from + duration <= day * DAY + WholeMinute(w.value.end) && slot == Slot(zone, from, duration)
  }

  lemma {:induction false} CarveIndex(zone: Zone, from: int, until: int, duration: int, k: nat)
    requires duration > 0
    ensures k < |Carve(zone, from, until, duration)| <==> from + k * duration + duration <= until
    ensures k < |Carve(zone, from, until, duration)| ==>
      Carve(zone, from, until, duration)[k] == Slot(zone, from + k * duration, duration)
    decreases k
  {
    if from + duration <= until && k > 0 {
      CarveIndex(zone, from + duration, until, duration, k - 1);
      assert from + duration + (k - 1) * duration == from + k * duration;
    } else if k > 0 {
      assert k * duration >= 0;
    }
  }

  /** The grid holds exactly the whole slots of the open days, counted from each window's start. */
  lemma {:induction false} GridExactly(windows: seq<DailyHours>, holidays: set<int>, duration: int, zone: Zone,
                                       first: int, last: int, slot: TimeRange)
    requires duration > 0
    ensures slot in Grid(windows, holidays, duration, zone, first, last)
       <==> exists day: int, k: nat ::
           first <= day <= last && IsGridSlot(windows, holidays, duration, zone, day, k, slot)
    decreases last + 1 - first
  {
    if first > last {
    } else {
      hide DaySlots, IsGridSlot;
      DaySlotsExactly(windows, holidays, duration, zone, first, slot);
      GridExactly(windows, holidays, duration, zone, first + 1, last, slot);
      var rest := Grid(windows, holidays, duration, zone, first + 1, last);
      GridStep(windows, holidays, duration, zone, first, last);
      hide Grid;
      InConcat(slot, DaySlots(windows, holidays, duration, zone, first), rest);
    }
  }

  lemma InConcat(x: TimeRange, a: seq<TimeRange>, b: seq<TimeRange>)
    ensures x in a + b <==> x in a || x in b
  {
  }

  lemma DaySlotsExactly(windows: seq<DailyHours>, holidays: set<int>, duration: int, zone: Zone, day: int,
      slot: TimeRange)
    requires duration > 0
    ensures slot in DaySlots(windows, holidays, duration, zone, day)
       <==> exists k: nat :: IsGridSlot(windows, holidays, duration, zone, day, k, slot)
  {
    var w := OpenWindow(windows, holidays, day);
    if w.Some? {
      var from, until := day * DAY + WholeMinute(w.value.start), day * DAY + WholeMinute(w.value.end);
      hide Carve, WholeMinute, OpenWindow;
      forall k: nat
        ensures k < |Carve(zone, from, until, duration)| <==> from + k * duration + duration <= until
        ensures k < |Carve(zone, from, until, duration)| ==>
          Carve(zone, from, until, duration)[k] == Slot(zone, from + k * duration, duration)
      {
        CarveIndex(zone, from, until, duration, k);
      }
      if slot in Carve(zone, from, until, duration) {
        var k :| 0 <= k < |Carve(zone, from, until, duration)| && Carve(zone, from, until, duration)[k] == slot;
        assert IsGridSlot(windows, holidays, duration, zone, day, k, slot);
      }
    }
  }

  // ---------- Chronological and pairwise disjoint ----------

  predicate InOrder(slots: seq<TimeRange>) {
    && (forall i :: 0 <= i < |slots| ==> slots[i].Valid())
    && (forall i, j :: 0 <= i < j < |slots| ==> slots[i].end <= slots[j].start)
  }

  predicate Within(slots: seq<TimeRange>, from: int, until: int) {
    forall i :: 0 <= i < |slots| ==> from <= slots[i].start && slots[i].end <= until
  }

  lemma InOrderConcat(a: seq<TimeRange>, b: seq<TimeRange>, from: int, mid: int, until: int)
    requires InOrder(a) && InOrder(b) && Within(a, from, mid) && Within(b, mid, until) && from <= mid <= until
    ensures InOrder(a + b) && Within(a + b, from, until)
  {
  }

  lemma {:induction false} CarveInOrder(zone: Zone, windows: seq<DailyHours>, from: int, until: int, duration: int)
    requires duration > 0 && Regular(zone, windows) && from <= until
    requires forall t :: from <= t <= until ==> InWindow(windows, t)
    ensures InOrder(Carve(zone, from, until, duration))
    ensures Within(Carve(zone, from, until, duration), zone.toInstant(from), zone.toInstant(until))
    decreases until - from
  {
    hide InWindow, Regular;
    LaterInstant(zone, windows, from, until);
    if from + duration > until {
    } else {
      var slot := Slot(zone, from, duration);
      EarlierInstant(zone, windows, from, from + duration);
      LaterInstant(zone, windows, from + duration, until);
      CarveInOrder(zone, windows, from + duration, until, duration);
      InOrderConcat([slot], Carve(zone, from + duration, until, duration), slot.start, slot.end, zone.toInstant(until));
    }
  }

  lemma {:induction false} GridInOrder(windows: seq<DailyHours>, holidays: set<int>, duration: int, zone: Zone,
                                       first: int, last: int)
    requires duration > 0 && ValidWeek(windows) && Regular(zone, windows) && first <= last + 1
    ensures InOrder(Grid(windows, holidays, duration, zone, first, last))
    ensures Within(Grid(windows, holidays, duration, zone, first, last),
                   zone.toInstant(first * DAY), zone.toInstant((last + 1) * DAY))
    decreases last + 1 - first
  {
    hide *;
    if first > last {
      EmptyGrid(windows, holidays, duration, zone, first, last);
    } else {
      GridInOrder(windows, holidays, duration, zone, first + 1, last);
      DayInOrder(windows, holidays, duration, zone, first);
      LaterMidnight(zone, windows, first, first + 1);
      LaterMidnight(zone, windows, first + 1, last + 1);
      InOrderConcat(DaySlots(windows, holidays, duration, zone, first),
                    Grid(windows, holidays, duration, zone, first + 1, last),
                    zone.toInstant(first * DAY), zone.toInstant((first + 1) * DAY), zone.toInstant((last + 1) * DAY));
      GridStep(windows, holidays, duration, zone, first, last);
    }
  }

  lemma EmptyGrid(windows: seq<DailyHours>, holidays: set<int>, duration: int, zone: Zone, first: int, last: int)
    requires duration > 0 && first > last
    ensures var grid := Grid(windows, holidays, duration, zone, first, last);
      InOrder(grid) && forall from, until :: Within(grid, from, until)
  {
  }

  lemma GridStep(windows: seq<DailyHours>, holidays: set<int>, duration: int, zone: Zone, day: int, last: int)
    requires duration > 0 && day <= last
    ensures Grid(windows, holidays, duration, zone, day, last)
         == DaySlots(windows, holidays, duration, zone, day) + Grid(windows, holidays, duration, zone, day + 1, last)
  {
  }

  lemma DayInOrder(windows: seq<DailyHours>, holidays: set<int>, duration: int, zone: Zone, day: int)
    requires duration > 0 && ValidWeek(windows) && Regular(zone, windows)
    ensures InOrder(DaySlots(windows, holidays, duration, zone, day))
    ensures Within(DaySlots(windows, holidays, duration, zone, day),
                   zone.toInstant(day * DAY), zone.toInstant((day + 1) * DAY))
  {
    hide Regular, InOrder, Within, ValidWeek, WholeMinute;
    var w := OpenWindow(windows, holidays, day);
    if w.Some? {
      var a, b := day * DAY + WholeMinute(w.value.start), day * DAY + WholeMinute(w.value.end);
      WindowCharted(windows, holidays, day, a, b);
      WindowInOrder(zone, windows, duration, day, a, b);
    } else {
      EmptyInOrder(zone.toInstant(day * DAY), zone.toInstant((day + 1) * DAY));
    }
  }

  lemma EmptyInOrder(from: int, until: int)
    ensures InOrder([]) && Within([], from, until)
  {
  }

  lemma WindowCharted(windows: seq<DailyHours>, holidays: set<int>, day: int, a: int, b: int)
    requires ValidWeek(windows) && OpenWindow(windows, holidays, day).Some?
    requires var w := OpenWindow(windows, holidays, day).value;
      a == day * DAY + WholeMinute(w.start) && b == day * DAY + WholeMinute(w.end)
    ensures day * DAY <= a <= b < (day + 1) * DAY && forall t :: a <= t <= b ==> InWindow(windows, t)
  {
  }

  lemma WindowInOrder(zone: Zone, windows: seq<DailyHours>, duration: int, day: int, a: int, b: int)
    requires duration > 0 && Regular(zone, windows) && day * DAY <= a <= b < (day + 1) * DAY
    requires forall t :: a <= t <= b ==> InWindow(windows, t)
    ensures var slots := Carve(zone, a, b, duration);
      InOrder(slots) && Within(slots, zone.toInstant(day * DAY), zone.toInstant((day + 1) * DAY))
  {
    hide Regular, Carve, InWindow, InOrder, Within;
    CarveInOrder(zone, windows, a, b, duration);
    AfterMidnight(zone, windows, day, a);
    BeforeNextMidnight(zone, windows, day, b);
    WithinWider(Carve(zone, a, b, duration), zone.toInstant(a), zone.toInstant(b),
                zone.toInstant(day * DAY), zone.toInstant((day + 1) * DAY));
  }

  lemma WithinWider(slots: seq<TimeRange>, a: int, b: int, c: int, d: int)
    requires Within(slots, a, b) && c <= a && b <= d
    ensures Within(slots, c, d)
  {
  }

  lemma {:induction false} FreeSlotsInOrder(slots: seq<TimeRange>, busy: seq<TimeRange>)
    requires InOrder(slots)
    ensures InOrder(FreeSlots(slots, busy))
  {
    if slots == [] {
    } else {
      FreeSlotsInOrder(slots[1..], busy);
      var rest := FreeSlots(slots[1..], busy);
      assert slots[0].Valid();
      forall i | 0 <= i < |rest| ensures slots[0].end <= rest[i].start {
        assert rest[i] in rest && rest[i] in slots[1..];
      }
      hide InOrder, Free;
      InOrderCons(slots[0], rest);
    }
  }

  lemma InOrderCons(slot: TimeRange, rest: seq<TimeRange>)
    requires slot.Valid() && InOrder(rest) && forall i :: 0 <= i < |rest| ==> slot.end <= rest[i].start
    ensures InOrder([slot] + rest)
  {
    var all := [slot] + rest;
    forall i | 0 <= i < |all| ensures all[i] == if i == 0 then slot else rest[i - 1] {
    }
  }

  /** The slots offered are chronological and pairwise disjoint, and lie inside the days asked for. */
  lemma OfferedInOrder(windows: seq<DailyHours>, holidays: set<int>, duration: int, zone: Zone,
                       first: int, last: int, busy: seq<TimeRange>)
    requires duration > 0 && ValidWeek(windows) && Regular(zone, windows) && first <= last + 1
    ensures var slots := FreeSlots(Grid(windows, holidays, duration, zone, first, last), busy);
      InOrder(slots) && Within(slots, zone.toInstant(first * DAY), zone.toInstant((last + 1) * DAY))
  {
    hide FreeSlots, Grid, Regular;
    var grid := Grid(windows, holidays, duration, zone, first, last);
    GridInOrder(windows, holidays, duration, zone, first, last);
    FreeSlotsInOrder(grid, busy);
    var slots := FreeSlots(grid, busy);
    forall i | 0 <= i < |slots|
      ensures zone.toInstant(first * DAY) <= slots[i].start && slots[i].end <= zone.toInstant((last + 1) * DAY)
    {
      assert slots[i] in slots && slots[i] in grid;
    }
  }

  /** The grid, read off the working windows: every whole slot counted from the minute a window of an
      open day starts in, up to the minute it ends in. */
  lemma GridByWindow(windows: seq<DailyHours>, holidays: set<int>, duration: int, zone: Zone,
                     first: int, last: int, slot: TimeRange)
    requires duration > 0 && ValidWeek(windows)
    ensures slot in Grid(windows, holidays, duration, zone, first, last)
       <==> exists day: int, d: DailyHours, k: nat ::
           && first <= day <= last && day !in holidays && d in windows && d.weekday == Weekday(day)
           && WindowSlot(zone, duration, day, d, k, slot)
  {
    hide Grid, IsGridSlot, WindowSlot, ValidWeek, Weekday;
    GridExactly(windows, holidays, duration, zone, first, last, slot);
    forall day: int, d: DailyHours, k: nat | day !in holidays && d in windows && d.weekday == Weekday(day)
      ensures WindowSlot(zone, duration, day, d, k, slot) <==>
        IsGridSlot(windows, holidays, duration, zone, day, k, slot)
    {
      WindowForIsTheOnlyMatch(windows, d);
      GridSlotOfWindow(windows, holidays, duration, zone, day, d, k, slot);
    }
    if day: int, k: nat :| first <= day <= last && IsGridSlot(windows, holidays, duration, zone, day, k, slot) {
      GridSlotHasWindow(windows, holidays, duration, zone, day, k, slot);
      var d := OpenWindow(windows, holidays, day).value;
      assert WindowSlot(zone, duration, day, d, k, slot);
    }
  }

  /** The k-th slot of this window on this day. */
  predicate WindowSlot(zone: Zone, duration: int, day: int, d: DailyHours, k: nat, slot: TimeRange) {
    var from := day * DAY + (d.start - d.start % MINUTE) + k * duration;
    && from + duration <= day * DAY + (d.end - d.end % MINUTE)
    && slot == TimeRange(zone.toInstant(from), zone.toInstant(from + duration))
  }

  lemma GridSlotOfWindow(windows: seq<DailyHours>, holidays: set<int>, duration: int, zone: Zone,
                         day: int, d: DailyHours, k: nat, slot: TimeRange)
    requires day !in holidays && WindowFor(windows, Weekday(day)) == Some(d)
    ensures WindowSlot(zone, duration, day, d, k, slot) <==>
      IsGridSlot(windows, holidays, duration, zone, day, k, slot)
  {
    hide WindowFor, WholeMinute;
    WholeMinuteExact(d.start);
    WholeMinuteExact(d.end);
  }

  lemma GridSlotHasWindow(windows: seq<DailyHours>, holidays: set<int>, duration: int, zone: Zone,
                          day: int, k: nat, slot: TimeRange)
    requires IsGridSlot(windows, holidays, duration, zone, day, k, slot)
    ensures day !in holidays && OpenWindow(windows, holidays, day).Some?
    ensures var d := OpenWindow(windows, holidays, day).value; d in windows && d.weekday == Weekday(day)
  {
    hide WindowFor, WholeMinute;
  }

  // ---------- The booking policy ----------

  predicate IsAvailable(windows: seq<DailyHours>, zone: Zone, excluded: set<int>, range: TimeRange) {
    var s, e := zone.toLocal(range.start), zone.toLocal(range.end);
    if s / DAY != e / DAY || s / DAY in excluded then false
    else
      var w := WindowFor(windows, Weekday(s / DAY));
      w.Some? && w.value.start <= s % DAY && e % DAY <= w.value.end
  }

  /** Both local ends lie on one day that is not excluded, inside a working window of that weekday. */
  ghost predicate InHours(windows: seq<DailyHours>, zone: Zone, excluded: set<int>, range: TimeRange) {
    var s, e := zone.toLocal(range.start), zone.toLocal(range.end);
    exists day: int, d: DailyHours ::
      && day !in excluded && d in windows && d.weekday == Weekday(day)
      && day * DAY + d.start <= s < (day + 1) * DAY && day * DAY <= e <= day * DAY + d.end
  }

  lemma DayOf(t: int, day: int)
    ensures day * DAY <= t < (day + 1) * DAY <==> t / DAY == day
    ensures t == t / DAY * DAY + t % DAY
  {
  }

  /** The booking policy accepts exactly the ranges that lie in working hours. */
  lemma AvailableExactly(windows: seq<DailyHours>, zone: Zone, excluded: set<int>, range: TimeRange)
    requires ValidWeek(windows)
    ensures IsAvailable(windows, zone, excluded, range) <==> InHours(windows, zone, excluded, range)
  {
    hide WindowFor, Weekday;
    var s, e := zone.toLocal(range.start), zone.toLocal(range.end);
    DayOf(s, s / DAY);
    DayOf(e, e / DAY);
    if IsAvailable(windows, zone, excluded, range) {
      var d := WindowFor(windows, Weekday(s / DAY)).value;
      assert d in windows && s / DAY * DAY + d.start <= s < (s / DAY + 1) * DAY;
    }
    if InHours(windows, zone, excluded, range) {
      var day: int, d: DailyHours :|
        && day !in excluded && d in windows && d.weekday == Weekday(day)
        && day * DAY + d.start <= s < (day + 1) * DAY && day * DAY <= e <= day * DAY + d.end;
      InItsWindow(windows, d, day, s, e);
      WindowForIsTheOnlyMatch(windows, d);
    }
  }

  lemma InItsWindow(windows: seq<DailyHours>, d: DailyHours, day: int, s: int, e: int)
    requires ValidWeek(windows) && d in windows
    requires day * DAY + d.start <= s < (day + 1) * DAY && day * DAY <= e <= day * DAY + d.end
    ensures s / DAY == e / DAY == day && d.start <= s % DAY && e % DAY <= d.end
  {
    assert d.Valid();
    DayOf(s, day);
    DayOf(e, day);
  }

  /** Days count from 1 January 1970, whose proleptic ordinal is 719163; the weekday is the ordinal's
      remainder, counted from Monday. */
  lemma WeekdayIsTheCalendars(day: int)
    ensures Weekday(day) == (719163 + day + 6) % 7
    ensures Weekday(day + 7) == Weekday(day) && 0 <= Weekday(day) < 7
  {
  }

  /** A grid slot meets the policy iff it does not start before the window's exact start. */
  lemma GridSlotAvailable(windows: seq<DailyHours>, holidays: set<int>, duration: int, zone: Zone,
                          day: int, k: nat, slot: TimeRange)
    requires duration > 0 && ValidWeek(windows) && Regular(zone, windows)
    requires IsGridSlot(windows, holidays, duration, zone, day, k, slot)
    ensures var start := OpenWindow(windows, holidays, day).value.start;
      IsAvailable(windows, zone, holidays, slot) <==> start <= WholeMinute(start) + k * duration
  {
    hide Regular, WholeMinute, ValidWeek;
    var w := OpenWindow(windows, holidays, day).value;
    WindowBounds(windows, holidays, day);
    var offset := WholeMinute(w.start) + k * duration;
    assert k * duration >= 0;
    InWindowHere(zone, windows, day, offset);
    InWindowHere(zone, windows, day, offset + duration);
  }

  lemma InWindowHere(zone: Zone, windows: seq<DailyHours>, day: int, offset: int)
    requires Regular(zone, windows) && 0 <= offset < DAY && InWindow(windows, day * DAY + offset)
    ensures var local := zone.toLocal(zone.toInstant(day * DAY + offset));
      local / DAY == day && local % DAY == offset
  {
  }

  /** The window starts on a whole minute, or is too short to carve a slot from. */
  ghost predicate StartsWhole(windows: seq<DailyHours>, holidays: set<int>, duration: int, day: int) {
    var w := OpenWindow(windows, holidays, day);
    w.Some? && WholeMinute(w.value.start) + duration <= WholeMinute(w.value.end) ==> w.value.start % MINUTE == 0
  }

  /** Every grid slot is bookable under the policy iff every window it is carved from starts on a
      whole minute: the sweep reads hours and minutes only, the policy reads seconds too. */
  lemma GridIsBookableExactly(windows: seq<DailyHours>, holidays: set<int>, duration: int, zone: Zone, first: int,
      last: int)
    requires duration > 0 && ValidWeek(windows) && Regular(zone, windows)
    ensures (forall slot :: slot in Grid(windows, holidays, duration, zone, first, last) ==>
                IsAvailable(windows, zone, holidays, slot))
       <==> (forall day :: first <= day <= last ==> StartsWhole(windows, holidays, duration, day))
  {
    hide Grid, Regular, IsAvailable, OpenWindow, IsGridSlot, WholeMinute, StartsWhole;
    if forall day :: first <= day <= last ==> StartsWhole(windows, holidays, duration, day) {
      forall slot | slot in Grid(windows, holidays, duration, zone, first, last)
        ensures IsAvailable(windows, zone, holidays, slot)
      {
        GridExactly(windows, holidays, duration, zone, first, last, slot);
        var day: int, k: nat :| first <= day <= last && IsGridSlot(windows, holidays, duration, zone, day, k, slot);
        WholeWindowBookable(windows, holidays, duration, zone, day, k, slot);
      }
    } else {
      var day :| first <= day <= last && !StartsWhole(windows, holidays, duration, day);
      FirstGridSlot(windows, holidays, duration, zone, day);
      var w := OpenWindow(windows, holidays, day).value;
      var slot := Slot(zone, day * DAY + WholeMinute(w.start), duration);
      GridExactly(windows, holidays, duration, zone, first, last, slot);
    }
  }

  lemma WholeWindowBookable(windows: seq<DailyHours>, holidays: set<int>, duration: int, zone: Zone,
                            day: int, k: nat, slot: TimeRange)
    requires duration > 0 && ValidWeek(windows) && Regular(zone, windows)
    requires IsGridSlot(windows, holidays, duration, zone, day, k, slot)
    requires StartsWhole(windows, holidays, duration, day)
    ensures IsAvailable(windows, zone, holidays, slot)
  {
    hide Regular, IsAvailable, OpenWindow, WholeMinute;
    var w := OpenWindow(windows, holidays, day).value;
    GridSlotAvailable(windows, holidays, duration, zone, day, k, slot);
    assert k * duration >= 0;
    WholeMinuteExact(w.start);
  }

  // The first slot of a window that starts within a minute is carved before the window opens.
  lemma FirstGridSlot(windows: seq<DailyHours>, holidays: set<int>, duration: int, zone: Zone, day: int)
    requires duration > 0 && ValidWeek(windows) && Regular(zone, windows)
    requires !StartsWhole(windows, holidays, duration, day)
    ensures var w := OpenWindow(windows, holidays, day);
      w.Some? && var slot := Slot(zone, day * DAY + WholeMinute(w.value.start), duration);
      IsGridSlot(windows, holidays, duration, zone, day, 0, slot) && !IsAvailable(windows, zone, holidays, slot)
  {
    hide Regular, IsAvailable, OpenWindow, WholeMinute;
    var w := OpenWindow(windows, holidays, day).value;
    var slot := Slot(zone, day * DAY + WholeMinute(w.start), duration);
    assert IsGridSlot(windows, holidays, duration, zone, day, 0, slot);
    GridSlotAvailable(windows, holidays, duration, zone, day, 0, slot);
    WholeMinuteExact(w.start);
  }

  lemma WholeMinuteExact(t: int)
    ensures WholeMinute(t) == t - t % MINUTE
    ensures WholeMinute(t) <= t && (WholeMinute(t) == t <==> t % MINUTE == 0)
  {
  }
}
