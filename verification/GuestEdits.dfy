/**
 What guests alone do to events: in every run an event is unseen, rewritten, declined, removed or all-day
 only if a guest made it so.
 */
module GuestEdits {
  import opened Strings
  import opened Scheduling
  import opened CalendarSync
  import opened SyncTheorems

  /** Step i of the run is a guest's edit of event x. */
  predicate EditsAt(run: seq<Step>, i: int, x: Id) {
    0 <= i < |run| && run[i].EditEvent? && run[i].event == x
  }

  /** Step i of the run is a poll of event x. */
  predicate PollsAt(run: seq<Step>, i: int, x: Id) {
    0 <= i < |run| && run[i].PollEvent? && run[i].event == x
  }

  /** Edited and not polled since. */
  ghost predicate EditedSincePolled(run: seq<Step>, x: Id) {
    exists i :: EditsAt(run, i, x) && forall k :: i < k ==> !PollsAt(run, k, x)
  }

  /** Each mark an event carries was put there by an edit of that kind. */
  ghost predicate MarkedByGuests(run: seq<Step>, x: Id, event: Event) {
    && (event.unpolled ==> EditedSincePolled(run, x))
    && (event.described ==> exists i :: EditsAt(run, i, x) && run[i].edit.Describe?)
    && (event.declined ==> exists i :: EditsAt(run, i, x) && run[i].edit.Decline?)
    && (event.life.Removed? ==> exists i :: EditsAt(run, i, x) && run[i].edit.Remove?)
    && (event.range.None? ==> exists i :: EditsAt(run, i, x) && run[i].edit.MakeAllDay?)
  }

  /** Marks added by a step come from that step's edit. */
  ghost predicate MarksStep(before: Event, after: Event, step: Step, x: Id) {
    var edits := step.EditEvent? && step.event == x;
    && (after.unpolled ==> edits || (before.unpolled && !(step.PollEvent? && step.event == x)))
    && (after.described ==> before.described || (edits && step.edit.Describe?))
    && (after.declined ==> before.declined || (edits && step.edit.Decline?))
    && (after.life.Removed? ==> before.life.Removed? || (edits && step.edit.Remove?))
    && (after.range.None? ==> before.range.None? || (edits && step.edit.MakeAllDay?))
  }

  predicate Unmarked(event: Event) {
    !event.unpolled && !event.described && !event.declined && event.life.Live? && event.range.Some?
  }

  lemma NextMarks(w: World, step: Step, x: Id)
    requires Possible(w, step) && x in Next(w, step).events
    ensures var event := Next(w, step).events[x];
      if x in w.events then MarksStep(w.events[x], event, step, x) else Unmarked(event)
  {
    hide FirstPending, Reconcile, Book, Reschedule, AddDetails, Cancel, Attempted, Completed;
  }

  lemma MarksGoOn(run: seq<Step>, x: Id, before: Event, after: Event)
    requires run != [] && MarkedByGuests(run[..|run| - 1], x, before)
    requires MarksStep(before, after, run[|run| - 1], x)
    ensures MarkedByGuests(run, x, after)
  {
    var n, init := |run| - 1, run[..|run| - 1];
    assert run[n].EditEvent? && run[n].event == x ==> EditsAt(run, n, x);
    forall i | EditsAt(init, i, x) ensures EditsAt(run, i, x) && run[i] == init[i] {
    }
    if after.unpolled && !EditsAt(run, n, x) {
      var i :| EditsAt(init, i, x) && forall k :: i < k ==> !PollsAt(init, k, x);
      forall k | i < k ensures !PollsAt(run, k, x) {
        assert k < n ==> init[k] == run[k] && !PollsAt(init, k, x);
      }
    }
  }

  /** In every run whatever marks an event carries come from a guest's edit of it. */
  lemma {:induction false} MarksComeFromGuests(run: seq<Step>, start: int, x: Id)
    requires x in After(run, start).events
    ensures MarkedByGuests(run, x, After(run, start).events[x])
  {
    hide Next, Possible, MarkedByGuests, MarksStep, Unmarked;
    var n := |run| - 1;
    if run != [] {
      var w := After(run[..n], start);
      if x in w.events { MarksComeFromGuests(run[..n], start, x); }
      if Possible(w, run[n]) {
        NextMarks(w, run[n], x);
        if x in w.events {
          MarksGoOn(run, x, w.events[x], After(run, start).events[x]);
        } else {
          NothingMarked(run, x, After(run, start).events[x]);
        }
      } else {
        SameMarks(w, run, x, w.events[x]);
      }
    }
  }

  lemma NothingMarked(run: seq<Step>, x: Id, event: Event)
    requires Unmarked(event)
    ensures MarkedByGuests(run, x, event)
  {
  }

  lemma SameMarks(w: World, run: seq<Step>, x: Id, event: Event)
    requires x in w.events && run != [] && !Possible(w, run[|run| - 1])
    requires MarkedByGuests(run[..|run| - 1], x, event)
    ensures MarkedByGuests(run, x, event)
  {
    MarksGoOn(run, x, event, event);
  }
}
