# Field-service model: triage replies, calendar sync, scheduling, triage store

A Dafny model of the harder parts of a field-service application, with proofs of what they keep.

**Assistant replies.** A language model's reply arrives in fragments and carries `[[...]]` control markers.
`Markers` is the theory of such a marker code: no two marker occurrences overlap. `MarkerLoop` says when deleting
the markers kind by kind is one left-to-right pass. `StreamFilter` is the filter that decides what may be shown
after each fragment, and `NestedMarkers` the replies with one marker inside another; `ReplyParser`, `MarkedText`
and `ReplyTokens` are the parser of the finished reply. `ReplyStream` joins the two: `ReadableExactly` says which
replies the customer has in the end read as recorded, however they were cut, and `TrustworthyExactly` for which,
besides, nothing shown is ever taken back and no marker is shown or recorded. `ReplyExamples` has replies of each
kind.

**Scheduling and the two-way calendar sync.** `Scheduling` says what each use case does to the tables in one
committed transaction. `SchedulingService` and `CalendarDispatcher` are the entities, repositories, use cases,
reconciler, calendar adapter and dispatcher as code that changes state in place, each proved against those
functions. `CalendarSync` is the whole protocol as a state machine over tables, calendars and one clock: bookings,
moves, details, cancellations, dispatches that succeed, are refused, get lost or crash after the calendar call,
guest edits and polls. `BookingInvariants`, `SyncInvariants`, `SyncTheorems` and `AuditTrail` prove what every run
keeps and what a drained outbox leaves; `DeadLetters` says which entries a drain dead-letters while the calendar
answers, `Cancellations` what becomes of a cancelled appointment's event, `AppointmentHistory` that an appointment
is what was done to it, and `GuestEdits` what guests alone do. `Availability` is the slot sweep and the booking
policy; `Proposals` is what is offered and that all of it can be booked. `CalendarIdentity` is the iCalUID of an
appointment.

**The triage store.** `TriageStore` says what one completed request does to the conversation, message, photo and
attachment tables and to the object store; `TriageService` is the conversation entity, its repositories and the
requests in place; `TriageInvariants` proves what every run keeps, `TriageMemory` that a conversation is what the
turns recorded in it tell, and `TriageRequests` what each request accepts and leaves. `Sse` is the event-stream
framing and the client's incremental decoder. `PageOffsets` and `KnowledgeBase` are the page bookkeeping of
extracted documents and the agreement of the vector index with the document rows. `TurnStream` joins the streamed
reply, the framing, the decoder and the store: what the client puts together is what the conversation holds.

Times are integers in microseconds, ids are natural numbers, a raised error is `None`, `null` or `false`. The
events of `CalendarSync` carry two fields the calendar does not have: `unpolled` and `described` record that a
guest edited an event since it was last polled, or its description since it was last projected.

## What turned out not to hold

* The docstring of the visible-prefix filter says successive calls only lengthen
  (`backend/src/fsm/assist/application/triage.py:172-174`). They do exactly when deleting the markers kind by kind
  deletes what one pass deletes (`OnlyLengthensExactly`). `EndingInQuestionShrinks` gives replies where shown text
  disappears again; `NestedMarkerLengthensExactly` says which markers inside which others do that.
* Growing and never showing a marker is a different matter: both hold exactly when one pass leaves no marker behind
  (`StreamsSafelyExactly`). `QuestionInEndingIsShown` gives replies whose visible text only grows and ends by
  showing a marker.
* The customer does not always end up having read what is recorded. That holds, however the reply is cut, exactly
  when every beginning of the reply shows a beginning of the record, or the record and then blanks
  (`ReadableExactly`); when the visible text only lengthens it is enough to look at the whole reply
  (`ReadableWhenItLengthens`). Where the plain text hides no marker it is enough that nothing is shown before the
  end, or only blanks and the record is blank, or that what is shown opens with no blank and every marker the
  record keeps stands after it; while no bracket is shown it is necessary too (`ReadableOnTokens`).
  `LeadingGapIsUntrustworthy` and `TextAfterLoneCloserIsUnreadable` give replies that are not read as recorded.
* The record itself may keep a marker. A safe stream, a record without markers and a customer who has read the
  record hold together exactly when no marker hides in the plain text, each wrapper appears at most as one
  opener-first pair, at most one kind of ending appears, and no blank follows the markers that open the reply
  (`TrustworthyExactly`). The replies of `WrappingAgainIsUntrustworthy`, `LoneCloserIsUntrustworthy` and
  `TwoEndingsAreUntrustworthy` are read as recorded, marker and all.
* The prompt says that the last name wrapped stands. In every run the name the last reply reported does
  (`EveryRunIsTold`), but of the names wrapped in one reply the first is reported: where no marker hides in the
  plain text, it is the last one exactly when both wrap the same but for outer blanks (`FirstNameStands`);
  `TwoNamesReportTheFirst` gives replies where it is not.
* A located question's offsets bound it exactly when its body is not blank (`QuestionSpanBoundsTheQuestion`).
* Cancelling an appointment whose event id is not yet recorded leaves its event on the calendar for good
  (`EarlyCancelLeavesEvent`); `CancelledKeepsEventExactly` is the exact condition.
* No poll brings back an event that a guest turned into an all-day event: with everything processed and polled the
  event stands at its appointment's time exactly when it is not an all-day one (`SettledExactly`), and
  `AllDayEditIsNotReconciled` is a run that ends so. Moves, declines and removals are all settled; edits of the
  description are ignored by design.
* Slots are carved from a window's hour and minute while the policy reads its seconds too: the offered slots are
  all bookable exactly when the windows they are carved from start on whole minutes (`GridIsBookableExactly`).
* A turn that escalates and names one photo twice is refused, at the turn cap too (`AcceptedExactly`).

## Model

| member | source | states |
|---|---|---|
| Strings.WhitespaceIsListed | backend/src/fsm/assist/application/prompts.py:307-333 | trimming takes away exactly the 29 whitespace characters |
| Markers.NoOverlap | backend/src/fsm/assist/application/prompts.py:47-64 | two marker occurrences in one text are the same or disjoint |
| Markers.Canonical | backend/src/fsm/assist/application/prompts.py:47-64 | a token list whose plain text hides no marker is the tokenisation of the text it spells |
| MarkerLoop.DeleteEachIsOnePass | backend/src/fsm/assist/application/triage.py:180-184 | replacing marker kind after marker kind equals one left-to-right deletion pass when that pass leaves no marker |
| MarkerLoop.AgreeExactly | backend/src/fsm/assist/application/triage.py:180-184 | the loop deletes what one pass deletes iff no round meets a marker that earlier rounds completed; otherwise it leaves a whole marker less |
| MarkerLoop.UncleanLoopAtTheEnd | backend/src/fsm/assist/application/triage.py:180-184 | the character that first makes loop and pass differ completes, in the single pass, the marker the loop deletes |
| StreamFilter.VisiblePrefix | backend/src/fsm/assist/application/triage.py:164-184 | the nested loops find the longest tail that may still grow into a marker and delete the markers before it |
| StreamFilter.VisibleGrows | backend/src/fsm/assist/application/triage.py:172-184 | when deletion leaves no marker, the visible text of a prefix is a prefix of the visible text of the whole |
| StreamFilter.OnePassIsVisiblePlusHeld | backend/src/fsm/assist/application/triage.py:164-184 | deleting from the whole text gives the visible text followed by the held-back tail |
| StreamFilter.OnlyLengthensExactly | backend/src/fsm/assist/application/triage.py:172-184 | the visible text only ever lengthens, for every way of cutting, iff the marker-by-marker loop deletes what one pass deletes |
| StreamFilter.StreamsSafelyExactly | backend/src/fsm/assist/application/triage.py:172-184 | the visible text only grows and never shows a marker, for every way of cutting, iff deleting the markers leaves none |
| NestedMarkers.NestedMarkerSpoilsStream | backend/src/fsm/assist/application/triage.py:172-174 | a marker split by another marker makes the visible text shrink or show a marker |
| NestedMarkers.NestedMarkerLengthensExactly | backend/src/fsm/assist/application/triage.py:172-184 | it only lengthens iff the loop never deletes the outer marker after the inner one |
| MarkedText.UnwrapPlacesBody | backend/src/fsm/assist/application/prompts.py:287-304 | an unwrapped body stands in the resulting text at the offset reported |
| MarkedText.UnwrapOnTokens | backend/src/fsm/assist/application/prompts.py:287-304 | on a text with no hidden marker, unwrapping by string search drops exactly the first opener and the closer after it |
| ReplyParser.QuestionSpanBoundsTheQuestion | backend/src/fsm/assist/application/prompts.py:307-366 | the reported offsets lie inside the trimmed text and cut out the trimmed question body iff the body is not blank |
| ReplyStream.StreamFragments | backend/src/fsm/assist/application/triage.py:324-335 | what a stream has shown after any fragments, whether or not it goes on |
| ReplyStream.Reply | backend/src/fsm/assist/application/triage.py:324-340 | the pieces streamed concatenate to the specified stream, and the parsed reply is that of all fragments |
| ReplyTokens.ParsedOnTokens | backend/src/fsm/assist/application/prompts.py:336-366 | parsing a text is dropping tokens from its tokenisation |
| ReplyTokens.ParsedLeavesNoMarker | backend/src/fsm/assist/application/prompts.py:336-366 | parsing removes every marker iff each wrapper is at most one opener-first pair and at most one ending kind occurs |
| ReplyTokens.EndingOnTokens | backend/src/fsm/assist/application/prompts.py:336-350 | where no marker hides in the plain text, a reply is reported solved, else escalated, else closed, by the first of these markers it carries, and without an ending iff it carries none |
| ReplyTokens.ChoiceOnTokens | backend/src/fsm/assist/application/prompts.py:351-356 | it declines troubleshooting iff it carries the skip marker, and reopens it iff it carries the resume marker alone |
| ReplyTokens.QuestionOnTokens | backend/src/fsm/assist/application/prompts.py:307-318 | it asks a question iff an opening question delimiter stands before a closing one |
| ReplyTokens.FirstNameStands | backend/src/fsm/assist/application/prompts.py:287-333 | where no marker hides in the plain text, the name a reply reports is what its first pair wraps, and the last pair would name the same iff both wrap the same but for outer blanks |
| ReplyStream.ShownIsVisible | backend/src/fsm/assist/application/triage.py:324-335 | for a reply whose visible text only lengthens, what has been shown after any fragments is the visible text of what arrived |
| ReplyStream.ReadableExactly | backend/src/fsm/assist/application/triage.py:324-340 | for every reply: however it is cut the customer has read what is recorded, iff every beginning of it shows a beginning of the record or the record and blanks |
| ReplyStream.ReadableWhenItLengthens | backend/src/fsm/assist/application/triage.py:172-174 | when the visible text only lengthens, iff the visible text of the whole reply is such a beginning |
| ReplyStream.ReadableOnTokens | backend/src/fsm/assist/application/triage.py:324-340 | when no marker hides in the plain text: if, and while no bracket is shown only if, nothing or only blanks of a blank record are shown, or what is shown opens with no blank and every marker the record keeps stands after it |
| ReplyStream.GapIsUnreadable | backend/src/fsm/assist/application/triage.py:327-340 | a reply that opens with a blank once its markers are out is not read as recorded |
| ReplyStream.TrustworthyExactly | backend/src/fsm/assist/application/triage.py:324-340 | nothing shown is taken back, no marker is shown or recorded, and the customer has read what is recorded, for every fragmentation, iff three conditions readable off the reply hold |
| ReplyExamples.TwoEndingsAreUntrustworthy | backend/src/fsm/assist/application/prompts.py:346-352 | a reply with two kinds of ending is read as recorded, with a marker in it |
| ReplyExamples.LeadingGapIsUntrustworthy | backend/src/fsm/assist/application/triage.py:327-340 | with a leading marker followed by a blank the customer has not read what is recorded |
| ReplyExamples.WrappingAgainIsUntrustworthy | backend/src/fsm/assist/application/prompts.py:287-333 | a wrapper begun again leaves a delimiter in the record, which is read as recorded |
| ReplyExamples.LoneCloserIsUntrustworthy | backend/src/fsm/assist/application/prompts.py:287-333 | a closing delimiter without an opening one stays in the record, which is read as recorded |
| ReplyExamples.TextAfterLoneCloserIsUnreadable | backend/src/fsm/assist/application/prompts.py:287-304 | text shown after a delimiter the record keeps is not read as recorded |
| ReplyExamples.TwoNamesReportTheFirst | backend/src/fsm/assist/application/prompts.py:138-149 | a reply that wraps two names reports the first |
| ReplyExamples.PlainReplyIsTrustworthy | backend/src/fsm/assist/application/prompts.py:346-352 | any text without brackets, closed by any one ending, can be trusted |
| ReplyExamples.EndingInQuestionShrinks | backend/src/fsm/assist/application/triage.py:172-174 | the solved ending inside the question's opening delimiter makes shown text disappear |
| ReplyExamples.QuestionInEndingIsShown | backend/src/fsm/assist/application/triage.py:172-174 | the question's opening delimiter inside the solved ending only lengthens, and shows the ending |
| Time.OverlapIsACommonInstant | backend/src/fsm/scheduling/domain/time_range.py:37-43 | two ranges overlap iff some instant lies in both |
| WorkingHours.WindowForIsTheOnlyMatch | backend/src/fsm/scheduling/domain/working_hours.py:58-72 | with one window a weekday, the first match is the only one |
| Availability.SlotIsFree | backend/src/fsm/scheduling/domain/availability.py:74-90 | advancing the left pointer and scanning ahead decides whether the slot overlaps anything busy, and passes only intervals that ended |
| Availability.SweepDay | backend/src/fsm/scheduling/domain/availability.py:57-94 | one day's sweep appends exactly the day's free slots |
| Availability.GenerateSlots | backend/src/fsm/scheduling/domain/availability.py:25-101 | the two-pointer sweep returns the naive filter of the grid, for every busy list; it fails iff the duration is not positive and some day is open |
| Availability.GridExactly | backend/src/fsm/scheduling/domain/availability.py:52-69 | the grid's slots are exactly the whole slots of each open day's window |
| Availability.GridByWindow | backend/src/fsm/scheduling/domain/availability.py:52-69 | a slot is in the grid iff it is a whole slot, counted from the minute it starts in, of a working window of an open day of that weekday |
| Availability.WeekdayIsTheCalendars | backend/src/fsm/scheduling/domain/availability.py:58-60 | the weekday of a day is its proleptic ordinal's, Monday first |
| Availability.OfferedInOrder | backend/src/fsm/scheduling/domain/availability.py:25-101 | the slots are chronological, pairwise disjoint and within the days asked for |
| Availability.GridSlotAvailable | backend/src/fsm/scheduling/domain/availability.py:117-140 | a grid slot meets the booking policy iff it does not start before the window's exact start |
| Availability.AvailableExactly | backend/src/fsm/scheduling/domain/availability.py:117-140 | for every range: the booking policy accepts it iff both local ends lie on one day that is not excluded, inside a working window of that weekday |
| Availability.GridIsBookableExactly | backend/src/fsm/scheduling/domain/availability.py:59-66 | every grid slot meets the booking policy iff the windows slots are carved from start on whole minutes |
| Proposals.ProposeSlots | backend/src/fsm/scheduling/application/appointment_service.py:82-127 | a slot is offered iff it is a future grid slot that neither the calendar nor any appointment blocks; the slots are in order, and bookable when windows start on whole minutes |
| Proposals.AllOfferedCanBeBooked | backend/src/fsm/scheduling/application/appointment_service.py:103-178 | slots offered together can all be booked one after another |
| SchedulingService.Appointment.constructor | backend/src/fsm/scheduling/adapters/repositories.py:78-90 | an entity loaded from a row holds the row and no pending audit |
| SchedulingService.Appointment.RecordBooked | backend/src/fsm/scheduling/domain/appointment.py:84-86 | appends the booked record and changes nothing else |
| SchedulingService.Appointment.DrainAudits | backend/src/fsm/scheduling/domain/appointment.py:88-95 | returns the pending records and leaves none |
| SchedulingService.Appointment.AssignExternalEvent | backend/src/fsm/scheduling/domain/appointment.py:97-99 | sets the event id only |
| SchedulingService.Appointment.Reschedule | backend/src/fsm/scheduling/domain/appointment.py:101-107 | moves an active appointment and records it; a cancelled one is left untouched |
| SchedulingService.Appointment.Cancel | backend/src/fsm/scheduling/domain/appointment.py:109-114 | cancels an active appointment and records it; a cancelled one is left untouched |
| SchedulingService.Appointment.AddDetails | backend/src/fsm/scheduling/domain/appointment.py:116-121 | replaces the details of an active appointment and records it |
| SchedulingService.ServiceCall.MarkScheduled | backend/src/fsm/scheduling/domain/service_call.py:38-48 | only an open call becomes scheduled |
| SchedulingService.Session.AddAppointment | backend/src/fsm/scheduling/adapters/repositories.py:168-175 | stores the row and one audit row for each pending record |
| SchedulingService.Session.GetAppointment | backend/src/fsm/scheduling/adapters/repositories.py:177-185 | a fresh entity equal to the stored row, or nothing |
| SchedulingService.Session.SaveAppointment | backend/src/fsm/scheduling/adapters/repositories.py:187-203 | replaces the row and writes the pending audits, or fails on a missing row |
| SchedulingService.Session.StoreAudits | backend/src/fsm/scheduling/adapters/repositories.py:205-223 | every pending record is written exactly once, in order |
| SchedulingService.Session.ListForTechnicianBetween | backend/src/fsm/scheduling/adapters/repositories.py:225-248 | lists exactly the technician's active appointments that overlap the range |
| SchedulingService.Session.Enqueue | backend/src/fsm/scheduling/adapters/outbox_repository.py:25-41 | appends one pending entry with no attempts |
| SchedulingService.Session.ClaimNext | backend/src/fsm/scheduling/adapters/outbox_repository.py:43-66 | the oldest pending entry, or none |
| SchedulingService.Session.MarkProcessed | backend/src/fsm/scheduling/adapters/outbox_repository.py:88-98 | that entry becomes processed, or the call fails on a missing one |
| SchedulingService.Session.MarkFailed | backend/src/fsm/scheduling/adapters/outbox_repository.py:100-115 | one attempt more, dead-lettered at the limit, or the call fails on a missing entry |
| SchedulingService.GuardNoOverlap | backend/src/fsm/scheduling/application/appointment_service.py:296-318 | passes iff no other active appointment of the technician overlaps |
| SchedulingService.BookAppointment | backend/src/fsm/scheduling/application/appointment_service.py:129-186 | a booking exactly when the call is open, the two verdicts on the customer and technician allow it and the time is free; otherwise unchanged tables |
| SchedulingService.RescheduleAppointment | backend/src/fsm/scheduling/application/appointment_service.py:188-211 | the tables after a move, or unchanged tables |
| SchedulingService.CancelAppointment | backend/src/fsm/scheduling/application/appointment_service.py:213-234 | the tables after a cancellation, whose Delete carries the event id known then |
| SchedulingService.AddDetailsToAppointment | backend/src/fsm/scheduling/application/appointment_service.py:236-249 | the tables after details were added, or unchanged tables |
| SchedulingService.AcceptsMove | backend/src/fsm/scheduling/application/reconciliation_service.py:137-163 | accepts iff the booking policy allows the range and no other appointment overlaps it |
| SchedulingService.ReconcileChange | backend/src/fsm/scheduling/application/reconciliation_service.py:75-127 | the tables after an inbound change and whether it is reported |
| SchedulingService.MoveIsTakenExactly | backend/src/fsm/scheduling/application/reconciliation_service.py:109-150 | a newer inbound move is taken, and not projected back, iff it lies in working hours with room beside the technician's other appointments; otherwise the row stands and one Update is owed |
| Scheduling.ReconcileTwice | backend/src/fsm/scheduling/application/reconciliation_service.py:75-127 | reconciling a change again leaves the appointments as once did, and is reported at most once |
| Scheduling.EchoChangesNothing | backend/src/fsm/scheduling/application/reconciliation_service.py:122-127 | a change carrying the row's own time, neither cancelled nor declined, changes nothing |
| BookingInvariants.BookKeepsSound | backend/src/fsm/scheduling/application/appointment_service.py:150-178 | a booking keeps appointments disjoint, calls booked once and entries in order |
| BookingInvariants.RescheduleKeepsSound | backend/src/fsm/scheduling/application/appointment_service.py:188-211 | a move keeps them too |
| BookingInvariants.ReconcileKeepsSound | backend/src/fsm/scheduling/application/reconciliation_service.py:75-163 | every inbound change keeps them, so no step can trip the exclusion constraint |
| BookingInvariants.BooksExactlyWhenFree | backend/src/fsm/scheduling/application/appointment_service.py:150-178 | a booking succeeds iff the call is open and the range lies before or after every active appointment; the call cannot be booked again |
| BookingInvariants.ReschedulesExactlyWhenFree | backend/src/fsm/scheduling/application/appointment_service.py:189-211 | a move succeeds iff the appointment is active and the new time has room beside the technician's other appointments |
| BookingInvariants.CancelFreesTheSlot | backend/src/fsm/scheduling/application/appointment_service.py:213-234 | after a cancellation the same time can be booked at once |
| BookingInvariants.MoveFreesTheOldSlotExactly | backend/src/fsm/scheduling/application/appointment_service.py:188-211 | after a move the old time can be booked iff the new one does not overlap it |
| BookingInvariants.ReconcileActsExactly | backend/src/fsm/scheduling/application/reconciliation_service.py:92-127 | last write wins: exactly the strictly newer changes of active rows act, and exactly those that touch the row are reported |
| CalendarDispatcher.GoogleCalendar.CreateAppointmentEvent | backend/src/fsm/platform/calendar_bridge/google_calendar.py:56-70 | inserts an event, or recovers the live event that already holds the uid |
| CalendarDispatcher.GoogleCalendar.UpdateAppointmentEvent | backend/src/fsm/platform/calendar_bridge/google_calendar.py:72-79 | projects the row onto a live event |
| CalendarDispatcher.GoogleCalendar.DeleteEventById | backend/src/fsm/platform/calendar_bridge/google_calendar.py:81-82 | deletes a live event |
| CalendarDispatcher.CallCalendar | backend/src/fsm/scheduling/application/calendar_projection_dispatcher.py:153-190 | the calendar call of an entry, for every answer the calendar can give |
| CalendarDispatcher.ProcessOne | backend/src/fsm/scheduling/application/calendar_projection_dispatcher.py:136-208 | one transaction of the dispatcher, whatever the calendar answers, is one dispatch of the state machine |
| CalendarDispatcher.RunDispatcher | backend/src/fsm/scheduling/application/calendar_projection_dispatcher.py:125-134 | a run claims until the queue is empty or the limit is reached and returns the number processed |
| CalendarDispatcher.DispatchKeepsUnique | backend/src/fsm/platform/calendar_bridge/google_calendar.py:56-70 | no dispatch puts a second event with the same uid on a calendar |
| SyncInvariants.UseCaseKeepsInvariant | backend/src/fsm/scheduling/application/appointment_service.py:150-249 | a use case that enqueues what it changes keeps the sync invariant |
| SyncInvariants.PollKeepsInvariant | backend/src/fsm/scheduling/application/reconciliation_service.py:75-127 | reconciling an event's current state keeps it |
| SyncInvariants.DispatchKeepsInvariant | backend/src/fsm/scheduling/application/calendar_projection_dispatcher.py:136-208 | a dispatch that succeeds, fails, is lost or crashes keeps it |
| SyncTheorems.EveryRunKeepsInvariant | backend/src/fsm/scheduling/application/calendar_projection_dispatcher.py:1-23 | in every run: no double booking, one event an appointment, and every active appointment's event shows its row unless an Update is owed, an edit is unseen or the event is all-day |
| SyncTheorems.NeverDoubleBooked | backend/src/fsm/scheduling/application/appointment_service.py:150-178 | in every run a technician's active appointments are pairwise disjoint and no call is booked twice |
| SyncTheorems.OneEventPerAppointment | backend/src/fsm/platform/calendar_bridge/google_calendar.py:56-70 | in every run, crashes included, at most one event carries an appointment's uid, and a recorded id is that event's |
| SyncTheorems.NoLostProjection | backend/src/fsm/scheduling/application/calendar_projection_dispatcher.py:136-208 | in every run an active appointment shown wrongly or not at all is owed a Create or Update, or an edit is unseen, or its event is all-day |
| SyncTheorems.SettledExactly | backend/src/fsm/scheduling/application/calendar_projection_dispatcher.py:136-208 | with everything processed and polled, an active appointment's event stands at its time iff it is not an all-day event |
| SyncTheorems.CancelledLeavesEventExactly | backend/src/fsm/scheduling/application/appointment_service.py:213-227 | with everything processed, a cancelled appointment keeps a live event iff no id was captured and no guest removed it |
| Cancellations.CancelCapturesTheId | backend/src/fsm/scheduling/application/appointment_service.py:213-227 | cancelling an active appointment queues a Delete that carries the event id its row holds |
| Cancellations.InboundCancellationCaptures | backend/src/fsm/scheduling/application/reconciliation_service.py:91-108 | a decline cancels and queues a Delete with the row's event id; a removal on the calendar cancels and queues nothing |
| Cancellations.CancelledKeepsEventExactly | backend/src/fsm/scheduling/application/appointment_service.py:213-227 | in every run, with everything processed, a cancelled appointment keeps a live event iff its row held no event id as it was cancelled and no guest removed the event |
| Cancellations.SomeStepCancels | backend/src/fsm/scheduling/domain/appointment.py:109-114 | every cancelled appointment was cancelled by one step of the run |
| SyncTheorems.EarlyCancelLeavesEvent | backend/src/fsm/scheduling/application/appointment_service.py:223-227 | book, cancel, then dispatch leaves the event behind |
| SyncTheorems.RejectedMoveSettles | backend/src/fsm/scheduling/application/reconciliation_service.py:109-116 | a move rejected by the policy or by another appointment is undone by one Update, after which polling changes nothing |
| SyncTheorems.RejectedMoveSettlesInAnyQueue | backend/src/fsm/scheduling/application/reconciliation_service.py:109-116 | whatever else is queued and however the calendar answers, a rejected move is undone once no Update is owed |
| SyncTheorems.AllDayEditIsNotReconciled | backend/src/fsm/scheduling/application/reconciliation_service.py:109-127 | a run that ends with everything processed and polled and an event that is all-day |
| SyncTheorems.ClaimLowersWork | backend/src/fsm/scheduling/adapters/outbox_repository.py:100-115 | every committed claim uses up attempts |
| SyncTheorems.DrainTerminates | backend/src/fsm/scheduling/application/calendar_projection_dispatcher.py:125-208 | a long enough run leaves every entry processed or dead-lettered at five attempts and returns the number processed |
| SyncTheorems.FiveCallsEach | backend/src/fsm/scheduling/ports/outbox.py:8-20 | five calls for each pending entry are long enough |
| SyncTheorems.DrainSettles | backend/src/fsm/scheduling/application/calendar_projection_dispatcher.py:125-208 | however the calls went, a full drain that dead-lettered nothing puts every calendar right, up to the two exact exceptions |
| DeadLetters.EveryRunIsOrdered | backend/src/fsm/scheduling/application/appointment_service.py:150-249 | in every run an appointment's Create is queued first and its Delete last |
| DeadLetters.ClaimSucceedsExactly | backend/src/fsm/scheduling/application/calendar_projection_dispatcher.py:136-190 | a claim whose calendar call is answered succeeds iff the entry needs no call, or its event is not gone and its id, for an Update, is known |
| DeadLetters.DeadLettersExactly | backend/src/fsm/scheduling/application/calendar_projection_dispatcher.py:136-208 | while every call is answered, a long enough run dead-letters exactly the pending entries whose event is gone and the Updates whose Create was dead-lettered, and processes every other |
| DeadLetters.DrainsCleanExactly | backend/src/fsm/scheduling/application/calendar_projection_dispatcher.py:125-208 | such a run leaves everything processed iff nothing was dead-lettered before it and no pending entry calls for an event that is gone |
| DeadLetters.AnsweredDrainSettles | backend/src/fsm/scheduling/application/calendar_projection_dispatcher.py:125-208 | from every reachable state of that kind with all edits polled, every calendar is put right, up to the two exact exceptions |
| AuditTrail.ReplayReadsHistory | backend/src/fsm/scheduling/domain/appointment.py:38-69 | a legal history replays to cancelled iff it was called off, to rescheduled iff moved and never called off |
| AuditTrail.LogTellsInEveryRun | backend/src/fsm/scheduling/adapters/repositories.py:168-223 | in every run each appointment's audit rows form a legal history that gives its status and last change |
| AppointmentHistory.EveryRunIsTold | backend/src/fsm/scheduling/domain/appointment.py:71-121 | in every run an appointment is what was done to it: booked once for its call, technician and customer, standing at the last time a booking, a move or a guest's accepted edit gave it, holding the last details told, cancelled iff it was ended; and its audit log lists exactly these deeds with their times |
| GuestEdits.MarksComeFromGuests | backend/src/fsm/scheduling/application/reconciliation_service.py:75-127 | in every run an event is unseen only if a guest edited it since it was last polled, and rewritten, declined, removed or all-day only if a guest's edit made it so |
| CalendarIdentity.RoundTrip | backend/src/fsm/scheduling/domain/calendar_identity.py:20-34 | parsing the uid built for an appointment gives the appointment, for every UUID |
| CalendarIdentity.UidIsSpelled | backend/src/fsm/scheduling/domain/calendar_identity.py:20-22 | the uid is `fsm-`, the UUID in its usual grouping, and `@fsm.local` |
| CalendarIdentity.ParseExactly | backend/src/fsm/scheduling/domain/calendar_identity.py:14-34 | a value names an appointment iff it is the built uid, or that and one newline, up to the case of ASCII letters and the long s |
| TriageService.Conversation.Append | backend/src/fsm/assist/domain/conversation.py:86-89 | appends to an open conversation, or changes nothing |
| TriageService.Conversation.Close | backend/src/fsm/assist/domain/conversation.py:110-123 | ends an open conversation once |
| TriageService.Conversation.MarkEscalated | backend/src/fsm/assist/domain/conversation.py:113-115 | ends it with its service call |
| TriageService.TriageSession.GetConversation | backend/src/fsm/assist/adapters/conversation_repository.py:72-76 | the stored row with its messages and their photos, for its own customer only |
| TriageService.TriageSession.LoadMessages | backend/src/fsm/assist/adapters/conversation_repository.py:161-189 | each stored message once, in order, with exactly the photos bound to it, in upload order |
| TriageService.TriageSession.AddConversation | backend/src/fsm/assist/adapters/conversation_repository.py:46-70 | rejected iff the customer already has an active conversation; otherwise the row and all its messages are stored |
| TriageService.TriageSession.SaveConversation | backend/src/fsm/assist/adapters/conversation_repository.py:78-87 | the row, and the messages not stored yet, numbered on; fails on a missing row |
| TriageService.TriageSession.AppendMessages | backend/src/fsm/assist/adapters/conversation_repository.py:139-150 | one row a message, numbered consecutively |
| TriageService.TriageSession.GetUnbound | backend/src/fsm/assist/adapters/photo_repository.py:53-67 | the photos named, in order, iff all are pending in the conversation |
| TriageService.TriageSession.OpenServiceCall | backend/src/fsm/platform/service_call_bridge.py:34-61 | attaches the photos iff none is named twice or attached already |
| TriageService.SentListIsSent | backend/src/fsm/assist/application/triage.py:406-413 | the photos the messages carry are exactly those the table says were sent, each once |
| TriageService.TriageRequest.Start | backend/src/fsm/assist/application/triage.py:220-250 | resumes the open conversation, or retires an expired one and opens another; the one-active rule never rejects it |
| TriageService.TriageRequest.End | backend/src/fsm/assist/application/triage.py:255-265 | abandons the customer's open conversation and stages its objects |
| TriageService.TriageRequest.RecordAnswer | backend/src/fsm/assist/application/triage.py:346-404 | the store after a turn and its ending, or a failed escalation |
| TriageService.TriageRequest.Reply | backend/src/fsm/assist/application/triage.py:279-341 | streams and records a turn; at the cap it hands off without asking the model; an unfinished stream has shown what its fragments made visible and records nothing |
| TriageService.SendMessageRequest | backend/src/fsm/platform/api/triage_routes.py:270-300 | a whole request is one step of the store: committed whole, or rolled back |
| TriageService.AttachPhoto | backend/src/fsm/assist/application/photos.py:46-68 | stores both objects and a pending row, up to five a conversation |
| TriageService.DetachPhoto | backend/src/fsm/assist/application/photos.py:70-76 | removes a pending photo and both its objects |
| TriageService.StoredAnswerIsWhatWasShown | backend/src/fsm/assist/application/triage.py:324-365 | for a reply read as recorded, what the customer read is the assistant's stored message |
| TriageInvariants.AcceptedExactly | backend/src/fsm/assist/application/triage.py:294-404 | a turn is accepted iff the conversation is open, its photos are pending and, when it escalates, distinct |
| TriageRequests.MarkersDecideTheStatus | backend/src/fsm/assist/application/triage.py:346-398 | before the cap, where no marker hides in the plain text, an accepted turn leaves the conversation solved, else escalated to its service call, else abandoned, by the first of these endings the reply carries, and active without one |
| TriageRequests.TwelfthTurnEscalates | backend/src/fsm/assist/application/triage.py:310-317 | a customer's twelfth accepted turn leaves the conversation escalated to its service call with the handoff as answer, whatever the model said; earlier ones are answered by the model's reply |
| TriageRequests.TurnBindsItsPhotos | backend/src/fsm/assist/adapters/photo_repository.py:53-74 | an accepted turn binds exactly the photos it names to its question |
| TriageRequests.StartsAfreshExactlyWhenIdle | backend/src/fsm/assist/application/triage.py:220-250 | an open conversation is resumed while it is idle for no more than a day; an idle one is abandoned and a new one opened, as without any |
| TriageRequests.EndsExactlyTheirOwn | backend/src/fsm/assist/application/triage.py:255-265 | a customer can end exactly their own open conversation; it is abandoned, its pending photos and all its objects go, nothing else changes |
| TriageRequests.AttachesExactlyWithRoom | backend/src/fsm/assist/application/photos.py:46-68 | a photo can be attached exactly to the customer's open conversation while it has fewer than five; it is pending there with both objects |
| TriageRequests.DetachesExactlyPending | backend/src/fsm/assist/application/photos.py:70-76 | a photo can be detached exactly while it is pending there; row and objects go |
| TriageInvariants.SendMessageKeepsInvariant | backend/src/fsm/assist/application/triage.py:346-404 | a recorded turn keeps the store's invariant |
| TriageInvariants.EveryRunKeepsInvariant | backend/src/fsm/assist/application/triage.py:220-452 | in every run: one active conversation a customer, at most eleven customer messages while active, numbered alternating messages, a call iff escalated, attachments exactly the sent photos, objects exactly those of the kept photos, at most five photos |
| TriageInvariants.TurnsAreBounded | backend/src/fsm/assist/application/triage.py:310-317 | in every run fewer than twelve customer messages while active, and one answer for each |
| TriageInvariants.ObjectsAreConserved | backend/src/fsm/assist/application/triage.py:376-452 | in every run the object store holds exactly the objects of photos in active or sent in escalated conversations, and exactly the latter are attached, to their own call |
| TriageInvariants.EndedNeverChanges | backend/src/fsm/assist/domain/conversation.py:120-128 | no request changes an ended conversation's row, messages or photos |
| TriageMemory.EveryRunIsTold | backend/src/fsm/assist/domain/conversation.py:91-123 | in every run a conversation is what its recorded turns tell: the transcript holds the questions and answers in order, the last name and the last choice about troubleshooting stand, only the last answer can have ended it, and it is solved or escalated, to that turn's service call, iff the last answer carries that marker |
| Sse.ParseFrame | frontend/src/api/assist.ts:65-74 | the last event line and the last data line of a frame |
| Sse.LastFieldIsLast | frontend/src/api/assist.ts:65-74 | a field of a frame is what follows its label on the last line that carries it |
| Sse.MalformedExactly | frontend/src/api/assist.ts:65-104 | the stream fails in decoding exactly if the data of some named event is no JSON |
| Sse.StreamReply | frontend/src/api/assist.ts:106-129 | the decoder's result depends on the whole text only, never on how it was chunked |
| Sse.FramesConcat | frontend/src/api/assist.ts:110-126 | decoding piece by piece finds the frames of the whole |
| Sse.FramesSurviveChunking | frontend/src/api/assist.ts:76-129 | for every list of framed messages and every chunking, exactly the token texts in order and the last done payload; it fails iff there is none |
| Sse.BodyParses | backend/src/fsm/platform/api/triage_routes.py:129-130 | a framed message parses to its name and payload |
| TurnStream.WriteTurn | backend/src/fsm/platform/api/triage_routes.py:293-329 | a token frame for each piece that is not empty, then the done frame of a recorded turn |
| TurnStream.ClientReads | frontend/src/api/assist.ts:106-129 | for every chunking the client's tokens join to the pieces, none is empty, and its result is the done payload, if one was written |
| TurnStream.ClientIsToldWhatIsStored | backend/src/fsm/platform/api/triage_routes.py:293-329 | for every accepted turn and every chunking, the client is told the stored status and service call, and the answer's question exactly while the conversation is active |
| TurnStream.ClientSeesWhatIsStored | backend/src/fsm/platform/api/triage_routes.py:293-329 | for a reply read as recorded, every fragmentation and every chunking, the client's text is the stored message, the status and service call it is told are the stored ones, and the question it is told of exactly while the conversation is active is cut out of that text iff not blank |
| TurnStream.UnrecordedTurnFails | backend/src/fsm/platform/api/triage_routes.py:293-300 | a turn that was not recorded ends without a result at the client |
| PageOffsets.DecodePages | backend/src/fsm/assist/adapters/text_extraction.py:56-69 | the pages joined, and where each begins |
| PageOffsets.Extract | backend/src/fsm/assist/adapters/text_extraction.py:29-39 | NUL becomes a space and no page start moves |
| PageOffsets.StartsIncrease | backend/src/fsm/assist/adapters/text_extraction.py:60-66 | page starts strictly increase, empty pages included |
| PageOffsets.OffsetsResolve | backend/src/fsm/assist/domain/document.py:25-29 | every character sits at its page's start plus its place, and its offset resolves to that page |
| KnowledgeBase.VectorIndex.IndexDocument | backend/src/fsm/assist/adapters/vector_index.py:76-109 | batches write each chunk once, in order; a failing batch leaves the earlier ones |
| KnowledgeBase.UploadDocument | backend/src/fsm/assist/application/knowledge_base.py:72-131 | row and chunks together, or the row rolled back with chunks left behind |
| KnowledgeBase.UploadStoresExactly | backend/src/fsm/assist/application/knowledge_base.py:72-131 | an upload leaves a row with its content and all its chunks iff no stored document has that content, it can be read and no batch failed; other documents' chunks are never touched |
| KnowledgeBase.DeleteDocument | backend/src/fsm/assist/application/knowledge_base.py:136-139 | the row and its chunks go |
| KnowledgeBase.DeleteRemovesOnly | backend/src/fsm/assist/application/knowledge_base.py:136-139 | deleting takes away that row and its chunks and nothing else |
| KnowledgeBase.ReindexOne | backend/src/fsm/assist/application/knowledge_base.py:158-167 | one more stored document is indexed afresh, and the earlier ones stay so |
| KnowledgeBase.Reindex | backend/src/fsm/assist/application/knowledge_base.py:154-168 | from any index, exactly the stored rows' chunks remain, and the rows keep their contents |
| KnowledgeBase.SearchSeesOneModel | backend/src/fsm/assist/application/knowledge_base.py:141-152 | search refuses iff some stored chunk was embedded by another model |
| KnowledgeBase.EveryRunKeepsInvariant | backend/src/fsm/assist/application/knowledge_base.py:44-53 | in every run every stored row's chunks are in the index unless a failed reindex or delete broke it since the last rebuild, and right after a reindex nothing else is |

## Left out

- SchedulingService.BookAppointment: how the cancellation rate limit and the contact check reach their verdicts is not modelled; the verdicts are parameters.
- SchedulingService.Session.MarkProcessed: the completion timestamp, which nothing reads, is not modelled.
- SchedulingService.Session.MarkFailed: the recorded error text, which nothing reads, is not modelled.
- SyncTheorems.EveryRunKeepsInvariant: assumes that the calendar and the database share a clock that moves at every step, that updating or deleting an event that is not live raises, that an insert whose iCalUID is taken is rejected even when the event is gone, and that a guest neither restores a removed event nor gives one an empty time range.
- SyncTheorems.SettledExactly: one dispatcher at a time, and a poll's fetch and commit are one step; edits landing between them are outside the model.
- Proposals.ProposeSlots: asks for the first day not to lie after the day following the last one, where the database would refuse the empty query range.
- Availability.GenerateSlots: the time zone is an order-preserving, invertible map on working windows and midnights, the file's own daylight-saving assumption, instead of a zone database.
- Sse.FramesSurviveChunking: JSON encoding is assumed free of newlines and invertible; bytes to characters is left to the browser.
- KnowledgeBase.EveryRunKeepsInvariant: chunk ids are assumed distinct, and a failed reindex or delete may leave any index whatever.
- TriageService.TriageRequest.Start: losing a race to start a conversation, and then joining the winner's, is not modelled; requests are serial.
- TurnStream.WriteTurn: the done payload's sources and the service call's description are not modelled; nothing in the model reads them.
- TriageService.TriageRequest.Reply: retrieval, citations and prompts are parameters of the reply.
- The wording of the turn-cap handoff: a constant stands for it, and nothing depends on its text.
- HTTP routes, sessions, roles, notifications, SMTP and Redis: plumbing around the modelled steps.
- Losing a race to claim an entry: dispatches are serial.
- Summaries, titles, event descriptions other than the details, and photo bytes: display only.
- Progress reports of extraction and indexing: the step size bounds their number only.
- Calendar re-provisioning and reprojection: outside the convergence hypotheses.
