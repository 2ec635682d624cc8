/**
 A conversation told by the turns recorded in it: its transcript, its photos, the equipment it holds,
 whether troubleshooting is declined and how it ended, in every run of requests.
 */
module TriageMemory {
  import opened Strings
  import opened ReplyParser
  import opened TriageStore
  import opened TriageInvariants

  /** A recorded turn and the answer it was given. */
  datatype Said = Said(turn: Turn, parsed: ParsedReply)

  /** The turn a request records in conversation c, if it records one. */
  function Recording(s: Store, step: Step, c: Id): Option<Said> {
    match step
    case TurnStep(d, customer, turn, Some(reply)) =>
      if d == c && Possible(s, step) && SendMessage(s, c, customer, turn, reply).Some?
      then Some(Said(turn, Answer(s.tables, c, reply))) else None
    case _ => None
  }

  /** The turns the run recorded in conversation c, oldest first. */
  ghost function Turns(run: seq<(Step, int)>, c: Id): seq<Said> {
    if run == [] then []
    else
      var init := run[..|run| - 1];
      Extended(Turns(init, c), Recording(After(init), run[|run| - 1].0, c))
  }

  function Extended(said: seq<Said>, more: Option<Said>): seq<Said> {
    if more.Some? then said + [more.value] else said
  }

  // ---------- What the turns tell ----------

  /** The equipment is what the last answer that named any called it. */
  ghost predicate TellEquipment(said: seq<Said>, equipment: Option<string>) {
    if equipment.None? then forall i :: 0 <= i < |said| ==> said[i].parsed.equipment.None?
    else exists i :: 0 <= i < |said| && said[i].parsed.equipment == equipment
                  && forall k :: i < k < |said| ==> said[k].parsed.equipment.None?
  }

  /** Troubleshooting is declined exactly if the last answer that carries a choice declines it. */
  ghost predicate TellChoice(said: seq<Said>, declined: bool) {
    || (!declined && forall i :: 0 <= i < |said| ==> said[i].parsed.declined.None?)
    || exists i :: 0 <= i < |said| && said[i].parsed.declined == Some(declined)
                && forall k :: i < k < |said| ==> said[k].parsed.declined.None?
  }

  predicate EndsIt(said: Said) {
    || said.parsed.ending == Some(SOLVED)
    || said.parsed.ending == Some(CLOSED)
    || said.parsed.ending == Some(ESCALATE)
  }

  predicate LastEnds(said: seq<Said>, ending: string) {
    said != [] && said[|said| - 1].parsed.ending == Some(ending)
  }

  /** No answer but the last carries an ending. The conversation is solved iff the last one carries that
      marker, escalated, to its turn's service call, iff it carries that one, and abandoned if it closes
      the conversation. It was last changed by its last turn unless it was abandoned. */
  ghost predicate TellEnding(said: seq<Said>, row: ConversationRow) {
    && (forall i :: 0 <= i < |said| - 1 ==> !EndsIt(said[i]))
    && (row.status == Solved <==> LastEnds(said, SOLVED))
    && (row.status == Escalated <==> LastEnds(said, ESCALATE))
    && (LastEnds(said, CLOSED) ==> row.status == Abandoned)
    && row.serviceCall == (if LastEnds(said, ESCALATE) then Some(said[|said| - 1].turn.call) else None)
    && (row.status != Abandoned ==>
          row.updatedAt == if said == [] then row.createdAt else said[|said| - 1].turn.answered)
  }

  /** The transcript holds each question and its answer, in order, as they were said. */
  ghost predicate TellTranscript(said: seq<Said>, rows: seq<MessageRow>, c: Id) {
    && |rows| == 2 * |said|
    && forall i :: 0 <= i < |said| ==>
         var turn := said[i].turn;
         && rows[2 * i] == MessageRow(turn.question, c, 2 * i, Customer, turn.text, turn.asked)
         && rows[2 * i + 1] ==
            MessageRow(turn.answer, c, 2 * i + 1, Assistant, said[i].parsed.text, turn.answered)
  }

  ghost predicate Tell(said: seq<Said>, row: ConversationRow, rows: seq<MessageRow>, c: Id) {
    && TellEquipment(said, row.equipment) && TellChoice(said, row.declined)
    && TellEnding(said, row) && TellTranscript(said, rows, c)
  }

  // ---------- One request ----------

  /** What one request makes of a conversation, given the turn it recorded. */
  ghost predicate RowStep(before: ConversationRow, after: ConversationRow, more: Option<Said>) {
    match more
    case Some(Said(turn, parsed)) =>
      var ending := parsed.ending;
      && before.status == Active
      && (after.status == Solved <==> ending == Some(SOLVED))
      && (after.status == Abandoned <==> ending == Some(CLOSED))
      && (after.status == Escalated <==> ending == Some(ESCALATE))
      && after.serviceCall == (if ending == Some(ESCALATE) then Some(turn.call) else before.serviceCall)
      && after.equipment == (if parsed.equipment.Some? then parsed.equipment else before.equipment)
      && after.declined == (if parsed.declined.Some? then parsed.declined.value else before.declined)
      && after.customer == before.customer && after.createdAt == before.createdAt
      && after.updatedAt == turn.answered
    case None =>
      || after == before
      || (before.status == Active && after == before.(status := Abandoned, updatedAt := after.updatedAt))
  }

  ghost predicate RowsStep(before: seq<MessageRow>, after: seq<MessageRow>, more: Option<Said>, c: Id) {
    match more
    case Some(Said(turn, parsed)) =>
      var n := |before|;
      after == before + [MessageRow(turn.question, c, n, Customer, turn.text, turn.asked),
                         MessageRow(turn.answer, c, n + 1, Assistant, parsed.text, turn.answered)]
    case None => after == before
  }

  /** A conversation that is new is active, with nothing known. */
  predicate Fresh(row: ConversationRow) {
    && row.status == Active && row.serviceCall.None? && row.equipment.None? && !row.declined
    && row.updatedAt == row.createdAt
  }

  ghost predicate ConversationStep(t: Tables, u: Tables, c: Id, more: Option<Said>) {
    && RowsStep(MessagesOf(t.messages, c), MessagesOf(u.messages, c), more, c)
    && if c in t.conversations then c in u.conversations && RowStep(t.conversations[c], u.conversations[c], more)
       else more.None? && (c in u.conversations ==> Fresh(u.conversations[c]))
  }

  lemma TurnAnswers(s: Store, d: Id, customer: Id, turn: Turn, reply: ParsedReply, c: Id)
    requires SendMessage(s, d, customer, turn, reply).Some?
    ensures var u := SendMessage(s, d, customer, turn, reply).value.tables;
      ConversationStep(s.tables, u, c, if c == d then Some(Said(turn, Answer(s.tables, c, reply))) else None)
  {
    hide MessagesOf, Answer, SendMessage, Sent, Unsent, Bound;
    var parsed := Answer(s.tables, d, reply);
    assert s.tables.conversations[d].status == Active by { SentIsActive(s, d, customer, turn, reply); }
    SendMessageIsATurn(s, d, customer, turn, reply);
    RecordedMessages(s.tables, d, turn, parsed, c);
    EndingDecidesStatus(parsed.ending);
  }

  lemma SentIsActive(s: Store, d: Id, customer: Id, turn: Turn, reply: ParsedReply)
    requires SendMessage(s, d, customer, turn, reply).Some?
    ensures d in s.tables.conversations && s.tables.conversations[d].status == Active
  {
    hide Answer, Recorded, Unsent;
  }

  lemma OthersAnswerNothing(s: Store, step: Step, now: int, c: Id)
    requires Possible(s, step) && !step.TurnStep?
    ensures ConversationStep(s.tables, Next(s, step, now).tables, c, None)
  {
    hide MessagesOf, Sent, Unsent, PhotosOf, Keys;
  }

  lemma NextAnswers(s: Store, step: Step, now: int, c: Id)
    requires Possible(s, step)
    ensures ConversationStep(s.tables, Next(s, step, now).tables, c, Recording(s, step, c))
  {
    hide ConversationStep, SendMessage, Answer;
    match step
    case TurnStep(d, customer, turn, Some(reply)) =>
      if SendMessage(s, d, customer, turn, reply).Some? {
        TurnAnswers(s, d, customer, turn, reply, c);
      } else {
        NothingHappens(s.tables, c);
      }
    case TurnStep(_, _, _, None) => NothingHappens(s.tables, c);
    case _ => OthersAnswerNothing(s, step, now, c);
  }

  lemma NothingHappens(t: Tables, c: Id)
    ensures ConversationStep(t, t, c, None)
  {
  }

  // ---------- Every run ----------

  lemma StepIsTold(said: seq<Said>, before: ConversationRow, after: ConversationRow,
                   rows: seq<MessageRow>, now: seq<MessageRow>, more: Option<Said>, c: Id)
    requires Tell(said, before, rows, c) && RowStep(before, after, more) && RowsStep(rows, now, more, c)
    ensures Tell(Extended(said, more), after, now, c)
  {
    EquipmentIsTold(said, before, after, more);
    ChoiceIsTold(said, before, after, more);
    EndingIsTold(said, before, after, more);
    TranscriptIsTold(said, rows, now, more, c);
  }

  lemma EquipmentIsTold(said: seq<Said>, before: ConversationRow, after: ConversationRow, more: Option<Said>)
    requires TellEquipment(said, before.equipment) && RowStep(before, after, more)
    ensures TellEquipment(Extended(said, more), after.equipment)
  {
    if more.Some? && before.equipment.Some? && more.value.parsed.equipment.None? {
      var i :| 0 <= i < |said| && said[i].parsed.equipment == before.equipment
               && forall k :: i < k < |said| ==> said[k].parsed.equipment.None?;
      assert (said + [more.value])[i] == said[i];
    } else if more.Some? {
      assert (said + [more.value])[|said|] == more.value;
    }
  }

  lemma ChoiceIsTold(said: seq<Said>, before: ConversationRow, after: ConversationRow, more: Option<Said>)
    requires TellChoice(said, before.declined) && RowStep(before, after, more)
    ensures TellChoice(Extended(said, more), after.declined)
  {
    if more.Some? && more.value.parsed.declined.None? {
      if i :| 0 <= i < |said| && said[i].parsed.declined == Some(before.declined)
              && forall k :: i < k < |said| ==> said[k].parsed.declined.None? {
        assert (said + [more.value])[i] == said[i];
      }
    } else if more.Some? {
      assert (said + [more.value])[|said|] == more.value;
    }
  }

  lemma EndingIsTold(said: seq<Said>, before: ConversationRow, after: ConversationRow, more: Option<Said>)
    requires TellEnding(said, before) && RowStep(before, after, more)
    ensures TellEnding(Extended(said, more), after)
  {
    if more.Some? {
      var all := said + [more.value];
      assert all[|all| - 1] == more.value;
      forall i | 0 <= i < |said| ensures !EndsIt(all[i]) {
        assert all[i] == said[i];
      }
    }
  }

  lemma TranscriptIsTold(said: seq<Said>, rows: seq<MessageRow>, now: seq<MessageRow>, more: Option<Said>, c: Id)
    requires TellTranscript(said, rows, c) && RowsStep(rows, now, more, c)
    ensures TellTranscript(Extended(said, more), now, c)
  {
    if more.Some? {
      forall i | 0 <= i < |said| ensures now[2 * i] == rows[2 * i] && now[2 * i + 1] == rows[2 * i + 1] {
      }
    }
  }

  /** In every run a conversation is what its recorded turns tell: its transcript holds what was asked and
      answered, the later name of the equipment and the later choice about troubleshooting beat the
      earlier, and only the last answer can have ended it, in the way its marker says. */
  lemma {:induction false} EveryRunIsTold(run: seq<(Step, int)>, c: Id)
    ensures var t := After(run).tables;
      if c in t.conversations then Tell(Turns(run, c), t.conversations[c], MessagesOf(t.messages, c), c)
      else Turns(run, c) == [] && MessagesOf(t.messages, c) == []
  {
    hide Recording, Next, Possible, Tell, RowStep, RowsStep, MessagesOf, Extended;
    if run == [] {
      NothingSaid(c);
    } else {
      var init := run[..|run| - 1];
      var s, step, now := After(init), run[|run| - 1].0, run[|run| - 1].1;
      EveryRunIsTold(init, c);
      if Possible(s, step) {
        NextAnswers(s, step, now, c);
        ToldOn(s.tables, Next(s, step, now).tables, Turns(init, c), Recording(s, step, c), c);
      } else {
        ImpossibleRecordsNothing(s, step, c, Turns(init, c));
      }
    }
  }

  lemma ToldOn(t: Tables, u: Tables, said: seq<Said>, more: Option<Said>, c: Id)
    requires ConversationStep(t, u, c, more)
    requires if c in t.conversations then Tell(said, t.conversations[c], MessagesOf(t.messages, c), c)
             else said == [] && MessagesOf(t.messages, c) == []
    ensures
      if c in u.conversations then Tell(Extended(said, more), u.conversations[c], MessagesOf(u.messages, c), c)
      else Extended(said, more) == [] && MessagesOf(u.messages, c) == []
  {
    hide MessagesOf;
    if c in t.conversations {
      hide Tell, RowStep, RowsStep, Extended;
      StepIsTold(said, t.conversations[c], u.conversations[c], MessagesOf(t.messages, c),
                 MessagesOf(u.messages, c), more, c);
    }
  }

  lemma NothingSaid(c: Id)
    ensures MessagesOf([], c) == []
  {
  }

  lemma ImpossibleRecordsNothing(s: Store, step: Step, c: Id, said: seq<Said>)
    requires !Possible(s, step)
    ensures Extended(said, Recording(s, step, c)) == said
  {
  }
}
