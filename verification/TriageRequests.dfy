/**
 What each triage request accepts and what a customer finds afterwards: resuming, ending, attaching and
 detaching photos, and the turn that reaches the cap.
 */
module TriageRequests {
  import opened Strings
  import opened Markers
  import opened MarkedText
  import opened ReplyParser
  import opened ReplyTokens
  import opened TriageStore
  import opened TriageInvariants

  // ---------- Ending a conversation ----------

  /** Apart from conversation c everything about conversations and their photos is as it was. */
  ghost predicate OthersKept(s: Store, u: Store, c: Id) {
    && u.tables.messages == s.tables.messages && u.tables.calls == s.tables.calls
    && u.tables.attachments == s.tables.attachments
    && (forall d :: d != c && d in s.tables.conversations ==>
          d in u.tables.conversations && u.tables.conversations[d] == s.tables.conversations[d])
    && (forall p :: p in s.tables.photos && s.tables.photos[p].conversation != c ==>
          p in u.tables.photos && u.tables.photos[p] == s.tables.photos[p])
    && (forall k: Key :: k.0 !in PhotosOf(s.tables.photos, c) ==> (k in u.objects <==> k in s.objects))
  }

  /** The conversation is abandoned: its sent photos stay named, its pending ones go, and none of its
      photos keeps an object. */
  ghost predicate IsAbandoned(s: Store, u: Store, c: Id, now: int)
    requires c in s.tables.conversations
  {
    && c in u.tables.conversations
    && u.tables.conversations[c] == s.tables.conversations[c].(status := Abandoned, updatedAt := now)
    && (forall p :: p in PhotosOf(s.tables.photos, c) ==>
          && (p in u.tables.photos <==> s.tables.photos[p].message.Some?)
          && (p in u.tables.photos ==> u.tables.photos[p] == s.tables.photos[p])
          && (p, Original) !in u.objects && (p, Preview) !in u.objects)
    && OthersKept(s, u, c)
  }

  lemma AbandonAbandons(s: Store, c: Id, now: int)
    requires c in s.tables.conversations
    ensures IsAbandoned(s, Abandon(s, c, now), c, now)
  {
    var u := Abandon(s, c, now);
    forall p | p in PhotosOf(s.tables.photos, c)
      ensures (p, Original) !in u.objects && (p, Preview) !in u.objects
    {
      var o: Key, v: Key := (p, Original), (p, Preview);
      assert p in Sent(s.tables.photos, c) + Unsent(s.tables.photos, c);
      assert o.0 == p && v.0 == p;
    }
  }

  /** A customer can end exactly their own open conversation. */
  lemma EndsExactlyTheirOwn(s: Store, c: Id, customer: Id, now: int)
    ensures var t := s.tables.conversations;
      End(s, c, customer, now).Some? <==> c in t && t[c].customer == customer && t[c].status == Active
    ensures var u := End(s, c, customer, now); u.Some? ==> IsAbandoned(s, u.value, c, now)
  {
    hide IsAbandoned;
    if End(s, c, customer, now).Some? { AbandonAbandons(s, c, now); }
  }

  // ---------- Starting one ----------

  /** A conversation in which nothing was said for more than a day. */
  predicate Idle(row: ConversationRow, now: int) {
    now - row.updatedAt > 24 * 3600 * 1_000_000
  }

  predicate IsNew(row: ConversationRow, customer: Id, now: int) {
    row == ConversationRow(customer, Active, None, None, false, now, now)
  }

  /** A customer's open conversation is resumed while it is not idle for more than a day. An idle one is
      abandoned and a new one opened; without an open one a new one is opened. */
  lemma StartsAfreshExactlyWhenIdle(s: Store, customer: Id, newId: Id, now: int)
    requires Invariant(s) && newId !in s.tables.conversations
    ensures forall c :: ActiveFor(s.tables.conversations, c, customer) ==>
      var u := Start(s, customer, newId, now);
      if Idle(s.tables.conversations[c], now) then
        && newId in u.tables.conversations && IsNew(u.tables.conversations[newId], customer, now)
        && IsAbandoned(s, u, c, now)
      else u == s
    ensures (forall c :: !ActiveFor(s.tables.conversations, c, customer)) ==>
      var u := Start(s, customer, newId, now);
      && newId in u.tables.conversations && IsNew(u.tables.conversations[newId], customer, now)
      && OthersKept(s, u, newId)
  {
    hide Invariant, IsAbandoned, Abandon, MessagesOf;
    forall c | ActiveFor(s.tables.conversations, c, customer)
      ensures var u := Start(s, customer, newId, now);
        if Idle(s.tables.conversations[c], now) then
          && newId in u.tables.conversations && IsNew(u.tables.conversations[newId], customer, now)
          && IsAbandoned(s, u, c, now)
        else u == s
    {
      StartResumesTheOnly(s, customer, newId, now, c);
      AbandonAbandons(s, c, now);
      OpenedBeside(s, Abandon(s, c, now), c, customer, newId, now);
    }
  }

  lemma OpenedBeside(s: Store, u: Store, c: Id, customer: Id, newId: Id, now: int)
    requires c in s.tables.conversations && newId !in s.tables.conversations && IsAbandoned(s, u, c, now)
    ensures IsAbandoned(s, Opened(u, customer, newId, now), c, now)
    ensures var v := Opened(u, customer, newId, now);
      newId in v.tables.conversations && IsNew(v.tables.conversations[newId], customer, now)
  {
  }

  // ---------- Photos ----------

  /** A photo can be attached exactly to the customer's open conversation while it has fewer than five;
      then it is pending there with both its objects. */
  lemma AttachesExactlyWithRoom(s: Store, c: Id, customer: Id, photo: Id, filename: string, now: int)
    requires photo !in s.tables.photos
    ensures var t := s.tables.conversations;
      Attach(s, c, customer, photo, filename, now).Some? <==>
        c in t && t[c].customer == customer && t[c].status == Active && |PhotosOf(s.tables.photos, c)| < 5
    ensures var u := Attach(s, c, customer, photo, filename, now);
      u.Some? ==>
        && photo in u.value.tables.photos && u.value.tables.photos[photo] == PhotoRow(c, None, filename, now)
        && (photo, Original) in u.value.objects && (photo, Preview) in u.value.objects
        && OnlyPhotoChanged(s, u.value, photo)
  {
    hide PhotosOf;
  }

  /** Nothing but this photo and its objects differs. */
  ghost predicate OnlyPhotoChanged(s: Store, u: Store, photo: Id) {
    && u.tables.conversations == s.tables.conversations && u.tables.messages == s.tables.messages
    && u.tables.calls == s.tables.calls && u.tables.attachments == s.tables.attachments
    && (forall p :: p != photo ==> (p in u.tables.photos <==> p in s.tables.photos))
    && (forall p :: p != photo && p in s.tables.photos ==> u.tables.photos[p] == s.tables.photos[p])
    && (forall k: Key :: k.0 != photo ==> (k in u.objects <==> k in s.objects))
  }

  /** A photo can be detached exactly while it is pending in the customer's open conversation; then row
      and objects are gone. */
  lemma DetachesExactlyPending(s: Store, c: Id, customer: Id, photo: Id)
    ensures var t := s.tables.conversations;
      Detach(s, c, customer, photo).Some? <==>
        && c in t && t[c].customer == customer && t[c].status == Active
        && photo in s.tables.photos && s.tables.photos[photo].conversation == c
        && s.tables.photos[photo].message.None?
    ensures var u := Detach(s, c, customer, photo);
      u.Some? ==>
        && photo !in u.value.tables.photos
        && (photo, Original) !in u.value.objects && (photo, Preview) !in u.value.objects
        && OnlyPhotoChanged(s, u.value, photo)
  {
    var o: Key, v: Key := (photo, Original), (photo, Preview);
    assert o.0 == photo && v.0 == photo;
  }

  // ---------- Turns ----------

  /** A recorded turn binds exactly the photos it names to its question, wherever they were. */
  lemma TurnBindsItsPhotos(s: Store, c: Id, customer: Id, turn: Turn, reply: ParsedReply)
    requires SendMessage(s, c, customer, turn, reply).Some?
    ensures var photos := SendMessage(s, c, customer, turn, reply).value.tables.photos;
      && (forall p :: p in turn.photos ==>
            p in photos && photos[p] == s.tables.photos[p].(message := Some(turn.question)))
      && (forall p :: p in photos && p !in turn.photos ==>
            p in s.tables.photos && photos[p] == s.tables.photos[p])
  {
    hide Answer, MessagesOf, SendMessage;
    SendMessageIsATurn(s, c, customer, turn, reply);
    NamedArePending(s, c, customer, turn, reply);
  }

  lemma NamedArePending(s: Store, c: Id, customer: Id, turn: Turn, reply: ParsedReply)
    requires SendMessage(s, c, customer, turn, reply).Some?
    ensures forall p :: p in turn.photos ==> p in Unsent(s.tables.photos, c)
  {
    hide Answer, MessagesOf, Recorded, Unsent;
    forall p | p in turn.photos ensures p in Unsent(s.tables.photos, c) {
      var i :| 0 <= i < |turn.photos| && turn.photos[i] == p;
    }
  }

  /** The customer's twelfth turn is answered by the handoff whatever the model says: it leaves the
      conversation escalated to the turn's service call. Before that the model's reply is the answer. */
  lemma TwelfthTurnEscalates(s: Store, c: Id, customer: Id, turn: Turn, reply: ParsedReply)
    requires Invariant(s) && SendMessage(s, c, customer, turn, reply).Some?
    ensures var rows := MessagesOf(s.tables.messages, c);
      var row := SendMessage(s, c, customer, turn, reply).value.tables.conversations[c];
      var said := MessagesOf(SendMessage(s, c, customer, turn, reply).value.tables.messages, c);
      if |rows| == 22 then
        && row.status == Escalated && row.serviceCall == Some(turn.call)
        && row.equipment == s.tables.conversations[c].equipment
        && |said| == 24 && said[23].text == TURN_CAP_HANDOFF
      else |rows| < 22 && |said| == |rows| + 2 && said[|rows| + 1].text == reply.text
               && (row.status == Escalated <==> reply.ending == Some(ESCALATE))
  {
    hide MessagesOf, SendMessage, CustomerTurns, PhotosSound, AttachmentsSound, ObjectsExact, OneActiveEach,
         OneCallEach;
    SendMessageIsATurn(s, c, customer, turn, reply);
    SentInActive(s, c, customer, turn, reply);
    assert ConversationSound(s.tables, c);
    HalfAreCustomers(MessagesOf(s.tables.messages, c));
    RecordedMessages(s.tables, c, turn, Answer(s.tables, c, reply), c);
    EndingDecidesStatus(Answer(s.tables, c, reply).ending);
  }

  /** Before the twelfth turn the markers of the reply decide how the turn leaves the conversation: solved,
      else escalated to the turn's service call, else abandoned, by the first of these endings the reply
      carries, and active if it carries none. */
  lemma MarkersDecideTheStatus(s: Store, c: Id, customer: Id, turn: Turn, ts: seq<Token>)
    requires Invariant(s) && Canon(MARKERS, ts) && |MessagesOf(s.tables.messages, c)| < 22
    requires SendMessage(s, c, customer, turn, ParseReply(Flat(ts))).Some?
    ensures c in SendMessage(s, c, customer, turn, ParseReply(Flat(ts))).value.tables.conversations
    ensures var row := SendMessage(s, c, customer, turn, ParseReply(Flat(ts))).value.tables.conversations[c];
      && row.status == (if Mk(SOLVED) in ts then Solved
                        else if Mk(ESCALATE) in ts then Escalated
                        else if Mk(CLOSED) in ts then Abandoned
                        else Active)
      && row.serviceCall == if row.status == Escalated then Some(turn.call) else None
  {
    hide *;
    EndingOnTokens(ts);
    EndsAsAnswered(s, c, customer, turn, ParseReply(Flat(ts)));
    FirstEndingDecides(Mk(SOLVED) in ts, Mk(ESCALATE) in ts, Mk(CLOSED) in ts);
  }

  lemma EndsAsAnswered(s: Store, c: Id, customer: Id, turn: Turn, reply: ParsedReply)
    requires Invariant(s) && SendMessage(s, c, customer, turn, reply).Some?
    requires |MessagesOf(s.tables.messages, c)| < 22
    ensures c in SendMessage(s, c, customer, turn, reply).value.tables.conversations
    ensures var row := SendMessage(s, c, customer, turn, reply).value.tables.conversations[c];
      && row.status == StatusOf(reply.ending)
      && row.serviceCall == if row.status == Escalated then Some(turn.call) else None
  {
    hide MessagesOf, SendMessage, CustomerTurns, StatusOf, PhotosSound, AttachmentsSound, ObjectsExact, OneActiveEach,
         OneCallEach;
    SendMessageIsATurn(s, c, customer, turn, reply);
    SentInActive(s, c, customer, turn, reply);
    assert ConversationSound(s.tables, c);
    HalfAreCustomers(MessagesOf(s.tables.messages, c));
  }

  lemma FirstEndingDecides(solved: bool, escalated: bool, closed: bool)
    ensures StatusOf(if solved then Some(SOLVED) else if escalated then Some(ESCALATE)
                     else if closed then Some(CLOSED) else None)
         == if solved then Solved else if escalated then Escalated else if closed then Abandoned else Active
  {
    assert SOLVED[2] != CLOSED[2] && SOLVED[2] != ESCALATE[2] && CLOSED[2] != ESCALATE[2];
  }

  lemma SentInActive(s: Store, c: Id, customer: Id, turn: Turn, reply: ParsedReply)
    requires SendMessage(s, c, customer, turn, reply).Some?
    ensures ActiveFor(s.tables.conversations, c, customer)
  {
    hide Answer, Recorded, Unsent;
  }
}
