/**
 What every run of triage requests keeps: conversation lifecycle, message numbering, and exact
 ownership of the object store.
 */
module TriageInvariants {
  import opened Strings
  import opened ReplyParser
  import opened TriageStore

  // ---------- The invariants ----------

  /** Messages are numbered from 0 and alternate, the customer first, whole turns only. */
  predicate Exchange(rows: seq<MessageRow>) {
    && |rows| % 2 == 0
    && forall i :: 0 <= i < |rows| ==> rows[i].number == i && rows[i].role == if i % 2 == 0 then Customer else Assistant
  }

  ghost predicate ConversationSound(t: Tables, c: Id)
    requires c in t.conversations
  {
    var row := t.conversations[c];
    var rows := MessagesOf(t.messages, c);
    && Exchange(rows)
    && |rows| <= 2 * MAX_CUSTOMER_TURNS
    && (row.status == Active ==> |rows| <= 2 * (MAX_CUSTOMER_TURNS - 1))
    && (row.serviceCall.Some? <==> row.status == Escalated)
    && (row.serviceCall.Some? ==> row.serviceCall.value in t.calls)
    && |PhotosOf(t.photos, c)| <= MAX_PHOTOS
  }

  ghost predicate ConversationsSound(t: Tables) {
    && (forall c :: c in t.conversations ==> ConversationSound(t, c))
    && (forall c :: c !in t.conversations ==> MessagesOf(t.messages, c) == [])
  }

  ghost predicate OneActiveEach(conversations: map<Id, ConversationRow>) {
    forall c, d, customer :: ActiveFor(conversations, c, customer) && ActiveFor(conversations, d, customer) ==> c == d
  }

  ghost predicate OneCallEach(conversations: map<Id, ConversationRow>) {
    forall c, d ::
      c in conversations && d in conversations && conversations[c].serviceCall.Some?
      && conversations[c].serviceCall == conversations[d].serviceCall ==>
        c == d
  }

  ghost predicate SaidIn(messages: seq<MessageRow>, m: Id, c: Id) {
    exists i :: 0 <= i < |messages| && messages[i].id == m && messages[i].conversation == c
        && messages[i].role == Customer
  }

  /** A photo belongs to a conversation; a pending one to an active conversation, a sent one to a
      customer message of its conversation. */
  ghost predicate PhotoSound(t: Tables, photo: PhotoRow) {
    && photo.conversation in t.conversations
    && match photo.message
       case None => t.conversations[photo.conversation].status == Active
       case Some(m) => SaidIn(t.messages, m, photo.conversation)
  }

  ghost predicate PhotosSound(t: Tables) {
    forall p :: p in t.photos ==> PhotoSound(t, t.photos[p])
  }

  /** Attached to an escalated conversation's call is exactly what was sent in it. */
  ghost predicate AttachmentSound(t: Tables, p: Id) {
    if p in t.photos && t.photos[p].conversation in t.conversations
       && t.conversations[t.photos[p].conversation].status == Escalated
       && t.photos[p].message.Some?
    then p in t.attachments && Some(t.attachments[p]) == t.conversations[t.photos[p].conversation].serviceCall
    else p !in t.attachments
  }

  ghost predicate AttachmentsSound(t: Tables) {
    forall p :: AttachmentSound(t, p)
  }

  /** Photos whose two objects must exist: pending or sent in an active conversation, or sent in
      an escalated one. */
  predicate Kept(t: Tables, p: Id) {
    && p in t.photos && t.photos[p].conversation in t.conversations
    && var status := t.conversations[t.photos[p].conversation].status;
       status == Active || (status == Escalated && t.photos[p].message.Some?)
  }

  /** The object store holds both keys of every kept photo and nothing else. */
  ghost predicate ObjectsExact(s: Store) {
    forall k: Key :: k in s.objects <==> Kept(s.tables, k.0)
  }

  ghost predicate MessageIdsUnique(messages: seq<MessageRow>) {
    forall i, j :: 0 <= i < j < |messages| ==> messages[i].id != messages[j].id
  }

  ghost predicate Invariant(s: Store) {
    && MessageIdsUnique(s.tables.messages)
    && ConversationsSound(s.tables) && OneActiveEach(s.tables.conversations) && OneCallEach(s.tables.conversations)
    && PhotosSound(s.tables) && AttachmentsSound(s.tables) && ObjectsExact(s)
  }

  // ---------- Set sizes ----------

  lemma FewerPhotos(a: map<Id, PhotoRow>, b: map<Id, PhotoRow>, c: Id)
    requires forall p :: p in b && b[p].conversation == c ==> p in a && a[p].conversation == c
    ensures |PhotosOf(b, c)| <= |PhotosOf(a, c)|
  {
    SubsetSize(PhotosOf(b, c), PhotosOf(a, c));
  }

  lemma {:induction false} SubsetSize<T>(a: set<T>, b: set<T>)
    requires a <= b
    ensures |a| <= |b|
  {
    if a == {} {
    } else {
      var x :| x in a;
      SubsetSize(a - {x}, b - {x});
    }
  }

  /** Storing a row keeps one active conversation a customer, unless it adds a second. */
  lemma RowKeepsOneActive(conversations: map<Id, ConversationRow>, c: Id, row: ConversationRow)
    requires OneActiveEach(conversations)
    requires row.status == Active ==> forall d :: ActiveFor(conversations, d, row.customer) ==> d == c
    ensures OneActiveEach(conversations[c := row])
  {
    var after := conversations[c := row];
    forall d, e, customer | ActiveFor(after, d, customer) && ActiveFor(after, e, customer) ensures d == e {
      assert d != c ==> ActiveFor(conversations, d, customer);
      assert e != c ==> ActiveFor(conversations, e, customer);
    }
  }

  lemma OnePhotoMore(photos: map<Id, PhotoRow>, p: Id, row: PhotoRow, c: Id)
    requires p !in photos
    ensures |PhotosOf(photos[p := row], c)| <= |PhotosOf(photos, c)| + if row.conversation == c then 1 else 0
  {
    var more := if row.conversation == c then {p} else {};
    assert PhotosOf(photos[p := row], c) == PhotosOf(photos, c) + more;
  }

  // ---------- Endings ----------

  lemma AbandonKeepsInvariant(s: Store, c: Id, now: int)
    requires Invariant(s) && ActiveIn(s.tables, c)
    ensures Invariant(Abandon(s, c, now))
  {
    hide MessagesOf, Exchange, SaidIn, ObjectsExact, AttachmentSound;
    var u := Abandon(s, c, now);
    forall d ensures |PhotosOf(u.tables.photos, d)| <= |PhotosOf(s.tables.photos, d)| {
      FewerPhotos(s.tables.photos, u.tables.photos, d);
    }
    assert ConversationsSound(u.tables);
    assert PhotosSound(u.tables);
    RowKeepsOneActive(s.tables.conversations, c, u.tables.conversations[c]);
    AbandonKeepsObjects(s, c, now);
  }

  predicate ActiveIn(t: Tables, c: Id) {
    c in t.conversations && t.conversations[c].status == Active
  }

  lemma AbandonKeepsObjects(s: Store, c: Id, now: int)
    requires AttachmentsSound(s.tables) && ObjectsExact(s) && ActiveIn(s.tables, c)
    ensures var u := Abandon(s, c, now); AttachmentsSound(u.tables) && ObjectsExact(u)
  {
    var u := Abandon(s, c, now);
    forall p ensures AttachmentSound(u.tables, p) {
      assert AttachmentSound(s.tables, p);
    }
  }

  // ---------- Starting ----------

  lemma OpenKeepsInvariant(s: Store, customer: Id, newId: Id, now: int)
    requires Invariant(s) && newId !in s.tables.conversations
    requires forall c :: !ActiveFor(s.tables.conversations, c, customer)
    ensures Invariant(Opened(s, customer, newId, now))
  {
    hide MessagesOf, SaidIn, AttachmentSound, ObjectsExact;
    var u := Opened(s, customer, newId, now);
    NoPhotosYet(s.tables, newId);
    assert ConversationsSound(u.tables);
    RowKeepsOneActive(s.tables.conversations, newId, u.tables.conversations[newId]);
    assert PhotosSound(u.tables);
    OpenKeepsObjects(s, customer, newId, now);
  }

  lemma NoPhotosYet(t: Tables, newId: Id)
    requires PhotosSound(t) && newId !in t.conversations
    ensures PhotosOf(t.photos, newId) == {}
  {
  }

  lemma OpenKeepsObjects(s: Store, customer: Id, newId: Id, now: int)
    requires PhotosSound(s.tables) && AttachmentsSound(s.tables) && ObjectsExact(s) && newId !in s.tables.conversations
    ensures var u := Opened(s, customer, newId, now); AttachmentsSound(u.tables) && ObjectsExact(u)
  {
    hide SaidIn;
    var u := Opened(s, customer, newId, now);
    forall p ensures AttachmentSound(u.tables, p) {
      assert AttachmentSound(s.tables, p);
    }
  }

  lemma StartKeepsInvariant(s: Store, customer: Id, newId: Id, now: int)
    requires Invariant(s) && newId !in s.tables.conversations
    ensures Invariant(Start(s, customer, newId, now))
  {
    hide Invariant, Opened;
    if exists c :: ActiveFor(s.tables.conversations, c, customer) {
      var c :| ActiveFor(s.tables.conversations, c, customer);
      StartResumesTheOnly(s, customer, newId, now, c);
      if Expired(s.tables.conversations[c], now) {
        AbandonKeepsInvariant(s, c, now);
        NoneActiveAfter(s, customer, c, now);
        OpenKeepsInvariant(Abandon(s, c, now), customer, newId, now);
      }
    } else {
      OpenKeepsInvariant(s, customer, newId, now);
    }
  }

  lemma NoneActiveAfter(s: Store, customer: Id, c: Id, now: int)
    requires Invariant(s) && ActiveFor(s.tables.conversations, c, customer)
    ensures forall d :: !ActiveFor(Abandon(s, c, now).tables.conversations, d, customer)
  {
    assert OneActiveEach(s.tables.conversations);
    assert forall d :: ActiveFor(Abandon(s, c, now).tables.conversations, d, customer) ==>
        ActiveFor(s.tables.conversations, d, customer) && d != c;
  }

  /** Starting acts on the customer's one active conversation. */
  lemma StartResumesTheOnly(s: Store, customer: Id, newId: Id, now: int, c: Id)
    requires Invariant(s) && ActiveFor(s.tables.conversations, c, customer)
    ensures Start(s, customer, newId, now) ==
      if Expired(s.tables.conversations[c], now) then Opened(Abandon(s, c, now), customer, newId, now) else s
  {
  }

  // ---------- Photos before the turn ----------

  lemma AttachKeepsInvariant(s: Store, c: Id, customer: Id, photo: Id, filename: string, now: int)
    requires Invariant(s) && photo !in s.tables.photos
    ensures var u := Attach(s, c, customer, photo, filename, now); u.Some? ==> Invariant(u.value)
  {
    hide MessagesOf, Exchange, SaidIn, AttachmentSound, ObjectsExact, PhotosOf;
    var after := Attach(s, c, customer, photo, filename, now);
    if after.Some? {
      var u := after.value;
      forall d ensures |PhotosOf(u.tables.photos, d)| <= |PhotosOf(s.tables.photos, d)| + if d == c then 1 else 0 {
        OnePhotoMore(s.tables.photos, photo, u.tables.photos[photo], d);
      }
      assert ConversationsSound(u.tables);
      assert PhotosSound(u.tables);
      AttachKeepsObjects(s, c, customer, photo, filename, now);
    }
  }

  lemma AttachKeepsObjects(s: Store, c: Id, customer: Id, photo: Id, filename: string, now: int)
    requires AttachmentsSound(s.tables) && ObjectsExact(s) && photo !in s.tables.photos
    ensures var u := Attach(s, c, customer, photo, filename, now);
      u.Some? ==> AttachmentsSound(u.value.tables) && ObjectsExact(u.value)
  {
    var after := Attach(s, c, customer, photo, filename, now);
    if after.Some? {
      forall p ensures AttachmentSound(after.value.tables, p) {
        assert AttachmentSound(s.tables, p);
      }
    }
  }

  lemma DetachKeepsInvariant(s: Store, c: Id, customer: Id, photo: Id)
    requires Invariant(s)
    ensures var u := Detach(s, c, customer, photo); u.Some? ==> Invariant(u.value)
  {
    hide MessagesOf, Exchange, SaidIn, AttachmentSound, ObjectsExact;
    var after := Detach(s, c, customer, photo);
    if after.Some? {
      var u := after.value;
      forall d ensures |PhotosOf(u.tables.photos, d)| <= |PhotosOf(s.tables.photos, d)| {
        FewerPhotos(s.tables.photos, u.tables.photos, d);
      }
      assert ConversationsSound(u.tables);
      assert PhotosSound(u.tables);
      DetachKeepsObjects(s, c, customer, photo);
    }
  }

  lemma DetachKeepsObjects(s: Store, c: Id, customer: Id, photo: Id)
    requires AttachmentsSound(s.tables) && ObjectsExact(s)
    ensures var u := Detach(s, c, customer, photo); u.Some? ==>
        AttachmentsSound(u.value.tables) && ObjectsExact(u.value)
  {
    var after := Detach(s, c, customer, photo);
    if after.Some? {
      forall p ensures AttachmentSound(after.value.tables, p) {
        assert AttachmentSound(s.tables, p);
      }
    }
  }

  // ---------- A recorded turn ----------

  lemma AppendMessage(messages: seq<MessageRow>, row: MessageRow, c: Id)
    ensures MessagesOf(messages + [row], c) == MessagesOf(messages, c) + if row.conversation == c then [row] else []
  {
  }

  lemma {:induction false} HalfAreCustomers(rows: seq<MessageRow>)
    requires forall i :: 0 <= i < |rows| ==> rows[i].role == if i % 2 == 0 then Customer else Assistant
    ensures CustomerTurns(rows) == (|rows| + 1) / 2
  {
    if rows == [] {
    } else {
      HalfAreCustomers(rows[..|rows| - 1]);
    }
  }

  /** The request is accepted: an active conversation of the customer's, photos all pending in it. */
  predicate Sendable(t: Tables, c: Id, turn: Turn) {
    && ActiveIn(t, c)
    && (forall i :: 0 <= i < |turn.photos| ==> turn.photos[i] in Unsent(t.photos, c))
    && MessageIdFree(t, turn.question) && MessageIdFree(t, turn.answer) && turn.question != turn.answer
    && turn.call !in t.calls
  }

  lemma RecordedMessages(t: Tables, c: Id, turn: Turn, parsed: ParsedReply, d: Id)
    requires c in t.conversations
    ensures var rows := MessagesOf(t.messages, c);
      MessagesOf(Recorded(t, c, turn, parsed).messages, d) ==
        if d == c then rows + [MessageRow(turn.question, c, |rows|, Customer, turn.text, turn.asked),
                               MessageRow(turn.answer, c, |rows| + 1, Assistant, parsed.text, turn.answered)]
        else MessagesOf(t.messages, d)
  {
    hide MessagesOf;
    var n := |MessagesOf(t.messages, c)|;
    var question := MessageRow(turn.question, c, n, Customer, turn.text, turn.asked);
    var answer := MessageRow(turn.answer, c, n + 1, Assistant, parsed.text, turn.answered);
    AppendMessage(t.messages, question, d);
    AppendMessage(t.messages + [question], answer, d);
    Assoc(t.messages, [question], [answer]);
    Assoc(MessagesOf(t.messages, c), [question], [answer]);
    assert [question] + [answer] == [question, answer];
  }

  /** Whole turns, up to the cap; at the cap the conversation is no longer active. */
  lemma RecordedConversation(t: Tables, c: Id, turn: Turn, reply: ParsedReply)
    requires ConversationsSound(t) && Sendable(t, c, turn)
    ensures var parsed := Answer(t, c, reply);
      var u := Recorded(t, c, turn, parsed);
      var rows := MessagesOf(u.messages, c);
      && Exchange(rows)
      && |rows| <= 2 * MAX_CUSTOMER_TURNS
      && (u.conversations[c].status == Active ==> |rows| <= 2 * (MAX_CUSTOMER_TURNS - 1))
  {
    hide MessagesOf, CustomerTurns, PhotosOf;
    var rows := MessagesOf(t.messages, c);
    assert ConversationSound(t, c);
    HalfAreCustomers(rows);
    RecordedMessages(t, c, turn, Answer(t, c, reply), c);
  }

  /** u is the tables after a recorded turn, with some photos dropped. */
  ghost predicate AfterTurn(t: Tables, u: Tables, c: Id, turn: Turn, parsed: ParsedReply)
    requires c in t.conversations
  {
    var recorded := Recorded(t, c, turn, parsed);
    && u.conversations == recorded.conversations && u.messages == recorded.messages
    && u.calls == recorded.calls && u.attachments == recorded.attachments
    && u.photos == if recorded.conversations[c].status == Active then recorded.photos
          else recorded.photos - Unsent(recorded.photos, c)
  }

  lemma TurnKeepsConversations(t: Tables, u: Tables, c: Id, turn: Turn, reply: ParsedReply)
    requires ConversationsSound(t) && Sendable(t, c, turn) && AfterTurn(t, u, c, turn, Answer(t, c, reply))
    ensures ConversationsSound(u)
  {
    hide MessagesOf, CustomerTurns, Answer, Exchange, PhotosOf;
    var parsed := Answer(t, c, reply);
    RecordedConversation(t, c, turn, reply);
    forall d ensures MessagesOf(u.messages, d) ==
          if d == c then MessagesOf(Recorded(t, c, turn, parsed).messages, c) else MessagesOf(t.messages, d) {
      RecordedMessages(t, c, turn, parsed, d);
    }
    forall d ensures |PhotosOf(u.photos, d)| <= |PhotosOf(t.photos, d)| {
      FewerPhotos(t.photos, u.photos, d);
    }
    forall d | d in u.conversations ensures ConversationSound(u, d) {
      assert ConversationSound(t, d);
    }
  }

  lemma TurnKeepsCalls(t: Tables, u: Tables, c: Id, turn: Turn, parsed: ParsedReply)
    requires ConversationsSound(t) && OneCallEach(t.conversations) && OneActiveEach(t.conversations)
    requires Sendable(t, c, turn) && AfterTurn(t, u, c, turn, parsed)
    ensures OneCallEach(u.conversations) && OneActiveEach(u.conversations)
  {
    hide MessagesOf, Exchange;
    assert forall d :: d in t.conversations ==> ConversationSound(t, d);
    assert ActiveFor(t.conversations, c, t.conversations[c].customer);
    RowKeepsOneActive(t.conversations, c, u.conversations[c]);
  }

  lemma TurnKeepsPhotos(t: Tables, u: Tables, c: Id, turn: Turn, parsed: ParsedReply)
    requires PhotosSound(t) && Sendable(t, c, turn) && AfterTurn(t, u, c, turn, parsed)
    ensures PhotosSound(u)
  {
    hide SaidIn;
    forall m, d | SaidIn(t.messages, m, d) ensures SaidIn(u.messages, m, d) {
      StillSaid(t.messages, u.messages, m, d);
    }
    JustSaid(t.messages, u.messages, turn.question, c);
    forall p | p in u.photos ensures PhotoSound(u, u.photos[p]) {
      assert PhotoSound(t, t.photos[p]);
    }
  }

  lemma StillSaid(messages: seq<MessageRow>, after: seq<MessageRow>, m: Id, c: Id)
    requires messages <= after && SaidIn(messages, m, c)
    ensures SaidIn(after, m, c)
  {
  }

  lemma JustSaid(messages: seq<MessageRow>, after: seq<MessageRow>, m: Id, c: Id)
    requires |messages| < |after| && after[|messages|].id == m && after[|messages|].conversation == c
        && after[|messages|].role == Customer
    ensures SaidIn(after, m, c)
  {
  }

  lemma TurnKeepsAttachments(t: Tables, u: Tables, c: Id, turn: Turn, parsed: ParsedReply)
    requires AttachmentsSound(t) && Sendable(t, c, turn) && AfterTurn(t, u, c, turn, parsed)
    ensures AttachmentsSound(u)
  {
    forall p ensures AttachmentSound(u, p) {
      assert AttachmentSound(t, p);
    }
  }

  lemma TurnKeepsObjects(s: Store, c: Id, customer: Id, turn: Turn, reply: ParsedReply)
    requires ObjectsExact(s) && Sendable(s.tables, c, turn)
    ensures var u := SendMessage(s, c, customer, turn, reply); u.Some? ==> ObjectsExact(u.value)
  {
    hide Answer, MessagesOf;
  }

  lemma SendMessageIsATurn(s: Store, c: Id, customer: Id, turn: Turn, reply: ParsedReply)
    requires SendMessage(s, c, customer, turn, reply).Some?
    ensures AfterTurn(s.tables, SendMessage(s, c, customer, turn, reply).value.tables,
              c, turn, Answer(s.tables, c, reply))
  {
    hide Answer, MessagesOf;
  }

  lemma SendMessageKeepsInvariant(s: Store, c: Id, customer: Id, turn: Turn, reply: ParsedReply)
    requires Invariant(s) && Possible(s, TurnStep(c, customer, turn, Some(reply)))
    ensures var u := SendMessage(s, c, customer, turn, reply); u.Some? ==> Invariant(u.value)
  {
    hide Answer, Recorded, ConversationsSound, PhotosSound, AttachmentsSound, ObjectsExact, OneActiveEach,
         OneCallEach, MessageIdsUnique;
    var after := SendMessage(s, c, customer, turn, reply);
    if after.Some? {
      var parsed := Answer(s.tables, c, reply);
      SendMessageIsATurn(s, c, customer, turn, reply);
      TurnKeepsConversations(s.tables, after.value.tables, c, turn, reply);
      TurnKeepsCalls(s.tables, after.value.tables, c, turn, parsed);
      TurnKeepsPhotos(s.tables, after.value.tables, c, turn, parsed);
      TurnKeepsAttachments(s.tables, after.value.tables, c, turn, parsed);
      TurnKeepsObjects(s, c, customer, turn, reply);
      TurnKeepsMessageIds(s.tables, after.value.tables, c, turn, parsed);
    }
  }

  lemma TurnKeepsMessageIds(t: Tables, u: Tables, c: Id, turn: Turn, parsed: ParsedReply)
    requires MessageIdsUnique(t.messages) && Sendable(t, c, turn) && AfterTurn(t, u, c, turn, parsed)
    ensures MessageIdsUnique(u.messages)
  {
  }

  /** A turn is accepted exactly when the conversation is the customer's and active, its photos are
      pending in it, and, if it escalates, it names no photo twice. */
  lemma AcceptedExactly(s: Store, c: Id, customer: Id, turn: Turn, reply: ParsedReply)
    requires Invariant(s)
    ensures SendMessage(s, c, customer, turn, reply).Some? <==>
      && ActiveFor(s.tables.conversations, c, customer)
      && (forall i :: 0 <= i < |turn.photos| ==> turn.photos[i] in Unsent(s.tables.photos, c))
      && (StatusOf(Answer(s.tables, c, reply).ending) == Escalated ==> Distinct(turn.photos))
  {
    hide Answer, MessagesOf, ConversationsSound, PhotosSound;
    if ActiveFor(s.tables.conversations, c, customer) {
      forall p | p in PhotosOf(s.tables.photos, c) ensures p !in s.tables.attachments {
        assert AttachmentSound(s.tables, p);
      }
    }
  }

  // ---------- How a turn ends ----------

  /** Each ending marker has its own status; any other answer leaves the conversation open. */
  lemma EndingDecidesStatus(ending: Option<string>)
    ensures StatusOf(ending) == Solved <==> ending == Some(SOLVED)
    ensures StatusOf(ending) == Abandoned <==> ending == Some(CLOSED)
    ensures StatusOf(ending) == Escalated <==> ending == Some(ESCALATE)
  {
    assert SOLVED[2] != CLOSED[2] && SOLVED[2] != ESCALATE[2] == 'E' && CLOSED[2] != ESCALATE[2];
  }

  // ---------- Every run ----------

  lemma NextKeepsInvariant(s: Store, step: Step, now: int)
    requires Invariant(s) && Possible(s, step)
    ensures Invariant(Next(s, step, now))
  {
    hide Invariant, Start, End, Abandon, Attach, Detach, SendMessage;
    match step
    case StartStep(customer, newId) => StartKeepsInvariant(s, customer, newId, now);
    case EndStep(c, customer) => EndKeepsInvariant(s, c, customer, now);
    case AttachStep(c, customer, photo, filename) => AttachKeepsInvariant(s, c, customer, photo, filename, now);
    case DetachStep(c, customer, photo) => DetachKeepsInvariant(s, c, customer, photo);
    case TurnStep(c, customer, turn, reply) =>
      if reply.Some? {
        SendMessageKeepsInvariant(s, c, customer, turn, reply.value);
      }
  }

  lemma EndKeepsInvariant(s: Store, c: Id, customer: Id, now: int)
    requires Invariant(s)
    ensures var u := End(s, c, customer, now); u.Some? ==> Invariant(u.value)
  {
    hide Invariant, Abandon;
    if ActiveFor(s.tables.conversations, c, customer) {
      AbandonKeepsInvariant(s, c, now);
    }
  }

  /** In every run: one active conversation a customer, at most 11 customer messages while active,
      a service call exactly when escalated, messages numbered from 0, at most five photos, an
      escalated call's attachments exactly its sent photos, and the object store exactly the objects
      of the photos kept. */
  lemma {:induction false} EveryRunKeepsInvariant(run: seq<(Step, int)>)
    ensures Invariant(After(run))
  {
    hide Invariant, Next;
    if run == [] {
      EmptyStoreIsFine();
    } else {
      var s := After(run[..|run| - 1]);
      EveryRunKeepsInvariant(run[..|run| - 1]);
      if Possible(s, run[|run| - 1].0) {
        NextKeepsInvariant(s, run[|run| - 1].0, run[|run| - 1].1);
      }
    }
  }

  /** In every run an active conversation has heard the customer at most eleven times, and every
      message from the assistant answers one of the customer's. */
  lemma TurnsAreBounded(run: seq<(Step, int)>, c: Id)
    requires c in After(run).tables.conversations
    ensures var rows := MessagesOf(After(run).tables.messages, c);
      && (After(run).tables.conversations[c].status == Active ==> CustomerTurns(rows) < MAX_CUSTOMER_TURNS)
      && CustomerTurns(rows) <= MAX_CUSTOMER_TURNS && |rows| == 2 * CustomerTurns(rows)
  {
    hide After, MessagesOf, CustomerTurns, PhotosOf;
    EveryRunKeepsInvariant(run);
    assert ConversationSound(After(run).tables, c);
    HalfAreCustomers(MessagesOf(After(run).tables.messages, c));
  }

  predicate SentInEscalated(t: Tables, c: Id, photo: Id) {
    c in t.conversations && t.conversations[c].status == Escalated && photo in Sent(t.photos, c)
  }

  /** In every run the object store holds both objects of exactly these photos: pending or sent in an
      active conversation, or sent in an escalated one; and a photo is attached to a service call
      exactly when it was sent in the conversation that call came from. */
  lemma ObjectsAreConserved(run: seq<(Step, int)>, photo: Id, variant: Variant)
    ensures var s := After(run);
      && ((photo, variant) in s.objects <==>
            exists c :: c in s.tables.conversations && (
              (s.tables.conversations[c].status == Active && photo in PhotosOf(s.tables.photos, c))
              || (s.tables.conversations[c].status == Escalated && photo in Sent(s.tables.photos, c))))
      && (photo in s.tables.attachments <==> exists c :: SentInEscalated(s.tables, c, photo))
      && (forall c :: SentInEscalated(s.tables, c, photo) ==>
            s.tables.conversations[c].serviceCall == Some(s.tables.attachments[photo]))
  {
    hide After, ConversationsSound, PhotosSound;
    EveryRunKeepsInvariant(run);
    var s := After(run);
    var key: Key := (photo, variant);
    assert key in s.objects <==> Kept(s.tables, photo);
    assert AttachmentSound(s.tables, photo);
    if photo in s.tables.photos {
      var c := s.tables.photos[photo].conversation;
      assert c in s.tables.conversations ==> photo in PhotosOf(s.tables.photos, c);
      assert photo in s.tables.attachments ==> SentInEscalated(s.tables, c, photo);
    }
  }

  lemma EmptyStoreIsFine()
    ensures Invariant(Store(Tables(map[], [], map[], {}, map[]), {}))
  {
  }

  // ---------- Ended conversations ----------

  /** What a conversation looks like from outside: its row, messages and photo rows. */
  ghost predicate SameTranscript(t: Tables, u: Tables, c: Id) {
    && c in t.conversations && c in u.conversations && u.conversations[c] == t.conversations[c]
    && MessagesOf(u.messages, c) == MessagesOf(t.messages, c)
    && PhotosOf(u.photos, c) == PhotosOf(t.photos, c)
    && forall p :: p in PhotosOf(t.photos, c) ==> u.photos[p] == t.photos[p]
  }

  /** No request changes a conversation that has ended. */
  lemma EndedNeverChanges(s: Store, step: Step, now: int, c: Id)
    requires Invariant(s) && Possible(s, step)
    requires c in s.tables.conversations && s.tables.conversations[c].status != Active
    ensures SameTranscript(s.tables, Next(s, step, now).tables, c)
  {
    match step
    case StartStep(customer, newId) => StartLeavesEnded(s, customer, newId, now, c);
    case TurnStep(d, customer, turn, reply) =>
      if reply.Some? && SendMessage(s, d, customer, turn, reply.value).Some? {
        SendMessageIsATurn(s, d, customer, turn, reply.value);
        TurnLeavesOthers(s.tables, SendMessage(s, d, customer, turn, reply.value).value.tables,
          d, turn, Answer(s.tables, d, reply.value), c);
      }
    case _ => OthersLeaveEnded(s, step, now, c);
  }

  lemma StartLeavesEnded(s: Store, customer: Id, newId: Id, now: int, c: Id)
    requires Invariant(s) && newId !in s.tables.conversations
    requires c in s.tables.conversations && s.tables.conversations[c].status != Active
    ensures SameTranscript(s.tables, Start(s, customer, newId, now).tables, c)
  {
    hide Invariant, MessagesOf;
    if exists d :: ActiveFor(s.tables.conversations, d, customer) {
      var d :| ActiveFor(s.tables.conversations, d, customer);
      StartResumesTheOnly(s, customer, newId, now, d);
    }
  }

  lemma TurnLeavesOthers(t: Tables, u: Tables, d: Id, turn: Turn, parsed: ParsedReply, c: Id)
    requires Sendable(t, d, turn) && AfterTurn(t, u, d, turn, parsed) && c != d && c in t.conversations
    ensures SameTranscript(t, u, c)
  {
    hide MessagesOf;
    RecordedMessages(t, d, turn, parsed, c);
  }

  lemma OthersLeaveEnded(s: Store, step: Step, now: int, c: Id)
    requires Possible(s, step) && (step.EndStep? || step.AttachStep? || step.DetachStep?)
    requires c in s.tables.conversations && s.tables.conversations[c].status != Active
    ensures SameTranscript(s.tables, Next(s, step, now).tables, c)
  {
    hide MessagesOf;
  }
}
