/**
 The triage assistant's tables and object store, and what one completed request does to them. A
 request that raises is None: its transaction rolls back and nothing changes.
 */
module TriageStore {
  import opened Strings
  import opened ReplyParser

  type Id = nat

  datatype Status = Active | Solved | Escalated | Abandoned
  datatype Role = Customer | Assistant

  datatype ConversationRow = ConversationRow(
    customer: Id, status: Status, serviceCall: Option<Id>,
    equipment: Option<string>, declined: bool, createdAt: int, updatedAt: int)

  datatype MessageRow = MessageRow(id: Id, conversation: Id, number: nat, role: Role, text: string, createdAt: int)

  /** A pending photo has no message yet. */
  datatype PhotoRow = PhotoRow(conversation: Id, message: Option<Id>, filename: string, createdAt: int)

  datatype Variant = Original | Preview
  type Key = (Id, Variant)

  /** `attachments` maps an attached photo to its service call. */
  datatype Tables = Tables(
    conversations: map<Id, ConversationRow>, messages: seq<MessageRow>,
    photos: map<Id, PhotoRow>, calls: set<Id>, attachments: map<Id, Id>)

  datatype Store = Store(tables: Tables, objects: set<Key>)

  const MAX_PHOTOS: nat := 5
  const MAX_CUSTOMER_TURNS: nat := 12
  const CONVERSATION_TTL := 86_400_000_000
  const TURN_CAP_HANDOFF := "A technician will take it from here."

  // ---------- Queries ----------

  /** The conversation's messages, oldest first. */
  function MessagesOf(messages: seq<MessageRow>, c: Id): seq<MessageRow> {
    if messages == [] then []
    else
      var last := messages[|messages| - 1];
      MessagesOf(messages[..|messages| - 1], c) + if last.conversation == c then [last] else []
  }

  function CustomerTurns(rows: seq<MessageRow>): nat {
    if rows == [] then 0
    else CustomerTurns(rows[..|rows| - 1]) + if rows[|rows| - 1].role == Customer then 1 else 0
  }

  function PhotosOf(photos: map<Id, PhotoRow>, c: Id): set<Id> {
    set p | p in photos && photos[p].conversation == c
  }

  function Sent(photos: map<Id, PhotoRow>, c: Id): set<Id> {
    set p | p in photos && photos[p].conversation == c && photos[p].message.Some?
  }

  function Unsent(photos: map<Id, PhotoRow>, c: Id): set<Id> {
    set p | p in photos && photos[p].conversation == c && photos[p].message.None?
  }

  /** Both objects of each photo. */
  function Keys(photos: set<Id>): (keys: set<Key>)
    ensures forall k: Key :: k in keys <==> k.0 in photos
  {
    var keys := set p, v: Variant | p in photos :: (p, v);
    assert forall k: Key :: k.0 in photos ==> (k.0, k.1) in keys;
    keys
  }

  predicate ActiveFor(conversations: map<Id, ConversationRow>, c: Id, customer: Id) {
    c in conversations && conversations[c].customer == customer && conversations[c].status == Active
  }

  predicate Expired(row: ConversationRow, now: int) {
    row.status == Active && now - row.updatedAt > CONVERSATION_TTL
  }

  // ---------- Endings ----------

  function WithRow(t: Tables, c: Id, row: ConversationRow): Tables {
    t.(conversations := t.conversations[c := row])
  }

  /** Ending without a technician: every object of the conversation goes, and the rows of photos
      that were never sent. */
  function DiscardPhotos(s: Store, c: Id): Store {
    var photos := s.tables.photos;
    Store(s.tables.(photos := photos - Unsent(photos, c)), s.objects - Keys(Sent(photos, c) + Unsent(photos, c)))
  }

  /** Photos never sent do not follow the escalation. */
  function DiscardUnsent(s: Store, c: Id): Store {
    var photos := s.tables.photos;
    Store(s.tables.(photos := photos - Unsent(photos, c)), s.objects - Keys(Unsent(photos, c)))
  }

  function Abandon(s: Store, c: Id, now: int): Store
    requires c in s.tables.conversations
  {
    DiscardPhotos(
      Store(WithRow(s.tables, c, s.tables.conversations[c].(status := Abandoned, updatedAt := now)), s.objects), c)
  }

  // ---------- Requests ----------

  function Opened(s: Store, customer: Id, newId: Id, now: int): Store {
    Store(WithRow(s.tables, newId, ConversationRow(customer, Active, None, None, false, now, now)), s.objects)
  }

  ghost function Start(s: Store, customer: Id, newId: Id, now: int): Store {
    if exists c :: ActiveFor(s.tables.conversations, c, customer) then
      var c :| ActiveFor(s.tables.conversations, c, customer);
      if Expired(s.tables.conversations[c], now) then Opened(Abandon(s, c, now), customer, newId, now) else s
    else Opened(s, customer, newId, now)
  }

  function End(s: Store, c: Id, customer: Id, now: int): Option<Store> {
    if ActiveFor(s.tables.conversations, c, customer) then Some(Abandon(s, c, now)) else None
  }

  function Attach(s: Store, c: Id, customer: Id, photo: Id, filename: string, now: int): Option<Store> {
    if !ActiveFor(s.tables.conversations, c, customer) || |PhotosOf(s.tables.photos, c)| >= MAX_PHOTOS then None
    else Some(Store(s.tables.(photos := s.tables.photos[photo := PhotoRow(c, None, filename, now)]),
                    s.objects + Keys({photo})))
  }

  function Detach(s: Store, c: Id, customer: Id, photo: Id): Option<Store> {
    if !ActiveFor(s.tables.conversations, c, customer) || photo !in Unsent(s.tables.photos, c) then None
    else Some(Store(s.tables.(photos := s.tables.photos - {photo}), s.objects - Keys({photo})))
  }

  /** What a customer turn brings along: its text and photos, and the ids and times it will use. */
  datatype Turn = Turn(text: string, photos: seq<Id>, question: Id, answer: Id, call: Id, asked: int, answered: int)

  predicate Distinct(ids: seq<Id>) {
    forall i, j :: 0 <= i < j < |ids| ==> ids[i] != ids[j]
  }

  function Bound(photos: map<Id, PhotoRow>, ids: seq<Id>, message: Id): map<Id, PhotoRow> {
    map p | p in photos :: if p in ids then photos[p].(message := Some(message)) else photos[p]
  }

  /** The answer given at the turn cap, whatever the model would have said. */
  function Handoff(): ParsedReply {
    ParsedReply(TURN_CAP_HANDOFF, Some(ESCALATE), None, None, None)
  }

  function Answer(t: Tables, c: Id, reply: ParsedReply): ParsedReply {
    if CustomerTurns(MessagesOf(t.messages, c)) + 1 >= MAX_CUSTOMER_TURNS then Handoff() else reply
  }

  function StatusOf(ending: Option<string>): Status {
    if ending == Some(SOLVED) then Solved
    else if ending == Some(CLOSED) then Abandoned
    else if ending == Some(ESCALATE) then Escalated
    else Active
  }

  function Answered(row: ConversationRow, turn: Turn, parsed: ParsedReply): ConversationRow {
    row.(status := StatusOf(parsed.ending),
         serviceCall := if StatusOf(parsed.ending) == Escalated then Some(turn.call) else row.serviceCall,
         equipment := if parsed.equipment.Some? then parsed.equipment else row.equipment,
         declined := if parsed.declined.Some? then parsed.declined.value else row.declined,
         updatedAt := turn.answered)
  }

  function AttachedTo(photos: set<Id>, call: Id): map<Id, Id> {
    map p | p in photos :: call
  }

  /** Messages, row and photo bindings of a recorded turn; an escalation's service call too. */
  function Recorded(t: Tables, c: Id, turn: Turn, parsed: ParsedReply): Tables
    requires c in t.conversations
  {
    var n := |MessagesOf(t.messages, c)|;
    var sent := Sent(t.photos, c) + (set p | p in turn.photos);
    var u := WithRow(t, c, Answered(t.conversations[c], turn, parsed)).(
      messages := t.messages + [MessageRow(turn.question, c, n, Customer, turn.text, turn.asked),
                                MessageRow(turn.answer, c, n + 1, Assistant, parsed.text, turn.answered)],
      photos := Bound(t.photos, turn.photos, turn.question));
    if StatusOf(parsed.ending) == Escalated then
      u.(calls := u.calls + {turn.call}, attachments := u.attachments + AttachedTo(sent, turn.call))
    else u
  }

  /** One turn whose stream ran to its end. An escalation cannot attach one photo twice. */
  function SendMessage(s: Store, c: Id, customer: Id, turn: Turn, reply: ParsedReply): Option<Store> {
    if !ActiveFor(s.tables.conversations, c, customer)
       || exists i :: 0 <= i < |turn.photos| && turn.photos[i] !in Unsent(s.tables.photos, c) then None
    else
      var parsed := Answer(s.tables, c, reply);
      var status := StatusOf(parsed.ending);
      var recorded := Store(Recorded(s.tables, c, turn, parsed), s.objects);
      if status == Active then Some(recorded)
      else if status != Escalated then Some(DiscardPhotos(recorded, c))
      else if !Distinct(turn.photos)
           || exists p :: p in Sent(recorded.tables.photos, c) && p in s.tables.attachments then None
      else Some(DiscardUnsent(recorded, c))
  }

  // ---------- Steps and runs ----------

  /** A turn without a reply is one whose stream was abandoned or broke off. */
  datatype Step =
    | StartStep(customer: Id, newId: Id)
    | EndStep(conversation: Id, customer: Id)
    | AttachStep(conversation: Id, customer: Id, photo: Id, filename: string)
    | DetachStep(conversation: Id, customer: Id, photo: Id)
    | TurnStep(conversation: Id, customer: Id, turn: Turn, reply: Option<ParsedReply>)

  predicate MessageIdFree(t: Tables, m: Id) {
    forall i :: 0 <= i < |t.messages| ==> t.messages[i].id != m
  }

  /** New ids are new. */
  predicate Possible(s: Store, step: Step) {
    match step
    case StartStep(_, newId) => newId !in s.tables.conversations
    case AttachStep(_, _, photo, _) => photo !in s.tables.photos
    case TurnStep(_, _, turn, _) =>
      MessageIdFree(s.tables, turn.question) && MessageIdFree(s.tables, turn.answer) && turn.question != turn.answer
          && turn.call !in s.tables.calls
    case _ => true
  }

  ghost function Next(s: Store, step: Step, now: int): Store {
    var after := match step
      case StartStep(customer, newId) => Some(Start(s, customer, newId, now))
      case EndStep(c, customer) => End(s, c, customer, now)
      case AttachStep(c, customer, photo, filename) => Attach(s, c, customer, photo, filename, now)
      case DetachStep(c, customer, photo) => Detach(s, c, customer, photo)
      case TurnStep(c, customer, turn, reply) =>
        if reply.None? then None else SendMessage(s, c, customer, turn, reply.value);
    if after.Some? then after.value else s
  }

  /** The store after a run from an empty one; a step that is not possible does not happen. */
  ghost function After(run: seq<(Step, int)>): Store {
    if run == [] then Store(Tables(map[], [], map[], {}, map[]), {})
    else
      var s := After(run[..|run| - 1]);
      var (step, now) := run[|run| - 1];
      if Possible(s, step) then Next(s, step, now) else s
  }
}
