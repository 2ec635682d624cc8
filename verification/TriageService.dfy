/**
 The triage conversation, its repositories and the requests, changed in place step by step and
 proved to do to the store what TriageStore says.
 */
module TriageService {
  import opened Strings
  import opened ReplyParser
  import opened Markers
  import opened StreamFilter
  import opened ReplyStream
  import opened TriageStore
  import opened TriageInvariants

  datatype Message = Message(id: Id, role: Role, text: string, createdAt: int, photos: seq<Id>)

  /** One exchange with one ending; every change but a load requires it to be open. */
  class Conversation {
    const id: Id
    const customer: Id
    const createdAt: int
    var status: Status
    var updatedAt: int
    var messages: seq<Message>
    var serviceCall: Option<Id>
    var equipment: Option<string>
    var declined: bool

    constructor (id: Id, row: ConversationRow, messages: seq<Message>)
      ensures this.id == id && Row() == row && this.messages == messages
    {
      this.id := id;
      customer := row.customer;
      createdAt := row.createdAt;
      status := row.status;
      updatedAt := row.updatedAt;
      this.messages := messages;
      serviceCall := row.serviceCall;
      equipment := row.equipment;
      declined := row.declined;
    }

    function Row(): ConversationRow
      reads this
    {
      ConversationRow(customer, status, serviceCall, equipment, declined, createdAt, updatedAt)
    }

    /** False is ConversationClosed, raised before anything changes. */
    method Append(message: Message, now: int) returns (ok: bool)
      modifies this
      ensures ok == (old(status) == Active)
      ensures ok ==> messages == old(messages) + [message] && Row() == old(Row()).(updatedAt := now)
      ensures !ok ==> unchanged(this)
    {
      if status != Active {
        return false;
      }
      messages := messages + [message];
      updatedAt := now;
      return true;
    }

    method IdentifyEquipment(identity: string) returns (ok: bool)
      modifies this`equipment
      ensures ok == (status == Active)
      ensures equipment == if ok then Some(identity) else old(equipment)
    {
      if status != Active {
        return false;
      }
      equipment := Some(identity);
      return true;
    }

    method SetDeclined(choice: bool) returns (ok: bool)
      modifies this`declined
      ensures ok == (status == Active)
      ensures declined == if ok then choice else old(declined)
    {
      if status != Active {
        return false;
      }
      declined := choice;
      return true;
    }

    method Close(ending: Status, now: int) returns (ok: bool)
      modifies this
      ensures ok == (old(status) == Active)
      ensures ok ==> Row() == old(Row()).(status := ending, updatedAt := now) && messages == old(messages)
      ensures !ok ==> unchanged(this)
    {
      if status != Active {
        return false;
      }
      status := ending;
      updatedAt := now;
      return true;
    }

    method MarkEscalated(call: Id, now: int) returns (ok: bool)
      modifies this
      ensures ok == (old(status) == Active)
      ensures ok ==>
        && Row() == old(Row()).(status := Escalated, updatedAt := now, serviceCall := Some(call))
        && messages == old(messages)
      ensures !ok ==> unchanged(this)
    {
      ok := Close(Escalated, now);
      if ok {
        serviceCall := Some(call);
      }
    }
  }

  /** The rows a save adds: the messages past those stored, numbered on from them. */
  function NewRows(c: Id, messages: seq<Message>, from: nat): (rows: seq<MessageRow>)
    ensures |rows| == if from <= |messages| then |messages| - from else 0
    ensures forall i :: 0 <= i < |rows| ==>
      var m := messages[from + i]; rows[i] == MessageRow(m.id, c, from + i, m.role, m.text, m.createdAt)
  {
    var n := if from <= |messages| then |messages| - from else 0;
    seq(n, i requires 0 <= i < n =>
      var m := messages[from + i]; MessageRow(m.id, c, from + i, m.role, m.text, m.createdAt))
  }

  /** A photo list that names each photo of the set once. */
  ghost predicate Lists(photos: seq<Id>, expected: set<Id>) {
    Distinct(photos) && forall p :: p in photos <==> p in expected
  }

  predicate UploadedBefore(photos: map<Id, PhotoRow>, p: Id, q: Id)
    requires p in photos && q in photos
  {
    photos[p].createdAt < photos[q].createdAt || (photos[p].createdAt == photos[q].createdAt && p <= q)
  }

  /** By upload time, then by id. */
  ghost predicate InUploadOrder(list: seq<Id>, photos: map<Id, PhotoRow>) {
    && (forall i :: 0 <= i < |list| ==> list[i] in photos)
    && (forall i, j :: 0 <= i < j < |list| ==> UploadedBefore(photos, list[i], list[j]))
  }

  lemma {:induction false} SomeIsEarliest(photos: map<Id, PhotoRow>, left: set<Id>) returns (p: Id)
    requires left != {} && left <= photos.Keys
    ensures p in left && forall q :: q in left ==> UploadedBefore(photos, p, q)
  {
    var first :| first in left;
    var rest := left - {first};
    p := first;
    if rest == {} {
      assert left == {first};
    } else {
      var r := SomeIsEarliest(photos, rest);
      p := if UploadedBefore(photos, first, r) then first else r;
      forall q | q in left ensures UploadedBefore(photos, p, q) {
        assert q == first || q in rest;
      }
    }
  }

  function BoundTo(photos: map<Id, PhotoRow>, m: Id): set<Id> {
    set p | p in photos && photos[p].message == Some(m)
  }

  ghost predicate MessageLoaded(message: Message, row: MessageRow, photos: map<Id, PhotoRow>, c: Id) {
    && message.id == row.id && message.role == row.role && message.text == row.text
    && message.createdAt == row.createdAt
    && Lists(message.photos, BoundTo(photos, row.id) * PhotosOf(photos, c)) && InUploadOrder(message.photos, photos)
  }

  ghost predicate MessagesLoaded(messages: seq<Message>, rows: seq<MessageRow>, photos: map<Id, PhotoRow>, c: Id) {
    |messages| == |rows| && forall i :: 0 <= i < |rows| ==> MessageLoaded(messages[i], rows[i], photos, c)
  }

  /** The session behind one transaction. */
  class TriageSession {
    var conversations: map<Id, ConversationRow>
    var messages: seq<MessageRow>
    var photos: map<Id, PhotoRow>
    var calls: set<Id>
    var attachments: map<Id, Id>

    function Snapshot(): Tables
      reads this
    {
      Tables(conversations, messages, photos, calls, attachments)
    }

    /** What the session does when a request raises. */
    method Rollback(before: Tables)
      modifies this
      ensures Snapshot() == before
    {
      conversations, messages, photos, calls, attachments :=
        before.conversations, before.messages, before.photos, before.calls, before.attachments;
    }

    // ---------- Conversations ----------

    /** Null unless the conversation exists and is the customer's. */
    method GetConversation(c: Id, customer: Id) returns (conversation: Conversation?)
      ensures conversation != null <==> c in conversations && conversations[c].customer == customer
      ensures conversation != null ==>
        && fresh(conversation) && conversation.id == c && conversation.Row() == conversations[c]
        && MessagesLoaded(conversation.messages, MessagesOf(messages, c), photos, c)
    {
      if c !in conversations || conversations[c].customer != customer {
        return null;
      }
      var loaded := LoadMessages(c);
      conversation := new Conversation(c, conversations[c], loaded);
    }

    /** The conversation's messages, each with the photos bound to it. */
    method LoadMessages(c: Id) returns (loaded: seq<Message>)
      ensures MessagesLoaded(loaded, MessagesOf(messages, c), photos, c)
    {
      loaded := [];
      for i := 0 to |messages|
        invariant MessagesLoaded(loaded, MessagesOf(messages[..i], c), photos, c)
      {
        var m := messages[i];
        AppendMessage(messages[..i], m, c);
        assert messages[..i + 1] == messages[..i] + [m];
        if m.conversation == c {
          var bound := PhotosOfMessage(m.id, c);
          loaded := loaded + [Message(m.id, m.role, m.text, m.createdAt, bound)];
        }
      }
      assert messages[..|messages|] == messages;
    }

    /** The photos bound to a message of the conversation, in upload order. */
    method PhotosOfMessage(m: Id, c: Id) returns (bound: seq<Id>)
      ensures Lists(bound, BoundTo(photos, m) * PhotosOf(photos, c)) && InUploadOrder(bound, photos)
    {
      bound := [];
      var left := BoundTo(photos, m) * PhotosOf(photos, c);
      while left != {}
        invariant Distinct(bound) && left !! (set p | p in bound)
        invariant forall p :: p in bound || p in left <==> p in BoundTo(photos, m) * PhotosOf(photos, c)
        invariant InUploadOrder(bound, photos)
        invariant forall p, q :: p in bound && q in left ==> UploadedBefore(photos, p, q)
        decreases |left|
      {
        ghost var earliest := SomeIsEarliest(photos, left);
        var p :| p in left && forall q :: q in left ==> UploadedBefore(photos, p, q);
        left := left - {p};
        bound := bound + [p];
      }
    }

    method FindActiveForCustomer(customer: Id) returns (found: Option<Id>)
      ensures found.Some? ==> ActiveFor(conversations, found.value, customer)
      ensures found.None? ==> forall c :: !ActiveFor(conversations, c, customer)
    {
      var left := conversations.Keys;
      while left != {}
        invariant left <= conversations.Keys
        invariant forall c :: c in conversations && c !in left ==> !ActiveFor(conversations, c, customer)
        decreases |left|
      {
        var c :| c in left;
        left := left - {c};
        if ActiveFor(conversations, c, customer) {
          return Some(c);
        }
      }
      return None;
    }

    /** False when the one-active-per-customer index rejects the row; otherwise the row and all its
        messages are stored. */
    method AddConversation(conversation: Conversation) returns (ok: bool)
      modifies this
      ensures ok <==>
        !(conversation.status == Active && exists c :: ActiveFor(old(conversations), c, conversation.customer))
      ensures Snapshot() ==
        if ok then WithRow(old(Snapshot()), conversation.id, conversation.Row()).(
          messages := old(messages) + NewRows(conversation.id, conversation.messages, 0))
        else old(Snapshot())
    {
      if conversation.status == Active {
        var rival := FindActiveForCustomer(conversation.customer);
        if rival.Some? {
          return false;
        }
      }
      conversations := conversations[conversation.id := conversation.Row()];
      AppendMessages(conversation, 0);
      return true;
    }

    method StoredMessageCount(c: Id) returns (n: nat)
      ensures n == |MessagesOf(messages, c)|
    {
      n := 0;
      for i := 0 to |messages|
        invariant n == |MessagesOf(messages[..i], c)|
      {
        AppendMessage(messages[..i], messages[i], c);
        assert messages[..i + 1] == messages[..i] + [messages[i]];
        if messages[i].conversation == c {
          n := n + 1;
        }
      }
      assert messages[..|messages|] == messages;
    }

    /** Writes the row and appends the messages not stored yet; false is NotFound. */
    method SaveConversation(conversation: Conversation) returns (ok: bool)
      modifies this`conversations, this`messages
      ensures ok == (conversation.id in old(conversations))
      ensures conversations ==
        if ok then old(conversations)[conversation.id := conversation.Row()] else old(conversations)
      ensures messages ==
        if ok then
          old(messages)
          + NewRows(conversation.id, conversation.messages, |MessagesOf(old(messages), conversation.id)|)
        else old(messages)
    {
      if conversation.id !in conversations {
        return false;
      }
      conversations := conversations[conversation.id := conversation.Row()];
      var stored := StoredMessageCount(conversation.id);
      AppendMessages(conversation, stored);
      return true;
    }

    method AppendMessages(conversation: Conversation, from: nat)
      modifies this`messages
      ensures messages == old(messages) + NewRows(conversation.id, conversation.messages, from)
    {
      if from >= |conversation.messages| {
        return;
      }
      for number := from to |conversation.messages|
        invariant messages == old(messages) + NewRows(conversation.id, conversation.messages, from)[..number - from]
      {
        var m := conversation.messages[number];
        messages := messages + [MessageRow(m.id, conversation.id, number, m.role, m.text, m.createdAt)];
      }
    }

    // ---------- Photos ----------

    /** The photos named, in order; None when one is not pending in the conversation. */
    method GetUnbound(c: Id, ids: seq<Id>) returns (found: Option<seq<Id>>)
      ensures found == if forall i :: 0 <= i < |ids| ==> ids[i] in Unsent(photos, c) then Some(ids) else None
    {
      var list: seq<Id> := [];
      for i := 0 to |ids|
        invariant list == ids[..i] && forall j :: 0 <= j < i ==> ids[j] in Unsent(photos, c)
      {
        if ids[i] !in Unsent(photos, c) {
          return None;
        }
        list := list + [ids[i]];
      }
      assert ids[..|ids|] == ids;
      return Some(list);
    }

    method Bind(message: Id, ids: seq<Id>)
      modifies this`photos
      ensures photos == Bound(old(photos), ids, message)
    {
      photos := Bound(photos, ids, message);
    }

    method DeleteUnbound(c: Id)
      modifies this`photos
      ensures photos == old(photos) - Unsent(old(photos), c)
    {
      photos := photos - Unsent(photos, c);
    }

    // ---------- Service calls ----------

    /** Opens a call and attaches the photos. False when a photo is attached twice, in which case the
        call's own row is already staged. */
    method OpenServiceCall(call: Id, attached: seq<Id>) returns (ok: bool)
      modifies this`calls, this`attachments
      ensures calls == old(calls) + {call}
      ensures ok <==> Distinct(attached) && forall p :: p in attached ==> p !in old(attachments)
      ensures ok ==> attachments == old(attachments) + AttachedTo((set p | p in attached), call)
    {
      calls := calls + {call};
      for i := 0 to |attached|
        invariant calls == old(calls) + {call}
        invariant forall p :: p in attachments <==> p in old(attachments) || exists j :: 0 <= j < i && attached[j] == p
        invariant forall p :: p in attachments ==>
            attachments[p] == if p in old(attachments) then old(attachments)[p] else call
        invariant forall j :: 0 <= j < i ==> attached[j] !in old(attachments)
        invariant forall j, k :: 0 <= j < k < i ==> attached[j] != attached[k]
      {
        if attached[i] in attachments {
          return false;
        }
        attachments := attachments[attached[i] := call];
      }
      return true;
    }
  }

  /** The object store: two objects a photo. */
  class PhotoStore {
    var objects: set<Key>

    method Put(key: Key)
      modifies this
      ensures objects == old(objects) + {key}
    {
      objects := objects + {key};
    }

    method Remove(keys: set<Key>)
      modifies this
      ensures objects == old(objects) - keys
    {
      objects := objects - keys;
    }
  }

  // ---------- Sent photos ----------

  /** The photos of the customer's messages, in order. */
  function SentList(messages: seq<Message>): seq<Id> {
    if messages == [] then []
    else
      var last := messages[|messages| - 1];
      SentList(messages[..|messages| - 1]) + if last.role == Customer then last.photos else []
  }

  function SentSet(messages: seq<Message>): set<Id> {
    set p | p in SentList(messages)
  }

  method SentPhotos(conversation: Conversation) returns (photos: seq<Id>)
    ensures photos == SentList(conversation.messages)
  {
    photos := [];
    for i := 0 to |conversation.messages|
      invariant photos == SentList(conversation.messages[..i])
    {
      assert conversation.messages[..i + 1][..i] == conversation.messages[..i];
      if conversation.messages[i].role == Customer {
        photos := photos + conversation.messages[i].photos;
      }
    }
    assert conversation.messages[..|conversation.messages|] == conversation.messages;
  }

  lemma {:induction false} MessagesOfIsIn(messages: seq<MessageRow>, c: Id)
    ensures forall row :: row in MessagesOf(messages, c) <==> row in messages && row.conversation == c
  {
    if messages == [] {
    } else {
      MessagesOfIsIn(messages[..|messages| - 1], c);
      assert messages == messages[..|messages| - 1] + [messages[|messages| - 1]];
    }
  }

  lemma {:induction false} MessagesOfStayUnique(messages: seq<MessageRow>, c: Id)
    requires MessageIdsUnique(messages)
    ensures MessageIdsUnique(MessagesOf(messages, c))
  {
    if messages == [] {
    } else {
      var init := messages[..|messages| - 1];
      MessagesOfStayUnique(init, c);
      MessagesOfIsIn(init, c);
      assert forall i :: 0 <= i < |MessagesOf(init, c)| ==> MessagesOf(init, c)[i] in init;
    }
  }

  predicate BoundHere(photos: map<Id, PhotoRow>, c: Id, m: Id, p: Id) {
    p in photos && photos[p].conversation == c && photos[p].message == Some(m)
  }

  /** A customer's message among the rows carries the photo. */
  ghost predicate CarriedBy(rows: seq<MessageRow>, photos: map<Id, PhotoRow>, c: Id, p: Id) {
    exists i :: 0 <= i < |rows| && rows[i].role == Customer && BoundHere(photos, c, rows[i].id, p)
  }

  lemma CarriedByLast(rows: seq<MessageRow>, photos: map<Id, PhotoRow>, c: Id, p: Id)
    requires rows != []
    ensures var n := |rows| - 1;
      CarriedBy(rows, photos, c, p) <==>
        CarriedBy(rows[..n], photos, c, p) || (rows[n].role == Customer && BoundHere(photos, c, rows[n].id, p))
  {
    var n := |rows| - 1;
    if i :| 0 <= i < n && rows[i].role == Customer && BoundHere(photos, c, rows[i].id, p) {
      assert rows[..n][i] == rows[i];
    }
  }

  lemma {:induction false} SentListIsDistinct(loaded: seq<Message>, rows: seq<MessageRow>, photos: map<Id, PhotoRow>,
                                              c: Id)
    requires MessagesLoaded(loaded, rows, photos, c) && MessageIdsUnique(rows)
    ensures Distinct(SentList(loaded)) && forall p :: p in SentList(loaded) <==> CarriedBy(rows, photos, c, p)
  {
    if loaded == [] {
    } else {
      var n := |loaded| - 1;
      var earlier := SentList(loaded[..n]);
      var here := if loaded[n].role == Customer then loaded[n].photos else [];
      SentListIsDistinct(loaded[..n], rows[..n], photos, c);
      LastIsNew(loaded, rows, photos, c);
      hide MessagesLoaded, MessageIdsUnique, CarriedBy, Distinct, BoundHere;
      forall p ensures CarriedBy(rows, photos, c, p) <==> p in earlier || p in here {
        CarriedByLast(rows, photos, c, p);
      }
      AppendDistinct(earlier, here);
    }
  }

  lemma LastIsNew(loaded: seq<Message>, rows: seq<MessageRow>, photos: map<Id, PhotoRow>, c: Id)
    requires loaded != [] && MessagesLoaded(loaded, rows, photos, c) && MessageIdsUnique(rows)
    ensures var n := |loaded| - 1;
      && rows != [] && |rows| - 1 == n && Distinct(loaded[n].photos) && loaded[n].role == rows[n].role
      && (forall p :: p in loaded[n].photos <==> BoundHere(photos, c, rows[n].id, p))
      && (forall p :: p in loaded[n].photos ==> !CarriedBy(rows[..n], photos, c, p))
  {
    var n := |loaded| - 1;
    assert MessageLoaded(loaded[n], rows[n], photos, c);
  }

  lemma AppendDistinct(a: seq<Id>, b: seq<Id>)
    requires Distinct(a) && forall p :: p in b ==> p !in a
    ensures Distinct(a + b) <==> Distinct(b)
  {
    var all := a + b;
    if Distinct(all) {
      forall i, j | 0 <= i < j < |b| ensures b[i] != b[j] {
        assert all[|a| + i] == b[i] && all[|a| + j] == b[j];
      }
    }
    if Distinct(b) {
      forall i, j | 0 <= i < j < |all| ensures all[i] != all[j] {
        assert all[j] == if j < |a| then a[j] else b[j - |a|];
        assert all[i] == if i < |a| then a[i] else b[i - |a|];
        assert |a| <= j ==> b[j - |a|] in b;
      }
    }
  }

  /** What the loaded messages carry is exactly what the photo table says was sent. */
  lemma SentListIsSent(t: Tables, c: Id, loaded: seq<Message>)
    requires MessageIdsUnique(t.messages) && PhotosSound(t)
        && MessagesLoaded(loaded, MessagesOf(t.messages, c), t.photos, c)
    ensures Distinct(SentList(loaded)) && forall p :: p in SentList(loaded) <==> p in Sent(t.photos, c)
  {
    hide MessagesLoaded, SentList, MessagesOf;
    var rows := MessagesOf(t.messages, c);
    MessagesOfStayUnique(t.messages, c);
    MessagesOfIsIn(t.messages, c);
    SentListIsDistinct(loaded, rows, t.photos, c);
    forall p | p in Sent(t.photos, c)
      ensures exists i :: 0 <= i < |rows| && rows[i].role == Customer && t.photos[p].message == Some(rows[i].id)
    {
      var m := t.photos[p].message.value;
      assert PhotoSound(t, t.photos[p]);
      var j :| 0 <= j < |t.messages| && t.messages[j].id == m && t.messages[j].conversation == c
          && t.messages[j].role == Customer;
      assert t.messages[j] in rows;
    }
  }

  // ---------- One request's service ----------

  /** Removing objects is staged while the transaction is open and done after it commits. */
  class TriageRequest {
    const session: TriageSession
    var discarded: set<Key>

    constructor (session: TriageSession)
      ensures this.session == session && discarded == {}
    {
      this.session := session;
      discarded := {};
    }

    /** Runs after the commit. */
    method RemoveDiscarded(objects: PhotoStore)
      modifies this, objects
      ensures objects.objects == old(objects.objects) - old(discarded) && discarded == {}
    {
      objects.Remove(discarded);
      discarded := {};
    }

    /** Stages every object of the conversation and drops the rows never sent. */
    method DiscardPhotos(conversation: Conversation)
      modifies this, session`photos
      ensures var unsent := Unsent(old(session.photos), conversation.id);
        && session.photos == old(session.photos) - unsent
        && discarded == old(discarded) + Keys(SentSet(conversation.messages) + unsent)
    {
      var sent := SentPhotos(conversation);
      discarded := discarded + Keys((set p | p in sent) + Unsent(session.photos, conversation.id));
      session.DeleteUnbound(conversation.id);
    }

    method DiscardUnbound(c: Id)
      modifies this, session`photos
      ensures session.photos == old(session.photos) - Unsent(old(session.photos), c)
      ensures discarded == old(discarded) + Keys(Unsent(old(session.photos), c))
    {
      discarded := discarded + Keys(Unsent(session.photos, c));
      session.DeleteUnbound(c);
    }

    /** Marks the conversation abandoned, saves it and stages its photos. */
    method AbandonConversation(conversation: Conversation, now: int, ghost objects: set<Key>) returns (ok: bool)
      requires conversation.id in session.conversations && conversation.Row() == session.conversations[conversation.id]
      requires MessagesLoaded(conversation.messages, MessagesOf(session.messages, conversation.id),
                              session.photos, conversation.id)
      requires MessageIdsUnique(session.messages) && PhotosSound(session.Snapshot()) && discarded == {}
      modifies this, session, conversation
      ensures ok == (old(conversation.status) == Active)
      ensures var after := Abandon(Store(old(session.Snapshot()), objects), conversation.id, now);
        ok ==> Store(session.Snapshot(), objects - discarded) == after
      ensures !ok ==> session.Snapshot() == old(session.Snapshot()) && discarded == {}
    {
      hide MessagesOf, MessagesLoaded, SentList, PhotosSound, MessageIdsUnique;
      ok := conversation.Close(Abandoned, now);
      if !ok {
        return;
      }
      SentListIsSent(session.Snapshot(), conversation.id, conversation.messages);
      SavesNothingNew(session.Snapshot(), conversation.id, conversation.messages);
      var saved := session.SaveConversation(conversation);
      DiscardPhotos(conversation);
      assert SentSet(conversation.messages) == Sent(old(session.photos), conversation.id);
    }

    /** The customer's open conversation, retiring an expired one. The one-active rule never rejects
        the row it inserts. */
    method Start(customer: Id, newId: Id, now: int, ghost objects: set<Key>) returns (c: Id)
      requires newId !in session.conversations && discarded == {}
      requires Invariant(Store(session.Snapshot(), objects))
      modifies this, session
      ensures TriageStore.Start(Store(old(session.Snapshot()), objects), customer, newId, now) ==
        Store(session.Snapshot(), objects - discarded)
      ensures ActiveFor(session.conversations, c, customer)
    {
      hide MessagesOf, MessagesLoaded;
      ghost var before := Store(session.Snapshot(), objects);
      var found := session.FindActiveForCustomer(customer);
      if found.Some? {
        StartResumesTheOnly(before, customer, newId, now, found.value);
        var existing := session.GetConversation(found.value, customer);
        if !Expired(existing.Row(), now) {
          return found.value;
        }
        NoneActiveAfter(before, customer, found.value, now);
        var ok := AbandonConversation(existing, now, objects);
      }
      var conversation := new Conversation(newId, ConversationRow(customer, Active, None, None, false, now, now), []);
      var added := session.AddConversation(conversation);
      assert added;
      return newId;
    }

    /** Ends at the customer's request; false when it is not theirs or already closed. */
    method End(c: Id, customer: Id, now: int, ghost objects: set<Key>) returns (ok: bool)
      requires discarded == {} && Invariant(Store(session.Snapshot(), objects))
      modifies this, session
      ensures var after := TriageStore.End(Store(old(session.Snapshot()), objects), c, customer, now);
        && ok == after.Some?
        && Store(session.Snapshot(), objects - discarded) ==
           if ok then after.value else Store(old(session.Snapshot()), objects)
    {
      hide MessagesOf, MessagesLoaded;
      var conversation := session.GetConversation(c, customer);
      if conversation == null {
        return false;
      }
      ok := AbandonConversation(conversation, now, objects);
    }

    // ---------- Turns ----------

    /** Joins the question and the answer, and what the answer declared. */
    method JoinTurn(conversation: Conversation, question: Message, answer: Message, parsed: ParsedReply)
      requires conversation.status == Active
      modifies conversation
      ensures conversation.messages == old(conversation.messages) + [question, answer]
      ensures conversation.Row() == old(conversation.Row()).(
        equipment := if parsed.equipment.Some? then parsed.equipment else old(conversation.equipment),
        declined := if parsed.declined.Some? then parsed.declined.value else old(conversation.declined),
        updatedAt := answer.createdAt)
    {
      var ok := conversation.Append(question, question.createdAt);
      ok := conversation.Append(answer, answer.createdAt);
      if parsed.equipment.Some? {
        ok := conversation.IdentifyEquipment(parsed.equipment.value);
      }
      if parsed.declined.Some? {
        ok := conversation.SetDeclined(parsed.declined.value);
      }
      assert [question] + [answer] == [question, answer];
    }

    /** False when the escalation cannot attach the photos: one is named twice or already attached. */
    method ApplyEnding(conversation: Conversation, turn: Turn, ending: Option<string>) returns (ok: bool)
      requires conversation.status == Active
      modifies conversation, session`calls, session`attachments
      ensures conversation.messages == old(conversation.messages)
      ensures var sent := SentList(conversation.messages);
        var escalates := StatusOf(ending) == Escalated;
        && (ok <==> escalates ==> Distinct(sent) && forall p :: p in sent ==> p !in old(session.attachments))
        && (ok ==> session.calls == if escalates then old(session.calls) + {turn.call} else old(session.calls))
        && (ok ==> session.attachments ==
                     if escalates then old(session.attachments) + AttachedTo(SentSet(conversation.messages), turn.call)
                     else old(session.attachments))
      ensures ok ==> conversation.Row() == old(conversation.Row()).(
        status := StatusOf(ending),
        serviceCall := if StatusOf(ending) == Escalated then Some(turn.call) else old(conversation.serviceCall),
        updatedAt := if StatusOf(ending) == Active then old(conversation.updatedAt) else turn.answered)
    {
      hide SentList;
      ok := true;
      if ending == Some(SOLVED) {
        var closed := conversation.Close(Solved, turn.answered);
      } else if ending == Some(CLOSED) {
        var closed := conversation.Close(Abandoned, turn.answered);
      } else if ending == Some(ESCALATE) {
        var sent := SentPhotos(conversation);
        ok := session.OpenServiceCall(turn.call, sent);
        if ok {
          var closed := conversation.MarkEscalated(turn.call, turn.answered);
        }
      }
    }

    /** Saves the conversation and binds the turn's photos to its question. */
    method StoreTurn(conversation: Conversation, question: Message)
      requires conversation.id in session.conversations
      modifies session`conversations, session`messages, session`photos
      ensures session.conversations == old(session.conversations)[conversation.id := conversation.Row()]
      ensures session.messages == old(session.messages)
        + NewRows(conversation.id, conversation.messages, |MessagesOf(old(session.messages), conversation.id)|)
      ensures session.photos == Bound(old(session.photos), question.photos, question.id)
    {
      var saved := session.SaveConversation(conversation);
      if question.photos != [] {
        session.Bind(question.id, question.photos);
      } else {
        assert Bound(session.photos, [], question.id) == session.photos;
      }
    }

    /** What the ending discards. */
    method DiscardAfter(conversation: Conversation, ending: Option<string>)
      requires discarded == {}
      modifies this, session`photos
      ensures var unsent := Unsent(old(session.photos), conversation.id);
        match StatusOf(ending)
        case Active => session.photos == old(session.photos) && discarded == {}
        case Escalated => session.photos == old(session.photos) - unsent && discarded == Keys(unsent)
        case _ =>
          session.photos == old(session.photos) - unsent && discarded == Keys(SentSet(conversation.messages) + unsent)
    {
      if ending == Some(SOLVED) || ending == Some(CLOSED) {
        DiscardPhotos(conversation);
        assert {} + discarded == discarded;
      } else if ending == Some(ESCALATE) {
        DiscardUnbound(conversation.id);
        assert {} + discarded == discarded;
      }
    }

    /** Records the turn and applies its ending. False when the escalation could not be stored, in
        which case what was staged must be rolled back. */
    method RecordAnswer(conversation: Conversation, turn: Turn, parsed: ParsedReply,
        ghost before: Store) returns (ok: bool)
      requires Invariant(before) && before.tables == session.Snapshot() && discarded == {}
      requires Sendable(before.tables, conversation.id, turn)
          && conversation.Row() == session.conversations[conversation.id]
      requires MessagesLoaded(conversation.messages, MessagesOf(session.messages, conversation.id),
                              session.photos, conversation.id)
      modifies this, session, conversation
      ensures ok <==> StatusOf(parsed.ending) == Escalated ==> Distinct(turn.photos)
      ensures ok ==>
        Store(session.Snapshot(), before.objects - discarded) == Ended(before, conversation.id, turn, parsed)
      ensures !ok ==> discarded == {}
    {
      hide MessagesOf, MessagesLoaded, SentList, Invariant, Distinct, Bound, Sent, Unsent, StatusOf, Keys, Recorded,
           Ended;
      var c := conversation.id;
      ghost var loaded := conversation.messages;
      var question := Message(turn.question, Customer, turn.text, turn.asked, turn.photos);
      var answer := Message(turn.answer, Assistant, parsed.text, turn.answered, []);
      JoinTurn(conversation, question, answer, parsed);
      TurnSent(before, c, loaded, turn, question, answer);
      ok := ApplyEnding(conversation, turn, parsed.ending);
      if !ok {
        return;
      }
      SavesTheTurn(before.tables, c, loaded, turn, question, answer, parsed.text);
      StoreTurn(conversation, question);
      NotYetSent(before.tables, c, turn);
      ghost var stored := session.Snapshot();
      StoredIsRecorded(before.tables, c, turn, parsed, stored, conversation.messages);
      DiscardAfter(conversation, parsed.ending);
      DiscardingEnds(before, c, turn, parsed, conversation.messages, session.photos, discarded);
    }

    /** Streams the answer to one turn, then records it. `finished` is false when the customer walked
        away or the model failed once these fragments were sent: then nothing is recorded, and only
        what the fragments made visible was shown. At the turn cap the model is not asked. */
    method Reply(c: Id, customer: Id, turn: Turn, fragments: seq<string>, finished: bool, ghost before: Store)
      returns (ok: bool, pieces: seq<string>)
      requires Invariant(before) && before.tables == session.Snapshot() && discarded == {}
      requires Possible(before, TurnStep(c, customer, turn, None))
      modifies this, session
      ensures var after := SendMessage(before, c, customer, turn, ParseReply(Join(fragments)));
        && (ok <==> finished && after.Some?)
        && (ok ==> Store(session.Snapshot(), before.objects - discarded) == after.value)
        && (ok ==> Join(pieces) == if AtTurnCap(before.tables, c) then TURN_CAP_HANDOFF else Streamed(fragments))
        && (!finished ==> session.Snapshot() == before.tables)
        && (!finished && after.Some? ==>
              Join(pieces) == if AtTurnCap(before.tables, c) then TURN_CAP_HANDOFF else Shown(fragments))
      ensures !ok ==> discarded == {}
    {
      hide MessagesOf, MessagesLoaded, Invariant, Distinct, SendMessage, Ended, Streamed, ParseReply, Join,
           CustomerTurns;
      pieces := [];
      AcceptedEnds(before, c, customer, turn, ParseReply(Join(fragments)));
      var conversation := session.GetConversation(c, customer);
      if conversation == null || conversation.status != Active {
        return false, pieces;
      }
      var attached := session.GetUnbound(c, turn.photos);
      if attached.None? {
        return false, pieces;
      }
      var turns := CountCustomerTurns(conversation);
      SameTurnCount(conversation.messages, MessagesOf(session.messages, c), session.photos, c);
      if turns + 1 >= MAX_CUSTOMER_TURNS {
        pieces := [TURN_CAP_HANDOFF];
        JoinOne(TURN_CAP_HANDOFF);
        if !finished {
          return false, pieces;
        }
        ok := RecordAnswer(conversation, turn, Handoff(), before);
      } else {
        if !finished {
          pieces := StreamFragments(fragments);
          return false, pieces;
        }
        var parsed: ParsedReply;
        pieces, parsed := ReplyStream.Reply(fragments);
        ok := RecordAnswer(conversation, turn, parsed, before);
      }
    }
  }

  predicate AtTurnCap(t: Tables, c: Id) {
    CustomerTurns(MessagesOf(t.messages, c)) + 1 >= MAX_CUSTOMER_TURNS
  }

  function CountCustomers(messages: seq<Message>): nat {
    if messages == [] then 0
    else CountCustomers(messages[..|messages| - 1]) + if messages[|messages| - 1].role == Customer then 1 else 0
  }

  method CountCustomerTurns(conversation: Conversation) returns (n: nat)
    ensures n == CountCustomers(conversation.messages)
  {
    n := 0;
    for i := 0 to |conversation.messages|
      invariant n == CountCustomers(conversation.messages[..i])
    {
      assert conversation.messages[..i + 1][..i] == conversation.messages[..i];
      if conversation.messages[i].role == Customer {
        n := n + 1;
      }
    }
    assert conversation.messages[..|conversation.messages|] == conversation.messages;
  }

  lemma {:induction false} SameTurnCount(loaded: seq<Message>, rows: seq<MessageRow>, photos: map<Id, PhotoRow>, c: Id)
    requires MessagesLoaded(loaded, rows, photos, c)
    ensures CountCustomers(loaded) == CustomerTurns(rows)
  {
    if loaded == [] {
    } else {
      var n := |loaded| - 1;
      assert MessageLoaded(loaded[n], rows[n], photos, c);
      SameTurnCount(loaded[..n], rows[..n], photos, c);
    }
  }

  /** An accepted turn ends the way its answer says. */
  lemma AcceptedEnds(s: Store, c: Id, customer: Id, turn: Turn, reply: ParsedReply)
    requires Invariant(s) && Possible(s, TurnStep(c, customer, turn, Some(reply)))
    ensures var parsed := Answer(s.tables, c, reply);
      var after := SendMessage(s, c, customer, turn, reply);
      && (after.Some? <==> ActiveFor(s.tables.conversations, c, customer)
                           && (forall i :: 0 <= i < |turn.photos| ==> turn.photos[i] in Unsent(s.tables.photos, c))
                           && (StatusOf(parsed.ending) == Escalated ==> Distinct(turn.photos)))
      && (after.Some? ==> Sendable(s.tables, c, turn) && after.value == Ended(s, c, turn, parsed))
  {
    hide Answer, MessagesOf, Recorded, Invariant;
    AcceptedExactly(s, c, customer, turn, reply);
  }

  /** The store after a turn that could be recorded. */
  function Ended(s: Store, c: Id, turn: Turn, parsed: ParsedReply): Store
    requires c in s.tables.conversations
  {
    var recorded := Store(Recorded(s.tables, c, turn, parsed), s.objects);
    match StatusOf(parsed.ending)
    case Active => recorded
    case Escalated => DiscardUnsent(recorded, c)
    case _ => DiscardPhotos(recorded, c)
  }

  lemma StoredIsRecorded(t: Tables, c: Id, turn: Turn, parsed: ParsedReply, stored: Tables, messages: seq<Message>)
    requires c in t.conversations
    requires SentSet(messages) == Sent(t.photos, c) + (set p | p in turn.photos)
    requires stored.conversations == t.conversations[c := Answered(t.conversations[c], turn, parsed)]
    requires var n := |MessagesOf(t.messages, c)|;
      stored.messages == t.messages + [MessageRow(turn.question, c, n, Customer, turn.text, turn.asked),
                                       MessageRow(turn.answer, c, n + 1, Assistant, parsed.text, turn.answered)]
    requires stored.photos == Bound(t.photos, turn.photos, turn.question)
    requires var escalates := StatusOf(parsed.ending) == Escalated;
      && stored.calls == (if escalates then t.calls + {turn.call} else t.calls)
      && stored.attachments ==
         if escalates then t.attachments + AttachedTo(SentSet(messages), turn.call) else t.attachments
    ensures stored == Recorded(t, c, turn, parsed)
  {
    hide MessagesOf, SentSet, Sent, Bound, StatusOf, AttachedTo, Answered;
  }

  lemma DiscardingEnds(s: Store, c: Id, turn: Turn, parsed: ParsedReply, messages: seq<Message>,
                       photos: map<Id, PhotoRow>, discarded: set<Key>)
    requires c in s.tables.conversations
    requires var recorded := Recorded(s.tables, c, turn, parsed).photos;
      && SentSet(messages) == Sent(recorded, c)
      && match StatusOf(parsed.ending)
         case Active => photos == recorded && discarded == {}
         case Escalated => photos == recorded - Unsent(recorded, c) && discarded == Keys(Unsent(recorded, c))
         case _ =>
           photos == recorded - Unsent(recorded, c) && discarded == Keys(SentSet(messages) + Unsent(recorded, c))
    ensures Store(Recorded(s.tables, c, turn, parsed).(photos := photos), s.objects - discarded) ==
      Ended(s, c, turn, parsed)
  {
  }

  /** The photos a turn leaves sent, as the messages carry them and as the table will say. */
  lemma TurnSent(s: Store, c: Id, loaded: seq<Message>, turn: Turn, question: Message, answer: Message)
    requires Invariant(s) && Sendable(s.tables, c, turn)
    requires MessagesLoaded(loaded, MessagesOf(s.tables.messages, c), s.tables.photos, c)
    requires question.role == Customer && question.photos == turn.photos && answer.role == Assistant
    ensures var list := SentList(loaded + [question, answer]);
      && (Distinct(list) <==> Distinct(turn.photos))
      && (set p | p in list) == Sent(s.tables.photos, c) + (set p | p in turn.photos)
      && forall p :: p in list ==> p !in s.tables.attachments
  {
    hide MessagesOf, MessagesLoaded, ConversationsSound, ObjectsExact, Distinct, AttachmentSound;
    SentListIsSent(s.tables, c, loaded);
    SentListSnoc(loaded, question);
    SentListSnoc(loaded + [question], answer);
    assert loaded + [question] + [answer] == loaded + [question, answer];
    assert SentList(loaded) + turn.photos + [] == SentList(loaded) + turn.photos;
    NotYetSent(s.tables, c, turn);
    AppendDistinct(SentList(loaded), turn.photos);
    UnattachedWhileActive(s.tables, c);
  }

  lemma NotYetSent(t: Tables, c: Id, turn: Turn)
    requires Sendable(t, c, turn)
    ensures forall p :: p in turn.photos ==> p in PhotosOf(t.photos, c) && p !in Sent(t.photos, c)
    ensures Sent(Bound(t.photos, turn.photos, turn.question), c) == Sent(t.photos, c) + (set p | p in turn.photos)
  {
  }

  lemma UnattachedWhileActive(t: Tables, c: Id)
    requires AttachmentsSound(t) && ActiveIn(t, c)
    ensures forall p :: p in PhotosOf(t.photos, c) ==> p !in t.attachments
  {
    forall p | p in PhotosOf(t.photos, c) ensures p !in t.attachments {
      assert AttachmentSound(t, p);
    }
  }

  lemma SentListSnoc(messages: seq<Message>, m: Message)
    ensures SentList(messages + [m]) == SentList(messages) + if m.role == Customer then m.photos else []
  {
  }

  lemma SavesTheTurn(t: Tables, c: Id, loaded: seq<Message>, turn: Turn, question: Message, answer: Message,
      text: string)
    requires MessagesLoaded(loaded, MessagesOf(t.messages, c), t.photos, c)
    requires question == Message(turn.question, Customer, turn.text, turn.asked, turn.photos)
    requires answer == Message(turn.answer, Assistant, text, turn.answered, [])
    ensures var n := |MessagesOf(t.messages, c)|;
      |loaded| == n && NewRows(c, loaded + [question, answer], n) ==
        [MessageRow(turn.question, c, n, Customer, turn.text, turn.asked),
                                                     MessageRow(turn.answer, c, n + 1, Assistant, text, turn.answered)]
  {
  }

  lemma SavesNothingNew(t: Tables, c: Id, loaded: seq<Message>)
    requires MessagesLoaded(loaded, MessagesOf(t.messages, c), t.photos, c)
    ensures |loaded| == |MessagesOf(t.messages, c)| && t.messages + NewRows(c, loaded, |loaded|) == t.messages
  {
  }

  // ---------- Requests ----------

  /** One message request: what it commits, it commits whole; what fails is rolled back. */
  method SendMessageRequest(session: TriageSession, objects: PhotoStore, c: Id, customer: Id, turn: Turn,
                            fragments: seq<string>, finished: bool, now: int)
    returns (ok: bool, pieces: seq<string>)
    requires Invariant(Store(session.Snapshot(), objects.objects))
    requires Possible(Store(session.Snapshot(), objects.objects), TurnStep(c, customer, turn, None))
    modifies session, objects
    ensures var reply := if finished then Some(ParseReply(Join(fragments))) else None;
      Store(session.Snapshot(), objects.objects) ==
        old(Next(Store(session.Snapshot(), objects.objects), TurnStep(c, customer, turn, reply), now))
  {
    hide Invariant, SendMessage, ParseReply, Join, MessagesOf, CustomerTurns;
    var tables := session.Snapshot();
    var request := new TriageRequest(session);
    ok, pieces := request.Reply(c, customer, turn, fragments, finished, Store(tables, objects.objects));
    if ok {
      request.RemoveDiscarded(objects);
    } else {
      session.Rollback(tables);
    }
  }

  lemma BothKeys(photo: Id)
    ensures Keys({photo}) == {(photo, Original)} + {(photo, Preview)}
  {
    forall k: Key | k in Keys({photo}) ensures k == (photo, Original) || k == (photo, Preview) {
      match k
      case (_, Original) =>
      case (_, Preview) =>
    }
  }

  /** Both objects first, then the row. */
  method AttachPhoto(session: TriageSession, objects: PhotoStore, c: Id, customer: Id, photo: Id, filename: string,
      now: int)
    returns (ok: bool)
    modifies session, objects
    ensures var after := old(Attach(Store(session.Snapshot(), objects.objects), c, customer, photo, filename, now));
      && ok == after.Some?
      && Store(session.Snapshot(), objects.objects) ==
         if ok then after.value else old(Store(session.Snapshot(), objects.objects))
  {
    hide MessagesOf, MessagesLoaded;
    var conversation := session.GetConversation(c, customer);
    if conversation == null || conversation.status != Active {
      return false;
    }
    if |PhotosOf(session.photos, c)| >= MAX_PHOTOS {
      return false;
    }
    objects.Put((photo, Original));
    objects.Put((photo, Preview));
    session.photos := session.photos[photo := PhotoRow(c, None, filename, now)];
    BothKeys(photo);
    return true;
  }

  /** Only a pending photo can be detached. */
  method DetachPhoto(session: TriageSession, objects: PhotoStore, c: Id, customer: Id, photo: Id) returns (ok: bool)
    modifies session, objects
    ensures var after := old(Detach(Store(session.Snapshot(), objects.objects), c, customer, photo));
      && ok == after.Some?
      && Store(session.Snapshot(), objects.objects) ==
         if ok then after.value else old(Store(session.Snapshot(), objects.objects))
  {
    hide MessagesOf, MessagesLoaded;
    var conversation := session.GetConversation(c, customer);
    if conversation == null || conversation.status != Active {
      return false;
    }
    assert [photo][0] == photo;
    var found := session.GetUnbound(c, [photo]);
    if found.None? {
      return false;
    }
    objects.Remove(Keys({photo}));
    session.photos := session.photos - {photo};
    return true;
  }

  // ---------- What is shown and what is stored ----------

  /** For every reply that is read as recorded, what the customer read, its trailing blanks aside,
      is what the conversation then holds as the assistant's last message. */
  lemma StoredAnswerIsWhatWasShown(s: Store, c: Id, customer: Id, turn: Turn, fragments: seq<string>)
    requires Invariant(s) && Possible(s, TurnStep(c, customer, turn, None)) && !AtTurnCap(s.tables, c)
    requires Readable(Join(fragments))
    ensures var after := SendMessage(s, c, customer, turn, ParseReply(Join(fragments)));
      after.Some? ==>
        var rows := MessagesOf(after.value.tables.messages, c);
        rows != [] && rows[|rows| - 1].role == Assistant && rows[|rows| - 1].text == RightTrim(Streamed(fragments))
  {
    hide MessagesOf, Invariant, ParseReply, Streamed, RightTrim, StatusOf, CustomerTurns, Answer, SendMessage, Ended,
         Recorded, Readable, Join, Unsent, AtTurnCap, Distinct;
    var reply := ParseReply(Join(fragments));
    ShownIsParsed(fragments);
    NotAtTheCap(s.tables, c, reply);
    if SendMessage(s, c, customer, turn, reply).Some? {
      AcceptedEnds(s, c, customer, turn, reply);
      EndedKeepsMessages(s, c, turn, reply);
      RecordedMessages(s.tables, c, turn, reply, c);
    }
  }

  lemma ShownIsParsed(fragments: seq<string>)
    requires Readable(Join(fragments))
    ensures RightTrim(Streamed(fragments)) == ParseReply(Join(fragments)).text
  {
    hide Join, ParseReply, RightTrim, Streamed;
  }

  lemma NotAtTheCap(t: Tables, c: Id, reply: ParsedReply)
    requires !AtTurnCap(t, c)
    ensures Answer(t, c, reply) == reply
  {
  }

  lemma EndedKeepsMessages(s: Store, c: Id, turn: Turn, parsed: ParsedReply)
    requires ActiveIn(s.tables, c)
    ensures c in s.tables.conversations
    && Ended(s, c, turn, parsed).tables.messages == Recorded(s.tables, c, turn, parsed).messages
  {
  }
}
