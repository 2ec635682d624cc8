/**
 One turn from the model to the customer's screen and to the store: the reply's fragments become
 shown pieces, the pieces become event-stream frames, the frames are cut into chunks and decoded.
 */
module TurnStream {
  import opened Strings
  import opened ReplyParser
  import opened ReplyStream
  import opened TriageStore
  import opened TriageInvariants
  import opened TriageRequests
  import TriageService
  import Sse

  datatype Payload =
    | TokenPayload(text: string)
    | DonePayload(status: Status, question: Option<QuestionSpan>, call: Option<Id>)

  type Frame = Sse.Message<Payload>

  /** The JSON library, and that a token payload carries its text under the name the client reads. */
  ghost predicate Speaks(json: Sse.Json<Payload>) {
    Sse.Faithful(json) && forall text :: json.text(TokenPayload(text)) == text
  }

  /** A token frame for each piece that is not empty. */
  function TokenFrames(pieces: seq<string>): seq<Frame> {
    if pieces == [] then []
    else
      var last := pieces[|pieces| - 1];
      TokenFrames(pieces[..|pieces| - 1]) + if last == "" then [] else [Sse.Message("token", TokenPayload(last))]
  }

  /** What a recorded turn reports: where it left the conversation, and its question while it goes on. */
  function Outcome(turn: Turn, parsed: ParsedReply): Payload {
    var status := StatusOf(parsed.ending);
    var question := if status == Active then parsed.question else None;
    DonePayload(status, question, if status == Escalated then Some(turn.call) else None)
  }

  function TurnFrames(pieces: seq<string>, done: Option<Payload>): seq<Frame> {
    TokenFrames(pieces) + if done.Some? then [Sse.Message("done", done.value)] else []
  }

  /** Writes the frames as the pieces come, and the done frame once the turn is committed. */
  method WriteTurn(json: Sse.Json<Payload>, pieces: seq<string>, done: Option<Payload>) returns (text: string)
    ensures text == Sse.Written(json, TurnFrames(pieces, done))
  {
    text := "";
    for i := 0 to |pieces|
      invariant text == Sse.Written(json, TokenFrames(pieces[..i]))
    {
      TokenFramesSnoc(pieces, i);
      if pieces[i] != "" {
        var m := Sse.Message("token", TokenPayload(pieces[i]));
        WrittenSnoc(json, TokenFrames(pieces[..i]), m);
        text := text + (Sse.Body(json, m) + Sse.SEPARATOR);
      }
    }
    assert pieces[..|pieces|] == pieces;
    if done.Some? {
      var m := Sse.Message("done", done.value);
      WrittenSnoc(json, TokenFrames(pieces), m);
      text := text + (Sse.Body(json, m) + Sse.SEPARATOR);
    } else {
      assert TurnFrames(pieces, done) == TokenFrames(pieces);
    }
  }

  lemma TokenFramesSnoc(pieces: seq<string>, i: nat)
    requires i < |pieces|
    ensures TokenFrames(pieces[..i + 1]) ==
      if pieces[i] == "" then TokenFrames(pieces[..i])
      else TokenFrames(pieces[..i]) + [Sse.Message("token", TokenPayload(pieces[i]))]
  {
    assert pieces[..i + 1][..i] == pieces[..i];
  }

  lemma {:induction false} WrittenSnoc(json: Sse.Json<Payload>, ms: seq<Frame>, m: Frame)
    ensures Sse.Written(json, ms + [m]) == Sse.Written(json, ms) + (Sse.Body(json, m) + Sse.SEPARATOR)
    decreases |ms|
  {
    var last := Sse.Body(json, m) + Sse.SEPARATOR;
    if ms == [] {
      assert ms + [m] == [m] && [m][1..] == [] && last + "" == last;
    } else {
      hide Sse.Body;
      assert (ms + [m])[1..] == ms[1..] + [m];
      WrittenSnoc(json, ms[1..], m);
      Assoc(Sse.Body(json, ms[0]) + Sse.SEPARATOR, Sse.Written(json, ms[1..]), last);
    }
  }

  lemma {:induction false} TokenFramesCarry(json: Sse.Json<Payload>, pieces: seq<string>)
    requires Speaks(json)
    ensures Join(Sse.TokensOf(json, TokenFrames(pieces))) == Join(pieces)
    ensures "" !in Sse.TokensOf(json, TokenFrames(pieces))
    ensures !Sse.HasDone(TokenFrames(pieces)) && Sse.Framable(TokenFrames(pieces))
  {
    if pieces == [] {
    } else {
      var init, last := pieces[..|pieces| - 1], pieces[|pieces| - 1];
      TokenFramesCarry(json, init);
      if last == "" {
        assert Join(init) + "" == Join(init) && TokenFrames(init) + [] == TokenFrames(init);
      } else {
        var m := Sse.Message("token", TokenPayload(last));
        Sse.SnocMessage(json, TokenFrames(init), m);
        JoinSnoc(Sse.TokensOf(json, TokenFrames(init)), last);
        assert Sse.OneLine(m.name) && m.name != "done";
      }
    }
  }

  /** What the client makes of a turn's frames, however they were chunked and wherever they broke off
      after the last whole frame: the pieces joined, and the done payload if one was written. */
  lemma ClientReads(json: Sse.Json<Payload>, pieces: seq<string>, done: Option<Payload>,
      tail: string, chunks: seq<string>)
    requires Speaks(json) && Sse.Frames(tail, Sse.SEPARATOR) == []
    requires Join(chunks) == Sse.Written(json, TurnFrames(pieces, done)) + tail
    ensures var d := Sse.DeliverAll(json, Sse.Nothing(), Sse.Frames(Join(chunks), Sse.SEPARATOR));
      !d.malformed && Join(d.tokens) == Join(pieces) && "" !in d.tokens && d.result == done
  {
    hide Sse.Written, Sse.Frames, Sse.DeliverAll, Sse.TokensOf, Sse.LastDone, Sse.HasDone, TurnFrames, Join;
    TurnFramesCarry(json, pieces, done);
    Sse.FramesSurviveChunking(json, TurnFrames(pieces, done), tail, chunks);
  }

  lemma TurnFramesCarry(json: Sse.Json<Payload>, pieces: seq<string>, done: Option<Payload>)
    requires Speaks(json)
    ensures var ms := TurnFrames(pieces, done);
      && Sse.Framable(ms) && Join(Sse.TokensOf(json, ms)) == Join(pieces) && "" !in Sse.TokensOf(json, ms)
      && Sse.LastDone(ms) == done
  {
    hide Speaks, TokenFrames, Join;
    TokenFramesCarry(json, pieces);
    if done.Some? {
      DoneFrameEnds(json, TokenFrames(pieces), done.value);
    } else {
      assert TurnFrames(pieces, done) == TokenFrames(pieces);
      Sse.DoneIffHasDone(TokenFrames(pieces));
    }
  }

  lemma DoneFrameEnds(json: Sse.Json<Payload>, tokens: seq<Frame>, done: Payload)
    requires Sse.Framable(tokens)
    ensures var ms := tokens + [Sse.Message("done", done)];
      Sse.Framable(ms) && Sse.TokensOf(json, ms) == Sse.TokensOf(json, tokens) && Sse.LastDone(ms) == Some(done)
  {
    var m := Sse.Message("done", done);
    assert Sse.OneLine(m.name) && m.name != "token";
    Sse.SnocMessage(json, tokens, m);
    hide Sse.TokensOf;
    assert (tokens + [m])[..|tokens|] == tokens;
    assert Sse.TokensOf(json, tokens) + [] == Sse.TokensOf(json, tokens);
  }

  /** The question reported, if any, is cut out of the text by its offsets iff it is not blank. */
  ghost predicate QuestionFits(reply: string, question: Option<QuestionSpan>, text: string) {
    question.Some? ==>
      var body := QuestionBody(reply);
      body.Some? && (Bounds(text, question.value.start, question.value.end, Trim(body.value)) <==> !Blank(body.value))
  }

  lemma OutcomeFits(turn: Turn, reply: string)
    ensures var done := Outcome(turn, ParseReply(reply));
      done.DonePayload? && QuestionFits(reply, done.question, ParseReply(reply).text)
  {
    QuestionSpanBoundsTheQuestion(reply);
    hide ParseReply, QuestionBody, Bounds, Trim, Blank, StatusOf;
  }

  /** What the client is told of a turn is what the store holds after it: the conversation's status, its
      service call, and while it stays open the question of the answer. */
  ghost predicate ToldAsStored(after: Store, c: Id, done: Payload, parsed: ParsedReply)
  {
    && c in after.tables.conversations && done.DonePayload?
    && var row := after.tables.conversations[c];
       && done.status == row.status && done.call == row.serviceCall
       && done.question == if row.status == Active then parsed.question else None
  }

  lemma OutcomeIsStored(s: Store, c: Id, customer: Id, turn: Turn, reply: ParsedReply)
    requires Invariant(s) && SendMessage(s, c, customer, turn, reply).Some?
    ensures var parsed := Answer(s.tables, c, reply);
      ToldAsStored(SendMessage(s, c, customer, turn, reply).value, c, Outcome(turn, parsed), parsed)
  {
    hide MessagesOf, SendMessage, Answer, StatusOf, PhotosSound, AttachmentsSound, ObjectsExact, OneActiveEach,
         OneCallEach;
    SendMessageIsATurn(s, c, customer, turn, reply);
    SentInActive(s, c, customer, turn, reply);
    assert ConversationSound(s.tables, c);
  }

  /** What a client decodes from the chunks of a turn's response. */
  function Decoded(json: Sse.Json<Payload>, chunks: seq<string>): Sse.Delivery<Payload> {
    Sse.DeliverAll(json, Sse.Nothing(), Sse.Frames(Join(chunks), Sse.SEPARATOR))
  }

  /** The client has read the text, and was told how the turn ended and where its question is. */
  ghost predicate ReadRight(d: Sse.Delivery<Payload>, reply: string, done: Payload, text: string) {
    && !d.malformed && d.result == Some(done) && RightTrim(Join(d.tokens)) == text
    && done.DonePayload? && QuestionFits(reply, done.question, text)
  }

  lemma ClientReadsTheReply(
      turn: Turn, fragments: seq<string>, pieces: seq<string>, json: Sse.Json<Payload>, chunks: seq<string>)
    requires Readable(Join(fragments)) && Join(pieces) == Streamed(fragments) && Speaks(json)
    requires Join(chunks) == Sse.Written(json, TurnFrames(pieces, Some(Outcome(turn, ParseReply(Join(fragments))))))
    ensures var parsed := ParseReply(Join(fragments));
      ReadRight(Decoded(json, chunks), Join(fragments), Outcome(turn, parsed), parsed.text)
  {
    hide Readable, Streamed, Speaks, ParseReply, Outcome, TurnFrames, QuestionFits, RightTrim, Join, Sse.Written,
         Sse.Frames, Sse.DeliverAll;
    var reply := Join(fragments);
    assert Join(chunks) + "" == Join(chunks);
    NoFrameInNothing();
    OutcomeFits(turn, reply);
    ClientReads(json, pieces, Some(Outcome(turn, ParseReply(reply))), "", chunks);
    TriageService.ShownIsParsed(fragments);
  }

  lemma NoFrameInNothing()
    ensures Sse.Frames("", Sse.SEPARATOR) == []
  {
  }

  /** The conversation's last message, once the turn is recorded. */
  ghost predicate LastSaid(s: Store, c: Id, text: string) {
    var rows := MessagesOf(s.tables.messages, c);
    rows != [] && rows[|rows| - 1].role == Assistant && rows[|rows| - 1].text == text
  }

  lemma StoredIsParsed(s: Store, c: Id, customer: Id, turn: Turn, fragments: seq<string>)
    requires Invariant(s) && Possible(s, TurnStep(c, customer, turn, None)) && !TriageService.AtTurnCap(s.tables, c)
    requires Readable(Join(fragments))
    ensures var parsed := ParseReply(Join(fragments));
      var after := SendMessage(s, c, customer, turn, parsed);
      after.Some? ==> LastSaid(after.value, c, parsed.text)
  {
    hide Invariant, Possible, Readable, ParseReply, SendMessage, Streamed, RightTrim, Join, MessagesOf,
         TriageService.AtTurnCap;
    TriageService.StoredAnswerIsWhatWasShown(s, c, customer, turn, fragments);
    TriageService.ShownIsParsed(fragments);
  }

  /** For every accepted turn and every chunking the client is told what the store then holds. */
  lemma ClientIsToldWhatIsStored(
      s: Store, c: Id, customer: Id, turn: Turn, reply: ParsedReply, pieces: seq<string>,
      json: Sse.Json<Payload>, chunks: seq<string>)
    requires Invariant(s) && SendMessage(s, c, customer, turn, reply).Some? && Speaks(json)
    requires Join(chunks) == Sse.Written(json, TurnFrames(pieces, Some(Outcome(turn, Answer(s.tables, c, reply)))))
    ensures var after := SendMessage(s, c, customer, turn, reply).value;
      var d := Decoded(json, chunks);
      && !d.malformed && Join(d.tokens) == Join(pieces)
      && d.result.Some? && ToldAsStored(after, c, d.result.value, Answer(s.tables, c, reply))
  {
    hide *;
    NoFrameInNothing();
    WholeText(Join(chunks));
    ClientReads(json, pieces, Some(Outcome(turn, Answer(s.tables, c, reply))), "", chunks);
    OutcomeIsStored(s, c, customer, turn, reply);
    DecodedIs(json, chunks);
  }

  lemma WholeText(text: string)
    ensures text + "" == text
  {
  }

  lemma DecodedIs(json: Sse.Json<Payload>, chunks: seq<string>)
    ensures Decoded(json, chunks) == Sse.DeliverAll(json, Sse.Nothing(), Sse.Frames(Join(chunks), Sse.SEPARATOR))
  {
  }

  /** From model to screen and store. For every reply that is read as recorded, however the model
      fragments it and however the response is chunked, the text the client puts together is, trailing
      blanks aside, the assistant's message as stored; it is told the conversation's stored status and
      service call; and the question it is told of, exactly while the conversation goes on, is cut out of
      that message by its offsets iff it is not blank. */
  lemma ClientSeesWhatIsStored(
      s: Store, c: Id, customer: Id, turn: Turn, fragments: seq<string>, pieces: seq<string>,
      json: Sse.Json<Payload>, chunks: seq<string>)
    requires Invariant(s) && Possible(s, TurnStep(c, customer, turn, None)) && !TriageService.AtTurnCap(s.tables, c)
    requires SendMessage(s, c, customer, turn, ParseReply(Join(fragments))).Some?
    requires Readable(Join(fragments)) && Join(pieces) == Streamed(fragments) && Speaks(json)
    requires Join(chunks) == Sse.Written(json, TurnFrames(pieces, Some(Outcome(turn, ParseReply(Join(fragments))))))
    ensures var parsed := ParseReply(Join(fragments));
      var after := SendMessage(s, c, customer, turn, parsed).value;
      var d := Decoded(json, chunks);
      exists text ::
        && ReadRight(d, Join(fragments), Outcome(turn, parsed), text) && LastSaid(after, c, text)
        && d.result.Some? && ToldAsStored(after, c, d.result.value, parsed)
  {
    hide *;
    var parsed := ParseReply(Join(fragments));
    TriageService.NotAtTheCap(s.tables, c, parsed);
    ClientIsToldWhatIsStored(s, c, customer, turn, parsed, pieces, json, chunks);
    ClientReadsTheReply(turn, fragments, pieces, json, chunks);
    StoredIsParsed(s, c, customer, turn, fragments);
  }

  /** A turn that was not recorded writes no done frame, and the client reports a failed turn. */
  lemma UnrecordedTurnFails(json: Sse.Json<Payload>, pieces: seq<string>, tail: string, chunks: seq<string>)
    requires Speaks(json) && Sse.Frames(tail, Sse.SEPARATOR) == []
    requires Join(chunks) == Sse.Written(json, TurnFrames(pieces, None)) + tail
    ensures Decoded(json, chunks).result.None? && Join(Decoded(json, chunks).tokens) == Join(pieces)
  {
    hide Speaks, Join, Sse.Written, Sse.Frames, Sse.DeliverAll;
    ClientReads(json, pieces, None, tail, chunks);
  }
}
