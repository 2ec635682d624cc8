/**
 Server-sent events over a chunked response: what the backend frames, and the incremental decoder
 that buffers chunks until a blank line ends a frame.
 */
module Sse {
  import opened Strings

  const SEPARATOR := "\n\n"
  const EVENT := "event: "
  const DATA := "data: "

  // ---------- Cutting a text at its separators ----------

  /** The complete frames of a text, in order. */
  function Frames(text: string, sep: string): seq<string>
    requires sep != ""
    decreases |text|
  {
    var i := Find(text, sep, 0);
    if i == -1 then [] else [text[..i]] + Frames(text[i + |sep|..], sep)
  }

  /** What follows the last complete frame. */
  function Rest(text: string, sep: string): string
    requires sep != ""
    decreases |text|
  {
    var i := Find(text, sep, 0);
    if i == -1 then text else Rest(text[i + |sep|..], sep)
  }

  /** A separator first found in a is found at the same place in anything that starts with a. */
  lemma FindStays(a: string, b: string, sep: string)
    requires sep != "" && Find(a, sep, 0) != -1
    ensures Find(a + b, sep, 0) == Find(a, sep, 0)
  {
    hide Find;
    var i := Find(a, sep, 0);
    var j := Find(a + b, sep, 0);
    assert (a + b)[i..i + |sep|] == a[i..i + |sep|];
    assert At(a + b, i, sep);
    assert 0 <= j <= i;
    assert (a + b)[j..j + |sep|] == a[j..j + |sep|];
    assert At(a, j, sep);
  }

  /** However the text is cut into two, decoding piece by piece finds the same frames. */
  lemma {:induction false} FramesConcat(a: string, b: string, sep: string)
    requires sep != ""
    ensures Frames(a + b, sep) == Frames(a, sep) + Frames(Rest(a, sep) + b, sep)
    ensures Rest(a + b, sep) == Rest(Rest(a, sep) + b, sep)
    decreases |a|
  {
    hide Find;
    var i := Find(a, sep, 0);
    if i == -1 {
    } else {
      FindStays(a, b, sep);
      var c := a[i + |sep|..];
      DropConcat(a, b, i + |sep|);
      assert (a + b)[..i] == a[..i];
      FramesConcat(c, b, sep);
      Assoc([a[..i]], Frames(c, sep), Frames(Rest(c, sep) + b, sep));
    }
  }

  // ---------- Parsing one frame ----------

  function Lines(s: string): (r: seq<string>)
    ensures r != []
  {
    if s == "" then [""]
    else if s[0] == '\n' then [""] + Lines(s[1..])
    else
      var r := Lines(s[1..]);
      [[s[0]] + r[0]] + r[1..]
  }

  /** The value of the last line that carries the label. */
  function LastField(lines: seq<string>, field: string): Option<string> {
    if lines == [] then None
    else
      var line := lines[|lines| - 1];
      if field <= line then Some(line[|field|..]) else LastField(lines[..|lines| - 1], field)
  }

  /** Line i is the last that carries the label, with this value. */
  ghost predicate IsLastField(lines: seq<string>, field: string, i: int, value: string) {
    0 <= i < |lines| && lines[i] == field + value && forall k :: i < k < |lines| ==> !(field <= lines[k])
  }

  lemma {:induction false} LastFieldIsLast(lines: seq<string>, field: string)
    ensures LastField(lines, field).None? <==> forall k :: 0 <= k < |lines| ==> !(field <= lines[k])
    ensures LastField(lines, field).Some? ==> exists i :: IsLastField(lines, field, i, LastField(lines, field).value)
  {
    if lines == [] {
    } else {
      var n := |lines| - 1;
      if field <= lines[n] {
        assert lines[n] == field + lines[n][|field|..];
        assert IsLastField(lines, field, n, lines[n][|field|..]);
      } else {
        LastFieldIsLast(lines[..n], field);
        if LastField(lines, field).Some? {
          var i :| IsLastField(lines[..n], field, i, LastField(lines, field).value);
          assert IsLastField(lines, field, i, LastField(lines, field).value);
        }
      }
    }
  }

  /** The JSON library, and the text field of a token payload. */
  datatype Json<!P> = Json(encode: P -> string, decode: string -> Option<P>, text: P -> string)

  datatype Parsed<P> = Ignored | Malformed | Event(name: string, payload: P)

  function Parse<P>(json: Json<P>, frame: string): Parsed<P> {
    var name := LastField(Lines(frame), EVENT);
    var data := LastField(Lines(frame), DATA);
    if name.None? || data.None? then Ignored
    else
      var payload := json.decode(data.value);
      if payload.None? then Malformed else Event(name.value, payload.value)
  }

  /** Reads a frame line by line; the last line of each kind counts. */
  method ParseFrame<P>(json: Json<P>, frame: string) returns (parsed: Parsed<P>)
    ensures parsed == Parse(json, frame)
  {
    hide Lines;
    var name, data := None, None;
    var lines := Lines(frame);
    for i := 0 to |lines|
      invariant name == LastField(lines[..i], EVENT) && data == LastField(lines[..i], DATA)
    {
      var line := lines[i];
      assert lines[..i + 1][..i] == lines[..i];
      NotBoth(line);
      if EVENT <= line {
        name := Some(line[|EVENT|..]);
      } else if DATA <= line {
        data := Some(line[|DATA|..]);
      }
    }
    assert lines[..|lines|] == lines;
    if name.None? || data.None? {
      return Ignored;
    }
    var payload := json.decode(data.value);
    return if payload.None? then Malformed else Event(name.value, payload.value);
  }

  lemma NotBoth(line: string)
    ensures !(EVENT <= line && DATA <= line)
  {
    if EVENT <= line {
      assert line[0] == EVENT[0];
    }
  }

  // ---------- Delivering frames ----------

  /** Tokens reported so far, the last done payload, and whether a payload failed to parse. */
  datatype Delivery<P> = Delivery(tokens: seq<string>, result: Option<P>, malformed: bool)

  function Deliver<P>(json: Json<P>, before: Delivery<P>, frame: string): Delivery<P> {
    match Parse(json, frame)
    case Ignored => before
    case Malformed => before.(malformed := true)
    case Event(name, payload) =>
      var after := if name == "token" then before.(tokens := before.tokens + [json.text(payload)]) else before;
      if name == "done" then after.(result := Some(payload)) else after
  }

  /** Frames are delivered in order, up to the first malformed one. */
  function DeliverAll<P>(json: Json<P>, before: Delivery<P>, frames: seq<string>): Delivery<P>
    decreases |frames|
  {
    if frames == [] || before.malformed then before
    else DeliverAll(json, Deliver(json, before, frames[0]), frames[1..])
  }

  /** The frame names its event and carries data that is no JSON. */
  predicate Undecodable<P>(json: Json<P>, frame: string) {
    var data := LastField(Lines(frame), DATA);
    LastField(Lines(frame), EVENT).Some? && data.Some? && json.decode(data.value).None?
  }

  /** Delivery fails exactly if the data of some named event is no JSON. */
  lemma {:induction false} MalformedExactly<P>(json: Json<P>, before: Delivery<P>, frames: seq<string>)
    requires !before.malformed
    ensures var d := DeliverAll(json, before, frames);
      d.malformed <==> exists i :: 0 <= i < |frames| && Undecodable(json, frames[i])
    decreases |frames|
  {
    if frames == [] {
    } else {
      var after := Deliver(json, before, frames[0]);
      assert after.malformed <==> Undecodable(json, frames[0]);
      hide Deliver, Undecodable;
      if !after.malformed {
        MalformedExactly(json, after, frames[1..]);
        if i :| 0 <= i < |frames| && Undecodable(json, frames[i]) {
          assert frames[1..][i - 1] == frames[i];
        }
      }
    }
  }

  lemma {:induction false} DeliverConcat<P>(json: Json<P>, before: Delivery<P>, a: seq<string>, b: seq<string>)
    ensures DeliverAll(json, before, a + b) == DeliverAll(json, DeliverAll(json, before, a), b)
    decreases |a|
  {
    if a == [] {
      assert a + b == b;
    } else if before.malformed {
    } else {
      hide Deliver;
      assert (a + b)[1..] == a[1..] + b;
      DeliverConcat(json, Deliver(json, before, a[0]), a[1..], b);
    }
  }

  function Nothing<P>(): Delivery<P> {
    Delivery([], None, false)
  }

  lemma NoFramesYet(sep: string)
    requires sep != ""
    ensures Frames(Join([]), sep) == [] && Rest(Join([]), sep) == ""
  {
  }

  lemma FirstFrame(text: string, sep: string)
    requires sep != "" && Find(text, sep, 0) != -1
    ensures var i := Find(text, sep, 0);
      && Frames(text, sep) == [text[..i]] + Frames(text[i + |sep|..], sep)
      && Rest(text, sep) == Rest(text[i + |sep|..], sep)
  {
  }

  lemma LastFrame(text: string, sep: string)
    requires sep != "" && Find(text, sep, 0) == -1
    ensures Frames(text, sep) == [] && Rest(text, sep) == text
  {
  }

  lemma DeliverNext<P>(json: Json<P>, before: seq<string>, arrived: seq<string>, frame: string, d: Delivery<P>)
    requires DeliverAll(json, Nothing(), before + arrived) == d && !d.malformed
    ensures DeliverAll(json, Nothing(), before + (arrived + [frame])) == Deliver(json, d, frame)
  {
    hide Deliver;
    Assoc(before, arrived, [frame]);
    DeliverConcat(json, Nothing(), before + arrived, [frame]);
    assert [frame][1..] == [];
    assert DeliverAll(json, d, [frame]) == DeliverAll(json, Deliver(json, d, frame), []);
  }

  /** Later frames change nothing once one was malformed. */
  lemma MalformedEnds<P>(json: Json<P>, chunks: seq<string>, k: nat, seen: seq<string>, more: seq<string>)
    requires k <= |chunks| && Frames(Join(chunks[..k]), SEPARATOR) == seen + more
    requires DeliverAll(json, Nothing(), seen).malformed
    ensures DeliverAll(json, Nothing(), Frames(Join(chunks), SEPARATOR)) == DeliverAll(json, Nothing(), seen)
  {
    hide Frames, Rest, Deliver;
    var a, b := Join(chunks[..k]), Join(chunks[k..]);
    JoinCuts(chunks, k);
    FramesConcat(a, b, SEPARATOR);
    var others := Frames(Rest(a, SEPARATOR) + b, SEPARATOR);
    Assoc(seen, more, others);
    DeliverConcat(json, Nothing(), seen, more + others);
  }

  lemma {:induction false} JoinCuts(chunks: seq<string>, k: nat)
    requires k <= |chunks|
    ensures Join(chunks) == Join(chunks[..k]) + Join(chunks[k..])
    decreases |chunks|
  {
    var n := |chunks| - 1;
    if k == |chunks| {
      assert chunks[..k] == chunks && chunks[k..] == [];
    } else {
      JoinCuts(chunks[..n], k);
      assert chunks[..n][..k] == chunks[..k] && chunks[..n][k..] == chunks[k..][..n - k];
      Assoc(Join(chunks[..k]), Join(chunks[..n][k..]), chunks[n]);
    }
  }

  /** Decodes the chunks as they arrive. The stream fails when a payload is malformed, or when it ends
      without a done frame; the tokens reported until then stand. What is reported depends on the
      whole text alone, never on where the chunks were cut. */
  method StreamReply<P>(json: Json<P>, chunks: seq<string>) returns (tokens: seq<string>, outcome: Option<P>)
    ensures var d := DeliverAll(json, Nothing(), Frames(Join(chunks), SEPARATOR));
      tokens == d.tokens && outcome == if d.malformed then None else d.result
  {
    hide Find, Frames, Rest, Parse;
    tokens := [];
    var buffer: string := "";
    var result: Option<P> := None;
    ghost var frames: seq<string> := [];
    NoFramesYet(SEPARATOR);
    for i := 0 to |chunks|
      invariant frames == Frames(Join(chunks[..i]), SEPARATOR) && buffer == Rest(Join(chunks[..i]), SEPARATOR)
      invariant DeliverAll(json, Nothing(), frames) == Delivery(tokens, result, false)
    {
      assert chunks[..i + 1] == chunks[..i] + [chunks[i]];
      JoinSnoc(chunks[..i], chunks[i]);
      FramesConcat(Join(chunks[..i]), chunks[i], SEPARATOR);
      buffer := buffer + chunks[i];
      ghost var arrived, coming := [], Frames(buffer, SEPARATOR);
      ghost var rest := Rest(buffer, SEPARATOR);
      var split := Find(buffer, SEPARATOR, 0);
      assert frames + arrived == frames;
      while split != -1
        invariant split == Find(buffer, SEPARATOR, 0)
        invariant arrived + Frames(buffer, SEPARATOR) == coming && Rest(buffer, SEPARATOR) == rest
        invariant DeliverAll(json, Nothing(), frames + arrived) == Delivery(tokens, result, false)
        decreases |buffer|
      {
        FirstFrame(buffer, SEPARATOR);
        var frame := buffer[..split];
        buffer := buffer[split + |SEPARATOR|..];
        var event := ParseFrame(json, frame);
        DeliverNext(json, frames, arrived, frame, Delivery(tokens, result, false));
        Assoc(arrived, [frame], Frames(buffer, SEPARATOR));
        arrived := arrived + [frame];
        if event.Malformed? {
          Assoc(frames, arrived, Frames(buffer, SEPARATOR));
          MalformedEnds(json, chunks, i + 1, frames + arrived, Frames(buffer, SEPARATOR));
          return tokens, None;
        }
        if event.Event? && event.name == "token" {
          tokens := tokens + [json.text(event.payload)];
        }
        if event.Event? && event.name == "done" {
          result := Some(event.payload);
        }
        split := Find(buffer, SEPARATOR, 0);
      }
      LastFrame(buffer, SEPARATOR);
      assert arrived == coming;
      frames := frames + coming;
    }
    assert chunks[..|chunks|] == chunks;
    outcome := result;
  }

  // ---------- What the backend writes ----------

  datatype Message<P> = Message(name: string, payload: P)

  function Body<P>(json: Json<P>, m: Message<P>): string {
    (EVENT + m.name) + ("\n" + (DATA + json.encode(m.payload)))
  }

  function Written<P>(json: Json<P>, ms: seq<Message<P>>): string {
    if ms == [] then "" else (Body(json, ms[0]) + SEPARATOR) + Written(json, ms[1..])
  }

  function Bodies<P>(json: Json<P>, ms: seq<Message<P>>): seq<string> {
    if ms == [] then [] else [Body(json, ms[0])] + Bodies(json, ms[1..])
  }

  predicate OneLine(s: string) {
    '\n' !in s
  }

  /** Encoded payloads hold no newline and decode to what was encoded. */
  ghost predicate Faithful<P(!new)>(json: Json<P>) {
    forall p :: OneLine(json.encode(p)) && json.decode(json.encode(p)) == Some(p)
  }

  ghost predicate Framable<P>(ms: seq<Message<P>>) {
    forall m :: m in ms ==> OneLine(m.name)
  }

  lemma BodyEndsAtSeparator(a: string, b: string, more: string)
    requires OneLine(a) && OneLine(b) && b != ""
    ensures var body := a + ("\n" + b);
      Find((body + SEPARATOR) + more, SEPARATOR, 0) == |body|
  {
    hide Find;
    var body := a + ("\n" + b);
    var t := (body + SEPARATOR) + more;
    assert t[|body|..|body| + 2] == SEPARATOR;
    assert At(t, |body|, SEPARATOR);
    var j := Find(t, SEPARATOR, 0);
    assert t[j] == t[j..j + 2][0] == '\n' && t[j + 1] == t[j..j + 2][1] == '\n';
    assert forall i :: 0 <= i < |body| && body[i] == '\n' ==> i == |a|;
    assert body[|a| + 1] == b[0] && b[0] in b;
  }

  lemma {:induction false} WrittenFrames<P(!new)>(json: Json<P>, ms: seq<Message<P>>, tail: string)
    requires Faithful(json) && Framable(ms) && Frames(tail, SEPARATOR) == []
    ensures Frames(Written(json, ms) + tail, SEPARATOR) == Bodies(json, ms)
    decreases |ms|
  {
    hide Find;
    if ms == [] {
      assert Written(json, ms) + tail == tail;
    } else {
      var more := Written(json, ms[1..]) + tail;
      var first := Body(json, ms[0]);
      WrittenFrames(json, ms[1..], tail);
      BodyEndsAtSeparator(EVENT + ms[0].name, DATA + json.encode(ms[0].payload), more);
      Assoc(first + SEPARATOR, Written(json, ms[1..]), tail);
      var t := (first + SEPARATOR) + more;
      FirstFrame(t, SEPARATOR);
      assert t[..|first|] == first && t[|first| + 2..] == more;
    }
  }

  lemma {:induction false} LinesAt(a: string, b: string)
    requires OneLine(a)
    ensures Lines(a + ("\n" + b)) == [a] + Lines(b)
  {
    var t := a + ("\n" + b);
    if a == "" {
      assert t[1..] == b;
    } else {
      assert t[1..] == a[1..] + ("\n" + b);
      LinesAt(a[1..], b);
      assert [t[0]] + a[1..] == a;
    }
  }

  lemma {:induction false} OneLineIsItself(b: string)
    requires OneLine(b)
    ensures Lines(b) == [b]
  {
    if b == "" {
    } else {
      OneLineIsItself(b[1..]);
      assert [b[0]] + b[1..] == b;
    }
  }

  lemma BodyParses<P(!new)>(json: Json<P>, m: Message<P>)
    requires Faithful(json) && OneLine(m.name)
    ensures Parse(json, Body(json, m)) == Event(m.name, m.payload)
  {
    hide Lines;
    var data := json.encode(m.payload);
    var a, b := EVENT + m.name, DATA + data;
    LinesAt(a, b);
    OneLineIsItself(b);
    NotBoth(b);
    assert Lines(Body(json, m)) == [a, b];
    assert [a, b][..1] == [a] && a[|EVENT|..] == m.name && b[|DATA|..] == data;
    assert LastField([a], EVENT) == Some(m.name);
  }

  /** What a client should learn from the messages: every token's text in order, the last done. */
  function TokensOf<P>(json: Json<P>, ms: seq<Message<P>>): seq<string> {
    if ms == [] then []
    else (if ms[0].name == "token" then [json.text(ms[0].payload)] else []) + TokensOf(json, ms[1..])
  }

  function LastDone<P>(ms: seq<Message<P>>): Option<P> {
    if ms == [] then None
    else if ms[|ms| - 1].name == "done" then Some(ms[|ms| - 1].payload) else LastDone(ms[..|ms| - 1])
  }

  ghost predicate HasDone<P>(ms: seq<Message<P>>) {
    exists m :: m in ms && m.name == "done"
  }

  lemma {:induction false} BodiesDeliver<P(!new)>(json: Json<P>, ms: seq<Message<P>>)
    requires Faithful(json) && Framable(ms)
    ensures DeliverAll(json, Nothing(), Bodies(json, ms)) == Delivery(TokensOf(json, ms), LastDone(ms), false)
    decreases |ms|
  {
    hide Parse, Faithful;
    if ms == [] {
    } else {
      var n := |ms| - 1;
      var init := ms[..n];
      BodiesDeliver(json, init);
      BodyParses(json, ms[n]);
      SnocMessage(json, init, ms[n]);
      assert init + [ms[n]] == ms;
      DeliverConcat(json, Nothing(), Bodies(json, init), [Body(json, ms[n])]);
      var d := Delivery(TokensOf(json, init), LastDone(init), false);
      assert [Body(json, ms[n])][1..] == [];
      assert DeliverAll(json, d, [Body(json, ms[n])]) == Deliver(json, d, Body(json, ms[n]));
    }
  }

  lemma {:induction false} SnocMessage<P>(json: Json<P>, ms: seq<Message<P>>, m: Message<P>)
    ensures Bodies(json, ms + [m]) == Bodies(json, ms) + [Body(json, m)]
    ensures TokensOf(json, ms + [m]) == TokensOf(json, ms) + if m.name == "token" then [json.text(m.payload)] else []
    decreases |ms|
  {
    hide Body;
    if ms == [] {
      assert [m][1..] == [];
    } else {
      assert (ms + [m])[1..] == ms[1..] + [m];
      SnocMessage(json, ms[1..], m);
    }
  }

  lemma {:induction false} DoneIffHasDone<P>(ms: seq<Message<P>>)
    ensures LastDone(ms).Some? <==> HasDone(ms)
    decreases |ms|
  {
    if ms == [] {
    } else {
      var n := |ms| - 1;
      DoneIffHasDone(ms[..n]);
      assert forall m :: m in ms <==> m in ms[..n] || m == ms[n];
    }
  }

  /** For every list of messages the backend frames, however the response is cut into chunks, even
      when it breaks off inside a frame: the client reports exactly the token texts in order and the
      last done payload, and fails iff there was none. */
  lemma FramesSurviveChunking<P(!new)>(json: Json<P>, ms: seq<Message<P>>, tail: string, chunks: seq<string>)
    requires Faithful(json) && Framable(ms) && Frames(tail, SEPARATOR) == []
    requires Join(chunks) == Written(json, ms) + tail
    ensures var d := DeliverAll(json, Nothing(), Frames(Join(chunks), SEPARATOR));
      d == Delivery(TokensOf(json, ms), LastDone(ms), false) && (d.result.None? <==> !HasDone(ms))
  {
    WrittenFrames(json, ms, tail);
    BodiesDeliver(json, ms);
    DoneIffHasDone(ms);
  }
}
