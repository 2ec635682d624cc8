/**
 The streamed reply against the parsed reply: for exactly which replies every way of cutting them
 into fragments shows the customer the text that is recorded, and never a marker.
 */
module ReplyStream {
  import opened Strings
  import opened MarkerLoop
  import opened Markers
  import opened MarkedText
  import opened StreamFilter
  import opened ReplyParser
  import opened ReplyTokens

  /** What has been shown once all these fragments have arrived: only ever the visible text past
      the length already shown. */
  function Shown(fragments: seq<string>): string {
    if fragments == [] then ""
    else
      MarkersAreACode();
      var before := Shown(fragments[..|fragments| - 1]);
      Resume(before, Visible(MARKERS, LeftTrim(Join(fragments))))
  }

  /** What has been shown, continued by whatever of text lies beyond its length. */
  function Resume(shown: string, text: string): (r: string)
    ensures shown <= r && |r| == if |shown| < |text| then |text| else |shown|
    ensures shown <= text ==> r == text
  {
    if |text| > |shown| then shown + text[|shown|..] else shown
  }

  /** Everything one turn shows: the stream, then the part of the parsed text not yet shown. */
  function Streamed(fragments: seq<string>): string {
    Resume(Shown(fragments), ParseReply(Join(fragments)).text)
  }

  lemma ShownSnoc(fragments: seq<string>, last: string)
    ensures Code(MARKERS)
    ensures Shown(fragments + [last])
         == Resume(Shown(fragments), Visible(MARKERS, LeftTrim(Join(fragments) + last)))
  {
    MarkersAreACode();
    JoinSnoc(fragments, last);
    assert (fragments + [last])[..|fragments|] == fragments;
  }

  /** Shows what each fragment makes visible beyond what was shown before. */
  method StreamFragments(fragments: seq<string>) returns (pieces: seq<string>)
    ensures Join(pieces) == Shown(fragments)
  {
    MarkersAreACode();
    hide Code, Visible, LeftTrim, Join, Shown, Resume;
    pieces := [];
    var received := "";
    var emitted := 0;
    assert Join([]) == "" && Shown([]) == "" by { EmptyStream(); }
    for k := 0 to |fragments|
      invariant received == Join(fragments[..k])
      invariant Join(pieces) == Shown(fragments[..k]) && emitted == |Join(pieces)|
    {
      assert fragments[..k + 1] == fragments[..k] + [fragments[k]];
      JoinSnoc(fragments[..k], fragments[k]);
      ShownSnoc(fragments[..k], fragments[k]);
      received := received + fragments[k];
      var visible := VisiblePrefix(MARKERS, LeftTrim(received));
      ResumeCases(Join(pieces), visible);
      if |visible| > emitted {
        JoinSnoc(pieces, visible[emitted..]);
        pieces := pieces + [visible[emitted..]];
        emitted := |visible|;
      }
    }
    assert fragments[..|fragments|] == fragments;
  }

  /** Streams a reply: after each fragment whatever more is visible, at the end whatever the parsed text
      still lacks. */
  method Reply(fragments: seq<string>) returns (pieces: seq<string>, parsed: ParsedReply)
    ensures Join(pieces) == Streamed(fragments)
    ensures parsed == ParseReply(Join(fragments))
  {
    hide ParseReply, Join, Shown, Resume;
    pieces := StreamFragments(fragments);
    var emitted := |Join(pieces)|;
    parsed := ParseReply(Join(fragments));
    ResumeCases(Join(pieces), parsed.text);
    if |parsed.text| > emitted {
      JoinSnoc(pieces, parsed.text[emitted..]);
      pieces := pieces + [parsed.text[emitted..]];
    }
  }

  lemma EmptyStream()
    ensures Join([]) == "" && Shown([]) == ""
  {
  }

  lemma ResumeCases(shown: string, text: string)
    ensures |text| <= |shown| ==> Resume(shown, text) == shown
    ensures |text| > |shown| ==> Resume(shown, text) == shown + text[|shown|..]
  {
  }

  // ---------- What a stream has shown ----------

  lemma BlankOpensNothing(M: seq<string>, s: string)
    requires Code(M) && Blank(s) && s != ""
    ensures Opening(M, s) == "" && Blank(s[1..])
  {
    assert IsSpace(s[0]);
    hide Opening, Code;
    OpensWithBracket(M, s);
  }

  lemma OpensWithBracket(M: seq<string>, s: string)
    requires Code(M)
    ensures Opening(M, s) != "" ==> s[0] == '['
  {
    hide Opening;
  }

  lemma {:induction false} BlankStands(M: seq<string>, s: string)
    requires Code(M) && Blank(s)
    ensures DeleteOnce(M, s) == s
    decreases |s|
  {
    hide FirstToken, Opening, Code, Blank, IsSpace;
    if s == "" {
    } else {
      BlankOpensNothing(M, s);
      PlainFirst(M, s);
      BlankStands(M, s[1..]);
      assert s == [s[0]] + s[1..];
    }
  }

  lemma LeadingBlankStands(M: seq<string>, lead: string, s: string)
    requires Code(M) && Blank(lead)
    ensures DeleteOnce(M, lead + s) == lead + DeleteOnce(M, s)
  {
    var t := lead + s;
    forall k | 0 <= k < |lead| ensures IsSpace(t[k]) { assert t[k] == lead[k]; }
    forall m, i | m in M && At(t, i, m) ensures !(i < |lead| < i + |m|) {
      assert Shaped(m) && t[i] == m[0];
    }
    DeleteSplits(M, lead, s);
    BlankStands(M, lead);
  }

  lemma ParsedText(reply: string)
    requires Code(MARKERS) && MarkerFree(MARKERS, DeleteOnce(MARKERS, reply))
    ensures MarkerFree(MARKERS, ParseReply(reply).text) <==> WellMarked(Tokens(MARKERS, reply))
    ensures WellMarked(Tokens(MARKERS, reply)) ==> ParseReply(reply).text == Trim(DeleteOnce(MARKERS, reply))
  {
    hide *;
    var ts := Tokens(MARKERS, reply);
    TokensSpellTheText(MARKERS, reply);
    assert Canon(MARKERS, ts) by { CanonTokens(MARKERS, reply); }
    ParsedOnTokens(ts);
    FlatFree(Parsed(ts));
    TrimKeepsMarkers(MARKERS, Flat(Parsed(ts)));
    ParsedLeavesNoMarker(ts);
    TextIsTrimmed(reply);
  }

  lemma CanonTokens(M: seq<string>, s: string)
    requires Code(M) && MarkerFree(M, DeleteOnce(M, s))
    ensures Canon(M, Tokens(M, s))
  {
    TokensSpellTheText(M, s);
  }

  lemma TextIsTrimmed(reply: string)
    ensures ParseReply(reply).text == Trim(Untrimmed(reply))
  {
  }

  lemma LeftTrimGrows(a: string, b: string)
    ensures LeftTrim(a) <= LeftTrim(a + b)
  {
    var r := LeftTrim(a);
    var lead := a[..|a| - |r|];
    assert a == lead + r;
    if r != "" {
      Assoc(lead, r, b);
      LeftTrimUnique(lead, r + b);
    }
  }

  lemma LengthensSoFar(M: seq<string>, t: string, j: nat)
    requires Code(M) && OnlyLengthens(M, t) && j <= |t|
    ensures OnlyLengthens(M, t[..j])
    ensures Visible(M, t[..j]) <= Visible(M, t)
  {
    forall i, k | 0 <= i <= k <= j ensures Visible(M, t[..j][..i]) <= Visible(M, t[..j][..k]) {
      assert t[..j][..i] == t[..i] && t[..j][..k] == t[..k];
    }
    assert t[..|t|] == t;
  }

  /** However the reply is cut, a stream that only lengthens has shown exactly what is visible of it. */
  lemma {:induction false} ShownIsVisible(fragments: seq<string>)
    requires Code(MARKERS) && OnlyLengthens(MARKERS, LeftTrim(Join(fragments)))
    ensures Shown(fragments) == Visible(MARKERS, LeftTrim(Join(fragments)))
    decreases |fragments|
  {
    if fragments == [] {
      assert LeftTrim("") == "" && Visible(MARKERS, "") == "" by { NothingVisible(); }
    } else {
      hide OnlyLengthens, Visible, LeftTrim, Code;
      var init, last := fragments[..|fragments| - 1], fragments[|fragments| - 1];
      var t := LeftTrim(Join(fragments));
      LeftTrimGrows(Join(init), last);
      var j := |LeftTrim(Join(init))|;
      LengthensSoFar(MARKERS, t, j);
      assert t[..j] == LeftTrim(Join(init));
      ShownIsVisible(init);
    }
  }

  lemma NothingVisible()
    requires Code(MARKERS)
    ensures LeftTrim("") == "" && Visible(MARKERS, "") == ""
  {
    FreeEmpty(MARKERS);
    DeleteEachIsOnePass(MARKERS, "");
  }

  lemma FreeEmpty(M: seq<string>)
    requires Code(M)
    ensures DeleteOnce(M, "") == "" && MarkerFree(M, "")
  {
  }

  // ---------- Exactly when the customer has read what is recorded ----------

  /** However the reply arrives, the customer has in the end read what is recorded. */
  ghost predicate Readable(reply: string) {
    forall fragments :: Join(fragments) == reply ==> RightTrim(Streamed(fragments)) == ParseReply(reply).text
  }

  /** What was shown can still end as the record: it is a beginning of it, or it and more blanks. */
  predicate LeadsTo(shown: string, record: string) {
    shown <= record || RightTrim(shown) == record
  }

  predicate Fits(record: string, k: int, c: char) {
    0 <= k && if k < |record| then c == record[k] else IsSpace(c)
  }

  // The same, one character at a time.
  lemma LeadsToEach(shown: string, record: string)
    requires RightTrim(record) == record
    ensures LeadsTo(shown, record) <==> forall k :: 0 <= k < |shown| ==> Fits(record, k, shown[k])
  {
    hide RightTrim, IsSpace;
    if forall k :: 0 <= k < |shown| ==> Fits(record, k, shown[k]) {
      if |shown| > |record| {
        var pad := shown[|record|..];
        assert shown == record + pad;
        forall i | 0 <= i < |pad| ensures IsSpace(pad[i]) { assert Fits(record, |record| + i, shown[|record| + i]); }
        RightTrimUnique(record, pad);
      } else {
        assert forall k :: 0 <= k < |shown| ==> Fits(record, k, shown[k]);
        assert shown == record[..|shown|];
      }
    }
    if RightTrim(shown) == record {
      forall k | 0 <= k < |shown| ensures Fits(record, k, shown[k]) {
        if k >= |record| { assert shown[k] == shown[|record|..][k - |record|]; }
      }
    }
  }

  lemma ResumeLeadsTo(shown: string, text: string, record: string)
    requires RightTrim(record) == record && LeadsTo(shown, record) && LeadsTo(text, record)
    ensures LeadsTo(Resume(shown, text), record)
  {
    hide LeadsTo, RightTrim, Fits;
    LeadsToEach(shown, record);
    LeadsToEach(text, record);
    LeadsToEach(Resume(shown, text), record);
  }

  /** What leads to the record becomes the record once the flush has appended what it lacks. */
  lemma FlushedLeadsTo(shown: string, record: string)
    requires RightTrim(record) == record && LeadsTo(shown, record)
    ensures RightTrim(Resume(shown, record)) == record
  {
    hide RightTrim;
    if |shown| < |record| {
      assert record[..|shown|] == shown;
    } else {
      assert shown <= record ==> shown == record;
    }
  }

  lemma BeginningLeadsTo(shown: string, all: string, record: string)
    requires shown <= all && RightTrim(all) == record && RightTrim(record) == record
    ensures LeadsTo(shown, record)
  {
    hide RightTrim, Fits;
    LeadsToEach(all, record);
    LeadsToEach(shown, record);
  }

  lemma TrimmedAlready(s: string)
    ensures RightTrim(RightTrim(s)) == RightTrim(s)
  {
  }

  /** Every beginning of t shows something that leads to the record. */
  ghost predicate AlwaysLeads(t: string, record: string)
    requires Code(MARKERS)
  {
    forall j :: 0 <= j <= |t| ==> LeadsTo(Visible(MARKERS, t[..j]), record)
  }

  lemma {:induction false} ShownLeadsTo(fragments: seq<string>, t: string, record: string)
    requires Code(MARKERS) && LeftTrim(Join(fragments)) <= t && RightTrim(record) == record
    requires AlwaysLeads(t, record)
    ensures LeadsTo(Shown(fragments), record)
    decreases |fragments|
  {
    hide Visible, LeftTrim, RightTrim, LeadsTo, Resume, Code;
    if fragments == [] {
      NothingLeadsTo(record);
    } else {
      var init, last := fragments[..|fragments| - 1], fragments[|fragments| - 1];
      LeftTrimGrows(Join(init), last);
      ShownLeadsTo(init, t, record);
      var j := |LeftTrim(Join(fragments))|;
      assert t[..j] == LeftTrim(Join(fragments));
      ResumeLeadsTo(Shown(init), Visible(MARKERS, t[..j]), record);
    }
  }

  lemma NothingLeadsTo(record: string)
    ensures LeadsTo("", record)
  {
  }

  // Cut after j visible characters, the reply is read starting with what they show.
  lemma ReadFromCut(reply: string, j: nat) returns (fragments: seq<string>)
    requires Code(MARKERS) && j <= |LeftTrim(reply)|
    ensures Join(fragments) == reply && Visible(MARKERS, LeftTrim(reply)[..j]) <= Streamed(fragments)
  {
    hide Visible, LeftTrim, Code, ParseReply, Join, Shown;
    var t := LeftTrim(reply);
    var n := |reply| - |t|;
    var first, rest := reply[..n + j], reply[n + j..];
    TakeDrop(reply, n + j);
    assert first == reply[..n] + t[..j];
    LeftTrimUnique(reply[..n], t[..j]);
    ShownSnoc([], first);
    ShownSnoc([] + [first], rest);
    JoinSnoc([], first);
    JoinSnoc([] + [first], rest);
    EmptyStream();
    assert "" + first == first;
    fragments := ([] + [first]) + [rest];
  }

  /** Exactly the replies that are read as recorded, however they arrive: those of which every
      beginning, left-trimmed, shows something that leads to the record. */
  lemma ReadableExactly(reply: string)
    ensures Code(MARKERS)
    ensures Readable(reply) <==> AlwaysLeads(LeftTrim(reply), ParseReply(reply).text)
  {
    MarkersAreACode();
    hide AlwaysLeads, LeftTrim, RightTrim, Code, ParseReply, Join, Streamed;
    var t, record := LeftTrim(reply), ParseReply(reply).text;
    RecordIsTrimmed(reply);
    if Readable(reply) {
      ReadAlwaysLeads(reply);
    }
    if AlwaysLeads(t, record) {
      forall fragments | Join(fragments) == reply ensures RightTrim(Streamed(fragments)) == record {
        ShownLeadsTo(fragments, t, record);
        FlushedLeadsTo(Shown(fragments), record);
        StreamedIsFlushed(fragments);
      }
    }
  }

  lemma ReadAlwaysLeads(reply: string)
    requires Code(MARKERS) && Readable(reply)
    ensures AlwaysLeads(LeftTrim(reply), ParseReply(reply).text)
  {
    hide Visible, LeftTrim, RightTrim, LeadsTo, Code, ParseReply, Join, Streamed;
    var t, record := LeftTrim(reply), ParseReply(reply).text;
    RecordIsTrimmed(reply);
    forall j | 0 <= j <= |t| ensures LeadsTo(Visible(MARKERS, t[..j]), record) {
      var fragments := ReadFromCut(reply, j);
      BeginningLeadsTo(Visible(MARKERS, t[..j]), Streamed(fragments), record);
    }
  }

  lemma StreamedIsFlushed(fragments: seq<string>)
    ensures Streamed(fragments) == Resume(Shown(fragments), ParseReply(Join(fragments)).text)
  {
  }

  lemma RecordIsTrimmed(reply: string)
    ensures var record := ParseReply(reply).text;
      RightTrim(record) == record && (record != "" ==> !IsSpace(record[0]))
  {
    hide LeftTrim, RightTrim, IsSpace, Untrimmed;
    TextIsTrimmed(reply);
    var l := LeftTrim(Untrimmed(reply));
    TrimmedAlready(l);
  }

  /** When the visible text only lengthens, only the whole reply need be looked at. */
  lemma ReadableWhenItLengthens(reply: string)
    requires Code(MARKERS) && OnlyLengthens(MARKERS, LeftTrim(reply))
    ensures Readable(reply) <==> LeadsTo(Visible(MARKERS, LeftTrim(reply)), ParseReply(reply).text)
  {
    hide Visible, LeftTrim, RightTrim, LeadsTo, Code, ParseReply, Readable, OnlyLengthens;
    var t, record := LeftTrim(reply), ParseReply(reply).text;
    assert t[..|t|] == t;
    ReadableExactly(reply);
    RecordIsTrimmed(reply);
    if LeadsTo(Visible(MARKERS, t), record) {
      forall j | 0 <= j <= |t| ensures LeadsTo(Visible(MARKERS, t[..j]), record) {
        LengthensSoFar(MARKERS, t, j);
        ShorterLeadsTo(Visible(MARKERS, t[..j]), Visible(MARKERS, t), record);
      }
    }
  }

  lemma ShorterLeadsTo(shown: string, more: string, record: string)
    requires shown <= more && RightTrim(record) == record && LeadsTo(more, record)
    ensures LeadsTo(shown, record)
  {
    hide LeadsTo, RightTrim, Fits;
    LeadsToEach(more, record);
    LeadsToEach(shown, record);
  }

  lemma SafeOnlyLengthens(M: seq<string>, t: string)
    requires Code(M) && StreamsSafely(M, t)
    ensures OnlyLengthens(M, t)
  {
    hide Visible, MarkerFree;
  }

  // v has been shown, h was held back, and nothing but blanks is trimmed off.
  lemma GapDecides(v: string, h: string)
    requires h != "" ==> !IsSpace(h[0])
    ensures LeadsTo(v, Trim(v + h)) <==> Blank(v + h) || !IsSpace((v + h)[0])
  {
    var d := v + h;
    if Blank(d) {
      TrimBlank(d);
      forall i | 0 <= i < |v| ensures IsSpace(v[i]) { assert v[i] == d[i]; }
      TrimBlank(v);
    } else if IsSpace(d[0]) {
      var _, record, _ := TrimShape(d);
      LedByBlank(v, record);
    } else {
      NotLedByBlank(v, h);
    }
  }

  lemma LedByBlank(v: string, record: string)
    requires v != "" && IsSpace(v[0]) && (record != "" ==> !IsSpace(record[0]))
    ensures LeadsTo(v, record) <==> Blank(v) && record == ""
  {
    hide IsSpace, Blank, RightTrim;
    if Blank(v) {
      TrimBlank(v);
    } else {
      SomethingLeft(v);
    }
  }

  lemma SomethingLeft(v: string)
    requires !Blank(v)
    ensures RightTrim(v) != "" && RightTrim(v)[0] == v[0]
  {
    hide RightTrim;
    assert v[0..] == v;
  }

  lemma NotLedByBlank(v: string, h: string)
    requires v + h != "" && !IsSpace((v + h)[0])
    ensures LeadsTo(v, Trim(v + h))
  {
    hide RightTrim, IsSpace;
    var d := v + h;
    assert LeftTrim(d) == d;
    TrimmedAlready(d);
    BeginningLeadsTo(v, d, RightTrim(d));
  }

  /** A customer can trust the stream of this reply: nothing shown is ever taken back, no marker is
      ever shown or recorded, and however the reply arrives the customer has read what is recorded. */
  ghost predicate Trustworthy(reply: string) {
    MarkersAreACode();
    && StreamsSafely(MARKERS, LeftTrim(reply))
    && MarkerFree(MARKERS, ParseReply(reply).text)
    && Readable(reply)
  }

  /** Without its markers the reply, left-trimmed, does not open with a blank. */
  ghost predicate NoLeadingGap(reply: string) {
    MarkersAreACode();
    var d := DeleteOnce(MARKERS, LeftTrim(reply));
    Blank(d) || !IsSpace(d[0])
  }

  lemma ReadableWhenUnmarked(reply: string)
    requires Code(MARKERS)
    requires MarkerFree(MARKERS, DeleteOnce(MARKERS, reply)) && WellMarked(Tokens(MARKERS, reply))
    ensures Readable(reply) <==> NoLeadingGap(reply)
  {
    hide Trim, LeftTrim, RightTrim, Visible, DeleteOnce, ParseReply, MarkerFree, StreamsSafely, OnlyLengthens, Code,
         WellMarked, Blank, Readable, LeadsTo;
    var t := LeftTrim(reply);
    LeadSplit(reply);
    StreamsSafelyExactly(MARKERS, t);
    SafeOnlyLengthens(MARKERS, t);
    OnePassIsVisiblePlusHeld(MARKERS, t);
    HeldOpensWithBracket(MARKERS, t);
    ParsedText(reply);
    GapDecides(Visible(MARKERS, t), t[|Released(MARKERS, t)|..]);
    ReadableWhenItLengthens(reply);
  }

  /** A reply that opens with a blank once its markers are out is not read as recorded. */
  lemma GapIsUnreadable(reply: string)
    requires Code(MARKERS) && MarkerFree(MARKERS, DeleteOnce(MARKERS, reply)) && !NoLeadingGap(reply)
    ensures !Readable(reply)
  {
    hide Trim, LeftTrim, RightTrim, Visible, DeleteOnce, ParseReply, MarkerFree, StreamsSafely, OnlyLengthens, Code,
         WellMarked, Readable, LeadsTo, IsSpace;
    var t, record := LeftTrim(reply), ParseReply(reply).text;
    var v := Visible(MARKERS, t);
    LeadSplit(reply);
    StreamsSafelyExactly(MARKERS, t);
    SafeOnlyLengthens(MARKERS, t);
    OnePassIsVisiblePlusHeld(MARKERS, t);
    HeldOpensWithBracket(MARKERS, t);
    ReadableWhenItLengthens(reply);
    RecordIsTrimmed(reply);
    assert record != "" by { SomethingRecorded(reply); }
    LedByBlank(v, record);
  }

  lemma SomethingRecorded(reply: string)
    requires Code(MARKERS) && MarkerFree(MARKERS, DeleteOnce(MARKERS, reply))
    requires !Blank(DeleteOnce(MARKERS, LeftTrim(reply)))
    ensures ParseReply(reply).text != ""
  {
    hide LeftTrim, RightTrim, DeleteOnce, ParseReply, MarkerFree, Code, WellMarked, Blank;
    ParsedText(reply);
    LeadSplit(reply);
    FreeEmpty(MARKERS);
    var _, core, _ := TrimShape(DeleteOnce(MARKERS, LeftTrim(reply)));
  }

  lemma HeldOpensWithBracket(M: seq<string>, s: string)
    requires Code(M)
    ensures var h := s[|Released(M, s)|..];
      h != "" ==> h[0] == '[' && !IsSpace(h[0])
  {
  }

  lemma LeadSplit(reply: string)
    requires Code(MARKERS)
    ensures var d, e := DeleteOnce(MARKERS, reply), DeleteOnce(MARKERS, LeftTrim(reply));
      Trim(d) == Trim(e) && (MarkerFree(MARKERS, d) <==> MarkerFree(MARKERS, e))
  {
    hide DeleteOnce, LeftTrim, RightTrim, Trim, Code, Blank;
    var t := LeftTrim(reply);
    var lead := reply[..|reply| - |t|];
    assert reply == lead + t;
    LeadingBlankStands(MARKERS, lead, t);
    var e := DeleteOnce(MARKERS, t);
    TrimSkipsLeadingBlank(lead, e);
    assert Blank("") by { TrimBlankEmpty(); }
    BlankSidesFree(MARKERS, lead, e, "");
    assert e + "" == e;
  }

  lemma TrimBlankEmpty()
    ensures Blank("")
  {
  }

  /** Exactly the replies whose stream can be trusted, by what can be read off the reply itself. */
  lemma TrustworthyExactly(reply: string)
    ensures Code(MARKERS)
    ensures Trustworthy(reply) <==> (
      && MarkerFree(MARKERS, DeleteOnce(MARKERS, reply))
      && WellMarked(Tokens(MARKERS, reply))
      && NoLeadingGap(reply))
  {
    MarkersAreACode();
    hide Trim, LeftTrim, RightTrim, DeleteOnce, ParseReply, MarkerFree, StreamsSafely, Code, WellMarked,
         NoLeadingGap, Readable;
    LeadSplit(reply);
    StreamsSafelyExactly(MARKERS, LeftTrim(reply));
    if MarkerFree(MARKERS, DeleteOnce(MARKERS, reply)) {
      ParsedText(reply);
      if WellMarked(Tokens(MARKERS, reply)) {
        ReadableWhenUnmarked(reply);
      }
    }
  }

  lemma JoinOne(reply: string)
    ensures Join([reply]) == reply
  {
  }

  // ---------- The same on the tokens the record keeps ----------

  /** How many plain characters come before the first marker. */
  function PlainRun(ts: seq<Token>): (k: nat)
    ensures k <= |ts| && (k < |ts| ==> ts[k].Mk?)
    ensures forall i :: 0 <= i < k ==> ts[i].Ch?
  {
    if ts == [] || ts[0].Mk? then 0 else 1 + PlainRun(ts[1..])
  }

  lemma {:induction false} PlainStretch(ts: seq<Token>, n: nat) returns (c: string)
    requires n <= |ts| && forall i :: 0 <= i < n ==> ts[i].Ch?
    ensures |c| == n && Flat(ts) == c + Flat(ts[n..]) && Chars(ts) == c + Chars(ts[n..])
  {
    if n == 0 {
      c := "";
      assert ts[0..] == ts;
    } else {
      var rest := PlainStretch(ts[1..], n - 1);
      assert ts[1..][n - 1..] == ts[n..];
      c := [ts[0].c] + rest;
      FlatStart(ts);
      Assoc([ts[0].c], rest, Flat(ts[n..]));
      Assoc([ts[0].c], rest, Chars(ts[n..]));
    }
  }

  // The shown text stands before the first marker kept, so the record begins with it.
  lemma ShownStandsFirst(kept: seq<Token>, lead: string, v: string, h: string)
    requires Blank(lead) && v != "" && !IsSpace(v[0]) && Chars(kept) == (lead + v) + h
    requires PlainRun(kept) == |kept| || |lead| + |v| <= PlainRun(kept)
    ensures LeadsTo(v, Trim(Flat(kept)))
  {
    hide LeftTrim, RightTrim, IsSpace, Flat, Chars, PlainRun, LeadsTo;
    var c := PlainStretch(kept, PlainRun(kept));
    if PlainRun(kept) == |kept| { NoTokensLeft(kept); }
    var rest := SameBeginning(lead + v, h, c, Chars(kept[PlainRun(kept)..]), Flat(kept[PlainRun(kept)..]));
    Assoc(lead, v, rest);
    assert (v + rest)[0] == v[0];
    LeftTrimUnique(lead, v + rest);
    TrimmedAlready(v + rest);
    BeginningLeadsTo(v, v + rest, RightTrim(v + rest));
  }

  lemma SameBeginning(a: string, h: string, c: string, d: string, e: string) returns (rest: string)
    requires a + h == c + d && (|a| <= |c| || d == "")
    ensures c + e == a + rest
  {
    assert (c + d)[..|a|] == a;
    rest := (c + e)[|a|..];
    assert (c + e)[..|a|] == a;
  }

  lemma NoTokensLeft(ts: seq<Token>)
    ensures Flat(ts[|ts|..]) == "" && Chars(ts[|ts|..]) == ""
  {
  }

  // The record has a bracket where the shown text goes on.
  lemma MarkerStandsFirst(M: seq<string>, kept: seq<Token>, lead: string, v: string, h: string)
    requires Over(M, kept) && Code(M)
    requires Blank(lead) && v != "" && !IsSpace(v[0]) && '[' !in v && Chars(kept) == (lead + v) + h
    requires PlainRun(kept) < |kept| && PlainRun(kept) < |lead| + |v|
    ensures !LeadsTo(v, Trim(Flat(kept)))
  {
    hide *;
    var k := PlainRun(kept);
    var c := PlainStretch(kept, k);
    var m := kept[k].m;
    MarkerEdges(M, kept, k);
    MarkerHeads(kept[k..]);
    var rest := Flat(kept[k..][1..]);
    ShorterBeginning(lead + v, h, c, Chars(kept[k..]));
    var q := BeforeTheMarker(lead, v, k);
    TrimAround(c, m, rest);
    BracketDiffers(q, m, RightTrim(rest), v);
    TrimmedAlready(LeftTrim(Flat(kept)));
    TrimIsBoth(Flat(kept));
    DiffersSoon(v, (q + m) + RightTrim(rest), |q|);
  }

  lemma TrimIsBoth(s: string)
    ensures Trim(s) == RightTrim(LeftTrim(s))
  {
  }

  lemma ShorterBeginning(a: string, h: string, c: string, d: string)
    requires a + h == c + d && |c| < |a|
    ensures c == a[..|c|]
  {
    assert (c + d)[..|c|] == c;
  }

  lemma DiffersSoon(v: string, record: string, k: nat)
    requires k < |v| && !Fits(record, k, v[k]) && RightTrim(record) == record
    ensures !LeadsTo(v, record)
  {
    hide LeadsTo, RightTrim, Fits;
    LeadsToEach(v, record);
  }

  lemma MarkerEdges(M: seq<string>, ts: seq<Token>, k: nat)
    requires Code(M) && Over(M, ts) && k < |ts| && ts[k].Mk?
    ensures var m := ts[k].m; m != "" && m[0] == '[' && !IsSpace(m[0]) && !IsSpace(m[|m| - 1])
  {
    assert ts[k] in ts && Shaped(ts[k].m);
  }

  lemma MarkerHeads(ts: seq<Token>)
    requires ts != [] && ts[0].Mk?
    ensures Flat(ts) == ts[0].m + Flat(ts[1..])
  {
  }

  lemma BeforeTheMarker(lead: string, v: string, k: nat) returns (q: string)
    requires Blank(lead) && v != "" && !IsSpace(v[0]) && k < |lead| + |v|
    ensures q == LeftTrim((lead + v)[..k]) && |q| < |v|
  {
    hide LeftTrim, IsSpace;
    q := if k <= |lead| then "" else v[..k - |lead|];
    var pad := if k <= |lead| then lead[..k] else lead;
    assert (lead + v)[..k] == pad + q;
    LeftTrimUnique(pad, q);
  }

  lemma BracketDiffers(q: string, m: string, rest: string, v: string)
    requires |q| < |v| && '[' !in v && m != "" && m[0] == '['
    ensures !Fits((q + m) + rest, |q|, v[|q|])
  {
    assert ((q + m) + rest)[|q|] == m[0];
    assert v[|q|] in v;
  }

  /** Every marker the record keeps stands after the first n characters. */
  predicate KeptAfter(kept: seq<Token>, n: int) {
    forall k :: 0 <= k < |kept| && kept[k].Mk? ==> n <= k
  }

  /** Nothing is shown before the end, or only blanks and the record is blank, or what is shown starts
      with no blank and every marker the record keeps stands after it. */
  predicate ShownBeforeKept(v: string, record: string, kept: seq<Token>, lead: nat) {
    || v == ""
    || (Blank(v) && record == "")
    || (!IsSpace(v[0]) && KeptAfter(kept, lead + |v|))
  }

  /** When no marker hides in the plain text, a reply whose shown text stands before every marker kept is
      read as recorded, and no other of which no bracket is shown. */
  lemma ReadableOnTokens(reply: string)
    requires Code(MARKERS) && MarkerFree(MARKERS, DeleteOnce(MARKERS, reply))
    ensures var v, kept := Visible(MARKERS, LeftTrim(reply)), Parsed(Tokens(MARKERS, reply));
      var before := ShownBeforeKept(v, ParseReply(reply).text, kept, Lead(reply));
      (before ==> Readable(reply)) && ('[' !in v ==> (Readable(reply) <==> before))
  {
    hide *;
    var v := Visible(MARKERS, LeftTrim(reply));
    CanonicalReply(reply);
    LeadAndRest(reply);
    ReadableWhenItLengthens(reply);
    LeadsOnTokens(MARKERS, Parsed(Tokens(MARKERS, reply)), reply[..Lead(reply)], v,
                  LeftTrim(reply)[|Released(MARKERS, LeftTrim(reply))|..]);
  }

  lemma LeadAndRest(reply: string)
    ensures reply == reply[..Lead(reply)] + LeftTrim(reply) && Blank(reply[..Lead(reply)])
  {
    hide LeftTrim, Blank;
  }

  lemma LeadsOnTokens(M: seq<string>, kept: seq<Token>, lead: string, v: string, h: string)
    requires Code(M) && Over(M, kept) && Blank(lead) && Chars(kept) == (lead + v) + h
    ensures var before := ShownBeforeKept(v, Trim(Flat(kept)), kept, |lead|);
      (before ==> LeadsTo(v, Trim(Flat(kept)))) && ('[' !in v ==> (LeadsTo(v, Trim(Flat(kept))) <==> before))
  {
    hide LeftTrim, RightTrim, IsSpace, Flat, Chars, PlainRun, LeadsTo, Code, Trim;
    var _, record, _ := TrimShape(Flat(kept));
    if v == "" {
      NothingLeadsTo(record);
    } else if IsSpace(v[0]) {
      LedByBlank(v, record);
    } else if PlainRun(kept) < |kept| && PlainRun(kept) < |lead| + |v| {
      if '[' !in v { MarkerStandsFirst(M, kept, lead, v, h); }
    } else {
      ShownStandsFirst(kept, lead, v, h);
    }
  }

  lemma CanonIsOver(M: seq<string>, ts: seq<Token>)
    requires Canon(M, ts)
    ensures Over(M, ts)
  {
  }

  lemma CanonicalReply(reply: string)
    requires Code(MARKERS) && MarkerFree(MARKERS, DeleteOnce(MARKERS, reply))
    ensures OnlyLengthens(MARKERS, LeftTrim(reply))
    ensures var kept := Parsed(Tokens(MARKERS, reply));
      && Over(MARKERS, kept) && ParseReply(reply).text == Trim(Flat(kept))
    ensures var t := LeftTrim(reply);
      Chars(Parsed(Tokens(MARKERS, reply))) == DeleteOnce(MARKERS, reply)
        == (reply[..Lead(reply)] + Visible(MARKERS, t)) + t[|Released(MARKERS, t)|..]
  {
    hide *;
    var t := LeftTrim(reply);
    LeadSplit(reply);
    StreamsSafelyExactly(MARKERS, t);
    SafeOnlyLengthens(MARKERS, t);
    OnePassIsVisiblePlusHeld(MARKERS, t);
    TokensSpellTheText(MARKERS, reply);
    CanonTokens(MARKERS, reply);
    ParsedOnTokens(Tokens(MARKERS, reply));
    TextIsTrimmed(reply);
    LeadAndRest(reply);
    LeadingBlankStands(MARKERS, reply[..Lead(reply)], t);
    CanonIsOver(MARKERS, Parsed(Tokens(MARKERS, reply)));
    Assoc(reply[..Lead(reply)], Visible(MARKERS, t), t[|Released(MARKERS, t)|..]);
  }
}
