/**
 Parsing a reply on its tokens: which tokens the parser takes out, and for exactly which replies it
 leaves no marker behind.
 */
module ReplyTokens {
  import opened Strings
  import opened Markers
  import opened MarkedText
  import opened ReplyParser

  // ---------- Which replies are well marked ----------

  /** The tokens of ts that open or close this wrapper, in order. */
  function Wrappers(ts: seq<Token>, opener: string, closer: string): (r: seq<Token>)
    ensures forall t :: t in r <==> t in ts && (t == Mk(opener) || t == Mk(closer))
  {
    if ts == [] then []
    else (if ts[0] == Mk(opener) || ts[0] == Mk(closer) then [ts[0]] else []) + Wrappers(ts[1..], opener, closer)
  }

  /** No delimiter, an opening one alone, or one pair in order. */
  predicate Once(ws: seq<Token>, O: Token, C: Token) {
    ws == [] || ws == [O] || ws == [O, C]
  }

  predicate WrapsOnce(ts: seq<Token>, opener: string, closer: string) {
    Once(Wrappers(ts, opener, closer), Mk(opener), Mk(closer))
  }

  /** At most one kind of ending stands in the reply. */
  predicate EndsOnce(ts: seq<Token>) {
    forall a, b :: a in ENDINGS && b in ENDINGS && Mk(a) in ts && Mk(b) in ts ==> a == b
  }

  ghost predicate WellMarked(ts: seq<Token>) {
    && EndsOnce(ts)
    && WrapsOnce(ts, EQUIPMENT_OPEN, EQUIPMENT_CLOSE)
    && WrapsOnce(ts, QUESTION_OPEN, QUESTION_CLOSE)
  }

  lemma {:induction false} WrappersConcat(a: seq<Token>, b: seq<Token>, opener: string, closer: string)
    ensures Wrappers(a + b, opener, closer) == Wrappers(a, opener, closer) + Wrappers(b, opener, closer)
  {
    if a == [] {
      assert a + b == b;
    } else {
      WrappersConcat(a[1..], b, opener, closer);
      DropConcat(a, b, 1);
    }
  }

  lemma OnceOpen(wa: seq<Token>, wb: seq<Token>, O: Token, C: Token)
    requires O != C && O !in wa && C !in wb && forall t :: t in wa + wb ==> t == O || t == C
    ensures Once(wa + ([O] + wb), O, C) <==> wa + wb == []
  {
    var ws := wa + ([O] + wb);
    if wa != [] {
      assert ws[0] == wa[0] && wa[0] in wa + wb;
    } else if wb != [] {
      assert ws[1] == wb[0] && wb[0] in wa + wb;
    }
  }

  lemma OncePair(wa: seq<Token>, wc: seq<Token>, wd: seq<Token>, O: Token, C: Token)
    requires O != C && O !in wa && C !in wc && forall t :: t in wa + wc ==> t == O || t == C
    ensures Once(wa + ([O] + (wc + ([C] + wd))), O, C) <==> wa + (wc + wd) == []
  {
  }

  // The wrapper tokens that unwrapping leaves: none iff the reply wraps once.
  lemma UnwrapLeavesNone(ts: seq<Token>, opener: string, closer: string)
    requires opener != closer
    ensures WrapsOnce(ts, opener, closer) <==> Wrappers(UnwrapTokens(ts, opener, closer), opener, closer) == []
  {
    hide Wrappers, IndexOf;
    var O, C := Mk(opener), Mk(closer);
    var k := IndexOf(ts, opener);
    if k == |ts| {
      assert O !in ts;
      var ws := Wrappers(ts, opener, closer);
      assert ws != [] ==> ws[0] in ws;
    } else {
      var a, after := ts[..k], ts[k + 1..];
      SplitWrappers(ts, k, opener, closer);
      assert O !in a;
      var wa := Wrappers(a, opener, closer);
      var j := IndexOf(after, closer);
      if j == |after| {
        assert C !in after;
        WrappersConcat(a, after, opener, closer);
        OnceOpen(wa, Wrappers(after, opener, closer), O, C);
      } else {
        var c, d := after[..j], after[j + 1..];
        assert C !in c;
        SplitWrappers(after, j, opener, closer);
        WrappersConcat(a, c + d, opener, closer);
        WrappersConcat(c, d, opener, closer);
        OncePair(wa, Wrappers(c, opener, closer), Wrappers(d, opener, closer), O, C);
      }
    }
  }

  lemma SplitWrappers(ts: seq<Token>, k: nat, opener: string, closer: string)
    requires k < |ts| && (ts[k] == Mk(opener) || ts[k] == Mk(closer))
    ensures Wrappers(ts, opener, closer)
         == Wrappers(ts[..k], opener, closer) + ([ts[k]] + Wrappers(ts[k + 1..], opener, closer))
  {
    SplitAround(ts, k);
    WrappersConcat(ts[..k], [ts[k]] + ts[k + 1..], opener, closer);
    assert ([ts[k]] + ts[k + 1..])[1..] == ts[k + 1..];
  }

  // ---------- Parsing a canonical reply, on its tokens ----------

  function FirstEndingToken(endings: seq<string>, ts: seq<Token>): Option<string> {
    if endings == [] then None
    else if Mk(endings[0]) in ts then Some(endings[0])
    else FirstEndingToken(endings[1..], ts)
  }

  function WithoutEnding(ts: seq<Token>): seq<Token> {
    match FirstEndingToken(ENDINGS, ts) case None => ts case Some(e) => Drop(ts, e)
  }

  lemma IncludesToken(ts: seq<Token>, m: string)
    requires Canon(MARKERS, ts) && m in MARKERS
    ensures Includes(Flat(ts), m) <==> Mk(m) in ts
  {
    FindToken(MARKERS, ts, m);
  }

  lemma {:induction false} FirstEndingOnTokens(endings: seq<string>, ts: seq<Token>)
    requires Canon(MARKERS, ts) && forall e :: e in endings ==> e in MARKERS
    ensures FirstEnding(endings, Flat(ts)) == FirstEndingToken(endings, ts)
  {
    if endings == [] {
    } else {
      hide Canon, Flat, Includes;
      IncludesToken(ts, endings[0]);
      FirstEndingOnTokens(endings[1..], ts);
    }
  }

  lemma DropOnTokens(ts: seq<Token>, m: string)
    requires Canon(MARKERS, ts) && m in MARKERS && m != ""
    ensures Without(Flat(ts), m) == Flat(Drop(ts, m)) && Canon(MARKERS, Drop(ts, m))
    ensures Chars(Drop(ts, m)) == Chars(ts)
  {
    FreeIsClean(MARKERS, ts, m);
    WithoutIsDrop(MARKERS, ts, m);
    CanonByChars(MARKERS, ts, Drop(ts, m));
  }

  lemma WithoutEndingOnTokens(ts: seq<Token>)
    requires Canon(MARKERS, ts)
    ensures Canon(MARKERS, WithoutEnding(ts)) && Chars(WithoutEnding(ts)) == Chars(ts)
    ensures var e := FirstEnding(ENDINGS, Flat(ts));
      Flat(WithoutEnding(ts)) == if e.Some? && e.value != "" then Without(Flat(ts), e.value) else Flat(ts)
  {
    hide Canon, Flat, Chars;
    FirstEndingOnTokens(ENDINGS, ts);
    var e := FirstEndingToken(ENDINGS, ts);
    if e.Some? {
      FirstEndingIsPresent(ENDINGS, ts);
      assert e.value in MARKERS && e.value != "";
      DropOnTokens(ts, e.value);
    }
  }

  lemma {:induction false} FirstEndingIsPresent(endings: seq<string>, ts: seq<Token>)
    ensures var e := FirstEndingToken(endings, ts);
      if e.Some? then e.value in endings && Mk(e.value) in ts
      else forall m :: m in endings ==> Mk(m) !in ts
  {
    if endings == [] {
    } else {
      FirstEndingIsPresent(endings[1..], ts);
      assert endings == [endings[0]] + endings[1..];
    }
  }

  /** The tokens among which the question is looked for. */
  function Unended(ts: seq<Token>): seq<Token> {
    Drop(Drop(WithoutEnding(UnwrapTokens(ts, EQUIPMENT_OPEN, EQUIPMENT_CLOSE)), SKIP), RESUME)
  }

  /** The tokens parsing leaves standing. */
  function Parsed(ts: seq<Token>): seq<Token> {
    UnwrapTokens(Unended(ts), QUESTION_OPEN, QUESTION_CLOSE)
  }

  lemma UnmodedOnTokens(ts: seq<Token>)
    requires Canon(MARKERS, ts)
    ensures Unmoded(Flat(ts)) == Flat(Unended(ts)) && Canon(MARKERS, Unended(ts))
    ensures Chars(Unended(ts)) == Chars(ts)
  {
    hide Canon, Flat, Chars, UnwrapTokens, Unwrap, FirstEnding, Drop, WithoutEnding;
    UnwrapOnTokens(MARKERS, ts, EQUIPMENT_OPEN, EQUIPMENT_CLOSE);
    var t1 := UnwrapTokens(ts, EQUIPMENT_OPEN, EQUIPMENT_CLOSE);
    WithoutEndingOnTokens(t1);
    var t2 := WithoutEnding(t1);
    DropOnTokens(t2, SKIP);
    DropOnTokens(Drop(t2, SKIP), RESUME);
  }

  lemma ParsedOnTokens(ts: seq<Token>)
    requires Canon(MARKERS, ts)
    ensures Untrimmed(Flat(ts)) == Flat(Parsed(ts))
    ensures Canon(MARKERS, Parsed(ts)) && Chars(Parsed(ts)) == Chars(ts)
  {
    hide Canon, Flat, Chars, UnwrapTokens, Unwrap, Unmoded, Unended;
    UnmodedOnTokens(ts);
    UnwrapOnTokens(MARKERS, Unended(ts), QUESTION_OPEN, QUESTION_CLOSE);
  }

  lemma {:induction false} DropKeepsWrappers(ts: seq<Token>, m: string, opener: string, closer: string)
    requires m != opener && m != closer
    ensures Wrappers(Drop(ts, m), opener, closer) == Wrappers(ts, opener, closer)
  {
    if ts == [] {
    } else {
      DropKeepsWrappers(ts[1..], m, opener, closer);
      if ts[0] != Mk(m) {
        assert Drop(ts, m)[1..] == Drop(ts[1..], m);
      }
    }
  }

  lemma SkipOneWrapper(ts: seq<Token>, k: nat, opener: string, closer: string)
    requires k < |ts| && ts[k] != Mk(opener) && ts[k] != Mk(closer)
    ensures Wrappers(ts[..k] + ts[k + 1..], opener, closer) == Wrappers(ts, opener, closer)
  {
    hide Wrappers;
    SplitAround(ts, k);
    WrappersConcat(ts[..k], [ts[k]] + ts[k + 1..], opener, closer);
    WrappersConcat(ts[..k], ts[k + 1..], opener, closer);
    WrappersSkip(ts[k], ts[k + 1..], opener, closer);
  }

  lemma WrappersSkip(t: Token, ts: seq<Token>, opener: string, closer: string)
    requires t != Mk(opener) && t != Mk(closer)
    ensures Wrappers([t] + ts, opener, closer) == Wrappers(ts, opener, closer)
  {
  }

  lemma UnwrapKeepsWrappers(ts: seq<Token>, o: string, c: string, opener: string, closer: string)
    requires o != opener && o != closer && c != opener && c != closer
    ensures Wrappers(UnwrapTokens(ts, o, c), opener, closer) == Wrappers(ts, opener, closer)
  {
    hide Wrappers, IndexOf;
    var k := IndexOf(ts, o);
    if k < |ts| {
      SkipOneWrapper(ts, k, opener, closer);
      var a, after := ts[..k], ts[k + 1..];
      var j := IndexOf(after, c);
      if j < |after| {
        SkipOneWrapper(after, j, opener, closer);
        WrappersConcat(a, after, opener, closer);
        WrappersConcat(a, after[..j] + after[j + 1..], opener, closer);
      }
    }
  }

  lemma UnwrapKeepsOthers(ts: seq<Token>, opener: string, closer: string, t: Token)
    requires t != Mk(opener) && t != Mk(closer)
    ensures t in UnwrapTokens(ts, opener, closer) <==> t in ts
  {
    hide IndexOf;
    var k := IndexOf(ts, opener);
    if k < |ts| {
      SkipOneMember(ts, k, t);
      var after := ts[k + 1..];
      var j := IndexOf(after, closer);
      if j < |after| { SkipOneMember(after, j, t); }
    }
  }

  lemma SkipOneMember(ts: seq<Token>, k: nat, t: Token)
    requires k < |ts| && t != ts[k]
    ensures t in ts[..k] + ts[k + 1..] <==> t in ts
  {
  }

  ghost predicate NoMarkerLeft(ts: seq<Token>) {
    forall m :: m in MARKERS ==> Mk(m) !in ts
  }

  lemma EndingLeavesNone(ts: seq<Token>)
    ensures EndsOnce(ts) <==> forall e :: e in ENDINGS ==> Mk(e) !in WithoutEnding(ts)
  {
    FirstEndingIsPresent(ENDINGS, ts);
  }

  /** Parsing removes every marker iff the reply is well marked. */
  lemma ParsedLeavesNoMarker(ts: seq<Token>)
    ensures NoMarkerLeft(Parsed(ts)) <==> WellMarked(ts)
  {
    hide Wrappers, UnwrapTokens, WrapsOnce, WithoutEnding;
    var t1 := UnwrapTokens(ts, EQUIPMENT_OPEN, EQUIPMENT_CLOSE);
    var t2 := WithoutEnding(t1);
    var t3 := Drop(Drop(t2, SKIP), RESUME);
    var t4 := Parsed(ts);
    EndingLeavesNone(t1);
    ParsedKeepsOthers(ts);
    EquipmentLeft(ts);
    QuestionLeft(ts);
    var we, wq := Wrappers(t4, EQUIPMENT_OPEN, EQUIPMENT_CLOSE), Wrappers(t4, QUESTION_OPEN, QUESTION_CLOSE);
    NoneIff(we, EQUIPMENT_OPEN, EQUIPMENT_CLOSE, t4);
    NoneIff(wq, QUESTION_OPEN, QUESTION_CLOSE, t4);
  }

  lemma NoneIff(ws: seq<Token>, opener: string, closer: string, ts: seq<Token>)
    requires ws == Wrappers(ts, opener, closer)
    ensures ws == [] <==> Mk(opener) !in ts && Mk(closer) !in ts
  {
  }

  lemma ParsedKeepsOthers(ts: seq<Token>)
    ensures Mk(SKIP) !in Parsed(ts) && Mk(RESUME) !in Parsed(ts)
    ensures var t1 := UnwrapTokens(ts, EQUIPMENT_OPEN, EQUIPMENT_CLOSE);
      forall e :: e in ENDINGS ==>
        (Mk(e) in t1 <==> Mk(e) in ts) && (Mk(e) in Parsed(ts) <==> Mk(e) in WithoutEnding(t1))
  {
    hide UnwrapTokens, WithoutEnding;
    var t1 := UnwrapTokens(ts, EQUIPMENT_OPEN, EQUIPMENT_CLOSE);
    var t3 := Drop(Drop(WithoutEnding(t1), SKIP), RESUME);
    UnwrapKeepsOthers(t3, QUESTION_OPEN, QUESTION_CLOSE, Mk(SKIP));
    UnwrapKeepsOthers(t3, QUESTION_OPEN, QUESTION_CLOSE, Mk(RESUME));
    forall e | e in ENDINGS
      ensures (Mk(e) in t1 <==> Mk(e) in ts) && (Mk(e) in Parsed(ts) <==> Mk(e) in WithoutEnding(t1))
    {
      UnwrapKeepsOthers(ts, EQUIPMENT_OPEN, EQUIPMENT_CLOSE, Mk(e));
      UnwrapKeepsOthers(t3, QUESTION_OPEN, QUESTION_CLOSE, Mk(e));
    }
  }

  lemma EndingKeepsWrappers(ts: seq<Token>, opener: string, closer: string)
    requires opener !in ENDINGS + [SKIP, RESUME] && closer !in ENDINGS + [SKIP, RESUME]
    ensures Wrappers(Drop(Drop(WithoutEnding(ts), SKIP), RESUME), opener, closer) == Wrappers(ts, opener, closer)
  {
    hide Wrappers, Drop;
    FirstEndingIsPresent(ENDINGS, ts);
    var e := FirstEndingToken(ENDINGS, ts);
    if e.Some? { DropKeepsWrappers(ts, e.value, opener, closer); }
    var t2 := WithoutEnding(ts);
    DropKeepsWrappers(t2, SKIP, opener, closer);
    DropKeepsWrappers(Drop(t2, SKIP), RESUME, opener, closer);
  }

  lemma EquipmentLeft(ts: seq<Token>)
    ensures WrapsOnce(ts, EQUIPMENT_OPEN, EQUIPMENT_CLOSE)
       <==> Wrappers(Parsed(ts), EQUIPMENT_OPEN, EQUIPMENT_CLOSE) == []
  {
    hide Wrappers, UnwrapTokens, WrapsOnce, WithoutEnding, Drop;
    var t1 := UnwrapTokens(ts, EQUIPMENT_OPEN, EQUIPMENT_CLOSE);
    UnwrapLeavesNone(ts, EQUIPMENT_OPEN, EQUIPMENT_CLOSE);
    EndingKeepsWrappers(t1, EQUIPMENT_OPEN, EQUIPMENT_CLOSE);
    UnwrapKeepsWrappers(Drop(Drop(WithoutEnding(t1), SKIP), RESUME), QUESTION_OPEN, QUESTION_CLOSE,
                        EQUIPMENT_OPEN, EQUIPMENT_CLOSE);
  }

  lemma QuestionLeft(ts: seq<Token>)
    ensures WrapsOnce(ts, QUESTION_OPEN, QUESTION_CLOSE)
       <==> Wrappers(Parsed(ts), QUESTION_OPEN, QUESTION_CLOSE) == []
  {
    hide Wrappers, UnwrapTokens, WithoutEnding, Drop;
    var t1 := UnwrapTokens(ts, EQUIPMENT_OPEN, EQUIPMENT_CLOSE);
    var t3 := Drop(Drop(WithoutEnding(t1), SKIP), RESUME);
    UnwrapKeepsWrappers(ts, EQUIPMENT_OPEN, EQUIPMENT_CLOSE, QUESTION_OPEN, QUESTION_CLOSE);
    EndingKeepsWrappers(t1, QUESTION_OPEN, QUESTION_CLOSE);
    UnwrapLeavesNone(t3, QUESTION_OPEN, QUESTION_CLOSE);
  }

  // ---------- How a reply ends and what it chooses ----------

  lemma EndingIsOfTheUnwrapped(text: string)
    ensures ParseReply(text).ending == FirstEnding(ENDINGS, Unwrap(text, EQUIPMENT_OPEN, EQUIPMENT_CLOSE).text)
  {
    hide Unwrap, UnwrapQuestion, Unmoded, FirstEnding, Identity;
  }

  /** A reply ends solved if that marker stands in it, else escalated, else closed, by the first of these
      it carries, and goes on without any. */
  lemma EndingOnTokens(ts: seq<Token>)
    requires Canon(MARKERS, ts)
    ensures ParseReply(Flat(ts)).ending ==
      if Mk(SOLVED) in ts then Some(SOLVED)
      else if Mk(ESCALATE) in ts then Some(ESCALATE)
      else if Mk(CLOSED) in ts then Some(CLOSED)
      else None
  {
    hide Canon, Flat, Chars, Unwrap, UnwrapTokens, ParseReply, FirstEnding, FirstBody;
    var t1 := UnwrapTokens(ts, EQUIPMENT_OPEN, EQUIPMENT_CLOSE);
    UnwrapOnTokens(MARKERS, ts, EQUIPMENT_OPEN, EQUIPMENT_CLOSE);
    EndingIsOfTheUnwrapped(Flat(ts));
    FirstEndingOnTokens(ENDINGS, t1);
    UnwrapKeepsOthers(ts, EQUIPMENT_OPEN, EQUIPMENT_CLOSE, Mk(SOLVED));
    UnwrapKeepsOthers(ts, EQUIPMENT_OPEN, EQUIPMENT_CLOSE, Mk(ESCALATE));
    UnwrapKeepsOthers(ts, EQUIPMENT_OPEN, EQUIPMENT_CLOSE, Mk(CLOSED));
    FirstOfThree(t1);
  }

  lemma FirstOfThree(ts: seq<Token>)
    ensures FirstEndingToken(ENDINGS, ts) ==
      if Mk(SOLVED) in ts then Some(SOLVED)
      else if Mk(ESCALATE) in ts then Some(ESCALATE)
      else if Mk(CLOSED) in ts then Some(CLOSED)
      else None
  {
    FirstEndingOf(SOLVED, [ESCALATE, CLOSED], ts);
    FirstEndingOf(ESCALATE, [CLOSED], ts);
    FirstEndingOf(CLOSED, [], ts);
    assert ENDINGS == [SOLVED] + [ESCALATE, CLOSED] && [ESCALATE, CLOSED] == [ESCALATE] + [CLOSED];
    assert [CLOSED] == [CLOSED] + [];
  }

  lemma FirstEndingOf(e: string, rest: seq<string>, ts: seq<Token>)
    ensures FirstEndingToken([e] + rest, ts) == if Mk(e) in ts then Some(e) else FirstEndingToken(rest, ts)
  {
    assert ([e] + rest)[1..] == rest;
  }

  /** What is left when equipment and ending are out. */
  lemma ChoiceIsOfTheUnended(text: string)
    ensures var unwrapped := Unwrap(text, EQUIPMENT_OPEN, EQUIPMENT_CLOSE).text;
      var e := FirstEnding(ENDINGS, unwrapped);
      var unended := if e.Some? && e.value != "" then Without(unwrapped, e.value) else unwrapped;
      ParseReply(text).declined ==
        if Includes(unended, SKIP) then Some(true) else if Includes(unended, RESUME) then Some(false) else None
  {
    hide Unwrap, UnwrapQuestion, Unmoded, FirstEnding, Identity, Includes, Without;
  }

  /** A reply declines troubleshooting if the skip marker stands in it, reopens it if only the resume
      marker does, and chooses nothing without either. */
  lemma ChoiceOnTokens(ts: seq<Token>)
    requires Canon(MARKERS, ts)
    ensures ParseReply(Flat(ts)).declined ==
      if Mk(SKIP) in ts then Some(true) else if Mk(RESUME) in ts then Some(false) else None
  {
    hide Canon, Flat, Chars, Unwrap, UnwrapTokens, ParseReply, FirstEnding, FirstBody, WithoutEnding, Includes;
    var t1 := UnwrapTokens(ts, EQUIPMENT_OPEN, EQUIPMENT_CLOSE);
    UnwrapOnTokens(MARKERS, ts, EQUIPMENT_OPEN, EQUIPMENT_CLOSE);
    ChoiceIsOfTheUnended(Flat(ts));
    WithoutEndingOnTokens(t1);
    IncludesToken(WithoutEnding(t1), SKIP);
    IncludesToken(WithoutEnding(t1), RESUME);
    EndingKeepsMode(t1, Mk(SKIP));
    EndingKeepsMode(t1, Mk(RESUME));
    UnwrapKeepsOthers(ts, EQUIPMENT_OPEN, EQUIPMENT_CLOSE, Mk(SKIP));
    UnwrapKeepsOthers(ts, EQUIPMENT_OPEN, EQUIPMENT_CLOSE, Mk(RESUME));
  }

  lemma EndingKeepsMode(ts: seq<Token>, t: Token)
    requires forall e :: e in ENDINGS ==> t != Mk(e)
    ensures t in WithoutEnding(ts) <==> t in ts
  {
    hide Drop;
    FirstEndingIsPresent(ENDINGS, ts);
  }

  // ---------- The question a reply asks ----------

  /** Some opener stands before some closer. */
  ghost predicate HasPair(ts: seq<Token>, opener: string, closer: string) {
    exists i, j :: 0 <= i < j < |ts| && ts[i] == Mk(opener) && ts[j] == Mk(closer)
  }

  lemma PairIsFound(ts: seq<Token>, opener: string, closer: string)
    ensures FirstBody(ts, opener, closer).Some? <==> HasPair(ts, opener, closer)
  {
    hide Flat;
    var k := IndexOf(ts, opener);
    if a, b :| 0 <= a < b < |ts| && ts[a] == Mk(opener) && ts[b] == Mk(closer) {
      assert k <= a && ts[k + 1..][b - k - 1] == Mk(closer);
    }
    if FirstBody(ts, opener, closer).Some? {
      var j := IndexOf(ts[k + 1..], closer);
      assert ts[k + 1 + j] == ts[k + 1..][j];
    }
  }

  lemma PairCons(t: Token, ts: seq<Token>, opener: string, closer: string)
    ensures HasPair([t] + ts, opener, closer) <==>
      (t == Mk(opener) && Mk(closer) in ts) || HasPair(ts, opener, closer)
  {
    var all := [t] + ts;
    if i, j :| 0 <= i < j < |all| && all[i] == Mk(opener) && all[j] == Mk(closer) {
      assert ts[j - 1] == Mk(closer);
      assert i > 0 ==> ts[i - 1] == Mk(opener);
    }
    if t == Mk(opener) && Mk(closer) in ts {
      var j :| 0 <= j < |ts| && ts[j] == Mk(closer);
      assert all[0] == t && all[j + 1] == ts[j];
    }
    if i, j :| 0 <= i < j < |ts| && ts[i] == Mk(opener) && ts[j] == Mk(closer) {
      assert all[i + 1] == ts[i] && all[j + 1] == ts[j];
    }
  }

  lemma {:induction false} PairInWrappers(ts: seq<Token>, opener: string, closer: string)
    ensures HasPair(Wrappers(ts, opener, closer), opener, closer) <==> HasPair(ts, opener, closer)
  {
    if ts == [] {
    } else {
      hide HasPair;
      var t, rest := ts[0], ts[1..];
      PairInWrappers(rest, opener, closer);
      assert ts == [t] + rest;
      PairCons(t, rest, opener, closer);
      PairCons(t, Wrappers(rest, opener, closer), opener, closer);
      assert [] + Wrappers(rest, opener, closer) == Wrappers(rest, opener, closer);
    }
  }

  /** A reply asks a question exactly if an opening question delimiter stands before a closing one. */
  lemma QuestionOnTokens(ts: seq<Token>)
    requires Canon(MARKERS, ts)
    ensures ParseReply(Flat(ts)).question.Some? <==> HasPair(ts, QUESTION_OPEN, QUESTION_CLOSE)
  {
    hide Canon, Flat, Chars, Unwrap, UnwrapTokens, ParseReply, Unmoded, WithoutEnding, Drop, Wrappers, HasPair,
         FirstBody;
    QuestionSpanBoundsTheQuestion(Flat(ts));
    UnmodedOnTokens(ts);
    UnwrapOnTokens(MARKERS, Unended(ts), QUESTION_OPEN, QUESTION_CLOSE);
    PairIsFound(Unended(ts), QUESTION_OPEN, QUESTION_CLOSE);
    var t1 := UnwrapTokens(ts, EQUIPMENT_OPEN, EQUIPMENT_CLOSE);
    UnwrapKeepsWrappers(ts, EQUIPMENT_OPEN, EQUIPMENT_CLOSE, QUESTION_OPEN, QUESTION_CLOSE);
    EndingKeepsWrappers(t1, QUESTION_OPEN, QUESTION_CLOSE);
    PairInWrappers(ts, QUESTION_OPEN, QUESTION_CLOSE);
    PairInWrappers(Unended(ts), QUESTION_OPEN, QUESTION_CLOSE);
  }

  // ---------- The equipment a reply names ----------

  /** The first pair names the equipment; the last pair would name the same exactly if both wrap the same
      but for outer blanks. */
  lemma FirstNameStands(ts: seq<Token>)
    requires Canon(MARKERS, ts)
    ensures var bodies := Bodies(ts, EQUIPMENT_OPEN, EQUIPMENT_CLOSE);
      var named := ParseReply(Flat(ts)).equipment;
      if bodies == [] then named == None
      else
        && named == (if Trim(bodies[0]) == "" then None else Some(Trim(bodies[0])))
        && (named == Identity(bodies[|bodies| - 1]) <==> Trim(bodies[0]) == Trim(bodies[|bodies| - 1]))
  {
    hide Canon, Flat, Chars, Unwrap, UnwrapTokens, Bodies, FirstBody, ParseReply, Identity, Trim;
    UnwrapOnTokens(MARKERS, ts, EQUIPMENT_OPEN, EQUIPMENT_CLOSE);
    EquipmentIsUnwrapped(Flat(ts));
    FirstOfBodies(ts, EQUIPMENT_OPEN, EQUIPMENT_CLOSE);
    var bodies := Bodies(ts, EQUIPMENT_OPEN, EQUIPMENT_CLOSE);
    if bodies != [] { SameIdentity(bodies[0], bodies[|bodies| - 1]); }
  }

  lemma EquipmentIsUnwrapped(text: string)
    ensures var body := Unwrap(text, EQUIPMENT_OPEN, EQUIPMENT_CLOSE).body;
      ParseReply(text).equipment == if body.None? then None else Identity(body.value)
  {
    hide Unwrap, UnwrapQuestion, Unmoded, FirstEnding;
  }

  lemma FirstOfBodies(ts: seq<Token>, opener: string, closer: string)
    ensures var bodies := Bodies(ts, opener, closer);
      FirstBody(ts, opener, closer) == if bodies == [] then None else Some(bodies[0])
  {
  }

  lemma SameIdentity(a: string, b: string)
    ensures Identity(a) == if Trim(a) == "" then None else Some(Trim(a))
    ensures Identity(a) == Identity(b) <==> Trim(a) == Trim(b)
  {
    hide Trim;
  }

  // ---------- Trimming and markers ----------

  lemma {:induction false} MarkerInFlat(ts: seq<Token>, m: string)
    requires Mk(m) in ts
    ensures Contains(Flat(ts), m)
  {
    if ts[0] == Mk(m) {
      assert At(Flat(ts), 0, m) by { assert m <= Flat(ts); }
    } else {
      hide Spell;
      MarkerInFlat(ts[1..], m);
      var i :| At(Flat(ts[1..]), i, m);
      AtShift(Spell(ts[0]), Flat(ts[1..]), m, i, |Spell(ts[0])| + i);
    }
  }

  lemma FlatFree(ts: seq<Token>)
    requires Canon(MARKERS, ts)
    ensures MarkerFree(MARKERS, Flat(ts)) <==> NoMarkerLeft(ts)
    ensures NoMarkerLeft(ts) ==> Flat(ts) == Chars(ts)
  {
    if NoMarkerLeft(ts) {
      forall i | 0 <= i < |ts| ensures ts[i].Ch? { assert ts[i] in ts; }
      AllPlain(ts);
    } else {
      var m :| m in MARKERS && Mk(m) in ts;
      MarkerInFlat(ts, m);
      var i :| At(Flat(ts), i, m);
    }
  }

  /** Markers hold no blanks, so trimming neither makes nor hides one. */
  lemma TrimKeepsMarkers(M: seq<string>, s: string)
    requires Code(M)
    ensures MarkerFree(M, Trim(s)) <==> MarkerFree(M, s)
  {
    var lead, core, pad := TrimShape(s);
    BlankSidesFree(M, lead, core, pad);
  }

  lemma BlankSidesFree(M: seq<string>, lead: string, core: string, pad: string)
    requires Code(M) && Blank(lead) && Blank(pad)
    ensures MarkerFree(M, lead + (core + pad)) <==> MarkerFree(M, core)
  {
    var s := lead + (core + pad);
    if MarkerFree(M, s) {
      MarkerFreeParts(M, lead, core + pad);
      MarkerFreeParts(M, core, pad);
    }
    forall m, i | m in M && At(s, i, m) ensures At(core, i - |lead|, m) {
      NotBlankInside(lead, core, pad, m, i);
    }
  }

  lemma NotBlankInside(lead: string, core: string, pad: string, m: string, i: int)
    requires Shaped(m) && Blank(lead) && Blank(pad) && At(lead + (core + pad), i, m)
    ensures At(core, i - |lead|, m)
  {
  }
}
