/**
 Replies written out: which the customer can trust, which are read as recorded and yet keep a marker,
 which are not read as recorded, and which make shown text shrink.
 */
module ReplyExamples {
  import opened Strings
  import opened Markers
  import opened MarkedText
  import opened NestedMarkers
  import opened StreamFilter
  import opened ReplyParser
  import opened ReplyTokens
  import opened ReplyStream

  // ---------- Each hypothesis is needed ----------

  lemma HandWritten(ts: seq<Token>)
    requires Over(MARKERS, ts) && |Chars(ts)| < 5
    ensures Code(MARKERS) && Tokens(MARKERS, Flat(ts)) == ts && DeleteOnce(MARKERS, Flat(ts)) == Chars(ts)
  {
    MarkersAreACode();
    ShortIsFree(MARKERS, Chars(ts));
    hide Code, MarkerFree;
    Canonical(MARKERS, ts);
    TokensSpellTheText(MARKERS, Flat(ts));
  }

  // A reply of markers alone shows nothing before the end.
  lemma MarkersAloneAreReadable(ts: seq<Token>)
    requires Over(MARKERS, ts) && Chars(ts) == ""
    ensures Readable(Flat(ts))
  {
    hide *;
    HandWritten(ts);
    FreeEmpty(MARKERS);
    var reply := Flat(ts);
    CanonicalReply(reply);
    NothingShownFirst(ParseReply(reply).text, Parsed(Tokens(MARKERS, reply)), Lead(reply));
    ReadableOnTokens(reply);
  }

  lemma NothingShownFirst(record: string, kept: seq<Token>, lead: nat)
    ensures ShownBeforeKept("", record, kept, lead)
  {
  }

  // Only the first ending found is removed, so a second kind stays in the recorded text.
  lemma TwoEndingsAreUntrustworthy(a: string, b: string)
    requires a in ENDINGS && b in ENDINGS && a != b
    ensures !Trustworthy(a + b) && Readable(a + b)
  {
    hide Trustworthy, Readable, WrapsOnce, Canon, Code, Chars, Flat;
    var ts := [Mk(a)] + [Mk(b)];
    FlatPair(Mk(a), Mk(b));
    assert a in MARKERS && b in MARKERS;
    HandWritten(ts);
    assert Mk(a) in ts && Mk(b) in ts;
    TrustworthyExactly(Flat(ts));
    MarkersAloneAreReadable(ts);
  }

  lemma FlatPair(s: Token, t: Token)
    ensures Flat([s] + [t]) == Spell(s) + Spell(t) && Chars([s] + [t]) == Plain(s) + Plain(t)
  {
    FlatCons(s, [t]);
    FlatCons(t, []);
    assert [t] + [] == [t] && Spell(t) + "" == Spell(t) && Plain(t) + "" == Plain(t);
  }

  /** The two wrappers of a reply. */
  predicate Wraps(opener: string, closer: string) {
    || (opener == EQUIPMENT_OPEN && closer == EQUIPMENT_CLOSE)
    || (opener == QUESTION_OPEN && closer == QUESTION_CLOSE)
  }

  lemma BadlyWrapped(ts: seq<Token>, opener: string, closer: string)
    requires Wraps(opener, closer) && Over(MARKERS, ts) && |Chars(ts)| < 5 && !WrapsOnce(ts, opener, closer)
    ensures !Trustworthy(Flat(ts))
  {
    hide Trustworthy, EndsOnce, WrapsOnce, Code, Chars, Flat;
    HandWritten(ts);
    TrustworthyExactly(Flat(ts));
  }

  // Unwrapping takes one pair, so a wrapper begun again stays in the recorded text.
  lemma WrappingAgainIsUntrustworthy(opener: string, closer: string)
    requires Wraps(opener, closer)
    ensures !Trustworthy(opener + (closer + opener)) && Readable(opener + (closer + opener))
  {
    var O, C := Mk(opener), Mk(closer);
    var ts := [O] + ([C] + [O]);
    assert opener in MARKERS && closer in MARKERS;
    hide Wraps, Trustworthy, Readable, WrapsOnce, Chars, Flat;
    ThreeWrappers(opener, closer);
    BadlyWrapped(ts, opener, closer);
    MarkersAloneAreReadable(ts);
  }

  lemma ThreeWrappers(opener: string, closer: string)
    ensures var O, C := Mk(opener), Mk(closer);
      var ts := [O] + ([C] + [O]);
      && !WrapsOnce(ts, opener, closer) && Chars(ts) == ""
      && (forall t :: t in ts ==> t == O || t == C) && Flat(ts) == opener + (closer + opener)
  {
    var O, C := Mk(opener), Mk(closer);
    WrappersConcat([O], [C] + [O], opener, closer);
    WrappersConcat([C], [O], opener, closer);
    WrapperAlone(O, opener, closer);
    WrapperAlone(C, opener, closer);
    FlatPair(C, O);
    FlatCons(O, [C] + [O]);
  }

  // A closing delimiter with no opening one before it is nobody's to take out.
  lemma LoneCloserIsUntrustworthy(opener: string, closer: string)
    requires Wraps(opener, closer)
    ensures !Trustworthy(closer) && Readable(closer)
  {
    var C := Mk(closer);
    assert closer in MARKERS && opener != closer;
    MarkerAlone(closer);
    WrapperAlone(C, opener, closer);
    hide Wrappers, Flat, Chars, Trustworthy, Readable;
    BadlyWrapped([C], opener, closer);
    MarkersAloneAreReadable([C]);
  }

  lemma {:induction false} DropNone(ts: seq<Token>, m: string)
    requires Mk(m) !in ts
    ensures Drop(ts, m) == ts
  {
    if ts == [] {
    } else {
      DropNone(ts[1..], m);
      assert ts == [ts[0]] + ts[1..];
    }
  }

  lemma NothingParsed(ts: seq<Token>)
    requires Mk(EQUIPMENT_OPEN) !in ts && Mk(QUESTION_OPEN) !in ts && Mk(SKIP) !in ts && Mk(RESUME) !in ts
    requires forall e :: e in ENDINGS ==> Mk(e) !in ts
    ensures Parsed(ts) == ts
  {
    hide Drop, IndexOf;
    FirstEndingIsPresent(ENDINGS, ts);
    DropNone(ts, SKIP);
    DropNone(ts, RESUME);
  }

  // Text shown after a marker that the record keeps is not where the record has it.
  lemma TextAfterLoneCloserIsUnreadable(opener: string, closer: string, c: char)
    requires Wraps(opener, closer) && !IsSpace(c) && c != '['
    ensures !Readable(closer + [c])
  {
    hide Readable, Parsed, IsSpace;
    NothingParsed([Mk(closer)] + [Ch(c)]);
    assert closer in MARKERS;
    TextAfterKeptMarker(closer, c);
  }

  lemma TextAfterKeptMarker(m: string, c: char)
    requires m in MARKERS && !IsSpace(c) && c != '[' && Parsed([Mk(m)] + [Ch(c)]) == [Mk(m)] + [Ch(c)]
    ensures !Readable(m + [c])
  {
    hide *;
    var ts := [Mk(m)] + [Ch(c)];
    var t := m + [c];
    SpelledAsToken(m, c);
    HandWritten(ts);
    StartsPlainly(m, [c]);
    ShortIsFree(MARKERS, [c]);
    CanonicalReply(t);
    HeldOpensWithBracket(MARKERS, t);
    LeadAndRest(t);
    var v := Visible(MARKERS, t);
    AllShown(t[..Lead(t)], v, t[|Released(MARKERS, t)|..], c);
    ReadableOnTokens(t);
    OneShown(m, c, ParseReply(t).text, Lead(t));
  }

  lemma SpelledAsToken(m: string, c: char)
    requires m in MARKERS
    ensures var ts := [Mk(m)] + [Ch(c)];
      Over(MARKERS, ts) && Flat(ts) == m + [c] && Chars(ts) == [c]
  {
    FlatPair(Mk(m), Ch(c));
    assert "" + [c] == [c];
  }

  lemma OneShown(m: string, c: char, record: string, lead: nat)
    requires !IsSpace(c)
    ensures !ShownBeforeKept([c], record, [Mk(m)] + [Ch(c)], lead)
  {
    assert !IsSpace([c][0]);
    assert ([Mk(m)] + [Ch(c)])[0].Mk?;
  }

  lemma AllShown(lead: string, v: string, h: string, c: char)
    requires (lead + v) + h == [c] && lead == "" && (h != "" ==> h[0] == '[') && c != '['
    ensures v == [c]
  {
    assert (lead + v) + h == v + h && |v| + |h| == |[c]|;
    assert (v + h)[|v|..] == h;
  }

  lemma WrapperAlone(t: Token, opener: string, closer: string)
    requires t == Mk(opener) || t == Mk(closer)
    ensures Wrappers([t], opener, closer) == [t]
  {
    assert [t][1..] == [];
  }

  // Text after a leading marker is streamed with the blank the recorded text has lost.
  lemma LeadingGapIsUntrustworthy(m: string, blank: char, c: char)
    requires m in MARKERS && IsSpace(blank) && !IsSpace(c)
    ensures !Trustworthy(m + ([blank] + [c])) && !Readable(m + ([blank] + [c]))
  {
    hide Readable, Code, MarkerFree, Flat, Chars, Tokens, IsSpace, DeleteOnce;
    var gap := [blank] + [c];
    var ts := [Mk(m)] + ([Ch(blank)] + [Ch(c)]);
    FlatPair(Ch(blank), Ch(c));
    FlatCons(Mk(m), [Ch(blank)] + [Ch(c)]);
    assert "" + gap == gap && !IsSpace(gap[1]);
    HandWritten(ts);
    StartsPlainly(m, gap);
    ShortIsFree(MARKERS, gap);
    GapIsUnreadable(m + gap);
  }

  lemma ShortIsFree(M: seq<string>, s: string)
    requires Code(M) && |s| < 5
    ensures MarkerFree(M, s)
  {
    forall m, i | m in M ensures !At(s, i, m) { assert Shaped(m); }
  }

  lemma StartsPlainly(m: string, rest: string)
    requires m in MARKERS
    ensures LeftTrim(m + rest) == m + rest
  {
    MarkersAreACode();
    assert Shaped(m) && (m + rest)[0] == m[0];
  }

  // ---------- A reply that names two machines ----------

  /** Of two names in one reply the first is reported. */
  lemma TwoNamesReportTheFirst(a: char, b: char)
    requires !IsSpace(a) && !IsSpace(b) && a != b
    ensures ParseReply(EQUIPMENT_OPEN + ([a] + (EQUIPMENT_CLOSE + (EQUIPMENT_OPEN + ([b] + EQUIPMENT_CLOSE)))))
              .equipment == Some([a])
  {
    var O, C := Mk(EQUIPMENT_OPEN), Mk(EQUIPMENT_CLOSE);
    var pair := [O] + ([Ch(b)] + [C]);
    var ts := [O] + ([Ch(a)] + ([C] + pair));
    assert EQUIPMENT_OPEN in MARKERS && EQUIPMENT_CLOSE in MARKERS && O != C;
    hide ParseReply, IsSpace, Flat, Chars, Identity, Code, MarkerFree, Bodies;
    FlatPair(Ch(b), C);
    FlatCons(O, [Ch(b)] + [C]);
    FlatCons(C, pair);
    FlatCons(Ch(a), [C] + pair);
    FlatCons(O, [Ch(a)] + ([C] + pair));
    HandWritten(ts);
    MarkersAreACode();
    ShortIsFree(MARKERS, Chars(ts));
    FirstNameStands(ts);
    PairFirst(EQUIPMENT_OPEN, EQUIPMENT_CLOSE, a, pair);
    CharIsItsName(a);
  }

  lemma PairFirst(opener: string, closer: string, c: char, rest: seq<Token>)
    requires opener != closer
    ensures var bodies := Bodies([Mk(opener)] + ([Ch(c)] + ([Mk(closer)] + rest)), opener, closer);
      bodies != [] && bodies[0] == [c]
  {
    hide IndexOf;
    var after := [Ch(c)] + ([Mk(closer)] + rest);
    var ts := [Mk(opener)] + after;
    assert ts[0] == Mk(opener) && IndexOf(ts, opener) == 0 && ts[1..] == after;
    assert after[0] == Ch(c) && after[1] == Mk(closer) && IndexOf(after, closer) == 1 && after[..1] == [Ch(c)];
    FlatCons(Ch(c), []);
    assert [Ch(c)] + [] == [Ch(c)] && [c] + "" == [c];
  }

  lemma CharIsItsName(c: char)
    requires !IsSpace(c)
    ensures Identity([c]) == Some([c])
  {
  }

  // ---------- Replies that can be trusted ----------

  /** Any text without brackets, closed by any one ending. */
  lemma PlainReplyIsTrustworthy(text: string, e: string)
    requires '[' !in text && e in ENDINGS
    ensures Trustworthy(text + e)
  {
    MarkersAreACode();
    hide Trustworthy, WellMarked, NoLeadingGap, Code, MarkerFree, Flat, Chars, Tokens, DeleteOnce, LeftTrim,
         PlainTokens;
    var ts := PlainTokens(text) + [Mk(e)];
    assert e in MARKERS;
    UnbracketedIsFree(MARKERS, text);
    EndedText(text, e);
    Canonical(MARKERS, ts);
    TokensSpellTheText(MARKERS, text + e);
    EndedIsWellMarked(text, e);
    EndedHasNoGap(text, e);
    TrustworthyExactly(text + e);
  }

  lemma UnbracketedIsFree(M: seq<string>, s: string)
    requires Code(M) && '[' !in s
    ensures MarkerFree(M, s)
  {
    forall m, i | m in M ensures !At(s, i, m) {
      if At(s, i, m) { HoldsABracket(s, i, m); }
    }
  }

  lemma HoldsABracket(s: string, i: int, m: string)
    requires Shaped(m) && At(s, i, m)
    ensures '[' in s
  {
    assert s[i] == m[0];
  }

  lemma EndedText(text: string, e: string)
    requires e in MARKERS
    ensures var ts := PlainTokens(text) + [Mk(e)];
      Over(MARKERS, ts) && Flat(ts) == text + e && Chars(ts) == text
  {
    hide Flat, Chars;
    PlainTokensSpell(text);
    FlatConcat(PlainTokens(text), [Mk(e)]);
    MarkerAlone(e);
    assert text + "" == text;
  }

  lemma MarkerAlone(m: string)
    ensures Flat([Mk(m)]) == m && Chars([Mk(m)]) == ""
  {
    FlatCons(Mk(m), []);
    assert [Mk(m)] + [] == [Mk(m)] && m + "" == m && "" + "" == "";
  }

  lemma EndedIsWellMarked(text: string, e: string)
    requires e in ENDINGS
    ensures WellMarked(PlainTokens(text) + [Mk(e)])
  {
    var ts := PlainTokens(text) + [Mk(e)];
    hide PlainTokens, Wrappers;
    assert forall t :: t in ts && t.Mk? ==> t == Mk(e);
    NoneIff(Wrappers(ts, EQUIPMENT_OPEN, EQUIPMENT_CLOSE), EQUIPMENT_OPEN, EQUIPMENT_CLOSE, ts);
    NoneIff(Wrappers(ts, QUESTION_OPEN, QUESTION_CLOSE), QUESTION_OPEN, QUESTION_CLOSE, ts);
  }

  lemma EndedHasNoGap(text: string, e: string)
    requires Code(MARKERS) && e in MARKERS && '[' !in text
    ensures NoLeadingGap(text + e)
  {
    hide LeftTrim, DeleteOnce, Code, MarkerFree, Flat, Chars, Tokens, PlainTokens, IsSpace;
    var l := LeftTrim(text);
    assert [Mk(e)][0] == Mk(e) && Over(MARKERS, [Mk(e)]);
    MarkerEdges(MARKERS, [Mk(e)], 0);
    LeftTrimAppend(text, e);
    UnbracketedIsFree(MARKERS, l);
    EndedText(l, e);
    Canonical(MARKERS, PlainTokens(l) + [Mk(e)]);
    TokensSpellTheText(MARKERS, l + e);
  }

  // ---------- The growth the filter promises, on this code's markers ----------

  /** An ending written inside a question's opening delimiter makes shown text disappear again. */
  lemma EndingInQuestionShrinks(k: nat)
    requires 1 <= k < |QUESTION_OPEN|
    ensures Code(MARKERS) && !OnlyLengthens(MARKERS, QUESTION_OPEN[..k] + (SOLVED + QUESTION_OPEN[k..]))
  {
    MarkersAreACode();
    assert MARKERS[0] == SOLVED && MARKERS[5] == QUESTION_OPEN;
    hide *;
    InnerFirst(MARKERS, SOLVED, QUESTION_OPEN, 0, 5);
    NestedMarkerLengthensExactly(MARKERS, SOLVED, QUESTION_OPEN, k);
  }

  lemma InnerFirst(M: seq<string>, inner: string, outer: string, x: nat, y: nat)
    requires x < y < |M| && M[x] == inner && M[y] == outer
    ensures Follows(M, inner, outer) && inner in M && outer in M
  {
  }

  /** A question's opening delimiter written inside an ending only ever lengthens what is visible,
      and ends by showing the ending. */
  lemma QuestionInEndingIsShown(k: nat)
    requires 1 <= k < |SOLVED|
    ensures Code(MARKERS)
    ensures var t := SOLVED[..k] + (QUESTION_OPEN + SOLVED[k..]);
      OnlyLengthens(MARKERS, t) && !StreamsSafely(MARKERS, t)
  {
    MarkersAreACode();
    assert MARKERS[0] == SOLVED && forall y :: 1 <= y < |MARKERS| ==> MARKERS[y] != SOLVED;
    assert MARKERS[5] == QUESTION_OPEN;
    hide *;
    OuterOnlyFirst(MARKERS, QUESTION_OPEN, SOLVED);
    NestedMarkerLengthensExactly(MARKERS, QUESTION_OPEN, SOLVED, k);
    NestedMarkerSpoilsStream(MARKERS, QUESTION_OPEN, SOLVED, k);
  }

  lemma OuterOnlyFirst(M: seq<string>, inner: string, outer: string)
    requires forall y :: 1 <= y < |M| ==> M[y] != outer
    ensures !Follows(M, inner, outer)
  {
  }
}
