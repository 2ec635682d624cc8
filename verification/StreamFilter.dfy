/**
 What of a part-streamed reply the customer may already see.

 Released text is everything before a tail that may still grow into a marker; the visible text is
 the released text with its markers removed one marker kind after another. The main theorems say
 for exactly which replies the visible text only ever grows, and for which it never shows a marker
 either.
 */
module StreamFilter {
  import opened Strings
  import opened MarkerLoop
  import opened Markers

  /** The rest of s from i on is a nonempty beginning of m, but not all of it. */
  predicate Begins(m: string, s: string, i: int) {
    0 <= i < |s| && |s| - i < |m| && m[..|s| - i] == s[i..]
  }

  predicate Held(M: seq<string>, s: string, i: int) {
    exists k :: 0 <= k < |M| && Begins(M[k], s, i)
  }

  /** The least offset at or after i from which s is held back; |s| when nothing is. */
  function FirstHeld(M: seq<string>, s: string, i: nat): (r: nat)
    requires i <= |s|
    ensures i <= r <= |s| && (r < |s| ==> Held(M, s, r))
    ensures forall j :: i <= j < r ==> !Held(M, s, j)
    decreases |s| - i
  {
    if i == |s| || Held(M, s, i) then i else FirstHeld(M, s, i + 1)
  }

  function Released(M: seq<string>, s: string): (r: string)
    ensures r <= s
  {
    s[..FirstHeld(M, s, 0)]
  }

  function Visible(M: seq<string>, s: string): string
    requires Code(M)
  {
    DeleteEach(M, Released(M, s))
  }

  /** Finds the longest tail that may still become a marker, then deletes marker by marker. */
  method VisiblePrefix(M: seq<string>, text: string) returns (visible: string)
    requires Code(M)
    ensures visible == Visible(M, text)
  {
    var limit := |text|;
    for k := 0 to |M|
      invariant limit <= |text| && (limit < |text| ==> Held(M, text, limit))
      invariant forall n, i :: 0 <= n < k && Begins(M[n], text, i) ==> limit <= i
    {
      var marker := M[k];
      for length := 1 to |marker|
        invariant limit <= |text| && (limit < |text| ==> Held(M, text, limit))
        invariant forall n, i :: 0 <= n < k && Begins(M[n], text, i) ==> limit <= i
        invariant forall i :: |text| - i < length && Begins(marker, text, i) ==> limit <= i
      {
        if length <= |text| && text[|text| - length..] == marker[..length] {
          assert Begins(marker, text, |text| - length);
          limit := if |text| - length < limit then |text| - length else limit;
        }
      }
    }
    assert forall i :: 0 <= i < limit ==> !Held(M, text, i);
    visible := text[..limit];
    assert visible == Released(M, text);
    for k := 0 to |M|
      invariant DeleteEach(M[k..], visible) == Visible(M, text)
    {
      visible := Without(visible, M[k]);
    }
  }

  // ---------- Deleting markers across a cut that splits none ----------

  ghost predicate NoStraddle(M: seq<string>, a: string, b: string) {
    forall m, i :: m in M && At(a + b, i, m) ==> !(i < |a| < i + |m|)
  }

  lemma NoStraddleTail(M: seq<string>, a: string, b: string, k: nat)
    requires NoStraddle(M, a, b) && k <= |a|
    ensures NoStraddle(M, a[k..], b)
  {
    forall m, i | m in M && At(a[k..] + b, i, m) ensures !(i < |a[k..]| < i + |m|) {
      assert (a + b)[k..] == a[k..] + b;
      assert At(a + b, k + i, m);
    }
  }

  lemma OpensWithin(M: seq<string>, a: string, b: string)
    requires Code(M) && NoStraddle(M, a, b) && a != ""
    ensures FirstToken(M, a + b) == FirstToken(M, a)
  {
    var m, n := Opening(M, a + b), Opening(M, a);
    if n != "" {
      var rest := a[|n|..] + b;
      assert a + b == n + rest;
      OpeningUnique(M, n, rest);
    } else if m != "" {
      OpensInside(M, a, b, m);
    }
  }

  lemma OpensInside(M: seq<string>, a: string, b: string, m: string)
    requires NoStraddle(M, a, b) && a != "" && m in M && m <= a + b
    ensures m <= a
  {
    assert At(a + b, 0, m);
    assert (a + b)[..|m|] == a[..|m|];
  }

  lemma {:induction false} TokensSplit(M: seq<string>, a: string, b: string)
    requires Code(M) && NoStraddle(M, a, b)
    ensures Tokens(M, a + b) == Tokens(M, a) + Tokens(M, b)
    decreases |a|
  {
    if a == "" {
      assert a + b == b;
    } else {
      var t := FirstToken(M, a);
      var k := |Spell(t)|;
      OpensWithin(M, a, b);
      hide Code, FirstToken, Spell, NoStraddle;
      NoStraddleTail(M, a, b, k);
      TokensSplit(M, a[k..], b);
      DropConcat(a, b, k);
      Assoc([t], Tokens(M, a[k..]), Tokens(M, b));
    }
  }

  lemma DeleteSplits(M: seq<string>, a: string, b: string)
    requires Code(M) && NoStraddle(M, a, b)
    ensures DeleteOnce(M, a + b) == DeleteOnce(M, a) + DeleteOnce(M, b)
  {
    hide *;
    TokensSplit(M, a, b);
    FlatConcat(Tokens(M, a), Tokens(M, b));
    TokensSpellTheText(M, a);
    TokensSpellTheText(M, b);
    TokensSpellTheText(M, a + b);
  }

  /** No marker, now or after more text arrives, crosses the point where text is held back. */
  lemma HoldSplitsNothing(M: seq<string>, p: string, q: string)
    requires Code(M)
    ensures NoStraddle(M, Released(M, p), p[|Released(M, p)|..] + q)
  {
    var l := |Released(M, p)|;
    var s := p + q;
    assert Released(M, p) + (p[l..] + q) == s;
    forall m, i | m in M && At(s, i, m) ensures !(i < l < i + |m|) {
      if i < l < i + |m| {
        if |p| < i + |m| {
          CutMarkerBegins(m, p, q, i);
          var k :| 0 <= k < |M| && M[k] == m;
          assert Held(M, p, i);
        } else {
          HeldIsBracket(M, p, l);
          assert s[l] == '[' && s[l + 1] == p[l + 1];
          BracketAtStart(s, i, m, l);
          BracketAtStart(s, i, m, l + 1);
        }
      }
    }
  }

  lemma CutMarkerBegins(m: string, p: string, q: string, i: int)
    requires At(p + q, i, m) && i < |p| < i + |m|
    ensures Begins(m, p, i)
  {
  }

  lemma HeldIsBracket(M: seq<string>, p: string, l: int)
    requires Code(M) && Held(M, p, l)
    ensures p[l] == '[' && (l + 1 < |p| ==> p[l + 1] == '[')
  {
  }

  lemma ReleasedGrows(M: seq<string>, p: string, q: string)
    ensures Released(M, p) <= Released(M, p + q)
  {
    var l, l2 := |Released(M, p)|, |Released(M, p + q)|;
    if l2 < |p| {
      var k :| 0 <= k < |M| && Begins(M[k], p + q, l2);
      assert p[l2..] == (p + q)[l2..][..|p| - l2];
      assert Begins(M[k], p, l2);
      assert Held(M, p, l2);
    }
    assert (p + q)[..l] == p[..l];
  }

  // ---------- The visible text of a well-behaved reply ----------

  lemma CutKeepsFree(M: seq<string>, r: string, rest: string)
    requires Code(M) && NoStraddle(M, r, rest) && MarkerFree(M, DeleteOnce(M, r + rest))
    ensures DeleteEach(M, r) == DeleteOnce(M, r) && MarkerFree(M, DeleteOnce(M, r))
    ensures DeleteOnce(M, r + rest) == DeleteOnce(M, r) + DeleteOnce(M, rest)
  {
    DeleteSplits(M, r, rest);
    MarkerFreeParts(M, DeleteOnce(M, r), DeleteOnce(M, rest));
    DeleteEachIsOnePass(M, r);
  }

  lemma VisibleIn(M: seq<string>, p: string, q: string)
    requires Code(M) && MarkerFree(M, DeleteOnce(M, p + q))
    ensures Visible(M, p) == DeleteOnce(M, Released(M, p))
    ensures Visible(M, p) <= DeleteOnce(M, p + q) && MarkerFree(M, Visible(M, p))
  {
    hide DeleteOnce, DeleteEach, Code, MarkerFree, NoStraddle, Released;
    var r := Released(M, p);
    var rest := p[|r|..] + q;
    HoldSplitsNothing(M, p, q);
    assert r + rest == p + q;
    CutKeepsFree(M, r, rest);
  }

  lemma NoStraddleShorter(M: seq<string>, a: string, b: string, b2: string)
    requires NoStraddle(M, a, b) && b2 <= b
    ensures NoStraddle(M, a, b2)
  {
    forall m, i | m in M && At(a + b2, i, m) ensures !(i < |a| < i + |m|) {
      assert a + b == (a + b2) + b[|b2|..];
      assert At(a + b, i, m);
    }
  }

  /** More text only lengthens what is visible. */
  lemma VisibleGrows(M: seq<string>, p: string, q: string, rest: string)
    requires Code(M) && MarkerFree(M, DeleteOnce(M, (p + q) + rest))
    ensures Visible(M, p) <= Visible(M, p + q)
  {
    hide DeleteOnce, Code, NoStraddle, MarkerFree, Released, Visible;
    var r, r2 := Released(M, p), Released(M, p + q);
    assert (p + q) + rest == p + (q + rest);
    VisibleIn(M, p, q + rest);
    VisibleIn(M, p + q, rest);
    ReleasedGrows(M, p, q);
    var tail := p[|r|..] + q;
    var mid := r2[|r|..];
    assert r + tail == p + q && r + mid == r2 && mid <= tail;
    HoldSplitsNothing(M, p, q);
    NoStraddleShorter(M, r, tail, mid);
    DeleteSplits(M, r, mid);
  }

  /** A proper part of a marker contains no whole marker, so one pass leaves it alone. */
  lemma {:induction false} HeldTailStands(M: seq<string>, m: string, k: nat, j: nat)
    requires Code(M) && m in M && j <= k <= |m| && (k < |m| || 0 < j)
    ensures DeleteOnce(M, m[..k][j..]) == m[..k][j..]
    decreases k - j
  {
    var s := m[..k][j..];
    hide Code, FirstToken;
    if j == k {
      assert s == "";
    } else {
      NothingOpensInside(M, m, k, j);
      PlainFirst(M, s);
      assert s[1..] == m[..k][j + 1..];
      HeldTailStands(M, m, k, j + 1);
      assert s == [s[0]] + s[1..];
    }
  }

  lemma NothingOpensInside(M: seq<string>, m: string, k: nat, j: nat)
    requires Code(M) && m in M && j < k <= |m| && (k < |m| || 0 < j)
    ensures Opening(M, m[..k][j..]) == ""
  {
    var n := Opening(M, m[..k][j..]);
    hide Code, Opening;
    if n != "" { MarkerInside(M, m, k, j, n); }
  }

  lemma PlainFirst(M: seq<string>, s: string)
    requires Code(M) && s != "" && Opening(M, s) == ""
    ensures DeleteOnce(M, s) == [s[0]] + DeleteOnce(M, s[1..])
  {
    hide Opening, Code;
  }

  lemma MarkerInside(M: seq<string>, m: string, k: nat, j: nat, n: string)
    requires Code(M) && m in M && n in M && j <= k <= |m| && n <= m[..k][j..]
    ensures j == 0 && k == |m|
  {
  }

  /** One pass leaves the held tail untouched. */
  lemma OnePassKeepsTheTail(M: seq<string>, s: string)
    requires Code(M)
    ensures DeleteOnce(M, s) == DeleteOnce(M, Released(M, s)) + s[|Released(M, s)|..]
  {
    hide *;
    var r := Released(M, s);
    var tail := s[|r|..];
    assert tail + "" == tail && r + tail == s;
    HoldSplitsNothing(M, s, "");
    DeleteSplits(M, r, tail);
    HeldStands(M, s);
  }

  /** One pass over the whole text is the visible text followed by the held tail, untouched. */
  lemma OnePassIsVisiblePlusHeld(M: seq<string>, s: string)
    requires Code(M) && MarkerFree(M, DeleteOnce(M, s))
    ensures Visible(M, s) == DeleteOnce(M, Released(M, s))
    ensures DeleteOnce(M, s) == Visible(M, s) + s[|Released(M, s)|..]
    ensures MarkerFree(M, Visible(M, s))
  {
    hide *;
    assert s + "" == s;
    VisibleIn(M, s, "");
    OnePassKeepsTheTail(M, s);
  }

  lemma HeldStands(M: seq<string>, s: string)
    requires Code(M)
    ensures DeleteOnce(M, s[|Released(M, s)|..]) == s[|Released(M, s)|..]
  {
    var l := |Released(M, s)|;
    if l < |s| {
      var k :| 0 <= k < |M| && Begins(M[k], s, l);
      HeldTailStands(M, M[k], |s| - l, 0);
      assert M[k][..|s| - l][0..] == s[l..];
    }
  }

  // ---------- Exactly which replies only lengthen ----------

  /** Every visible text extends every earlier one. */
  ghost predicate OnlyLengthens(M: seq<string>, t: string)
    requires Code(M)
  {
    forall i, j :: 0 <= i <= j <= |t| ==> Visible(M, t[..i]) <= Visible(M, t[..j])
  }

  /** Deleting marker kind by marker kind deletes what one pass deletes. */
  ghost predicate Agrees(M: seq<string>, s: string)
    requires Code(M)
  {
    DeleteEach(M, s) == DeleteOnce(M, s)
  }

  lemma AgreesBefore(M: seq<string>, a: string, b: string)
    requires Code(M) && NoStraddle(M, a, b) && Agrees(M, a + b)
    ensures Agrees(M, a)
  {
    hide *;
    TokensSplit(M, a, b);
    AgreesExactly(M, a);
    AgreesExactly(M, a + b);
    CleanLoopPrefix(M, Tokens(M, a), Tokens(M, b));
  }

  lemma AgreesExactly(M: seq<string>, s: string)
    requires Code(M)
    ensures Agrees(M, s) <==> CleanLoop(M, Tokens(M, s))
  {
    hide CleanLoop, DeleteEach, DeleteOnce, Tokens;
    AgreeExactly(M, s);
  }

  /** While loop and single pass agree, what is visible is the single pass over what is released. */
  lemma AgreedVisible(M: seq<string>, p: string, q: string)
    requires Code(M) && Agrees(M, p + q)
    ensures Visible(M, p) == DeleteOnce(M, Released(M, p))
  {
    hide NoStraddle, DeleteEach, DeleteOnce, Released, Code;
    var r := Released(M, p);
    var rest := p[|r|..] + q;
    HoldSplitsNothing(M, p, q);
    assert r + rest == p + q;
    AgreesBefore(M, r, rest);
  }

  lemma AgreedGrows(M: seq<string>, p: string, q: string, rest: string)
    requires Code(M) && Agrees(M, (p + q) + rest)
    ensures Visible(M, p) <= Visible(M, p + q)
  {
    hide DeleteOnce, Code, NoStraddle, Agrees, Released, Visible;
    var r, r2 := Released(M, p), Released(M, p + q);
    assert (p + q) + rest == p + (q + rest);
    AgreedVisible(M, p, q + rest);
    AgreedVisible(M, p + q, rest);
    ReleasedGrows(M, p, q);
    var tail := p[|r|..] + q;
    var mid := r2[|r|..];
    assert r + tail == p + q && r + mid == r2 && mid <= tail;
    HoldSplitsNothing(M, p, q);
    NoStraddleShorter(M, r, tail, mid);
    DeleteSplits(M, r, mid);
  }

  lemma NoStraddleMarker(M: seq<string>, a: string, m: string)
    requires Code(M) && m in M
    ensures NoStraddle(M, a, m)
  {
    assert At(a + m, |a|, m);
    forall n, i | n in M && At(a + m, i, n) ensures !(i < |a| < i + |n|) {
      if i <= |a| < i + |n| { NoOverlap(M, a + m, i, n, |a|, m); }
    }
  }

  lemma EndsPlainly(M: seq<string>, a: string, c: char)
    requires Code(M) && (forall m :: m in M ==> !EndsWith(a + [c], m))
    ensures DeleteOnce(M, a + [c]) == DeleteOnce(M, a) + [c]
  {
    hide *;
    NoStraddleLast(M, a, [c]);
    DeleteSplits(M, a, [c]);
    SingleStands(M, [c]);
  }

  lemma NoStraddleLast(M: seq<string>, a: string, c: string)
    requires |c| == 1 && (forall m :: m in M ==> !EndsWith(a + c, m))
    ensures NoStraddle(M, a, c)
  {
  }

  lemma SingleStands(M: seq<string>, c: string)
    requires Code(M) && |c| == 1
    ensures DeleteOnce(M, c) == c
  {
    assert Opening(M, c) != "" ==> Shaped(Opening(M, c));
    PlainFirst(M, c);
    assert c[1..] == "" && [c[0]] + "" == c;
  }

  /** The shortest beginning of t where loop and single pass differ. */
  lemma {:induction false} FirstDiffers(M: seq<string>, t: string) returns (p: string)
    requires Code(M) && !Agrees(M, t)
    ensures p <= t && p != "" && !Agrees(M, p)
    ensures forall a :: a <= p && a != p ==> Agrees(M, a)
    decreases |t|
  {
    if a :| a <= t && a != t && !Agrees(M, a) {
      p := FirstDiffers(M, a);
    } else {
      p := t;
      if t == "" { EmptyAgrees(M); }
    }
  }

  lemma EmptyAgrees(M: seq<string>)
    requires Code(M)
    ensures Agrees(M, "")
  {
    forall m, i | m in M ensures !At("", i, m) {
      assert Shaped(m);
    }
    DeleteEachIsOnePass(M, "");
  }

  // A marker completed by the token that ends the text is none the loop could have met before.
  lemma NoMarkerAtTheEnd(M: seq<string>, p: string)
    requires Code(M) && !Agrees(M, p) && forall a :: a <= p && a != p ==> Agrees(M, a)
    ensures forall m :: m in M ==> !EndsWith(p, m)
  {
    hide Code, Agrees;
    forall m | m in M ensures !EndsWith(p, m) {
      if EndsWith(p, m) {
        var a := BeforeTheEnd(M, p, m);
        AgreesWithMarker(M, a, m);
      }
    }
  }

  lemma BeforeTheEnd(M: seq<string>, p: string, m: string) returns (a: string)
    requires Code(M) && m in M && EndsWith(p, m)
    ensures p == a + m && a <= p && a != p
  {
    assert Shaped(m);
    a := p[..|p| - |m|];
  }

  lemma AgreesWithMarker(M: seq<string>, a: string, m: string)
    requires Code(M) && m in M && Agrees(M, a)
    ensures Agrees(M, a + m)
  {
    hide *;
    NoStraddleMarker(M, a, m);
    TokensSplit(M, a, m);
    MarkerIsAToken(M, m);
    AgreesExactly(M, a);
    AgreesExactly(M, a + m);
    AllKnown(M, Tokens(M, a));
    CleanLoopBeforeMarker(M, M, Tokens(M, a), m);
  }

  lemma MarkerIsAToken(M: seq<string>, m: string)
    requires Code(M) && m in M
    ensures Tokens(M, m) == [Mk(m)]
  {
    OpeningUnique(M, m, "");
    assert m + "" == m && Shaped(m);
  }

  lemma AllKnown(M: seq<string>, ts: seq<Token>)
    ensures forall k :: 0 <= k < |M| ==> M[k] in M
  {
  }

  lemma CharIsAToken(M: seq<string>, c: char)
    requires Code(M)
    ensures Tokens(M, [c]) == [Ch(c)]
  {
    var m := Opening(M, [c]);
    assert m != "" ==> Shaped(m);
    assert [c][1..] == "";
  }

  /** The marker the loop then deletes is completed by the last character of the single pass. */
  lemma CompletedAcross(M: seq<string>, p1: string, c: char) returns (n: string)
    requires Code(M) && Agrees(M, p1) && !Agrees(M, p1 + [c]) && NoStraddle(M, p1, [c])
    ensures n in M && EndsWith(DeleteOnce(M, p1) + [c], n)
    ensures |DeleteEach(M, p1 + [c])| + |n| <= |DeleteOnce(M, p1 + [c])|
  {
    hide CleanLoop, DeleteEach, DeleteOnce, Tokens, NoStraddle, Code, Agrees, FirstUnclean;
    TokensSplit(M, p1, [c]);
    CharIsAToken(M, c);
    AgreesExactly(M, p1);
    AgreesExactly(M, p1 + [c]);
    AgreeExactly(M, p1 + [c]);
    AllKnown(M, Tokens(M, p1));
    TokensSpellTheText(M, p1);
    UncleanLoopAtTheEnd(M, M, Tokens(M, p1), c);
    n := FirstUnclean(M, Tokens(M, p1 + [c]));
  }

  /** The step at which the loop first deletes more than the single pass: a marker was completed
      across removed markers, the loop takes it away, and part of it had been shown. */
  lemma DifferingStepShrinks(M: seq<string>, p: string)
    requires Code(M) && p != "" && !Agrees(M, p) && forall a :: a <= p && a != p ==> Agrees(M, a)
    ensures !(Visible(M, p[..|p| - 1]) <= Visible(M, p))
  {
    hide DeleteEach, DeleteOnce, Released, Code, Agrees, NoStraddle;
    var p1, c := p[..|p| - 1], p[|p| - 1];
    assert p == p1 + [c] && p1 + "" == p1;
    NoMarkerAtTheEnd(M, p);
    NoStraddleLast(M, p1, [c]);
    EndsPlainly(M, p1, c);
    var n := CompletedAcross(M, p1, c);
    var d := DeleteOnce(M, p1) + [c];
    var u := d[..|d| - |n|];
    assert u + n == d;
    NothingHeld(M, p, u, n);
    AgreedVisible(M, p1, "");
    OnePassKeepsTheTail(M, p1);
    HeldIsShort(M, p, n, u);
  }

  /** The visible text only ever grows iff deleting marker kind by marker kind deletes what one pass
      deletes. */
  lemma OnlyLengthensExactly(M: seq<string>, t: string)
    requires Code(M)
    ensures OnlyLengthens(M, t) <==> DeleteEach(M, t) == DeleteOnce(M, t)
  {
    hide DeleteEach, DeleteOnce, Visible, Code;
    if Agrees(M, t) {
      forall i, j | 0 <= i <= j <= |t| ensures Visible(M, t[..i]) <= Visible(M, t[..j]) {
        TakeDrop(t, j);
        TakeDrop(t[..j], i);
        assert t[..j][..i] == t[..i];
        AgreedGrows(M, t[..i], t[..j][i..], t[j..]);
      }
    } else {
      var p := FirstDiffers(M, t);
      assert t[..|p|] == p && t[..|p| - 1] == p[..|p| - 1];
      DifferingStepShrinks(M, p);
    }
  }

  lemma HeldIsShort(M: seq<string>, p: string, n: string, u: string)
    requires Code(M) && n in M && n != "" && p != "" && !EndsWith(p, n)
    requires DeleteOnce(M, p[..|p| - 1]) + [p[|p| - 1]] == u + n
    requires var p1 := p[..|p| - 1];
             DeleteOnce(M, p1) == Visible(M, p1) + p1[|Released(M, p1)|..]
    ensures |u| < |Visible(M, p[..|p| - 1])|
  {
    hide *;
    var p1, c := p[..|p| - 1], p[|p| - 1];
    var d1 := DeleteOnce(M, p1);
    var v, h := Visible(M, p1), p1[|Released(M, p1)|..];
    assert |d1| + 1 == |u| + |n| by { assert |d1 + [c]| == |u + n|; }
    if |h| >= |n| - 1 {
      assert h == p1[|p1| - |h|..];
      assert p == p1 + [c];
      TailCompletes(p1, c, v, h, u, n);
    }
  }

  lemma TailCompletes(p1: string, c: char, v: string, h: string, u: string, n: string)
    requires n != "" && (v + h) + [c] == u + n && |h| >= |n| - 1
    requires |h| <= |p1| && h == p1[|p1| - |h|..]
    ensures EndsWith(p1 + [c], n)
  {
    var s := (v + h) + [c];
    assert |s| == |v| + |h| + 1 == |u| + |n|;
    forall k | 0 <= k < |n| ensures n[k] == (p1 + [c])[|p1| + 1 - |n| + k] {
      assert n[k] == s[|u| + k];
      if k < |n| - 1 { assert s[|u| + k] == h[|u| + k - |v|]; }
    }
    assert (p1 + [c])[|p1| + 1 - |n|..] == n;
  }

  lemma NothingHeld(M: seq<string>, p: string, u: string, n: string)
    requires Code(M) && p != "" && n in M
    requires DeleteOnce(M, p) == DeleteOnce(M, p[..|p| - 1]) + [p[|p| - 1]] == u + n
    ensures Released(M, p) == p
  {
    hide DeleteOnce, Released;
    var p1, c := p[..|p| - 1], p[|p| - 1];
    var d1 := DeleteOnce(M, p1);
    var l := |Released(M, p)|;
    assert Shaped(n);
    EndsTwice(d1, c, u, n);
    if l < |p| {
      HeldToTheEnd(M, p, l);
      OnePassKeepsTheTail(M, p1);
    }
  }

  lemma EndsTwice(d1: string, c: char, u: string, n: string)
    requires Shaped(n) && d1 + [c] == u + n
    ensures d1 != "" && d1[|d1| - 1] == ']' && c == ']'
  {
    var s := d1 + [c];
    assert |s| == |u| + |n|;
    assert d1[|d1| - 1] == s[|s| - 2] == n[|n| - 2];
    assert c == s[|s| - 1] == n[|n| - 1];
  }

  lemma HeldToTheEnd(M: seq<string>, p: string, l: nat)
    requires Code(M) && p != "" && p[|p| - 1] == ']' && l == |Released(M, p)| < |p|
    ensures |p| >= 2 && p[|p| - 2] != ']' && |Released(M, p[..|p| - 1])| < |p| - 1
  {
    var k :| 0 <= k < |M| && Begins(M[k], p, l);
    HeldBeforeClose(M[k], p, l);
    assert Held(M, p[..|p| - 1], l);
  }

  lemma HeldBeforeClose(m: string, p: string, l: int)
    requires Shaped(m) && Begins(m, p, l) && p[|p| - 1] == ']'
    ensures |p| >= 2 && Begins(m, p[..|p| - 1], l) && p[|p| - 2] != ']'
  {
    var n := |p| - l;
    var s := p[l..];
    assert s == m[..n] && s[n - 1] == p[|p| - 1];
    assert m[n - 1] == ']' && n - 1 == |m| - 2;
    assert s[n - 2] == p[|p| - 2] == m[n - 2];
    assert p[..|p| - 1][l..] == s[..n - 1] == m[..n - 1];
  }

  // ---------- Exactly which replies stream safely ----------

  /** Every visible text is free of markers and extends every earlier one. */
  ghost predicate StreamsSafely(M: seq<string>, t: string)
    requires Code(M)
  {
    forall i, j :: 0 <= i <= j <= |t| ==>
      Visible(M, t[..i]) <= Visible(M, t[..j]) && MarkerFree(M, Visible(M, t[..j]))
  }

  lemma FreeStreamsSafely(M: seq<string>, t: string)
    requires Code(M) && MarkerFree(M, DeleteOnce(M, t))
    ensures StreamsSafely(M, t)
  {
    hide Visible, DeleteOnce, MarkerFree, Code;
    forall i, j | 0 <= i <= j <= |t|
      ensures Visible(M, t[..i]) <= Visible(M, t[..j]) && MarkerFree(M, Visible(M, t[..j]))
    {
      FreeIsSafe(M, t, i, j);
    }
  }

  lemma FreeIsSafe(M: seq<string>, t: string, i: nat, j: nat)
    requires Code(M) && MarkerFree(M, DeleteOnce(M, t)) && i <= j <= |t|
    ensures Visible(M, t[..i]) <= Visible(M, t[..j]) && MarkerFree(M, Visible(M, t[..j]))
  {
    hide *;
    TakeDrop(t, j);
    TakeDrop(t[..j], i);
    assert t[..j][..i] == t[..i];
    VisibleGrows(M, t[..i], t[..j][i..], t[j..]);
    VisibleIn(M, t[..j], t[j..]);
  }

  lemma SafeLeavesNone(M: seq<string>, t: string)
    requires Code(M) && StreamsSafely(M, t)
    ensures MarkerFree(M, DeleteOnce(M, t))
  {
    hide DeleteOnce, DeleteEach, Visible, MarkerFree, Code;
    assert t[..|t|] == t && t + "" == t;
    OnlyLengthensExactly(M, t);
    AgreedVisible(M, t, "");
    OnePassKeepsTheTail(M, t);
    TailCompletesNothing(M, t, Visible(M, t));
  }

  // A held tail lacks the end of a marker, so no marker reaches into it.
  lemma TailCompletesNothing(M: seq<string>, s: string, v: string)
    requires Code(M) && MarkerFree(M, v)
    ensures MarkerFree(M, v + s[|Released(M, s)|..])
  {
    var l := |Released(M, s)|;
    var h := s[l..];
    if h == "" {
      assert v + h == v;
    } else {
      var k :| 0 <= k < |M| && Begins(M[k], s, l);
      assert h == M[k][..|h|];
      forall m, i | m in M ensures !At(v + h, i, m) {
        if At(v + h, i, m) {
          ReachesTail(M, v, h, M[k], m, i);
        }
      }
    }
  }

  lemma ReachesTail(M: seq<string>, v: string, h: string, n: string, m: string, i: int)
    requires Code(M) && m in M && n in M && At(v + h, i, m) && h != "" && |h| < |n| && h == n[..|h|]
    ensures At(v, i, m)
  {
  }

  /** The visible text grows and stays marker-free iff one deletion pass leaves no marker behind. */
  lemma StreamsSafelyExactly(M: seq<string>, t: string)
    requires Code(M)
    ensures StreamsSafely(M, t) <==> MarkerFree(M, DeleteOnce(M, t))
  {
    hide *;
    if MarkerFree(M, DeleteOnce(M, t)) {
      FreeStreamsSafely(M, t);
    }
    if StreamsSafely(M, t) {
      SafeLeavesNone(M, t);
    }
  }

  lemma NoStraddleBeforeMarker(M: seq<string>, a: string, m: string, b: string)
    requires Code(M) && m in M
    ensures NoStraddle(M, a, m + b)
  {
    assert (a + (m + b))[|a|..|a| + |m|] == m;
    assert At(a + (m + b), |a|, m);
    forall n, i | n in M && At(a + (m + b), i, n) ensures !(i < |a| < i + |n|) {
      if i <= |a| < i + |n| { NoOverlap(M, a + (m + b), i, n, |a|, m); }
    }
  }
}
