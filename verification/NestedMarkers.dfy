/**
 A marker written inside another one: what the single pass leaves is the outer marker, and whether
 the visible text shrinks depends on the order in which the loop deletes the two.
 */
module NestedMarkers {
  import opened Strings
  import opened MarkerLoop
  import opened Markers
  import opened StreamFilter

  /** Some deletion of the inner marker comes before one of the outer. */
  ghost predicate Follows(K: seq<string>, inner: string, outer: string) {
    exists x, y :: 0 <= x < y < |K| && K[x] == inner && K[y] == outer
  }

  function PlainTokens(s: string): (ts: seq<Token>)
    ensures |ts| == |s| && forall i :: 0 <= i < |ts| ==> ts[i] == Ch(s[i])
  {
    seq(|s|, i requires 0 <= i < |s| => Ch(s[i]))
  }

  lemma {:induction false} PlainTokensSpell(s: string)
    ensures Flat(PlainTokens(s)) == s && Chars(PlainTokens(s)) == s
  {
    if s == "" {
    } else {
      assert PlainTokens(s)[1..] == PlainTokens(s[1..]);
      PlainTokensSpell(s[1..]);
      assert [s[0]] + s[1..] == s;
    }
  }

  lemma {:induction false} PlainTokensStay(s: string, m: string)
    ensures Drop(PlainTokens(s), m) == PlainTokens(s)
  {
    if s == "" {
    } else {
      assert PlainTokens(s)[1..] == PlainTokens(s[1..]);
      PlainTokensStay(s[1..], m);
      assert [Ch(s[0])] + PlainTokens(s[1..]) == PlainTokens(s);
    }
  }

  lemma PlainCleanStep(s: string, m: string)
    requires s != ""
    ensures Clean(PlainTokens(s), m) <==> !(m <= s) && Clean(PlainTokens(s[1..]), m)
  {
    hide Flat;
    PlainTokensSpell(s);
    assert PlainTokens(s)[1..] == PlainTokens(s[1..]);
  }

  lemma PartOpensWith(M: seq<string>, outer: string, k: nat, j: nat, m: string)
    requires Code(M) && outer in M && m in M && j <= k <= |outer|
    ensures m <= outer[..k][j..] <==> j == 0 && k == |outer| && m == outer
  {
    var s := outer[..k][j..];
    if m <= s {
      PartHoldsNone(M, outer, k, j, m);
      assert s == outer && At(s, 0, m) && At(s, 0, outer);
      NoOverlap(M, s, 0, m, 0, outer);
    }
  }

  /** A part of a marker is clean of every marker but the whole of itself. */
  lemma {:induction false} PartIsClean(M: seq<string>, outer: string, k: nat, j: nat, m: string)
    requires Code(M) && outer in M && m in M && j <= k <= |outer|
    ensures Clean(PlainTokens(outer[..k][j..]), m) <==> !(j == 0 && k == |outer| && m == outer)
    decreases k - j
  {
    var s := outer[..k][j..];
    if j == k {
      assert s == "" && Shaped(outer);
    } else {
      hide Code, Clean, PlainTokens;
      assert s[1..] == outer[..k][j + 1..];
      PlainCleanStep(s, m);
      PartOpensWith(M, outer, k, j, m);
      PartIsClean(M, outer, k, j + 1, m);
    }
  }

  lemma PartIsPlain(M: seq<string>, outer: string, k: nat, j: nat)
    requires Code(M) && outer in M && j <= k <= |outer| && !(j == 0 && k == |outer|)
    ensures Tokens(M, outer[..k][j..]) == PlainTokens(outer[..k][j..])
  {
    var s := outer[..k][j..];
    forall m, i | m in M ensures !At(s, i, m) {
      if At(s, i, m) {
        assert outer[..k][j + i..][..|m|] == s[i..i + |m|];
        PartHoldsNone(M, outer, k, j + i, m);
      }
    }
    PlainTokensSpell(s);
    Canonical(M, PlainTokens(s));
  }

  lemma PartHoldsNone(M: seq<string>, outer: string, k: nat, j: nat, m: string)
    requires Code(M) && outer in M && m in M && j <= k <= |outer| && m <= outer[..k][j..]
    ensures j == 0 && k == |outer|
  {
    MarkerInside(M, outer, k, j, m);
  }

  function NestedTokens(inner: string, outer: string, k: nat, j: nat): seq<Token>
    requires j <= k <= |outer|
  {
    PlainTokens(outer[..k][j..]) + ([Mk(inner)] + PlainTokens(outer[k..]))
  }

  lemma NestedTokenises(M: seq<string>, inner: string, outer: string, k: nat)
    requires Code(M) && inner in M && outer in M && 1 <= k < |outer|
    ensures Tokens(M, outer[..k] + (inner + outer[k..])) == NestedTokens(inner, outer, k, 0)
  {
    hide Code, NoStraddle, Tokens, PlainTokens;
    var a, b := outer[..k], outer[k..];
    NoStraddleBeforeMarker(M, a, inner, b);
    TokensSplit(M, a, inner + b);
    PartIsPlain(M, outer, k, 0);
    PartIsPlain(M, outer, |outer|, k);
    assert outer[..k][0..] == a && outer[..|outer|][k..] == b;
    MarkerFirst(M, inner, b);
  }

  lemma MarkerFirst(M: seq<string>, m: string, rest: string)
    requires Code(M) && m in M
    ensures Tokens(M, m + rest) == [Mk(m)] + Tokens(M, rest)
    ensures DeleteOnce(M, m + rest) == DeleteOnce(M, rest)
  {
    OpeningUnique(M, m, rest);
    assert m + rest != "" by { assert Shaped(m); }
    assert (m + rest)[|m|..] == rest;
    hide Opening, Code;
  }

  lemma NestedSpell(inner: string, outer: string, k: nat, j: nat)
    requires j <= k <= |outer|
    ensures Flat(NestedTokens(inner, outer, k, j)) == outer[..k][j..] + (inner + outer[k..])
  {
    hide Flat, Chars;
    var s, b := outer[..k][j..], outer[k..];
    FlatConcat(PlainTokens(s), [Mk(inner)] + PlainTokens(b));
    PlainTokensSpell(s);
    PlainTokensSpell(b);
    FlatCons(Mk(inner), PlainTokens(b));
  }

  lemma NestedTail(inner: string, outer: string, k: nat, j: nat)
    requires j < k <= |outer|
    ensures NestedTokens(inner, outer, k, j)[1..] == NestedTokens(inner, outer, k, j + 1)
    ensures NestedTokens(inner, outer, k, j)[0].Ch?
  {
    var s := outer[..k][j..];
    assert s[1..] == outer[..k][j + 1..] && PlainTokens(s)[1..] == PlainTokens(s[1..]);
    DropConcat(PlainTokens(s), [Mk(inner)] + PlainTokens(outer[k..]), 1);
  }

  lemma {:induction false} NestedIsClean(M: seq<string>, inner: string, outer: string, k: nat, j: nat, m: string)
    requires Code(M) && inner in M && outer in M && m in M && 1 <= k < |outer| && j <= k
    ensures Clean(NestedTokens(inner, outer, k, j), m)
    decreases k - j
  {
    var s, b := outer[..k][j..], outer[k..];
    hide Code, PlainTokens, Flat;
    if j == k {
      var after := [Mk(inner)] + PlainTokens(b);
      assert s == "" && PlainTokens(s) == [];
      assert NestedTokens(inner, outer, k, j) == after && after[1..] == PlainTokens(b);
      assert outer[..|outer|][k..] == b;
      PartIsClean(M, outer, |outer|, k, m);
    } else {
      hide NestedTokens;
      NestedIsClean(M, inner, outer, k, j + 1, m);
      NestedTail(inner, outer, k, j);
      NestedSpell(inner, outer, k, j);
      if m <= s + (inner + b) {
        WholeBeforeMarker(M, s, inner, b, m);
        PartHoldsNone(M, outer, k, j, m);
      }
    }
  }

  lemma WholeBeforeMarker(M: seq<string>, s: string, n: string, rest: string, m: string)
    requires Code(M) && m in M && n in M && s != "" && m <= s + (n + rest)
    ensures m <= s
  {
    var t := s + (n + rest);
    assert t[|s|..|s| + |n|] == n;
    assert At(t, 0, m) && At(t, |s|, n);
    if |s| < |m| {
      NoOverlap(M, t, 0, m, |s|, n);
    } else {
      assert m == t[..|m|] == s[..|m|];
    }
  }

  lemma {:induction false} WholeLoop(M: seq<string>, K: seq<string>, outer: string)
    requires Code(M) && outer in M && forall k :: 0 <= k < |K| ==> K[k] in M
    ensures CleanLoop(K, PlainTokens(outer)) <==> outer !in K
  {
    if K == [] {
    } else {
      assert outer[..|outer|][0..] == outer;
      PartIsClean(M, outer, |outer|, 0, K[0]);
      PlainTokensStay(outer, K[0]);
      WholeLoop(M, K[1..], outer);
      assert outer in K <==> outer == K[0] || outer in K[1..];
    }
  }

  lemma DropOfNested(inner: string, outer: string, k: nat, m: string)
    requires k <= |outer|
    ensures Drop(NestedTokens(inner, outer, k, 0), m) ==
      if m == inner then PlainTokens(outer) else NestedTokens(inner, outer, k, 0)
  {
    hide Drop, PlainTokens;
    var a, b := outer[..k], outer[k..];
    assert outer[..k][0..] == a;
    DropOfConcat(PlainTokens(a), [Mk(inner)] + PlainTokens(b), m);
    DropOfConcat([Mk(inner)], PlainTokens(b), m);
    PlainTokensStay(a, m);
    PlainTokensStay(b, m);
    DropOfMarker(inner, m);
    PlainTokensJoin(outer, k);
    assert [] + PlainTokens(b) == PlainTokens(b);
  }

  lemma DropOfMarker(n: string, m: string)
    ensures Drop([Mk(n)], m) == if m == n then [] else [Mk(n)]
  {
    assert [Mk(n)][1..] == [];
  }

  lemma PlainTokensJoin(s: string, k: nat)
    requires k <= |s|
    ensures PlainTokens(s[..k]) + PlainTokens(s[k..]) == PlainTokens(s)
  {
  }

  lemma {:induction false} NestedLoop(M: seq<string>, K: seq<string>, inner: string, outer: string, k: nat)
    requires Code(M) && inner in M && outer in M && 1 <= k < |outer| && forall i :: 0 <= i < |K| ==> K[i] in M
    ensures CleanLoop(K, NestedTokens(inner, outer, k, 0)) <==> !Follows(K, inner, outer)
  {
    hide NestedTokens, Follows, Clean, Drop, Code, PlainTokens;
    if K == [] {
      NothingFollows(K, inner, outer);
    } else {
      NestedIsClean(M, inner, outer, k, 0, K[0]);
      DropOfNested(inner, outer, k, K[0]);
      FollowsTail(K, inner, outer);
      if K[0] == inner {
        WholeLoop(M, K[1..], outer);
      } else {
        NestedLoop(M, K[1..], inner, outer, k);
      }
    }
  }

  lemma NothingFollows(K: seq<string>, inner: string, outer: string)
    requires K == []
    ensures !Follows(K, inner, outer)
  {
  }

  lemma FollowsTail(K: seq<string>, inner: string, outer: string)
    requires K != []
    ensures K[0] == inner ==> (Follows(K, inner, outer) <==> outer in K[1..])
    ensures K[0] != inner ==> (Follows(K, inner, outer) <==> Follows(K[1..], inner, outer))
  {
    var R := K[1..];
    if Follows(K, inner, outer) {
      var x, y :| 0 <= x < y < |K| && K[x] == inner && K[y] == outer;
      assert R[y - 1] == outer;
      if x > 0 {
        assert R[x - 1] == inner;
      }
    }
    if K[0] == inner && outer in R {
      var y :| 0 <= y < |R| && R[y] == outer;
      assert K[y + 1] == outer;
    }
    if Follows(R, inner, outer) {
      var x, y :| 0 <= x < y < |R| && R[x] == inner && R[y] == outer;
      assert K[x + 1] == inner && K[y + 1] == outer;
    }
  }

  /** With a marker written inside another one, what is visible shrinks iff the loop still deletes the
      outer marker after an inner one; otherwise it grows to show the outer marker. */
  lemma NestedMarkerLengthensExactly(M: seq<string>, inner: string, outer: string, k: nat)
    requires Code(M) && inner in M && outer in M && 1 <= k < |outer|
    ensures OnlyLengthens(M, outer[..k] + (inner + outer[k..])) <==> !Follows(M, inner, outer)
  {
    hide *;
    var t := outer[..k] + (inner + outer[k..]);
    OnlyLengthensExactly(M, t);
    AgreeExactly(M, t);
    NestedTokenises(M, inner, outer, k);
    AllKnown(M, []);
    NestedLoop(M, M, inner, outer, k);
  }

  /** A marker written inside another one always spoils the stream: removing it completes the other,
      which was partly shown already. */
  lemma NestedMarkerSpoilsStream(M: seq<string>, inner: string, outer: string, k: nat)
    requires Code(M) && inner in M && outer in M && 1 <= k < |outer|
    ensures !StreamsSafely(M, outer[..k] + (inner + outer[k..]))
  {
    hide *;
    var a, b := outer[..k], outer[k..];
    NoStraddleBeforeMarker(M, a, inner, b);
    DeleteSplits(M, a, inner + b);
    MarkerFirst(M, inner, b);
    HeldTailStands(M, outer, k, 0);
    HeldTailStands(M, outer, |outer|, k);
    assert outer[..k][0..] == a && outer[..|outer|][k..] == b;
    TakeDrop(outer, k);
    MarkerIsNotFree(M, outer);
    StreamsSafelyExactly(M, a + (inner + b));
  }

  lemma MarkerIsNotFree(M: seq<string>, m: string)
    requires m in M
    ensures !MarkerFree(M, m)
  {
    assert At(m, 0, m);
  }
}
