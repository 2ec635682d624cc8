/**
 Deleting markers kind by kind against deleting them in one pass. The loop may also delete markers
 that earlier deletions have completed; it agrees with the single pass exactly when it never does.
 */
module MarkerLoop {
  import opened Strings
  import opened Markers

  /** The per-marker loop: remove the first marker everywhere, then the next, and so on. */
  function DeleteEach(K: seq<string>, s: string): string
    requires Code(K)
  {
    if K == [] then s else DeleteEach(K[1..], Without(s, K[0]))
  }

  /** No round of the loop meets a marker spelled by plain characters. */
  ghost predicate CleanLoop(K: seq<string>, ts: seq<Token>) {
    K == [] || (Clean(ts, K[0]) && CleanLoop(K[1..], Drop(ts, K[0])))
  }

  /** The marker of the first round that meets one. */
  ghost function FirstUnclean(K: seq<string>, ts: seq<Token>): (m: string)
    requires !CleanLoop(K, ts)
    ensures m in K
  {
    if !Clean(ts, K[0]) then K[0] else FirstUnclean(K[1..], Drop(ts, K[0]))
  }

  /** Every marker token is one the remaining rounds of the loop delete. */
  predicate Within(K: seq<string>, ts: seq<Token>) {
    forall t :: t in ts && t.Mk? ==> t.m in K
  }

  lemma PlainIsItself(ts: seq<Token>)
    requires Within([], ts)
    ensures Flat(ts) == Chars(ts)
  {
    forall i | 0 <= i < |ts| ensures ts[i].Ch? {
      assert ts[i] in ts;
    }
    AllPlain(ts);
  }

  lemma {:induction false} CleanLoopIsOnePass(M: seq<string>, K: seq<string>, ts: seq<Token>)
    requires Code(M) && Code(K) && (forall k :: 0 <= k < |K| ==> K[k] in M)
    requires Over(M, ts) && Within(K, ts) && CleanLoop(K, ts)
    ensures DeleteEach(K, Flat(ts)) == Chars(ts)
  {
    if K == [] {
      PlainIsItself(ts);
    } else {
      WithoutIsDrop(M, ts, K[0]);
      CleanLoopIsOnePass(M, K[1..], Drop(ts, K[0]));
    }
  }

  /** When one pass leaves no marker behind, the per-marker loop is that one pass. */
  lemma DeleteEachIsOnePass(M: seq<string>, s: string)
    requires Code(M) && MarkerFree(M, DeleteOnce(M, s))
    ensures DeleteEach(M, s) == DeleteOnce(M, s)
  {
    TokensSpellTheText(M, s);
    FreeLoopIsClean(M, M, Tokens(M, s));
    CleanLoopIsOnePass(M, M, Tokens(M, s));
  }

  lemma {:induction false} FreeLoopIsClean(M: seq<string>, K: seq<string>, ts: seq<Token>)
    requires Code(M) && Over(M, ts) && MarkerFree(M, Chars(ts)) && forall k :: 0 <= k < |K| ==> K[k] in M
    ensures CleanLoop(K, ts)
  {
    if K == [] {
    } else {
      FreeIsClean(M, ts, K[0]);
      FreeLoopIsClean(M, K[1..], Drop(ts, K[0]));
    }
  }

  // ---------- An unclean round loses characters ----------

  /** A marker entered through plain characters, taken off the list: what is left of it. */
  lemma {:induction false} RunEnds(M: seq<string>, s: string, ts: seq<Token>, m: string, k: nat)
    returns (us: seq<Token>)
    requires Code(M) && Over(M, ts) && m in M
    requires At(s, 0, m) && 1 <= k <= |m| && Flat(ts) == s[k..]
    ensures Flat(us) == s[|m|..] && |us| <= |ts| && |Chars(us)| + (|m| - k) == |Chars(ts)|
    ensures forall t :: t in us ==> t in ts
    decreases |m| - k
  {
    if k == |m| {
      us := ts;
    } else {
      var t, rest := ts[0], Flat(ts[1..]);
      assert t in ts;
      PeelAt(s, k, Spell(t), rest);
      if t.Mk? {
        NoOverlap(M, s, 0, m, k, t.m);
        us := [];
      } else {
        us := RunEnds(M, s, ts[1..], m, k + 1);
      }
    }
  }

  /** A round of the loop as a change of tokens; plain characters only ever go with a whole marker. */
  lemma {:induction false} RoundOnTokens(M: seq<string>, ts: seq<Token>, m: string) returns (us: seq<Token>)
    requires Code(M) && Over(M, ts) && m in M
    ensures Flat(us) == Without(Flat(ts), m)
    ensures forall t :: t in us ==> t in ts && t != Mk(m)
    ensures |Chars(us)| <= |Chars(ts)| && (!Clean(ts, m) ==> |Chars(us)| + |m| <= |Chars(ts)|)
    decreases |ts|
  {
    if ts == [] {
      us := [];
    } else {
      var rest := Flat(ts[1..]);
      assert ts[0] in ts && Flat(ts) == Spell(ts[0]) + rest;
      if ts[0].Ch? && m <= Flat(ts) {
        HeadOf(Flat(ts), ts[0].c, rest, m);
        var vs := RunEnds(M, Flat(ts), ts[1..], m, 1);
        us := RoundOnTokens(M, vs, m);
      } else {
        us := RoundOnTokens(M, ts[1..], m);
        if ts[0] == Mk(m) {
          assert (m + rest)[|m|..] == rest;
        } else {
          FlatCons(ts[0], us);
          us := [ts[0]] + us;
          if ts[0].Mk? {
            WithoutSkips(M, ts[0].m, rest, m, 0);
            assert ts[0].m[0..] == ts[0].m;
          } else {
            assert Flat(ts)[1..] == rest;
          }
        }
      }
    }
  }

  /** The loop leaves at most what one pass leaves, and less by a whole marker when it is unclean. */
  lemma {:induction false} LoopShrinks(M: seq<string>, K: seq<string>, ts: seq<Token>)
    requires Code(M) && Code(K) && (forall k :: 0 <= k < |K| ==> K[k] in M)
    requires Over(M, ts) && Within(K, ts)
    ensures |DeleteEach(K, Flat(ts))| <= |Chars(ts)|
    ensures !CleanLoop(K, ts) ==> |DeleteEach(K, Flat(ts))| + |FirstUnclean(K, ts)| <= |Chars(ts)|
  {
    if K == [] {
      PlainIsItself(ts);
    } else if Clean(ts, K[0]) {
      WithoutIsDrop(M, ts, K[0]);
      LoopShrinks(M, K[1..], Drop(ts, K[0]));
    } else {
      var us := RoundOnTokens(M, ts, K[0]);
      LoopShrinks(M, K[1..], us);
    }
  }

  /** The loop deletes what one pass deletes iff every round is clean. */
  lemma AgreeExactly(M: seq<string>, s: string)
    requires Code(M)
    ensures DeleteEach(M, s) == DeleteOnce(M, s) <==> CleanLoop(M, Tokens(M, s))
    ensures !CleanLoop(M, Tokens(M, s)) ==>
      |DeleteEach(M, s)| + |FirstUnclean(M, Tokens(M, s))| <= |DeleteOnce(M, s)|
  {
    var ts := Tokens(M, s);
    TokensSpellTheText(M, s);
    LoopShrinks(M, M, ts);
    if CleanLoop(M, ts) {
      CleanLoopIsOnePass(M, M, ts);
    } else {
      assert Shaped(FirstUnclean(M, ts));
    }
  }

  // ---------- Clean loops on parts of a text ----------

  lemma {:induction false} CleanConcat(a: seq<Token>, b: seq<Token>, m: string)
    requires Clean(a + b, m)
    ensures Clean(a, m)
  {
    if a == [] {
    } else {
      assert (a + b)[1..] == a[1..] + b;
      FlatConcat(a, b);
      CleanConcat(a[1..], b, m);
    }
  }

  lemma {:induction false} DropOfConcat(a: seq<Token>, b: seq<Token>, m: string)
    ensures Drop(a + b, m) == Drop(a, m) + Drop(b, m)
  {
    if a == [] {
      assert a + b == b;
    } else {
      assert (a + b)[1..] == a[1..] + b;
      DropOfConcat(a[1..], b, m);
      Assoc([a[0]], Drop(a[1..], m), Drop(b, m));
    }
  }

  /** A clean loop over a text is clean over its beginning. */
  lemma {:induction false} CleanLoopPrefix(K: seq<string>, a: seq<Token>, b: seq<Token>)
    requires CleanLoop(K, a + b)
    ensures CleanLoop(K, a)
  {
    if K == [] {
    } else {
      CleanConcat(a, b, K[0]);
      DropOfConcat(a, b, K[0]);
      CleanLoopPrefix(K[1..], Drop(a, K[0]), Drop(b, K[0]));
    }
  }

  // ---------- Clean loops one token further ----------

  lemma {:induction false} CleanBeforeMarker(M: seq<string>, ts: seq<Token>, n: string, m: string)
    requires Code(M) && Over(M, ts) && m in M && n in M && Clean(ts, m)
    ensures Clean(ts + [Mk(n)], m)
  {
    var all := ts + [Mk(n)];
    if ts == [] {
      assert all[1..] == [];
    } else {
      assert all[1..] == ts[1..] + [Mk(n)];
      OverTail(M, ts);
      CleanBeforeMarker(M, ts[1..], n, m);
      FlatConcat(ts, [Mk(n)]);
      FlatCons(Mk(n), []);
      assert [Mk(n)] + [] == [Mk(n)] && n + "" == n;
      if ts[0].Ch? && m <= Flat(ts) + n {
        WholeBefore(M, Flat(ts), n, m);
      }
    }
  }

  lemma WholeBefore(M: seq<string>, s: string, n: string, m: string)
    requires Code(M) && m in M && n in M && m <= s + n && s != ""
    ensures m <= s
  {
    var t := s + n;
    assert At(t, 0, m) && At(t, |s|, n);
    if |s| < |m| {
      NoOverlap(M, t, 0, m, |s|, n);
    } else {
      assert m == t[..|m|] == s[..|m|];
    }
  }

  /** A loop stays clean when a whole marker is appended. */
  lemma {:induction false} CleanLoopBeforeMarker(M: seq<string>, K: seq<string>, ts: seq<Token>, n: string)
    requires Code(M) && Over(M, ts) && n in M && (forall k :: 0 <= k < |K| ==> K[k] in M) && CleanLoop(K, ts)
    ensures CleanLoop(K, ts + [Mk(n)])
  {
    if K == [] {
    } else {
      CleanBeforeMarker(M, ts, n, K[0]);
      DropOfConcat(ts, [Mk(n)], K[0]);
      assert [Mk(n)][1..] == [] && Drop([Mk(n)], K[0]) == if n == K[0] then [] else [Mk(n)];
      if n == K[0] {
        assert Drop(ts, n) + [] == Drop(ts, n);
      } else {
        CleanLoopBeforeMarker(M, K[1..], Drop(ts, K[0]), n);
      }
    }
  }

  lemma {:induction false} CharsFit(ts: seq<Token>)
    ensures |Chars(ts)| <= |Flat(ts)|
  {
    if ts == [] {
    } else {
      CharsFit(ts[1..]);
    }
  }

  /** When one more character makes a round unclean, the plain text now ends with the marker. */
  lemma {:induction false} UncleanAtTheEnd(M: seq<string>, ts: seq<Token>, c: char, m: string)
    requires Code(M) && Over(M, ts) && m in M && Clean(ts, m) && !Clean(ts + [Ch(c)], m)
    ensures EndsWith(Chars(ts) + [c], m)
  {
    var all := ts + [Ch(c)];
    assert Shaped(m);
    PlainSnoc(ts, c);
    if ts == [] {
      assert all == [Ch(c)];
      OneCharIsClean(c, m);
    } else {
      assert all[1..] == ts[1..] + [Ch(c)];
      OverTail(M, ts);
      if ts[0].Ch? && m <= Flat(ts) + [c] {
        WholeToTheEnd(Flat(ts), c, m);
        PlainStart(M, all, m);
        CharsFit(ts);
        assert Chars(ts) + [c] == m;
      } else {
        UncleanAtTheEnd(M, ts[1..], c, m);
        EndsWithMore(Plain(ts[0]), Chars(ts[1..]) + [c], m);
        Assoc(Plain(ts[0]), Chars(ts[1..]), [c]);
      }
    }
  }

  lemma OneCharIsClean(c: char, m: string)
    requires Shaped(m)
    ensures Clean([Ch(c)], m)
  {
    PlainSnoc([], c);
    assert [] + [Ch(c)] == [Ch(c)] && [Ch(c)][1..] == [];
  }

  lemma PlainSnoc(ts: seq<Token>, c: char)
    ensures Flat(ts + [Ch(c)]) == Flat(ts) + [c] && Chars(ts + [Ch(c)]) == Chars(ts) + [c]
  {
    FlatConcat(ts, [Ch(c)]);
    FlatCons(Ch(c), []);
    assert [Ch(c)] + [] == [Ch(c)] && [c] + "" == [c];
  }

  lemma WholeToTheEnd(s: string, c: char, m: string)
    requires m <= s + [c] && !(m <= s)
    ensures m == s + [c]
  {
  }

  lemma EndsWithMore(a: string, s: string, m: string)
    requires EndsWith(s, m)
    ensures EndsWith(a + s, m)
  {
    DropConcat(a, s, |a|);
    assert (a + s)[|a| + (|s| - |m|)..] == s[|s| - |m|..];
  }

  lemma {:induction false} UncleanLoopAtTheEnd(M: seq<string>, K: seq<string>, ts: seq<Token>, c: char)
    requires Code(M) && Over(M, ts) && (forall k :: 0 <= k < |K| ==> K[k] in M)
    requires CleanLoop(K, ts) && !CleanLoop(K, ts + [Ch(c)])
    ensures EndsWith(Chars(ts) + [c], FirstUnclean(K, ts + [Ch(c)]))
  {
    if !Clean(ts + [Ch(c)], K[0]) {
      UncleanAtTheEnd(M, ts, c, K[0]);
    } else {
      DropOfConcat(ts, [Ch(c)], K[0]);
      assert [Ch(c)][1..] == [] && Drop([Ch(c)], K[0]) == [Ch(c)];
      UncleanLoopAtTheEnd(M, K[1..], Drop(ts, K[0]), c);
    }
  }
}
