/** Taking delimiter pairs out of marked text, seen on the text and on its tokens. */
module MarkedText {
  import opened Strings
  import opened Markers

  /** What taking one delimiter pair out leaves, what the pair held, and where that now starts. */
  datatype Unwrapped = Unwrapped(text: string, body: Option<string>, at: int)

  function Unwrap(text: string, opener: string, closer: string): Unwrapped {
    var openAt := Find(text, opener, 0);
    if openAt == -1 then Unwrapped(text, None, -1)
    else
      var bodyAt := openAt + |opener|;
      var closed := Find(text, closer, bodyAt);
      if closed == -1 then Unwrapped(text[..openAt] + text[bodyAt..], None, -1)
      else
        var body := text[bodyAt..closed];
        Unwrapped(text[..openAt] + body + text[closed + |closer|..], Some(body), openAt)
  }

  lemma UnwrapPlacesBody(text: string, opener: string, closer: string)
    ensures var u := Unwrap(text, opener, closer);
      u.body.Some? ==> At(u.text, u.at, u.body.value)
  {
  }

  // ---------- Parsing seen on tokens ----------

  ghost predicate Canon(M: seq<string>, ts: seq<Token>) {
    Code(M) && Over(M, ts) && MarkerFree(M, Chars(ts))
  }

  function IndexOf(ts: seq<Token>, m: string): (k: nat)
    ensures k <= |ts| && (k < |ts| ==> ts[k] == Mk(m))
    ensures forall i :: 0 <= i < k ==> ts[i] != Mk(m)
  {
    if ts == [] || ts[0] == Mk(m) then 0 else 1 + IndexOf(ts[1..], m)
  }

  function UnwrapTokens(ts: seq<Token>, opener: string, closer: string): seq<Token> {
    var k := IndexOf(ts, opener);
    if k == |ts| then ts
    else
      var after := ts[k + 1..];
      var j := IndexOf(after, closer);
      if j == |after| then ts[..k] + after else ts[..k] + (after[..j] + after[j + 1..])
  }

  /** What the first pair wraps. */
  function FirstBody(ts: seq<Token>, opener: string, closer: string): Option<string> {
    var k := IndexOf(ts, opener);
    if k == |ts| then None
    else
      var after := ts[k + 1..];
      var j := IndexOf(after, closer);
      if j == |after| then None else Some(Flat(after[..j]))
  }

  /** What every pair wraps, first pair first. */
  function Bodies(ts: seq<Token>, opener: string, closer: string): seq<string>
    decreases |ts|
  {
    var k := IndexOf(ts, opener);
    if k == |ts| then []
    else
      var after := ts[k + 1..];
      var j := IndexOf(after, closer);
      if j == |after| then [] else [Flat(after[..j])] + Bodies(after[j + 1..], opener, closer)
  }

  lemma CanonTail(M: seq<string>, ts: seq<Token>)
    requires Canon(M, ts) && ts != []
    ensures Canon(M, ts[1..])
  {
    MarkerFreeTail(M, ts);
  }

  lemma {:induction false} CanonFrom(M: seq<string>, ts: seq<Token>, k: nat)
    requires Canon(M, ts) && k <= |ts|
    ensures Canon(M, ts[k..])
  {
    if k > 0 {
      CanonTail(M, ts);
      CanonFrom(M, ts[1..], k - 1);
      assert ts[1..][k - 1..] == ts[k..];
    } else {
      assert ts[0..] == ts;
    }
  }

  // In a canonical text the only marker starting inside the first token is that token itself.
  lemma NothingStartsInside(M: seq<string>, ts: seq<Token>, m: string, i: nat)
    requires Canon(M, ts) && ts != [] && m in M && At(Flat(ts), i, m) && i < |Spell(ts[0])|
    ensures i == 0 && ts[0] == Mk(m)
  {
    var s, t, rest := Flat(ts), ts[0], Flat(ts[1..]);
    assert s == Spell(t) + rest && t in ts;
    match t {
      case Mk(n) =>
        assert At(s, 0, n);
        NoOverlap(M, s, 0, n, i, m);
      case Ch(_) =>
        assert m <= s;
        PlainStart(M, ts, m);
    }
  }

  lemma {:induction false} FindToken(M: seq<string>, ts: seq<Token>, m: string)
    requires Canon(M, ts) && m in M
    ensures var k := IndexOf(ts, m);
      Find(Flat(ts), m, 0) == if k == |ts| then -1 else |Flat(ts[..k])|
  {
    hide Find, Canon, Flat, Spell, At;
    if ts == [] {
      FindInEmpty(M, ts, m);
    } else if ts[0] == Mk(m) {
      FindAtStart(ts, m);
    } else {
      CanonTail(M, ts);
      FindToken(M, ts[1..], m);
      FindPast(M, ts, m);
      FlatPrefix(ts, IndexOf(ts[1..], m));
    }
  }

  lemma FindInEmpty(M: seq<string>, ts: seq<Token>, m: string)
    requires Canon(M, ts) && m in M && ts == []
    ensures Find(Flat(ts), m, 0) == -1
  {
  }

  lemma FindAtStart(ts: seq<Token>, m: string)
    requires ts != [] && ts[0] == Mk(m)
    ensures Find(Flat(ts), m, 0) == 0 == |Flat(ts[..0])|
  {
  }

  lemma FlatPrefix(ts: seq<Token>, k: nat)
    requires ts != [] && k < |ts|
    ensures Flat(ts[..k + 1]) == Spell(ts[0]) + Flat(ts[1..][..k])
  {
    assert ts[..k + 1][0] == ts[0] && ts[..k + 1][1..] == ts[1..][..k];
  }

  lemma FindPast(M: seq<string>, ts: seq<Token>, m: string)
    requires Canon(M, ts) && ts != [] && m in M && ts[0] != Mk(m)
    ensures var r := Find(Flat(ts[1..]), m, 0);
      Find(Flat(ts), m, 0) == if r == -1 then -1 else |Spell(ts[0])| + r
  {
    var x, rest := Spell(ts[0]), Flat(ts[1..]);
    assert Flat(ts) == x + rest;
    forall i | 0 <= i < |x| ensures !At(x + rest, i, m) {
      if At(x + rest, i, m) { NothingStartsInside(M, ts, m, i); }
    }
    FindShift(x, rest, m, 0);
  }

  lemma AtShift(x: string, rest: string, m: string, i: int, j: int)
    requires 0 <= i && j == |x| + i
    ensures At(rest, i, m) <==> At(x + rest, j, m)
  {
  }

  // When nothing is found before x ends, searching x + rest is searching rest.
  lemma FindShift(x: string, rest: string, m: string, from: nat)
    requires from <= |x| && forall i :: from <= i < |x| ==> !At(x + rest, i, m)
    ensures var r := Find(rest, m, 0);
      Find(x + rest, m, from) == if r == -1 then -1 else |x| + r
  {
    hide Find, At;
    var a, b := Find(x + rest, m, from), Find(rest, m, 0);
    if a != -1 { AtShift(x, rest, m, a - |x|, a); }
    if b != -1 { AtShift(x, rest, m, b, |x| + b); }
  }

  lemma UnwrapOnTokens(M: seq<string>, ts: seq<Token>, opener: string, closer: string)
    requires Canon(M, ts) && opener in M && closer in M
    ensures Unwrap(Flat(ts), opener, closer).text == Flat(UnwrapTokens(ts, opener, closer))
    ensures Unwrap(Flat(ts), opener, closer).body == FirstBody(ts, opener, closer)
    ensures Canon(M, UnwrapTokens(ts, opener, closer))
    ensures Chars(UnwrapTokens(ts, opener, closer)) == Chars(ts)
  {
    hide *;
    UnwrapKeepsTokens(ts, opener, closer);
    UnwrapKeepsChars(ts, opener, closer);
    CanonByChars(M, ts, UnwrapTokens(ts, opener, closer));
    UnwrapText(M, ts, opener, closer);
  }

  lemma UnwrapText(M: seq<string>, ts: seq<Token>, opener: string, closer: string)
    requires Canon(M, ts) && opener in M && closer in M
    ensures Unwrap(Flat(ts), opener, closer).text == Flat(UnwrapTokens(ts, opener, closer))
    ensures Unwrap(Flat(ts), opener, closer).body == FirstBody(ts, opener, closer)
  {
    hide Canon, Find, IndexOf, Flat, Unwrap;
    var k := IndexOf(ts, opener);
    FindToken(M, ts, opener);
    if k == |ts| {
      NothingToUnwrap(Flat(ts), opener, closer);
    } else {
      var a, after := ts[..k], ts[k + 1..];
      SplitAt(ts, k);
      CanonFrom(M, ts, k + 1);
      FindToken(M, after, closer);
      var j := IndexOf(after, closer);
      if j == |after| {
        FlatConcat(a, after);
        UnwrapOpenOnly(Flat(a), opener, Flat(after), closer);
      } else {
        SplitAt(after, j);
        FlatConcat(a, after[..j] + after[j + 1..]);
        FlatConcat(after[..j], after[j + 1..]);
        UnwrapPair(Flat(a), opener, Flat(after[..j]), closer, Flat(after[j + 1..]));
      }
    }
  }

  lemma DropOneKeepsChars(ts: seq<Token>, k: nat)
    requires k < |ts| && ts[k].Mk?
    ensures Chars(ts[..k] + ts[k + 1..]) == Chars(ts)
  {
    hide Chars;
    SplitAt(ts, k);
    FlatConcat(ts[..k], ts[k + 1..]);
    assert "" + Chars(ts[k + 1..]) == Chars(ts[k + 1..]);
  }

  lemma UnwrapKeepsChars(ts: seq<Token>, opener: string, closer: string)
    ensures Chars(UnwrapTokens(ts, opener, closer)) == Chars(ts)
  {
    hide Chars, IndexOf;
    var k := IndexOf(ts, opener);
    if k < |ts| {
      var a, after := ts[..k], ts[k + 1..];
      DropOneKeepsChars(ts, k);
      var j := IndexOf(after, closer);
      if j < |after| {
        DropOneKeepsChars(after, j);
        FlatConcat(a, after);
        FlatConcat(a, after[..j] + after[j + 1..]);
      }
    }
  }

  lemma CanonByChars(M: seq<string>, ts: seq<Token>, us: seq<Token>)
    requires Canon(M, ts) && Chars(us) == Chars(ts) && (forall t :: t in us ==> t in ts)
    ensures Canon(M, us)
  {
  }

  lemma UnwrapKeepsTokens(ts: seq<Token>, opener: string, closer: string)
    ensures forall t :: t in UnwrapTokens(ts, opener, closer) ==> t in ts
  {
    hide IndexOf;
  }

  lemma NothingToUnwrap(text: string, opener: string, closer: string)
    requires Find(text, opener, 0) == -1
    ensures Unwrap(text, opener, closer).text == text && Unwrap(text, opener, closer).body == None
  {
  }

  lemma UnwrapOpenOnly(a: string, opener: string, rest: string, closer: string)
    requires Find(a + (opener + rest), opener, 0) == |a| && Find(rest, closer, 0) == -1
    ensures var u := Unwrap(a + (opener + rest), opener, closer); u.text == a + rest && u.body == None
  {
    hide Find;
    var head := a + opener;
    Assoc(a, opener, rest);
    FindShift(head, rest, closer, |head|);
    assert (head + rest)[..|a|] == a && (head + rest)[|head|..] == rest;
  }

  lemma UnwrapAt(text: string, opener: string, closer: string, a: string, c: string, d: string, i: nat, j: nat)
    requires |a| + |opener| == i && i + |c| == j && j + |closer| <= |text|
    requires Find(text, opener, 0) == |a| && Find(text, closer, i) == j
    requires text[..|a|] == a && text[i..j] == c && text[j + |closer|..] == d
    ensures var u := Unwrap(text, opener, closer); u.text == a + c + d && u.body == Some(c)
  {
    hide Find;
  }

  lemma UnwrapPair(a: string, opener: string, c: string, closer: string, d: string)
    requires Find(a + (opener + (c + (closer + d))), opener, 0) == |a|
    requires Find(c + (closer + d), closer, 0) == |c|
    ensures var u := Unwrap(a + (opener + (c + (closer + d))), opener, closer);
      u.text == a + (c + d) && u.body == Some(c)
  {
    hide Find, Unwrap, At;
    var rest := c + (closer + d);
    var head := a + opener;
    Assoc(a, opener, rest);
    FindShift(head, rest, closer, |head|);
    Slices(head, c, closer, d);
    assert (head + rest)[..|a|] == a;
    UnwrapAt(head + rest, opener, closer, a, c, d, |head|, |head| + |c|);
    Assoc(a, c, d);
  }
}
