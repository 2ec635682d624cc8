/**
 The theory of control markers: strings written `[[NAME]]` with no bracket inside the name.
 Everything here holds for any list of such markers, so it keeps holding when one is added.
 */
module Markers {
  import opened Strings

  predicate Shaped(m: string) {
    && |m| >= 5
    && m[0] == '[' && m[1] == '[' && m[|m| - 2] == ']' && m[|m| - 1] == ']'
    && forall i :: 2 <= i < |m| - 2 ==> m[i] != '[' && m[i] != ']' && !IsSpace(m[i])
  }

  predicate Code(M: seq<string>) {
    forall k :: 0 <= k < |M| ==> Shaped(M[k])
  }

  ghost predicate MarkerFree(M: seq<string>, s: string) {
    forall m, i :: m in M ==> !At(s, i, m)
  }

  /** The marker s opens with, or "" when it opens with none. */
  function Opening(M: seq<string>, s: string): (r: string)
    requires Code(M)
    ensures r != "" ==> r in M && r <= s
    ensures r == "" ==> forall m :: m in M ==> !(m <= s)
  {
    if M == [] then ""
    else if M[0] <= s then M[0]
    else
      assert M == [M[0]] + M[1..];
      Opening(M[1..], s)
  }

  /** A text is ordinary characters and whole markers. */
  datatype Token = Ch(c: char) | Mk(m: string)

  function Spell(t: Token): string {
    match t case Ch(c) => [c] case Mk(m) => m
  }

  function Plain(t: Token): string {
    match t case Ch(c) => [c] case Mk(_) => ""
  }

  function FirstToken(M: seq<string>, s: string): (t: Token)
    requires Code(M) && s != ""
    ensures 1 <= |Spell(t)| <= |s| && Spell(t) == s[..|Spell(t)|]
    ensures t.Mk? ==> t.m in M
  {
    var m := Opening(M, s);
    if m == "" then Ch(s[0]) else Mk(m)
  }

  /** One left-to-right pass removing every marker where it stands. */
  function DeleteOnce(M: seq<string>, s: string): string
    requires Code(M)
    decreases |s|
  {
    if s == "" then ""
    else var t := FirstToken(M, s); Plain(t) + DeleteOnce(M, s[|Spell(t)|..])
  }

  // ---------- Two occurrences never overlap ----------

  lemma BracketAtStart(s: string, i: int, m: string, j: int)
    requires Shaped(m) && At(s, i, m) && i < j < i + |m| && s[j] == '['
    ensures j == i + 1
  {
  }

  lemma NoOverlap(M: seq<string>, s: string, i: int, m: string, j: int, n: string)
    requires Code(M) && m in M && n in M
    requires At(s, i, m) && At(s, j, n) && i <= j < i + |m|
    ensures i == j && m == n
  {
    assert Shaped(m) && Shaped(n);
    if i < j {
      BracketAtStart(s, i, m, j);
      assert s[j + 1] == n[1];
      BracketAtStart(s, i, m, j + 1);
    } else {
      if |m| <= |n| { SameStart(s, i, m, n); } else { SameStart(s, i, n, m); }
      assert m == s[i..i + |m|] == n;
    }
  }

  lemma SameStart(s: string, i: int, m: string, n: string)
    requires Shaped(m) && Shaped(n) && |m| <= |n| && At(s, i, m) && At(s, i, n)
    ensures |m| == |n|
  {
    assert n[|m| - 2] == s[i + |m| - 2] == m[|m| - 2] == ']';
    assert n[|m| - 1] == s[i + |m| - 1] == m[|m| - 1] == ']';
  }

  lemma OpeningUnique(M: seq<string>, m: string, rest: string)
    requires Code(M) && m in M
    ensures Opening(M, m + rest) == m
  {
    var s := m + rest;
    assert At(s, 0, m) && m <= s;
    var r := Opening(M, s);
    assert r != "";
    assert At(s, 0, r);
    NoOverlap(M, s, 0, m, 0, r);
  }

  // ---------- A text as a list of ordinary characters and whole markers ----------

  function Tokens(M: seq<string>, s: string): (ts: seq<Token>)
    requires Code(M)
    ensures Over(M, ts)
    decreases |s|
  {
    if s == "" then []
    else var t := FirstToken(M, s); [t] + Tokens(M, s[|Spell(t)|..])
  }

  predicate Over(M: seq<string>, ts: seq<Token>) {
    forall t :: t in ts && t.Mk? ==> t.m in M
  }

  /** The text a token list stands for. */
  function Flat(ts: seq<Token>): string {
    if ts == [] then "" else Spell(ts[0]) + Flat(ts[1..])
  }

  /** The same text with the markers left out. */
  function Chars(ts: seq<Token>): string {
    if ts == [] then "" else Plain(ts[0]) + Chars(ts[1..])
  }

  lemma FlatCons(t: Token, ts: seq<Token>)
    ensures Flat([t] + ts) == Spell(t) + Flat(ts)
    ensures Chars([t] + ts) == Plain(t) + Chars(ts)
  {
  }

  lemma {:induction false} TokensSpellTheText(M: seq<string>, s: string)
    requires Code(M)
    ensures Flat(Tokens(M, s)) == s
    ensures Chars(Tokens(M, s)) == DeleteOnce(M, s)
    decreases |s|
  {
    if s == "" {
    } else {
      var t := FirstToken(M, s);
      var k := |Spell(t)|;
      hide Code, FirstToken, Spell, Plain, Flat, Chars, Over;
      TokensSpellTheText(M, s[k..]);
      FlatCons(t, Tokens(M, s[k..]));
      TakeDrop(s, k);
    }
  }

  lemma {:induction false} FlatConcat(a: seq<Token>, b: seq<Token>)
    ensures Flat(a + b) == Flat(a) + Flat(b)
    ensures Chars(a + b) == Chars(a) + Chars(b)
  {
    if a == [] {
      assert a + b == b;
    } else {
      hide Spell, Plain, Flat, Chars;
      var t, rest := a[0], a[1..];
      FlatConcat(rest, b);
      assert a == [t] + rest;
      Assoc([t], rest, b);
      FlatCons(t, rest);
      FlatCons(t, rest + b);
      Assoc(Spell(t), Flat(rest), Flat(b));
      Assoc(Plain(t), Chars(rest), Chars(b));
    }
  }

  lemma SplitAt(ts: seq<Token>, k: nat)
    requires k < |ts|
    ensures Flat(ts) == Flat(ts[..k]) + (Spell(ts[k]) + Flat(ts[k + 1..]))
    ensures Chars(ts) == Chars(ts[..k]) + (Plain(ts[k]) + Chars(ts[k + 1..]))
  {
    hide Flat, Chars;
    SplitAround(ts, k);
    FlatConcat(ts[..k], [ts[k]] + ts[k + 1..]);
    FlatCons(ts[k], ts[k + 1..]);
  }

  lemma OverTail(M: seq<string>, ts: seq<Token>)
    requires Over(M, ts) && ts != []
    ensures Over(M, ts[1..])
  {
  }

  // Once a marker occurrence has been entered through plain characters it is spelled by plain
  // characters to its end: no whole marker can stand inside it.
  lemma {:induction false} PlainRun(M: seq<string>, s: string, ts: seq<Token>, m: string, k: nat)
    requires Code(M) && Over(M, ts) && m in M
    requires At(s, 0, m) && 1 <= k <= |m| && Flat(ts) == s[k..]
    ensures m[k..] <= Chars(ts)
    decreases |m| - k
  {
    if k < |m| {
      var t, rest := ts[0], Flat(ts[1..]);
      assert t in ts;
      assert Over(M, ts[1..]) by { OverTail(M, ts); }
      hide Code, Over;
      PeelAt(s, k, Spell(t), rest);
      if t.Mk? {
        NoOverlap(M, s, 0, m, k, t.m);
      } else {
        assert t.c == [t.c][0] == s[k] == m[k];
        PlainRun(M, s, ts[1..], m, k + 1);
        ConsPrefix(m, k, Chars(ts[1..]));
      }
    }
  }

  lemma ConsPrefix(m: string, k: nat, rest: string)
    requires k < |m| && m[k + 1..] <= rest
    ensures m[k..] <= [m[k]] + rest
  {
  }

  lemma FlatStart(ts: seq<Token>)
    requires ts != [] && ts[0].Ch?
    ensures Flat(ts) == [ts[0].c] + Flat(ts[1..]) && Chars(ts) == [ts[0].c] + Chars(ts[1..])
  {
  }

  lemma HeadOf(s: string, c: char, rest: string, m: string)
    requires s == [c] + rest && m <= s && m != ""
    ensures At(s, 0, m) && m[0] == c && rest == s[1..]
  {
  }

  lemma PrefixFromTail(m: string, s: string, rest: string)
    requires m != "" && m[1..] <= rest && s == [m[0]] + rest
    ensures At(s, 0, m)
  {
  }

  // A marker found where a plain character stands is spelled out by plain characters.
  lemma PlainStart(M: seq<string>, ts: seq<Token>, m: string)
    requires Code(M) && Over(M, ts) && m in M
    requires ts != [] && ts[0].Ch? && m <= Flat(ts)
    ensures At(Chars(ts), 0, m)
  {
    assert Shaped(m);
    assert Over(M, ts[1..]) by { OverTail(M, ts); }
    hide *;
    FlatStart(ts);
    HeadOf(Flat(ts), ts[0].c, Flat(ts[1..]), m);
    PlainRun(M, Flat(ts), ts[1..], m, 1);
    PrefixFromTail(m, Chars(ts), Chars(ts[1..]));
  }

  lemma {:induction false} AllPlain(ts: seq<Token>)
    requires forall i :: 0 <= i < |ts| ==> ts[i].Ch?
    ensures Flat(ts) == Chars(ts) && |Chars(ts)| == |ts|
  {
    if ts == [] {
    } else {
      AllPlain(ts[1..]);
    }
  }

  /** A token list whose plain text hides no marker is the tokenisation of what it spells. */
  lemma {:induction false} Canonical(M: seq<string>, ts: seq<Token>)
    requires Code(M) && Over(M, ts) && MarkerFree(M, Chars(ts))
    ensures Tokens(M, Flat(ts)) == ts
  {
    if ts == [] {
    } else {
      var rest := Flat(ts[1..]);
      MarkerFreeTail(M, ts);
      Canonical(M, ts[1..]);
      FirstTokenIs(M, ts);
      hide FirstToken, Spell, Over, Code, MarkerFree;
      DropConcat(Spell(ts[0]), rest, |Spell(ts[0])|);
      assert "" + rest == rest && ts == [ts[0]] + ts[1..];
    }
  }

  lemma FirstTokenIs(M: seq<string>, ts: seq<Token>)
    requires Code(M) && Over(M, ts) && ts != [] && MarkerFree(M, Chars(ts))
    ensures Flat(ts) != "" && FirstToken(M, Flat(ts)) == ts[0]
  {
    var s := Flat(ts);
    assert ts[0] in ts;
    if ts[0].Mk? {
      OpeningUnique(M, ts[0].m, Flat(ts[1..]));
    } else if Opening(M, s) != "" {
      PlainStart(M, ts, Opening(M, s));
    }
  }

  lemma MarkerFreeTail(M: seq<string>, ts: seq<Token>)
    requires Code(M) && Over(M, ts) && ts != [] && MarkerFree(M, Chars(ts))
    ensures Over(M, ts[1..]) && MarkerFree(M, Chars(ts[1..]))
  {
    hide Code, MarkerFree;
    assert Chars(ts) == Plain(ts[0]) + Chars(ts[1..]);
    MarkerFreeParts(M, Plain(ts[0]), Chars(ts[1..]));
  }

  lemma MarkerFreeParts(M: seq<string>, a: string, b: string)
    requires MarkerFree(M, a + b)
    ensures MarkerFree(M, a) && MarkerFree(M, b)
  {
    forall m, i | m in M && At(a, i, m) ensures false {
      assert (a + b)[i..i + |m|] == a[i..i + |m|];
      assert At(a + b, i, m);
    }
    forall m, i | m in M && At(b, i, m) ensures false {
      assert (a + b)[|a| + i..|a| + i + |m|] == b[i..i + |m|];
      assert At(a + b, |a| + i, m);
    }
  }

  // ---------- Removing one marker everywhere ----------

  function Drop(ts: seq<Token>, m: string): (r: seq<Token>)
    ensures Chars(r) == Chars(ts)
    ensures forall t :: t in r <==> t in ts && t != Mk(m)
  {
    if ts == [] then []
    else if ts[0] == Mk(m) then Drop(ts[1..], m)
    else
      var r := [ts[0]] + Drop(ts[1..], m);
      assert r[1..] == Drop(ts[1..], m);
      r
  }

  lemma InsideMarker(M: seq<string>, n: string, rest: string, m: string, k: nat)
    requires Code(M) && m in M && n in M && k < |n| && m <= n[k..] + rest
    ensures k == 0 && m == n
  {
    var whole := n + rest;
    assert whole[k..] == n[k..] + rest;
    assert At(whole, 0, n) && At(whole, k, m);
    NoOverlap(M, whole, 0, n, k, m);
  }

  lemma {:induction false} WithoutSkips(M: seq<string>, n: string, rest: string, m: string, k: nat)
    requires Code(M) && m in M && n in M && m != n && k <= |n|
    ensures Without(n[k..] + rest, m) == n[k..] + Without(rest, m)
    decreases |n| - k
  {
    if k == |n| {
      assert n[k..] + rest == rest;
    } else {
      WithoutSkips(M, n, rest, m, k + 1);
      var s := n[k..] + rest;
      if m <= s { InsideMarker(M, n, rest, m, k); }
      DropConcat(n[k..], rest, 1);
      Assoc([n[k]], n[k + 1..], Without(rest, m));
      assert n[k..] == [n[k]] + n[k + 1..];
    }
  }

  /** No occurrence of m starts at a plain character: m occurs as whole tokens only. */
  ghost predicate Clean(ts: seq<Token>, m: string) {
    ts == [] || ((ts[0].Ch? ==> !(m <= Flat(ts))) && Clean(ts[1..], m))
  }

  lemma {:induction false} FreeIsClean(M: seq<string>, ts: seq<Token>, m: string)
    requires Code(M) && Over(M, ts) && MarkerFree(M, Chars(ts)) && m in M
    ensures Clean(ts, m)
  {
    if ts == [] {
    } else {
      if ts[0].Ch? && m <= Flat(ts) { PlainStart(M, ts, m); }
      MarkerFreeTail(M, ts);
      FreeIsClean(M, ts[1..], m);
    }
  }

  /** Where m occurs as whole tokens only, removing m everywhere is removing those tokens. */
  lemma {:induction false} WithoutIsDrop(M: seq<string>, ts: seq<Token>, m: string)
    requires Code(M) && Over(M, ts) && m in M && Clean(ts, m)
    ensures Without(Flat(ts), m) == Flat(Drop(ts, m))
  {
    if ts == [] {
    } else {
      OverTail(M, ts);
      WithoutIsDrop(M, ts[1..], m);
      var rest := Flat(ts[1..]);
      if ts[0] == Mk(m) {
        assert (m + rest)[|m|..] == rest;
      } else {
        assert Drop(ts, m)[1..] == Drop(ts[1..], m);
        if ts[0].Mk? {
          assert ts[0] in ts;
          WithoutSkips(M, ts[0].m, rest, m, 0);
          assert ts[0].m[0..] == ts[0].m;
        } else {
          assert Flat(ts)[1..] == rest;
        }
      }
    }
  }
}
