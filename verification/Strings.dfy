/** The host-language string operations the assistant's text pipelines rest on. */
module Strings {

  datatype Option<+T> = None | Some(value: T)

  lemma Assoc<T>(a: seq<T>, b: seq<T>, c: seq<T>)
    ensures a + (b + c) == (a + b) + c
  {
  }

  lemma DropConcat<T>(a: seq<T>, b: seq<T>, k: nat)
    requires k <= |a|
    ensures (a + b)[k..] == a[k..] + b
  {
  }

  lemma Slices<T>(a: seq<T>, b: seq<T>, c: seq<T>, d: seq<T>)
    ensures var t := a + (b + (c + d));
      t[..|a|] == a && t[|a|..|a| + |b|] == b && t[|a| + |b| + |c|..] == d
  {
  }

  lemma SplitAround<T>(s: seq<T>, k: nat)
    requires k < |s|
    ensures s == s[..k] + ([s[k]] + s[k + 1..])
  {
  }

  lemma PeelAt(s: string, k: nat, x: string, rest: string)
    requires k <= |s| && s[k..] == x + rest
    ensures At(s, k, x) && s[k + |x|..] == rest
  {
  }

  lemma TakeDrop<T>(s: seq<T>, k: nat)
    requires k <= |s|
    ensures s == s[..k] + s[k..]
  {
  }

  /** sub occurs in s at offset i. */
  predicate At(s: string, i: int, sub: string) {
    0 <= i && i + |sub| <= |s| && s[i..i + |sub|] == sub
  }

  lemma AtSplits(s: string, i: nat, sub: string) returns (pre: string, post: string)
    requires At(s, i, sub)
    ensures s == pre + (sub + post) && |pre| == i
  {
    pre, post := s[..i], s[i + |sub|..];
  }

  ghost predicate Contains(s: string, sub: string) {
    exists i :: At(s, i, sub)
  }

  predicate EndsWith(s: string, m: string) {
    |m| <= |s| && s[|s| - |m|..] == m
  }

  /** The first offset at or after `from` where sub occurs, or -1. */
  function Find(s: string, sub: string, from: nat): (r: int)
    ensures r == -1 || (from <= r && At(s, r, sub))
    ensures forall i :: from <= i && At(s, i, sub) ==> r != -1 && r <= i
    decreases |s| - from
  {
    if At(s, from, sub) then from
    else if from >= |s| then -1
    else Find(s, sub, from + 1)
  }

  /** Left-to-right removal of every non-overlapping occurrence of m. */
  function Without(s: string, m: string): string
    requires m != ""
  {
    if s == "" then ""
    else if m <= s then Without(s[|m|..], m)
    else [s[0]] + Without(s[1..], m)
  }

  predicate IsSpace(c: char) {
    || '\U{0009}' <= c <= '\U{000D}'
    || '\U{001C}' <= c <= '\U{0020}'
    || c in {'\U{0085}', '\U{00A0}', '\U{1680}', '\U{2028}', '\U{2029}', '\U{202F}', '\U{205F}', '\U{3000}'}
    || '\U{2000}' <= c <= '\U{200A}'
  }

  /** The whitespace that trimming takes away, by code point. */
  lemma WhitespaceIsListed(c: char)
    ensures IsSpace(c) <==>
      c as int in {
        9, 10, 11, 12, 13, 28, 29, 30, 31, 32, 133, 160, 5760, 8192, 8193, 8194, 8195, 8196, 8197, 8198, 8199,
        8200, 8201, 8202, 8232, 8233, 8239, 8287, 12288}
  {
  }

  predicate Blank(s: string) {
    forall i :: 0 <= i < |s| ==> IsSpace(s[i])
  }

  function LeftTrim(s: string): (r: string)
    ensures |r| <= |s| && r == s[|s| - |r|..] && Blank(s[..|s| - |r|])
    ensures r != "" ==> !IsSpace(r[0])
  {
    if s == "" || !IsSpace(s[0]) then s
    else
      var r := LeftTrim(s[1..]);
      assert s[..|s| - |r|] == [s[0]] + s[1..][..|s| - 1 - |r|];
      r
  }

  function RightTrim(s: string): (r: string)
    ensures r <= s && Blank(s[|r|..])
    ensures r != "" ==> !IsSpace(r[|r| - 1])
  {
    if s == "" || !IsSpace(s[|s| - 1]) then s
    else
      var r := RightTrim(s[..|s| - 1]);
      assert s[|r|..] == s[..|s| - 1][|r|..] + [s[|s| - 1]];
      r
  }

  function Trim(s: string): string {
    RightTrim(LeftTrim(s))
  }

  /** How many leading blanks a left trim drops. */
  function Lead(s: string): (n: nat)
    ensures n <= |s|
  {
    |s| - |LeftTrim(s)|
  }

  lemma LeftTrimUnique(pad: string, s: string)
    requires Blank(pad) && (s != "" ==> !IsSpace(s[0]))
    ensures LeftTrim(pad + s) == s
  {
    hide LeftTrim, IsSpace;
    var t := pad + s;
    var r := LeftTrim(t);
    var k := |t| - |r|;
    assert forall i :: 0 <= i < |pad| ==> t[i] == pad[i];
    assert forall i :: 0 <= i < k ==> t[i] == t[..k][i];
    assert r != "" ==> r[0] == t[k];
    assert s != "" ==> s[0] == t[|pad|];
  }

  lemma RightTrimUnique(s: string, pad: string)
    requires Blank(pad) && (s != "" ==> !IsSpace(s[|s| - 1]))
    ensures RightTrim(s + pad) == s
  {
    hide RightTrim, IsSpace;
    var t := s + pad;
    var r := RightTrim(t);
    forall i | |s| <= i < |t| ensures IsSpace(t[i]) { assert t[i] == pad[i - |s|]; }
    forall i | |r| <= i < |t| ensures IsSpace(t[i]) { assert t[i] == t[|r|..][i - |r|]; }
    assert r != "" ==> r[|r| - 1] == t[|r| - 1];
    assert s != "" ==> s[|s| - 1] == t[|s| - 1] && !IsSpace(t[|s| - 1]);
  }

  lemma BlankConcat(a: string, b: string)
    requires Blank(a) && Blank(b)
    ensures Blank(a + b)
  {
  }

  lemma TrimBlank(s: string)
    requires Blank(s)
    ensures LeftTrim(s) == "" && RightTrim(s) == "" && Trim(s) == ""
  {
  }

  /** Trimming the left of x + z stops no later than the start of z when z starts non-blank. */
  lemma LeftTrimAppend(x: string, z: string)
    requires z != "" && !IsSpace(z[0])
    ensures LeftTrim(x + z) == LeftTrim(x) + z
  {
    hide LeftTrim, Blank, IsSpace;
    var r := LeftTrim(x);
    var lead := x[..|x| - |r|];
    TakeDrop(x, |x| - |r|);
    Assoc(lead, r, z);
    assert (r + z)[0] == if r == "" then z[0] else r[0];
    LeftTrimUnique(lead, r + z);
  }

  lemma RightTrimPrepend(z: string, y: string)
    requires z != "" && !IsSpace(z[|z| - 1])
    ensures RightTrim(z + y) == z + RightTrim(y)
  {
    hide RightTrim, Blank, IsSpace;
    var r := RightTrim(y);
    var pad := y[|r|..];
    TakeDrop(y, |r|);
    assert y[..|r|] == r;
    Assoc(z, r, pad);
    assert (z + r)[|z + r| - 1] == if r == "" then z[|z| - 1] else r[|r| - 1];
    RightTrimUnique(z + r, pad);
  }

  /** Every text is blank, its trimmed core, blank. */
  lemma TrimShape(t: string) returns (lead: string, core: string, pad: string)
    ensures t == lead + (core + pad) && Blank(lead) && Blank(pad) && core == Trim(t)
    ensures Lead(t) == |lead| && (core != "" ==> |RightTrim(t)| == |lead| + |core|)
    ensures core != "" ==> !IsSpace(core[0]) && !IsSpace(core[|core| - 1])
    ensures core == "" <==> Blank(t)
  {
    hide LeftTrim, RightTrim, IsSpace, Blank;
    var l := LeftTrim(t);
    lead, core := t[..|t| - |l|], Trim(t);
    pad := l[|core|..];
    TakeDrop(t, |t| - |l|);
    TakeDrop(l, |core|);
    assert l[..|core|] == core;
    if core == "" {
      BlankConcat(lead, pad);
      TrimBlank(t);
    } else {
      assert core[0] == l[0];
      Assoc(lead, core, pad);
      assert (lead + core)[|lead + core| - 1] == core[|core| - 1];
      RightTrimUnique(lead + core, pad);
      NotBlankAt(t, |lead|, l[0]);
    }
  }

  lemma NotBlankAt(t: string, i: nat, c: char)
    requires i < |t| && t[i] == c && !IsSpace(c)
    ensures !Blank(t)
  {
  }

  /** Trimming a text cannot reach past a non-blank stretch of it. */
  lemma TrimAround(x: string, core: string, y: string)
    requires core != "" && !IsSpace(core[0]) && !IsSpace(core[|core| - 1])
    ensures LeftTrim(x + (core + y)) == LeftTrim(x) + (core + y)
    ensures Trim(x + (core + y)) == (LeftTrim(x) + core) + RightTrim(y)
  {
    hide LeftTrim, RightTrim, IsSpace;
    LeftTrimAppend(x, core + y);
    var l := LeftTrim(x);
    Assoc(l, core, y);
    assert (l + core)[|l + core| - 1] == core[|core| - 1];
    RightTrimPrepend(l + core, y);
  }

  /** Trimming a prefixed blank run away does not depend on the run. */
  lemma TrimSkipsLeadingBlank(pad: string, s: string)
    requires Blank(pad)
    ensures LeftTrim(pad + s) == LeftTrim(s)
    ensures Trim(pad + s) == Trim(s)
  {
    hide LeftTrim, RightTrim, Blank, IsSpace;
    var r := LeftTrim(s);
    var lead := s[..|s| - |r|];
    TakeDrop(s, |s| - |r|);
    Assoc(pad, lead, r);
    BlankConcat(pad, lead);
    LeftTrimUnique(pad + lead, r);
  }

  function Join(fragments: seq<string>): string {
    if fragments == [] then "" else Join(fragments[..|fragments| - 1]) + fragments[|fragments| - 1]
  }

  lemma JoinSnoc(fragments: seq<string>, last: string)
    ensures Join(fragments + [last]) == Join(fragments) + last
  {
  }
}
