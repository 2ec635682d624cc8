/**
 The iCalUID that names an appointment on a calendar: written from its UUID, read back by a
 case-insensitive pattern.
 */
module CalendarIdentity {
  import opened Strings

  type Nibble = n: nat | n < 16 witness 0

  /** A UUID as its 32 hexadecimal digits. */
  type Uuid = u: seq<Nibble> | |u| == 32 witness seq(32, i => 0)

  /** One place of the pattern: a literal character or a hexadecimal digit. */
  datatype Place = Literal(c: char) | Hex

  function Literals(s: string): seq<Place> {
    seq(|s|, i requires 0 <= i < |s| => Literal(s[i]))
  }

  function Digits(n: nat): seq<Place> {
    seq(n, i => Hex)
  }

  const PATTERN: seq<Place> :=
    Literals("fsm-") + Digits(8) + Literals("-") + Digits(4) + Literals("-") + Digits(4) + Literals("-")
    + Digits(4) + Literals("-") + Digits(12) + Literals("@fsm.local")

  function DigitChar(n: Nibble): char {
    "0123456789abcdef"[n]
  }

  /** Case folding as far as the pattern can tell: ASCII letters, and the long s the literals match. */
  function Fold(c: char): char {
    if 'A' <= c <= 'Z' then c - 'A' + 'a' else if c == '\U{017F}' then 's' else c
  }

  function DigitOf(c: char): Option<Nibble> {
    var c := if 'A' <= c <= 'F' then Fold(c) else c;
    if '0' <= c <= '9' then Some((c - '0') as nat)
    else if 'a' <= c <= 'f' then Some((c - 'a') as nat + 10)
    else None
  }

  function CountHex(pattern: seq<Place>): nat {
    if pattern == [] then 0 else (if pattern[0].Hex? then 1 else 0) + CountHex(pattern[1..])
  }

  function Write(pattern: seq<Place>, digits: seq<Nibble>): string
    requires |digits| == CountHex(pattern)
  {
    if pattern == [] then ""
    else
      match pattern[0]
      case Literal(c) => [c] + Write(pattern[1..], digits)
      case Hex => [DigitChar(digits[0])] + Write(pattern[1..], digits[1..])
  }

  /** The digits of a text that fits the pattern, letter case aside. */
  function Match(pattern: seq<Place>, text: string): (r: Option<seq<Nibble>>)
    ensures r.Some? ==> |r.value| == CountHex(pattern)
  {
    if pattern == [] then if text == "" then Some([]) else None
    else if text == "" then None
    else
      match pattern[0]
      case Literal(c) => if Fold(text[0]) == Fold(c) then Match(pattern[1..], text[1..]) else None
      case Hex =>
        var digit := DigitOf(text[0]);
        var rest := Match(pattern[1..], text[1..]);
        if digit.Some? && rest.Some? then Some([digit.value] + rest.value) else None
  }

  lemma {:induction false} CountConcat(p: seq<Place>, q: seq<Place>)
    ensures CountHex(p + q) == CountHex(p) + CountHex(q)
  {
    if p == [] {
      assert p + q == q;
    } else {
      DropConcat(p, q, 1);
      CountConcat(p[1..], q);
    }
  }

  lemma {:induction false} CountUniform(p: seq<Place>)
    requires forall i :: 0 <= i < |p| ==> p[i].Hex? == p[0].Hex?
    ensures CountHex(p) == if p != [] && p[0].Hex? then |p| else 0
  {
    if p == [] {
    } else {
      CountUniform(p[1..]);
    }
  }

  lemma CountNext(p: seq<Place>, q: seq<Place>)
    requires forall i :: 0 <= i < |q| ==> q[i].Hex? == q[0].Hex?
    ensures CountHex(p + q) == CountHex(p) + if q != [] && q[0].Hex? then |q| else 0
  {
    CountConcat(p, q);
    CountUniform(q);
  }

  lemma PatternHas32Digits()
    ensures CountHex(PATTERN) == 32
  {
    hide CountHex;
    var dash := Literals("-");
    var p1 := Literals("fsm-") + Digits(8);
    CountUniform(Literals("fsm-"));
    CountNext(Literals("fsm-"), Digits(8));
    CountNext(p1, dash);
    var p2 := p1 + dash;
    CountNext(p2, Digits(4));
    CountNext(p2 + Digits(4), dash);
    var p3 := p2 + Digits(4) + dash;
    CountNext(p3, Digits(4));
    CountNext(p3 + Digits(4), dash);
    var p4 := p3 + Digits(4) + dash;
    CountNext(p4, Digits(4));
    CountNext(p4 + Digits(4), dash);
    var p5 := p4 + Digits(4) + dash;
    CountNext(p5, Digits(12));
    CountNext(p5 + Digits(12), Literals("@fsm.local"));
  }

  function BuildIcalUid(u: Uuid): string {
    PatternHas32Digits();
    Write(PATTERN, u)
  }

  /** The pattern's end matches before one final newline too. */
  function Chomp(value: string): string {
    if value != "" && value[|value| - 1] == '\n' then value[..|value| - 1] else value
  }

  function ParseIcalUid(value: string): Option<Uuid> {
    PatternHas32Digits();
    var digits := Match(PATTERN, Chomp(value));
    if digits.Some? then Some(digits.value) else None
  }

  // ---------- What it reads back ----------

  function FoldAll(s: string): (r: string)
    ensures |r| == |s| && forall i :: 0 <= i < |r| ==> r[i] == Fold(s[i])
  {
    seq(|s|, i requires 0 <= i < |s| => Fold(s[i]))
  }

  ghost predicate Lowercase(pattern: seq<Place>) {
    forall i :: 0 <= i < |pattern| && pattern[i].Literal? ==> Fold(pattern[i].c) == pattern[i].c
  }

  lemma DigitRoundTrip(c: char, n: Nibble)
    ensures DigitOf(c) == Some(n) <==> Fold(c) == DigitChar(n)
  {
    var all := "0123456789abcdef";
    assert DigitChar(n) == all[n] == if n < 10 then '0' + n as char else 'a' + (n - 10) as char;
  }

  /** A text matches with these digits iff, letter case aside, it is what they are written as. */
  lemma {:induction false} MatchExactly(pattern: seq<Place>, text: string, digits: seq<Nibble>)
    requires Lowercase(pattern) && |digits| == CountHex(pattern)
    ensures Match(pattern, text) == Some(digits) <==> FoldAll(text) == Write(pattern, digits)
  {
    if pattern == [] || text == "" {
    } else {
      hide Fold, DigitOf, DigitChar, FoldAll;
      FoldCons(text);
      match pattern[0]
      case Literal(c) =>
        MatchExactly(pattern[1..], text[1..], digits);
        HeadAndTail(Fold(text[0]), FoldAll(text[1..]), c, Write(pattern[1..], digits));
      case Hex =>
        MatchExactly(pattern[1..], text[1..], digits[1..]);
        DigitRoundTrip(text[0], digits[0]);
        MatchHex(pattern, text, digits);
        HeadAndTail(Fold(text[0]), FoldAll(text[1..]), DigitChar(digits[0]), Write(pattern[1..], digits[1..]));
    }
  }

  lemma FoldCons(s: string)
    requires s != ""
    ensures FoldAll(s) == [Fold(s[0])] + FoldAll(s[1..])
  {
  }

  lemma MatchHex(pattern: seq<Place>, text: string, digits: seq<Nibble>)
    requires pattern != [] && pattern[0].Hex? && text != "" && digits != []
    ensures Match(pattern, text) == Some(digits) <==>
      DigitOf(text[0]) == Some(digits[0]) && Match(pattern[1..], text[1..]) == Some(digits[1..])
  {
    hide DigitOf;
    var digit := DigitOf(text[0]);
    var rest := Match(pattern[1..], text[1..]);
    if digit.Some? && rest.Some? {
      assert ([digit.value] + rest.value)[1..] == rest.value;
      assert digits == [digits[0]] + digits[1..];
    }
  }

  lemma HeadAndTail(a: char, s: string, b: char, t: string)
    ensures [a] + s == [b] + t <==> a == b && s == t
  {
    assert ([a] + s)[1..] == s && ([b] + t)[1..] == t;
  }

  lemma PatternIsLowercase()
    ensures Lowercase(PATTERN)
  {
  }

  /** The same character but for the case of ASCII letters; a long s counts as an s. */
  predicate SameLetter(c: char, d: char) {
    || c == d
    || ('A' <= c <= 'Z' && d == c - 'A' + 'a')
    || (c == '\U{017F}' && d == 's')
  }

  predicate SameLetters(s: string, t: string) {
    |s| == |t| && forall i :: 0 <= i < |s| ==> SameLetter(s[i], t[i])
  }

  lemma FoldsToLowercase(s: string, t: string)
    requires FoldAll(t) == t
    ensures FoldAll(s) == t <==> SameLetters(s, t)
  {
    forall i | 0 <= i < |t| ensures Fold(t[i]) == t[i] { assert FoldAll(t)[i] == t[i]; }
    if SameLetters(s, t) {
      forall i | 0 <= i < |s| ensures FoldAll(s)[i] == t[i] { assert SameLetter(s[i], t[i]); }
    }
    if FoldAll(s) == t {
      forall i | 0 <= i < |s| ensures SameLetter(s[i], t[i]) { assert FoldAll(s)[i] == t[i]; }
    }
  }

  /** A value names the appointment iff it is the built uid up to letter case and one final newline;
      every other event is foreign. */
  lemma ParseExactly(value: string, u: Uuid)
    ensures ParseIcalUid(value) == Some(u) <==>
      SameLetters(value, BuildIcalUid(u)) || SameLetters(value, BuildIcalUid(u) + "\n")
  {
    hide Match, Write, CountHex, FoldAll, Fold;
    var uid := BuildIcalUid(u);
    PatternHas32Digits();
    PatternIsLowercase();
    PatternHasNoNewline();
    MatchExactly(PATTERN, Chomp(value), u);
    WrittenIsFolded(PATTERN, u);
    WrittenHasNoNewline(PATTERN, u);
    FoldsToLowercase(Chomp(value), uid);
    ChompedLetters(value, uid);
  }

  lemma ChompedLetters(value: string, uid: string)
    requires '\n' !in uid
    ensures SameLetters(Chomp(value), uid) <==> SameLetters(value, uid) || SameLetters(value, uid + "\n")
  {
    var longer := uid + "\n";
    assert forall i :: 0 <= i < |uid| ==> longer[i] == uid[i] && uid[i] != '\n';
    if value != "" && value[|value| - 1] == '\n' {
      var v := value[..|value| - 1];
      if SameLetters(v, uid) {
        forall i | 0 <= i < |value| ensures SameLetter(value[i], longer[i]) {
          assert i < |v| ==> value[i] == v[i] && SameLetter(v[i], uid[i]);
        }
      }
      if SameLetters(value, longer) {
        forall i | 0 <= i < |v| ensures SameLetter(v[i], uid[i]) {
          assert SameLetter(value[i], longer[i]);
        }
      }
    }
  }

  lemma {:induction false} WrittenIsFolded(pattern: seq<Place>, digits: seq<Nibble>)
    requires Lowercase(pattern) && |digits| == CountHex(pattern)
    ensures FoldAll(Write(pattern, digits)) == Write(pattern, digits)
  {
    if pattern == [] {
    } else {
      var rest := if pattern[0].Hex? then digits[1..] else digits;
      WrittenIsFolded(pattern[1..], rest);
      if pattern[0].Hex? {
        DigitRoundTrip(DigitChar(digits[0]), digits[0]);
      }
    }
  }

  lemma {:induction false} WrittenHasNoNewline(pattern: seq<Place>, digits: seq<Nibble>)
    requires |digits| == CountHex(pattern) && forall i :: 0 <= i < |pattern| ==> pattern[i] != Literal('\n')
    ensures '\n' !in Write(pattern, digits)
  {
    if pattern == [] {
    } else {
      WrittenHasNoNewline(pattern[1..], if pattern[0].Hex? then digits[1..] else digits);
      if pattern[0].Hex? {
        assert DigitChar(digits[0]) in "0123456789abcdef";
      }
    }
  }

  /** Every appointment is recognised by the uid built for it. */
  lemma RoundTrip(u: Uuid)
    ensures ParseIcalUid(BuildIcalUid(u)) == Some(u)
  {
    hide Match, Write, CountHex, BuildIcalUid, ParseIcalUid;
    ParseExactly(BuildIcalUid(u), u);
  }

  lemma PatternHasNoNewline()
    ensures forall i :: 0 <= i < |PATTERN| ==> PATTERN[i] != Literal('\n')
  {
  }

  // ---------- What the uid looks like ----------

  /** The digits as hexadecimal text. */
  function Hexed(digits: seq<Nibble>): (r: string)
    ensures |r| == |digits| && forall i :: 0 <= i < |r| ==> r[i] == "0123456789abcdef"[digits[i]]
  {
    seq(|digits|, i requires 0 <= i < |digits| => DigitChar(digits[i]))
  }

  lemma {:induction false} WriteConcat(p: seq<Place>, q: seq<Place>, d: seq<Nibble>, e: seq<Nibble>)
    requires |d| == CountHex(p) && |e| == CountHex(q)
    ensures CountHex(p + q) == |d + e| && Write(p + q, d + e) == Write(p, d) + Write(q, e)
  {
    CountConcat(p, q);
    if p == [] {
      assert p + q == q && d + e == e;
    } else {
      DropConcat(p, q, 1);
      if p[0].Hex? {
        WriteConcat(p[1..], q, d[1..], e);
        DropConcat(d, e, 1);
      } else {
        WriteConcat(p[1..], q, d, e);
      }
    }
  }

  lemma {:induction false} WriteLiterals(s: string)
    ensures CountHex(Literals(s)) == 0 && Write(Literals(s), []) == s
  {
    if s == "" {
    } else {
      assert Literals(s)[1..] == Literals(s[1..]);
      WriteLiterals(s[1..]);
      assert s == [s[0]] + s[1..];
    }
  }

  lemma {:induction false} WriteDigits(d: seq<Nibble>)
    ensures CountHex(Digits(|d|)) == |d| && Write(Digits(|d|), d) == Hexed(d)
  {
    if d == [] {
    } else {
      assert Digits(|d|)[1..] == Digits(|d[1..]|);
      WriteDigits(d[1..]);
      assert Hexed(d) == [DigitChar(d[0])] + Hexed(d[1..]);
    }
  }

  lemma ThenText(p: seq<Place>, d: seq<Nibble>, s: string)
    requires |d| == CountHex(p)
    ensures |d| == CountHex(p + Literals(s)) && Write(p + Literals(s), d) == Write(p, d) + s
  {
    WriteLiterals(s);
    WriteConcat(p, Literals(s), d, []);
    assert d + [] == d;
  }

  lemma ThenDigits(p: seq<Place>, d: seq<Nibble>, e: seq<Nibble>)
    requires |d| == CountHex(p)
    ensures |d + e| == CountHex(p + Digits(|e|)) && Write(p + Digits(|e|), d + e) == Write(p, d) + Hexed(e)
  {
    WriteDigits(e);
    WriteConcat(p, Digits(|e|), d, e);
  }

  /** The uid is `fsm-`, the UUID in its usual grouping, and `@fsm.local`. */
  lemma UidIsSpelled(u: Uuid)
    ensures BuildIcalUid(u) ==
      "fsm-" + Hexed(u[..8]) + "-" + Hexed(u[8..12]) + "-" + Hexed(u[12..16]) + "-" + Hexed(u[16..20]) + "-"
      + Hexed(u[20..]) + "@fsm.local"
  {
    hide Write, CountHex, Literals, Digits, Hexed;
    var d1, d2, d3, d4 := u[..8], u[8..12], u[12..16], u[16..20];
    var p1 := Literals("fsm-") + Digits(8);
    WriteLiterals("fsm-");
    ThenDigits(Literals("fsm-"), [], d1);
    assert [] + d1 == d1;
    ThenText(p1, d1, "-");
    var p2 := p1 + Literals("-") + Digits(4);
    ThenDigits(p1 + Literals("-"), d1, d2);
    ThenText(p2, d1 + d2, "-");
    var p3 := p2 + Literals("-") + Digits(4);
    ThenDigits(p2 + Literals("-"), d1 + d2, d3);
    ThenText(p3, d1 + d2 + d3, "-");
    var p4 := p3 + Literals("-") + Digits(4);
    ThenDigits(p3 + Literals("-"), d1 + d2 + d3, d4);
    ThenText(p4, d1 + d2 + d3 + d4, "-");
    var p5 := p4 + Literals("-") + Digits(12);
    ThenDigits(p4 + Literals("-"), d1 + d2 + d3 + d4, u[20..]);
    assert u == d1 + d2 + d3 + d4 + u[20..];
    ThenText(p5, u, "@fsm.local");
  }
}
