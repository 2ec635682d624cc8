/**
 The control markers of an assistant reply and the parser that splits a finished reply into what
 the customer reads and what the markers declared.
 */
module ReplyParser {
  import opened Strings
  import opened Markers
  import opened MarkedText

  const SOLVED := "[[SOLVED]]"
  const ESCALATE := "[[ESCALATE]]"
  const CLOSED := "[[CLOSED]]"
  const SKIP := "[[SKIP]]"
  const RESUME := "[[RESUME]]"
  const QUESTION_OPEN := "[[Q]]"
  const QUESTION_CLOSE := "[[/Q]]"
  const EQUIPMENT_OPEN := "[[EQUIP]]"
  const EQUIPMENT_CLOSE := "[[/EQUIP]]"

  const ENDINGS := [SOLVED, ESCALATE, CLOSED]
  const MARKERS := [SOLVED, ESCALATE, CLOSED, SKIP, RESUME,
                    QUESTION_OPEN, QUESTION_CLOSE, EQUIPMENT_OPEN, EQUIPMENT_CLOSE]

  // The characters a marker's name is made of, none of them a bracket or a blank.
  predicate NameChar(c: char) {
    '/' <= c <= 'Z'
  }

  lemma Bracketed(name: string)
    requires name != "" && forall i :: 0 <= i < |name| ==> NameChar(name[i])
    ensures Shaped("[[" + name + "]]")
  {
    var m := "[[" + name + "]]";
    forall i | 2 <= i < |m| - 2 ensures m[i] != '[' && m[i] != ']' && !IsSpace(m[i]) {
      assert m[i] == name[i - 2] && NameChar(name[i - 2]);
    }
  }

  lemma EndingsAreShaped()
    ensures Shaped(SOLVED) && Shaped(ESCALATE) && Shaped(CLOSED)
  {
    hide Shaped;
    Bracketed("SOLVED");
    Bracketed("ESCALATE");
    Bracketed("CLOSED");
    assert SOLVED == "[[" + "SOLVED" + "]]" && ESCALATE == "[[" + "ESCALATE" + "]]" && CLOSED == "[[" + "CLOSED" + "]]";
  }

  lemma ModesAreShaped()
    ensures Shaped(SKIP) && Shaped(RESUME)
  {
    hide Shaped;
    Bracketed("SKIP");
    Bracketed("RESUME");
    assert SKIP == "[[" + "SKIP" + "]]" && RESUME == "[[" + "RESUME" + "]]";
  }

  lemma WrappersAreShaped()
    ensures Shaped(QUESTION_OPEN) && Shaped(QUESTION_CLOSE) && Shaped(EQUIPMENT_OPEN) && Shaped(EQUIPMENT_CLOSE)
  {
    hide Shaped;
    Bracketed("Q");
    Bracketed("/Q");
    Bracketed("EQUIP");
    Bracketed("/EQUIP");
    assert QUESTION_OPEN == "[[" + "Q" + "]]" && QUESTION_CLOSE == "[[" + "/Q" + "]]";
    assert EQUIPMENT_OPEN == "[[" + "EQUIP" + "]]" && EQUIPMENT_CLOSE == "[[" + "/EQUIP" + "]]";
  }

  lemma MarkersAreACode()
    ensures Code(MARKERS)
  {
    hide Shaped;
    EndingsAreShaped();
    ModesAreShaped();
    WrappersAreShaped();
  }

  datatype QuestionSpan = QuestionSpan(start: int, end: int)

  datatype ParsedReply = ParsedReply(
    text: string,
    ending: Option<string>,
    question: Option<QuestionSpan>,
    equipment: Option<string>,
    declined: Option<bool>)

  function UnwrapQuestion(text: string): (string, Option<QuestionSpan>) {
    var u := Unwrap(text, QUESTION_OPEN, QUESTION_CLOSE);
    if u.body.None? then (u.text, None)
    else
      var body := u.body.value;
      (u.text, Some(QuestionSpan(u.at + Lead(body), u.at + |RightTrim(body)|)))
  }

  /** The name a pair wraps; a blank one names nothing. */
  function Identity(body: string): Option<string> {
    var identity := Trim(body);
    if identity == "" then None else Some(identity)
  }

  function UnwrapEquipment(text: string): (string, Option<string>) {
    var u := Unwrap(text, EQUIPMENT_OPEN, EQUIPMENT_CLOSE);
    if u.body.None? then (u.text, None) else (u.text, Identity(u.body.value))
  }

  function Includes(s: string, m: string): (b: bool)
    ensures b <==> Contains(s, m)
  {
    Find(s, m, 0) != -1
  }

  /** The first of these endings that occurs in text. */
  function FirstEnding(endings: seq<string>, text: string): Option<string> {
    if endings == [] then None
    else if Includes(text, endings[0]) then Some(endings[0])
    else FirstEnding(endings[1..], text)
  }

  /** The reply once its equipment, ending and mode markers are out. */
  function Unmoded(text: string): string {
    var text := UnwrapEquipment(text).0;
    var ending := FirstEnding(ENDINGS, text);
    var text := if ending.Some? && ending.value != "" then Without(text, ending.value) else text;
    Without(Without(text, SKIP), RESUME)
  }

  function Declined(text: string): Option<bool> {
    var text := UnwrapEquipment(text).0;
    var ending := FirstEnding(ENDINGS, text);
    var text := if ending.Some? && ending.value != "" then Without(text, ending.value) else text;
    if Includes(text, SKIP) then Some(true)
    else if Includes(text, RESUME) then Some(false)
    else None
  }

  function Untrimmed(text: string): string {
    UnwrapQuestion(Unmoded(text)).0
  }

  function ParseReply(text: string): ParsedReply {
    var (unwrapped, equipment) := UnwrapEquipment(text);
    var (body, span) := UnwrapQuestion(Unmoded(text));
    var lead := Lead(body);
    ParsedReply(
      Trim(body),
      FirstEnding(ENDINGS, unwrapped),
      if span.None? then None else Some(QuestionSpan(span.value.start - lead, span.value.end - lead)),
      equipment,
      Declined(text))
  }

  // ---------- The question span, for every reply ----------

  ghost function QuestionBody(text: string): Option<string> {
    Unwrap(Unmoded(text), QUESTION_OPEN, QUESTION_CLOSE).body
  }

  lemma BlankLead(body: string)
    requires Blank(body)
    ensures Lead(body) == |body| && RightTrim(body) == ""
  {
  }

  /** text[start..end] is a nonempty stretch and reads core. */
  predicate Bounds(text: string, start: int, end: int, core: string) {
    0 <= start < end <= |text| && text[start..end] == core
  }

  // A stretch of non-blank text survives the trim of the whole, shifted by what the trim drops.
  lemma SpanSurvivesTrim(t: string, at: nat, body: string)
    requires At(t, at, body) && !Blank(body)
    ensures Bounds(Trim(t), at + Lead(body) - Lead(t), at + |RightTrim(body)| - Lead(t), Trim(body))
  {
    hide *;
    var pre, post := AtSplits(t, at, body);
    BodyInside(t, pre, body, post);
  }

  lemma BodyInside(t: string, pre: string, body: string, post: string)
    requires t == pre + (body + post) && !Blank(body)
    ensures Bounds(Trim(t), |pre| + Lead(body) - Lead(t), |pre| + |RightTrim(body)| - Lead(t), Trim(body))
  {
    hide *;
    var lead, core, pad := TrimShape(body);
    NestedCore(t, pre, lead, core, pad, post);
  }

  lemma NestedCore(t: string, pre: string, lead: string, core: string, pad: string, post: string)
    requires t == pre + ((lead + (core + pad)) + post)
    requires core != "" && !IsSpace(core[0]) && !IsSpace(core[|core| - 1])
    ensures var start := |pre| + |lead| - Lead(t);
      Bounds(Trim(t), start, start + |core|, core)
  {
    hide *;
    Regroup(pre, lead, core, pad, post);
    CoreSurvivesTrim(pre + lead, core, pad + post);
  }

  lemma CoreSurvivesTrim(x: string, core: string, y: string)
    requires core != "" && !IsSpace(core[0]) && !IsSpace(core[|core| - 1])
    ensures var t := x + (core + y);
      var start := |x| - Lead(t);
      Bounds(Trim(t), start, start + |core|, core)
  {
    hide Trim, LeftTrim, RightTrim, IsSpace;
    TrimAround(x, core, y);
    Slices(LeftTrim(x), core, RightTrim(y), "");
    Assoc(LeftTrim(x), core, RightTrim(y));
    assert RightTrim(y) + "" == RightTrim(y);
  }

  lemma Regroup(pre: string, lead: string, core: string, pad: string, post: string)
    ensures pre + ((lead + (core + pad)) + post) == (pre + lead) + (core + (pad + post))
  {
  }

  /** The reported offsets bound exactly the trimmed question iff the question is not blank. */
  lemma QuestionSpanBoundsTheQuestion(text: string)
    ensures var r := ParseReply(text);
      r.question.Some? <==> QuestionBody(text).Some?
    ensures var r := ParseReply(text);
      r.question.Some? ==>
        var q, body := r.question.value, QuestionBody(text).value;
        && (Bounds(r.text, q.start, q.end, Trim(body)) <==> !Blank(body))
        && (Blank(body) ==> q.end == q.start - |body|)
  {
    var w := Unmoded(text);
    var u := Unwrap(w, QUESTION_OPEN, QUESTION_CLOSE);
    UnwrapPlacesBody(w, QUESTION_OPEN, QUESTION_CLOSE);
    hide Unmoded, Unwrap, Trim, LeftTrim, RightTrim, Lead, FirstEnding, Declined, UnwrapEquipment, At, Blank;
    if u.body.Some? {
      if Blank(u.body.value) {
        BlankLead(u.body.value);
      } else {
        SpanSurvivesTrim(u.text, u.at, u.body.value);
      }
    }
  }
}
