/**
 * The question generator: questions for the ambiguous requirements and the
 * unclear boundaries of a parsed SOW, and follow-up questions for an answer.
 * Questions come back from the language model as JSON, or as
 * `Question: ...` lines that a fallback parser collects; each is tagged
 * with where it came from and the status `unanswered` before it is stored.
 */
module QuestionGenerator {
  import opened Base
  import opened Text
  import opened Json
  import opened Sql
  import opened Llm
  import opened Response
  import opened LineScan
  import opened StoreRows
  import opened DiscoveryDb

  // ------------------------------------------------------------ parsing

  predicate IsQuestionStart(l: string) {
    StartsWith(l, "Question:") || StartsWith(l, "- Question:")
  }

  function QuestionStart(l: string): Dict {
    [("question", JStr(Strip(AfterColon(l))))]
  }

  const QuestionKeys: set<string> := {"context", "priority", "item"}

  /** The fallback parser of `_parse_questions_from_response`: stripped lines, `Question:` starts a question. */
  function QuestionScanner(): Scanner {
    Scanner(true, IsQuestionStart, QuestionStart, QuestionKeys, (k: string, v: string) => JStr(Strip(v)), "question")
  }

  /**
   * `_parse_questions_from_response`: nothing for an empty response; the
   * decoded fenced body or whole text; nothing when the fenced body does not
   * decode (the exception is caught); otherwise the fallback records.
   */
  function ParseQuestions(text: string, decode: Decoder): (r: JValue)
    ensures r.JArr? || (text != [] && ResponseTier(text, decode).Decoded?)
  {
    if text == [] then JArr([])
    else
      match ResponseTier(text, decode)
      case Decoded(v) => v
      case FenceUndecodable => JArr([])
      case Unparsed => JArr(Objects(Scan(QuestionScanner(), text)))
  }

  method ParseQuestionsFromResponse(text: string, decode: Decoder) returns (r: JValue)
    ensures r == ParseQuestions(text, decode)
    ensures text == [] ==> r == JArr([])
  {
    if text == [] {
      return JArr([]);
    }
    var tier := ResponseTier(text, decode);
    match tier {
      case Decoded(v) => r := v;
      case FenceUndecodable => r := JArr([]);
      case Unparsed =>
        var records := ScanLines(QuestionScanner(), text);
        r := JArr(Objects(records));
    }
  }

  /**
   * A fallback question: a dict holding `start` under `question`, and only
   * the keys `question`, `context`, `priority` and `item`, all with string
   * values.
   */
  ghost predicate FallbackQuestion(item: JValue, start: JValue) {
    && item.JObj?
    && Lookup(item.fields, "question") == Some(start)
    && forall k :: HasKey(item.fields, k) ==> (k == "question" || k in QuestionKeys) && Lookup(item.fields, k).value.JStr?
  }

  /**
   * When the response is neither fenced nor JSON, the questions are one
   * dict per line starting with `Question:` or `- Question:`, in order,
   * each a fallback question holding that line's text after the colon.
   */
  lemma {:induction false} ParseQuestionsFallback(text: string, decode: Decoder)
    requires text != [] && ResponseTier(text, decode).Unparsed?
    ensures ParseQuestions(text, decode).JArr?
    ensures var items := ParseQuestions(text, decode).items;
            var starts := StartMains(QuestionScanner(), SplitOn(text, '\n'));
            && |items| == |starts|
            && forall i :: 0 <= i < |items| ==> FallbackQuestion(items[i], starts[i])
  {
    var records := Scan(QuestionScanner(), text);
    assert ParseQuestions(text, decode).items == Objects(records);
    FallbackRecords(text);
  }

  /** The records the fallback scanner builds are fallback questions, one per opening line. */
  lemma {:induction false} FallbackRecords(text: string)
    ensures var records := Scan(QuestionScanner(), text);
            var starts := StartMains(QuestionScanner(), SplitOn(text, '\n'));
            && |records| == |starts|
            && forall i :: 0 <= i < |records| ==> FallbackQuestion(JObj(records[i]), starts[i])
  {
    var sc := QuestionScanner();
    var ok := (k: string, v: JValue) => v.JStr?;
    ScanRecords(sc, ok, text);
    var records := Scan(sc, text);
    forall i | 0 <= i < |records|
      ensures FallbackQuestion(JObj(records[i]), StartMains(sc, SplitOn(text, '\n'))[i])
    {
      assert WellKeyed(sc, ok, records[i]);
    }
  }

  /** A fenced body that does not decode yields no questions, whatever the rest of the response holds. */
  lemma {:induction false} ParseQuestionsFenceShadows(text: string, decode: Decoder)
    requires FindFence(text).Some? && decode(FindFence(text).value).None?
    ensures ParseQuestions(text, decode) == JArr([])
  {
  }

  // ------------------------------------------------------------ tagging

  /**
   * The tagging loop `for q in questions: q[...] = ...` over the items a
   * value iterates: every item tagged when all are dicts; otherwise the
   * first item that is not a dict raises.
   */
  /** `items[i]` is the first element that is not a dict. */
  predicate FirstNonObject(items: seq<JValue>, i: int) {
    0 <= i < |items| && !items[i].JObj? && forall j :: 0 <= j < i ==> items[j].JObj?
  }

  function TagEach(items: seq<JValue>, tag: Dict -> Dict): (r: Outcome<seq<Dict>>)
    ensures r.Ok? <==> forall i :: 0 <= i < |items| ==> items[i].JObj?
    ensures r.Ok? ==> |r.value| == |items| && forall i :: 0 <= i < |items| ==> r.value[i] == tag(items[i].fields)
    ensures r.Raised? ==> exists i :: FirstNonObject(items, i) && r.message == NoItemAssignmentMessage(items[i])
    decreases |items|
  {
    if items == [] then Ok([])
    else if !items[0].JObj? then
      assert FirstNonObject(items, 0);
      Raised(NoItemAssignmentMessage(items[0]))
    else
      var rest := TagEach(items[1..], tag);
      assert forall i :: 1 <= i < |items| ==> items[1..][i - 1] == items[i];
      if rest.Raised? then
        var i :| FirstNonObject(items[1..], i) && rest.message == NoItemAssignmentMessage(items[1..][i]);
        FirstNonObjectShift(items, i);
        rest
      else PrependOk([tag(items[0].fields)], rest)
  }

  lemma FirstNonObjectShift(items: seq<JValue>, i: int)
    requires items != [] && items[0].JObj? && FirstNonObject(items[1..], i)
    ensures FirstNonObject(items, i + 1) && items[i + 1] == items[1..][i]
  {
    forall j | 1 <= j < i + 1 ensures items[j].JObj? {
      assert items[j] == items[1..][j - 1];
    }
  }

  function Tag(parsed: JValue, tag: Dict -> Dict): Outcome<seq<Dict>> {
    match Iter(parsed)
    case None => Raised(NotIterableMessage(parsed))
    case Some(items) => TagEach(items, tag)
  }

  /**
   * The requirement and boundary steps print `len` of the parsed questions
   * before tagging them, so a parsed value without a length raises there.
   */
  function CountedTag(parsed: JValue, tag: Dict -> Dict): Outcome<seq<Dict>> {
    if Len(parsed).None? then Raised(NoLenMessage(parsed)) else Tag(parsed, tag)
  }

  /** The tagging loop itself, over the parsed value. */
  method TagQuestions(parsed: JValue, tag: Dict -> Dict) returns (r: Outcome<seq<Dict>>)
    ensures r == Tag(parsed, tag)
  {
    var items := Iter(parsed);
    if items.None? {
      return Raised(NotIterableMessage(parsed));
    }
    var xs := items.value;
    var tagged: seq<Dict> := [];
    var i := 0;
    while i < |xs|
      invariant 0 <= i <= |xs|
      invariant |tagged| == i
      invariant forall j :: 0 <= j < i ==> xs[j].JObj? && tagged[j] == tag(xs[j].fields)
    {
      if !xs[i].JObj? {
        var t := TagEach(xs, tag);
        assert t.Raised?;
        var k :| FirstNonObject(xs, k) && t.message == NoItemAssignmentMessage(xs[k]);
        assert k == i;
        return Raised(NoItemAssignmentMessage(xs[i]));
      }
      tagged := tagged + [tag(xs[i].fields)];
      i := i + 1;
    }
    assert TagEach(xs, tag).Ok?;
    assert tagged == TagEach(xs, tag).value;
    return Ok(tagged);
  }

  /** `q` carries the given source columns and the status `unanswered`. */
  predicate Tagged(q: Dict, source: JValue, sourceText: JValue) {
    && Lookup(q, "source") == Some(source)
    && Lookup(q, "source_text") == Some(sourceText)
    && Lookup(q, "status") == Some(JStr("unanswered"))
  }

  function RequirementSource(req: Dict): JValue {
    JStr("Requirement: " + PyStr(Get(req, "id", JStr("Unknown"))))
  }

  function RequirementTagged(req: Dict, q: Dict): Dict {
    Set(Set(Set(q, "source", RequirementSource(req)), "source_text", Get(req, "text", JStr(""))),
        "status", JStr("unanswered"))
  }

  function RequirementTag(req: Dict): Dict -> Dict {
    q => RequirementTagged(req, q)
  }

  function BoundaryTag(q: Dict): Dict {
    var q1 := Set(q, "source", JStr("Unclear Boundary"));
    var q2 := Set(q1, "source_text", Get(q1, "item", JStr("Boundary item")));
    Set(q2, "status", JStr("unanswered"))
  }

  /**
   * A requirement question names the requirement's id and text; a boundary
   * question names "Unclear Boundary" and its own `item`; both are
   * `unanswered`, and every other key of the question is kept.
   */
  lemma {:induction false} TagsSetSource(req: Dict, q: Dict)
    ensures Tagged(RequirementTagged(req, q), RequirementSource(req), Get(req, "text", JStr("")))
    ensures Tagged(BoundaryTag(q), JStr("Unclear Boundary"), Get(q, "item", JStr("Boundary item")))
    ensures forall k :: k != "source" && k != "source_text" && k != "status" ==>
              Lookup(RequirementTagged(req, q), k) == Lookup(q, k) && Lookup(BoundaryTag(q), k) == Lookup(q, k)
  {
    KeysDiffer();
    ThreeSets(q, "source", RequirementSource(req), "source_text", Get(req, "text", JStr("")), "status", JStr("unanswered"));
    var q1 := Set(q, "source", JStr("Unclear Boundary"));
    SameGet(q1, q, "item", JStr("Boundary item"));
    ThreeSets(q, "source", JStr("Unclear Boundary"), "source_text", Get(q1, "item", JStr("Boundary item")), "status", JStr("unanswered"));
  }

  /** A boundary question keeps its `item`, so it names its own `item` as source text. */
  lemma {:induction false} BoundaryTagTagged(d: Dict)
    ensures Tagged(BoundaryTag(d), JStr("Unclear Boundary"), Get(BoundaryTag(d), "item", JStr("Boundary item")))
  {
    KeysDiffer();
    var q1 := Set(d, "source", JStr("Unclear Boundary"));
    ThreeSets(d, "source", JStr("Unclear Boundary"), "source_text", Get(q1, "item", JStr("Boundary item")), "status", JStr("unanswered"));
    assert Lookup(BoundaryTag(d), "item") == Lookup(q1, "item");
    SameGet(BoundaryTag(d), q1, "item", JStr("Boundary item"));
  }

  /** Three assignments to distinct keys: each reads back, and every other key is untouched. */
  lemma {:induction false} ThreeSets(q: Dict, k1: string, v1: JValue, k2: string, v2: JValue, k3: string, v3: JValue)
    requires k1 != k2 && k1 != k3 && k2 != k3
    ensures var r := Set(Set(Set(q, k1, v1), k2, v2), k3, v3);
            && Lookup(r, k1) == Some(v1) && Lookup(r, k2) == Some(v2) && Lookup(r, k3) == Some(v3)
            && forall k :: k != k1 && k != k2 && k != k3 ==> Lookup(r, k) == Lookup(q, k)
  {
  }

  /** `get` reads the same from two dicts that agree on the key. */
  lemma {:induction false} SameGet(d1: Dict, d2: Dict, k: string, default: JValue)
    requires Lookup(d1, k) == Lookup(d2, k)
    ensures Get(d1, k, default) == Get(d2, k, default)
  {
  }

  /** The literal keys the tags write are distinct. */
  lemma {:induction false} KeysDiffer()
    ensures "source" != "status" && "source" != "source_text" && "source_text" != "status"
    ensures "item" != "source" && "item" != "source_text" && "item" != "status"
    ensures "parent_question_id" != "source" && "parent_question_id" != "source_text" && "parent_question_id" != "status"
  {
    assert "source"[1] != "status"[1];
    assert "item"[0] != "source"[0] && "item"[0] != "status"[0];
    assert "parent_question_id"[0] != "source"[0] && "parent_question_id"[0] != "status"[0];
  }

  // ------------------------------------------------------------ initial questions

  /** Python 3.11's message for reading `response` before any assignment. */
  const UnboundResponseMessage: string := "cannot access local variable 'response' where it is not associated with a value"

  /** The requirements `sow_data['requirements']` iterates, those with `clarity == 'ambiguous'` kept. */
  function AmbiguousOf(items: seq<JValue>): (r: Outcome<seq<Dict>>)
    ensures r.Ok? <==> forall i :: 0 <= i < |items| ==> items[i].JObj?
    ensures r.Ok? ==> forall d :: d in r.value <==> JObj(d) in items && Get(d, "clarity", JNull) == JStr("ambiguous")
    decreases |items|
  {
    if items == [] then Ok([])
    else if !items[0].JObj? then Raised(NoGetMessage(items[0]))
    else
      var d := items[0].fields;
      var rest := AmbiguousOf(items[1..]);
      assert forall i :: 1 <= i < |items| ==> items[1..][i - 1] == items[i];
      assert items == [items[0]] + items[1..];
      PrependOk(if Get(d, "clarity", JNull) == JStr("ambiguous") then [d] else [], rest)
  }

  function RequirementPrompt(req: Dict): Prompt {
    RequirementQuestionsPrompt(Get(req, "id", JStr("Unknown")), Get(req, "text", JStr("Not provided")),
                               Get(req, "section", JStr("Not provided")), Get(req, "reason", JStr("Not specified")))
  }

  /**
   * One ambiguous requirement: the response in hand afterwards and the
   * questions parsed from it. A failed model call is caught without
   * skipping the requirement, so the previous requirement's response is
   * parsed again; before any response exists, reading it raises. A
   * response whose `.text` cannot be read raises too: the read is outside
   * the `try`.
   */
  function RequirementStep(req: Dict, last: Option<string>, llm: Model, decode: Decoder): (Option<string>, Outcome<seq<Dict>>) {
    var reply := llm(RequirementPrompt(req));
    if reply.Unreadable? then (last, Raised(reply.message))
    else
    var response := if reply.Reply? then Some(reply.text) else last;
    if response.None? then (response, Raised(UnboundResponseMessage))
    else (response, CountedTag(ParseQuestions(response.value, decode), RequirementTag(req)))
  }

  function RequirementStepFn(llm: Model, decode: Decoder): (Dict, Option<string>) -> (Option<string>, Outcome<seq<Dict>>) {
    (req: Dict, last: Option<string>) => RequirementStep(req, last, llm, decode)
  }

  /** The loop over the ambiguous requirements, with the response left over from the previous one. */
  function RequirementQuestions(reqs: seq<Dict>, last: Option<string>, llm: Model, decode: Decoder): Outcome<seq<Dict>> {
    Fold(reqs, last, RequirementStepFn(llm, decode))
  }

  method GenerateRequirementQuestions(reqs: seq<Dict>, llm: Model, decode: Decoder) returns (r: Outcome<seq<Dict>>)
    ensures r == RequirementQuestions(reqs, None, llm, decode)
  {
    r := FoldLoop(reqs, None, RequirementStepFn(llm, decode));
  }

  /** The questions asked for one requirement name it and are `unanswered`. */
  lemma {:induction false} RequirementStepTagged(req: Dict, last: Option<string>, llm: Model, decode: Decoder)
    ensures var t := RequirementStep(req, last, llm, decode).1;
            t.Ok? ==> forall q :: q in t.value ==> Tagged(q, RequirementSource(req), Get(req, "text", JStr("")))
  {
    var step := RequirementStep(req, last, llm, decode);
    if step.1.Ok? {
      var items := Iter(ParseQuestions(step.0.value, decode)).value;
      forall q | q in step.1.value ensures Tagged(q, RequirementSource(req), Get(req, "text", JStr(""))) {
        var i :| 0 <= i < |step.1.value| && step.1.value[i] == q;
        TagsSetSource(req, items[i].fields);
        assert q == RequirementTagged(req, items[i].fields);
      }
    }
  }

  /** Every question of the loop is `unanswered` and names one of the requirements it was asked for. */
  lemma {:induction false} RequirementQuestionsTagged(reqs: seq<Dict>, last: Option<string>, llm: Model, decode: Decoder)
    ensures var r := RequirementQuestions(reqs, last, llm, decode);
            r.Ok? ==> forall q :: q in r.value ==>
              exists k :: 0 <= k < |reqs| && Tagged(q, RequirementSource(reqs[k]), Get(reqs[k], "text", JStr("")))
  {
    var step := RequirementStepFn(llm, decode);
    var p := (req: Dict, q: Dict) => Tagged(q, RequirementSource(req), Get(req, "text", JStr("")));
    forall req, l | req in reqs && step(req, l).1.Ok?
      ensures forall q :: q in step(req, l).1.value ==> p(req, q)
    {
      RequirementStepTagged(req, l, llm, decode);
    }
    FoldItems(reqs, last, step, p);
  }

  /** The boundary step: one model call when `unclear` is truthy; its failure is not caught. */
  function BoundaryQuestions(boundaries: Dict, llm: Model, decode: Decoder): Outcome<seq<Dict>> {
    var unclear := Get(boundaries, "unclear", JNull);
    if !Truthy(unclear) then Ok([])
    else
      match llm(BoundaryQuestionsPrompt(unclear))
      case Failed(m) => Raised(m)
      case Unreadable(m) => Raised(m)
      case Reply(t) => CountedTag(ParseQuestions(t, decode), BoundaryTag)
  }

  /** The requirements the comprehension iterates, when `sow_data['requirements']` exists and is iterable. */
  function RequirementItems(sow: Dict): seq<JValue> {
    if HasKey(sow, "requirements") && Iter(Lookup(sow, "requirements").value).Some? then
      Iter(Lookup(sow, "requirements").value).value
    else []
  }

  /**
   * What `generate_initial_questions` evaluates before its first model call:
   * the counts it prints (`len` of the requirements and of the unclear
   * boundaries, with their defaults), then the ambiguous requirements of
   * `sow_data['requirements']`, which raises `KeyError` when missing. The
   * result is the ambiguous requirements and the boundaries dict.
   */
  function InitialPrelude(sow: Dict): (r: Outcome<(seq<Dict>, Dict)>)
    ensures r.Ok? ==> forall d :: d in r.value.0 ==>
              JObj(d) in RequirementItems(sow) && Get(d, "clarity", JNull) == JStr("ambiguous")
    ensures r.Ok? ==> JObj(r.value.1) == Get(sow, "boundaries", JObj([]))
    ensures !HasKey(sow, "requirements") ==> r.Raised?
  {
    var shownReqs := Get(sow, "requirements", JArr([]));
    var shownBounds := Get(sow, "boundaries", JObj([]));
    if Len(shownReqs).None? then Raised(NoLenMessage(shownReqs))
    else if !shownBounds.JObj? then Raised(NoGetMessage(shownBounds))
    else if Len(Get(shownBounds.fields, "unclear", JArr([]))).None? then
      Raised(NoLenMessage(Get(shownBounds.fields, "unclear", JArr([]))))
    else if !HasKey(sow, "requirements") then Raised(KeyErrorMessage("requirements"))
    else
      var reqs := Lookup(sow, "requirements").value;
      if Iter(reqs).None? then Raised(NotIterableMessage(reqs))
      else
        match AmbiguousOf(Iter(reqs).value)
        case Raised(m) => Raised(m)
        case Ok(amb) => Ok((amb, shownBounds.fields))
  }

  /**
   * `generate_initial_questions` up to the store: the prelude, the questions
   * for the ambiguous requirements, then `sow_data['boundaries']` (a
   * `KeyError` when missing) and the boundary questions.
   */
  function InitialQuestions(sow: Dict, llm: Model, decode: Decoder): (r: Outcome<seq<Dict>>)
    ensures r.Ok? ==> HasKey(sow, "boundaries")
  {
    match InitialPrelude(sow)
    case Raised(m) => Raised(m)
    case Ok(pre) =>
      match RequirementQuestions(pre.0, None, llm, decode)
      case Raised(m) => Raised(m)
      case Ok(qs) =>
        if !HasKey(sow, "boundaries") then Raised(KeyErrorMessage("boundaries"))
        else PrependOk(qs, BoundaryQuestions(pre.1, llm, decode))
  }

  /** The boundary step itself. */
  method GenerateBoundaryQuestions(boundaries: Dict, llm: Model, decode: Decoder) returns (r: Outcome<seq<Dict>>)
    ensures r == BoundaryQuestions(boundaries, llm, decode)
  {
    var unclear := Get(boundaries, "unclear", JNull);
    if !Truthy(unclear) {
      return Ok([]);
    }
    var reply := llm(BoundaryQuestionsPrompt(unclear));
    if !reply.Reply? {
      return Raised(reply.message);
    }
    var parsed := ParseQuestionsFromResponse(reply.text, decode);
    if Len(parsed).None? {
      return Raised(NoLenMessage(parsed));
    }
    r := TagQuestions(parsed, BoundaryTag);
  }

  /** Every boundary question names "Unclear Boundary", its own `item` as source text, and is `unanswered`. */
  lemma {:induction false} BoundaryQuestionsTagged(boundaries: Dict, llm: Model, decode: Decoder)
    ensures var r := BoundaryQuestions(boundaries, llm, decode);
            r.Ok? ==> forall q :: q in r.value ==> Tagged(q, JStr("Unclear Boundary"), Get(q, "item", JStr("Boundary item")))
  {
    var r := BoundaryQuestions(boundaries, llm, decode);
    var unclear := Get(boundaries, "unclear", JNull);
    if r.Ok? && Truthy(unclear) {
      var t := llm(BoundaryQuestionsPrompt(unclear));
      TagImage(ParseQuestions(t.text, decode), BoundaryTag);
      forall q | q in r.value ensures Tagged(q, JStr("Unclear Boundary"), Get(q, "item", JStr("Boundary item"))) {
        var d :| q == BoundaryTag(d);
        BoundaryTagTagged(d);
      }
    }
  }

  /** Every tagged question is the tag applied to some dict. */
  lemma {:induction false} TagImage(parsed: JValue, tag: Dict -> Dict)
    ensures Tag(parsed, tag).Ok? ==> forall q :: q in Tag(parsed, tag).value ==> exists d :: q == tag(d)
  {
    var r := Tag(parsed, tag);
    if r.Ok? {
      var items := Iter(parsed).value;
      forall q | q in r.value ensures exists d :: q == tag(d) {
        var i :| 0 <= i < |r.value| && r.value[i] == q;
        assert q == tag(items[i].fields);
      }
    }
  }

  /**
   * Every generated question is `unanswered` and is either a boundary
   * question or names an ambiguous requirement of the SOW, with that
   * requirement's text as its source text.
   */
  lemma {:induction false} InitialQuestionsTagged(sow: Dict, llm: Model, decode: Decoder)
    ensures var r := InitialQuestions(sow, llm, decode);
            r.Ok? ==> forall q :: q in r.value ==>
              || Tagged(q, JStr("Unclear Boundary"), Get(q, "item", JStr("Boundary item")))
              || exists req :: JObj(req) in RequirementItems(sow) && Get(req, "clarity", JNull) == JStr("ambiguous")
                               && Tagged(q, RequirementSource(req), Get(req, "text", JStr("")))
  {
    var r := InitialQuestions(sow, llm, decode);
    var pre := InitialPrelude(sow);
    if r.Ok? {
      var amb := pre.value.0;
      var qs := RequirementQuestions(amb, None, llm, decode).value;
      RequirementQuestionsTagged(amb, None, llm, decode);
      var bq := BoundaryQuestions(pre.value.1, llm, decode);
      BoundaryQuestionsTagged(pre.value.1, llm, decode);
      assert r.value == qs + bq.value;
      forall q | q in r.value
        ensures || Tagged(q, JStr("Unclear Boundary"), Get(q, "item", JStr("Boundary item")))
                || exists req :: JObj(req) in RequirementItems(sow) && Get(req, "clarity", JNull) == JStr("ambiguous")
                                 && Tagged(q, RequirementSource(req), Get(req, "text", JStr("")))
      {
        if q in qs {
          var k :| 0 <= k < |amb| && Tagged(q, RequirementSource(amb[k]), Get(amb[k], "text", JStr("")));
          assert amb[k] in amb;
        }
      }
    }
  }

  /**
   * The first ambiguous requirement's failed call raises, since there is no
   * earlier response to reuse; a response whose text cannot be read raises
   * its own error.
   */
  lemma {:induction false} FirstCallFailureRaises(reqs: seq<Dict>, llm: Model, decode: Decoder)
    requires reqs != [] && !llm(RequirementPrompt(reqs[0])).Reply?
    ensures var reply := llm(RequirementPrompt(reqs[0]));
            RequirementQuestions(reqs, None, llm, decode)
            == Raised(if reply.Failed? then UnboundResponseMessage else reply.message)
  {
    var reply := llm(RequirementPrompt(reqs[0]));
    assert RequirementStep(reqs[0], None, llm, decode).1 == Raised(if reply.Failed? then UnboundResponseMessage else reply.message);
  }

  /**
   * A reply that parses to a value without a length (a number, a boolean or
   * `null`) raises `len`'s `TypeError` before the tagging loop, both for a
   * requirement and for the unclear boundaries.
   */
  lemma {:induction false} UnsizedParseRaises(reqs: seq<Dict>, last: Option<string>, boundaries: Dict, llm: Model, decode: Decoder)
    ensures reqs != [] && llm(RequirementPrompt(reqs[0])).Reply? ==>
              var parsed := ParseQuestions(llm(RequirementPrompt(reqs[0])).text, decode);
              Len(parsed).None? ==> RequirementQuestions(reqs, last, llm, decode) == Raised(NoLenMessage(parsed))
    ensures var unclear := Get(boundaries, "unclear", JNull);
            Truthy(unclear) && llm(BoundaryQuestionsPrompt(unclear)).Reply? ==>
              var parsed := ParseQuestions(llm(BoundaryQuestionsPrompt(unclear)).text, decode);
              Len(parsed).None? ==> BoundaryQuestions(boundaries, llm, decode) == Raised(NoLenMessage(parsed))
  {
    if reqs != [] && llm(RequirementPrompt(reqs[0])).Reply? {
      var parsed := ParseQuestions(llm(RequirementPrompt(reqs[0])).text, decode);
      if Len(parsed).None? {
        assert RequirementStep(reqs[0], last, llm, decode).1 == Raised(NoLenMessage(parsed));
      }
    }
  }

  /**
   * `generate_initial_questions`: the questions are stored (without a
   * project id of their own, so only those carrying `project_id` become
   * rows) when there are any, and returned; an exception leaves the
   * database as it was.
   */
  method GenerateInitialQuestions(db: DiscoveryDatabase, sow: Dict, llm: Model, decode: Decoder, now: int)
    returns (r: Outcome<seq<Dict>>)
    requires db.Valid()
    modifies db
    ensures db.Valid()
    ensures r == InitialQuestions(sow, llm, decode)
    ensures db.questions == if r.Ok? && r.value != [] then InsertEach(old(db.questions), r.value, QuestionMaker(None, now), QuestionRowId).0
                            else old(db.questions)
    ensures db.projects == old(db.projects) && db.sowRows == old(db.sowRows)
    ensures db.matchTableExists == old(db.matchTableExists) && db.matchRows == old(db.matchRows)
    ensures db.transcripts == old(db.transcripts) && db.answers == old(db.answers) && db.newInfo == old(db.newInfo)
  {
    var pre := InitialPrelude(sow);
    if pre.Raised? {
      return Raised(pre.message);
    }
    var questions := GenerateRequirementQuestions(pre.value.0, llm, decode);
    if questions.Raised? {
      return questions;
    }
    if !HasKey(sow, "boundaries") {
      return Raised(KeyErrorMessage("boundaries"));
    }
    var boundary := GenerateBoundaryQuestions(pre.value.1, llm, decode);
    if boundary.Raised? {
      return boundary;
    }
    var all := questions.value + boundary.value;
    if all != [] {
      var ids := db.StoreQuestions(all, None, now);
    }
    return Ok(all);
  }

  // ------------------------------------------------------------ follow-up questions

  /** The parsed reply of the follow-up prompt; `None` where the fenced body does not decode (the exception is caught). */
  function FollowupResult(text: string, decode: Decoder): Option<JValue> {
    match ResponseTier(text, decode)
    case Decoded(v) => Some(v)
    case FenceUndecodable => None
    case Unparsed =>
      Some(JObj([("fully_answered", JBool(Contains(Lower(text), "fully answered"))),
                 ("reason", JStr("Could not parse structured response")),
                 ("followup_questions", JArr([]))]))
  }

  /** A follow-up inherits the original question's source columns and names it as its parent. */
  function FollowupTagged(original: Question, q: Dict): Dict {
    Set(Set(Set(Set(q, "parent_question_id", JInt(original.id)), "source", ToJson(original.source)),
            "source_text", ToJson(original.sourceText)),
        "status", JStr("unanswered"))
  }

  function FollowupTag(original: Question): Dict -> Dict {
    q => FollowupTagged(original, q)
  }

  /** What `generate_followup_questions` decides: the new status of the original question, if any, and the follow-ups. */
  datatype FollowupPlan = FollowupPlan(status: Option<string>, result: Outcome<seq<Dict>>)

  function Followup(original: Question, answer: SqlValue, llm: Model, decode: Decoder): FollowupPlan {
    match llm(FollowupPrompt(original.text, original.context, original.source, original.sourceText, answer))
    case Failed(m) => FollowupPlan(None, Raised(m))
    case Unreadable(_) => FollowupPlan(None, Ok([]))
    case Reply(t) => ReplyPlan(original, t, decode)
  }

  /** The plan once the model replied with `t`. */
  function ReplyPlan(original: Question, t: string, decode: Decoder): FollowupPlan {
    var res := FollowupResult(t, decode);
    if res.None? || !res.value.JObj? then FollowupPlan(None, Ok([]))
    else
      var d := res.value.fields;
      var status := if Truthy(Get(d, "fully_answered", JBool(false))) then "answered" else "partially_answered";
      var tagged := Tag(Get(d, "followup_questions", JArr([])), FollowupTag(original));
      FollowupPlan(Some(status), if tagged.Ok? then tagged else Ok([]))
  }

  /**
   * A reply that is neither fenced nor JSON marks the question answered
   * exactly when it says "fully answered" (in any case), and brings no
   * follow-ups.
   */
  lemma {:induction false} FollowupFallbackStatus(original: Question, answer: SqlValue, llm: Model, decode: Decoder)
    requires llm(FollowupPrompt(original.text, original.context, original.source, original.sourceText, answer)).Reply?
    requires ResponseTier(llm(FollowupPrompt(original.text, original.context, original.source, original.sourceText, answer)).text, decode).Unparsed?
    ensures var t := llm(FollowupPrompt(original.text, original.context, original.source, original.sourceText, answer)).text;
            Followup(original, answer, llm, decode)
            == FollowupPlan(Some(if Contains(Lower(t), "fully answered") then "answered" else "partially_answered"), Ok([]))
  {
    var t := llm(FollowupPrompt(original.text, original.context, original.source, original.sourceText, answer)).text;
    ReplyFallbackStatus(original, t, decode);
  }

  /** The plan for a reply that is neither fenced nor JSON. */
  lemma {:induction false} ReplyFallbackStatus(original: Question, t: string, decode: Decoder)
    requires ResponseTier(t, decode).Unparsed?
    ensures ReplyPlan(original, t, decode)
            == FollowupPlan(Some(if Contains(Lower(t), "fully answered") then "answered" else "partially_answered"), Ok([]))
  {
    var said := Contains(Lower(t), "fully answered");
    FallbackFields(said);
    var d := FollowupResult(t, decode).value.fields;
    assert Get(d, "fully_answered", JBool(false)) == JBool(said);
    assert Get(d, "followup_questions", JArr([])) == JArr([]);
  }

  /** The dict the follow-up fallback builds holds the flag and no follow-ups. */
  lemma {:induction false} FallbackFields(said: bool)
    ensures var d: Dict := [("fully_answered", JBool(said)),
                            ("reason", JStr("Could not parse structured response")),
                            ("followup_questions", JArr([]))];
            Get(d, "fully_answered", JBool(false)) == JBool(said) && Get(d, "followup_questions", JArr([])) == JArr([])
  {
    var d: Dict := [("fully_answered", JBool(said)),
                    ("reason", JStr("Could not parse structured response")),
                    ("followup_questions", JArr([]))];
    assert KeyIndex(d, "fully_answered") == 0;
    assert "reason"[0] == 'r' && "followup_questions"[0] == 'f' && "followup_questions"[1] == 'o';
    assert "fully_answered"[1] == 'u';
    assert d[2].0 == "followup_questions" && d[0].0 != "followup_questions" && d[1].0 != "followup_questions";
    assert KeyIndex(d, "followup_questions") == 2;
  }

  /**
   * Every follow-up names the original question as its parent, carries its
   * source and source text, and is `unanswered`; the original's status is
   * set only when the reply parsed to a dict.
   */
  lemma {:induction false} FollowupsInherit(original: Question, answer: SqlValue, llm: Model, decode: Decoder)
    ensures var plan := Followup(original, answer, llm, decode);
            && (plan.result.Ok? ==> forall f :: f in plan.result.value ==>
                  Lookup(f, "parent_question_id") == Some(JInt(original.id))
                  && Tagged(f, ToJson(original.source), ToJson(original.sourceText)))
            && (plan.status.Some? <==>
                  var reply := llm(FollowupPrompt(original.text, original.context, original.source, original.sourceText, answer));
                  reply.Reply? && FollowupResult(reply.text, decode).Some? && FollowupResult(reply.text, decode).value.JObj?)
  {
    var reply := llm(FollowupPrompt(original.text, original.context, original.source, original.sourceText, answer));
    if reply.Reply? {
      ReplyPlanInherits(original, reply.text, decode);
    }
  }

  lemma {:induction false} ReplyPlanInherits(original: Question, t: string, decode: Decoder)
    ensures var plan := ReplyPlan(original, t, decode);
            && (plan.result.Ok? ==> forall f :: f in plan.result.value ==>
                  Lookup(f, "parent_question_id") == Some(JInt(original.id))
                  && Tagged(f, ToJson(original.source), ToJson(original.sourceText)))
            && (plan.status.Some? <==> FollowupResult(t, decode).Some? && FollowupResult(t, decode).value.JObj?)
  {
    var plan := ReplyPlan(original, t, decode);
    var res := FollowupResult(t, decode);
    if res.Some? && res.value.JObj? {
      TagImage(Get(res.value.fields, "followup_questions", JArr([])), FollowupTag(original));
      forall f | f in plan.result.value
        ensures Lookup(f, "parent_question_id") == Some(JInt(original.id))
        ensures Tagged(f, ToJson(original.source), ToJson(original.sourceText))
      {
        var d :| f == FollowupTag(original)(d);
        FollowupTaggedInherits(original, d);
      }
    }
  }

  lemma {:induction false} FollowupTaggedInherits(original: Question, d: Dict)
    ensures Lookup(FollowupTagged(original, d), "parent_question_id") == Some(JInt(original.id))
    ensures Tagged(FollowupTagged(original, d), ToJson(original.source), ToJson(original.sourceText))
  {
    KeysDiffer();
  }

  /**
   * `generate_followup_questions` on the question table `qs`: the table
   * afterwards and the result. An unknown id gives `[]` and changes
   * nothing; otherwise the original question's status is set when the plan
   * sets one, and non-empty follow-ups are appended with no project id of
   * their own.
   */
  function FollowupStep(qs: seq<Question>, qid: int, answer: SqlValue, llm: Model, decode: Decoder, now: int)
    : (seq<Question>, Outcome<seq<Dict>>)
  {
    match QuestionById(qs, qid)
    case None => (qs, Ok([]))
    case Some(original) =>
      var plan := Followup(original, answer, llm, decode);
      var marked := if plan.status.Some? then WithStatus(qs, qid, plan.status.value, now) else qs;
      var stored := if plan.result.Ok? && plan.result.value != [] then
                      InsertEach(marked, plan.result.value, QuestionMaker(None, now), QuestionRowId).0
                    else marked;
      (stored, plan.result)
  }

  /** `FollowupStep` for a `(question id, answer)` pair, as a loop step over the question table. */
  function FollowupStepFn(llm: Model, decode: Decoder, now: int)
    : ((int, SqlValue), seq<Question>) -> (seq<Question>, Outcome<seq<Dict>>)
  {
    (p: (int, SqlValue), qs: seq<Question>) => FollowupStep(qs, p.0, p.1, llm, decode, now)
  }

  /**
   * `generate_followup_questions`: nothing for an unknown question; the
   * model call is not guarded, but a `.text` that cannot be read is, and
   * gives `[]`; the original question's status is updated once the reply
   * parsed to a dict, and the follow-ups are stored (with no project id of
   * their own) when there are any.
   */
  method GenerateFollowupQuestions(db: DiscoveryDatabase, qid: int, answer: SqlValue, llm: Model, decode: Decoder, now: int)
    returns (r: Outcome<seq<Dict>>)
    requires db.Valid()
    modifies db
    ensures db.Valid()
    ensures (db.questions, r) == FollowupStep(old(db.questions), qid, answer, llm, decode, now)
    ensures db.projects == old(db.projects) && db.sowRows == old(db.sowRows)
    ensures db.matchTableExists == old(db.matchTableExists) && db.matchRows == old(db.matchRows)
    ensures db.transcripts == old(db.transcripts) && db.answers == old(db.answers) && db.newInfo == old(db.newInfo)
  {
    var original := db.GetQuestion(qid);
    if original.None? {
      return Ok([]);
    }
    var q := original.value;
    var reply := llm(FollowupPrompt(q.text, q.context, q.source, q.sourceText, answer));
    if reply.Failed? {
      return Raised(reply.message);
    }
    if reply.Unreadable? {
      return Ok([]);
    }
    r := ApplyReply(db, q, reply.text, decode, now);
  }

  /**
   * The rest of `generate_followup_questions` once the model replied: the
   * status is set when the reply parsed to a dict, and the follow-ups are
   * stored when there are any.
   */
  method ApplyReply(db: DiscoveryDatabase, q: Question, t: string, decode: Decoder, now: int)
    returns (r: Outcome<seq<Dict>>)
    requires db.Valid()
    modifies db
    ensures db.Valid()
    ensures var plan := ReplyPlan(q, t, decode);
            var marked := if plan.status.Some? then WithStatus(old(db.questions), q.id, plan.status.value, now)
                          else old(db.questions);
            && r == plan.result
            && db.questions == if r.Ok? && r.value != [] then InsertEach(marked, r.value, QuestionMaker(None, now), QuestionRowId).0
                               else marked
    ensures db.projects == old(db.projects) && db.sowRows == old(db.sowRows)
    ensures db.matchTableExists == old(db.matchTableExists) && db.matchRows == old(db.matchRows)
    ensures db.transcripts == old(db.transcripts) && db.answers == old(db.answers) && db.newInfo == old(db.newInfo)
  {
    var res := FollowupResult(t, decode);
    if res.None? || !res.value.JObj? {
      return Ok([]);
    }
    var d := res.value.fields;
    var status := if Truthy(Get(d, "fully_answered", JBool(false))) then "answered" else "partially_answered";
    var ok := db.UpdateQuestionStatus(q.id, status, now);
    var followups := TagQuestions(Get(d, "followup_questions", JArr([])), FollowupTag(q));
    if followups.Raised? {
      return Ok([]);
    }
    if followups.value != [] {
      var ids := db.StoreQuestions(followups.value, None, now);
    }
    return followups;
  }
}
