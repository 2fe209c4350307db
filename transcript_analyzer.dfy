/**
 * The transcript analyzer: finds answers to a project's unanswered
 * questions in a meeting transcript, five questions per model call, stores
 * them against the transcript, and asks the model for information the
 * transcript holds outside the SOW's scope, which it stores as well.
 */
module TranscriptAnalyzer {
  import opened Base
  import opened Text
  import opened Json
  import opened Sql
  import opened Llm
  import opened Response
  import opened LineScan
  import opened StoreRows
  import opened DiscoveryDb

  /** Questions per model call. */
  const BatchSize: nat := 5
  /** Characters of the transcript a prompt carries. */
  const TranscriptChars: nat := 30000

  // ------------------------------------------------------------ the fallback answer parser

  const QuestionWord: string := "Question"

  /**
   * The number of the regular expression `Question\s+(\d+)` matched at
   * index `i`: the word, at least one whitespace character, then the
   * longest run of digits, which must not be empty.
   */
  function NumberAt(l: string, i: nat): Option<nat> {
    if !IsInfixAt(l, QuestionWord, i) then None
    else
      var rest := l[i + |QuestionWord|..];
      var w := LeadingCount(rest, IsSpace);
      var ds := rest[w..];
      var d := LeadingCount(ds, IsDigit);
      if w == 0 || d == 0 then None
      else
        assert forall k :: 0 <= k < d ==> ds[..d][k] == ds[k];
        Some(DigitsValue(ds[..d]))
  }

  /** `re.search`: the match that starts leftmost, at or after `from`. */
  function QuestionNumberFrom(l: string, from: nat): Option<nat>
    decreases |l| - from
  {
    if from + |QuestionWord| > |l| then None
    else if NumberAt(l, from).Some? then NumberAt(l, from)
    else QuestionNumberFrom(l, from + 1)
  }

  function QuestionNumber(l: string): Option<nat> {
    QuestionNumberFrom(l, 0)
  }

  lemma {:induction false} NumberAtReads(ws: string, digits: string, rest: string)
    requires ws != [] && forall k :: 0 <= k < |ws| ==> IsSpace(ws[k])
    requires AllDigits(digits)
    requires rest == [] || !IsDigit(rest[0])
    ensures NumberAt(QuestionWord + ws + digits + rest, 0) == Some(DigitsValue(digits))
  {
    var l := QuestionWord + ws + digits + rest;
    assert IsInfixAt(l, QuestionWord, 0) by { assert l[..|QuestionWord|] == QuestionWord; }
    var tail := l[|QuestionWord|..];
    assert tail == ws + (digits + rest);
    assert !IsSpace(digits[0]) by { assert IsDigit(digits[0]); }
    LeadingRun(ws, digits + rest, IsSpace);
    var ds := tail[|ws|..];
    assert ds == digits + rest;
    LeadingRun(digits, rest, IsDigit);
    assert ds[..|digits|] == digits;
  }

  /** The leading run of `p + rest` is `p` when `p` is all run characters and `rest` does not start with one. */
  lemma {:induction false} LeadingRun(p: string, rest: string, f: char -> bool)
    requires forall k :: 0 <= k < |p| ==> f(p[k])
    requires rest == [] || !f(rest[0])
    ensures LeadingCount(p + rest, f) == |p|
  {
    var s := p + rest;
    assert forall k :: 0 <= k < |p| ==> s[k] == p[k];
    assert |p| < |s| ==> s[|p|] == rest[0];
  }

  /** A line `Question <spaces><digits>...` names the question whose number the digits spell. */
  lemma {:induction false} QuestionNumberReads(ws: string, digits: string, rest: string)
    requires ws != [] && forall k :: 0 <= k < |ws| ==> IsSpace(ws[k])
    requires AllDigits(digits)
    requires rest == [] || !IsDigit(rest[0])
    ensures QuestionNumber(QuestionWord + ws + digits + rest) == Some(DigitsValue(digits))
  {
    NumberAtReads(ws, digits, rest);
  }

  predicate IsAnswerStart(l: string) {
    StartsWith(l, "Question") || StartsWith(l, "- Question")
  }

  /** A start line opens `{question_index: n}` when it holds a question number, and an empty record otherwise. */
  function AnswerStart(l: string): Dict {
    match QuestionNumber(l)
    case Some(n) => [("question_index", JInt(n))]
    case None => []
  }

  const AnswerKeys: set<string> := {"answer_found", "answer", "confidence", "explanation"}

  /**
   * The stored value of an answer key: `answer_found` is whether the value
   * mentions "true" or "yes" in any case; `confidence` is the stripped
   * value as a float, 0.5 when that does not parse; the others are the
   * stripped text.
   */
  function AnswerValue(parseFloat: FloatParser, key: string, value: string): JValue {
    if key == "answer_found" then JBool(Contains(Lower(value), "true") || Contains(Lower(value), "yes"))
    else if key == "confidence" then
      match parseFloat(Strip(value))
      case Some(f) => JFloat(f)
      case None => JFloat(0.5)
    else JStr(Strip(value))
  }

  /** The fallback parser of `_parse_answers_from_response`. */
  function AnswerScanner(parseFloat: FloatParser): Scanner {
    Scanner(true, IsAnswerStart, AnswerStart, AnswerKeys,
            (k: string, v: string) => AnswerValue(parseFloat, k, v), "question_index")
  }

  /**
   * `_parse_answers_from_response`: the decoded fenced body or whole text;
   * nothing when the fenced body does not decode; otherwise the fallback
   * records.
   */
  function ParseAnswers(text: string, decode: Decoder, parseFloat: FloatParser): (r: JValue)
    ensures r.JArr? || ResponseTier(text, decode).Decoded?
  {
    match ResponseTier(text, decode)
    case Decoded(v) => v
    case FenceUndecodable => JArr([])
    case Unparsed => JArr(Objects(Scan(AnswerScanner(parseFloat), text)))
  }

  method ParseAnswersFromResponse(text: string, decode: Decoder, parseFloat: FloatParser) returns (r: JValue)
    ensures r == ParseAnswers(text, decode, parseFloat)
  {
    var tier := ResponseTier(text, decode);
    match tier {
      case Decoded(v) => r := v;
      case FenceUndecodable => r := JArr([]);
      case Unparsed =>
        var records := ScanLines(AnswerScanner(parseFloat), text);
        r := JArr(Objects(records));
    }
  }

  /** The type each key of a fallback record holds. */
  predicate AnswerFieldTyped(k: string, v: JValue) {
    && (k == "question_index" ==> v.JInt?)
    && (k == "answer_found" ==> v.JBool?)
    && (k == "confidence" ==> v.JFloat?)
    && (k == "answer" || k == "explanation" ==> v.JStr?)
  }

  lemma {:induction false} AnswerScannerShape(parseFloat: FloatParser)
    ensures var sc := AnswerScanner(parseFloat);
            && StartShape(sc) && sc.mainKey !in sc.keys
            && (forall l :: sc.start(l) != [] ==> AnswerFieldTyped(sc.mainKey, sc.start(l)[0].1))
            && (forall k, v :: k in sc.keys ==> AnswerFieldTyped(k, sc.convert(k, v)))
  {
    var sc := AnswerScanner(parseFloat);
    assert "question_index" != "answer_found" && "question_index" != "answer";
    assert "question_index" != "confidence" && "question_index" != "explanation";
    assert "answer_found" != "confidence" && "answer" != "confidence" && "explanation" != "confidence";
    assert "answer" != "answer_found" && "explanation" != "answer_found";
    forall k, v | k in sc.keys ensures AnswerFieldTyped(k, sc.convert(k, v)) {
      assert sc.convert(k, v) == AnswerValue(parseFloat, k, v);
    }
  }

  /**
   * When the response is neither fenced nor JSON, the answers are one dict
   * per line that starts with `Question` or `- Question` and holds a
   * question number, in order, each holding that number under
   * `question_index` and otherwise only `answer_found` (a boolean),
   * `confidence` (a float), `answer` and `explanation` (strings).
   */
  lemma {:induction false} ParseAnswersFallback(text: string, decode: Decoder, parseFloat: FloatParser)
    requires ResponseTier(text, decode).Unparsed?
    ensures ParseAnswers(text, decode, parseFloat).JArr?
    ensures var items := ParseAnswers(text, decode, parseFloat).items;
            var starts := StartMains(AnswerScanner(parseFloat), SplitOn(text, '\n'));
            && |items| == |starts|
            && forall i :: 0 <= i < |items| ==>
                 && items[i].JObj?
                 && Lookup(items[i].fields, "question_index") == Some(starts[i])
                 && forall k :: HasKey(items[i].fields, k) ==>
                      (k == "question_index" || k in AnswerKeys) && AnswerFieldTyped(k, Lookup(items[i].fields, k).value)
  {
    var sc := AnswerScanner(parseFloat);
    AnswerScannerShape(parseFloat);
    ScanShape(sc, AnswerFieldTyped, text);
    ScanMains(sc, text);
    var records := Scan(sc, text);
    forall i | 0 <= i < |records|
      ensures Lookup(records[i], "question_index") == Some(StartMains(sc, SplitOn(text, '\n'))[i])
    {
      assert records[i] in records;
      assert MainsOf(sc, records)[i] == Get(records[i], "question_index", JNull);
    }
    forall i, k | 0 <= i < |records| && HasKey(records[i], k)
      ensures (k == "question_index" || k in AnswerKeys) && AnswerFieldTyped(k, Lookup(records[i], k).value)
    {
      assert records[i] in records;
      assert WellKeyed(sc, AnswerFieldTyped, records[i]);
    }
  }

  // ------------------------------------------------------------ mapping a batch's answers

  datatype FoundAnswer = FoundAnswer(questionId: int, answer: JValue, confidence: JValue)

  /** What the mapping loop does with one parsed item: keep an answer, skip it, or stop on an exception. */
  datatype ItemOutcome = Keep(found: FoundAnswer) | Skip | Stop

  function Found(d: Dict, batch: seq<Question>, k: int): FoundAnswer
    requires 0 <= k < |batch|
  {
    FoundAnswer(batch[k].id, Get(d, "answer", JStr("")), Get(d, "confidence", JFloat(0.0)))
  }

  /** The 1-based question number an index value stands for in integer arithmetic. */
  function OneBased(v: JValue): Option<int> {
    match v
    case JInt(i) => Some(i)
    case JBool(b) => Some(if b then 1 else 0)
    case _ => None
  }

  /**
   * One item of a batch's reply: an item that is not a dict raises (no
   * `.get`); one whose `answer_found` is falsy is skipped; otherwise
   * `question_index - 1` picks the batch position, where an index that is
   * not a number raises, a float in range raises (a list index must be an
   * integer), and an index out of range is skipped.
   *
   * So an item yields an answer exactly when it is a dict with a truthy
   * `answer_found` whose `question_index` (0 when absent) is an integer
   * naming a question of the batch, counting from 1; the answer is for that
   * question, with `answer` defaulting to "" and `confidence` to 0.0.
   */
  function AnswerItem(item: JValue, batch: seq<Question>): (o: ItemOutcome)
    ensures o.Keep? <==>
              && item.JObj?
              && Truthy(Get(item.fields, "answer_found", JBool(false)))
              && var n := OneBased(Get(item.fields, "question_index", JInt(0)));
                 n.Some? && 1 <= n.value <= |batch|
    ensures o.Keep? ==>
              var n := OneBased(Get(item.fields, "question_index", JInt(0))).value;
              o.found == FoundAnswer(batch[n - 1].id, Get(item.fields, "answer", JStr("")), Get(item.fields, "confidence", JFloat(0.0)))
    ensures o.Stop? <==>
              || !item.JObj?
              || (&& Truthy(Get(item.fields, "answer_found", JBool(false)))
                  && var v := Get(item.fields, "question_index", JInt(0));
                     && OneBased(v).None?
                     && (v.JFloat? ==> 1.0 <= v.f < |batch| as real + 1.0))
  {
    if !item.JObj? then Stop
    else
      var d := item.fields;
      if !Truthy(Get(d, "answer_found", JBool(false))) then Skip
      else
        match Get(d, "question_index", JInt(0))
        case JInt(i) => if 0 <= i - 1 < |batch| then Keep(Found(d, batch, i - 1)) else Skip
        case JBool(b) =>
          var q := (if b then 1 else 0) - 1;
          if 0 <= q < |batch| then Keep(Found(d, batch, q)) else Skip
        case JFloat(f) => if 0.0 <= f - 1.0 < |batch| as real then Stop else Skip
        case _ => Stop
  }

  /** The mapping loop: answers in item order, up to the first item that raises (the exception is caught). */
  function BatchAnswers(items: seq<JValue>, batch: seq<Question>): seq<FoundAnswer>
    decreases |items|
  {
    if items == [] then []
    else
      match AnswerItem(items[0], batch)
      case Stop => []
      case Skip => BatchAnswers(items[1..], batch)
      case Keep(a) => [a] + BatchAnswers(items[1..], batch)
  }

  method MapAnswers(items: seq<JValue>, batch: seq<Question>) returns (found: seq<FoundAnswer>)
    ensures found == BatchAnswers(items, batch)
  {
    found := [];
    var j := 0;
    while j < |items|
      invariant 0 <= j <= |items|
      invariant BatchAnswers(items, batch) == found + BatchAnswers(items[j..], batch)
    {
      assert items[j..][0] == items[j] && items[j..][1..] == items[j + 1..];
      var o := AnswerItem(items[j], batch);
      if o.Stop? {
        assert found + [] == found;
        return;
      }
      if o.Keep? {
        assert found + ([o.found] + BatchAnswers(items[j + 1..], batch))
            == (found + [o.found]) + BatchAnswers(items[j + 1..], batch);
        found := found + [o.found];
      }
      j := j + 1;
    }
    assert items[j..] == [];
    assert found + [] == found;
  }

  /** Every answer of a batch is for a question of the batch. */
  lemma {:induction false} BatchAnswersInBatch(items: seq<JValue>, batch: seq<Question>)
    ensures forall a :: a in BatchAnswers(items, batch) ==> exists k :: 0 <= k < |batch| && a.questionId == batch[k].id
    decreases |items|
  {
    if items != [] {
      BatchAnswersInBatch(items[1..], batch);
      var o := AnswerItem(items[0], batch);
      if o.Keep? {
        var n := OneBased(Get(items[0].fields, "question_index", JInt(0))).value;
        assert o.found.questionId == batch[n - 1].id;
      }
    }
  }

  /** A well-formed reply (every item a dict claiming an answer to a question of the batch) yields one answer per item, in order. */
  lemma {:induction false} BatchAnswersComplete(items: seq<JValue>, batch: seq<Question>)
    requires forall i :: 0 <= i < |items| ==> AnswerItem(items[i], batch).Keep?
    ensures |BatchAnswers(items, batch)| == |items|
    ensures forall i :: 0 <= i < |items| ==> BatchAnswers(items, batch)[i] == AnswerItem(items[i], batch).found
    decreases |items|
  {
    if items != [] {
      assert forall i :: 0 <= i < |items[1..]| ==> items[1..][i] == items[i + 1];
      BatchAnswersComplete(items[1..], batch);
    }
  }

  /** The answers of one batch's reply; a value that cannot be iterated raises, which is caught. */
  function ReplyAnswers(parsed: JValue, batch: seq<Question>): seq<FoundAnswer> {
    match Iter(parsed)
    case None => []
    case Some(items) => BatchAnswers(items, batch)
  }

  function QuestionTexts(batch: seq<Question>): (ts: seq<SqlValue>)
    ensures |ts| == |batch| && forall i :: 0 <= i < |batch| ==> ts[i] == batch[i].text
  {
    seq(|batch|, i requires 0 <= i < |batch| => batch[i].text)
  }

  /**
   * One batch: a model call outside the `try` (its failure is not caught),
   * then the parsed, mapped answers; a `.text` that cannot be read is inside
   * the `try`, so that batch brings no answers.
   */
  function BatchOutcome(batch: seq<Question>, transcript: string, llm: Model, decode: Decoder, parseFloat: FloatParser)
    : Outcome<seq<FoundAnswer>>
  {
    match llm(TranscriptAnswersPrompt(QuestionTexts(batch), Take(transcript, TranscriptChars)))
    case Failed(m) => Raised(m)
    case Unreadable(_) => Ok([])
    case Reply(t) => Ok(ReplyAnswers(ParseAnswers(t, decode, parseFloat), batch))
  }

  method AnswerBatch(batch: seq<Question>, transcript: string, llm: Model, decode: Decoder, parseFloat: FloatParser)
    returns (r: Outcome<seq<FoundAnswer>>)
    ensures r == BatchOutcome(batch, transcript, llm, decode, parseFloat)
  {
    var reply := llm(TranscriptAnswersPrompt(QuestionTexts(batch), Take(transcript, TranscriptChars)));
    if reply.Failed? {
      return Raised(reply.message);
    }
    if reply.Unreadable? {
      return Ok([]);
    }
    var parsed := ParseAnswersFromResponse(reply.text, decode, parseFloat);
    var items := Iter(parsed);
    if items.None? {
      return Ok([]);
    }
    var found := MapAnswers(items.value, batch);
    r := Ok(found);
  }

  /** `questions[i:i+5]` for `i` in `range(0, len(questions), 5)`. */
  function Batches(qs: seq<Question>): seq<seq<Question>>
    decreases |qs|
  {
    if qs == [] then []
    else
      var n := Min(|qs|, BatchSize);
      [qs[..n]] + Batches(qs[n..])
  }

  function Concat<T>(xss: seq<seq<T>>): seq<T>
    decreases |xss|
  {
    if xss == [] then [] else xss[0] + Concat(xss[1..])
  }

  /** The batches cover the questions in order; all hold five questions except the last, which holds one to five. */
  lemma {:induction false} BatchesCover(qs: seq<Question>)
    ensures Concat(Batches(qs)) == qs
    ensures forall i :: 0 <= i < |Batches(qs)| - 1 ==> |Batches(qs)[i]| == BatchSize
    ensures Batches(qs) != [] ==> 0 < |Batches(qs)[|Batches(qs)| - 1]| <= BatchSize
    ensures |Batches(qs)| == (|qs| + BatchSize - 1) / BatchSize
    decreases |qs|
  {
    if qs != [] {
      var n := Min(|qs|, BatchSize);
      BatchesCover(qs[n..]);
      var bs := Batches(qs);
      assert bs[1..] == Batches(qs[n..]);
      assert qs[..n] + qs[n..] == qs;
      forall i | 0 <= i < |bs| - 1 ensures |bs[i]| == BatchSize {
        if i > 0 {
          assert bs[i] == Batches(qs[n..])[i - 1];
        } else {
          assert Batches(qs[n..]) != [];
        }
      }
      if |bs| > 1 {
        assert bs[|bs| - 1] == Batches(qs[n..])[|Batches(qs[n..])| - 1];
      }
    }
  }

  lemma {:induction false} ConcatMembers<T>(xss: seq<seq<T>>, x: T)
    requires x in Concat(xss)
    ensures exists i :: 0 <= i < |xss| && x in xss[i]
    decreases |xss|
  {
    if x !in xss[0] {
      ConcatMembers(xss[1..], x);
      var i :| 0 <= i < |xss[1..]| && x in xss[1..][i];
      assert xss[i + 1] == xss[1..][i];
    }
  }

  function AnswerStepFn(transcript: string, llm: Model, decode: Decoder, parseFloat: FloatParser)
    : (seq<Question>, ()) -> ((), Outcome<seq<FoundAnswer>>)
  {
    (b: seq<Question>, u: ()) => ((), BatchOutcome(b, transcript, llm, decode, parseFloat))
  }

  /** `extract_answers`: the batches' answers in order; the first model failure raises. */
  function ExtractedAnswers(transcript: string, qs: seq<Question>, llm: Model, decode: Decoder, parseFloat: FloatParser)
    : (r: Outcome<seq<FoundAnswer>>)
    ensures qs == [] ==> r == Ok([])
  {
    Fold(Batches(qs), (), AnswerStepFn(transcript, llm, decode, parseFloat))
  }

  /** Every extracted answer is for one of the questions asked. */
  lemma {:induction false} ExtractedAnswersAsked(transcript: string, qs: seq<Question>, llm: Model, decode: Decoder, parseFloat: FloatParser)
    ensures var r := ExtractedAnswers(transcript, qs, llm, decode, parseFloat);
            r.Ok? ==> forall a :: a in r.value ==> exists q :: q in qs && a.questionId == q.id
  {
    var step := AnswerStepFn(transcript, llm, decode, parseFloat);
    var bs := Batches(qs);
    var p := (b: seq<Question>, a: FoundAnswer) => exists k :: 0 <= k < |b| && a.questionId == b[k].id;
    forall b, u | b in bs && step(b, u).1.Ok?
      ensures forall a :: a in step(b, u).1.value ==> p(b, a)
    {
      var reply := llm(TranscriptAnswersPrompt(QuestionTexts(b), Take(transcript, TranscriptChars)));
      var parsed := if reply.Reply? then Iter(ParseAnswers(reply.text, decode, parseFloat)) else None;
      if parsed.Some? {
        BatchAnswersInBatch(parsed.value, b);
      }
    }
    FoldItems(bs, (), step, p);
    BatchesCover(qs);
    var r := ExtractedAnswers(transcript, qs, llm, decode, parseFloat);
    if r.Ok? {
      forall a | a in r.value ensures exists q :: q in qs && a.questionId == q.id {
        var i :| 0 <= i < |bs| && p(bs[i], a);
        var k :| 0 <= k < |bs[i]| && a.questionId == bs[i][k].id;
        assert bs[i][k] in bs[i];
        ConcatMembersBack(bs, i, bs[i][k]);
      }
    }
  }

  lemma {:induction false} ConcatMembersBack<T>(xss: seq<seq<T>>, i: nat, x: T)
    requires i < |xss| && x in xss[i]
    ensures x in Concat(xss)
    decreases |xss|
  {
    if i > 0 {
      assert xss[1..][i - 1] == xss[i];
      ConcatMembersBack(xss[1..], i - 1, x);
    }
  }

  /** The batches from position `i` on: the next (up to) five questions, then the batches after them. */
  lemma {:induction false} BatchesFrom(qs: seq<Question>, i: nat)
    requires i < |qs|
    ensures var n := Min(|qs| - i, BatchSize);
            Batches(qs[i..]) == [qs[i..i + n]] + Batches(qs[i + n..])
  {
    var n := Min(|qs| - i, BatchSize);
    assert qs[i..][..n] == qs[i..i + n] && qs[i..][n..] == qs[i + n..];
  }

  /** The loop of `extract_answers`, over `i` in steps of five. */
  method ExtractAnswers(transcript: string, qs: seq<Question>, llm: Model, decode: Decoder, parseFloat: FloatParser)
    returns (r: Outcome<seq<FoundAnswer>>)
    ensures r == ExtractedAnswers(transcript, qs, llm, decode, parseFloat)
  {
    var step := AnswerStepFn(transcript, llm, decode, parseFloat);
    var answers: seq<FoundAnswer> := [];
    var i := 0;
    assert qs[i..] == qs;
    assert PrependOk([], Fold(Batches(qs), (), step)) == Fold(Batches(qs), (), step) by {
      var x := Fold(Batches(qs), (), step);
      if x.Ok? {
        assert [] + x.value == x.value;
      }
    }
    while i < |qs|
      invariant 0 <= i <= |qs|
      invariant Fold(Batches(qs), (), step) == PrependOk(answers, Fold(Batches(qs[i..]), (), step))
      decreases |qs| - i
    {
      var n := Min(|qs| - i, BatchSize);
      var batch := qs[i..i + n];
      BatchesFrom(qs, i);
      FoldCons(batch, Batches(qs[i + n..]), (), step);
      var out := AnswerBatch(batch, transcript, llm, decode, parseFloat);
      assert step(batch, ()) == ((), out);
      if out.Raised? {
        return Raised(out.message);
      }
      var rest := Fold(Batches(qs[i + n..]), (), step);
      if rest.Ok? {
        assert answers + (out.value + rest.value) == (answers + out.value) + rest.value;
      }
      answers := answers + out.value;
      i := i + n;
    }
    assert qs[i..] == [];
    assert answers + [] == answers;
    r := Ok(answers);
  }

  // ------------------------------------------------------------ new information

  /** A scope list as the prompt shows it: only a truthy list contributes lines. */
  function ScopeShown(v: JValue): JValue {
    if Truthy(v) then v else JArr([])
  }

  /**
   * The topics `identify_new_information` obtains, before storing them:
   * none without SOW data; the boundary lookups and the iteration over a
   * truthy scope list happen outside the `try`, so a boundaries value that
   * is not a dict, or a truthy scope value that cannot be iterated, raises,
   * as does a failing model call; then the decoded fenced body or whole
   * text, and nothing otherwise (nor when `.text` cannot be read).
   */
  function NewInfoReply(rec: Option<SowRecord>, transcript: string, llm: Model, decode: Decoder): Outcome<JValue> {
    match rec
    case None => Ok(JArr([]))
    case Some(s) =>
      if !s.boundaries.JObj? then Raised(NoGetMessage(s.boundaries))
      else
        var inScope := Get(s.boundaries.fields, "in_scope", JArr([]));
        var outScope := Get(s.boundaries.fields, "out_of_scope", JArr([]));
        if Truthy(inScope) && Iter(inScope).None? then Raised(NotIterableMessage(inScope))
        else if Truthy(outScope) && Iter(outScope).None? then Raised(NotIterableMessage(outScope))
        else
          match llm(NewInformationPrompt(ScopeShown(inScope), ScopeShown(outScope), Take(transcript, TranscriptChars)))
          case Failed(m) => Raised(m)
          case Unreadable(_) => Ok(JArr([]))
          case Reply(t) =>
            match ResponseTier(t, decode)
            case Decoded(v) => Ok(v)
            case _ => Ok(JArr([]))
  }

  /**
   * The new-information rows `identify_new_information` leaves behind once
   * it obtained `e`: a truthy reply that can be iterated is stored as rows
   * without a transcript id; anything else stores nothing (storing a value
   * that cannot be iterated raises and is caught).
   */
  function NewInfoAfter(rows: seq<NewInfo>, e: Outcome<JValue>, pid: int, now: int): seq<NewInfo> {
    if e.Ok? && Truthy(e.value) && Iter(e.value).Some? then
      InsertEach(rows, Iter(e.value).value, NewInfoMaker(pid, None, now), NewInfoRowId).0
    else rows
  }

  /** What `identify_new_information` returns once it obtained `e`: `e` itself, or `[]` when storing it raised. */
  function NewInfoReturned(e: Outcome<JValue>): Outcome<JValue> {
    if e.Ok? && Truthy(e.value) && Iter(e.value).None? then Ok(JArr([])) else e
  }

  /**
   * `identify_new_information`: a truthy reply is stored as new-information
   * rows (without a transcript id) and returned, unless storing it raises,
   * in which case nothing is stored and `[]` is returned; a falsy reply is
   * returned as it is.
   */
  method IdentifyNewInformation(db: DiscoveryDatabase, pid: int, transcript: string, llm: Model, decode: Decoder, now: int)
    returns (r: Outcome<JValue>)
    requires db.Valid()
    modifies db
    ensures db.Valid()
    ensures var e := NewInfoReply(old(db.SowDataOf(pid)), transcript, llm, decode);
            && (e.Raised? ==> r == e && db.newInfo == old(db.newInfo))
            && (e.Ok? && !Truthy(e.value) ==> r == e && db.newInfo == old(db.newInfo))
            && (e.Ok? && Truthy(e.value) && Iter(e.value).None? ==> r == Ok(JArr([])) && db.newInfo == old(db.newInfo))
            && (e.Ok? && Truthy(e.value) && Iter(e.value).Some? ==>
                  r == e && db.newInfo == InsertEach(old(db.newInfo), Iter(e.value).value, NewInfoMaker(pid, None, now), NewInfoRowId).0)
            && r == NewInfoReturned(e) && db.newInfo == NewInfoAfter(old(db.newInfo), e, pid, now)
    ensures db.projects == old(db.projects) && db.sowRows == old(db.sowRows)
    ensures db.matchTableExists == old(db.matchTableExists) && db.matchRows == old(db.matchRows)
    ensures db.questions == old(db.questions) && db.transcripts == old(db.transcripts) && db.answers == old(db.answers)
  {
    var rec := db.GetProjectSowData(pid);
    if rec.None? {
      return Ok(JArr([]));
    }
    var boundaries := rec.value.boundaries;
    if !boundaries.JObj? {
      return Raised(NoGetMessage(boundaries));
    }
    var inScope := Get(boundaries.fields, "in_scope", JArr([]));
    var outScope := Get(boundaries.fields, "out_of_scope", JArr([]));
    if Truthy(inScope) && Iter(inScope).None? {
      return Raised(NotIterableMessage(inScope));
    }
    if Truthy(outScope) && Iter(outScope).None? {
      return Raised(NotIterableMessage(outScope));
    }
    var reply := llm(NewInformationPrompt(ScopeShown(inScope), ScopeShown(outScope), Take(transcript, TranscriptChars)));
    if reply.Failed? {
      return Raised(reply.message);
    }
    if reply.Unreadable? {
      return Ok(JArr([]));
    }
    var info := JArr([]);
    var tier := ResponseTier(reply.text, decode);
    if tier.Decoded? {
      info := tier.value;
    }
    if Truthy(info) {
      var stored := db.StoreNewInformation(pid, info, None, now);
      if stored.Raised? {
        return Ok(JArr([]));
      }
    }
    r := Ok(info);
  }

  // ------------------------------------------------------------ processing a transcript

  datatype TranscriptResult =
    | NoQuestions
    | Processed(transcriptId: int, answersFound: nat, newInfoTopics: JValue)

  /** The answer row `store_answer` inserts for a found answer, or `None` where a value does not bind. */
  function AnswerMaker(tid: int, now: int): (FoundAnswer, int) -> Option<Answer> {
    (f: FoundAnswer, n: int) =>
      if Bind(f.answer).Some? && Bind(f.confidence).Some? then
        Some(Answer(n, f.questionId, tid, TextAffinity(Bind(f.answer).value), RealAffinity(Bind(f.confidence).value), now))
      else None
  }

  lemma {:induction false} AnswerMakerStamps(tid: int, now: int)
    ensures Stamps(AnswerMaker(tid, now), AnswerRowId)
  {
  }

  /** The storing loop of `process_transcript`: one `store_answer` per found answer, counting those stored. */
  method StoreFoundAnswers(db: DiscoveryDatabase, found: seq<FoundAnswer>, tid: int, now: int) returns (count: nat)
    requires db.Valid()
    modifies db
    ensures db.Valid()
    ensures var ins := InsertEach(old(db.answers), found, AnswerMaker(tid, now), AnswerRowId);
            db.answers == ins.0 && count == |ins.1|
    ensures db.projects == old(db.projects) && db.sowRows == old(db.sowRows)
    ensures db.matchTableExists == old(db.matchTableExists) && db.matchRows == old(db.matchRows)
    ensures db.questions == old(db.questions) && db.transcripts == old(db.transcripts) && db.newInfo == old(db.newInfo)
  {
    var make := AnswerMaker(tid, now);
    ghost var ids: seq<int> := [];
    count := 0;
    var j := 0;
    assert found[j..] == found;
    assert InsertEach(old(db.answers), found, make, AnswerRowId).1 == ids + InsertEach(old(db.answers), found, make, AnswerRowId).1;
    while j < |found|
      invariant 0 <= j <= |found|
      invariant db.Valid() && count == |ids|
      invariant db.projects == old(db.projects) && db.sowRows == old(db.sowRows)
      invariant db.matchTableExists == old(db.matchTableExists) && db.matchRows == old(db.matchRows)
      invariant db.questions == old(db.questions) && db.transcripts == old(db.transcripts) && db.newInfo == old(db.newInfo)
      invariant InsertEach(old(db.answers), found, make, AnswerRowId)
             == (InsertEach(db.answers, found[j..], make, AnswerRowId).0, ids + InsertEach(db.answers, found[j..], make, AnswerRowId).1)
    {
      var f := found[j];
      assert found[j..][0] == f && found[j..][1..] == found[j + 1..];
      ghost var before := db.answers;
      ghost var n := NextId(Ids(before, AnswerRowId));
      var stored := db.StoreAnswer(f.questionId, tid, f.answer, f.confidence, now);
      if stored {
        assert make(f, n) == Some(db.answers[|db.answers| - 1]);
        var rest := InsertEach(db.answers, found[j + 1..], make, AnswerRowId);
        assert InsertEach(before, found[j..], make, AnswerRowId) == (rest.0, [n] + rest.1);
        assert ids + ([n] + rest.1) == (ids + [n]) + rest.1;
        ids := ids + [n];
        count := count + 1;
      } else {
        assert make(f, n).None?;
      }
      j := j + 1;
    }
    assert found[j..] == [];
  }

  /** The rows the storing loop adds are for the transcript and for questions some found answer names. */
  lemma {:induction false} StoredAnswersAsked(a0: seq<Answer>, found: seq<FoundAnswer>, tid: int, now: int, qs: seq<Question>)
    requires IdsOk(Ids(a0, AnswerRowId))
    requires forall f :: f in found ==> exists q :: q in qs && f.questionId == q.id
    ensures var ins := InsertEach(a0, found, AnswerMaker(tid, now), AnswerRowId);
            |ins.0| == |a0| + |ins.1| && ins.0[..|a0|] == a0
    ensures var ins := InsertEach(a0, found, AnswerMaker(tid, now), AnswerRowId).0;
            forall a :: a in ins[|a0|..] ==> a.transcriptId == tid && exists q :: q in qs && q.id == a.questionId
  {
    AnswerMakerStamps(tid, now);
    InsertEachShape(a0, found, AnswerMaker(tid, now), AnswerRowId);
    var ins := InsertEach(a0, found, AnswerMaker(tid, now), AnswerRowId);
    forall a | a in ins.0[|a0|..]
      ensures a.transcriptId == tid && exists q :: q in qs && q.id == a.questionId
    {
      var k :| 0 <= k < |ins.0[|a0|..]| && ins.0[|a0|..][k] == a;
      assert a == ins.0[|a0| + k];
      var j :| 0 <= j < |found| && AnswerMaker(tid, now)(found[j], ins.1[k]) == Some(a);
      assert found[j] in found;
    }
  }

  /**
   * The answer and new-information tables after `process_transcript` stored
   * transcript `tid`, from the answers extracted (`found`) and the topics
   * obtained (`e`): an extraction that raises stores nothing more; otherwise
   * every found answer whose values bind becomes a row for `tid`, the
   * topics are stored as `identify_new_information` stores them, and the
   * result carries the topics it returns, or its error.
   */
  ghost predicate TranscriptAnswered(r: Outcome<TranscriptResult>, found: Outcome<seq<FoundAnswer>>, e: Outcome<JValue>,
                                     a0: seq<Answer>, a1: seq<Answer>, n0: seq<NewInfo>, n1: seq<NewInfo>,
                                     pid: int, tid: int, now: int)
  {
    && (found.Raised? ==> r == Raised(found.message) && a1 == a0 && n1 == n0)
    && (found.Ok? ==>
          var ins := InsertEach(a0, found.value, AnswerMaker(tid, now), AnswerRowId);
          var topics := NewInfoReturned(e);
          && a1 == ins.0
          && n1 == NewInfoAfter(n0, e, pid, now)
          && r == if topics.Raised? then Raised(topics.message) else Ok(Processed(tid, |ins.1|, topics.value)))
  }

  /**
   * `process_transcript`: nothing happens when the project has no
   * unanswered question. Otherwise the transcript is stored first (so it
   * stays stored if extraction raises), the answers found are stored
   * against it, one row per answer whose values bind, and the count of
   * rows stored is returned with the new-information topics. Questions are
   * never changed: their status stays `unanswered`.
   */
  method ProcessTranscript(db: DiscoveryDatabase, pid: int, text: string, llm: Model, decode: Decoder,
                           parseFloat: FloatParser, now: int)
    returns (r: Outcome<TranscriptResult>)
    requires db.Valid()
    modifies db
    ensures db.Valid()
    ensures db.projects == old(db.projects) && db.sowRows == old(db.sowRows)
    ensures db.matchTableExists == old(db.matchTableExists) && db.matchRows == old(db.matchRows)
    ensures db.questions == old(db.questions)
    ensures |old(db.answers)| <= |db.answers| && db.answers[..|old(db.answers)|] == old(db.answers)
    ensures r.Ok? && r.value.Processed? ==> r.value.answersFound == |db.answers| - |old(db.answers)|
    ensures (forall q :: q in old(db.questions) ==> !InProjectWithStatus(q, pid, "unanswered")) ==>
              r == Ok(NoQuestions) && db.transcripts == old(db.transcripts)
              && db.answers == old(db.answers) && db.newInfo == old(db.newInfo)
    ensures (exists q :: q in old(db.questions) && InProjectWithStatus(q, pid, "unanswered")) ==>
              |db.transcripts| == |old(db.transcripts)| + 1 &&
              TranscriptAnswered(r, ExtractedAnswers(text, UnansweredByPriority(old(db.questions), pid), llm, decode, parseFloat),
                                 NewInfoReply(old(db.SowDataOf(pid)), text, llm, decode), old(db.answers), db.answers,
                                 old(db.newInfo), db.newInfo, pid, db.transcripts[|old(db.transcripts)|].id, now)
    ensures (exists q :: q in old(db.questions) && InProjectWithStatus(q, pid, "unanswered")) ==>
              && |db.transcripts| == |old(db.transcripts)| + 1
              && db.transcripts[..|old(db.transcripts)|] == old(db.transcripts)
              && var t := db.transcripts[|old(db.transcripts)|];
                 && t.projectId == pid && t.text == text && !t.processed
                 && (forall u :: u in old(db.transcripts) ==> u.id < t.id)
                 && (r.Ok? ==> r.value.Processed? && r.value.transcriptId == t.id)
                 && (forall a :: a in db.answers[|old(db.answers)|..] ==>
                       && a.transcriptId == t.id
                       && exists q :: q in old(db.questions) && InProjectWithStatus(q, pid, "unanswered") && q.id == a.questionId)
  {
    ghost var q0, t0, a0 := db.questions, db.transcripts, db.answers;
    var qs := db.GetUnansweredQuestions(pid);
    if qs == [] {
      forall q | q in db.questions ensures !InProjectWithStatus(q, pid, "unanswered") {
        assert q !in qs;
      }
      return Ok(NoQuestions);
    }
    assert forall q :: q in qs ==> q in q0 && InProjectWithStatus(q, pid, "unanswered");
    var tid := db.StoreTranscript(pid, text, now);
    assert db.transcripts[..|t0|] == t0;
    r := AnswerTranscript(db, pid, tid, text, qs, llm, decode, parseFloat, now);
  }

  /**
   * The part of `process_transcript` after the transcript row `tid` is
   * stored: the answers to `qs` are extracted and stored against it, then
   * the new information is identified.
   */
  method AnswerTranscript(db: DiscoveryDatabase, pid: int, tid: int, text: string, qs: seq<Question>,
                          llm: Model, decode: Decoder, parseFloat: FloatParser, now: int)
    returns (r: Outcome<TranscriptResult>)
    requires db.Valid()
    requires forall q :: q in qs ==> q in db.questions && InProjectWithStatus(q, pid, "unanswered")
    modifies db
    ensures db.Valid()
    ensures db.projects == old(db.projects) && db.sowRows == old(db.sowRows)
    ensures db.matchTableExists == old(db.matchTableExists) && db.matchRows == old(db.matchRows)
    ensures db.questions == old(db.questions) && db.transcripts == old(db.transcripts)
    ensures |old(db.answers)| <= |db.answers| && db.answers[..|old(db.answers)|] == old(db.answers)
    ensures r.Ok? ==> r.value.Processed? && r.value.transcriptId == tid
                      && r.value.answersFound == |db.answers| - |old(db.answers)|
    ensures TranscriptAnswered(r, ExtractedAnswers(text, qs, llm, decode, parseFloat),
                               NewInfoReply(old(db.SowDataOf(pid)), text, llm, decode), old(db.answers), db.answers,
                               old(db.newInfo), db.newInfo, pid, tid, now)
    ensures forall a :: a in db.answers[|old(db.answers)|..] ==>
              && a.transcriptId == tid
              && exists q :: q in old(db.questions) && InProjectWithStatus(q, pid, "unanswered") && q.id == a.questionId
  {
    ghost var q0, a0, n0 := db.questions, db.answers, db.newInfo;
    ghost var e := NewInfoReply(db.SowDataOf(pid), text, llm, decode);
    var found := ExtractAnswers(text, qs, llm, decode, parseFloat);
    if found.Raised? {
      assert db.answers[|a0|..] == [];
      return Raised(found.message);
    }
    ExtractedAnswersAsked(text, qs, llm, decode, parseFloat);
    StoredAnswersAsked(a0, found.value, tid, now, qs);
    var count := StoreFoundAnswers(db, found.value, tid, now);
    ghost var a1 := db.answers;
    assert |a1| == |a0| + count;
    assert forall a :: a in a1[|a0|..] ==>
             a.transcriptId == tid && exists q :: q in q0 && InProjectWithStatus(q, pid, "unanswered") && q.id == a.questionId;
    assert db.SowDataOf(pid) == old(db.SowDataOf(pid));
    var info := IdentifyNewInformation(db, pid, text, llm, decode, now);
    assert info == NewInfoReturned(e) && db.newInfo == NewInfoAfter(n0, e, pid, now);
    assert db.answers == a1;
    if info.Raised? {
      return Raised(info.message);
    }
    r := Ok(Processed(tid, count, info.value));
  }
}
