/**
 * The additional-document processor: for a project that already has SOW
 * data, each new document is read, its content is searched for answers to
 * the project's unanswered questions (five per model call) and used to ask
 * the model for new questions; afterwards every answer is stored against a
 * document reference (kept in the transcripts table) and moves its
 * question to `answered` or `partially_answered`, and the new questions
 * are stored.
 */
module AdditionalDoc {
  import opened Base
  import opened Text
  import opened Json
  import opened Sql
  import opened Llm
  import opened Response
  import opened StoreRows
  import opened DiscoveryDb
  import opened QuestionGenerator
  import opened TranscriptAnalyzer

  /** Existing questions shown to the model when it is asked for new ones. */
  const ExistingCap: nat := 20
  /** Requirements shown to the model when it is asked for new questions. */
  const RequirementCap: nat := 10
  /** Characters (or items) of the document content shown when asking for new questions. */
  const ContentCap: nat := 20000

  /** `os.path.basename`: the text after the last '/'. */
  function Basename(path: string): (b: string)
    ensures '/' !in b && EndsWith(path, b)
  {
    var i := LastIndexOf(path, '/');
    var b := path[i + 1..];
    forall j | 0 <= j < |b| ensures b[j] != '/' {
      assert b[j] == path[i + 1 + j];
    }
    b
  }

  /** The label of a document: the `source` of its questions and the text of its reference row. */
  function DocumentLabel(path: string): string {
    "Additional Document: " + Basename(path)
  }

  // ------------------------------------------------------------ parsing

  /**
   * `_parse_answers_from_response` and `_parse_questions_from_response`
   * (the same code): the decoded fenced body or whole text, and nothing
   * otherwise; there is no line-oriented fallback.
   */
  function ParseJsonReply(text: string, decode: Decoder): JValue {
    match ResponseTier(text, decode)
    case Decoded(v) => v
    case _ => JArr([])
  }

  /** A reply that is neither fenced JSON nor JSON yields nothing, whatever lines it holds. */
  lemma {:induction false} ParseJsonReplyNoFallback(text: string, decode: Decoder)
    requires FindFence(text).None? && decode(text).None?
    ensures ParseJsonReply(text, decode) == JArr([])
  {
    TierOrder(text, decode);
  }

  // ------------------------------------------------------------ answers from a document

  /** The (question, context) pairs a batch prompt lists; a falsy context is not shown. */
  function QuestionPairs(batch: seq<Question>): (ps: seq<(SqlValue, SqlValue)>)
    ensures |ps| == |batch|
    ensures forall i :: 0 <= i < |batch| ==> ps[i].0 == batch[i].text
  {
    seq(|batch|, i requires 0 <= i < |batch| =>
      (batch[i].text, if SqlTruthy(batch[i].context) then batch[i].context else SqlText("")))
  }

  /**
   * One batch: the model call and the parsing are inside the `try`, so a
   * failing call yields nothing for the batch; the answers are mapped to
   * the batch's questions as for transcripts.
   */
  function DocBatchAnswers(batch: seq<Question>, content: JValue, llm: Model, decode: Decoder): seq<FoundAnswer> {
    match llm(DocumentAnswersPrompt(QuestionPairs(batch), content))
    case Failed(_) => []
    case Unreadable(_) => []
    case Reply(t) => ReplyAnswers(ParseJsonReply(t, decode), batch)
  }

  function DocBatchStep(content: JValue, llm: Model, decode: Decoder): seq<Question> -> seq<FoundAnswer> {
    batch => DocBatchAnswers(batch, content, llm, decode)
  }

  /** The answers of a list of batches, in order. */
  function AnswersOver(bs: seq<seq<Question>>, step: seq<Question> -> seq<FoundAnswer>): seq<FoundAnswer>
    decreases |bs|
  {
    if bs == [] then [] else step(bs[0]) + AnswersOver(bs[1..], step)
  }

  /** `_extract_answers_from_document`: the answers of the batches of five questions. */
  function DocumentAnswers(content: JValue, qs: seq<Question>, llm: Model, decode: Decoder): seq<FoundAnswer> {
    AnswersOver(Batches(qs), DocBatchStep(content, llm, decode))
  }

  method DocAnswerBatch(batch: seq<Question>, content: JValue, llm: Model, decode: Decoder) returns (found: seq<FoundAnswer>)
    ensures found == DocBatchStep(content, llm, decode)(batch)
  {
    var reply := llm(DocumentAnswersPrompt(QuestionPairs(batch), content));
    if !reply.Reply? {
      return [];
    }
    var items := Iter(ParseJsonReply(reply.text, decode));
    if items.None? {
      return [];
    }
    found := MapAnswers(items.value, batch);
  }

  /** The batch loop of `_extract_answers_from_document`; no questions, no answers. */
  method ExtractAnswersFromDocument(content: JValue, qs: seq<Question>, llm: Model, decode: Decoder)
    returns (answers: seq<FoundAnswer>)
    ensures answers == DocumentAnswers(content, qs, llm, decode)
  {
    var step := DocBatchStep(content, llm, decode);
    answers := [];
    var i := 0;
    BatchesStart(qs, step);
    while i < |qs|
      invariant 0 <= i <= |qs|
      invariant AnswersOver(Batches(qs), step) == answers + AnswersOver(Batches(qs[i..]), step)
      decreases |qs| - i
    {
      var n := Min(|qs| - i, BatchSize);
      var batch := qs[i..i + n];
      var found := DocAnswerBatch(batch, content, llm, decode);
      assert found == step(batch);
      AnswersOverAdvance(qs, i, n, step, answers, found);
      answers := answers + found;
      i := i + n;
    }
    BatchesDone(qs, step, answers);
  }

  lemma {:induction false} BatchesStart(qs: seq<Question>, step: seq<Question> -> seq<FoundAnswer>)
    ensures AnswersOver(Batches(qs), step) == [] + AnswersOver(Batches(qs[0..]), step)
  {
    AppendEmpty(qs);
    AppendEmpty(AnswersOver(Batches(qs), step));
  }

  lemma {:induction false} BatchesDone(qs: seq<Question>, step: seq<Question> -> seq<FoundAnswer>, answers: seq<FoundAnswer>)
    requires AnswersOver(Batches(qs), step) == answers + AnswersOver(Batches(qs[|qs|..]), step)
    ensures AnswersOver(Batches(qs), step) == answers
  {
    AppendEmpty(qs);
    AppendEmpty(answers);
  }

  lemma {:induction false} AnswersOverAdvance(qs: seq<Question>, i: nat, n: nat, step: seq<Question> -> seq<FoundAnswer>,
                           answers: seq<FoundAnswer>, found: seq<FoundAnswer>)
    requires i < |qs| && n == Min(|qs| - i, BatchSize) && found == step(qs[i..i + n])
    requires AnswersOver(Batches(qs), step) == answers + AnswersOver(Batches(qs[i..]), step)
    ensures AnswersOver(Batches(qs), step) == (answers + found) + AnswersOver(Batches(qs[i + n..]), step)
  {
    AnswersOverFrom(qs, i, step);
    var rest := AnswersOver(Batches(qs[i + n..]), step);
    AppendAssoc(answers, found, rest);
  }

  lemma {:induction false} AnswersOverFrom(qs: seq<Question>, i: nat, step: seq<Question> -> seq<FoundAnswer>)
    requires i < |qs|
    ensures var n := Min(|qs| - i, BatchSize);
            AnswersOver(Batches(qs[i..]), step) == step(qs[i..i + n]) + AnswersOver(Batches(qs[i + n..]), step)
  {
    var n := Min(|qs| - i, BatchSize);
    BatchesFrom(qs, i);
    var bs := [qs[i..i + n]] + Batches(qs[i + n..]);
    assert bs[0] == qs[i..i + n] && bs[1..] == Batches(qs[i + n..]);
  }

  /** A batch's answers are for questions of the batch. */
  lemma {:induction false} DocBatchAsked(batch: seq<Question>, content: JValue, llm: Model, decode: Decoder)
    ensures forall a :: a in DocBatchAnswers(batch, content, llm, decode) ==>
              exists k :: 0 <= k < |batch| && a.questionId == batch[k].id
  {
    var reply := llm(DocumentAnswersPrompt(QuestionPairs(batch), content));
    if reply.Reply? {
      var items := Iter(ParseJsonReply(reply.text, decode));
      if items.Some? {
        BatchAnswersInBatch(items.value, batch);
      }
    }
  }

  /** Each batch's answers are for questions of that batch. */
  ghost predicate StaysInBatch(step: seq<Question> -> seq<FoundAnswer>) {
    forall b: seq<Question>, a :: a in step(b) ==> exists k :: 0 <= k < |b| && a.questionId == b[k].id
  }

  lemma {:induction false} AnswersOverAsked(bs: seq<seq<Question>>, step: seq<Question> -> seq<FoundAnswer>)
    requires StaysInBatch(step)
    ensures forall a :: a in AnswersOver(bs, step) ==>
              exists i, k :: 0 <= i < |bs| && 0 <= k < |bs[i]| && a.questionId == bs[i][k].id
    decreases |bs|
  {
    if bs != [] {
      AnswersOverAsked(bs[1..], step);
      forall a | a in AnswersOver(bs, step)
        ensures exists i, k :: 0 <= i < |bs| && 0 <= k < |bs[i]| && a.questionId == bs[i][k].id
      {
        if a in step(bs[0]) {
          var k :| 0 <= k < |bs[0]| && a.questionId == bs[0][k].id;
        } else {
          assert a in AnswersOver(bs[1..], step);
          var i, k :| 0 <= i < |bs[1..]| && 0 <= k < |bs[1..][i]| && a.questionId == bs[1..][i][k].id;
          assert bs[1..][i] == bs[i + 1];
        }
      }
    }
  }

  /** Every answer found in a document is for one of the questions asked. */
  lemma {:induction false} DocumentAnswersAsked(content: JValue, qs: seq<Question>, llm: Model, decode: Decoder)
    ensures forall a :: a in DocumentAnswers(content, qs, llm, decode) ==> exists q :: q in qs && a.questionId == q.id
  {
    var bs := Batches(qs);
    forall b: seq<Question> | true ensures forall a :: a in DocBatchAnswers(b, content, llm, decode) ==> exists k :: 0 <= k < |b| && a.questionId == b[k].id {
      DocBatchAsked(b, content, llm, decode);
    }
    AnswersOverAsked(bs, DocBatchStep(content, llm, decode));
    BatchesCover(qs);
    forall a | a in DocumentAnswers(content, qs, llm, decode) ensures exists q :: q in qs && a.questionId == q.id {
      var i, k :| 0 <= i < |bs| && 0 <= k < |bs[i]| && a.questionId == bs[i][k].id;
      assert bs[i][k] in bs[i];
      ConcatMembersBack(bs, i, bs[i][k]);
    }
  }

  // ------------------------------------------------------------ questions from a document

  /**
   * The `(id, text)` lines of the first ten requirements, or `None` where
   * building them raises (a truthy value that cannot be sliced, or an
   * element without `.get`): the exception is caught and no questions are
   * generated.
   */
  function RequirementPairs(reqs: JValue): (r: Option<seq<(JValue, JValue)>>)
    ensures r.Some? && Truthy(reqs) ==> reqs.JArr? && |r.value| == Min(|reqs.items|, RequirementCap)
    ensures r.Some? && Truthy(reqs) ==>
              forall i :: 0 <= i < |r.value| ==> (reqs.items[i].JObj?
                && r.value[i] == (Get(reqs.items[i].fields, "id", JStr("")), Get(reqs.items[i].fields, "text", JStr(""))))
  {
    if !Truthy(reqs) then Some([])
    else
      match Prefix(reqs, RequirementCap)
      case Some(JArr(items)) =>
        if forall i :: 0 <= i < |items| ==> items[i].JObj? then
          Some(seq(|items|, i requires 0 <= i < |items| && items[i].JObj? =>
            (Get(items[i].fields, "id", JStr("")), Get(items[i].fields, "text", JStr("")))))
        else None
      case _ => None
  }

  /** The tags a document question receives, in the order they are assigned. */
  function DocumentTagging(path: string, q: Dict): Dict {
    var q1 := Set(q, "source", JStr(DocumentLabel(path)));
    var q2 := Set(q1, "source_text", JStr("Generated from document analysis"));
    var q3 := Set(q2, "status", JStr("unanswered"));
    var q4 := Set(q3, "additional_document", JStr(path));
    Set(q4, "source_type", JStr("document"))
  }

  function DocumentTag(path: string): Dict -> Dict {
    q => DocumentTagging(path, q)
  }

  predicate NamesDocument(q: Dict, path: string) {
    && Lookup(q, "source") == Some(JStr(DocumentLabel(path)))
    && Lookup(q, "source_text") == Some(JStr("Generated from document analysis"))
    && Lookup(q, "status") == Some(JStr("unanswered"))
    && Lookup(q, "additional_document") == Some(JStr(path))
    && Lookup(q, "source_type") == Some(JStr("document"))
  }

  /** The five keys a document tag writes are distinct. */
  lemma {:induction false} DocumentKeysDiffer()
    ensures "source" != "status" && "source" != "source_text" && "source_text" != "status"
    ensures "additional_document" != "source" && "additional_document" != "source_text" && "additional_document" != "status"
    ensures "source_type" != "source" && "source_type" != "source_text" && "source_type" != "status"
    ensures "source_type" != "additional_document"
  {
    KeysDiffer();
    assert "additional_document"[0] != "source"[0];
    assert "additional_document"[0] != "source_text"[0] && "additional_document"[0] != "status"[0];
    assert |"source_type"| != |"source"| && "source_type"[8] != "source_text"[8] && "source_type"[1] != "status"[1];
    assert "source_type"[0] != "additional_document"[0];
  }

  /** A document tag overrides the five keys and keeps every other key. */
  lemma {:induction false} DocumentTagSets(path: string, q: Dict)
    ensures NamesDocument(DocumentTagging(path, q), path)
    ensures forall k :: k !in {"source", "source_text", "status", "additional_document", "source_type"} ==>
              Lookup(DocumentTagging(path, q), k) == Lookup(q, k)
  {
    DocumentTagNames(path, q);
    var q1 := Set(q, "source", JStr(DocumentLabel(path)));
    var q2 := Set(q1, "source_text", JStr("Generated from document analysis"));
    var q3 := Set(q2, "status", JStr("unanswered"));
    var q4 := Set(q3, "additional_document", JStr(path));
    assert DocumentTagging(path, q) == Set(q4, "source_type", JStr("document"));
    forall k | k !in {"source", "source_text", "status", "additional_document", "source_type"}
      ensures Lookup(DocumentTagging(path, q), k) == Lookup(q, k)
    {
      assert k != "source" && k != "source_text" && k != "status" && k != "additional_document" && k != "source_type";
      assert Lookup(q4, k) == Lookup(q3, k) && Lookup(q3, k) == Lookup(q2, k);
      assert Lookup(q2, k) == Lookup(q1, k) && Lookup(q1, k) == Lookup(q, k);
    }
  }

  lemma {:induction false} DocumentTagNames(path: string, q: Dict)
    ensures NamesDocument(DocumentTagging(path, q), path)
  {
    DocumentKeysDiffer();
    var q1 := Set(q, "source", JStr(DocumentLabel(path)));
    var q2 := Set(q1, "source_text", JStr("Generated from document analysis"));
    var q3 := Set(q2, "status", JStr("unanswered"));
    var q4 := Set(q3, "additional_document", JStr(path));
    var q5 := Set(q4, "source_type", JStr("document"));
    assert Lookup(q2, "source") == Lookup(q1, "source");
    assert Lookup(q3, "source") == Lookup(q2, "source") && Lookup(q3, "source_text") == Lookup(q2, "source_text");
    assert Lookup(q4, "source") == Lookup(q3, "source") && Lookup(q4, "source_text") == Lookup(q3, "source_text");
    assert Lookup(q4, "status") == Lookup(q3, "status");
    assert Lookup(q5, "source") == Lookup(q4, "source") && Lookup(q5, "source_text") == Lookup(q4, "source_text");
    assert Lookup(q5, "status") == Lookup(q4, "status") && Lookup(q5, "additional_document") == Lookup(q4, "additional_document");
  }

  /**
   * `_generate_questions_from_document`: the model is shown the first 20
   * existing questions, the first 10 requirements and the first 20000
   * characters of the content; every error (building the prompt, the call,
   * an item that is not a dict) yields no questions.
   */
  function DocumentQuestions(content: JValue, sow: SowRecord, existing: seq<Question>, path: string,
                             llm: Model, decode: Decoder): seq<Dict>
  {
    var shown := QuestionTexts(existing[..Min(|existing|, ExistingCap)]);
    match RequirementPairs(sow.requirements)
    case None => []
    case Some(reqs) =>
      match Prefix(content, ContentCap)
      case None => []
      case Some(c) =>
        match llm(DocumentQuestionsPrompt(reqs, shown, c))
        case Failed(_) => []
        case Unreadable(_) => []
        case Reply(t) =>
          match Tag(ParseJsonReply(t, decode), DocumentTag(path))
          case Ok(qs) => qs
          case Raised(_) => []
  }

  method GenerateQuestionsFromDocument(content: JValue, sow: SowRecord, existing: seq<Question>, path: string,
                                       llm: Model, decode: Decoder) returns (qs: seq<Dict>)
    ensures qs == DocumentQuestions(content, sow, existing, path, llm, decode)
  {
    var shown := QuestionTexts(existing[..Min(|existing|, ExistingCap)]);
    var reqs := RequirementPairs(sow.requirements);
    if reqs.None? {
      return [];
    }
    var c := Prefix(content, ContentCap);
    if c.None? {
      return [];
    }
    var reply := llm(DocumentQuestionsPrompt(reqs.value, shown, c.value));
    if !reply.Reply? {
      return [];
    }
    var tagged := TagQuestions(ParseJsonReply(reply.text, decode), DocumentTag(path));
    if tagged.Raised? {
      return [];
    }
    qs := tagged.value;
  }

  /**
   * Every question generated from a document names the document (its
   * basename in `source`, its path in `additional_document`), is
   * `unanswered` and has `source_type` 'document'; at most 20 existing
   * questions are shown to the model.
   */
  lemma {:induction false} DocumentQuestionsTagged(content: JValue, sow: SowRecord, existing: seq<Question>, path: string,
                                llm: Model, decode: Decoder)
    ensures forall q :: q in DocumentQuestions(content, sow, existing, path, llm, decode) ==> NamesDocument(q, path)
  {
    var r := DocumentQuestions(content, sow, existing, path, llm, decode);
    forall q | q in r ensures NamesDocument(q, path) {
      var reqs := RequirementPairs(sow.requirements).value;
      var c := Prefix(content, ContentCap).value;
      var shown := QuestionTexts(existing[..Min(|existing|, ExistingCap)]);
      var t := llm(DocumentQuestionsPrompt(reqs, shown, c)).text;
      var items := Iter(ParseJsonReply(t, decode)).value;
      var i :| 0 <= i < |r| && r[i] == q;
      assert q == DocumentTagging(path, items[i].fields);
      DocumentTagSets(path, items[i].fields);
    }
  }

  // ------------------------------------------------------------ the per-document pass

  /** What reading a document gives: its extracted content and the number of requirements it matched, nothing, or an exception. */
  datatype DocRead = Read(content: JValue, matchCount: nat) | NoContent | ReadRaised(message: string)

  /** The file-processing pipeline's `parse_file`, which this model does not include. */
  type DocReader = string -> DocRead

  /** An entry of `processed_documents`. */
  datatype DocReport =
    DocReport(path: string, contentExtracted: bool, error: Option<string>,
              answersFound: nat, newQuestions: nat, requirementMatches: nat)

  /** The accumulators of the document loop: the report entries, the answers with their document, the new questions. */
  datatype Pass = Pass(reports: seq<DocReport>, answers: seq<(string, FoundAnswer)>, questions: seq<Dict>)

  function Join(a: Pass, b: Pass): Pass {
    Pass(a.reports + b.reports, a.answers + b.answers, a.questions + b.questions)
  }

  function WithDocument(path: string, answers: seq<FoundAnswer>): (r: seq<(string, FoundAnswer)>)
    ensures |r| == |answers| && forall i :: 0 <= i < |answers| ==> r[i] == (path, answers[i])
  {
    seq(|answers|, i requires 0 <= i < |answers| => (path, answers[i]))
  }

  /**
   * One document: no entry when it yields no content; an entry without
   * counts when reading it raises; otherwise its answers and new questions
   * and an entry counting them.
   */
  function DocumentStep(path: string, read: DocReader, existing: seq<Question>, sow: SowRecord,
                        llm: Model, decode: Decoder): Pass
  {
    match read(path)
    case NoContent => Pass([], [], [])
    case ReadRaised(m) => Pass([DocReport(path, false, Some(m), 0, 0, 0)], [], [])
    case Read(content, matches) =>
      var ans := DocumentAnswers(content, existing, llm, decode);
      var nq := DocumentQuestions(content, sow, existing, path, llm, decode);
      Pass([DocReport(path, true, None, |ans|, |nq|, matches)], WithDocument(path, ans), nq)
  }

  function DocumentsPass(paths: seq<string>, read: DocReader, existing: seq<Question>, sow: SowRecord,
                         llm: Model, decode: Decoder): Pass
    decreases |paths|
  {
    if paths == [] then Pass([], [], [])
    else Join(DocumentStep(paths[0], read, existing, sow, llm, decode), DocumentsPass(paths[1..], read, existing, sow, llm, decode))
  }

  /** The body of the document loop for one path. */
  method ReadDocument(path: string, read: DocReader, existing: seq<Question>, sow: SowRecord,
                      llm: Model, decode: Decoder) returns (step: Pass)
    ensures step == DocumentStep(path, read, existing, sow, llm, decode)
  {
    match read(path) {
      case NoContent =>
        step := Pass([], [], []);
      case ReadRaised(m) =>
        step := Pass([DocReport(path, false, Some(m), 0, 0, 0)], [], []);
      case Read(content, matches) =>
        var ans := ExtractAnswersFromDocument(content, existing, llm, decode);
        var nq := GenerateQuestionsFromDocument(content, sow, existing, path, llm, decode);
        step := Pass([DocReport(path, true, None, |ans|, |nq|, matches)], WithDocument(path, ans), nq);
    }
  }

  /** The document loop of `process_additional_documents`. */
  method ReadDocuments(paths: seq<string>, read: DocReader, existing: seq<Question>, sow: SowRecord,
                       llm: Model, decode: Decoder) returns (pass: Pass)
    ensures pass == DocumentsPass(paths, read, existing, sow, llm, decode)
  {
    pass := Pass([], [], []);
    var i := 0;
    assert paths[i..] == paths;
    JoinEmpty(DocumentsPass(paths, read, existing, sow, llm, decode));
    while i < |paths|
      invariant 0 <= i <= |paths|
      invariant DocumentsPass(paths, read, existing, sow, llm, decode) == Join(pass, DocumentsPass(paths[i..], read, existing, sow, llm, decode))
    {
      assert paths[i..][0] == paths[i] && paths[i..][1..] == paths[i + 1..];
      var step := ReadDocument(paths[i], read, existing, sow, llm, decode);
      JoinAssoc(pass, step, DocumentsPass(paths[i + 1..], read, existing, sow, llm, decode));
      pass := Join(pass, step);
      i := i + 1;
    }
    assert paths[i..] == [];
    JoinEmptyRight(pass);
  }

  lemma {:induction false} JoinEmpty(p: Pass)
    ensures Join(Pass([], [], []), p) == p
  {
    assert [] + p.reports == p.reports && [] + p.answers == p.answers && [] + p.questions == p.questions;
  }

  lemma {:induction false} JoinEmptyRight(p: Pass)
    ensures Join(p, Pass([], [], [])) == p
  {
    assert p.reports + [] == p.reports && p.answers + [] == p.answers && p.questions + [] == p.questions;
  }

  lemma {:induction false} JoinAssoc(a: Pass, b: Pass, c: Pass)
    ensures Join(Join(a, b), c) == Join(a, Join(b, c))
  {
    assert (a.reports + b.reports) + c.reports == a.reports + (b.reports + c.reports);
    assert (a.answers + b.answers) + c.answers == a.answers + (b.answers + c.answers);
    assert (a.questions + b.questions) + c.questions == a.questions + (b.questions + c.questions);
  }

  /** `documents_processed`: the entries whose content was extracted. */
  function CountExtracted(reports: seq<DocReport>): nat
    decreases |reports|
  {
    if reports == [] then 0 else (if reports[0].contentExtracted then 1 else 0) + CountExtracted(reports[1..])
  }

  function CountWhere(paths: seq<string>, p: string -> bool): nat
    decreases |paths|
  {
    if paths == [] then 0 else (if p(paths[0]) then 1 else 0) + CountWhere(paths[1..], p)
  }

  /** The total of one count over the report entries. */
  function SumOf(reports: seq<DocReport>, f: DocReport -> nat): nat
    decreases |reports|
  {
    if reports == [] then 0 else f(reports[0]) + SumOf(reports[1..], f)
  }

  lemma {:induction false} SumOfAppend(a: seq<DocReport>, b: seq<DocReport>, f: DocReport -> nat)
    ensures SumOf(a + b, f) == SumOf(a, f) + SumOf(b, f)
    decreases |a|
  {
    if a != [] {
      assert (a + b)[1..] == a[1..] + b;
      SumOfAppend(a[1..], b, f);
    } else {
      assert a + b == b;
    }
  }

  lemma {:induction false} CountExtractedAppend(a: seq<DocReport>, b: seq<DocReport>)
    ensures CountExtracted(a + b) == CountExtracted(a) + CountExtracted(b)
    decreases |a|
  {
    if a != [] {
      assert (a + b)[1..] == a[1..] + b;
      CountExtractedAppend(a[1..], b);
    } else {
      assert a + b == b;
    }
  }

  /**
   * The report has one entry per document that yielded content or raised,
   * and `documents_processed` counts exactly the documents whose content was
   * read, among them those whose answer extraction or question generation
   * failed inside (those failures are swallowed). The entries' answer and
   * question counts add up to the answers and questions collected, and an
   * entry for a document that raised has an error and zero counts.
   */
  lemma {:induction false} DocumentsPassCounts(paths: seq<string>, read: DocReader, existing: seq<Question>, sow: SowRecord,
                                               llm: Model, decode: Decoder)
    ensures var pass := DocumentsPass(paths, read, existing, sow, llm, decode);
            && |pass.reports| == CountWhere(paths, (p: string) => !read(p).NoContent?)
            && CountExtracted(pass.reports) == CountWhere(paths, (p: string) => read(p).Read?)
            && SumOf(pass.reports, (e: DocReport) => e.answersFound) == |pass.answers|
            && SumOf(pass.reports, (e: DocReport) => e.newQuestions) == |pass.questions|
            && forall e :: e in pass.reports && !e.contentExtracted ==>
                 e.error.Some? && e.answersFound == 0 && e.newQuestions == 0 && e.requirementMatches == 0
    decreases |paths|
  {
    if paths != [] {
      DocumentsPassCounts(paths[1..], read, existing, sow, llm, decode);
      var step := DocumentStep(paths[0], read, existing, sow, llm, decode);
      var rest := DocumentsPass(paths[1..], read, existing, sow, llm, decode);
      CountExtractedAppend(step.reports, rest.reports);
      SumOfAppend(step.reports, rest.reports, (e: DocReport) => e.answersFound);
      SumOfAppend(step.reports, rest.reports, (e: DocReport) => e.newQuestions);
      if step.reports != [] {
        assert step.reports[1..] == [];
      }
    }
  }

  /** Every answer of the pass is for one of the existing questions, and names a document of the list. */
  lemma {:induction false} DocumentsPassAsked(paths: seq<string>, read: DocReader, existing: seq<Question>, sow: SowRecord,
                                              llm: Model, decode: Decoder)
    ensures forall e :: e in DocumentsPass(paths, read, existing, sow, llm, decode).answers ==>
              e.0 in paths && exists q :: q in existing && e.1.questionId == q.id
    decreases |paths|
  {
    if paths != [] {
      DocumentsPassAsked(paths[1..], read, existing, sow, llm, decode);
      var step := DocumentStep(paths[0], read, existing, sow, llm, decode);
      if read(paths[0]).Read? {
        var ans := DocumentAnswers(read(paths[0]).content, existing, llm, decode);
        DocumentAnswersAsked(read(paths[0]).content, existing, llm, decode);
        forall e | e in step.answers ensures e.0 == paths[0] && e.1 in ans {
          var i :| 0 <= i < |step.answers| && step.answers[i] == e;
          assert e == (paths[0], ans[i]);
        }
      }
      forall e | e in DocumentsPass(paths[1..], read, existing, sow, llm, decode).answers ensures e.0 in paths {
        assert paths[1..] <= paths[1..] && forall p :: p in paths[1..] ==> p in paths;
      }
    }
  }

  /** Every new question of the pass is tagged with one of the documents of the list. */
  lemma {:induction false} DocumentsPassTagged(paths: seq<string>, read: DocReader, existing: seq<Question>, sow: SowRecord,
                                               llm: Model, decode: Decoder)
    ensures forall q :: q in DocumentsPass(paths, read, existing, sow, llm, decode).questions ==>
              exists p :: p in paths && NamesDocument(q, p)
    decreases |paths|
  {
    if paths != [] {
      DocumentsPassTagged(paths[1..], read, existing, sow, llm, decode);
      if read(paths[0]).Read? {
        DocumentQuestionsTagged(read(paths[0]).content, sow, existing, paths[0], llm, decode);
      }
      forall q | q in DocumentsPass(paths[1..], read, existing, sow, llm, decode).questions
        ensures exists p :: p in paths && NamesDocument(q, p)
      {
        var p :| p in paths[1..] && NamesDocument(q, p);
        assert p in paths;
      }
    }
  }

  // ------------------------------------------------------------ storing the answers

  /** `store_answer` succeeds: both values bind. */
  predicate Stores(a: FoundAnswer) {
    Bind(a.answer).Some? && Bind(a.confidence).Some?
  }

  /** The numeric value Python compares with 0.8, or `None` where `>` raises. */
  function Numeric(c: JValue): Option<real> {
    match c
    case JBool(b) => Some(if b then 1.0 else 0.0)
    case JInt(i) => Some(i as real)
    case JFloat(f) => Some(f)
    case _ => None
  }

  /**
   * The status a stored answer gives its question: `answered` when the
   * confidence is strictly above 0.8, `partially_answered` otherwise, and
   * no update when the comparison raises (the answer stays stored and
   * counted).
   */
  function StatusFor(c: JValue): (s: Option<string>)
    ensures s.Some? <==> Numeric(c).Some?
    ensures s.Some? ==> (s.value == "answered" <==> Numeric(c).value > 0.8)
    ensures s.Some? ==> s.value in {"answered", "partially_answered"}
  {
    match Numeric(c)
    case Some(x) => Some(if x > 0.8 then "answered" else "partially_answered")
    case None => None
  }

  function StepStatus(qs: seq<Question>, a: FoundAnswer, now: int): seq<Question> {
    if Stores(a) && StatusFor(a.confidence).Some? then WithStatus(qs, a.questionId, StatusFor(a.confidence).value, now)
    else qs
  }

  /** The questions table after the storing loop has handled `found`, in order. */
  function QuestionsAfter(qs: seq<Question>, found: seq<(string, FoundAnswer)>, now: int): seq<Question>
    decreases |found|
  {
    if found == [] then qs
    else StepStatus(QuestionsAfter(qs, found[..|found| - 1], now), found[|found| - 1].1, now)
  }

  function CountStored(found: seq<(string, FoundAnswer)>): nat
    decreases |found|
  {
    if found == [] then 0
    else CountStored(found[..|found| - 1]) + (if Stores(found[|found| - 1].1) then 1 else 0)
  }

  lemma {:induction false} QuestionsAfterLength(qs: seq<Question>, found: seq<(string, FoundAnswer)>, now: int)
    ensures |QuestionsAfter(qs, found, now)| == |qs|
    decreases |found|
  {
    if found != [] {
      QuestionsAfterLength(qs, found[..|found| - 1], now);
    }
  }

  /** The loop changes no row's position, and a question that no stored answer names keeps its row. */
  lemma {:induction false} QuestionsAfterUnnamed(qs: seq<Question>, found: seq<(string, FoundAnswer)>, now: int, i: nat)
    requires i < |qs|
    requires forall e :: e in found && Stores(e.1) ==> e.1.questionId != qs[i].id
    ensures |QuestionsAfter(qs, found, now)| == |qs|
    ensures QuestionsAfter(qs, found, now)[i] == qs[i]
    decreases |found|
  {
    if found != [] {
      var init := found[..|found| - 1];
      assert forall e :: e in init ==> e in found;
      QuestionsAfterUnnamed(qs, init, now, i);
      assert found[|found| - 1] in found;
    }
  }

  /**
   * The last stored answer to a question decides its status: `answered`
   * iff its confidence is above 0.8.
   */
  lemma {:induction false} LastStoredAnswerDecides(qs: seq<Question>, found: seq<(string, FoundAnswer)>, now: int, i: nat)
    requires found != [] && i < |QuestionsAfter(qs, found, now)|
    requires var a := found[|found| - 1].1;
             Stores(a) && Numeric(a.confidence).Some? && a.questionId == QuestionsAfter(qs, found, now)[i].id
    ensures var a := found[|found| - 1].1;
            QuestionsAfter(qs, found, now)[i].status
              == SqlText(if Numeric(a.confidence).value > 0.8 then "answered" else "partially_answered")
  {
  }

  /**
   * One turn of the answer loop: a document reference row, then
   * `store_answer` against it, then the status update when the answer was
   * stored.
   */
  method StoreOneAnswer(db: DiscoveryDatabase, pid: int, path: string, a: FoundAnswer, now: int)
    returns (stored: bool, docId: int)
    requires db.Valid()
    modifies db
    ensures db.Valid()
    ensures stored == Stores(a)
    ensures db.transcripts == old(db.transcripts) + [Transcript(docId, pid, now, DocumentLabel(path), false, now)]
    ensures !stored ==> db.answers == old(db.answers)
    ensures stored ==> |db.answers| == |old(db.answers)| + 1 && db.answers[..|old(db.answers)|] == old(db.answers)
                       && db.answers[|old(db.answers)|].questionId == a.questionId
                       && db.answers[|old(db.answers)|].transcriptId == docId
    ensures db.questions == StepStatus(old(db.questions), a, now)
    ensures db.projects == old(db.projects) && db.sowRows == old(db.sowRows)
    ensures db.matchTableExists == old(db.matchTableExists) && db.matchRows == old(db.matchRows)
    ensures db.newInfo == old(db.newInfo)
  {
    docId := db.StoreTranscript(pid, DocumentLabel(path), now);
    stored := db.StoreAnswer(a.questionId, docId, a.answer, a.confidence, now);
    if stored {
      assert db.answers[..|old(db.answers)|] == old(db.answers);
      var status := StatusFor(a.confidence);
      if status.Some? {
        var _ := db.UpdateQuestionStatus(a.questionId, status.value, now);
      }
    }
  }

  /** The rows from `base` on are the document references of `found`, in order. */
  ghost predicate RefsFor(ts: seq<Transcript>, base: nat, pid: int, found: seq<(string, FoundAnswer)>) {
    && |ts| == base + |found|
    && forall i :: base <= i < |ts| ==> ts[i].projectId == pid && ts[i].text == DocumentLabel(found[i - base].0)
  }

  /** Every answer row from `base` on is for the question of some answer of `found`, against that answer's reference row. */
  ghost predicate AnswersFor(rows: seq<Answer>, base: nat, ts: seq<Transcript>, tbase: nat, found: seq<(string, FoundAnswer)>) {
    forall m :: base <= m < |rows| ==>
      exists i :: tbase <= i < |ts| && i - tbase < |found| && rows[m].questionId == found[i - tbase].1.questionId
                  && rows[m].transcriptId == ts[i].id
  }

  lemma {:induction false} RefsForStep(ts: seq<Transcript>, base: nat, pid: int, found: seq<(string, FoundAnswer)>, j: nat, t: Transcript)
    requires j < |found| && RefsFor(ts, base, pid, found[..j])
    requires t.projectId == pid && t.text == DocumentLabel(found[j].0)
    ensures RefsFor(ts + [t], base, pid, found[..j + 1])
  {
    var ts' := ts + [t];
    forall i | base <= i < |ts'|
      ensures ts'[i].projectId == pid && ts'[i].text == DocumentLabel(found[..j + 1][i - base].0)
    {
      if i < |ts| {
        assert ts'[i] == ts[i] && found[..j + 1][i - base] == found[..j][i - base];
      } else {
        assert ts'[i] == t && found[..j + 1][i - base] == found[j];
      }
    }
  }

  lemma {:induction false} AnswersForStep(rows: seq<Answer>, base: nat, ts: seq<Transcript>, tbase: nat, found: seq<(string, FoundAnswer)>,
                       j: nat, t: Transcript, more: seq<Answer>)
    requires j < |found| && tbase + j == |ts| && base <= |rows|
    requires AnswersFor(rows, base, ts, tbase, found[..j])
    requires forall a :: a in more ==> a.questionId == found[j].1.questionId && a.transcriptId == t.id
    ensures AnswersFor(rows + more, base, ts + [t], tbase, found[..j + 1])
  {
    var ts', rows', f' := ts + [t], rows + more, found[..j + 1];
    forall m | base <= m < |rows'|
      ensures exists i :: tbase <= i < |ts'| && i - tbase < |f'| && rows'[m].questionId == f'[i - tbase].1.questionId
                          && rows'[m].transcriptId == ts'[i].id
    {
      if m < |rows| {
        var i :| tbase <= i < |ts| && i - tbase < j && rows[m].questionId == found[..j][i - tbase].1.questionId
                 && rows[m].transcriptId == ts[i].id;
        assert rows'[m] == rows[m] && ts'[i] == ts[i] && f'[i - tbase] == found[..j][i - tbase];
      } else {
        assert rows'[m] in more;
        assert ts'[tbase + j] == t && f'[j] == found[j];
      }
    }
  }

  /** The reference and answer rows after one more answer of the loop. */
  lemma {:induction false} StoreStep(t0: seq<Transcript>, a0: seq<Answer>, tBefore: seq<Transcript>, aBefore: seq<Answer>,
                  tAfter: seq<Transcript>, aAfter: seq<Answer>, pid: int, found: seq<(string, FoundAnswer)>,
                  j: nat, count: nat, docId: int, now: int, stored: bool)
    requires j < |found|
    requires RefsFor(tBefore, |t0|, pid, found[..j]) && tBefore[..|t0|] == t0
    requires |aBefore| == |a0| + count && aBefore[..|a0|] == a0
    requires AnswersFor(aBefore, |a0|, tBefore, |t0|, found[..j])
    requires tAfter == tBefore + [Transcript(docId, pid, now, DocumentLabel(found[j].0), false, now)]
    requires !stored ==> aAfter == aBefore
    requires stored ==> |aAfter| == |aBefore| + 1 && aAfter[..|aBefore|] == aBefore
                        && aAfter[|aBefore|].questionId == found[j].1.questionId
                        && aAfter[|aBefore|].transcriptId == docId
    ensures RefsFor(tAfter, |t0|, pid, found[..j + 1]) && tAfter[..|t0|] == t0
    ensures |aAfter| == |a0| + count + (if stored then 1 else 0) && aAfter[..|a0|] == a0
    ensures AnswersFor(aAfter, |a0|, tAfter, |t0|, found[..j + 1])
  {
    var t := Transcript(docId, pid, now, DocumentLabel(found[j].0), false, now);
    RefsForStep(tBefore, |t0|, pid, found, j, t);
    var more := aAfter[|aBefore|..];
    assert aAfter == aBefore + more;
    AnswersForStep(aBefore, |a0|, tBefore, |t0|, found, j, t, more);
    assert tAfter[..|t0|] == tBefore[..|t0|];
    assert aAfter[..|a0|] == aBefore[..|a0|];
  }

  /** One round of the answer loop, with the loop's row invariants carried from `j` to `j + 1`. */
  method StoreAnswerAt(db: DiscoveryDatabase, pid: int, found: seq<(string, FoundAnswer)>, j: nat, now: int,
                       ghost t0: seq<Transcript>, ghost a0: seq<Answer>, ghost count: nat)
    returns (stored: bool)
    requires db.Valid() && j < |found|
    requires RefsFor(db.transcripts, |t0|, pid, found[..j]) && db.transcripts[..|t0|] == t0
    requires |db.answers| == |a0| + count && db.answers[..|a0|] == a0
    requires AnswersFor(db.answers, |a0|, db.transcripts, |t0|, found[..j])
    modifies db
    ensures db.Valid()
    ensures stored == Stores(found[j].1)
    ensures db.questions == StepStatus(old(db.questions), found[j].1, now)
    ensures RefsFor(db.transcripts, |t0|, pid, found[..j + 1]) && db.transcripts[..|t0|] == t0
    ensures |db.answers| == |a0| + count + (if stored then 1 else 0) && db.answers[..|a0|] == a0
    ensures AnswersFor(db.answers, |a0|, db.transcripts, |t0|, found[..j + 1])
    ensures db.projects == old(db.projects) && db.sowRows == old(db.sowRows)
    ensures db.matchTableExists == old(db.matchTableExists) && db.matchRows == old(db.matchRows)
    ensures db.newInfo == old(db.newInfo)
  {
    ghost var tBefore, aBefore := db.transcripts, db.answers;
    var docId;
    stored, docId := StoreOneAnswer(db, pid, found[j].0, found[j].1, now);
    StoreStep(t0, a0, tBefore, aBefore, db.transcripts, db.answers, pid, found, j, count, docId, now, stored);
  }

  /**
   * The answer loop: for each answer, a document reference row in the
   * transcripts table (whether or not the answer is then stored), then
   * `store_answer`; each stored answer is counted and updates its
   * question's status.
   */
  method StoreDocumentAnswers(db: DiscoveryDatabase, pid: int, found: seq<(string, FoundAnswer)>, now: int)
    returns (count: nat)
    requires db.Valid()
    modifies db
    ensures db.Valid()
    ensures count == CountStored(found)
    ensures db.questions == QuestionsAfter(old(db.questions), found, now)
    ensures RefsFor(db.transcripts, |old(db.transcripts)|, pid, found)
    ensures db.transcripts[..|old(db.transcripts)|] == old(db.transcripts)
    ensures |db.answers| == |old(db.answers)| + count && db.answers[..|old(db.answers)|] == old(db.answers)
    ensures AnswersFor(db.answers, |old(db.answers)|, db.transcripts, |old(db.transcripts)|, found)
    ensures db.projects == old(db.projects) && db.sowRows == old(db.sowRows)
    ensures db.matchTableExists == old(db.matchTableExists) && db.matchRows == old(db.matchRows)
    ensures db.newInfo == old(db.newInfo)
  {
    ghost var t0, a0 := db.transcripts, db.answers;
    count := 0;
    var j := 0;
    while j < |found|
      invariant 0 <= j <= |found|
      invariant db.Valid()
      invariant count == CountStored(found[..j])
      invariant db.questions == QuestionsAfter(old(db.questions), found[..j], now)
      invariant RefsFor(db.transcripts, |t0|, pid, found[..j]) && db.transcripts[..|t0|] == t0
      invariant |db.answers| == |a0| + count && db.answers[..|a0|] == a0
      invariant AnswersFor(db.answers, |a0|, db.transcripts, |t0|, found[..j])
      invariant db.projects == old(db.projects) && db.sowRows == old(db.sowRows)
      invariant db.matchTableExists == old(db.matchTableExists) && db.matchRows == old(db.matchRows)
      invariant db.newInfo == old(db.newInfo)
    {
      assert found[..j + 1][..j] == found[..j] && found[..j + 1][j] == found[j];
      var stored := StoreAnswerAt(db, pid, found, j, now, t0, a0, count);
      if stored {
        count := count + 1;
      }
      j := j + 1;
    }
    assert found[..j] == found;
  }

  /** The answer row is for one of the questions `qs`. */
  ghost predicate AskedIn(a: Answer, qs: seq<Question>) {
    exists q :: q in qs && a.questionId == q.id
  }

  /** The answers stored by the loop are for questions that the found answers name. */
  lemma {:induction false} AnswersForAsked(rows: seq<Answer>, base: nat, ts: seq<Transcript>, tbase: nat,
                        found: seq<(string, FoundAnswer)>, existing: seq<Question>)
    requires AnswersFor(rows, base, ts, tbase, found)
    requires forall e :: e in found ==> exists q :: q in existing && e.1.questionId == q.id
    ensures forall m :: base <= m < |rows| ==> AskedIn(rows[m], existing)
  {
    forall m | base <= m < |rows| ensures AskedIn(rows[m], existing) {
      var row := rows[m];
      assert row.questionId == rows[m].questionId;
      var i :| tbase <= i < |ts| && i - tbase < |found| && rows[m].questionId == found[i - tbase].1.questionId
               && rows[m].transcriptId == ts[i].id;
      assert found[i - tbase] in found;
      var q :| q in existing && found[i - tbase].1.questionId == q.id;
    }
  }

  // ------------------------------------------------------------ the whole run

  datatype AdditionalResult =
    | Error(message: string)
    | Success(projectId: int, documentsProcessed: nat, answersFound: nat, newQuestionsGenerated: nat,
              processedDocuments: seq<DocReport>)

  /**
   * The tables after a pass's answers and questions are stored for project
   * `pid`: one document reference row per found answer, in order; an answer
   * row for each stored answer, against its reference row; the questions'
   * statuses as the answer loop leaves them, then the new questions
   * appended; with the counts of answer and question rows added.
   */
  ghost predicate PassStored(pass: Pass, pid: int, now: int, q0: seq<Question>, q1: seq<Question>,
                             t0: seq<Transcript>, t1: seq<Transcript>, a0: seq<Answer>, a1: seq<Answer>,
                             answersFound: nat, newQuestions: nat)
  {
    var ins := InsertEach(QuestionsAfter(q0, pass.answers, now), pass.questions, QuestionMaker(Some(pid), now), QuestionRowId);
    && q1 == ins.0 && newQuestions == |ins.1|
    && RefsFor(t1, |t0|, pid, pass.answers) && t1[..|t0|] == t0
    && answersFound == CountStored(pass.answers)
    && |a1| == |a0| + answersFound && a1[..|a0|] == a0
    && AnswersFor(a1, |a0|, t1, |t0|, pass.answers)
  }

  /**
   * The part of `process_additional_documents` after the checks: the
   * documents are read in order, then all answers are stored, then the new
   * questions are stored for the project.
   */
  method RunDocuments(db: DiscoveryDatabase, pid: int, sow: SowRecord, existing: seq<Question>, paths: seq<string>,
                      read: DocReader, llm: Model, decode: Decoder, now: int) returns (r: AdditionalResult)
    requires db.Valid()
    modifies db
    ensures db.Valid()
    ensures r.Success? && r.projectId == pid
    ensures r.processedDocuments == DocumentsPass(paths, read, existing, sow, llm, decode).reports
    ensures r.documentsProcessed == CountExtracted(r.processedDocuments)
    ensures r.documentsProcessed == CountWhere(paths, (p: string) => read(p).Read?)
    ensures |db.answers| == |old(db.answers)| + r.answersFound && db.answers[..|old(db.answers)|] == old(db.answers)
    ensures forall m :: |old(db.answers)| <= m < |db.answers| ==> AskedIn(db.answers[m], existing)
    ensures |db.questions| == |old(db.questions)| + r.newQuestionsGenerated
    ensures PassStored(DocumentsPass(paths, read, existing, sow, llm, decode), pid, now, old(db.questions), db.questions,
                       old(db.transcripts), db.transcripts, old(db.answers), db.answers, r.answersFound, r.newQuestionsGenerated)
    ensures db.projects == old(db.projects) && db.sowRows == old(db.sowRows)
    ensures db.matchTableExists == old(db.matchTableExists) && db.matchRows == old(db.matchRows)
    ensures db.newInfo == old(db.newInfo)
  {
    var pass := ReadDocuments(paths, read, existing, sow, llm, decode);
    DocumentsPassCounts(paths, read, existing, sow, llm, decode);
    DocumentsPassAsked(paths, read, existing, sow, llm, decode);
    var count := StoreDocumentAnswers(db, pid, pass.answers, now);
    AnswersForAsked(db.answers, |old(db.answers)|, db.transcripts, |old(db.transcripts)|, pass.answers, existing);
    ghost var q1 := db.questions;
    QuestionsAfterLength(old(db.questions), pass.answers, now);
    var newCount := 0;
    if pass.questions != [] {
      var ids := db.StoreQuestions(pass.questions, Some(pid), now);
      QuestionMakerStamps(Some(pid), now);
      InsertEachShape(q1, pass.questions, QuestionMaker(Some(pid), now), QuestionRowId);
      newCount := |ids|;
    }
    assert db.questions == InsertEach(q1, pass.questions, QuestionMaker(Some(pid), now), QuestionRowId).0;
    r := Success(pid, CountExtracted(pass.reports), count, newCount, pass.reports);
  }

  /**
   * `process_additional_documents`: an unknown project, or one without SOW
   * data, is an error and changes nothing; otherwise the documents are
   * processed against the project's unanswered questions.
   */
  method ProcessAdditionalDocuments(db: DiscoveryDatabase, pid: int, paths: seq<string>, read: DocReader,
                                    llm: Model, decode: Decoder, now: int) returns (r: AdditionalResult)
    requires db.Valid()
    modifies db
    ensures db.Valid()
    ensures (forall p :: p in old(db.projects) ==> p.id != pid) ==>
              r == Error("Project with ID " + IntToString(pid) + " not found") && unchanged(db)
    ensures (exists p :: p in old(db.projects) && p.id == pid) && old(db.SowDataOf(pid)).None? ==>
              r == Error("No SOW data found for this project") && unchanged(db)
    ensures r.Success? ==>
              && r.projectId == pid
              && r.processedDocuments == DocumentsPass(paths, read, UnansweredByPriority(old(db.questions), pid),
                                                       old(db.SowDataOf(pid)).value, llm, decode).reports
              && r.documentsProcessed == CountWhere(paths, (p: string) => read(p).Read?)
              && |db.answers| == |old(db.answers)| + r.answersFound
              && |db.questions| == |old(db.questions)| + r.newQuestionsGenerated
              && PassStored(DocumentsPass(paths, read, UnansweredByPriority(old(db.questions), pid), old(db.SowDataOf(pid)).value, llm, decode),
                            pid, now, old(db.questions), db.questions, old(db.transcripts), db.transcripts,
                            old(db.answers), db.answers, r.answersFound, r.newQuestionsGenerated)
    ensures |old(db.answers)| <= |db.answers| && db.answers[..|old(db.answers)|] == old(db.answers)
    ensures forall m :: |old(db.answers)| <= m < |db.answers| ==> AskedIn(db.answers[m], UnansweredByPriority(old(db.questions), pid))
    ensures db.projects == old(db.projects) && db.sowRows == old(db.sowRows)
    ensures db.matchTableExists == old(db.matchTableExists) && db.matchRows == old(db.matchRows)
    ensures db.newInfo == old(db.newInfo)
  {
    if !(exists p :: p in db.projects && p.id == pid) {
      return Error("Project with ID " + IntToString(pid) + " not found");
    }
    var sow := db.GetProjectSowData(pid);
    if sow.None? {
      return Error("No SOW data found for this project");
    }
    var existing := db.GetUnansweredQuestions(pid);
    r := RunDocuments(db, pid, sow.value, existing, paths, read, llm, decode, now);
  }
}
