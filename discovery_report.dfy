/**
 * The read side of the accelerator (`discovery_accelerator.py`): the
 * question listing with the latest answer of each answered question, and
 * the discovery report built from it.
 */
module DiscoveryReport {
  import opened Base
  import opened Json
  import opened Sql
  import opened Sorting
  import opened StoreRows
  import opened Llm
  import opened SowParser
  import opened DiscoveryDb
  import opened DiscoveryAccelerator

  // ------------------------------------------------------------ SQL equality

  /** `SqlLe` chained, stated as an implication so that it can be used unconditionally. */
  lemma {:induction false} SqlLeChain(a: SqlValue, b: SqlValue, c: SqlValue)
    ensures SqlLe(a, b) && SqlLe(b, c) ==> SqlLe(a, c)
  {
    if SqlLe(a, b) && SqlLe(b, c) {
      SqlLeTransitive(a, b, c);
    }
  }

  // ------------------------------------------------------------ ordering

  /** `ORDER BY key, ...`: the key decides unless SQL finds the two keys equal; then `rest` decides. */
  function ThenBy<T>(key: T -> SqlValue, rest: (T, T) -> bool): (T, T) -> bool {
    (a: T, b: T) => if SqlSame(key(a), key(b)) then rest(a, b) else SqlLe(key(a), key(b))
  }

  lemma {:induction false} ThenByPreorder<T(!new)>(key: T -> SqlValue, rest: (T, T) -> bool)
    requires Preorder(rest)
    ensures Preorder(ThenBy(key, rest))
  {
    var le := ThenBy(key, rest);
    forall a, b ensures le(a, b) || le(b, a) {
      SqlLeTotal(key(a), key(b));
    }
    forall a, b, c | le(a, b) && le(b, c) ensures le(a, c) {
      var x, y, z := key(a), key(b), key(c);
      SqlLeTotal(x, y);
      SqlLeTotal(y, z);
      SqlLeChain(x, y, z);
      SqlLeChain(y, z, x);
      SqlLeChain(z, x, y);
      SqlLeChain(z, y, x);
      SqlLeChain(y, x, z);
      SqlLeChain(x, z, y);
    }
  }

  predicate ById(a: Question, b: Question) {
    a.id <= b.id
  }

  /** `ORDER BY priority, id`. */
  function PriorityIdOrder(): (Question, Question) -> bool {
    ThenBy((q: Question) => q.priority, ById)
  }

  /** `ORDER BY status, priority, id`. */
  function StatusPriorityIdOrder(): (Question, Question) -> bool {
    ThenBy((q: Question) => q.status, PriorityIdOrder())
  }

  lemma {:induction false} QuestionOrdersPreorder()
    ensures Preorder(PriorityIdOrder()) && Preorder(StatusPriorityIdOrder())
  {
    assert Preorder(ById);
    ThenByPreorder((q: Question) => q.priority, ById);
    ThenByPreorder((q: Question) => q.status, PriorityIdOrder());
  }

  // ------------------------------------------------------------ the question listing

  /** A status argument filters only when it is given and not empty. */
  predicate StatusFilterGiven(status: Option<string>) {
    status.Some? && status.value != ""
  }

  /** The rows the listing query selects, in rowid order. */
  function CurrentSelection(questions: seq<Question>, pid: int, status: Option<string>): seq<Question> {
    if StatusFilterGiven(status) then Filter(questions, (q: Question) => InProjectWithStatus(q, pid, status.value))
    else ProjectQuestions(questions, pid)
  }

  /** The listing's `ORDER BY`: status first only when all statuses are listed. */
  function CurrentOrder(status: Option<string>): (Question, Question) -> bool {
    if StatusFilterGiven(status) then PriorityIdOrder() else StatusPriorityIdOrder()
  }

  /** An answer joined with the meeting date of its transcript. */
  datatype AnswerView = AnswerView(row: Answer, meetingDate: int)

  /** A listed question, with its latest answer where one is attached. */
  datatype QuestionView = QuestionView(row: Question, answer: Option<AnswerView>)

  function RowsOf(views: seq<QuestionView>): (rows: seq<Question>)
    ensures |rows| == |views| && forall i :: 0 <= i < |views| ==> rows[i] == views[i].row
  {
    seq(|views|, i requires 0 <= i < |views| => views[i].row)
  }

  /** The index of the transcript with rowid `tid`, or `|ts|`. */
  function TranscriptIndex(ts: seq<Transcript>, tid: int): (i: nat)
    ensures i <= |ts|
    ensures i < |ts| ==> ts[i].id == tid
    ensures i == |ts| ==> forall j :: 0 <= j < |ts| ==> ts[j].id != tid
    decreases |ts|
  {
    if ts == [] then 0 else if ts[0].id == tid then 0 else 1 + TranscriptIndex(ts[1..], tid)
  }

  /** An answer to `qid` that the join with `transcripts` keeps. */
  predicate Joined(a: Answer, ts: seq<Transcript>, qid: int) {
    a.questionId == qid && TranscriptIndex(ts, a.transcriptId) < |ts|
  }

  /**
   * The answer query of the listing (`ORDER BY a.id DESC LIMIT 1`): among
   * the answers to `qid` whose transcript exists, the one with the largest
   * rowid, with that transcript's meeting date.
   */
  function LatestAnswer(answers: seq<Answer>, ts: seq<Transcript>, qid: int): (r: Option<AnswerView>)
    ensures r.Some? <==> exists a :: a in answers && Joined(a, ts, qid)
    ensures r.Some? ==>
              && r.value.row in answers && Joined(r.value.row, ts, qid)
              && r.value.meetingDate == ts[TranscriptIndex(ts, r.value.row.transcriptId)].meetingDate
              && forall a :: a in answers && Joined(a, ts, qid) ==> a.id <= r.value.row.id
    decreases |answers|
  {
    if answers == [] then None
    else
      var front := LatestAnswer(answers[..|answers| - 1], ts, qid);
      var a := answers[|answers| - 1];
      assert answers == answers[..|answers| - 1] + [a];
      if Joined(a, ts, qid) && (front.None? || front.value.row.id <= a.id) then
        Some(AnswerView(a, ts[TranscriptIndex(ts, a.transcriptId)].meetingDate))
      else front
  }

  /** The statuses whose questions get their latest answer attached. */
  predicate ShowsAnswer(q: Question) {
    q.status == SqlText("answered") || q.status == SqlText("partially_answered")
  }

  /** The answer attached to a listed question. */
  function AttachedAnswer(db: DiscoveryDatabase, q: Question): Option<AnswerView>
    reads db
  {
    if ShowsAnswer(q) then LatestAnswer(db.answers, db.transcripts, q.id) else None
  }

  /**
   * `get_current_questions`: the project's questions (with the given status
   * only, when one is given), each once, in the query's order; each
   * answered or partially answered one carries its latest answer.
   */
  method GetCurrentQuestions(db: DiscoveryDatabase, pid: int, status: Option<string>) returns (views: seq<QuestionView>)
    ensures Sorted(RowsOf(views), CurrentOrder(status))
    ensures multiset(RowsOf(views)) == multiset(CurrentSelection(db.questions, pid, status))
    ensures forall i :: 0 <= i < |views| ==> views[i].answer == AttachedAnswer(db, views[i].row)
  {
    var selected := CurrentSelection(db.questions, pid, status);
    QuestionOrdersPreorder();
    InsertionSortSorted(selected, CurrentOrder(status));
    var rows := InsertionSort(selected, CurrentOrder(status));
    views := AttachAnswers(db, rows);
  }

  /** Each question that shows an answer gets its latest one; the rows stay as they are. */
  method AttachAnswers(db: DiscoveryDatabase, rows: seq<Question>) returns (views: seq<QuestionView>)
    ensures RowsOf(views) == rows
    ensures forall i :: 0 <= i < |views| ==> views[i].answer == AttachedAnswer(db, views[i].row)
  {
    views := seq(|rows|, i requires 0 <= i < |rows| => QuestionView(rows[i], None));
    var i := 0;
    while i < |views|
      invariant 0 <= i <= |views| == |rows|
      invariant forall j :: 0 <= j < |views| ==> views[j].row == rows[j]
      invariant forall j :: 0 <= j < i ==> views[j].answer == AttachedAnswer(db, views[j].row)
      invariant forall j :: i <= j < |views| ==> views[j].answer == None
    {
      if ShowsAnswer(views[i].row) {
        var answer := LatestAnswer(db.answers, db.transcripts, views[i].row.id);
        if answer.Some? {
          views := views[i := views[i].(answer := answer)];
        }
      }
      i := i + 1;
    }
    assert RowsOf(views) == rows;
  }

  // ------------------------------------------------------------ grouping by status

  /**
   * The report's `questions_by_status`, as (status, questions) pairs in
   * the order the statuses were first seen. Statuses are compared with
   * `==` on the stored value: the column has TEXT affinity, so it holds no
   * integers, and Python's `==` on the values that remain is equality.
   */
  type Groups = seq<(SqlValue, seq<QuestionView>)>

  /** The group of status `k`, or `|groups|`. */
  function GroupIndex(groups: Groups, k: SqlValue): (i: nat)
    ensures i <= |groups|
    ensures i < |groups| ==> groups[i].0 == k
    ensures forall j :: 0 <= j < i ==> groups[j].0 != k
    decreases |groups|
  {
    if groups == [] then 0
    else if groups[0].0 == k then 0
    else
      var i := GroupIndex(groups[1..], k);
      assert forall j :: 1 <= j < 1 + i ==> groups[j] == groups[1..][j - 1];
      1 + i
  }

  /** One round of the grouping loop: the question joins its status's group, created when new. */
  function AddToStatusGroup(groups: Groups, v: QuestionView): Groups {
    var i := GroupIndex(groups, v.row.status);
    if i < |groups| then groups[i := (groups[i].0, groups[i].1 + [v])]
    else groups + [(v.row.status, [v])]
  }

  /** The groups after the loop ran over `views`. */
  function StatusGroups(views: seq<QuestionView>): Groups
    decreases |views|
  {
    if views == [] then []
    else AddToStatusGroup(StatusGroups(views[..|views| - 1]), views[|views| - 1])
  }

  /** The reference: the listed questions with status `k`, in listing order. */
  function HavingStatus(views: seq<QuestionView>, k: SqlValue): (r: seq<QuestionView>)
    ensures forall v :: v in r <==> v in views && v.row.status == k
    decreases |views|
  {
    if views == [] then []
    else
      var front := views[..|views| - 1];
      var v := views[|views| - 1];
      assert views == front + [v];
      HavingStatus(front, k) + (if v.row.status == k then [v] else [])
  }

  function TotalSize(groups: Groups): nat
    decreases |groups|
  {
    if groups == [] then 0 else TotalSize(groups[..|groups| - 1]) + |groups[|groups| - 1].1|
  }

  /** No status has two groups. */
  predicate KeysDistinct(groups: Groups) {
    forall i, j :: 0 <= i < j < |groups| ==> groups[i].0 != groups[j].0
  }

  /** Each group is exactly the listed questions of its status, in listing order, and so not empty. */
  predicate GroupsExact(groups: Groups, views: seq<QuestionView>) {
    forall i :: 0 <= i < |groups| ==> groups[i].1 == HavingStatus(views, groups[i].0) && groups[i].1 != []
  }

  /** Every listed question's status has a group. */
  predicate Covers(groups: Groups, views: seq<QuestionView>) {
    forall v :: v in views ==> exists i :: 0 <= i < |groups| && groups[i].0 == v.row.status
  }

  /**
   * What the grouping promises: one group per status, each group exactly
   * the questions of its status, every question in a group, and no
   * question counted twice.
   */
  predicate GroupsOf(groups: Groups, views: seq<QuestionView>) {
    KeysDistinct(groups) && GroupsExact(groups, views) && Covers(groups, views) && TotalSize(groups) == |views|
  }

  lemma {:induction false} TotalSizeUpdate(groups: Groups, i: nat, v: QuestionView)
    requires i < |groups|
    ensures TotalSize(groups[i := (groups[i].0, groups[i].1 + [v])]) == TotalSize(groups) + 1
    decreases |groups|
  {
    var n := |groups| - 1;
    var g := groups[i := (groups[i].0, groups[i].1 + [v])];
    assert g[..n] == if i == n then groups[..n] else groups[..n][i := (groups[i].0, groups[i].1 + [v])];
    if i < n {
      TotalSizeUpdate(groups[..n], i, v);
    }
  }

  /** No listed question has status `k`: then none is having it. */
  lemma {:induction false} HavingNone(views: seq<QuestionView>, k: SqlValue)
    requires forall u :: u in views ==> u.row.status != k
    ensures HavingStatus(views, k) == []
    decreases |views|
  {
    if views != [] {
      var front := views[..|views| - 1];
      assert forall u :: u in front ==> u in views;
      HavingNone(front, k);
    }
  }

  /** Appending a question extends the list of its status and leaves the others. */
  lemma {:induction false} HavingSnoc(views: seq<QuestionView>, v: QuestionView, k: SqlValue)
    ensures HavingStatus(views + [v], k) == HavingStatus(views, k) + if v.row.status == k then [v] else []
  {
    assert (views + [v])[..|views|] == views;
  }

  /** A new group is only made for a status that had none. */
  lemma {:induction false} AddKeysDistinct(groups: Groups, v: QuestionView)
    requires KeysDistinct(groups)
    ensures KeysDistinct(AddToStatusGroup(groups, v))
  {
  }

  /** Each group stays exactly the questions of its status. */
  lemma {:induction false} AddExact(groups: Groups, views: seq<QuestionView>, v: QuestionView)
    requires KeysDistinct(groups) && GroupsExact(groups, views) && Covers(groups, views)
    ensures GroupsExact(AddToStatusGroup(groups, v), views + [v])
  {
    var s := v.row.status;
    var i := GroupIndex(groups, s);
    var g := AddToStatusGroup(groups, v);
    forall j | 0 <= j < |g| ensures g[j].1 == HavingStatus(views + [v], g[j].0) && g[j].1 != [] {
      HavingSnoc(views, v, g[j].0);
      if i == |groups| && j == i {
        HavingNone(views, s);
      }
    }
  }

  /** Every question's status still has a group, the new question's included. */
  lemma {:induction false} AddCovers(groups: Groups, views: seq<QuestionView>, v: QuestionView)
    requires Covers(groups, views)
    ensures Covers(AddToStatusGroup(groups, v), views + [v])
  {
    var s := v.row.status;
    var i := GroupIndex(groups, s);
    var g := AddToStatusGroup(groups, v);
    forall u | u in views + [v] ensures exists j :: 0 <= j < |g| && g[j].0 == u.row.status {
      if u in views {
        var j :| 0 <= j < |groups| && groups[j].0 == u.row.status;
        assert g[j].0 == groups[j].0;
      } else {
        assert g[if i < |groups| then i else |groups|].0 == s;
      }
    }
  }

  /** Each round puts the question in exactly one group. */
  lemma {:induction false} AddTotal(groups: Groups, v: QuestionView)
    ensures TotalSize(AddToStatusGroup(groups, v)) == TotalSize(groups) + 1
  {
    var i := GroupIndex(groups, v.row.status);
    if i < |groups| {
      TotalSizeUpdate(groups, i, v);
    } else {
      assert AddToStatusGroup(groups, v)[..|groups|] == groups;
    }
  }

  /** One round of the loop keeps the grouping's promise. */
  lemma {:induction false} AddKeepsGroups(groups: Groups, views: seq<QuestionView>, v: QuestionView)
    requires GroupsOf(groups, views)
    ensures GroupsOf(AddToStatusGroup(groups, v), views + [v])
  {
    AddKeysDistinct(groups, v);
    AddExact(groups, views, v);
    AddCovers(groups, views, v);
    AddTotal(groups, v);
  }

  /** The grouping loop keeps its promise for every prefix of the listing. */
  lemma {:induction false} StatusGroupsCorrect(views: seq<QuestionView>)
    ensures GroupsOf(StatusGroups(views), views)
    decreases |views|
  {
    if views != [] {
      var front := views[..|views| - 1];
      var v := views[|views| - 1];
      assert views == front + [v];
      StatusGroupsCorrect(front);
      AddKeepsGroups(StatusGroups(front), front, v);
    }
  }

  /** The loop of `generate_discovery_report` that groups the listing by status. */
  method GroupByStatus(views: seq<QuestionView>) returns (groups: Groups)
    ensures GroupsOf(groups, views)
  {
    groups := [];
    var i := 0;
    while i < |views|
      invariant 0 <= i <= |views|
      invariant groups == StatusGroups(views[..i])
    {
      assert views[..i + 1][..i] == views[..i];
      groups := AddToStatusGroup(groups, views[i]);
      i := i + 1;
    }
    assert views[..i] == views;
    StatusGroupsCorrect(views);
  }

  // ------------------------------------------------------------ the SOW summary

  datatype SowSummary = SowSummary(sectionsCount: nat, requirementsCount: nat,
                                   inScopeItems: nat, outOfScopeItems: nat, unclearItems: nat)

  /** `len(v)`, raising for a value without a length. */
  function LenOf(v: JValue): (r: Outcome<nat>)
    ensures r.Ok? <==> Len(v).Some?
    ensures r.Ok? ==> r.value == Len(v).value
    ensures r.Raised? ==> r.message == NoLenMessage(v)
  {
    match Len(v)
    case None => Raised(NoLenMessage(v))
    case Some(n) => Ok(n)
  }

  /** `len(boundaries.get(key, []))`, raising when the boundaries are not a dict or the value has no length. */
  function BoundaryCount(boundaries: JValue, key: string): (r: Outcome<nat>)
    ensures !boundaries.JObj? ==> r == Raised(NoGetMessage(boundaries))
    ensures boundaries.JObj? ==> r == LenOf(Get(boundaries.fields, key, JArr([])))
  {
    if !boundaries.JObj? then Raised(NoGetMessage(boundaries))
    else LenOf(Get(boundaries.fields, key, JArr([])))
  }

  /**
   * The `sow_summary` of the report, with the fields in their order of
   * evaluation; a project without SOW data raises on the first `.get`.
   */
  function SummaryOf(sow: Option<SowRecord>): (r: Outcome<SowSummary>)
    ensures r.Ok? ==> sow.Some? && sow.value.boundaries.JObj?
  {
    if sow.None? then Raised(NoGetMessage(JNull))
    else
      var s := sow.value;
      match LenOf(s.sections)
      case Raised(m) => Raised(m)
      case Ok(sections) =>
        match LenOf(s.requirements)
        case Raised(m) => Raised(m)
        case Ok(requirements) =>
          match BoundaryCount(s.boundaries, "in_scope")
          case Raised(m) => Raised(m)
          case Ok(inScope) =>
            match BoundaryCount(s.boundaries, "out_of_scope")
            case Raised(m) => Raised(m)
            case Ok(outOfScope) =>
              match BoundaryCount(s.boundaries, "unclear")
              case Raised(m) => Raised(m)
              case Ok(unclear) => Ok(SowSummary(sections, requirements, inScope, outOfScope, unclear))
  }

  /**
   * The summary fails exactly where a `len` or a `.get` does, and otherwise
   * counts the sections, the requirements and the items of each boundary
   * list.
   */
  lemma {:induction false} SummaryOfCorrect(sow: Option<SowRecord>)
    ensures sow.None? ==> SummaryOf(sow) == Raised(NoGetMessage(JNull))
    ensures SummaryOf(sow).Ok? <==>
              && sow.Some? && Len(sow.value.sections).Some? && Len(sow.value.requirements).Some?
              && sow.value.boundaries.JObj?
              && (forall k :: k in BoundaryKeys ==> Len(Get(sow.value.boundaries.fields, k, JArr([]))).Some?)
    ensures SummaryOf(sow).Ok? ==>
              var b := sow.value.boundaries.fields;
              SummaryOf(sow).value == SowSummary(Len(sow.value.sections).value, Len(sow.value.requirements).value,
                                                 Len(Get(b, "in_scope", JArr([]))).value,
                                                 Len(Get(b, "out_of_scope", JArr([]))).value,
                                                 Len(Get(b, "unclear", JArr([]))).value)
  {
    assert forall k :: k in BoundaryKeys <==> k == "in_scope" || k == "out_of_scope" || k == "unclear";
  }

  /**
   * A SOW as `process_documents` stores it always has a summary: the
   * sections are a dict, the requirements have a length, and the boundary
   * check guaranteed each boundary list a length.
   */
  lemma {:induction false} StoredSowSummarised(sowPath: string, extract: TextExtractor, llm: Model, decode: Decoder,
                             s: Sow, rec: Option<SowRecord>)
    requires ParsedSow(sowPath, extract, llm, decode) == Ok(s)
    requires HoldsSow(rec, s)
    ensures SummaryOf(rec).Ok?
    ensures SummaryOf(rec).value.sectionsCount == |s.sections|
  {
    assert Boundaries(s.sections, llm, decode) == Ok(s.boundaries) && Len(s.requirements).Some?;
    BoundariesSized(s.sections, llm, decode);
    SummaryOfHolds(rec, s);
  }

  /** A held SOW whose requirements have a length and whose boundary lists all have one has a summary. */
  lemma {:induction false} SummaryOfHolds(rec: Option<SowRecord>, s: Sow)
    requires HoldsSow(rec, s) && Len(s.requirements).Some?
    requires forall k :: k in BoundaryKeys ==> HasKey(s.boundaries, k) && Len(Lookup(s.boundaries, k).value).Some?
    ensures SummaryOf(rec).Ok? && SummaryOf(rec).value.sectionsCount == |s.sections|
  {
    forall k | k in BoundaryKeys ensures Len(Get(s.boundaries, k, JArr([]))).Some? {
      assert HasKey(s.boundaries, k) && Len(Lookup(s.boundaries, k).value).Some?;
    }
    SummaryOfCorrect(rec);
  }

  // ------------------------------------------------------------ the report

  predicate MeetingDateLe(a: Transcript, b: Transcript) {
    a.meetingDate <= b.meetingDate
  }

  predicate NewInfoPriorityLe(a: NewInfo, b: NewInfo) {
    SqlLe(a.priority, b.priority)
  }

  lemma {:induction false} ReportOrdersPreorder()
    ensures Preorder(MeetingDateLe) && Preorder(NewInfoPriorityLe)
  {
    forall a: NewInfo, b: NewInfo ensures NewInfoPriorityLe(a, b) || NewInfoPriorityLe(b, a) {
      SqlLeTotal(a.priority, b.priority);
    }
    forall a: NewInfo, b: NewInfo, c: NewInfo | NewInfoPriorityLe(a, b) && NewInfoPriorityLe(b, c)
      ensures NewInfoPriorityLe(a, c)
    {
      SqlLeTransitive(a.priority, b.priority, c.priority);
    }
  }

  function ProjectNewInfo(rows: seq<NewInfo>, pid: int): seq<NewInfo> {
    Filter(rows, (n: NewInfo) => n.projectId == pid)
  }

  datatype QuestionsSummary = QuestionsSummary(total: nat, byStatus: seq<(SqlValue, nat)>, details: Groups)

  datatype Report = Report(project: Project, status: DiscoveryStatus, sowSummary: SowSummary,
                           questions: QuestionsSummary, transcripts: seq<Transcript>, newInformation: seq<NewInfo>)

  datatype ReportReply = ReportReady(report: Report) | ReportFailed(message: string)

  /**
   * `generate_discovery_report`: an unknown project is an error; otherwise
   * the listing of all the project's questions grouped by status with a
   * count per status, the transcripts by meeting date, the new information
   * by priority and the status, unless the SOW summary raises, which makes
   * the whole report an error reply.
   */
  method GenerateDiscoveryReport(db: DiscoveryDatabase, pid: int) returns (r: ReportReply)
    ensures ProjectOf(db.projects, pid).None? ==> r == ReportFailed("Project not found")
    ensures ProjectOf(db.projects, pid).Some? && SummaryOf(db.SowDataOf(pid)).Raised? ==>
              r == ReportFailed(SummaryOf(db.SowDataOf(pid)).message)
    ensures r.ReportReady? <==> ProjectOf(db.projects, pid).Some? && SummaryOf(db.SowDataOf(pid)).Ok?
    ensures r.ReportReady? ==>
              var rep := r.report;
              var qs := rep.questions;
              && rep.project == ProjectOf(db.projects, pid).value
              && rep.status == db.GetDiscoveryStatus(pid)
              && rep.sowSummary == SummaryOf(db.SowDataOf(pid)).value
              && qs.total == |ProjectQuestions(db.questions, pid)| == TotalSize(qs.details)
              && |qs.byStatus| == |qs.details|
              && (forall i :: 0 <= i < |qs.details| ==>
                    && qs.byStatus[i] == (qs.details[i].0, |qs.details[i].1|)
                    && qs.details[i].1 != []
                    && forall v :: v in qs.details[i].1 ==>
                         && v.row.status == qs.details[i].0
                         && v.row in db.questions && InProject(v.row, pid)
                         && v.answer == AttachedAnswer(db, v.row))
              && (forall i, j :: 0 <= i < j < |qs.details| ==> qs.details[i].0 != qs.details[j].0)
              && (forall q :: q in db.questions && InProject(q, pid) ==>
                    exists i, v :: 0 <= i < |qs.details| && v in qs.details[i].1 && v.row == q)
              && Sorted(rep.transcripts, MeetingDateLe)
              && multiset(rep.transcripts) == multiset(ProjectTranscripts(db.transcripts, pid))
              && Sorted(rep.newInformation, NewInfoPriorityLe)
              && multiset(rep.newInformation) == multiset(ProjectNewInfo(db.newInfo, pid))
  {
    var project := ProjectOf(db.projects, pid);
    if project.None? {
      return ReportFailed("Project not found");
    }
    var sow := db.GetProjectSowData(pid);
    var questions := SummariseQuestions(db, pid);
    ReportOrdersPreorder();
    var mine := ProjectTranscripts(db.transcripts, pid);
    InsertionSortSorted(mine, MeetingDateLe);
    var transcripts := InsertionSort(mine, MeetingDateLe);
    var found := ProjectNewInfo(db.newInfo, pid);
    InsertionSortSorted(found, NewInfoPriorityLe);
    var newInfo := InsertionSort(found, NewInfoPriorityLe);
    var status := db.GetDiscoveryStatus(pid);
    var summary := SummaryOf(sow);
    if summary.Raised? {
      return ReportFailed(summary.message);
    }
    r := ReportReady(Report(project.value, status, summary.value, questions, transcripts, newInfo));
  }

  /** The questions part of the report: the project's questions grouped by status, with a count per group. */
  method SummariseQuestions(db: DiscoveryDatabase, pid: int) returns (qs: QuestionsSummary)
    ensures qs.total == |ProjectQuestions(db.questions, pid)| == TotalSize(qs.details)
    ensures |qs.byStatus| == |qs.details|
    ensures forall i :: 0 <= i < |qs.details| ==>
              && qs.byStatus[i] == (qs.details[i].0, |qs.details[i].1|)
              && qs.details[i].1 != []
              && forall v :: v in qs.details[i].1 ==>
                   && v.row.status == qs.details[i].0
                   && v.row in db.questions && InProject(v.row, pid)
                   && v.answer == AttachedAnswer(db, v.row)
    ensures forall i, j :: 0 <= i < j < |qs.details| ==> qs.details[i].0 != qs.details[j].0
    ensures forall q :: q in db.questions && InProject(q, pid) ==>
              exists i, v :: 0 <= i < |qs.details| && v in qs.details[i].1 && v.row == q
  {
    var all := GetCurrentQuestions(db, pid, None);
    var details := GroupByStatus(all);
    ListingCovered(db, pid, all, details);
    var byStatus := seq(|details|, i requires 0 <= i < |details| => (details[i].0, |details[i].1|));
    qs := QuestionsSummary(|all|, byStatus, details);
  }

  /** The groups of the full listing hold exactly the project's questions, with their attached answers. */
  lemma {:induction false} ListingCovered(db: DiscoveryDatabase, pid: int, all: seq<QuestionView>, details: Groups)
    requires multiset(RowsOf(all)) == multiset(ProjectQuestions(db.questions, pid))
    requires forall i :: 0 <= i < |all| ==> all[i].answer == AttachedAnswer(db, all[i].row)
    requires GroupsOf(details, all)
    ensures |all| == |ProjectQuestions(db.questions, pid)|
    ensures forall i, v :: 0 <= i < |details| && v in details[i].1 ==>
              v.row in db.questions && InProject(v.row, pid) && v.answer == AttachedAnswer(db, v.row)
    ensures forall q :: q in db.questions && InProject(q, pid) ==>
              exists i, v :: 0 <= i < |details| && v in details[i].1 && v.row == q
  {
    var rows := RowsOf(all);
    var mine := ProjectQuestions(db.questions, pid);
    assert |rows| == |multiset(rows)| == |multiset(mine)| == |mine|;
    forall i, v | 0 <= i < |details| && v in details[i].1
      ensures v.row in db.questions && InProject(v.row, pid) && v.answer == AttachedAnswer(db, v.row)
    {
      assert v in all;
      var k :| 0 <= k < |all| && all[k] == v;
      assert rows[k] in multiset(mine);
    }
    forall q | q in db.questions && InProject(q, pid)
      ensures exists i, v :: 0 <= i < |details| && v in details[i].1 && v.row == q
    {
      assert q in mine;
      assert q in multiset(rows);
      var k :| 0 <= k < |rows| && rows[k] == q;
      var v := all[k];
      assert v in all;
      var i :| 0 <= i < |details| && details[i].0 == v.row.status;
      assert v in HavingStatus(all, details[i].0);
    }
  }
}
