/**
 * The discovery store: one SQLite database with a table each for projects,
 * parsed SOW data, requirement matches, questions, transcripts, answers and
 * new information. Each table is a sequence field of the class; each method
 * is one connection's statements followed by a commit, or by a rollback
 * where the source catches an exception.
 */
module DiscoveryDb {
  import opened Base
  import opened Json
  import opened Sql
  import opened Sorting
  import opened StoreRows

  /** What `get_discovery_status` returns. */
  datatype DiscoveryStatus = DiscoveryStatus(projectId: int, totalQuestions: nat,
                                             questionStatus: seq<(SqlValue, nat)>,
                                             transcriptCount: nat, discoveryComplete: bool)

  /** The project's unanswered questions of `qs`, ordered by priority: what `get_unanswered_questions` selects. */
  function UnansweredByPriority(qs: seq<Question>, pid: int): seq<Question> {
    InsertionSort(UnansweredOf(qs, pid), PriorityLe)
  }

  class DiscoveryDatabase {
    var projects: seq<Project>
    var sowRows: seq<SowRow>
    /** Whether `requirement_matches` exists; `store_sow_data` creates it on first use. */
    var matchTableExists: bool
    var matchRows: seq<MatchRow>
    var questions: seq<Question>
    var transcripts: seq<Transcript>
    var answers: seq<Answer>
    var newInfo: seq<NewInfo>

    /** Rowids are valid in every table, and each project has at most one `sow_data` row. */
    ghost predicate Valid()
      reads this
    {
      && IdsOk(Ids(projects, ProjectRowId))
      && IdsOk(Ids(sowRows, SowRowId))
      && IdsOk(Ids(matchRows, MatchRowId))
      && IdsOk(Ids(questions, QuestionRowId))
      && IdsOk(Ids(transcripts, TranscriptRowId))
      && IdsOk(Ids(answers, AnswerRowId))
      && IdsOk(Ids(newInfo, NewInfoRowId))
      && OneSowRowPerProject(sowRows)
      && (!matchTableExists ==> matchRows == [])
    }

    /** `initialize_db` on a new database file: every table of the schema exists and is empty. */
    constructor ()
      ensures Valid()
      ensures projects == [] && sowRows == [] && !matchTableExists && matchRows == []
      ensures questions == [] && transcripts == [] && answers == [] && newInfo == []
    {
      projects, sowRows, matchTableExists, matchRows := [], [], false, [];
      questions, transcripts, answers, newInfo := [], [], [], [];
    }

    /** `create_project`: one new project row with a fresh rowid; no other table changes. */
    method CreateProject(name: string, sowPath: Option<string>, now: int) returns (id: int)
      requires Valid()
      modifies this
      ensures Valid()
      ensures id >= 1 && forall p :: p in old(projects) ==> p.id < id
      ensures projects == old(projects) + [Project(id, name, sowPath, now, now)]
      ensures sowRows == old(sowRows) && matchTableExists == old(matchTableExists) && matchRows == old(matchRows)
      ensures questions == old(questions) && transcripts == old(transcripts)
      ensures answers == old(answers) && newInfo == old(newInfo)
    {
      id := NextId(Ids(projects, ProjectRowId));
      IdsAppend(projects, Project(id, name, sowPath, now, now), ProjectRowId);
      projects := projects + [Project(id, name, sowPath, now, now)];
    }

    /** What `get_project_sow_data` returns in the current state. */
    function SowDataOf(pid: int): (r: Option<SowRecord>)
      reads this
      ensures r.Some? <==> exists i :: 0 <= i < |sowRows| && sowRows[i].projectId == pid
    {
      SowRecordOf(sowRows, matchTableExists, matchRows, pid)
    }

    /** The match half of `store_sow_data`: the table exists, and the project's matches are replaced. */
    method ReplaceMatches(pid: int, groups: seq<(string, seq<MatchView>)>, now: int)
      requires Valid()
      modifies this
      ensures Valid()
      ensures matchTableExists && matchRows == ReplacedMatches(old(matchRows), pid, groups, now)
      ensures sowRows == old(sowRows) && projects == old(projects) && questions == old(questions)
      ensures transcripts == old(transcripts) && answers == old(answers) && newInfo == old(newInfo)
    {
      matchTableExists := true;
      OtherProjectsIds(matchRows, pid);
      ReplacedMatchesIds(matchRows, pid, groups, now);
      var base := OtherProjects(matchRows, pid);
      var newIds;
      matchRows, newIds := InsertAll(base, Flatten(groups), MatchMaker(pid, now), MatchRowId);
    }

    /**
     * `store_sow_data`: upserts the project's SOW row and, when the matches
     * argument is truthy, creates the match table if needed and replaces the
     * project's matches. Where binding the matches raises, the transaction is
     * rolled back and the result is `false`. The caller's dict is changed in
     * either case; `sowAfter` is its new value.
     */
    method StoreSowData(pid: int, sow: Dict, now: int) returns (ok: bool, sowAfter: Dict)
      requires Valid()
      modifies this
      ensures Valid()
      ensures sowAfter == SowAfterStore(sow)
      ensures ok <==> !Truthy(MatchesArg(sow)) || BindRequirementMatches(MatchesArg(sow)).Some?
      ensures ok ==> sowRows == UpsertSow(old(sowRows), pid, Get(sow, "sections", JObj([])),
                                           Get(sow, "requirements", JArr([])), Get(sow, "boundaries", JObj([])), now)
      ensures !ok ==> sowRows == old(sowRows) && matchRows == old(matchRows) && matchTableExists == old(matchTableExists)
      ensures ok && Truthy(MatchesArg(sow)) ==>
                matchTableExists
                && matchRows == ReplacedMatches(old(matchRows), pid, BindRequirementMatches(MatchesArg(sow)).value, now)
      ensures ok && !Truthy(MatchesArg(sow)) ==> matchTableExists == old(matchTableExists) && matchRows == old(matchRows)
      ensures ok && Truthy(MatchesArg(sow)) && DistinctKeys(MatchesArg(sow).fields) ==>
                SowDataOf(pid).Some?
                && SowDataOf(pid).value.requirementMatches
                   == Some(NonEmptyGroups(BindRequirementMatches(MatchesArg(sow)).value))
      ensures projects == old(projects) && questions == old(questions) && transcripts == old(transcripts)
      ensures answers == old(answers) && newInfo == old(newInfo)
    {
      var rm := MatchesArg(sow);
      sowAfter := SowAfterStore(sow);
      var sections := Get(sow, "sections", JObj([]));
      var requirements := Get(sow, "requirements", JArr([]));
      var boundaries := Get(sow, "boundaries", JObj([]));
      var bound := BindRequirementMatches(rm);
      if Truthy(rm) && bound.None? {
        return false, sowAfter;
      }
      UpsertSowCorrect(sowRows, pid, sections, requirements, boundaries, now);
      sowRows := UpsertSow(sowRows, pid, sections, requirements, boundaries, now);
      if Truthy(rm) {
        ReplaceMatches(pid, bound.value, now);
        if DistinctKeys(rm.fields) {
          BindGroupsKeys(rm.fields);
          SowRoundTrip(old(sowRows), old(matchRows), pid, sections, requirements, boundaries, bound.value, now);
        }
      }
      ok := true;
    }

    /**
     * `get_project_sow_data`: the project's latest SOW row and, once the match
     * table exists, its match rows grouped by requirement id.
     */
    method GetProjectSowData(pid: int) returns (r: Option<SowRecord>)
      ensures r == SowDataOf(pid)
    {
      var i := LatestSowIndex(sowRows, pid);
      if i == |sowRows| {
        return None;
      }
      var row := sowRows[i];
      var matches: Option<seq<(string, seq<MatchView>)>> := None;
      if matchTableExists {
        var ms := MatchesOf(matchRows, pid);
        var groups := [];
        var j := 0;
        while j < |ms|
          invariant 0 <= j <= |ms|
          invariant GroupFrom(groups, ms[j..]) == Grouped(ms)
        {
          assert ms[j..][1..] == ms[j + 1..];
          groups := GroupStep(groups, ms[j]);
          j := j + 1;
        }
        assert ms[j..] == [];
        matches := Some(groups);
      }
      r := Some(SowRecord(row.id, row.projectId, row.sections, row.requirements, row.boundaries, row.createdAt, matches));
    }

    /**
     * `store_questions`: inserts, in input order, each question that has a
     * project (the argument, else its own truthy `project_id`) and whose
     * insert succeeds, and returns the new rowids.
     */
    method StoreQuestions(qs: seq<Dict>, projectId: Option<int>, now: int) returns (ids: seq<int>)
      requires Valid()
      modifies this
      ensures Valid()
      ensures (questions, ids) == InsertEach(old(questions), qs, QuestionMaker(projectId, now), QuestionRowId)
      ensures projects == old(projects) && sowRows == old(sowRows) && matchTableExists == old(matchTableExists)
      ensures matchRows == old(matchRows) && transcripts == old(transcripts)
      ensures answers == old(answers) && newInfo == old(newInfo)
    {
      ids := [];
      if qs == [] {
        return;
      }
      QuestionMakerStamps(projectId, now);
      InsertEachShape(questions, qs, QuestionMaker(projectId, now), QuestionRowId);
      questions, ids := InsertAll(questions, qs, QuestionMaker(projectId, now), QuestionRowId);
    }

    /** `get_question`: the row with that rowid, if any. */
    function GetQuestion(qid: int): (r: Option<Question>)
      reads this
      ensures r.Some? <==> exists i :: 0 <= i < |questions| && questions[i].id == qid
      ensures r.Some? ==> r.value in questions && r.value.id == qid
    {
      QuestionById(questions, qid)
    }

    /**
     * `get_unanswered_questions`: exactly the project's questions whose status
     * is 'unanswered', each once, ordered by priority.
     */
    function GetUnansweredQuestions(pid: int): (r: seq<Question>)
      reads this
      ensures multiset(r) == multiset(UnansweredOf(questions, pid))
      ensures Sorted(r, PriorityLe)
      ensures forall q :: q in r <==> q in questions && InProjectWithStatus(q, pid, "unanswered")
      ensures r == UnansweredByPriority(questions, pid)
    {
      var matching := UnansweredOf(questions, pid);
      PriorityPreorder();
      InsertionSortSorted(matching, PriorityLe);
      var r := UnansweredByPriority(questions, pid);
      assert forall q :: q in r <==> q in matching by {
        forall q ensures q in r <==> q in matching {
          assert q in r <==> q in multiset(r);
          assert q in matching <==> q in multiset(matching);
        }
      }
      r
    }

    /** `update_question_status`: sets status and `updated_at` of that question only; always succeeds. */
    method UpdateQuestionStatus(qid: int, status: string, now: int) returns (ok: bool)
      requires Valid()
      modifies this
      ensures Valid() && ok
      ensures questions == WithStatus(old(questions), qid, status, now)
      ensures projects == old(projects) && sowRows == old(sowRows) && matchTableExists == old(matchTableExists)
      ensures matchRows == old(matchRows) && transcripts == old(transcripts)
      ensures answers == old(answers) && newInfo == old(newInfo)
    {
      questions := WithStatus(questions, qid, status, now);
      assert Ids(questions, QuestionRowId) == Ids(old(questions), QuestionRowId);
      ok := true;
    }

    /** `store_transcript`: one new transcript row, unprocessed, dated now. */
    method StoreTranscript(pid: int, text: string, now: int) returns (id: int)
      requires Valid()
      modifies this
      ensures Valid()
      ensures id >= 1 && forall t :: t in old(transcripts) ==> t.id < id
      ensures transcripts == old(transcripts) + [Transcript(id, pid, now, text, false, now)]
      ensures projects == old(projects) && sowRows == old(sowRows) && matchTableExists == old(matchTableExists)
      ensures matchRows == old(matchRows) && questions == old(questions)
      ensures answers == old(answers) && newInfo == old(newInfo)
    {
      id := NextId(Ids(transcripts, TranscriptRowId));
      IdsAppend(transcripts, Transcript(id, pid, now, text, false, now), TranscriptRowId);
      transcripts := transcripts + [Transcript(id, pid, now, text, false, now)];
    }

    /** `store_answer`: one new answer row, or `false` and no change where binding raises. */
    method StoreAnswer(qid: int, tid: int, answerText: JValue, confidence: JValue, now: int) returns (ok: bool)
      requires Valid()
      modifies this
      ensures Valid()
      ensures ok <==> Bind(answerText).Some? && Bind(confidence).Some?
      ensures ok ==> answers == old(answers) + [Answer(NextId(Ids(old(answers), AnswerRowId)), qid, tid,
                       TextAffinity(Bind(answerText).value), RealAffinity(Bind(confidence).value), now)]
      ensures !ok ==> answers == old(answers)
      ensures projects == old(projects) && sowRows == old(sowRows) && matchTableExists == old(matchTableExists)
      ensures matchRows == old(matchRows) && questions == old(questions)
      ensures transcripts == old(transcripts) && newInfo == old(newInfo)
    {
      var a, c := Bind(answerText), Bind(confidence);
      if a.None? || c.None? {
        return false;
      }
      var id := NextId(Ids(answers, AnswerRowId));
      var row := Answer(id, qid, tid, TextAffinity(a.value), RealAffinity(c.value), now);
      IdsAppend(answers, row, AnswerRowId);
      answers := answers + [row];
      ok := true;
    }

    /**
     * `store_new_information`: nothing for a falsy argument; raises for a
     * truthy value that cannot be iterated; otherwise one row per element
     * that is a dict and binds, with status 'pending'.
     */
    method StoreNewInformation(pid: int, info: JValue, tid: Option<int>, now: int) returns (r: Outcome<seq<int>>)
      requires Valid()
      modifies this
      ensures Valid()
      ensures !Truthy(info) ==> r == Ok([]) && newInfo == old(newInfo)
      ensures Truthy(info) && Iter(info).None? ==> r == Raised(NotIterableMessage(info)) && newInfo == old(newInfo)
      ensures Truthy(info) && Iter(info).Some? ==>
                r.Ok? && (newInfo, r.value) == InsertEach(old(newInfo), Iter(info).value, NewInfoMaker(pid, tid, now), NewInfoRowId)
      ensures projects == old(projects) && sowRows == old(sowRows) && matchTableExists == old(matchTableExists)
      ensures matchRows == old(matchRows) && questions == old(questions)
      ensures transcripts == old(transcripts) && answers == old(answers)
    {
      if !Truthy(info) {
        return Ok([]);
      }
      var items := Iter(info);
      if items.None? {
        return Raised(NotIterableMessage(info));
      }
      var xs := items.value;
      NewInfoMakerStamps(pid, tid, now);
      InsertEachShape(newInfo, xs, NewInfoMaker(pid, tid, now), NewInfoRowId);
      var ids;
      newInfo, ids := InsertAll(newInfo, xs, NewInfoMaker(pid, tid, now), NewInfoRowId);
      r := Ok(ids);
    }

    /**
     * `get_discovery_status`: per-status counts of the project's questions,
     * their total, the number of its transcripts, and whether discovery is
     * complete: at least one question and none unanswered or partially
     * answered.
     */
    function GetDiscoveryStatus(pid: int): (st: DiscoveryStatus)
      reads this
      ensures st.projectId == pid
      ensures st.totalQuestions == |ProjectQuestions(questions, pid)|
      ensures forall k :: CountLookup(st.questionStatus, k) == CountOf(StatusesOf(ProjectQuestions(questions, pid)), k)
      ensures DistinctStatusKeys(st.questionStatus)
      ensures st.discoveryComplete <==>
                st.totalQuestions > 0
                && (forall q :: q in questions && InProject(q, pid) ==>
                      q.status != SqlText("unanswered") && q.status != SqlText("partially_answered"))
      ensures st.transcriptCount == |ProjectTranscripts(transcripts, pid)|
    {
      var mine := ProjectQuestions(questions, pid);
      var counts := StatusCounts(StatusesOf(mine));
      StatusCountsCorrect(StatusesOf(mine));
      var total := SumCounts(counts);
      var open := CountLookup(counts, SqlText("unanswered")) + CountLookup(counts, SqlText("partially_answered"));
      OpenCount(mine, questions, pid);
      DiscoveryStatus(pid, total, counts, |ProjectTranscripts(transcripts, pid)|, open == 0 && total > 0)
    }
  }
}
