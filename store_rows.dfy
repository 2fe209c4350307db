/**
 * The rows of the discovery store and the functions that say what each
 * statement of the store does to a table. Each table is a sequence of rows
 * in rowid order; a new row takes the rowid one above the largest in its
 * table, as SQLite does for an `INTEGER PRIMARY KEY` without
 * `AUTOINCREMENT`.
 */
module StoreRows {
  import opened Base
  import opened Json
  import opened Sql
  import opened Sorting

  datatype Project = Project(id: int, name: string, sowPath: Option<string>, createdAt: int, updatedAt: int)

  /** A `sow_data` row; the JSON text columns hold the decoded value they encode. */
  datatype SowRow = SowRow(id: int, projectId: int, sections: JValue, requirements: JValue,
                           boundaries: JValue, createdAt: int)

  /** The three text columns of one requirement match. */
  datatype MatchView = MatchView(sourceFile: SqlValue, keyword: SqlValue, context: SqlValue)

  datatype MatchRow = MatchRow(id: int, projectId: int, requirementId: string, view: MatchView, createdAt: int)

  datatype Question = Question(id: int, projectId: SqlValue, parentId: SqlValue, text: SqlValue,
                               context: SqlValue, source: SqlValue, sourceText: SqlValue,
                               priority: SqlValue, status: SqlValue, createdAt: int, updatedAt: int)

  datatype Transcript = Transcript(id: int, projectId: int, meetingDate: int, text: string,
                                   processed: bool, createdAt: int)

  datatype Answer = Answer(id: int, questionId: int, transcriptId: int, text: SqlValue,
                           confidence: SqlValue, createdAt: int)

  datatype NewInfo = NewInfo(id: int, projectId: int, transcriptId: Option<int>, topic: SqlValue,
                             excerpt: SqlValue, impact: SqlValue, priority: SqlValue,
                             status: string, createdAt: int)

  function ProjectRowId(r: Project): int { r.id }
  function SowRowId(r: SowRow): int { r.id }
  function MatchRowId(r: MatchRow): int { r.id }
  function QuestionRowId(r: Question): int { r.id }
  function TranscriptRowId(r: Transcript): int { r.id }
  function AnswerRowId(r: Answer): int { r.id }
  function NewInfoRowId(r: NewInfo): int { r.id }

  // ---------------------------------------------------------------- rowids

  function Ids<R>(rows: seq<R>, id: R -> int): (ids: seq<int>)
    ensures |ids| == |rows| && forall i :: 0 <= i < |rows| ==> ids[i] == id(rows[i])
  {
    seq(|rows|, i requires 0 <= i < |rows| => id(rows[i]))
  }

  /** Rowids are positive and strictly increasing along the table. */
  predicate IdsOk(ids: seq<int>) {
    (forall i :: 0 <= i < |ids| ==> ids[i] >= 1)
    && (forall i, j :: 0 <= i < j < |ids| ==> ids[i] < ids[j])
  }

  /** The rowid SQLite gives the next insert: one above the largest, or 1. */
  function NextId(ids: seq<int>): (n: int)
    ensures IdsOk(ids) ==> n >= 1 && IdsOk(ids + [n])
    ensures IdsOk(ids) ==> forall i :: 0 <= i < |ids| ==> ids[i] < n
  {
    if ids == [] then 1 else ids[|ids| - 1] + 1
  }

  lemma {:induction false} IdsAppend<R>(rows: seq<R>, row: R, id: R -> int)
    ensures Ids(rows + [row], id) == Ids(rows, id) + [id(row)]
  {
  }

  lemma {:induction false} IdsPrefix<R>(rows: seq<R>, n: nat, id: R -> int)
    requires n <= |rows|
    requires IdsOk(Ids(rows, id))
    ensures IdsOk(Ids(rows[..n], id))
  {
    assert Ids(rows[..n], id) == Ids(rows, id)[..n];
  }

  /** Every `make` result for rowid `n` is a row with rowid `n`. */
  ghost predicate Stamps<X(!new), R>(make: (X, int) -> Option<R>, id: R -> int) {
    forall x, n :: make(x, n).Some? ==> id(make(x, n).value) == n
  }

  /**
   * An insert loop over `xs`: `make` gives the row inserted for an element
   * and the rowid it gets, or `None` where the statement is skipped or
   * fails; the result is the table and the ids of the inserted rows.
   */
  function InsertEach<X, R>(rows: seq<R>, xs: seq<X>, make: (X, int) -> Option<R>, id: R -> int)
    : (seq<R>, seq<int>)
    decreases |xs|
  {
    if xs == [] then (rows, [])
    else
      var n := NextId(Ids(rows, id));
      match make(xs[0], n)
      case None => InsertEach(rows, xs[1..], make, id)
      case Some(row) =>
        var rest := InsertEach(rows + [row], xs[1..], make, id);
        (rest.0, [n] + rest.1)
  }

  /** The insert loop itself: one `INSERT` per element, collecting the `lastrowid` of each that succeeds. */
  method InsertAll<X, R>(rows: seq<R>, xs: seq<X>, make: (X, int) -> Option<R>, id: R -> int)
    returns (table: seq<R>, ids: seq<int>)
    ensures (table, ids) == InsertEach(rows, xs, make, id)
  {
    table, ids := rows, [];
    var i := 0;
    assert xs[i..] == xs;
    assert InsertEach(rows, xs, make, id).1 == ids + InsertEach(rows, xs, make, id).1;
    while i < |xs|
      invariant 0 <= i <= |xs|
      invariant InsertEach(rows, xs, make, id)
             == (InsertEach(table, xs[i..], make, id).0, ids + InsertEach(table, xs[i..], make, id).1)
    {
      var n := NextId(Ids(table, id));
      assert xs[i..][0] == xs[i] && xs[i..][1..] == xs[i + 1..];
      match make(xs[i], n) {
        case Some(row) =>
          var rest := InsertEach(table + [row], xs[i + 1..], make, id);
          assert InsertEach(table, xs[i..], make, id) == (rest.0, [n] + rest.1);
          assert ids + ([n] + rest.1) == (ids + [n]) + rest.1;
          table := table + [row];
          ids := ids + [n];
        case None =>
          assert InsertEach(table, xs[i..], make, id) == InsertEach(table, xs[i + 1..], make, id);
      }
      i := i + 1;
    }
    assert xs[i..] == [];
    assert ids + [] == ids;
  }

  /**
   * The insert loop keeps the old rows as a prefix and appends one row per
   * returned id, in order, each made from some element of the input, with
   * fresh increasing rowids; it returns at most one id per element.
   */
  lemma {:induction false} InsertEachShape<X(!new), R>(rows: seq<R>, xs: seq<X>, make: (X, int) -> Option<R>, id: R -> int)
    requires IdsOk(Ids(rows, id))
    requires Stamps(make, id)
    ensures |InsertEach(rows, xs, make, id).0| == |rows| + |InsertEach(rows, xs, make, id).1|
    ensures InsertEach(rows, xs, make, id).0[..|rows|] == rows
    ensures IdsOk(Ids(InsertEach(rows, xs, make, id).0, id))
    ensures |InsertEach(rows, xs, make, id).1| <= |xs|
    ensures forall k :: 0 <= k < |InsertEach(rows, xs, make, id).1| ==>
              var r := InsertEach(rows, xs, make, id);
              id(r.0[|rows| + k]) == r.1[k]
              && exists j :: 0 <= j < |xs| && make(xs[j], r.1[k]) == Some(r.0[|rows| + k])
    decreases |xs|
  {
    if xs != [] {
      var n := NextId(Ids(rows, id));
      match make(xs[0], n)
      case None =>
        InsertEachShape(rows, xs[1..], make, id);
        var r := InsertEach(rows, xs, make, id);
        forall k | 0 <= k < |r.1|
          ensures exists j :: 0 <= j < |xs| && make(xs[j], r.1[k]) == Some(r.0[|rows| + k])
        {
          var j :| 0 <= j < |xs[1..]| && make(xs[1..][j], r.1[k]) == Some(r.0[|rows| + k]);
          assert xs[1..][j] == xs[j + 1];
        }
      case Some(row) =>
        var rows' := rows + [row];
        IdsAppend(rows, row, id);
        InsertEachShape(rows', xs[1..], make, id);
        var rest := InsertEach(rows', xs[1..], make, id);
        var r := InsertEach(rows, xs, make, id);
        assert r == (rest.0, [n] + rest.1);
        var out, got := rest.0, [n] + rest.1;
        assert rest.0[..|rows|] == rest.0[..|rows'|][..|rows|];
        assert rest.0[|rows|] == rows'[|rows|] == row;
        forall k | 0 <= k < |got|
          ensures id(out[|rows| + k]) == got[k]
          ensures exists j :: 0 <= j < |xs| && make(xs[j], got[k]) == Some(out[|rows| + k])
        {
          if k == 0 {
            assert make(xs[0], got[0]) == Some(out[|rows|]);
          } else {
            assert got[k] == rest.1[k - 1];
            assert out[|rows| + k] == rest.0[|rows'| + (k - 1)];
            var j :| 0 <= j < |xs[1..]| && make(xs[1..][j], rest.1[k - 1]) == Some(rest.0[|rows'| + (k - 1)]);
            assert xs[1..][j] == xs[j + 1];
          }
        }
    }
  }

  // ---------------------------------------------------------------- questions

  /** `UPDATE questions SET status = ?, updated_at = CURRENT_TIMESTAMP WHERE id = ?`. */
  function WithStatus(rows: seq<Question>, qid: int, status: string, now: int): (r: seq<Question>)
    ensures |r| == |rows|
    ensures forall i :: 0 <= i < |rows| && rows[i].id != qid ==> r[i] == rows[i]
    ensures forall i :: 0 <= i < |rows| && rows[i].id == qid ==>
              r[i] == rows[i].(status := SqlText(status), updatedAt := now)
  {
    seq(|rows|, i requires 0 <= i < |rows| =>
      if rows[i].id == qid then rows[i].(status := SqlText(status), updatedAt := now) else rows[i])
  }

  /** Setting the same status twice at the same moment is the same as setting it once. */
  lemma {:induction false} WithStatusIdempotent(rows: seq<Question>, qid: int, status: string, now: int)
    ensures WithStatus(WithStatus(rows, qid, status, now), qid, status, now) == WithStatus(rows, qid, status, now)
  {
  }

  /** The row an insert into `questions` stores for one question dict, or `None` where it is skipped or fails. */
  function QuestionRowFor(q: Dict, projectId: Option<int>, id: int, now: int): (r: Option<Question>)
    ensures r.Some? ==> r.value.id == id && r.value.createdAt == now && r.value.updatedAt == now
    ensures r.Some? ==> r.value.text != SqlNull && r.value.projectId != SqlNull
  {
    var pj := if projectId.Some? then JInt(projectId.value) else Get(q, "project_id", JNull);
    if !Truthy(pj) then None
    else
      var p := Bind(pj);
      var parent := Bind(Get(q, "parent_question_id", JNull));
      var text := Bind(Get(q, "question", JStr("")));
      var context := Bind(Get(q, "context", JStr("")));
      var source := Bind(Get(q, "source", JStr("")));
      var sourceText := Bind(Get(q, "source_text", JStr("")));
      var priority := Bind(Get(q, "priority", JInt(3)));
      var status := Bind(Get(q, "status", JStr("unanswered")));
      if p.None? || parent.None? || text.None? || context.None? || source.None?
         || sourceText.None? || priority.None? || status.None? then None
      else if text.value == SqlNull then None  // `question TEXT NOT NULL`
      else Some(Question(id, IntegerAffinity(p.value), IntegerAffinity(parent.value),
                         TextAffinity(text.value), TextAffinity(context.value),
                         TextAffinity(source.value), TextAffinity(sourceText.value),
                         IntegerAffinity(priority.value), TextAffinity(status.value), now, now))
  }

  /** `QuestionRowFor` for one call of `store_questions`. */
  function QuestionMaker(projectId: Option<int>, now: int): (Dict, int) -> Option<Question> {
    (q: Dict, n: int) => QuestionRowFor(q, projectId, n, now)
  }

  lemma {:induction false} QuestionMakerStamps(projectId: Option<int>, now: int)
    ensures Stamps(QuestionMaker(projectId, now), QuestionRowId)
  {
  }

  /** A question carrying only its text, stored for a project, gets the column defaults. */
  lemma {:induction false} QuestionDefaults(text: string, pid: int, id: int, now: int)
    requires pid != 0 && InInt64(pid)
    ensures QuestionRowFor([("question", JStr(text))], Some(pid), id, now)
         == Some(Question(id, SqlInt(pid), SqlNull, SqlText(text), SqlText(""), SqlText(""), SqlText(""),
                          SqlInt(3), SqlText("unanswered"), now, now))
  {
    var q: Dict := [("question", JStr(text))];
    assert KeyIndex(q, "question") == 0;
    assert "question"[0] == 'q';
    assert KeyIndex(q, "parent_question_id") == 1;
    assert KeyIndex(q, "context") == 1;
    assert KeyIndex(q, "source") == 1;
    assert KeyIndex(q, "source_text") == 1;
    assert "priority"[0] == 'p';
    assert KeyIndex(q, "priority") == 1;
    assert "status"[0] == 's';
    assert KeyIndex(q, "status") == 1;
  }

  /** A question with neither a project argument nor a truthy `project_id` of its own is skipped. */
  lemma {:induction false} QuestionWithoutProjectSkipped(q: Dict, id: int, now: int)
    requires !Truthy(Get(q, "project_id", JNull))
    ensures QuestionRowFor(q, None, id, now).None?
  {
  }

  /** A project argument of 0 skips every question, whatever its own `project_id`. */
  lemma {:induction false} QuestionForProjectZeroSkipped(q: Dict, id: int, now: int)
    ensures QuestionRowFor(q, Some(0), id, now).None?
  {
  }

  /** A question whose `question` is explicitly None breaks `NOT NULL` and is skipped. */
  lemma {:induction false} QuestionNullTextSkipped(q: Dict, projectId: Option<int>, id: int, now: int)
    requires Lookup(q, "question") == Some(JNull)
    ensures QuestionRowFor(q, projectId, id, now).None?
  {
  }

  /** An empty list of questions stores nothing and returns no ids. */
  lemma {:induction false} InsertNoQuestions(rows: seq<Question>, projectId: Option<int>, now: int)
    ensures InsertEach(rows, [], QuestionMaker(projectId, now), QuestionRowId) == (rows, [])
  {
  }

  /** Questions of a project with a given status, the `WHERE` of the status queries. */
  predicate InProjectWithStatus(q: Question, pid: int, status: string) {
    q.projectId == SqlInt(pid) && q.status == SqlText(status)
  }

  predicate InProject(q: Question, pid: int) {
    q.projectId == SqlInt(pid)
  }

  /** The project's questions, in rowid order. */
  function ProjectQuestions(rows: seq<Question>, pid: int): seq<Question> {
    Filter(rows, (q: Question) => InProject(q, pid))
  }

  /** The project's questions whose status is 'unanswered', in rowid order. */
  function UnansweredOf(rows: seq<Question>, pid: int): seq<Question> {
    Filter(rows, (q: Question) => InProjectWithStatus(q, pid, "unanswered"))
  }

  function ProjectTranscripts(rows: seq<Transcript>, pid: int): seq<Transcript> {
    Filter(rows, (t: Transcript) => t.projectId == pid)
  }

  /** `ORDER BY priority`: SQLite's order on the stored priority values. */
  predicate PriorityLe(a: Question, b: Question) {
    SqlLe(a.priority, b.priority)
  }

  lemma {:induction false} PriorityPreorder()
    ensures Preorder(PriorityLe)
  {
    forall a, b ensures PriorityLe(a, b) || PriorityLe(b, a) {
      SqlLeTotal(a.priority, b.priority);
    }
    forall a, b, c | PriorityLe(a, b) && PriorityLe(b, c) ensures PriorityLe(a, c) {
      SqlLeTransitive(a.priority, b.priority, c.priority);
    }
  }

  /** The index of the question with rowid `qid`, or `|rows|`. */
  function QuestionIndex(rows: seq<Question>, qid: int): (i: nat)
    ensures i <= |rows|
    ensures i < |rows| ==> rows[i].id == qid
    ensures i == |rows| ==> forall j :: 0 <= j < |rows| ==> rows[j].id != qid
    decreases |rows|
  {
    if rows == [] then 0 else if rows[0].id == qid then 0 else 1 + QuestionIndex(rows[1..], qid)
  }

  /** `get_question` on the rows `rows`: the row with rowid `qid`, if any. */
  function QuestionById(rows: seq<Question>, qid: int): (r: Option<Question>)
    ensures r.Some? <==> exists i :: 0 <= i < |rows| && rows[i].id == qid
    ensures r.Some? ==> r.value in rows && r.value.id == qid
  {
    var i := QuestionIndex(rows, qid);
    if i < |rows| then Some(rows[i]) else None
  }

  // ---------------------------------------------------------------- status counts

  function CountOf<T(==)>(s: seq<T>, x: T): (n: nat)
    ensures n <= |s|
    decreases |s|
  {
    if s == [] then 0 else CountOf(s[..|s| - 1], x) + (if s[|s| - 1] == x then 1 else 0)
  }

  lemma {:induction false} CountOfPositive<T>(s: seq<T>, x: T)
    ensures CountOf(s, x) > 0 <==> x in s
    decreases |s|
  {
    if s != [] {
      CountOfPositive(s[..|s| - 1], x);
      assert s == s[..|s| - 1] + [s[|s| - 1]];
    }
  }

  /** Python `counts.get(k, 0)` on the status dict. */
  function CountLookup(counts: seq<(SqlValue, nat)>, k: SqlValue): nat
    decreases |counts|
  {
    if counts == [] then 0 else if counts[0].0 == k then counts[0].1 else CountLookup(counts[1..], k)
  }

  /** Python `sum(counts.values())`. */
  function SumCounts(counts: seq<(SqlValue, nat)>): nat
    decreases |counts|
  {
    if counts == [] then 0 else counts[0].1 + SumCounts(counts[1..])
  }

  function KeysOf(counts: seq<(SqlValue, nat)>): (ks: seq<SqlValue>)
    ensures |ks| == |counts| && forall i :: 0 <= i < |counts| ==> ks[i] == counts[i].0
  {
    seq(|counts|, i requires 0 <= i < |counts| => counts[i].0)
  }

  predicate DistinctStatusKeys(counts: seq<(SqlValue, nat)>) {
    forall i, j :: 0 <= i < j < |counts| ==> counts[i].0 != counts[j].0
  }

  /** Counts status `x` once more: bumps its entry, or adds one at the end. */
  function Bump(counts: seq<(SqlValue, nat)>, x: SqlValue): (r: seq<(SqlValue, nat)>)
    decreases |counts|
  {
    if counts == [] then [(x, 1)]
    else if counts[0].0 == x then [(x, counts[0].1 + 1)] + counts[1..]
    else [counts[0]] + Bump(counts[1..], x)
  }

  lemma {:induction false} BumpCounts(counts: seq<(SqlValue, nat)>, x: SqlValue)
    ensures forall k :: CountLookup(Bump(counts, x), k) == CountLookup(counts, k) + (if k == x then 1 else 0)
    ensures SumCounts(Bump(counts, x)) == SumCounts(counts) + 1
    decreases |counts|
  {
    if counts != [] && counts[0].0 != x {
      BumpCounts(counts[1..], x);
      assert Bump(counts, x)[1..] == Bump(counts[1..], x);
    }
  }

  lemma {:induction false} BumpKeys(counts: seq<(SqlValue, nat)>, x: SqlValue)
    ensures forall k :: k in KeysOf(Bump(counts, x)) <==> k in KeysOf(counts) || k == x
  {
    forall k ensures k in KeysOf(Bump(counts, x)) <==> k in KeysOf(counts) || k == x {
      BumpKey(counts, x, k);
    }
  }

  /** One key at a time: it is a key after the bump exactly when it was one before or is the bumped value. */
  lemma {:induction false} BumpKey(counts: seq<(SqlValue, nat)>, x: SqlValue, k: SqlValue)
    ensures k in KeysOf(Bump(counts, x)) <==> k in KeysOf(counts) || k == x
    decreases |counts|
  {
    var b := Bump(counts, x);
    InKeys(b, k);
    InKeys(counts, k);
    if counts == [] {
      assert b == [(x, 1)];
      InKeys(b[1..], k);
    } else if counts[0].0 != x {
      BumpKey(counts[1..], x, k);
      assert b[0] == counts[0] && b[1..] == Bump(counts[1..], x);
    } else {
      assert b[0].0 == x && b[1..] == counts[1..];
    }
  }

  /** A key of a list of counts is its first key or a key of the rest. */
  lemma {:induction false} InKeys(c: seq<(SqlValue, nat)>, k: SqlValue)
    ensures k in KeysOf(c) <==> c != [] && (c[0].0 == k || k in KeysOf(c[1..]))
  {
    if k in KeysOf(c) {
      var i :| 0 <= i < |c| && KeysOf(c)[i] == k;
      if i > 0 {
        assert KeysOf(c[1..])[i - 1] == k;
      }
    }
    if c != [] {
      if c[0].0 == k {
        assert KeysOf(c)[0] == k;
      } else if k in KeysOf(c[1..]) {
        var i :| 0 <= i < |c| - 1 && KeysOf(c[1..])[i] == k;
        assert KeysOf(c)[i + 1] == k;
      }
    }
  }



  lemma {:induction false} BumpDistinct(counts: seq<(SqlValue, nat)>, x: SqlValue)
    requires DistinctStatusKeys(counts)
    ensures DistinctStatusKeys(Bump(counts, x))
    decreases |counts|
  {
    if counts != [] && counts[0].0 != x {
      var rest := counts[1..];
      DistinctSplit(counts[0], rest);
      assert counts == [counts[0]] + rest;
      BumpDistinct(rest, x);
      BumpKey(rest, x, counts[0].0);
      assert Bump(counts, x) == [counts[0]] + Bump(rest, x);
      DistinctSplit(counts[0], Bump(rest, x));
    } else if counts != [] {
      var b := Bump(counts, x);
      assert forall i :: 1 <= i < |b| ==> b[i] == counts[i];
    }
  }

  /** Keys are distinct after a first entry exactly when they are in the rest and the first key is not among them. */
  lemma {:induction false} DistinctSplit(c: (SqlValue, nat), rest: seq<(SqlValue, nat)>)
    ensures DistinctStatusKeys([c] + rest) <==> DistinctStatusKeys(rest) && c.0 !in KeysOf(rest)
  {
    var all := [c] + rest;
    if DistinctStatusKeys(all) {
      forall i, j | 0 <= i < j < |rest| ensures rest[i].0 != rest[j].0 {
        assert rest[i] == all[i + 1] && rest[j] == all[j + 1];
      }
      forall i | 0 <= i < |rest| ensures KeysOf(rest)[i] != c.0 {
        assert rest[i] == all[i + 1] && all[0] == c;
        assert all[0].0 != all[i + 1].0;
      }
      assert c.0 !in KeysOf(rest);
    }
    if DistinctStatusKeys(rest) && c.0 !in KeysOf(rest) {
      forall i, j | 0 <= i < j < |all| ensures all[i].0 != all[j].0 {
        if i == 0 {
          assert all[j].0 == KeysOf(rest)[j - 1];
        } else {
          assert all[i] == rest[i - 1] && all[j] == rest[j - 1];
        }
      }
    }
  }


  lemma {:induction false} BumpPositive(counts: seq<(SqlValue, nat)>, x: SqlValue)
    requires forall i :: 0 <= i < |counts| ==> counts[i].1 > 0
    ensures forall i :: 0 <= i < |Bump(counts, x)| ==> Bump(counts, x)[i].1 > 0
    decreases |counts|
  {
    if counts != [] && counts[0].0 != x {
      assert forall i :: 0 <= i < |counts[1..]| ==> counts[1..][i] == counts[i + 1];
      BumpPositive(counts[1..], x);
      assert Bump(counts, x) == [counts[0]] + Bump(counts[1..], x);
    }
  }

  /**
   * `SELECT status, COUNT(*) ... GROUP BY status`, read into a dict: one
   * entry per distinct status, in order of first appearance. (SQL fixes no
   * order for the groups; the model picks this one.)
   */
  function StatusCounts(statuses: seq<SqlValue>): (counts: seq<(SqlValue, nat)>)
    decreases |statuses|
  {
    if statuses == [] then [] else Bump(StatusCounts(statuses[..|statuses| - 1]), statuses[|statuses| - 1])
  }

  /**
   * The grouped counts have one entry per distinct status, each the number of
   * questions with that status and none of them zero, and they sum to the
   * number of questions.
   */
  lemma {:induction false} StatusCountsCorrect(statuses: seq<SqlValue>)
    ensures DistinctStatusKeys(StatusCounts(statuses))
    ensures forall k :: CountLookup(StatusCounts(statuses), k) == CountOf(statuses, k)
    ensures forall k :: k in KeysOf(StatusCounts(statuses)) <==> k in statuses
    ensures forall i :: 0 <= i < |StatusCounts(statuses)| ==> StatusCounts(statuses)[i].1 > 0
    ensures SumCounts(StatusCounts(statuses)) == |statuses|
    decreases |statuses|
  {
    if statuses != [] {
      var init := statuses[..|statuses| - 1];
      var x := statuses[|statuses| - 1];
      StatusCountsCorrect(init);
      BumpCounts(StatusCounts(init), x);
      BumpKeys(StatusCounts(init), x);
      BumpDistinct(StatusCounts(init), x);
      BumpPositive(StatusCounts(init), x);
      assert statuses == init + [x];
      forall k ensures k in statuses <==> k in init || k == x {
      }
    }
  }

  function StatusesOf(rows: seq<Question>): (s: seq<SqlValue>)
    ensures |s| == |rows| && forall i :: 0 <= i < |rows| ==> s[i] == rows[i].status
  {
    seq(|rows|, i requires 0 <= i < |rows| => rows[i].status)
  }

  /** The open-question count is zero exactly when no question of the project is open. */
  lemma {:induction false} OpenCount(mine: seq<Question>, all: seq<Question>, pid: int)
    requires mine == ProjectQuestions(all, pid)
    ensures CountOf(StatusesOf(mine), SqlText("unanswered")) + CountOf(StatusesOf(mine), SqlText("partially_answered")) == 0
        <==> forall q :: q in all && InProject(q, pid) ==>
               q.status != SqlText("unanswered") && q.status != SqlText("partially_answered")
  {
    var st := StatusesOf(mine);
    CountOfPositive(st, SqlText("unanswered"));
    CountOfPositive(st, SqlText("partially_answered"));
    forall q | q in all && InProject(q, pid) ensures q.status in st {
      assert q in mine;
      var i :| 0 <= i < |mine| && mine[i] == q;
      assert st[i] == q.status;
    }
    forall s | s in st ensures exists q :: q in all && InProject(q, pid) && q.status == s {
      var i :| 0 <= i < |st| && st[i] == s;
      assert mine[i] in all && InProject(mine[i], pid);
    }
  }

  // ---------------------------------------------------------------- new information

  /** The row `store_new_information` inserts for one element, or `None` where it is skipped. */
  function NewInfoRowFor(info: JValue, pid: int, tid: Option<int>, id: int, now: int): (r: Option<NewInfo>)
    ensures r.Some? ==> info.JObj? && r.value.id == id && r.value.projectId == pid && r.value.status == "pending"
  {
    match info
    case JObj(d) =>
      var topic := Bind(Get(d, "topic", JStr("")));
      var excerpt := Bind(Get(d, "transcript_excerpt", JStr("")));
      var impact := Bind(Get(d, "impact", JStr("")));
      var priority := Bind(Get(d, "priority", JInt(3)));
      if topic.None? || excerpt.None? || impact.None? || priority.None? then None
      else Some(NewInfo(id, pid, tid, TextAffinity(topic.value), TextAffinity(excerpt.value),
                        TextAffinity(impact.value), IntegerAffinity(priority.value), "pending", now))
    case _ => None
  }

  function NewInfoMaker(pid: int, tid: Option<int>, now: int): (JValue, int) -> Option<NewInfo> {
    (x: JValue, n: int) => NewInfoRowFor(x, pid, tid, n, now)
  }

  lemma {:induction false} NewInfoMakerStamps(pid: int, tid: Option<int>, now: int)
    ensures Stamps(NewInfoMaker(pid, tid, now), NewInfoRowId)
  {
  }

  // ---------------------------------------------------------------- SOW data and requirement matches

  /** No two `sow_data` rows belong to the same project. */
  predicate OneSowRowPerProject(rows: seq<SowRow>) {
    forall i, j :: 0 <= i < j < |rows| ==> rows[i].projectId != rows[j].projectId
  }

  /** The index of the first `sow_data` row of a project (`SELECT id ... fetchone()`), or `|rows|`. */
  function SowIndex(rows: seq<SowRow>, pid: int): (i: nat)
    ensures i <= |rows|
    ensures i < |rows| ==> rows[i].projectId == pid
    ensures forall j :: 0 <= j < i ==> rows[j].projectId != pid
    decreases |rows|
  {
    if rows == [] then 0
    else if rows[0].projectId == pid then 0
    else 1 + SowIndex(rows[1..], pid)
  }

  /** The index of the project's row with the largest rowid (`ORDER BY id DESC LIMIT 1`), or `|rows|`. */
  function LatestSowIndex(rows: seq<SowRow>, pid: int): (i: nat)
    ensures i <= |rows|
    ensures i < |rows| ==> rows[i].projectId == pid
    ensures forall j :: i < j < |rows| ==> rows[j].projectId != pid
    ensures i == |rows| ==> forall j :: 0 <= j < |rows| ==> rows[j].projectId != pid
    decreases |rows|
  {
    if rows == [] then 0
    else if rows[|rows| - 1].projectId == pid then |rows| - 1
    else
      var i := LatestSowIndex(rows[..|rows| - 1], pid);
      if i == |rows| - 1 then |rows| else i
  }

  /** The upsert of `store_sow_data`: update the project's row if it has one, else insert. */
  function UpsertSow(rows: seq<SowRow>, pid: int, sections: JValue, requirements: JValue,
                     boundaries: JValue, now: int): seq<SowRow>
  {
    var i := SowIndex(rows, pid);
    if i < |rows| then rows[i := rows[i].(sections := sections, requirements := requirements, boundaries := boundaries)]
    else rows + [SowRow(NextId(Ids(rows, SowRowId)), pid, sections, requirements, boundaries, now)]
  }

  /**
   * The upsert keeps one row per project and valid rowids, leaves the other
   * projects' rows alone, and the project's latest row then holds the new
   * values.
   */
  lemma {:induction false} UpsertSowCorrect(rows: seq<SowRow>, pid: int, s: JValue, r: JValue, b: JValue, now: int)
    requires OneSowRowPerProject(rows) && IdsOk(Ids(rows, SowRowId))
    ensures var u := UpsertSow(rows, pid, s, r, b, now);
      && OneSowRowPerProject(u) && IdsOk(Ids(u, SowRowId))
      && LatestSowIndex(u, pid) < |u|
      && u[LatestSowIndex(u, pid)].sections == s
      && u[LatestSowIndex(u, pid)].requirements == r
      && u[LatestSowIndex(u, pid)].boundaries == b
      && (forall j :: 0 <= j < |rows| && rows[j].projectId != pid ==> j < |u| && u[j] == rows[j])
  {
    var i := SowIndex(rows, pid);
    var u := UpsertSow(rows, pid, s, r, b, now);
    if i < |rows| {
      assert Ids(u, SowRowId) == Ids(rows, SowRowId);
      assert LatestSowIndex(u, pid) == i;
    } else {
      IdsAppend(rows, u[|rows|], SowRowId);
      assert LatestSowIndex(u, pid) == |rows|;
    }
  }

  /** A requirement match as the insert binds it: its requirement id and its three columns. */
  datatype BoundMatch = BoundMatch(requirementId: string, view: MatchView)

  /** The bound columns of one match dict; `None` where `.get` or binding raises. */
  function BindMatch(m: JValue): (r: Option<MatchView>)
    ensures r.Some? <==> && m.JObj?
                         && Bind(Get(m.fields, "source_file", JStr(""))).Some?
                         && Bind(Get(m.fields, "keyword", JStr(""))).Some?
                         && Bind(Get(m.fields, "context", JStr(""))).Some?
  {
    match m
    case JObj(d) =>
      var sf := Bind(Get(d, "source_file", JStr("")));
      var kw := Bind(Get(d, "keyword", JStr("")));
      var ctx := Bind(Get(d, "context", JStr("")));
      if sf.None? || kw.None? || ctx.None? then None
      else Some(MatchView(TextAffinity(sf.value), TextAffinity(kw.value), TextAffinity(ctx.value)))
    case _ => None
  }

  /** Binds every match of one requirement; `None` if any of them fails. */
  function BindMatchList(ms: seq<JValue>): (r: Option<seq<MatchView>>)
    ensures r.Some? ==> |r.value| == |ms|
    decreases |ms|
  {
    if ms == [] then Some([])
    else
      match (BindMatch(ms[0]), BindMatchList(ms[1..]))
      case (Some(v), Some(vs)) => Some([v] + vs)
      case _ => None
  }

  /**
   * The `requirement_matches` map as the insert loop reads it: per requirement
   * id, the bound match list; `None` where any step raises (iterating a
   * non-iterable, `.get` on a non-dict, binding).
   */
  function BindGroups(fields: seq<(string, JValue)>): (r: Option<seq<(string, seq<MatchView>)>>)
    ensures r.Some? ==> |r.value| == |fields|
    ensures r.Some? ==> forall i :: 0 <= i < |fields| ==> r.value[i].0 == fields[i].0
    decreases |fields|
  {
    if fields == [] then Some([])
    else
      var it := Iter(fields[0].1);
      if it.None? then None
      else
        match (BindMatchList(it.value), BindGroups(fields[1..]))
        case (Some(vs), Some(rest)) => Some([(fields[0].0, vs)] + rest)
        case _ => None
  }

  /** `requirement_matches.items()` raises on anything but a dict. */
  function BindRequirementMatches(rm: JValue): Option<seq<(string, seq<MatchView>)>> {
    if rm.JObj? then BindGroups(rm.fields) else None
  }

  function GroupKeys(groups: seq<(string, seq<MatchView>)>): (ks: seq<string>)
    ensures |ks| == |groups| && forall i :: 0 <= i < |groups| ==> ks[i] == groups[i].0
  {
    seq(|groups|, i requires 0 <= i < |groups| => groups[i].0)
  }

  predicate DistinctGroupKeys(groups: seq<(string, seq<MatchView>)>) {
    forall i, j :: 0 <= i < j < |groups| ==> groups[i].0 != groups[j].0
  }

  /** A dict's keys are distinct, and so are the requirement ids bound from it. */
  lemma {:induction false} BindGroupsKeys(fields: seq<(string, JValue)>)
    requires DistinctKeys(fields)
    requires BindGroups(fields).Some?
    ensures DistinctGroupKeys(BindGroups(fields).value)
  {
  }

  /** The nested insert loop's sequence of rows: each requirement's matches in turn. */
  function Flatten(groups: seq<(string, seq<MatchView>)>): seq<BoundMatch>
    decreases |groups|
  {
    if groups == [] then []
    else Expand(groups[0].0, groups[0].1) + Flatten(groups[1..])
  }

  function Expand(k: string, vs: seq<MatchView>): (r: seq<BoundMatch>)
    ensures |r| == |vs| && forall i :: 0 <= i < |vs| ==> r[i] == BoundMatch(k, vs[i])
  {
    seq(|vs|, i requires 0 <= i < |vs| => BoundMatch(k, vs[i]))
  }

  /** The row the match insert stores for a project. */
  function MatchMaker(pid: int, now: int): (BoundMatch, int) -> Option<MatchRow> {
    (b: BoundMatch, n: int) => Some(MatchRow(n, pid, b.requirementId, b.view, now))
  }

  lemma {:induction false} MatchMakerStamps(pid: int, now: int)
    ensures Stamps(MatchMaker(pid, now), MatchRowId)
  {
  }

  /** `SELECT * FROM requirement_matches WHERE project_id = ?`, in rowid order. */
  function MatchesOf(rows: seq<MatchRow>, pid: int): seq<BoundMatch>
    decreases |rows|
  {
    if rows == [] then []
    else
      var last := rows[|rows| - 1];
      MatchesOf(rows[..|rows| - 1], pid)
      + (if last.projectId == pid then [BoundMatch(last.requirementId, last.view)] else [])
  }

  lemma {:induction false} MatchesOfAppend(rows: seq<MatchRow>, more: seq<MatchRow>, pid: int)
    ensures MatchesOf(rows + more, pid) == MatchesOf(rows, pid) + MatchesOf(more, pid)
    decreases |more|
  {
    if more == [] {
      assert rows + more == rows;
    } else {
      var init := more[..|more| - 1];
      assert (rows + more)[..|rows + more| - 1] == rows + init;
      assert (rows + more)[|rows + more| - 1] == more[|more| - 1];
      MatchesOfAppend(rows, init, pid);
    }
  }

  /** `DELETE FROM requirement_matches WHERE project_id = ?`: the other projects' rows, in order. */
  function OtherProjects(rows: seq<MatchRow>, pid: int): seq<MatchRow>
    decreases |rows|
  {
    if rows == [] then []
    else
      var rest := OtherProjects(rows[..|rows| - 1], pid);
      if rows[|rows| - 1].projectId == pid then rest else rest + [rows[|rows| - 1]]
  }

  lemma {:induction false} OtherProjectsMatchesOf(rows: seq<MatchRow>, pid: int, q: int)
    ensures MatchesOf(OtherProjects(rows, pid), q) == if q == pid then [] else MatchesOf(rows, q)
    decreases |rows|
  {
    if rows != [] {
      var init := rows[..|rows| - 1];
      var last := rows[|rows| - 1];
      OtherProjectsMatchesOf(init, pid, q);
      var rest := OtherProjects(init, pid);
      if last.projectId != pid {
        var r := rest + [last];
        assert r[..|r| - 1] == rest && r[|r| - 1] == last;
      }
    }
  }

  /** The delete empties the project's matches and keeps every other project's. */
  lemma {:induction false} OtherProjectsMatches(rows: seq<MatchRow>, pid: int)
    ensures MatchesOf(OtherProjects(rows, pid), pid) == []
    ensures forall q :: q != pid ==> MatchesOf(OtherProjects(rows, pid), q) == MatchesOf(rows, q)
  {
    OtherProjectsMatchesOf(rows, pid, pid);
    forall q | q != pid ensures MatchesOf(OtherProjects(rows, pid), q) == MatchesOf(rows, q) {
      OtherProjectsMatchesOf(rows, pid, q);
    }
  }

  /** The delete keeps only rows it was given, in their order, so rowids stay valid. */
  lemma {:induction false} OtherProjectsIds(rows: seq<MatchRow>, pid: int)
    ensures forall i :: 0 <= i < |OtherProjects(rows, pid)| ==> OtherProjects(rows, pid)[i] in rows
    ensures IdsOk(Ids(rows, MatchRowId)) ==> IdsOk(Ids(OtherProjects(rows, pid), MatchRowId))
    decreases |rows|
  {
    if rows != [] {
      var init := rows[..|rows| - 1];
      var last := rows[|rows| - 1];
      OtherProjectsIds(init, pid);
      var rest := OtherProjects(init, pid);
      assert forall x :: x in init ==> x in rows;
      if IdsOk(Ids(rows, MatchRowId)) {
        IdsPrefix(rows, |rows| - 1, MatchRowId);
      }
      if last.projectId != pid {
        if IdsOk(Ids(rows, MatchRowId)) {
          forall i | 0 <= i < |rest| ensures rest[i].id < last.id {
            var j :| 0 <= j < |init| && init[j] == rest[i];
            assert rows[j] == init[j];
            assert Ids(rows, MatchRowId)[j] < Ids(rows, MatchRowId)[|rows| - 1];
          }
          IdsAppend(rest, last, MatchRowId);
          var ids := Ids(rest + [last], MatchRowId);
          assert forall i :: 0 <= i < |rest| ==> ids[i] == Ids(rest, MatchRowId)[i];
        }
      }
    }
  }

  /** The insert loop adds exactly the bound matches, in order, to the project's rows and no other project's. */
  lemma {:induction false} InsertMatchesCorrect(rows: seq<MatchRow>, pid: int, bs: seq<BoundMatch>, now: int)
    ensures MatchesOf(InsertEach(rows, bs, MatchMaker(pid, now), MatchRowId).0, pid) == MatchesOf(rows, pid) + bs
    ensures forall q :: q != pid ==>
              MatchesOf(InsertEach(rows, bs, MatchMaker(pid, now), MatchRowId).0, q) == MatchesOf(rows, q)
    decreases |bs|
  {
    if bs != [] {
      var row := MatchRow(NextId(Ids(rows, MatchRowId)), pid, bs[0].requirementId, bs[0].view, now);
      var rows' := rows + [row];
      assert InsertEach(rows, bs, MatchMaker(pid, now), MatchRowId).0
          == InsertEach(rows', bs[1..], MatchMaker(pid, now), MatchRowId).0;
      InsertMatchesCorrect(rows', pid, bs[1..], now);
      assert [row][..0] == [];
      MatchesOfAppend(rows, [row], pid);
      assert [bs[0]] + bs[1..] == bs;
      forall q | q != pid ensures MatchesOf(rows', q) == MatchesOf(rows, q) {
        MatchesOfAppend(rows, [row], q);
      }
    }
  }

  /** Adds one match to the group of its requirement, or opens a new group at the end. */
  function GroupStep(groups: seq<(string, seq<MatchView>)>, b: BoundMatch): seq<(string, seq<MatchView>)>
    decreases |groups|
  {
    if groups == [] then [(b.requirementId, [b.view])]
    else if groups[0].0 == b.requirementId then [(groups[0].0, groups[0].1 + [b.view])] + groups[1..]
    else [groups[0]] + GroupStep(groups[1..], b)
  }

  /** The grouping loop of `get_project_sow_data`, continued from `groups` over `bs`. */
  function GroupFrom(groups: seq<(string, seq<MatchView>)>, bs: seq<BoundMatch>): seq<(string, seq<MatchView>)>
    decreases |bs|
  {
    if bs == [] then groups else GroupFrom(GroupStep(groups, bs[0]), bs[1..])
  }

  /** Match rows grouped by requirement id, groups in order of first appearance. */
  function Grouped(bs: seq<BoundMatch>): seq<(string, seq<MatchView>)> {
    GroupFrom([], bs)
  }

  /** The groups with at least one match: a requirement stored with no matches leaves no row. */
  function NonEmptyGroups(groups: seq<(string, seq<MatchView>)>): seq<(string, seq<MatchView>)>
    decreases |groups|
  {
    if groups == [] then []
    else (if groups[0].1 == [] then [] else [groups[0]]) + NonEmptyGroups(groups[1..])
  }

  lemma {:induction false} GroupFromAppend(groups: seq<(string, seq<MatchView>)>, xs: seq<BoundMatch>, ys: seq<BoundMatch>)
    ensures GroupFrom(groups, xs + ys) == GroupFrom(GroupFrom(groups, xs), ys)
    decreases |xs|
  {
    if xs == [] {
      assert xs + ys == ys;
    } else {
      assert xs + ys != [];
      assert (xs + ys)[0] == xs[0] && (xs + ys)[1..] == xs[1..] + ys;
      GroupFromAppend(GroupStep(groups, xs[0]), xs[1..], ys);
    }
  }

  lemma {:induction false} GroupStepLast(front: seq<(string, seq<MatchView>)>, k: string, pre: seq<MatchView>, v: MatchView)
    requires k !in GroupKeys(front)
    ensures GroupStep(front + [(k, pre)], BoundMatch(k, v)) == front + [(k, pre + [v])]
    decreases |front|
  {
    if front != [] {
      assert GroupKeys(front[1..]) == GroupKeys(front)[1..];
      assert (front + [(k, pre)])[1..] == front[1..] + [(k, pre)];
      GroupStepLast(front[1..], k, pre, v);
    }
  }

  lemma {:induction false} GroupStepNew(front: seq<(string, seq<MatchView>)>, b: BoundMatch)
    requires b.requirementId !in GroupKeys(front)
    ensures GroupStep(front, b) == front + [(b.requirementId, [b.view])]
    decreases |front|
  {
    if front != [] {
      assert GroupKeys(front[1..]) == GroupKeys(front)[1..];
      GroupStepNew(front[1..], b);
    }
  }

  lemma {:induction false} GroupExpand(front: seq<(string, seq<MatchView>)>, k: string, pre: seq<MatchView>, vs: seq<MatchView>)
    requires k !in GroupKeys(front)
    ensures GroupFrom(front + [(k, pre)], Expand(k, vs)) == front + [(k, pre + vs)]
    decreases |vs|
  {
    if vs == [] {
      assert pre + vs == pre;
    } else {
      GroupStepLast(front, k, pre, vs[0]);
      assert Expand(k, vs)[1..] == Expand(k, vs[1..]);
      GroupExpand(front, k, pre + [vs[0]], vs[1..]);
      assert pre + [vs[0]] + vs[1..] == pre + vs;
    }
  }

  /** Grouping one requirement's expanded matches after groups without its id adds exactly its group, if non-empty. */
  lemma {:induction false} GroupOne(front: seq<(string, seq<MatchView>)>, k: string, vs: seq<MatchView>)
    requires k !in GroupKeys(front)
    ensures GroupFrom(front, Expand(k, vs)) == if vs == [] then front else front + [(k, vs)]
  {
    if vs != [] {
      GroupStepNew(front, BoundMatch(k, vs[0]));
      assert Expand(k, vs)[1..] == Expand(k, vs[1..]);
      GroupExpand(front, k, [vs[0]], vs[1..]);
      assert [vs[0]] + vs[1..] == vs;
    } else {
      assert Expand(k, vs) == [];
    }
  }

  lemma {:induction false} GroupFlattenFrom(front: seq<(string, seq<MatchView>)>, groups: seq<(string, seq<MatchView>)>)
    requires DistinctGroupKeys(groups)
    requires forall i :: 0 <= i < |groups| ==> groups[i].0 !in GroupKeys(front)
    ensures GroupFrom(front, Flatten(groups)) == front + NonEmptyGroups(groups)
    decreases |groups|
  {
    if groups != [] {
      var k, vs := groups[0].0, groups[0].1;
      GroupFromAppend(front, Expand(k, vs), Flatten(groups[1..]));
      GroupOne(front, k, vs);
      var mid := if vs == [] then front else front + [(k, vs)];
      forall i | 0 <= i < |groups[1..]| ensures groups[1..][i].0 !in GroupKeys(mid) {
        assert groups[1..][i] == groups[i + 1];
      }
      assert DistinctGroupKeys(groups[1..]) by {
        forall i, j | 0 <= i < j < |groups[1..]| ensures groups[1..][i].0 != groups[1..][j].0 {
          assert groups[1..][i] == groups[i + 1] && groups[1..][j] == groups[j + 1];
        }
      }
      GroupFlattenFrom(mid, groups[1..]);
      assert Flatten(groups) == Expand(k, vs) + Flatten(groups[1..]);
      assert NonEmptyGroups(groups) == (if vs == [] then [] else [groups[0]]) + NonEmptyGroups(groups[1..]);
      assert GroupFrom(front, Flatten(groups)) == mid + NonEmptyGroups(groups[1..]);
    }
  }

  /**
   * Grouping the flattened rows of a map with distinct keys gives the map
   * back, less the requirements that had no matches: what
   * `get_project_sow_data` returns for what `store_sow_data` stored.
   */
  lemma {:induction false} GroupFlatten(groups: seq<(string, seq<MatchView>)>)
    requires DistinctGroupKeys(groups)
    ensures Grouped(Flatten(groups)) == NonEmptyGroups(groups)
  {
    GroupFlattenFrom([], groups);
  }

  // ---------------------------------------------------------------- the SOW record read back

  /** What `get_project_sow_data` returns; `requirementMatches` is absent while the match table does not exist. */
  datatype SowRecord = SowRecord(id: int, projectId: int, sections: JValue, requirements: JValue,
                                 boundaries: JValue, createdAt: int,
                                 requirementMatches: Option<seq<(string, seq<MatchView>)>>)

  /** The latest `sow_data` row of the project, with its matches grouped by requirement id. */
  function SowRecordOf(sowRows: seq<SowRow>, tableExists: bool, matchRows: seq<MatchRow>, pid: int): (r: Option<SowRecord>)
    ensures r.Some? <==> exists i :: 0 <= i < |sowRows| && sowRows[i].projectId == pid
    ensures r.Some? ==> r.value.projectId == pid
    ensures r.Some? ==> (r.value.requirementMatches.Some? <==> tableExists)
  {
    var i := LatestSowIndex(sowRows, pid);
    if i == |sowRows| then None
    else
      var row := sowRows[i];
      Some(SowRecord(row.id, row.projectId, row.sections, row.requirements, row.boundaries, row.createdAt,
                     if tableExists then Some(Grouped(MatchesOf(matchRows, pid))) else None))
  }

  /** `sow_data.pop('requirement_matches', {})` when the key is present, else `{}`. */
  function MatchesArg(sow: Dict): JValue {
    Get(sow, "requirement_matches", JObj([]))
  }

  /**
   * The caller's dict after `store_sow_data`: the matches are popped and put
   * back only when truthy, so a present key moves to the end and a falsy one
   * is dropped.
   */
  function SowAfterStore(sow: Dict): (r: Dict)
    ensures Lookup(r, "requirement_matches") == if Truthy(MatchesArg(sow)) then Some(MatchesArg(sow)) else None
    ensures forall k :: k != "requirement_matches" ==> Lookup(r, k) == Lookup(sow, k)
  {
    var rest := RemoveKey(sow, "requirement_matches");
    if Truthy(MatchesArg(sow)) then Set(rest, "requirement_matches", MatchesArg(sow)) else rest
  }

  /** The match table after `store_sow_data` replaced the project's matches with `groups`. */
  function ReplacedMatches(rows: seq<MatchRow>, pid: int, groups: seq<(string, seq<MatchView>)>, now: int): seq<MatchRow> {
    InsertEach(OtherProjects(rows, pid), Flatten(groups), MatchMaker(pid, now), MatchRowId).0
  }

  /** Replacing a project's matches leaves every other project's matches as they were. */
  lemma {:induction false} ReplacedMatchesOthers(rows: seq<MatchRow>, pid: int, groups: seq<(string, seq<MatchView>)>, now: int, q: int)
    requires q != pid
    ensures MatchesOf(ReplacedMatches(rows, pid, groups, now), q) == MatchesOf(rows, q)
  {
    OtherProjectsMatches(rows, pid);
    InsertMatchesCorrect(OtherProjects(rows, pid), pid, Flatten(groups), now);
  }

  /** Replacing keeps rowids valid. */
  lemma {:induction false} ReplacedMatchesIds(rows: seq<MatchRow>, pid: int, groups: seq<(string, seq<MatchView>)>, now: int)
    requires IdsOk(Ids(rows, MatchRowId))
    ensures IdsOk(Ids(ReplacedMatches(rows, pid, groups, now), MatchRowId))
  {
    OtherProjectsIds(rows, pid);
    MatchMakerStamps(pid, now);
    InsertEachShape(OtherProjects(rows, pid), Flatten(groups), MatchMaker(pid, now), MatchRowId);
  }

  /**
   * Reading back after a store gives the stored sections, requirements and
   * boundaries and exactly the stored matches, grouped as they were given,
   * less the requirements that had none.
   */
  lemma {:induction false} SowRoundTrip(sowRows: seq<SowRow>, matchRows: seq<MatchRow>, pid: int, s: JValue, r: JValue, b: JValue,
                     groups: seq<(string, seq<MatchView>)>, now: int)
    requires OneSowRowPerProject(sowRows) && IdsOk(Ids(sowRows, SowRowId))
    requires DistinctGroupKeys(groups)
    ensures var rec := SowRecordOf(UpsertSow(sowRows, pid, s, r, b, now), true, ReplacedMatches(matchRows, pid, groups, now), pid);
      && rec.Some?
      && rec.value.sections == s && rec.value.requirements == r && rec.value.boundaries == b
      && rec.value.requirementMatches == Some(NonEmptyGroups(groups))
  {
    UpsertSowCorrect(sowRows, pid, s, r, b, now);
    OtherProjectsMatches(matchRows, pid);
    InsertMatchesCorrect(OtherProjects(matchRows, pid), pid, Flatten(groups), now);
    assert MatchesOf(ReplacedMatches(matchRows, pid, groups, now), pid) == [] + Flatten(groups);
    assert [] + Flatten(groups) == Flatten(groups);
    GroupFlatten(groups);
  }

  /** A store that does not replace matches leaves the stored matches as they read before. */
  lemma {:induction false} SowStoreKeepsMatches(sowRows: seq<SowRow>, tableExists: bool, matchRows: seq<MatchRow>, pid: int,
                             s: JValue, r: JValue, b: JValue, now: int)
    requires OneSowRowPerProject(sowRows) && IdsOk(Ids(sowRows, SowRowId))
    requires SowRecordOf(sowRows, tableExists, matchRows, pid).Some?
    ensures SowRecordOf(UpsertSow(sowRows, pid, s, r, b, now), tableExists, matchRows, pid).Some?
    ensures SowRecordOf(UpsertSow(sowRows, pid, s, r, b, now), tableExists, matchRows, pid).value.requirementMatches
         == SowRecordOf(sowRows, tableExists, matchRows, pid).value.requirementMatches
    ensures SowRecordOf(UpsertSow(sowRows, pid, s, r, b, now), tableExists, matchRows, pid).value.id
         == SowRecordOf(sowRows, tableExists, matchRows, pid).value.id
  {
    UpsertSowCorrect(sowRows, pid, s, r, b, now);
    var i := SowIndex(sowRows, pid);
    assert LatestSowIndex(sowRows, pid) == i;
  }
}
