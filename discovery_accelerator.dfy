/**
 * The orchestration of a discovery run: processing the SOW and the other
 * documents of a new project, generating its questions, handling a meeting
 * transcript, listing the current questions and compiling the report. The
 * accelerator keeps no state of its own besides the store, so each
 * operation is a method over the `DiscoveryDatabase`.
 */
module DiscoveryAccelerator {
  import opened Base
  import opened Text
  import opened Json
  import opened Sql
  import opened Llm
  import opened Sorting
  import opened StoreRows
  import opened DiscoveryDb
  import opened QuestionGenerator
  import opened TranscriptAnalyzer
  import opened SowParser

  // ------------------------------------------------------------ merging requirement matches

  /** The list held under `k` so far; `[]` before the id is first seen. */
  function ListAt(d: Dict, k: string): seq<JValue> {
    match Lookup(d, k)
    case Some(JArr(xs)) => xs
    case _ => []
  }

  /** One round of the merge loop: the id's list is created when new, then extended by `items`. */
  function Extend(d: Dict, k: string, items: seq<JValue>): Dict {
    Set(d, k, JArr(ListAt(d, k) + items))
  }

  /** The position of the first value `items` rejects, or `|entries|`. */
  function FirstUnlisted(entries: Dict, items: JValue -> Option<seq<JValue>>): (i: nat)
    ensures i <= |entries|
    ensures i < |entries| ==> items(entries[i].1).None?
    ensures forall j :: 0 <= j < i ==> items(entries[j].1).Some?
    decreases |entries|
  {
    if entries == [] then 0
    else if items(entries[0].1).None? then 0
    else
      var i := FirstUnlisted(entries[1..], items);
      assert forall j :: 1 <= j < 1 + i ==> entries[j] == entries[1..][j - 1];
      1 + i
  }

  /** The lists gathered per id, skipping what `items` rejects. */
  function MergedLists(entries: Dict, items: JValue -> Option<seq<JValue>>): Dict
    decreases |entries|
  {
    if entries == [] then []
    else
      var front := MergedLists(entries[..|entries| - 1], items);
      var (k, v) := entries[|entries| - 1];
      if items(v).None? then front else Extend(front, k, items(v).value)
  }

  /**
   * The merge loop over `doc_req_matches.items()`, with `items` what
   * `list.extend` takes from a value (Python iteration, `Iter`): the first
   * value that cannot be extended by raises, otherwise the lists are
   * gathered per id.
   */
  function Merged(entries: Dict, items: JValue -> Option<seq<JValue>>): Outcome<Dict> {
    var i := FirstUnlisted(entries, items);
    if i < |entries| then Raised(NotIterableMessage(entries[i].1)) else Ok(MergedLists(entries, items))
  }

  /** The reference: every match list given under `k`, concatenated in order. */
  function ConcatFor(entries: Dict, k: string, items: JValue -> Option<seq<JValue>>): seq<JValue>
    decreases |entries|
  {
    if entries == [] then []
    else
      var (k', v) := entries[|entries| - 1];
      ConcatFor(entries[..|entries| - 1], k, items) + (if k' == k && items(v).Some? then items(v).value else [])
  }

  lemma {:induction false} ConcatForAbsent(entries: Dict, k: string, items: JValue -> Option<seq<JValue>>)
    requires !HasKey(entries, k)
    ensures ConcatFor(entries, k, items) == []
    decreases |entries|
  {
    if entries != [] {
      var front := entries[..|entries| - 1];
      assert !HasKey(front, k) by {
        forall i | 0 <= i < |front| ensures front[i].0 != k {
          assert front[i] == entries[i];
        }
      }
      ConcatForAbsent(front, k, items);
      assert entries[|entries| - 1].0 != k;
    }
  }

  lemma {:induction false} HasKeySnoc(entries: Dict, k: string)
    requires entries != []
    ensures HasKey(entries, k) <==> HasKey(entries[..|entries| - 1], k) || entries[|entries| - 1].0 == k
  {
    var front := entries[..|entries| - 1];
    if HasKey(entries, k) && entries[|entries| - 1].0 != k {
      var i :| 0 <= i < |entries| && entries[i].0 == k;
      assert front[i] == entries[i];
    }
    if HasKey(front, k) {
      var i :| 0 <= i < |front| && front[i].0 == k;
      assert entries[i] == front[i];
    }
  }

  /** One round of the merge loop sets the id's list to the old one extended, and no other. */
  lemma {:induction false} ExtendLookup(d: Dict, k: string, items: seq<JValue>)
    ensures forall k' :: Lookup(Extend(d, k, items), k') == if k' == k then Some(JArr(ListAt(d, k) + items)) else Lookup(d, k')
    ensures DistinctKeys(d) ==> DistinctKeys(Extend(d, k, items))
  {
    var r := Extend(d, k, items);
    if DistinctKeys(d) {
      if HasKey(d, k) {
        assert Keys(r) == Keys(d);
        assert forall i :: 0 <= i < |r| ==> r[i].0 == Keys(r)[i] == Keys(d)[i] == d[i].0;
      } else {
        assert Keys(r) == Keys(d) + [k];
        assert forall i :: 0 <= i < |r| ==> r[i].0 == Keys(r)[i];
        assert forall i :: 0 <= i < |d| ==> r[i].0 == Keys(d)[i] == d[i].0 != k;
      }
    }
  }

  /** The merge raises exactly when some match list is not iterable, naming the first such list. */
  lemma {:induction false} MergedRaises(entries: Dict, items: JValue -> Option<seq<JValue>>)
    ensures Merged(entries, items).Raised? <==> exists i :: 0 <= i < |entries| && items(entries[i].1).None?
    ensures Merged(entries, items).Raised? ==>
              exists i :: 0 <= i < |entries| && items(entries[i].1).None?
                          && Merged(entries, items).message == NotIterableMessage(entries[i].1)
                          && forall j :: 0 <= j < i ==> items(entries[j].1).Some?
  {
  }

  /**
   * Otherwise the merge maps each requirement id given, once, to the
   * concatenation of all the lists given for it, and holds no other id.
   */
  lemma {:induction false} MergedSound(entries: Dict, items: JValue -> Option<seq<JValue>>)
    requires forall i :: 0 <= i < |entries| ==> items(entries[i].1).Some?
    ensures DistinctKeys(MergedLists(entries, items))
    ensures forall k :: Lookup(MergedLists(entries, items), k)
                     == if HasKey(entries, k) then Some(JArr(ConcatFor(entries, k, items))) else None
    decreases |entries|
  {
    if entries != [] {
      var front := entries[..|entries| - 1];
      var (kl, v) := entries[|entries| - 1];
      MergedSound(front, items);
      var d := MergedLists(front, items);
      assert forall i :: 0 <= i < |front| ==> front[i] == entries[i];
      ExtendLookup(d, kl, items(v).value);
      assert MergedLists(entries, items) == Extend(d, kl, items(v).value);
      assert forall k :: ConcatFor(entries, k, items) == ConcatFor(front, k, items) + (if kl == k then items(v).value else []);
      forall k ensures Lookup(MergedLists(entries, items), k)
                    == if HasKey(entries, k) then Some(JArr(ConcatFor(entries, k, items))) else None {
        HasKeySnoc(entries, k);
        if k == kl {
          if !HasKey(front, k) {
            ConcatForAbsent(front, k, items);
            assert ListAt(d, k) == [];
          } else {
            assert ListAt(d, k) == ConcatFor(front, k, items);
          }
          assert Lookup(MergedLists(entries, items), k) == Some(JArr(ListAt(d, k) + items(v).value));
          assert ConcatFor(entries, k, items) == ConcatFor(front, k, items) + items(v).value;
          assert HasKey(entries, k);
          assert Lookup(MergedLists(entries, items), k) == Some(JArr(ConcatFor(entries, k, items)));
        } else {
          assert Lookup(MergedLists(entries, items), k) == Lookup(d, k);
          assert ConcatFor(entries, k, items) == ConcatFor(front, k, items);
          assert HasKey(entries, k) == HasKey(front, k);
          assert Lookup(d, k) == if HasKey(front, k) then Some(JArr(ConcatFor(front, k, items))) else None;
        }
      }
    }
  }

  /**
   * The merge of `process_documents`: nothing unless `process_project`
   * returned a non-empty dict holding `document_requirement_matches`, whose
   * value must then be a dict.
   */
  function MergedMatches(processed: Option<Dict>): Outcome<Dict> {
    if processed.None? || !HasKey(processed.value, "document_requirement_matches") then Ok([])
    else
      match Get(processed.value, "document_requirement_matches", JNull)
      case JObj(entries) => Merged(entries, Iter)
      case other => Raised("'" + TypeName(other) + "' object has no attribute 'items'")
  }

  /** The merge loop itself, leaving at the first value that cannot be extended by. */
  method MergeEntries(entries: Dict, items: JValue -> Option<seq<JValue>>) returns (r: Outcome<Dict>)
    ensures r == Merged(entries, items)
  {
    var all: Dict := [];
    var i := 0;
    while i < |entries|
      invariant 0 <= i <= |entries|
      invariant i <= FirstUnlisted(entries, items)
      invariant MergedLists(entries[..i], items) == all
    {
      var (k, v) := entries[i];
      assert entries[..i + 1][..i] == entries[..i];
      if items(v).None? {
        assert FirstUnlisted(entries, items) == i;
        return Raised(NotIterableMessage(v));
      }
      all := Extend(all, k, items(v).value);
      i := i + 1;
    }
    assert entries[..i] == entries;
    r := Ok(all);
  }

  /** The merge of `process_documents`, from the guard to the loop. */
  method MergeRequirementMatches(processed: Option<Dict>) returns (r: Outcome<Dict>)
    ensures r == MergedMatches(processed)
  {
    if processed.None? || !HasKey(processed.value, "document_requirement_matches") {
      return Ok([]);
    }
    var matches := Get(processed.value, "document_requirement_matches", JNull);
    if !matches.JObj? {
      return Raised("'" + TypeName(matches) + "' object has no attribute 'items'");
    }
    r := MergeEntries(matches.fields, Iter);
  }

  // ------------------------------------------------------------ processing the documents

  /** The dict `parse_sow` returns. */
  function SowDict(s: Sow): Dict {
    [("sections", JObj(s.sections)), ("requirements", s.requirements),
     ("boundaries", JObj(s.boundaries)), ("full_text", JStr(s.fullText))]
  }

  /** `parse_sow` followed by the progress line, whose `len` of the requirements raises for an unsized value. */
  function ParsedSow(sowPath: string, extract: TextExtractor, llm: Model, decode: Decoder): (r: Outcome<Sow>)
    ensures r.Ok? ==> ParseSow(sowPath, extract, llm, decode) == r && Len(r.value.requirements).Some?
  {
    match ParseSow(sowPath, extract, llm, decode)
    case Raised(m) => Raised(m)
    case Ok(s) => if Len(s.requirements).None? then Raised(NoLenMessage(s.requirements)) else Ok(s)
  }

  datatype DocumentsReply =
    | DocumentsProcessed(projectId: int, projectName: string, sowData: Dict)
    | DocumentsFailed(message: string)

  lemma {:induction false} SowDictKeys(s: Sow)
    ensures !HasKey(SowDict(s), "requirement_matches")
    ensures Lookup(SowDict(s), "sections") == Some(JObj(s.sections))
    ensures Lookup(SowDict(s), "requirements") == Some(s.requirements)
    ensures Lookup(SowDict(s), "boundaries") == Some(JObj(s.boundaries))
    ensures Lookup(SowDict(s), "full_text") == Some(JStr(s.fullText))
  {
    var d := SowDict(s);
    LookupFirst(d, "sections", 0);
    LookupFirst(d, "requirements", 1);
    LookupFirst(d, "boundaries", 2);
    LookupFirst(d, "full_text", 3);
  }

  /** The value of the first entry with key `k`. */
  lemma {:induction false} LookupFirst(d: Dict, k: string, i: nat)
    requires i < |d| && d[i].0 == k && forall j :: 0 <= j < i ==> d[j].0 != k
    ensures Lookup(d, k) == Some(d[i].1)
  {
    assert KeyIndex(d, k) == i;
  }

  /** The SOW record read back for a project holds the parsed sections, requirements and boundaries. */
  predicate HoldsSow(rec: Option<SowRecord>, s: Sow) {
    && rec.Some?
    && rec.value.sections == JObj(s.sections)
    && rec.value.requirements == s.requirements
    && rec.value.boundaries == JObj(s.boundaries)
  }

  /** Upserting the parsed values makes the record read back hold them, whatever the match table holds. */
  lemma {:induction false} UpsertHoldsSow(rows: seq<SowRow>, tableExists: bool, matchRows: seq<MatchRow>, pid: int, s: Sow, now: int)
    requires OneSowRowPerProject(rows) && IdsOk(Ids(rows, SowRowId))
    ensures HoldsSow(SowRecordOf(UpsertSow(rows, pid, JObj(s.sections), s.requirements, JObj(s.boundaries), now),
                                 tableExists, matchRows, pid), s)
  {
    UpsertSowCorrect(rows, pid, JObj(s.sections), s.requirements, JObj(s.boundaries), now);
  }

  /** Storing the parsed dict, which has no matches, leaves every key of it as it was. */
  lemma {:induction false} ParsedSowKept(s: Sow)
    ensures !Truthy(MatchesArg(SowDict(s)))
    ensures forall k :: Lookup(SowAfterStore(SowDict(s)), k) == Lookup(SowDict(s), k)
  {
    SowDictKeys(s);
    assert MatchesArg(SowDict(s)) == JObj([]);
    forall k ensures Lookup(SowAfterStore(SowDict(s)), k) == Lookup(SowDict(s), k) {
      if k == "requirement_matches" {
        assert Lookup(SowAfterStore(SowDict(s)), k) == None;
      }
    }
  }

  /**
   * Putting the merged matches into a dict with the parsed keys: the store
   * reads the parsed values back, and its dict holds the matches exactly
   * when there are some.
   */
  lemma {:induction false} MergedSowKept(sow: Dict, s: Sow, merged: Dict)
    requires forall k :: Lookup(sow, k) == Lookup(SowDict(s), k)
    ensures var w := Set(sow, "requirement_matches", JObj(merged));
      && MatchesArg(w) == JObj(merged)
      && Get(w, "sections", JObj([])) == JObj(s.sections)
      && Get(w, "requirements", JArr([])) == s.requirements
      && Get(w, "boundaries", JObj([])) == JObj(s.boundaries)
      && Lookup(SowAfterStore(w), "full_text") == Some(JStr(s.fullText))
      && Lookup(SowAfterStore(w), "requirement_matches") == if merged == [] then None else Some(JObj(merged))
  {
    SowDictKeys(s);
    var w := Set(sow, "requirement_matches", JObj(merged));
    assert Lookup(w, "sections") == Lookup(sow, "sections");
    assert Lookup(w, "requirements") == Lookup(sow, "requirements");
    assert Lookup(w, "boundaries") == Lookup(sow, "boundaries");
    assert Lookup(w, "full_text") == Lookup(sow, "full_text");
  }

  /**
   * The first `store_sow_data` of `process_documents`: the parsed dict has
   * no matches, so the store cannot fail and the caller's dict keeps every
   * key.
   */
  method StoreParsedSow(db: DiscoveryDatabase, pid: int, s: Sow, now: int) returns (sow: Dict)
    requires db.Valid()
    modifies db
    ensures db.Valid()
    ensures HoldsSow(db.SowDataOf(pid), s)
    ensures forall k :: Lookup(sow, k) == Lookup(SowDict(s), k)
    ensures db.projects == old(db.projects) && db.questions == old(db.questions)
    ensures db.transcripts == old(db.transcripts) && db.answers == old(db.answers) && db.newInfo == old(db.newInfo)
  {
    ParsedSowKept(s);
    SowDictKeys(s);
    UpsertHoldsSow(db.sowRows, db.matchTableExists, db.matchRows, pid, s, now);
    UpsertHoldsSow(db.sowRows, true, db.matchRows, pid, s, now);
    var ok;
    ok, sow := db.StoreSowData(pid, SowDict(s), now);
  }

  /**
   * The second `store_sow_data`: the merged matches are put into the dict
   * and stored with the SOW. Whether or not binding them succeeds, the
   * project's SOW row still holds the parsed values; the dict returned keeps
   * the matches only when there are some.
   */
  method StoreMergedSow(db: DiscoveryDatabase, pid: int, s: Sow, sow: Dict, merged: Dict, now: int) returns (sow2: Dict)
    requires db.Valid() && HoldsSow(db.SowDataOf(pid), s)
    requires forall k :: Lookup(sow, k) == Lookup(SowDict(s), k)
    modifies db
    ensures db.Valid()
    ensures HoldsSow(db.SowDataOf(pid), s)
    ensures Lookup(sow2, "full_text") == Some(JStr(s.fullText))
    ensures forall k :: k != "requirement_matches" ==> Lookup(sow2, k) == Lookup(SowDict(s), k)
    ensures Lookup(sow2, "requirement_matches") == if merged == [] then None else Some(JObj(merged))
    ensures db.projects == old(db.projects) && db.questions == old(db.questions)
    ensures db.transcripts == old(db.transcripts) && db.answers == old(db.answers) && db.newInfo == old(db.newInfo)
  {
    MergedSowKept(sow, s, merged);
    var withMatches := Set(sow, "requirement_matches", JObj(merged));
    UpsertHoldsSow(db.sowRows, true, [], pid, s, now);
    var ok;
    ok, sow2 := db.StoreSowData(pid, withMatches, now);
  }

  /**
   * `process_documents` with `processed` standing for what
   * `process_project` returned: the project is created first and stays
   * created whatever fails later; the SOW is parsed and stored, the matches
   * merged and stored with it. Any exception becomes an error reply.
   */
  method ProcessDocuments(db: DiscoveryDatabase, name: string, sowPath: string, extract: TextExtractor,
                          llm: Model, decode: Decoder, processed: Option<Dict>, now: int)
    returns (r: DocumentsReply)
    requires db.Valid()
    modifies db
    ensures db.Valid()
    ensures |db.projects| == |old(db.projects)| + 1
    ensures db.projects == old(db.projects) + [Project(db.projects[|old(db.projects)|].id, name, Some(sowPath), now, now)]
    ensures forall q :: q in old(db.projects) ==> q.id < db.projects[|old(db.projects)|].id
    ensures ParsedSow(sowPath, extract, llm, decode).Raised? ==>
              r == DocumentsFailed(ParsedSow(sowPath, extract, llm, decode).message) && db.sowRows == old(db.sowRows)
    ensures ParsedSow(sowPath, extract, llm, decode).Ok? && MergedMatches(processed).Raised? ==>
              r == DocumentsFailed(MergedMatches(processed).message)
    ensures r.DocumentsProcessed? <==> ParsedSow(sowPath, extract, llm, decode).Ok? && MergedMatches(processed).Ok?
    ensures r.DocumentsProcessed? ==>
              var s := ParsedSow(sowPath, extract, llm, decode).value;
              var m := MergedMatches(processed).value;
              && r.projectId == db.projects[|old(db.projects)|].id && r.projectName == name
              && HoldsSow(db.SowDataOf(r.projectId), s)
              && Lookup(r.sowData, "full_text") == Some(JStr(s.fullText))
              && (forall k :: k != "requirement_matches" ==> Lookup(r.sowData, k) == Lookup(SowDict(s), k))
              && Lookup(r.sowData, "requirement_matches") == if m == [] then None else Some(JObj(m))
    ensures db.questions == old(db.questions) && db.transcripts == old(db.transcripts)
    ensures db.answers == old(db.answers) && db.newInfo == old(db.newInfo)
  {
    var pid := db.CreateProject(name, Some(sowPath), now);
    var parsed := ParsedSow(sowPath, extract, llm, decode);
    if parsed.Raised? {
      return DocumentsFailed(parsed.message);
    }
    var sow := StoreParsedSow(db, pid, parsed.value, now);
    // creating the project directory and copying the other documents are file operations
    var merged := MergeRequirementMatches(processed);
    if merged.Raised? {
      return DocumentsFailed(merged.message);
    }
    var sow2 := StoreMergedSow(db, pid, parsed.value, sow, merged.value, now);
    r := DocumentsProcessed(pid, name, sow2);
  }

  // ------------------------------------------------------------ generating the questions

  /** `SELECT * FROM projects WHERE id = ?`. */
  function ProjectOf(projects: seq<Project>, pid: int): (r: Option<Project>)
    ensures r.Some? <==> exists p :: p in projects && p.id == pid
    ensures r.Some? ==> r.value in projects && r.value.id == pid
    decreases |projects|
  {
    if projects == [] then None
    else if projects[0].id == pid then Some(projects[0])
    else
      var r := ProjectOf(projects[1..], pid);
      assert forall p :: p in projects[1..] ==> p in projects;
      assert forall p :: p in projects && p.id == pid ==> p in projects[1..];
      r
  }

  /** A project whose id is above every earlier one is the one found for that id. */
  lemma {:induction false} ProjectOfNewest(before: seq<Project>, p: Project)
    requires forall q :: q in before ==> q.id < p.id
    ensures ProjectOf(before + [p], p.id) == Some(p)
  {
    var found := ProjectOf(before + [p], p.id).value;
    assert found in before + [p];
    assert found in before || found == p;
  }

  datatype QuestionsReply =
    | ProjectMissing(message: string)
    | GenerationFailed(message: string, projectId: int, projectName: string)
    | QuestionsGenerated(projectId: int, projectName: string, count: nat, questions: seq<Dict>)

  function NotFoundMessage(pid: int): string {
    "Project with ID " + IntToString(pid) + " not found"
  }

  /** The `TypeError` of calling `generate_initial_questions(self, sow_data)` with two arguments. */
  const ArityMessage: string := "QuestionGenerator.generate_initial_questions() takes 2 positional arguments but 3 were given"

  /**
   * `generate_questions` as written: an unknown project is an error naming
   * its id; for a known one the generator is called with one argument too
   * many, which raises before anything is generated or stored, so the reply
   * is always the caught generation error, and the store is left as it was.
   */
  method GenerateQuestions(db: DiscoveryDatabase, pid: int, sow: Dict) returns (r: QuestionsReply)
    ensures ProjectOf(db.projects, pid).None? ==> r == ProjectMissing(NotFoundMessage(pid))
    ensures ProjectOf(db.projects, pid).Some? ==>
              r == GenerationFailed("Failed to generate questions: " + ArityMessage, pid, ProjectOf(db.projects, pid).value.name)
    ensures !r.QuestionsGenerated?
  {
    var project := ProjectOf(db.projects, pid);
    if project.None? {
      return ProjectMissing(NotFoundMessage(pid));
    }
    var projectName := project.value.name;
    r := GenerationFailed("Failed to generate questions: " + ArityMessage, pid, projectName);
  }

  /** A project id that is a non-zero 64-bit integer becomes the `project_id` of every row stored for it. */
  lemma {:induction false} QuestionRowsForProject(q: Dict, pid: int, id: int, now: int)
    requires pid != 0 && InInt64(pid)
    ensures QuestionRowFor(q, Some(pid), id, now).Some? ==> InProject(QuestionRowFor(q, Some(pid), id, now).value, pid)
  {
  }

  /** Inserting questions appends rows, one per id returned, and leaves the rows before them alone. */
  lemma {:induction false} QuestionsAppended(rows: seq<Question>, qs: seq<Dict>, projectId: Option<int>, now: int)
    requires IdsOk(Ids(rows, QuestionRowId))
    ensures var r := InsertEach(rows, qs, QuestionMaker(projectId, now), QuestionRowId);
      |r.0| == |rows| + |r.1| && r.0[..|rows|] == rows
  {
    QuestionMakerStamps(projectId, now);
    InsertEachShape(rows, qs, QuestionMaker(projectId, now), QuestionRowId);
  }

  /** Every row inserted for a valid project id belongs to that project. */
  lemma {:induction false} StoredForProject(rows: seq<Question>, qs: seq<Dict>, pid: int, now: int)
    requires IdsOk(Ids(rows, QuestionRowId)) && pid != 0 && InInt64(pid)
    ensures var r := InsertEach(rows, qs, QuestionMaker(Some(pid), now), QuestionRowId);
      |rows| <= |r.0| && forall q :: q in r.0[|rows|..] ==> InProject(q, pid)
  {
    var make := QuestionMaker(Some(pid), now);
    var r := InsertEach(rows, qs, make, QuestionRowId);
    QuestionMakerStamps(Some(pid), now);
    InsertEachShape(rows, qs, make, QuestionRowId);
    forall q | q in r.0[|rows|..] ensures InProject(q, pid) {
      var i :| 0 <= i < |r.0[|rows|..]| && r.0[|rows|..][i] == q;
      var k := i;
      assert r.0[|rows| + k] == q;
      var j :| 0 <= j < |qs| && make(qs[j], r.1[k]) == Some(q);
      QuestionRowsForProject(qs[j], pid, r.1[k], now);
    }
  }

  /** The intended store of the generated list: rows appended after the others, each for the project. */
  method StoreForProject(db: DiscoveryDatabase, qs: seq<Dict>, pid: int, now: int) returns (ids: seq<int>)
    requires db.Valid() && pid != 0 && InInt64(pid)
    modifies db
    ensures db.Valid()
    ensures |db.questions| == |old(db.questions)| + |ids| && db.questions[..|old(db.questions)|] == old(db.questions)
    ensures forall q :: q in db.questions[|old(db.questions)|..] ==> InProject(q, pid)
    ensures db.projects == old(db.projects) && db.transcripts == old(db.transcripts) && db.answers == old(db.answers)
  {
    QuestionsAppended(db.questions, qs, Some(pid), now);
    StoredForProject(db.questions, qs, pid, now);
    ids := db.StoreQuestions(qs, Some(pid), now);
  }

  /**
   * `generate_questions` as evidently intended: the generator is called
   * with the SOW only and its list is stored under the project; the reply
   * counts the rows stored, each of which belongs to the project.
   */
  method GenerateQuestionsIntended(db: DiscoveryDatabase, pid: int, sow: Dict, llm: Model, decode: Decoder, now: int)
    returns (r: QuestionsReply)
    requires db.Valid() && pid != 0 && InInt64(pid)
    modifies db
    ensures db.Valid()
    ensures ProjectOf(old(db.projects), pid).None? ==> r == ProjectMissing(NotFoundMessage(pid)) && db.questions == old(db.questions)
    ensures InitialQuestions(sow, llm, decode).Raised? && ProjectOf(old(db.projects), pid).Some? ==>
              r == GenerationFailed("Failed to generate questions: " + InitialQuestions(sow, llm, decode).message,
                                    pid, ProjectOf(old(db.projects), pid).value.name)
    ensures r.QuestionsGenerated? ==>
              && InitialQuestions(sow, llm, decode) == Ok(r.questions)
              && r.projectId == pid
              && |old(db.questions)| + r.count <= |db.questions|
              && db.questions[..|old(db.questions)|] == old(db.questions)
              && forall q :: q in db.questions[|db.questions| - r.count..] ==> InProject(q, pid)
    ensures db.projects == old(db.projects) && db.transcripts == old(db.transcripts) && db.answers == old(db.answers)
  {
    var project := ProjectOf(db.projects, pid);
    if project.None? {
      return ProjectMissing(NotFoundMessage(pid));
    }
    var generated := GenerateInitialQuestions(db, sow, llm, decode, now);
    if generated.Raised? {
      return GenerationFailed("Failed to generate questions: " + generated.message, pid, project.value.name);
    }
    QuestionsAppended(old(db.questions), generated.value, None, now);
    assert |old(db.questions)| <= |db.questions| && db.questions[..|old(db.questions)|] == old(db.questions);
    ghost var mid := db.questions;
    var ids := StoreForProject(db, generated.value, pid, now);
    assert db.questions[..|old(db.questions)|] == mid[..|old(db.questions)|];
    r := QuestionsGenerated(pid, project.value.name, |ids|, generated.value);
  }

  // ------------------------------------------------------------ handling a meeting transcript

  /** An answer the join of questions and answers yields for transcript `tid`: its question exists. */
  predicate JoinedAnswer(questions: seq<Question>, a: Answer, tid: int) {
    a.transcriptId == tid && exists q :: q in questions && q.id == a.questionId
  }

  /**
   * The `(question id, answer text)` rows of the join on the answers of
   * transcript `tid`, taken in the order of the answers: each answer of the
   * transcript whose question exists gives exactly one row, since question
   * ids are distinct.
   */
  function AnsweredPairs(questions: seq<Question>, answers: seq<Answer>, tid: int): (r: seq<(int, SqlValue)>)
    ensures |r| <= |answers|
    ensures forall p :: p in r <==> exists a :: a in answers && JoinedAnswer(questions, a, tid) && p == (a.questionId, a.text)
    decreases |answers|
  {
    if answers == [] then []
    else
      var front := answers[..|answers| - 1];
      var a := answers[|answers| - 1];
      assert forall b :: b in answers <==> b in front || b == a;
      AnsweredPairs(questions, front, tid)
      + (if a.transcriptId == tid && QuestionIndex(questions, a.questionId) < |questions|
         then [(a.questionId, a.text)] else [])
  }

  /**
   * The loop over the answered questions: the follow-ups of each, in turn,
   * collected; the first exception ends it, and what the steps before it
   * stored stays stored. Each follow-up names the question of one of the
   * rows as its parent.
   */
  method FollowupsFor(db: DiscoveryDatabase, pairs: seq<(int, SqlValue)>, llm: Model, decode: Decoder, now: int)
    returns (r: Outcome<seq<Dict>>)
    requires db.Valid()
    modifies db
    ensures db.Valid()
    ensures db.projects == old(db.projects) && db.sowRows == old(db.sowRows)
    ensures db.matchTableExists == old(db.matchTableExists) && db.matchRows == old(db.matchRows)
    ensures db.transcripts == old(db.transcripts) && db.answers == old(db.answers) && db.newInfo == old(db.newInfo)
    ensures r == Fold(pairs, old(db.questions), FollowupStepFn(llm, decode, now))
    ensures db.questions == FoldState(pairs, old(db.questions), FollowupStepFn(llm, decode, now))
    ensures r.Ok? ==> forall f :: f in r.value ==>
              exists p :: p in pairs && Lookup(f, "parent_question_id") == Some(JInt(p.0))
  {
    ghost var q0 := db.questions;
    ghost var step := FollowupStepFn(llm, decode, now);
    var followups: seq<Dict> := [];
    var i := 0;
    FoldEnds(pairs, q0, followups, step);
    while i < |pairs|
      invariant 0 <= i <= |pairs|
      invariant Fold(pairs, q0, step) == PrependOk(followups, Fold(pairs[i..], db.questions, step))
      invariant FoldState(pairs, q0, step) == FoldState(pairs[i..], db.questions, step)
      invariant db.Valid()
      invariant db.projects == old(db.projects) && db.sowRows == old(db.sowRows)
      invariant db.matchTableExists == old(db.matchTableExists) && db.matchRows == old(db.matchRows)
      invariant db.transcripts == old(db.transcripts) && db.answers == old(db.answers) && db.newInfo == old(db.newInfo)
    {
      var qid := pairs[i].0;
      ghost var before := db.questions;
      var more := GenerateFollowupQuestions(db, qid, pairs[i].1, llm, decode, now);
      assert (db.questions, more) == step(pairs[i], before);
      if more.Raised? {
        FoldStop(pairs, i, before, followups, step);
        return Raised(more.message);
      }
      FoldAdvance(pairs, i, before, followups, step);
      followups := followups + more.value;
      i := i + 1;
    }
    FoldEnds(pairs, db.questions, followups, step);
    r := Ok(followups);
    FollowupRunParents(pairs, q0, llm, decode, now);
  }

  /** Every follow-up of the loop names the question of one of the rows as its parent. */
  lemma {:induction false} FollowupRunParents(pairs: seq<(int, SqlValue)>, q0: seq<Question>, llm: Model, decode: Decoder, now: int)
    ensures var r := Fold(pairs, q0, FollowupStepFn(llm, decode, now));
            r.Ok? ==> forall f :: f in r.value ==> exists p :: p in pairs && Lookup(f, "parent_question_id") == Some(JInt(p.0))
  {
    var step := FollowupStepFn(llm, decode, now);
    var parent := (x: (int, SqlValue), f: Dict) => Lookup(f, "parent_question_id") == Some(JInt(x.0));
    forall x, qs | x in pairs && step(x, qs).1.Ok?
      ensures forall f :: f in step(x, qs).1.value ==> parent(x, f)
    {
      var original := QuestionById(qs, x.0);
      if original.Some? {
        FollowupsInherit(original.value, x.1, llm, decode);
      }
    }
    FoldItems(pairs, q0, step, parent);
    var r := Fold(pairs, q0, step);
    if r.Ok? {
      forall f | f in r.value ensures exists p :: p in pairs && Lookup(f, "parent_question_id") == Some(JInt(p.0)) {
        var k :| 0 <= k < |pairs| && parent(pairs[k], f);
        assert pairs[k] in pairs;
      }
    }
  }

  datatype TranscriptReply =
    | TranscriptHandled(transcriptProcessed: bool, answersFound: nat, followupCount: nat,
                        followups: seq<Dict>, status: DiscoveryStatus)
    | TranscriptFailed(message: string)

  /**
   * The tables and reply after `process_meeting_transcript` stored
   * transcript `tid`, from the answers extracted (`found`) and the topics
   * obtained (`e`): the answer and new-information rows as
   * `process_transcript` leaves them, then, once it succeeded, the
   * follow-up stage on the answers it stored; any exception becomes a
   * failed reply.
   */
  ghost predicate MeetingStored(r: TranscriptReply, found: Outcome<seq<FoundAnswer>>, e: Outcome<JValue>,
                                q0: seq<Question>, q1: seq<Question>, a0: seq<Answer>, a1: seq<Answer>,
                                n0: seq<NewInfo>, n1: seq<NewInfo>, pid: int, tid: int, llm: Model, decode: Decoder, now: int)
  {
    && (found.Raised? ==> r == TranscriptFailed(found.message) && q1 == q0 && a1 == a0 && n1 == n0)
    && (found.Ok? ==>
          var ins := InsertEach(a0, found.value, AnswerMaker(tid, now), AnswerRowId);
          var topics := NewInfoReturned(e);
          && a1 == ins.0 && n1 == NewInfoAfter(n0, e, pid, now)
          && (topics.Raised? ==> r == TranscriptFailed(topics.message) && q1 == q0)
          && (topics.Ok? ==> FollowupsStored(r, q0, ins.0, q1, pid, tid, |ins.1|, llm, decode, now)))
  }

  /**
   * `process_meeting_transcript`: the transcript is processed; when it was,
   * follow-ups are generated for each question it answered, collected, and
   * stored once more under the project; the reply counts the answers and
   * the follow-ups and carries the discovery status. Any exception becomes
   * a failed reply, and what was stored before it stays stored.
   */
  method ProcessMeetingTranscript(db: DiscoveryDatabase, pid: int, text: string, llm: Model, decode: Decoder,
                                  parseFloat: FloatParser, now: int)
    returns (r: TranscriptReply)
    requires db.Valid()
    modifies db
    ensures db.Valid()
    ensures db.projects == old(db.projects) && db.sowRows == old(db.sowRows)
    ensures db.matchTableExists == old(db.matchTableExists) && db.matchRows == old(db.matchRows)
    ensures r.TranscriptHandled? ==> r.status == db.GetDiscoveryStatus(pid)
    ensures (forall q :: q in old(db.questions) ==> !InProjectWithStatus(q, pid, "unanswered")) ==>
              && r == TranscriptHandled(false, 0, 0, [], db.GetDiscoveryStatus(pid))
              && db.questions == old(db.questions) && db.transcripts == old(db.transcripts)
              && db.answers == old(db.answers) && db.newInfo == old(db.newInfo)
    ensures (exists q :: q in old(db.questions) && InProjectWithStatus(q, pid, "unanswered")) ==>
              |db.transcripts| == |old(db.transcripts)| + 1 &&
              MeetingStored(r, ExtractedAnswers(text, UnansweredByPriority(old(db.questions), pid), llm, decode, parseFloat),
                            NewInfoReply(old(db.SowDataOf(pid)), text, llm, decode), old(db.questions), db.questions,
                            old(db.answers), db.answers, old(db.newInfo), db.newInfo,
                            pid, db.transcripts[|old(db.transcripts)|].id, llm, decode, now)
    ensures (exists q :: q in old(db.questions) && InProjectWithStatus(q, pid, "unanswered")) ==>
              && |db.transcripts| == |old(db.transcripts)| + 1
              && db.transcripts[..|old(db.transcripts)|] == old(db.transcripts)
              && db.transcripts[|old(db.transcripts)|].projectId == pid
              && db.transcripts[|old(db.transcripts)|].text == text
  {
    ghost var q0, a0, n0 := db.questions, db.answers, db.newInfo;
    ghost var found := ExtractedAnswers(text, UnansweredByPriority(db.questions, pid), llm, decode, parseFloat);
    ghost var e := NewInfoReply(db.SowDataOf(pid), text, llm, decode);
    var result := ProcessTranscript(db, pid, text, llm, decode, parseFloat, now);
    ghost var a1, n1 := db.answers, db.newInfo;
    if result.Raised? {
      r := TranscriptFailed(result.message);
      if |db.transcripts| == |old(db.transcripts)| + 1 {
        MeetingFromParts(result, r, found, e, q0, db.questions, a0, a1, n0, n1,
                         pid, db.transcripts[|old(db.transcripts)|].id, llm, decode, now);
      }
      return;
    }
    if result.value.NoQuestions? {
      var status := db.GetDiscoveryStatus(pid);
      return TranscriptHandled(false, 0, 0, [], status);
    }
    ghost var tid := db.transcripts[|old(db.transcripts)|].id;
    r := FollowupsOfTranscript(db, pid, result.value.transcriptId, result.value.answersFound, llm, decode, now);
    MeetingFromParts(result, r, found, e, q0, db.questions, a0, a1, n0, n1, pid, tid, llm, decode, now);
  }

  /**
   * What the tables and reply of `process_meeting_transcript` give: the
   * answer rows added are kept after the old ones and are all for the new
   * transcript; a handled reply counts them and its follow-ups, and every
   * follow-up names as its parent a question that one of them answers.
   */
  lemma {:induction false} MeetingStoredFacts(r: TranscriptReply, found: Outcome<seq<FoundAnswer>>, e: Outcome<JValue>,
                                              q0: seq<Question>, q1: seq<Question>, a0: seq<Answer>, a1: seq<Answer>,
                                              n0: seq<NewInfo>, n1: seq<NewInfo>, pid: int, tid: int,
                                              llm: Model, decode: Decoder, now: int)
    requires IdsOk(Ids(a0, AnswerRowId))
    requires MeetingStored(r, found, e, q0, q1, a0, a1, n0, n1, pid, tid, llm, decode, now)
    ensures |a0| <= |a1| && a1[..|a0|] == a0
    ensures forall a :: a in a1[|a0|..] ==> a.transcriptId == tid
    ensures r.TranscriptHandled? ==>
              && r.transcriptProcessed && r.answersFound == |a1| - |a0| && r.followupCount == |r.followups|
              && forall f :: f in r.followups ==>
                   exists a :: a in a1 && a.transcriptId == tid && Lookup(f, "parent_question_id") == Some(JInt(a.questionId))
  {
    if found.Ok? {
      var make := AnswerMaker(tid, now);
      var ins := InsertEach(a0, found.value, make, AnswerRowId);
      AnswerMakerStamps(tid, now);
      InsertEachShape(a0, found.value, make, AnswerRowId);
      forall a | a in a1[|a0|..] ensures a.transcriptId == tid {
        var k :| 0 <= k < |a1[|a0|..]| && a1[|a0|..][k] == a;
        assert a == ins.0[|a0| + k];
        var j :| 0 <= j < |found.value| && make(found.value[j], ins.1[k]) == Some(a);
      }
      if r.TranscriptHandled? {
        var pairs := AnsweredPairs(q0, a1, tid);
        FollowupRunParents(pairs, q0, llm, decode, now);
        forall f | f in r.followups
          ensures exists a :: a in a1 && a.transcriptId == tid && Lookup(f, "parent_question_id") == Some(JInt(a.questionId))
        {
          var p :| p in pairs && Lookup(f, "parent_question_id") == Some(JInt(p.0));
          var a :| a in a1 && JoinedAnswer(q0, a, tid) && p == (a.questionId, a.text);
        }
      }
    }
  }

  /** `process_meeting_transcript` from its two stages: the processing of the transcript, then the follow-ups. */
  lemma {:induction false} MeetingFromParts(result: Outcome<TranscriptResult>, r: TranscriptReply,
                                            found: Outcome<seq<FoundAnswer>>, e: Outcome<JValue>,
                                            q0: seq<Question>, q1: seq<Question>, a0: seq<Answer>, a1: seq<Answer>,
                                            n0: seq<NewInfo>, n1: seq<NewInfo>, pid: int, tid: int,
                                            llm: Model, decode: Decoder, now: int)
    requires TranscriptAnswered(result, found, e, a0, a1, n0, n1, pid, tid, now)
    requires result.Raised? ==> r == TranscriptFailed(result.message) && q1 == q0
    requires result.Ok? ==> result.value.Processed? && result.value.transcriptId == tid
                            && FollowupsStored(r, q0, a1, q1, pid, tid, result.value.answersFound, llm, decode, now)
    ensures MeetingStored(r, found, e, q0, q1, a0, a1, n0, n1, pid, tid, llm, decode, now)
  {
  }

  /**
   * The question table and reply after the follow-up stage for transcript
   * `tid`, from the questions `q0` and answers `a0` it starts from: the loop
   * over the answered questions runs; if it raises, what it stored stays and
   * the reply is a failure; otherwise its follow-ups are appended once more,
   * under the project, and reported with the answers found.
   */
  ghost predicate FollowupsStored(r: TranscriptReply, q0: seq<Question>, a0: seq<Answer>, q1: seq<Question>,
                                  pid: int, tid: int, answersFound: nat, llm: Model, decode: Decoder, now: int)
  {
    var pairs := AnsweredPairs(q0, a0, tid);
    var run := Fold(pairs, q0, FollowupStepFn(llm, decode, now));
    var marked := FoldState(pairs, q0, FollowupStepFn(llm, decode, now));
    && (run.Raised? ==> r == TranscriptFailed(run.message) && q1 == marked)
    && (run.Ok? ==>
          && q1 == InsertEach(marked, run.value, QuestionMaker(Some(pid), now), QuestionRowId).0
          && r.TranscriptHandled? && r.transcriptProcessed && r.answersFound == answersFound
          && r.followups == run.value && r.followupCount == |run.value|)
  }

  /**
   * The part of `process_meeting_transcript` after a transcript was
   * processed: the follow-ups of the questions it answered are generated and
   * stored under the project, and the reply reports them with the count of
   * answers found and the discovery status.
   */
  method FollowupsOfTranscript(db: DiscoveryDatabase, pid: int, tid: int, answersFound: nat,
                               llm: Model, decode: Decoder, now: int)
    returns (r: TranscriptReply)
    requires db.Valid()
    modifies db
    ensures db.Valid()
    ensures db.projects == old(db.projects) && db.sowRows == old(db.sowRows)
    ensures db.matchTableExists == old(db.matchTableExists) && db.matchRows == old(db.matchRows)
    ensures db.transcripts == old(db.transcripts) && db.answers == old(db.answers) && db.newInfo == old(db.newInfo)
    ensures FollowupsStored(r, old(db.questions), old(db.answers), db.questions, pid, tid, answersFound, llm, decode, now)
    ensures r.TranscriptHandled? ==>
              && r.transcriptProcessed && r.answersFound == answersFound
              && r.followupCount == |r.followups|
              && r.status == db.GetDiscoveryStatus(pid)
              && forall f :: f in r.followups ==>
                   exists a :: a in db.answers && a.transcriptId == tid
                               && Lookup(f, "parent_question_id") == Some(JInt(a.questionId))
  {
    ghost var a1 := db.answers;
    var pairs := AnsweredPairs(db.questions, db.answers, tid);
    var generated := FollowupsFor(db, pairs, llm, decode, now);
    if generated.Raised? {
      return TranscriptFailed(generated.message);
    }
    var followups := generated.value;
    forall f | f in followups
      ensures exists a :: a in a1 && a.transcriptId == tid && Lookup(f, "parent_question_id") == Some(JInt(a.questionId))
    {
      var p :| p in pairs && Lookup(f, "parent_question_id") == Some(JInt(p.0));
    }
    if followups != [] {
      var ids := db.StoreQuestions(followups, Some(pid), now);
    }
    var status := db.GetDiscoveryStatus(pid);
    r := TranscriptHandled(true, answersFound, |followups|, followups, status);
  }

  // ------------------------------------------------------------ the combined run

  datatype StartReply = FromDocuments(documents: DocumentsReply) | FromQuestions(questions: QuestionsReply)

  /**
   * `start_discovery`: the documents are processed (`process_project`
   * returns nothing, so no matches are merged); a failed processing reply
   * is returned as it is and no questions are generated. Otherwise the file
   * `SOW.txt` is read, raising when it cannot be opened (`sowFile` is
   * `None`), and the reply of `generate_questions` is returned.
   */
  method StartDiscovery(db: DiscoveryDatabase, name: string, sowPath: string, extract: TextExtractor,
                        llm: Model, decode: Decoder, sowFile: Option<string>, now: int)
    returns (r: Outcome<StartReply>)
    requires db.Valid()
    modifies db
    ensures db.Valid()
    ensures |db.projects| == |old(db.projects)| + 1 && db.projects[..|old(db.projects)|] == old(db.projects)
    ensures db.projects[|old(db.projects)|].name == name
    ensures ParsedSow(sowPath, extract, llm, decode).Raised? ==>
              r == Ok(FromDocuments(DocumentsFailed(ParsedSow(sowPath, extract, llm, decode).message)))
    ensures ParsedSow(sowPath, extract, llm, decode).Ok? && sowFile.None? ==>
              r == Raised("[Errno 2] No such file or directory: 'SOW.txt'")
    ensures ParsedSow(sowPath, extract, llm, decode).Ok? && sowFile.Some? ==>
              r.Ok? && r.value.FromQuestions?
              && r.value.questions == GenerationFailed("Failed to generate questions: " + ArityMessage,
                                                       db.projects[|old(db.projects)|].id, name)
    ensures db.questions == old(db.questions) && db.transcripts == old(db.transcripts)
    ensures db.answers == old(db.answers) && db.newInfo == old(db.newInfo)
  {
    var documents := ProcessDocuments(db, name, sowPath, extract, llm, decode, None, now);
    if !documents.DocumentsProcessed? {
      return Ok(FromDocuments(documents));
    }
    if sowFile.None? {
      return Raised("[Errno 2] No such file or directory: 'SOW.txt'");
    }
    ProjectOfNewest(old(db.projects), db.projects[|old(db.projects)|]);
    var questions := GenerateQuestions(db, documents.projectId, documents.sowData);
    r := Ok(FromQuestions(questions));
  }
}
