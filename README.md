# Discovery Accelerator — a verified model of the question-and-answer core

The Discovery Accelerator supports a consultancy's discovery phase. A
project starts from a statement of work (SOW). The SOW is split into
sections, and requirements and scope boundaries are extracted from it. A
language model then asks clarifying questions about the ambiguous
requirements and the unclear boundaries. Meeting transcripts and further
documents are searched for answers, five questions per model call. An
answer moves its question to `answered` or `partially_answered`, and
follow-up questions may be asked. Everything lives in one SQLite store,
and a React front end shows the progress.

This project models that bookkeeping in Dafny, one module per source file:

- `DiscoveryDb` (discovery_db.py) is the store: a class with one sequence
  field per table, whose methods are framed and state the new content of
  every table they touch. `StoreRows` holds the row types and the
  specification functions those methods are proved against. `Sql` holds
  SQLite binding, column affinity and the `ORDER BY` comparison.
  `Sorting` is the stable sort that stands for `ORDER BY`.
- `QuestionGenerator`, `TranscriptAnalyzer`, `AdditionalDoc` and
  `SowParser` model the four response parsers. Each tries a fenced `json`
  block, then the whole text, then a line heuristic; the shared tier
  order is in `Response` and the line state machine in `LineScan`. These
  modules also model the tagging, batching, index-mapping and status
  rules around the model calls. `Llm` is the language model, an oracle
  from the data a prompt carries to a reply: the reply's text, a call
  that failed, or a response whose text cannot be read. `Json` holds decoded JSON
  values with Python's dict and truthiness rules.
- `FileProcessing` covers keyword extraction, requirement-to-document
  matching and the PDF path computation.
- `DiscoveryAccelerator` and `DiscoveryReport` cover the orchestration:
  starting a discovery, processing a transcript, the question listing and
  the report.
- `ProjectApi` covers filename sanitising and the project-list
  normalisation of the HTTP layer.
- `ApiClient`, `FileUtils`, `FileUpload`, `ChartUtils` and
  `ProgressUtils` are the front-end helper libraries under
  `discovery-accelerator/lib`. `Browser` holds the browser values they
  receive.
- `Text` and `Base` hold shared string helpers and wrappers.

Known defects of the source are modelled as written. Two of them come
with a corrected definition (see Findings).

## Model

| member | source | states |
|---|---|---|
| DiscoveryDb.DiscoveryDatabase.constructor | discovery_db.py:13-106 | a fresh database is valid, with every table empty and no requirement-match table yet |
| DiscoveryDb.DiscoveryDatabase.CreateProject | discovery_db.py:108-122 | exactly one project row is appended; its id is at least 1 and above every earlier id; no other table changes |
| DiscoveryDb.DiscoveryDatabase.SowDataOf | discovery_db.py:211-229 | a SOW record is returned exactly when some `sow_data` row belongs to the project |
| DiscoveryDb.DiscoveryDatabase.GetProjectSowData | discovery_db.py:211-264 | the method returns what `SowDataOf` specifies for the current state |
| DiscoveryDb.DiscoveryDatabase.ReplaceMatches | discovery_db.py:163-197 | the match table then exists; the project's match rows are deleted and the bound matches inserted; the other tables are unchanged |
| DiscoveryDb.DiscoveryDatabase.StoreSowData | discovery_db.py:124-209 | success iff the matches are falsy or all bind; on success the project has one SOW row holding the new sections, requirements and boundaries; truthy matches replace the project's matches, and reading back then gives the stored groups (empty lists dropped); on failure nothing changes; the caller's dict gets the matches moved to its end, or loses them when falsy; projects, questions, transcripts, answers and new information are unchanged |
| DiscoveryDb.DiscoveryDatabase.StoreQuestions | discovery_db.py:266-309 | questions and ids are the result of the insert fold over the input with the question row builder; no other table changes |
| DiscoveryDb.DiscoveryDatabase.GetQuestion | discovery_db.py:311-325 | the result is present iff some question row has the id, and it is that row |
| StoreRows.QuestionById | discovery_db.py:311-325 | on a given question table: present iff some row has the id, and then that row |
| DiscoveryDb.DiscoveryDatabase.GetUnansweredQuestions | discovery_db.py:327-341 | the result is a permutation of the project's `unanswered` questions, sorted by priority; it holds exactly the rows in that project with that status |
| DiscoveryDb.DiscoveryDatabase.UpdateQuestionStatus | discovery_db.py:343-361 | always returns true; only the status and `updated_at` of the question with that id change (see `WithStatus`); no other table changes |
| DiscoveryDb.DiscoveryDatabase.StoreTranscript | discovery_db.py:363-377 | one unprocessed transcript row is appended with a fresh id above every earlier one; no other table changes |
| DiscoveryDb.DiscoveryDatabase.StoreAnswer | discovery_db.py:379-397 | returns true iff both values bind as SQL parameters; it then appends one answer row with the next rowid, and otherwise leaves the answers unchanged; no other table changes |
| DiscoveryDb.DiscoveryDatabase.StoreNewInformation | discovery_db.py:399-435 | a falsy argument stores nothing and returns `[]`; a truthy value that cannot be iterated raises; otherwise the result is the insert fold over the elements; no other table changes |
| DiscoveryDb.DiscoveryDatabase.GetDiscoveryStatus | discovery_db.py:437-471 | the total is the number of the project's questions; each status count equals that status's number of occurrences, with no key repeated; the transcript count is the project's transcripts; complete iff the total is positive and no question of the project is `unanswered` or `partially_answered` |
| StoreRows.NextId | discovery_db.py:118 | for valid rowids the next rowid is at least 1, above every existing id, and keeps the ids valid |
| StoreRows.InsertAll | discovery_db.py:275-306 | the insert loop returns the table and ids of the insert fold `InsertEach` |
| StoreRows.InsertEachShape | discovery_db.py:275-306 | the old rows stay as a prefix; one row is appended per returned id, in order, each made from some input element, with fresh valid rowids; at most one id per element |
| StoreRows.WithStatus | discovery_db.py:349-352 | same length; the row with the id gets the new status and `updated_at`; every other row is unchanged |
| StoreRows.WithStatusIdempotent | discovery_db.py:349-352 | setting the same status twice at the same moment equals setting it once |
| StoreRows.QuestionRowFor | discovery_db.py:277-300 | a stored row carries the given rowid and timestamp, a non-null text and a non-null project |
| StoreRows.QuestionDefaults | discovery_db.py:289-298 | a dict with only a question text gets priority 3, status `unanswered`, `''` for context, source and source text, and a null parent |
| StoreRows.QuestionWithoutProjectSkipped | discovery_db.py:277-280 | with no project argument and no truthy own `project_id`, the question is skipped |
| StoreRows.QuestionForProjectZeroSkipped | discovery_db.py:277-280 | a project argument of 0 is falsy, so every question is skipped |
| StoreRows.QuestionNullTextSkipped | discovery_db.py:284-303 | an explicit None question text fails `NOT NULL`, so the insert raises and the question is skipped |
| StoreRows.InsertNoQuestions | discovery_db.py:268-269 | an empty list stores nothing and returns no ids |
| StoreRows.QuestionIndex | discovery_db.py:317 | the index of the row with that id, or the length when no row has it |
| StoreRows.StatusCountsCorrect | discovery_db.py:443-449 | the grouped counts have distinct keys, exactly the statuses present, each count positive and equal to that status's occurrences, and they sum to the number of questions |
| StoreRows.OpenCount | discovery_db.py:462-463 | the `unanswered` plus `partially_answered` count is 0 iff no question of the project has either status |
| StoreRows.NewInfoRowFor | discovery_db.py:409-428 | a stored row comes from a dict and carries the rowid, the project and the status `pending` |
| StoreRows.SowIndex | discovery_db.py:143-147 | the first row of the project, or the length when there is none |
| StoreRows.LatestSowIndex | discovery_db.py:217-220 | the project's row with the largest index, or the length when there is none |
| StoreRows.UpsertSowCorrect | discovery_db.py:143-160 | after the upsert there is still at most one row per project and valid rowids; the project's latest row holds the new sections, requirements and boundaries; other projects' rows are unchanged |
| StoreRows.BindMatch | discovery_db.py:187-198 | a match binds iff it is a dict whose `source_file`, `keyword` and `context` values (each defaulting to `''`) all bind |
| StoreRows.BindMatchList | discovery_db.py:186-198 | a bound list has one entry per match |
| StoreRows.BindGroups | discovery_db.py:185-198 | one bound group per requirement id, with the same ids in the same order |
| StoreRows.BindGroupsKeys | discovery_db.py:185 | the keys of a dict are distinct, so the bound requirement ids are too |
| StoreRows.OtherProjectsMatches | discovery_db.py:179-182 | the delete leaves the project no matches and keeps every other project's matches |
| StoreRows.OtherProjectsIds | discovery_db.py:179-182 | the delete keeps only rows it was given, so the rowids stay valid |
| StoreRows.InsertMatchesCorrect | discovery_db.py:185-198 | the insert loop appends exactly the bound matches, in order, to the project's matches and to no other project's |
| StoreRows.GroupFlatten | discovery_db.py:247-260 | grouping the flattened rows of a map with distinct keys gives the map back, minus requirements that had no matches |
| StoreRows.SowRecordOf | discovery_db.py:211-264 | a record exists iff the project has a SOW row; it names the project; it carries matches iff the match table exists |
| StoreRows.SowAfterStore | discovery_db.py:131-140 | the caller's dict keeps `requirement_matches` only when truthy; every other key is unchanged |
| StoreRows.ReplacedMatchesOthers | discovery_db.py:179-198 | replacing one project's matches leaves every other project's matches unchanged |
| StoreRows.ReplacedMatchesIds | discovery_db.py:179-198 | replacing matches keeps the rowids valid |
| StoreRows.SowRoundTrip | discovery_db.py:124-264 | reading back after a store with matches gives the stored sections, requirements and boundaries, and exactly the stored match groups minus the empty ones |
| StoreRows.SowStoreKeepsMatches | discovery_db.py:143-160 | a store whose matches are falsy keeps the record's id and the matches it read before |
| QuestionGenerator.ParseQuestionsFromResponse | question_generator.py:216-269 | the parser returns what `ParseQuestions` defines (fenced body, then the whole text, then the line heuristic); an empty response gives `[]` |
| QuestionGenerator.ParseQuestions | question_generator.py:216-269 | unless a non-empty response decodes as JSON, the result is a list; `ParseQuestionsFallback` and `ParseQuestionsFenceShadows` state which list |
| QuestionGenerator.ParseQuestionsFallback | question_generator.py:241-264 | for a non-empty response that is neither fenced nor JSON, the result is a list with one dict per line opening a question (`Question:` or `- Question:`), in order, each holding that line's question text and only `context`, `priority` or `item` besides it |
| QuestionGenerator.FallbackRecords | question_generator.py:241-264 | the records the line heuristic collects correspond one to one, in order, to the question-opening lines |
| QuestionGenerator.ParseQuestionsFenceShadows | question_generator.py:229-234 | a fenced block whose body does not decode makes the result `[]`, whatever the rest of the text holds |
| QuestionGenerator.TagEach | question_generator.py:78-81 | tagging succeeds iff every parsed item is a dict; it then tags each one, in order; otherwise it raises the item-assignment error of the first item that is not a dict |
| QuestionGenerator.TagQuestions | question_generator.py:78-81 | the `for q in …` tagging loop computes `Tag`: a parsed value that cannot be iterated raises the not-iterable error, and otherwise each dict is tagged in order (the requirement and boundary steps check `len` first, the follow-up and document loops do not) |
| QuestionGenerator.TagsSetSource | question_generator.py:78-81 | a requirement question gets `source` naming the requirement id, `source_text` the requirement text and status `unanswered`; a boundary question gets `Unclear Boundary` and its own `item` (default `Boundary item`); every other key is kept |
| QuestionGenerator.BoundaryTagTagged | question_generator.py:109-112 | a tagged boundary question names itself as its own source text |
| QuestionGenerator.ThreeSets | question_generator.py:79-81 | three assignments to distinct keys give each its value and leave every other key as it was |
| QuestionGenerator.TagImage | question_generator.py:78-81 | every tagged question is the tag applied to some parsed dict |
| QuestionGenerator.AmbiguousOf | question_generator.py:33-34 | the filter succeeds iff every requirement is a dict, and then keeps exactly those whose `clarity` is `ambiguous` |
| QuestionGenerator.GenerateRequirementQuestions | question_generator.py:39-83 | the requirement loop computes `RequirementQuestions`, starting with no earlier response: a failed call is caught and the previous response is parsed again (before any response exists, reading it raises), while a response whose `.text` cannot be read raises, that read being outside the `try`; a parsed value without a length raises `len`'s error at line 76 before the loop |
| QuestionGenerator.RequirementStepTagged | question_generator.py:59-83 | the questions of one requirement all carry that requirement as their source |
| QuestionGenerator.RequirementQuestionsTagged | question_generator.py:39-83 | every requirement question carries as its source one of the requirements it was generated for |
| QuestionGenerator.InitialPrelude | question_generator.py:19-34 | when the prelude succeeds, the ambiguous requirements are exactly the SOW's ambiguous requirement dicts and the boundaries are the SOW's `boundaries`; a SOW without `requirements` raises |
| QuestionGenerator.GenerateBoundaryQuestions | question_generator.py:86-114 | the boundary branch computes `BoundaryQuestions`, where a failed call and an unreadable response both raise, and a parsed value without a length raises `len`'s error at line 107 |
| QuestionGenerator.BoundaryQuestionsTagged | question_generator.py:109-112 | every boundary question has source `Unclear Boundary` and its own item as source text |
| QuestionGenerator.InitialQuestionsTagged | question_generator.py:18-131 | every generated question is `unanswered` and is a boundary question or names an ambiguous requirement of the SOW as its source, with its text |
| QuestionGenerator.InitialQuestions | question_generator.py:18-131 | the step succeeds only when the SOW data has a `boundaries` key; `InitialQuestionsTagged` states what the questions hold |
| QuestionGenerator.FirstCallFailureRaises | question_generator.py:60-75 | when the model call for the first ambiguous requirement fails, no response is bound and the generation raises; when its response's text cannot be read, the generation raises that error |
| QuestionGenerator.UnsizedParseRaises | question_generator.py:75-107 | a reply that parses to a number, a boolean or `null` makes the requirement loop and the boundary step raise `object of type '…' has no len()`, not the loop's not-iterable error |
| QuestionGenerator.GenerateInitialQuestions | question_generator.py:18-131 | the result is `InitialQuestions`; when it succeeds with questions they are inserted into the question table, otherwise the table is unchanged; no other table changes |
| QuestionGenerator.FollowupFallbackStatus | question_generator.py:184-196 | a reply that is neither fenced nor JSON sets the status `answered` iff it contains `fully answered` in any case, else `partially_answered`, and yields no follow-ups |
| QuestionGenerator.ReplyFallbackStatus | question_generator.py:184-196 | the same, for a given reply text |
| QuestionGenerator.FallbackFields | question_generator.py:186-190 | the fallback dict reports the phrase test as `fully_answered` and no follow-ups |
| QuestionGenerator.FollowupsInherit | question_generator.py:171-214 | each follow-up names the original as parent and inherits its source and source text, status `unanswered`; a status is set iff the model replied and the reply parsed to a dict |
| QuestionGenerator.ReplyPlanInherits | question_generator.py:173-210 | the same for a given reply text |
| QuestionGenerator.FollowupTaggedInherits | question_generator.py:200-204 | a tagged follow-up names its parent and carries the parent's source and source text |
| QuestionGenerator.GenerateFollowupQuestions | question_generator.py:133-214 | the question table and result are `FollowupStep`'s: an unknown id gives `[]` and changes nothing; a failed call raises and changes nothing; a response whose text cannot be read gives `[]` and changes nothing; otherwise the original's status is set when the reply parsed to a dict, and non-empty follow-ups are appended with no project id; no other table changes |
| QuestionGenerator.ApplyReply | question_generator.py:173-214 | once the model replied: the status is updated when the reply parsed to a dict, the follow-ups are inserted when there are some, and the result is the plan's |
| Response.FindFenceMatches | question_generator.py:230-231 | a fenced block is found iff an opener is followed, at or after its end, by a closer; the body is the text between the leftmost opener and the first closer after it |
| Response.TierOrder | question_generator.py:229-240 | a found fence decides the outcome even when its body does not decode; without a fence the whole text is decoded; only then does the heuristic apply |
| Response.ClosersApart | question_generator.py:230 | two closer occurrences never overlap |
| Response.FenceAround | question_generator.py:230-231 | a fenced block around a body free of closers, with no earlier opener, yields exactly that body |
| LineScan.AfterColon | question_generator.py:255 | the text splits into what precedes the first colon, the colon and the result |
| LineScan.ScanLines | question_generator.py:241-264 | the one-pass loop over the lines computes `Scan` |
| LineScan.ScanShape | question_generator.py:249-264 | every record returned holds the main key and only keys the scanner accepts, each with a value the start lines and conversions guarantee |
| LineScan.ScanMains | question_generator.py:249-264 | one record per opening line, in order, each holding the main-key value its opening line gave |
| LineScan.ScanRecords | question_generator.py:241-264 | the records correspond to the opening lines, each with that line's main value and only accepted keys |
| Sql.Bind | discovery_db.py:385-388 | a value binds as an SQL parameter unless it is a list, a dict or an integer outside 64 bits; `None` binds as NULL and a string as text |
| Sql.ToJson | discovery_db.py:338-341 | reading a storable column value back and binding it again gives the same value |
| Sql.IntegerAffinity | discovery_db.py:52 | an INTEGER column keeps NULL and integers, turns other values into integers only when they convert exactly, and leaves a real only when it is not an integral 64-bit value |
| Sql.RealAffinity | discovery_db.py:81 | a FLOAT column keeps NULL and reals and never stores an integer |
| Sql.TextAffinity | discovery_db.py:80 | a TEXT column keeps NULL and text and never stores an integer |
| Sql.StrLeTotal | discovery_db.py:334 | text comparison orders every pair |
| Sql.StrLeTransitive | discovery_db.py:334 | text comparison is transitive |
| Sql.StrLeAntisymmetric | discovery_db.py:334 | text comparison is antisymmetric |
| Sql.SqlLeTotal | discovery_db.py:334 | the order of SQLite values (NULL, numbers, text, blobs) relates every pair |
| Sql.SqlLeTransitive | discovery_db.py:334 | the order of SQLite values is transitive |
| Sql.SqlSameText | discovery_db.py:334 | two texts tie in `ORDER BY` exactly when they are equal |
| Sorting.Insert | discovery_db.py:334 | inserting adds exactly the element |
| Sorting.InsertionSort | discovery_db.py:334 | sorting permutes its input |
| Sorting.InsertSorted | discovery_db.py:334 | inserting into a sorted list keeps it sorted |
| Sorting.InsertionSortSorted | discovery_db.py:334 | the result of `ORDER BY` is sorted and a permutation of the selected rows |
| Json.Set | question_generator.py:79-81 | assignment sets the key, keeps every other key, and appends a new key at the end of the insertion order |
| Json.RemoveKey | discovery_db.py:131 | removal drops the key and keeps every other key |
| Json.SetDefault | sow_parser.py:320-322 | a present key is left alone; a missing key is appended with the default |
| Json.Get | question_generator.py:34 | `get` returns the stored value of a present key and the default otherwise |
| Json.Len | question_generator.py:20 | `len` applies to strings, lists and dicts, and is zero exactly for falsy ones |
| Json.Iter | question_generator.py:78 | iteration applies to strings, lists and dicts, and is empty exactly for falsy ones |
| Text.Lower | question_generator.py:187 | lower-casing keeps the length and lowers each character |
| Text.StripEnds | question_generator.py:245 | a stripped string neither starts nor ends with white space and is no longer than the input |
| Text.SplitOn | question_generator.py:241 | a split gives at least one part, none holding the separator |
| Text.JoinSplit | question_generator.py:241 | joining the parts of a split with the separator gives back the string |
| Text.Extension | file_processing.py:1280 | the extension is a suffix of the path that starts with its only dot and holds no slash (POSIX separators only, see "## Left out") |
| Text.ExtensionOfName | file_processing.py:1280 | a name made of a stem and an extension has that extension |
| Text.FindFrom | question_generator.py:230-231 | the search returns the first occurrence at or after the start, or none when there is none |
| Text.LastIndexOf | additional_doc.py:325 | the result is the last index holding the character, or -1 |
| Text.Take | transcript_analyzer.py:97 | a prefix of the requested length, or the whole string |
| TranscriptAnalyzer.NumberAtReads | transcript_analyzer.py:240-242 | after `Question`, white space and a run of digits, the number read is the value of those digits |
| TranscriptAnalyzer.QuestionNumberReads | transcript_analyzer.py:240-242 | a line `Question <spaces><digits>…` names the question whose number the digits spell |
| TranscriptAnalyzer.ParseAnswersFromResponse | transcript_analyzer.py:209-266 | the parser returns what `ParseAnswers` defines: fenced body, then the whole text, then the line heuristic |
| TranscriptAnalyzer.ParseAnswers | transcript_analyzer.py:209-266 | unless the response decodes as JSON, the result is a list; `ParseAnswersFallback` states which |
| TranscriptAnalyzer.AnswerScannerShape | transcript_analyzer.py:229-261 | the answer heuristic opens a record only with an integer `question_index`, reads `answer_found` as a boolean, `confidence` as a number (0.5 when it does not parse) and `answer`/`explanation` as text |
| TranscriptAnalyzer.ParseAnswersFallback | transcript_analyzer.py:224-261 | for a response neither fenced nor JSON: one dict per line opening an answer with a question number, in order, each holding that number and only the four accepted keys, each typed as read |
| TranscriptAnalyzer.AnswerItem | transcript_analyzer.py:117-125 | an item is kept iff it is a dict with a truthy `answer_found` and a question number within the batch, and then names that question with the item's answer and confidence (defaults `''` and `0.0`); a non-dict item aborts the batch; so does a claimed answer whose index is not a number (the range comparison raises) or is a float in range (a list index must be an integer); a claimed answer whose index is a float out of range is skipped |
| TranscriptAnalyzer.MapAnswers | transcript_analyzer.py:117-125 | the mapping loop computes `BatchAnswers` |
| TranscriptAnalyzer.BatchAnswersInBatch | transcript_analyzer.py:117-125 | every answer of a batch is for a question of that batch |
| TranscriptAnalyzer.BatchAnswersComplete | transcript_analyzer.py:117-125 | a reply whose every item claims an answer to a question of the batch yields one answer per item, in order |
| TranscriptAnalyzer.QuestionTexts | transcript_analyzer.py:86-88 | the prompt lists the batch's question texts in order |
| TranscriptAnalyzer.AnswerBatch | transcript_analyzer.py:90-128 | one batch computes `BatchOutcome`: a failed call raises (it is outside the `try`); a response whose text cannot be read or a parse error drops the whole batch; a mapping error drops that batch's answers from the failing item on, and the answers of earlier items stay |
| TranscriptAnalyzer.BatchesCover | transcript_analyzer.py:81-83 | the batches concatenate to the questions; all hold five except the last, which holds one to five; there are ⌈n/5⌉ of them |
| TranscriptAnalyzer.ExtractedAnswersAsked | transcript_analyzer.py:67-130 | every extracted answer is for one of the questions asked |
| TranscriptAnalyzer.ExtractedAnswers | transcript_analyzer.py:67-130 | no questions give no answers and no model call; `ExtractedAnswersAsked` states that every answer is for a question asked |
| TranscriptAnalyzer.BatchesFrom | transcript_analyzer.py:82-83 | from position `i` the batches are the next up to five questions followed by the later batches |
| TranscriptAnalyzer.ExtractAnswers | transcript_analyzer.py:67-130 | the loop over `i` in steps of five computes `ExtractedAnswers`: the batches' answers in order, the first failed call raising, an unreadable response dropping its batch |
| TranscriptAnalyzer.IdentifyNewInformation | transcript_analyzer.py:132-207 | with `e` the topics obtained (`NewInfoReply`: a failed call raises, an unreadable response gives `[]`): a raised `e` or a falsy one is returned and nothing is stored; a truthy `e` that cannot be iterated gives `[]` and stores nothing; otherwise `e` is returned and its elements are inserted as new-information rows; the same as `NewInfoReturned(e)` and `NewInfoAfter`; no other table changes |
| TranscriptAnalyzer.AnswerMakerStamps | transcript_analyzer.py:48-53 | every answer row built carries the rowid it was given |
| TranscriptAnalyzer.StoreFoundAnswers | transcript_analyzer.py:46-55 | the answers table is the insert fold over the found answers and the count is the number of rows stored; no other table changes |
| TranscriptAnalyzer.StoredAnswersAsked | transcript_analyzer.py:46-55 | the rows added follow the old ones, belong to the transcript and answer some asked question |
| TranscriptAnalyzer.ProcessTranscript | transcript_analyzer.py:23-65 | no unanswered question: `no_questions` and nothing stored; otherwise one unprocessed transcript row is appended and `TranscriptAnswered` holds for the project's unanswered questions by priority: an extraction that raises stores nothing more; else the answer table is the old one with a row for each found answer whose values bind, against the new transcript, the new-information table is as `identify_new_information` leaves it, and the result is `processed` with that transcript, the number of answer rows added and the topics returned, or the new-information error; every answer added is for an unanswered question of the project; questions are unchanged |
| TranscriptAnalyzer.AnswerTranscript | transcript_analyzer.py:42-65 | after transcript `tid` is stored: `TranscriptAnswered` for the answers extracted from the questions passed (exact answer and new-information tables and the result); the answers added are for `tid` and for the questions passed; a success counts exactly the answers added |
| AdditionalDoc.Basename | additional_doc.py:325 | the base name holds no `/` and ends the path (POSIX separators only, see "## Left out") |
| AdditionalDoc.ParseJsonReplyNoFallback | additional_doc.py:350-375 | a reply that is neither fenced JSON nor JSON gives `[]`: these parsers have no line heuristic |
| AdditionalDoc.QuestionPairs | additional_doc.py:213-218 | the prompt lists one entry per question of the batch, in order, with its text |
| AdditionalDoc.DocAnswerBatch | additional_doc.py:244-264 | one batch computes the document batch step: a failed model call, a response whose text cannot be read or a parse error drops the whole batch; a mapping error drops that batch's answers from the failing item on, and the answers of earlier items stay |
| AdditionalDoc.ExtractAnswersFromDocument | additional_doc.py:198-266 | the batch loop computes `DocumentAnswers`; no questions give no answers |
| AdditionalDoc.BatchesStart | additional_doc.py:209-210 | the loop invariant holds before the first batch |
| AdditionalDoc.BatchesDone | additional_doc.py:209-210 | the invariant at the end gives the whole answer list |
| AdditionalDoc.AnswersOverAdvance | additional_doc.py:209-210 | one batch of the loop keeps the invariant |
| AdditionalDoc.AnswersOverFrom | additional_doc.py:209-210 | from position `i`, the answers are those of the next up to five questions followed by the later batches' |
| AdditionalDoc.DocBatchAsked | additional_doc.py:249-260 | a batch's answers are for questions of that batch |
| AdditionalDoc.AnswersOverAsked | additional_doc.py:209-260 | when each step keeps to its batch, every answer is for a question of some batch |
| AdditionalDoc.DocumentAnswersAsked | additional_doc.py:198-266 | every answer found in a document is for one of the questions asked |
| AdditionalDoc.RequirementPairs | additional_doc.py:280-283 | for truthy requirements, the prompt lists `id` and `text` (defaults `''`) of the first ten, each a dict |
| AdditionalDoc.DocumentKeysDiffer | additional_doc.py:324-329 | the five keys a document tag writes are distinct |
| AdditionalDoc.DocumentTagSets | additional_doc.py:324-329 | a document tag sets `source` to the base name, `source_text`, `status` `unanswered`, `additional_document` to the path and `source_type` `document`, and keeps every other key |
| AdditionalDoc.DocumentTagNames | additional_doc.py:324-329 | a tagged question names its document |
| AdditionalDoc.GenerateQuestionsFromDocument | additional_doc.py:268-335 | the method computes `DocumentQuestions`; any error gives `[]` |
| AdditionalDoc.DocumentQuestionsTagged | additional_doc.py:268-335 | every question generated from a document names that document |
| AdditionalDoc.WithDocument | additional_doc.py:258 | each answer is paired with its source document |
| AdditionalDoc.ReadDocument | additional_doc.py:79-125 | one document computes `DocumentStep`: no content adds nothing, an error adds an error report, otherwise answers, questions and a report |
| AdditionalDoc.ReadDocuments | additional_doc.py:76-125 | the document loop computes `DocumentsPass` |
| AdditionalDoc.JoinEmpty | additional_doc.py:76-125 | joining onto an empty pass changes nothing |
| AdditionalDoc.JoinEmptyRight | additional_doc.py:76-125 | joining an empty pass changes nothing |
| AdditionalDoc.JoinAssoc | additional_doc.py:76-125 | joining passes is associative |
| AdditionalDoc.SumOfAppend | additional_doc.py:107-109 | sums over reports add up over concatenation |
| AdditionalDoc.CountExtractedAppend | additional_doc.py:167 | the count of extracted reports adds up over concatenation |
| AdditionalDoc.DocumentsPassCounts | additional_doc.py:76-125 | one report per document that yielded content or raised; `documents_processed` counts exactly the documents read; the reports' answer and question counts sum to the collected lists; an error report counts nothing |
| AdditionalDoc.DocumentsPassAsked | additional_doc.py:76-125 | every collected answer names a listed document and an existing question |
| AdditionalDoc.DocumentsPassTagged | additional_doc.py:76-125 | every new question names one of the listed documents |
| AdditionalDoc.StatusFor | additional_doc.py:146-149 | a status is set iff the confidence compares as a number; it is `answered` iff the confidence is above 0.8, else `partially_answered` |
| AdditionalDoc.QuestionsAfterLength | additional_doc.py:129-151 | the status updates keep the number of questions |
| AdditionalDoc.QuestionsAfterUnnamed | additional_doc.py:129-151 | a question no stored answer names keeps its row |
| AdditionalDoc.LastStoredAnswerDecides | additional_doc.py:143-149 | the last stored answer to a question decides its status: `answered` iff its confidence is above 0.8 |
| AdditionalDoc.StoreOneAnswer | additional_doc.py:130-151 | one document reference row is appended; the answer row is appended iff the answer binds, naming the question and the reference; the status update follows a stored answer |
| AdditionalDoc.StoreStep | additional_doc.py:129-151 | one turn of the answer loop extends the reference and answer invariants |
| AdditionalDoc.StoreAnswerAt | additional_doc.py:129-151 | one turn of the loop keeps the loop's row invariants from `j` to `j + 1` |
| AdditionalDoc.StoreDocumentAnswers | additional_doc.py:127-151 | one reference row per answer; the count is the number of stored answers; old answers are kept and each new one names its question and reference; statuses follow `QuestionsAfter` |
| AdditionalDoc.AnswersForAsked | additional_doc.py:129-151 | the answers stored are for questions the found answers name |
| AdditionalDoc.RunDocuments | additional_doc.py:71-171 | success with the pass's reports; `documents_processed` counts the documents read; `PassStored`: one document reference row per found answer, in order, an answer row for each stored answer against its reference row, the question table equal to the statuses the answer loop sets (`QuestionsAfter`) followed by the new questions inserted for the project, `answers_found` and `new_questions_generated` the rows added; every answer added is for an existing question |
| AdditionalDoc.ProcessAdditionalDocuments | additional_doc.py:36-179 | an unknown project or one without SOW data is an error that changes nothing; a success reports the pass over the project's unanswered questions and SOW data, and `PassStored` gives the exact question table, the reference rows and the answer rows it leaves, with the counts; every answer added is for an unanswered question of the project |
| SowParser.SplitSections | sow_parser.py:185-204 | the heuristic splitting loop computes `HeadingSections` |
| SowParser.SomeWithPrefixSnoc | sow_parser.py:190-200 | a line with some property occurs in a list with one more line iff it occurred before or is that last line |
| SowParser.SplitRunCurrent | sow_parser.py:190-198 | after any lines the current section is the name of the last heading, or `Introduction` |
| SowParser.SetHasKey | sow_parser.py:194 | after an assignment a key is present iff it is the key assigned or was present |
| SowParser.HasLineInSnoc | sow_parser.py:190-200 | a line appended to the text adds its section to those holding a line iff it is not a heading |
| SowParser.FlushedKey | sow_parser.py:190-204 | a section is recorded iff some line that is not a heading falls in it |
| SowParser.HeadingSectionKeys | sow_parser.py:185-204 | the heuristic records a section exactly when at least one non-heading line falls in it (text before the first heading falls in `Introduction`) |
| SowParser.NoHeadingRun | sow_parser.py:190-200 | without headings every line goes to `Introduction` |
| SowParser.NoHeadingWholeText | sow_parser.py:185-204 | a reply without headings is kept whole as the single section `Introduction` |
| SowParser.Sections | sow_parser.py:132-214 | a failed model call, or a response whose text cannot be read, raises with its own message; otherwise the sections are always a dict |
| SowParser.SectionsTiers | sow_parser.py:165-214 | a fence whose body does not decode to a dict gives `Full Document` with the whole text; without a fence, an undecodable reply, or a decoded value without a length, goes to the heading splitter |
| SowParser.Relevant | sow_parser.py:221-227 | the relevant sections are exactly those whose lower-cased name contains a keyword, in order |
| SowParser.ChosenSections | sow_parser.py:221-232 | the prompt carries the relevant sections, or all sections when none is relevant; it is empty only when there are no sections |
| SowParser.ChooseSections | sow_parser.py:221-232 | the collecting loop computes `ChosenSections` |
| SowParser.DefaultAll | sow_parser.py:320-322 | every listed key is present afterwards, present keys keep their values, missing ones get the default, and nothing else changes |
| SowParser.CompleteRequirement | sow_parser.py:319-324 | a completed requirement holds `id`, `text`, `section` and `clarity` (and `reason` when ambiguous), and keeps every field it had |
| SowParser.CompleteRequirementDefaults | sow_parser.py:320-322 | a missing required field becomes `Unknown <field>` |
| SowParser.CompleteRequirementReason | sow_parser.py:323-324 | a supplied reason is `No reason provided` |
| SowParser.CompleteRequirementKeys | sow_parser.py:319-324 | the completion adds no key but the required fields and the reason |
| SowParser.ReasonNotRequired | sow_parser.py:320-323 | `reason` is not among the required fields |
| SowParser.ReasonGiven | sow_parser.py:323-324 | an ambiguous requirement gets a reason; present keys are kept; only `reason` may change, and then to `No reason provided` |
| SowParser.FirstNonDict | sow_parser.py:319 | the first item that is not a dict, or the number of items |
| SowParser.UpdateDicts | sow_parser.py:319-324 | updating each dict succeeds iff every item is a dict, and then updates each in order; otherwise it raises the error of the first non-dict item |
| SowParser.UpdateEachDict | sow_parser.py:319-324 | the loop computes `UpdateDicts` |
| SowParser.CompleteParsed | sow_parser.py:319-324 | a list succeeds iff all its items are dicts, and then becomes the list of completed requirements; a non-list succeeds only when empty and is returned as it is; a value that cannot be iterated raises |
| SowParser.RequirementsShape | sow_parser.py:216-329 | a successful requirements step is a list of complete requirement dicts, or an empty non-list value; a failed model call or an unreadable response raises its own error |
| SowParser.Requirements | sow_parser.py:216-329 | the step succeeds only when the model call returns readable text; `RequirementsShape` states the shape of the result |
| SowParser.RequirementScannerShape | sow_parser.py:293-305 | the requirement heuristic opens records with the `id` key only and accepts only `text`, `section`, `clarity` and `reason` besides |
| SowParser.ManualRequirementIds | sow_parser.py:288-309 | without fence or JSON the requirements are one completed dict per line starting `REQ-` or `- ID: REQ-`, in order, each with that stripped line as its id |
| SowParser.ZoneItemsPartition | sow_parser.py:399-433 | every bullet line lands in at most one of the three lists |
| SowParser.NoMarkerNoItems | sow_parser.py:399-433 | bullets before the first marker line are dropped |
| SowParser.ZoneStep | sow_parser.py:405-433 | one more line changes the zone only when it is a marker, and adds its item only to the current zone's list |
| SowParser.ScanBoundaries | sow_parser.py:399-433 | the loop fills each list with the items of its zone, in order |
| SowParser.Strings | sow_parser.py:429-433 | the items become JSON strings, in order |
| SowParser.FirstUnsized | sow_parser.py:447-449 | the summary fails exactly on the first boundary value without a length |
| SowParser.EnsureBoundaryKeys | sow_parser.py:443-449 | a successful check started from a dict and holds each key, with missing keys defaulted to `[]` |
| SowParser.DictKeysEnsured | sow_parser.py:443-449 | on a dict the check defaults missing keys and requires a length for each |
| SowParser.EnsureBoundaryKeysOk | sow_parser.py:443-449 | a dict whose present boundary keys have sized values passes the check |
| SowParser.DictChecked | sow_parser.py:443-449 | a dict goes through the dict branch of the check |
| SowParser.DictKeysOk | sow_parser.py:443-449 | when every defaulted value has a length, the check returns the defaulted dict |
| SowParser.DefaultsSized | sow_parser.py:443-449 | defaulting with `[]` keeps every value sized when the present ones are |
| SowParser.BoundariesSized | sow_parser.py:331-451 | a successful boundary result holds the three keys, each with a sized value |
| SowParser.BoundariesKeys | sow_parser.py:331-451 | a successful result holds the three keys; a reply without fence or JSON gives the manual parse |
| SowParser.Boundaries | sow_parser.py:331-451 | the step succeeds only when the model call returns readable text; `BoundariesSized` and `BoundariesKeys` state the keys of the result |
| SowParser.ManualBoundariesAccepted | sow_parser.py:399-449 | the manual parse passes the key check unchanged |
| SowParser.ManualBoundariesShape | sow_parser.py:333-337 | the manual parse holds the three keys, each with a list |
| SowParser.PresentKeysChecked | sow_parser.py:443-449 | a dict holding every key with a sized value passes unchanged |
| SowParser.ParseSow | sow_parser.py:25-74 | only `.pdf`, `.docx` and `.doc` in any case are read, any other extension raises naming it; a success holds the extracted text, its sections, the requirements and boundaries of those sections, with all three boundary keys |
| FileProcessing.Root | file_processing.py:1281 | the root followed by the extension is the path |
| FileProcessing.PdfPath | file_processing.py:1278-1290 | a target is produced iff the lower-cased extension is `.docx`, `.doc`, `.pptx` or `.ppt`, and it is the root followed by `.pdf` |
| FileProcessing.PdfPathExtension | file_processing.py:1281 | the converted file keeps its root and has the extension `.pdf` |
| FileProcessing.RootPlusPdf | file_processing.py:1281 | `.pdf` after an ordinary root is that name's extension |
| FileProcessing.PdfSuffixShape | file_processing.py:1281 | `.pdf` is an extension: a dot followed by no dot or slash |
| FileProcessing.SingleWords | file_processing.py:1351 | the single-word keywords are exactly the cleaned words that are not stop words and are longer than three characters |
| FileProcessing.Bigrams | file_processing.py:1355-1357 | the two-word phrases are exactly the cleaned joins of adjacent words |
| FileProcessing.Trigrams | file_processing.py:1359-1361 | the three-word phrases are exactly the cleaned joins of adjacent triples |
| FileProcessing.Dedup | file_processing.py:1364 | duplicates are removed and the same elements remain |
| FileProcessing.Words | file_processing.py:1350 | the words are non-empty and hold no white space |
| FileProcessing.KeywordsWith | file_processing.py:1342-1366 | each candidate (kept word, pair or triple, cleaned) occurs once, and nothing else |
| FileProcessing.Keywords | file_processing.py:1342-1366 | `extract_keywords` returns no keyword twice; `KeywordsWith` states which candidates it holds |
| FileProcessing.AppendPairs | file_processing.py:1355-1357 | the pair loop appends the pairs in order |
| FileProcessing.AppendTriples | file_processing.py:1359-1361 | the triple loop appends the triples in order |
| FileProcessing.ExtractKeywords | file_processing.py:1342-1366 | `extract_keywords` computes `Keywords` |
| FileProcessing.FirstOccurrence | file_processing.py:1322-1323 | the first case-insensitive occurrence at or after the start, or none |
| FileProcessing.ReachBack | file_processing.py:1322 | a leading `.{0,100}` takes at most a hundred characters, none across a newline, and stops only at the limit, the start or a newline |
| FileProcessing.ReachForward | file_processing.py:1322 | a trailing `.{0,100}` takes at most a hundred characters, none across a newline, stopping only at the limit, the end or a newline |
| FileProcessing.ReachForwardCovers | file_processing.py:1322 | the trailing run reaches every index within a hundred characters on the same line |
| FileProcessing.LastOccurrence | file_processing.py:1322 | the greedy prefix backtracks to the last occurrence in range |
| FileProcessing.NextMatch | file_processing.py:1322-1323 | a next match exists iff the keyword occurs again; it then contains an occurrence and spans at most 200 characters plus the keyword |
| FileProcessing.StripSpan | file_processing.py:1325 | `strip()` keeps a slice with only blanks cut from both ends |
| FileProcessing.StrippedOccurrence | file_processing.py:1325 | stripping a text that contains the keyword keeps the stripped keyword, up to case |
| FileProcessing.MatchHoldsKeyword | file_processing.py:1322-1325 | the stripped text of a match holds the stripped keyword, up to case |
| FileProcessing.ContextsHoldKeyword | file_processing.py:1323-1326 | every recorded context is non-empty and holds the keyword up to case and its outer blanks |
| FileProcessing.Contexts | file_processing.py:1322-1330 | every context kept from `re.finditer` is non-empty; `ContextsHoldKeyword` states that each holds the keyword |
| FileProcessing.Put | file_processing.py:1334 | `d[k] = v` compares keys by Python equality, where `1`, `1.0` and `True` are one key: an existing equal key keeps its place and its own form and takes the new value, a new key is appended at the end, and the keys stay pairwise unequal |
| Json.KeyOf | file_processing.py:1334 | `False`, `0` and `0.0` fall in one key class, as do `True`, `1` and `1.0`; every other value is its own class |
| FileProcessing.PutStores | file_processing.py:1334 | after `d[k] = v` some key equal to `k` holds `v` |
| FileProcessing.PutSameClass | file_processing.py:1334 | the entry whose key equals `k` holds `v`, under the key the dict already had, or under `k` itself when no equal key was there |
| FileProcessing.PutOtherClass | file_processing.py:1334 | every entry whose key differs from `k` is in the dict after `d[k] = v` iff it was before |
| FileProcessing.Tagged | file_processing.py:1327-1330 | each context is recorded with its keyword, in order |
| FileProcessing.KeywordMatches | file_processing.py:1316-1330 | keywords shorter than four characters give nothing; every match names the keyword and one of its contexts |
| FileProcessing.MatchesForNext | file_processing.py:1316-1330 | one more keyword appends its matches |
| FileProcessing.MatchesForSound | file_processing.py:1316-1330 | every match names a listed keyword of at least four characters and a non-empty context holding it |
| FileProcessing.AppendTagged | file_processing.py:1323-1330 | the innermost loop appends each context as a match |
| FileProcessing.MatchKeywords | file_processing.py:1315-1330 | the keyword loop computes `MatchesFor` |
| FileProcessing.RequirementMatches | file_processing.py:1304-1330 | one requirement raises iff it is not a dict or its text is not a string; a blank text gives no matches |
| FileProcessing.RequirementMatchesSound | file_processing.py:1304-1330 | every match of a requirement names a keyword of at least four characters and a non-empty context holding it, up to case |
| FileProcessing.MatchAll | file_processing.py:1303-1334 | the loop yields nothing exactly when some requirement raises; otherwise its keys are pairwise unequal as Python dict keys |
| FileProcessing.MatchAllStep | file_processing.py:1303-1334 | one more requirement stores its non-empty matches under its id as `d[k] = v` does, or changes nothing when it found none |
| FileProcessing.MatchAllLast | file_processing.py:1303-1334 | the loop over all requirements is the loop over all but the last, followed by the last one's store when it found matches |
| FileProcessing.MatchAllStored | file_processing.py:1332-1334 | every stored entry holds the non-empty matches of the last requirement whose id equals its key as a dict key; no later requirement with an equal id found matches, so a later equal id overwrites the value |
| FileProcessing.MatchAllFirstKey | file_processing.py:1332-1334 | every stored key is the id of the first requirement of its key class that found matches; a later equal id (`True` after `1`) does not replace it |
| FileProcessing.FirstOfClass | file_processing.py:1332-1334 | a last requirement that stores under a key class the earlier ones left empty is the first of its class to store |
| FileProcessing.MatchAllComplete | file_processing.py:1332-1334 | every requirement that found matches has a key equal to its id stored |
| FileProcessing.MatchRequirementsSound | file_processing.py:1292-1340 | every stored match is non-empty and holds its keyword up to case and outer blanks |
| FileProcessing.MatchRequirements | file_processing.py:1292-1340 | the result's keys are pairwise unequal as dict keys; `MatchRequirementsSound` and `MatchRequirementsKeys` state what it holds |
| FileProcessing.MatchRequirementsWith | file_processing.py:1292-1340 | with any keyword extractor, the result's keys are pairwise unequal as dict keys |
| FileProcessing.MatchAllSound | file_processing.py:1303-1334 | the matches stored by the loop are sound |
| FileProcessing.MatchAllKeys | file_processing.py:1303-1334 | a key equal to `key` as a dict key is stored iff a requirement whose id equals `key` found matches |
| FileProcessing.EqualIdsMerge | file_processing.py:1303-1334 | two requirements whose ids are equal as dict keys (`1` and `True`) that both find matches leave one entry: the first one's id holding the second one's matches |
| FileProcessing.MatchRequirementsKeys | file_processing.py:1292-1340 | unless some requirement raises, a key equal to `id` as a dict key is stored iff a requirement whose id equals it found matches |
| FileProcessing.FindRequirementMatches | file_processing.py:1304-1330 | one pass of the outer loop computes the requirement's matches |
| FileProcessing.MatchRequirementsToDocument | file_processing.py:1292-1340 | the method computes `MatchRequirements`: `{}` when any iteration raises, and otherwise one entry per key class of the ids that found matches |
| FileProcessing.MatchOneRequirement | file_processing.py:1303-1334 | one round either raises, and then the whole loop yields nothing, or extends the loop result by one requirement |
| FileProcessing.SpaceEdgedKeyword | file_processing.py:1355-1357 | as written, the text `data .` yields the keyword `data ` with a trailing blank |
| FileProcessing.PairDotStripped | file_processing.py:1356-1357 | a word followed by a lone full stop loses only the stop, keeping the joining blank |
| FileProcessing.SpaceEdgedContext | file_processing.py:1322-1326 | as written, a keyword ending in the joining blank found at the end of the document is stripped out of its own context: the context does not hold it |
| FileProcessing.StripTrailingSpace | file_processing.py:1325 | stripping a word followed by a blank gives the word |
| FileProcessing.TrimmedEnds | file_processing.py:1355-1361 | stripping blanks with the punctuation leaves no outer blank on a phrase |
| FileProcessing.TrimmedKeywordsTrimmed | file_processing.py:1342-1366 | with blanks stripped too, every keyword is its own stripped form |
| FileProcessing.TrimmedMatchesHoldKeyword | file_processing.py:1292-1340 | with blanks stripped from the keywords, every stored context holds its keyword up to case |
| FileProcessing.MatchAllHoldKeyword | file_processing.py:1303-1334 | with keywords free of outer blanks, every stored context holds its keyword |
| DiscoveryAccelerator.FirstUnlisted | discovery_accelerator.py:115-118 | the first match list that cannot be iterated, or the number of entries |
| DiscoveryAccelerator.ConcatForAbsent | discovery_accelerator.py:115-118 | an id not given contributes nothing |
| DiscoveryAccelerator.HasKeySnoc | discovery_accelerator.py:115-118 | an id is among one more entry iff it was before or is that entry's |
| DiscoveryAccelerator.ExtendLookup | discovery_accelerator.py:116-118 | one round sets the id's list to the old one extended, changes no other id and keeps ids distinct |
| DiscoveryAccelerator.MergedRaises | discovery_accelerator.py:112-118 | the merge raises exactly when some match list cannot be iterated, naming the first such list |
| DiscoveryAccelerator.MergedSound | discovery_accelerator.py:112-118 | otherwise each given requirement id maps, once, to the concatenation of all its lists, and no other id is present |
| DiscoveryAccelerator.MergeEntries | discovery_accelerator.py:115-118 | the merge loop computes `Merged` |
| DiscoveryAccelerator.MergeRequirementMatches | discovery_accelerator.py:112-118 | the guarded merge computes `MergedMatches` |
| DiscoveryAccelerator.ParsedSow | discovery_accelerator.py:61-62 | a successful parse is `parse_sow`'s result and its requirements have a length |
| DiscoveryAccelerator.SowDictKeys | sow_parser.py:69-74 | the parsed dict holds the sections, requirements, boundaries and full text, and no matches |
| DiscoveryAccelerator.LookupFirst | discovery_accelerator.py:115-118 | a lookup finds the first entry with the key |
| DiscoveryAccelerator.UpsertHoldsSow | discovery_db.py:124-161 | upserting the parsed values makes the record read back hold them |
| DiscoveryAccelerator.ParsedSowKept | discovery_accelerator.py:66 | storing the parsed dict, which has no matches, leaves every key of the caller's dict as it was |
| DiscoveryAccelerator.MergedSowKept | discovery_accelerator.py:121-125 | after the merged matches are put into the dict, the store reads back the parsed values, and the dict keeps its matches iff they are non-empty |
| DiscoveryAccelerator.StoreParsedSow | discovery_accelerator.py:66 | the first store makes the project's SOW record hold the parsed values and keeps every key of the dict |
| DiscoveryAccelerator.StoreMergedSow | discovery_accelerator.py:121-125 | the second store keeps the SOW record's parsed values; the dict returned agrees with the parsed SOW on every key but `requirement_matches`, and holds the matches under that key iff they are non-empty |
| DiscoveryAccelerator.ProcessDocuments | discovery_accelerator.py:40-144 | exactly one project is appended, with a fresh id, and stays whatever fails; a parse failure is reported and stores no SOW; a merge failure is reported; a success names the project, its SOW record holds the parsed values, and the returned SOW data agrees with the parsed SOW on every key but `requirement_matches`, which holds the merged matches iff there are some; no question, transcript, answer or new information changes |
| DiscoveryAccelerator.ProjectOf | discovery_accelerator.py:165-166 | a project is found iff some row has the id, and it is such a row |
| DiscoveryAccelerator.ProjectOfNewest | discovery_accelerator.py:165-166 | a project with an id above all earlier ones is the one found for that id |
| DiscoveryAccelerator.GenerateQuestions | discovery_accelerator.py:146-219 | as written: an unknown project is an error naming its id; a known one always fails with the generator's wrong-number-of-arguments error, so no question is ever generated |
| DiscoveryAccelerator.QuestionRowsForProject | discovery_db.py:277-300 | a non-zero 64-bit project id becomes the `project_id` of every row stored for it |
| DiscoveryAccelerator.QuestionsAppended | discovery_db.py:275-306 | inserting questions appends one row per returned id and keeps the earlier rows |
| DiscoveryAccelerator.StoredForProject | discovery_db.py:275-306 | every row inserted for a valid project id belongs to that project |
| DiscoveryAccelerator.StoreForProject | discovery_accelerator.py:188 | the rows are appended after the others, each for the project |
| DiscoveryAccelerator.GenerateQuestionsIntended | discovery_accelerator.py:146-219 | as intended: an unknown project is an error; a generation error is reported with the project; a success returns the generated list and appends its count of rows, all for the project |
| DiscoveryAccelerator.AnsweredPairs | discovery_accelerator.py:274-284 | the join yields exactly the (question id, answer text) of the transcript's answers whose question exists |
| DiscoveryAccelerator.FollowupsFor | discovery_accelerator.py:287-290 | the result is `Fold` of `FollowupStep` over the answered pairs (each pair's follow-ups in order; the first exception ends it) and the question table is the one the steps taken leave (`FoldState`), the raising step included; every collected follow-up names one of the answered questions as its parent; only the question table changes |
| DiscoveryAccelerator.FollowupRunParents | discovery_accelerator.py:287-290 | every follow-up the loop collects names the question of one of the pairs as its parent |
| DiscoveryAccelerator.ProcessMeetingTranscript | discovery_accelerator.py:251-312 | a handled reply carries the discovery status afterwards; without unanswered questions nothing changes and the reply is unprocessed with no follow-ups; otherwise one transcript row for the project and text is appended and `MeetingStored` holds: an extraction error stores nothing more; else the answer and new-information tables are exactly as `process_transcript` leaves them, and after a new-information error the questions are unchanged; after success `FollowupsStored` gives the follow-up loop's status updates and rows, the follow-ups stored again under the project, and the reply's counts and list |
| DiscoveryAccelerator.MeetingStoredFacts | discovery_accelerator.py:251-312 | from `MeetingStored`: the answer rows added follow the old ones and are all for the new transcript; a handled reply is processed, counts exactly the answers added and its follow-ups, and every follow-up names as parent a question one of those answers answered |
| DiscoveryAccelerator.MeetingFromParts | discovery_accelerator.py:251-312 | `process_transcript`'s tables and result, followed by the follow-up stage on them, give `MeetingStored` |
| DiscoveryAccelerator.FollowupsOfTranscript | discovery_accelerator.py:266-305 | `FollowupsStored`: the loop runs over the transcript's answered pairs; if it raises, the reply fails and what it stored stays; otherwise its follow-ups are appended under the project and reported with their count and the answers found; each follow-up names a question answered in the transcript; the status is read afterwards; no other table changes |
| DiscoveryAccelerator.StartDiscovery | discovery_accelerator.py:221-249 | one project is appended; a parse failure is returned as the processing reply; a missing `SOW.txt` raises; otherwise the question step fails as written; no other table changes |
| DiscoveryReport.SqlLeChain | discovery_accelerator.py:331 | the SQLite order is transitive, stated unconditionally |
| DiscoveryReport.ThenByPreorder | discovery_accelerator.py:331-337 | ordering by a column and then by further columns is a preorder |
| DiscoveryReport.QuestionOrdersPreorder | discovery_accelerator.py:331-337 | `ORDER BY priority, id` and `ORDER BY status, priority, id` are preorders |
| DiscoveryReport.RowsOf | discovery_accelerator.py:340 | the listing's rows, in order |
| DiscoveryReport.TranscriptIndex | discovery_accelerator.py:349 | the transcript with the rowid, or none |
| DiscoveryReport.LatestAnswer | discovery_accelerator.py:345-358 | an answer is attached iff the question has one whose transcript exists; it is then the one with the largest rowid, with its transcript's meeting date |
| DiscoveryReport.GetCurrentQuestions | discovery_accelerator.py:314-361 | the rows are sorted by the query's order and are a permutation of the project's questions (with the given status only, when one is given); each carries the latest answer when answered or partially answered |
| DiscoveryReport.AttachAnswers | discovery_accelerator.py:343-358 | the rows are kept and each gets the answer `AttachedAnswer` defines |
| DiscoveryReport.GroupIndex | discovery_accelerator.py:410 | the group of a status, or none |
| DiscoveryReport.HavingStatus | discovery_accelerator.py:407-412 | the reference: exactly the listed questions with the status |
| DiscoveryReport.TotalSizeUpdate | discovery_accelerator.py:412 | appending to one group adds one question in total |
| DiscoveryReport.HavingNone | discovery_accelerator.py:410-411 | a status no listed question has selects nothing |
| DiscoveryReport.HavingSnoc | discovery_accelerator.py:408-412 | appending a question extends its status's list and leaves the others |
| DiscoveryReport.AddKeysDistinct | discovery_accelerator.py:410-411 | a new group is made only for a status that had none |
| DiscoveryReport.AddExact | discovery_accelerator.py:408-412 | each group stays exactly the questions of its status |
| DiscoveryReport.AddCovers | discovery_accelerator.py:408-412 | every listed question's status keeps a group |
| DiscoveryReport.AddTotal | discovery_accelerator.py:408-412 | each round puts the question in exactly one group |
| DiscoveryReport.AddKeepsGroups | discovery_accelerator.py:408-412 | one round keeps the grouping invariant |
| DiscoveryReport.StatusGroupsCorrect | discovery_accelerator.py:407-412 | the grouping holds exactly the listed questions, each in its status's group, with distinct statuses |
| DiscoveryReport.GroupByStatus | discovery_accelerator.py:407-412 | the grouping loop keeps that promise |
| DiscoveryReport.LenOf | discovery_accelerator.py:442-446 | `len` succeeds iff the value has a length, and otherwise raises |
| DiscoveryReport.BoundaryCount | discovery_accelerator.py:444-446 | `.get` on boundaries that are not a dict raises; otherwise the count is `len` of the list, default `[]` |
| DiscoveryReport.SummaryOfCorrect | discovery_accelerator.py:441-447 | a missing SOW raises; the summary succeeds iff each `len` and `.get` does, and then counts the sections, the requirements and each boundary list |
| DiscoveryReport.SummaryOf | discovery_accelerator.py:441-447 | a summary exists only for a held SOW whose boundaries are a dict; `SummaryOfCorrect` states exactly when it exists and what it counts |
| DiscoveryReport.StoredSowSummarised | discovery_accelerator.py:441-447 | a SOW stored by document processing always has a summary, counting its sections |
| DiscoveryReport.SummaryOfHolds | discovery_accelerator.py:441-447 | a held SOW with sized requirements and boundary lists has a summary |
| DiscoveryReport.ReportOrdersPreorder | discovery_accelerator.py:415-426 | `ORDER BY meeting_date` and `ORDER BY priority` are preorders |
| DiscoveryReport.GenerateDiscoveryReport | discovery_accelerator.py:375-467 | an unknown project is `Project not found`; a failing summary is reported; otherwise the report names the project, the status and the summary; its groups hold each question of the project once, under distinct statuses, with a count per group; transcripts and new information are sorted permutations of the project's |
| DiscoveryReport.SummariseQuestions | discovery_accelerator.py:404-455 | the total is the number of the project's questions; the groups have distinct statuses, are non-empty, count their members and together hold every question of the project with its answer |
| DiscoveryReport.ListingCovered | discovery_accelerator.py:404-412 | the groups of the full listing hold exactly the project's questions, with their answers |
| ProjectApi.SanitizeFilename | project_api.py:103-105 | the result never lengthens the name and holds a character iff the name holds it and it is alphanumeric, `-` or `_` |
| ProjectApi.SanitizeIsFilter | project_api.py:103-105 | sanitising keeps exactly the safe characters, in their original order |
| ProjectApi.FilterAppend | project_api.py:103-105 | filtering the safe characters distributes over concatenation |
| ProjectApi.SanitizeAppend | project_api.py:103-105 | sanitising a concatenation is the concatenation of the sanitised parts |
| ProjectApi.SanitizeChar | project_api.py:103-105 | a single character survives iff it is safe |
| ProjectApi.FilterSafeFixed | project_api.py:103-105 | a name made only of safe characters comes back unchanged |
| ProjectApi.SanitizeIdempotent | project_api.py:103-105 | sanitising twice is the same as sanitising once |
| ProjectApi.ProjectNames | project_api.py:212-237 | the loop collects at most one name per listed entry |
| ProjectApi.ListProjects | project_api.py:191-254 | a raising listing gives `warning` with `[]` and its message; a None listing fails at `len()` before the None check and so also gives `warning` with `[]`; any list gives `success` with the names the loop collects |
| ProjectApi.ProjectNamesAppend | project_api.py:212-237 | the names of a concatenated listing are the concatenation of the names of its parts |
| ProjectApi.SkippedEntriesDropped | project_api.py:215-217 | None entries and whitespace-only strings contribute no name |
| ProjectApi.TextEntries | project_api.py:220-221 | a listing of plain strings, one entry per string in the same order |
| ProjectApi.AllKept | project_api.py:212-237 | when every entry yields a name, the result is exactly those names in order |
| ProjectApi.TextsKept | project_api.py:215-221 | non-blank strings are all kept, unchanged and in order |
| ProjectApi.TextEntryVerbatim | project_api.py:220-221 | a non-blank string is kept as is, without stripping |
| ProjectApi.RenderedBound | project_api.py:228-233 | an object without `name` is shown by its `str()`, unchanged up to 100 characters and otherwise cut to its first 100 characters followed by `...` |
| FileUtils.UnsignedShift | discovery-accelerator/lib/fileUtils.js:59 | `x >>> 0` is below 2^32, leaves a non-negative 32-bit value alone and adds 2^32 to a negative one |
| FileUtils.SliceFrom | discovery-accelerator/lib/fileUtils.js:59 | `slice(start)` is the suffix from `start`, and empty when `start` is past the end |
| FileUtils.GetFileExtension | discovery-accelerator/lib/fileUtils.js:58-60 | the extension is no longer than the name and holds no upper-case letter; its value is stated by `ExtensionAfterLastDot` and `ExtensionOfJoined` |
| FileUtils.SliceStart | discovery-accelerator/lib/fileUtils.js:59 | the slice starts just after a dot that is not the first character; with no dot or only a leading one the shift pushes the start past the end |
| FileUtils.LowerDotFree | discovery-accelerator/lib/fileUtils.js:59 | lower-casing a dot-free text gives a dot-free text |
| FileUtils.ExtensionAfterDot | discovery-accelerator/lib/fileUtils.js:58-60 | with a dot after the first character, the extension is the lower-cased text after the last dot |
| FileUtils.ExtensionWithoutDot | discovery-accelerator/lib/fileUtils.js:58-60 | with no dot, or only a leading one, the extension is empty |
| FileUtils.ExtensionAfterLastDot | discovery-accelerator/lib/fileUtils.js:58-60 | both cases together, and the extension itself never holds a dot |
| FileUtils.ExtensionOfJoined | discovery-accelerator/lib/fileUtils.js:58-60 | the extension of `stem.ext` with a non-empty stem is `ext` lower-cased |
| FileUtils.IsDocument | discovery-accelerator/lib/fileUtils.js:67-70 | a document has a non-empty extension; `DocumentByExtension` states which names are documents |
| FileUtils.IsImage | discovery-accelerator/lib/fileUtils.js:77-80 | an image has a non-empty extension; `DocumentByExtension` states which names are images and `DocumentNotImage` that no file is both |
| FileUtils.DocumentNotImage | discovery-accelerator/lib/fileUtils.js:67-80 | no file is both a document and an image |
| FileUtils.DocumentByExtension | discovery-accelerator/lib/fileUtils.js:67-80 | `stem.ext` is a document iff `ext` lower-cased is `pdf` or `docx`, and an image iff it is `jpg`, `jpeg`, `png`, `gif` or `bmp` |
| FileUtils.FormatFileSize | discovery-accelerator/lib/fileUtils.js:103-104 | a size of 0 is shown as `0 Bytes` |
| ApiClient.UploadExtension | discovery-accelerator/lib/api.js:117 | the extension checked is the lower-cased text from the last `.` on, dot included, holding no other dot; a name without a dot is checked whole |
| ApiClient.ValidProjectId | discovery-accelerator/lib/api.js:358 | only a non-zero number passes `!projectId \|\| isNaN(projectId)`, so the id written into a request path is never `0` or `NaN` |
| ApiClient.NonZeroText | discovery-accelerator/lib/api.js:358 | a non-zero number is written neither as `0` nor as `NaN` |
| ApiClient.LowerFromLastDot | discovery-accelerator/lib/api.js:117 | lower-casing the whole name and then cutting at the last dot is cutting and then lower-casing |
| ApiClient.ValidateFile | discovery-accelerator/lib/api.js:91-124 | a value is accepted iff it is a `File` of 1 to 100·1024·1024 bytes whose MIME type or extension is on the allowed lists |
| ApiClient.SizeLimitInclusive | discovery-accelerator/lib/api.js:100-103 | a file of exactly 100 MiB passes; one byte more is refused as too large |
| ApiClient.CheckItems | discovery-accelerator/lib/api.js:139-146 | the loop either sorts every item into a kept file or an error line, or throws the TypeError of the first null or undefined item, which happens iff there is one |
| ApiClient.AcceptedFiles | discovery-accelerator/lib/api.js:139-146 | the accepted files are at most as many as the items |
| ApiClient.AcceptedFilesAppend | discovery-accelerator/lib/api.js:139-146 | the accepted files of a concatenation are the concatenation of the accepted files |
| ApiClient.CheckItemsAccepted | discovery-accelerator/lib/api.js:139-146 | the files the loop keeps are exactly the accepted ones, an order-preserving subsequence of the input |
| ApiClient.RaisedPersists | discovery-accelerator/lib/api.js:139-146 | once an item has thrown, later items do not change the outcome |
| ApiClient.FilesChecked | discovery-accelerator/lib/api.js:131-155 | a non-array or empty list gives `No files provided`; otherwise `totalFiles` is the input length, equal to `validCount` plus the number of errors, `validCount` counts `validFiles`, `valid` holds iff `validCount > 0`, and `validFiles` are the accepted files in input order |
| ApiClient.ValidateFiles | discovery-accelerator/lib/api.js:131-155 | the `forEach` loop pushing into `validFiles` and `errors` computes exactly that result |
| ApiClient.CheckItemsNext | discovery-accelerator/lib/api.js:140-145 | one round of the loop keeps the item, adds the error line `File <n> (<name or unnamed>): <error>`, or throws |
| ApiClient.ItemsChecked | discovery-accelerator/lib/api.js:148-154 | after the last round the returned object is built from the loop's lists |
| ApiClient.ProcessTranscriptRequest | discovery-accelerator/lib/api.js:241-252 | missing, empty or whitespace-only text throws `Transcript text is required` before any request; otherwise one POST with the id and the text unchanged |
| ApiClient.FetchQuestionsRequest | discovery-accelerator/lib/api.js:260-268 | a GET to `get_questions/<id>`, with `?status=` and the encoded status appended only when a non-empty status is given |
| ApiClient.UploadAdditionalDocumentsRequest | discovery-accelerator/lib/api.js:352-429 | a falsy or NaN id throws first, then a non-array or empty list; a request is made only with a valid id and carries exactly the accepted files, at least one |
| ApiClient.BulkProcessRequest | discovery-accelerator/lib/api.js:437-483 | a null or undefined list throws at `documents.length` before the checks; then the id and list checks as for the single upload; a request carries the id as text and exactly the accepted files, at least one |
| ApiClient.DocumentsUploadRequest | discovery-accelerator/lib/api.js:172-233 | a SOW file that fails validation throws with its reason; a request is made only when the SOW file is valid and a non-empty additional list has an accepted file, and it carries the name, the SOW file and every additional file |
| ApiClient.RefusedFilesStillSent | discovery-accelerator/lib/api.js:180-195 | a refused additional file is still sent alongside a valid one |
| FileUpload.AdditionalTypesChecked | discovery-accelerator/lib/fileUploadUtils.js:66-70 | the loop over the additional files passes iff every file's MIME type is PDF, DOCX, PPTX, JPEG or PNG |
| FileUpload.FirstRefusedReported | discovery-accelerator/lib/fileUploadUtils.js:66-70 | the error names the first file whose type is refused |
| FileUpload.ValidateFileTypes | discovery-accelerator/lib/fileUploadUtils.js:51-71 | the check passes iff the SOW is PDF or DOCX and every additional file has an allowed type; a SOW of another type is reported before any additional file |
| FileUpload.FailureText | discovery-accelerator/lib/fileUploadUtils.js:41 | the reported error is never empty: an empty message becomes the fixed fallback text |
| FileUpload.UploadProjectFiles | discovery-accelerator/lib/fileUploadUtils.js:17-44 | the upload never throws: a missing name or SOW fails with the fixed message, every failure carries a non-empty error, and success means every check passed and the request went to `start_discovery` when the flag is set and `process_documents` otherwise, its response being the data returned |
| FileUpload.SowTypeFails | discovery-accelerator/lib/fileUploadUtils.js:53-56 | a SOW that is not PDF or DOCX fails the upload with that message, whatever the other files are |
| ChartUtils.AllSlices | discovery-accelerator/lib/chartUtils.js:11-14 | the three slices Answered, Partially Answered and Unanswered, a missing count reading as 0 |
| ChartUtils.Positive | discovery-accelerator/lib/chartUtils.js:15 | the filter keeps at most the slices it is given |
| ChartUtils.PositiveMembers | discovery-accelerator/lib/chartUtils.js:15 | a slice is kept iff it is given and its value is positive |
| ChartUtils.PositiveCons | discovery-accelerator/lib/chartUtils.js:15 | the filter keeps the first slice when it is positive and then filters the rest |
| ChartUtils.PositiveOfThree | discovery-accelerator/lib/chartUtils.js:15 | filtering three slices keeps each positive one in its place |
| ChartUtils.StatusChartData | discovery-accelerator/lib/chartUtils.js:7-23 | the chart is never empty and every value in it is positive; it is the `No Questions` placeholder iff no count is positive, and otherwise holds exactly the slices with a positive count |
| ChartUtils.StatusChartOrder | discovery-accelerator/lib/chartUtils.js:11-20 | unless it is the placeholder, the chart lists Answered, Partially Answered and Unanswered in that order, each present iff its count is positive |
| ChartUtils.CompletionPercentage | discovery-accelerator/lib/chartUtils.js:85-92 | 0 for a missing status and for a total of 0 |
| ChartUtils.CompletionBounds | discovery-accelerator/lib/chartUtils.js:94-95 | with a positive total and open counts that fit in it, the percentage is between 0 and 100, is 100 when nothing is open and 0 when everything is unanswered |
| ChartUtils.Cumulative | discovery-accelerator/lib/chartUtils.js:43-50 | one point per transcript |
| ChartUtils.CumulativePoints | discovery-accelerator/lib/chartUtils.js:43-50 | each point carries its transcript's date and the answers found in every transcript up to and including it |
| ChartUtils.ByDate | discovery-accelerator/lib/chartUtils.js:36-38 | the transcripts sorted by date, a permutation of the input |
| ChartUtils.ProgressTimelineData | discovery-accelerator/lib/chartUtils.js:30-51 | a missing or empty list gives no points; otherwise the running count over the transcripts in date order |
| ChartUtils.CumulativeStep | discovery-accelerator/lib/chartUtils.js:44-48 | one round of the `map` adds this transcript's answers, 0 when missing, to the running count and emits one point |
| ChartUtils.AnswersSumGrows | discovery-accelerator/lib/chartUtils.js:44 | with counts that are not negative the running count never shrinks |
| ChartUtils.TimelineMonotone | discovery-accelerator/lib/chartUtils.js:41-50 | with counts that are not negative, `answered` never decreases along the timeline and the last point holds the total |
| ProgressUtils.Round | discovery-accelerator/lib/progressUtils.js:88 | `Math.round` gives the integer within one half of its argument, halves rounding up |
| ProgressUtils.RoundMonotone | discovery-accelerator/lib/progressUtils.js:88 | rounding preserves order |
| ProgressUtils.RatioBounds | discovery-accelerator/lib/progressUtils.js:88 | a weighted score between 0 and `m` times the total gives a ratio between 0 and `m` |
| ProgressUtils.StatusFor | discovery-accelerator/lib/progressUtils.js:90-104 | `completed` iff the percentage is at least 95, `active` iff it is from 10 to below 95 (blue iff at least 70), `pending` iff it is below 10 |
| ProgressUtils.ProgressColorMonotone | discovery-accelerator/lib/progressUtils.js:106-116 | with bar thresholds 90, 70 and 40, a higher percentage never gets a worse bar colour |
| ProgressUtils.StatusAndBarAgree | discovery-accelerator/lib/progressUtils.js:90-116 | a completed project has the best bar colour, a pending one the worst, and a blue status at least the second-best |
| ProgressUtils.ProjectCompletion | discovery-accelerator/lib/progressUtils.js:37-134 | missing data or questions give the default result; the percentage never exceeds 100; a total of 0 gives percentage 0 and status `unknown` or `no-questions`, exactly the statuses of a zero total; otherwise status and bar colour follow the thresholds |
| ProgressUtils.PercentageBounds | discovery-accelerator/lib/progressUtils.js:83-88 | for counts within a positive total the percentage is between 0 and 100, is 100 when everything is answered and 0 when nothing is answered or partial |
| ProgressUtils.Percentage | discovery-accelerator/lib/progressUtils.js:83-88 | the percentage is capped at 100; `PercentageBounds` and `PercentageMonotone` state its range and order |
| ProgressUtils.PercentageMonotone | discovery-accelerator/lib/progressUtils.js:83-88 | more answered or partial questions never lower the percentage |
| ProgressUtils.AllAnsweredCompleted | discovery-accelerator/lib/progressUtils.js:83-116 | a project with every question answered is at 100, `completed`, green, with the best bar |
| ProgressUtils.NotAnnounced | discovery-accelerator/lib/progressUtils.js:149-164 | only the 95-and-above text opens with `Discovery complete!`: the other texts open with a different character |
| ProgressUtils.AnnouncedWhenComplete | discovery-accelerator/lib/progressUtils.js:148-150 | with questions and a percentage of at least 95 the description announces completion |
| ProgressUtils.NotAnnouncedAbove70 | discovery-accelerator/lib/progressUtils.js:152-154 | from 70 to below 95 it does not |
| ProgressUtils.NotAnnouncedAbove40 | discovery-accelerator/lib/progressUtils.js:156-158 | from 40 to below 70 it does not |
| ProgressUtils.NotAnnouncedBelow40 | discovery-accelerator/lib/progressUtils.js:160-164 | below 40 it does not |
| ProgressUtils.DescriptionAnnouncesCompletion | discovery-accelerator/lib/progressUtils.js:141-165 | the description announces completion iff there are questions and the percentage is at least 95 |
| ProgressUtils.ProgressDescription | discovery-accelerator/lib/progressUtils.js:141-165 | the description is never empty; `DescriptionAnnouncesCompletion` states when it announces completion |
| ProgressUtils.DescriptionMatchesStatus | discovery-accelerator/lib/progressUtils.js:92-150 | on a computed completion the description announces completion iff the status is `completed` |
| ProgressUtils.NoQuestionsFirst | discovery-accelerator/lib/progressUtils.js:144-146 | a total of 0 is checked first: the text is `No questions available yet` whatever the percentage |
| ProgressUtils.LoadedCount | discovery-accelerator/lib/progressUtils.js:218 | at most every project has its progress loaded |
| ProgressUtils.OrganizationStats | discovery-accelerator/lib/progressUtils.js:197-247 | a missing or empty list gives all zeros and no efficiency figure; any other list has one |
| ProgressUtils.OrganizationProgress | discovery-accelerator/lib/progressUtils.js:210-246 | the `forEach` over the projects followed by the averages computes exactly those statistics |
| ProgressUtils.StatusCountsBounded | discovery-accelerator/lib/progressUtils.js:223-233 | the completed, active and pending counts together never exceed the loaded projects, nor all projects |
| ProgressUtils.UnloadedIgnored | discovery-accelerator/lib/progressUtils.js:217-239 | a project without loaded progress changes no sum or count, yet it counts in `totalProjects` and in the divisor of the average |
| ProgressUtils.CompletionSumBounds | discovery-accelerator/lib/progressUtils.js:219 | with each loaded progress between 0 and 100, the summed completion is between 0 and 100 per loaded project |
| ProgressUtils.AverageBounds | discovery-accelerator/lib/progressUtils.js:239 | with each loaded progress between 0 and 100, the average is between 0 and 100 |
| ProgressUtils.AnsweredWithinQuestions | discovery-accelerator/lib/progressUtils.js:220-221 | with answered counts within each loaded project's total, the answered sum stays within the question sum |
| ProgressUtils.EfficiencyBounds | discovery-accelerator/lib/progressUtils.js:245 | then the efficiency is between 0 and 100 |
| ProgressUtils.ValidateProgressData | discovery-accelerator/lib/progressUtils.js:274-313 | valid iff there is no error; null data and missing questions are errors on their own; otherwise the invalid-total, missing-breakdown and negative-count errors each appear iff their condition holds, an invalid total is reported first, and a status-sum/total mismatch is only a warning |

## Left out

- Language-model calls (`generate_content`) are the oracle `Llm.Model`. It maps the data each prompt interpolates to a reply or one of two errors: the call itself raised (`Failed`), or it returned a response whose `.text` raised when read (`Unreadable`). Each component routes the two as its `try` blocks do. Prompt wording, network behaviour and nondeterminism across calls are not modelled.
- `json.loads` is a decoder parameter returning an optional value, and Python's `float()` on model output is a parser parameter. JSON syntax is not modelled. `json.dumps` of a document dict is a parameter, and `str()` of other values is `Json.PyStr`, with the gaps listed on the `Json.PyStr` line below.
- Python floats and JavaScript numbers are exact rationals (`real`). Rounding error, `NaN` arithmetic and `toFixed` output are not modelled.
- Extracting text from a PDF or DOCX SOW (PyMuPDF, python-docx) is an oracle from the format and path to the text. Reading an additional document (`parse_file` of the file-processing pipeline) is an oracle from the path to its content, no content, or an error. The `docx2pdf` and `pptxtopdf` conversions are left out; only the output-path computation of `convert_to_pdf` is modelled.
- The vector-store and clustering pipeline (`ProjectDataPipeline`: ChromaDB, embeddings, DBSCAN, image handling, summarisation) is I/O plus floating-point numerics. `process_project` is modelled only by its result, which is always `None`, so the requirement-match merge in `process_documents` always yields `{}`.
- The SQL engine is replaced by in-memory tables with rowid-style ids (the largest id plus one). Statements, transactions and the schema migration script are not modelled.
- `AdditionalDoc.StoreOneAnswer`: the `except` branch of `_store_document_reference` that returns 0 is not reachable in the model, because an in-memory `store_transcript` cannot fail.
- `ORDER BY` ties and `Array.prototype.sort` ties keep input order (a stable sort). SQLite leaves the order of ties unspecified.
- `DiscoveryAccelerator.AnsweredPairs`: the join of questions and answers in `process_meeting_transcript` has no `ORDER BY`, so SQLite does not fix the order of its rows. The model takes them in the order of the answer rows, so follow-ups are generated and stored in that order.
- `Text.Lower` lower-cases ASCII letters only. Python's `str.lower()` and JavaScript's `toLowerCase()` also fold other letters (`ÉQUIPE` becomes `équipe`) and can change the length (`'İ'.lower()` has two characters). Every member that lower-cases through it inherits this: the `LineScan` keys, `SowParser` section names and extensions, `FileProcessing.Keywords` and the document extensions, the "fully answered" and "true"/"yes" checks of `QuestionGenerator` and `TranscriptAnalyzer`, `ApiClient.UploadExtension` and the `FileUtils` extension helpers.
- `ProjectApi.SanitizeFilename` counts only ASCII letters and digits as alphanumeric (`Text.IsAlnum`). Python's `str.isalnum()` also accepts other letters and digits, so `Café` keeps its `é` in the source but loses it in the model.
- `FileProcessing.FirstOccurrence` models `re.IGNORECASE` by ASCII case folding, so `KeywordMatches` and `Contexts` miss matches that differ only in the case of a non-ASCII letter.
- `ProgressUtils.ValidateProgressData` models a `total` that is not a number as absent (`undefined`), where the mismatch test is false. A `null` total, which the subtraction reads as 0 and which therefore warns when the breakdown sums to a non-zero count, is not modelled, nor is a numeric string.
- `AdditionalDoc.Basename` splits a path at `/` only, as POSIX `os.path.basename` does. The code imports `docx2pdf`, `pptxtopdf` and `comtypes` unconditionally (file_processing.py:32-34), so it runs only on Windows, where `os.path` also splits at `\` and drops a drive prefix. There `C:\docs\notes.pdf` gives the question source `Additional Document: notes.pdf`; the model gives `Additional Document: C:\docs\notes.pdf`.
- `Text.Extension` is POSIX `os.path.splitext`, with `/` as the only separator. It is used by `SowParser.LowerExtension`, `FileProcessing.Root` and `FileProcessing.PdfPath`. Under Windows `ntpath`, `C:\a.b\sow` has the extension `''`; the model gives `.b\sow`, so the `ValueError` message of `parse_sow` and the `convert_to_pdf` target differ for such paths.
- `Json.PyStr` and `Json.Repr` render Python's `str()` and `repr()` only approximately. A string inside `repr` is always quoted with `'` and never escaped, while Python quotes `it's` with `"` and escapes control characters and backslashes. A float that is not integral is written as the placeholder `<float>` instead of its shortest decimal (`1.5`), and an integral float of magnitude 1e16 or more is written with `.0` where Python uses exponent form. These renderings reach stored text through a non-string requirement `id` in `QuestionGenerator.RequirementSource` and through `str()` of non-dict document content in `FileProcessing`.
- `DiscoveryAccelerator`: every member models a method of an accelerator that already exists. The code as written cannot construct one: `__init__` passes `chroma_path` to `QuestionGenerator` (discovery_accelerator.py:37), whose `__init__` takes only `db_connection` and `gemini_api_key` (question_generator.py:10). Every construction therefore raises `TypeError`, and each project_api endpoint that builds an accelerator fails before it reaches a modelled method. Construction itself is not modelled.
- `FileProcessing.Dedup`: `list(set(keywords))` has no specified order; the model keeps first occurrences, which is one possible order.
- Timestamps (`CURRENT_TIMESTAMP`, `datetime.now()`, `new Date()` rendering) are a `now` parameter or a rendering function parameter.
- Logging, `print`, `console.log` and the debug output of the upload functions are left out.
- Servers and UI are left out: the FastAPI routes other than the two modelled helpers, `model_inference.py`, `run_app.py`, `saver.py`, `test.py`, `streamlit_app.py`, the React pages and components, the Next.js proxy routes and the configuration files.
- `ApiClient`: sending a request (`fetch`, response handling and error rewriting after the request) is not modelled. A request is the value handed to `apiRequest`.
- `FileUtils.FormatFileSize`: only the zero case is stated. Other sizes go through `Math.log` and `toFixed`, which are a parameter here.
- `FileUtils.ExtensionAfterLastDot` and the other extension lemmas assume a name shorter than 2^32 − 2 characters, where the unsigned shift cannot wrap twice. JavaScript engines cap string length well below that.
- `ProgressUtils.ProjectCompletion` models the default configuration only; overriding weights and thresholds through `options` is not modelled.
- `getDetailedProgressBreakdown`, `generateProgressTrend`, `createBarChartConfig`, `downloadFile` and `saveFilesToServer` are display or browser helpers and are not modelled.
- `DiscoveryAccelerator.StartDiscovery` follows the code as written and so calls the as-written `GenerateQuestions`. The corrected `GenerateQuestionsIntended` stands beside it and is not wired into the orchestration, so that the model keeps the system's actual behaviour.
- `FileProcessing.MatchRequirementsToDocument` likewise uses the keywords as written. The corrected `TrimmedKeywords` is proved about through `MatchRequirementsWith`, the shared definition parameterised by the keyword extractor.

## Findings

| source | as written | input that shows it | evidently intended | confidence | as-written member | corrected member |
|---|---|---|---|---|---|---|
| discovery_accelerator.py:181-188 | `generate_initial_questions` takes one argument and returns a list. It is called with two arguments and its result is indexed with `["questions"]`. | Any existing project id: the call raises a `TypeError`, so `generate_questions` reports an error and never stores a question. | Generate the questions from the SOW data and store them for the project. | not executed | DiscoveryAccelerator.GenerateQuestions | DiscoveryAccelerator.GenerateQuestionsIntended |
| file_processing.py:1355-1361 | Bigrams and trigrams are stripped of punctuation only, so a phrase whose last word is only punctuation keeps the joining blank. | Requirement text `data .` gives the keyword `data ` (with a trailing blank). In a document ending in `data `, the match context is stripped to `data`, which does not hold its own keyword. | Strip blanks from phrases as well, so that every stored context holds its keyword. | not executed | FileProcessing.SpaceEdgedKeyword | FileProcessing.TrimmedMatchesHoldKeyword |
