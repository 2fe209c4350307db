/**
 * The front end's API client, up to the point where a request leaves the
 * browser: file validation before an upload, the argument guards that
 * throw before any request is made, and the request each call builds
 * (method, endpoint and body). Sending the request is not modelled; a
 * request is the value handed to `fetch`.
 */
module ApiClient {
  import opened Base
  import opened Text
  import opened Browser

  // ------------------------------------------------------------ validateFile

  /** The upload size limit, 100 MiB; a file of exactly this size is accepted. */
  const MaxUploadSize: nat := 100 * 1024 * 1024

  const AllowedTypes: seq<string> := [
    "application/pdf",
    "application/vnd.openxmlformats-officedocument.wordprocessingml.document",
    "application/msword",
    "application/vnd.openxmlformats-officedocument.spreadsheetml.sheet",
    "application/vnd.ms-excel",
    "application/vnd.openxmlformats-officedocument.presentationml.presentation",
    "application/vnd.ms-powerpoint",
    "text/plain"]

  const AllowedExtensions: seq<string> := [".pdf", ".docx", ".doc", ".xlsx", ".xls", ".pptx", ".ppt", ".txt"]

  datatype FileCheck = FileOk | FileRejected(error: string)

  /**
   * `name.toLowerCase().substring(name.lastIndexOf('.'))`: from the last
   * '.' on, dot included; with no '.', `substring(-1)` starts at 0 and
   * gives the whole name.
   */
  function UploadExtension(name: string): (ext: string)
    ensures '.' in name ==> ext == Lower(name[LastIndexOf(name, '.')..]) && ext[0] == '.' && '.' !in ext[1..]
    ensures '.' !in name ==> ext == Lower(name)
  {
    var dot := LastIndexOf(name, '.');
    if dot < 0 then
      assert forall j :: 0 <= j < |name| ==> name[j] != '.';
      Lower(name)
    else
      LowerFromLastDot(name, dot);
      Lower(name)[dot..]
  }

  lemma {:induction false} LowerFromLastDot(name: string, dot: nat)
    requires dot < |name| && name[dot] == '.' && forall j :: dot < j < |name| ==> name[j] != '.'
    ensures Lower(name)[dot..] == Lower(name[dot..])
    ensures Lower(name)[dot..][0] == '.' && '.' !in Lower(name)[dot..][1..]
  {
    var ext := Lower(name)[dot..];
    assert ext == Lower(name[dot..]);
    forall j | 1 <= j < |ext| ensures ext[j] != '.' {
      assert ext[j] == LowerChar(name[dot + j]);
    }
  }

  /** The type check: an allowed MIME type, or an allowed extension. */
  predicate TypeAllowed(f: JsFile) {
    f.mime in AllowedTypes || UploadExtension(f.name) in AllowedExtensions
  }

  /**
   * `validateFile`: a `File` that is not empty, at most 100 MiB, and of an
   * allowed type; the checks run in that order and the first failure is
   * the one reported.
   */
  function ValidateFile(v: UploadValue): (r: FileCheck)
    ensures r.FileOk? <==> v.FileValue? && 0 < v.file.size <= MaxUploadSize && TypeAllowed(v.file)
  {
    match v
    case FileValue(f) =>
      if f.size == 0 then FileRejected("File is empty (0 bytes)")
      else if f.size > MaxUploadSize then FileRejected("File too large (max 100MB)")
      else if !TypeAllowed(f) then FileRejected("File type not supported. Allowed types: " + JoinWith(AllowedExtensions, ", "))
      else FileOk
    case _ => FileRejected("Not a valid File object")
  }

  /** The limit is inclusive: one byte more and the file is refused as too large. */
  lemma {:induction false} SizeLimitInclusive(name: string, mime: string)
    requires TypeAllowed(JsFile(name, MaxUploadSize, mime))
    ensures ValidateFile(FileValue(JsFile(name, MaxUploadSize, mime))) == FileOk
    ensures ValidateFile(FileValue(JsFile(name, MaxUploadSize + 1, mime))) == FileRejected("File too large (max 100MB)")
  {
  }

  // ------------------------------------------------------------ validateFiles

  /** The label of an item in an error: `file.name || 'unnamed'`; reading it from null or undefined throws. */
  function ItemLabel(v: UploadValue): Outcome<string> {
    match v
    case FileValue(f) => Ok(if f.name == [] then "unnamed" else f.name)
    case Nullish(kind) => Raised(ReadError(kind, "name"))
    case OtherValue(n) => Ok(if n.None? || n.value == [] then "unnamed" else n.value)
  }

  /** The error line of the item at 0-based `index`. */
  function ItemError(shown: string, index: nat, error: string): string {
    "File " + NatToString(index + 1) + " (" + shown + "): " + error
  }

  /**
   * The `forEach` over the items: the accepted files and the error lines,
   * in input order, or the TypeError of the first null or undefined item.
   */
  function CheckItems(items: seq<UploadValue>): (r: Outcome<(seq<JsFile>, seq<string>)>)
    ensures r.Ok? ==> |r.value.0| + |r.value.1| == |items|
    ensures r.Ok? <==> forall i :: 0 <= i < |items| ==> !items[i].Nullish?
    ensures r.Raised? ==> exists i :: 0 <= i < |items| && items[i].Nullish? && r.message == ReadError(items[i].kind, "name")
                                       && forall j :: 0 <= j < i ==> !items[j].Nullish?
    decreases |items|
  {
    if items == [] then Ok(([], []))
    else
      var front := items[..|items| - 1];
      var v := items[|items| - 1];
      assert forall j :: 0 <= j < |front| ==> front[j] == items[j];
      match CheckItems(front)
      case Raised(m) => Raised(m)
      case Ok(acc) =>
        match ValidateFile(v)
        case FileOk => Ok((acc.0 + [v.file], acc.1))
        case FileRejected(e) =>
          match ItemLabel(v)
          case Raised(m) => Raised(m)
          case Ok(shown) => Ok((acc.0, acc.1 + [ItemError(shown, |front|, e)]))
  }

  /** The files `validateFile` accepts, in input order. */
  function AcceptedFiles(items: seq<UploadValue>): (fs: seq<JsFile>)
    ensures |fs| <= |items|
    decreases |items|
  {
    if items == [] then []
    else (if ValidateFile(items[0]).FileOk? then [items[0].file] else []) + AcceptedFiles(items[1..])
  }

  lemma {:induction false} AcceptedFilesAppend(a: seq<UploadValue>, b: seq<UploadValue>)
    ensures AcceptedFiles(a + b) == AcceptedFiles(a) + AcceptedFiles(b)
    decreases |a|
  {
    if a == [] {
      assert a + b == b;
    } else {
      assert (a + b)[0] == a[0] && (a + b)[1..] == a[1..] + b;
      AcceptedFilesAppend(a[1..], b);
      var kept := if ValidateFile(a[0]).FileOk? then [a[0].file] else [];
      assert AcceptedFiles(a + b) == kept + AcceptedFiles(a[1..] + b);
      assert AcceptedFiles(a) == kept + AcceptedFiles(a[1..]);
      assert kept + (AcceptedFiles(a[1..]) + AcceptedFiles(b)) == (kept + AcceptedFiles(a[1..])) + AcceptedFiles(b);
    }
  }

  /** The files the loop keeps are exactly the accepted ones, in their order. */
  lemma {:induction false} CheckItemsAccepted(items: seq<UploadValue>)
    requires CheckItems(items).Ok?
    ensures CheckItems(items).value.0 == AcceptedFiles(items)
    decreases |items|
  {
    if items != [] {
      var front := items[..|items| - 1];
      var v := items[|items| - 1];
      CheckItemsAccepted(front);
      AcceptedFilesAppend(front, [v]);
      assert front + [v] == items;
      assert [v][1..] == [];
    }
  }

  /** Once an item has thrown, the rest of the list does not matter. */
  lemma {:induction false} RaisedPersists(items: seq<UploadValue>, n: nat)
    requires n <= |items| && CheckItems(items[..n]).Raised?
    ensures CheckItems(items) == CheckItems(items[..n])
    decreases |items| - n
  {
    if n < |items| {
      assert items[..n + 1][..n] == items[..n];
      RaisedPersists(items, n + 1);
    } else {
      assert items[..n] == items;
    }
  }

  /** An argument where a file list is expected. */
  datatype FilesArg = ListMissing(kind: string) | NotAList | FileList(items: seq<UploadValue>)

  /** What `validateFiles` returns. */
  datatype FilesCheck =
    | NoFiles(error: string)
    | Checked(valid: bool, validFiles: seq<JsFile>, errors: seq<string>, totalFiles: nat, validCount: nat)

  /** `validateFiles`: nothing to check, the per-file outcome, or the TypeError of a null item. */
  function FilesChecked(files: FilesArg): (r: Outcome<FilesCheck>)
    ensures (!files.FileList? || files.items == []) ==> r == Ok(NoFiles("No files provided"))
    ensures r.Ok? && r.value.Checked? ==>
              var c := r.value;
              && c.totalFiles == |files.items| == c.validCount + |c.errors|
              && c.validCount == |c.validFiles|
              && (c.valid <==> c.validCount > 0)
              && c.validFiles == AcceptedFiles(files.items)
  {
    if !files.FileList? || files.items == [] then Ok(NoFiles("No files provided"))
    else
      match CheckItems(files.items)
      case Raised(m) => Raised(m)
      case Ok(acc) =>
        CheckItemsAccepted(files.items);
        Ok(Checked(|acc.0| > 0, acc.0, acc.1, |files.items|, |acc.0|))
  }

  /** The `forEach` loop of `validateFiles`, pushing into `validFiles` and `errors`. */
  method ValidateFiles(files: FilesArg) returns (r: Outcome<FilesCheck>)
    ensures r == FilesChecked(files)
  {
    if !files.FileList? || files.items == [] {
      return Ok(NoFiles("No files provided"));
    }
    var items := files.items;
    var validFiles: seq<JsFile> := [];
    var errors: seq<string> := [];
    var i := 0;
    assert items[..0] == [];
    while i < |items|
      invariant 0 <= i <= |items|
      invariant CheckItems(items[..i]) == Ok((validFiles, errors))
    {
      var v := items[i];
      CheckItemsNext(items, i, validFiles, errors);
      var check := ValidateFile(v);
      if check.FileOk? {
        validFiles := validFiles + [v.file];
      } else {
        var shown := ItemLabel(v);
        if shown.Raised? {
          return Raised(shown.message);
        }
        errors := errors + [ItemError(shown.value, i, check.error)];
      }
      i := i + 1;
    }
    ItemsChecked(items, validFiles, errors);
    return Ok(Checked(|validFiles| > 0, validFiles, errors, |items|, |validFiles|));
  }

  /** One round of the loop: the item is kept, gives an error line, or throws and ends the loop. */
  lemma {:induction false} CheckItemsNext(items: seq<UploadValue>, i: nat, validFiles: seq<JsFile>, errors: seq<string>)
    requires i < |items| && CheckItems(items[..i]) == Ok((validFiles, errors))
    ensures ValidateFile(items[i]).FileOk? ==> CheckItems(items[..i + 1]) == Ok((validFiles + [items[i].file], errors))
    ensures ValidateFile(items[i]).FileRejected? && ItemLabel(items[i]).Ok? ==>
              CheckItems(items[..i + 1]) ==
              Ok((validFiles, errors + [ItemError(ItemLabel(items[i]).value, i, ValidateFile(items[i]).error)]))
    ensures ValidateFile(items[i]).FileRejected? && ItemLabel(items[i]).Raised? ==>
              FilesChecked(FileList(items)) == Raised(ItemLabel(items[i]).message)
  {
    assert items[..i + 1][..i] == items[..i];
    assert items[..i + 1][i] == items[i];
    if ValidateFile(items[i]).FileRejected? && ItemLabel(items[i]).Raised? {
      RaisedPersists(items, i + 1);
    }
  }

  /** After the last round the loop's lists are what `validateFiles` returns. */
  lemma {:induction false} ItemsChecked(items: seq<UploadValue>, validFiles: seq<JsFile>, errors: seq<string>)
    requires items != [] && CheckItems(items[..|items|]) == Ok((validFiles, errors))
    ensures FilesChecked(FileList(items)) == Ok(Checked(|validFiles| > 0, validFiles, errors, |items|, |validFiles|))
  {
    assert items[..|items|] == items;
  }

  // ------------------------------------------------------------ requests

  /** A project id as the caller passed it: a number, `NaN`, or `null`/`undefined`. */
  datatype IdArg = IdNumber(n: int) | IdNaN | IdMissing(kind: string)

  /** `${projectId}`. */
  function IdText(id: IdArg): string {
    match id
    case IdNumber(n) => IntToString(n)
    case IdNaN => "NaN"
    case IdMissing(kind) => kind
  }

  /** `!(!projectId || isNaN(projectId))`: only a non-zero number passes. */
  predicate ValidProjectId(id: IdArg)
    ensures ValidProjectId(id) ==> IdText(id) != "NaN" && IdText(id) != "0"
  {
    if id.IdNumber? && id.n != 0 then
      NonZeroText(id.n);
      true
    else false
  }

  /** A non-zero number is written neither as `0` nor as `NaN`. */
  lemma {:induction false} NonZeroText(n: int)
    requires n != 0
    ensures IntToString(n) != "0" && IntToString(n) != "NaN"
  {
    if n < 0 {
      assert IntToString(n)[0] == '-';
    } else {
      var t := NatToString(n);
      assert IsDigit(t[0]) && !IsDigit('N');
      if n < 10 {
        assert t == [DigitChar(n)];
      }
    }
  }

  datatype Body =
    | NoBody
    | TranscriptBody(projectId: IdArg, transcriptText: string)
    | DocumentsForm(projectField: Option<string>, documents: seq<JsFile>)
    | ProjectForm(projectName: string, sowFile: JsFile, additionalDocs: seq<UploadValue>)

  /** What `apiRequest` is asked to send. */
  datatype Request = Request(httpMethod: string, endpoint: string, body: Body)

  const TranscriptRequired := "Transcript text is required"
  const ValidIdRequired := "Valid project ID is required"

  /** `processTranscript`: refuses missing, empty and blank text before any request. */
  function ProcessTranscriptRequest(projectId: IdArg, text: Option<string>): (r: Outcome<Request>)
    ensures r.Raised? <==> text.None? || JsTrim(text.value) == []
    ensures r.Raised? ==> r.message == TranscriptRequired
    ensures r.Ok? ==> r.value == Request("POST", "process_transcript", TranscriptBody(projectId, text.value))
  {
    if text.None? || text.value == [] || JsTrim(text.value) == [] then Raised(TranscriptRequired)
    else Ok(Request("POST", "process_transcript", TranscriptBody(projectId, text.value)))
  }

  /** `fetchQuestions`: `?status=` with the encoded status is appended only for a non-empty status. */
  function FetchQuestionsRequest(projectId: IdArg, status: Option<string>, encode: string -> string): (r: Request)
    ensures r.httpMethod == "GET" && r.body == NoBody
    ensures StartsWith(r.endpoint, "get_questions/" + IdText(projectId))
    ensures status.None? || status.value == [] ==> r.endpoint == "get_questions/" + IdText(projectId)
    ensures status.Some? && status.value != [] ==>
              r.endpoint == "get_questions/" + IdText(projectId) + "?status=" + encode(status.value)
  {
    var endpoint := "get_questions/" + IdText(projectId);
    if status.Some? && status.value != [] then Request("GET", endpoint + "?status=" + encode(status.value), NoBody)
    else Request("GET", endpoint, NoBody)
  }

  /** The message thrown when `validateFiles` found no valid file. */
  function Refusal(prefix: string, errors: seq<string>): string {
    prefix + JoinWith(errors, ", ")
  }

  /**
   * `uploadAdditionalDocuments`: the id, then the list, then the files are
   * checked; the form carries only the files that passed.
   */
  function UploadAdditionalDocumentsRequest(projectId: IdArg, documents: FilesArg): (r: Outcome<Request>)
    ensures !ValidProjectId(projectId) ==> r == Raised(ValidIdRequired)
    ensures ValidProjectId(projectId) && (!documents.FileList? || documents.items == []) ==>
              r == Raised("At least one document is required")
    ensures r.Ok? ==>
              && documents.FileList?
              && r.value == Request("POST", "upload_additional_documents/" + IntToString(projectId.n),
                                    DocumentsForm(None, AcceptedFiles(documents.items)))
              && AcceptedFiles(documents.items) != []
  {
    if !ValidProjectId(projectId) then Raised(ValidIdRequired)
    else if !documents.FileList? || documents.items == [] then Raised("At least one document is required")
    else
      match FilesChecked(documents)
      case Raised(m) => Raised(m)
      case Ok(c) =>
        if !c.valid then Raised(Refusal("File validation failed: ", c.errors))
        else Ok(Request("POST", "upload_additional_documents/" + IdText(projectId), DocumentsForm(None, c.validFiles)))
  }

  /**
   * `bulkProcessAdditionalDocuments`: as the single upload, except that
   * `documents.length` is read for a log line first, so a null or
   * undefined list throws a TypeError before the id is looked at, and the
   * form also carries the id as text.
   */
  function BulkProcessRequest(projectId: IdArg, documents: FilesArg): (r: Outcome<Request>)
    ensures documents.ListMissing? ==> r == Raised(ReadError(documents.kind, "length"))
    ensures !documents.ListMissing? && !ValidProjectId(projectId) ==> r == Raised(ValidIdRequired)
    ensures ValidProjectId(projectId) && (documents.NotAList? || documents == FileList([])) ==>
              r == Raised("At least one document is required for bulk processing")
    ensures r.Ok? ==>
              && documents.FileList?
              && r.value == Request("POST", "bulk_process_additional_documents",
                                    DocumentsForm(Some(IntToString(projectId.n)), AcceptedFiles(documents.items)))
              && AcceptedFiles(documents.items) != []
  {
    if documents.ListMissing? then Raised(ReadError(documents.kind, "length"))
    else if !ValidProjectId(projectId) then Raised(ValidIdRequired)
    else if !documents.FileList? || documents.items == [] then Raised("At least one document is required for bulk processing")
    else
      match FilesChecked(documents)
      case Raised(m) => Raised(m)
      case Ok(c) =>
        if !c.valid then Raised(Refusal("File validation failed: ", c.errors))
        else Ok(Request("POST", "bulk_process_additional_documents", DocumentsForm(Some(IdText(projectId)), c.validFiles)))
  }

  /**
   * `processDocuments` and `startDiscovery`, which differ only in the
   * endpoint: the SOW file must pass `validateFile`, and a non-empty list
   * of additional files must hold at least one valid file; the form then
   * carries every additional file, the refused ones included.
   */
  function DocumentsUploadRequest(endpoint: string, projectName: string, sowFile: UploadValue,
                                  additional: seq<UploadValue>): (r: Outcome<Request>)
    ensures ValidateFile(sowFile).FileRejected? ==>
              r == Raised("SOW file validation failed: " + ValidateFile(sowFile).error)
    ensures r.Ok? ==>
              && ValidateFile(sowFile).FileOk?
              && (additional != [] ==> AcceptedFiles(additional) != [])
              && r.value == Request("POST", endpoint, ProjectForm(projectName, sowFile.file, additional))
  {
    match ValidateFile(sowFile)
    case FileRejected(e) => Raised("SOW file validation failed: " + e)
    case FileOk =>
      if additional == [] then Ok(Request("POST", endpoint, ProjectForm(projectName, sowFile.file, additional)))
      else
        match FilesChecked(FileList(additional))
        case Raised(m) => Raised(m)
        case Ok(c) =>
          if !c.valid then Raised(Refusal("Additional files validation failed: ", c.errors))
          else Ok(Request("POST", endpoint, ProjectForm(projectName, sowFile.file, additional)))
  }

  /** A refused additional file still travels with the others when one of them is valid. */
  lemma {:induction false} RefusedFilesStillSent(endpoint: string, projectName: string, sow: JsFile, good: JsFile, bad: JsFile)
    requires ValidateFile(FileValue(sow)).FileOk? && ValidateFile(FileValue(good)).FileOk?
    requires ValidateFile(FileValue(bad)).FileRejected?
    ensures var r := DocumentsUploadRequest(endpoint, projectName, FileValue(sow), [FileValue(good), FileValue(bad)]);
            && r.Ok?
            && r.value.body.additionalDocs == [FileValue(good), FileValue(bad)]
            && AcceptedFiles(r.value.body.additionalDocs) == [good]
  {
    var items := [FileValue(good), FileValue(bad)];
    assert items[1..] == [FileValue(bad)] && items[1..][1..] == [];
    assert CheckItems(items[..1]).Ok? by {
      assert items[..1][..0] == [];
    }
    assert items[..1] == [FileValue(good)];
    assert CheckItems(items).Ok?;
  }
}
