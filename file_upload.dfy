/**
 * The front end's upload helper for a new discovery project: it checks
 * that a name and a SOW file are given and that every file has a MIME
 * type the back end can handle, then hands the files to
 * `startDiscovery` or `processDocuments`. It never throws: every failure,
 * its own or the API client's, comes back as `{success: false, error}`.
 */
module FileUpload {
  import opened Base
  import opened Json
  import opened Browser
  import opened ApiClient

  const SowTypes: seq<string> := [
    "application/pdf",
    "application/vnd.openxmlformats-officedocument.wordprocessingml.document"]

  /** The SOW types plus PPTX, JPEG and PNG. */
  const AdditionalTypes: seq<string> := SowTypes + [
    "application/vnd.openxmlformats-officedocument.presentationml.presentation",
    "image/jpeg",
    "image/png"]

  const MissingInputs := "Project name and SOW document are required"
  const SowTypeRefused := "SOW document must be a PDF or DOCX file"
  const UnknownUploadError := "Unknown error occurred during upload"

  /** `file.type`: a MIME string for a `File`, none for another object; null and undefined throw. */
  function TypeOf(v: UploadValue): Outcome<Option<string>> {
    match v
    case FileValue(f) => Ok(Some(f.mime))
    case Nullish(kind) => Raised(ReadError(kind, "type"))
    case OtherValue(_) => Ok(None)
  }

  /** `${file.name}` for an object that is not null or undefined. */
  function NameText(v: UploadValue): string {
    match v
    case FileValue(f) => f.name
    case Nullish(kind) => kind
    case OtherValue(n) => if n.Some? then n.value else "undefined"
  }

  function TypeRefused(v: UploadValue): string {
    "Invalid file type for " + NameText(v) + ". Supported formats are PDF, DOCX, PPTX, JPG, and PNG."
  }

  /** A value whose `type` is one of `types`. */
  predicate TypeIn(v: UploadValue, types: seq<string>) {
    v.FileValue? && v.file.mime in types
  }

  /** The `for ... of` loop over the additional files: the first one with a refused type throws. */
  function AdditionalTypesChecked(files: seq<UploadValue>): (r: Outcome<()>)
    ensures r.Ok? <==> forall i :: 0 <= i < |files| ==> TypeIn(files[i], AdditionalTypes)
    decreases |files|
  {
    if files == [] then Ok(())
    else
      match TypeOf(files[0])
      case Raised(m) => Raised(m)
      case Ok(t) =>
        if t.Some? && t.value in AdditionalTypes then
          var rest := AdditionalTypesChecked(files[1..]);
          assert forall i :: 1 <= i < |files| ==> files[i] == files[1..][i - 1];
          rest
        else Raised(TypeRefused(files[0]))
  }

  /** The error names the first file with a refused type, when every file before it passed. */
  lemma {:induction false} FirstRefusedReported(files: seq<UploadValue>, k: nat)
    requires k < |files| && files[k].FileValue? && files[k].file.mime !in AdditionalTypes
    requires forall i :: 0 <= i < k ==> TypeIn(files[i], AdditionalTypes)
    ensures AdditionalTypesChecked(files) == Raised(TypeRefused(files[k]))
    decreases k
  {
    if k > 0 {
      assert files[1..][k - 1] == files[k];
      FirstRefusedReported(files[1..], k - 1);
    }
  }

  /** `validateFileTypes`: the SOW must be PDF or DOCX, then every additional file is checked. */
  function ValidateFileTypes(sowFile: UploadValue, additional: seq<UploadValue>): (r: Outcome<()>)
    ensures r.Ok? <==> TypeIn(sowFile, SowTypes) && forall i :: 0 <= i < |additional| ==> TypeIn(additional[i], AdditionalTypes)
    ensures !sowFile.Nullish? && !TypeIn(sowFile, SowTypes) ==> r == Raised(SowTypeRefused)
  {
    match TypeOf(sowFile)
    case Raised(m) => Raised(m)
    case Ok(t) =>
      if t.None? || t.value !in SowTypes then Raised(SowTypeRefused)
      else AdditionalTypesChecked(additional)
  }

  /** What `uploadProjectFiles` resolves to. */
  datatype UploadResult = Uploaded(data: JValue) | UploadFailed(error: string)

  /** The flag picks `startDiscovery`, otherwise `processDocuments`. */
  function UploadEndpoint(generateQuestions: bool): string {
    if generateQuestions then "start_discovery" else "process_documents"
  }

  /** `error.message || 'Unknown error occurred during upload'`. */
  function FailureText(message: string): (r: string)
    ensures r != []
  {
    if message == [] then UnknownUploadError else message
  }

  /**
   * `uploadProjectFiles`, with `send` standing for `apiRequest` (the
   * network round trip): the response data, or the message of whatever
   * was thrown along the way.
   */
  function UploadProjectFiles(projectName: Option<string>, sowFile: UploadValue, additional: seq<UploadValue>,
                              generateQuestions: bool, send: Request -> Outcome<JValue>): (r: UploadResult)
    ensures r.UploadFailed? ==> r.error != []
    ensures projectName.None? || projectName.value == [] || sowFile.Nullish? ==> r == UploadFailed(MissingInputs)
    ensures r.Uploaded? ==>
              && projectName.Some? && projectName.value != []
              && TypeIn(sowFile, SowTypes)
              && (forall i :: 0 <= i < |additional| ==> TypeIn(additional[i], AdditionalTypes))
              && ValidateFile(sowFile).FileOk?
              && send(Request("POST", UploadEndpoint(generateQuestions),
                              ProjectForm(projectName.value, sowFile.file, additional))) == Ok(r.data)
  {
    if projectName.None? || projectName.value == [] || sowFile.Nullish? then UploadFailed(MissingInputs)
    else
      match ValidateFileTypes(sowFile, additional)
      case Raised(m) => UploadFailed(FailureText(m))
      case Ok(_) =>
        match DocumentsUploadRequest(UploadEndpoint(generateQuestions), projectName.value, sowFile, additional)
        case Raised(m) => UploadFailed(FailureText(m))
        case Ok(request) =>
          match send(request)
          case Raised(m) => UploadFailed(FailureText(m))
          case Ok(data) => Uploaded(data)
  }

  /** A SOW that is not PDF or DOCX fails the upload with that message, whatever the other files are. */
  lemma {:induction false} SowTypeFails(name: string, sow: JsFile, additional: seq<UploadValue>, flag: bool, send: Request -> Outcome<JValue>)
    requires name != [] && sow.mime !in SowTypes
    ensures UploadProjectFiles(Some(name), FileValue(sow), additional, flag, send) == UploadFailed(SowTypeRefused)
  {
  }
}
