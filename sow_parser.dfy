/**
 * The Statement of Work parser (`SOWParser` in sow_parser.py). `parse_sow`
 * picks a text extractor from the file extension, then asks the language
 * model three times: for the document's sections, for the requirements in
 * the sections that look relevant, and for the scope boundaries. Each reply
 * is read by the same tiers (a fenced JSON body, then the whole reply as
 * JSON, then a line-oriented fallback), and what survives each tier is
 * shaped by the code after it: sections are always a dict, requirements a
 * list of dicts with their four fields, boundaries a dict holding the
 * three lists.
 */
module SowParser {
  import opened Base
  import opened Text
  import opened Json
  import opened Llm
  import opened Response
  import opened LineScan

  // ---------------------------------------------------------------------
  // File format
  // ---------------------------------------------------------------------

  datatype Format = Pdf | Docx

  /**
   * Text extraction with PyMuPDF or python-docx: an oracle from the format
   * and the path to the text. Both extractors catch their own errors and
   * return what they read so far, so extraction never raises.
   */
  type TextExtractor = (Format, string) -> string

  /** The extractor `parse_sow` uses for a lower-cased extension, if it accepts it. */
  function FormatOf(ext: string): Option<Format> {
    if ext == ".pdf" then Some(Pdf)
    else if ext == ".docx" || ext == ".doc" then Some(Docx)
    else None
  }

  // ---------------------------------------------------------------------
  // Sections
  // ---------------------------------------------------------------------

  /** The single section every failure of the sections step falls back to. */
  function FullDocument(document: string): Dict {
    [("Full Document", JStr(document))]
  }

  /** A heading of the fallback splitter: a non-blank line starting with '#', shorter than 50 characters once stripped. */
  predicate IsHeading(line: string) {
    Strip(line) != [] && line != [] && line[0] == '#' && |Strip(line)| < 50
  }

  /** The section name a heading line opens: the '#' characters and then the blanks stripped from both ends. */
  function HeadingName(line: string): string {
    Strip(StripChars(line, {'#'}))
  }

  /** The splitter's state: the sections recorded, the current section's name and its lines so far. */
  datatype Splitter = Splitter(sections: Dict, current: string, content: seq<string>)

  /** The sections with the current one recorded, when it has at least one line (a repeated name overwrites). */
  function FlushSection(s: Splitter): Dict {
    if s.content != [] then Set(s.sections, s.current, JStr(JoinWith(s.content, "\n"))) else s.sections
  }

  function SplitStep(s: Splitter, line: string): Splitter {
    if IsHeading(line) then Splitter(FlushSection(s), HeadingName(line), [])
    else s.(content := s.content + [line])
  }

  /** The splitter after the given lines, starting in the section "Introduction". */
  function SplitRun(lines: seq<string>): Splitter
    decreases |lines|
  {
    if lines == [] then Splitter([], "Introduction", [])
    else SplitStep(SplitRun(lines[..|lines| - 1]), lines[|lines| - 1])
  }

  /** The sections the heuristic splitter finds in a reply. */
  function HeadingSections(text: string): Dict {
    FlushSection(SplitRun(SplitOn(text, '\n')))
  }

  /** The splitting loop, updating the current section as it goes. */
  method SplitSections(text: string) returns (sections: Dict)
    ensures sections == HeadingSections(text)
  {
    var lines := SplitOn(text, '\n');
    var s := Splitter([], "Introduction", []);
    var i := 0;
    while i < |lines|
      invariant 0 <= i <= |lines|
      invariant s == SplitRun(lines[..i])
    {
      assert lines[..i + 1][..i] == lines[..i];
      var line := lines[i];
      if IsHeading(line) {
        var recorded := s.sections;
        if s.content != [] {
          recorded := Set(s.sections, s.current, JStr(JoinWith(s.content, "\n")));
        }
        s := Splitter(recorded, HeadingName(line), []);
      } else {
        s := s.(content := s.content + [line]);
      }
      i := i + 1;
    }
    assert lines[..i] == lines;
    sections := FlushSection(s);
  }

  /** The name of the section a line falls in, given the lines before it: the last heading's name, or "Introduction". */
  function SectionName(before: seq<string>): string
    decreases |before|
  {
    if before == [] then "Introduction"
    else if IsHeading(before[|before| - 1]) then HeadingName(before[|before| - 1])
    else SectionName(before[..|before| - 1])
  }

  /** Some element of `xs` satisfies `ok` together with the elements before it. */
  ghost predicate SomeWithPrefix<T>(xs: seq<T>, ok: (seq<T>, T) -> bool) {
    exists i :: 0 <= i < |xs| && ok(xs[..i], xs[i])
  }

  lemma {:induction false} SomeWithPrefixSnoc<T>(xs: seq<T>, ok: (seq<T>, T) -> bool)
    requires xs != []
    ensures SomeWithPrefix(xs, ok) <==>
              SomeWithPrefix(xs[..|xs| - 1], ok) || ok(xs[..|xs| - 1], xs[|xs| - 1])
  {
    var init := xs[..|xs| - 1];
    if SomeWithPrefix(xs, ok) {
      var i :| 0 <= i < |xs| && ok(xs[..i], xs[i]);
      if i < |init| {
        assert xs[i] == init[i] && xs[..i] == init[..i];
      } else {
        assert xs[..i] == init;
      }
    }
    if SomeWithPrefix(init, ok) {
      var i :| 0 <= i < |init| && ok(init[..i], init[i]);
      assert xs[i] == init[i] && xs[..i] == init[..i];
    }
    if ok(init, xs[|xs| - 1]) {
      assert xs[..|init|] == init;
    }
  }

  /** Some non-heading line of `lines` falls in the section named `k`. */
  ghost predicate HasLineIn(lines: seq<string>, k: string) {
    SomeWithPrefix(lines, (before, l) => !IsHeading(l) && SectionName(before) == k)
  }

  lemma {:induction false} SplitRunCurrent(lines: seq<string>)
    ensures SplitRun(lines).current == SectionName(lines)
    decreases |lines|
  {
    if lines != [] {
      SplitRunCurrent(lines[..|lines| - 1]);
    }
  }

  lemma {:induction false} SetHasKey(d: Dict, k: string, v: JValue, k': string)
    ensures HasKey(Set(d, k, v), k') <==> k' == k || HasKey(d, k')
  {
    if k' != k {
      assert Lookup(Set(d, k, v), k') == Lookup(d, k');
    }
  }

  /** A line appended to `init` adds its own section, when it is not a heading, to those already holding a line. */
  lemma {:induction false} HasLineInSnoc(lines: seq<string>, k: string)
    requires lines != []
    ensures HasLineIn(lines, k) <==>
              HasLineIn(lines[..|lines| - 1], k)
              || (!IsHeading(lines[|lines| - 1]) && SectionName(lines[..|lines| - 1]) == k)
  {
    SomeWithPrefixSnoc(lines, (before, l) => !IsHeading(l) && SectionName(before) == k);
  }

  lemma {:induction false} FlushedKey(lines: seq<string>, k: string)
    ensures HasKey(FlushSection(SplitRun(lines)), k) <==> HasLineIn(lines, k)
    decreases |lines|
  {
    if lines == [] {
      return;
    }
    var init := lines[..|lines| - 1];
    var line := lines[|lines| - 1];
    var s := SplitRun(init);
    FlushedKey(init, k);
    SplitRunCurrent(init);
    HasLineInSnoc(lines, k);
    if !IsHeading(line) {
      SetHasKey(s.sections, s.current, JStr(JoinWith(s.content + [line], "\n")), k);
      SetHasKey(s.sections, s.current, JStr(JoinWith(s.content, "\n")), k);
    }
  }

  /**
   * The fallback splitter records a section exactly when at least one line
   * that is not a heading falls in it (text before the first heading falls
   * in "Introduction"); a heading followed directly by another heading
   * records nothing.
   */
  lemma {:induction false} HeadingSectionKeys(text: string, k: string)
    ensures HasKey(HeadingSections(text), k) <==> HasLineIn(SplitOn(text, '\n'), k)
  {
    FlushedKey(SplitOn(text, '\n'), k);
  }

  lemma {:induction false} NoHeadingRun(lines: seq<string>)
    requires forall i :: 0 <= i < |lines| ==> !IsHeading(lines[i])
    ensures SplitRun(lines) == Splitter([], "Introduction", lines)
    decreases |lines|
  {
    if lines != [] {
      var front, last := lines[..|lines| - 1], lines[|lines| - 1];
      assert front + [last] == lines;
      forall i | 0 <= i < |front| ensures !IsHeading(front[i]) {
        assert front[i] == lines[i];
      }
      NoHeadingRun(front);
      assert SplitRun(lines) == SplitStep(SplitRun(front), last);
      assert !IsHeading(last);
    }
  }

  /** A reply without headings is kept whole, as the single section "Introduction". */
  lemma {:induction false} NoHeadingWholeText(text: string)
    requires forall l :: l in SplitOn(text, '\n') ==> !IsHeading(l)
    ensures HeadingSections(text) == [("Introduction", JStr(text))]
  {
    var lines := SplitOn(text, '\n');
    NoHeadingRun(lines);
    JoinSplit(text, '\n');
    var d := Set([], "Introduction", JStr(text));
    assert Keys(d) == ["Introduction"];
    assert d == [("Introduction", JStr(text))] by {
      assert |d| == 1 && d[0].0 == "Introduction";
      assert Lookup(d, "Introduction") == Some(d[0].1);
    }
  }

  /**
   * The sections read from the reply to the sections prompt. A fenced body
   * must decode to a dict, and a decoded whole reply must be a dict too;
   * everything else that decodes or is fenced falls back to the whole
   * document. The splitter runs only when there is no fence and the whole
   * reply is not JSON with a length (a bare number is split like text).
   */
  function SectionsFromReply(document: string, reply: string, decode: Decoder): Dict {
    match FindFence(reply)
    case Some(body) =>
      (match decode(body)
       case Some(JObj(fields)) => fields
       case _ => FullDocument(document))
    case None =>
      (match decode(reply)
       case Some(v) =>
         if v.JObj? then v.fields
         else if Len(v).Some? then FullDocument(document)
         else HeadingSections(reply)
       case None => HeadingSections(reply))
  }

  /** `_extract_sections`: a failed model call escapes; otherwise the result is always a dict. */
  function Sections(document: string, llm: Model, decode: Decoder): (r: Outcome<Dict>)
    ensures r.Raised? <==> !llm(SectionsPrompt(document)).Reply?
    ensures r.Raised? ==> r.message == llm(SectionsPrompt(document)).message
  {
    match llm(SectionsPrompt(document))
    case Failed(m) => Raised(m)
    case Unreadable(m) => Raised(m)
    case Reply(t) => Ok(SectionsFromReply(document, t, decode))
  }

  /**
   * Which tier the sections come from: a fence that does not yield a dict
   * gives the whole document, never the splitter; the splitter's result is
   * used only without a fence.
   */
  lemma {:induction false} SectionsTiers(document: string, reply: string, decode: Decoder)
    ensures FindFence(reply).Some? ==>
              var b := decode(FindFence(reply).value);
              SectionsFromReply(document, reply, decode)
                == (if b.Some? && b.value.JObj? then b.value.fields else FullDocument(document))
    ensures FindFence(reply).None? && decode(reply).None? ==>
              SectionsFromReply(document, reply, decode) == HeadingSections(reply)
    ensures FindFence(reply).None? && decode(reply).Some? && Len(decode(reply).value).None? ==>
              SectionsFromReply(document, reply, decode) == HeadingSections(reply)
  {
  }

  // ---------------------------------------------------------------------
  // Choosing the sections a prompt carries
  // ---------------------------------------------------------------------

  const RequirementKeywords: seq<string> :=
    ["scope", "deliverable", "requirement", "objective", "service", "feature", "function",
     "specification", "work", "task", "activity", "responsibility", "obligation", "timeline", "acceptance"]

  const BoundaryKeywords: seq<string> :=
    ["scope", "assumption", "exclusion", "limitation", "constraint", "boundary", "deliverable",
     "not included", "included", "exclude", "include", "work", "service", "responsibility"]

  /** The lower-cased section name contains one of the keywords. */
  predicate Mentions(name: string, keywords: seq<string>) {
    exists k :: 0 <= k < |keywords| && Contains(Lower(name), keywords[k])
  }

  /** The sections whose names mention a keyword, in their order. */
  function Relevant(sections: Dict, keywords: seq<string>): (r: Dict)
    ensures |r| <= |sections|
    ensures forall e :: e in r <==> e in sections && Mentions(e.0, keywords)
    decreases |sections|
  {
    if sections == [] then []
    else
      var init := sections[..|sections| - 1];
      var last := sections[|sections| - 1];
      assert sections == init + [last];
      Relevant(init, keywords) + (if Mentions(last.0, keywords) then [last] else [])
  }

  /** The sections a prompt carries: the relevant ones, or all of them when none is relevant. */
  function ChosenSections(sections: Dict, keywords: seq<string>): (r: Dict)
    ensures (exists e :: e in sections && Mentions(e.0, keywords)) ==>
              forall e :: e in r <==> e in sections && Mentions(e.0, keywords)
    ensures !(exists e :: e in sections && Mentions(e.0, keywords)) ==> r == sections
    ensures r == [] <==> sections == []
  {
    var relevant := Relevant(sections, keywords);
    if relevant == [] then sections
    else
      assert relevant[0] in relevant;
      relevant
  }

  /** The loop collecting the relevant sections, with its fallback. */
  method ChooseSections(sections: Dict, keywords: seq<string>) returns (chosen: Dict)
    ensures chosen == ChosenSections(sections, keywords)
  {
    chosen := [];
    var i := 0;
    while i < |sections|
      invariant 0 <= i <= |sections|
      invariant chosen == Relevant(sections[..i], keywords)
    {
      assert sections[..i + 1][..i] == sections[..i];
      if Mentions(sections[i].0, keywords) {
        chosen := chosen + [sections[i]];
      }
      i := i + 1;
    }
    assert sections[..i] == sections;
    if chosen == [] {
      chosen := sections;
    }
  }

  // ---------------------------------------------------------------------
  // Requirements
  // ---------------------------------------------------------------------

  predicate IsRequirementStart(line: string) {
    StartsWith(line, "REQ-") || StartsWith(line, "- ID: REQ-")
  }

  /**
   * The manual requirement parser: lines are not stripped; a line starting
   * "REQ-" or "- ID: REQ-" opens `{'id': line.strip()}`; `text`, `section`,
   * `clarity` and `reason` lines fill it with their stripped values.
   */
  const RequirementScanner: Scanner :=
    Scanner(false, IsRequirementStart, l => [("id", JStr(Strip(l)))],
            {"text", "section", "clarity", "reason"}, (k, v) => JStr(Strip(v)), "id")

  /** The fields every returned requirement carries. */
  const RequiredFields: seq<string> := ["id", "text", "section", "clarity"]

  /** Each required field is present, and an ambiguous requirement has a reason. */
  ghost predicate IsComplete(req: Dict) {
    && (forall f :: f in RequiredFields ==> HasKey(req, f))
    && (Lookup(req, "clarity") == Some(JStr("ambiguous")) ==> HasKey(req, "reason"))
  }

  /**
   * `for k in keys: if k not in d: d[k] = value(k)`: every key is present
   * afterwards, present keys keep their values, and nothing else changes.
   */
  function DefaultAll(d: Dict, keys: seq<string>, value: string -> JValue): (r: Dict)
    ensures forall k :: k in keys ==> HasKey(r, k)
    ensures forall k :: HasKey(d, k) ==> Lookup(r, k) == Lookup(d, k)
    ensures forall k :: k !in keys ==> Lookup(r, k) == Lookup(d, k)
    ensures forall k :: k in keys && !HasKey(d, k) ==> Lookup(r, k) == Some(value(k))
    ensures (forall k :: k in keys ==> HasKey(d, k)) ==> r == d
    decreases |keys|
  {
    if keys == [] then d
    else
      var d1 := SetDefault(d, keys[0], value(keys[0]));
      assert forall k :: k != keys[0] ==> Lookup(d1, k) == Lookup(d, k);
      assert HasKey(d1, keys[0]);
      assert forall k :: k in keys[1..] ==> k in keys;
      assert forall k :: k in keys ==> k == keys[0] || k in keys[1..];
      DefaultAll(d1, keys[1..], value)
  }

  /** The completion applied to each parsed requirement dict. */
  function CompleteRequirement(req: Dict): (r: Dict)
    ensures IsComplete(r)
    ensures forall k :: HasKey(req, k) ==> Lookup(r, k) == Lookup(req, k)
  {
    var d := DefaultAll(req, RequiredFields, f => JStr("Unknown " + f));
    ReasonNotRequired();
    ReasonGiven(d)
  }

  /** A missing required field is completed as "Unknown <field>". */
  lemma {:induction false} CompleteRequirementDefaults(req: Dict)
    ensures var r := CompleteRequirement(req);
            forall f :: f in RequiredFields && !HasKey(req, f) ==> Lookup(r, f) == Some(JStr("Unknown " + f))
  {
    ReasonNotRequired();
  }

  /** A reason the completion supplies is "No reason provided". */
  lemma {:induction false} CompleteRequirementReason(req: Dict)
    ensures var r := CompleteRequirement(req);
            !HasKey(req, "reason") && HasKey(r, "reason") ==> Lookup(r, "reason") == Some(JStr("No reason provided"))
  {
    ReasonNotRequired();
  }

  /** The completion adds no key but the required fields and the reason. */
  lemma {:induction false} CompleteRequirementKeys(req: Dict)
    ensures var r := CompleteRequirement(req);
            forall k :: HasKey(r, k) ==> HasKey(req, k) || k in RequiredFields || k == "reason"
  {
    ReasonNotRequired();
  }

  lemma {:induction false} ReasonNotRequired()
    ensures "reason" !in RequiredFields
  {
    assert forall f :: f in RequiredFields ==> f[0] != 'r';
  }

  /** The reason defaulted for an ambiguous requirement that has none; every other key is kept. */
  function ReasonGiven(d: Dict): (r: Dict)
    ensures Lookup(d, "clarity") == Some(JStr("ambiguous")) ==> HasKey(r, "reason")
    ensures forall k :: HasKey(d, k) ==> Lookup(r, k) == Lookup(d, k)
    ensures forall k :: k != "reason" ==> Lookup(r, k) == Lookup(d, k)
    ensures !HasKey(d, "reason") && HasKey(r, "reason") ==> Lookup(r, "reason") == Some(JStr("No reason provided"))
  {
    if Lookup(d, "clarity") == Some(JStr("ambiguous")) && !HasKey(d, "reason") then Set(d, "reason", JStr("No reason provided"))
    else d
  }

  /** The message Python gives for `key in j` on a value that is not a container. */
  function MembershipMessage(j: JValue): string {
    "argument of type '" + TypeName(j) + "' is not iterable"
  }

  /**
   * The error completing a requirement that is not a dict: a string that
   * lacks a field name fails on the assignment, one that contains all four
   * fails on `req['clarity']`; a list fails on either; anything else on `in`.
   */
  function ItemMessage(item: JValue): string {
    match item
    case JStr(s) =>
      if forall f :: f in RequiredFields ==> Contains(s, f) then "string indices must be integers, not 'str'"
      else NoItemAssignmentMessage(item)
    case JArr(_) => NoItemAssignmentMessage(item)
    case _ => MembershipMessage(item)
  }

  /** The index of the first item that is not a dict, or the number of items. */
  function FirstNonDict(items: seq<JValue>): (k: nat)
    ensures k <= |items|
    ensures forall j :: 0 <= j < k ==> items[j].JObj?
    ensures k < |items| ==> !items[k].JObj?
    decreases |items|
  {
    if items == [] || !items[0].JObj? then 0
    else
      var k := FirstNonDict(items[1..]);
      assert forall j :: 1 <= j < k + 1 ==> items[j] == items[1..][j - 1];
      1 + k
  }

  /**
   * A loop that rewrites each dict of a list in place with `update`; the
   * first item that is not a dict raises `error(item)` and ends it.
   */
  function UpdateDicts(items: seq<JValue>, update: Dict -> Dict, error: JValue -> string): (r: Outcome<seq<JValue>>)
    ensures r.Ok? <==> forall i :: 0 <= i < |items| ==> items[i].JObj?
    ensures r.Ok? ==> |r.value| == |items|
                      && forall i :: 0 <= i < |items| ==> r.value[i] == JObj(update(items[i].fields))
    ensures r.Raised? ==> FirstNonDict(items) < |items| && r.message == error(items[FirstNonDict(items)])
    decreases |items|
  {
    if items == [] then Ok([])
    else if !items[0].JObj? then Raised(error(items[0]))
    else
      var rest := UpdateDicts(items[1..], update, error);
      assert forall i :: 1 <= i < |items| ==> items[i] == items[1..][i - 1];
      assert FirstNonDict(items) == 1 + FirstNonDict(items[1..]);
      PrependOk([JObj(update(items[0].fields))], rest)
  }

  /** The loop itself, updating the dicts one after the other. */
  method UpdateEachDict(items: seq<JValue>, update: Dict -> Dict, error: JValue -> string) returns (r: Outcome<seq<JValue>>)
    ensures r == UpdateDicts(items, update, error)
  {
    var done: seq<JValue> := [];
    var i := 0;
    while i < |items|
      invariant 0 <= i <= |items|
      invariant forall j :: 0 <= j < i ==> items[j].JObj?
      invariant |done| == i && forall j :: 0 <= j < i ==> done[j] == JObj(update(items[j].fields))
    {
      if !items[i].JObj? {
        assert FirstNonDict(items) == i;
        return Raised(error(items[i]));
      }
      done := done + [JObj(update(items[i].fields))];
      i := i + 1;
    }
    r := Ok(done);
    assert done == UpdateDicts(items, update, error).value;
  }

  /** The completion loop of `_extract_requirements`. */
  function CompleteAll(items: seq<JValue>): Outcome<seq<JValue>> {
    UpdateDicts(items, CompleteRequirement, ItemMessage)
  }

  /**
   * What the requirement tiers leave in `requirements`: the fenced body
   * decoded (an empty list when it does not decode), else the whole reply
   * decoded, else the manually parsed dicts. A decoded value without a
   * length is kept too; the completion loop then raises on it.
   */
  function ParsedRequirements(reply: string, decode: Decoder): JValue {
    match FindFence(reply)
    case Some(body) => (match decode(body) case Some(v) => v case None => JArr([]))
    case None =>
      (match decode(reply)
       case Some(v) => v
       case None => JArr(Objects(Scan(RequirementScanner, reply))))
  }

  /**
   * The completion loop over what the tiers left. A list becomes the list
   * of completed dicts; a dict or string iterates over strings and so
   * raises unless it is empty; anything else is not iterable.
   */
  function CompleteParsed(v: JValue): (r: Outcome<JValue>)
    ensures r.Ok? ==> (v.JArr? && r.value.JArr? && |r.value.items| == |v.items|
                       && forall i :: 0 <= i < |v.items| ==>
                            v.items[i].JObj? && r.value.items[i] == JObj(CompleteRequirement(v.items[i].fields)))
                      || (!v.JArr? && r.value == v && Len(v) == Some(0))
    ensures Iter(v).None? ==> r == Raised(MembershipMessage(v)) || r == Raised(NotIterableMessage(v))
    ensures v.JArr? ==> (r.Ok? <==> forall i :: 0 <= i < |v.items| ==> v.items[i].JObj?)
  {
    match Iter(v)
    case None => Raised(NotIterableMessage(v))
    case Some(items) =>
      match CompleteAll(items)
      case Raised(m) => Raised(m)
      case Ok(cs) =>
        if v.JArr? then Ok(JArr(cs))
        else
          assert forall x :: x in items ==> x.JStr?;
          Ok(v)
  }

  /** `_extract_requirements`: a failed model call escapes; the completion loop may raise. */
  function Requirements(sections: Dict, llm: Model, decode: Decoder): (r: Outcome<JValue>)
    ensures r.Ok? ==> llm(RequirementsPrompt(ChosenSections(sections, RequirementKeywords))).Reply?
  {
    match llm(RequirementsPrompt(ChosenSections(sections, RequirementKeywords)))
    case Failed(m) => Raised(m)
    case Unreadable(m) => Raised(m)
    case Reply(t) => CompleteParsed(ParsedRequirements(t, decode))
  }

  /**
   * A successful requirements step returns a list of complete requirement
   * dicts (or an empty dict or string the model sent back), and it raises
   * exactly when the model call fails or the value is not a list of dicts
   * and not an empty container.
   */
  lemma {:induction false} RequirementsShape(sections: Dict, llm: Model, decode: Decoder)
    ensures var r := Requirements(sections, llm, decode);
            r.Ok? ==> (r.value.JArr? && forall x :: x in r.value.items ==> x.JObj? && IsComplete(x.fields))
                      || (!r.value.JArr? && Len(r.value) == Some(0))
    ensures var reply := llm(RequirementsPrompt(ChosenSections(sections, RequirementKeywords)));
            !reply.Reply? ==> Requirements(sections, llm, decode) == Raised(reply.message)
  {
    var r := Requirements(sections, llm, decode);
    if r.Ok? && r.value.JArr? {
      forall x | x in r.value.items ensures x.JObj? && IsComplete(x.fields) {
        var i :| 0 <= i < |r.value.items| && r.value.items[i] == x;
      }
    }
  }

  lemma {:induction false} RequirementScannerShape()
    ensures StartShape(RequirementScanner) && RequirementScanner.mainKey !in RequirementScanner.keys
  {
    forall l ensures RequirementScanner.start(l) == [] || (|RequirementScanner.start(l)| == 1 && RequirementScanner.start(l)[0].0 == "id") {
    }
  }

  /**
   * Without a fence and without JSON, the requirements are one dict per
   * line starting "REQ-" or "- ID: REQ-", in order, each keeping as its id
   * the stripped start line; the completion never replaces an id.
   */
  lemma {:induction false} ManualRequirementIds(reply: string, decode: Decoder)
    requires FindFence(reply).None? && decode(reply).None?
    ensures var r := CompleteParsed(ParsedRequirements(reply, decode));
            var ids := StartMains(RequirementScanner, SplitOn(reply, '\n'));
            r.Ok? && r.value.JArr? && |r.value.items| == |ids|
            && forall i :: 0 <= i < |ids| ==>
                 r.value.items[i].JObj? && Lookup(r.value.items[i].fields, "id") == Some(ids[i])
  {
    var sc := RequirementScanner;
    var records := Scan(sc, reply);
    RequirementScannerShape();
    ScanMains(sc, reply);
    ScanShape(sc, (k, v) => true, reply);
    var ids := StartMains(sc, SplitOn(reply, '\n'));
    var objs := Objects(records);
    assert ParsedRequirements(reply, decode) == JArr(objs);
    assert forall i :: 0 <= i < |objs| ==> objs[i].JObj?;
    var r := CompleteParsed(JArr(objs));
    forall i | 0 <= i < |ids|
      ensures r.value.items[i].JObj? && Lookup(r.value.items[i].fields, "id") == Some(ids[i])
    {
      assert records[i] in records;
      assert HasKey(records[i], "id");
      assert MainsOf(sc, records)[i] == Get(records[i], "id", JNull);
    }
  }

  // ---------------------------------------------------------------------
  // Boundaries
  // ---------------------------------------------------------------------

  /** The list a marker line switches the manual boundary parser to. */
  datatype Zone = NoZone | InScope | OutOfScope | Unclear

  /** The zone a (stripped) line switches to, checked in the parser's order; `None` for a line that is not a marker. */
  function MarkerZone(line: string): Option<Zone> {
    var lo := Lower(line);
    if Contains(lo, "in-scope") || Contains(lo, "in scope") then Some(InScope)
    else if Contains(lo, "out-of-scope") || Contains(lo, "out of scope") then Some(OutOfScope)
    else if Contains(lo, "unclear") || Contains(lo, "ambiguous") then Some(Unclear)
    else None
  }

  predicate IsBullet(line: string) {
    StartsWith(line, "-") || StartsWith(line, "*")
  }

  /** A stripped line that names an item: a bullet that is not a marker. */
  predicate IsItemLine(line: string) {
    line != [] && MarkerZone(line).None? && IsBullet(line)
  }

  /** The item a bullet line contributes: the text after the bullet character, stripped. */
  function ItemText(line: string): string
    requires line != []
  {
    Strip(line[1..])
  }

  /** The zone in force after the given lines: that of the last marker line, or none. */
  function ZoneAfter(lines: seq<string>): Zone
    decreases |lines|
  {
    if lines == [] then NoZone
    else
      var l := Strip(lines[|lines| - 1]);
      if l != [] && MarkerZone(l).Some? then MarkerZone(l).value
      else ZoneAfter(lines[..|lines| - 1])
  }

  /** The items of zone `z`: the item lines governed by a marker of that zone, in order. */
  function ZoneItems(lines: seq<string>, z: Zone): seq<string>
    decreases |lines|
  {
    if lines == [] then []
    else
      var init := lines[..|lines| - 1];
      var l := Strip(lines[|lines| - 1]);
      ZoneItems(init, z) + (if IsItemLine(l) && ZoneAfter(init) == z then [ItemText(l)] else [])
  }

  /** The number of item lines. */
  function ItemLineCount(lines: seq<string>): nat
    decreases |lines|
  {
    if lines == [] then 0
    else ItemLineCount(lines[..|lines| - 1]) + (if IsItemLine(Strip(lines[|lines| - 1])) then 1 else 0)
  }

  /**
   * Every item line lands in exactly one list, or in none when no marker
   * precedes it: the lists together hold at most one item per item line.
   */
  lemma {:induction false} ZoneItemsPartition(lines: seq<string>)
    ensures |ZoneItems(lines, InScope)| + |ZoneItems(lines, OutOfScope)| + |ZoneItems(lines, Unclear)|
            + |ZoneItems(lines, NoZone)| == ItemLineCount(lines)
    decreases |lines|
  {
    if lines != [] {
      ZoneItemsPartition(lines[..|lines| - 1]);
    }
  }

  /** Until the first marker line, bullets are dropped. */
  lemma {:induction false} NoMarkerNoItems(lines: seq<string>, z: Zone)
    requires z != NoZone
    requires forall i :: 0 <= i < |lines| ==> Strip(lines[i]) == [] || MarkerZone(Strip(lines[i])).None?
    ensures ZoneAfter(lines) == NoZone && ZoneItems(lines, z) == []
    decreases |lines|
  {
    if lines != [] {
      NoMarkerNoItems(lines[..|lines| - 1], z);
    }
  }

  /** One more line: the zone and the items change only by what that line contributes. */
  lemma {:induction false} ZoneStep(lines: seq<string>, i: nat, z: Zone)
    requires i < |lines|
    ensures var l := Strip(lines[i]);
            && ZoneAfter(lines[..i + 1]) == (if l != [] && MarkerZone(l).Some? then MarkerZone(l).value else ZoneAfter(lines[..i]))
            && ZoneItems(lines[..i + 1], z)
               == ZoneItems(lines[..i], z) + (if IsItemLine(l) && ZoneAfter(lines[..i]) == z then [ItemText(l)] else [])
  {
    assert lines[..i + 1][..i] == lines[..i];
  }

  /** The manual boundary parser's loop: three lists filled as marker lines switch between them. */
  method ScanBoundaries(text: string) returns (inScope: seq<string>, outOfScope: seq<string>, unclear: seq<string>)
    ensures inScope == ZoneItems(SplitOn(text, '\n'), InScope)
    ensures outOfScope == ZoneItems(SplitOn(text, '\n'), OutOfScope)
    ensures unclear == ZoneItems(SplitOn(text, '\n'), Unclear)
  {
    var lines := SplitOn(text, '\n');
    var zone := NoZone;
    inScope, outOfScope, unclear := [], [], [];
    var i := 0;
    while i < |lines|
      invariant 0 <= i <= |lines|
      invariant zone == ZoneAfter(lines[..i])
      invariant inScope == ZoneItems(lines[..i], InScope)
      invariant outOfScope == ZoneItems(lines[..i], OutOfScope)
      invariant unclear == ZoneItems(lines[..i], Unclear)
    {
      ZoneStep(lines, i, InScope);
      ZoneStep(lines, i, OutOfScope);
      ZoneStep(lines, i, Unclear);
      var line := Strip(lines[i]);
      i := i + 1;
      if line == [] {
        continue;
      }
      var marker := MarkerZone(line);
      if marker.Some? {
        zone := marker.value;
        continue;
      }
      if IsBullet(line) {
        var item := ItemText(line);
        if zone == InScope {
          inScope := inScope + [item];
        } else if zone == OutOfScope {
          outOfScope := outOfScope + [item];
        } else if zone == Unclear {
          unclear := unclear + [item];
        }
      }
    }
    assert lines[..i] == lines;
  }

  function Strings(items: seq<string>): (js: seq<JValue>)
    ensures |js| == |items| && forall i :: 0 <= i < |items| ==> js[i] == JStr(items[i])
  {
    seq(|items|, i requires 0 <= i < |items| => JStr(items[i]))
  }

  /** The dict `_identify_boundaries` starts from: the three keys with empty lists. */
  const EmptyBoundaries: Dict := [("in_scope", JArr([])), ("out_of_scope", JArr([])), ("unclear", JArr([]))]

  /** The dict the manual parser fills. */
  function ManualBoundaries(text: string): Dict {
    var lines := SplitOn(text, '\n');
    [("in_scope", JArr(Strings(ZoneItems(lines, InScope)))),
     ("out_of_scope", JArr(Strings(ZoneItems(lines, OutOfScope)))),
     ("unclear", JArr(Strings(ZoneItems(lines, Unclear))))]
  }

  /** What the boundary tiers leave in `boundaries`: a fenced body that does not decode leaves the starting dict. */
  function ParsedBoundaries(reply: string, decode: Decoder): JValue {
    match FindFence(reply)
    case Some(body) => (match decode(body) case Some(v) => v case None => JObj(EmptyBoundaries))
    case None =>
      (match decode(reply)
       case Some(v) => v
       case None => JObj(ManualBoundaries(reply)))
  }

  const BoundaryKeys: seq<string> := ["in_scope", "out_of_scope", "unclear"]

  /** The default of a missing boundary key: an empty list. */
  function NoItems(key: string): JValue {
    JArr([])
  }

  /** `len(r.get(k, []))` for each key in turn: the first value that has no length, if any. */
  function FirstUnsized(r: Dict, keys: seq<string>): (u: Option<JValue>)
    ensures u.None? <==> forall k :: k in keys ==> Len(Get(r, k, JArr([]))).Some?
    ensures u.Some? ==> Len(u.value).None?
    decreases |keys|
  {
    if keys == [] then None
    else
      var x := Get(r, keys[0], JArr([]));
      assert forall k :: k in keys ==> k == keys[0] || k in keys[1..];
      if Len(x).None? then Some(x) else FirstUnsized(r, keys[1..])
  }

  /**
   * `r` is `d` with `keys` ensured: each present with a value that has a
   * length, a key already in `d` keeps its value, a missing one holds an
   * empty list, and no other key is added.
   */
  ghost predicate EnsuredKeys(d: Dict, r: Dict, keys: seq<string>) {
    && (forall k :: k in keys ==> HasKey(r, k) && Len(Lookup(r, k).value).Some?)
    && (forall k :: HasKey(d, k) ==> Lookup(r, k) == Lookup(d, k))
    && (forall k :: k in keys && !HasKey(d, k) ==> Lookup(r, k) == Some(JArr([])))
    && (forall k :: HasKey(r, k) ==> HasKey(d, k) || k in keys)
  }

  /**
   * The key check after the tiers and the summary that follows it: each
   * missing key is set to an empty list, and `len` of each of the three
   * values must be defined. A list or string that holds all three names
   * passes the check and fails on `.get`; one that lacks a name fails on
   * the assignment; any other value fails on `in`.
   */
  function EnsureBoundaryKeys(v: JValue): (r: Outcome<Dict>)
    ensures r.Ok? ==> v.JObj? && EnsuredKeys(v.fields, r.value, BoundaryKeys)
  {
    match v
    case JObj(d) => DictKeysEnsured(d, BoundaryKeys)
    case JArr(xs) =>
      if JStr("in_scope") in xs && JStr("out_of_scope") in xs && JStr("unclear") in xs then Raised(NoGetMessage(v))
      else Raised(NoItemAssignmentMessage(v))
    case JStr(s) =>
      if Contains(s, "in_scope") && Contains(s, "out_of_scope") && Contains(s, "unclear") then Raised(NoGetMessage(v))
      else Raised(NoItemAssignmentMessage(v))
    case _ => Raised(MembershipMessage(v))
  }

  /** The key check on a dict: the missing keys are defaulted, then each value's `len` is taken. */
  function DictKeysEnsured(d: Dict, keys: seq<string>): (r: Outcome<Dict>)
    ensures r.Ok? ==> EnsuredKeys(d, r.value, keys)
  {
    var r := DefaultAll(d, keys, NoItems);
    match FirstUnsized(r, keys)
    case Some(x) => Raised(NoLenMessage(x))
    case None => Ok(r)
  }

  /** A dict passes the key check when each boundary key it already holds has a value with a length. */
  lemma {:induction false} EnsureBoundaryKeysOk(d: Dict)
    requires forall k :: k in BoundaryKeys && HasKey(d, k) ==> Len(Lookup(d, k).value).Some?
    ensures EnsureBoundaryKeys(JObj(d)).Ok?
  {
    DictChecked(d);
    DefaultsSized(d, BoundaryKeys);
    DictKeysOk(d, BoundaryKeys);
  }

  /** A dict goes through the dict branch of the key check. */
  lemma {:induction false} DictChecked(d: Dict)
    ensures EnsureBoundaryKeys(JObj(d)) == DictKeysEnsured(d, BoundaryKeys)
  {
  }

  lemma {:induction false} DictKeysOk(d: Dict, keys: seq<string>)
    requires FirstUnsized(DefaultAll(d, keys, NoItems), keys).None?
    ensures DictKeysEnsured(d, keys) == Ok(DefaultAll(d, keys, NoItems))
  {
  }

  lemma {:induction false} DefaultsSized(d: Dict, keys: seq<string>)
    requires forall k :: k in keys && HasKey(d, k) ==> Len(Lookup(d, k).value).Some?
    ensures FirstUnsized(DefaultAll(d, keys, NoItems), keys).None?
  {
    var r := DefaultAll(d, keys, NoItems);
    forall k | k in keys ensures Len(Get(r, k, JArr([]))).Some? {
      if !HasKey(d, k) {
        assert Lookup(r, k) == Some(NoItems(k));
      }
    }
  }

  /** `_identify_boundaries`: a failed model call escapes, and the key check may raise. */
  function Boundaries(sections: Dict, llm: Model, decode: Decoder): (r: Outcome<Dict>)
    ensures r.Ok? ==> llm(BoundariesPrompt(ChosenSections(sections, BoundaryKeywords))).Reply?
  {
    match llm(BoundariesPrompt(ChosenSections(sections, BoundaryKeywords)))
    case Failed(m) => Raised(m)
    case Unreadable(m) => Raised(m)
    case Reply(t) => EnsureBoundaryKeys(ParsedBoundaries(t, decode))
  }

  /** A successful boundary result holds each boundary key with a value that has a length. */
  lemma {:induction false} BoundariesSized(sections: Dict, llm: Model, decode: Decoder)
    ensures var r := Boundaries(sections, llm, decode);
            r.Ok? ==> forall k :: k in BoundaryKeys ==> HasKey(r.value, k) && Len(Lookup(r.value, k).value).Some?
  {
  }

  /**
   * Whatever tier the boundaries come from, a successful result holds the
   * three keys, each with a value that has a length; without a fence and
   * without JSON the result is the manually parsed dict exactly.
   */
  lemma {:induction false} BoundariesKeys(sections: Dict, llm: Model, decode: Decoder)
    ensures var r := Boundaries(sections, llm, decode);
            r.Ok? ==> forall k :: k in BoundaryKeys ==> HasKey(r.value, k)
    ensures var reply := llm(BoundariesPrompt(ChosenSections(sections, BoundaryKeywords)));
            reply.Reply? && FindFence(reply.text).None? && decode(reply.text).None? ==>
              Boundaries(sections, llm, decode) == Ok(ManualBoundaries(reply.text))
  {
    var reply := llm(BoundariesPrompt(ChosenSections(sections, BoundaryKeywords)));
    if reply.Reply? && FindFence(reply.text).None? && decode(reply.text).None? {
      ManualBoundariesAccepted(reply.text);
    }
  }

  lemma {:induction false} ManualBoundariesAccepted(text: string)
    ensures EnsureBoundaryKeys(JObj(ManualBoundaries(text))) == Ok(ManualBoundaries(text))
  {
    var m := ManualBoundaries(text);
    ManualBoundariesShape(text);
    DictChecked(m);
    PresentKeysChecked(m, BoundaryKeys);
  }

  /** The manual parse holds the three boundary keys, each with a list. */
  lemma {:induction false} ManualBoundariesShape(text: string)
    ensures forall k :: k in BoundaryKeys ==> HasKey(ManualBoundaries(text), k)
    ensures forall k :: HasKey(ManualBoundaries(text), k) ==> Len(Lookup(ManualBoundaries(text), k).value).Some?
  {
    var m := ManualBoundaries(text);
    forall k | HasKey(m, k) ensures Len(Lookup(m, k).value).Some? {
      assert m[KeyIndex(m, k)].1.JArr?;
    }
    assert m[0].0 == "in_scope" && m[1].0 == "out_of_scope" && m[2].0 == "unclear";
    assert "in_scope"[0] == 'i' && "out_of_scope"[0] == 'o' && "unclear"[0] == 'u';
    assert KeyIndex(m, "in_scope") == 0 && KeyIndex(m, "out_of_scope") == 1 && KeyIndex(m, "unclear") == 2;
    assert forall k :: k in BoundaryKeys ==> k == "in_scope" || k == "out_of_scope" || k == "unclear";
  }

  /** A dict that holds every key with a sized value passes the check unchanged. */
  lemma {:induction false} PresentKeysChecked(d: Dict, keys: seq<string>)
    requires forall k :: k in keys ==> HasKey(d, k)
    requires forall k :: HasKey(d, k) ==> Len(Lookup(d, k).value).Some?
    ensures DictKeysEnsured(d, keys) == Ok(d)
  {
    DefaultsSized(d, keys);
    DictKeysOk(d, keys);
  }

  // ---------------------------------------------------------------------
  // parse_sow
  // ---------------------------------------------------------------------

  /** The dict `parse_sow` returns. */
  datatype Sow = Sow(sections: Dict, requirements: JValue, boundaries: Dict, fullText: string)

  /** The lower-cased extension `parse_sow` dispatches on. */
  function LowerExtension(path: string): string {
    Lower(Extension(path))
  }

  /**
   * `parse_sow`: only ".pdf", ".docx" and ".doc" (in any case) are read;
   * every other extension raises `ValueError` naming the lower-cased
   * extension. An exception of any step escapes unchanged.
   */
  function ParseSow(path: string, extract: TextExtractor, llm: Model, decode: Decoder): (r: Outcome<Sow>)
    ensures LowerExtension(path) !in {".pdf", ".docx", ".doc"} ==>
              r == Raised("Unsupported file format: " + LowerExtension(path))
    ensures r.Ok? ==>
              && LowerExtension(path) in {".pdf", ".docx", ".doc"}
              && r.value.fullText == extract(if LowerExtension(path) == ".pdf" then Pdf else Docx, path)
              && Sections(r.value.fullText, llm, decode) == Ok(r.value.sections)
              && Requirements(r.value.sections, llm, decode) == Ok(r.value.requirements)
              && Boundaries(r.value.sections, llm, decode) == Ok(r.value.boundaries)
              && forall k :: k in BoundaryKeys ==> HasKey(r.value.boundaries, k)
  {
    var ext := LowerExtension(path);
    match FormatOf(ext)
    case None => Raised("Unsupported file format: " + ext)
    case Some(format) =>
      var text := extract(format, path);
      match Sections(text, llm, decode)
      case Raised(m) => Raised(m)
      case Ok(sections) =>
        match Requirements(sections, llm, decode)
        case Raised(m) => Raised(m)
        case Ok(requirements) =>
          match Boundaries(sections, llm, decode)
          case Raised(m) => Raised(m)
          case Ok(boundaries) =>
            BoundariesKeys(sections, llm, decode);
            Ok(Sow(sections, requirements, boundaries, text))
  }
}
