/**
 * The two pure helpers of the project HTTP API: the file-name sanitiser
 * used for project directories, and the normalisation loop behind
 * `GET /list_projects`, which turns whatever the pipeline lists into a
 * list of display names without ever failing the request.
 */
module ProjectApi {
  import opened Base
  import opened Text

  // ------------------------------------------------------------ sanitize_filename

  /** A character `sanitize_filename` keeps: a letter or digit, '-' or '_'. */
  predicate SafeChar(c: char) {
    IsAlnum(c) || c == '-' || c == '_'
  }

  /** `sanitize_filename`: the safe characters, in order, then `rstrip()`. */
  function SanitizeFilename(name: string): (r: string)
    ensures |r| <= |name|
    ensures forall c :: c in r <==> c in name && SafeChar(c)
  {
    TrimRight(Filter(name, SafeChar), IsSpace)
  }

  /** No safe character is blank, so the closing `rstrip()` never removes anything. */
  lemma {:induction false} SanitizeIsFilter(name: string)
    ensures SanitizeFilename(name) == Filter(name, SafeChar)
  {
    var kept := Filter(name, SafeChar);
    if kept != [] {
      assert SafeChar(kept[|kept| - 1]);
    }
  }

  lemma {:induction false} FilterAppend(a: string, b: string)
    ensures Filter(a + b, SafeChar) == Filter(a, SafeChar) + Filter(b, SafeChar)
    decreases |a|
  {
    if a != [] {
      assert (a + b)[0] == a[0] && (a + b)[1..] == a[1..] + b;
      FilterAppend(a[1..], b);
    } else {
      assert a + b == b;
    }
  }

  /**
   * Sanitising works character by character: the name of a concatenation
   * is the concatenation of the names, so the kept characters stay in
   * their original order.
   */
  lemma {:induction false} SanitizeAppend(a: string, b: string)
    ensures SanitizeFilename(a + b) == SanitizeFilename(a) + SanitizeFilename(b)
  {
    SanitizeIsFilter(a + b);
    SanitizeIsFilter(a);
    SanitizeIsFilter(b);
    FilterAppend(a, b);
  }

  /** A character is kept exactly when it is safe. */
  lemma {:induction false} SanitizeChar(c: char)
    ensures SanitizeFilename([c]) == if SafeChar(c) then [c] else []
  {
    SanitizeIsFilter([c]);
    assert [c][1..] == [];
  }

  lemma {:induction false} FilterSafeFixed(s: string)
    requires forall c :: c in s ==> SafeChar(c)
    ensures Filter(s, SafeChar) == s
    decreases |s|
  {
    if s != [] {
      assert forall c :: c in s[1..] ==> c in s;
      FilterSafeFixed(s[1..]);
      assert s == [s[0]] + s[1..];
    }
  }

  /** Sanitising a sanitised name changes nothing. */
  lemma {:induction false} SanitizeIdempotent(name: string)
    ensures SanitizeFilename(SanitizeFilename(name)) == SanitizeFilename(name)
  {
    var once := SanitizeFilename(name);
    SanitizeIsFilter(once);
    FilterSafeFixed(once);
  }

  // ------------------------------------------------------------ list_projects

  /** What the pipeline's project list can hold, as far as the loop can tell. */
  datatype ProjectEntry =
    | NoneEntry                          // None
    | TextEntry(text: string)            // a str
    | NamedEntry(name: string)           // an object with a `name` attribute
    | OtherEntry(rendered: Outcome<string>) // any other object: what `str()` gives, or raises

  /** The response of `GET /list_projects`. */
  datatype ListReply = ListReply(status: string, projects: seq<string>, error: Option<string>)

  /** The message `len(None)` raises. */
  const NoneLenMessage := "object of type 'NoneType' has no len()"

  /** Longest `str()` rendering kept whole. */
  const MaxRendered := 100

  /** What one entry contributes to the list: nothing when it is skipped. */
  function EntryName(e: ProjectEntry): Option<string> {
    match e
    case NoneEntry => None
    case TextEntry(t) => if Strip(t) == [] then None else Some(t)
    case NamedEntry(n) => Some(n)
    case OtherEntry(Raised(_)) => None
    case OtherEntry(Ok(s)) => Some(if |s| > MaxRendered then s[..MaxRendered] + "..." else s)
  }

  /** The names the loop collects from `entries`, in their order. */
  function ProjectNames(entries: seq<ProjectEntry>): (names: seq<string>)
    ensures |names| <= |entries|
    decreases |entries|
  {
    if entries == [] then []
    else
      var front := entries[..|entries| - 1];
      ProjectNames(front) + match EntryName(entries[|entries| - 1]) case Some(n) => [n] case None => []
  }

  /**
   * `list_projects`: the pipeline's listing, or the exception it raised.
   * `Ok(None)` fails at `len()` in the log line before the `None` check,
   * so it ends in the outer handler like any other exception.
   */
  method ListProjects(listed: Outcome<Option<seq<ProjectEntry>>>) returns (r: ListReply)
    ensures listed.Raised? ==> r == ListReply("warning", [], Some(listed.message))
    ensures listed == Ok(None) ==> r == ListReply("warning", [], Some(NoneLenMessage))
    ensures listed.Ok? && listed.value.Some? ==> r == ListReply("success", ProjectNames(listed.value.value), None)
  {
    if listed.Raised? {
      return ListReply("warning", [], Some(listed.message));
    }
    if listed.value.None? {
      return ListReply("warning", [], Some(NoneLenMessage));
    }
    var entries := listed.value.value;
    var names: seq<string> := [];
    var i := 0;
    while i < |entries|
      invariant 0 <= i <= |entries|
      invariant names == ProjectNames(entries[..i])
    {
      assert entries[..i + 1][..i] == entries[..i];
      var e := entries[i];
      match e {
        case NoneEntry =>
        case TextEntry(t) =>
          if Strip(t) != [] {
            names := names + [t];
          }
        case NamedEntry(n) =>
          names := names + [n];
        case OtherEntry(rendered) =>
          if rendered.Ok? {
            var s := rendered.value;
            if |s| > MaxRendered {
              s := s[..MaxRendered] + "...";
            }
            names := names + [s];
          }
      }
      i := i + 1;
    }
    assert entries[..i] == entries;
    return ListReply("success", names, None);
  }

  /** The names of a concatenation are the names of each part, in order. */
  lemma {:induction false} ProjectNamesAppend(a: seq<ProjectEntry>, b: seq<ProjectEntry>)
    ensures ProjectNames(a + b) == ProjectNames(a) + ProjectNames(b)
    decreases |b|
  {
    if b == [] {
      assert a + b == a;
    } else {
      var b' := b[..|b| - 1];
      assert (a + b)[..|a + b| - 1] == a + b';
      assert (a + b)[|a + b| - 1] == b[|b| - 1];
      ProjectNamesAppend(a, b');
    }
  }

  /** None entries and blank strings, wherever they are, contribute nothing. */
  lemma {:induction false} SkippedEntriesDropped(entries: seq<ProjectEntry>)
    requires forall e :: e in entries ==> e.NoneEntry? || (e.TextEntry? && Strip(e.text) == [])
    ensures ProjectNames(entries) == []
    decreases |entries|
  {
    if entries != [] {
      var front := entries[..|entries| - 1];
      assert forall e :: e in front ==> e in entries;
      SkippedEntriesDropped(front);
    }
  }

  /** The entries of a list of strings. */
  function TextEntries(ts: seq<string>): (es: seq<ProjectEntry>)
    ensures |es| == |ts| && forall i :: 0 <= i < |ts| ==> es[i] == TextEntry(ts[i])
  {
    seq(|ts|, i requires 0 <= i < |ts| => TextEntry(ts[i]))
  }

  /** Entries that are all kept give exactly their names, in order. */
  lemma {:induction false} AllKept(es: seq<ProjectEntry>, names: seq<string>)
    requires |es| == |names| && forall i :: 0 <= i < |es| ==> EntryName(es[i]) == Some(names[i])
    ensures ProjectNames(es) == names
    decreases |es|
  {
    if es != [] {
      AllKept(es[..|es| - 1], names[..|names| - 1]);
    }
  }

  /** A list of non-blank strings comes back unchanged and in order. */
  lemma {:induction false} TextsKept(ts: seq<string>)
    requires forall i :: 0 <= i < |ts| ==> Strip(ts[i]) != []
    ensures ProjectNames(TextEntries(ts)) == ts
  {
    AllKept(TextEntries(ts), ts);
  }

  /** A kept string is kept as it is, with no stripping. */
  lemma {:induction false} TextEntryVerbatim(t: string)
    requires Strip(t) != []
    ensures ProjectNames([TextEntry(t)]) == [t]
  {
    assert [TextEntry(t)][..0] == [];
  }

  /** A `str()` rendering is cut to its first 100 characters plus "..." when longer, and kept whole otherwise. */
  lemma {:induction false} RenderedBound(s: string)
    ensures var n := EntryName(OtherEntry(Ok(s)));
            && n.Some?
            && |n.value| <= MaxRendered + 3
            && (|s| <= MaxRendered ==> n.value == s)
            && (|s| > MaxRendered ==> StartsWith(n.value, s[..MaxRendered]) && StartsWith(s, n.value[..MaxRendered]))
  {
  }
}
