/**
 * The document helpers of file_processing.py that the discovery flow
 * relies on: choosing the PDF name a Word or PowerPoint file is converted
 * to, extracting keywords and short phrases from a requirement, and
 * finding where those keywords occur in a document, with up to a hundred
 * characters of context on each side of every occurrence.
 */
module FileProcessing {
  import opened Base
  import opened Text
  import opened Json

  // ---------------------------------------------------------------------
  // convert_to_pdf
  // ---------------------------------------------------------------------

  /** Python `os.path.splitext(path)[0]`: the path without its extension. */
  function Root(path: string): (root: string)
    ensures path == root + Extension(path)
  {
    path[..|path| - |Extension(path)|]
  }

  /** The lower-cased extensions `convert_to_pdf` converts: Word documents, then PowerPoint decks. */
  const WordExtensions: seq<string> := [".docx", ".doc"]
  const SlideExtensions: seq<string> := [".pptx", ".ppt"]

  /**
   * The file `convert_to_pdf` writes, or `None` when the extension is not
   * one it converts. The conversion itself is a foreign call and is not
   * part of this model.
   */
  function PdfPath(path: string): (r: Option<string>)
    ensures r.Some? <==> Lower(Extension(path)) in WordExtensions + SlideExtensions
    ensures r.Some? ==> r.value == Root(path) + PdfSuffix && path == Root(path) + Extension(path)
  {
    var extension := Lower(Extension(path));
    var output := Root(path) + PdfSuffix;
    if extension in WordExtensions then Some(output)
    else if extension in SlideExtensions then Some(output)
    else None
  }

  /** A converted file keeps its name and directory and has the extension ".pdf". */
  lemma {:induction false} PdfPathExtension(path: string)
    requires PdfPath(path).Some?
    requires Root(path) != [] && Root(path)[|Root(path)| - 1] != '.' && Root(path)[|Root(path)| - 1] != '/'
    ensures Extension(PdfPath(path).value) == PdfSuffix
    ensures Root(PdfPath(path).value) == Root(path)
  {
    RootPlusPdf(Root(path));
  }

  const PdfSuffix := ".pdf"

  /** ".pdf" after a root that ends in an ordinary character is that root's extension. */
  lemma {:induction false} RootPlusPdf(root: string)
    requires root != [] && root[|root| - 1] != '.' && root[|root| - 1] != '/'
    ensures Extension(root + PdfSuffix) == PdfSuffix && Root(root + PdfSuffix) == root
  {
    var out := root + PdfSuffix;
    PdfSuffixShape();
    ExtensionOfName(root, PdfSuffix);
    assert out[..|out| - |PdfSuffix|] == root;
  }

  lemma {:induction false} PdfSuffixShape()
    ensures PdfSuffix != [] && PdfSuffix[0] == '.'
    ensures forall j :: 1 <= j < |PdfSuffix| ==> PdfSuffix[j] != '.' && PdfSuffix[j] != '/'
  {
  }

  // ---------------------------------------------------------------------
  // extract_keywords
  // ---------------------------------------------------------------------

  const StopWords: seq<string> := [
    "the", "a", "an", "and", "or", "but", "in", "on", "at", "to", "for",
    "with", "by", "shall", "will", "should", "must"
  ]

  /** The characters every keyword is stripped of at both ends. */
  const Punctuation: set<char> := {',', '.', '(', ')', '[', ']', '{', '}', ':', ';', '\'', '"'}

  /** A word is kept on its own when it is not a stop word and is longer than three characters before stripping. */
  predicate KeptWord(w: string) {
    Lower(w) !in StopWords && |w| > 3
  }

  /** The kept words, each cleaned, in order. */
  function SingleWords(words: seq<string>, clean: string -> string): (r: seq<string>)
    ensures forall k :: k in r <==> exists w :: w in words && KeptWord(w) && k == clean(w)
    decreases |words|
  {
    if words == [] then []
    else
      var init := SingleWords(words[..|words| - 1], clean);
      var w := words[|words| - 1];
      assert words == words[..|words| - 1] + [w];
      if KeptWord(w) then init + [clean(w)] else init
  }

  /** Two words as the phrase loop joins them. */
  function Pair(a: string, b: string): string { a + " " + b }

  /** Three words as the phrase loop joins them. */
  function Triple(a: string, b: string, c: string): string { a + " " + b + " " + c }

  /** Every adjacent pair of words joined by a space, cleaned. */
  function Bigrams(words: seq<string>, clean: string -> string): (r: seq<string>)
    ensures forall k :: k in r <==> exists i :: 0 <= i < |words| - 1 && k == clean(Pair(words[i], words[i + 1]))
    decreases |words|
  {
    if |words| < 2 then []
    else
      var n := |words|;
      Bigrams(words[..n - 1], clean) + [clean(Pair(words[n - 2], words[n - 1]))]
  }

  /** Every adjacent triple of words joined by spaces, cleaned. */
  function Trigrams(words: seq<string>, clean: string -> string): (r: seq<string>)
    ensures forall k :: k in r <==> exists i :: 0 <= i < |words| - 2 && k == clean(Triple(words[i], words[i + 1], words[i + 2]))
    decreases |words|
  {
    if |words| < 3 then []
    else
      var n := |words|;
      Trigrams(words[..n - 1], clean) + [clean(Triple(words[n - 3], words[n - 2], words[n - 1]))]
  }

  predicate NoDuplicates<T(==)>(s: seq<T>) {
    forall i, j :: 0 <= i < j < |s| ==> s[i] != s[j]
  }

  /**
   * `list(set(xs))`. Python gives no order to a set; this keeps first
   * occurrences, which is one of the orders it may produce.
   */
  function Dedup<T(==,!new)>(xs: seq<T>): (r: seq<T>)
    ensures NoDuplicates(r)
    ensures forall x :: x in r <==> x in xs
    decreases |xs|
  {
    if xs == [] then []
    else
      var init := Dedup(xs[..|xs| - 1]);
      var x := xs[|xs| - 1];
      assert xs == xs[..|xs| - 1] + [x];
      if x in init then init else init + [x]
  }

  /** The words of a requirement: its lower-cased text split on blanks. */
  function Words(text: string): (ws: seq<string>)
    ensures forall k :: 0 <= k < |ws| ==> ws[k] != [] && forall c :: c in ws[k] ==> !IsSpace(c)
  {
    SplitWords(Lower(text))
  }

  /** `k` is a kept word, or an adjacent pair or triple of words, once cleaned. */
  predicate IsCandidate(words: seq<string>, clean: string -> string, k: string) {
    || (exists w :: w in words && KeptWord(w) && k == clean(w))
    || (exists i :: 0 <= i < |words| - 1 && k == clean(Pair(words[i], words[i + 1])))
    || (exists i :: 0 <= i < |words| - 2 && k == clean(Triple(words[i], words[i + 1], words[i + 2])))
  }

  /** The keywords `extract_keywords` finds when every candidate is cleaned by `clean`: each candidate once. */
  function KeywordsWith(text: string, clean: string -> string): (r: seq<string>)
    ensures NoDuplicates(r)
    ensures forall k :: k in r <==> IsCandidate(Words(text), clean, k)
  {
    var words := Words(text);
    Dedup(SingleWords(words, clean) + Bigrams(words, clean) + Trigrams(words, clean))
  }

  /** Python `w.strip(',.()[]{}:;\'"')`. */
  function StripPunctuation(w: string): string {
    StripChars(w, Punctuation)
  }

  /** `extract_keywords(text)`: candidates are stripped of punctuation only. */
  function Keywords(text: string): (r: seq<string>)
    ensures NoDuplicates(r)
  {
    KeywordsWith(text, StripPunctuation)
  }

  /** The first phrase loop of `extract_keywords`: every adjacent pair appended in turn. */
  method AppendPairs(found: seq<string>, words: seq<string>, clean: string -> string) returns (r: seq<string>)
    ensures r == found + Bigrams(words, clean)
  {
    r := found;
    var i := 0;
    while i < |words| - 1
      invariant 0 <= i <= Max(|words| - 1, 0)
      invariant r == found + Bigrams(words[..Min(i + 1, |words|)], clean)
    {
      assert words[..i + 2][..i + 1] == words[..i + 1];
      r := r + [clean(Pair(words[i], words[i + 1]))];
      i := i + 1;
    }
    assert words[..Min(i + 1, |words|)] == words;
  }

  /** The second phrase loop of `extract_keywords`: every adjacent triple appended in turn. */
  method AppendTriples(found: seq<string>, words: seq<string>, clean: string -> string) returns (r: seq<string>)
    ensures r == found + Trigrams(words, clean)
  {
    r := found;
    var i := 0;
    while i < |words| - 2
      invariant 0 <= i <= Max(|words| - 2, 0)
      invariant r == found + Trigrams(words[..Min(i + 2, |words|)], clean)
    {
      assert words[..i + 3][..i + 2] == words[..i + 2];
      r := r + [clean(Triple(words[i], words[i + 1], words[i + 2]))];
      i := i + 1;
    }
    assert words[..Min(i + 2, |words|)] == words;
  }

  /** `extract_keywords`: the candidates of the lower-cased words, each kept once. */
  method ExtractKeywords(text: string) returns (keywords: seq<string>)
    ensures keywords == Keywords(text)
  {
    var words := Words(text);
    var found := SingleWords(words, StripPunctuation);
    found := AppendPairs(found, words, StripPunctuation);
    found := AppendTriples(found, words, StripPunctuation);
    keywords := Dedup(found);
  }

  // ---------------------------------------------------------------------
  // Case-insensitive search with context (re.finditer)
  // ---------------------------------------------------------------------

  /** The most characters `.{0,100}` takes on either side of a keyword. */
  const Window: nat := 100

  /** `kw` matches `text` at index `q` under `re.IGNORECASE` (ASCII letters fold). */
  predicate OccursAt(text: string, kw: string, q: int) {
    0 <= q && q + |kw| <= |text| && forall j :: 0 <= j < |kw| ==> LowerChar(text[q + j]) == LowerChar(kw[j])
  }

  ghost predicate ContainsIgnoringCase(s: string, sub: string) {
    exists i :: OccursAt(s, sub, i)
  }

  /** The first index at or after `from` where `kw` matches. */
  function FirstOccurrence(text: string, kw: string, from: nat): (r: Option<nat>)
    ensures r.Some? ==> from <= r.value && OccursAt(text, kw, r.value)
    ensures r.Some? ==> forall j :: from <= j < r.value ==> !OccursAt(text, kw, j)
    ensures r.None? ==> forall j :: from <= j ==> !OccursAt(text, kw, j)
    decreases |text| - from
  {
    if from + |kw| > |text| then None
    else if OccursAt(text, kw, from) then Some(from)
    else FirstOccurrence(text, kw, from + 1)
  }

  /**
   * How many characters before `q`, and not before `from`, a leading
   * `.{0,100}` can take: at most a hundred, and none across a newline.
   */
  function ReachBack(text: string, from: nat, q: nat): (k: nat)
    requires from <= q <= |text|
    ensures k <= Window && from <= q - k
    ensures forall j :: q - k <= j < q ==> text[j] != '\n'
    ensures k < Window && from < q - k ==> text[q - k - 1] == '\n'
    decreases q - from
  {
    if q == from || text[q - 1] == '\n' then 0
    else Min(Window, 1 + ReachBack(text, from, q - 1))
  }

  /** How many characters from `p` on a greedy `.{0,100}` takes: at most a hundred, and none across a newline. */
  function ReachForward(text: string, p: nat): (n: nat)
    requires p <= |text|
    ensures n <= Window && p + n <= |text|
    ensures forall j :: p <= j < p + n ==> text[j] != '\n'
    ensures n < Window && p + n < |text| ==> text[p + n] == '\n'
    decreases |text| - p
  {
    if p == |text| || text[p] == '\n' then 0
    else Min(Window, 1 + ReachForward(text, p + 1))
  }

  /** A greedy `.{0,100}` from `p` reaches every index within a hundred characters on the same line. */
  lemma {:induction false} ReachForwardCovers(text: string, p: nat, q: nat)
    requires p <= q <= |text| && q - p <= Window
    requires forall j :: p <= j < q ==> text[j] != '\n'
    ensures p + ReachForward(text, p) >= q
    decreases q - p
  {
    if p < q {
      ReachForwardCovers(text, p + 1, q);
    }
  }

  /** The last index in `[known, hi]` where `kw` matches: where a greedy prefix backtracks to. */
  function LastOccurrence(text: string, kw: string, hi: nat, known: nat): (q: nat)
    requires known <= hi && OccursAt(text, kw, known)
    ensures known <= q <= hi && OccursAt(text, kw, q)
    ensures forall j :: q < j <= hi ==> !OccursAt(text, kw, j)
    decreases hi - known
  {
    if OccursAt(text, kw, hi) then hi else LastOccurrence(text, kw, hi - 1, known)
  }

  /**
   * The next match of `'(.{0,100}' + re.escape(kw) + '.{0,100})'` at or
   * after `from`: its start, the index of the keyword in it, and its end.
   * A match starts as early as possible: a hundred characters (or up to
   * the line start, or `from`) before the first occurrence. Its greedy
   * prefix then backtracks to the last occurrence it can reach, and the
   * suffix takes what is left of a hundred characters on the line.
   */
  function NextMatch(text: string, kw: string, from: nat): (r: Option<(nat, nat, nat)>)
    requires from <= |text|
    ensures r.None? <==> FirstOccurrence(text, kw, from).None?
    ensures r.Some? ==> from <= r.value.0 <= r.value.1 && r.value.1 + |kw| <= r.value.2 <= |text|
    ensures r.Some? ==> OccursAt(text, kw, r.value.1) && r.value.2 - r.value.0 <= 2 * Window + |kw|
  {
    match FirstOccurrence(text, kw, from)
    case None => None
    case Some(first) =>
      var p := first - ReachBack(text, from, first);
      ReachForwardCovers(text, p, first);
      var q := LastOccurrence(text, kw, p + ReachForward(text, p), first);
      Some((p, q, q + |kw| + ReachForward(text, q + |kw|)))
  }

  /**
   * The stripped contexts of `re.finditer` over `text` from index `from`,
   * the empty ones dropped; the search resumes where each match ended.
   */
  function Contexts(text: string, kw: string, from: nat): (r: seq<string>)
    requires kw != [] && from <= |text|
    ensures forall c :: c in r ==> c != []
    decreases |text| - from
  {
    match NextMatch(text, kw, from)
    case None => []
    case Some((p, q, e)) =>
      var context := Strip(text[p..e]);
      (if context != [] then [context] else []) + Contexts(text, kw, e)
  }

  /** The start and end of the part of `s` that `strip()` keeps. */
  lemma {:induction false} StripSpan(s: string) returns (lo: nat, hi: nat)
    ensures lo <= hi <= |s| && Strip(s) == s[lo..hi]
    ensures forall i :: 0 <= i < lo ==> IsSpace(s[i])
    ensures forall i :: hi <= i < |s| ==> IsSpace(s[i])
    ensures lo < hi ==> !IsSpace(s[lo]) && !IsSpace(s[hi - 1])
  {
    lo := LeadingCount(s, IsSpace);
    var t := s[lo..];
    var b := TrailingCount(t, IsSpace);
    hi := |s| - b;
    assert Strip(s) == t[..|t| - b];
    forall i | hi <= i < |s| ensures IsSpace(s[i]) {
      assert s[i] == t[i - lo];
    }
    if lo < hi {
      assert s[hi - 1] == t[|t| - 1 - b];
    }
  }

  /** Case folding leaves blank characters as they are and makes none. */
  lemma {:induction false} FoldKeepsBlank(c: char, d: char)
    requires LowerChar(c) == LowerChar(d) && !IsSpace(d)
    ensures !IsSpace(c)
  {
  }

  /** Stripping a text that matches `kw` somewhere keeps a match of `kw` without its outer blanks. */
  lemma {:induction false} StrippedOccurrence(s: string, kw: string, q: int)
    requires OccursAt(s, kw, q)
    ensures ContainsIgnoringCase(Strip(s), Strip(kw))
  {
    var lo, hi := StripSpan(s);
    var klo, khi := StripSpan(kw);
    if klo == khi {
      assert OccursAt(Strip(s), Strip(kw), 0);
    } else {
      FoldKeepsBlank(s[q + klo], kw[klo]);
      FoldKeepsBlank(s[q + khi - 1], kw[khi - 1]);
      assert lo <= q + klo;
      assert q + khi <= hi;
      OccursInSlices(s, kw, q, lo, hi, klo, khi);
      assert OccursAt(s[lo..hi], kw[klo..khi], q + klo - lo);
    }
  }

  /** An occurrence survives cutting the text around it and the keyword to a part of itself. */
  lemma OccursInSlices(s: string, kw: string, q: int, lo: nat, hi: nat, klo: nat, khi: nat)
    requires OccursAt(s, kw, q)
    requires klo <= khi <= |kw| && lo <= q + klo && q + khi <= hi <= |s|
    ensures OccursAt(s[lo..hi], kw[klo..khi], q + klo - lo)
  {
    var body, word, off := s[lo..hi], kw[klo..khi], q + klo - lo;
    forall j | 0 <= j < khi - klo
      ensures LowerChar(body[off + j]) == LowerChar(word[j])
    {
      assert body[off + j] == s[q + (klo + j)];
      assert word[j] == kw[klo + j];
    }
  }

  /** The text of a match holds the keyword up to case and the keyword's outer blanks once stripped. */
  lemma {:induction false} MatchHoldsKeyword(text: string, kw: string, p: nat, q: nat, e: nat)
    requires p <= q && q + |kw| <= e <= |text| && OccursAt(text, kw, q)
    ensures ContainsIgnoringCase(Strip(text[p..e]), Strip(kw))
  {
    var s := text[p..e];
    forall j | 0 <= j < |kw| ensures LowerChar(s[q - p + j]) == LowerChar(kw[j]) {
      assert s[q - p + j] == text[q + j];
    }
    StrippedOccurrence(s, kw, q - p);
  }

  /** A non-empty context holding `kw` up to case and the keyword's outer blanks. */
  ghost predicate ContextHolds(c: string, kw: string) {
    c != [] && ContainsIgnoringCase(c, Strip(kw))
  }

  /** Every context is non-empty and holds the keyword, up to case and the keyword's outer blanks. */
  lemma {:induction false} ContextsHoldKeyword(text: string, kw: string, from: nat)
    requires kw != [] && from <= |text|
    ensures forall c :: c in Contexts(text, kw, from) ==> ContextHolds(c, kw)
    decreases |text| - from
  {
    match NextMatch(text, kw, from)
    case None =>
    case Some((p, q, e)) =>
      var context := Strip(text[p..e]);
      var first := if context != [] then [context] else [];
      assert Contexts(text, kw, from) == first + Contexts(text, kw, e);
      MatchHoldsKeyword(text, kw, p, q, e);
      ContextsHoldKeyword(text, kw, e);
      forall c | c in first + Contexts(text, kw, e) ensures ContextHolds(c, kw) {
        if c in first {
          assert c == context;
        }
      }
  }

  // ---------------------------------------------------------------------
  // match_requirements_to_document
  // ---------------------------------------------------------------------

  datatype KeywordMatch = KeywordMatch(keyword: string, context: string)

  /** A dict from requirement ids to their matches, in insertion order. */
  type MatchMap = seq<(JValue, seq<KeywordMatch>)>

  /** No two entries have keys a Python dict would take as equal. */
  predicate DistinctIds<V>(m: seq<(JValue, V)>) {
    forall i, j :: 0 <= i < j < |m| ==> KeyOf(m[i].0) != KeyOf(m[j].0)
  }

  /**
   * Python `d[k] = v`: an existing key equal to `k` (so `1`, `1.0` and
   * `True` alike) keeps its place and its own form and takes the new value;
   * otherwise `k` is appended.
   */
  function Put<V>(m: seq<(JValue, V)>, k: JValue, v: V): (r: seq<(JValue, V)>)
    requires DistinctIds(m)
    ensures DistinctIds(r)
    ensures (forall e :: e in m ==> KeyOf(e.0) != KeyOf(k)) ==> r == m + [(k, v)]
    ensures forall i :: 0 <= i < |m| && KeyOf(m[i].0) == KeyOf(k) ==> r == m[i := (m[i].0, v)]
    decreases |m|
  {
    if m == [] then [(k, v)]
    else if KeyOf(m[0].0) == KeyOf(k) then
      assert forall i :: 0 < i < |m| ==> KeyOf(m[i].0) != KeyOf(k);
      [(m[0].0, v)] + m[1..]
    else
      var rest := Put(m[1..], k, v);
      assert forall i :: 1 <= i < |m| ==> m[1..][i - 1] == m[i];
      assert forall e :: e in rest ==> e in m[1..] || KeyOf(e.0) == KeyOf(k);
      [m[0]] + rest
  }

  /** After `Put`, the key class of `k` holds `v`. */
  lemma {:induction false} PutStores<V>(m: seq<(JValue, V)>, k: JValue, v: V)
    requires DistinctIds(m)
    ensures exists e :: e in Put(m, k, v) && KeyOf(e.0) == KeyOf(k) && e.1 == v
  {
    if i :| 0 <= i < |m| && KeyOf(m[i].0) == KeyOf(k) {
      assert Put(m, k, v)[i] == (m[i].0, v);
    } else {
      assert Put(m, k, v) == m + [(k, v)];
      assert Put(m, k, v)[|m|] == (k, v);
    }
  }

  /**
   * The entry of `k`'s key class after `Put` holds `v` under the key the
   * dict already had, or under `k` when the class was new.
   */
  lemma {:induction false} PutSameClass<V>(m: seq<(JValue, V)>, k: JValue, v: V, e: (JValue, V))
    requires DistinctIds(m)
    requires e in Put(m, k, v) && KeyOf(e.0) == KeyOf(k)
    ensures e.1 == v
    ensures (exists w :: (e.0, w) in m) || (e.0 == k && forall e2 :: e2 in m ==> KeyOf(e2.0) != KeyOf(k))
  {
    var r := Put(m, k, v);
    var j :| 0 <= j < |r| && r[j] == e;
    if i :| 0 <= i < |m| && KeyOf(m[i].0) == KeyOf(k) {
      assert r == m[i := (m[i].0, v)];
      if j != i {
        assert false;
      }
      assert (e.0, m[i].1) == m[i];
    } else {
      assert r == m + [(k, v)];
      if j < |m| {
        assert false;
      }
    }
  }

  /** `Put` leaves every entry of another key class as it was, and adds none. */
  lemma {:induction false} PutOtherClass<V>(m: seq<(JValue, V)>, k: JValue, v: V, e: (JValue, V))
    requires DistinctIds(m)
    requires KeyOf(e.0) != KeyOf(k)
    ensures e in Put(m, k, v) <==> e in m
  {
    var r := Put(m, k, v);
    if i :| 0 <= i < |m| && KeyOf(m[i].0) == KeyOf(k) {
      assert r == m[i := (m[i].0, v)];
      if e in r {
        var j :| 0 <= j < |r| && r[j] == e;
        assert j != i && r[j] == m[j];
      }
      if e in m {
        var j :| 0 <= j < |m| && m[j] == e;
        assert j != i && r[j] == m[j];
      }
    } else {
      assert r == m + [(k, v)];
    }
  }

  /** The text the keywords are searched in: a dict as `json.dumps` writes it, anything else as `str()`. */
  function DocumentText(content: JValue, dumps: Dict -> string): string {
    if content.JObj? then dumps(content.fields) else PyStr(content)
  }

  /** Each context recorded with the keyword it was found for. */
  function Tagged(kw: string, contexts: seq<string>): (r: seq<KeywordMatch>)
    ensures |r| == |contexts|
    ensures forall i :: 0 <= i < |r| ==> r[i] == KeywordMatch(kw, contexts[i])
  {
    seq(|contexts|, i requires 0 <= i < |contexts| => KeywordMatch(kw, contexts[i]))
  }

  /** The matches of one keyword; keywords shorter than four characters are skipped. */
  function KeywordMatches(doc: string, kw: string): (r: seq<KeywordMatch>)
    ensures |kw| < 4 ==> r == []
    ensures forall m :: m in r ==> m.keyword == kw && |kw| >= 4 && m.context in Contexts(doc, kw, 0)
  {
    if |kw| < 4 then [] else Tagged(kw, Contexts(doc, kw, 0))
  }

  /** The matches of all keywords, keyword by keyword. */
  function MatchesFor(doc: string, kws: seq<string>): seq<KeywordMatch>
    decreases |kws|
  {
    if kws == [] then []
    else MatchesFor(doc, kws[..|kws| - 1]) + KeywordMatches(doc, kws[|kws| - 1])
  }

  lemma MatchesForNext(doc: string, kws: seq<string>, j: nat)
    requires j < |kws|
    ensures MatchesFor(doc, kws[..j + 1]) == MatchesFor(doc, kws[..j]) + KeywordMatches(doc, kws[j])
  {
    assert kws[..j + 1][..j] == kws[..j];
  }

  /** Every match names a keyword of at least four characters and a non-empty context holding it. */
  lemma {:induction false} MatchesForSound(doc: string, kws: seq<string>)
    ensures forall m :: m in MatchesFor(doc, kws) ==>
              m.keyword in kws && |m.keyword| >= 4 && ContextHolds(m.context, m.keyword)
    decreases |kws|
  {
    if kws != [] {
      var init := kws[..|kws| - 1];
      var kw := kws[|kws| - 1];
      MatchesForSound(doc, init);
      if |kw| >= 4 {
        ContextsHoldKeyword(doc, kw, 0);
      }
      assert forall k :: k in init ==> k in kws;
    }
  }

  /** The innermost loop: each context of one keyword appended as a match. */
  method AppendTagged(matches: seq<KeywordMatch>, kw: string, contexts: seq<string>) returns (r: seq<KeywordMatch>)
    ensures r == matches + Tagged(kw, contexts)
  {
    r := matches;
    var k := 0;
    while k < |contexts|
      invariant 0 <= k <= |contexts|
      invariant r == matches + Tagged(kw, contexts[..k])
    {
      assert Tagged(kw, contexts[..k + 1]) == Tagged(kw, contexts[..k]) + [KeywordMatch(kw, contexts[k])];
      r := r + [KeywordMatch(kw, contexts[k])];
      k := k + 1;
    }
    assert contexts[..k] == contexts;
  }

  /** The keyword loop of `match_requirements_to_document`: the matches of each keyword in turn. */
  method MatchKeywords(doc: string, keywords: seq<string>) returns (matches: seq<KeywordMatch>)
    ensures matches == MatchesFor(doc, keywords)
  {
    matches := [];
    var j := 0;
    while j < |keywords|
      invariant 0 <= j <= |keywords|
      invariant matches == MatchesFor(doc, keywords[..j])
    {
      var kw := keywords[j];
      MatchesForNext(doc, keywords, j);
      if |kw| >= 4 {
        var cs := Contexts(doc, kw, 0);
        assert KeywordMatches(doc, kw) == Tagged(kw, cs);
        matches := AppendTagged(matches, kw, cs);
      } else {
        assert matches + KeywordMatches(doc, kw) == matches;
      }
      j := j + 1;
    }
    assert keywords[..j] == keywords;
  }

  /** `req.get('id', '')`; the loop asks it only of dicts. */
  function RequirementId(req: JValue): JValue {
    if req.JObj? then Get(req.fields, "id", JStr("")) else JNull
  }

  /**
   * The matches one requirement yields, or `None` where the loop body
   * raises: `req.get` on a non-dict, `.strip()` on a text that is not a
   * string. A blank text yields none.
   */
  function RequirementMatches(req: JValue, doc: string, keywords: string -> seq<string>): (r: Option<seq<KeywordMatch>>)
    ensures r.None? <==> !req.JObj? || !Get(req.fields, "text", JStr("")).JStr?
    ensures r.Some? && Strip(Get(req.fields, "text", JStr("")).s) == [] ==> r.value == []
  {
    if !req.JObj? then None
    else
      var text := Get(req.fields, "text", JStr(""));
      if !text.JStr? then None
      else if Strip(text.s) == [] then Some([])
      else Some(MatchesFor(doc, keywords(text.s)))
  }

  /** Every match of one requirement names a keyword of at least four characters and a non-empty context holding it. */
  lemma {:induction false} RequirementMatchesSound(req: JValue, doc: string, keywords: string -> seq<string>)
    requires RequirementMatches(req, doc, keywords).Some?
    ensures forall km :: km in RequirementMatches(req, doc, keywords).value ==>
              |km.keyword| >= 4 && km.context != [] && ContainsIgnoringCase(km.context, Strip(km.keyword))
  {
    var text := Get(req.fields, "text", JStr("")).s;
    if Strip(text) != [] {
      assert RequirementMatches(req, doc, keywords).value == MatchesFor(doc, keywords(text));
      MatchesForSound(doc, keywords(text));
    }
  }

  /** The loop body for a fixed document text and keyword extractor. */
  function MatchesIn(doc: string, keywords: string -> seq<string>): JValue -> Option<seq<KeywordMatch>> {
    req => RequirementMatches(req, doc, keywords)
  }

  /** Python hashing: a list or a dict cannot be a dict key. */
  predicate Hashable(j: JValue) {
    !j.JArr? && !j.JObj?
  }

  /** The loop body raises for this requirement, which empties the whole result. */
  predicate Raises(req: JValue, matchesOf: JValue -> Option<seq<KeywordMatch>>, id: JValue -> JValue) {
    match matchesOf(req)
    case None => true
    case Some(ms) => ms != [] && !Hashable(id(req))
  }

  /** The requirement found matches, so the loop stores them. */
  predicate Yields(req: JValue, matchesOf: JValue -> Option<seq<KeywordMatch>>) {
    matchesOf(req).Some? && matchesOf(req).value != []
  }

  /**
   * The loop over the requirements, each yielding its matches by
   * `matchesOf` and stored under `id`; `None` once an iteration raises.
   */
  function MatchAll(reqs: seq<JValue>, matchesOf: JValue -> Option<seq<KeywordMatch>>, id: JValue -> JValue): (r: Option<MatchMap>)
    ensures r.None? <==> exists i :: 0 <= i < |reqs| && Raises(reqs[i], matchesOf, id)
    ensures r.Some? ==> DistinctIds(r.value)
    decreases |reqs|
  {
    if reqs == [] then Some([])
    else
      var init := reqs[..|reqs| - 1];
      var req := reqs[|reqs| - 1];
      assert forall i :: 0 <= i < |init| ==> init[i] == reqs[i];
      match MatchAll(init, matchesOf, id)
      case None => None
      case Some(m) =>
        match matchesOf(req)
        case None => None
        case Some(ms) =>
          if ms == [] then Some(m)
          else if !Hashable(id(req)) then None
          else Some(Put(m, id(req), ms))
  }

  /** One more requirement: the loop result changes only by what that requirement yields. */
  lemma {:induction false} MatchAllStep(reqs: seq<JValue>, i: nat, matchesOf: JValue -> Option<seq<KeywordMatch>>, id: JValue -> JValue, m: MatchMap)
    requires i < |reqs| && MatchAll(reqs[..i], matchesOf, id) == Some(m)
    ensures matchesOf(reqs[i]) == Some([]) ==> MatchAll(reqs[..i + 1], matchesOf, id) == Some(m)
    ensures Yields(reqs[i], matchesOf) && Hashable(id(reqs[i])) ==>
              MatchAll(reqs[..i + 1], matchesOf, id) == Some(Put(m, id(reqs[i]), matchesOf(reqs[i]).value))
  {
    assert reqs[..i + 1][..i] == reqs[..i];
  }

  /** The loop over all requirements is the loop over all but the last, then the last one's store. */
  lemma {:induction false} MatchAllLast(reqs: seq<JValue>, matchesOf: JValue -> Option<seq<KeywordMatch>>, id: JValue -> JValue)
    requires reqs != [] && MatchAll(reqs, matchesOf, id).Some?
    ensures MatchAll(reqs[..|reqs| - 1], matchesOf, id).Some?
    ensures !Yields(reqs[|reqs| - 1], matchesOf) ==>
              MatchAll(reqs, matchesOf, id) == MatchAll(reqs[..|reqs| - 1], matchesOf, id)
    ensures Yields(reqs[|reqs| - 1], matchesOf) ==>
              && Hashable(id(reqs[|reqs| - 1]))
              && MatchAll(reqs, matchesOf, id).value ==
                 Put(MatchAll(reqs[..|reqs| - 1], matchesOf, id).value, id(reqs[|reqs| - 1]), matchesOf(reqs[|reqs| - 1]).value)
  {
  }

  /**
   * `reqs[i]` is the last requirement whose id is equal, as a dict key,
   * to the key of `e` and that found matches, and `e` holds its matches.
   */
  predicate LastToStore(reqs: seq<JValue>, matchesOf: JValue -> Option<seq<KeywordMatch>>, id: JValue -> JValue,
                        i: int, e: (JValue, seq<KeywordMatch>)) {
    && 0 <= i < |reqs| && KeyOf(id(reqs[i])) == KeyOf(e.0) && matchesOf(reqs[i]) == Some(e.1)
    && forall j :: i < j < |reqs| && KeyOf(id(reqs[j])) == KeyOf(e.0) ==> !Yields(reqs[j], matchesOf)
  }

  /**
   * `reqs[i]` is the first requirement with id `k` that found matches,
   * and none before it has an id equal to `k` as a dict key.
   */
  predicate FirstToStore(reqs: seq<JValue>, matchesOf: JValue -> Option<seq<KeywordMatch>>, id: JValue -> JValue, i: int, k: JValue) {
    && 0 <= i < |reqs| && id(reqs[i]) == k && Yields(reqs[i], matchesOf)
    && forall j :: 0 <= j < i && KeyOf(id(reqs[j])) == KeyOf(k) ==> !Yields(reqs[j], matchesOf)
  }

  /**
   * Every stored entry holds the non-empty matches of the last
   * requirement that found matches under an equal id: a later one
   * overwrites the value.
   */
  lemma {:induction false} MatchAllStored(reqs: seq<JValue>, matchesOf: JValue -> Option<seq<KeywordMatch>>, id: JValue -> JValue)
    requires MatchAll(reqs, matchesOf, id).Some?
    ensures forall e :: e in MatchAll(reqs, matchesOf, id).value ==>
              e.1 != [] && exists i :: LastToStore(reqs, matchesOf, id, i, e)
    decreases |reqs|
  {
    if reqs != [] {
      var init := reqs[..|reqs| - 1];
      var req := reqs[|reqs| - 1];
      MatchAllLast(reqs, matchesOf, id);
      MatchAllStored(init, matchesOf, id);
      var m := MatchAll(init, matchesOf, id).value;
      var r := MatchAll(reqs, matchesOf, id).value;
      forall e | e in r
        ensures e.1 != [] && exists i :: LastToStore(reqs, matchesOf, id, i, e)
      {
        if Yields(req, matchesOf) && KeyOf(e.0) == KeyOf(id(req)) {
          PutSameClass(m, id(req), matchesOf(req).value, e);
          assert LastToStore(reqs, matchesOf, id, |reqs| - 1, e);
        } else {
          if Yields(req, matchesOf) {
            PutOtherClass(m, id(req), matchesOf(req).value, e);
          }
          var i :| LastToStore(init, matchesOf, id, i, e);
          assert forall j :: 0 <= j < |init| ==> init[j] == reqs[j];
          assert LastToStore(reqs, matchesOf, id, i, e);
        }
      }
    }
  }

  /**
   * Every stored key is the id of the first requirement of its key class
   * that found matches: a later equal id does not replace it.
   */
  lemma {:induction false} MatchAllFirstKey(reqs: seq<JValue>, matchesOf: JValue -> Option<seq<KeywordMatch>>, id: JValue -> JValue)
    requires MatchAll(reqs, matchesOf, id).Some?
    ensures forall e :: e in MatchAll(reqs, matchesOf, id).value ==> exists i :: FirstToStore(reqs, matchesOf, id, i, e.0)
    decreases |reqs|
  {
    if reqs != [] {
      var init := reqs[..|reqs| - 1];
      var req := reqs[|reqs| - 1];
      MatchAllLast(reqs, matchesOf, id);
      MatchAllFirstKey(init, matchesOf, id);
      var m := MatchAll(init, matchesOf, id).value;
      var r := MatchAll(reqs, matchesOf, id).value;
      forall e | e in r
        ensures exists i :: FirstToStore(reqs, matchesOf, id, i, e.0)
      {
        if Yields(req, matchesOf) && KeyOf(e.0) == KeyOf(id(req)) {
          PutSameClass(m, id(req), matchesOf(req).value, e);
        } else if Yields(req, matchesOf) {
          PutOtherClass(m, id(req), matchesOf(req).value, e);
        }
        if w :| (e.0, w) in m {
          var i :| FirstToStore(init, matchesOf, id, i, (e.0, w).0);
          assert forall j :: 0 <= j < |init| ==> init[j] == reqs[j];
          assert FirstToStore(reqs, matchesOf, id, i, e.0);
        } else {
          FirstOfClass(reqs, matchesOf, id);
        }
      }
    }
  }

  /** The last requirement, when it stores under a key class the others left empty, is the first of its class to store. */
  lemma {:induction false} FirstOfClass(reqs: seq<JValue>, matchesOf: JValue -> Option<seq<KeywordMatch>>, id: JValue -> JValue)
    requires reqs != [] && MatchAll(reqs[..|reqs| - 1], matchesOf, id).Some?
    requires Yields(reqs[|reqs| - 1], matchesOf)
    requires forall e2 :: e2 in MatchAll(reqs[..|reqs| - 1], matchesOf, id).value ==> KeyOf(e2.0) != KeyOf(id(reqs[|reqs| - 1]))
    ensures FirstToStore(reqs, matchesOf, id, |reqs| - 1, id(reqs[|reqs| - 1]))
  {
    var init := reqs[..|reqs| - 1];
    MatchAllComplete(init, matchesOf, id);
    forall j | 0 <= j < |reqs| - 1 && KeyOf(id(reqs[j])) == KeyOf(id(reqs[|reqs| - 1]))
      ensures !Yields(reqs[j], matchesOf)
    {
      assert init[j] == reqs[j];
    }
  }

  /** Every requirement that found matches has an equal id among the keys. */
  lemma {:induction false} MatchAllComplete(reqs: seq<JValue>, matchesOf: JValue -> Option<seq<KeywordMatch>>, id: JValue -> JValue)
    requires MatchAll(reqs, matchesOf, id).Some?
    ensures forall i :: 0 <= i < |reqs| && Yields(reqs[i], matchesOf) ==>
              exists e :: e in MatchAll(reqs, matchesOf, id).value && KeyOf(e.0) == KeyOf(id(reqs[i]))
    decreases |reqs|
  {
    if reqs != [] {
      var init := reqs[..|reqs| - 1];
      var req := reqs[|reqs| - 1];
      MatchAllLast(reqs, matchesOf, id);
      MatchAllComplete(init, matchesOf, id);
      var m := MatchAll(init, matchesOf, id).value;
      var r := MatchAll(reqs, matchesOf, id).value;
      forall i | 0 <= i < |reqs| && Yields(reqs[i], matchesOf)
        ensures exists e :: e in r && KeyOf(e.0) == KeyOf(id(reqs[i]))
      {
        if Yields(req, matchesOf) && KeyOf(id(reqs[i])) == KeyOf(id(req)) {
          PutStores(m, id(req), matchesOf(req).value);
        } else {
          assert i < |init| && init[i] == reqs[i];
          var e :| e in m && KeyOf(e.0) == KeyOf(id(init[i]));
          if Yields(req, matchesOf) {
            PutOtherClass(m, id(req), matchesOf(req).value, e);
          }
          assert e in r;
        }
      }
    }
  }

  /**
   * A key equal to `key` is stored exactly when a requirement with an id
   * equal to `key` as a dict key found matches.
   */
  lemma {:induction false} MatchAllKeys(reqs: seq<JValue>, matchesOf: JValue -> Option<seq<KeywordMatch>>, id: JValue -> JValue, key: JValue)
    requires MatchAll(reqs, matchesOf, id).Some?
    ensures (exists e :: e in MatchAll(reqs, matchesOf, id).value && KeyOf(e.0) == KeyOf(key)) <==>
            exists i :: 0 <= i < |reqs| && KeyOf(id(reqs[i])) == KeyOf(key) && Yields(reqs[i], matchesOf)
  {
    MatchAllStored(reqs, matchesOf, id);
    MatchAllComplete(reqs, matchesOf, id);
    var m := MatchAll(reqs, matchesOf, id).value;
    if e :| e in m && KeyOf(e.0) == KeyOf(key) {
      var i :| LastToStore(reqs, matchesOf, id, i, e);
      assert Yields(reqs[i], matchesOf);
    }
  }

  /**
   * Two requirements whose ids are equal as dict keys (`1` and `True`,
   * say) that both find matches leave one entry: the first one's id with
   * the second one's matches.
   */
  lemma {:induction false} EqualIdsMerge(a: JValue, b: JValue, matchesOf: JValue -> Option<seq<KeywordMatch>>, id: JValue -> JValue)
    requires KeyOf(id(a)) == KeyOf(id(b))
    requires Yields(a, matchesOf) && Yields(b, matchesOf) && Hashable(id(a)) && Hashable(id(b))
    ensures MatchAll([a, b], matchesOf, id) == Some([(id(a), matchesOf(b).value)])
  {
    var ab := [a, b];
    assert ab[..|ab| - 1] == [a];
    assert [a][..0] == [];
    assert !Raises(ab[0], matchesOf, id) && !Raises(ab[1], matchesOf, id);
    assert MatchAll(ab, matchesOf, id).Some?;
    MatchAllLast(ab, matchesOf, id);
    MatchAllLast([a], matchesOf, id);
    var m := [(id(a), matchesOf(a).value)];
    assert Put([], id(a), matchesOf(a).value) == m;
    assert MatchAll([a], matchesOf, id) == Some(m);
    assert KeyOf(m[0].0) == KeyOf(id(b));
    assert Put(m, id(b), matchesOf(b).value) == m[0 := (m[0].0, matchesOf(b).value)];
    assert m[0 := (m[0].0, matchesOf(b).value)] == [(id(a), matchesOf(b).value)];
  }

  /**
   * `match_requirements_to_document` with a given keyword extractor: any
   * exception (a requirements value that is not iterable, a requirement
   * that is not a dict or whose text is not a string, an unhashable id)
   * empties the result.
   */
  function MatchRequirementsWith(requirements: JValue, content: JValue, dumps: Dict -> string, keywords: string -> seq<string>): (r: MatchMap)
    ensures DistinctIds(r)
  {
    match Iter(requirements)
    case None => []
    case Some(reqs) =>
      match MatchAll(reqs, MatchesIn(DocumentText(content, dumps), keywords), RequirementId)
      case None => []
      case Some(m) => m
  }

  /** `match_requirements_to_document` as written. */
  function MatchRequirements(requirements: JValue, content: JValue, dumps: Dict -> string): (r: MatchMap)
    ensures DistinctIds(r)
  {
    MatchRequirementsWith(requirements, content, dumps, Keywords)
  }

  /** A match that is non-empty and holds its keyword up to case and outer blanks. */
  ghost predicate SoundMatch(km: KeywordMatch) {
    |km.keyword| >= 4 && km.context != [] && ContainsIgnoringCase(km.context, Strip(km.keyword))
  }

  /** Every stored match is non-empty and holds its keyword up to case and outer blanks. */
  lemma {:induction false} MatchRequirementsSound(requirements: JValue, content: JValue, dumps: Dict -> string, keywords: string -> seq<string>)
    ensures forall e, km :: e in MatchRequirementsWith(requirements, content, dumps, keywords) && km in e.1 ==> SoundMatch(km)
  {
    var doc := DocumentText(content, dumps);
    match Iter(requirements)
    case None =>
    case Some(reqs) =>
      if MatchAll(reqs, MatchesIn(doc, keywords), RequirementId).Some? {
        MatchAllSound(reqs, doc, keywords);
      }
  }

  /** The matches stored by the loop are sound ones. */
  lemma {:induction false} MatchAllSound(reqs: seq<JValue>, doc: string, keywords: string -> seq<string>)
    requires MatchAll(reqs, MatchesIn(doc, keywords), RequirementId).Some?
    ensures forall e, km :: e in MatchAll(reqs, MatchesIn(doc, keywords), RequirementId).value && km in e.1 ==> SoundMatch(km)
  {
    var step := MatchesIn(doc, keywords);
    MatchAllStored(reqs, step, RequirementId);
    forall e, km | e in MatchAll(reqs, step, RequirementId).value && km in e.1
      ensures SoundMatch(km)
    {
      var i :| LastToStore(reqs, step, RequirementId, i, e);
      assert step(reqs[i]) == RequirementMatches(reqs[i], doc, keywords);
      RequirementMatchesSound(reqs[i], doc, keywords);
    }
  }

  /**
   * Unless some iteration raises, a key equal to `id` is stored exactly
   * when a requirement with an id equal to it as a dict key found matches.
   */
  lemma {:induction false} MatchRequirementsKeys(requirements: JValue, content: JValue, dumps: Dict -> string, reqs: seq<JValue>, id: JValue)
    requires Iter(requirements) == Some(reqs)
    requires !exists i :: 0 <= i < |reqs| && Raises(reqs[i], MatchesIn(DocumentText(content, dumps), Keywords), RequirementId)
    ensures (exists e :: e in MatchRequirements(requirements, content, dumps) && KeyOf(e.0) == KeyOf(id)) <==>
            exists i :: 0 <= i < |reqs| && KeyOf(RequirementId(reqs[i])) == KeyOf(id)
                        && Yields(reqs[i], MatchesIn(DocumentText(content, dumps), Keywords))
  {
    var step := MatchesIn(DocumentText(content, dumps), Keywords);
    MatchAllKeys(reqs, step, RequirementId, id);
  }

  /** One pass of the outer loop up to the store: the requirement's matches, or `None` where it raises. */
  method FindRequirementMatches(req: JValue, doc: string) returns (r: Option<seq<KeywordMatch>>)
    ensures r == MatchesIn(doc, Keywords)(req)
  {
    if !req.JObj? || !Get(req.fields, "text", JStr("")).JStr? {
      return None;
    }
    var text := Get(req.fields, "text", JStr("")).s;
    if Strip(text) == [] {
      return Some([]);
    }
    var keywords := ExtractKeywords(text);
    var matches := MatchKeywords(doc, keywords);
    return Some(matches);
  }

  /** The loops of `match_requirements_to_document`, requirement by requirement. */
  method MatchRequirementsToDocument(requirements: JValue, content: JValue, dumps: Dict -> string) returns (found: MatchMap)
    ensures found == MatchRequirements(requirements, content, dumps)
  {
    var doc := DocumentText(content, dumps);
    var reqs := Iter(requirements);
    if reqs.None? {
      return [];
    }
    var items := reqs.value;
    found := [];
    var step := MatchesIn(doc, Keywords);
    var i := 0;
    var raised := false;
    while i < |items| && !raised
      invariant 0 <= i <= |items|
      invariant !raised ==> MatchAll(items[..i], step, RequirementId) == Some(found)
      invariant raised ==> MatchAll(items, step, RequirementId).None?
    {
      raised, found := MatchOneRequirement(items, i, doc, found);
      i := i + 1;
    }
    if raised {
      found := [];
    } else {
      assert items[..i] == items;
    }
  }

  /**
   * One round of the loop over the requirements: the matches of
   * `items[i]` stored under its id, or `raised` when the round throws,
   * which empties the whole result.
   */
  method MatchOneRequirement(items: seq<JValue>, i: nat, doc: string, found: MatchMap) returns (raised: bool, next: MatchMap)
    requires i < |items| && MatchAll(items[..i], MatchesIn(doc, Keywords), RequirementId) == Some(found)
    ensures raised ==> MatchAll(items, MatchesIn(doc, Keywords), RequirementId).None?
    ensures !raised ==> MatchAll(items[..i + 1], MatchesIn(doc, Keywords), RequirementId) == Some(next)
  {
    var req := items[i];
    MatchAllStep(items, i, MatchesIn(doc, Keywords), RequirementId, found);
    var matches := FindRequirementMatches(req, doc);
    next := found;
    raised := matches.None? || (matches.value != [] && !Hashable(RequirementId(req)));
    if raised {
      assert Raises(items[i], MatchesIn(doc, Keywords), RequirementId);
    } else if matches.value != [] {
      next := Put(found, RequirementId(req), matches.value);
    }
  }

  // ---------------------------------------------------------------------
  // Keywords with blank edges
  // ---------------------------------------------------------------------

  /** The words of "data .": the word and a lone full stop. */
  lemma {:induction false} DataDotWords()
    ensures Words("data .") == ["data", "."]
  {
    LowerDataDot();
    DataDotSplit();
  }

  lemma {:induction false} LowerDataDot()
    ensures Lower("data .") == "data ."
  {
    var text := "data .";
    assert forall i :: 0 <= i < |text| ==> LowerChar(text[i]) == text[i];
  }

  lemma {:induction false} DataDotSplit()
    ensures SplitWords("data .") == ["data", "."]
  {
    assert "data ." == "data" + " .";
    SplitAfterSolid("data", " .");
    SpacedDotWords();
  }

  lemma {:induction false} SpacedDotWords()
    ensures SplitWords(" .") == ["."]
  {
    assert " ." == [' '] + ".";
    SplitDropSpace(' ', ".");
    SplitSolid(".");
  }

  /** A run of non-blank characters splits into itself. */
  lemma {:induction false} SplitSolid(w: string)
    requires w != [] && forall i :: 0 <= i < |w| ==> !IsSpace(w[i])
    ensures SplitWords(w) == [w]
  {
    assert TrimLeft(w, IsSpace) == w;
    var n := FirstWhere(w, IsSpace);
    assert n == |w|;
    assert w[..n] == w && w[n..] == [];
    assert SplitWords([]) == [];
  }

  /** A run of non-blank characters followed by a blank is the first word. */
  lemma {:induction false} SplitAfterSolid(w: string, rest: string)
    requires w != [] && forall i :: 0 <= i < |w| ==> !IsSpace(w[i])
    requires rest != [] && IsSpace(rest[0])
    ensures SplitWords(w + rest) == [w] + SplitWords(rest)
  {
    var t := w + rest;
    SolidThenBlank(w, rest);
    assert t[..|w|] == w && t[|w|..] == rest;
  }

  /** In a run of non-blank characters followed by a blank, nothing leads and the first blank ends the run. */
  lemma {:induction false} SolidThenBlank(w: string, rest: string)
    requires w != [] && forall i :: 0 <= i < |w| ==> !IsSpace(w[i])
    requires rest != [] && IsSpace(rest[0])
    ensures TrimLeft(w + rest, IsSpace) == w + rest
    ensures FirstWhere(w + rest, IsSpace) == |w|
  {
    var t := w + rest;
    assert t[0] == w[0];
    assert t[|w|] == rest[0];
    assert forall j :: 0 <= j < |w| ==> t[j] == w[j];
  }

  /** A leading blank does not change the words. */
  lemma {:induction false} SplitDropSpace(c: char, s: string)
    requires IsSpace(c)
    ensures SplitWords([c] + s) == SplitWords(s)
  {
    var t := [c] + s;
    assert t[1..] == s;
    assert LeadingCount(t, IsSpace) == 1 + LeadingCount(s, IsSpace);
    assert TrimLeft(t, IsSpace) == TrimLeft(s, IsSpace);
  }

  /**
   * A phrase whose last word is only punctuation keeps the space before
   * it: "data ." yields the keyword "data ".
   */
  lemma {:induction false} SpaceEdgedKeyword()
    ensures "data " in Keywords("data .")
  {
    DataDotWords();
    DataDotStripped();
    var words := Words("data .");
    assert StripPunctuation(Pair(words[0], words[1])) == "data ";
    assert IsCandidate(words, StripPunctuation, "data ");
  }

  lemma {:induction false} DataDotStripped()
    ensures StripPunctuation(Pair("data", ".")) == "data "
  {
    PairDotStripped("data");
  }

  /** A word followed by a lone full stop loses only the stop: the blank before it stays. */
  lemma {:induction false} PairDotStripped(w: string)
    requires w != [] && w[0] !in Punctuation
    ensures StripPunctuation(Pair(w, ".")) == w + " "
  {
    var phrase := Pair(w, ".");
    assert phrase == w + " " + ".";
    assert phrase[0] == w[0];
    assert phrase[|phrase| - 1] == '.' && phrase[|phrase| - 2] == ' ';
    StripLastChar(phrase, Punctuation);
    assert phrase[..|phrase| - 1] == w + " ";
  }

  /** Stripping a word that ends in exactly one stripped character, and does not start with one, drops that character. */
  lemma {:induction false} StripLastChar(w: string, chars: set<char>)
    requires |w| >= 2 && w[0] !in chars && w[|w| - 1] in chars && w[|w| - 2] !in chars
    ensures StripChars(w, chars) == w[..|w| - 1]
  {
    var f := c => c in chars;
    assert LeadingCount(w, f) == 0;
    assert TrimLeft(w, f) == w;
    var init := w[..|w| - 1];
    assert init[|init| - 1] == w[|w| - 2];
    assert TrailingCount(init, f) == 0;
    assert TrailingCount(w, f) == 1;
  }

  /**
   * A keyword that ends in the joining space, found at the very end of
   * the document, is stripped to the word before it: the context does not
   * hold the keyword.
   */
  lemma {:induction false} SpaceEdgedContext(w: string)
    requires w != [] && forall c :: c in w ==> !IsSpace(c)
    ensures Contexts(w + " ", w + " ", 0) == [w]
    ensures !ContainsIgnoringCase(w, w + " ")
  {
    var text := w + " ";
    assert OccursAt(text, text, 0);
    assert FirstOccurrence(text, text, 0) == Some(0);
    assert ReachBack(text, 0, 0) == 0;
    var hi := ReachForward(text, 0);
    assert LastOccurrence(text, text, hi, 0) == 0 by {
      LastOccurrenceOfWhole(text, hi);
    }
    assert ReachForward(text, |text|) == 0;
    var n: nat := |text|;
    assert NextMatch(text, text, 0) == Some((0, 0, n));
    assert text[0..|text|] == text;
    StripTrailingSpace(w);
    assert FirstOccurrence(text, text, |text|).None?;
    assert Contexts(text, text, |text|) == [];
  }

  /** A text occurs in itself only at index 0. */
  lemma {:induction false} LastOccurrenceOfWhole(text: string, hi: nat)
    requires text != []
    ensures LastOccurrence(text, text, hi, 0) == 0
    decreases hi
  {
    if hi > 0 {
      assert !OccursAt(text, text, hi);
      LastOccurrenceOfWhole(text, hi - 1);
    }
  }

  /** Stripping a word followed by one space gives the word back. */
  lemma {:induction false} StripTrailingSpace(w: string)
    requires w != [] && forall c :: c in w ==> !IsSpace(c)
    ensures Strip(w + " ") == w
  {
    var text := w + " ";
    assert text[0] == w[0];
    assert LeadingCount(text, IsSpace) == 0;
    assert text[..|text| - 1] == w;
    assert TrailingCount(w, IsSpace) == 0;
    assert TrailingCount(text, IsSpace) == 1;
  }

  /** Python `w.strip(',.()[]{}:;\'" ')`: punctuation and the joining space. */
  function StripTrimmed(w: string): string {
    StripChars(w, Punctuation + {' '})
  }

  /** The evident intent: phrases stripped of the joining spaces as well as of punctuation. */
  function TrimmedKeywords(text: string): seq<string> {
    KeywordsWith(text, StripTrimmed)
  }

  /** Every character of a word or of a phrase of words is either the joining space or not blank. */
  predicate OnlyJoiningBlanks(s: string) {
    forall c :: c in s ==> c == ' ' || !IsSpace(c)
  }

  /** Stripping the joining space with the punctuation leaves no blank at either end. */
  lemma {:induction false} TrimmedEnds(s: string)
    requires OnlyJoiningBlanks(s)
    ensures Strip(StripTrimmed(s)) == StripTrimmed(s)
  {
    var chars := Punctuation + {' '};
    var a := LeadingCount(s, c => c in chars);
    var t := s[a..];
    var b := TrailingCount(t, c => c in chars);
    var r := StripTrimmed(s);
    assert r == t[..|t| - b];
    if r != [] {
      assert r[0] == s[a] && s[a] in s;
      assert r[|r| - 1] == t[|t| - 1 - b] && t[|t| - 1 - b] in s;
      assert LeadingCount(r, IsSpace) == 0;
      assert TrailingCount(r, IsSpace) == 0;
    }
  }

  /** A word has no blank, and a phrase of words only the spaces that join them. */
  lemma {:induction false} PhraseJoinOnly(a: string, b: string, c: string)
    requires forall x :: x in a ==> !IsSpace(x)
    requires forall x :: x in b ==> !IsSpace(x)
    requires forall x :: x in c ==> !IsSpace(x)
    ensures OnlyJoiningBlanks(a) && OnlyJoiningBlanks(Pair(a, b)) && OnlyJoiningBlanks(Triple(a, b, c))
  {
  }

  /** A cleaning that leaves no outer blank on a word or phrase leaves none on any candidate. */
  lemma {:induction false} CandidatesTrimmed(words: seq<string>, clean: string -> string, k: string)
    requires forall k :: 0 <= k < |words| ==> forall c :: c in words[k] ==> !IsSpace(c)
    requires forall s :: OnlyJoiningBlanks(s) ==> Strip(clean(s)) == clean(s)
    requires IsCandidate(words, clean, k)
    ensures Strip(k) == k
  {
    if exists w :: w in words && KeptWord(w) && k == clean(w) {
      var w :| w in words && KeptWord(w) && k == clean(w);
      var i :| 0 <= i < |words| && words[i] == w;
      PhraseJoinOnly(w, w, w);
    } else if exists i :: 0 <= i < |words| - 1 && k == clean(Pair(words[i], words[i + 1])) {
      var i :| 0 <= i < |words| - 1 && k == clean(Pair(words[i], words[i + 1]));
      PhraseJoinOnly(words[i], words[i + 1], words[i + 1]);
    } else {
      var i :| 0 <= i < |words| - 2 && k == clean(Triple(words[i], words[i + 1], words[i + 2]));
      PhraseJoinOnly(words[i], words[i + 1], words[i + 2]);
    }
  }

  /** Every trimmed keyword is its own stripped form. */
  lemma {:induction false} TrimmedKeywordsTrimmed(text: string)
    ensures forall k :: k in TrimmedKeywords(text) ==> Strip(k) == k
  {
    forall s | OnlyJoiningBlanks(s) ensures Strip(StripTrimmed(s)) == StripTrimmed(s) {
      TrimmedEnds(s);
    }
    forall k | k in TrimmedKeywords(text) ensures Strip(k) == k {
      CandidatesTrimmed(Words(text), StripTrimmed, k);
    }
  }

  /** With trimmed keywords, every stored context holds its keyword, up to case. */
  lemma {:induction false} TrimmedMatchesHoldKeyword(requirements: JValue, content: JValue, dumps: Dict -> string)
    ensures forall e, km :: e in MatchRequirementsWith(requirements, content, dumps, TrimmedKeywords) && km in e.1 ==>
              HoldsKeyword(km)
  {
    var doc := DocumentText(content, dumps);
    match Iter(requirements)
    case None =>
    case Some(reqs) =>
      if MatchAll(reqs, MatchesIn(doc, TrimmedKeywords), RequirementId).Some? {
        AllTrimmedKeywordsTrimmed();
        MatchAllHoldKeyword(reqs, doc, TrimmedKeywords);
      }
  }

  /** No keyword of any text has an outer blank. */
  lemma {:induction false} AllTrimmedKeywordsTrimmed()
    ensures forall t, k :: k in TrimmedKeywords(t) ==> Strip(k) == k
  {
    forall t ensures forall k :: k in TrimmedKeywords(t) ==> Strip(k) == k {
      TrimmedKeywordsTrimmed(t);
    }
  }

  /** With keywords that have no outer blank, the loop over the requirements stores only contexts holding their keyword. */
  lemma {:induction false} MatchAllHoldKeyword(reqs: seq<JValue>, doc: string, keywords: string -> seq<string>)
    requires MatchAll(reqs, MatchesIn(doc, keywords), RequirementId).Some?
    requires forall t, k :: k in keywords(t) ==> Strip(k) == k
    ensures forall e, km :: e in MatchAll(reqs, MatchesIn(doc, keywords), RequirementId).value && km in e.1 ==> HoldsKeyword(km)
  {
    forall e, km | e in MatchAll(reqs, MatchesIn(doc, keywords), RequirementId).value && km in e.1
      ensures HoldsKeyword(km)
    {
      StoredMatchHoldsKeyword(reqs, doc, keywords, e, km);
    }
  }

  /** One stored match of the loop over the requirements, with keywords that have no outer blank, holds its keyword. */
  lemma {:induction false} StoredMatchHoldsKeyword(reqs: seq<JValue>, doc: string, keywords: string -> seq<string>,
                                                   e: (JValue, seq<KeywordMatch>), km: KeywordMatch)
    requires MatchAll(reqs, MatchesIn(doc, keywords), RequirementId).Some?
    requires forall t, k :: k in keywords(t) ==> Strip(k) == k
    requires e in MatchAll(reqs, MatchesIn(doc, keywords), RequirementId).value && km in e.1
    ensures HoldsKeyword(km)
  {
    var step := MatchesIn(doc, keywords);
    MatchAllStored(reqs, step, RequirementId);
    var i :| LastToStore(reqs, step, RequirementId, i, e);
    assert step(reqs[i]) == RequirementMatches(reqs[i], doc, keywords);
    RequirementMatchesSound(reqs[i], doc, keywords);
    RequirementMatchesTrimmed(reqs[i], doc, keywords);
    SoundTrimmedHolds(km);
  }

  lemma {:induction false} SoundTrimmedHolds(km: KeywordMatch)
    requires SoundMatch(km) && TrimmedMatch(km)
    ensures HoldsKeyword(km)
  {
  }

  /** A non-empty context holding its keyword up to case. */
  ghost predicate HoldsKeyword(km: KeywordMatch) {
    km.context != [] && ContainsIgnoringCase(km.context, km.keyword)
  }

  /** A match whose keyword has no outer blank. */
  ghost predicate TrimmedMatch(km: KeywordMatch) {
    Strip(km.keyword) == km.keyword
  }

  /** Every keyword one requirement matches, with keywords that have no outer blank, has none. */
  lemma {:induction false} RequirementMatchesTrimmed(req: JValue, doc: string, keywords: string -> seq<string>)
    requires RequirementMatches(req, doc, keywords).Some?
    requires forall t, k :: k in keywords(t) ==> Strip(k) == k
    ensures forall km :: km in RequirementMatches(req, doc, keywords).value ==> TrimmedMatch(km)
  {
    var text := Get(req.fields, "text", JStr("")).s;
    if Strip(text) != [] {
      assert RequirementMatches(req, doc, keywords).value == MatchesFor(doc, keywords(text));
      MatchesForSound(doc, keywords(text));
    }
  }
}
