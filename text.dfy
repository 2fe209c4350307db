/**
 * String helpers with the meaning the Python and JavaScript code gives
 * them: whitespace classes, strip/trim, case folding, substring search,
 * `str.split` in its two forms, joining and decimal rendering.
 */
module Text {
  import opened Base

  /** Python `str.isspace()` for one character: what `strip()`, `split()` and `\s` treat as blank. */
  predicate IsSpace(c: char) {
    c == ' ' || ('\t' <= c <= '\r') || ('\U{1C}' <= c <= '\U{1F}') || c == '\U{85}' || c == '\U{A0}'
    || c == '\U{1680}' || ('\U{2000}' <= c <= '\U{200A}') || c == '\U{2028}' || c == '\U{2029}'
    || c == '\U{202F}' || c == '\U{205F}' || c == '\U{3000}'
  }

  /** JavaScript `String.prototype.trim` whitespace: WhiteSpace and LineTerminator of ECMA-262. */
  predicate IsJsSpace(c: char) {
    c == ' ' || ('\t' <= c <= '\r') || c == '\U{A0}' || c == '\U{FEFF}'
    || c == '\U{1680}' || ('\U{2000}' <= c <= '\U{200A}') || c == '\U{2028}' || c == '\U{2029}'
    || c == '\U{202F}' || c == '\U{205F}' || c == '\U{3000}'
  }

  predicate IsDigit(c: char) { '0' <= c <= '9' }

  /** `str.isalnum()` restricted to ASCII letters and digits. */
  predicate IsAlnum(c: char) { IsDigit(c) || 'a' <= c <= 'z' || 'A' <= c <= 'Z' }

  /** `str.lower()` restricted to ASCII upper-case letters. */
  function LowerChar(c: char): char {
    if 'A' <= c <= 'Z' then (c as int + 32) as char else c
  }

  function Lower(s: string): (r: string)
    ensures |r| == |s|
    ensures forall i :: 0 <= i < |s| ==> r[i] == LowerChar(s[i])
  {
    seq(|s|, i requires 0 <= i < |s| => LowerChar(s[i]))
  }

  /** The number of leading characters of `s` satisfying `drop`. */
  function LeadingCount(s: string, drop: char -> bool): (n: nat)
    ensures n <= |s|
    ensures n < |s| ==> !drop(s[n])
    ensures forall i :: 0 <= i < n ==> drop(s[i])
  {
    FirstWhere(s, c => !drop(c))
  }

  /** The number of trailing characters of `s` satisfying `drop`. */
  function TrailingCount(s: string, drop: char -> bool): (n: nat)
    ensures n <= |s|
    ensures n < |s| ==> !drop(s[|s| - 1 - n])
    ensures forall i :: |s| - n <= i < |s| ==> drop(s[i])
    decreases |s|
  {
    if s == [] || !drop(s[|s| - 1]) then 0
    else 1 + TrailingCount(s[..|s| - 1], drop)
  }

  /** Drops the leading characters satisfying `drop`. */
  function TrimLeft(s: string, drop: char -> bool): (r: string)
    ensures r != [] ==> !drop(r[0])
  {
    s[LeadingCount(s, drop)..]
  }

  /** Drops the trailing characters satisfying `drop`. */
  function TrimRight(s: string, drop: char -> bool): (r: string)
    ensures r != [] ==> !drop(r[|r| - 1])
  {
    s[..|s| - TrailingCount(s, drop)]
  }

  /** Python `str.strip()` with no argument. */
  function Strip(s: string): string {
    TrimRight(TrimLeft(s, IsSpace), IsSpace)
  }

  /** Python `str.strip(chars)`. */
  function StripChars(s: string, chars: set<char>): string {
    TrimRight(TrimLeft(s, c => c in chars), c => c in chars)
  }

  /** JavaScript `String.prototype.trim()`. */
  function JsTrim(s: string): string {
    TrimRight(TrimLeft(s, IsJsSpace), IsJsSpace)
  }

  /** A stripped string has no blank character at either end. */
  lemma {:induction false} StripEnds(s: string)
    ensures Strip(s) != [] ==> !IsSpace(Strip(s)[0]) && !IsSpace(Strip(s)[|Strip(s)| - 1])
    ensures |Strip(s)| <= |s|
  {
  }

  predicate StartsWith(s: string, prefix: string) {
    |prefix| <= |s| && s[..|prefix|] == prefix
  }

  predicate EndsWith(s: string, suffix: string) {
    |suffix| <= |s| && s[|s| - |suffix|..] == suffix
  }

  /** `sub` occurs in `s` starting at index `i`. */
  predicate IsInfixAt(s: string, sub: string, i: int) {
    0 <= i && i + |sub| <= |s| && s[i..i + |sub|] == sub
  }

  /** The first occurrence of `sub` in `s` at or after `from` (Python `str.find`). */
  function FindFrom(s: string, sub: string, from: nat): (r: Option<nat>)
    ensures r.Some? ==> from <= r.value && IsInfixAt(s, sub, r.value)
    ensures r.Some? ==> forall j :: from <= j < r.value ==> !IsInfixAt(s, sub, j)
    ensures r.None? ==> forall j :: from <= j ==> !IsInfixAt(s, sub, j)
    decreases |s| - from
  {
    if from + |sub| > |s| then None
    else if s[from..from + |sub|] == sub then Some(from)
    else FindFrom(s, sub, from + 1)
  }

  /** Python `sub in s`. */
  predicate Contains(s: string, sub: string) {
    FindFrom(s, sub, 0).Some?
  }

  lemma {:induction false} ContainsIff(s: string, sub: string)
    ensures Contains(s, sub) <==> exists i :: IsInfixAt(s, sub, i)
  {
    var r := FindFrom(s, sub, 0);
    if r.Some? {
      assert IsInfixAt(s, sub, r.value);
    }
  }

  /** The index of the first character satisfying `p`, or `|s|` when there is none. */
  function FirstWhere(s: string, p: char -> bool): (i: nat)
    ensures i <= |s|
    ensures i < |s| ==> p(s[i])
    ensures forall j :: 0 <= j < i ==> !p(s[j])
    decreases |s|
  {
    if s == [] then 0
    else if p(s[0]) then 0
    else 1 + FirstWhere(s[1..], p)
  }

  /** The index of the first `c` in `s`, or `|s|` when `c` does not occur. */
  function FirstIndex(s: string, c: char): (i: nat)
    ensures i <= |s| && (i < |s| <==> c in s)
    ensures i < |s| ==> s[i] == c
    ensures forall j :: 0 <= j < i ==> s[j] != c
  {
    FirstWhere(s, x => x == c)
  }

  /** JavaScript `s.lastIndexOf(c)`: the last index holding `c`, or -1. */
  function LastIndexOf(s: string, c: char): (r: int)
    ensures -1 <= r < |s|
    ensures r >= 0 ==> s[r] == c
    ensures forall j :: r < j < |s| ==> s[j] != c
    decreases |s|
  {
    if s == [] then -1
    else if s[|s| - 1] == c then |s| - 1
    else LastIndexOf(s[..|s| - 1], c)
  }

  /** Python `s.split(sep)` for a one-character separator. */
  function SplitOn(s: string, sep: char): (parts: seq<string>)
    ensures |parts| >= 1
    ensures forall k :: 0 <= k < |parts| ==> sep !in parts[k]
    decreases |s|
  {
    var i := FirstIndex(s, sep);
    if i == |s| then [s] else [s[..i]] + SplitOn(s[i + 1..], sep)
  }

  /** Python `s[:n]`: the first `n` characters, or all of them. */
  function Take(s: string, n: nat): (r: string)
    ensures |r| == Min(|s|, n) && StartsWith(s, r)
  {
    if |s| <= n then s else s[..n]
  }

  /** Python `sep.join(parts)`. */
  function JoinWith(parts: seq<string>, sep: string): string
    decreases |parts|
  {
    if |parts| == 0 then []
    else if |parts| == 1 then parts[0]
    else parts[0] + sep + JoinWith(parts[1..], sep)
  }

  /** Splitting on a character and joining back with it gives the original text. */
  lemma {:induction false} JoinSplit(s: string, sep: char)
    ensures JoinWith(SplitOn(s, sep), [sep]) == s
    decreases |s|
  {
    var i := FirstIndex(s, sep);
    if i < |s| {
      var rest := SplitOn(s[i + 1..], sep);
      JoinSplit(s[i + 1..], sep);
      assert SplitOn(s, sep) == [s[..i]] + rest;
      assert JoinWith([s[..i]] + rest, [sep]) == s[..i] + [sep] + JoinWith(rest, [sep]);
      assert s == s[..i] + [sep] + s[i + 1..];
    }
  }

  /** Python `s.split()`: the maximal runs of non-blank characters, in order. */
  function SplitWords(s: string): (ws: seq<string>)
    ensures forall k :: 0 <= k < |ws| ==> ws[k] != [] && forall c :: c in ws[k] ==> !IsSpace(c)
    decreases |s|
  {
    var t := TrimLeft(s, IsSpace);
    if t == [] then []
    else
      var n := FirstWhere(t, IsSpace);
      [t[..n]] + SplitWords(t[n..])
  }

  /** The text before the first `c` (the first half of `s.split(c, 1)`). */
  function Before(s: string, c: char): (r: string)
    ensures c !in r && StartsWith(s, r)
  {
    s[..FirstIndex(s, c)]
  }

  /** The text after the first `c` (the second half of `s.split(c, 1)`), when `c` occurs. */
  function After(s: string, c: char): (r: string)
    requires c in s
    ensures s == Before(s, c) + [c] + r
  {
    s[FirstIndex(s, c) + 1..]
  }

  /** The last component of a path has a character other than '.' before index `dot`. */
  predicate HasStem(path: string, sep: int, dot: int)
    requires -1 <= sep < dot <= |path|
  {
    FirstWhere(path[sep + 1..dot], c => c != '.') < dot - sep - 1
  }

  /** Python `os.path.splitext(path)[1]` for a POSIX path: leading dots of the last component do not start an extension. */
  function Extension(path: string): (ext: string)
    ensures |ext| <= |path| && ext == path[|path| - |ext|..]
    ensures ext != [] ==> ext[0] == '.' && forall j :: 1 <= j < |ext| ==> ext[j] != '.' && ext[j] != '/'
  {
    var dot := LastIndexOf(path, '.');
    var sep := LastIndexOf(path, '/');
    if dot > sep && HasStem(path, sep, dot) then path[dot..] else []
  }

  /**
   * A name whose last character before the final dot is an ordinary one has
   * the final dot-suffix as its extension.
   */
  lemma {:induction false} ExtensionOfName(stem: string, ext: string)
    requires ext != [] && ext[0] == '.' && forall j :: 1 <= j < |ext| ==> ext[j] != '.' && ext[j] != '/'
    requires stem != [] && stem[|stem| - 1] != '.' && stem[|stem| - 1] != '/'
    ensures Extension(stem + ext) == ext
  {
    var p := stem + ext;
    var dot := LastIndexOf(p, '.');
    var sep := LastIndexOf(p, '/');
    assert p[|stem|] == '.';
    forall j | |stem| < j < |p| ensures p[j] != '.' && p[j] != '/' {
      assert p[j] == ext[j - |stem|];
    }
    assert dot == |stem|;
    assert sep < |stem|;
    var name := p[sep + 1..dot];
    assert name[|name| - 1] == stem[|stem| - 1];
    assert HasStem(p, sep, dot);
    assert p[dot..] == ext;
  }

  function DigitChar(d: nat): char
    requires d < 10
  {
    ('0' as int + d) as char
  }

  /** The decimal rendering of a natural number, as Python `str(n)` writes it. */
  function NatToString(n: nat): (r: string)
    ensures |r| >= 1 && forall i :: 0 <= i < |r| ==> IsDigit(r[i])
    decreases n
  {
    if n < 10 then [DigitChar(n)] else NatToString(n / 10) + [DigitChar(n % 10)]
  }

  /** The decimal rendering of an integer, as Python `str(i)` writes it. */
  function IntToString(i: int): string {
    if i < 0 then "-" + NatToString(-i) else NatToString(i)
  }
}
