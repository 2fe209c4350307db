/**
 * The line-oriented fallback shared by the question, answer and requirement
 * parsers. The response is split on '\n'; a line that starts a record
 * flushes the current record (when it holds the record's main key) and
 * opens a new one; a line `key: value` whose lower-cased, stripped key is
 * accepted is recorded in the current record, when there is one; every
 * other line is ignored. The last record is flushed at the end.
 *
 * The parsers differ in whether lines are stripped first, in what starts
 * a record and what the new record holds, in the keys accepted and in how
 * a value is converted: a `Scanner` holds those choices.
 */
module LineScan {
  import opened Base
  import opened Text
  import opened Json

  datatype Scanner = Scanner(
    strip: bool,                        // lines are stripped before they are examined
    isStart: string -> bool,            // the (stripped) line starts a record
    start: string -> Dict,              // the record a start line opens
    keys: set<string>,                  // the accepted keys, lower-cased
    convert: (string, string) -> JValue, // the stored value of a key, from the text after the first ':'
    mainKey: string)                    // a record is emitted only when it holds this key

  datatype ScanState = ScanState(records: seq<Dict>, current: Dict)

  /** The text after the first ':', or nothing when there is none. */
  function AfterColon(s: string): (r: string)
    ensures ':' in s ==> s == Before(s, ':') + [':'] + r
  {
    if ':' in s then After(s, ':') else []
  }

  function Prepared(sc: Scanner, line: string): string {
    if sc.strip then Strip(line) else line
  }

  predicate Emits(sc: Scanner, cur: Dict) {
    cur != [] && HasKey(cur, sc.mainKey)
  }

  /** The records emitted so far, plus the current one when it would be emitted. */
  function Flush(sc: Scanner, st: ScanState): seq<Dict> {
    st.records + (if Emits(sc, st.current) then [st.current] else [])
  }

  function Step(sc: Scanner, st: ScanState, line: string): ScanState {
    var l := Prepared(sc, line);
    if l == [] then st
    else if sc.isStart(l) then ScanState(Flush(sc, st), sc.start(l))
    else if ':' in l && st.current != [] then
      var key := Lower(Strip(Before(l, ':')));
      if key in sc.keys then ScanState(st.records, Set(st.current, key, sc.convert(key, After(l, ':'))))
      else st
    else st
  }

  function Run(sc: Scanner, st: ScanState, lines: seq<string>): ScanState
    decreases |lines|
  {
    if lines == [] then st else Run(sc, Step(sc, st, lines[0]), lines[1..])
  }

  /** The records the fallback parser returns for a response text. */
  function Scan(sc: Scanner, text: string): seq<Dict> {
    Flush(sc, Run(sc, ScanState([], []), SplitOn(text, '\n')))
  }

  /** The records as the list of dicts a parser returns. */
  function Objects(ds: seq<Dict>): (js: seq<JValue>)
    ensures |js| == |ds| && forall i :: 0 <= i < |ds| ==> js[i] == JObj(ds[i])
  {
    seq(|ds|, i requires 0 <= i < |ds| => JObj(ds[i]))
  }

  /** The parsing loop: one pass over the lines, updating the current record in place. */
  method ScanLines(sc: Scanner, text: string) returns (records: seq<Dict>)
    ensures records == Scan(sc, text)
  {
    var lines := SplitOn(text, '\n');
    var st := ScanState([], []);
    var i := 0;
    while i < |lines|
      invariant 0 <= i <= |lines|
      invariant Run(sc, st, lines[i..]) == Run(sc, ScanState([], []), lines)
    {
      assert lines[i..][1..] == lines[i + 1..];
      var l := Prepared(sc, lines[i]);
      if l == [] {
      } else if sc.isStart(l) {
        st := ScanState(Flush(sc, st), sc.start(l));
      } else if ':' in l && st.current != [] {
        var key := Lower(Strip(Before(l, ':')));
        if key in sc.keys {
          st := st.(current := Set(st.current, key, sc.convert(key, After(l, ':'))));
        }
      }
      i := i + 1;
    }
    assert lines[i..] == [];
    records := Flush(sc, st);
  }

  /** A start line opens either nothing or a record holding just the main key. */
  ghost predicate StartShape(sc: Scanner) {
    forall l :: sc.start(l) == [] || (|sc.start(l)| == 1 && sc.start(l)[0].0 == sc.mainKey)
  }

  /** Every key of `r` is the main key or an accepted one, and its value satisfies `ok`. */
  ghost predicate WellKeyed(sc: Scanner, ok: (string, JValue) -> bool, r: Dict) {
    forall k :: HasKey(r, k) ==> (k == sc.mainKey || k in sc.keys) && ok(k, Lookup(r, k).value)
  }

  ghost predicate ShapeInv(sc: Scanner, ok: (string, JValue) -> bool, st: ScanState) {
    && (forall r :: r in st.records ==> HasKey(r, sc.mainKey) && WellKeyed(sc, ok, r))
    && WellKeyed(sc, ok, st.current)
    && (st.current != [] ==> HasKey(st.current, sc.mainKey))
  }

  lemma {:induction false} StepShape(sc: Scanner, ok: (string, JValue) -> bool, st: ScanState, line: string)
    requires StartShape(sc)
    requires forall l :: sc.start(l) != [] ==> ok(sc.mainKey, sc.start(l)[0].1)
    requires forall k, v :: k in sc.keys ==> ok(k, sc.convert(k, v))
    requires ShapeInv(sc, ok, st)
    ensures ShapeInv(sc, ok, Step(sc, st, line))
  {
    var l := Prepared(sc, line);
    if l != [] && sc.isStart(l) {
      var d := sc.start(l);
      if d != [] {
        forall k | HasKey(d, k) ensures k == sc.mainKey && ok(k, Lookup(d, k).value) {
          assert d[0].0 == k;
        }
        assert HasKey(d, sc.mainKey) by { assert d[0].0 == sc.mainKey; }
      }
    } else if l != [] && ':' in l && st.current != [] {
      var key := Lower(Strip(Before(l, ':')));
      if key in sc.keys {
        var v := sc.convert(key, After(l, ':'));
        var d := Set(st.current, key, v);
        forall k | HasKey(d, k) ensures (k == sc.mainKey || k in sc.keys) && ok(k, Lookup(d, k).value) {
          if k != key {
            assert Lookup(d, k) == Lookup(st.current, k);
          }
        }
        assert Lookup(d, sc.mainKey).Some? by {
          if sc.mainKey != key {
            assert Lookup(d, sc.mainKey) == Lookup(st.current, sc.mainKey);
          }
        }
      }
    }
  }

  lemma {:induction false} RunShape(sc: Scanner, ok: (string, JValue) -> bool, st: ScanState, lines: seq<string>)
    requires StartShape(sc)
    requires forall l :: sc.start(l) != [] ==> ok(sc.mainKey, sc.start(l)[0].1)
    requires forall k, v :: k in sc.keys ==> ok(k, sc.convert(k, v))
    requires ShapeInv(sc, ok, st)
    ensures ShapeInv(sc, ok, Run(sc, st, lines))
    decreases |lines|
  {
    if lines != [] {
      StepShape(sc, ok, st, lines[0]);
      RunShape(sc, ok, Step(sc, st, lines[0]), lines[1..]);
    }
  }

  /**
   * Every record returned holds the main key, and only the main key and
   * accepted keys, each with a value satisfying whatever the start lines
   * and the conversions guarantee.
   */
  lemma {:induction false} ScanShape(sc: Scanner, ok: (string, JValue) -> bool, text: string)
    requires StartShape(sc)
    requires forall l :: sc.start(l) != [] ==> ok(sc.mainKey, sc.start(l)[0].1)
    requires forall k, v :: k in sc.keys ==> ok(k, sc.convert(k, v))
    ensures forall r :: r in Scan(sc, text) ==> HasKey(r, sc.mainKey) && WellKeyed(sc, ok, r)
  {
    var init := ScanState([], []);
    RunShape(sc, ok, init, SplitOn(text, '\n'));
  }

  /** The main-key values of a list of records, in order. */
  function MainsOf(sc: Scanner, records: seq<Dict>): (vs: seq<JValue>)
    ensures |vs| == |records|
    ensures forall i :: 0 <= i < |records| ==> vs[i] == Get(records[i], sc.mainKey, JNull)
  {
    seq(|records|, i requires 0 <= i < |records| => Get(records[i], sc.mainKey, JNull))
  }

  /** The main-key value of each line that starts a non-empty record, in order. */
  function StartMains(sc: Scanner, lines: seq<string>): seq<JValue>
    decreases |lines|
  {
    if lines == [] then []
    else
      var l := Prepared(sc, lines[0]);
      var rest := StartMains(sc, lines[1..]);
      if l != [] && sc.isStart(l) && sc.start(l) != [] then [sc.start(l)[0].1] + rest else rest
  }

  lemma {:induction false} StepMains(sc: Scanner, st: ScanState, line: string)
    requires StartShape(sc) && sc.mainKey !in sc.keys
    requires st.current == [] || HasKey(st.current, sc.mainKey)
    ensures var st' := Step(sc, st, line);
            && (st'.current == [] || HasKey(st'.current, sc.mainKey))
            && MainsOf(sc, Flush(sc, st')) == MainsOf(sc, Flush(sc, st)) + StartMains(sc, [line])
  {
    var l := Prepared(sc, line);
    var st' := Step(sc, st, line);
    assert [line][1..] == [];
    var here := if l != [] && sc.isStart(l) && sc.start(l) != [] then [sc.start(l)[0].1] else [];
    assert StartMains(sc, [line]) == here + StartMains(sc, []);
    assert StartMains(sc, [line]) == here;
    if l != [] && sc.isStart(l) {
      var d := sc.start(l);
      assert st' == ScanState(Flush(sc, st), d);
      if d != [] {
        assert d[0].0 == sc.mainKey;
        assert HasKey(d, sc.mainKey);
        assert Get(d, sc.mainKey, JNull) == d[0].1;
        assert Flush(sc, st') == Flush(sc, st) + [d];
        MainsAppend(sc, Flush(sc, st), d);
      } else {
        assert Flush(sc, st') == Flush(sc, st) + [];
        assert MainsOf(sc, Flush(sc, st)) + [] == MainsOf(sc, Flush(sc, st));
      }
    } else if l != [] && ':' in l && st.current != [] {
      var key := Lower(Strip(Before(l, ':')));
      assert here == [];
      if key in sc.keys {
        var d := Set(st.current, key, sc.convert(key, After(l, ':')));
        assert Lookup(d, sc.mainKey) == Lookup(st.current, sc.mainKey);
        assert st' == ScanState(st.records, d);
        assert HasKey(d, sc.mainKey) && d != [];
        assert Get(d, sc.mainKey, JNull) == Get(st.current, sc.mainKey, JNull);
        assert Flush(sc, st') == st.records + [d];
        assert Flush(sc, st) == st.records + [st.current];
        MainsAppend(sc, st.records, d);
        MainsAppend(sc, st.records, st.current);
        assert MainsOf(sc, Flush(sc, st)) + [] == MainsOf(sc, Flush(sc, st));
      } else {
        assert st' == st;
        assert MainsOf(sc, Flush(sc, st)) + [] == MainsOf(sc, Flush(sc, st));
      }
    } else {
      assert here == [];
      assert st' == st;
      assert MainsOf(sc, Flush(sc, st)) + [] == MainsOf(sc, Flush(sc, st));
    }
  }

  lemma MainsAppend(sc: Scanner, records: seq<Dict>, d: Dict)
    ensures MainsOf(sc, records + [d]) == MainsOf(sc, records) + [Get(d, sc.mainKey, JNull)]
  {
    var rs := records + [d];
    assert rs[|records|] == d;
    forall i | 0 <= i < |records| ensures rs[i] == records[i] { }
  }

  lemma {:induction false} RunMains(sc: Scanner, st: ScanState, lines: seq<string>)
    requires StartShape(sc) && sc.mainKey !in sc.keys
    requires st.current == [] || HasKey(st.current, sc.mainKey)
    ensures MainsOf(sc, Flush(sc, Run(sc, st, lines))) == MainsOf(sc, Flush(sc, st)) + StartMains(sc, lines)
    decreases |lines|
  {
    if lines != [] {
      var st' := Step(sc, st, lines[0]);
      StepMains(sc, st, lines[0]);
      RunMains(sc, st', lines[1..]);
      MainsCombine(sc, st, st', lines);
    }
  }

  /** Glues one step of the scan to the scan of the remaining lines. */
  lemma {:induction false} MainsCombine(sc: Scanner, st: ScanState, st': ScanState, lines: seq<string>)
    requires lines != [] && st' == Step(sc, st, lines[0])
    requires MainsOf(sc, Flush(sc, st')) == MainsOf(sc, Flush(sc, st)) + StartMains(sc, [lines[0]])
    requires MainsOf(sc, Flush(sc, Run(sc, st', lines[1..]))) == MainsOf(sc, Flush(sc, st')) + StartMains(sc, lines[1..])
    ensures MainsOf(sc, Flush(sc, Run(sc, st, lines))) == MainsOf(sc, Flush(sc, st)) + StartMains(sc, lines)
  {
    StartMainsCons(sc, lines);
    assert Run(sc, st, lines) == Run(sc, st', lines[1..]);
  }

  lemma {:induction false} StartMainsCons(sc: Scanner, lines: seq<string>)
    requires lines != []
    ensures StartMains(sc, lines) == StartMains(sc, [lines[0]]) + StartMains(sc, lines[1..])
  {
    assert [lines[0]][1..] == [];
  }

  /**
   * One record per line that opens a non-empty record, in the order of
   * those lines, each holding the main-key value its start line gave it
   * (accepted keys never overwrite it).
   */
  lemma {:induction false} ScanMains(sc: Scanner, text: string)
    requires StartShape(sc) && sc.mainKey !in sc.keys
    ensures MainsOf(sc, Scan(sc, text)) == StartMains(sc, SplitOn(text, '\n'))
    ensures |Scan(sc, text)| == |StartMains(sc, SplitOn(text, '\n'))|
  {
    RunMains(sc, ScanState([], []), SplitOn(text, '\n'));
    assert Flush(sc, ScanState([], [])) == [];
  }

  /** Each record holds the main-key value of the line that opened it, and only keys the scanner knows, each accepted by `ok`. */
  lemma {:induction false} ScanRecords(sc: Scanner, ok: (string, JValue) -> bool, text: string)
    requires StartShape(sc) && sc.mainKey !in sc.keys
    requires forall l :: sc.start(l) != [] ==> ok(sc.mainKey, sc.start(l)[0].1)
    requires forall k, v :: k in sc.keys ==> ok(k, sc.convert(k, v))
    ensures |Scan(sc, text)| == |StartMains(sc, SplitOn(text, '\n'))|
    ensures forall i :: 0 <= i < |Scan(sc, text)| ==>
              Lookup(Scan(sc, text)[i], sc.mainKey) == Some(StartMains(sc, SplitOn(text, '\n'))[i])
              && WellKeyed(sc, ok, Scan(sc, text)[i])
  {
    ScanShape(sc, ok, text);
    ScanMains(sc, text);
    var records := Scan(sc, text);
    forall i | 0 <= i < |records|
      ensures Lookup(records[i], sc.mainKey) == Some(StartMains(sc, SplitOn(text, '\n'))[i])
      ensures WellKeyed(sc, ok, records[i])
    {
      assert records[i] in records;
      assert MainsOf(sc, records)[i] == Get(records[i], sc.mainKey, JNull);
    }
  }
}
