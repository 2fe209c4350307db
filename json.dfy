/**
 * Decoded JSON values as Python holds them after `json.loads`, with the
 * Python operations the code applies to them: truthiness, `dict.get`,
 * item assignment, `len`, iteration and slicing.
 *
 * A Python dict is an insertion-ordered association list; `Set` keeps the
 * position of an existing key and appends a new one, as CPython does.
 */
module Json {
  import opened Base
  import opened Text

  datatype JValue =
    | JNull
    | JBool(b: bool)
    | JInt(i: int)
    | JFloat(f: real)
    | JStr(s: string)
    | JArr(items: seq<JValue>)
    | JObj(fields: seq<(string, JValue)>)

  /** The fields of a dict, in insertion order. */
  type Dict = seq<(string, JValue)>

  function Keys(d: Dict): (ks: seq<string>)
    ensures |ks| == |d| && forall i :: 0 <= i < |d| ==> ks[i] == d[i].0
  {
    seq(|d|, i requires 0 <= i < |d| => d[i].0)
  }

  /** No key occurs twice: what every Python dict guarantees. */
  predicate DistinctKeys(d: Dict) {
    forall i, j :: 0 <= i < j < |d| ==> d[i].0 != d[j].0
  }

  /**
   * What a Python dict compares a key by: `False`, `0` and `0.0` are one
   * key, as are `True`, `1` and `1.0`; every other value is itself.
   */
  function KeyOf(j: JValue): (r: JValue)
    ensures (j.JBool? || j.JInt? || j.JFloat?) <==> r.JFloat?
    ensures !(j.JBool? || j.JInt? || j.JFloat?) ==> r == j
  {
    match j
    case JBool(b) => JFloat(if b then 1.0 else 0.0)
    case JInt(i) => JFloat(i as real)
    case _ => j
  }

  predicate HasKey(d: Dict, k: string) {
    exists i :: 0 <= i < |d| && d[i].0 == k
  }

  /** The position of key `k`, or `|d|` when it is absent. */
  function KeyIndex(d: Dict, k: string): (i: nat)
    ensures i <= |d|
    ensures i < |d| ==> d[i].0 == k
    ensures forall j :: 0 <= j < i ==> d[j].0 != k
    ensures i == |d| <==> !HasKey(d, k)
    decreases |d|
  {
    if d == [] then 0
    else if d[0].0 == k then 0
    else
      var r := KeyIndex(d[1..], k);
      assert r < |d[1..]| ==> d[1 + r].0 == k;
      assert !HasKey(d[1..], k) ==> forall j :: 0 <= j < |d| ==> d[j].0 != k by {
        if !HasKey(d[1..], k) {
          forall j | 0 <= j < |d| ensures d[j].0 != k {
            if j > 0 {
              assert d[1..][j - 1] == d[j];
            }
          }
        }
      }
      1 + r
  }

  /** `d[k]` when present. */
  function Lookup(d: Dict, k: string): (r: Option<JValue>)
    ensures r.Some? <==> HasKey(d, k)
  {
    var i := KeyIndex(d, k);
    if i < |d| then Some(d[i].1) else None
  }

  /** Python `d.get(k, default)`. */
  function Get(d: Dict, k: string, default: JValue): (r: JValue)
    ensures HasKey(d, k) ==> Some(r) == Lookup(d, k)
    ensures !HasKey(d, k) ==> r == default
  {
    var i := KeyIndex(d, k);
    if i < |d| then d[i].1 else default
  }

  /** Python `d[k] = v`: an existing key keeps its position, a new key goes last. */
  function Set(d: Dict, k: string, v: JValue): (r: Dict)
    ensures Lookup(r, k) == Some(v)
    ensures forall k' :: k' != k ==> Lookup(r, k') == Lookup(d, k')
    ensures HasKey(d, k) ==> Keys(r) == Keys(d)
    ensures !HasKey(d, k) ==> Keys(r) == Keys(d) + [k]
  {
    var i := KeyIndex(d, k);
    if i < |d| then
      var r := d[i := (k, v)];
      assert Keys(r) == Keys(d);
      assert forall k' :: k' != k ==> KeyIndex(r, k') == KeyIndex(d, k') by {
        forall k' | k' != k ensures KeyIndex(r, k') == KeyIndex(d, k') {
          KeyIndexSameKeys(r, d, k');
        }
      }
      r
    else
      var r := d + [(k, v)];
      assert Keys(r) == Keys(d) + [k];
      assert r[|d|].0 == k;
      assert forall k' :: k' != k ==> Lookup(r, k') == Lookup(d, k') by {
        forall k' | k' != k ensures Lookup(r, k') == Lookup(d, k') {
          LookupAppend(d, k', (k, v));
        }
      }
      r
  }

  lemma {:induction false} KeyIndexSameKeys(a: Dict, b: Dict, k: string)
    requires Keys(a) == Keys(b)
    ensures KeyIndex(a, k) == KeyIndex(b, k)
  {
    assert forall t :: 0 <= t < |a| ==> a[t].0 == Keys(a)[t] == Keys(b)[t] == b[t].0;
  }

  lemma {:induction false} LookupAppend(d: Dict, k: string, e: (string, JValue))
    requires e.0 != k
    ensures Lookup(d + [e], k) == Lookup(d, k)
  {
    var r := d + [e];
    var i, j := KeyIndex(r, k), KeyIndex(d, k);
    if j < |d| {
      assert r[j] == d[j];
    } else {
      assert forall t :: 0 <= t < |r| ==> r[t].0 != k by {
        forall t | 0 <= t < |r| ensures r[t].0 != k {
          if t < |d| {
            assert r[t] == d[t];
          }
        }
      }
    }
  }

  /** Python `d.pop(k, None)`: the dict without key `k`, the others in their order. */
  function RemoveKey(d: Dict, k: string): (r: Dict)
    ensures !HasKey(r, k)
    ensures forall k' :: k' != k ==> Lookup(r, k') == Lookup(d, k')
    ensures !HasKey(d, k) ==> r == d
    decreases |d|
  {
    if d == [] then []
    else
      var rest := RemoveKey(d[1..], k);
      assert forall k' :: k' != d[0].0 ==> Lookup(d, k') == Lookup(d[1..], k') by {
        forall k' | k' != d[0].0 ensures Lookup(d, k') == Lookup(d[1..], k') {
          LookupCons(d, k');
        }
      }
      if d[0].0 == k then rest
      else
        var r := [d[0]] + rest;
        assert r[1..] == rest;
        assert forall k' :: k' != d[0].0 ==> Lookup(r, k') == Lookup(rest, k') by {
          forall k' | k' != d[0].0 ensures Lookup(r, k') == Lookup(rest, k') {
            LookupCons(r, k');
          }
        }
        assert !HasKey(d[1..], k) ==> !HasKey(d, k) && r == d;
        r
  }

  lemma {:induction false} LookupCons(d: Dict, k: string)
    requires d != [] && d[0].0 != k
    ensures Lookup(d, k) == Lookup(d[1..], k)
    ensures HasKey(d, k) == HasKey(d[1..], k)
  {
    assert HasKey(d[1..], k) ==> HasKey(d, k) by {
      if HasKey(d[1..], k) {
        var j :| 0 <= j < |d[1..]| && d[1..][j].0 == k;
        assert d[j + 1].0 == k;
      }
    }
    assert HasKey(d, k) ==> HasKey(d[1..], k) by {
      if HasKey(d, k) {
        var j :| 0 <= j < |d| && d[j].0 == k;
        assert d[1..][j - 1].0 == k;
      }
    }
  }

  /** Python `if k not in d: d[k] = v`. */
  function SetDefault(d: Dict, k: string, v: JValue): (r: Dict)
    ensures HasKey(d, k) ==> r == d
    ensures !HasKey(d, k) ==> Lookup(r, k) == Some(v) && Keys(r) == Keys(d) + [k]
  {
    if HasKey(d, k) then d else Set(d, k, v)
  }

  /** Python truthiness of a decoded value. */
  predicate Truthy(j: JValue) {
    match j
    case JNull => false
    case JBool(b) => b
    case JInt(i) => i != 0
    case JFloat(f) => f != 0.0
    case JStr(s) => s != []
    case JArr(items) => items != []
    case JObj(fields) => fields != []
  }

  predicate IsDict(j: JValue) { j.JObj? }

  /** Python `type(j).__name__`, used in the messages of the errors the model raises. */
  function TypeName(j: JValue): string {
    match j
    case JNull => "NoneType"
    case JBool(_) => "bool"
    case JInt(_) => "int"
    case JFloat(_) => "float"
    case JStr(_) => "str"
    case JArr(_) => "list"
    case JObj(_) => "dict"
  }

  /** Python `len(j)`; `None` where `len` raises `TypeError`. */
  function Len(j: JValue): (r: Option<nat>)
    ensures r.Some? <==> (j.JStr? || j.JArr? || j.JObj?)
    ensures r.Some? ==> (r.value == 0 <==> !Truthy(j))
  {
    match j
    case JStr(s) => Some(|s|)
    case JArr(items) => Some(|items|)
    case JObj(fields) => Some(|fields|)
    case _ => None
  }

  /** What `for x in j` visits; `None` where Python raises "object is not iterable". */
  function Iter(j: JValue): (r: Option<seq<JValue>>)
    ensures r.Some? <==> (j.JStr? || j.JArr? || j.JObj?)
    ensures r.Some? ==> (|r.value| == 0 <==> !Truthy(j))
  {
    match j
    case JStr(s) => Some(seq(|s|, i requires 0 <= i < |s| => JStr([s[i]])))
    case JArr(items) => Some(items)
    case JObj(fields) => Some(seq(|fields|, i requires 0 <= i < |fields| => JStr(fields[i].0)))
    case _ => None
  }

  /** Python `j[:n]`; `None` where slicing raises `TypeError`. */
  function Prefix(j: JValue, n: nat): (r: Option<JValue>)
    ensures r.Some? <==> (j.JStr? || j.JArr?)
  {
    match j
    case JStr(s) => Some(JStr(if |s| <= n then s else s[..n]))
    case JArr(items) => Some(JArr(if |items| <= n then items else items[..n]))
    case _ => None
  }

  /** The message Python gives for `len` of a value that has no length. */
  function NoLenMessage(j: JValue): string {
    "object of type '" + TypeName(j) + "' has no len()"
  }

  /** The message Python gives for iterating a value that is not iterable. */
  function NotIterableMessage(j: JValue): string {
    "'" + TypeName(j) + "' object is not iterable"
  }

  /** The message Python gives for `j.get(...)` on a value that is not a dict. */
  function NoGetMessage(j: JValue): string {
    "'" + TypeName(j) + "' object has no attribute 'get'"
  }

  /** The message Python gives for `j[key] = v` on a value that is not a dict. */
  function NoItemAssignmentMessage(j: JValue): string {
    if j.JArr? then "list indices must be integers or slices, not str"
    else "'" + TypeName(j) + "' object does not support item assignment"
  }

  /** The message of the `KeyError` raised by `d[k]` for a missing key. */
  function KeyErrorMessage(k: string): string {
    "'" + k + "'"
  }

  /**
   * Python `str(j)`, as an f-string renders a decoded value: a string is
   * itself, containers are written with `repr` of their elements.
   */
  function PyStr(j: JValue): string
    decreases j, 1
  {
    match j
    case JStr(s) => s
    case _ => Repr(j)
  }

  /**
   * Python `repr(j)`. Strings are quoted with single quotes and not
   * escaped; a float is written as its integer part followed by ".0" only
   * when it is integral (see `FloatText`).
   */
  function Repr(j: JValue): string
    decreases j, 0
  {
    match j
    case JNull => "None"
    case JBool(b) => if b then "True" else "False"
    case JInt(i) => IntToString(i)
    case JFloat(f) => FloatText(f)
    case JStr(s) => "'" + s + "'"
    case JArr(items) => "[" + JoinWith(seq(|items|, k requires 0 <= k < |items| => Repr(items[k])), ", ") + "]"
    case JObj(fields) =>
      "{" + JoinWith(seq(|fields|, k requires 0 <= k < |fields| => "'" + fields[k].0 + "': " + Repr(fields[k].1)), ", ") + "}"
  }

  /** The text of an integral float (`3.0`); other floats are not rendered digit by digit. */
  function FloatText(f: real): string {
    if f.Floor as real == f then IntToString(f.Floor) + ".0" else "<float>"
  }
}
