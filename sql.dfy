/**
 * The SQLite values the store keeps: what the `sqlite3` module binds for
 * a Python argument, the column affinities that convert a bound value on
 * insert, and the `ORDER BY` comparison between stored values.
 */
module Sql {
  import opened Base
  import opened Text
  import opened Json

  /** A stored SQLite value (BLOB is never produced by the code). */
  datatype SqlValue = SqlNull | SqlInt(i: int) | SqlReal(r: real) | SqlText(t: string)

  const MinInt64: int := -0x8000_0000_0000_0000
  const MaxInt64: int := 0x7FFF_FFFF_FFFF_FFFF

  predicate InInt64(i: int) { MinInt64 <= i <= MaxInt64 }

  /**
   * The value `sqlite3` binds for a Python argument, or `None` where binding
   * raises: a list or a dict is not a supported type, and an int outside
   * 64 bits overflows. A bool binds as the integer 0 or 1.
   */
  function Bind(j: JValue): (r: Option<SqlValue>)
    ensures r.None? <==> (j.JArr? || j.JObj? || (j.JInt? && !InInt64(j.i)))
    ensures r == Some(SqlNull) <==> j == JNull
    ensures j.JStr? ==> r == Some(SqlText(j.s))
  {
    match j
    case JNull => Some(SqlNull)
    case JBool(b) => Some(SqlInt(if b then 1 else 0))
    case JInt(i) => if InInt64(i) then Some(SqlInt(i)) else None
    case JFloat(f) => Some(SqlReal(f))
    case JStr(s) => Some(SqlText(s))
    case _ => None
  }

  /** A value the store can hold: integers are 64-bit. */
  predicate Storable(v: SqlValue) { v.SqlInt? ==> InInt64(v.i) }

  /** The value Python reads back for a stored value. */
  function ToJson(v: SqlValue): (j: JValue)
    ensures Storable(v) ==> Bind(j) == Some(v)
  {
    match v
    case SqlNull => JNull
    case SqlInt(i) => JInt(i)
    case SqlReal(r) => JFloat(r)
    case SqlText(t) => JStr(t)
  }

  function DigitsValue(s: string): nat
    requires forall k :: 0 <= k < |s| ==> IsDigit(s[k])
    decreases |s|
  {
    if s == [] then 0
    else
      assert IsDigit(s[|s| - 1]);
      DigitsValue(s[..|s| - 1]) * 10 + (s[|s| - 1] as int - '0' as int)
  }

  predicate AllDigits(s: string) {
    s != [] && forall k :: 0 <= k < |s| ==> IsDigit(s[k])
  }

  /** Text SQLite reads as an integer literal: an optional sign, then decimal digits. */
  predicate IsIntegerText(t: string) {
    if t != [] && (t[0] == '-' || t[0] == '+') then AllDigits(t[1..]) else AllDigits(t)
  }

  function IntegerTextValue(t: string): int
    requires IsIntegerText(t)
  {
    if t[0] == '-' then -(DigitsValue(t[1..]) as int)
    else if t[0] == '+' then DigitsValue(t[1..])
    else DigitsValue(t)
  }

  /** The exact integer a real equals, if any. */
  predicate IsIntegral(r: real) { r.Floor as real == r }

  /**
   * INTEGER column affinity: integer-looking text and integral reals that
   * fit 64 bits are stored as integers; everything else is kept.
   */
  function IntegerAffinity(v: SqlValue): (r: SqlValue)
    ensures r.SqlNull? <==> v.SqlNull?
    ensures r != v ==> r.SqlInt?
    ensures v.SqlInt? ==> r == v
    ensures r.SqlReal? ==> !(IsIntegral(r.r) && InInt64(r.r.Floor))
  {
    match v
    case SqlText(t) =>
      if IsIntegerText(t) && InInt64(IntegerTextValue(t)) then SqlInt(IntegerTextValue(t)) else v
    case SqlReal(x) =>
      if IsIntegral(x) && InInt64(x.Floor) then SqlInt(x.Floor) else v
    case _ => v
  }

  /** REAL column affinity: integers, and integer-looking text, are stored as reals. */
  function RealAffinity(v: SqlValue): (r: SqlValue)
    ensures r.SqlNull? <==> v.SqlNull?
    ensures !r.SqlInt?
    ensures v.SqlReal? ==> r == v
  {
    match v
    case SqlInt(i) => SqlReal(i as real)
    case SqlText(t) => if IsIntegerText(t) then SqlReal(IntegerTextValue(t) as real) else v
    case _ => v
  }

  /** TEXT column affinity: integers are stored as their decimal text. */
  function TextAffinity(v: SqlValue): (r: SqlValue)
    ensures r.SqlNull? <==> v.SqlNull?
    ensures !r.SqlInt?
    ensures v.SqlText? ==> r == v
  {
    match v
    case SqlInt(i) => SqlText(IntToString(i))
    case _ => v
  }

  /** Python truthiness of a value read back from the store. */
  predicate SqlTruthy(v: SqlValue) {
    Truthy(ToJson(v))
  }

  /** Lexicographic order on code points (SQLite's BINARY collation). */
  predicate StrLe(a: string, b: string)
    decreases |a|
  {
    a == [] || (b != [] && (a[0] < b[0] || (a[0] == b[0] && StrLe(a[1..], b[1..]))))
  }

  lemma {:induction false} StrLeTotal(a: string, b: string)
    ensures StrLe(a, b) || StrLe(b, a)
    decreases |a|
  {
    if a != [] && b != [] && a[0] == b[0] {
      StrLeTotal(a[1..], b[1..]);
    }
  }

  lemma {:induction false} StrLeTransitive(a: string, b: string, c: string)
    requires StrLe(a, b) && StrLe(b, c)
    ensures StrLe(a, c)
    decreases |a|
  {
    if a != [] && b != [] && c != [] && a[0] == b[0] == c[0] {
      StrLeTransitive(a[1..], b[1..], c[1..]);
    }
  }

  lemma {:induction false} StrLeAntisymmetric(a: string, b: string)
    requires StrLe(a, b) && StrLe(b, a)
    ensures a == b
    decreases |a|
  {
    if a != [] {
      StrLeAntisymmetric(a[1..], b[1..]);
      assert a == [a[0]] + a[1..] && b == [b[0]] + b[1..];
    }
  }

  /** Storage class rank in SQLite's sort order: NULL, then numbers, then text. */
  function Rank(v: SqlValue): nat {
    match v
    case SqlNull => 0
    case SqlInt(_) => 1
    case SqlReal(_) => 1
    case SqlText(_) => 2
  }

  function NumValue(v: SqlValue): real
    requires v.SqlInt? || v.SqlReal?
  {
    if v.SqlInt? then v.i as real else v.r
  }

  /** `a` sorts no later than `b` under `ORDER BY` (ascending). */
  predicate SqlLe(a: SqlValue, b: SqlValue) {
    if Rank(a) != Rank(b) then Rank(a) < Rank(b)
    else if Rank(a) == 0 then true
    else if Rank(a) == 1 then NumValue(a) <= NumValue(b)
    else StrLe(a.t, b.t)
  }

  /** Neither sorts before the other: the two values compare equal in SQL. */
  predicate SqlSame(a: SqlValue, b: SqlValue) { SqlLe(a, b) && SqlLe(b, a) }

  lemma {:induction false} SqlLeTotal(a: SqlValue, b: SqlValue)
    ensures SqlLe(a, b) || SqlLe(b, a)
  {
    if Rank(a) == Rank(b) == 2 {
      StrLeTotal(a.t, b.t);
    }
  }

  lemma {:induction false} SqlLeTransitive(a: SqlValue, b: SqlValue, c: SqlValue)
    requires SqlLe(a, b) && SqlLe(b, c)
    ensures SqlLe(a, c)
  {
    if Rank(a) == Rank(b) == Rank(c) == 2 {
      StrLeTransitive(a.t, b.t, c.t);
    }
  }

  /** Text values compare equal exactly when they are the same string. */
  lemma {:induction false} SqlSameText(a: string, b: string)
    ensures SqlSame(SqlText(a), SqlText(b)) <==> a == b
  {
    if SqlSame(SqlText(a), SqlText(b)) {
      StrLeAntisymmetric(a, b);
    } else if a == b {
      StrLeTotal(a, a);
    }
  }
}
