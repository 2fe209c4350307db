/** Small value wrappers shared by every component of the model. */
module Base {
  /** A value that may be absent (Python `None`, a missing row, a failed parse). */
  datatype Option<T> = None | Some(value: T)

  /**
   * The outcome of a Python call that may raise: `Ok` carries the returned
   * value, `Raised` the message of the exception that escaped.
   */
  datatype Outcome<T> = Ok(value: T) | Raised(message: string)

  /** The larger of two integers. */
  function Max(a: int, b: int): (m: int)
    ensures m >= a && m >= b && (m == a || m == b)
  {
    if a >= b then a else b
  }

  /** The smaller of two integers. */
  function Min(a: int, b: int): (m: int)
    ensures m <= a && m <= b && (m == a || m == b)
  {
    if a <= b then a else b
  }

  /** The elements of `s` satisfying `p`, in their order (a list comprehension with a filter, or `WHERE`). */
  function Filter<T>(s: seq<T>, p: T -> bool): (r: seq<T>)
    ensures |r| <= |s|
    ensures forall i :: 0 <= i < |r| ==> p(r[i]) && r[i] in s
    ensures forall x :: x in s && p(x) ==> x in r
    decreases |s|
  {
    if s == [] then []
    else
      var rest := Filter(s[1..], p);
      assert forall x :: x in s[1..] ==> x in s;
      if p(s[0]) then [s[0]] + rest else rest
  }

  /**
   * The list accumulated so far, in front of what the rest of a loop
   * produces; an exception raised later discards it.
   */
  function PrependOk<T>(acc: seq<T>, rest: Outcome<seq<T>>): (r: Outcome<seq<T>>)
    ensures r.Ok? <==> rest.Ok?
    ensures rest.Ok? ==> r.value == acc + rest.value
    ensures rest.Raised? ==> r == rest
  {
    match rest
    case Ok(xs) => Ok(acc + xs)
    case Raised(m) => rest
  }

  /**
   * A loop over `xs` that threads a state from one element to the next:
   * each step gives the new state and either the items it contributes or
   * the exception that ends the loop (and discards what was collected).
   */
  function Fold<X, S, T>(xs: seq<X>, s: S, step: (X, S) -> (S, Outcome<seq<T>>)): Outcome<seq<T>>
    decreases |xs|
  {
    if xs == [] then Ok([])
    else
      var r := step(xs[0], s);
      match r.1
      case Raised(m) => Raised(m)
      case Ok(ys) => PrependOk(ys, Fold(xs[1..], r.0, step))
  }

  /** The state the loop of `Fold` ends in: the one the last step taken gives, the raising step included. */
  function FoldState<X, S, T>(xs: seq<X>, s: S, step: (X, S) -> (S, Outcome<seq<T>>)): S
    decreases |xs|
  {
    if xs == [] then s
    else
      var r := step(xs[0], s);
      if r.1.Raised? then r.0 else FoldState(xs[1..], r.0, step)
  }

  lemma {:induction false} AppendAssoc<T>(a: seq<T>, b: seq<T>, c: seq<T>)
    ensures a + (b + c) == (a + b) + c
  {
  }

  lemma {:induction false} AppendEmpty<T>(a: seq<T>)
    ensures [] + a == a && a + [] == a && a[0..] == a && a[|a|..] == []
  {
  }

  /** One step of the loop, unfolded. */
  lemma {:induction false} FoldCons<X, S, T>(x: X, xs: seq<X>, s: S, step: (X, S) -> (S, Outcome<seq<T>>))
    ensures step(x, s).1.Raised? ==> Fold([x] + xs, s, step) == Raised(step(x, s).1.message)
    ensures step(x, s).1.Ok? ==> Fold([x] + xs, s, step) == PrependOk(step(x, s).1.value, Fold(xs, step(x, s).0, step))
  {
    assert ([x] + xs)[0] == x && ([x] + xs)[1..] == xs;
  }

  /** A step of the loop at position `i` that does not raise: its items join those collected, and the loop goes on. */
  lemma {:induction false} FoldAdvance<X, S, T>(xs: seq<X>, i: nat, s: S, acc: seq<T>, step: (X, S) -> (S, Outcome<seq<T>>))
    requires i < |xs| && step(xs[i], s).1.Ok?
    ensures var out := step(xs[i], s);
            PrependOk(acc, Fold(xs[i..], s, step)) == PrependOk(acc + out.1.value, Fold(xs[i + 1..], out.0, step))
    ensures FoldState(xs[i..], s, step) == FoldState(xs[i + 1..], step(xs[i], s).0, step)
  {
    var out := step(xs[i], s);
    assert xs[i..][0] == xs[i] && xs[i..][1..] == xs[i + 1..];
    var rest := Fold(xs[i + 1..], out.0, step);
    if rest.Ok? {
      assert acc + (out.1.value + rest.value) == (acc + out.1.value) + rest.value;
    }
  }

  /** A step of the loop at position `i` that raises ends it with that exception, in the state the step gives. */
  lemma {:induction false} FoldStop<X, S, T>(xs: seq<X>, i: nat, s: S, acc: seq<T>, step: (X, S) -> (S, Outcome<seq<T>>))
    requires i < |xs| && step(xs[i], s).1.Raised?
    ensures PrependOk(acc, Fold(xs[i..], s, step)) == Raised(step(xs[i], s).1.message)
    ensures FoldState(xs[i..], s, step) == step(xs[i], s).0
  {
    assert xs[i..][0] == xs[i];
  }

  /** Before the loop nothing is collected; after it, nothing is left to fold. */
  lemma {:induction false} FoldEnds<X, S, T>(xs: seq<X>, s: S, acc: seq<T>, step: (X, S) -> (S, Outcome<seq<T>>))
    ensures PrependOk([], Fold(xs, s, step)) == Fold(xs, s, step) && xs[0..] == xs
    ensures PrependOk(acc, Fold(xs[|xs|..], s, step)) == Ok(acc) && FoldState(xs[|xs|..], s, step) == s
  {
    var x := Fold(xs, s, step);
    if x.Ok? {
      assert [] + x.value == x.value;
    }
    assert xs[|xs|..] == [];
    assert acc + [] == acc;
  }

  /** The loop itself: items are appended per element; the first exception is returned. */
  method FoldLoop<X, S, T>(xs: seq<X>, s0: S, step: (X, S) -> (S, Outcome<seq<T>>)) returns (r: Outcome<seq<T>>)
    ensures r == Fold(xs, s0, step)
  {
    var acc: seq<T> := [];
    var s := s0;
    var i := 0;
    assert xs[i..] == xs;
    assert PrependOk([], Fold(xs, s0, step)) == Fold(xs, s0, step) by {
      var x := Fold(xs, s0, step);
      if x.Ok? {
        assert [] + x.value == x.value;
      }
    }
    while i < |xs|
      invariant 0 <= i <= |xs|
      invariant Fold(xs, s0, step) == PrependOk(acc, Fold(xs[i..], s, step))
    {
      assert xs[i..][0] == xs[i] && xs[i..][1..] == xs[i + 1..];
      var out := step(xs[i], s);
      if out.1.Raised? {
        return Raised(out.1.message);
      }
      var rest := Fold(xs[i + 1..], out.0, step);
      if rest.Ok? {
        assert acc + (out.1.value + rest.value) == (acc + out.1.value) + rest.value;
      }
      acc := acc + out.1.value;
      s := out.0;
      i := i + 1;
    }
    assert xs[i..] == [];
    assert acc + [] == acc;
    return Ok(acc);
  }

  /**
   * When every item a step contributes is related by `p` to the element
   * that step handled, every item of the loop's result is related to some
   * element of the input.
   */
  lemma {:induction false} FoldItems<X, S(!new), T>(xs: seq<X>, s: S, step: (X, S) -> (S, Outcome<seq<T>>), p: (X, T) -> bool)
    requires forall x, s' :: x in xs && step(x, s').1.Ok? ==> forall y :: y in step(x, s').1.value ==> p(x, y)
    ensures Fold(xs, s, step).Ok? ==>
              forall y :: y in Fold(xs, s, step).value ==> exists k :: 0 <= k < |xs| && p(xs[k], y)
    decreases |xs|
  {
    if xs != [] {
      var r := step(xs[0], s);
      if r.1.Ok? {
        assert forall x :: x in xs[1..] ==> x in xs;
        FoldItems(xs[1..], r.0, step, p);
        var rest := Fold(xs[1..], r.0, step);
        if rest.Ok? {
          forall y | y in r.1.value + rest.value ensures exists k :: 0 <= k < |xs| && p(xs[k], y) {
            if y in r.1.value {
              assert p(xs[0], y);
            } else {
              var k :| 0 <= k < |xs[1..]| && p(xs[1..][k], y);
              assert xs[1..][k] == xs[k + 1];
            }
          }
        }
      }
    }
  }
}
