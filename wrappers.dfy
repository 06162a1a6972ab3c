/** Option and Result, the two wrappers every module below returns. */
module Wrappers {
  datatype Option<T> = None | Some(value: T)

  /**
   * A computation that either yields a value or raises the error `error`.
   * The three members let `:-` propagate the first error, as a Java
   * exception would.
   */
  datatype Result<T, E> = Ok(value: T) | Err(error: E)
  {
    predicate IsFailure() {
      Err?
    }

    function PropagateFailure<U>(): Result<U, E>
      requires Err?
    {
      Err(error)
    }

    function Extract(): T
      requires Ok?
    {
      value
    }
  }

  /** Two writes in sequence: the first failure wins, otherwise the outputs are joined. */
  function Cat<T, E>(a: Result<seq<T>, E>, b: Result<seq<T>, E>): (r: Result<seq<T>, E>)
    ensures r.Ok? <==> a.Ok? && b.Ok?
    ensures r.Ok? ==> r.value == a.value + b.value
    ensures a.Err? ==> r == a
    ensures a.Ok? && b.Err? ==> r == b
  {
    match a
    case Err(_) => a
    case Ok(x) => match b case Err(_) => b case Ok(y) => Ok(x + y)
  }

  lemma CatAssoc<T, E>(x: seq<T>, y: seq<T>, r: Result<seq<T>, E>)
    ensures Cat(Ok(x), Cat(Ok(y), r)) == Cat(Ok(x + y), r)
  {
    if r.Ok? {
      assert x + (y + r.value) == (x + y) + r.value;
    }
  }

  /** Two concatenations that succeeded: all three parts succeeded, in order. */
  lemma CatOkThree<T, E>(x: seq<T>, b: Result<seq<T>, E>, c: Result<seq<T>, E>)
    requires Cat(Cat(Ok(x), b), c).Ok?
    ensures b.Ok? && c.Ok? && Cat(Cat(Ok(x), b), c).value == x + (b.value + c.value)
  {
    assert (x + b.value) + c.value == x + (b.value + c.value);
  }

  /** A concatenation that succeeded, followed by more: both parts succeeded, in order. */
  lemma CatOkThen<T, E>(a: Result<seq<T>, E>, b: Result<seq<T>, E>, tail: seq<T>)
    requires Cat(a, b).Ok?
    ensures a.Ok? && b.Ok? && Cat(a, b).value + tail == a.value + (b.value + tail)
  {
    assert (a.value + b.value) + tail == a.value + (b.value + tail);
  }

  /** What was already produced, in front of what the rest produces; an error passes through. */
  function Ahead<T, E>(done: seq<T>, rest: Result<seq<T>, E>): Result<seq<T>, E> {
    match rest case Err(e) => Err(e) case Ok(t) => Ok(done + t)
  }

  lemma AheadNothing<T, E>(rest: Result<seq<T>, E>)
    ensures Ahead([], rest) == rest
  {
    match rest
    case Err(_) =>
    case Ok(t) => assert [] + t == t;
  }

  lemma AheadAhead<T, E>(a: seq<T>, b: seq<T>, rest: Result<seq<T>, E>)
    ensures Ahead(a, Ahead(b, rest)) == Ahead(a + b, rest)
  {
    match rest
    case Err(_) =>
    case Ok(t) => assert a + (b + t) == (a + b) + t;
  }

  lemma CatUnit<T, E>(r: Result<seq<T>, E>)
    ensures Cat(Ok([]), r) == r
    ensures r.Ok? ==> Cat(r, Ok([])) == r
  {
    if r.Ok? {
      assert [] + r.value == r.value && r.value + [] == r.value;
    }
  }
}
