/** Results with an optional value, for the sources' options, errors and exceptions. */
module Wrappers {

  datatype Option<+T> = None | Some(value: T)

  datatype Result<+T, +E> = Ok(value: T) | Err(error: E) {
    predicate IsFailure() {
      Err?
    }

    function PropagateFailure<U>(): Result<U, E>
      requires Err?
    {
      Err(error)
    }

    function Extract(): T
      requires Ok?
    {
      value
    }
  }

  /** `out` in front of a list a later step may still fail to give. */
  function Extend<T, E>(out: seq<T>, r: Result<seq<T>, E>): Result<seq<T>, E> {
    match r
    case Ok(s) => Ok(out + s)
    case Err(e) => Err(e)
  }

  lemma {:induction false} ExtendTwice<T, E>(a: seq<T>, b: seq<T>, r: Result<seq<T>, E>)
    ensures Extend(a, Extend(b, r)) == Extend(a + b, r)
    ensures Extend([], r) == r
    ensures Extend(a, Result<seq<T>, E>.Ok([])) == Ok(a)
  {
    if r.Ok? {
      assert a + (b + r.value) == a + b + r.value;
      assert [] + r.value == r.value;
    }
    assert a + [] == a;
  }
}
