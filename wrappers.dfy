/** Optional values, results, and the Python exceptions that escape the script. */
module Wrappers {

  /** Python's `None` or a value. */
  datatype Option<+T> = None | Some(value: T)

  /** The exceptions the modelled code can raise and does not catch. */
  datatype Exception =
    | TypeError   // `re.findall` over a header that is `None`
    | IndexError  // `letter[0]` on an empty `findall` result
    | ValueError  // `datetime.strptime` rejecting a timestamp

  /** A computation that either returns a value or raises. */
  datatype Result<+R> = Success(value: R) | Failure(error: Exception) {
    predicate IsFailure() { Failure? }

    function PropagateFailure<U>(): Result<U>
      requires Failure?
    {
      Failure(error)
    }

    function Extract(): R
      requires Success?
    {
      value
    }
  }

  /** Puts `prefix` in front of a successful list result; an exception passes through. */
  function Prepend<T>(prefix: seq<T>, r: Result<seq<T>>): (p: Result<seq<T>>)
    ensures p.Success? <==> r.Success?
    ensures p.Success? ==> p.value == prefix + r.value
    ensures p.Failure? ==> p.error == r.error
  {
    match r
    case Success(v) => Success(prefix + v)
    case Failure(e) => Failure(e)
  }

  lemma PrependNothing<T>(r: Result<seq<T>>)
    ensures Prepend([], r) == r
  {
    if r.Success? {
      assert [] + r.value == r.value;
    }
  }

  lemma PrependAssociative<T>(a: seq<T>, b: seq<T>, r: Result<seq<T>>)
    ensures Prepend(a, Prepend(b, r)) == Prepend(a + b, r)
  {
    if r.Success? {
      assert a + (b + r.value) == (a + b) + r.value;
    }
  }
}
