/** Wrappers used across the model: `Option`, which `:-` can propagate, and a plain `Result`. */
module Wrappers {

  /** An optional value; `None` plays the role of JavaScript's `null`/`undefined`. */
  datatype Option<+T> = None | Some(value: T) {

    predicate IsFailure() {
      None?
    }

    function PropagateFailure<U>(): Option<U>
      requires None?
    {
      None
    }

    function Extract(): T
      requires Some?
    {
      value
    }
  }

  /** A computation that either yields a value or raises an error. */
  datatype Result<+R, +E> = Success(value: R) | Failure(error: E)

  /** Prefixes the sequence inside an optional result, keeping `None` as is. */
  function PrependTo<T>(prefix: seq<T>, o: Option<seq<T>>): Option<seq<T>>
  {
    match o
    case None => None
    case Some(s) => Some(prefix + s)
  }

  lemma PrependNothing<T>(o: Option<seq<T>>)
    ensures PrependTo([], o) == o
  {
    if o.Some? {
      assert [] + o.value == o.value;
    }
  }

  /** Prefixing twice is prefixing once with both prefixes. */
  lemma PrependTwice<T>(a: seq<T>, b: seq<T>, o: Option<seq<T>>)
    ensures PrependTo(a, PrependTo(b, o)) == PrependTo(a + b, o)
  {
    if o.Some? {
      assert a + (b + o.value) == (a + b) + o.value;
    }
  }
}
