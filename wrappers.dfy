/** Result and option types shared by every module of the model. The Python
    program signals failure by raising; each exception class it can raise on
    the modelled paths is one constructor of `Error`. */
module Wrappers {

  datatype Option<T> = None | Some(value: T)

  /** The Python exception a modelled operation raises. `ValueError` keeps
      the leading text of the message the source builds. */
  datatype Error =
    | AssertionError
    | ValueError(message: string)
    | IndexError
    | KeyError
    | AttributeError
    | TypeError
    | NotImplementedError

  datatype Result<T> = Ok(value: T) | Err(error: Error) {
    predicate IsFailure() {
      Err?
    }

    function PropagateFailure<U>(): Result<U>
      requires Err?
    {
      Err(error)
    }

    function Extract(): T
      requires Ok?
    {
      value
    }
  }

  /** `assert condition` in the source. */
  function Check(condition: bool): (r: Result<()>)
  {
    if condition then Ok(()) else Err(AssertionError)
  }

  /** Items collected so far, in front of what the rest of a fold gives. */
  function Prepend<T>(done: seq<T>, rest: Result<seq<T>>): Result<seq<T>>
  {
    if rest.Ok? then Ok(done + rest.value) else Err(rest.error)
  }

  lemma PrependNothing<T>(rest: Result<seq<T>>)
    ensures Prepend([], rest) == rest
  {
    if rest.Ok? {
      assert [] + rest.value == rest.value;
    }
  }

  lemma PrependOne<T>(done: seq<T>, x: T, rest: Result<seq<T>>)
    ensures Prepend(done, Prepend([x], rest)) == Prepend(done + [x], rest)
  {
    if rest.Ok? {
      assert done + ([x] + rest.value) == done + [x] + rest.value;
    }
  }

  lemma PrependConcat<T>(a: seq<T>, b: seq<T>, rest: Result<seq<T>>)
    ensures Prepend(a, Prepend(b, rest)) == Prepend(a + b, rest)
  {
    if rest.Ok? {
      assert a + (b + rest.value) == a + b + rest.value;
    }
  }

  lemma PrependAll<T>(done: seq<T>)
    ensures Prepend(done, Ok([])) == Ok(done)
  {
    assert done + [] == done;
  }
}
