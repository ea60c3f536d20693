/** Python-level notions shared by every modelled module: the exceptions the
    code raises or catches, the outcome of calling a callable that may raise,
    and a value of type `T | None`. */
module PyRuntime {

  /** The Python exceptions the modelled code raises, catches or propagates. */
  datatype PyError = ValueError | AttributeError | StopIteration

  /** The outcome of one call of a Python callable: it returns a value or raises. */
  datatype Outcome<+T> = Returned(value: T) | Raised(error: PyError)

  /** A Python value of type `T | None`. */
  datatype Nullable<+T> = None | Some(value: T)

  /** A callable that never raises. */
  function Pure<A(!new), B>(f: A -> B): (g: A -> Outcome<B>)
    ensures forall x :: g(x).Returned? && g(x).value == f(x)
  {
    x => Returned(f(x))
  }
}
