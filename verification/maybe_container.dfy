/** The `Maybe` container: `Just(value)` or `Nothing`, with `map`, `flatmap`
    and `get_or`. A user function that raises is a function returning `Raised`;
    `map` and `flatmap` on `Just` catch the exception and give `Nothing`. */
module MaybeContainer {
  import opened PyRuntime

  datatype Maybe<+T> = Nothing | Just(value: T)

  /** `m.map(f)`. */
  function Map<T, U>(m: Maybe<T>, f: T -> Outcome<U>): (r: Maybe<U>)
    ensures m.Nothing? ==> r.Nothing?
    ensures m.Just? && f(m.value).Returned? ==> r == Just(f(m.value).value)
    ensures m.Just? && f(m.value).Raised? ==> r.Nothing?
  {
    match m
    case Nothing => Nothing
    case Just(v) =>
      match f(v)
      case Returned(u) => Just(u)
      case Raised(_) => Nothing
  }

  /** `m.flatmap(f)`. */
  function FlatMap<T, U>(m: Maybe<T>, f: T -> Outcome<Maybe<U>>): (r: Maybe<U>)
    ensures m.Nothing? ==> r.Nothing?
    ensures m.Just? && f(m.value).Returned? ==> r == f(m.value).value
    ensures m.Just? && f(m.value).Raised? ==> r.Nothing?
  {
    match m
    case Nothing => Nothing
    case Just(v) =>
      match f(v)
      case Returned(n) => n
      case Raised(_) => Nothing
  }

  /** `m.get_or(default)`. */
  function GetOr<T>(m: Maybe<T>, default: T): (r: T)
    ensures m.Just? ==> r == m.value
    ensures m.Nothing? ==> r == default
  {
    match m
    case Nothing => default
    case Just(v) => v
  }

  /** `maybe(x)`: `Nothing` exactly when `x` is None. */
  function OfNullable<T>(x: Nullable<T>): (r: Maybe<T>)
    ensures r.Nothing? <==> x.None?
    ensures r.Just? ==> r.value == x.value
  {
    match x
    case None => Nothing
    case Some(v) => Just(v)
  }

  /** `m.get_or(None)`: the payload, or None for `Nothing`. */
  function ToNullable<T>(m: Maybe<T>): (r: Nullable<T>)
    ensures r.None? <==> m.Nothing?
    ensures r.Some? ==> r.value == m.value
  {
    GetOr(Map(m, (v: T) => Returned(Some(v))), None)
  }

  lemma NullableRoundTrip<T>(x: Nullable<T>, m: Maybe<T>)
    ensures ToNullable(OfNullable(x)) == x
    ensures OfNullable(ToNullable(m)) == m
  {
  }

  /** `Nothing.map(f)` and `Nothing.flatmap(g)` never look at the function:
      the result is the same for any two functions, even ones that always raise. */
  lemma NothingIgnoresFunction<T, U>(f: T -> Outcome<U>, f': T -> Outcome<U>,
                                     g: T -> Outcome<Maybe<U>>, g': T -> Outcome<Maybe<U>>)
    ensures Map(Nothing, f) == Map(Nothing, f') == Nothing
    ensures FlatMap(Nothing, g) == FlatMap(Nothing, g') == Nothing
  {
  }

  /** Functor identity: mapping a function that returns its argument changes nothing. */
  lemma MapIdentity<T>(m: Maybe<T>)
    ensures Map(m, (v: T) => Returned(v)) == m
  {
  }

  /** `map` is `flatmap` with the result rewrapped in `Just`. */
  lemma MapIsFlatMap<T, U>(m: Maybe<T>, f: T -> Outcome<U>)
    ensures Map(m, f) == FlatMap(m, (v: T) => match f(v)
                                             case Returned(u) => Returned(Just(u))
                                             case Raised(e) => Raised(e))
  {
  }

  /** Monad associativity: chaining two flatmaps equals one flatmap of the chain. */
  lemma FlatMapAssociative<T, U, V>(m: Maybe<T>, f: T -> Outcome<Maybe<U>>, g: U -> Outcome<Maybe<V>>)
    ensures FlatMap(FlatMap(m, f), g) ==
            FlatMap(m, (v: T) => match f(v)
                                 case Returned(n) => Returned(FlatMap(n, g))
                                 case Raised(_) => Returned(Nothing))
  {
  }
}
