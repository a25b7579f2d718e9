/** The host optional type (std::optional) and the textbook operations on it.
    The combinators of the library are checked against Map, Bind and Or, which are
    written here independently of any reference or aliasing concern. */
module Optional {

  /** Zero or one value: std::optional with its has_value() discriminant. */
  datatype Option<+T> = None | Some(value: T)

  /** The functor map: apply f to the contained value, keep emptiness. */
  function Map<T, U>(o: Option<T>, f: T -> U): Option<U>
  {
    match o
    case None => None
    case Some(v) => Some(f(v))
  }

  /** Monadic bind: feed the contained value to f, which decides the result. */
  function Bind<T, U>(o: Option<T>, f: T -> Option<U>): Option<U>
  {
    match o
    case None => None
    case Some(v) => f(v)
  }

  /** Choice: the optional itself when present, otherwise the fallback. */
  function Or<T>(o: Option<T>, fallback: Option<T>): Option<T>
  {
    match o
    case Some(_) => o
    case None => fallback
  }
}
