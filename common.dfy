/** Option and Result, the two wrappers the rest of the model uses for missing values and faults. */
module Common {

  /** A field value that may be missing (pandas NaN / NaT). */
  datatype Option<+T> = None | Some(value: T)

  /** The outcome of a step that can raise. */
  datatype Result<+T, +E> = Ok(value: T) | Err(error: E)

  function MapOption<T, U>(o: Option<T>, f: T -> U): Option<U>
  {
    match o
    case None => None
    case Some(v) => Some(f(v))
  }

  /** Apply a step that may itself produce a missing value. */
  function Bind<T, U>(o: Option<T>, f: T -> Option<U>): Option<U>
  {
    match o
    case None => None
    case Some(v) => f(v)
  }
}
