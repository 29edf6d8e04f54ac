/** Python-level vocabulary shared by the models: optional values, results that carry
    the exception a call raises, and the dynamically typed values that arrive from a
    JSON story file or from an untyped argument. */
module Values {

  datatype Option<+T> = None | Some(value: T)

  /** The outcome of a call that either returns a value or raises `error`. */
  datatype Result<+T> = Success(value: T) | Failure(error: Error)

  /** The outcome of a call that returns nothing or raises `error`. */
  datatype Outcome = Pass | Fail(error: Error)

  /** A Python value of the kinds a story file or a caller can supply
      (JSON null, true/false, an integer, a string). */
  datatype Value = NoneValue | Bool(b: bool) | Int(i: int) | Str(s: string)

  /** The exceptions the modelled code raises or lets escape. */
  datatype Error =
    | ValueError
    | TypeError
    | AttributeError
    | KeyError
    | IndexError
    | OSError(path: string)
    | RuntimeError(cardId: Value)

  /** Python truthiness: None, False, 0 and "" are false. */
  predicate Truthy(v: Value) {
    match v
    case NoneValue => false
    case Bool(b) => b
    case Int(i) => i != 0
    case Str(s) => s != ""
  }

  /** The integer a bool or an int stands for in arithmetic and comparisons. */
  function NumericValue(v: Value): int
    requires v.Bool? || v.Int?
  {
    match v
    case Bool(b) => if b then 1 else 0
    case Int(i) => i
  }

  /** Python `==`: bool is a subclass of int, so `True == 1` and `False == 0`;
      values of unrelated kinds are never equal. */
  predicate PyEquals(a: Value, b: Value) {
    if (a.Bool? || a.Int?) && (b.Bool? || b.Int?) then NumericValue(a) == NumericValue(b)
    else a == b
  }
}
