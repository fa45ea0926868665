/** The values a configuration object holds, and the failure-carrying
    wrappers the loader's operations return. */
module Values {

  /** A JavaScript value as far as configuration is concerned: the JSON
      scalars (numbers kept integral) and plain objects, viewed through
      their enumerable own properties. */
  datatype Value =
    | Null
    | Bool(b: bool)
    | Num(n: int)
    | Str(s: string)
    | Obj(fields: map<string, Value>)

  /** A configuration object: a flat key/value mapping. */
  type Config = map<string, Value>

  /** JavaScript truthiness (`x || y` picks `y` exactly when `x` is falsy). */
  predicate Truthy(v: Value) {
    match v
    case Null => false
    case Bool(b) => b
    case Num(n) => n != 0
    case Str(s) => s != ""
    case Obj(_) => true
  }

  /** The exceptions the loader can raise. */
  datatype Error =
    | TypeError     // a missing script element, or a bind target that is not an element
    | SyntaxError   // the inline settings are not valid JSON

  datatype Option<T> = None | Some(value: T) {
    function GetOr(default: T): T {
      match this
      case Some(v) => v
      case None => default
    }
  }

  datatype Result<T> = Success(value: T) | Failure(error: Error)
}
