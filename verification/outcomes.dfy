/** Failure-carrying datatypes shared by the whole model: an optional value,
    the Python exception classes the modelled code raises or lets through, and
    the outcome of a call that either returns or raises. */
module Outcomes {

  /** Python's `None` versus a present value. */
  datatype Option<+T> = None | Some(value: T)

  /** The exceptions the modelled code distinguishes, by Python class. */
  datatype Exception =
    | HttpError(status: int)          // HTTPError, carrying `response.status_code`
    | ValueError(message: string)
    | TypeError(message: string)
    | AttributeError(message: string)
    | Other(name: string)             // any other class, passed through opaquely

  /** A Python call either returns a value or raises an exception. */
  datatype Outcome<+T> = Returned(value: T) | Raised(exc: Exception)
}

/** Configuration values as they come out of the JSON configuration, with
    Python's truthiness rule. */
module Config {

  datatype Value =
    | Null
    | Bool(b: bool)
    | Int(i: int)
    | Float(r: real)
    | Str(s: string)
    | List(items: seq<Value>)
    | Dict(entries: map<string, Value>)

  /** Python's `bool(v)`: empty containers, zero, `False` and `None` are false. */
  predicate Truthy(v: Value) {
    match v
    case Null => false
    case Bool(b) => b
    case Int(i) => i != 0
    case Float(r) => r != 0.0
    case Str(s) => |s| > 0
    case List(items) => |items| > 0
    case Dict(entries) => |entries| > 0
  }

  /** Python's falsy values are exactly `None`, `False`, `0`, `0.0`, the
      empty string, the empty list and the empty dictionary. */
  lemma FalsyValues(v: Value)
    ensures !Truthy(v) <==>
      v == Null || v == Bool(false) || v == Int(0) || v == Float(0.0) || v == Str("") || v == List([]) || v == Dict(map[])
  {
  }

  /** Python's `d.get(key, default)`. */
  function Get(d: map<string, Value>, key: string, default: Value): Value {
    if key in d then d[key] else default
  }
}
