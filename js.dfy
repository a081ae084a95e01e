/**
 * The JavaScript values that the library passes around in its `self`
 * records, and the two wrapper datatypes the model uses for optional
 * values and for operations that either succeed or reject.
 */
module Js {

  datatype Option<+T> = None | Some(value: T)

  /** A settled promise: fulfilled with a value or rejected with an error. */
  datatype Result<+T, +E> = Ok(value: T) | Err(error: E)

  /**
   * A JavaScript value. Error objects are kept apart from plain objects,
   * with the `name`, `code` and `message` properties; functions
   * are opaque and only their identity is kept.
   */
  datatype Value =
    | Undefined
    | Null
    | Bool(b: bool)
    | Num(n: int)
    | Str(s: string)
    | Bytes(data: seq<bv8>)
    | Array(items: seq<Value>)
    | Object(fields: map<string, Value>)
    | Function(id: nat)
    | Error(name: string, code: string, message: string)

  /** A `self` record: a plain JavaScript object seen as a dictionary. */
  type Dict = map<string, Value>

  /** Property access `d[key]`: a missing property reads as `undefined`. */
  function Get(d: Dict, key: string): Value
  {
    if key in d then d[key] else Undefined
  }

  /** JavaScript truthiness (NaN is not modelled; numbers are integers). */
  predicate Truthy(v: Value)
  {
    match v
    case Undefined => false
    case Null => false
    case Bool(b) => b
    case Num(n) => n != 0
    case Str(s) => s != ""
    case _ => true
  }

  /** `_.is.Dictionary`: a plain object. */
  predicate IsDictionary(v: Value)
  {
    v.Object?
  }

  /** `_.is.Array.of.Dictionary`. */
  predicate IsArrayOfDictionary(v: Value)
  {
    v.Array? && forall i :: 0 <= i < |v.items| ==> IsDictionary(v.items[i])
  }
}
