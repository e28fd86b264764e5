/** JavaScript values as the reactive core sees them: scalars compared by value,
    and references to heap objects compared by identity (the `===` of kvue.js). */
module JsValues {

  /** Identity of a heap object. */
  type ObjId = nat

  /** A JavaScript value. Floating point is narrowed to integers, functions are
      not values here; `Ref` points at an object in the engine's heap. */
  datatype Value =
    | Undefined
    | Null
    | Bool(b: bool)
    | Num(n: int)
    | Str(s: string)
    | Ref(id: ObjId)

  datatype Option<T> = None | Some(value: T)

  /** The exceptions the core can raise: `Object.keys` of null or undefined
      throws a TypeError; unbounded recursion exhausts the call stack (RangeError). */
  datatype Error = TypeError | RangeError

  datatype Result<T> = Ok(value: T) | Err(error: Error)

  /** The `typeof` operator. */
  function TypeOf(v: Value): string
  {
    match v
    case Undefined => "undefined"
    case Null => "object"
    case Bool(_) => "boolean"
    case Num(_) => "number"
    case Str(_) => "string"
    case Ref(_) => "object"
  }

  /** `v == null`: loose equality with null holds for null and undefined only. */
  predicate LooselyNull(v: Value)
  {
    v == Null || v == Undefined
  }

  /** The guard of `observe`: `typeof obj !== "object" || obj == null`.
      It lets through exactly the object references. */
  function ObserveSkips(v: Value): (skip: bool)
    ensures skip <==> !v.Ref?
  {
    TypeOf(v) != "object" || LooselyNull(v)
  }
}
