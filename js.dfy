/**
 * The JavaScript values that the stores receive from the backend, with the two
 * language rules their conditions depend on: truthiness, and reading a
 * property (which throws on `undefined` and `null`).
 */
module Js {
  import opened Wrappers

  datatype Value =
    | Undefined
    | Null
    | Bool(b: bool)
    | Num(n: real)
    | NaN
    | Str(s: string)
    | Arr(items: seq<Value>)
    | Obj(fields: map<string, Value>)

  /** The six falsy values; -0 is the same number as 0 here. */
  const Falsy: set<Value> := {Undefined, Null, Bool(false), Num(0.0), NaN, Str("")}

  /** ToBoolean, as `!` and `&&` apply it: a value is truthy iff it is not one of the falsy values. */
  predicate Truthy(v: Value)
    ensures Truthy(v) <==> v !in Falsy
  {
    match v
    case Undefined => false
    case Null => false
    case Bool(b) => b
    case Num(n) => n != 0.0
    case NaN => false
    case Str(s) => s != ""
    case Arr(_) => true
    case Obj(_) => true
  }

  /**
   * Reading `v[key]` for a key that no built-in prototype defines (such as
   * "data"): None stands for the TypeError thrown on undefined and null, a
   * missing own property reads as undefined.
   */
  function GetProp(v: Value, key: string): (r: Option<Value>)
    ensures r.None? <==> v.Undefined? || v.Null?
    ensures r.Some? && !v.Obj? ==> r.value == Undefined
  {
    match v
    case Undefined => None
    case Null => None
    case Obj(fields) => Some(if key in fields then fields[key] else Undefined)
    case _ => Some(Undefined)
  }
}
