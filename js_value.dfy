/**
 * The slice of JavaScript value semantics the application's logic relies on:
 * plain values, truthiness (`Boolean(v)`, `!v`, `a || b`) and property reads
 * (`obj.key`), which throw a TypeError on `undefined` and `null`.
 */
module JsValue {

  datatype Option<+T> = None | Some(value: T)

  /** The outcome of an expression that may throw: a value, or a thrown TypeError. */
  datatype Result<+T> = Ok(value: T) | TypeError

  /** A JavaScript value. Numbers are modelled as integers. */
  datatype Value =
    | Undefined
    | Null
    | Bool(b: bool)
    | Num(n: int)
    | Str(s: string)
    | Array(items: seq<Value>)
    | Object(fields: map<string, Value>)

  /** `Boolean(v)`: false exactly for undefined, null, false, 0 and the empty string. */
  predicate Truthy(v: Value) {
    match v
    case Undefined => false
    case Null => false
    case Bool(b) => b
    case Num(n) => n != 0
    case Str(s) => s != ""
    case Array(_) => true
    case Object(_) => true
  }

  /** `a || b`: the first operand when it is truthy, otherwise the second. */
  function Or(a: Value, b: Value): (r: Value)
    ensures Truthy(a) ==> r == a
    ensures !Truthy(a) ==> r == b
    ensures Truthy(r) <==> Truthy(a) || Truthy(b)
  {
    if Truthy(a) then a else b
  }

  /** Reading `key` from a plain object: a missing key reads as undefined. */
  function Get(fields: map<string, Value>, key: string): (v: Value)
    ensures key in fields ==> v == fields[key]
    ensures key !in fields ==> v == Undefined
  {
    if key in fields then fields[key] else Undefined
  }

  /**
   * `v.key`: throws on undefined and null, reads an object's own field, and
   * reads undefined from any other value for the keys this model uses.
   */
  function Member(v: Value, key: string): (r: Result<Value>)
    ensures r.TypeError? <==> v.Undefined? || v.Null?
    ensures v.Object? ==> r == Ok(Get(v.fields, key))
  {
    match v
    case Undefined => TypeError
    case Null => TypeError
    case Object(fields) => Ok(Get(fields, key))
    case _ => Ok(Undefined)
  }
}
