/**
 * The script values the core reads: what `JSON.parse` produces, plus `undefined` for a missing
 * property. Object properties are a map from names to values.
 */
module JsValue {

  datatype Value =
    | Undefined
    | Null
    | Bool(b: bool)
    | Num(n: real)
    | Str(s: string)
    | Arr(items: seq<Value>)
    | Obj(fields: map<string, Value>)

  /** `o[key]` on an object's properties: `undefined` when the property is missing. */
  function Get(fields: map<string, Value>, key: string): Value {
    if key in fields then fields[key] else Undefined
  }

  /** Nothing can be read from `undefined` or `null`: reading a property of them throws a TypeError. */
  predicate IsNullish(v: Value) {
    v.Undefined? || v.Null?
  }

  /**
   * `v.key` for a named (non-index) property of a value that is not nullish: an object's own
   * property, and `undefined` for any other value.
   */
  function Property(v: Value, key: string): Value {
    if v.Obj? then Get(v.fields, key) else Undefined
  }

  /** Whether `v` counts as true in a condition (no NaN among the modelled numbers). */
  predicate Truthy(v: Value) {
    match v
    case Undefined => false
    case Null => false
    case Bool(b) => b
    case Num(n) => n != 0.0
    case Str(s) => s != ""
    case Arr(_) => true
    case Obj(_) => true
  }

  /** `v instanceof Object`: objects and arrays, never primitives. */
  predicate IsObject(v: Value) {
    v.Obj? || v.Arr?
  }

  /**
   * The text `tag()` puts between its tags for the value `v`: nothing for a false value, the
   * string itself, and the default conversions of `true` and of plain objects.
   */
  function TagText(v: Value): string {
    if !Truthy(v) then ""
    else match v
      case Str(s) => s
      case Bool(_) => "true"
      case Obj(_) => "[object Object]"
      case _ => ""
  }

  lemma TagTextOfString(s: string)
    ensures TagText(Str(s)) == s
  {}
}
