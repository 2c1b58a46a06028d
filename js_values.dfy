/**
 * The JavaScript values that the ingestion functions read out of decoded JSON bodies,
 * with the two pieces of JavaScript semantics the functions rely on: truthiness
 * (for `a || b` defaults and `if (!key)` guards) and property reads (`x.name`).
 * Numbers are modelled as integers: fractional numbers and NaN are not represented.
 */
module JsValues {
  import opened Optional

  datatype JsValue =
    | Undefined
    | Null
    | Bool(b: bool)
    | Num(n: int)
    | Str(s: string)
    | Arr(items: seq<JsValue>)
    | Obj(members: map<string, JsValue>)

  /** JavaScript truthiness: undefined, null, false, 0 and "" are falsy; everything else is truthy. */
  predicate Truthy(v: JsValue) {
    match v
    case Undefined => false
    case Null => false
    case Bool(b) => b
    case Num(n) => n != 0
    case Str(s) => s != ""
    case _ => true
  }

  /** The value of `a || b`. */
  function Or(a: JsValue, b: JsValue): JsValue {
    if Truthy(a) then a else b
  }

  /** A member of a plain object; a missing key reads as undefined. */
  function Field(m: map<string, JsValue>, key: string): JsValue {
    if key in m then m[key] else Undefined
  }

  /**
   * The property read `v.key` for the keys the handlers read (`name`, `url` and the
   * other article fields). None stands for the TypeError JavaScript throws when the
   * receiver is null or undefined. A boolean, number or string has no such own
   * property and reads undefined; properties its prototype supplies, such as a
   * string's `length`, are not modelled.
   */
  function Member(v: JsValue, key: string): (r: Option<JsValue>)
    ensures r.None? <==> v == Undefined || v == Null
  {
    match v
    case Undefined => None
    case Null => None
    case Obj(m) => Some(Field(m, key))
    case _ => Some(Undefined)
  }
}
