/** JavaScript values as the helpers see them: enough of the language's
    truthiness, `||` and `String(v)` to model field fallbacks and text
    conversion. Numbers are integers here. */
module Js {
  import opened Text

  /** `Obj` stands for any plain object, which is always truthy. */
  datatype JsValue = Undefined | Null | Bool(b: bool) | Num(n: int) | Str(s: string) | Obj

  /** A record with string keys; a missing key reads as `undefined`. */
  type Record = map<string, JsValue>

  /** JavaScript's truthiness: `undefined`, `null`, `false`, `0` and `''` are
      falsy, everything else is truthy. */
  predicate Truthy(v: JsValue) {
    match v
    case Undefined => false
    case Null => false
    case Bool(b) => b
    case Num(n) => n != 0
    case Str(s) => s != ""
    case Obj => true
  }

  /** `a || b`. */
  function Or(a: JsValue, b: JsValue): JsValue {
    if Truthy(a) then a else b
  }

  /** `record[key]`. */
  function Get(r: Record, key: string): JsValue {
    if key in r then r[key] else Undefined
  }

  /** `String(v)` and template-literal conversion. */
  function ToString(v: JsValue): string {
    match v
    case Undefined => "undefined"
    case Null => "null"
    case Bool(b) => if b then "true" else "false"
    case Num(n) => IntToString(n)
    case Str(s) => s
    case Obj => "[object Object]"
  }

  /** `a || b || c` is the first truthy operand, or the last one. */
  lemma OrChain(a: JsValue, b: JsValue, c: JsValue)
    ensures Truthy(a) ==> Or(Or(a, b), c) == a
    ensures !Truthy(a) && Truthy(b) ==> Or(Or(a, b), c) == b
    ensures !Truthy(a) && !Truthy(b) ==> Or(Or(a, b), c) == c
  {
  }
}
