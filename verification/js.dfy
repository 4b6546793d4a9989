/** The slice of JavaScript value semantics the harness relies on: strict
    equality (`===`), loose comparison with `""` and with `undefined`,
    truthiness, and conversion inside a template literal. Numbers are
    modelled as integers plus `NaN`; objects are references. */
module Js {
  import opened Strings

  datatype Value =
    | Undefined
    | Null
    | Bool(b: bool)
    | Num(n: int)
    | NaN
    | Str(s: string)
    | Obj(ref: nat)

  /** `a === b`: same type and same value, objects by reference, and `NaN`
      equal to nothing. */
  predicate StrictEquals(a: Value, b: Value) {
    !a.NaN? && a == b
  }

  /** `v == ""`: the empty string, and the primitives that convert to the
      number 0 (`0` and `false`). `null`, `undefined` and objects do not. */
  predicate LooselyEqualsEmpty(v: Value)
    ensures LooselyEqualsEmpty(v) ==> !IsNullish(v) && !v.Obj? && !v.NaN?
  {
    v == Str("") || v == Num(0) || v == Bool(false)
  }

  /** `v == undefined`: true exactly for `undefined` and `null`. */
  predicate IsNullish(v: Value) {
    v.Undefined? || v.Null?
  }

  /** `if (v)`: every value loosely equal to `""`, `null`, `undefined` and
      `NaN` are falsy, and every object is truthy. */
  predicate Truthy(v: Value)
    ensures LooselyEqualsEmpty(v) || IsNullish(v) || v.NaN? ==> !Truthy(v)
    ensures v.Obj? ==> Truthy(v)
  {
    match v
    case Undefined => false
    case Null => false
    case Bool(b) => b
    case Num(n) => n != 0
    case NaN => false
    case Str(s) => s != ""
    case Obj(_) => true
  }

  /** `${v}` for the values above; a plain object renders as `[object Object]`.
      A string renders as itself, and only a string can render empty. */
  function TemplateText(v: Value): (r: string)
    ensures v.Str? ==> r == v.s
    ensures !v.Str? ==> |r| > 0
  {
    match v
    case Undefined => "undefined"
    case Null => "null"
    case Bool(b) => if b then "true" else "false"
    case Num(n) => IntToString(n)
    case NaN => "NaN"
    case Str(s) => s
    case Obj(_) => "[object Object]"
  }

  /** `===` is an equivalence on every value but `NaN`, which it never relates. */
  lemma StrictEqualsProperties(a: Value, b: Value)
    ensures StrictEquals(a, b) <==> StrictEquals(b, a)
    ensures StrictEquals(a, a) <==> !a.NaN?
    ensures StrictEquals(a, b) ==> a == b
  {
  }
}
