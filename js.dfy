/**
 * JavaScript values as they arrive in a parsed JSON request body or a database row,
 * and the language's truthiness rule, which the handlers use in `if (x)`, `x || d`
 * and `x ? 1 : 0`. Numbers are integers here: NaN and fractions are not modelled.
 */
module Js {

  datatype Value = Undefined | Null | Bool(b: bool) | Num(n: int) | Str(s: string)

  /** ECMAScript ToBoolean: undefined, null, false, 0 and "" are falsy. */
  predicate Truthy(v: Value) {
    match v
    case Undefined => false
    case Null => false
    case Bool(b) => b
    case Num(n) => n != 0
    case Str(s) => s != ""
  }

  /** `v || d` where the default `d` is a string. */
  function OrString(v: Value, d: string): (r: Value)
    ensures Truthy(v) ==> r == v
    ensures !Truthy(v) ==> r == Str(d)
  {
    if Truthy(v) then v else Str(d)
  }

  /** The text a template literal `${v}` produces for a string-or-missing value after `|| ''`. */
  function TextOr(v: Value, d: string): string {
    match v
    case Str(s) => if s != "" then s else d
    case _ => d
  }
}
