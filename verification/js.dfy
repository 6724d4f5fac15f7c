/** The JavaScript values the versioning entry points are called with:
    the tests pass `null`, `undefined`, the number 0 and strings. */
module Js {
  import Decimal

  datatype JsValue = Undefined | Null | Num(n: int) | Str(s: string)

  /** JavaScript's `ToString`, which `RegExp.prototype.test` applies to
      its argument before matching. */
  function ToString(v: JsValue): (r: string)
    ensures v.Str? ==> r == v.s
    ensures v.Null? ==> r == "null"
    ensures v.Undefined? ==> r == "undefined"
    ensures v.Num? && v.n >= 0 ==> r == Decimal.Show(v.n)
    ensures v.Num? && v.n < 0 ==> r == "-" + Decimal.Show(-v.n)
  {
    match v
    case Undefined => "undefined"
    case Null => "null"
    case Num(n) => if n < 0 then "-" + Decimal.Show(-n) else Decimal.Show(n)
    case Str(s) => s
  }
}
