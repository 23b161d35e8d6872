/** The `HasEmpty` protocol and its four conformances. */
module Emptiness {
  import opened Values

  /** The types that conform to `HasEmpty`: String, Decimal, Date and OrderedSet. */
  predicate HasEmpty(x: Value) {
    x.VStr? || x.VDec? || x.VDate? || x.VSet?
  }

  /** The `empty` property of a conforming value: its type's unset sentinel. */
  predicate IsEmpty(x: Value)
    requires HasEmpty(x)
  {
    match x
    case VStr(s) => s == "" || s == InfinitySign
    case VDec(d) => d == NaN
    case VDate(t) => t == DistantPast || t == DistantFuture
    case VSet(elements) => |elements| == 0
    case _ => false
  }
}
