/**
 * The dynamic values that validators receive through Swift's `Any`, and the
 * Foundation types the fields store in them.
 */
module Values {
  import opened Wrappers

  /** Foundation's `Decimal`: a finite number or `Decimal.nan`. */
  datatype Decimal = Finite(amount: real) | NaN

  /** A `Date`, as whole seconds since Foundation's reference date (2001-01-01 UTC). */
  type Date = int

  /** `Date.distantPast` (0001-01-01) and `Date.distantFuture` (4001-01-01). */
  const DistantPast: Date := -63114076800
  const DistantFuture: Date := 63113904000

  /** The string a text field stores in place of nil. */
  const InfinitySign: string := "∞"

  /**
   * A value seen through `Any`. `VNone` is an absent optional; `VOther` is a
   * present value of a type with neither an emptiness rule nor an order
   * (an enum case, an image).
   */
  datatype Value =
    | VNone
    | VStr(str: string)
    | VDec(dec: Decimal)
    | VDate(date: Date)
    | VInt(num: int)
    | VSet(elements: seq<Value>)
    | VOther

  /** The `Comparable` types the range validators are instantiated with. */
  predicate IsComparable(v: Value) {
    v.VStr? || v.VDec? || v.VDate? || v.VInt?
  }

  type Comparable = v: Value | IsComparable(v) witness VInt(0)

  /** `x as? T` succeeds, where `T` is the concrete type of `y`. */
  predicate SameType(x: Value, y: Value) {
    || (x.VStr? && y.VStr?)
    || (x.VDec? && y.VDec?)
    || (x.VDate? && y.VDate?)
    || (x.VInt? && y.VInt?)
    || (x.VSet? && y.VSet?)
    || (x.VNone? && y.VNone?)
    || (x.VOther? && y.VOther?)
  }

  /** A `ClosedRange<Date>`; Swift refuses to build one whose bounds are inverted. */
  datatype DateRange = DateRange(lowerBound: Date, upperBound: Date)

  type ClosedDateRange = r: DateRange | r.lowerBound <= r.upperBound witness DateRange(0, 0)

  predicate Contains(r: DateRange, d: Date) {
    r.lowerBound <= d <= r.upperBound
  }

  /** `Date.distantPast...Date.distantFuture`. */
  const AllDates: ClosedDateRange := DateRange(DistantPast, DistantFuture)

  /** `range ?? Date.distantPast...Date.distantFuture`. */
  function RangeOrAllDates(range: Option<ClosedDateRange>): ClosedDateRange {
    range.GetOr(AllDates)
  }
}
