/**
 * `NumericField`: the NaN binding of an optional integer, and the
 * `RangeFormatter` that clamps a value into a range before formatting it.
 */
module NumericField {
  import opened Wrappers
  import opened Values
  import opened Validation
  import Order

  /** `Int(d.intValue)` of a finite decimal: the fraction is dropped, toward zero. */
  function TowardZero(a: real): (n: int)
    ensures -1.0 < a - n as real < 1.0
    ensures a >= 0.0 ==> 0 <= n && n as real <= a
    ensures a < 0.0 ==> n <= 0 && a <= n as real
  {
    if a >= 0.0 then a.Floor else -((-a).Floor)
  }

  /** The getter of the `Binding<Int?>` initializers: nil shows as NaN, an integer as its decimal. */
  function IntGet(stored: Option<int>): (r: Decimal)
    ensures r.NaN? <==> stored.None?
    ensures r.Finite? ==> r.amount == r.amount.Floor as real
  {
    match stored
    case None => NaN
    case Some(v) => Finite(v as real)
  }

  /** The setter: NaN stores nil, anything else its integer part. */
  function IntSet(d: Decimal): (r: Option<int>)
    ensures r.None? <==> d.NaN?
    ensures r.Some? ==> -1.0 < d.amount - r.value as real < 1.0
  {
    if d == NaN then None else Some(TowardZero(d.amount))
  }

  /** An unset integer shows NaN and NaN stores nil again. */
  lemma NilMapsToNaN()
    ensures IntGet(None) == NaN && IntSet(NaN) == None
  {
  }

  /** Every stored optional integer survives being shown and written back. */
  lemma SetOfGet(stored: Option<int>)
    ensures IntSet(IntGet(stored)) == stored
  {
    if stored.Some? {
      var v := stored.value;
      assert v as real >= 0.0 ==> (v as real).Floor == v;
      assert v as real < 0.0 ==> (-(v as real)).Floor == -v;
    }
  }

  /** A whole decimal (or NaN) written and read back is itself. */
  lemma GetOfSetWhole(d: Decimal)
    requires d.NaN? || d.amount == d.amount.Floor as real
    ensures IntGet(IntSet(d)) == d
  {
    if d.Finite? && d.amount < 0.0 {
      assert (-d.amount).Floor == -(d.amount.Floor);
    }
  }

  /** A decimal with a fraction loses it when written and read back. */
  lemma GetOfSetFraction(d: Decimal)
    requires d.Finite? && d.amount != d.amount.Floor as real
    ensures IntGet(IntSet(d)) != d
  {
  }

  /** `Required` rejects what the field shows for an unset integer. */
  lemma UnsetIsRequiredEmpty(m: string)
    ensures !IsValid(Required(m), VDec(IntGet(None)))
  {
  }

  /** A `ClosedRange<Decimal>`: its lower bound is not above its upper bound. */
  datatype DecimalRange = DecimalRange(lowerBound: Decimal, upperBound: Decimal)
  type ClosedDecimalRange = r: DecimalRange | !Order.DecimalLess(r.upperBound, r.lowerBound)
    witness DecimalRange(NaN, NaN)

  predicate InRange(range: DecimalRange, d: Decimal) {
    !Order.DecimalLess(d, range.lowerBound) && !Order.DecimalLess(range.upperBound, d)
  }

  /** `RangeFormatter`: a range and the formatter it hands the clamped value to. */
  datatype RangeFormatter<F> = RangeFormatter(range: ClosedDecimalRange, baseFormatter: F)

  /**
   * `format(_:)`; `render` is the base formatter's own `format`, which is
   * Foundation's and outside this model.
   */
  function Format<F>(f: RangeFormatter<F>, value: Decimal, render: (F, Decimal) -> string): string {
    if Order.DecimalLess(f.range.upperBound, value) then render(f.baseFormatter, f.range.upperBound)
    else if Order.DecimalLess(value, f.range.lowerBound) then render(f.baseFormatter, f.range.lowerBound)
    else render(f.baseFormatter, value)
  }

  /** The value `format` hands to the base formatter. */
  function Clamped(range: ClosedDecimalRange, value: Decimal): (c: Decimal)
    ensures InRange(range, c)
    ensures InRange(range, value) ==> c == value
    ensures Order.DecimalLess(range.upperBound, value) ==> c == range.upperBound
    ensures Order.DecimalLess(value, range.lowerBound) ==> c == range.lowerBound
  {
    if Order.DecimalLess(range.upperBound, value) then range.upperBound
    else if Order.DecimalLess(value, range.lowerBound) then range.lowerBound
    else value
  }

  /** Formatting renders the clamped value: the upper bound above the range, the lower bound below it. */
  lemma FormatRendersClamped<F>(f: RangeFormatter<F>, value: Decimal, render: (F, Decimal) -> string)
    ensures Format(f, value, render) == render(f.baseFormatter, Clamped(f.range, value))
    ensures Order.DecimalLess(f.range.upperBound, value) ==> Format(f, value, render) == render(f.baseFormatter, f.range.upperBound)
    ensures Order.DecimalLess(value, f.range.lowerBound) ==> Format(f, value, render) == render(f.baseFormatter, f.range.lowerBound)
    ensures InRange(f.range, value) ==> Format(f, value, render) == render(f.baseFormatter, value)
  {
  }

  /** Clamping twice is clamping once. */
  lemma ClampIdempotent(range: ClosedDecimalRange, value: Decimal)
    ensures Clamped(range, Clamped(range, value)) == Clamped(range, value)
  {
  }

  /** `range(_:)` on a base formatter. */
  function WithRange<F>(base: F, range: ClosedDecimalRange): (f: RangeFormatter<F>)
    ensures f.range == range && f.baseFormatter == base
  {
    RangeFormatter(range, base)
  }

  /** A formatter built by `range(r)` clamps into `r` and renders with the receiver. */
  lemma WithRangeFormats<F>(base: F, range: ClosedDecimalRange, value: Decimal, render: (F, Decimal) -> string)
    ensures Format(WithRange(base, range), value, render) == render(base, Clamped(range, value))
  {
    FormatRendersClamped(WithRange(base, range), value, render);
  }
}
