/**
 * `DateRangeField`: two optional dates shown through distantPast and
 * distantFuture, the clamp that keeps both pickers' ranges well-formed, the
 * error text, and the first-tap defaults.
 */
module DateRangeField {
  import opened Wrappers
  import opened Values
  import opened Validation
  import opened SentinelBinding
  import AnyValidator

  /** The lower date shows nil as distantPast and the upper date shows nil as distantFuture; each setter inverts its getter. */
  lemma BindingsRoundTrip(lower: Date, upper: Date, storedLower: Option<Date>, storedUpper: Option<Date>)
    ensures Get(None, DistantPast) == DistantPast && Set(DistantPast, DistantPast) == None
    ensures Get(None, DistantFuture) == DistantFuture && Set(DistantFuture, DistantFuture) == None
    ensures Get(Set(lower, DistantPast), DistantPast) == lower
    ensures Get(Set(upper, DistantFuture), DistantFuture) == upper
    ensures Set(Get(storedLower, DistantPast), DistantPast) == storedLower <==> storedLower != Some(DistantPast)
    ensures Set(Get(storedUpper, DistantFuture), DistantFuture) == storedUpper <==> storedUpper != Some(DistantFuture)
  {
    GetOfSet(lower, DistantPast);
    GetOfSet(upper, DistantFuture);
    SetOfGet(storedLower, DistantPast);
    SetOfGet(storedUpper, DistantFuture);
  }

  /** With no range given the field's range is distantPast...distantFuture. */
  lemma DefaultRange(range: Option<ClosedDateRange>)
    ensures range.None? ==> RangeOrAllDates(range) == DateRange(DistantPast, DistantFuture)
    ensures range.Some? ==> RangeOrAllDates(range) == range.value
  {
  }

  function Max(a: int, b: int): int {
    if a >= b then a else b
  }

  function Min(a: int, b: int): int {
    if a <= b then a else b
  }

  /** The ranges handed to the lower and the upper picker. */
  datatype SubfieldRanges = SubfieldRanges(lower: ClosedDateRange, upper: ClosedDateRange)

  /**
   * The clamp: the lower picker runs from the range's start to the upper
   * date, the upper picker from the lower date to the range's end, each
   * endpoint pulled into the range. The subset type is the proof that both
   * `ClosedRange`s are well-formed, as their construction demands.
   */
  function ClampedSubranges(range: ClosedDateRange, lowerDate: Date, upperDate: Date): (r: SubfieldRanges)
    ensures r.lower.lowerBound == range.lowerBound && r.upper.upperBound == range.upperBound
    ensures Contains(range, r.lower.upperBound) && Contains(range, r.upper.lowerBound)
    ensures Contains(range, lowerDate) ==> r.upper.lowerBound == lowerDate
    ensures Contains(range, upperDate) ==> r.lower.upperBound == upperDate
    ensures !Contains(range, lowerDate) ==>
      r.upper.lowerBound == (if lowerDate < range.lowerBound then range.lowerBound else range.upperBound)
    ensures !Contains(range, upperDate) ==>
      r.lower.upperBound == (if upperDate < range.lowerBound then range.lowerBound else range.upperBound)
  {
    var begin := Max(lowerDate, range.lowerBound);
    var end := Min(upperDate, range.upperBound);
    var validBegin := Min(range.upperBound, begin);
    var validEnd := Max(range.lowerBound, end);
    SubfieldRanges(DateRange(range.lowerBound, validEnd), DateRange(validBegin, range.upperBound))
  }

  /** Dates already in order within the range are their own clamp: each picker's bound is the other date. */
  lemma ClampIsIdentityInside(range: ClosedDateRange, lowerDate: Date, upperDate: Date)
    requires range.lowerBound <= lowerDate <= upperDate <= range.upperBound
    ensures ClampedSubranges(range, lowerDate, upperDate)
      == SubfieldRanges(DateRange(range.lowerBound, upperDate), DateRange(lowerDate, range.upperBound))
  {
  }

  /** Every date either picker offers lies in the field's range. */
  lemma PickersStayInRange(range: ClosedDateRange, lowerDate: Date, upperDate: Date, d: Date)
    ensures Contains(ClampedSubranges(range, lowerDate, upperDate).lower, d) ==> Contains(range, d)
    ensures Contains(ClampedSubranges(range, lowerDate, upperDate).upper, d) ==> Contains(range, d)
  {
  }

  /**
   * The error line: shown only when errors are visible and either date is
   * invalid, with text `message(lower) ?? message(upper)`.
   */
  function ErrorText(showErrors: bool, v: Validator, lowerDate: Date, upperDate: Date): (r: Option<string>)
    ensures r.Some? ==> showErrors && (!IsValid(v, VDate(lowerDate)) || !IsValid(v, VDate(upperDate)))
    ensures r.Some? ==> r == Message(v, Some(VDate(lowerDate))) || r == Message(v, Some(VDate(upperDate)))
    ensures r.Some? && Message(v, Some(VDate(lowerDate))).Some? ==> r == Message(v, Some(VDate(lowerDate)))
    ensures showErrors && (!IsValid(v, VDate(lowerDate)) || !IsValid(v, VDate(upperDate))) ==>
      (r.Some? <==> Message(v, Some(VDate(lowerDate))).Some? || Message(v, Some(VDate(upperDate))).Some?)
  {
    if showErrors && (!IsValid(v, VDate(lowerDate)) || !IsValid(v, VDate(upperDate))) then
      Message(v, Some(VDate(lowerDate))).OrElse(Message(v, Some(VDate(upperDate))))
    else None
  }

  /** Under `.any(RequiredValidator(message: m))`, an unset lower date shows `m`, whatever the upper date. */
  lemma UnsetLowerShowsRequired(m: string, upperDate: Date)
    ensures ErrorText(true, AnyValidator.Any(Required(m)), Get(None, DistantPast), upperDate) == Some(m)
  {
    AnyValidator.ErasedDelegates(AnyInput, Required(m), VDate(DistantPast));
  }

  /** A subfield shows its placeholder for either sentinel date. */
  predicate ShowsPlaceholder(date: Date) {
    date == DistantPast || date == DistantFuture
  }

  /** A subfield shows its placeholder exactly when `Required` would reject its date. */
  lemma PlaceholderIffRequiredRejects(date: Date, m: string)
    ensures ShowsPlaceholder(date) <==> !IsValid(Required(m), VDate(date))
  {
  }

  /** The field's state: its two bound optional dates, the first-tap flags and the two pickers. */
  class DateRangeFieldState {
    var storedLower: Option<Date>
    var storedUpper: Option<Date>
    var wasSet1: bool
    var wasSet2: bool
    var lowerPickerVisible: bool
    var upperPickerVisible: bool
    const range: ClosedDateRange
    const upperOffset: int

    constructor (storedLower: Option<Date>, storedUpper: Option<Date>, range: Option<ClosedDateRange>, upperOffset: int)
      ensures this.storedLower == storedLower && this.storedUpper == storedUpper
      ensures this.range == RangeOrAllDates(range) && this.upperOffset == upperOffset
      ensures !wasSet1 && !wasSet2 && !lowerPickerVisible && !upperPickerVisible
    {
      this.storedLower := storedLower;
      this.storedUpper := storedUpper;
      this.range := RangeOrAllDates(range);
      this.upperOffset := upperOffset;
      wasSet1 := false;
      wasSet2 := false;
      lowerPickerVisible := false;
      upperPickerVisible := false;
    }

    function LowerDate(): Date
      reads this
    {
      Get(storedLower, DistantPast)
    }

    function UpperDate(): Date
      reads this
    {
      Get(storedUpper, DistantFuture)
    }

    /**
     * A tap on the lower subfield at time `now`: its picker toggles and
     * `wasSet1` becomes true; the first such tap (the only one that changes
     * `wasSet1`) sets the lower date to `now` when the range has no lower
     * bound, and to the range's lower bound otherwise.
     */
    method TapLower(now: Date)
      modifies this
      ensures lowerPickerVisible == !old(lowerPickerVisible) && wasSet1
      ensures !old(wasSet1) ==>
        storedLower == Set(if range.lowerBound == DistantPast then now else range.lowerBound, DistantPast)
      ensures !old(wasSet1) && range.lowerBound != DistantPast ==> LowerDate() == range.lowerBound
      ensures !old(wasSet1) && range.lowerBound == DistantPast ==> LowerDate() == now
      ensures old(wasSet1) ==> storedLower == old(storedLower)
      ensures storedUpper == old(storedUpper) && wasSet2 == old(wasSet2) && upperPickerVisible == old(upperPickerVisible)
    {
      lowerPickerVisible := !lowerPickerVisible;
      var changed := !wasSet1;
      wasSet1 := true;
      if changed {
        var d := if range.lowerBound == DistantPast then now else range.lowerBound;
        storedLower := Set(d, DistantPast);
        GetOfSet(d, DistantPast);
      }
    }

    /**
     * A tap on the upper subfield at time `now`; `shifted` is the calendar's
     * `now` plus `upperOffset` days, or nil when the calendar cannot form it.
     * The first tap sets the upper date to `shifted`, falling back to `now`
     * when the range has no upper bound and to the range's upper bound otherwise.
     */
    method TapUpper(now: Date, shifted: Option<Date>)
      modifies this
      ensures upperPickerVisible == !old(upperPickerVisible) && wasSet2
      ensures !old(wasSet2) ==>
        storedUpper == Set(shifted.GetOr(if range.upperBound == DistantFuture then now else range.upperBound), DistantFuture)
      ensures !old(wasSet2) && shifted.Some? ==> UpperDate() == shifted.value
      ensures !old(wasSet2) && shifted.None? && range.upperBound != DistantFuture ==> UpperDate() == range.upperBound
      ensures !old(wasSet2) && shifted.None? && range.upperBound == DistantFuture ==> UpperDate() == now
      ensures old(wasSet2) ==> storedUpper == old(storedUpper)
      ensures storedLower == old(storedLower) && wasSet1 == old(wasSet1) && lowerPickerVisible == old(lowerPickerVisible)
    {
      upperPickerVisible := !upperPickerVisible;
      var changed := !wasSet2;
      wasSet2 := true;
      if changed {
        var d := shifted.GetOr(if range.upperBound == DistantFuture then now else range.upperBound);
        storedUpper := Set(d, DistantFuture);
        GetOfSet(d, DistantFuture);
      }
    }
  }
}
