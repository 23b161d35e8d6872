/** `DateField`: the distantFuture binding, the button action and the placeholder test. */
module DateField {
  import opened Wrappers
  import opened Values
  import opened Validation
  import opened SentinelBinding

  /** The getter shows nil as distantFuture; the setter stores nil for distantFuture. */
  lemma BindingMapsNilToDistantFuture(d: Date)
    ensures Get(None, DistantFuture) == DistantFuture
    ensures Get(Some(d), DistantFuture) == d
    ensures Set(DistantFuture, DistantFuture) == None
    ensures d != DistantFuture ==> Set(d, DistantFuture) == Some(d)
  {
  }

  /** `get(set(d)) == d` for every date, and `set(get(x)) == x` except for a stored distantFuture. */
  lemma BindingRoundTrips(d: Date, stored: Option<Date>)
    ensures Get(Set(d, DistantFuture), DistantFuture) == d
    ensures Set(Get(stored, DistantFuture), DistantFuture) == stored <==> stored != Some(DistantFuture)
  {
    GetOfSet(d, DistantFuture);
    SetOfGet(stored, DistantFuture);
  }

  /** An unset date shows distantFuture, which `Required` rejects as empty. */
  lemma UnsetDateIsRequiredEmpty(m: string)
    ensures !IsValid(Required(m), VDate(Get(None, DistantFuture)))
  {
  }

  /** The button label shows the placeholder instead of the date. */
  predicate ShowsPlaceholder(date: Date) {
    date == DistantFuture
  }

  /** The placeholder is shown exactly when the bound optional date is unset (or holds distantFuture). */
  lemma PlaceholderIffUnset(stored: Option<Date>)
    ensures ShowsPlaceholder(Get(stored, DistantFuture)) <==> stored.None? || stored == Some(DistantFuture)
  {
  }

  /** The picker's range: the one given, or distantPast...distantFuture. */
  lemma PickerRangeDefault(range: Option<ClosedDateRange>)
    ensures range.None? ==> RangeOrAllDates(range) == DateRange(DistantPast, DistantFuture)
    ensures range.Some? ==> RangeOrAllDates(range) == range.value
  {
  }

  /** The field's state: the bound optional date and whether the picker is shown. */
  class DateFieldState {
    var stored: Option<Date>
    var isPickerVisible: bool

    constructor (stored: Option<Date>)
      ensures this.stored == stored && !isPickerVisible
    {
      this.stored := stored;
      isPickerVisible := false;
    }

    /** The date the field sees through its binding. */
    function DisplayedDate(): Date
      reads this
    {
      Get(stored, DistantFuture)
    }

    /**
     * The button action at time `now` (`Date()`): an unset date becomes
     * `now` when the picker opens; the picker's visibility toggles.
     */
    method Tap(now: Date)
      modifies this
      ensures isPickerVisible == !old(isPickerVisible)
      ensures !old(isPickerVisible) && old(DisplayedDate()) == DistantFuture ==>
        stored == Set(now, DistantFuture) && DisplayedDate() == now
      ensures !(!old(isPickerVisible) && old(DisplayedDate()) == DistantFuture) ==> stored == old(stored)
    {
      if !isPickerVisible && DisplayedDate() == DistantFuture {
        stored := Set(now, DistantFuture);
        GetOfSet(now, DistantFuture);
      }
      isPickerVisible := !isPickerVisible;
    }
  }
}
