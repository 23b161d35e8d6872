/** `BetweenValidator<T>`: a value of type `T` must lie in `[lowLimit, highLimit]`; other values pass. */
module BetweenValidator {
  import opened Wrappers
  import opened Values
  import opened Validation
  import Order

  predicate InBounds(low: Comparable, high: Comparable, x: Value) {
    SameType(x, low) ==> Order.GreaterOrEqual(x, low) && Order.LessOrEqual(x, high)
  }

  /** `init(lowLimit:highLimit:_ message: (T, T) -> String)`: the message is computed once, from both limits. */
  function WithFormatter(low: Comparable, high: Comparable, message: (Comparable, Comparable) -> string): (r: Validator)
    requires SameType(low, high)
    ensures forall x :: Message(r, x) == Some(message(low, high))
    ensures forall x :: IsValid(r, x) == InBounds(low, high, x)
  {
    Between(low, high, message(low, high))
  }

  /** `init(lowLimit:highLimit:_ message: String)`: the given message, for every input. */
  function WithMessage(low: Comparable, high: Comparable, message: string): (r: Validator)
    requires SameType(low, high)
    ensures forall x :: Message(r, x) == Some(message)
    ensures forall x :: IsValid(r, x) == InBounds(low, high, x)
  {
    Between(low, high, message)
  }

  /** `init(lowLimit:highLimit:)`: "Must be between <low> and <high>". */
  function WithDefaultMessage(low: Comparable, high: Comparable, describe: Comparable -> string): (r: Validator)
    requires SameType(low, high)
    ensures forall x :: Message(r, x) == Some("Must be between " + describe(low) + " and " + describe(high))
    ensures forall x :: IsValid(r, x) == InBounds(low, high, x)
  {
    Between(low, high, "Must be between " + describe(low) + " and " + describe(high))
  }

  /** `Between(lo, hi)` accepts exactly what both `AtLeast(lo)` and `AtMost(hi)` accept. */
  lemma IsAtLeastAndAtMost(low: Comparable, high: Comparable, m: string, m1: string, m2: string, x: Value)
    requires SameType(low, high)
    ensures IsValid(Between(low, high, m), x) == (IsValid(AtLeast(low, m1), x) && IsValid(AtMost(high, m2), x))
  {
  }

  /** A value of another type is accepted: the validator fails open. */
  lemma FailsOpen(low: Comparable, high: Comparable, m: string, x: Value)
    requires !SameType(x, low)
    ensures IsValid(Between(low, high, m), x)
  {
  }

  /** With inverted limits no value of the limits' type is accepted. */
  lemma InvertedRejectsAll(low: Comparable, high: Comparable, m: string, x: Value)
    requires SameType(low, high) && SameType(x, low) && Order.Less(high, low)
    ensures !IsValid(Between(low, high, m), x)
  {
    if IsValid(Between(low, high, m), x) {
      Order.LessOrEqualTransitive(low, x, high);
    }
  }

  /** With ordered limits both endpoints are accepted. */
  lemma EndpointsAccepted(low: Comparable, high: Comparable, m: string)
    requires SameType(low, high) && Order.LessOrEqual(low, high)
    ensures IsValid(Between(low, high, m), low) && IsValid(Between(low, high, m), high)
  {
    Order.LessIrreflexive(low);
    Order.LessIrreflexive(high);
  }
}
