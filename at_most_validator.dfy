/** `AtMostValidator<T>`: a value of type `T` must be `<= limit`; other values pass. */
module AtMostValidator {
  import opened Wrappers
  import opened Values
  import opened Validation
  import Order

  /** `init(value:_ message: (T) -> String)`: the message is computed once, from the limit. */
  function WithFormatter(value: Comparable, message: Comparable -> string): (r: Validator)
    ensures forall x :: Message(r, x) == Some(message(value))
    ensures forall x :: IsValid(r, x) == (SameType(x, value) ==> Order.LessOrEqual(x, value))
  {
    AtMost(value, message(value))
  }

  /** `init(value:_ message: String)`: the given message, for every input. */
  function WithMessage(value: Comparable, message: string): (r: Validator)
    ensures forall x :: Message(r, x) == Some(message)
    ensures forall x :: IsValid(r, x) == (SameType(x, value) ==> Order.LessOrEqual(x, value))
  {
    AtMost(value, message)
  }

  /** `init(value:)`: "Must be at most <limit>", `describe` standing for the interpolation `\(value)`. */
  function WithDefaultMessage(value: Comparable, describe: Comparable -> string): (r: Validator)
    ensures forall x :: Message(r, x) == Some("Must be at most " + describe(value))
    ensures forall x :: IsValid(r, x) == (SameType(x, value) ==> Order.LessOrEqual(x, value))
  {
    AtMost(value, "Must be at most " + describe(value))
  }

  /** A value of the limit's type is accepted exactly when it is not above the limit. */
  lemma AcceptsIffNotAbove(limit: Comparable, m: string, x: Value)
    requires SameType(x, limit)
    ensures IsValid(AtMost(limit, m), x) <==> !Order.Less(limit, x)
  {
  }

  /** A value of another type is accepted: the validator fails open. */
  lemma FailsOpen(limit: Comparable, m: string, x: Value)
    requires !SameType(x, limit)
    ensures IsValid(AtMost(limit, m), x)
  {
  }

  /** The limit itself is accepted. */
  lemma LimitAccepted(limit: Comparable, m: string)
    ensures IsValid(AtMost(limit, m), limit)
  {
    Order.LessIrreflexive(limit);
  }

  /** Acceptance is downward closed within the limit's type. */
  lemma DownwardClosed(limit: Comparable, m: string, x: Value, y: Value)
    requires SameType(x, limit) && SameType(y, x)
    requires IsValid(AtMost(limit, m), x) && Order.LessOrEqual(y, x)
    ensures IsValid(AtMost(limit, m), y)
  {
    Order.LessOrEqualTransitive(y, x, limit);
  }
}
