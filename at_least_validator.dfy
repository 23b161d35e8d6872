/** `AtLeastValidator<T>`: a value of type `T` must be `>= limit`; other values pass. */
module AtLeastValidator {
  import opened Wrappers
  import opened Values
  import opened Validation
  import Order

  /** `init(value:_ message: (T) -> String)`: the message is computed once, from the limit. */
  function WithFormatter(value: Comparable, message: Comparable -> string): (r: Validator)
    ensures forall x :: Message(r, x) == Some(message(value))
    ensures forall x :: IsValid(r, x) == (SameType(x, value) ==> Order.GreaterOrEqual(x, value))
  {
    AtLeast(value, message(value))
  }

  /** `init(value:_ message: String)`: the given message, for every input. */
  function WithMessage(value: Comparable, message: string): (r: Validator)
    ensures forall x :: Message(r, x) == Some(message)
    ensures forall x :: IsValid(r, x) == (SameType(x, value) ==> Order.GreaterOrEqual(x, value))
  {
    AtLeast(value, message)
  }

  /** `init(value:)`: "Must be at least <limit>", `describe` standing for the interpolation `\(value)`. */
  function WithDefaultMessage(value: Comparable, describe: Comparable -> string): (r: Validator)
    ensures forall x :: Message(r, x) == Some("Must be at least " + describe(value))
    ensures forall x :: IsValid(r, x) == (SameType(x, value) ==> Order.GreaterOrEqual(x, value))
  {
    AtLeast(value, "Must be at least " + describe(value))
  }

  /** A value of the limit's type is accepted exactly when it is not below the limit. */
  lemma AcceptsIffNotBelow(limit: Comparable, m: string, x: Value)
    requires SameType(x, limit)
    ensures IsValid(AtLeast(limit, m), x) <==> !Order.Less(x, limit)
  {
  }

  /** A value of another type is accepted: the validator fails open. */
  lemma FailsOpen(limit: Comparable, m: string, x: Value)
    requires !SameType(x, limit)
    ensures IsValid(AtLeast(limit, m), x)
  {
  }

  /** The limit itself is accepted. */
  lemma LimitAccepted(limit: Comparable, m: string)
    ensures IsValid(AtLeast(limit, m), limit)
  {
    Order.LessIrreflexive(limit);
  }

  /** Acceptance is upward closed within the limit's type. */
  lemma UpwardClosed(limit: Comparable, m: string, x: Value, y: Value)
    requires SameType(x, limit) && SameType(y, x)
    requires IsValid(AtLeast(limit, m), x) && Order.GreaterOrEqual(y, x)
    ensures IsValid(AtLeast(limit, m), y)
  {
    Order.LessOrEqualTransitive(limit, x, y);
  }
}
