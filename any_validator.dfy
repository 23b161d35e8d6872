/** `AnyValidator`: type erasure of a validator behind `Any`. */
module AnyValidator {
  import opened Wrappers
  import opened Values
  import opened Validation

  /**
   * `AnyValidator.init(_ validator: V)`, `V.Input` being `input`: the cast
   * guards both closures and fails closed.
   */
  function Erase(input: InputType, v: Validator): (r: Validator)
    ensures forall x :: IsValid(r, x) == (Casts(input, x) && IsValid(v, x))
    ensures forall x :: Message(r, Some(x)) == (if Casts(input, x) then Message(v, Some(x)) else None)
    ensures Message(r, None) == (if input == OptionalAnyInput then Message(v, None) else None)
  {
    Erased(input, v)
  }

  /** `.any(v)` for a library validator, whose `Input` is `Any`: it agrees with `v` everywhere. */
  function Any(v: Validator): (r: Validator)
    ensures forall x :: IsValid(r, x) == IsValid(v, x)
    ensures forall x :: Message(r, Some(x)) == Message(v, Some(x))
  {
    Erase(AnyInput, v)
  }

  /**
   * `.any(v)` for a validator whose `Input` is `Any?` (`NotNilValidator`):
   * it agrees with `v` everywhere, an absent input included.
   */
  function AnyOptional(v: Validator): (r: Validator)
    ensures forall x :: IsValid(r, x) == IsValid(v, x)
    ensures forall x :: Message(r, x) == Message(v, x)
  {
    Erase(OptionalAnyInput, v)
  }

  /** An erasure to a non-optional `Input` type has no message for an absent input. */
  lemma ErasedHasNoMessageForNil(input: InputType, v: Validator)
    requires input != OptionalAnyInput
    ensures Message(Erase(input, v), None) == None
  {
  }

  /** `AnyValidator.init(_ isValid: () -> Bool, message:)`: the input is ignored. */
  function FromClosure(isValid: bool, message: Option<string>): (r: Validator)
    ensures forall x :: IsValid(r, x) == isValid
    ensures forall x :: Message(r, x) == message
  {
    Closure(isValid, message)
  }

  /** The same, with the default `message: nil`. */
  function FromClosureDefault(isValid: bool): (r: Validator)
    ensures forall x :: IsValid(r, x) == isValid
    ensures forall x :: Message(r, x) == None
  {
    FromClosure(isValid, None)
  }

  /** On an input of the wrapped validator's type the erasure delegates both answers. */
  lemma ErasedDelegates(input: InputType, v: Validator, x: Value)
    requires Casts(input, x)
    ensures IsValid(Erase(input, v), x) == IsValid(v, x)
    ensures Message(Erase(input, v), Some(x)) == Message(v, Some(x))
  {
  }

  /** On an input of any other type the erasure rejects, and has no message. */
  lemma ErasedFailsClosed(input: InputType, v: Validator, x: Value)
    requires !Casts(input, x)
    ensures !IsValid(Erase(input, v), x)
    ensures Message(Erase(input, v), Some(x)) == None
  {
  }

  /** `isValid` is the stored closure applied to the input: erasing twice is erasing once. */
  lemma EraseTwice(input: InputType, v: Validator, x: Value)
    ensures IsValid(Any(Erase(input, v)), x) == IsValid(Erase(input, v), x)
    ensures Message(Any(Erase(input, v)), Some(x)) == Message(Erase(input, v), Some(x))
  {
  }
}
