/** `NeverValidator`: rejects everything, has no message. */
module NeverValidator {
  import opened Wrappers
  import opened Values
  import opened Validation
  import AnyValidator
  import ManyValidators

  /** `NeverValidator()` and `.never`. */
  function Make(): (r: Validator)
    ensures forall x :: !IsValid(r, x)
    ensures forall x :: Message(r, x) == None
  {
    Never
  }

  /** A composite with `.any(.never)` among its members rejects every input. */
  lemma ManyWithNeverRejects(vs: seq<Validator>, x: Value)
    requires AnyValidator.Any(Make()) in vs
    ensures !IsValid(Many(vs), x)
  {
    ManyValidators.AcceptsIffAllMembersAccept(vs, x);
  }

  /** Erasing `Never` gives a validator that rejects everything and has no message. */
  lemma ErasedRejectsAll(x: Value, m: Option<Value>)
    ensures !IsValid(AnyValidator.Any(Make()), x)
    ensures Message(AnyValidator.Any(Make()), m) == None
  {
  }
}
