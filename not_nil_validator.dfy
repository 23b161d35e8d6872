/** `NotNilValidator`: a pure presence check, with no emptiness rule. */
module NotNilValidator {
  import opened Wrappers
  import opened Values
  import opened Validation
  import AnyValidator

  /** `NotNilValidator()` and `.notNil`. */
  function Make(): (r: Validator)
    ensures forall x :: IsValid(r, x) <==> x != VNone
    ensures forall x :: Message(r, x) == Some("Choose an option")
  {
    NotNil
  }

  /**
   * `.any(.notNil)`: the cast of an absent input to `Any?` succeeds, so the
   * erasure still rejects nil and still says "Choose an option" for it.
   */
  lemma ErasedKeepsMessageForNil()
    ensures !IsValid(AnyValidator.AnyOptional(Make()), VNone)
    ensures Message(AnyValidator.AnyOptional(Make()), None) == Some("Choose an option")
  {
  }

  /** nil is rejected. */
  lemma RejectsNil()
    ensures !IsValid(Make(), VNone)
  {
  }

  /**
   * Every present value is accepted, the empty sentinels included; there
   * `NotNil` and `Required` disagree.
   */
  lemma AcceptsSentinelsThatRequiredRejects(m: string, x: Value)
    requires x in [VStr(""), VStr("∞"), VDec(NaN), VDate(DistantPast), VDate(DistantFuture), VSet([])]
    ensures IsValid(Make(), x) && !IsValid(Required(m), x)
  {
  }
}
