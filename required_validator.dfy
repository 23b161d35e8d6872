/** `RequiredValidator`: a value is required to be present and not its type's empty sentinel. */
module RequiredValidator {
  import opened Wrappers
  import opened Values
  import opened Validation
  import Emptiness

  const DefaultMessage: string := "Required field"

  /** `RequiredValidator(message)` and `.required(message)`: the message is stored verbatim and ignores the input. */
  function WithMessage(message: string): (r: Validator)
    ensures forall x :: Message(r, x) == Some(message)
    ensures forall x :: IsValid(r, x) == RequiredAccepts(x)
  {
    Required(message)
  }

  /** `RequiredValidator()` and `.required`, with the default message. */
  function Default(): (r: Validator)
    ensures forall x :: Message(r, x) == Some("Required field")
    ensures forall x :: IsValid(r, x) == RequiredAccepts(x)
  {
    WithMessage(DefaultMessage)
  }

  /** A string is accepted unless it is empty or the text fields' "∞" sentinel. */
  lemma RequiredString(m: string, s: string)
    ensures IsValid(Required(m), VStr(s)) <==> s != "" && s != "∞"
  {
  }

  /** A date is accepted unless it is `distantPast` or `distantFuture`. */
  lemma RequiredDate(m: string, d: Date)
    ensures IsValid(Required(m), VDate(d)) <==> d != DistantPast && d != DistantFuture
  {
  }

  /** A decimal is accepted unless it is NaN. */
  lemma RequiredDecimal(m: string, d: Decimal)
    ensures IsValid(Required(m), VDec(d)) <==> d.Finite?
  {
  }

  /** An ordered set is accepted unless it is empty. */
  lemma RequiredSet(m: string, elements: seq<Value>)
    ensures IsValid(Required(m), VSet(elements)) <==> |elements| > 0
  {
  }

  /** nil is rejected. */
  lemma RequiredRejectsNil(m: string)
    ensures !IsValid(Required(m), VNone)
  {
  }

  /** A present value of a type without an emptiness rule is accepted. */
  lemma RequiredAcceptsOtherTypes(m: string, x: Value)
    requires !Emptiness.HasEmpty(x) && x != VNone
    ensures IsValid(Required(m), x)
  {
  }
}
