/**
 * The `Validator` protocol: every validator of the library as one datatype,
 * with its `isValid` and its input-dependent `message`.
 */
module Validation {
  import opened Wrappers
  import opened Values
  import Order
  import Emptiness

  /**
   * The static `Input` type of a validator, which `AnyValidator` casts to.
   * `OptionalAnyInput` is `Any?` (`NotNilValidator`'s), the one type to
   * which an absent input casts.
   */
  datatype InputType =
    | AnyInput
    | OptionalAnyInput
    | StringInput
    | DecimalInput
    | DateInput
    | IntInput
    | SetInput
    | OtherInput

  /** `x as? T` succeeds for the `Input` type `T`; everything present casts to `Any` and to `Any?`. */
  predicate Casts(t: InputType, x: Value) {
    match t
    case AnyInput => true
    case OptionalAnyInput => true
    case StringInput => x.VStr?
    case DecimalInput => x.VDec?
    case DateInput => x.VDate?
    case IntInput => x.VInt?
    case SetInput => x.VSet?
    case OtherInput => x.VOther?
  }

  /**
   * The validators. `Erased(input, inner)` is an `AnyValidator` built from a
   * validator whose `Input` type is `input` and which judges values of that
   * type as `inner` does; `Closure` is one built from a `() -> Bool` closure,
   * whose result at the time of the call is `verdict`.
   */
  datatype Validator =
    | Always
    | Never
    | Required(message: string)
    | NotNil
    | AtLeast(limit: Comparable, message: string)
    | AtMost(limit: Comparable, message: string)
    | Between(low: Comparable, high: Comparable, message: string)
    | Many(members: seq<Validator>)
    | Erased(input: InputType, inner: Validator)
    | Closure(verdict: bool, fixedMessage: Option<string>)

  const NotNilMessage: string := "Choose an option"

  /** `RequiredValidator.isValid`: not the type's empty sentinel, and not nil. */
  predicate RequiredAccepts(x: Value) {
    if Emptiness.HasEmpty(x) then !Emptiness.IsEmpty(x) else x != VNone
  }

  predicate IsValid(v: Validator, x: Value)
    decreases v
  {
    match v
    case Always => true
    case Never => false
    case Required(_) => RequiredAccepts(x)
    case NotNil => x != VNone
    case AtLeast(limit, _) => SameType(x, limit) ==> Order.GreaterOrEqual(x, limit)
    case AtMost(limit, _) => SameType(x, limit) ==> Order.LessOrEqual(x, limit)
    case Between(low, high, _) =>
      SameType(x, low) ==> Order.GreaterOrEqual(x, low) && Order.LessOrEqual(x, high)
    case Many(vs) => forall i | 0 <= i < |vs| :: IsValid(vs[i], x)
    case Erased(t, inner) => Casts(t, x) && IsValid(inner, x)
    case Closure(verdict, _) => verdict
  }

  /** The position of the first member that rejects `x`, or `|vs|` when all accept it. */
  function FirstFailing(vs: seq<Validator>, x: Value): (i: nat)
    ensures i <= |vs|
    ensures forall j | 0 <= j < i :: IsValid(vs[j], x)
    ensures i < |vs| ==> !IsValid(vs[i], x)
    decreases |vs|
  {
    if |vs| == 0 then 0
    else if !IsValid(vs[0], x) then 0
    else 1 + FirstFailing(vs[1..], x)
  }

  /**
   * `message(input)`. A `Many` gives the message of its first member that
   * rejects the input, as the protocol's documentation asks; an erased
   * validator gives nil when the input does not cast to its `Input` type.
   * An absent input casts only to `Any?`.
   */
  function Message(v: Validator, x: Option<Value>): (r: Option<string>)
    ensures v.Many? && x.Some? && IsValid(v, x.value) ==> r.None?
    decreases v
  {
    match v
    case Always => None
    case Never => None
    case Required(m) => Some(m)
    case NotNil => Some(NotNilMessage)
    case AtLeast(_, m) => Some(m)
    case AtMost(_, m) => Some(m)
    case Between(_, _, m) => Some(m)
    case Many(vs) =>
      if x.None? then None
      else
        var i := FirstFailing(vs, x.value);
        if i < |vs| then Message(vs[i], x) else None
    case Erased(t, inner) =>
      if x.None? then (if t == OptionalAnyInput then Message(inner, x) else None)
      else if Casts(t, x.value) then Message(inner, x) else None
    case Closure(_, m) => m
  }

  /** `callAsFunction(input:)`. */
  function Call(v: Validator, input: Value): (r: bool)
    ensures r == IsValid(v, input)
  {
    IsValid(v, input)
  }

  /** `ValidatorKey.defaultValue`: `AnyValidator(AlwaysValidator())`. */
  const Unbound: Validator := Erased(AnyInput, Always)

  /** The validator a field sees when none is bound accepts everything and has no message. */
  lemma UnboundAcceptsEverything(x: Value, m: Option<Value>)
    ensures IsValid(Unbound, x) && Call(Unbound, x)
    ensures Message(Unbound, m) == None
  {
  }
}
