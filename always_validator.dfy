/** `AlwaysValidator`: accepts everything, has no message. */
module AlwaysValidator {
  import opened Wrappers
  import opened Values
  import opened Validation
  import AnyValidator
  import ManyValidators

  /** `AlwaysValidator()` and `.always`. */
  function Make(): (r: Validator)
    ensures forall x :: IsValid(r, x)
    ensures forall x :: Message(r, x) == None
  {
    Always
  }

  /** Adding `.any(.always)` anywhere in a composite changes nothing it accepts. */
  lemma NeutralInMany(vs: seq<Validator>, k: nat, x: Value)
    requires k <= |vs|
    ensures IsValid(Many(vs[..k] + [AnyValidator.Any(Make())] + vs[k..]), x) == IsValid(Many(vs), x)
  {
    var ws := vs[..k] + [AnyValidator.Any(Make())] + vs[k..];
    ManyValidators.AcceptsIffAllMembersAccept(vs, x);
    ManyValidators.AcceptsIffAllMembersAccept(ws, x);
    assert vs == vs[..k] + vs[k..];
    forall v ensures v in ws <==> v in vs || v == AnyValidator.Any(Make()) {
    }
  }

  /** Erasing `Always` gives the validator a field sees when none is bound. */
  lemma ErasedIsUnbound()
    ensures AnyValidator.Any(Make()) == Unbound
  {
  }
}
