/** `ManyValidators`: the AND of a list of erased validators. */
module ManyValidators {
  import opened Wrappers
  import opened Values
  import opened Validation
  import AnyValidator
  import RequiredValidator

  /**
   * `ManyValidators.init(_ validators:)`. The initializer reads
   * `validators[0]`, so an empty list traps; that is the `None` result.
   */
  function Make(validators: seq<Validator>): (r: Option<Validator>)
    ensures r.None? <==> |validators| == 0
    ensures r.Some? ==> forall x :: IsValid(r.value, x) <==> (forall i | 0 <= i < |validators| :: IsValid(validators[i], x))
  {
    if |validators| == 0 then None else Some(Many(validators))
  }

  /** `.many(validators)` is the initializer. */
  function ManyOf(validators: seq<Validator>): (r: Option<Validator>)
    ensures r == Make(validators)
  {
    Make(validators)
  }

  /** `.validator([...])` binds the erasure of the composite, which agrees with it on every value. */
  function Bind(validators: seq<Validator>): (r: Option<Validator>)
    ensures r.None? <==> |validators| == 0
    ensures r.Some? ==> forall x :: IsValid(r.value, x) == IsValid(Many(validators), x)
    ensures r.Some? ==> forall x :: Message(r.value, Some(x)) == Message(Many(validators), Some(x))
  {
    match Make(validators)
    case None => None
    case Some(v) => Some(AnyValidator.Any(v))
  }

  /** The message as the initializer stores it: the first member's, whichever member fails. */
  function MessageAsWritten(validators: seq<Validator>, x: Option<Value>): Option<string>
    requires |validators| > 0
  {
    Message(validators[0], x)
  }

  /** A composite accepts exactly what every member accepts. */
  lemma AcceptsIffAllMembersAccept(vs: seq<Validator>, x: Value)
    ensures IsValid(Many(vs), x) <==> forall v | v in vs :: IsValid(v, x)
  {
    if IsValid(Many(vs), x) {
      forall v | v in vs ensures IsValid(v, x) {
        var i :| 0 <= i < |vs| && vs[i] == v;
      }
    }
    if forall v | v in vs :: IsValid(v, x) {
      forall i | 0 <= i < |vs| ensures IsValid(vs[i], x) {
        assert vs[i] in vs;
      }
    }
  }

  /** Reordering the members does not change what the composite accepts. */
  lemma PermutationInvariant(vs: seq<Validator>, ws: seq<Validator>, x: Value)
    requires multiset(vs) == multiset(ws)
    ensures IsValid(Many(vs), x) == IsValid(Many(ws), x)
  {
    AcceptsIffAllMembersAccept(vs, x);
    AcceptsIffAllMembersAccept(ws, x);
    forall v ensures v in vs <==> v in ws {
      assert v in vs <==> v in multiset(vs);
      assert v in ws <==> v in multiset(ws);
    }
  }

  /** A one-member composite accepts what its member accepts. */
  lemma SingletonAgrees(v: Validator, x: Value)
    ensures IsValid(Many([v]), x) == IsValid(v, x)
  {
    assert [v][0] == v;
  }

  /** The composite's message is that of the first member that rejects the input. */
  lemma MessageOfFirstFailing(vs: seq<Validator>, x: Value, i: nat)
    requires i < |vs| && !IsValid(vs[i], x)
    requires forall j | 0 <= j < i :: IsValid(vs[j], x)
    ensures Message(Many(vs), Some(x)) == Message(vs[i], Some(x))
  {
    var k := FirstFailing(vs, x);
    assert k <= i;
    assert !IsValid(vs[k], x);
  }

  /** A composite that accepts the input has no message for it. */
  lemma NoMessageWhenValid(vs: seq<Validator>, x: Value)
    requires IsValid(Many(vs), x)
    ensures Message(Many(vs), Some(x)) == None
  {
    assert FirstFailing(vs, x) == |vs|;
  }

  /** Of two members, a failing first one gives the message, whatever the second says. */
  lemma FirstOfTwoFails(v1: Validator, v2: Validator, x: Value)
    requires !IsValid(v1, x)
    ensures Message(Many([v1, v2]), Some(x)) == Message(v1, Some(x))
  {
    MessageOfFirstFailing([v1, v2], x, 0);
  }

  /** Of two members, when only the second fails it gives the message. */
  lemma SecondOfTwoFails(v1: Validator, v2: Validator, x: Value)
    requires IsValid(v1, x) && !IsValid(v2, x)
    ensures Message(Many([v1, v2]), Some(x)) == Message(v2, Some(x))
  {
    MessageOfFirstFailing([v1, v2], x, 1);
  }

  /**
   * As written, the message is wrong whenever the first failing member is
   * not the first member and its message differs from the first member's.
   */
  lemma AsWrittenMissesFirstFailing(vs: seq<Validator>, x: Value, i: nat)
    requires i == FirstFailing(vs, x) && i < |vs|
    requires Message(vs[i], Some(x)) != Message(vs[0], Some(x))
    ensures 0 < i && !IsValid(Many(vs), x)
    ensures MessageAsWritten(vs, Some(x)) != Message(Many(vs), Some(x))
  {
    MessageOfFirstFailing(vs, x, i);
  }

  /**
   * The discrepancy: `.validator([.any(.always), .any(.required)])` rejects
   * "" but, as written, shows no message, where the first failing member has
   * "Required field".
   */
  lemma AsWrittenHidesFailingMessage()
    ensures var vs := [AnyValidator.Any(Always), AnyValidator.Any(RequiredValidator.Default())];
      && !IsValid(Many(vs), VStr(""))
      && MessageAsWritten(vs, Some(VStr(""))) == None
      && Message(Many(vs), Some(VStr(""))) == Some("Required field")
  {
    var vs := [AnyValidator.Any(Always), AnyValidator.Any(RequiredValidator.Default())];
    assert !IsValid(vs[1], VStr(""));
    SecondOfTwoFails(vs[0], vs[1], VStr(""));
  }
}
