/** `TextLineField`'s `Binding<String?>` initializer, which shows nil as "∞". */
module TextLineField {
  import opened Wrappers
  import opened Values
  import opened Validation
  import opened SentinelBinding

  /** The getter shows nil as "∞" and a present string as itself. */
  lemma GetterShowsInfinityForNil(s: string)
    ensures Get(None, InfinitySign) == "∞"
    ensures Get(Some(s), InfinitySign) == s
  {
  }

  /** The setter stores nil for "∞" and any other string as itself. */
  lemma SetterStoresNilForInfinity(s: string)
    ensures Set("∞", InfinitySign) == None
    ensures s != "∞" ==> Set(s, InfinitySign) == Some(s)
  {
  }

  /** Reading back what was written gives the string written; only a stored "∞" does not survive a round trip. */
  lemma RoundTrips(s: string, stored: Option<string>)
    ensures Get(Set(s, InfinitySign), InfinitySign) == s
    ensures Set(Get(stored, InfinitySign), InfinitySign) == stored <==> stored != Some("∞")
  {
    GetOfSet(s, InfinitySign);
    SetOfGet(stored, InfinitySign);
  }

  /** An unset optional text shows "∞", which `Required` rejects as empty. */
  lemma UnsetTextIsRequiredEmpty(m: string)
    ensures !IsValid(Required(m), VStr(Get(None, InfinitySign)))
  {
  }
}
