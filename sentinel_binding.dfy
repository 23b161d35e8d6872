/**
 * The `Binding<T?>` adapters the fields build: the getter shows a sentinel
 * for nil and the setter stores nil for the sentinel.
 */
module SentinelBinding {
  import opened Wrappers

  /** The getter: `guard let v = stored else { return sentinel }; return v`. */
  function Get<T>(stored: Option<T>, sentinel: T): T {
    stored.GetOr(sentinel)
  }

  /** The setter: `stored = v == sentinel ? nil : v`. */
  function Set<T(==)>(v: T, sentinel: T): (r: Option<T>)
    ensures r.None? <==> v == sentinel
    ensures r.Some? ==> r.value == v
  {
    if v == sentinel then None else Some(v)
  }

  /** Whatever the field writes, it reads back. */
  lemma GetOfSet<T>(v: T, sentinel: T)
    ensures Get(Set(v, sentinel), sentinel) == v
  {
  }

  /** A stored value survives a read and write back, except a stored sentinel, which collapses to nil. */
  lemma SetOfGet<T>(stored: Option<T>, sentinel: T)
    ensures Set(Get(stored, sentinel), sentinel) == stored <==> stored != Some(sentinel)
    ensures stored == Some(sentinel) ==> Set(Get(stored, sentinel), sentinel) == None
  {
  }
}
