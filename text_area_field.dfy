/** `TextAreaField`: the "∞" binding, the character limit and the remaining count. */
module TextAreaField {
  import opened Wrappers
  import opened Values
  import opened Validation
  import opened SentinelBinding

  /** The optional-text binding is the "∞" encoding, with the same round-trip laws as the text line. */
  lemma BindingRoundTrips(s: string, stored: Option<string>)
    ensures Get(None, InfinitySign) == "∞" && Set("∞", InfinitySign) == None
    ensures Get(Set(s, InfinitySign), InfinitySign) == s
    ensures Set(Get(stored, InfinitySign), InfinitySign) == stored <==> stored != Some("∞")
  {
    GetOfSet(s, InfinitySign);
    SetOfGet(stored, InfinitySign);
  }

  function Min(a: int, b: int): int {
    if a <= b then a else b
  }

  /**
   * The `onChange` rule: with a limit and a longer text, `removeLast` drops
   * the excess. A negative limit makes `removeLast` remove more characters
   * than there are, which traps: the `None` result.
   */
  function Truncated(text: string, characterCount: Option<int>): (r: Option<string>)
    ensures characterCount.None? ==> r == Some(text)
    ensures characterCount.Some? && characterCount.value < 0 ==> r.None?
    ensures characterCount.Some? && characterCount.value >= 0 ==>
      r.Some? && r.value <= text && |r.value| == Min(|text|, characterCount.value)
  {
    match characterCount
    case None => Some(text)
    case Some(limit) =>
      if |text| > limit then
        var excess := |text| - limit;
        if excess > |text| then None else Some(text[..|text| - excess])
      else Some(text)
  }

  /** The "characters remaining" count. */
  function Remaining(characterCount: int, text: string): int {
    characterCount - |text|
  }

  /** A text within the limit is left as it is. */
  lemma WithinLimitUnchanged(text: string, characterCount: Option<int>)
    requires characterCount.None? || |text| <= characterCount.value
    requires characterCount.Some? ==> characterCount.value >= 0
    ensures Truncated(text, characterCount) == Some(text)
  {
  }

  /** A longer text keeps exactly its first `characterCount` characters. */
  lemma OverLimitKeepsPrefix(text: string, limit: int)
    requires 0 <= limit < |text|
    ensures Truncated(text, Some(limit)) == Some(text[..limit])
  {
  }

  /** Truncating twice is truncating once. */
  lemma Idempotent(text: string, characterCount: Option<int>)
    requires Truncated(text, characterCount).Some?
    ensures Truncated(Truncated(text, characterCount).value, characterCount) == Truncated(text, characterCount)
  {
  }

  /** After truncation to a non-negative limit the remaining count is not negative. */
  lemma RemainingNonNegative(text: string, limit: int)
    requires limit >= 0
    ensures Remaining(limit, Truncated(text, Some(limit)).value) >= 0
    ensures Remaining(limit, Truncated(text, Some(limit)).value) == limit - Min(|text|, limit)
  {
  }

  /**
   * The editor's `introspect` hook writes "" over a shown "∞". Through the
   * binding that stores `Some("")`, not nil: an unset text becomes a set,
   * empty one, which `Required` still rejects.
   */
  lemma ClearedSignIsStoredEmpty(m: string)
    ensures Set("", InfinitySign) == Some("")
    ensures Get(Set("", InfinitySign), InfinitySign) == ""
    ensures !IsValid(Required(m), VStr(""))
  {
  }

  /** The text area's state: the text seen through its binding, and its limit. */
  class TextArea {
    var text: string
    const characterCount: Option<int>

    constructor (text: string, characterCount: Option<int>)
      ensures this.text == text && this.characterCount == characterCount
    {
      this.text := text;
      this.characterCount := characterCount;
    }

    /** The `introspect` hook: a shown "∞" is replaced by the empty string. */
    method ClearInfinitySign()
      modifies this
      ensures old(text) == InfinitySign ==> text == ""
      ensures old(text) != InfinitySign ==> text == old(text)
    {
      if text == InfinitySign {
        text := "";
      }
    }

    /** `.onChange(of: text)`: `trapped` when `removeLast` would trap, and the text is then untouched. */
    method OnChange() returns (trapped: bool)
      modifies this
      ensures trapped <==> Truncated(old(text), characterCount).None?
      ensures !trapped ==> text == Truncated(old(text), characterCount).value
      ensures trapped ==> text == old(text)
    {
      trapped := false;
      if characterCount.Some? && |text| > characterCount.value {
        var excess := |text| - characterCount.value;
        if excess > |text| {
          trapped := true;
        } else {
          text := text[..|text| - excess];
        }
      }
    }
  }
}
