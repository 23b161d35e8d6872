/**
 * `ValidPreferenceKey`: how the per-field validity reports of one pass are
 * collapsed into the form's validity.
 */
module ValidPreference {

  /** `ValidPreferenceKey.defaultValue`: a pass with no reports is valid. */
  const DefaultValue: bool := true

  /**
   * `reduce(value:nextValue:)`: the accumulator's new value. Once false it
   * stays false without consulting `nextValue`.
   */
  function Reduce(value: bool, nextValue: () -> bool): (r: bool)
    ensures !value ==> !r
    ensures value ==> r == nextValue()
  {
    if !value then value else nextValue()
  }

  /** The form's validity after one pass: `reduce` folded over the pass's reports, in order, from the default. */
  function Fold(reports: seq<bool>): bool
    decreases |reports|
  {
    if |reports| == 0 then DefaultValue
    else
      var last := reports[|reports| - 1];
      Reduce(Fold(reports[..|reports| - 1]), () => last)
  }

  /** A pass is valid exactly when every report in it is true (so the empty pass is valid). */
  lemma {:induction false} FoldIsConjunction(reports: seq<bool>)
    ensures Fold(reports) <==> forall i | 0 <= i < |reports| :: reports[i]
    decreases |reports|
  {
    if |reports| > 0 {
      var prefix := reports[..|reports| - 1];
      FoldIsConjunction(prefix);
      assert forall i | 0 <= i < |prefix| :: prefix[i] == reports[i];
    }
  }

  /** Reports from two groups of fields combine by AND, whichever fields are present in the pass. */
  lemma FoldConcatenation(a: seq<bool>, b: seq<bool>)
    ensures Fold(a + b) == (Fold(a) && Fold(b))
  {
    FoldIsConjunction(a);
    FoldIsConjunction(b);
    FoldIsConjunction(a + b);
    assert forall i | 0 <= i < |a| :: (a + b)[i] == a[i];
    assert forall i | 0 <= i < |b| :: (a + b)[|a| + i] == b[i];
  }

  /**
   * Each pass is folded afresh: a pass with a false report is invalid, and a
   * later pass whose reports are all true is valid again.
   */
  lemma RecoversAfterFailure(failing: seq<bool>, repaired: seq<bool>, k: nat)
    requires k < |failing| && !failing[k]
    requires forall i | 0 <= i < |repaired| :: repaired[i]
    ensures !Fold(failing) && Fold(repaired)
  {
    FoldIsConjunction(failing);
    FoldIsConjunction(repaired);
  }
}
