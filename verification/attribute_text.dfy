/**
  Substring search on attribute display strings, and the two attribute names the generator
  compares against exactly.
 */
module AttributeText {
  /** `pat` occurs in `text` starting at index `i`. */
  predicate OccursAt(text: string, pat: string, i: int) {
    0 <= i && i + |pat| <= |text| && text[i..i + |pat|] == pat
  }

  /** Ordinal `string.Contains`: `pat` occurs in `text` as a contiguous run. */
  predicate Contains(text: string, pat: string) {
    exists i | 0 <= i <= |text| - |pat| :: OccursAt(text, pat, i)
  }

  const ScopeAttributeName: string := "ScopyRuntime.ScopeAttribute"
  const FrozenScopeAttributeName: string := "ScopyRuntime.FrozenScopeAttribute"

  /** A pattern with a character the text lacks does not occur in it. */
  lemma MissingCharNoOccurrence(text: string, pat: string, k: nat)
    requires k < |pat| && forall j | 0 <= j < |text| :: text[j] != pat[k]
    ensures !Contains(text, pat)
  {
    forall i | 0 <= i <= |text| - |pat| ensures !OccursAt(text, pat, i) {
      assert text[i..i + |pat|][k] == text[i + k];
    }
  }

  lemma ScopeAttributeMentionsScope()
    ensures Contains(ScopeAttributeName, "Scope")
  {
    assert OccursAt(ScopeAttributeName, "Scope", 13);
  }

  /** `[Scope]` is not a `FrozenScope` attribute: its name has no `F`. */
  lemma ScopeAttributeIsNotFrozen()
    ensures !Contains(ScopeAttributeName, "FrozenScope")
  {
    MissingCharNoOccurrence(ScopeAttributeName, "FrozenScope", 0);
  }

  lemma FrozenScopeAttributeMentionsBoth()
    ensures Contains(FrozenScopeAttributeName, "Scope") && Contains(FrozenScopeAttributeName, "FrozenScope")
  {
    assert OccursAt(FrozenScopeAttributeName, "Scope", 19);
    assert OccursAt(FrozenScopeAttributeName, "FrozenScope", 13);
  }
}
