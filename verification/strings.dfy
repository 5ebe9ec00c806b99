/**
 * Substring search over strings, the one primitive the locality guard and
 * the header splitter are built on.
 */
module Strings {
  import opened Optional

  /** True when `pat` occurs in `s` starting at index `k`. */
  predicate OccursAt(s: string, pat: string, k: nat)
  {
    k + |pat| <= |s| && s[k..k + |pat|] == pat
  }

  /** True when `k` is the leftmost occurrence of `pat` in `s`. */
  predicate FirstOccurrence(s: string, pat: string, k: nat)
  {
    OccursAt(s, pat, k) && forall j: nat :: j < k ==> !OccursAt(s, pat, j)
  }

  /** The leftmost index at or after `from` where `pat` occurs in `s`, if any. */
  function Find(s: string, pat: string, from: nat): (r: Option<nat>)
    ensures r.Some? ==> from <= r.value && OccursAt(s, pat, r.value)
    ensures r.Some? ==> forall k: nat :: from <= k < r.value ==> !OccursAt(s, pat, k)
    ensures r.None? <==> forall k: nat :: from <= k ==> !OccursAt(s, pat, k)
    decreases |s| - from
  {
    if |s| < from + |pat| then None
    else if OccursAt(s, pat, from) then Some(from)
    else Find(s, pat, from + 1)
  }

  /** A one-character pattern occurs exactly where that character stands. */
  lemma OccursAtChar(s: string, c: char, k: nat)
    ensures OccursAt(s, [c], k) <==> k < |s| && s[k] == c
  {
    if k < |s| {
      assert s[k..k + 1] == [s[k]];
    }
  }

  /** Two leftmost occurrences of the same pattern are the same occurrence. */
  lemma FirstOccurrenceUnique(s: string, pat: string, i: nat, j: nat)
    requires FirstOccurrence(s, pat, i) && FirstOccurrence(s, pat, j)
    ensures i == j
  {
  }

  /** A pattern cannot start where its first character is absent. */
  lemma NoOccurrenceBefore(s: string, pat: string, n: nat)
    requires |pat| > 0 && n <= |s|
    requires forall j :: 0 <= j < n ==> s[j] != pat[0]
    ensures forall j: nat :: j < n ==> !OccursAt(s, pat, j)
  {
    forall j: nat | j < n
      ensures !OccursAt(s, pat, j)
    {
      if j + |pat| <= |s| {
        assert s[j..j + |pat|][0] == s[j];
      }
    }
  }
}
