/**
 * `String.prototype.replace` called with a string pattern and a replacement
 * text without `$`: only the first occurrence of the pattern is replaced,
 * wherever in the string it is. A `$` in the replacement starts one of the
 * substitution patterns of GetSubstitution (`$$`, `$&`, and the texts before
 * and after the match), which are not modelled.
 */
module JsString {
  import opened Common

  /** pat occurs in s starting at index i. */
  predicate OccursAt(s: string, pat: string, i: nat)
  {
    i + |pat| <= |s| && s[i..i + |pat|] == pat
  }

  /** i is the least index where pat occurs in s. */
  predicate IsFirstOccurrence(s: string, pat: string, i: nat)
  {
    OccursAt(s, pat, i) && forall j: nat :: j < i ==> !OccursAt(s, pat, j)
  }

  /** The least index at or after from where pat occurs in s, if any. */
  function IndexOfFrom(s: string, pat: string, from: nat): (r: Option<nat>)
    ensures r.Some? ==> from <= r.value && OccursAt(s, pat, r.value)
    ensures r.Some? ==> forall j: nat :: from <= j < r.value ==> !OccursAt(s, pat, j)
    ensures r.None? ==> forall j: nat :: from <= j ==> !OccursAt(s, pat, j)
    decreases |s| - from
  {
    if from + |pat| > |s| then None
    else if s[from..from + |pat|] == pat then Some(from)
    else IndexOfFrom(s, pat, from + 1)
  }

  /** `s.replace(pat, rep)`: the first occurrence of pat becomes rep; no occurrence, no change. */
  function ReplaceFirst(s: string, pat: string, rep: string): (r: string)
    requires '$' !in rep
    ensures (forall j: nat :: !OccursAt(s, pat, j)) ==> r == s
    ensures forall i: nat :: IsFirstOccurrence(s, pat, i) ==> r == s[..i] + rep + s[i + |pat|..]
  {
    match IndexOfFrom(s, pat, 0)
    case None => s
    case Some(i) =>
      assert forall k: nat :: IsFirstOccurrence(s, pat, k) ==> k == i by {
        forall k: nat | IsFirstOccurrence(s, pat, k) ensures k == i {
          assert !(k < i) && !(i < k);
        }
      }
      s[..i] + rep + s[i + |pat|..]
  }

  /** A pattern at the very start is the one that is replaced. */
  lemma ReplaceFirstAtStart(pat: string, t: string, rep: string)
    requires '$' !in rep
    ensures ReplaceFirst(pat + t, pat, rep) == rep + t
  {
    var s := pat + t;
    assert IsFirstOccurrence(s, pat, 0) by { assert s[..|pat|] == pat; }
    assert s[|pat|..] == t;
    assert s[..0] == [];
  }
}
