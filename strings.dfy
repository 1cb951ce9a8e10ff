/** The string operations the screen relies on: Python's `sep in s`,
    `s.split(sep, 1)` and the case-insensitive `str.contains`. */
module Strings {
  import opened Wrappers

  /** True when `pat` occurs in `s` starting at position `j`. */
  predicate MatchesAt(s: string, pat: string, j: nat)
  {
    j + |pat| <= |s| && s[j..j + |pat|] == pat
  }

  /** The first position at or after `from` where `pat` occurs in `s`. */
  function IndexOfFrom(s: string, pat: string, from: nat): (r: Option<nat>)
    ensures r.Some? ==> from <= r.value && MatchesAt(s, pat, r.value)
    ensures r.Some? ==> forall j: nat :: from <= j < r.value ==> !MatchesAt(s, pat, j)
    ensures r.None? ==> forall j: nat :: from <= j ==> !MatchesAt(s, pat, j)
    decreases |s| - from
  {
    if from + |pat| > |s| then None
    else if MatchesAt(s, pat, from) then Some(from)
    else IndexOfFrom(s, pat, from + 1)
  }

  /** The first occurrence of `pat` in `s`, as `str.find` would report it. */
  function IndexOf(s: string, pat: string): Option<nat>
  {
    IndexOfFrom(s, pat, 0)
  }

  /** Python's `pat in s`. */
  predicate Contains(s: string, pat: string)
  {
    IndexOf(s, pat).Some?
  }

  /** `Contains` agrees with "some position matches", in both directions. */
  lemma ContainsIff(s: string, pat: string)
    ensures Contains(s, pat) <==> exists j: nat :: MatchesAt(s, pat, j)
  {
    if Contains(s, pat) {
      assert MatchesAt(s, pat, IndexOf(s, pat).value);
    }
  }

  /** A position that matches, with no match before it, is what `IndexOf` finds. */
  lemma FirstMatch(s: string, pat: string, k: nat)
    requires MatchesAt(s, pat, k)
    requires forall j: nat :: j < k ==> !MatchesAt(s, pat, j)
    ensures IndexOf(s, pat) == Some(k)
  {
  }

  /** A string in which `pat` never occurs. */
  lemma NoMatch(s: string, pat: string)
    requires forall j: nat :: !MatchesAt(s, pat, j)
    ensures IndexOf(s, pat) == None
  {
  }

  /** ASCII lower-casing of one character. */
  function LowerChar(c: char): char
  {
    if 'A' <= c <= 'Z' then (c as int + 32) as char else c
  }

  function Lower(s: string): (r: string)
    ensures |r| == |s|
  {
    seq(|s|, i requires 0 <= i < |s| => LowerChar(s[i]))
  }

  /** pandas' `str.contains(pat, case=False)` on a literal pattern. */
  predicate ContainsIgnoringCase(s: string, pat: string)
  {
    Contains(Lower(s), Lower(pat))
  }

  /** Lower-casing is idempotent, so lower-casing either argument first changes nothing. */
  lemma ContainsIgnoringCaseIsCaseBlind(s: string, pat: string)
    ensures ContainsIgnoringCase(s, pat) == ContainsIgnoringCase(Lower(s), pat)
    ensures ContainsIgnoringCase(s, pat) == ContainsIgnoringCase(s, Lower(pat))
  {
    assert Lower(Lower(s)) == Lower(s);
    assert Lower(Lower(pat)) == Lower(pat);
  }

  /** `pat` occurs at `j` in `s` when letter case is ignored, character by character. */
  predicate FoldedMatchAt(s: string, pat: string, j: nat)
  {
    j + |pat| <= |s| && forall k :: 0 <= k < |pat| ==> LowerChar(s[j + k]) == LowerChar(pat[k])
  }

  /** Case-insensitive containment is a match at some position where every
      character agrees after folding, independent of how `Lower` builds strings. */
  lemma ContainsIgnoringCaseIff(s: string, pat: string)
    ensures ContainsIgnoringCase(s, pat) <==> exists j: nat :: FoldedMatchAt(s, pat, j)
  {
    ContainsIff(Lower(s), Lower(pat));
    forall j: nat ensures MatchesAt(Lower(s), Lower(pat), j) <==> FoldedMatchAt(s, pat, j) {
      if j + |pat| <= |s| {
        if MatchesAt(Lower(s), Lower(pat), j) {
          forall k | 0 <= k < |pat| ensures LowerChar(s[j + k]) == LowerChar(pat[k]) {
            assert Lower(s)[j..j + |pat|][k] == Lower(pat)[k];
          }
        }
        if FoldedMatchAt(s, pat, j) {
          assert Lower(s)[j..j + |pat|] == Lower(pat);
        }
      }
    }
  }
}
