/** Substring search as done by Rust's `str::contains` with a string pattern:
    exact, case-sensitive comparison of characters. */
module Strings {

  /** `pattern` occurs in `s` starting at offset `k`. */
  predicate OccursAt(pattern: string, s: string, k: nat) {
    k + |pattern| <= |s| && s[k..k + |pattern|] == pattern
  }

  /** `pattern` is a contiguous substring of `s`. */
  ghost predicate IsSubstring(pattern: string, s: string) {
    exists k: nat | k <= |s| :: OccursAt(pattern, s, k)
  }

  /** Scans the offsets from `k` upwards for an occurrence of `pattern`. */
  function ContainsFrom(s: string, pattern: string, k: nat): (found: bool)
    requires k <= |s|
    ensures found <==> exists j: nat | k <= j <= |s| :: OccursAt(pattern, s, j)
    decreases |s| - k
  {
    if OccursAt(pattern, s, k) then true
    else if k == |s| then false
    else ContainsFrom(s, pattern, k + 1)
  }

  /** `s.contains(pattern)`. */
  function Contains(s: string, pattern: string): (found: bool)
    ensures found <==> IsSubstring(pattern, s)
  {
    ContainsFrom(s, pattern, 0)
  }

  /** The empty pattern is found in every string, the empty string included. */
  lemma EmptyPatternFound(s: string)
    ensures Contains(s, "")
  {
    assert OccursAt("", s, 0);
  }

  /** A pattern longer than the string is never found. */
  lemma LongPatternNotFound(s: string, pattern: string)
    requires |pattern| > |s|
    ensures !Contains(s, pattern)
  {
  }

  /** Case matters: "A" is not found in "a". */
  lemma CaseSensitive()
    ensures !Contains("a", "A")
  {
    assert "a"[0..1][0] == 'a';
    assert !OccursAt("A", "a", 0);
  }
}
