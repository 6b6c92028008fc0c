/** Case-insensitive character and string comparison as performed by Python's
    `re` module when a `str` pattern is compiled with `re.IGNORECASE`. The
    patterns of the log analyzer consist of ASCII lower-case letters, '.' and
    ' ', so a pattern character `p` matches an input character `c` exactly when
    `Fold(c) == p`. */
module Text {

  /** The pattern letter an input character stands for under IGNORECASE.
      The regex engine compares an input character by its lower-case
      mapping. Besides the ASCII capitals, that mapping takes U+212A (Kelvin
      sign) to 'k', and U+0130 (capital I with dot) to a string that starts
      with 'i', which is the character compared. The engine also treats
      U+0131 (dotless i) as 'i' and U+017F (long s) as 's'. No pattern here
      contains a 'k'; the Kelvin sign is kept for completeness. Every other
      character only matches itself. */
  function Fold(c: char): char {
    if 'A' <= c <= 'Z' then (c as int + 32) as char
    else if c == '\U{130}' || c == '\U{131}' then 'i'
    else if c == '\U{17F}' then 's'
    else if c == '\U{212A}' then 'k'
    else c
  }

  /** Folds every character of a string. */
  function FoldAll(s: string): string {
    seq(|s|, k requires 0 <= k < |s| => Fold(s[k]))
  }

  /** The pattern `pat` (written in folded form) matches `s` starting at
      position `i`, one character per pattern character. */
  predicate MatchesAt(s: string, i: nat, pat: string) {
    i + |pat| <= |s| && forall k :: 0 <= k < |pat| ==> Fold(s[i + k]) == pat[k]
  }

  /** A match at `i` is the same as the folded slice being the pattern. */
  lemma MatchesAtSlice(s: string, i: nat, pat: string)
    requires i + |pat| <= |s|
    ensures MatchesAt(s, i, pat) <==> FoldAll(s[i..i + |pat|]) == pat
  {
    if MatchesAt(s, i, pat) {
      assert forall k :: 0 <= k < |pat| ==> FoldAll(s[i..i + |pat|])[k] == pat[k];
    }
    if FoldAll(s[i..i + |pat|]) == pat {
      forall k | 0 <= k < |pat|
        ensures Fold(s[i + k]) == pat[k]
      {
        assert FoldAll(s[i..i + |pat|])[k] == Fold(s[i..i + |pat|][k]);
      }
    }
  }
}
