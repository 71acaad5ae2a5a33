/** Character helpers shared by the card filter and the image slug.

    JavaScript's `toLowerCase` follows the full Unicode case tables; this model
    lower-cases the ASCII letters `A`..`Z` only and leaves every other character
    unchanged, which agrees with JavaScript on every card name of the catalogue.
 */
module Ascii {

  /** `A`..`Z`. */
  predicate IsUpper(c: char) {
    'A' <= c <= 'Z'
  }

  /** The character class `[a-z0-9]` that a slug keeps. */
  predicate IsSlugChar(c: char) {
    ('a' <= c <= 'z') || ('0' <= c <= '9')
  }

  /** ASCII lower-casing of one character. */
  function ToLower(c: char): char {
    if IsUpper(c) then (c as int + 32) as char else c
  }

  /** ASCII lower-casing of a string, character by character: no upper-case
      letter survives, each one moves 32 code points on to its lower-case letter,
      and every other character is kept in place. */
  function Lower(s: string): (r: string)
    ensures |r| == |s|
    ensures forall i :: 0 <= i < |r| ==> !IsUpper(r[i])
    ensures forall i :: 0 <= i < |s| && IsUpper(s[i]) ==> 'a' <= r[i] <= 'z' && r[i] as int == s[i] as int + 32
    ensures forall i :: 0 <= i < |s| && !IsUpper(s[i]) ==> r[i] == s[i]
  {
    seq(|s|, i requires 0 <= i < |s| => ToLower(s[i]))
  }

  /** Lower-casing is idempotent. */
  lemma LowerIdempotent(s: string)
    ensures Lower(Lower(s)) == Lower(s)
  {
  }

  /** A string made only of slug characters and `-` is its own lower-case form. */
  lemma LowerFixesSlugAlphabet(s: string)
    requires forall i :: 0 <= i < |s| ==> IsSlugChar(s[i]) || s[i] == '-'
    ensures Lower(s) == s
  {
  }
}
