/** The Bean Validation constraints the request records use, as predicates on values. */
module Constraints {

  /** A character `String.trim()` removes: every code point up to U+0020. */
  predicate IsBlankChar(c: char) {
    c <= ' '
  }

  /** `@NotBlank` on a non-null string: some character survives trimming. */
  predicate NotBlank(s: string) {
    exists i :: 0 <= i < |s| && !IsBlankChar(s[i])
  }

  predicate IsAsciiLetter(c: char) {
    'A' <= c <= 'Z' || 'a' <= c <= 'z'
  }

  predicate IsAsciiDigit(c: char) {
    '0' <= c <= '9'
  }

  /** The class `[A-Za-z0-9-]`. */
  predicate IsPlateChar(c: char) {
    IsAsciiLetter(c) || IsAsciiDigit(c) || c == '-'
  }

  /** `@Pattern(regexp = "^[A-Za-z0-9-]+$")`: the whole string matches. */
  predicate MatchesPlatePattern(s: string) {
    |s| >= 1 && forall i :: 0 <= i < |s| ==> IsPlateChar(s[i])
  }

  /** The class `[A-Za-z ]`. */
  predicate IsOwnerChar(c: char) {
    IsAsciiLetter(c) || c == ' '
  }

  /** `@Pattern(regexp = "^[A-Za-z ]+$")`: the whole string matches. */
  predicate MatchesOwnerPattern(s: string) {
    |s| >= 1 && forall i :: 0 <= i < |s| ==> IsOwnerChar(s[i])
  }

  /** `@Size(max = n)` on a string. */
  predicate SizeAtMost(s: string, n: nat) {
    |s| <= n
  }

  /** `@Min(n)` on an integer. */
  predicate AtLeast(x: int, n: int) {
    x >= n
  }
}
