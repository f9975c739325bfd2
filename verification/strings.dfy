/** Substrings of the JavaScript strings the engine handles. */
module Strings {

  /** `m` occurs in `s` at some position. */
  predicate IsSubstring(m: string, s: string)
  {
    exists i, j :: 0 <= i <= j <= |s| && s[i..j] == m
  }
}
