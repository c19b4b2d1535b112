/**
 * The ASCII part of JavaScript's `toUpperCase`/`toLowerCase`, and the
 * characters a regular expression's `.` does not match.
 */
module Ascii {

  predicate IsUpper(c: char) {
    'A' <= c <= 'Z'
  }

  predicate IsLower(c: char) {
    'a' <= c <= 'z'
  }

  function ToUpper(c: char): (d: char)
    ensures IsLower(c) ==> IsUpper(d) && d as int == c as int - 32
    ensures !IsLower(c) ==> d == c
  {
    if IsLower(c) then (c as int - 32) as char else c
  }

  function ToLower(c: char): (d: char)
    ensures IsUpper(c) ==> IsLower(d) && d as int == c as int + 32
    ensures !IsUpper(c) ==> d == c
  {
    if IsUpper(c) then (c as int + 32) as char else c
  }

  /** Lower-cases every character of `s`. */
  function LowerString(s: string): (t: string)
    ensures |t| == |s|
    ensures forall i :: 0 <= i < |s| ==> t[i] == ToLower(s[i])
  {
    if s == [] then [] else [ToLower(s[0])] + LowerString(s[1..])
  }

  /** The line terminators of ECMAScript, which `.` in a regular expression does not match. */
  predicate IsLineTerminator(c: char) {
    c == '\n' || c == '\r' || c == '\U{2028}' || c == '\U{2029}'
  }

  /** Lower-casing undoes upper-casing on everything that is not already an upper-case letter. */
  lemma LowerOfUpper(c: char)
    requires !IsUpper(c)
    ensures ToLower(ToUpper(c)) == c
  {
  }

  /** Upper-casing undoes lower-casing on everything that is not already a lower-case letter. */
  lemma UpperOfLower(c: char)
    requires !IsLower(c)
    ensures ToUpper(ToLower(c)) == c
  {
  }
}
