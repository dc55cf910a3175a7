/**
 Character classification and case mapping of the C library in the "C"
 locale: only the 26 ASCII letters of each case are letters, and
 `tolower`/`toupper` change nothing else. Every other character, including
 every non-ASCII one, is neither upper nor lower case and is left as it is.
 */
module Ascii {

  /** `std::isupper` in the "C" locale. */
  predicate IsUpper(c: char) {
    'A' <= c <= 'Z'
  }

  /** `std::islower` in the "C" locale. */
  predicate IsLower(c: char) {
    'a' <= c <= 'z'
  }

  /** `std::isdigit`. */
  predicate IsDigit(c: char) {
    '0' <= c <= '9'
  }

  /** `std::tolower` in the "C" locale. */
  function ToLower(c: char): (r: char)
    ensures !IsUpper(r)
    ensures IsUpper(c) <==> IsLower(r) && r != c
    ensures IsUpper(c) ==> r as int == c as int + 32
    ensures !IsUpper(c) ==> r == c
  {
    if IsUpper(c) then (c as int + 32) as char else c
  }

  /** `std::toupper` in the "C" locale. */
  function ToUpper(c: char): (r: char)
    ensures !IsLower(r)
    ensures IsLower(c) <==> IsUpper(r) && r != c
    ensures IsLower(c) ==> r as int == c as int - 32
    ensures !IsLower(c) ==> r == c
  {
    if IsLower(c) then (c as int - 32) as char else c
  }

  /** Upper- and lower-casing undo each other on letters: every letter has exactly one counterpart. */
  lemma CaseRoundTrip(c: char)
    ensures IsUpper(c) ==> ToUpper(ToLower(c)) == c
    ensures IsLower(c) ==> ToLower(ToUpper(c)) == c
  {
  }

  /** `absl::AsciiStrToUpper`: upper-cases every ASCII letter of `s`. */
  function StrToUpper(s: string): (r: string)
    ensures |r| == |s|
    ensures forall i :: 0 <= i < |s| ==> r[i] == ToUpper(s[i])
  {
    seq(|s|, i requires 0 <= i < |s| => ToUpper(s[i]))
  }

  /** True when `s` holds no upper-case ASCII letter. */
  predicate NoUpper(s: string) {
    forall i :: 0 <= i < |s| ==> !IsUpper(s[i])
  }
}
