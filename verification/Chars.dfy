/** The character classes of the Rust standard library the program relies on. */
module Chars {
  /** The Unicode White_Space property of a scalar value. */
  predicate IsWhiteScalar(u: int) {
    || 0x09 <= u <= 0x0D || u == 0x20 || u == 0x85 || u == 0xA0 || u == 0x1680
    || 0x2000 <= u <= 0x200A || u == 0x2028 || u == 0x2029 || u == 0x202F || u == 0x205F || u == 0x3000
  }

  /** `char::is_whitespace`. */
  predicate IsWhitespace(c: char) {
    IsWhiteScalar(c as int)
  }

  /** `s.trim().is_empty()`. */
  predicate IsBlank(s: string) {
    forall i :: 0 <= i < |s| ==> IsWhitespace(s[i])
  }

  /** `trim_start`. */
  function Trimmed(s: string): (r: string)
    ensures |r| <= |s|
    ensures r != "" ==> !IsWhitespace(r[0])
  {
    if s != "" && IsWhitespace(s[0]) then Trimmed(s[1..]) else s
  }

  predicate IsDigit(c: char) {
    '0' <= c <= '9'
  }
}
