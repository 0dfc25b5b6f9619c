/** Bytes, the ASCII classes the identifiers are made of, and Unicode white space. */
module Ascii {

  type byte = x: int | 0 <= x < 256

  datatype CharacterClass = Digit | Letter | Alphanumeric

  predicate IsDigit(b: byte) {
    48 <= b <= 57
  }

  predicate IsUpper(b: byte) {
    65 <= b <= 90
  }

  predicate InClass(b: byte, cls: CharacterClass) {
    match cls
    case Digit => IsDigit(b)
    case Letter => IsUpper(b)
    case Alphanumeric => IsDigit(b) || IsUpper(b)
  }

  predicate IsAscii(c: char) {
    c as int < 128
  }

  /** `char::to_ascii_uppercase`: only a-z change. */
  function ToUpper(c: char): char {
    if 'a' <= c <= 'z' then (c as int - 32) as char else c
  }

  /** `char::is_whitespace`: the Unicode White_Space property. */
  predicate IsWhitespace(c: char) {
    || '\t' <= c <= '\r'
    || c == ' '
    || c == '\U{85}'
    || c == '\U{A0}'
    || c == '\U{1680}'
    || '\U{2000}' <= c <= '\U{200A}'
    || c == '\U{2028}'
    || c == '\U{2029}'
    || c == '\U{202F}'
    || c == '\U{205F}'
    || c == '\U{3000}'
  }

  /** The ASCII text of a byte sequence. */
  function Text(bytes: seq<byte>): (s: string)
    ensures |s| == |bytes|
    ensures forall i | 0 <= i < |s| :: s[i] as int == bytes[i]
  {
    seq(|bytes|, i requires 0 <= i < |bytes| => bytes[i] as char)
  }
}
