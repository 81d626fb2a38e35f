/**
 * Character classes of Python's `re` module, restricted to the ASCII text the
 * transcript parser sees once every line has been transliterated to ASCII.
 */
module Chars {

  /** `\d` */
  predicate IsDigit(c: char) {
    '0' <= c <= '9'
  }

  /** The value `int()` gives a single decimal digit. */
  function DigitValue(c: char): (v: nat)
    requires IsDigit(c)
    ensures v <= 9
  {
    c as int - '0' as int
  }

  /** `\w`: letters, digits and the underscore. */
  predicate IsWordChar(c: char) {
    ('a' <= c <= 'z') || ('A' <= c <= 'Z') || IsDigit(c) || c == '_'
  }

  /** `\s`: the characters `str.isspace()` accepts among ASCII, including the separators 0x1c-0x1f. */
  predicate IsSpace(c: char) {
    c == ' ' || ('\t' <= c <= '\r') || ('\U{1C}' <= c <= '\U{1F}')
  }

  /** `c.lower() == "p"` */
  predicate LowersToP(c: char) {
    c == 'p' || c == 'P'
  }
}
