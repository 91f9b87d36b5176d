/** Decimal digits as the engine reads and writes them. Only the ASCII digits
    '0'..'9' are digits here. */
module Text {

  predicate IsDigit(c: char) {
    '0' <= c <= '9'
  }

  /** The value 0..9 of a digit character. */
  function DigitValue(c: char): (n: nat)
    requires IsDigit(c)
    ensures n <= 9
  {
    (c as int) - ('0' as int)
  }

  /** The digit character of a value 0..9; the inverse of `DigitValue`. */
  function DigitChar(n: nat): (c: char)
    requires n <= 9
    ensures IsDigit(c) && DigitValue(c) == n
  {
    (('0' as int) + n) as char
  }

  lemma DigitCharOfValue(c: char)
    requires IsDigit(c)
    ensures DigitChar(DigitValue(c)) == c
  {
  }
}
