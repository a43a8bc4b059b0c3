/** Character classes shared by the year key and the email rule. */
module Chars {

  /** `\d` and `0-9`: the ASCII digits only. */
  predicate IsDigit(c: char)
  {
    '0' <= c <= '9'
  }
}
