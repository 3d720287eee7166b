/** Character classes shared by the Python script and the TypeScript helpers. */
module Ascii {
  /** An ASCII decimal digit: what `\d` matches in the script and what a JavaScript number renders as. */
  predicate IsDigit(c: char) {
    '0' <= c <= '9'
  }
}
