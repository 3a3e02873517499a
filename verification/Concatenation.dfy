/** Concatenation of byte strings, as several parsers need it. */
module Concatenation {

  lemma Associates(a: string, b: string, c: string)
    ensures (a + b) + c == a + (b + c)
  {
  }
}
