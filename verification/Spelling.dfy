/** The characters that digits are written with, and the number that digits spell. */
module Spelling {
  const DIGITS: string := "0123456789"
  const UPPER: string := "ABCDEFGHIJKLMNOPQRSTUVWXYZ"
  const LOWER: string := "abcdefghijklmnopqrstuvwxyz"

  /** The characters are consecutive in ASCII. */
  lemma DigitAt(c: int)
    ensures |DIGITS| == 10 && (0 <= c < 10 ==> DIGITS[c] as int == 48 + c)
  {
  }

  lemma UpperAt(c: int)
    ensures |UPPER| == 26 && (0 <= c < 26 ==> UPPER[c] as int == 65 + c)
  {
  }

  lemma LowerAt(c: int)
    ensures |LOWER| == 26 && (0 <= c < 26 ==> LOWER[c] as int == 97 + c)
  {
  }

  /** The number that digits spell in base b, most significant first. */
  function Spelled(ds: seq<int>, b: nat): int {
    if ds == [] then 0 else Spelled(ds[..|ds| - 1], b) * b + ds[|ds| - 1]
  }
}
