/** Texts made of one character repeated: the blanks and tabs detab and
    entab write, and the runs of backslashes the validator counts. */
module Repetition {

  /** `n` copies of `c`. */
  function Repeat(c: char, n: nat): (r: seq<char>)
    ensures |r| == n
    ensures forall k :: 0 <= k < n ==> r[k] == c
  {
    if n == 0 then [] else Repeat(c, n - 1) + [c]
  }
}
