/** What several of the models share: optional values, 32-bit words, and a few facts about
    multiplication and rounding division. */
module Basics {

  datatype Option<+T> = None | Some(value: T)

  const WORD: nat := 0x1_0000_0000

  /** The value a 32-bit unsigned word takes when x is assigned to it. */
  function Wrap(x: int): (r: nat)
    ensures r < WORD && (x - r) % WORD == 0
  {
    if 0 <= x < WORD then x else x % WORD
  }

  lemma MulLe(a: int, b: int, m: nat)
    requires a <= b
    ensures a * m <= b * m
  {
  }

  lemma MulSucc(a: int, m: int)
    ensures (a + 1) * m == a * m + m
  {
  }

  /** A rounded-down quotient reaches k exactly if the dividend reaches k times the divisor. */
  lemma FloorAtLeast(a: nat, d: nat, k: nat)
    requires 1 <= d
    ensures a / d >= k <==> a >= k * d
  {
    assert a == d * (a / d) + a % d;
    if a / d >= k {
      MulLe(k, a / d, d);
    } else {
      MulLe(a / d + 1, k, d);
    }
  }
}

/** C strings: a text without its terminator, which is what reading at its end gives. */
module CText {

  const NUL: char := 0 as char

  predicate CString(s: string) { forall i :: 0 <= i < |s| ==> s[i] != NUL }

  /** The character at i, the terminator at the end; nothing further may be read. */
  function At(s: string, i: nat): char
    requires i <= |s|
  {
    if i < |s| then s[i] else NUL
  }
}
