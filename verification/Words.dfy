/**
 Sixty-four bit words: where the program's arithmetic saturates, so does `Saturated`.
 */
module Words {
  const MAX_WORD: int := 0xFFFF_FFFF_FFFF_FFFF

  type Word = n: int | 0 <= n <= MAX_WORD

  function Saturated(n: nat): Word {
    if n <= MAX_WORD then n else MAX_WORD
  }

  function SaturatingAdd(a: Word, b: Word): Word {
    if a + b <= MAX_WORD then a + b else MAX_WORD
  }

  /** Adding to a sum saturated so far is saturating the sum. */
  lemma SaturatesLater(a: nat, b: Word)
    ensures SaturatingAdd(Saturated(a), b) == Saturated(a + b)
  {
  }
}
