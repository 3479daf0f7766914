/** Bitmaps kept in 32-bit words. A word is the sequence of its bits, so that `w & (1 << k)` reads bit k,
    `w |= 1 << k` sets it and `w &= ~(1 << k)` clears it. */
module Bits {

  type Word32 = w: seq<bool> | |w| == 32 witness seq(32, _ => false)

  predicate HasBit(words: seq<Word32>, n: nat) {
    n / 32 < |words|
  }

  /** Bit n of the map: bit n % 32 of word n / 32. */
  predicate MapBit(words: seq<Word32>, n: nat)
    requires HasBit(words, n)
  {
    words[n / 32][n % 32]
  }

  function PutBit(words: seq<Word32>, n: nat, b: bool): (r: seq<Word32>)
    requires HasBit(words, n)
    ensures |r| == |words|
  {
    words[n / 32 := words[n / 32][n % 32 := b]]
  }

  /** Writing bit n changes bit n and no other. */
  lemma PutBitAt(words: seq<Word32>, n: nat, b: bool, m: nat)
    requires HasBit(words, n) && HasBit(words, m)
    ensures MapBit(PutBit(words, n, b), m) == if m == n then b else MapBit(words, m)
  {
    assert n == n / 32 * 32 + n % 32 && m == m / 32 * 32 + m % 32;
  }

  lemma PutBitUndo(words: seq<Word32>, n: nat, b: bool)
    requires HasBit(words, n)
    ensures PutBit(PutBit(words, n, b), n, MapBit(words, n)) == words
  {
    assert PutBit(PutBit(words, n, b), n, MapBit(words, n))[n / 32] == words[n / 32];
  }
}
