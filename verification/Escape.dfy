/**
 The escape test by words: eight bytes at a time, whether any is a control character, a quote
 or a backslash, by one subtraction whose borrows run across the lanes. The test is exact for
 every word, whatever borrows, and so for every byte string.
 */
module Escape {
  /** The bytes section 7 of RFC 8259 has a string escape. */
  predicate Escapes(byte: bv8) {
    byte < 0x20 || byte == 0x22 || byte == 0x5C
  }

  const ONES: bv64 := 0x0101_0101_0101_0101
  const HIGH: bv64 := 0x8080_8080_8080_8080

  predicate ZeroByte(word: bv64) {
    (word - ONES) & !word & HIGH != 0
  }

  predicate BelowSpace(word: bv64) {
    (word - ONES * 0x20) & !word & HIGH != 0
  }

  predicate HasByte(word: bv64, byte: bv64) {
    ZeroByte(word ^ (ONES * byte))
  }

  /** Whether some byte of a word is escaped. */
  predicate WordEscapes(word: bv64) {
    BelowSpace(word) || HasByte(word, 0x22) || HasByte(word, 0x5C)
  }

  /** Eight bytes as a word, on a machine of either byte order. */
  function WordOf(bytes: seq<bv8>, little: bool): bv64
    requires |bytes| == 8
  {
    if little then Word(bytes[0], bytes[1], bytes[2], bytes[3], bytes[4], bytes[5], bytes[6], bytes[7])
    else Word(bytes[7], bytes[6], bytes[5], bytes[4], bytes[3], bytes[2], bytes[1], bytes[0])
  }

  /** A word of bytes, the lowest first. */
  function Word(a: bv8, b: bv8, c: bv8, d: bv8, e: bv8, f: bv8, g: bv8, h: bv8): bv64 {
    (a as bv64) | ((b as bv64) << 8) | ((c as bv64) << 16) | ((d as bv64) << 24)
    | ((e as bv64) << 32) | ((f as bv64) << 40) | ((g as bv64) << 48) | ((h as bv64) << 56)
  }

  /** The `k`th byte of a word, the lowest first. */
  function Lane(word: bv64, k: nat): bv64 {
    match k
    case 0 => word & 0xFF
    case 1 => (word >> 8) & 0xFF
    case 2 => (word >> 16) & 0xFF
    case 3 => (word >> 24) & 0xFF
    case 4 => (word >> 32) & 0xFF
    case 5 => (word >> 40) & 0xFF
    case 6 => (word >> 48) & 0xFF
    case _ => (word >> 56) & 0xFF
  }

  function Widened(byte: bv8): bv64 {
    byte as bv64
  }

  predicate IsControl(lane: bv64) {
    lane < 0x20
  }

  predicate IsByte(lane: bv64, byte: bv64) {
    lane == byte
  }

  predicate HasLane(word: bv64, byte: bv64) {
    || IsByte(Lane(word, 0), byte) || IsByte(Lane(word, 1), byte) || IsByte(Lane(word, 2), byte)
       || IsByte(Lane(word, 3), byte)
    || IsByte(Lane(word, 4), byte) || IsByte(Lane(word, 5), byte) || IsByte(Lane(word, 6), byte)
       || IsByte(Lane(word, 7), byte)
  }

  predicate HasLaneBelowSpace(word: bv64) {
    || IsControl(Lane(word, 0)) || IsControl(Lane(word, 1)) || IsControl(Lane(word, 2)) || IsControl(Lane(word, 3))
    || IsControl(Lane(word, 4)) || IsControl(Lane(word, 5)) || IsControl(Lane(word, 6)) || IsControl(Lane(word, 7))
  }

  /** No borrow makes a word test miss a lane or see one that is not there. */
  lemma BelowExact(word: bv64)
    ensures BelowSpace(word) <==> HasLaneBelowSpace(word)
  {
  }

  lemma QuoteExact(word: bv64)
    ensures HasByte(word, 0x22) <==> HasLane(word, 0x22)
  {
  }

  lemma BackslashExact(word: bv64)
    ensures HasByte(word, 0x5C) <==> HasLane(word, 0x5C)
  {
  }

  lemma Lanes(a: bv8, b: bv8, c: bv8, d: bv8, e: bv8, f: bv8, g: bv8, h: bv8)
    ensures Lane(Word(a, b, c, d, e, f, g, h), 0) == Widened(a)
    ensures Lane(Word(a, b, c, d, e, f, g, h), 1) == Widened(b)
    ensures Lane(Word(a, b, c, d, e, f, g, h), 2) == Widened(c)
    ensures Lane(Word(a, b, c, d, e, f, g, h), 3) == Widened(d)
    ensures Lane(Word(a, b, c, d, e, f, g, h), 4) == Widened(e)
    ensures Lane(Word(a, b, c, d, e, f, g, h), 5) == Widened(f)
    ensures Lane(Word(a, b, c, d, e, f, g, h), 6) == Widened(g)
    ensures Lane(Word(a, b, c, d, e, f, g, h), 7) == Widened(h)
  {
  }

  lemma ByteAs(byte: bv8)
    ensures Escapes(byte) <==> IsControl(Widened(byte)) || IsByte(Widened(byte), 0x22) || IsByte(Widened(byte), 0x5C)
  {
  }

  lemma ControlLanes(a: bv8, b: bv8, c: bv8, d: bv8, e: bv8, f: bv8, g: bv8, h: bv8)
    ensures BelowSpace(Word(a, b, c, d, e, f, g, h))
            <==> || IsControl(Widened(a)) || IsControl(Widened(b)) || IsControl(Widened(c)) || IsControl(Widened(d))
                 || IsControl(Widened(e)) || IsControl(Widened(f)) || IsControl(Widened(g)) || IsControl(Widened(h))
  {
    hide BelowSpace, Word, Lane, Widened, IsControl;
    BelowExact(Word(a, b, c, d, e, f, g, h));
    Lanes(a, b, c, d, e, f, g, h);
  }

  lemma ByteLanes(a: bv8, b: bv8, c: bv8, d: bv8, e: bv8, f: bv8, g: bv8, h: bv8, byte: bv64)
    requires byte == 0x22 || byte == 0x5C
    ensures HasByte(Word(a, b, c, d, e, f, g, h), byte)
            <==> || IsByte(Widened(a), byte) || IsByte(Widened(b), byte) || IsByte(Widened(c), byte)
                    || IsByte(Widened(d), byte)
                 || IsByte(Widened(e), byte) || IsByte(Widened(f), byte) || IsByte(Widened(g), byte)
                    || IsByte(Widened(h), byte)
  {
    hide HasByte, Word, Lane, Widened, IsByte;
    QuoteExact(Word(a, b, c, d, e, f, g, h));
    BackslashExact(Word(a, b, c, d, e, f, g, h));
    Lanes(a, b, c, d, e, f, g, h);
  }

  /** The word test sees exactly the bytes to escape. */
  lemma WordExact(a: bv8, b: bv8, c: bv8, d: bv8, e: bv8, f: bv8, g: bv8, h: bv8)
    ensures WordEscapes(Word(a, b, c, d, e, f, g, h))
            <==> Escapes(a) || Escapes(b) || Escapes(c) || Escapes(d) || Escapes(e) || Escapes(f) || Escapes(g)
                 || Escapes(h)
  {
    hide BelowSpace, HasByte, Word, Widened, IsControl, IsByte, Escapes;
    ControlLanes(a, b, c, d, e, f, g, h);
    ByteLanes(a, b, c, d, e, f, g, h, 0x22);
    ByteLanes(a, b, c, d, e, f, g, h, 0x5C);
    ByteAs(a);
    ByteAs(b);
    ByteAs(c);
    ByteAs(d);
    ByteAs(e);
    ByteAs(f);
    ByteAs(g);
    ByteAs(h);
  }

  lemma ChunkExact(bytes: seq<bv8>, little: bool)
    requires |bytes| == 8
    ensures WordEscapes(WordOf(bytes, little)) <==> exists i :: 0 <= i < 8 && Escapes(bytes[i])
  {
    hide WordEscapes, Escapes, Word;
    if little {
      WordExact(bytes[0], bytes[1], bytes[2], bytes[3], bytes[4], bytes[5], bytes[6], bytes[7]);
    } else {
      WordExact(bytes[7], bytes[6], bytes[5], bytes[4], bytes[3], bytes[2], bytes[1], bytes[0]);
    }
  }

  /** Whether a string's bytes need escaping: whole words first, then the bytes left over. */
  method NeedsEscape(bytes: seq<bv8>, little: bool) returns (needs: bool)
    ensures needs <==> exists i :: 0 <= i < |bytes| && Escapes(bytes[i])
  {
    hide WordEscapes, WordOf, Escapes;
    var words := |bytes| / 8;
    for w := 0 to words
      invariant forall i :: 0 <= i < 8 * w ==> !Escapes(bytes[i])
    {
      var chunk := bytes[8 * w..8 * w + 8];
      ChunkExact(chunk, little);
      if WordEscapes(WordOf(chunk, little)) {
        var i :| 0 <= i < 8 && Escapes(chunk[i]);
        assert chunk[i] == bytes[8 * w + i];
        return true;
      }
      forall i | 8 * w <= i < 8 * w + 8 ensures !Escapes(bytes[i]) {
        assert bytes[i] == chunk[i - 8 * w];
      }
    }
    for i := 8 * words to |bytes|
      invariant forall k :: 0 <= k < i ==> !Escapes(bytes[k])
    {
      if Escapes(bytes[i]) {
        return true;
      }
    }
    return false;
  }
}
