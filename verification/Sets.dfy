/**
 A binary fuse filter read from bytes a client sent: the header's few conditions, checked once,
 bound every lookup of every hash. The three places a lookup reads lie in three consecutive
 segments, so they are distinct and inside the fingerprints.
 */
module Sets {
  import opened Wrappers
  import opened Order
  import opened Arithmetic
  import opened Bits

  const WORD := 0x1_0000_0000_0000_0000
  const MAX_SEGMENT_LENGTH := 0x4_0000
  const HEADER_BYTES := 20

  /** 2 to the 18th and to the 32nd. */
  const SHIFT_18 := 0x4_0000
  const SHIFT_32 := 0x1_0000_0000

  // ----- the structure -----

  /** `length`, `mask` and `count` are the header's L, M and N. */
  datatype Fuse8 = Fuse8(seed: nat, length: nat, mask: nat, count: nat, fingerprints: seq<nat>)

  predicate Sound(length: nat, mask: nat, count: nat, fingerprints: nat) {
    && IsPowerOfTwo(length) && length <= MAX_SEGMENT_LENGTH && mask == length - 1
    && count > 0 && count % length == 0 && fingerprints >= count + 2 * length
  }

  ghost predicate AreBytes(bytes: seq<nat>) {
    forall i :: 0 <= i < |bytes| ==> bytes[i] < 256
  }

  /** A little-endian number of `n` bytes. */
  function Read(bytes: seq<nat>, at: nat, n: nat): (number: nat)
    requires at + n <= |bytes|
    ensures AreBytes(bytes) ==> number < Bound(n)
    decreases n
  {
    if n == 0 then 0 else bytes[at] + 256 * Read(bytes, at + 1, n - 1)
  }

  /** The bytes are a header, at its own offsets, and the fingerprints after it. */
  ghost predicate Holds(bytes: seq<nat>, fuse: Fuse8) {
    && |bytes| >= HEADER_BYTES && fuse.fingerprints == bytes[HEADER_BYTES..]
    && fuse.seed == Read(bytes, 0, 8) && fuse.length == Read(bytes, 8, 4) && fuse.mask == Read(bytes, 12, 4)
    && fuse.count == Read(bytes, 16, 4)
  }

  /** 2 to the `k`th. */
  function Pow2(k: nat): nat {
    if k == 0 then 1 else 2 * Pow2(k - 1)
  }

  /** Segments of 2 to the `k`th, 18 at most, are counted, and the fingerprints fill those and two more. */
  predicate Segmented(k: nat, segments: nat, length: nat, mask: nat, count: nat, fingerprints: nat) {
    && k <= 18 && length == Pow2(k) && mask + 1 == length
    && segments > 0 && count == segments * length && fingerprints >= (segments + 2) * length
  }

  lemma SoundExactly(length: nat, mask: nat, count: nat, fingerprints: nat)
    ensures Sound(length, mask, count, fingerprints)
            <==> exists k: nat, segments: nat :: Segmented(k, segments, length, mask, count, fingerprints)
  {
    hide IsPowerOfTwo, Pow2;
    if Sound(length, mask, count, fingerprints) {
      var (k, segments) := (Exponent(length), count / length);
      PowersAscend(k);
      assert count == segments * length;
      assert (segments + 2) * length == segments * length + 2 * length;
      assert Segmented(k, segments, length, mask, count, fingerprints);
    }
    forall k: nat, segments: nat | Segmented(k, segments, length, mask, count, fingerprints)
      ensures Sound(length, mask, count, fingerprints)
    {
      PowerOfTwo(k);
      PowersAscend(k);
      Quotient(count, length, segments);
      assert (segments + 2) * length == segments * length + 2 * length;
      Apart(0, segments, length);
    }
  }

  function Exponent(length: nat): (k: nat)
    requires IsPowerOfTwo(length)
    ensures Pow2(k) == length
  {
    if length == 1 then 0 else 1 + Exponent(length / 2)
  }

  lemma {:induction false} PowerOfTwo(k: nat)
    ensures IsPowerOfTwo(Pow2(k)) && Pow2(k) > 0
  {
    if k > 0 {
      PowerOfTwo(k - 1);
      assert Pow2(k) / 2 == Pow2(k - 1) && Pow2(k) % 2 == 0;
    }
  }

  lemma {:induction false} PowersAscend(k: nat)
    ensures k <= 18 <==> Pow2(k) <= MAX_SEGMENT_LENGTH
  {
    assert Pow2(18) == MAX_SEGMENT_LENGTH by {
      assert Pow2(6) == 64;
      assert Pow2(12) == 4096;
    }
    PowersOrder(k, 18);
    PowersOrder(19, k);
    assert Pow2(19) == 2 * Pow2(18);
  }

  lemma {:induction false} PowersOrder(k: nat, l: nat)
    ensures k <= l ==> Pow2(k) <= Pow2(l)
    decreases l
  {
    if k < l {
      PowersOrder(k, l - 1);
    }
  }

  /** The number's lowest byte comes first. */
  lemma {:induction false} LowestFirst(bytes: seq<nat>, at: nat, n: nat, k: nat)
    requires AreBytes(bytes) && at + n <= |bytes| && k < n
    ensures |BigEndian(Read(bytes, at, n), n)| == n && BigEndian(Read(bytes, at, n), n)[n - 1 - k] == bytes[at + k]
    decreases n
  {
    if k > 0 {
      LowestFirst(bytes, at + 1, n - 1, k - 1);
    }
  }

  /** The structure the bytes hold; none exactly where the header is cut short or unsound. Its numbers are of 32
      bits. */
  function FromBytes(bytes: seq<nat>): (fuse: Option<Fuse8>)
    ensures fuse.Some? ==> Holds(bytes, fuse.value)
    ensures fuse.Some? ==> Sound(fuse.value.length, fuse.value.mask, fuse.value.count, |fuse.value.fingerprints|)
    ensures fuse.Some? && AreBytes(bytes) ==> fuse.value.count < SHIFT_32
    ensures fuse.None? ==> forall held :: Holds(bytes, held) ==>
                             !Sound(held.length, held.mask, held.count, |held.fingerprints|)
  {
    FourBytes();
    if |bytes| < HEADER_BYTES then None
    else
      var (length, mask, count) := (Read(bytes, 8, 4), Read(bytes, 12, 4), Read(bytes, 16, 4));
      var fingerprints := bytes[HEADER_BYTES..];
      if Sound(length, mask, count, |fingerprints|)
      then Some(Fuse8(Read(bytes, 0, 8), length, mask, count, fingerprints)) else None
  }

  lemma FourBytes()
    ensures Bound(4) == SHIFT_32
  {
    assert Bound(2) == 65536;
    assert Bound(4) == 256 * (256 * Bound(2));
  }

  function Index0(count: nat, hash: nat): nat {
    hash * count / WORD
  }

  function Index1(length: nat, mask: nat, count: nat, hash: nat): nat {
    Xor(Index0(count, hash) + length, And(hash / SHIFT_18, mask))
  }

  function Index2(length: nat, mask: nat, count: nat, hash: nat): nat {
    Xor(Index0(count, hash) + 2 * length, And(hash, mask))
  }

  lemma FirstBelow(count: nat, hash: nat)
    requires hash < WORD && count > 0
    ensures Index0(count, hash) < count
  {
    Apart(hash, WORD, count);
    assert hash * count < WORD * count;
    BelowQuotient(hash * count, WORD, count);
  }

  lemma BelowQuotient(n: nat, m: nat, q: nat)
    requires m > 0 && n < m * q
    ensures n / m < q
  {
    var d := n / m;
    if d >= q {
      assert d * m >= q * m by {
        if d > q {
          Apart(q, d, m);
        }
      }
    }
  }

  /** What the three places are: the hash scaled down to the count, and, in the two segments that follow, that place
      with the hash's bits from the eighteenth on, and its lowest, flipped. */
  lemma PlacesAre(length: nat, mask: nat, count: nat, fingerprints: nat, hash: nat)
    requires Sound(length, mask, count, fingerprints) && hash < WORD
    ensures var i := Index0(count, hash);
            && i * WORD <= hash * count < i * WORD + WORD
            && Index1(length, mask, count, hash)
               == (i / length + 1) * length + Xor(i % length, hash / SHIFT_18 % length)
            && Index2(length, mask, count, hash) == (i / length + 2) * length + Xor(i % length, hash % length)
  {
    hide Xor, And, IsPowerOfTwo, Index0;
    var i := Index0(count, hash);
    ScaledDown(count, hash);
    MaskIsRemainder(hash / SHIFT_18, length);
    MaskIsRemainder(hash, length);
    FlippedInSegment(i, 1, hash / SHIFT_18 % length, length);
    FlippedInSegment(i, 2, hash % length, length);
  }

  lemma ScaledDown(count: nat, hash: nat)
    ensures Index0(count, hash) * WORD <= hash * count < Index0(count, hash) * WORD + WORD
  {
  }

  lemma FlippedInSegment(i: nat, steps: nat, flipped: nat, length: nat)
    requires IsPowerOfTwo(length) && flipped < length
    ensures Xor(i + steps * length, flipped) == (i / length + steps) * length + Xor(i % length, flipped)
  {
    hide Xor, IsPowerOfTwo;
    var place := Xor(i + steps * length, flipped);
    NextSegment(i, length, steps);
    ModuloAdds(i, steps, length);
    XorKeepsSegment(i + steps * length, flipped, length);
    XorInSegment(i + steps * length, flipped, length);
    assert place == place / length * length + place % length;
  }

  /** Every lookup of a sound structure reads three consecutive segments: distinct places below N + 2L. */
  lemma LookupsBounded(length: nat, mask: nat, count: nat, fingerprints: nat, hash: nat)
    requires Sound(length, mask, count, fingerprints) && hash < WORD
    ensures var (i, j, k) := (Index0(count, hash), Index1(length, mask, count, hash),
                              Index2(length, mask, count, hash));
            && j / length == i / length + 1 && k / length == i / length + 2
            && i != j && j != k && i != k
            && i < count && j < count + length && k < count + 2 * length <= fingerprints
  {
    hide Xor, And, IsPowerOfTwo, Index0;
    var i := Index0(count, hash);
    FirstBelow(count, hash);
    XorKeepsSegment(i + length, And(hash / SHIFT_18, mask), length);
    XorKeepsSegment(i + 2 * length, And(hash, mask), length);
    NextSegment(i, length, 1);
    NextSegment(i, length, 2);
    SegmentBelow(i, length, count, i / length, 0);
    SegmentBelow(i, length, count, i / length, 1);
    SegmentBelow(i, length, count, i / length, 2);
    InSegment(Index1(length, mask, count, hash), length, i / length + 1);
    InSegment(Index2(length, mask, count, hash), length, i / length + 2);
  }

  lemma NextSegment(i: nat, length: nat, steps: nat)
    requires length > 0
    ensures (i + steps * length) / length == i / length + steps
  {
    var (q, r) := (i / length, i % length);
    assert i == q * length + r;
    assert i + steps * length == (q + steps) * length + r;
    Quotient(i + steps * length, length, q + steps);
  }

  /** A segment of an index below the count, and those that follow it, end within as many segments past the count. */
  lemma SegmentBelow(i: nat, length: nat, count: nat, segment: nat, steps: nat)
    requires length > 0 && i < count && count % length == 0 && segment == i / length
    ensures (segment + steps) * length + length <= count + steps * length
  {
    var n := count / length;
    assert count == n * length;
    BelowQuotient(i, length, n);
    if segment + 1 < n {
      Apart(segment + 1, n, length);
    }
    assert (segment + 1) * length == segment * length + length;
    assert (segment + steps) * length == segment * length + steps * length;
  }

  lemma InSegment(i: nat, length: nat, segment: nat)
    requires length > 0 && i / length == segment
    ensures segment * length <= i < segment * length + length
  {
  }

  /** No sum of a lookup overflows a word, whatever bytes the structure was read from. */
  lemma NoOverflow(bytes: seq<nat>, hash: nat)
    requires AreBytes(bytes) && FromBytes(bytes).Some? && hash < WORD
    ensures var fuse := FromBytes(bytes).value; Index0(fuse.count, hash) + 2 * fuse.length < WORD
  {
    hide Index0;
    FirstBelow(FromBytes(bytes).value.count, hash);
  }

  /** Whether a value with this hash passes: its fingerprint is the exclusive or of the three read. */
  method Contains(fuse: Fuse8, hash: nat) returns (passes: bool)
    requires Sound(fuse.length, fuse.mask, fuse.count, |fuse.fingerprints|) && hash < WORD
    ensures Index2(fuse.length, fuse.mask, fuse.count, hash) < |fuse.fingerprints|
    ensures Index1(fuse.length, fuse.mask, fuse.count, hash) < |fuse.fingerprints|
    ensures Index0(fuse.count, hash) < |fuse.fingerprints|
    ensures passes <==>
              Xor(hash, hash / SHIFT_32) % 256
              == Xor(Xor(fuse.fingerprints[Index0(fuse.count, hash)],
                         fuse.fingerprints[Index1(fuse.length, fuse.mask, fuse.count, hash)]),
                     fuse.fingerprints[Index2(fuse.length, fuse.mask, fuse.count, hash)])
  {
    hide Xor, And, Sound, Index0, Index1, Index2;
    LookupsBounded(fuse.length, fuse.mask, fuse.count, |fuse.fingerprints|, hash);
    var i := Index0(fuse.count, hash);
    var j := Index1(fuse.length, fuse.mask, fuse.count, hash);
    var k := Index2(fuse.length, fuse.mask, fuse.count, hash);
    BoundedBy(fuse, i, j, k);
    var fingerprint := Xor(hash, hash / SHIFT_32) % 256;
    var (a, b, c) := (fuse.fingerprints[i], fuse.fingerprints[j], fuse.fingerprints[k]);
    XorCancels(fingerprint, a, b, c);
    return Xor(Xor(Xor(fingerprint, a), b), c) == 0;
  }

  lemma BoundedBy(fuse: Fuse8, i: nat, j: nat, k: nat)
    requires Sound(fuse.length, fuse.mask, fuse.count, |fuse.fingerprints|)
    requires i < fuse.count && j < fuse.count + fuse.length && k < fuse.count + 2 * fuse.length
    ensures i < |fuse.fingerprints| && j < |fuse.fingerprints| && k < |fuse.fingerprints|
  {
  }

  lemma XorCancels(f: nat, a: nat, b: nat, c: nat)
    ensures Xor(Xor(Xor(f, a), b), c) == 0 <==> f == Xor(Xor(a, b), c)
  {
    hide Xor;
    XorAssociates(f, a, b);
    XorAssociates(f, Xor(a, b), c);
    XorZero(f, Xor(Xor(a, b), c));
  }

  /** Without a power of two, a lookup can read past the fingerprints the other conditions ask for. */
  lemma OddLengthOverruns()
    ensures var (length, mask, count, hash) := (3, 2, 3, WORD - 1);
            !IsPowerOfTwo(length) && mask == length - 1 && count % length == 0
            && Index2(length, mask, count, hash) >= count + 2 * length
  {
    assert Index0(3, WORD - 1) == 2;
    assert And(WORD - 1, 2) == 2 by {
      assert And((WORD - 1) / 2, 1) == 1 + 2 * And((WORD - 1) / 4, 0);
    }
    assert Xor(8, 2) == 10 by {
      assert Xor(4, 1) == 5 by {
        assert Xor(2, 0) == 2;
      }
    }
  }
}
