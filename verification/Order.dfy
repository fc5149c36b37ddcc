/**
 Orders: the three outcomes of a comparison, sequences compared element by element and
 then by length, and sorting. `Sort` stands for a library sort: its callers know only that
 the result is ordered and holds the same elements, as an unstable sort promises.
 */
module Order {
  datatype Ordering = Less | Equal | Greater {
    /** This outcome, or `next` where this one does not decide. */
    function Then(next: Ordering): Ordering {
      if Equal? then next else this
    }

    function Reverse(): Ordering {
      match this
      case Less => Greater
      case Equal => Equal
      case Greater => Less
    }
  }

  function CompareInts(a: int, b: int): Ordering {
    if a < b then Less else if a == b then Equal else Greater
  }

  /** Element by element, then by length. */
  function Compare(a: seq<int>, b: seq<int>): Ordering {
    if a == [] then if b == [] then Equal else Less
    else if b == [] then Greater
    else CompareInts(a[0], b[0]).Then(Compare(a[1..], b[1..]))
  }

  lemma {:induction false} CompareReversed(a: seq<int>, b: seq<int>)
    ensures Compare(b, a) == Compare(a, b).Reverse()
  {
    if a != [] && b != [] {
      CompareReversed(a[1..], b[1..]);
    }
  }

  lemma {:induction false} CompareEqual(a: seq<int>, b: seq<int>)
    ensures Compare(a, b).Equal? <==> a == b
  {
    if a != [] && b != [] {
      CompareEqual(a[1..], b[1..]);
      assert a == [a[0]] + a[1..] && b == [b[0]] + b[1..];
    }
  }

  lemma {:induction false} CompareTransitive(a: seq<int>, b: seq<int>, c: seq<int>)
    requires !Compare(a, b).Greater? && !Compare(b, c).Greater?
    ensures !Compare(a, c).Greater?
    ensures Compare(a, b).Less? || Compare(b, c).Less? ==> Compare(a, c).Less?
  {
    if a != [] && b != [] && c != [] && a[0] == b[0] == c[0] {
      CompareTransitive(a[1..], b[1..], c[1..]);
    }
  }

  /** A prefix comes first. */
  lemma {:induction false} PrefixFirst(a: seq<int>, b: seq<int>)
    requires a <= b
    ensures !Compare(a, b).Greater?
    ensures a != b ==> Compare(a, b).Less?
  {
    if a != [] {
      PrefixFirst(a[1..], b[1..]);
      assert a == [a[0]] + a[1..] && b == [b[0]] + b[1..];
    }
  }

  /** What sorts between a prefix and what it is a prefix of starts with it too. */
  lemma {:induction false} PrefixBetween(p: seq<int>, a: seq<int>, b: seq<int>)
    requires p <= b && !Compare(p, a).Greater? && !Compare(a, b).Greater?
    ensures p <= a
  {
    if p != [] {
      PrefixBetween(p[1..], a[1..], b[1..]);
      assert p == [p[0]] + p[1..] && a == [a[0]] + a[1..];
    }
  }

  // ----- words written big-endian -----

  /** 256 to the `width`. */
  function Bound(width: nat): (bound: nat)
    ensures bound > 0
  {
    if width == 0 then 1 else 256 * Bound(width - 1)
  }

  /** `word` in `width` bytes, the highest first. */
  function BigEndian(word: nat, width: nat): (bytes: seq<int>)
    ensures |bytes| == width
  {
    if width == 0 then [] else BigEndian(word / 256, width - 1) + [word % 256]
  }

  /** Each word of a path in `width` bytes. */
  function Bytes(path: seq<nat>, width: nat): (bytes: seq<int>)
    ensures |bytes| == |path| * width
  {
    if path == [] then [] else BigEndian(path[0], width) + Bytes(path[1..], width)
  }

  ghost predicate Fits(path: seq<nat>, width: nat) {
    forall i :: 0 <= i < |path| ==> path[i] < Bound(width)
  }

  /** A comparison of equally long heads decides unless they are equal. */
  lemma {:induction false} CompareHeads(a: seq<int>, b: seq<int>, x: seq<int>, y: seq<int>)
    requires |a| == |b|
    ensures Compare(a + x, b + y) == Compare(a, b).Then(Compare(x, y))
  {
    if a == [] {
      assert a + x == x && b + y == y;
    } else {
      assert (a + x)[1..] == a[1..] + x && (b + y)[1..] == b[1..] + y;
      CompareHeads(a[1..], b[1..], x, y);
    }
  }

  lemma {:induction false} CompareBigEndian(a: nat, b: nat, width: nat)
    requires a < Bound(width) && b < Bound(width)
    ensures Compare(BigEndian(a, width), BigEndian(b, width)) == CompareInts(a, b)
  {
    if width > 0 {
      CompareBigEndian(a / 256, b / 256, width - 1);
      CompareHeads(BigEndian(a / 256, width - 1), BigEndian(b / 256, width - 1), [a % 256], [b % 256]);
      assert Compare([a % 256], [b % 256]) == CompareInts(a % 256, b % 256);
    }
  }

  /** Words written at one width compare as bytes the way they compare as words: two paths' bytes order
      as the paths do. */
  lemma {:induction false} CompareBytes(a: seq<nat>, b: seq<nat>, width: nat)
    requires width > 0 && Fits(a, width) && Fits(b, width)
    ensures Compare(Bytes(a, width), Bytes(b, width)) == Compare(a, b)
  {
    if a != [] && b != [] {
      CompareBigEndian(a[0], b[0], width);
      CompareHeads(BigEndian(a[0], width), BigEndian(b[0], width), Bytes(a[1..], width), Bytes(b[1..], width));
      CompareBytes(a[1..], b[1..], width);
    }
  }

  /** Two paths' bytes start with one another exactly when the paths do. */
  lemma {:induction false} PrefixBytes(a: seq<nat>, b: seq<nat>, width: nat)
    requires width > 0 && Fits(a, width) && Fits(b, width)
    ensures Bytes(a, width) <= Bytes(b, width) <==> a <= b
  {
    if a != [] && b != [] {
      var (x, y) := (BigEndian(a[0], width), BigEndian(b[0], width));
      CompareBigEndian(a[0], b[0], width);
      CompareEqual(x, y);
      PrefixHeads(x, y, Bytes(a[1..], width), Bytes(b[1..], width));
      PrefixBytes(a[1..], b[1..], width);
      assert a == [a[0]] + a[1..] && b == [b[0]] + b[1..];
      PrefixHeads([a[0]], [b[0]], a[1..], b[1..]);
    } else if a != [] {
      LongerBytes(a, width);
    }
  }

  lemma LongerBytes(a: seq<nat>, width: nat)
    requires a != [] && width > 0
    ensures |Bytes(a, width)| > 0
  {
  }

  lemma PrefixHeads<T>(a: seq<T>, b: seq<T>, x: seq<T>, y: seq<T>)
    requires |a| == |b|
    ensures a + x <= b + y <==> a == b && x <= y
  {
    if a + x <= b + y {
      assert a == (a + x)[..|a|] && b == (b + y)[..|b|];
      assert x == (a + x)[|a|..] && y == (b + y)[|b|..];
    }
  }

  // ----- sorting -----

  /** `leq` orders the elements of `among`, perhaps with ties. */
  ghost predicate Orders<T>(leq: (T, T) -> bool, among: seq<T>) {
    && (forall x, y :: x in among && y in among ==> leq(x, y) || leq(y, x))
    && (forall x, y, z :: x in among && y in among && z in among && leq(x, y) && leq(y, z) ==> leq(x, z))
  }

  /** `leq` orders the elements of `T`, perhaps with ties. */
  ghost predicate Preorder<T(!new)>(leq: (T, T) -> bool) {
    && (forall x, y :: leq(x, y) || leq(y, x))
    && (forall x, y, z :: leq(x, y) && leq(y, z) ==> leq(x, z))
  }

  lemma OrdersAny<T(!new)>(leq: (T, T) -> bool, among: seq<T>)
    requires Preorder(leq)
    ensures Orders(leq, among)
  {
  }

  ghost predicate Sorted<T>(s: seq<T>, leq: (T, T) -> bool) {
    forall i, j :: 0 <= i < j < |s| ==> leq(s[i], s[j])
  }

  lemma Total<T>(leq: (T, T) -> bool, among: seq<T>, x: T, y: T)
    requires Orders(leq, among) && x in among && y in among
    ensures leq(x, y) || leq(y, x)
  {
  }

  lemma Transitive<T>(leq: (T, T) -> bool, among: seq<T>, x: T, y: T, z: T)
    requires Orders(leq, among) && x in among && y in among && z in among && leq(x, y) && leq(y, z)
    ensures leq(x, z)
  {
  }

  method Insert<T>(ghost among: seq<T>, s: seq<T>, x: T, leq: (T, T) -> bool) returns (r: seq<T>)
    requires Orders(leq, among) && Sorted(s, leq)
    requires x in among && forall i :: 0 <= i < |s| ==> s[i] in among
    ensures Sorted(r, leq) && multiset(r) == multiset(s) + multiset{x}
    ensures forall i :: 0 <= i < |r| ==> r[i] in among
  {
    hide Orders, Sorted;
    var i := |s|;
    while i > 0 && !leq(s[i - 1], x)
      invariant 0 <= i <= |s|
      invariant forall k :: i <= k < |s| ==> leq(x, s[k])
    {
      Total(leq, among, s[i - 1], x);
      i := i - 1;
    }
    r := s[..i] + [x] + s[i..];
    assert s == s[..i] + s[i..];
    AllBelow(among, s, i, x, leq);
    InsertedSorted(s, i, x, leq);
  }

  lemma AllBelow<T>(among: seq<T>, s: seq<T>, i: nat, x: T, leq: (T, T) -> bool)
    requires Orders(leq, among) && Sorted(s, leq) && i <= |s|
    requires x in among && forall k :: 0 <= k < |s| ==> s[k] in among
    requires i > 0 ==> leq(s[i - 1], x)
    ensures forall k :: 0 <= k < i ==> leq(s[k], x)
  {
    hide Orders;
    forall k | 0 <= k < i ensures leq(s[k], x) {
      if k < i - 1 {
        Transitive(leq, among, s[k], s[i - 1], x);
      }
    }
  }

  lemma InsertedSorted<T>(s: seq<T>, i: nat, x: T, leq: (T, T) -> bool)
    requires Sorted(s, leq) && i <= |s|
    requires forall k :: 0 <= k < i ==> leq(s[k], x)
    requires forall k :: i <= k < |s| ==> leq(x, s[k])
    ensures Sorted(s[..i] + [x] + s[i..], leq)
  {
    var r := s[..i] + [x] + s[i..];
    forall a, b | 0 <= a < b < |r| ensures leq(r[a], r[b]) {
      if a < i && b < i {
        assert leq(s[a], s[b]);
      } else if a < i && b > i {
        assert leq(s[a], s[b - 1]);
      } else if a > i {
        assert leq(s[a - 1], s[b - 1]);
      }
    }
  }

  method Sort<T>(s: seq<T>, leq: (T, T) -> bool) returns (r: seq<T>)
    requires Orders(leq, s)
    ensures Sorted(r, leq) && multiset(r) == multiset(s)
  {
    hide Orders, Sorted;
    r := [];
    NothingSorted(leq);
    for n := 0 to |s|
      invariant Sorted(r, leq) && multiset(r) == multiset(s[..n])
      invariant forall i :: 0 <= i < |r| ==> r[i] in s
    {
      r := Insert(s, r, s[n], leq);
      assert s[..n + 1] == s[..n] + [s[n]];
    }
    assert s[..|s|] == s;
  }

  lemma NothingSorted<T>(leq: (T, T) -> bool)
    ensures Sorted([], leq)
  {
  }

  lemma SameElements<T>(a: seq<T>, b: seq<T>)
    requires multiset(a) == multiset(b)
    ensures |a| == |b|
    ensures forall x :: x in a <==> x in b
  {
    assert |multiset(a)| == |a| && |multiset(b)| == |b|;
    forall x ensures x in a <==> x in b {
      assert x in a <==> x in multiset(a);
      assert x in b <==> x in multiset(b);
    }
  }

  /** Where no two distinct elements tie, the sorted order is unique: every sort gives the same. */
  lemma {:induction false} SortedUnique<T>(a: seq<T>, b: seq<T>, leq: (T, T) -> bool)
    requires forall x, y :: x in a && y in a && leq(x, y) && leq(y, x) ==> x == y
    requires Sorted(a, leq) && Sorted(b, leq) && multiset(a) == multiset(b)
    ensures a == b
  {
    SameElements(a, b);
    if a != [] {
      assert a[0] in a && b[0] in b;
      LeastFirst(a, b, leq);
      Rest(a);
      Rest(b);
      RestSorted(a, leq);
      RestSorted(b, leq);
      hide Sorted;
      assert forall x :: x in a[1..] ==> x in a;
      SortedUnique(a[1..], b[1..], leq);
    }
  }

  lemma RestSorted<T>(s: seq<T>, leq: (T, T) -> bool)
    requires s != [] && Sorted(s, leq)
    ensures Sorted(s[1..], leq)
  {
  }

  lemma Rest<T>(s: seq<T>)
    requires s != []
    ensures s == [s[0]] + s[1..] && multiset(s[1..]) == multiset(s) - multiset{s[0]}
  {
    assert s == [s[0]] + s[1..];
  }

  lemma LeastFirst<T>(a: seq<T>, b: seq<T>, leq: (T, T) -> bool)
    requires a != [] && b != [] && Sorted(a, leq) && Sorted(b, leq) && a[0] in b && b[0] in a
    ensures a[0] == b[0] || (leq(a[0], b[0]) && leq(b[0], a[0]))
  {
    var i :| 0 <= i < |b| && b[i] == a[0];
    var j :| 0 <= j < |a| && a[j] == b[0];
    assert i > 0 ==> leq(b[0], b[i]);
    assert j > 0 ==> leq(a[0], a[j]);
  }
}
