/**
 A finite set of words in ascending order.
 */
module Ascending {
  import opened Words
  import opened Order

  function Greatest(s: set<Word>): (greatest: Word)
    requires s != {}
    ensures greatest in s && Below(s, greatest)
  {
    assert exists greatest :: greatest in s && Below(s, greatest) by {
      var greatest := GreatestExists(s);
    }
    var greatest :| greatest in s && Below(s, greatest);
    greatest
  }

  /** No element of `s` is above `bound`. */
  predicate Below(s: set<Word>, bound: Word) {
    forall x :: x in s ==> x <= bound
  }

  lemma {:induction false} GreatestExists(s: set<Word>) returns (greatest: Word)
    requires s != {}
    ensures greatest in s && Below(s, greatest)
  {
    var x :| x in s;
    var rest := s - {x};
    if rest == {} {
      assert s == {x};
      greatest := x;
    } else {
      var y := GreatestExists(rest);
      greatest := if x < y then y else x;
      assert forall z :: z in s ==> z in rest || z == x;
    }
  }

  function Ascend(s: set<Word>): (blocks: seq<Word>)
    ensures |blocks| == |s|
    ensures forall x :: x in blocks <==> x in s
  {
    if s == {} then [] else Ascend(s - {Greatest(s)}) + [Greatest(s)]
  }

  ghost predicate Rises(blocks: seq<Word>) {
    forall i, j :: 0 <= i < j < |blocks| ==> blocks[i] < blocks[j]
  }

  lemma {:induction false} AscendRises(s: set<Word>)
    ensures Rises(Ascend(s))
  {
    if s != {} {
      var rest := s - {Greatest(s)};
      AscendRises(rest);
      forall i | 0 <= i < |Ascend(rest)| ensures Ascend(rest)[i] < Greatest(s) {
        assert Ascend(rest)[i] in Ascend(rest);
      }
    }
  }

  /** What rises and holds the set's elements is the set in ascending order. */
  lemma {:induction false} RisingIsAscend(blocks: seq<Word>, s: set<Word>)
    requires Rises(blocks) && forall x :: x in blocks <==> x in s
    ensures blocks == Ascend(s)
  {
    if blocks == [] {
      assert s == {};
    } else {
      var (before, last) := (blocks[..|blocks| - 1], blocks[|blocks| - 1]);
      assert last in blocks;
      assert Greatest(s) in blocks;
      assert blocks == before + [last];
      forall x ensures x in before <==> x in s - {last} {
        if x in before {
          assert x in blocks;
        }
      }
      RisingIsAscend(before, s - {last});
    }
  }

  lemma RisesApart(a: seq<Word>, b: seq<Word>)
    requires Rises(a) && Rises(b) && forall x, y :: x in a && y in b ==> x < y
    ensures Rises(a + b)
  {
    var both := a + b;
    forall i, j | 0 <= i < j < |both| ensures both[i] < both[j] {
      if i < |a| <= j {
        assert a[i] in a && b[j - |a|] in b;
      }
    }
  }

  /** A set below another comes before it. */
  lemma AscendApart(a: set<Word>, b: set<Word>)
    requires forall x, y :: x in a && y in b ==> x < y
    ensures Ascend(a + b) == Ascend(a) + Ascend(b)
  {
    hide Ascend, Rises;
    AscendRises(a);
    AscendRises(b);
    RisesApart(Ascend(a), Ascend(b));
    RisingIsAscend(Ascend(a) + Ascend(b), a + b);
  }

  function AtMost(): (Word, Word) -> bool {
    (a, b) => a <= b
  }

  /** A set collected and sorted. */
  method Collected(s: set<Word>) returns (blocks: seq<Word>)
    ensures blocks == Ascend(s)
  {
    var unsorted: seq<Word> := [];
    var left := s;
    while left != {}
      invariant left <= s && forall x :: x in unsorted <==> x in s && x !in left
      invariant multiset(unsorted) == multiset(s - left)
      decreases |left|
    {
      var x :| x in left;
      assert s - (left - {x}) == (s - left) + {x};
      left := left - {x};
      unsorted := unsorted + [x];
    }
    assert s - left == s;
    OrdersAny(AtMost(), unsorted);
    blocks := Sort(unsorted, AtMost());
    SameElements(blocks, unsorted);
    SortedRises(blocks, s);
    RisingIsAscend(blocks, s);
  }

  lemma {:induction false} SortedRises(blocks: seq<Word>, s: set<Word>)
    requires Sorted(blocks, AtMost()) && multiset(blocks) == multiset(s)
    ensures Rises(blocks)
  {
    forall i, j | 0 <= i < j < |blocks| ensures blocks[i] < blocks[j] {
      assert AtMost()(blocks[i], blocks[j]);
      if blocks[i] == blocks[j] {
        CountedTwice(blocks, i, j);
      }
    }
  }

  lemma CountedTwice<T>(s: seq<T>, i: nat, j: nat)
    requires i < j < |s| && s[i] == s[j]
    ensures multiset(s)[s[i]] >= 2
  {
    var rest := s[..i] + s[i + 1..];
    assert s == s[..i] + [s[i]] + s[i + 1..];
    assert rest[j - 1] == s[j];
    assert multiset(s) == multiset(rest) + multiset{s[i]};
    assert s[j] in rest;
  }
}
