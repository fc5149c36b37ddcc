/**
 The lookups among one group's paths. By binary search: a target's parents are among its
 prefixes, its descendants sort right after it. By hash: a prefix of the target among the
 exact index, or the target itself among the prefix index.
 */
module AddressSearch {
  import opened Order
  import opened Addresses
  import opened AddressLookup

  /** The first path of the range that does not sort before `target`. */
  method PartitionPoint(table: Table, g: nat, target: Path) returns (first: nat)
    requires table.Valid() && g < |table.ranges|
    ensures table.ranges[g].from <= first <= table.ranges[g].to
    ensures forall k :: table.ranges[g].from <= k < first ==> Compare(Nth(table.elements, table.paths, k), target).Less?
    ensures forall k :: first <= k < table.ranges[g].to ==> !Compare(Nth(table.elements, table.paths, k), target).Less?
  {
    hide Compare, Nth;
    var (low, high) := (table.ranges[g].from, table.ranges[g].to);
    while low < high
      invariant table.ranges[g].from <= low <= high <= table.ranges[g].to
      invariant forall k :: table.ranges[g].from <= k < low ==>
                  Compare(Nth(table.elements, table.paths, k), target).Less?
      invariant forall k :: high <= k < table.ranges[g].to ==>
                  !Compare(Nth(table.elements, table.paths, k), target).Less?
    {
      var middle := (low + high) / 2;
      if Compare(Nth(table.elements, table.paths, middle), target).Less? {
        forall k | table.ranges[g].from <= k < middle
          ensures Compare(Nth(table.elements, table.paths, k), target).Less?
        {
          CompareTransitive(Nth(table.elements, table.paths, k), Nth(table.elements, table.paths, middle), target);
        }
        low := middle + 1;
      } else {
        forall k | middle < k < table.ranges[g].to ensures !Compare(Nth(table.elements, table.paths, k), target).Less? {
          if Compare(Nth(table.elements, table.paths, k), target).Less? {
            CompareTransitive(Nth(table.elements, table.paths, middle), Nth(table.elements, table.paths, k), target);
          }
        }
        high := middle;
      }
    }
    first := low;
  }

  /** Whether `target` is a source path of group `g`, by binary search. */
  method BinarySearch(table: Table, g: nat, target: Path) returns (found: bool)
    requires table.Valid() && g < |table.ranges|
    ensures found <==> table.Has(g, target)
  {
    hide Compare, Nth;
    var (low, high) := (table.ranges[g].from, table.ranges[g].to);
    while low < high
      invariant table.ranges[g].from <= low <= high <= table.ranges[g].to
      invariant forall k :: table.ranges[g].from <= k < low ==> Nth(table.elements, table.paths, k) != target
      invariant forall k :: high <= k < table.ranges[g].to ==> Nth(table.elements, table.paths, k) != target
    {
      var middle := (low + high) / 2;
      var ordering := Compare(Nth(table.elements, table.paths, middle), target);
      CompareEqual(Nth(table.elements, table.paths, middle), target);
      if ordering.Equal? {
        return true;
      }
      forall k | table.ranges[g].from <= k < table.ranges[g].to && Nth(table.elements, table.paths, k) == target
        ensures if ordering.Less? then middle < k else k < middle
      {
        CompareReversed(Nth(table.elements, table.paths, middle), target);
        assert k < middle ==>
                 Compare(Nth(table.elements, table.paths, k), Nth(table.elements, table.paths, middle)).Less?;
      }
      if ordering.Less? {
        low := middle + 1;
      } else {
        high := middle;
      }
    }
    return false;
  }

  /** A source the target extends is the target cut at some depth. */
  lemma ChildrenByDepth(table: Table, g: nat, target: Path, inclusive: bool)
    requires table.Valid() && g < |table.ranges|
    ensures table.AnyRelates(g, target, Children, inclusive)
            <==> exists d :: 0 <= d <= |target| && (d < |target| || inclusive) && table.Has(g, target[..d])
  {
    hide Nth, Ascends;
    if d :| 0 <= d <= |target| && (d < |target| || inclusive) && table.Has(g, target[..d]) {
      var k :| table.ranges[g].from <= k < table.ranges[g].to && Nth(table.elements, table.paths, k) == target[..d];
      assert Relates(Nth(table.elements, table.paths, k), target, Children, inclusive);
    }
    if table.AnyRelates(g, target, Children, inclusive) {
      var k :| table.ranges[g].from <= k < table.ranges[g].to
               && Relates(Nth(table.elements, table.paths, k), target, Children, inclusive);
      assert table.Has(g, target[..|Nth(table.elements, table.paths, k)|]);
    }
  }

  /** The target's parents, one binary search per depth. */
  method ChildrenBySearch(table: Table, g: nat, target: Path, inclusive: bool) returns (found: bool)
    requires table.Valid() && g < |table.ranges|
    ensures found <==> table.AnyRelates(g, target, Children, inclusive)
  {
    hide Table.Valid, Table.Has, Table.AnyRelates;
    ChildrenByDepth(table, g, target, inclusive);
    var depths := if inclusive then |target| + 1 else |target|;
    for d := 0 to depths
      invariant forall e :: 0 <= e < d ==> !table.Has(g, target[..e])
    {
      var here := BinarySearch(table, g, target[..d]);
      if here {
        return true;
      }
    }
    return false;
  }

  /** The paths that extend the target sort right after where it would be. */
  lemma ExtensionsFollow(table: Table, g: nat, target: Path, first: nat, k: nat)
    requires table.Valid() && g < |table.ranges| && table.ranges[g].from <= first <= k < table.ranges[g].to
    requires forall k :: first <= k < table.ranges[g].to ==> !Compare(Nth(table.elements, table.paths, k), target).Less?
    requires target <= Nth(table.elements, table.paths, k)
    ensures forall i :: first <= i <= k ==> target <= Nth(table.elements, table.paths, i)
  {
    hide Compare, Nth;
    forall i | first <= i <= k ensures target <= Nth(table.elements, table.paths, i) {
      CompareReversed(Nth(table.elements, table.paths, i), target);
      CompareEqual(Nth(table.elements, table.paths, k), Nth(table.elements, table.paths, k));
      PrefixBetween(target, Nth(table.elements, table.paths, i), Nth(table.elements, table.paths, k));
    }
  }

  /** The target's descendants: the next path decides, or the one after it where the next is the target. */
  method ParentsBySearch(table: Table, g: nat, target: Path, inclusive: bool) returns (found: bool)
    requires table.Valid() && g < |table.ranges|
    ensures found <==> table.AnyRelates(g, target, Parents, inclusive)
  {
    hide Compare, Nth;
    var first := PartitionPoint(table, g, target);
    var to := table.ranges[g].to;
    if first == to {
      found := false;
    } else if Nth(table.elements, table.paths, first) == target {
      found := inclusive || (first + 1 < to && target <= Nth(table.elements, table.paths, first + 1));
    } else {
      found := target <= Nth(table.elements, table.paths, first);
    }
    ParentsFollow(table, g, target, inclusive, first);
  }

  lemma ParentsFollow(table: Table, g: nat, target: Path, inclusive: bool, first: nat)
    requires table.Valid() && g < |table.ranges| && table.ranges[g].from <= first <= table.ranges[g].to
    requires forall k :: table.ranges[g].from <= k < first ==>
               Compare(Nth(table.elements, table.paths, k), target).Less?
    requires forall k :: first <= k < table.ranges[g].to ==> !Compare(Nth(table.elements, table.paths, k), target).Less?
    ensures table.AnyRelates(g, target, Parents, inclusive) <==>
              && first < table.ranges[g].to
              && if Nth(table.elements, table.paths, first) == target
                 then inclusive
                 || (first + 1 < table.ranges[g].to && target <= Nth(table.elements, table.paths, first + 1))
                 else target <= Nth(table.elements, table.paths, first)
  {
    hide Compare, Nth;
    var to := table.ranges[g].to;
    if table.AnyRelates(g, target, Parents, inclusive) {
      var k :| table.ranges[g].from <= k < to
               && Relates(Nth(table.elements, table.paths, k), target, Parents, inclusive);
      PrefixFirst(target, Nth(table.elements, table.paths, k));
      CompareReversed(target, Nth(table.elements, table.paths, k));
      ExtensionsFollow(table, g, target, first, k);
      assert first < to;
    }
    if first < to && target <= Nth(table.elements, table.paths, first) {
      if Nth(table.elements, table.paths, first) != target || inclusive {
        assert Relates(Nth(table.elements, table.paths, first), target, Parents, inclusive);
      } else if first + 1 < to && target <= Nth(table.elements, table.paths, first + 1) {
        CompareEqual(Nth(table.elements, table.paths, first), Nth(table.elements, table.paths, first + 1));
        assert Relates(Nth(table.elements, table.paths, first + 1), target, Parents, inclusive);
      }
    }
  }

  /** A path's hash, element by element. */
  method HashPath(hashing: Hashing, group: nat, path: Path) returns (hash: nat)
    ensures hash == PathHash(hashing, group, path)
  {
    hash := hashing.start(group);
    for d := 0 to |path|
      invariant hash == PathHash(hashing, group, path[..d])
    {
      assert path[..d + 1][..d] == path[..d];
      hash := hashing.step(hash, path[d]);
    }
    assert path[..|path|] == path;
  }

  /** The target's parents, each depth's prefix looked up by a hash extended one element at a time. */
  method ChildrenByHash(table: Table, hashing: Hashing, exact: PathIndex, g: nat, target: Path, inclusive: bool)
    returns (found: bool)
    requires table.Valid() && g < |table.ranges| && IsExact(exact, table, hashing)
    ensures found <==> table.AnyRelates(g, target, Children, inclusive)
  {
    hide Table.Valid, Table.Has, Table.AnyRelates, PathIndex.Valid, Hashed, Addresses.Holds;
    ChildrenByDepth(table, g, target, inclusive);
    var depth := |target|;
    var hash := hashing.start(g);
    for d := 0 to depth + 1
      invariant d <= depth ==> hash == PathHash(hashing, g, target[..d])
      invariant forall e :: 0 <= e < d ==> !table.Has(g, target[..e])
    {
      if d == depth && !inclusive {
        break;
      }
      var here := Contains(exact, hashing, hash, g, target[..d], table.elements);
      if here {
        return true;
      }
      if d < depth {
        assert target[..d + 1][..d] == target[..d];
        hash := hashing.step(hash, target[d]);
      }
    }
    return false;
  }

  /** The target's descendants are those it is a strict prefix of, and its equal where that counts. */
  lemma ParentsSplit(table: Table, g: nat, target: Path, inclusive: bool)
    requires table.Valid() && g < |table.ranges|
    ensures table.AnyRelates(g, target, Parents, inclusive)
            <==> table.HasBeyond(g, target) || (inclusive && table.Has(g, target))
  {
    hide Nth, Ascends;
    forall k | table.ranges[g].from <= k < table.ranges[g].to
      ensures Relates(Nth(table.elements, table.paths, k), target, Parents, inclusive)
              <==> Strict(target, Nth(table.elements, table.paths, k))
                   || (inclusive && Nth(table.elements, table.paths, k) == target)
    {
      var path := Nth(table.elements, table.paths, k);
      if path == target {
        assert path[..|target|] == target;
      }
      if |path| == |target| && path[..|target|] == target {
        assert path == target;
      }
    }
  }

  method ParentsByHash(table: Table, hashing: Hashing, exact: PathIndex, prefixes: PathIndex, g: nat, target: Path,
                       inclusive: bool)
    returns (found: bool)
    requires table.Valid() && g < |table.ranges|
    requires IsExact(exact, table, hashing) && IsPrefixes(prefixes, table, hashing)
    ensures found <==> table.AnyRelates(g, target, Parents, inclusive)
  {
    hide Table.Valid, Table.Has, Table.HasBeyond, Table.AnyRelates, PathIndex.Valid, Hashed, Addresses.Holds, Once;
    ParentsSplit(table, g, target, inclusive);
    var hash := HashPath(hashing, g, target);
    found := Contains(prefixes, hashing, hash, g, target, table.elements);
    if !found && inclusive {
      found := Contains(exact, hashing, hash, g, target, table.elements);
    }
  }
}
