/**
 The index built from a relation's source rows: their paths grouped by a counting sort, each
 group's sorted and freed of repeats, and, where the paths are deep, hashed. Its mask is the
 mask of the comparison with every source.
 */
module AddressIndex {
  import opened Wrappers
  import opened Order
  import opened Grouping
  import opened Addresses
  import opened AddressLookup
  import opened AddressSearch
  import opened SourceRows

  function PathOf(elements: seq<nat>, place: Place): Path {
    if Within(elements, place.0, place.1) then PathAt(elements, place.0, place.1) else []
  }

  function PathLeq(elements: seq<nat>): (Place, Place) -> bool {
    (a, b) => !Compare(PathOf(elements, a), PathOf(elements, b)).Greater?
  }

  lemma PathPreorder(elements: seq<nat>)
    ensures Preorder(PathLeq(elements))
  {
    hide Compare, PathOf;
    var leq := PathLeq(elements);
    forall a, b ensures leq(a, b) || leq(b, a) {
      CompareReversed(PathOf(elements, a), PathOf(elements, b));
    }
    forall a, b, c | leq(a, b) && leq(b, c) ensures leq(a, c) {
      CompareTransitive(PathOf(elements, a), PathOf(elements, b), PathOf(elements, c));
    }
  }

  /** Some place is `path`'s. */
  ghost predicate InPlaces(elements: seq<nat>, places: seq<Place>, path: Path) {
    exists k :: 0 <= k < |places| && PathOf(elements, places[k]) == path
  }

  /** `paths` from `from` on are the paths of `places`, each once, ascending. */
  ghost predicate Distinct(elements: seq<nat>, paths: Places, from: nat, places: seq<Place>) {
    && AllWithin(elements, paths) && from <= |paths| && Ascends(elements, paths, from, |paths|)
    && forall path: Path :: Among(elements, paths, from, |paths|, path) <==> InPlaces(elements, places, path)
  }

  lemma InPlacesStep(elements: seq<nat>, was: seq<Place>, place: Place, now: seq<Place>)
    requires now == was + [place]
    ensures forall path: Path :: InPlaces(elements, now, path)
              <==> InPlaces(elements, was, path) || PathOf(elements, place) == path
  {
    hide PathOf;
    forall path: Path
      ensures InPlaces(elements, now, path) <==> InPlaces(elements, was, path) || PathOf(elements, place) == path
    {
      if k :| 0 <= k < |was| && PathOf(elements, was[k]) == path {
        assert now[k] == was[k];
      }
      assert now[|was|] == place;
    }
  }

  /** A path above the last one extends the ascent. */
  lemma DistinctStep(elements: seq<nat>, paths: Places, from: nat, was: seq<Place>, place: Place, now: seq<Place>)
    requires now == was + [place] && Distinct(elements, paths, from, was) && Within(elements, place.0, place.1)
    requires |paths| > from ==> !Compare(Nth(elements, paths, |paths| - 1), PathOf(elements, place)).Greater?
    ensures |paths| > from && Nth(elements, paths, |paths| - 1) == PathOf(elements, place) ==>
              Distinct(elements, paths, from, now)
    ensures !(|paths| > from && Nth(elements, paths, |paths| - 1) == PathOf(elements, place)) ==>
              Distinct(elements, paths + [place], from, now)
  {
    hide Compare, PathOf, Nth, InPlaces;
    var path := PathOf(elements, place);
    InPlacesStep(elements, was, place, now);
    if |paths| > from && Nth(elements, paths, |paths| - 1) == path {
      assert Among(elements, paths, from, |paths|, path);
    } else {
      Appended(elements, paths, from, place);
      forall p: Path ensures Among(elements, paths + [place], from, |paths| + 1, p) <==> InPlaces(elements, now, p) {
        assert Among(elements, paths, from, |paths|, p) <==> InPlaces(elements, was, p);
      }
    }
  }

  lemma Appended(elements: seq<nat>, paths: Places, from: nat, place: Place)
    requires AllWithin(elements, paths) && from <= |paths| && Ascends(elements, paths, from, |paths|)
    requires Within(elements, place.0, place.1)
    requires |paths| > from ==> !Compare(Nth(elements, paths, |paths| - 1), PathOf(elements, place)).Greater?
    requires |paths| > from ==> Nth(elements, paths, |paths| - 1) != PathOf(elements, place)
    ensures AllWithin(elements, paths + [place]) && Ascends(elements, paths + [place], from, |paths| + 1)
    ensures forall p: Path :: Among(elements, paths + [place], from, |paths| + 1, p)
                              <==> Among(elements, paths, from, |paths|, p) || PathOf(elements, place) == p
  {
    hide Compare, PathAt;
    var more := paths + [place];
    assert Nth(elements, more, |paths|) == PathOf(elements, place);
    forall k | 0 <= k < |paths| ensures Nth(elements, more, k) == Nth(elements, paths, k) {
    }
    forall i, j | from <= i < j < |more| ensures Compare(Nth(elements, more, i), Nth(elements, more, j)).Less? {
      if j == |paths| {
        CompareEqual(Nth(elements, paths, |paths| - 1), PathOf(elements, place));
        CompareEqual(Nth(elements, paths, i), Nth(elements, paths, i));
        if i < |paths| - 1 {
          assert Compare(Nth(elements, paths, i), Nth(elements, paths, |paths| - 1)).Less?;
          CompareTransitive(Nth(elements, paths, i), Nth(elements, paths, |paths| - 1), PathOf(elements, place));
        }
      }
    }
    forall p: Path
      ensures Among(elements, more, from, |more|, p)
              <==> Among(elements, paths, from, |paths|, p) || PathOf(elements, place) == p
    {
      if k :| from <= k < |paths| && Nth(elements, paths, k) == p {
        assert Nth(elements, more, k) == p;
      }
    }
  }

  lemma NothingDistinct(elements: seq<nat>, paths: Places)
    requires AllWithin(elements, paths)
    ensures Distinct(elements, paths, |paths|, [])
  {
  }

  lemma SamePlaces(elements: seq<nat>, a: seq<Place>, b: seq<Place>)
    requires multiset(a) == multiset(b)
    ensures AllWithin(elements, a) ==> AllWithin(elements, b)
    ensures forall path: Path :: InPlaces(elements, a, path) <==> InPlaces(elements, b, path)
  {
    hide PathOf, Within;
    SameElements(a, b);
    forall k | 0 <= k < |a| ensures a[k] in b {
      assert a[k] in a;
    }
    forall k | 0 <= k < |b| ensures b[k] in a {
      assert b[k] in b;
    }
  }

  /** Appends one group's paths, sorted, each once. */
  method AppendGroup(elements: seq<nat>, own: seq<Place>, paths: Places) returns (more: Places)
    requires AllWithin(elements, paths) && AllWithin(elements, own)
    ensures |more| >= |paths| && more[..|paths|] == paths && Distinct(elements, more, |paths|, own)
  {
    hide Compare, PathOf, Preorder, Distinct, InPlaces, Within;
    PathPreorder(elements);
    OrdersAny(PathLeq(elements), own);
    var sorted := Sort(own, PathLeq(elements));
    SamePlaces(elements, own, sorted);
    var first := |paths|;
    more := paths;
    NothingDistinct(elements, paths);
    for i := 0 to |sorted|
      invariant |more| >= first && more[..first] == paths
      invariant Distinct(elements, more, first, sorted[..i])
      invariant |more| > first <==> i > 0
      invariant i > 0 ==> PathOf(elements, more[|more| - 1]) == PathOf(elements, sorted[i - 1])
    {
      var place := sorted[i];
      assert i > 0 ==> PathLeq(elements)(sorted[i - 1], place);
      LastPath(elements, more, first, sorted[..i]);
      DistinctStep(elements, more, first, sorted[..i], place, sorted[..i + 1]);
      var repeated := |more| > first && PathOf(elements, more[|more| - 1]) == PathOf(elements, place);
      if !repeated {
        more := more + [place];
      }
    }
    assert sorted[..|sorted|] == sorted;
    SameDistinct(elements, more, first, sorted, own);
  }

  lemma LastPath(elements: seq<nat>, paths: Places, from: nat, places: seq<Place>)
    requires Distinct(elements, paths, from, places)
    ensures AllWithin(elements, paths)
    ensures |paths| > from ==> Nth(elements, paths, |paths| - 1) == PathOf(elements, paths[|paths| - 1])
  {
  }

  lemma SameDistinct(elements: seq<nat>, paths: Places, from: nat, a: seq<Place>, b: seq<Place>)
    requires Distinct(elements, paths, from, a) && multiset(a) == multiset(b)
    ensures Distinct(elements, paths, from, b)
  {
    hide InPlaces, Among;
    SamePlaces(elements, a, b);
  }

  // ----- the table -----

  /** The table's groups are the items' groups, each with its items' paths. */
  ghost predicate Tabled(items: seq<Keyed<Place>>, table: Table) {
    && table.Valid()
    && forall g: nat, path: Path :: g < |table.ranges| ==>
         (table.Has(g, path) <==> InPlaces(table.elements, Select(items, g), path))
  }

  lemma {:induction false} SelectMember(items: seq<Keyed<Place>>, g: nat, place: Place)
    ensures place in Select(items, g) <==> (Some(g), place) in items
  {
    if items != [] {
      var (before, last) := (items[..|items| - 1], items[|items| - 1]);
      SelectMember(before, g, place);
      assert items == before + [last];
      assert (Some(g), place) in items <==> (Some(g), place) in before || last == (Some(g), place);
    }
  }

  lemma SelectItems(items: seq<Keyed<Place>>, elements: seq<nat>, groups: nat, g: nat)
    requires Sound(items, elements, groups)
    ensures AllWithin(elements, Select(items, g))
    ensures forall path: Path :: InPlaces(elements, Select(items, g), path) <==> HasItem(items, elements, g, path)
  {
    hide Within, PathAt, Select;
    var own := Select(items, g);
    forall k | 0 <= k < |own| ensures exists i :: 0 <= i < |items| && items[i] == (Some(g), own[k]) {
      SelectMember(items, g, own[k]);
    }
    forall i | 0 <= i < |items| && items[i].0 == Some(g) ensures items[i].1 in own {
      SelectMember(items, g, items[i].1);
      assert items[i] == (Some(g), items[i].1);
    }
    forall path: Path ensures InPlaces(elements, own, path) <==> HasItem(items, elements, g, path) {
      if k :| 0 <= k < |own| && PathOf(elements, own[k]) == path {
        var i :| 0 <= i < |items| && items[i] == (Some(g), own[k]);
        assert IsItem(items[i], elements, g, path);
      }
    }
  }

  lemma EmptyTabled(items: seq<Keyed<Place>>, elements: seq<nat>)
    ensures Tabled(items, Table(elements, [], []))
  {
  }

  /** One more group in the table. */
  lemma TabledStep(items: seq<Keyed<Place>>, table: Table, more: Places, own: seq<Place>)
    requires Tabled(items, table) && own == Select(items, |table.ranges|)
    requires |more| >= |table.paths| && more[..|table.paths|] == table.paths
    requires Distinct(table.elements, more, |table.paths|, own)
    ensures Tabled(items, Table(table.elements, more, table.ranges + [Range(|table.paths|, |more|)]))
  {
    hide Compare, PathAt, PathOf, Select, InPlaces;
    var now := Table(table.elements, more, table.ranges + [Range(|table.paths|, |more|)]);
    forall k | 0 <= k < |table.paths| ensures more[k] == table.paths[k] {
      assert more[..|table.paths|][k] == more[k];
    }
    forall g | 0 <= g < |now.ranges| ensures Ascends(now.elements, now.paths, now.ranges[g].from, now.ranges[g].to) {
      if g < |table.ranges| {
        assert Ascends(table.elements, table.paths, table.ranges[g].from, table.ranges[g].to);
        AscendsKept(table.elements, table.paths, more, table.ranges[g].from, table.ranges[g].to);
      }
    }
    assert now.Valid();
    forall g: nat, path: Path | g < |now.ranges|
      ensures now.Has(g, path) <==> InPlaces(now.elements, Select(items, g), path)
    {
      if g < |table.ranges| {
        AmongKept(table.elements, table.paths, more, table.ranges[g].from, table.ranges[g].to, path);
        assert table.Has(g, path) <==> InPlaces(table.elements, Select(items, g), path);
      }
    }
  }

  lemma AscendsKept(elements: seq<nat>, paths: Places, more: Places, from: nat, to: nat)
    requires AllWithin(elements, paths) && AllWithin(elements, more) && to <= |paths| <= |more|
    requires forall k :: 0 <= k < |paths| ==> more[k] == paths[k]
    requires Ascends(elements, paths, from, to)
    ensures Ascends(elements, more, from, to)
  {
    hide Compare, PathAt;
    forall i, j | from <= i < j < to ensures Compare(Nth(elements, more, i), Nth(elements, more, j)).Less? {
      assert Compare(Nth(elements, paths, i), Nth(elements, paths, j)).Less?;
    }
  }

  lemma AmongKept(elements: seq<nat>, paths: Places, more: Places, from: nat, to: nat, path: Path)
    requires AllWithin(elements, paths) && AllWithin(elements, more) && to <= |paths| <= |more|
    requires forall k :: 0 <= k < |paths| ==> more[k] == paths[k]
    ensures Among(elements, more, from, to, path) <==> Among(elements, paths, from, to, path)
  {
    hide PathAt;
    if k :| from <= k < to && Nth(elements, more, k) == path {
      assert Nth(elements, paths, k) == path;
    }
    if k :| from <= k < to && Nth(elements, paths, k) == path {
      assert Nth(elements, more, k) == path;
    }
  }

  /** The sorted table of grouped items. */
  method BuildTable(elements: seq<nat>, items: seq<Keyed<Place>>, groups: nat) returns (table: Table)
    requires Sound(items, elements, groups)
    ensures table.elements == elements && |table.ranges| == groups && Tabled(items, table)
  {
    hide Tabled, Select, Before, Grouping.Holds, Distinct, Within;
    var starts := Starts(items, groups);
    var ordered := Fill(items, groups, starts);
    var ranges: seq<Range> := [];
    var paths: Places := [];
    EmptyTabled(items, elements);
    for g := 0 to groups
      invariant |ranges| == g && starts.Length == groups + 1
      invariant forall p :: 0 <= p <= groups ==> starts[p] == Before(items, p)
      invariant forall p :: 0 <= p < groups ==> Grouping.Holds(ordered[..], Before(items, p), Select(items, p))
      invariant Tabled(items, Table(elements, paths, ranges))
    {
      GroupRun(items, g, ordered[..]);
      var own := ordered[starts[g]..starts[g + 1]];
      SelectItems(items, elements, groups, g);
      TabledWithin(items, Table(elements, paths, ranges));
      var more := AppendGroup(elements, own, paths);
      TabledStep(items, Table(elements, paths, ranges), more, own);
      ranges := ranges + [Range(|paths|, |more|)];
      paths := more;
    }
    table := Table(elements, paths, ranges);
  }

  lemma GroupRun(items: seq<Keyed<Place>>, g: nat, ordered: seq<Place>)
    requires Grouping.Holds(ordered, Before(items, g), Select(items, g))
    ensures Before(items, g) <= Before(items, g + 1) <= |ordered|
    ensures ordered[Before(items, g)..Before(items, g + 1)] == Select(items, g)
  {
    hide Select;
  }

  lemma TabledWithin(items: seq<Keyed<Place>>, table: Table)
    requires Tabled(items, table)
    ensures AllWithin(table.elements, table.paths)
  {
  }

  // ----- the index -----

  /** Paths deeper than this on average are looked up by hash. */
  const HASHED_DEPTH := 4

  function Depths(paths: Places): nat {
    if paths == [] then 0 else Depths(paths[..|paths| - 1]) + paths[|paths| - 1].1
  }

  method SumDepths(paths: Places) returns (sum: nat)
    ensures sum == Depths(paths)
  {
    sum := 0;
    for k := 0 to |paths|
      invariant sum == Depths(paths[..k])
    {
      assert paths[..k + 1][..k] == paths[..k];
      sum := sum + paths[k].1;
    }
    assert paths[..|paths|] == paths;
  }

  class SourceAddresses<Key(==, !new)> {
    const hashing: Hashing
    const groups: map<Key, nat>
    const table: Table
    const exact: Option<PathIndex>
    /** Built the first time a parent lookup asks. */
    var prefixes: Option<PathIndex>

    ghost predicate Valid()
      reads this
    {
      && table.Valid()
      && (forall key :: key in groups ==> groups[key] < |table.ranges|)
      && (exact.Some? ==> IsExact(exact.value, table, hashing))
      && (prefixes.Some? ==> IsPrefixes(prefixes.value, table, hashing))
    }

    /** The index holds exactly the addresses of these source rows. */
    ghost predicate Indexes(sources: seq<Source<Key>>)
      reads this
      requires Valid()
    {
      forall key: Key, path: Path :: Kept(sources, key, path) <==> key in groups && table.Has(groups[key], path)
    }

    constructor (sources: seq<Source<Key>>, hashing: Hashing)
      ensures Valid() && Indexes(sources)
      ensures exact.Some? <==> Depths(table.paths) > HASHED_DEPTH * |table.paths|
    {
      hide Collected, Tabled, Sound, Table.Valid, Table.Has, Kept, IsExact, Depths;
      var groups, elements, items := Collect(sources);
      CollectedSound(sources, groups, elements, items);
      var table := BuildTable(elements, items, |groups|);
      var depth := SumDepths(table.paths);
      var exact: Option<PathIndex> := None;
      CollectedTabled(sources, groups, elements, items, table);
      if depth > HASHED_DEPTH * |table.paths| {
        var index := ExactIndex(table, hashing);
        exact := Some(index);
      }
      this.hashing, this.groups, this.table, this.exact, this.prefixes := hashing, groups, table, exact, None;
    }

    /** Whether `target` is related to a source address of group `g`. */
    method FindRelated(g: nat, target: Path, mode: Mode, inclusive: bool) returns (found: bool)
      requires Valid() && g < |table.ranges|
      modifies this
      ensures Valid()
      ensures found <==> table.AnyRelates(g, target, mode, inclusive)
    {
      hide IsExact, IsPrefixes, Table.Valid, Table.AnyRelates;
      if exact.Some? {
        match mode
        case Children =>
          found := ChildrenByHash(table, hashing, exact.value, g, target, inclusive);
        case Parents =>
          if prefixes.None? {
            var index := PrefixIndex(table, hashing);
            prefixes := Some(index);
          }
          found := ParentsByHash(table, hashing, exact.value, prefixes.value, g, target, inclusive);
      } else {
        match mode
        case Children => found := ChildrenBySearch(table, g, target, inclusive);
        case Parents => found := ParentsBySearch(table, g, target, inclusive);
      }
    }

    /** Whether `target` is a source address of group `g`. */
    method IsSource(g: nat, target: Path) returns (found: bool)
      requires Valid() && g < |table.ranges|
      ensures found <==> table.Has(g, target)
    {
      hide Table.Valid, Table.Has, PathIndex.Valid, Hashed, Addresses.Holds, IsPrefixes;
      if exact.Some? {
        var hash := HashPath(hashing, g, target);
        found := Contains(exact.value, hashing, hash, g, target, table.elements);
      } else {
        found := BinarySearch(table, g, target);
      }
    }

    /** The rows whose address relates to a source of their group: the comparison with every source, asked
        of the candidates. */
    method Mask(ghost sources: seq<Source<Key>>, targets: seq<Source<Key>>, candidates: Option<seq<bool>>, mode: Mode,
                inclusive: bool)
      returns (mask: seq<bool>)
      requires Valid() && Indexes(sources)
      requires candidates.Some? ==> |candidates.value| == |targets|
      modifies this
      ensures Valid() && |mask| == |targets|
      ensures forall i :: 0 <= i < |targets| ==>
                (mask[i]
                 <==> (candidates.None? || candidates.value[i]) && Matches(sources, targets[i], mode, inclusive))
    {
      hide IsExact, IsPrefixes, Table.Valid, Matches, Kept, Table.AnyRelates, Table.Has;
      mask := [];
      for i := 0 to |targets|
        invariant Valid() && Indexes(sources) && |mask| == i
        invariant forall k :: 0 <= k < i ==>
                    (mask[k]
                     <==> (candidates.None? || candidates.value[k]) && Matches(sources, targets[k], mode, inclusive))
      {
        var target := targets[i];
        var candidate := (candidates.None? || candidates.value[i]) && target.address.Some?;
        var found := false;
        MatchesGroup(sources, groups, table, target, mode, inclusive);
        if candidate && target.key.Some? && target.key.value in groups {
          found := FindRelated(groups[target.key.value], target.address.value, mode, inclusive);
        }
        mask := mask + [found];
      }
    }
  }

  lemma CollectedSound<Key(!new)>(sources: seq<Source<Key>>, groups: map<Key, nat>, elements: seq<nat>,
                                  items: seq<Keyed<Place>>)
    requires Collected(sources, groups, elements, items)
    ensures Sound(items, elements, |groups|)
    ensures forall key :: key in groups ==> groups[key] < |groups|
  {
  }

  lemma CollectedTabled<Key(!new)>(sources: seq<Source<Key>>, groups: map<Key, nat>, elements: seq<nat>,
                                   items: seq<Keyed<Place>>, table: Table)
    requires Collected(sources, groups, elements, items)
    requires table.elements == elements && |table.ranges| == |groups| && Tabled(items, table)
    ensures table.Valid()
    ensures forall key: Key, path: Path ::
              Kept(sources, key, path)
              <==> key in groups && groups[key] < |table.ranges| && table.Has(groups[key], path)
  {
    hide Kept, HasItem, InPlaces, Table.Has, Table.Valid, Sound, Select;
    forall key: Key, path: Path
      ensures Kept(sources, key, path)
              <==> key in groups && groups[key] < |table.ranges| && table.Has(groups[key], path)
    {
      assert Agrees(sources, groups, elements, items, key);
      if key in groups {
        SelectItems(items, elements, |groups|, groups[key]);
        assert table.Has(groups[key], path) <==> InPlaces(table.elements, Select(items, groups[key]), path);
      }
    }
  }

  /** A target matches some source just when its group has a related path. */
  lemma MatchesGroup<Key(!new)>(sources: seq<Source<Key>>, groups: map<Key, nat>, table: Table, target: Source<Key>,
                                mode: Mode, inclusive: bool)
    requires table.Valid() && forall key :: key in groups ==> groups[key] < |table.ranges|
    requires forall key: Key, path: Path :: Kept(sources, key, path) <==> key in groups && table.Has(groups[key], path)
    ensures Matches(sources, target, mode, inclusive) <==>
              && target.key.Some? && target.address.Some? && target.key.value in groups
              && table.AnyRelates(groups[target.key.value], target.address.value, mode, inclusive)
  {
    hide Kept, Ascends, Relates, Nth;
    if target.key.Some? && target.address.Some? && target.key.value in groups {
      var g := groups[target.key.value];
      if table.AnyRelates(g, target.address.value, mode, inclusive) {
        var k :| table.ranges[g].from <= k < table.ranges[g].to
                 && Relates(Nth(table.elements, table.paths, k), target.address.value, mode, inclusive);
        assert table.Has(g, Nth(table.elements, table.paths, k));
        assert Kept(sources, target.key.value, Nth(table.elements, table.paths, k));
      }
      if path :| Kept(sources, target.key.value, path) && Relates(path, target.address.value, mode, inclusive) {
        assert table.Has(g, path);
      }
    }
  }
}
