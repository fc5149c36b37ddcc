/**
 A relation's source addresses, indexed so that a target finds its relatives by a lookup:
 paths sorted within their group, found by binary search, or, where they are deep, by the
 hash of a prefix. The hash is any function; whatever it collides on, a lookup compares.
 An address element is its join key, one word; `Order.CompareBytes` carries the order of
 words over to the order of the bytes the index keeps.
 */
module Addresses {
  import opened Wrappers
  import opened Order

  type Path = seq<nat>

  /** Whether a target's relatives are the sources it extends, or the sources that extend it. */
  datatype Mode = Children | Parents

  /** A source row: its group key and its address, where they are not null. */
  datatype Source<Key> = Source(key: Option<Key>, address: Option<Path>)

  /** The comparison of one source with a target. */
  predicate Relates(source: Path, target: Path, mode: Mode, inclusive: bool) {
    match mode
    case Children =>
      (if inclusive then |target| >= |source| else |target| > |source|) && target[..|source|] == source
    case Parents =>
      (if inclusive then |target| <= |source| else |target| < |source|) && source[..|target|] == target
  }

  /** A path hash: of a group's empty path, and a step for each element. */
  datatype Hashing = Hashing(start: nat -> nat, step: (nat, nat) -> nat)

  function PathHash(hashing: Hashing, group: nat, path: Path): nat {
    if path == [] then hashing.start(group)
    else hashing.step(PathHash(hashing, group, path[..|path| - 1]), path[|path| - 1])
  }

  /** A hashed path: its hash, its group, and where its elements are. */
  datatype Entry = Entry(hash: nat, group: nat, start: nat, len: nat)

  predicate Within(elements: seq<nat>, start: nat, len: nat) {
    start + len <= |elements|
  }

  function PathAt(elements: seq<nat>, start: nat, len: nat): Path
    requires Within(elements, start, len)
  {
    elements[start..start + len]
  }

  /** Some entry is `group`'s `path`. */
  ghost predicate Holds(entries: seq<Entry>, elements: seq<nat>, group: nat, path: Path) {
    exists k :: 0 <= k < |entries| && Is(entries[k], elements, group, path)
  }

  ghost predicate Is(entry: Entry, elements: seq<nat>, group: nat, path: Path) {
    entry.group == group && Within(elements, entry.start, entry.len) && PathAt(elements, entry.start, entry.len) == path
  }

  /** Every entry's hash is its path's. */
  ghost predicate Hashed(entries: seq<Entry>, elements: seq<nat>, hashing: Hashing) {
    forall k :: 0 <= k < |entries| ==>
      && Within(elements, entries[k].start, entries[k].len)
      && entries[k].hash == PathHash(hashing, entries[k].group, PathAt(elements, entries[k].start, entries[k].len))
  }

  /** Entries sorted by hash, and the first of each hash. */
  datatype PathIndex = PathIndex(first: map<nat, nat>, entries: seq<Entry>) {
    ghost predicate Valid() {
      && (forall i, j :: 0 <= i < j < |entries| ==> entries[i].hash <= entries[j].hash)
      && (forall h :: h in first ==> first[h] < |entries| && entries[first[h]].hash == h
                                     && forall i :: 0 <= i < first[h] ==> entries[i].hash != h)
      && (forall i :: 0 <= i < |entries| ==> entries[i].hash in first)
    }
  }

  predicate HashLeq(a: Entry, b: Entry) {
    a.hash <= b.hash
  }

  /** Where each hash first stands among sorted entries. */
  method FirstOfHash(entries: seq<Entry>) returns (first: map<nat, nat>)
    ensures forall k :: 0 <= k < |entries| ==> entries[k].hash in first
    ensures forall h :: h in first ==> first[h] < |entries| && entries[first[h]].hash == h
                                       && forall k :: 0 <= k < first[h] ==> entries[k].hash != h
  {
    first := map[];
    for i := |entries| downto 0
      invariant forall k :: i <= k < |entries| ==> entries[k].hash in first
      invariant forall h :: h in first ==> i <= first[h] < |entries| && entries[first[h]].hash == h
                                           && forall k :: i <= k < first[h] ==> entries[k].hash != h
    {
      first := first[entries[i].hash := i];
    }
  }

  method NewPathIndex(unsorted: seq<Entry>) returns (index: PathIndex)
    ensures index.Valid()
    ensures multiset(index.entries) == multiset(unsorted)
  {
    HashPreorder(unsorted);
    var entries := Sort(unsorted, HashLeq);
    var first := FirstOfHash(entries);
    index := PathIndex(first, entries);
    HashesRise(entries);
  }

  lemma HashPreorder(entries: seq<Entry>)
    ensures Orders(HashLeq, entries)
  {
  }

  lemma HashesRise(entries: seq<Entry>)
    requires Sorted(entries, HashLeq)
    ensures forall i, j :: 0 <= i < j < |entries| ==> entries[i].hash <= entries[j].hash
  {
    forall i, j | 0 <= i < j < |entries| ensures entries[i].hash <= entries[j].hash {
      assert HashLeq(entries[i], entries[j]);
    }
  }

  /** Whether an entry is `group`'s `path`, looked up by the path's hash and then compared: a collision
      costs a comparison, never an answer. */
  method Contains(index: PathIndex, ghost hashing: Hashing, hash: nat, group: nat, path: Path, elements: seq<nat>)
    returns (found: bool)
    requires index.Valid() && Hashed(index.entries, elements, hashing)
    requires hash == PathHash(hashing, group, path)
    ensures found <==> Holds(index.entries, elements, group, path)
  {
    if hash !in index.first {
      return false;
    }
    var entries := index.entries;
    var k := index.first[hash];
    while k < |entries| && entries[k].hash == hash
      invariant index.first[hash] <= k <= |entries|
      invariant forall i :: 0 <= i < k ==> !Is(entries[i], elements, group, path)
    {
      if entries[k].group == group && PathAt(elements, entries[k].start, entries[k].len) == path {
        return true;
      }
      k := k + 1;
    }
    return false;
  }

  // ----- the sorted paths of the groups -----

  /** A group's paths: `from` and `to` delimit them among all groups'. */
  datatype Range = Range(from: nat, to: nat)

  /** Where paths are among the elements: start and length. */
  type Places = seq<(nat, nat)>

  ghost predicate AllWithin(elements: seq<nat>, paths: Places) {
    forall k :: 0 <= k < |paths| ==> Within(elements, paths[k].0, paths[k].1)
  }

  function Nth(elements: seq<nat>, paths: Places, k: nat): Path
    requires k < |paths| && Within(elements, paths[k].0, paths[k].1)
  {
    PathAt(elements, paths[k].0, paths[k].1)
  }

  /** The paths of a range ascend, each one distinct. */
  ghost predicate Ascends(elements: seq<nat>, paths: Places, from: nat, to: nat)
    requires AllWithin(elements, paths) && to <= |paths|
  {
    forall i, j :: from <= i < j < to ==> Compare(Nth(elements, paths, i), Nth(elements, paths, j)).Less?
  }

  /** Some path of the range is `path`. */
  ghost predicate Among(elements: seq<nat>, paths: Places, from: nat, to: nat, path: Path)
    requires AllWithin(elements, paths) && to <= |paths|
  {
    exists k :: from <= k < to && Nth(elements, paths, k) == path
  }

  /** A strict prefix. */
  predicate Strict(prefix: Path, path: Path) {
    prefix < path
  }

  /** How many elements two paths share at their start. */
  method Shared(a: Path, b: Path) returns (shared: nat)
    ensures shared <= |a| && shared <= |b| && a[..shared] == b[..shared]
    ensures shared < |a| && shared < |b| ==> a[shared] != b[shared]
  {
    shared := 0;
    while shared < |a| && shared < |b| && a[shared] == b[shared]
      invariant shared <= |a| && shared <= |b| && a[..shared] == b[..shared]
    {
      shared := shared + 1;
    }
  }

  /** One step of a walk: a path's group and place, the depth from which its strict prefixes are new, and
      the hash of each of its prefixes, itself included. */
  datatype Visit = Visit(group: nat, place: (nat, nat), newFrom: nat, hashes: seq<nat>)

  ghost predicate HashesOf(hashes: seq<nat>, hashing: Hashing, group: nat, path: Path) {
    |hashes| == |path| + 1 && forall d :: 0 <= d <= |path| ==> hashes[d] == PathHash(hashing, group, path[..d])
  }

  /** The strict prefixes of the range's `k`th path from depth `newFrom` on are strict prefixes of no path
      of the range before it; the shorter ones are. */
  ghost predicate NewFrom(elements: seq<nat>, paths: Places, from: nat, k: nat, newFrom: nat)
    requires AllWithin(elements, paths) && from <= k < |paths|
  {
    forall d :: 0 <= d < |Nth(elements, paths, k)| ==>
      (d >= newFrom <==> forall i :: from <= i < k ==> !Strict(Nth(elements, paths, k)[..d], Nth(elements, paths, i)))
  }

  /** What a path shares with the one before it decides which of its prefixes are new. */
  lemma SharedDecides(elements: seq<nat>, paths: Places, from: nat, k: nat, shared: nat)
    requires AllWithin(elements, paths) && from < k < |paths| && Ascends(elements, paths, from, k + 1)
    requires var (previous, path) := (Nth(elements, paths, k - 1), Nth(elements, paths, k));
             && shared <= |previous| && shared <= |path| && previous[..shared] == path[..shared]
             && (shared < |previous| && shared < |path| ==> previous[shared] != path[shared])
    ensures NewFrom(elements, paths, from, k,
                    if shared == |Nth(elements, paths, k - 1)| then shared else shared + 1)
  {
    var (previous, path) := (Nth(elements, paths, k - 1), Nth(elements, paths, k));
    var newFrom := if shared == |previous| then shared else shared + 1;
    forall d | 0 <= d < |path|
      ensures d >= newFrom <==> forall i :: from <= i < k ==> !Strict(path[..d], Nth(elements, paths, i))
    {
      if d < newFrom {
        assert path[..d] == previous[..d];
        assert Strict(path[..d], Nth(elements, paths, k - 1));
      } else {
        forall i | from <= i < k ensures !Strict(path[..d], Nth(elements, paths, i)) {
          if Strict(path[..d], Nth(elements, paths, i)) {
            OldPrefix(elements, paths, from, k, i, d);
            assert previous[..d] == path[..d];
            assert d <= shared;
            assert previous == path[..d];
            PrefixFirst(previous, Nth(elements, paths, i));
            CompareReversed(previous, Nth(elements, paths, i));
          }
        }
      }
    }
  }

  /** A prefix of a path and of one before it is a prefix of the one just before it. */
  lemma OldPrefix(elements: seq<nat>, paths: Places, from: nat, k: nat, i: nat, d: nat)
    requires AllWithin(elements, paths) && from <= i < k < |paths| && Ascends(elements, paths, from, k + 1)
    requires d <= |Nth(elements, paths, k)| && Nth(elements, paths, k)[..d] <= Nth(elements, paths, i)
    ensures Nth(elements, paths, k)[..d] <= Nth(elements, paths, k - 1)
  {
    var p := Nth(elements, paths, k)[..d];
    PrefixFirst(p, Nth(elements, paths, i));
    if i < k - 1 {
      CompareTransitive(p, Nth(elements, paths, i), Nth(elements, paths, k - 1));
    }
    PrefixBetween(p, Nth(elements, paths, k - 1), Nth(elements, paths, k));
  }

  /** The sorted paths of every group, one group's after the other's. */
  datatype Table = Table(elements: seq<nat>, paths: Places, ranges: seq<Range>) {
    ghost predicate Valid() {
      && AllWithin(elements, paths)
      && (forall g :: 0 <= g < |ranges| ==> ranges[g].from <= ranges[g].to <= |paths|)
      && (forall g :: 0 <= g < |ranges| ==> Ascends(elements, paths, ranges[g].from, ranges[g].to))
      && (forall g :: 0 < g < |ranges| ==> ranges[g].from == ranges[g - 1].to)
      && (ranges != [] ==> ranges[0].from == 0 && ranges[|ranges| - 1].to == |paths|)
      && (ranges == [] ==> paths == [])
    }

    /** Group `g` has the source path `path`. */
    ghost predicate Has(g: nat, path: Path)
      requires Valid() && g < |ranges|
    {
      Among(elements, paths, ranges[g].from, ranges[g].to, path)
    }

    /** Group `g` has a source path that `prefix` is a strict prefix of. */
    ghost predicate HasBeyond(g: nat, prefix: Path)
      requires Valid() && g < |ranges|
    {
      exists k :: ranges[g].from <= k < ranges[g].to && Strict(prefix, Nth(elements, paths, k))
    }

    /** Some source path of group `g` is related to `target`. */
    ghost predicate AnyRelates(g: nat, target: Path, mode: Mode, inclusive: bool)
      requires Valid() && g < |ranges|
    {
      exists k :: ranges[g].from <= k < ranges[g].to && Relates(Nth(elements, paths, k), target, mode, inclusive)
    }
  }

  /** What a walk says of the `k`th path, of group `g`. */
  ghost predicate VisitOk(table: Table, hashing: Hashing, g: nat, k: nat, visit: Visit)
    requires table.Valid() && g < |table.ranges| && table.ranges[g].from <= k < table.ranges[g].to
  {
    && visit.group == g
    && visit.place == table.paths[k]
    && NewFrom(table.elements, table.paths, table.ranges[g].from, k, visit.newFrom)
    && HashesOf(visit.hashes, hashing, g, Nth(table.elements, table.paths, k))
  }

  /** Extends the hashes of the part shared with the path before by one element after the other. */
  method ExtendHashes(hashing: Hashing, ghost group: nat, path: Path, shared: nat, kept: seq<nat>)
    returns (hashes: seq<nat>)
    requires shared <= |path| && |kept| == shared + 1
    requires forall d :: 0 <= d <= shared ==> kept[d] == PathHash(hashing, group, path[..d])
    ensures HashesOf(hashes, hashing, group, path)
  {
    hashes := kept;
    for d := shared to |path|
      invariant |hashes| == d + 1
      invariant forall e :: 0 <= e <= d ==> hashes[e] == PathHash(hashing, group, path[..e])
    {
      assert path[..d + 1][..d] == path[..d];
      hashes := hashes + [hashing.step(hashes[d], path[d])];
    }
  }

  /** The path walked before the `k`th of group `g`: the one before it, or the empty one. */
  function Previous(table: Table, g: nat, k: nat): Path
    requires AllWithin(table.elements, table.paths) && g < |table.ranges| && k <= |table.paths|
  {
    if k <= table.ranges[g].from then [] else Nth(table.elements, table.paths, k - 1)
  }

  lemma FirstIsNew(elements: seq<nat>, paths: Places, from: nat)
    requires AllWithin(elements, paths) && from < |paths|
    ensures NewFrom(elements, paths, from, from, 0)
  {
  }

  /** Visits the `k`th path, of group `g`, reusing the hashes of what it shares with the one before. */
  method VisitPath(table: Table, hashing: Hashing, g: nat, k: nat, previous: Path, hashes: seq<nat>)
    returns (visit: Visit)
    requires table.Valid() && g < |table.ranges| && table.ranges[g].from <= k < table.ranges[g].to
    requires previous == Previous(table, g, k) && HashesOf(hashes, hashing, g, previous)
    ensures VisitOk(table, hashing, g, k, visit)
  {
    hide PathHash, Compare, NewFrom, Nth;
    ghost var from := table.ranges[g].from;
    var path := Nth(table.elements, table.paths, k);
    var shared := Shared(previous, path);
    var newFrom := if shared == |previous| then shared else shared + 1;
    if k > from {
      AscendsSoFar(table, g, k);
      SharedDecides(table.elements, table.paths, from, k, shared);
    } else {
      FirstIsNew(table.elements, table.paths, from);
    }
    forall d | 0 <= d <= shared ensures path[..d] == previous[..d] {
      assert path[..d] == path[..shared][..d] == previous[..shared][..d];
    }
    var extended := ExtendHashes(hashing, g, path, shared, hashes[..shared + 1]);
    visit := Visit(g, table.paths[k], newFrom, extended);
  }

  lemma AscendsSoFar(table: Table, g: nat, k: nat)
    requires table.Valid() && g < |table.ranges| && table.ranges[g].from <= k < table.ranges[g].to
    ensures Ascends(table.elements, table.paths, table.ranges[g].from, k + 1)
  {
  }

  /** Walks one group's paths. */
  method WalkGroup(table: Table, hashing: Hashing, g: nat) returns (visits: seq<Visit>)
    requires table.Valid() && g < |table.ranges|
    ensures |visits| == table.ranges[g].to - table.ranges[g].from
    ensures forall i :: 0 <= i < |visits| ==> VisitOk(table, hashing, g, table.ranges[g].from + i, visits[i])
  {
    hide VisitOk, Compare;
    var (from, to) := (table.ranges[g].from, table.ranges[g].to);
    visits := [];
    var hashes := [hashing.start(g)];
    var previous: Path := [];
    for k := from to to
      invariant |visits| == k - from
      invariant previous == Previous(table, g, k)
      invariant HashesOf(hashes, hashing, g, previous)
      invariant forall i :: 0 <= i < k - from ==> VisitOk(table, hashing, g, from + i, visits[i])
    {
      hide PathHash;
      var visit := VisitPath(table, hashing, g, k, previous, hashes);
      VisitHashes(table, hashing, g, k, visit);
      visits := visits + [visit];
      previous := Nth(table.elements, table.paths, k);
      hashes := visit.hashes;
    }
  }

  lemma VisitHashes(table: Table, hashing: Hashing, g: nat, k: nat, visit: Visit)
    requires table.Valid() && g < |table.ranges| && table.ranges[g].from <= k < table.ranges[g].to
    requires VisitOk(table, hashing, g, k, visit)
    ensures HashesOf(visit.hashes, hashing, g, Nth(table.elements, table.paths, k))
  {
  }

  /** A group's range ends no later than a later group's starts. */
  lemma {:induction false} RangesApart(table: Table, g: nat, h: nat)
    requires table.Valid() && g < h < |table.ranges|
    ensures table.ranges[g].to <= table.ranges[h].from
  {
    if g < h - 1 {
      RangesApart(table, g, h - 1);
    }
  }

  /** The visits of every path of the first `groups` groups. */
  ghost predicate Walked(table: Table, hashing: Hashing, visits: seq<Visit>, groups: nat)
    requires table.Valid() && groups <= |table.ranges|
  {
    && |visits| == (if groups == 0 then 0 else table.ranges[groups - 1].to)
    && forall g: nat, k: nat :: g < groups && table.ranges[g].from <= k < table.ranges[g].to ==>
         Visited(table, hashing, visits, g, k)
  }

  ghost predicate Visited(table: Table, hashing: Hashing, visits: seq<Visit>, g: nat, k: nat)
    requires table.Valid() && g < |table.ranges| && table.ranges[g].from <= k < table.ranges[g].to
  {
    k < |visits| && VisitOk(table, hashing, g, k, visits[k])
  }

  lemma WalkedStep(table: Table, hashing: Hashing, visits: seq<Visit>, g: nat, group: seq<Visit>)
    requires table.Valid() && g < |table.ranges| && Walked(table, hashing, visits, g)
    requires |group| == table.ranges[g].to - table.ranges[g].from
    requires forall i :: 0 <= i < |group| ==> VisitOk(table, hashing, g, table.ranges[g].from + i, group[i])
    ensures Walked(table, hashing, visits + group, g + 1)
  {
    hide AllWithin, Compare, PathHash;
    var now := visits + group;
    forall h: nat, k: nat | h < g + 1 && table.ranges[h].from <= k < table.ranges[h].to
      ensures Visited(table, hashing, now, h, k)
    {
      if h < g {
        RangesApart(table, h, g);
        assert Visited(table, hashing, visits, h, k);
        assert now[k] == visits[k];
      } else {
        assert now[k] == group[k - table.ranges[g].from];
      }
    }
  }

  /** Walks every group's paths. */
  method Walk(table: Table, hashing: Hashing) returns (visits: seq<Visit>)
    requires table.Valid()
    ensures Walked(table, hashing, visits, |table.ranges|)
    ensures |visits| == |table.paths|
  {
    hide VisitOk, Ascends, AllWithin, Compare;
    visits := [];
    for g := 0 to |table.ranges|
      invariant Walked(table, hashing, visits, g)
    {
      var group := WalkGroup(table, hashing, g);
      WalkedStep(table, hashing, visits, g, group);
      visits := visits + group;
    }
  }

  /** Every path is in some group's range. */
  lemma {:induction false} GroupOf(table: Table, k: nat, upTo: nat) returns (g: nat)
    requires table.Valid() && 0 < upTo <= |table.ranges| && k < table.ranges[upTo - 1].to
    ensures g < |table.ranges| && table.ranges[g].from <= k < table.ranges[g].to
  {
    hide Ascends, AllWithin;
    if table.ranges[upTo - 1].from <= k {
      g := upTo - 1;
    } else {
      g := GroupOf(table, k, upTo - 1);
    }
  }
}
