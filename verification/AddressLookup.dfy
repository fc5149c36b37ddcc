/**
 The two indexes of deep paths, and the lookups: whether a target relates to some source of
 its group, found by binary search or by hash, is what comparing it with every source says.
 */
module AddressLookup {
  import opened Order
  import opened Addresses

  /** An index of every source path of every group. */
  ghost predicate IsExact(index: PathIndex, table: Table, hashing: Hashing)
    requires table.Valid()
  {
    && index.Valid() && Hashed(index.entries, table.elements, hashing)
    && forall g: nat, path: Path :: g < |table.ranges| ==>
         (Addresses.Holds(index.entries, table.elements, g, path) <==> table.Has(g, path))
  }

  /** An index of every strict prefix of every source path of every group, each once. */
  ghost predicate IsPrefixes(index: PathIndex, table: Table, hashing: Hashing)
    requires table.Valid()
  {
    && index.Valid() && Hashed(index.entries, table.elements, hashing)
    && (forall g: nat, path: Path :: g < |table.ranges| ==>
         (Addresses.Holds(index.entries, table.elements, g, path) <==> table.HasBeyond(g, path)))
    && Once(index.entries, table.elements)
  }

  /** Two entries are of the same path. */
  ghost predicate Same(a: Entry, b: Entry, elements: seq<nat>) {
    && a.group == b.group && Within(elements, a.start, a.len) && Within(elements, b.start, b.len)
    && PathAt(elements, a.start, a.len) == PathAt(elements, b.start, b.len)
  }

  /** No path has two entries. */
  ghost predicate Once(entries: seq<Entry>, elements: seq<nat>) {
    forall i, j :: 0 <= i < j < |entries| ==> !Same(entries[i], entries[j], elements)
  }

  // ----- an index holds what its entries held before they were sorted -----

  lemma {:induction false} CountOf<T>(s: seq<T>, x: T)
    ensures multiset(s)[x] >= 1 <==> exists i :: 0 <= i < |s| && s[i] == x
    ensures multiset(s)[x] >= 2 <==> exists i, j :: 0 <= i < j < |s| && s[i] == x && s[j] == x
  {
    if s == [] {
    } else {
      var t := s[..|s| - 1];
      assert s == t + [s[|s| - 1]];
      CountOf(t, x);
      if i, j :| 0 <= i < j < |s| && s[i] == x && s[j] == x {
        assert t[i] == x;
      }
      if i :| 0 <= i < |t| && t[i] == x {
        assert s[i] == x;
      }
      if i, j :| 0 <= i < j < |t| && t[i] == x && t[j] == x {
        assert s[i] == x && s[j] == x;
      }
    }
  }

  lemma OnceKept(a: seq<Entry>, b: seq<Entry>, elements: seq<nat>)
    requires multiset(a) == multiset(b) && Once(a, elements)
    ensures Once(b, elements)
  {
    hide Within, PathAt;
    forall i, j | 0 <= i < j < |b| ensures !Same(b[i], b[j], elements) {
      CountOf(a, b[i]);
      CountOf(b, b[i]);
      CountOf(a, b[j]);
      CountOf(b, b[j]);
      if b[i] == b[j] {
        var k, l :| 0 <= k < l < |a| && a[k] == b[i] && a[l] == b[i];
        assert !Same(a[k], a[l], elements);
      } else {
        var k :| 0 <= k < |a| && a[k] == b[i];
        var l :| 0 <= l < |a| && a[l] == b[j];
        assert k < l ==> !Same(a[k], a[l], elements);
        assert l < k ==> !Same(a[l], a[k], elements);
      }
    }
  }

  lemma EntriesKept(a: seq<Entry>, b: seq<Entry>, elements: seq<nat>, hashing: Hashing)
    requires multiset(a) == multiset(b) && Hashed(a, elements, hashing)
    ensures Hashed(b, elements, hashing)
    ensures forall g: nat, path: Path :: Addresses.Holds(a, elements, g, path)
              <==> Addresses.Holds(b, elements, g, path)
  {
    hide Is;
    SameElements(a, b);
    forall k | 0 <= k < |b| ensures b[k] in a {
      assert b[k] in b;
    }
    forall k | 0 <= k < |a| ensures a[k] in b {
      assert a[k] in a;
    }
    forall g: nat, path: Path ensures Addresses.Holds(a, elements, g, path) <==> Addresses.Holds(b, elements, g, path) {
      if k :| 0 <= k < |a| && Is(a[k], elements, g, path) {
        var l :| 0 <= l < |b| && b[l] == a[k];
        assert Is(b[l], elements, g, path);
      }
      if k :| 0 <= k < |b| && Is(b[k], elements, g, path) {
        var l :| 0 <= l < |a| && a[l] == b[k];
        assert Is(a[l], elements, g, path);
      }
    }
  }

  // ----- the exact index -----

  /** Entry `k` is the `k`th path. */
  ghost predicate EntryOf(table: Table, hashing: Hashing, k: nat, entry: Entry)
    requires table.Valid() && k < |table.paths|
  {
    && (entry.start, entry.len) == table.paths[k]
    && (forall g: nat :: g < |table.ranges| && table.ranges[g].from <= k < table.ranges[g].to ==> entry.group == g)
    && entry.hash == PathHash(hashing, entry.group, Nth(table.elements, table.paths, k))
  }

  /** Every source path by its hash. */
  method ExactIndex(table: Table, hashing: Hashing) returns (index: PathIndex)
    requires table.Valid()
    ensures IsExact(index, table, hashing)
  {
    hide *;
    var visits := Walk(table, hashing);
    var entries: seq<Entry> := [];
    for k := 0 to |visits|
      invariant |entries| == k <= |table.paths|
      invariant forall i :: 0 <= i < k ==> EntryOf(table, hashing, i, entries[i])
    {
      var visit := visits[k];
      VisitedEntry(table, hashing, visits, k);
      entries := entries + [Entry(visit.hashes[visit.place.1], visit.group, visit.place.0, visit.place.1)];
    }
    ExactEntries(table, hashing, entries);
    index := NewPathIndex(entries);
    EntriesKept(entries, index.entries, table.elements, hashing);
    Exact(index, entries, table, hashing);
  }

  lemma Exact(index: PathIndex, entries: seq<Entry>, table: Table, hashing: Hashing)
    requires table.Valid() && index.Valid() && Hashed(index.entries, table.elements, hashing)
    requires forall g: nat, path: Path :: g < |table.ranges| ==>
               (Addresses.Holds(entries, table.elements, g, path) <==> table.Has(g, path))
    requires forall g: nat, path: Path :: Addresses.Holds(entries, table.elements, g, path)
               <==> Addresses.Holds(index.entries, table.elements, g, path)
    ensures IsExact(index, table, hashing)
  {
    hide Table.Valid, Hashed, Addresses.Holds, Table.Has;
  }

  lemma VisitedEntry(table: Table, hashing: Hashing, visits: seq<Visit>, k: nat)
    requires table.Valid() && Walked(table, hashing, visits, |table.ranges|) && k < |visits| == |table.paths|
    ensures |visits[k].hashes| == visits[k].place.1 + 1
    ensures var visit := visits[k];
            EntryOf(table, hashing, k, Entry(visit.hashes[visit.place.1], visit.group, visit.place.0, visit.place.1))
  {
    hide PathHash, NewFrom, Ascends;
    var g := GroupOf(table, k, |table.ranges|);
    assert Visited(table, hashing, visits, g, k);
    var path := Nth(table.elements, table.paths, k);
    assert path[..|path|] == path;
    forall h: nat | h < |table.ranges| && table.ranges[h].from <= k < table.ranges[h].to ensures h == g {
      if h < g {
        RangesApart(table, h, g);
      } else if g < h {
        RangesApart(table, g, h);
      }
    }
  }

  lemma ExactEntries(table: Table, hashing: Hashing, entries: seq<Entry>)
    requires table.Valid() && |entries| == |table.paths|
    requires forall i :: 0 <= i < |entries| ==> EntryOf(table, hashing, i, entries[i])
    ensures Hashed(entries, table.elements, hashing)
    ensures forall g: nat, path: Path :: g < |table.ranges| ==>
              (Addresses.Holds(entries, table.elements, g, path) <==> table.Has(g, path))
  {
    hide PathHash, Ascends;
    forall g: nat, path: Path | g < |table.ranges|
      ensures Addresses.Holds(entries, table.elements, g, path) <==> table.Has(g, path)
    {
      if k :| 0 <= k < |entries| && Is(entries[k], table.elements, g, path) {
        var h := GroupOf(table, k, |table.ranges|);
        assert EntryOf(table, hashing, k, entries[k]);
        assert Nth(table.elements, table.paths, k) == path;
      }
      if table.Has(g, path) {
        var k :| table.ranges[g].from <= k < table.ranges[g].to && Nth(table.elements, table.paths, k) == path;
        assert EntryOf(table, hashing, k, entries[k]);
        assert Is(entries[k], table.elements, g, path);
      }
    }
  }

  // ----- the prefix index -----

  /** Depth `d` of the `k`th path: a strict prefix that no path of its group before it has. */
  predicate NewPrefix(table: Table, visits: seq<Visit>, k: nat, d: nat) {
    k < |table.paths| && k < |visits| && visits[k].newFrom <= d < table.paths[k].1
  }

  /** The new prefixes of the first `k` paths, and those of the next one below depth `d`, in that order. */
  ghost predicate Marked(table: Table, visits: seq<Visit>, marks: seq<(nat, nat)>, k: nat, d: nat) {
    && (forall o: nat, e: nat :: (o, e) in marks <==> NewPrefix(table, visits, o, e) && (o < k || (o == k && e < d)))
    && (forall i, j :: 0 <= i < j < |marks| ==>
          marks[i].0 < marks[j].0 || (marks[i].0 == marks[j].0 && marks[i].1 < marks[j].1))
  }

  lemma MarkNext(table: Table, visits: seq<Visit>, marks: seq<(nat, nat)>, k: nat, d: nat)
    requires Marked(table, visits, marks, k, d)
    ensures NewPrefix(table, visits, k, d) ==> Marked(table, visits, marks + [(k, d)], k, d + 1)
    ensures k < |table.paths| && d >= table.paths[k].1 ==> Marked(table, visits, marks, k + 1, 0)
    ensures k < |visits| && d <= visits[k].newFrom ==> Marked(table, visits, marks, k, visits[k].newFrom)
  {
    if NewPrefix(table, visits, k, d) {
      var more := marks + [(k, d)];
      forall i, j | 0 <= i < j < |more|
        ensures more[i].0 < more[j].0 || (more[i].0 == more[j].0 && more[i].1 < more[j].1)
      {
        assert i < |marks| && (marks[i].0, marks[i].1) in marks;
      }
      assert Marked(table, visits, more, k, d + 1);
    }
  }

  /** The entry of depth `mark.1` of the path `mark.0`. */
  ghost predicate PrefixEntry(table: Table, hashing: Hashing, mark: (nat, nat), entry: Entry)
    requires table.Valid()
  {
    && mark.0 < |table.paths| && mark.1 <= table.paths[mark.0].1
    && entry.start == table.paths[mark.0].0 && entry.len == mark.1
    && (forall g: nat :: g < |table.ranges| && table.ranges[g].from <= mark.0 < table.ranges[g].to ==> entry.group == g)
    && entry.hash == PathHash(hashing, entry.group, Nth(table.elements, table.paths, mark.0)[..mark.1])
  }

  lemma NothingMarked(table: Table, visits: seq<Visit>)
    ensures Marked(table, visits, [], 0, 0)
  {
  }

  lemma VisitedPlace(table: Table, hashing: Hashing, visits: seq<Visit>, k: nat)
    requires table.Valid() && Walked(table, hashing, visits, |table.ranges|) && k < |visits| == |table.paths|
    ensures visits[k].place == table.paths[k]
  {
    hide PathHash, NewFrom, Ascends;
    var g := GroupOf(table, k, |table.ranges|);
    assert Visited(table, hashing, visits, g, k);
  }

  lemma VisitedPrefix(table: Table, hashing: Hashing, visits: seq<Visit>, k: nat, d: nat)
    requires table.Valid() && Walked(table, hashing, visits, |table.ranges|) && k < |visits| == |table.paths|
    requires visits[k].newFrom <= d < table.paths[k].1
    ensures NewPrefix(table, visits, k, d) && d < |visits[k].hashes|
    ensures PrefixEntry(table, hashing, (k, d), Entry(visits[k].hashes[d], visits[k].group, visits[k].place.0, d))
  {
    hide PathHash, NewFrom, Ascends;
    var g := GroupOf(table, k, |table.ranges|);
    assert Visited(table, hashing, visits, g, k);
    VisitedEntry(table, hashing, visits, k);
  }

  /** The entry's path is that prefix. */
  lemma EntryPath(table: Table, hashing: Hashing, mark: (nat, nat), entry: Entry, g: nat)
    requires table.Valid() && PrefixEntry(table, hashing, mark, entry)
    requires g < |table.ranges| && table.ranges[g].from <= mark.0 < table.ranges[g].to
    ensures entry.group == g && Within(table.elements, entry.start, entry.len)
    ensures PathAt(table.elements, entry.start, entry.len) == Nth(table.elements, table.paths, mark.0)[..mark.1]
    ensures entry.hash == PathHash(hashing, entry.group, PathAt(table.elements, entry.start, entry.len))
  {
    hide PathHash, Ascends;
  }

  /** Once emitted at the first path that has it, a prefix is emitted at no other. */
  lemma PrefixesOnce(table: Table, hashing: Hashing, visits: seq<Visit>, marks: seq<(nat, nat)>, entries: seq<Entry>)
    requires table.Valid() && Walked(table, hashing, visits, |table.ranges|) && |visits| == |table.paths|
    requires Marked(table, visits, marks, |table.paths|, 0) && |marks| == |entries|
    requires forall i :: 0 <= i < |marks| ==> PrefixEntry(table, hashing, marks[i], entries[i])
    ensures Once(entries, table.elements)
  {
    hide PathHash, Ascends, NewFrom, VisitOk;
    forall i, j | 0 <= i < j < |entries| ensures !Same(entries[i], entries[j], table.elements) {
      assert PrefixEntry(table, hashing, marks[i], entries[i]) && PrefixEntry(table, hashing, marks[j], entries[j]);
      var (k, l) := (marks[i].0, marks[j].0);
      if k < l && Same(entries[i], entries[j], table.elements) {
        var g := GroupOf(table, k, |table.ranges|);
        var h := GroupOf(table, l, |table.ranges|);
        EntryPath(table, hashing, marks[i], entries[i], g);
        EntryPath(table, hashing, marks[j], entries[j], h);
        assert (k, marks[i].1) in marks && (l, marks[j].1) in marks;
        NotBefore(table, hashing, visits, g, k, l, marks[j].1);
      }
    }
  }

  /** A new prefix is no strict prefix of a path before. */
  lemma NotBefore(table: Table, hashing: Hashing, visits: seq<Visit>, g: nat, k: nat, l: nat, d: nat)
    requires table.Valid() && Walked(table, hashing, visits, |table.ranges|) && |visits| == |table.paths|
    requires g < |table.ranges| && table.ranges[g].from <= k < l < table.ranges[g].to && NewPrefix(table, visits, l, d)
    ensures !Strict(Nth(table.elements, table.paths, l)[..d], Nth(table.elements, table.paths, k))
  {
    hide PathHash, Ascends;
    assert Visited(table, hashing, visits, g, l);
  }

  /** A strict prefix is new at the first path that has it. */
  lemma {:induction false} FirstBeyond(table: Table, hashing: Hashing, visits: seq<Visit>, g: nat, path: Path, k: nat)
      returns (first: nat)
    requires table.Valid() && Walked(table, hashing, visits, |table.ranges|) && |visits| == |table.paths|
    requires g < |table.ranges| && table.ranges[g].from <= k < table.ranges[g].to
             && Strict(path, Nth(table.elements, table.paths, k))
    ensures table.ranges[g].from <= first < table.ranges[g].to && Strict(path, Nth(table.elements, table.paths, first))
    ensures NewPrefix(table, visits, first, |path|)
  {
    hide PathHash, Ascends;
    assert Visited(table, hashing, visits, g, k);
    if |path| >= visits[k].newFrom {
      first := k;
    } else {
      assert Nth(table.elements, table.paths, k)[..|path|] == path;
      var i :| table.ranges[g].from <= i < k && Strict(path, Nth(table.elements, table.paths, i));
      first := FirstBeyond(table, hashing, visits, g, path, i);
    }
  }

  lemma PrefixEntries(table: Table, hashing: Hashing, visits: seq<Visit>, marks: seq<(nat, nat)>, entries: seq<Entry>)
    requires table.Valid() && Walked(table, hashing, visits, |table.ranges|) && |visits| == |table.paths|
    requires Marked(table, visits, marks, |table.paths|, 0) && |marks| == |entries|
    requires forall i :: 0 <= i < |marks| ==> PrefixEntry(table, hashing, marks[i], entries[i])
    ensures Hashed(entries, table.elements, hashing)
    ensures Once(entries, table.elements)
    ensures forall g: nat, path: Path :: g < |table.ranges| ==>
              (Addresses.Holds(entries, table.elements, g, path) <==> table.HasBeyond(g, path))
  {
    hide PathHash, Ascends, Walked, Once, PathAt, Nth;
    PrefixesOnce(table, hashing, visits, marks, entries);
    forall i | 0 <= i < |entries|
      ensures Within(table.elements, entries[i].start, entries[i].len)
      ensures entries[i].hash
              == PathHash(hashing, entries[i].group, PathAt(table.elements, entries[i].start, entries[i].len))
    {
      assert (marks[i].0, marks[i].1) in marks;
      var g := GroupOf(table, marks[i].0, |table.ranges|);
      EntryPath(table, hashing, marks[i], entries[i], g);
    }
    forall g: nat, path: Path | g < |table.ranges|
      ensures Addresses.Holds(entries, table.elements, g, path) <==> table.HasBeyond(g, path)
    {
      if i :| 0 <= i < |entries| && Is(entries[i], table.elements, g, path) {
        EntryBeyond(table, hashing, visits, marks, entries, i);
      }
      if table.HasBeyond(g, path) {
        BeyondEntry(table, hashing, visits, marks, entries, g, path);
      }
    }
  }

  lemma EntryBeyond(table: Table, hashing: Hashing, visits: seq<Visit>, marks: seq<(nat, nat)>,
                    entries: seq<Entry>, i: nat)
    requires table.Valid() && Marked(table, visits, marks, |table.paths|, 0) && i < |marks| == |entries|
    requires PrefixEntry(table, hashing, marks[i], entries[i])
    ensures entries[i].group < |table.ranges| && Within(table.elements, entries[i].start, entries[i].len)
    ensures table.HasBeyond(entries[i].group, PathAt(table.elements, entries[i].start, entries[i].len))
  {
    hide PathHash, Ascends;
    assert (marks[i].0, marks[i].1) in marks;
    var g := GroupOf(table, marks[i].0, |table.ranges|);
    EntryPath(table, hashing, marks[i], entries[i], g);
    assert Strict(Nth(table.elements, table.paths, marks[i].0)[..marks[i].1],
                  Nth(table.elements, table.paths, marks[i].0));
  }

  lemma BeyondEntry(table: Table, hashing: Hashing, visits: seq<Visit>, marks: seq<(nat, nat)>, entries: seq<Entry>,
                    g: nat, path: Path)
    requires table.Valid() && Walked(table, hashing, visits, |table.ranges|) && |visits| == |table.paths|
    requires Marked(table, visits, marks, |table.paths|, 0) && |marks| == |entries|
    requires forall i :: 0 <= i < |marks| ==> PrefixEntry(table, hashing, marks[i], entries[i])
    requires g < |table.ranges| && table.HasBeyond(g, path)
    ensures Addresses.Holds(entries, table.elements, g, path)
  {
    hide PathHash, Ascends, Walked, PathAt, Nth, PrefixEntry;
    var k :| table.ranges[g].from <= k < table.ranges[g].to && Strict(path, Nth(table.elements, table.paths, k));
    var first := FirstBeyond(table, hashing, visits, g, path, k);
    assert (first, |path|) in marks;
    var i :| 0 <= i < |marks| && marks[i] == (first, |path|);
    EntryPath(table, hashing, marks[i], entries[i], g);
    assert Is(entries[i], table.elements, g, path);
  }

  lemma Prefixes(index: PathIndex, entries: seq<Entry>, table: Table, hashing: Hashing)
    requires table.Valid() && index.Valid() && Hashed(index.entries, table.elements, hashing)
    requires Once(index.entries, table.elements)
    requires forall g: nat, path: Path :: g < |table.ranges| ==>
               (Addresses.Holds(entries, table.elements, g, path) <==> table.HasBeyond(g, path))
    requires forall g: nat, path: Path :: Addresses.Holds(entries, table.elements, g, path)
               <==> Addresses.Holds(index.entries, table.elements, g, path)
    ensures IsPrefixes(index, table, hashing)
  {
    hide Table.Valid, Hashed, Once, Addresses.Holds, Table.HasBeyond;
  }

  /** Every distinct strict prefix of a source path by its hash. */
  method PrefixIndex(table: Table, hashing: Hashing) returns (index: PathIndex)
    requires table.Valid()
    ensures IsPrefixes(index, table, hashing)
  {
    hide *;
    var visits := Walk(table, hashing);
    var entries: seq<Entry> := [];
    ghost var marks: seq<(nat, nat)> := [];
    NothingMarked(table, visits);
    for k := 0 to |visits|
      invariant |marks| == |entries|
      invariant forall i :: 0 <= i < |marks| ==> PrefixEntry(table, hashing, marks[i], entries[i])
      invariant Marked(table, visits, marks, k, 0)
    {
      var visit := visits[k];
      var d := visit.newFrom;
      MarkNext(table, visits, marks, k, 0);
      VisitedEntry(table, hashing, visits, k);
      VisitedPlace(table, hashing, visits, k);
      while d < visit.place.1
        invariant |marks| == |entries|
        invariant forall i :: 0 <= i < |marks| ==> PrefixEntry(table, hashing, marks[i], entries[i])
        invariant visit.newFrom <= d && Marked(table, visits, marks, k, d)
      {
        VisitedPrefix(table, hashing, visits, k, d);
        MarkNext(table, visits, marks, k, d);
        entries := entries + [Entry(visit.hashes[d], visit.group, visit.place.0, d)];
        marks := marks + [(k, d)];
        d := d + 1;
      }
      MarkNext(table, visits, marks, k, d);
    }
    PrefixEntries(table, hashing, visits, marks, entries);
    index := NewPathIndex(entries);
    EntriesKept(entries, index.entries, table.elements, hashing);
    OnceKept(entries, index.entries, table.elements);
    Prefixes(index, entries, table, hashing);
  }
}
