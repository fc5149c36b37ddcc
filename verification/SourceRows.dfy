/**
 A relation's sources, collected into groups, sorted and looked up: the rows a mask keeps are
 exactly the ones a comparison with every source keeps.
 */
module SourceRows {
  import opened Wrappers
  import opened Grouping
  import opened Addresses

  /** Some source row has this key and this address. */
  ghost predicate Kept<Key(!new)>(sources: seq<Source<Key>>, key: Key, path: Path) {
    exists i :: 0 <= i < |sources| && sources[i] == Source(Some(key), Some(path))
  }

  /** A source row relates to the target row: the same group key, neither null, and related addresses. */
  ghost predicate Matches<Key(!new)>(sources: seq<Source<Key>>, target: Source<Key>, mode: Mode, inclusive: bool) {
    && target.key.Some? && target.address.Some?
    && exists path :: Kept(sources, target.key.value, path) && Relates(path, target.address.value, mode, inclusive)
  }

  // ----- the comparison with every source -----

  ghost predicate Listed<Key(!new)>(sources: seq<Source<Key>>, addresses: map<Key, seq<Path>>) {
    forall key: Key, path: Path :: Kept(sources, key, path) <==> key in addresses && path in addresses[key]
  }

  lemma KeptStep<Key(!new)>(was: seq<Source<Key>>, source: Source<Key>, now: seq<Source<Key>>)
    requires now == was + [source]
    ensures forall key: Key, path: Path ::
              Kept(now, key, path) <==> Kept(was, key, path) || source == Source(Some(key), Some(path))
  {
    forall key: Key, path: Path
      ensures Kept(now, key, path) <==> Kept(was, key, path) || source == Source(Some(key), Some(path))
    {
      if k :| 0 <= k < |was| && was[k] == Source(Some(key), Some(path)) {
        assert now[k] == was[k];
      }
      assert now[|was|] == source;
    }
  }

  /** The lists with one more source's address. */
  function Push<Key>(addresses: map<Key, seq<Path>>, source: Source<Key>): map<Key, seq<Path>> {
    if source.address.None? || source.key.None? then addresses
    else
      var before := if source.key.value in addresses then addresses[source.key.value] else [];
      addresses[source.key.value := before + [source.address.value]]
  }

  lemma ListedStep<Key(!new)>(was: seq<Source<Key>>, source: Source<Key>, now: seq<Source<Key>>,
                              addresses: map<Key, seq<Path>>)
    requires now == was + [source] && Listed(was, addresses)
    ensures Listed(now, Push(addresses, source))
  {
    KeptStep(was, source, now);
    hide Kept;
    var more := Push(addresses, source);
    forall key: Key, path: Path ensures Kept(now, key, path) <==> key in more && path in more[key] {
      assert Kept(was, key, path) <==> key in addresses && path in addresses[key];
    }
  }

  lemma NothingListed<Key(!new)>(sources: seq<Source<Key>>, addresses: map<Key, seq<Path>>)
    requires addresses == map[]
    ensures Listed(sources[..0], addresses)
  {
  }

  /** A group key's column: absent, of no integers, or each row's join word, where it is not null. */
  datatype KeyColumn = Absent | NotIntegers | Integers(words: seq<Option<nat>>)

  /** A batch: its key columns, and its addresses, unless the column is absent or holds no lists. */
  datatype Batch = Batch(rows: nat, keys: seq<KeyColumn>, addresses: Option<seq<Option<Path>>>) {
    ghost predicate Valid() {
      && (forall c :: 0 <= c < |keys| && keys[c].Integers? ==> |keys[c].words| == rows)
      && (addresses.Some? ==> |addresses.value| == rows)
    }

    predicate HasWord(c: nat, row: nat) {
      c < |keys| && keys[c].Integers? && row < |keys[c].words| && keys[c].words[row].Some?
    }

    /** A row's key: the words of its key columns, where it has them all. */
    function Key(row: nat): Option<seq<nat>> {
      if forall c :: 0 <= c < |keys| ==> HasWord(c, row)
      then Some(seq(|keys|, c requires 0 <= c < |keys| && HasWord(c, row) => keys[c].words[row].value)) else None
    }

    function Row(row: nat): Source<seq<nat>> {
      Source(Key(row), if addresses.Some? && row < |addresses.value| then addresses.value[row] else None)
    }

    function Rows(): (all: seq<Source<seq<nat>>>)
      ensures |all| == rows
    {
      seq(rows, r requires 0 <= r => Row(r))
    }

    /** A row's key cannot be read: its first column without a word is none of integers. */
    predicate Unsupported(row: nat) {
      exists c :: 0 <= c < |keys| && keys[c].NotIntegers? && forall d :: 0 <= d < c ==> HasWord(d, row)
    }

    /** The comparison cannot read the batch: it lacks a column, or a row with an address has an unsupported key. */
    predicate Unreadable() {
      || Absent in keys || addresses.None?
      || exists row :: 0 <= row < rows && Row(row).address.Some? && Unsupported(row)
    }
  }

  /** What a row's key columns give. */
  datatype GroupKey = Bad | Null | Words(words: seq<nat>)

  /** Reads a row's key column by column, and no further than the first null or unsupported one. */
  method MakeGroupKey(batch: Batch, row: nat) returns (key: GroupKey)
    requires batch.Valid() && row < batch.rows && Absent !in batch.keys
    ensures key.Bad? <==> batch.Unsupported(row)
    ensures key.Null? ==> batch.Key(row) == None
    ensures key.Words? ==> batch.Key(row) == Some(key.words)
  {
    var words: seq<nat> := [];
    for c := 0 to |batch.keys|
      invariant |words| == c
      invariant forall d :: 0 <= d < c ==> batch.HasWord(d, row) && words[d] == batch.keys[d].words[row].value
    {
      assert batch.keys[c] in batch.keys;
      if batch.keys[c].NotIntegers? {
        return Bad;
      }
      if batch.keys[c].words[row].None? {
        assert !batch.HasWord(c, row);
        return Null;
      }
      words := words + [batch.keys[c].words[row].value];
    }
    assert batch.Key(row).value == words;
    return Words(words);
  }

  /** The rows of all batches, in order. */
  function AllRows(batches: seq<Batch>): seq<Source<seq<nat>>> {
    if batches == [] then [] else AllRows(batches[..|batches| - 1]) + batches[|batches| - 1].Rows()
  }

  /** Adds a batch's addresses to its rows' keys' lists. */
  method ListBatch(ghost was: seq<Source<seq<nat>>>, batch: Batch, addresses: map<seq<nat>, seq<Path>>)
    returns (more: Option<map<seq<nat>, seq<Path>>>)
    requires batch.Valid() && Listed(was, addresses)
    ensures more.None? <==> batch.Unreadable()
    ensures more.Some? ==> Listed(was + batch.Rows(), more.value)
  {
    hide Listed, Batch.Key, Batch.Unsupported;
    if Absent in batch.keys || batch.addresses.None? {
      return None;
    }
    var lists := addresses;
    assert was + batch.Rows()[..0] == was;
    for r := 0 to batch.rows
      invariant Listed(was + batch.Rows()[..r], lists)
      invariant forall k :: 0 <= k < r && batch.Row(k).address.Some? ==> !batch.Unsupported(k)
    {
      var source := batch.Row(r);
      ListedStep(was + batch.Rows()[..r], source, was + batch.Rows()[..r + 1], lists);
      if source.address.Some? {
        var key := MakeGroupKey(batch, r);
        if key.Bad? {
          return None;
        }
        if key.Words? {
          lists := Push(lists, Source(Some(key.words), source.address));
        }
      }
    }
    assert batch.Rows()[..batch.rows] == batch.Rows();
    return Some(lists);
  }

  /** Compares a row with every listed address of its key. */
  method CompareRow<Key(==, !new)>(ghost sources: seq<Source<Key>>, addresses: map<Key, seq<Path>>, key: Key,
                                   path: Path,
                                   mode: Mode, inclusive: bool)
    returns (related: bool)
    requires Listed(sources, addresses)
    ensures related <==> Matches(sources, Source(Some(key), Some(path)), mode, inclusive)
  {
    hide Relates, Kept;
    related := false;
    if key in addresses {
      var candidates := addresses[key];
      for k := 0 to |candidates|
        invariant related <==> exists c :: 0 <= c < k && Relates(candidates[c], path, mode, inclusive)
      {
        related := related || Relates(candidates[k], path, mode, inclusive);
      }
      if related {
        var c :| 0 <= c < |candidates| && Relates(candidates[c], path, mode, inclusive);
        assert candidates[c] in candidates;
      }
    }
  }

  /** A mask keeps exactly a batch's rows that relate to a source row. */
  ghost predicate MaskOf(sources: seq<Source<seq<nat>>>, batch: Batch, mode: Mode, inclusive: bool, mask: seq<bool>) {
    |mask| == batch.rows && forall r :: 0 <= r < batch.rows ==>
                              (mask[r] <==> Matches(sources, batch.Row(r), mode, inclusive))
  }

  /** Which rows of a batch relate to a source row. */
  method CompareBatch(ghost sources: seq<Source<seq<nat>>>, addresses: map<seq<nat>, seq<Path>>, batch: Batch,
                      mode: Mode,
                      inclusive: bool)
    returns (mask: Option<seq<bool>>)
    requires batch.Valid() && Listed(sources, addresses)
    ensures mask.None? <==> batch.Unreadable()
    ensures mask.Some? ==> MaskOf(sources, batch, mode, inclusive, mask.value)
  {
    hide Listed, Batch.Key, Batch.Unsupported;
    if Absent in batch.keys || batch.addresses.None? {
      return None;
    }
    var matches: seq<bool> := [];
    for r := 0 to batch.rows
      invariant |matches| == r
      invariant forall k :: 0 <= k < r ==> (matches[k] <==> Matches(sources, batch.Row(k), mode, inclusive))
      invariant forall k :: 0 <= k < r && batch.Row(k).address.Some? ==> !batch.Unsupported(k)
    {
      var related := false;
      if batch.addresses.value[r].Some? {
        var key := MakeGroupKey(batch, r);
        if key.Bad? {
          return None;
        }
        if key.Words? {
          related := CompareRow(sources, addresses, key.words, batch.addresses.value[r].value, mode, inclusive);
        }
      }
      matches := matches + [related];
    }
    return Some(matches);
  }

  /** The simple form: each key's source addresses in a list, and each target row compared with all of its key's. It
      is refused where a batch cannot be read, unless there is none on one side. */
  method CompareWithEvery(sources: seq<Batch>, targets: seq<Batch>, mode: Mode, inclusive: bool)
    returns (masks: Option<seq<seq<bool>>>)
    requires forall batch :: batch in sources || batch in targets ==> batch.Valid()
    ensures masks.None?
            <==> sources != [] && targets != [] && exists batch :: batch in sources + targets && batch.Unreadable()
    ensures masks.Some? ==> |masks.value| == |targets|
    ensures masks.Some? ==>
              forall b :: 0 <= b < |targets| ==> MaskOf(AllRows(sources), targets[b], mode, inclusive, masks.value[b])
  {
    hide Matches, Listed, Batch.Unreadable, Batch.Key;
    if sources == [] || targets == [] {
      masks := Some(seq(|targets|, b requires 0 <= b < |targets| => seq(targets[b].rows, _ => false)));
      if sources == [] {
        forall b | 0 <= b < |targets| ensures MaskOf([], targets[b], mode, inclusive, masks.value[b]) {
          NothingMatches(targets[b], mode, inclusive);
        }
      }
      return;
    }
    var addresses: map<seq<nat>, seq<Path>> := map[];
    NothingListed(AllRows(sources), addresses);
    assert AllRows(sources)[..0] == AllRows(sources[..0]);
    for i := 0 to |sources|
      invariant Listed(AllRows(sources[..i]), addresses)
      invariant forall k :: 0 <= k < i ==> !sources[k].Unreadable()
    {
      assert sources[..i + 1][..i] == sources[..i];
      var more := ListBatch(AllRows(sources[..i]), sources[i], addresses);
      if more.None? {
        assert sources[i] in sources + targets;
        return None;
      }
      addresses := more.value;
    }
    assert sources[..|sources|] == sources;
    var all: seq<seq<bool>> := [];
    for i := 0 to |targets|
      invariant |all| == i
      invariant forall k :: 0 <= k < i ==> MaskOf(AllRows(sources), targets[k], mode, inclusive, all[k])
      invariant forall k :: 0 <= k < i ==> !targets[k].Unreadable()
    {
      var mask := CompareBatch(AllRows(sources), addresses, targets[i], mode, inclusive);
      if mask.None? {
        assert targets[i] in sources + targets;
        return None;
      }
      all := all + [mask.value];
    }
    return Some(all);
  }

  lemma NothingMatches(batch: Batch, mode: Mode, inclusive: bool)
    ensures forall r: nat :: r < batch.rows ==> !Matches([], batch.Row(r), mode, inclusive)
  {
    hide Relates;
  }

  // ----- the sources collected by group -----

  type Place = (nat, nat)

  /** Group ids are dense and no two keys share one. */
  ghost predicate Ids<Key>(groups: map<Key, nat>) {
    && (forall key :: key in groups ==> groups[key] < |groups|)
    && (forall a, b :: a in groups && b in groups && groups[a] == groups[b] ==> a == b)
  }

  /** An item is `group`'s `path`. */
  ghost predicate IsItem(item: Keyed<Place>, elements: seq<nat>, group: nat, path: Path) {
    item.0 == Some(group) && Within(elements, item.1.0, item.1.1) && PathAt(elements, item.1.0, item.1.1) == path
  }

  ghost predicate HasItem(items: seq<Keyed<Place>>, elements: seq<nat>, group: nat, path: Path) {
    exists k :: 0 <= k < |items| && IsItem(items[k], elements, group, path)
  }

  /** Every item is in a group and among the elements. */
  ghost predicate Sound(items: seq<Keyed<Place>>, elements: seq<nat>, groups: nat) {
    forall k :: 0 <= k < |items| ==>
      items[k].0.Some? && items[k].0.value < groups && Within(elements, items[k].1.0, items[k].1.1)
  }

  /** The items are the sources' addresses by group. */
  ghost predicate Collected<Key(!new)>(sources: seq<Source<Key>>, groups: map<Key, nat>, elements: seq<nat>,
                                       items: seq<Keyed<Place>>) {
    Ids(groups) && Sound(items, elements, |groups|) && forall key: Key :: Agrees(sources, groups, elements, items, key)
  }

  ghost predicate Agrees<Key(!new)>(sources: seq<Source<Key>>, groups: map<Key, nat>, elements: seq<nat>,
                                    items: seq<Keyed<Place>>,
                                    key: Key) {
    forall path: Path :: Kept(sources, key, path) <==> key in groups && HasItem(items, elements, groups[key], path)
  }

  /** The id of `key`, assigned on first sight. */
  function Entered<Key>(groups: map<Key, nat>, key: Key): map<Key, nat> {
    if key in groups then groups else groups[key := |groups|]
  }

  lemma HasItemStep(items: seq<Keyed<Place>>, elements: seq<nat>, group: nat, path: Path)
    requires forall k :: 0 <= k < |items| ==> Within(elements, items[k].1.0, items[k].1.1)
    ensures forall g: nat, p: Path ::
              HasItem(items + [(Some(group), (|elements|, |path|))], elements + path, g, p)
              <==> HasItem(items, elements, g, p) || (g == group && p == path)
  {
    var (more, longer) := (items + [(Some(group), (|elements|, |path|))], elements + path);
    assert PathAt(longer, |elements|, |path|) == path;
    forall k, g: nat, p: Path | 0 <= k < |items|
      ensures IsItem(more[k], longer, g, p) <==> IsItem(items[k], elements, g, p)
    {
      var (start, len) := items[k].1;
      assert Within(elements, start, len);
      assert PathAt(longer, start, len) == PathAt(elements, start, len);
    }
    forall g: nat, p: Path
      ensures HasItem(more, longer, g, p) <==> HasItem(items, elements, g, p) || (g == group && p == path)
    {
      if k :| 0 <= k < |items| && IsItem(items[k], elements, g, p) {
        assert IsItem(more[k], longer, g, p);
      }
      if g == group && p == path {
        assert IsItem(more[|items|], longer, g, p);
      }
    }
  }

  lemma EnteredIds<Key>(groups: map<Key, nat>, key: Key)
    requires Ids(groups)
    ensures var entered := Entered(groups, key);
            && Ids(entered) && key in entered && |groups| <= |entered|
            && entered[key] == (if key in groups then groups[key] else |groups|)
            && forall other :: other in entered <==> other == key || other in groups
    ensures forall other :: other in groups ==> Entered(groups, key)[other] == groups[other]
  {
    var entered := Entered(groups, key);
    assert key !in groups ==> |entered| == |groups| + 1;
  }

  lemma SoundStep(items: seq<Keyed<Place>>, elements: seq<nat>, groups: nat, group: nat, path: Path, more: nat)
    requires Sound(items, elements, groups) && groups <= more && group < more
    ensures Sound(items + [(Some(group), (|elements|, |path|))], elements + path, more)
  {
  }

  lemma CollectSkip<Key(!new)>(was: seq<Source<Key>>, source: Source<Key>, now: seq<Source<Key>>,
                               groups: map<Key, nat>, elements: seq<nat>, items: seq<Keyed<Place>>)
    requires now == was + [source] && Collected(was, groups, elements, items)
    requires source.address.None? || source.key.None?
    ensures Collected(now, groups, elements, items)
  {
    hide Kept, HasItem, Ids, Sound;
    KeptStep(was, source, now);
    forall key: Key ensures Agrees(now, groups, elements, items, key) {
      assert Agrees(was, groups, elements, items, key);
    }
  }

  lemma CollectStep<Key(!new)>(was: seq<Source<Key>>, now: seq<Source<Key>>, groups: map<Key, nat>, elements: seq<nat>,
                               items: seq<Keyed<Place>>, key: Key, path: Path)
    requires now == was + [Source(Some(key), Some(path))] && Collected(was, groups, elements, items)
    ensures var entered := Entered(groups, key);
            key in entered
            && Collected(now, entered, elements + path, items + [(Some(entered[key]), (|elements|, |path|))])
  {
    hide Kept, HasItem, Ids, Sound, Entered, Agrees;
    EnteredIds(groups, key);
    var entered := Entered(groups, key);
    IdsApart(groups);
    IdsApart(entered);
    SoundStep(items, elements, |groups|, entered[key], path, |entered|);
    var (longer, more) := (elements + path, items + [(Some(entered[key]), (|elements|, |path|))]);
    forall other: Key ensures Agrees(now, entered, longer, more, other) {
      AgreesStep(was, now, groups, elements, items, key, path, other);
    }
  }

  lemma AgreesStep<Key(!new)>(was: seq<Source<Key>>, now: seq<Source<Key>>, groups: map<Key, nat>, elements: seq<nat>,
                              items: seq<Keyed<Place>>, key: Key, path: Path, other: Key)
    requires now == was + [Source(Some(key), Some(path))] && Ids(groups) && Sound(items, elements, |groups|)
    requires Agrees(was, groups, elements, items, other)
    ensures var entered := Entered(groups, key);
            key in entered
            && Agrees(now, entered, elements + path, items + [(Some(entered[key]), (|elements|, |path|))], other)
  {
    hide Kept, HasItem, Ids, Sound, Entered;
    KeptStep(was, Source(Some(key), Some(path)), now);
    EnteredIds(groups, key);
    var entered := Entered(groups, key);
    IdsApart(groups);
    NoItemBeyond(items, elements, |groups|);
    SoundWithin(items, elements, |groups|);
    IdsApart(entered);
    HasItemStep(items, elements, entered[key], path);
    var (longer, more) := (elements + path, items + [(Some(entered[key]), (|elements|, |path|))]);
    forall p: Path ensures Kept(now, other, p) <==> other in entered && HasItem(more, longer, entered[other], p) {
      assert Kept(was, other, p) <==> other in groups && HasItem(items, elements, groups[other], p);
    }
  }

  lemma IdsApart<Key>(groups: map<Key, nat>)
    requires Ids(groups)
    ensures forall key :: key in groups ==> groups[key] < |groups|
    ensures forall a, b :: a in groups && b in groups && groups[a] == groups[b] ==> a == b
  {
  }

  lemma SoundWithin(items: seq<Keyed<Place>>, elements: seq<nat>, groups: nat)
    requires Sound(items, elements, groups)
    ensures forall k :: 0 <= k < |items| ==> Within(elements, items[k].1.0, items[k].1.1)
  {
  }

  lemma NoItemBeyond(items: seq<Keyed<Place>>, elements: seq<nat>, groups: nat)
    requires Sound(items, elements, groups)
    ensures forall path: Path :: !HasItem(items, elements, groups, path)
  {
  }

  lemma NothingCollected<Key(!new)>(sources: seq<Source<Key>>, groups: map<Key, nat>)
    requires groups == map[]
    ensures Collected(sources[..0], groups, [], [])
  {
  }

  /** Every source row with a key and an address, its group's id assigned on first sight. */
  method Collect<Key(==, !new)>(sources: seq<Source<Key>>)
    returns (groups: map<Key, nat>, elements: seq<nat>, items: seq<Keyed<Place>>)
    ensures Collected(sources, groups, elements, items)
  {
    hide Collected, Kept;
    groups, elements, items := map[], [], [];
    NothingCollected(sources, groups);
    for i := 0 to |sources|
      invariant Collected(sources[..i], groups, elements, items)
    {
      // A null address is not the empty one.
      if sources[i].address.None? || sources[i].key.None? {
        CollectSkip(sources[..i], sources[i], sources[..i + 1], groups, elements, items);
        continue;
      }
      var (key, path) := (sources[i].key.value, sources[i].address.value);
      CollectStep(sources[..i], sources[..i + 1], groups, elements, items, key, path);
      var start := |elements|;
      if key !in groups {
        groups := groups[key := |groups|];
      }
      elements := elements + path;
      items := items + [(Some(groups[key]), (start, |elements| - start))];
    }
    assert sources[..|sources|] == sources;
  }
}
