/**
 The scan over the windows left. It returns exactly the rows, and their positions, that masking
 the whole table keeps, for every table with truthful statistics, if and only if the filters
 keep no row outside the block range.
 */
module ColumnarScan {
  import opened Wrappers
  import opened IntTypes
  import opened Integers
  import opened Ranges
  import opened Columnar
  import opened ScanMeaning

  /** The rows a filter over the given positions keeps, with their positions. */
  function Filtered(table: Table, request: Request, positions: seq<nat>): (kept: seq<nat>)
    requires forall k :: 0 <= k < |positions| ==> positions[k] < |table.rows|
    ensures forall k :: 0 <= k < |kept| ==> kept[k] < |table.rows|
  {
    if positions == [] then []
    else
      var (before, i) := (Filtered(table, request, positions[..|positions| - 1]), positions[|positions| - 1]);
      if Keeps(table.types, request, table.rows[i]) then before + [i] else before
  }

  lemma {:induction false} SpanBelow(from: nat, to: nat)
    ensures |Span(from, to)| == if from < to then to - from else 0
    ensures forall k :: 0 <= k < |Span(from, to)| ==> Span(from, to)[k] == from + k
  {
    if from < to {
      SpanBelow(from, to - 1);
    }
  }

  /** Every row of the table. */
  function Everything(table: Table): (positions: seq<nat>)
    ensures forall k :: 0 <= k < |positions| ==> positions[k] < |table.rows|
  {
    SpanBelow(0, |table.rows|);
    Span(0, |table.rows|)
  }

  /** Ascending positions that leave out only rows the filter drops keep what every position keeps. */
  lemma {:induction false} FilteredSame(table: Table, request: Request, positions: seq<nat>, n: nat)
    requires n <= |table.rows|
    requires forall a, b :: 0 <= a < b < |positions| ==> positions[a] < positions[b]
    requires forall k :: 0 <= k < |positions| ==> positions[k] < n
    requires forall i: nat :: i < n && Keeps(table.types, request, table.rows[i]) ==> i in positions
    ensures forall k :: 0 <= k < |Span(0, n)| ==> Span(0, n)[k] < |table.rows|
    ensures Filtered(table, request, positions) == Filtered(table, request, Span(0, n))
  {
    hide Keeps, Filtered, Span;
    SpanBelow(0, n);
    assert positions != [] ==> positions[0] < n;
    if n == 0 {
      assert positions == Span(0, 0);
    } else {
      SpanBelow(0, n - 1);
      assert Span(0, n) == Span(0, n - 1) + [n - 1];
      FilterStep(table, request, Span(0, n - 1), n - 1, Span(0, n));
      if positions != [] && positions[|positions| - 1] == n - 1 {
        var before := positions[..|positions| - 1];
        assert positions == before + [n - 1];
        FilterStep(table, request, before, n - 1, positions);
        FilteredSame(table, request, before, n - 1);
      } else {
        assert forall k :: 0 <= k < |positions| ==> positions[k] <= positions[|positions| - 1];
        assert n - 1 !in positions;
        FilteredSame(table, request, positions, n - 1);
      }
    }
  }

  lemma FilterStep(table: Table, request: Request, before: seq<nat>, i: nat, now: seq<nat>)
    requires now == before + [i] && forall k :: 0 <= k < |now| ==> now[k] < |table.rows|
    ensures forall k :: 0 <= k < |before| ==> before[k] < |table.rows|
    ensures i < |table.rows|
    ensures Filtered(table, request, now)
            == if Keeps(table.types, request, table.rows[i]) then Filtered(table, request, before) + [i]
               else Filtered(table, request, before)
  {
    hide Keeps;
    assert now[..|now| - 1] == before;
    forall k | 0 <= k < |before| ensures before[k] < |table.rows| {
      assert now[k] == before[k];
    }
    assert now[|before|] == i;
  }

  predicate AscendingBelow(rows: seq<nat>, n: nat) {
    && (forall i, j :: 0 <= i < j < |rows| ==> rows[i] < rows[j])
    && (rows != [] ==> rows[|rows| - 1] < n)
  }

  // ----- the windows left -----

  ghost predicate IsCover(offsets: seq<nat>, rows: nat) {
    && offsets != [] && offsets[0] == 0 && offsets[|offsets| - 1] == rows
    && forall w :: 0 <= w < |offsets| - 1 ==> offsets[w] <= offsets[w + 1]
  }

  /** The columns the scan asks for statistics of, some perhaps more than once. */
  function Wanted(request: Request): seq<string> {
    (if request.block.Some? then [request.block.value] else [])
    + (if request.relation.Keys? then [request.relation.filter.block] else [])
    + ItemColumns(request.items)
  }

  function ItemColumns(items: seq<Item>): seq<string> {
    if items == [] then [] else ItemColumns(items[..|items| - 1]) + items[|items| - 1].columns
  }

  /** These columns, each once and in some order. */
  ghost predicate IsWanted(request: Request, wanted: seq<string>) {
    forall column :: column in wanted <==> column in Wanted(request)
  }

  /** The statistics of the wanted columns that cover the table, all cut into the first one's windows. */
  function UsableOf(table: Table, wanted: seq<string>): (found: (map<string, WindowStats>, Option<seq<nat>>)) {
    if wanted == [] then (map[], None)
    else
      var (n, name) := (|wanted| - 1, wanted[|wanted| - 1]);
      var (usable, offsets) := UsableOf(table, wanted[..n]);
      if name !in table.stats || !Covers(table.stats[name], |table.rows|) then (usable, offsets)
      else if offsets.Some? && offsets.value != table.stats[name].offsets then (usable, offsets)
      else (usable[name := table.stats[name]], Some(table.stats[name].offsets))
  }

  lemma {:induction false} UsableIs(table: Table, wanted: seq<string>)
    ensures var (usable, offsets) := UsableOf(table, wanted);
            && (offsets.None? ==> usable == map[])
            && (offsets.Some? ==> Usable(table, usable, offsets.value) && IsCover(offsets.value, |table.rows|))
  {
    if wanted != [] {
      UsableIs(table, wanted[..|wanted| - 1]);
    }
  }

  /** The same, column by column. */
  method UsableStats(table: Table, wanted: seq<string>)
    returns (usable: map<string, WindowStats>, offsets: Option<seq<nat>>)
    ensures (usable, offsets) == UsableOf(table, wanted)
    ensures offsets.None? ==> usable == map[]
    ensures offsets.Some? ==> Usable(table, usable, offsets.value) && IsCover(offsets.value, |table.rows|)
  {
    hide Covers, Usable, IsCover;
    usable, offsets := map[], None;
    for k := 0 to |wanted|
      invariant (usable, offsets) == UsableOf(table, wanted[..k])
    {
      assert wanted[..k + 1][..k] == wanted[..k];
      var name := wanted[k];
      if name !in table.stats || !Covers(table.stats[name], |table.rows|) {
        continue;
      }
      var own := table.stats[name];
      if offsets.None? {
        offsets := Some(own.offsets);
      } else if offsets.value != own.offsets {
        continue;
      }
      usable := usable[name := own];
    }
    assert wanted[..|wanted|] == wanted;
    UsableIs(table, wanted);
  }

  ghost predicate HasBlocks(table: Table, request: Request) {
    request.block.Some? ==>
      forall i: nat :: i < |table.rows| ==> BlockOf(table.types, table.rows[i], request.block.value).Some?
  }

  /** The rows of the first `w` windows but the pruned ones. */
  ghost function Unpruned(table: Table, request: Request, usable: map<string, WindowStats>, offsets: seq<nat>, w: nat)
      : seq<nat>
    requires Usable(table, usable, offsets) && w < |offsets|
  {
    if w == 0 then []
    else
      Windowed(table, usable, offsets, w - 1);
      Unpruned(table, request, usable, offsets, w - 1)
      + if Pruned(table.types, request, usable, w - 1) then [] else Span(offsets[w - 1], offsets[w])
  }

  lemma {:induction false} UnprunedBelow(table: Table, request: Request, usable: map<string, WindowStats>,
                                         offsets: seq<nat>, w: nat)
    requires Usable(table, usable, offsets) && IsCover(offsets, |table.rows|) && w < |offsets|
    ensures AscendingBelow(Unpruned(table, request, usable, offsets, w), offsets[w])
  {
    hide Pruned, Span, Usable;
    if w > 0 {
      UnprunedBelow(table, request, usable, offsets, w - 1);
      Windowed(table, usable, offsets, w - 1);
      WindowStep(table, request, usable, offsets, w - 1);
      AscendingOn(Unpruned(table, request, usable, offsets, w - 1), offsets[w - 1], offsets[w]);
    }
  }

  lemma AscendingOn(rows: seq<nat>, from: nat, to: nat)
    requires AscendingBelow(rows, from) && from <= to
    ensures AscendingBelow(rows, to) && AscendingBelow(rows + Span(from, to), to)
    ensures rows + [] == rows
  {
    SpanBelow(from, to);
    LastBounds(rows, from);
    hide Span;
    assert AscendingBelow(rows + Span(from, to), to);
  }

  lemma LastBounds(rows: seq<nat>, n: nat)
    requires AscendingBelow(rows, n)
    ensures forall k :: 0 <= k < |rows| ==> rows[k] < n
    ensures forall a, b :: 0 <= a < b < |rows| ==> rows[a] < rows[b]
  {
    assert forall k :: 0 <= k < |rows| ==> rows[k] <= rows[|rows| - 1];
  }

  /** The positions the scan reads. */
  ghost function ReadRows(table: Table, request: Request, wanted: seq<string>): (rows: seq<nat>)
    ensures forall k :: 0 <= k < |rows| ==> rows[k] < |table.rows|
    ensures forall a, b :: 0 <= a < b < |rows| ==> rows[a] < rows[b]
  {
    UsableIs(table, wanted);
    SpanBelow(0, |table.rows|);
    var (usable, offsets) := UsableOf(table, wanted);
    if offsets.None? then Span(0, |table.rows|)
    else
      UnprunedBelow(table, request, usable, offsets.value, |offsets.value| - 1);
      LastBounds(Unpruned(table, request, usable, offsets.value, |offsets.value| - 1), |table.rows|);
      Unpruned(table, request, usable, offsets.value, |offsets.value| - 1)
  }

  /** What the scan returns: the positions it reads, filtered. */
  ghost function ScanOf(table: Table, request: Request, wanted: seq<string>): (kept: seq<nat>)
    ensures forall k :: 0 <= k < |kept| ==> kept[k] < |table.rows|
  {
    Filtered(table, request, ReadRows(table, request, wanted))
  }

  /** The windows statistics cannot rule out, merged into ranges that are sorted, disjoint and not empty. */
  method CandidateRows(table: Table, request: Request, wanted: seq<string>) returns (ranges: seq<(nat, nat)>)
    ensures Separate(ranges) && Expanded(ranges) == ReadRows(table, request, wanted)
  {
    hide Usable, Pruned, IsCover, Span, Unpruned, Separate;
    var rows := |table.rows|;
    var usable, found := UsableStats(table, wanted);
    if rows == 0 {
      NoRows(table, request, wanted);
      return [];
    }
    if found.None? {
      ExpandedStep([], 0, rows);
      OneRange(rows);
      return [(0, rows)];
    }
    var offsets := found.value;
    ranges := [];
    Unread(table, request, usable, offsets);
    for w := 0 to |offsets| - 1
      invariant Separate(ranges) && (ranges != [] ==> ranges[|ranges| - 1].1 <= offsets[w])
      invariant Expanded(ranges) == Unpruned(table, request, usable, offsets, w)
    {
      Windowed(table, usable, offsets, w);
      WindowStep(table, request, usable, offsets, w);
      if Pruned(table.types, request, usable, w) {
        continue;
      }
      var (from, to) := (offsets[w], offsets[w + 1]);
      if ranges != [] && ranges[|ranges| - 1].1 == from {
        RangeMerged(ranges, from, to);
        ranges := ranges[|ranges| - 1 := (ranges[|ranges| - 1].0, to)];
      } else if from == to {
        NoSpan(from);
      } else {
        ExpandedStep(ranges, from, to);
        RangePushed(ranges, from, to);
        ranges := ranges + [(from, to)];
      }
    }
  }

  lemma NoRows(table: Table, request: Request, wanted: seq<string>)
    requires |table.rows| == 0
    ensures Separate([]) && Expanded([]) == ReadRows(table, request, wanted)
  {
    NothingBelow(ReadRows(table, request, wanted), |table.rows|);
  }

  lemma NothingBelow(rows: seq<nat>, n: nat)
    requires forall k :: 0 <= k < |rows| ==> rows[k] < n
    ensures n == 0 ==> rows == []
  {
    if rows != [] {
      assert rows[0] < n;
    }
  }

  lemma OneRange(rows: nat)
    requires rows > 0
    ensures Separate([(0, rows)]) && Expanded([]) == [] && [] + [(0, rows)] == [(0, rows)]
  {
  }

  lemma Unread(table: Table, request: Request, usable: map<string, WindowStats>, offsets: seq<nat>)
    requires Usable(table, usable, offsets) && IsCover(offsets, |table.rows|)
    ensures |offsets| > 0 && Unpruned(table, request, usable, offsets, 0) == [] && Separate([])
  {
  }

  lemma WindowStep(table: Table, request: Request, usable: map<string, WindowStats>, offsets: seq<nat>, w: nat)
    requires Usable(table, usable, offsets) && IsCover(offsets, |table.rows|) && w + 1 < |offsets|
             && HasWindow(usable, w)
    ensures offsets[w] <= offsets[w + 1]
    ensures Unpruned(table, request, usable, offsets, w + 1)
            == Unpruned(table, request, usable, offsets, w)
               + if Pruned(table.types, request, usable, w) then [] else Span(offsets[w], offsets[w + 1])
  {
    hide Pruned, Span, Usable;
  }

  lemma NoSpan(from: nat)
    ensures Span(from, from) == []
  {
  }

  lemma {:induction false} SpanJoins(from: nat, mid: nat, to: nat)
    requires from <= mid <= to
    ensures Span(from, mid) + Span(mid, to) == Span(from, to)
  {
    if mid < to {
      SpanJoins(from, mid, to - 1);
    }
  }

  /** A window right after the last range is added to it. */
  lemma RangeMerged(ranges: seq<(nat, nat)>, from: nat, to: nat)
    requires Separate(ranges) && from <= to && ranges != [] && ranges[|ranges| - 1].1 == from
    ensures var now := ranges[|ranges| - 1 := (ranges[|ranges| - 1].0, to)];
            Separate(now) && Expanded(now) == Expanded(ranges) + Span(from, to)
  {
    hide Span;
    var (before, last) := (ranges[..|ranges| - 1], ranges[|ranges| - 1]);
    var now := ranges[|ranges| - 1 := (last.0, to)];
    SpanJoins(last.0, from, to);
    assert now[..|now| - 1] == before && now[|now| - 1] == (last.0, to);
  }

  /** A window past the last range is a range of its own. */
  lemma RangePushed(ranges: seq<(nat, nat)>, from: nat, to: nat)
    requires Separate(ranges) && from < to && (ranges != [] ==> ranges[|ranges| - 1].1 < from)
    ensures Separate(ranges + [(from, to)])
  {
    var now := ranges + [(from, to)];
    forall a, b | 0 <= a < b < |now| ensures now[a].1 < now[b].0 {
      if b == |ranges| && a < |ranges| - 1 {
        assert ranges[a].1 < ranges[|ranges| - 1].0 < ranges[|ranges| - 1].1;
      }
    }
  }

  // ----- the masks and the scan -----

  /** One item list's answers, ORed as three-valued truth and taken where they say yes. */
  method OrMask(items: seq<Item>, which: seq<nat>, row: Row) returns (any: bool)
    ensures any <==> AnyItem(items, which, row)
  {
    var result: Option<bool> := Some(false);
    for k := 0 to |which|
      invariant Yes(result) <==> exists j :: 0 <= j < k && which[j] < |items| && Yes(items[which[j]].matches(row))
    {
      if which[k] < |items| {
        var answer := items[which[k]].matches(row);
        result := if Yes(result) || Yes(answer) then Some(true) else if result.None? || answer.None? then None
                  else Some(false);
      }
    }
    return Yes(result);
  }

  /** Whether the filters keep a row, and each tag's items match it. */
  method RowMasks(types: map<string, IntType>, request: Request, row: Row) returns (keep: bool, tags: seq<bool>)
    ensures keep == Keeps(types, request, row)
    ensures |tags| == |request.tags|
    ensures forall g :: 0 <= g < |tags| ==> (tags[g] <==> AnyItem(request.items, request.tags[g], row))
  {
    keep := true;
    if ChecksBlocks(request) {
      var block := BlockOf(types, row, request.block.value);
      keep := keep && block.Some? && InBlocks(request, block.value);
    }
    keep := keep && RelationKeeps(request.relation, row);
    if request.items == [] {
      return keep, seq(|request.tags|, _ => false);
    }
    var every := seq(|request.items|, k => k);
    var any := OrMask(request.items, every, row);
    assert any <==> exists k :: 0 <= k < |request.items| && Yes(request.items[k].matches(row)) by {
      EveryItem(request.items, every, row);
    }
    keep := keep && any;
    tags := [];
    for g := 0 to |request.tags|
      invariant |tags| == g && forall h :: 0 <= h < g ==> (tags[h] <==> AnyItem(request.items, request.tags[h], row))
    {
      var tag := OrMask(request.items, request.tags[g], row);
      tags := tags + [tag];
    }
  }

  lemma EveryItem(items: seq<Item>, every: seq<nat>, row: Row)
    requires |every| == |items| && forall k :: 0 <= k < |items| ==> every[k] == k
    ensures AnyItem(items, every, row) <==> exists k :: 0 <= k < |items| && Yes(items[k].matches(row))
  {
    if k :| 0 <= k < |items| && Yes(items[k].matches(row)) {
      assert every[k] == k;
    }
  }

  /** What is read: each row, with its position, and its tags. */
  datatype ScannedRow = ScannedRow(position: nat, row: Row, tags: seq<bool>)

  ghost predicate IsScan(table: Table, request: Request, positions: seq<nat>, scanned: seq<ScannedRow>)
    requires forall k :: 0 <= k < |positions| ==> positions[k] < |table.rows|
  {
    && |scanned| == |positions|
    && forall k :: 0 <= k < |scanned| ==>
         && scanned[k].position == positions[k] && scanned[k].row == table.rows[positions[k]]
         && |scanned[k].tags| == |request.tags|
         && forall g :: 0 <= g < |request.tags| ==>
              (scanned[k].tags[g] <==> AnyItem(request.items, request.tags[g], scanned[k].row))
  }

  /** The rows at the given positions that the masks keep. */
  method ReadAndFilter(table: Table, request: Request, positions: seq<nat>) returns (scanned: seq<ScannedRow>)
    requires forall k :: 0 <= k < |positions| ==> positions[k] < |table.rows|
    ensures IsScan(table, request, Filtered(table, request, positions), scanned)
  {
    hide Keeps, AnyItem;
    scanned := [];
    for k := 0 to |positions|
      invariant IsScan(table, request, Filtered(table, request, positions[..k]), scanned)
    {
      assert positions[..k + 1][..k] == positions[..k];
      var row := table.rows[positions[k]];
      var keep, tags := RowMasks(table.types, request, row);
      if keep {
        scanned := scanned + [ScannedRow(positions[k], row, tags)];
      }
    }
    assert positions[..|positions|] == positions;
  }

  // ----- what is returned, said of the request's fields -----

  /** Rows of the table, in its order, each one asked for, with its tags. */
  ghost predicate Returned(table: Table, request: Request, scanned: seq<ScannedRow>) {
    && (forall k :: 0 <= k < |scanned| ==>
          && scanned[k].position < |table.rows| && scanned[k].row == table.rows[scanned[k].position]
          && Asked(table.types, request, scanned[k].row) && TagsMatch(request, scanned[k]))
    && (forall a, b :: 0 <= a < b < |scanned| ==> scanned[a].position < scanned[b].position)
  }

  /** Each tag says whether one of its items matches. */
  ghost predicate TagsMatch(request: Request, scanned: ScannedRow) {
    && |scanned.tags| == |request.tags|
    && forall g :: 0 <= g < |request.tags| ==>
         (scanned.tags[g] <==>
          exists k :: 0 <= k < |request.tags[g]| && request.tags[g][k] < |request.items|
                      && request.items[request.tags[g][k]].matches(scanned.row) == Some(true))
  }

  ghost predicate Returns(scanned: seq<ScannedRow>, position: nat) {
    exists k :: 0 <= k < |scanned| && scanned[k].position == position
  }

  /** Nothing that statistics could rule out: no items, no keys and no bounds. */
  ghost predicate AsksForAll(request: Request) {
    && request.items == [] && !request.relation.Keys? && request.to.None?
    && (request.from.Some? ==> request.from.value == 0)
  }

  /** The filter keeps of the positions those of rows asked for, in order. */
  lemma {:induction false} FilteredAsked(table: Table, request: Request, positions: seq<nat>)
    requires forall k :: 0 <= k < |positions| ==> positions[k] < |table.rows|
    requires forall a, b :: 0 <= a < b < |positions| ==> positions[a] < positions[b]
    ensures var kept := Filtered(table, request, positions);
            && (forall i :: i in kept <==> i in positions && Asked(table.types, request, table.rows[i]))
            && (forall a, b :: 0 <= a < b < |kept| ==> kept[a] < kept[b])
  {
    hide Keeps, Asked, Filtered;
    if positions == [] {
      assert Filtered(table, request, positions) == [] by {
        NothingFiltered(table, request);
      }
    } else {
      var (before, i) := (positions[..|positions| - 1], positions[|positions| - 1]);
      assert positions == before + [i];
      FilterStep(table, request, before, i, positions);
      FilteredAsked(table, request, before);
      KeepsAsked(table.types, request, table.rows[i]);
      forall k | k in Filtered(table, request, before) ensures k < i {
        var a :| 0 <= a < |before| && before[a] == k;
        assert positions[a] < positions[|before|];
      }
      AppendRises(Filtered(table, request, before), i);
    }
  }

  lemma NothingFiltered(table: Table, request: Request)
    ensures Filtered(table, request, []) == []
  {
  }

  lemma AppendRises(kept: seq<nat>, i: nat)
    requires (forall a, b :: 0 <= a < b < |kept| ==> kept[a] < kept[b]) && forall k :: k in kept ==> k < i
    ensures var more := kept + [i]; forall a, b :: 0 <= a < b < |more| ==> more[a] < more[b]
  {
    assert forall a :: 0 <= a < |kept| ==> kept[a] in kept;
  }

  lemma ScanReturns(table: Table, request: Request, wanted: seq<string>, scanned: seq<ScannedRow>)
    requires IsScan(table, request, ScanOf(table, request, wanted), scanned)
    ensures Returned(table, request, scanned)
    ensures forall i: nat :: i < |table.rows| && Asked(table.types, request, table.rows[i]) ==>
              (Returns(scanned, i) <==> i in ReadRows(table, request, wanted))
  {
    hide Asked, ReadRows, Filtered;
    var (rows, kept) := (ReadRows(table, request, wanted), ScanOf(table, request, wanted));
    FilteredAsked(table, request, rows);
    forall k | 0 <= k < |scanned|
      ensures Asked(table.types, request, scanned[k].row) && TagsMatch(request, scanned[k])
    {
      assert kept[k] in kept;
    }
    forall i: nat | i < |table.rows| && Asked(table.types, request, table.rows[i])
      ensures Returns(scanned, i) <==> i in rows
    {
      if i in rows {
        var k :| 0 <= k < |kept| && kept[k] == i;
        assert scanned[k].position == i;
      }
      if Returns(scanned, i) {
        var k :| 0 <= k < |scanned| && scanned[k].position == i;
        assert kept[k] == i && kept[k] in kept;
      }
    }
  }

  /** A row is not read only where a window was pruned. */
  lemma UnreadPruned(table: Table, request: Request, wanted: seq<string>, i: nat)
    requires i < |table.rows| && i !in ReadRows(table, request, wanted)
    ensures table.stats != map[] && !AsksForAll(request)
  {
    UsableIs(table, wanted);
    hide Usable;
    var (usable, offsets) := UsableOf(table, wanted);
    SpanBelow(0, |table.rows|);
    assert Span(0, |table.rows|)[i] == i;
    NoStats(table, wanted);
    if offsets.Some? {
      ReadUnlessPruned(table, request, usable, offsets.value, |offsets.value| - 1, i);
      var w: nat :| PrunedAt(table, request, usable, offsets.value, w, i);
    }
  }

  lemma {:induction false} NoStats(table: Table, wanted: seq<string>)
    ensures table.stats == map[] ==> UsableOf(table, wanted) == (map[], None)
  {
    if wanted != [] {
      NoStats(table, wanted[..|wanted| - 1]);
    }
  }

  /** A block-number column that cannot place every row refuses the scan. */
  method BlocksReadable(table: Table, request: Request) returns (readable: bool)
    ensures readable <==> HasBlocks(table, request)
  {
    if request.block.None? {
      return true;
    }
    for i := 0 to |table.rows|
      invariant forall k: nat :: k < i ==> BlockOf(table.types, table.rows[k], request.block.value).Some?
    {
      if BlockOf(table.types, table.rows[i], request.block.value).None? {
        return false;
      }
    }
    return true;
  }

  /** The pruned scan, refused where some row has no block. It returns rows asked for, in the table's order; all of
      them where there are no statistics, and every row where nothing is asked. Where the filters keep no row outside
      the block range it is the full filter: the same rows, in order, with their positions and tags. */
  method Scan(table: Table, request: Request, wanted: seq<string>) returns (scanned: Option<seq<ScannedRow>>)
    ensures scanned.Some? <==> HasBlocks(table, request)
    ensures scanned.Some? ==> IsScan(table, request, ScanOf(table, request, wanted), scanned.value)
    ensures scanned.Some? ==> Returned(table, request, scanned.value)
    ensures scanned.Some? && (table.stats == map[] || AsksForAll(request)) ==>
              forall i: nat :: i < |table.rows| && Asked(table.types, request, table.rows[i]) ==>
                Returns(scanned.value, i)
    ensures scanned.Some? && AsksForAll(request) && request.relation.NoRelation? ==>
              |scanned.value| == |table.rows| && forall i :: 0 <= i < |table.rows| ==> scanned.value[i].position == i
    ensures scanned.Some? && WellTyped(table) && Truthful(table) && Promised(table.types, request)
            && KeptInRange(table.types, request) ==>
              IsScan(table, request, Filtered(table, request, Everything(table)), scanned.value)
  {
    hide WellTyped, Truthful, Promised, HasBlocks, Keeps, IsScan, KeptInRange, ReadRows, Filtered, Everything, Expanded,
         Returned, Returns, Asked, AsksForAll, ScanOf;
    var readable := BlocksReadable(table, request);
    if !readable {
      return None;
    }
    var ranges := CandidateRows(table, request, wanted);
    var read := ReadAndFilter(table, request, Expanded(ranges));
    if WellTyped(table) && Truthful(table) && Promised(table.types, request) && KeptInRange(table.types, request) {
      ScanIsFilter(table, request, wanted);
    }
    AllReturned(table, request, wanted, read);
    return Some(read);
  }

  lemma AllReturned(table: Table, request: Request, wanted: seq<string>, scanned: seq<ScannedRow>)
    requires IsScan(table, request, Filtered(table, request, ReadRows(table, request, wanted)), scanned)
    ensures IsScan(table, request, ScanOf(table, request, wanted), scanned)
    ensures Returned(table, request, scanned)
    ensures table.stats == map[] || AsksForAll(request) ==>
              forall i: nat :: i < |table.rows| && Asked(table.types, request, table.rows[i]) ==> Returns(scanned, i)
    ensures AsksForAll(request) && request.relation.NoRelation? ==>
              |scanned| == |table.rows| && forall i :: 0 <= i < |table.rows| ==> scanned[i].position == i
  {
    hide IsScan, ReadRows, Filtered, Asked, AsksForAll, Returns, Returned;
    ScanReturns(table, request, wanted, scanned);
    if table.stats == map[] || AsksForAll(request) {
      forall i: nat | i < |table.rows| && Asked(table.types, request, table.rows[i]) ensures Returns(scanned, i) {
        if i !in ReadRows(table, request, wanted) {
          UnreadPruned(table, request, wanted, i);
        }
      }
    }
    if AsksForAll(request) && request.relation.NoRelation? {
      forall i: nat | i < |table.rows| ensures Returns(scanned, i) {
        PlainAsks(table.types, request, table.rows[i]);
      }
      RisingFull(table, request, scanned, |table.rows|);
    }
  }

  lemma PlainAsks(types: map<string, IntType>, request: Request, row: Row)
    requires AsksForAll(request) && request.relation.NoRelation?
    ensures Asked(types, request, row)
  {
  }

  /** Positions in order that include all are all. */
  lemma {:induction false} RisingFull(table: Table, request: Request, scanned: seq<ScannedRow>, n: nat)
    requires Returned(table, request, scanned) && n == |table.rows|
    requires forall i: nat :: i < n ==> Returns(scanned, i)
    ensures |scanned| == n && forall i :: 0 <= i < n ==> scanned[i].position == i
  {
    hide Asked, TagsMatch;
    RisingAtLeast(scanned, |scanned|);
    forall i: nat | i < n ensures i < |scanned| && scanned[i].position == i {
      PositionAt(scanned, n, i);
    }
    if n > 0 {
      PositionAt(scanned, n, n - 1);
    }
    assert forall k :: 0 <= k < |scanned| ==> k <= scanned[k].position < n;
    if scanned != [] {
      assert scanned[|scanned| - 1].position < n;
    }
  }

  lemma {:induction false} RisingAtLeast(scanned: seq<ScannedRow>, m: nat)
    requires m <= |scanned| && forall a, b :: 0 <= a < b < |scanned| ==> scanned[a].position < scanned[b].position
    ensures forall k :: 0 <= k < m ==> scanned[k].position >= k
  {
    if m > 0 {
      RisingAtLeast(scanned, m - 1);
      assert m > 1 ==> scanned[m - 2].position < scanned[m - 1].position;
    }
  }

  lemma {:induction false} PositionAt(scanned: seq<ScannedRow>, n: nat, i: nat)
    requires i < n && forall a, b :: 0 <= a < b < |scanned| ==> scanned[a].position < scanned[b].position
    requires forall k: nat :: k < n ==> Returns(scanned, k)
    requires forall k :: 0 <= k < |scanned| ==> scanned[k].position >= k
    ensures i < |scanned| && scanned[i].position == i
    decreases i
  {
    assert Returns(scanned, i);
    var k :| 0 <= k < |scanned| && scanned[k].position == i;
    if k < i {
      PositionAt(scanned, n, k);
    }
  }

  // ----- when the scan is the full filter -----

  /** Every row of an unpruned window is read. */
  lemma {:induction false} ReadUnlessPruned(table: Table, request: Request, usable: map<string, WindowStats>,
                                            offsets: seq<nat>, w: nat, i: nat)
    requires Usable(table, usable, offsets) && IsCover(offsets, |table.rows|) && w < |offsets| && i < offsets[w]
    requires i !in Unpruned(table, request, usable, offsets, w)
    ensures exists v: nat :: PrunedAt(table, request, usable, offsets, v, i)
  {
    hide Pruned, Usable;
    assert w > 0;
    Windowed(table, usable, offsets, w - 1);
    hide Span;
    SpanBelow(offsets[w - 1], offsets[w]);
    assert i >= offsets[w - 1] ==> Span(offsets[w - 1], offsets[w])[i - offsets[w - 1]] == i;
    if i < offsets[w - 1] {
      ReadUnlessPruned(table, request, usable, offsets, w - 1, i);
    } else {
      assert PrunedAt(table, request, usable, offsets, w - 1, i);
    }
  }

  ghost predicate PrunedAt(table: Table, request: Request, usable: map<string, WindowStats>, offsets: seq<nat>, w: nat,
                           i: nat) {
    w + 1 < |offsets| && offsets[w] <= i < offsets[w + 1] && HasWindow(usable, w)
    && Pruned(table.types, request, usable, w)
  }

  /** A row the scan leaves out is one the filters drop, or one outside the block range. */
  lemma LeftOut(table: Table, request: Request, wanted: seq<string>, i: nat)
    requires WellTyped(table) && Truthful(table) && Promised(table.types, request) && HasBlocks(table, request)
    requires i < |table.rows| && i !in ReadRows(table, request, wanted) && Keeps(table.types, request, table.rows[i])
    ensures OutOfRange(table.types, request, table.rows[i])
  {
    hide WellTyped, Truthful, Promised, Keeps, Pruned, Usable, OutOfRange, BlockOf;
    UsableIs(table, wanted);
    var (usable, offsets) := UsableOf(table, wanted);
    SpanBelow(0, |table.rows|);
    assert Span(0, |table.rows|)[i] == i;
    if offsets.Some? {
      ReadUnlessPruned(table, request, usable, offsets.value, |offsets.value| - 1, i);
      var w: nat :| PrunedAt(table, request, usable, offsets.value, w, i);
      PrunedRow(table, request, usable, offsets.value, w, i);
    }
  }

  lemma ScanIsFilter(table: Table, request: Request, wanted: seq<string>)
    requires WellTyped(table) && Truthful(table) && Promised(table.types, request) && HasBlocks(table, request)
    requires KeptInRange(table.types, request)
    ensures ScanOf(table, request, wanted) == Filtered(table, request, Everything(table))
  {
    hide Truthful, Promised, Keeps, HasBlocks, ReadRows, OutOfRange, RowTyped;
    var rows := ReadRows(table, request, wanted);
    forall i: nat | i < |table.rows| && Keeps(table.types, request, table.rows[i]) ensures i in rows {
      assert RowTyped(table.types, table.rows[i]);
      if i !in rows {
        LeftOut(table, request, wanted, i);
      }
    }
    FilteredSame(table, request, rows, |table.rows|);
  }

  ghost predicate ScansRight(table: Table, request: Request, wanted: seq<string>) {
    ScanOf(table, request, wanted) == Filtered(table, request, Everything(table))
  }

  /** A table with these columns that the scan answers, its statistics truthful, and the columns it asks for. */
  ghost predicate ScanApplies(types: map<string, IntType>, table: Table, request: Request, wanted: seq<string>) {
    table.types == types && WellTyped(table) && Truthful(table) && HasBlocks(table, request)
    && IsWanted(request, wanted)
  }

  /** Of the columns a table has, and a request: the pruned scan is the full filter, whatever rows and truthful
      statistics the table has, if and only if the filters keep no row outside the block range. */
  lemma ScanExact(types: map<string, IntType>, request: Request)
    requires Promised(types, request)
    ensures (forall table: Table, wanted :: ScanApplies(types, table, request, wanted) ==>
               ScansRight(table, request, wanted))
            <==> KeptInRange(types, request)
  {
    hide WellTyped, Truthful, Promised, Keeps, HasBlocks, ScanOf, Filtered, Everything, IsWanted;
    if KeptInRange(types, request) {
      forall table: Table, wanted | ScanApplies(types, table, request, wanted)
        ensures ScansRight(table, request, wanted)
      {
        ScanIsFilter(table, request, wanted);
      }
    } else {
      hide RowTyped, OutOfRange;
      var row: Row :| RowTyped(types, row) && Keeps(types, request, row) && OutOfRange(types, request, row);
      var table, wanted := KeptRowPruned(types, request, row);
      assert !ScansRight(table, request, wanted);
    }
  }

  /** The table of one row kept outside the range: its own value bounds its block, and the scan loses it. */
  lemma KeptRowPruned(types: map<string, IntType>, request: Request, row: Row)
    returns (table: Table, wanted: seq<string>)
    requires RowTyped(types, row) && Keeps(types, request, row) && OutOfRange(types, request, row)
    ensures table.types == types && WellTyped(table) && Truthful(table) && HasBlocks(table, request)
    ensures IsWanted(request, wanted)
    ensures ScanOf(table, request, wanted) == [] && Filtered(table, request, Everything(table)) == [0]
  {
    hide Keeps;
    var (block, value) := (request.block.value, ValueOf(row, request.block.value).value);
    var stored := types[block];
    var stats := WindowStats([0, 1], stored, [Some(value)], [Some(value)]);
    table := Table([row], types, map[block := stats]);
    wanted := Wanted(request);
    OwnBounds(table, block, value);
    OnlyStats(table, block, stats, wanted);
    assert UsableOf(table, wanted) == (map[block := stats], Some([0, 1])) by {
      assert wanted[0] == block;
    }
    hide Wanted, IsWanted;
    var usable := map[block := stats];
    UsableIs(table, wanted);
    Windowed(table, usable, [0, 1], 0);
    OutsidePruned(types, request, row, usable, stored, value);
    WindowStep(table, request, usable, [0, 1], 0);
    Unread(table, request, usable, [0, 1]);
    OneKept(table, request);
  }

  /** A value states itself, and is its own bounds. */
  lemma OwnBounds(table: Table, block: string, value: int)
    requires |table.rows| == 1 && RowTyped(table.types, table.rows[0]) && block in table.types
    requires ValueOf(table.rows[0], block) == Some(value)
    requires table.stats == map[block := WindowStats([0, 1], table.types[block], [Some(value)], [Some(value)])]
    ensures WellTyped(table) && Truthful(table) && Covers(table.stats[block], 1)
  {
    hide IntType.Holds, IntType.Stored, Stated;
    var (stored, stats) := (table.types[block], table.stats[block]);
    assert States(value, stored, value, stored);
    StatedIs(value, stored, value, stored);
    forall w: nat, i: nat ensures TrueOf(table, stats, block, w, i) {
    }
  }

  lemma {:induction false} OnlyStats(table: Table, block: string, stats: WindowStats, wanted: seq<string>)
    requires table.stats == map[block := stats] && Covers(stats, |table.rows|)
    ensures UsableOf(table, wanted) == if block in wanted then (map[block := stats], Some(stats.offsets))
                                       else (map[], None)
  {
    if wanted != [] {
      var n := |wanted| - 1;
      OnlyStats(table, block, stats, wanted[..n]);
      assert wanted == wanted[..n] + [wanted[n]];
      assert map[block := stats][block := stats] == map[block := stats];
      assert map[][block := stats] == map[block := stats];
    }
  }

  lemma OutsidePruned(types: map<string, IntType>, request: Request, row: Row, usable: map<string, WindowStats>,
                      stored: IntType, value: int)
    requires RowTyped(types, row) && OutOfRange(types, request, row) && HasWindow(usable, 0)
    requires request.block.value in types && types[request.block.value] == stored
    requires ValueOf(row, request.block.value) == Some(value)
    requires usable == map[request.block.value := WindowStats([0, 1], stored, [Some(value)], [Some(value)])]
    ensures Pruned(types, request, usable, 0)
  {
    hide IntType.Holds, IntType.Stored, AsSigned, BlockNumberAt, Unsigned, Stated;
    assert States(value, stored, value, stored);
    StatedIs(value, stored, value, stored);
    UnsignedIs(value, stored);
    assert BlocksPruned(types, request, usable, 0);
  }

  lemma OneKept(table: Table, request: Request)
    requires |table.rows| == 1 && Keeps(table.types, request, table.rows[0])
    ensures Filtered(table, request, Everything(table)) == [0]
  {
    hide Keeps;
    assert Everything(table) == [0];
    assert [0][..0] == [];
  }

  /** The physical rows named, unfiltered; refused unless they are sorted, unique and in bounds. */
  method ReadPositions(table: Table, rows: seq<nat>) returns (read: Option<seq<(nat, Row)>>)
    ensures read.Some? <==> AscendingBelow(rows, |table.rows|)
    ensures read.Some? ==> |read.value| == |rows|
                           && forall k :: 0 <= k < |rows| ==>
                                rows[k] < |table.rows| && read.value[k] == (rows[k], table.rows[rows[k]])
  {
    if !AscendingBelow(rows, |table.rows|) {
      return None;
    }
    var ranges := Runs(rows);
    var positions := Expanded(ranges);
    assert forall k :: 0 <= k < |rows| ==> rows[k] <= rows[|rows| - 1];
    return Some(seq(|positions|, k requires 0 <= k < |positions| => (rows[k], table.rows[positions[k]])));
  }
}
