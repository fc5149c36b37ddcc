/**
 The range loop: for every sequence of range hints it reads consecutive, disjoint ranges and
 selects the page one read of the whole request selects, as long as no row lies past the last
 header; and exactly when it may not, where one does.
 */
module PageSelection {
  import opened Wrappers
  import opened Words
  import opened Weights
  import opened Selection
  import opened Ascending
  import opened Page

  // ----- the blocks below a bound -----

  /** The candidates of the request below `next`. */
  function Below(request: Request, next: nat): set<Word> {
    set block | block in Candidates(request, Range(request.from, None)) && block < next
  }

  function ReachBelow(request: Request, next: nat): seq<Word> {
    Ascend(Below(request, next))
  }

  /** One past the range's last block. */
  function After(to: Option<Word>): nat {
    if to.Some? then to.value + 1 else MAX_WORD + 1
  }

  lemma ReachIsBelow(request: Request, end: Option<Word>)
    ensures Reach(request, end) == ReachBelow(request, After(end))
  {
    hide Ascend, TableBlocks, Boundary, HeaderBlocks;
    assert Candidates(request, Range(request.from, end)) == Below(request, After(end));
  }

  /** The next range's candidates follow those before it. */
  lemma RangeFollows(request: Request, from: Word, to: Option<Word>)
    requires request.from <= from && from <= After(to)
    ensures ReachBelow(request, After(to)) == ReachBelow(request, from) + Ascend(Candidates(request, Range(from, to)))
  {
    hide Ascend, TableBlocks, Boundary, HeaderBlocks;
    var (before, range) := (Below(request, from), Candidates(request, Range(from, to)));
    AscendApart(before, range);
    assert Below(request, After(to)) == before + range;
  }

  lemma ReachGrows(request: Request, less: nat, more: nat)
    requires less <= more
    ensures ReachBelow(request, less) <= ReachBelow(request, more)
  {
    hide Ascend, Candidates;
    var (before, above) := (Below(request, less), Below(request, more) - Below(request, less));
    AscendApart(before, above);
    assert Below(request, more) == before + above;
  }

  lemma NothingBelow(request: Request)
    ensures ReachBelow(request, request.from) == []
  {
    hide TableBlocks, Boundary, HeaderBlocks;
    assert Below(request, request.from) == {};
  }

  lemma BelowBound(request: Request, next: nat)
    ensures forall block :: block in ReachBelow(request, next) ==> block < next
  {
    hide Ascend, Candidates;
  }

  // ----- reading one range -----

  lemma {:induction false} HeadersInAll(headers: seq<Header>, range: Range)
    requires forall i :: 0 <= i < |headers| ==> range.Has(headers[i].block)
    ensures HeadersIn(headers, range) == headers
  {
    if headers != [] {
      HeadersInAll(headers[..|headers| - 1], range);
    }
  }

  lemma {:induction false} HeadersInMember(headers: seq<Header>, range: Range, header: Header)
    ensures header in HeadersIn(headers, range) <==> header in headers && range.Has(header.block)
  {
    if headers != [] {
      var before := headers[..|headers| - 1];
      HeadersInMember(before, range, header);
      assert headers == before + [headers[|headers| - 1]];
    }
  }

  /** A range's candidates are among what was read of it. */
  lemma RangeCandidates(request: Request, range: Range)
    ensures Candidates(request, range)
            == TableBlocks(Scan(request.tables, range))
               + if request.includeAll then HeaderBlocks(HeadersIn(request.headers, range))
                 else set block | block in Boundary(request.headers) && range.Has(block)
  {
    hide Boundary;
    HeaderBlocksIn(request.headers, range);
    TableBlocksIn(request.tables, range);
  }

  lemma HeaderBlocksIn(headers: seq<Header>, range: Range)
    ensures forall block :: block in HeaderBlocks(HeadersIn(headers, range))
              <==> block in HeaderBlocks(headers) && range.Has(block)
  {
    forall block
      ensures block in HeaderBlocks(HeadersIn(headers, range)) <==> block in HeaderBlocks(headers) && range.Has(block)
    {
      if block in HeaderBlocks(headers) && range.Has(block) {
        var header :| header in headers && header.block == block;
        HeadersInMember(headers, range, header);
      }
      if block in HeaderBlocks(HeadersIn(headers, range)) {
        var header :| header in HeadersIn(headers, range) && header.block == block;
        HeadersInMember(headers, range, header);
      }
    }
  }

  lemma TableBlocksIn(tables: seq<Table>, range: Range)
    ensures forall block :: block in TableBlocks(Scan(tables, range))
              <==> block in TableBlocks(tables) && range.Has(block)
  {
    var scanned := Scan(tables, range);
    forall block ensures block in TableBlocks(scanned) <==> block in TableBlocks(tables) && range.Has(block) {
      if block in TableBlocks(tables) && range.Has(block) {
        var table, row :| table in tables && row in table.rows && row.block == block;
        var i :| 0 <= i < |tables| && tables[i] == table;
        RowsInMember(table.rows, range, row);
        assert scanned[i] in scanned && row in scanned[i].rows;
      }
      if block in TableBlocks(scanned) {
        var table, row :| table in scanned && row in table.rows && row.block == block;
        var i :| 0 <= i < |scanned| && scanned[i] == table;
        RowsInMember(tables[i].rows, range, row);
        assert tables[i] in tables;
      }
    }
  }

  /** The blocks of one range a page can hold, ascending. */
  method RangeBlocks(ghost request: Request, includeAll: bool, scanned: seq<Table>, headers: seq<Header>,
                     boundary: set<Word>, range: Range)
    returns (blocks: seq<Word>)
    requires includeAll == request.includeAll && boundary == Boundary(request.headers)
    requires scanned == Scan(request.tables, range) && headers == HeadersIn(request.headers, range)
    ensures blocks == Ascend(Candidates(request, range))
  {
    RangeCandidates(request, range);
    var numbers := TableBlocks(scanned);
    if includeAll {
      numbers := numbers + HeaderBlocks(headers);
    } else {
      numbers := numbers + set block | block in boundary && range.Has(block);
    }
    blocks := Collected(numbers);
  }

  lemma RangeWeighed(request: Request, range: Range, blocks: seq<Word>, weights: map<Word, Word>)
    requires request.Valid() && forall i :: 0 <= i < |blocks| ==> range.Has(blocks[i])
    requires forall i :: 0 <= i < |blocks| ==>
               At(weights, blocks[i])
               == Saturated(Total(Scan(request.tables, range), HeadersIn(request.headers, range), blocks[i]))
    ensures Weighed(blocks, weights) == WeightsOf(request, blocks)
  {
    hide Total;
    forall i | 0 <= i < |blocks| ensures Weighed(blocks, weights)[i] == WeightsOf(request, blocks)[i] {
      TotalLocal(request.tables, request.headers, range, blocks[i]);
    }
  }

  /** Reads one range and offers its blocks: unless the budget is spent, the blocks offered are then all the
      candidates through its end. */
  method ReadRange(request: Request, boundary: set<Word>, selection: BlockSelection, range: Range, whole: bool)
    returns (scanned: seq<Table>, exhausted: bool)
    requires request.Valid() && boundary == Boundary(request.headers)
    requires request.from <= range.from <= After(range.to)
    requires whole ==> HeadersIn(request.headers, range) == request.headers
    requires selection.Valid() && selection.cumulative <= selection.budget == request.budget
    requires selection.offered == ReachBelow(request, range.from)
    requires selection.offeredWeights == WeightsOf(request, selection.offered)
    modifies selection
    ensures scanned == Scan(request.tables, range)
    ensures selection.Valid() && (exhausted <==> selection.cumulative > selection.budget)
    ensures selection.offered <= ReachBelow(request, After(range.to))
    ensures !exhausted ==> selection.offered == ReachBelow(request, After(range.to))
    ensures selection.offeredWeights == WeightsOf(request, selection.offered)
    ensures old(selection.offered) <= selection.offered
    ensures forall block :: block < range.from ==> (block in selection.blocks <==> block in old(selection.blocks))
    ensures selection.blocks <= selection.offered
  {
    hide *;
    scanned := Scan(request.tables, range);
    var headers := if whole then request.headers else HeadersIn(request.headers, range);
    var blocks := RangeBlocks(request, request.includeAll, scanned, headers, boundary, range);
    ghost var (before, beforeWeights) := (selection.offered, selection.offeredWeights);
    BlocksOffered(selection);
    if blocks == [] {
      exhausted := false;
      Offered(request, range, before, [], []);
    } else {
      var weights := ComputeBlockWeights(scanned, headers, set block | block in blocks);
      exhausted := selection.Extend(blocks, weights);
      ghost var offered := blocks[..|selection.offered| - |before|];
      CandidatesInRange(request, range);
      RangeWeighed(request, range, offered, weights);
      Offered(request, range, before, blocks, offered);
      BlocksOffered(selection);
    }
  }

  /** Blocks of a range offered after all those before it. */
  lemma Offered(request: Request, range: Range, before: seq<Word>, blocks: seq<Word>, offered: seq<Word>)
    requires request.from <= range.from <= After(range.to) && before == ReachBelow(request, range.from)
    requires blocks == Ascend(Candidates(request, range)) && offered <= blocks
    requires Saturated(Sum(WeightsOf(request, before))) <= request.budget
    ensures before + offered <= ReachBelow(request, After(range.to))
    ensures offered == blocks ==> before + offered == ReachBelow(request, After(range.to))
    ensures WeightsOf(request, before + offered) == WeightsOf(request, before) + WeightsOf(request, offered)
    ensures before[..Taken(WeightsOf(request, before), request.budget)] == before
    ensures var selected := (before + offered)[..Taken(WeightsOf(request, before + offered), request.budget)];
            && selected <= before + offered
            && forall block :: block < range.from ==> (block in selected <==> block in before)
  {
    hide Candidates, Total, ReachBelow, Ascend, Sum, Taken;
    RangeFollows(request, range.from, range.to);
    CandidatesInRange(request, range);
    var (weights, more) := (WeightsOf(request, before), WeightsOf(request, offered));
    assert WeightsOf(request, before + offered) == weights + more;
    assert forall block :: block in offered ==> block in blocks;
    SelectedGrows(before, weights, offered, more, request.budget, range.from);
  }

  /** What is selected of the blocks offered. */
  lemma BlocksOffered(selection: BlockSelection)
    requires selection.Valid()
    ensures Taken(selection.offeredWeights, selection.budget) <= |selection.offered| == |selection.offeredWeights|
    ensures selection.blocks == selection.offered[..Taken(selection.offeredWeights, selection.budget)]
    ensures selection.weights == selection.offeredWeights[..Taken(selection.offeredWeights, selection.budget)]
    ensures selection.cumulative == Saturated(Sum(selection.offeredWeights))
  {
  }

  /** Blocks from `from` on, offered after blocks that fit, leave the selection of those as it was. */
  lemma SelectedGrows(blocks: seq<Word>, weights: seq<Word>, more: seq<Word>, moreWeights: seq<Word>, budget: Word,
                      from: Word)
    requires |blocks| == |weights| && |more| == |moreWeights| && Saturated(Sum(weights)) <= budget
    requires forall block :: block in more ==> block >= from
    ensures Taken(weights + moreWeights, budget) <= |blocks + more|
    ensures var selected := (blocks + more)[..Taken(weights + moreWeights, budget)];
            selected <= blocks + more && forall block :: block < from ==> (block in selected <==> block in blocks)
    ensures blocks[..Taken(weights, budget)] == blocks
  {
    var both := weights + moreWeights;
    FittingTaken(weights, budget);
    assert both[..|weights|] == weights;
    assert Fits(both, budget, |weights|);
    hide Sum;
    var taken := Taken(both, budget);
    assert taken >= |weights|;
    var kept := more[..taken - |blocks|];
    assert (blocks + more)[..taken] == blocks + kept;
    assert forall block :: block in kept ==> block in more;
  }

  lemma CandidatesInRange(request: Request, range: Range)
    ensures forall block :: block in Ascend(Candidates(request, range)) ==> range.Has(block)
  {
    hide TableBlocks, Boundary, HeaderBlocks, Ascend;
  }

  // ----- the rows of the page -----

  function OfBlock(rows: seq<Row>, block: Word): seq<Row> {
    RowsIn(rows, Range(block, Some(block)))
  }

  /** The rows of the given blocks. */
  function Retained(rows: seq<Row>, blocks: set<Word>): seq<Row> {
    if rows == [] then []
    else
      var (before, row) := (Retained(rows[..|rows| - 1], blocks), rows[|rows| - 1]);
      if row.block in blocks then before + [row] else before
  }

  lemma {:induction false} RowsInConcat(a: seq<Row>, b: seq<Row>, range: Range)
    ensures RowsIn(a + b, range) == RowsIn(a, range) + RowsIn(b, range)
  {
    if b == [] {
      assert a + b == a;
    } else {
      var before := b[..|b| - 1];
      RowsInConcat(a, before, range);
      assert (a + b)[..|a + b| - 1] == a + before;
    }
  }

  lemma {:induction false} OfBlockRetained(rows: seq<Row>, blocks: set<Word>, block: Word)
    ensures OfBlock(Retained(rows, blocks), block) == if block in blocks then OfBlock(rows, block) else []
  {
    if rows != [] {
      var before := rows[..|rows| - 1];
      OfBlockRetained(before, blocks, block);
      RowsInAppend(Retained(before, blocks), rows[|rows| - 1], Range(block, Some(block)));
    }
  }

  lemma {:induction false} OfBlockInRange(rows: seq<Row>, range: Range, block: Word)
    ensures OfBlock(RowsIn(rows, range), block) == if range.Has(block) then OfBlock(rows, block) else []
  {
    if rows != [] {
      var before := rows[..|rows| - 1];
      OfBlockInRange(before, range, block);
      RowsInAppend(RowsIn(before, range), rows[|rows| - 1], Range(block, Some(block)));
    }
  }

  /** Of every block from the request's first up to `next`, `read` holds the table's rows; where payloads are
      deferred, of the selected ones only. */
  ghost predicate TableRead(rows: seq<Row>, read: seq<Row>, from: Word, deferred: bool, selected: seq<Word>,
                            next: nat) {
    forall block: Word ::
      OfBlock(read, block) == if from <= block < next && (deferred ==> block in selected) then OfBlock(rows, block)
                              else []
  }

  ghost predicate ReadOk(request: Request, deferred: bool, read: seq<seq<Row>>, selected: seq<Word>, next: nat) {
    && |read| == |request.tables|
    && forall i :: 0 <= i < |read| ==>
         TableRead(request.tables[i].rows, read[i], request.from, deferred, selected, next)
  }

  lemma TableReadStep(rows: seq<Row>, read: seq<Row>, from: Word, deferred: bool, before: seq<Word>,
                      selected: seq<Word>,
                      range: Range, kept: set<Word>)
    requires from <= range.from <= After(range.to) && TableRead(rows, read, from, deferred, before, range.from)
    requires forall block :: block < range.from ==> (block in selected <==> block in before)
    requires forall block :: block in kept <==> block in selected
    ensures var more := if deferred then Retained(RowsIn(rows, range), kept) else RowsIn(rows, range);
            TableRead(rows, read + more, from, deferred, selected, After(range.to))
  {
    hide RowsIn, Retained, OfBlock;
    var more := if deferred then Retained(RowsIn(rows, range), kept) else RowsIn(rows, range);
    forall block: Word
      ensures OfBlock(read + more, block)
              == if from <= block < After(range.to) && (deferred ==> block in selected) then OfBlock(rows, block)
                 else []
    {
      OfBlockConcat(read, more, block);
      OfBlockRetained(RowsIn(rows, range), kept, block);
      OfBlockInRange(rows, range, block);
    }
  }

  lemma OfBlockConcat(a: seq<Row>, b: seq<Row>, block: Word)
    ensures OfBlock(a + b, block) == OfBlock(a, block) + OfBlock(b, block)
  {
    RowsInConcat(a, b, Range(block, Some(block)));
  }

  /** Appends a range's rows to those read before it. */
  method AppendRange(ghost request: Request, deferred: bool, read: seq<seq<Row>>, scanned: seq<Table>,
                     ghost before: seq<Word>,
                     selected: seq<Word>, ghost range: Range)
    returns (more: seq<seq<Row>>)
    requires request.from <= range.from <= After(range.to) && scanned == Scan(request.tables, range)
    requires ReadOk(request, deferred, read, before, range.from)
    requires forall block :: block < range.from ==> (block in selected <==> block in before)
    ensures ReadOk(request, deferred, more, selected, After(range.to))
  {
    hide RowsIn, Retained, TableRead;
    more := [];
    var kept := set chosen | chosen in selected;
    for k := 0 to |scanned|
      invariant |more| == k
      invariant forall i :: 0 <= i < k ==>
                  TableRead(request.tables[i].rows, more[i], request.from, deferred, selected, After(range.to))
    {
      TableReadStep(request.tables[k].rows, read[k], request.from, deferred, before, selected, range, kept);
      more := more + [read[k] + if deferred then Retained(scanned[k].rows, kept) else scanned[k].rows];
    }
  }

  lemma NothingRead(request: Request, deferred: bool, read: seq<seq<Row>>)
    requires |read| == |request.tables| && forall i :: 0 <= i < |read| ==> read[i] == []
    ensures ReadOk(request, deferred, read, [], request.from)
  {
  }

  // ----- the page -----

  /** The blocks and their weights, the rows read of each table, and, where the page stopped before the request's
      end, the last block read. */
  datatype PageRead = PageRead(blocks: seq<Word>, weights: seq<Word>, tables: seq<seq<Row>>, readThrough: Option<Word>)

  /** No row lies past the last header. */
  ghost predicate NoStray(request: Request) {
    request.headers != [] ==>
      forall block :: block in TableBlocks(request.tables) && Range(request.from, request.to).Has(block)
                      ==> block <= LastHeader(request.headers)
  }

  /** The page is the one whose blocks are the candidates through `end`; there is none where there are none. */
  ghost predicate IsPage(request: Request, page: Option<PageRead>, end: Option<Word>) {
    var (blocks, weights) := PageOf(request, end);
    if page.None? then blocks == [] else blocks != [] && page.value.blocks == blocks && page.value.weights == weights
  }

  /** The rows of each table that are of a page block are there, in the table's order; where payloads are
      deferred, no other rows are. */
  ghost predicate HasRows(request: Request, deferred: bool, page: PageRead) {
    && |page.tables| == |request.tables|
    && (forall i, block: Word :: 0 <= i < |page.tables| && block in page.blocks ==>
          OfBlock(page.tables[i], block) == OfBlock(request.tables[i].rows, block))
    && (deferred ==> forall i, block: Word :: 0 <= i < |page.tables| && block !in page.blocks ==>
                       OfBlock(page.tables[i], block) == [])
  }

  /** One after the other from the request's first block, none overlapping. */
  ghost predicate Consecutive(ranges: seq<Range>, from: Word) {
    && ranges != []
    && var (before, range) := (ranges[..|ranges| - 1], ranges[|ranges| - 1]);
       if before == [] then range.from == from else Consecutive(before, from) && Reaches(before, range.from)
  }

  /** The last range ends just before `next`. */
  ghost predicate Reaches(ranges: seq<Range>, next: nat) {
    ranges != [] && ranges[|ranges| - 1].to.Some? && next == ranges[|ranges| - 1].to.value + 1
  }

  /** The page of spent blocks does not depend on how much follows them. */
  lemma SpentIsPage(request: Request, offered: seq<Word>, next: nat, end: Option<Word>)
    requires offered <= ReachBelow(request, next) && next <= After(end)
    requires Saturated(Sum(WeightsOf(request, offered))) > request.budget
    ensures var weights := WeightsOf(request, offered);
            var taken := Taken(weights, request.budget);
            (offered[..taken], weights[..taken]) == PageOf(request, end)
  {
    hide Total, Ascend, Candidates, Sum, Taken;
    ReachGrows(request, next, After(end));
    ReachIsBelow(request, end);
    var all := Reach(request, end);
    assert offered <= all;
    var (some, more) := (WeightsOf(request, offered), WeightsOf(request, all));
    assert some <= more;
    ExceedingSettles(some, more, request.budget);
    TakenBound(some, request.budget);
    var taken := Taken(some, request.budget);
    assert offered[..taken] == all[..taken] && some[..taken] == more[..taken];
  }

  lemma TakenBound(weights: seq<Word>, budget: Word)
    ensures Taken(weights, budget) <= |weights|
  {
  }

  /** What is read so far: whole ranges up to `next`, all their blocks offered, and the budget not spent. */
  ghost predicate Reading(request: Request, deferred: bool, selection: BlockSelection, read: seq<seq<Row>>, next: nat)
    reads selection
  {
    && selection.Valid() && selection.budget == request.budget && selection.cumulative <= selection.budget
    && selection.offered == ReachBelow(request, next)
    && selection.offeredWeights == WeightsOf(request, selection.offered)
    && ReadOk(request, deferred, read, selection.blocks, next)
  }

  /** The first range, read whole, has every header. */
  lemma WholeHeaders(request: Request, to: Option<Word>)
    requires request.Valid() && (to == request.to || to == RequestEnd(request))
    ensures HeadersIn(request.headers, Range(request.from, to)) == request.headers
  {
    hide Total, Identified;
    forall i | 0 <= i < |request.headers| ensures Range(request.from, to).Has(request.headers[i].block) {
      assert request.headers[i].block in HeaderBlocks(request.headers);
    }
    HeadersInAll(request.headers, Range(request.from, to));
  }

  /** No range stops short of a row where none lies past the last header. */
  lemma NothingPastEnd(request: Request)
    requires request.Valid() && NoStray(request)
    ensures PageOf(request, RequestEnd(request)) == PageOf(request, request.to)
  {
    hide Total, Identified, Ascend, Taken, Boundary;
    var (a, b) := (Range(request.from, RequestEnd(request)), Range(request.from, request.to));
    BoundaryHeaders(request.headers);
    forall block ensures block in Candidates(request, a) <==> block in Candidates(request, b) {
      if block in Candidates(request, b) && request.headers != [] {
        assert block in HeaderBlocks(request.headers) ==> block <= LastHeader(request.headers);
      }
    }
    assert Candidates(request, a) == Candidates(request, b);
  }

  lemma BoundaryHeaders(headers: seq<Header>)
    ensures Boundary(headers) <= HeaderBlocks(headers)
  {
  }

  /** Everything offered and the budget not spent: the page is all of it. */
  lemma ReadingIsPage(request: Request, offered: seq<Word>, end: Option<Word>)
    requires offered == ReachBelow(request, After(end)) && Saturated(Sum(WeightsOf(request, offered))) <= request.budget
    ensures PageOf(request, end) == (offered, WeightsOf(request, offered))
  {
    hide Total, Ascend, Candidates, Sum, Taken;
    ReachIsBelow(request, end);
    var weights := WeightsOf(request, offered);
    FittingTaken(weights, request.budget);
    assert offered[..|offered|] == offered && weights[..|weights|] == weights;
  }
}
