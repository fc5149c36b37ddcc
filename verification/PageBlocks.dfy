/**
 Which blocks a page has, said of rows and headers alone: the blocks of the request that some
 row has, or a header that counts, from the least on, as many as weigh no more than the budget
 together and at least one.
 */
module PageBlocks {
  import opened Wrappers
  import opened Words
  import opened Weights
  import opened Selection
  import opened Ascending
  import opened Page
  import opened PageSelection

  /** Some row of some table is of the block. */
  ghost predicate HasRow(tables: seq<Table>, block: Word) {
    exists i, j :: 0 <= i < |tables| && 0 <= j < |tables[i].rows| && tables[i].rows[j].block == block
  }

  ghost predicate HasHeader(headers: seq<Header>, block: Word) {
    exists i :: 0 <= i < |headers| && headers[i].block == block
  }

  /** Of the blocks up to `end`, one that a page may have: with a row, or with a header where all headers count, or
      where no header is below it or none above. */
  ghost predicate MayHave(request: Request, end: Option<Word>, block: Word) {
    && request.from <= block && (end.Some? ==> block <= end.value)
    && (HasRow(request.tables, block)
        || (HasHeader(request.headers, block)
            && (request.includeAll
                || (forall i :: 0 <= i < |request.headers| ==> block <= request.headers[i].block)
                || (forall i :: 0 <= i < |request.headers| ==> request.headers[i].block <= block))))
  }

  /** The candidates are those blocks, ascending. */
  lemma ReachHolds(request: Request, end: Option<Word>)
    ensures forall block :: block in Reach(request, end) <==> MayHave(request, end, block)
    ensures forall i, j :: 0 <= i < j < |Reach(request, end)| ==> Reach(request, end)[i] < Reach(request, end)[j]
  {
    AscendRises(Candidates(request, Range(request.from, end)));
    hide Ascend;
    forall block ensures block in Reach(request, end) <==> MayHave(request, end, block) {
      RowBlocks(request.tables, block);
      HeadBlocks(request.headers, block);
      EdgeBlocks(request.headers, block);
    }
  }

  lemma RowBlocks(tables: seq<Table>, block: Word)
    ensures block in TableBlocks(tables) <==> HasRow(tables, block)
  {
    if table, row :| table in tables && row in table.rows && row.block == block {
      var i :| 0 <= i < |tables| && tables[i] == table;
      var j :| 0 <= j < |table.rows| && table.rows[j] == row;
      assert tables[i].rows[j].block == block;
    }
    if i, j :| 0 <= i < |tables| && 0 <= j < |tables[i].rows| && tables[i].rows[j].block == block {
      assert tables[i] in tables && tables[i].rows[j] in tables[i].rows;
    }
  }

  lemma HeadBlocks(headers: seq<Header>, block: Word)
    ensures block in HeaderBlocks(headers) <==> HasHeader(headers, block)
  {
    assert forall i :: 0 <= i < |headers| ==> headers[i] in headers;
  }

  lemma EdgeBlocks(headers: seq<Header>, block: Word)
    ensures block in Boundary(headers)
            <==> HasHeader(headers, block)
                 && ((forall i :: 0 <= i < |headers| ==> block <= headers[i].block)
                     || (forall i :: 0 <= i < |headers| ==> headers[i].block <= block))
  {
    HeadBlocks(headers, block);
    forall i | 0 <= i < |headers| ensures headers[i].block in HeaderBlocks(headers) {
      assert headers[i] in headers;
    }
    forall other | other in HeaderBlocks(headers) ensures HasHeader(headers, other) {
      HeadBlocks(headers, other);
    }
  }

  /** What a block weighs in the whole request. */
  function Weight(request: Request, block: Word): Word {
    Saturated(Total(request.tables, request.headers, block))
  }

  /** Blocks from the least on, each once, with what it weighs. */
  ghost predicate Least(request: Request, end: Option<Word>, blocks: seq<Word>, weights: seq<Word>) {
    && |blocks| == |weights|
    && (forall i, j :: 0 <= i < j < |blocks| ==> blocks[i] < blocks[j])
    && (forall i :: 0 <= i < |blocks| ==> MayHave(request, end, blocks[i]) && weights[i] == Weight(request, blocks[i]))
    && (forall block, i :: MayHave(request, end, block) && 0 <= i < |blocks| && block <= blocks[i] ==> block in blocks)
  }

  /** A block left out, whose weight added would exceed the budget. */
  ghost predicate Exceeds(request: Request, end: Option<Word>, blocks: seq<Word>, weights: seq<Word>, next: Word) {
    && MayHave(request, end, next) && next !in blocks
    && Saturated(Sum(weights) + Weight(request, next)) > request.budget
  }

  /** As many of the least blocks as the budget holds, and one at least where there are any. */
  ghost predicate Fills(request: Request, end: Option<Word>, blocks: seq<Word>, weights: seq<Word>) {
    && Least(request, end, blocks, weights)
    && (|blocks| > 1 ==> Saturated(Sum(weights)) <= request.budget)
    && (blocks == [] ==> forall block :: !MayHave(request, end, block))
    && (forall block :: MayHave(request, end, block) && block !in blocks ==>
          exists next :: Exceeds(request, end, blocks, weights, next))
  }

  lemma TakenFits(weights: seq<Word>, budget: Word)
    ensures var taken := Taken(weights, budget);
            && taken <= |weights| && (weights != [] ==> taken > 0)
            && (taken > 1 ==> Saturated(Sum(weights[..taken])) <= budget)
            && (taken < |weights| ==> Saturated(Sum(weights[..taken]) + weights[taken]) > budget)
  {
    hide Sum;
    var taken := Taken(weights, budget);
    assert Fits(weights, budget, taken);
    if weights != [] {
      assert Fits(weights, budget, 1);
    }
    if taken < |weights| {
      assert !Fits(weights, budget, taken + 1);
      SumStep(weights, taken);
    }
  }

  lemma LeastTaken(request: Request, end: Option<Word>, taken: nat)
    requires taken <= |Reach(request, end)|
    ensures Least(request, end, Reach(request, end)[..taken], WeightsOf(request, Reach(request, end))[..taken])
  {
    hide Total, MayHave, Reach, Saturated;
    ReachHolds(request, end);
    var all := Reach(request, end);
    var blocks := all[..taken];
    forall i | 0 <= i < taken ensures MayHave(request, end, blocks[i]) {
      assert all[i] in all;
    }
    forall block, i | MayHave(request, end, block) && 0 <= i < taken && block <= blocks[i] ensures block in blocks {
      var k :| 0 <= k < |all| && all[k] == block;
      assert k <= i && blocks[k] == block;
    }
  }

  lemma PageFills(request: Request, end: Option<Word>)
    ensures Fills(request, end, PageOf(request, end).0, PageOf(request, end).1)
  {
    hide Total, MayHave, Sum, Reach, Taken, Least, Saturated;
    ReachHolds(request, end);
    var all := Reach(request, end);
    var weights := WeightsOf(request, all);
    var taken := Taken(weights, request.budget);
    TakenFits(weights, request.budget);
    LeastTaken(request, end, taken);
    var (blocks, own) := (all[..taken], weights[..taken]);
    forall block | MayHave(request, end, block) && block !in blocks
      ensures exists next :: Exceeds(request, end, blocks, own, next)
    {
      var k :| 0 <= k < |all| && all[k] == block;
      assert forall i :: 0 <= i < taken ==> blocks[i] == all[i];
      assert k >= taken;
      assert forall i :: 0 <= i < taken ==> all[i] < all[taken];
      assert all[taken] in all;
      assert Exceeds(request, end, blocks, own, all[taken]);
    }
    forall block | blocks == [] ensures !MayHave(request, end, block) {
      assert all == [];
    }
  }

  /** The page of the blocks up to `end`: none where there are none, and otherwise filled from the least of them. */
  ghost predicate Holds(request: Request, end: Option<Word>, page: Option<PageRead>) {
    if page.None? then forall block :: !MayHave(request, end, block)
    else
      && page.value.blocks != [] && Fills(request, end, page.value.blocks, page.value.weights)
      && (forall block :: MayHave(request, end, block) ==> page.value.blocks[0] <= block)
  }

  lemma PageHolds(request: Request, end: Option<Word>, page: Option<PageRead>)
    requires IsPage(request, page, end)
    ensures Holds(request, end, page)
  {
    hide MayHave, Fills, PageOf;
    PageFills(request, end);
    if page.Some? {
      StartsLeast(request, end, page.value.blocks, page.value.weights);
    } else {
      NoneLeft(request, end, PageOf(request, end).0, PageOf(request, end).1);
    }
  }

  lemma NoneLeft(request: Request, end: Option<Word>, blocks: seq<Word>, weights: seq<Word>)
    requires Fills(request, end, blocks, weights) && blocks == []
    ensures forall block :: !MayHave(request, end, block)
  {
    hide MayHave;
  }

  /** A page's first block is the least there is. */
  lemma StartsLeast(request: Request, end: Option<Word>, blocks: seq<Word>, weights: seq<Word>)
    requires Fills(request, end, blocks, weights) && blocks != []
    ensures MayHave(request, end, blocks[0])
    ensures forall block :: MayHave(request, end, block) ==> blocks[0] <= block
  {
    hide MayHave, Sum, Weight;
    forall block | MayHave(request, end, block) ensures blocks[0] <= block {
      if block <= blocks[0] {
        var k :| 0 <= k < |blocks| && blocks[k] == block;
      }
    }
  }
}
