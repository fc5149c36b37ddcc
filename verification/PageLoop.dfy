/** The loop over ranges, and when the page depends on them. */
module PageLoop {
  import opened Wrappers
  import opened Words
  import opened Weights
  import opened Selection
  import opened Ascending
  import opened Page
  import opened PageSelection
  import opened PageBlocks

  /** Some range can stop at the last header. */
  ghost predicate SplitsAtEnd(request: Request) {
    var end := RequestEnd(request);
    end.Some? && end.value > 0
  }

  /** What the loop leaves: the page that ends at `end`, and its rows. */
  ghost predicate Finished(request: Request, deferred: bool, selection: BlockSelection, read: seq<seq<Row>>,
                           end: Option<Word>,
                           readThrough: Option<Word>)
    reads selection
  {
    && (end == request.to || end == RequestEnd(request))
    && (selection.blocks, selection.weights) == PageOf(request, end)
    && HasRows(request, deferred, PageRead(selection.blocks, selection.weights, read, readThrough))
    && (readThrough.Some? ==>
          var through := ReachBelow(request, readThrough.value + 1);
          selection.blocks <= through && Saturated(Sum(WeightsOf(request, through))) > request.budget)
  }

  /** What is read when a range has been: as before, or the budget is spent. */
  ghost predicate Read(request: Request, deferred: bool, selection: BlockSelection, read: seq<seq<Row>>,
                       to: Option<Word>, exhausted: bool)
    reads selection
  {
    && selection.Valid() && selection.budget == request.budget
    && (exhausted <==> selection.cumulative > selection.budget)
    && selection.offered <= ReachBelow(request, After(to))
       && selection.offeredWeights == WeightsOf(request, selection.offered)
    && (!exhausted ==> selection.offered == ReachBelow(request, After(to)))
    && ReadOk(request, deferred, read, selection.blocks, After(to))
  }

  /** Reads, offers and keeps one more range. */
  method ReadNext(request: Request, deferred: bool, boundary: set<Word>, selection: BlockSelection, read: seq<seq<Row>>,
                  range: Range, whole: bool)
    returns (more: seq<seq<Row>>, exhausted: bool)
    requires request.Valid() && boundary == Boundary(request.headers)
    requires request.from <= range.from <= After(range.to)
    requires whole ==> range.from == request.from && (range.to == request.to || range.to == RequestEnd(request))
    requires Reading(request, deferred, selection, read, range.from)
    modifies selection
    ensures Read(request, deferred, selection, more, range.to, exhausted)
    ensures !exhausted ==> Reading(request, deferred, selection, more, After(range.to))
  {
    hide BlockSelection.Valid, Request.Valid, ReachBelow, WeightsOf, Boundary, RequestEnd, ReadOk, Reading,
         Scan, HeadersIn;
    ReadingMeans(request, deferred, selection, read, range.from);
    ghost var before := selection.blocks;
    if whole {
      WholeHeaders(request, range.to);
    }
    var scanned;
    scanned, exhausted := ReadRange(request, boundary, selection, range, whole);
    more := AppendRange(request, deferred, read, scanned, before, selection.blocks, range);
    if !exhausted {
      StillReading(request, deferred, selection, more, After(range.to));
    }
  }

  /** Reads ranges, however the hints cut them, until the page is full or the request ends. `end` is the bound
      whose page it is: the request's, or that of its last header where the ranges stop there. */
  method SelectPage(request: Request, options: Options, hints: nat -> Option<Word>)
    returns (page: Option<PageRead>, ghost ranges: seq<Range>, ghost end: Option<Word>)
    requires request.Valid()
    ensures end == request.to || end == RequestEnd(request)
    ensures IsPage(request, page, end)
    ensures NoStray(request) ==> IsPage(request, page, request.to)
    ensures Holds(request, end, page) && (NoStray(request) ==> Holds(request, request.to, page))
    ensures page.Some? ==> HasRows(request, options.deferred, page.value)
    ensures Consecutive(ranges, request.from)
    ensures page.Some? && page.value.readThrough.Some? ==>
              var read := ReachBelow(request, page.value.readThrough.value + 1);
              page.value.blocks <= read && Saturated(Sum(WeightsOf(request, read))) > request.budget
    ensures !options.rangeReads && !options.deferred ==>
              end == request.to && ranges == [Range(request.from, request.to)]
    ensures options.rangeReads && (forall i :: hints(i) == Some(0)) && SplitsAtEnd(request) ==>
              end == RequestEnd(request)
  {
    hide BlockSelection.Valid, Request.Valid, ReachBelow, WeightsOf, Taken, RequestEnd, Boundary, HeaderBlocks,
         ReadOk, PageOf,
         HasRows, NoStray, IsPage, Read, Reading, Finished, Consecutive, Reaches, Sum, Holds;
    var boundary := Boundary(request.headers);
    var numbers: seq<Word> := [];
    if options.deferred {
      numbers := Collected(HeaderBlocks(request.headers));
    }
    var read: seq<seq<Row>> := seq(|request.tables|, _ => []);
    var selection := new BlockSelection(request.budget);
    var requestEnd := RequestEnd(request);
    var from: Word := request.from;
    var count: nat := 0;
    var readThrough: Option<Word> := None;
    ranges, end := [], request.to;
    NothingSoFar(request, options.deferred, selection, read);
    EndInRequest(request);
    while true
      invariant selection.budget == request.budget && request.from <= from
      invariant Reading(request, options.deferred, selection, read, from)
      invariant end == request.to && readThrough == None && fresh(selection)
      invariant (count == 0 <==> ranges == []) && (count == 0 ==> from == request.from)
      invariant count > 0 ==>
                  Consecutive(ranges, request.from) && Reaches(ranges, from) && (options.rangeReads || options.deferred)
      invariant requestEnd.Some? ==> from <= requestEnd.value
      decreases MAX_WORD - from
    {
      var to, last := RangeEnd(request, options, hints(count), selection.cumulative, from, numbers, requestEnd);
      var range, exhausted := Range(from, to), false;
      read, exhausted := ReadNext(request, options.deferred, boundary, selection, read, range, count == 0 && last);
      ConsecutiveStep(ranges, request.from, range);
      ranges := ranges + [range];
      if exhausted || last || to.None? || to.value == MAX_WORD {
        if exhausted && !last {
          readThrough := to;
        }
        end := if last then to else if exhausted then requestEnd else end;
        FinishedAt(request, options.deferred, selection, read, to, end, exhausted, readThrough);
        page := if selection.blocks == [] then None
                else Some(PageRead(selection.blocks, selection.weights, read, readThrough));
        FinishedIsPage(request, options.deferred, selection, read, end, readThrough, page);
        NothingPastEndIf(request);
        PagesHold(request, end, page);
        return;
      }
      from := to.value + 1;
      count := count + 1;
    }
  }

  lemma PagesHold(request: Request, end: Option<Word>, page: Option<PageRead>)
    requires IsPage(request, page, end) && (NoStray(request) ==> IsPage(request, page, request.to))
    ensures Holds(request, end, page) && (NoStray(request) ==> Holds(request, request.to, page))
  {
    hide IsPage, Holds, NoStray;
    PageHolds(request, end, page);
    if NoStray(request) {
      PageHolds(request, request.to, page);
    }
  }

  lemma NothingSoFar(request: Request, deferred: bool, selection: BlockSelection, read: seq<seq<Row>>)
    requires selection.Valid() && selection.budget == request.budget && selection.offered == []
             && selection.offeredWeights == []
    requires |read| == |request.tables| && forall i :: 0 <= i < |read| ==> read[i] == []
    ensures Reading(request, deferred, selection, read, request.from)
  {
    hide TableBlocks, Ascend, Candidates;
    NothingBelow(request);
    NothingRead(request, deferred, read);
  }

  lemma EndInRequest(request: Request)
    requires request.Valid()
    ensures RequestEnd(request).Some? ==> request.from <= RequestEnd(request).value
    ensures RequestEnd(request).None? ==> request.to.None?
    ensures RequestEnd(request).Some? && request.to.Some? ==> RequestEnd(request).value <= request.to.value
  {
    hide Total, Identified;
    if request.headers != [] {
      assert LastHeader(request.headers) in HeaderBlocks(request.headers);
      var header :| header in request.headers && header.block == LastHeader(request.headers);
    }
  }

  lemma NothingPastEndIf(request: Request)
    requires request.Valid()
    ensures NoStray(request) ==> PageOf(request, RequestEnd(request)) == PageOf(request, request.to)
  {
    if NoStray(request) {
      NothingPastEnd(request);
    }
  }

  lemma ReadingMeans(request: Request, deferred: bool, selection: BlockSelection, read: seq<seq<Row>>, next: nat)
    requires Reading(request, deferred, selection, read, next)
    ensures selection.Valid() && selection.cumulative <= selection.budget == request.budget
    ensures selection.offered == ReachBelow(request, next)
    ensures selection.offeredWeights == WeightsOf(request, selection.offered)
    ensures ReadOk(request, deferred, read, selection.blocks, next)
    ensures forall block :: block in selection.blocks ==> block < next
  {
    hide ReachBelow, WeightsOf, Taken, Sum;
    BelowBound(request, next);
    forall block | block in selection.blocks ensures block < next {
      assert block in selection.offered;
    }
  }

  /** Where the loop stops, the page is the one that ends at `end`: the budget is spent in blocks before it, or
      all of them are offered. */
  lemma FinishedAt(request: Request, deferred: bool, selection: BlockSelection, read: seq<seq<Row>>, to: Option<Word>,
                   end: Option<Word>, exhausted: bool, readThrough: Option<Word>)
    requires Read(request, deferred, selection, read, to, exhausted)
    requires !exhausted ==> After(end) == After(to)
    requires After(to) <= After(end) && (end == request.to || end == RequestEnd(request))
    requires readThrough.Some? ==> exhausted && readThrough == to
    ensures Finished(request, deferred, selection, read, end, readThrough)
  {
    hide Total, ReachBelow, Candidates, Taken, Sum, PageOf, TableRead;
    BlocksOffered(selection);
    if exhausted {
      SpentIsPage(request, selection.offered, After(to), end);
      var through := ReachBelow(request, After(to));
      var weights := WeightsOf(request, through);
      assert weights[..|selection.offered|] == selection.offeredWeights;
      SumGrows(weights, |selection.offered|, |weights|);
      assert weights[..|weights|] == weights;
      assert selection.blocks <= through;
    } else {
      FittingTaken(selection.offeredWeights, selection.budget);
      assert selection.offered[..|selection.offered|] == selection.offered;
      assert selection.offeredWeights[..|selection.offered|] == selection.offeredWeights;
      ReadingIsPage(request, selection.offered, end);
    }
    RowsOfPage(request, deferred, selection.blocks, read, to,
               PageRead(selection.blocks, selection.weights, read, readThrough));
  }

  lemma RowsOfPage(request: Request, deferred: bool, blocks: seq<Word>, read: seq<seq<Row>>, to: Option<Word>,
                   page: PageRead)
    requires blocks <= ReachBelow(request, After(to)) && ReadOk(request, deferred, read, blocks, After(to))
    requires page.blocks == blocks && page.tables == read
    ensures HasRows(request, deferred, page)
  {
    hide OfBlock;
    InReach(request, After(to));
    forall i, block: Word | 0 <= i < |read|
      ensures block in blocks ==> OfBlock(read[i], block) == OfBlock(request.tables[i].rows, block)
      ensures deferred && block !in blocks ==> OfBlock(read[i], block) == []
    {
      assert TableRead(request.tables[i].rows, read[i], request.from, deferred, blocks, After(to));
      assert block in blocks ==> block in ReachBelow(request, After(to));
    }
  }

  lemma InReach(request: Request, next: nat)
    ensures forall block :: block in ReachBelow(request, next) ==> request.from <= block < next
  {
    hide TableBlocks, Boundary, HeaderBlocks, Ascend;
  }

  lemma FinishedIsPage(request: Request, deferred: bool, selection: BlockSelection, read: seq<seq<Row>>,
                       end: Option<Word>,
                       readThrough: Option<Word>, page: Option<PageRead>)
    requires Finished(request, deferred, selection, read, end, readThrough)
    requires page == if selection.blocks == [] then None
                     else Some(PageRead(selection.blocks, selection.weights, read, readThrough))
    ensures end == request.to || end == RequestEnd(request)
    ensures IsPage(request, page, end)
    ensures PageOf(request, RequestEnd(request)) == PageOf(request, request.to) ==> IsPage(request, page, request.to)
    ensures page.Some? ==> HasRows(request, deferred, page.value)
    ensures page.Some? && page.value.readThrough.Some? ==>
              var through := ReachBelow(request, page.value.readThrough.value + 1);
              page.value.blocks <= through && Saturated(Sum(WeightsOf(request, through))) > request.budget
  {
    hide PageOf, HasRows, ReachBelow, RequestEnd, Sum, WeightsOf;
  }

  lemma ConsecutiveStep(ranges: seq<Range>, from: Word, range: Range)
    requires if ranges == [] then range.from == from else Consecutive(ranges, from) && Reaches(ranges, range.from)
    ensures Consecutive(ranges + [range], from)
    ensures range.to.Some? ==> Reaches(ranges + [range], range.to.value + 1)
  {
    var more := ranges + [range];
    assert more[..|more| - 1] == ranges;
  }

  lemma StillReading(request: Request, deferred: bool, selection: BlockSelection, read: seq<seq<Row>>, next: nat)
    requires selection.Valid() && selection.budget == request.budget && selection.cumulative <= selection.budget
    requires selection.offered == ReachBelow(request, next)
             && selection.offeredWeights == WeightsOf(request, selection.offered)
    requires ReadOk(request, deferred, read, selection.blocks, next)
    ensures Reading(request, deferred, selection, read, next)
  {
  }

  // ----- when the ranges matter -----

  /** The blocks through the last header come first, and one past it follows where a row lies there. */
  lemma StrayFollows(request: Request)
    requires request.Valid() && request.headers != []
    ensures Reach(request, RequestEnd(request)) <= Reach(request, request.to)
    ensures Reach(request, RequestEnd(request)) != []
    ensures !NoStray(request) ==> |Reach(request, RequestEnd(request))| < |Reach(request, request.to)|
  {
    hide Total, Identified, Ascend;
    var (end, last) := (RequestEnd(request), LastHeader(request.headers));
    EndInRequest(request);
    ReachIsBelow(request, end);
    ReachIsBelow(request, request.to);
    ReachGrows(request, After(end), After(request.to));
    assert exists header :: header in request.headers && header.block == last;
    assert last in Candidates(request, Range(request.from, end));
    assert last in Reach(request, end);
    if !NoStray(request) {
      var block :| block in TableBlocks(request.tables) && Range(request.from, request.to).Has(block) && block > last;
      assert block in Candidates(request, Range(request.from, request.to));
      assert block in Reach(request, request.to) && block !in Reach(request, end);
    }
  }

  /** One read of the whole request and ranges that stop at its last header select the same page exactly when no
      row lies past that header, or the first block that does would spend the budget. */
  lemma LayoutMatters(request: Request)
    requires request.Valid() && request.headers != []
    ensures var (through, whole) := (Reach(request, RequestEnd(request)), Reach(request, request.to));
            && (!NoStray(request) ==> |through| < |whole|)
            && (PageOf(request, request.to) == PageOf(request, RequestEnd(request)) <==>
                NoStray(request) || Saturated(Sum(WeightsOf(request, whole[..|through| + 1]))) > request.budget)
  {
    hide Request.Valid, Reach, RequestEnd, NoStray, Sum, Total;
    StrayFollows(request);
    if NoStray(request) {
      NothingPastEnd(request);
    } else {
      var (through, whole) := (Reach(request, RequestEnd(request)), Reach(request, request.to));
      var (some, more) := (WeightsOf(request, through), WeightsOf(request, whole));
      var next := WeightsOf(request, whole[..|through| + 1]);
      assert some <= next <= more && next == more[..|some| + 1];
      NextDecides(some, next, more, request.budget);
      var taken := Taken(some, request.budget);
      assert whole[..taken] == through[..taken] && more[..taken] == some[..taken];
    }
  }

  /** Whether the first weight past `some` fits decides whether those past it change the page. */
  lemma NextDecides(some: seq<Word>, next: seq<Word>, more: seq<Word>, budget: Word)
    requires some != [] && some <= next <= more && |next| == |some| + 1
    ensures Taken(some, budget) <= |some| && Taken(more, budget) <= |more|
    ensures Saturated(Sum(next)) > budget ==> Taken(more, budget) == Taken(some, budget)
    ensures Saturated(Sum(next)) <= budget ==> Taken(more, budget) > |some|
  {
    hide Sum;
    if Saturated(Sum(next)) > budget {
      ExceedingSettles(next, more, budget);
      forall k | 0 <= k <= |some| ensures Fits(next, budget, k) <==> Fits(some, budget, k) {
        assert next[..k] == some[..k];
      }
      assert next[..|next|] == next;
      TakenIs(next, budget, Taken(some, budget));
    } else {
      assert more[..|next|] == next;
      assert Fits(more, budget, |next|);
    }
  }

  /** A row of block 2 past the only header, of block 1: ranges that stop at the last header miss it. */
  lemma StrayRowMissed()
    ensures var request := Request(0, None, false, [Table(false, [Row(2, 0, 1)])], [Header(1, 1)], MAX_WORD);
            request.Valid() && PageOf(request, request.to) != PageOf(request, RequestEnd(request))
  {
    var (table, row) := (Table(false, [Row(2, 0, 1)]), Row(2, 0, 1));
    var request := Request(0, None, false, [table], [Header(1, 1)], MAX_WORD);
    assert table in request.tables && row in table.rows;
    assert 2 in TableBlocks(request.tables);
    assert forall block :: block in HeaderBlocks(request.headers) ==> block == 1;
    LayoutMatters(request);
  }
}
