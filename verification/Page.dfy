/**
 The page of a response: complete block ranges read from the start of the request, and their
 blocks weighed until the budget is spent or the request ends. Where each range ends is a
 guess about cost; which blocks the page has does not depend on it.
 */
module Page {
  import opened Wrappers
  import opened Words
  import opened Weights
  import opened Selection
  import opened Ascending

  /** What the tables hold and what the request asks: its first and last block, whether every header is a
      block of the page, and how much a page may weigh. `headers` are those of the requested blocks. */
  datatype Request = Request(from: Word, to: Option<Word>, includeAll: bool, tables: seq<Table>, headers: seq<Header>,
                             budget: Word)
  {
    ghost predicate Valid() {
      && (to.Some? ==> from <= to.value)
      && (forall i :: 0 <= i < |headers| ==> Range(from, to).Has(headers[i].block))
      && (forall i :: 0 <= i < |tables| && tables[i].several ==> Identified(tables[i].rows))
    }
  }

  function HeaderBlocks(headers: seq<Header>): set<Word> {
    set header | header in headers :: header.block
  }

  function TableBlocks(tables: seq<Table>): set<Word> {
    set table, row | table in tables && row in table.rows :: row.block
  }

  /** The first and the last header block. */
  function Boundary(headers: seq<Header>): set<Word> {
    set block | block in HeaderBlocks(headers)
                && ((forall other :: other in HeaderBlocks(headers) ==> block <= other)
                    || (forall other :: other in HeaderBlocks(headers) ==> other <= block))
  }

  function LastHeader(headers: seq<Header>): (last: Word)
    requires headers != []
    ensures last in HeaderBlocks(headers) && forall block :: block in HeaderBlocks(headers) ==> block <= last
  {
    assert headers[0].block in HeaderBlocks(headers);
    Greatest(HeaderBlocks(headers))
  }

  /** The last block a range need reach: the last header's, or the request's own end. */
  function RequestEnd(request: Request): Option<Word> {
    if request.headers == [] then request.to
    else
      var last := LastHeader(request.headers);
      Some(if request.to.Some? && request.to.value < last then request.to.value else last)
  }

  /** The blocks of a range a page can hold. */
  function Candidates(request: Request, range: Range): set<Word> {
    set block | block in (TableBlocks(request.tables)
                          + if request.includeAll then HeaderBlocks(request.headers) else Boundary(request.headers))
                && range.Has(block)
  }

  /** What each block weighs in a read of everything. */
  function WeightsOf(request: Request, blocks: seq<Word>): (weights: seq<Word>)
    ensures |weights| == |blocks|
  {
    seq(|blocks|, i requires 0 <= i < |blocks| => Saturated(Total(request.tables, request.headers, blocks[i])))
  }

  /** The blocks of the request through `end`, and the page among them. */
  function Reach(request: Request, end: Option<Word>): seq<Word> {
    Ascend(Candidates(request, Range(request.from, end)))
  }

  function PageOf(request: Request, end: Option<Word>): (page: (seq<Word>, seq<Word>)) {
    var blocks := Reach(request, end);
    var weights := WeightsOf(request, blocks);
    var taken := Taken(weights, request.budget);
    (blocks[..taken], weights[..taken])
  }

  // ----- where a range ends -----

  /** The least number of headers whose weight, at the weight per header read so far, spends what is left
      of the budget; the most a count can be where they weighed nothing or it is more. */
  function HeadersBudgetHolds(budget: Word, weight: Word, headersRead: nat): (holds: Word)
    ensures weight == 0 ==> holds == MAX_WORD
    ensures weight > 0 && holds < MAX_WORD ==>
              var left := if budget > weight then budget - weight else 0;
              holds * weight >= left * headersRead && (holds > 0 ==> (holds - 1) * weight < left * headersRead)
  {
    if weight == 0 then MAX_WORD
    else
      var left := if budget > weight then budget - weight else 0;
      var needed := left * headersRead;
      CeilingIsLeast(needed, weight);
      var holds := (needed + weight - 1) / weight;
      Saturated(holds)
  }

  lemma CeilingIsLeast(needed: nat, weight: nat)
    requires weight > 0
    ensures var holds := (needed + weight - 1) / weight;
            holds >= 0 && holds * weight >= needed && (holds > 0 ==> (holds - 1) * weight < needed)
  {
    var holds := (needed + weight - 1) / weight;
    assert needed + weight - 1 == holds * weight + (needed + weight - 1) % weight;
    assert (holds - 1) * weight == holds * weight - weight;
  }

  /** So many more headers, each of the weight per header read so far, spend what is left of the budget. */
  predicate Spends(budget: Word, weight: Word, headersRead: nat, more: nat) {
    weight > 0 && more * weight + weight * headersRead >= budget * headersRead
  }

  lemma HoldsSpends(budget: Word, weight: Word, headersRead: nat, more: nat)
    requires more < MAX_WORD
    ensures Spends(budget, weight, headersRead, more) <==> HeadersBudgetHolds(budget, weight, headersRead) <= more
  {
    if weight > 0 {
      var left := if budget > weight then budget - weight else 0;
      var holds := (left * headersRead + weight - 1) / weight;
      CeilingIsLeast(left * headersRead, weight);
      LeftIs(budget, weight, left, headersRead, more * weight);
      if holds <= more {
        Multiples(holds, more, weight);
      } else {
        Multiples(more, holds - 1, weight);
      }
    }
  }

  lemma LeftIs(budget: Word, weight: Word, left: Word, headersRead: nat, n: nat)
    requires left == if budget > weight then budget - weight else 0
    ensures n >= left * headersRead <==> n + weight * headersRead >= budget * headersRead
  {
    assert budget > weight ==> left * headersRead == budget * headersRead - weight * headersRead;
    assert budget <= weight ==> (weight - budget) * headersRead >= 0;
    assert (weight - budget) * headersRead == weight * headersRead - budget * headersRead;
  }

  lemma Multiples(a: nat, b: nat, weight: nat)
    requires a <= b
    ensures a * weight <= b * weight
  {
    assert (b - a) * weight >= 0;
  }

  const UNFILTERED := 16
  const SELECTIVE := 1024

  /** How ranges are chosen: whether the source reads by ranges at all, whether payloads are deferred, whether
      some table is unfiltered, and whether the footer bounds the selection within the budget. */
  datatype Options = Options(rangeReads: bool, deferred: bool, unfiltered: bool, fits: bool)

  function SelectionSpan(options: Options, budget: Word, weight: Word, headersRead: nat,
                         headersLeft: nat): (span: Option<Word>)
    ensures span.Some? ==> options.deferred && UNFILTERED <= span.value <= SELECTIVE
    ensures span.None? ==> !options.deferred || headersLeft > SELECTIVE
    ensures options.deferred && options.unfiltered && headersRead == 0 ==> span == Some(UNFILTERED)
    ensures var spends := options.unfiltered && Spends(budget, weight, headersRead, SELECTIVE);
            options.deferred && !(options.unfiltered && headersRead == 0) ==>
              if spends then
                span.Some? && Spends(budget, weight, headersRead, span.value)
                && (span.value > UNFILTERED ==> !Spends(budget, weight, headersRead, span.value - 1))
              else span == if headersLeft > SELECTIVE && options.fits then None else Some(SELECTIVE)
  {
    var holds := HeadersBudgetHolds(budget, weight, headersRead);
    HoldsSpends(budget, weight, headersRead, SELECTIVE);
    HoldsSpends(budget, weight, headersRead, UNFILTERED);
    HoldsSpends(budget, weight, headersRead, if holds <= SELECTIVE then holds else 0);
    HoldsSpends(budget, weight, headersRead, if 0 < holds <= SELECTIVE then holds - 1 else 0);
    if !options.deferred then None
    else if options.unfiltered && headersRead == 0 then Some(UNFILTERED)
    else if options.unfiltered && holds <= SELECTIVE then Some(if holds < UNFILTERED then UNFILTERED else holds)
    else if headersLeft > SELECTIVE && options.fits then None
    else Some(SELECTIVE)
  }

  /** Where the range from `from` ends, and whether it reaches the end of the request. */
  method RangeEnd(request: Request, options: Options, suggestion: Option<Word>, weight: Word, from: Word,
                  numbers: seq<Word>,
                  end: Option<Word>)
    returns (to: Option<Word>, last: bool)
    ensures last ==> to == request.to || to == end
    ensures !last ==> to.Some? && from <= to.value && (end.Some? ==> to.value < end.value)
    ensures !options.deferred && (suggestion.None? || !options.rangeReads) ==> last && to == request.to
    ensures options.rangeReads && suggestion == Some(0) && end.Some? && end.value > 0 ==>
              to == (if from < end.value then Some(from) else end) && (last <==> to == end)
  {
    var hint := if options.rangeReads then suggestion else None;
    var first := 0;
    while first < |numbers| && numbers[first] < from
      invariant 0 <= first <= |numbers|
    {
      first := first + 1;
    }
    var span := SelectionSpan(options, request.budget, weight, first, |numbers| - first);
    if span.Some? && first + span.value - 1 < |numbers| {
      var spanEnd := numbers[first + span.value - 1];
      hint := Some(if hint.Some? && hint.value < spanEnd then hint.value else spanEnd);
    }
    if hint.Some? && end.Some? && hint.value >= end.value {
      hint := None;
    }
    match (hint, end) {
      case (Some(h), Some(e)) =>
        var above := if h < from then from else h;
        to := Some(if above < e then above else e);
      case (Some(h), None) =>
        to := Some(if h < from then from else h);
      case (None, _) =>
        to := request.to;
    }
    last := hint.None? || to == end;
  }
}
