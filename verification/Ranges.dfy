/** Ascending rows as ranges of consecutive ones. */
module Ranges {
  /** The offsets of ranges, in order. */
  function Expanded(ranges: seq<(nat, nat)>): seq<nat> {
    if ranges == [] then []
    else
      var (from, to) := ranges[|ranges| - 1];
      Expanded(ranges[..|ranges| - 1]) + Span(from, to)
  }

  function Span(from: nat, to: nat): seq<nat> {
    if from >= to then [] else Span(from, to - 1) + [to - 1]
  }

  /** Nonempty ranges, ascending, with a row left out between each two. */
  ghost predicate Separate(ranges: seq<(nat, nat)>) {
    && (forall i :: 0 <= i < |ranges| ==> ranges[i].0 < ranges[i].1)
    && forall i, j :: 0 <= i < j < |ranges| ==> ranges[i].1 < ranges[j].0
  }

  /** The run of consecutive rows from `i` on. */
  method OneRun(offsets: seq<nat>, i: nat) returns (end: nat, next: nat)
    requires i < |offsets|
    ensures i < next <= |offsets| && offsets[i] < end && offsets[i..next] == Span(offsets[i], end)
    ensures end == offsets[next - 1] + 1 && (next < |offsets| ==> offsets[next] != end)
  {
    var start := offsets[i];
    end, next := start + 1, i + 1;
    assert Span(start, end) == Span(start, start) + [start] == [start];
    while next < |offsets| && offsets[next] == end
      invariant i < next <= |offsets| && start < end == offsets[next - 1] + 1
      invariant offsets[i..next] == Span(start, end)
    {
      assert offsets[i..next + 1] == offsets[i..next] + [end];
      end := end + 1;
      next := next + 1;
    }
  }

  /** Ascending offsets as maximal runs of consecutive rows. */
  method Runs(offsets: seq<nat>) returns (ranges: seq<(nat, nat)>)
    requires forall i, j :: 0 <= i < j < |offsets| ==> offsets[i] < offsets[j]
    ensures Expanded(ranges) == offsets && Separate(ranges)
  {
    hide Span;
    ranges := [];
    var i := 0;
    while i < |offsets|
      invariant i <= |offsets| && Expanded(ranges) == offsets[..i] && Separate(ranges)
      invariant ranges != [] ==> i > 0 && ranges[|ranges| - 1].1 == offsets[i - 1] + 1
      invariant ranges != [] && i < |offsets| ==> ranges[|ranges| - 1].1 < offsets[i]
    {
      var end, next := OneRun(offsets, i);
      ExpandedStep(ranges, offsets[i], end);
      assert offsets[..next] == offsets[..i] + offsets[i..next];
      ranges := ranges + [(offsets[i], end)];
      i := next;
    }
    assert offsets[..|offsets|] == offsets;
  }

  lemma ExpandedStep(ranges: seq<(nat, nat)>, from: nat, to: nat)
    ensures Expanded(ranges + [(from, to)]) == Expanded(ranges) + Span(from, to)
  {
    assert (ranges + [(from, to)])[..|ranges|] == ranges;
  }
}
