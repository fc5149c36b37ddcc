/**
 The counting sort that gathers items by a small key: count each key, sum the counts in
 place to where each key's run starts, then put each item at its run's next place.
 */
module Grouping {
  import opened Wrappers

  /** An item and the run it belongs to, if any. */
  type Keyed<T> = (Option<nat>, T)

  /** The items of run `p`, in their order. */
  function Select<T>(items: seq<Keyed<T>>, p: nat): (run: seq<T>)
    ensures |run| <= |items|
  {
    if items == [] then []
    else
      var before := Select(items[..|items| - 1], p);
      var (key, item) := items[|items| - 1];
      if key == Some(p) then before + [item] else before
  }

  /** How many items belong to a run below `p`. */
  function Before<T>(items: seq<Keyed<T>>, p: nat): nat {
    if p == 0 then 0 else Before(items, p - 1) + |Select(items, p - 1)|
  }

  lemma {:induction false} BeforeStep<T>(items: seq<Keyed<T>>, p: nat)
    ensures Before(items, p) == if p == 0 then 0 else Before(items, p - 1) + |Select(items, p - 1)|
  {
  }

  lemma {:induction false} SelectStep<T>(items: seq<Keyed<T>>, i: nat, p: nat)
    requires i < |items|
    ensures Select(items[..i + 1], p)
            == if items[i].0 == Some(p) then Select(items[..i], p) + [items[i].1] else Select(items[..i], p)
  {
    assert items[..i + 1][..i] == items[..i];
  }

  lemma {:induction false} SelectGrows<T>(items: seq<Keyed<T>>, i: nat, p: nat)
    requires i <= |items|
    ensures |Select(items[..i], p)| <= |Select(items, p)|
    decreases |items| - i
  {
    if i == |items| {
      assert items[..i] == items;
    } else {
      SelectStep(items, i, p);
      SelectGrows(items, i + 1, p);
    }
  }

  lemma {:induction false} BeforeGrows<T>(items: seq<Keyed<T>>, p: nat, q: nat)
    requires p <= q
    ensures Before(items, p) <= Before(items, q)
  {
    hide Select;
    if p < q {
      BeforeGrows(items, p, q - 1);
    }
  }

  /** No two runs share a place. */
  lemma {:induction false} RunsApart<T>(items: seq<Keyed<T>>, p: nat, q: nat)
    requires p != q
    ensures Before(items, p) + |Select(items, p)| <= Before(items, q)
            || Before(items, q) + |Select(items, q)| <= Before(items, p)
  {
    hide Select;
    if p < q {
      BeforeGrows(items, p + 1, q);
    } else {
      BeforeGrows(items, q + 1, p);
    }
  }

  /** How many items each run has, counted into the place after it. */
  method Count<T>(items: seq<Keyed<T>>, n: nat) returns (starts: array<nat>)
    requires forall i :: 0 <= i < |items| && items[i].0.Some? ==> items[i].0.value < n
    ensures fresh(starts) && starts.Length == n + 1 && starts[0] == 0
    ensures forall p :: 1 <= p <= n ==> starts[p] == |Select(items, p - 1)|
  {
    hide Select;
    starts := new nat[n + 1](_ => 0);
    SelectNothing(items);
    for i := 0 to |items|
      invariant starts[0] == 0
      invariant forall p :: 1 <= p <= n ==> starts[p] == |Select(items[..i], p - 1)|
    {
      if items[i].0.Some? {
        var position := items[i].0.value;
        starts[position + 1] := starts[position + 1] + 1;
      }
      forall p | 1 <= p <= n ensures starts[p] == |Select(items[..i + 1], p - 1)| {
        SelectStep(items, i, p - 1);
      }
    }
    assert items[..|items|] == items;
  }

  /** Where each of `n` runs starts, and in its last place where the last one ends: the counts, summed in place. */
  method Starts<T>(items: seq<Keyed<T>>, n: nat) returns (starts: array<nat>)
    requires forall i :: 0 <= i < |items| && items[i].0.Some? ==> items[i].0.value < n
    ensures fresh(starts) && starts.Length == n + 1
    ensures forall p :: 0 <= p <= n ==> starts[p] == Before(items, p)
  {
    hide Select, Before;
    starts := Count(items, n);
    BeforeStep(items, 0);
    for p := 1 to n + 1
      invariant forall k :: 0 <= k < p ==> starts[k] == Before(items, k)
      invariant forall k :: p <= k <= n ==> starts[k] == |Select(items, k - 1)|
    {
      BeforeStep(items, p);
      starts[p] := starts[p] + starts[p - 1];
    }
  }

  /** `rows` holds `run` from place `at` on. */
  ghost predicate Holds<T>(rows: seq<T>, at: nat, run: seq<T>) {
    at + |run| <= |rows| && rows[at..at + |run|] == run
  }

  /** Each run of items, one after the other. */
  method Fill<T(0)>(items: seq<Keyed<T>>, n: nat, starts: array<nat>) returns (rows: array<T>)
    requires forall i :: 0 <= i < |items| && items[i].0.Some? ==> items[i].0.value < n
    requires starts.Length == n + 1 && forall p :: 0 <= p <= n ==> starts[p] == Before(items, p)
    ensures fresh(rows) && rows.Length == Before(items, n)
    ensures forall p :: 0 <= p < n ==> Holds(rows[..], Before(items, p), Select(items, p))
  {
    hide Select, Before, Holds;
    var next := new nat[n + 1];
    for p := 0 to n + 1
      invariant forall k :: 0 <= k < p ==> next[k] == starts[k]
    {
      next[p] := starts[p];
    }
    rows := new T[starts[n]];
    RunsWithin(items, n);
    NothingSelected(items, n, rows[..]);
    for i := 0 to |items|
      invariant forall p :: 0 <= p < n ==> next[p] == Before(items, p) + |Select(items[..i], p)|
      invariant forall p :: 0 <= p < n ==> Holds(rows[..], Before(items, p), Select(items[..i], p))
    {
      ghost var was := rows[..];
      forall p: nat
        ensures Select(items[..i + 1], p) == if items[i].0 == Some(p) then Select(items[..i], p) + [items[i].1]
                                             else Select(items[..i], p)
      {
        SelectStep(items, i, p);
      }
      if items[i].0.Some? {
        var position := items[i].0.value;
        SelectGrows(items, i + 1, position);
        assert Before(items, position) + |Select(items, position)| <= Before(items, n);
        rows[next[position]] := items[i].1;
        next[position] := next[position] + 1;
        forall p | 0 <= p < n ensures Holds(rows[..], Before(items, p), Select(items[..i + 1], p)) {
          FillStep(items, i, n, position, p, was, rows[..]);
        }
      }
    }
    assert items[..|items|] == items;
  }

  lemma {:induction false} RunsWithin<T>(items: seq<Keyed<T>>, n: nat)
    ensures forall p :: 0 <= p < n ==> Before(items, p) + |Select(items, p)| <= Before(items, n)
  {
    hide Select;
    forall p | 0 <= p < n ensures Before(items, p) + |Select(items, p)| <= Before(items, n) {
      BeforeGrows(items, p + 1, n);
    }
  }

  lemma SelectNothing<T>(items: seq<Keyed<T>>)
    ensures forall p :: 0 <= p ==> Select(items[..0], p) == []
  {
  }

  lemma {:induction false} NothingSelected<T>(items: seq<Keyed<T>>, n: nat, rows: seq<T>)
    requires |rows| == Before(items, n)
    ensures forall p :: 0 <= p < n ==>
              Select(items[..0], p) == [] && Holds(rows, Before(items, p), Select(items[..0], p))
  {
    RunsWithin(items, n);
  }

  /** Putting an item at its run's next place leaves what run `p` holds so far. */
  lemma {:induction false} FillStep<T>(items: seq<Keyed<T>>, i: nat, n: nat, position: nat, p: nat, was: seq<T>,
                                       now: seq<T>)
    requires i < |items| && items[i].0 == Some(position) && position < n && p < n && |was| == |now| == Before(items, n)
    requires var at := Before(items, position) + |Select(items[..i], position)|;
             at < |was| && now == was[at := items[i].1]
    requires Holds(was, Before(items, p), Select(items[..i], p))
    ensures Holds(now, Before(items, p), Select(items[..i + 1], p))
  {
    hide Select, Before;
    SelectStep(items, i, p);
    var at := Before(items, p);
    var run := Select(items[..i], p);
    if p != position {
      SelectGrows(items, i + 1, position);
      SelectStep(items, i, position);
      SelectGrows(items, i, p);
      RunsApart(items, p, position);
      assert now[at..at + |run|] == was[at..at + |run|];
    } else {
      assert now[at..at + |run| + 1] == was[at..at + |run|] + [items[i].1];
    }
  }
}
