/**
 A table's plan: its items' predicates, ORed, and the relations its items ask for, each
 planned once with the items that asked. Only rows an asking item accepts feed a relation,
 also where the plan says nothing of items because every one left asked.
 */
module QueryPlan {
  import opened Wrappers
  import opened QueryFilters
  import opened QueryItems

  /** What a relation joins: two names that agree in all of it are one join. */
  datatype Join = Join(table: string, kind: Kind, leftKey: seq<string>, rightKey: seq<string>, output: seq<string>)

  datatype Kind = Plain | Children | Parents

  /** An item: its filters, and the relations it asks for by name, each as its own list of relations defines it. */
  datatype Item = Item(filters: seq<Filter>, relations: seq<Option<Join>>)

  /** A planned relation: its join, and the items that feed it; none named where every item does. */
  datatype Relation = Relation(join: Join, sources: Option<seq<nat>>)

  datatype Plan = Plan(predicates: seq<RowPredicate>, relations: seq<Relation>)

  // ----- reading the items directly -----

  /** The item has no place in a plan: a filter is refused, or a row can match it and a relation it asks for is
      none the table has. */
  predicate Refused(world: World, table: Table, item: Item) {
    !FiltersOk(world, table, item.filters) || (None in item.relations && !MatchesNone(world, table, item.filters))
  }

  /** Some item accepts the row. */
  predicate Selected(world: World, table: Table, items: seq<Item>, row: Row) {
    exists i :: 0 <= i < |items| && AllAccept(world, table, items[i].filters, row)
  }

  /** Some item that asks for the join accepts the row. */
  predicate Sources(world: World, table: Table, items: seq<Item>, join: Join, row: Row) {
    exists i :: 0 <= i < |items| && Some(join) in items[i].relations && AllAccept(world, table, items[i].filters, row)
  }

  // ----- what the plan does -----

  /** The scan returns the row. */
  predicate Scanned(world: World, plan: Plan, row: Row) {
    exists p :: 0 <= p < |plan.predicates| && RowPasses(world, plan.predicates[p], row)
  }

  /** The scan returns the row, and one of the relation's items matched it, where it names any. */
  predicate Feeds(world: World, plan: Plan, relation: Relation, row: Row) {
    && Scanned(world, plan, row)
    && (relation.sources.Some? ==>
          exists k :: 0 <= k < |relation.sources.value| && relation.sources.value[k] < |plan.predicates|
                      && RowPasses(world, plan.predicates[relation.sources.value[k]], row))
  }

  // ----- compiling -----

  /** A predicate passes exactly the rows its item accepts. */
  ghost predicate Means(world: World, table: Table, item: Item, predicate_: RowPredicate) {
    forall row :: WellTyped(table, row) ==>
      (AllAccept(world, table, item.filters, row) <==> RowPasses(world, predicate_, row))
  }

  /** No row passes an item that was left out. */
  ghost predicate AcceptsNone(world: World, table: Table, item: Item) {
    forall row :: WellTyped(table, row) ==> !AllAccept(world, table, item.filters, row)
  }

  /** The first `upTo` items compiled: the item of each predicate, and none left out that accepts a row. */
  ghost predicate Compiled(world: World, table: Table, items: seq<Item>, upTo: nat, predicates: seq<RowPredicate>,
                           origin: seq<nat>) {
    && |origin| == |predicates| && upTo <= |items|
    && (forall p :: 0 <= p < |origin| ==> origin[p] < upTo)
    && (forall p :: 0 <= p < |origin| ==> Means(world, table, items[origin[p]], predicates[p]))
    && (forall i: nat :: i < upTo && i !in origin ==> AcceptsNone(world, table, items[i]))
  }

  predicate Asks(items: seq<Item>, origin: seq<nat>, p: nat, join: Join) {
    p < |origin| && origin[p] < |items| && Some(join) in items[origin[p]].relations
  }

  /** The joins planned, each once, and for each the predicates of the items that asked for it. */
  ghost predicate Asked(items: seq<Item>, origin: seq<nat>, joins: seq<Join>, asked: seq<set<nat>>) {
    && |joins| == |asked|
    && (forall a, b :: 0 <= a < b < |joins| ==> joins[a] != joins[b])
    && (forall r, p: nat :: 0 <= r < |joins| ==> (p in asked[r] <==> Asks(items, origin, p, joins[r])))
    && (forall p: nat, join :: Asks(items, origin, p, join) ==> join in joins)
    && (forall r :: 0 <= r < |joins| ==> asked[r] != {})
  }

  function IndexOf(joins: seq<Join>, join: Join): (at: nat)
    ensures at <= |joins| && (at < |joins| ==> joins[at] == join)
    ensures at == |joins| ==> join !in joins
  {
    if joins == [] then 0 else if joins[0] == join then 0 else 1 + IndexOf(joins[1..], join)
  }

  /** Notes that an item asks for its joins, planning those not planned yet; refused where a name denotes none. */
  method AskFor(relations: seq<Option<Join>>, index: nat, joins: seq<Join>, asked: seq<set<nat>>)
    returns (result: Result<(seq<Join>, seq<set<nat>>)>)
    requires |joins| == |asked| && forall a, b :: 0 <= a < b < |joins| ==> joins[a] != joins[b]
    requires forall r :: 0 <= r < |asked| ==> index !in asked[r] && asked[r] != {}
    ensures result.Err? <==> None in relations
    ensures result.Ok? ==>
              var (moreJoins, moreAsked) := result.value;
              && |moreJoins| == |moreAsked| && joins <= moreJoins
              && (forall a, b :: 0 <= a < b < |moreJoins| ==> moreJoins[a] != moreJoins[b])
              && (forall join :: join in moreJoins <==> join in joins || Some(join) in relations)
              && (forall r :: 0 <= r < |moreJoins| ==>
                    moreAsked[r] == (if r < |joins| then asked[r] else {})
                    + (if Some(moreJoins[r]) in relations then {index} else {}))
  {
    var (moreJoins, moreAsked) := (joins, asked);
    for k := 0 to |relations|
      invariant None !in relations[..k]
      invariant |moreJoins| == |moreAsked| && joins <= moreJoins
      invariant forall a, b :: 0 <= a < b < |moreJoins| ==> moreJoins[a] != moreJoins[b]
      invariant forall join :: join in moreJoins <==> join in joins || Some(join) in relations[..k]
      invariant forall r :: 0 <= r < |moreJoins| ==>
                  moreAsked[r] == (if r < |joins| then asked[r] else {})
                  + (if Some(moreJoins[r]) in relations[..k] then {index} else {})
    {
      assert relations[..k + 1] == relations[..k] + [relations[k]];
      if relations[k].None? {
        return Err;
      }
      var join := relations[k].value;
      var at := IndexOf(moreJoins, join);
      if at == |moreJoins| {
        moreJoins := moreJoins + [join];
        moreAsked := moreAsked + [{}];
      }
      moreAsked := moreAsked[at := moreAsked[at] + {index}];
    }
    assert relations[..|relations|] == relations;
    return Ok((moreJoins, moreAsked));
  }

  lemma {:induction false} FullSet(s: set<nat>, n: nat)
    requires forall p :: p in s ==> p < n
    ensures |s| <= n
    ensures |s| == n <==> forall p: nat :: p < n ==> p in s
  {
    if n > 0 {
      var rest := s - {n - 1};
      FullSet(rest, n - 1);
      if n - 1 in s {
        assert s == rest + {n - 1};
      } else {
        assert s == rest;
      }
    }
  }

  /** A set of numbers below a bound, ascending. */
  function Ascending(s: set<nat>, n: nat): (numbers: seq<nat>)
    ensures forall p :: p in numbers <==> p in s && p < n
    ensures forall i, j :: 0 <= i < j < |numbers| ==> numbers[i] < numbers[j]
  {
    if n == 0 then []
    else
      var before := Ascending(s, n - 1);
      assert forall i :: 0 <= i < |before| ==> before[i] in before;
      if n - 1 in s then before + [n - 1] else before
  }

  lemma NothingCompiled(world: World, table: Table, items: seq<Item>)
    ensures Compiled(world, table, items, 0, [], []) && Asked(items, [], [], [])
  {
  }

  lemma CompiledSkip(world: World, table: Table, items: seq<Item>, i: nat, predicates: seq<RowPredicate>,
                     origin: seq<nat>)
    requires i < |items| && Compiled(world, table, items, i, predicates, origin) && AcceptsNone(world, table, items[i])
    ensures Compiled(world, table, items, i + 1, predicates, origin)
  {
    hide Means, AcceptsNone;
  }

  lemma CompiledStep(world: World, table: Table, items: seq<Item>, i: nat, predicates: seq<RowPredicate>,
                     origin: seq<nat>,
                     predicate_: RowPredicate)
    requires i < |items| && Compiled(world, table, items, i, predicates, origin)
             && Means(world, table, items[i], predicate_)
    ensures Compiled(world, table, items, i + 1, predicates + [predicate_], origin + [i])
  {
    hide Means, AcceptsNone;
    var more := origin + [i];
    assert forall k: nat :: k in origin ==> k in more;
    assert i == more[|origin|];
  }

  lemma AskedStep(items: seq<Item>, i: nat, origin: seq<nat>, joins: seq<Join>, asked: seq<set<nat>>,
                  moreJoins: seq<Join>, moreAsked: seq<set<nat>>)
    requires i < |items| && Asked(items, origin, joins, asked)
    requires |moreJoins| == |moreAsked| && joins <= moreJoins
    requires forall a, b :: 0 <= a < b < |moreJoins| ==> moreJoins[a] != moreJoins[b]
    requires forall join :: join in moreJoins <==> join in joins || Some(join) in items[i].relations
    requires forall r :: 0 <= r < |moreJoins| ==>
               moreAsked[r] == (if r < |joins| then asked[r] else {})
               + (if Some(moreJoins[r]) in items[i].relations then {|origin|} else {})
    ensures Asked(items, origin + [i], moreJoins, moreAsked)
  {
    var now := origin + [i];
    forall p: nat, join
      ensures Asks(items, now, p, join)
              <==> Asks(items, origin, p, join) || (p == |origin| && Some(join) in items[i].relations)
    {
    }
    hide Asks;
    forall r, p: nat | 0 <= r < |moreJoins| ensures p in moreAsked[r] <==> Asks(items, now, p, moreJoins[r]) {
      assert r >= |joins| ==> moreJoins[r] !in joins;
    }
    forall r | 0 <= r < |moreJoins| ensures moreAsked[r] != {} {
      if r >= |joins| {
        assert moreJoins[r] in moreJoins;
        assert moreJoins[r] !in joins;
        assert |origin| in moreAsked[r];
      }
    }
  }

  /** A plan's relation is fed by exactly the rows some asking item accepts. */
  lemma FeedsRight(world: World, table: Table, items: seq<Item>, origin: seq<nat>, joins: seq<Join>,
                   asked: seq<set<nat>>, r: nat,
                   plan: Plan, row: Row)
    requires Compiled(world, table, items, |items|, plan.predicates, origin) && Asked(items, origin, joins, asked)
    requires r < |joins| && r < |plan.relations| && WellTyped(table, row)
    requires plan.relations[r] == Planned(joins[r], asked[r], |plan.predicates|)
    ensures Feeds(world, plan, plan.relations[r], row) <==> Sources(world, table, items, joins[r], row)
  {
    hide *;
    AskedBelow(items, origin, joins, asked, r);
    OriginsMatch(world, table, items, origin, plan.predicates);
    FeedsAsked(world, plan, plan.relations[r], joins[r], asked[r], row);
    AskedSources(world, table, items, origin, joins, asked, r, plan.predicates, row);
  }

  lemma AskedBelow(items: seq<Item>, origin: seq<nat>, joins: seq<Join>, asked: seq<set<nat>>, r: nat)
    requires Asked(items, origin, joins, asked) && r < |joins|
    ensures r < |asked| && forall p :: p in asked[r] ==> p < |origin|
  {
  }

  lemma OriginsMatch(world: World, table: Table, items: seq<Item>, origin: seq<nat>, predicates: seq<RowPredicate>)
    requires Compiled(world, table, items, |items|, predicates, origin)
    ensures |origin| == |predicates|
  {
  }

  /** The rows that feed a planned relation are those some asking predicate passes. */
  predicate PassesAsked(world: World, predicates: seq<RowPredicate>, asked: set<nat>, row: Row) {
    exists p :: p in asked && p < |predicates| && RowPasses(world, predicates[p], row)
  }

  lemma FeedsAsked(world: World, plan: Plan, relation: Relation, join: Join, asked: set<nat>, row: Row)
    requires relation == Planned(join, asked, |plan.predicates|) && forall p :: p in asked ==> p < |plan.predicates|
    ensures Feeds(world, plan, relation, row) <==> PassesAsked(world, plan.predicates, asked, row)
  {
    hide RowPasses;
    FullSet(asked, |plan.predicates|);
    if Feeds(world, plan, relation, row) {
      if relation.sources.Some? {
        var numbers := relation.sources.value;
        var k :| 0 <= k < |numbers| && numbers[k] < |plan.predicates|
                 && RowPasses(world, plan.predicates[numbers[k]], row);
        assert numbers[k] in numbers;
      }
    }
    if PassesAsked(world, plan.predicates, asked, row) {
      var p :| p in asked && p < |plan.predicates| && RowPasses(world, plan.predicates[p], row);
      if relation.sources.Some? {
        assert p in relation.sources.value;
      }
    }
  }

  lemma AskedSources(world: World, table: Table, items: seq<Item>, origin: seq<nat>, joins: seq<Join>,
                     asked: seq<set<nat>>, r: nat,
                     predicates: seq<RowPredicate>, row: Row)
    requires Compiled(world, table, items, |items|, predicates, origin) && Asked(items, origin, joins, asked)
    requires r < |joins| && WellTyped(table, row)
    ensures PassesAsked(world, predicates, asked[r], row) <==> Sources(world, table, items, joins[r], row)
  {
    hide WellTyped, AllAccept, RowPasses, AcceptsNone, Means;
    if PassesAsked(world, predicates, asked[r], row) {
      var p :| p in asked[r] && p < |predicates| && RowPasses(world, predicates[p], row);
      assert Asks(items, origin, p, joins[r]);
      MeansAt(world, table, items[origin[p]], predicates[p], row);
    }
    if Sources(world, table, items, joins[r], row) {
      var i :| 0 <= i < |items| && Some(joins[r]) in items[i].relations
               && AllAccept(world, table, items[i].filters, row);
      AcceptingKept(world, table, items, origin, predicates, i, row);
      var p :| 0 <= p < |origin| && origin[p] == i;
      MeansAt(world, table, items[origin[p]], predicates[p], row);
      assert Asks(items, origin, p, joins[r]) && p in asked[r];
    }
  }

  /** The relation as planned: the items named, unless every one left asked. */
  function Planned(join: Join, asked: set<nat>, total: nat): Relation {
    Relation(join, if |asked| == total then None else Some(Ascending(asked, total)))
  }

  lemma MeansAt(world: World, table: Table, item: Item, predicate_: RowPredicate, row: Row)
    requires Means(world, table, item, predicate_) && WellTyped(table, row)
    ensures AllAccept(world, table, item.filters, row) <==> RowPasses(world, predicate_, row)
  {
  }

  lemma AcceptingKept(world: World, table: Table, items: seq<Item>, origin: seq<nat>, predicates: seq<RowPredicate>,
                      i: nat, row: Row)
    requires Compiled(world, table, items, |items|, predicates, origin) && i < |items|
    requires WellTyped(table, row) && AllAccept(world, table, items[i].filters, row)
    ensures i in origin
  {
    hide WellTyped, AllAccept, Means;
  }

  lemma ScansRight(world: World, table: Table, items: seq<Item>, origin: seq<nat>, plan: Plan, row: Row)
    requires Compiled(world, table, items, |items|, plan.predicates, origin) && WellTyped(table, row)
    ensures Scanned(world, plan, row) <==> Selected(world, table, items, row)
  {
    hide WellTyped, AllAccept, RowPasses, AcceptsNone, Means;
    if Scanned(world, plan, row) {
      var p :| 0 <= p < |plan.predicates| && RowPasses(world, plan.predicates[p], row);
      MeansAt(world, table, items[origin[p]], plan.predicates[p], row);
    }
    if Selected(world, table, items, row) {
      var i :| 0 <= i < |items| && AllAccept(world, table, items[i].filters, row);
      AcceptingKept(world, table, items, origin, plan.predicates, i, row);
      var p :| 0 <= p < |origin| && origin[p] == i;
      MeansAt(world, table, items[origin[p]], plan.predicates[p], row);
    }
  }

  /** What a plan answers: the rows some item accepts, and for each join asked for, once, the rows that feed it. */
  ghost predicate Answers(world: World, table: Table, items: seq<Item>, plan: Plan) {
    && (forall row :: WellTyped(table, row) ==> (Scanned(world, plan, row) <==> Selected(world, table, items, row)))
    && (forall r, row :: 0 <= r < |plan.relations| && WellTyped(table, row) ==>
          (Feeds(world, plan, plan.relations[r], row) <==> Sources(world, table, items, plan.relations[r].join, row)))
    && (forall a, b :: 0 <= a < b < |plan.relations| ==> plan.relations[a].join != plan.relations[b].join)
    && (forall join, row :: WellTyped(table, row) && Sources(world, table, items, join, row) ==>
          exists r :: 0 <= r < |plan.relations| && plan.relations[r].join == join)
  }

  lemma AnswersRight(world: World, table: Table, items: seq<Item>, origin: seq<nat>, joins: seq<Join>,
                     asked: seq<set<nat>>, plan: Plan)
    requires Compiled(world, table, items, |items|, plan.predicates, origin) && Asked(items, origin, joins, asked)
    requires |plan.relations| == |joins|
    requires forall r :: 0 <= r < |joins| ==> plan.relations[r] == Planned(joins[r], asked[r], |plan.predicates|)
    ensures Answers(world, table, items, plan)
  {
    hide WellTyped, AllAccept, RowPasses, AcceptsNone, Means, Feeds, Scanned, Selected, Compiled, Planned;
    forall row | WellTyped(table, row) ensures Scanned(world, plan, row) <==> Selected(world, table, items, row) {
      ScansRight(world, table, items, origin, plan, row);
    }
    forall r | 0 <= r < |joins| ensures plan.relations[r].join == joins[r] {
      PlannedJoin(joins[r], asked[r], |plan.predicates|);
    }
    forall r, row | 0 <= r < |plan.relations| && WellTyped(table, row)
      ensures Feeds(world, plan, plan.relations[r], row) <==> Sources(world, table, items, plan.relations[r].join, row)
    {
      FeedsRight(world, table, items, origin, joins, asked, r, plan, row);
    }
    forall join, row | WellTyped(table, row) && Sources(world, table, items, join, row)
      ensures exists r :: 0 <= r < |plan.relations| && plan.relations[r].join == join
    {
      var i :| 0 <= i < |items| && Some(join) in items[i].relations && AllAccept(world, table, items[i].filters, row);
      AcceptingKept(world, table, items, origin, plan.predicates, i, row);
      var p :| 0 <= p < |origin| && origin[p] == i;
      assert Asks(items, origin, p, join);
      var r :| 0 <= r < |joins| && joins[r] == join;
      assert plan.relations[r].join == join;
    }
  }

  lemma PlannedJoin(join: Join, asked: set<nat>, total: nat)
    ensures Planned(join, asked, total).join == join
  {
  }

  /** All of a table's filters, item by item. */
  function FiltersOf(items: seq<Item>): seq<Filter> {
    if items == [] then [] else FiltersOf(items[..|items| - 1]) + items[|items| - 1].filters
  }

  lemma {:induction false} FiltersStep(items: seq<Item>, i: nat)
    requires i < |items|
    ensures ReferenceCount(FiltersOf(items[..i + 1]))
            == ReferenceCount(FiltersOf(items[..i])) + ReferenceCount(items[i].filters)
            <= ReferenceCount(FiltersOf(items))
    ensures Referred(FiltersOf(items[..i + 1])) == Referred(FiltersOf(items[..i])) + Referred(items[i].filters)
    decreases |items|
  {
    hide ReferenceCount, Referred;
    assert items[..i + 1][..i] == items[..i];
    CountAdds(FiltersOf(items[..i]), items[i].filters);
    ReferredAdds(FiltersOf(items[..i]), items[i].filters);
    var before := items[..|items| - 1];
    if i + 1 < |items| {
      FiltersStep(before, i);
      CountAdds(FiltersOf(before), items[|items| - 1].filters);
      assert before[..i + 1] == items[..i + 1] && before[..i] == items[..i];
    } else {
      assert items[..i + 1] == items;
    }
  }

  lemma NoFilters(items: seq<Item>)
    requires items == []
    ensures ReferenceCount(FiltersOf(items)) == 0 && Referred(FiltersOf(items)) == {}
  {
  }

  /** The plan of a table's items: refused exactly where an item is, or where the items bring the request to too many
      references, and none exactly where every item looks for nothing. */
  method CompileTable(world: World, table: Table, items: seq<Item>, tally: ReferenceTally)
    returns (result: Result<Option<Plan>>)
    requires tally.count <= MAX_SET_REFERENCES
    modifies tally
    ensures result.Err?
            <==> (exists i :: 0 <= i < |items| && Refused(world, table, items[i]))
                 || old(tally.count) + ReferenceCount(FiltersOf(items)) > MAX_SET_REFERENCES
    ensures result.Ok? ==> tally.count == old(tally.count) + ReferenceCount(FiltersOf(items))
    ensures result.Ok? ==> tally.named == old(tally.named) + Referred(FiltersOf(items))
    ensures result.Ok? ==>
              (result.value.None? <==> forall i :: 0 <= i < |items| ==> MatchesNone(world, table, items[i].filters))
    ensures result.Ok? && result.value.None? ==>
              forall row :: WellTyped(table, row) ==> !Selected(world, table, items, row)
    ensures result.Ok? && result.value.Some? ==>
              result.value.value.predicates != [] && Answers(world, table, items, result.value.value)
  {
    hide WellTyped, AllAccept, RowPasses, FiltersOk, Compiled, Asked, Answers, Selected, MatchesNone, FiltersOf,
         ReferenceCount, Referred;
    var predicates: seq<RowPredicate> := [];
    ghost var origin: seq<nat> := [];
    var joins: seq<Join> := [];
    var asked: seq<set<nat>> := [];
    NothingCompiled(world, table, items);
    NoFilters(items[..0]);
    for i := 0 to |items|
      invariant forall k :: 0 <= k < i ==> !Refused(world, table, items[k])
      invariant tally.count == old(tally.count) + ReferenceCount(FiltersOf(items[..i])) <= MAX_SET_REFERENCES
      invariant tally.named == old(tally.named) + Referred(FiltersOf(items[..i]))
      invariant predicates == [] <==> forall k :: 0 <= k < i ==> MatchesNone(world, table, items[k].filters)
      invariant Compiled(world, table, items, i, predicates, origin) && Asked(items, origin, joins, asked)
      invariant |origin| == |predicates|
    {
      FiltersStep(items, i);
      var compiled := CompileItem(world, table, items[i].filters, tally);
      if compiled.Err? {
        return Err;
      }
      if compiled.value.Unsatisfiable? {
        CompiledSkip(world, table, items, i, predicates, origin);
        continue;
      }
      AskedMeans(items, origin, joins, asked);
      var more := AskFor(items[i].relations, |predicates|, joins, asked);
      if more.Err? {
        return Err;
      }
      CompiledStep(world, table, items, i, predicates, origin, compiled.value.predicate_);
      AskedStep(items, i, origin, joins, asked, more.value.0, more.value.1);
      predicates := predicates + [compiled.value.predicate_];
      origin := origin + [i];
      joins, asked := more.value.0, more.value.1;
    }
    assert items[..|items|] == items;
    if predicates == [] {
      NoneSelected(world, table, items, origin);
      return Ok(None);
    }
    AskedMeans(items, origin, joins, asked);
    var relations := seq(|joins|, r requires 0 <= r < |joins| && r < |asked| =>
                           Planned(joins[r], asked[r], |predicates|));
    var plan := Plan(predicates, relations);
    AnswersRight(world, table, items, origin, joins, asked, plan);
    return Ok(Some(plan));
  }

  lemma AskedMeans(items: seq<Item>, origin: seq<nat>, joins: seq<Join>, asked: seq<set<nat>>)
    requires Asked(items, origin, joins, asked)
    ensures |joins| == |asked| && forall a, b :: 0 <= a < b < |joins| ==> joins[a] != joins[b]
    ensures forall r :: 0 <= r < |asked| ==> |origin| !in asked[r] && asked[r] != {}
  {
  }

  lemma NoneSelected(world: World, table: Table, items: seq<Item>, origin: seq<nat>)
    requires Compiled(world, table, items, |items|, [], origin)
    ensures forall row :: WellTyped(table, row) ==> !Selected(world, table, items, row)
  {
    hide WellTyped, AllAccept;
    forall row | WellTyped(table, row) ensures !Selected(world, table, items, row) {
      ScansRight(world, table, items, origin, Plan([], []), row);
    }
  }

  // ----- a request -----

  /** A table as a request names it, if the catalog has it, and its items. */
  datatype Request = Request(table: Option<Table>, items: seq<Item>)

  /** All items, table by table. */
  function ItemsOf(requests: seq<Request>): seq<Item> {
    if requests == [] then [] else ItemsOf(requests[..|requests| - 1]) + requests[|requests| - 1].items
  }

  lemma {:induction false} ItemsStep(requests: seq<Request>, t: nat)
    requires t < |requests|
    ensures ReferenceCount(FiltersOf(ItemsOf(requests[..t + 1])))
            == ReferenceCount(FiltersOf(ItemsOf(requests[..t]))) + ReferenceCount(FiltersOf(requests[t].items))
            <= ReferenceCount(FiltersOf(ItemsOf(requests)))
    ensures Referred(FiltersOf(ItemsOf(requests[..t + 1])))
            == Referred(FiltersOf(ItemsOf(requests[..t]))) + Referred(FiltersOf(requests[t].items))
    decreases |requests|
  {
    hide ReferenceCount, Referred, FiltersOf;
    assert requests[..t + 1][..t] == requests[..t];
    ItemsAdd(ItemsOf(requests[..t]), requests[t].items);
    var before := requests[..|requests| - 1];
    if t + 1 < |requests| {
      ItemsStep(before, t);
      ItemsAdd(ItemsOf(before), requests[|requests| - 1].items);
      assert before[..t + 1] == requests[..t + 1] && before[..t] == requests[..t];
    } else {
      assert requests[..t + 1] == requests;
    }
  }

  lemma {:induction false} ItemsAdd(a: seq<Item>, b: seq<Item>)
    ensures FiltersOf(a + b) == FiltersOf(a) + FiltersOf(b)
    ensures ReferenceCount(FiltersOf(a + b)) == ReferenceCount(FiltersOf(a)) + ReferenceCount(FiltersOf(b))
    ensures Referred(FiltersOf(a + b)) == Referred(FiltersOf(a)) + Referred(FiltersOf(b))
  {
    hide ReferenceCount, Referred;
    if b == [] {
      assert a + b == a;
    } else {
      var before := b[..|b| - 1];
      ItemsAdd(a, before);
      assert (a + b)[..|a + b| - 1] == a + before;
    }
    CountAdds(FiltersOf(a), FiltersOf(b));
    ReferredAdds(FiltersOf(a), FiltersOf(b));
  }

  /** A request is refused where a table is unknown or an item is refused, where it refers to sets too often, or where
      nothing refers to a set it declares. */
  predicate QueryRefused(world: World, declared: seq<string>, requests: seq<Request>) {
    || (exists t :: 0 <= t < |requests| && TableRefused(world, requests[t]))
    || ReferenceCount(FiltersOf(ItemsOf(requests))) > MAX_SET_REFERENCES
    || exists name :: name in declared && name !in Referred(FiltersOf(ItemsOf(requests)))
  }

  predicate TableRefused(world: World, request: Request) {
    request.table.None?
    || exists i :: 0 <= i < |request.items| && Refused(world, request.table.value, request.items[i])
  }

  lemma NoItems(requests: seq<Request>)
    requires requests == []
    ensures ReferenceCount(FiltersOf(ItemsOf(requests))) == 0 && Referred(FiltersOf(ItemsOf(requests))) == {}
  {
  }

  /** A table's plan answers its items. */
  ghost predicate PlanOk(world: World, request: Request, plan: Plan) {
    request.table.Some? && Answers(world, request.table.value, request.items, plan)
  }

  /** No row is one that some item accepts. */
  ghost predicate SelectsNone(world: World, request: Request) {
    request.table.Some?
    && forall row :: WellTyped(request.table.value, row) ==>
         !Selected(world, request.table.value, request.items, row)
  }

  /** The first `upTo` tables' plans, in their order, each with its table's place: a table without one selects no
      row. */
  ghost predicate Answered(world: World, requests: seq<Request>, upTo: nat, plans: seq<(nat, Plan)>) {
    && (forall i, j :: 0 <= i < j < |plans| ==> plans[i].0 < plans[j].0)
    && (forall i :: 0 <= i < |plans| ==>
          plans[i].0 < upTo <= |requests| && PlanOk(world, requests[plans[i].0], plans[i].1))
    && (forall t: nat :: t < upTo <= |requests| && (forall i :: 0 <= i < |plans| ==> plans[i].0 != t) ==>
          SelectsNone(world, requests[t]))
  }

  lemma AnsweredStep(world: World, requests: seq<Request>, t: nat, plans: seq<(nat, Plan)>, plan: Option<Plan>)
    requires t < |requests| && Answered(world, requests, t, plans)
    requires if plan.Some? then PlanOk(world, requests[t], plan.value) else SelectsNone(world, requests[t])
    ensures Answered(world, requests, t + 1, if plan.Some? then plans + [(t, plan.value)] else plans)
  {
    hide PlanOk, SelectsNone;
    var more := if plan.Some? then plans + [(t, plan.value)] else plans;
    assert forall i :: 0 <= i < |plans| ==> more[i] == plans[i];
    assert plan.Some? ==> more[|plans|].0 == t;
  }

  /** The plans of a request's tables, those with nothing to scan left out; one tally counts the references of all of
      them. */
  method CompileQuery(world: World, declared: seq<string>, requests: seq<Request>)
    returns (result: Result<seq<(nat, Plan)>>)
    ensures result.Err? <==> QueryRefused(world, declared, requests)
    ensures result.Ok? ==> Answered(world, requests, |requests|, result.value)
  {
    hide Refused, Answers, Selected, WellTyped, Answered, ItemsOf, ReferenceCount, Referred, FiltersOf;
    var tally := new ReferenceTally();
    var plans: seq<(nat, Plan)> := [];
    NoItems(requests[..0]);
    NoneAnswered(world, requests);
    for t := 0 to |requests|
      invariant fresh(tally) && Answered(world, requests, t, plans)
      invariant forall k :: 0 <= k < t ==> !TableRefused(world, requests[k])
      invariant tally.count == ReferenceCount(FiltersOf(ItemsOf(requests[..t]))) <= MAX_SET_REFERENCES
      invariant tally.named == Referred(FiltersOf(ItemsOf(requests[..t])))
    {
      ItemsStep(requests, t);
      if requests[t].table.None? {
        return Err;
      }
      var compiled := CompileTable(world, requests[t].table.value, requests[t].items, tally);
      if compiled.Err? {
        return Err;
      }
      AnsweredStep(world, requests, t, plans, compiled.value);
      if compiled.value.Some? {
        plans := plans + [(t, compiled.value.value)];
      }
    }
    assert requests[..|requests|] == requests;
    if exists name :: name in declared && name !in tally.named {
      return Err;
    }
    return Ok(plans);
  }

  lemma NoneAnswered(world: World, requests: seq<Request>)
    ensures Answered(world, requests, 0, [])
  {
  }
}
