/** A whole item: each filter by its kind, and the item's filters together. */
module QueryItems {
  import opened Wrappers
  import opened QueryFilters

  /** Filters the catalog defines beside the columns themselves. */
  datatype Special =
    | Discriminator(byLength: map<nat, string>)
    | Bloom(column: string)
    | RangeGte(column: string)
    | RangeLte(column: string)
    | ColumnAlias(column: string)
    | GteConst(column: string, text: string)

  /** A table's columns and special filters; which filters may refer to which sets; and whether an item's filters
      keep within the request's limits. */
  datatype Table = Table(columns: map<string, Type>, specials: map<string, Special>,
                         setsOk: (string, seq<string>) -> bool)

  type Filter = (string, Json)

  ghost predicate WellTyped(table: Table, row: Row) {
    forall column :: column in table.columns ==> Holds(table.columns[column], CellOf(row, column))
  }

  // ----- reading a filter directly -----

  /** A filter's list; a value written alone is a list of one. */
  function ListOf(value: Json): seq<Json> {
    if value.List? then value.items else [value]
  }

  predicate HasReference(value: Json) {
    exists i :: 0 <= i < |ListOf(value)| && ListOf(value)[i].Object?
  }

  /** The elements that are values. */
  function Listed(values: seq<Json>): (listed: seq<Json>)
    ensures forall value :: value in listed <==> value in values && !value.Object?
  {
    if values == [] then []
    else
      var (before, last) := (Listed(values[..|values| - 1]), values[|values| - 1]);
      assert values == values[..|values| - 1] + [last];
      if last.Object? then before else before + [last]
  }

  /** The sets named, each once, in the order first named. */
  function Named(values: seq<Json>): (names: seq<string>)
    ensures forall name :: name in names <==> Object(Some(name)) in values
    ensures forall i, j :: 0 <= i < j < |names| ==> names[i] != names[j]
  {
    if values == [] then []
    else
      var (before, last) := (Named(values[..|values| - 1]), values[|values| - 1]);
      assert values == values[..|values| - 1] + [last];
      if last.Object? && last.named.Some? && last.named.value !in before then before + [last.named.value] else before
  }

  predicate TakesList(table: Table, key: string) {
    key in table.specials ==>
      !(table.specials[key].RangeGte? || table.specials[key].RangeLte? || table.specials[key].GteConst?)
  }

  predicate EmptyList(value: Json) {
    value.List? && value.items == []
  }

  /** The column a list filter is on. */
  function ColumnOf(table: Table, key: string): string {
    if key in table.specials && table.specials[key].ColumnAlias? then table.specials[key].column else key
  }

  predicate ColumnAccepts(world: World, table: Table, column: string, value: Json, row: Row) {
    && column in table.columns
    && var kind := table.columns[column];
       if value.Flag? && kind == Boolean then CellOf(row, column) == FlagCell(value.flag)
       else NamedBySome(world, kind, ListOf(value), CellOf(row, column))
  }

  predicate InSomeSet(world: World, names: seq<string>, cell: Cell) {
    exists i :: 0 <= i < |names| && world.inSet(names[i], cell)
  }

  /** What a filter asks of a row, as its kind defines it. */
  predicate Accepts(world: World, table: Table, filter: Filter, row: Row) {
    var (key, value) := filter;
    if HasReference(value) then
      var column := ColumnOf(table, key);
      column in table.columns
      && (NamedBySome(world, table.columns[column], Listed(ListOf(value)), CellOf(row, column))
          || InSomeSet(world, Named(ListOf(value)), CellOf(row, column)))
    else if TakesList(table, key) && EmptyList(value) then false
    else if key in table.specials then
      match table.specials[key]
      case Discriminator(byLength) => StartsWithSome(world, ListOf(value), byLength, row)
      case Bloom(column) =>
        exists i :: 0 <= i < |ListOf(value)| && ListOf(value)[i].Text?
          && world.bloom(CellOf(row, column), ListOf(value)[i].text)
      case RangeGte(column) => value.Number? && CellOf(row, column).IntCell?
                               && CellOf(row, column).number >= value.number
      case RangeLte(column) => value.Number? && CellOf(row, column).IntCell?
                               && CellOf(row, column).number <= value.number
      case ColumnAlias(column) => ColumnAccepts(world, table, column, value, row)
      case GteConst(column, text) =>
        value.Flag?
        && (value.flag ==> CellOf(row, column).TextCell? && world.textAtLeast(CellOf(row, column).text, text))
    else ColumnAccepts(world, table, key, value, row)
  }

  // ----- which filters are refused -----

  predicate ColumnOk(world: World, table: Table, column: string, value: Json) {
    && column in table.columns
    && var kind := table.columns[column];
       (value.Flag? && kind == Boolean)
       || ((value.Text? || value.Number? || value.List?) && ListOk(world, kind, ListOf(value)))
  }

  /** Every object in a filter's list names a set. */
  predicate AllNamed(value: Json) {
    forall i :: 0 <= i < |ListOf(value)| && ListOf(value)[i].Object? ==> ListOf(value)[i].named.Some?
  }

  predicate FilterOk(world: World, table: Table, filter: Filter) {
    var (key, value) := filter;
    if HasReference(value) then
      && AllNamed(value)
      && (key !in table.specials || table.specials[key].ColumnAlias?)
      && ColumnOf(table, key) in table.columns
      && table.setsOk(key, Named(ListOf(value)))
      && (Listed(ListOf(value)) != [] ==> ListOk(world, table.columns[ColumnOf(table, key)], Listed(ListOf(value))))
    else if TakesList(table, key) && EmptyList(value) then true
    else if key in table.specials then
      match table.specials[key]
      case Discriminator(byLength) => value.List? && PrefixesOk(world, value.items, byLength)
      case Bloom(_) => value.List? && forall i :: 0 <= i < |value.items| ==> value.items[i].Text?
      case RangeGte(column) => RangeOk(table, column, value)
      case RangeLte(column) => RangeOk(table, column, value)
      case ColumnAlias(column) => ColumnOk(world, table, column, value)
      case GteConst(column, _) => value.Flag? && (value.flag ==> column in table.columns)
    else ColumnOk(world, table, key, value)
  }

  predicate RangeOk(table: Table, column: string, value: Json) {
    column in table.columns && value.Number? && value.number >= 0 && table.columns[column] == Unsigned(8)
  }

  // ----- which filters no row can match -----

  /** A column's filter keeps no value: its type can hold none of those listed. */
  predicate KeepsNone(world: World, table: Table, column: string, value: Json) {
    && column in table.columns
    && !(value.Flag? && table.columns[column] == Boolean)
    && !SomeFits(world, table.columns[column], ListOf(value))
  }

  /** A filter with nothing to look for: an empty list, or a list of values its column cannot hold. A filter that
      names a set is none, whatever its list. */
  predicate LooksForNothing(world: World, table: Table, filter: Filter) {
    var (key, value) := filter;
    && !HasReference(value)
    && if TakesList(table, key) && EmptyList(value) then true
       else if key in table.specials then
         table.specials[key].ColumnAlias? && KeepsNone(world, table, table.specials[key].column, value)
       else KeepsNone(world, table, key, value)
  }

  // ----- references to sets -----

  const MAX_SET_REFERENCES := 64

  /** The sets a filter refers to, each once. */
  function References(filter: Filter): seq<string> {
    Named(ListOf(filter.1))
  }

  /** A request's references, a name counted once per list. */
  function ReferenceCount(filters: seq<Filter>): nat {
    if filters == [] then 0
    else ReferenceCount(filters[..|filters| - 1]) + |References(filters[|filters| - 1])|
  }

  /** The sets that some filter refers to. */
  function Referred(filters: seq<Filter>): set<string> {
    set filter, name | filter in filters && name in References(filter) :: name
  }

  lemma {:induction false} CountGrows(filters: seq<Filter>, n: nat)
    requires n <= |filters|
    ensures ReferenceCount(filters[..n]) <= ReferenceCount(filters)
  {
    if n == |filters| {
      assert filters[..n] == filters;
    } else {
      CountGrows(filters[..|filters| - 1], n);
      assert filters[..|filters| - 1][..n] == filters[..n];
    }
  }

  lemma {:induction false} CountAdds(a: seq<Filter>, b: seq<Filter>)
    ensures ReferenceCount(a + b) == ReferenceCount(a) + ReferenceCount(b)
  {
    hide References;
    if b == [] {
      assert a + b == a;
    } else {
      var before := b[..|b| - 1];
      CountAdds(a, before);
      assert (a + b)[..|a + b| - 1] == a + before;
    }
  }

  lemma ReferredAdds(a: seq<Filter>, b: seq<Filter>)
    ensures Referred(a + b) == Referred(a) + Referred(b)
  {
    hide References;
    assert forall filter :: filter in a + b <==> filter in a || filter in b;
  }

  lemma NothingReferred(filters: seq<Filter>)
    requires filters == []
    ensures ReferenceCount(filters) == 0 && Referred(filters) == {}
  {
  }

  lemma ReferredStep(filters: seq<Filter>, k: nat)
    requires k < |filters|
    ensures ReferenceCount(filters[..k + 1]) == ReferenceCount(filters[..k]) + |References(filters[k])|
    ensures Referred(filters[..k + 1]) == Referred(filters[..k]) + set name | name in References(filters[k])
  {
    var (before, now) := (filters[..k], filters[..k + 1]);
    assert now == before + [filters[k]] && now[..k] == before;
    assert forall filter :: filter in now <==> filter in before || filter == filters[k];
  }

  /** The references a request's filters have made so far. */
  class ReferenceTally {
    var named: set<string>
    var count: nat

    constructor ()
      ensures named == {} && count == 0
    {
      named, count := {}, 0;
    }

    /** Adds one list's references; refused where the request then has too many. */
    method Add(names: seq<string>) returns (fits: bool)
      modifies this
      ensures count == old(count) + |names|
      ensures fits <==> count <= MAX_SET_REFERENCES
      ensures fits ==> named == old(named) + (set name | name in names)
    {
      count := count + |names|;
      if count > MAX_SET_REFERENCES {
        return false;
      }
      named := named + set name | name in names;
      return true;
    }
  }

  lemma NamedNone(values: seq<Json>)
    requires values == []
    ensures Named(values) == []
  {
  }

  lemma NamedStep(before: seq<Json>, last: Json, now: seq<Json>)
    requires now == before + [last]
    ensures Named(now) == if last.Object? && last.named.Some? && last.named.value !in Named(before)
                          then Named(before) + [last.named.value] else Named(before)
  {
    assert now[..|now| - 1] == before;
  }

  /** The sets a filter's list refers to; refused where an object names none. */
  method SetReferences(value: Json) returns (names: Result<seq<string>>)
    ensures names.Err? <==> !AllNamed(value)
    ensures names.Ok? ==> names.value == Named(ListOf(value)) && (names.value != [] <==> HasReference(value))
  {
    hide Named;
    var elements := ListOf(value);
    var all: seq<string> := [];
    NamedNone(elements[..0]);
    for k := 0 to |elements|
      invariant forall i :: 0 <= i < k && elements[i].Object? ==> elements[i].named.Some?
      invariant all == Named(elements[..k])
      invariant all != [] <==> exists i :: 0 <= i < k && elements[i].Object?
    {
      NamedStep(elements[..k], elements[k], elements[..k + 1]);
      if elements[k].Object? {
        if elements[k].named.None? {
          return Err;
        }
        if elements[k].named.value !in all {
          all := all + [elements[k].named.value];
        }
      }
    }
    assert elements[..|elements|] == elements;
    return Ok(all);
  }

  // ----- compiling a filter -----

  /** What a filter compiles to: nothing that can match, a predicate, one group per prefix length, or no constraint. */
  datatype Compiled = Sinks | Tests(predicate_: ColumnPredicate) | Groups(groups: seq<seq<ColumnPredicate>>) | Free

  predicate CompiledPasses(world: World, compiled: Compiled, row: Row) {
    match compiled
    case Sinks => false
    case Tests(predicate_) => ColumnPasses(world, predicate_, row)
    case Groups(groups) => SomeGroup(world, groups, row)
    case Free => true
  }

  method CompileColumn(world: World, table: Table, column: string, value: Json) returns (result: Result<Compiled>)
    ensures result.Err? <==> !ColumnOk(world, table, column, value)
    ensures result.Ok? ==> (result.value.Sinks? <==> KeepsNone(world, table, column, value))
    ensures result.Ok? ==> !result.value.Groups? && forall row :: WellTyped(table, row) ==>
              (ColumnAccepts(world, table, column, value, row) <==> CompiledPasses(world, result.value, row))
  {
    hide ListOk, NamedBySome, Holds, SomeFits;
    if column !in table.columns {
      return Err;
    }
    var kind := table.columns[column];
    if value.Flag? && kind == Boolean {
      return Ok(Tests(ColumnPredicate(column, IsFlag(value.flag))));
    }
    if !(value.Text? || value.Number? || value.List?) {
      return Err;
    }
    var listed := CompileInList(world, kind, ListOf(value));
    if listed.Err? {
      return Err;
    }
    result := Ok(if listed.value.Some? then Tests(ColumnPredicate(column, listed.value.value)) else Sinks);
    forall row | WellTyped(table, row)
      ensures ColumnAccepts(world, table, column, value, row) <==> CompiledPasses(world, result.value, row)
    {
      assert Holds(kind, CellOf(row, column));
    }
  }

  method CompileSetFilter(world: World, table: Table, key: string, value: Json) returns (result: Result<Compiled>)
    requires HasReference(value) && AllNamed(value)
    ensures result.Err? <==> !FilterOk(world, table, (key, value))
    ensures result.Ok? ==> result.value.Tests?
    ensures result.Ok? ==> forall row :: WellTyped(table, row) ==>
              (Accepts(world, table, (key, value), row) <==> CompiledPasses(world, result.value, row))
  {
    hide ListOk, NamedBySome, Holds, Listed, Named, SomeFits;
    if key in table.specials && !table.specials[key].ColumnAlias? {
      return Err;
    }
    var column := ColumnOf(table, key);
    if column !in table.columns {
      return Err;
    }
    var (values, names) := (Listed(ListOf(value)), Named(ListOf(value)));
    var listed: Option<Test> := None;
    if values != [] {
      var compiled := CompileInList(world, table.columns[column], values);
      if compiled.Err? {
        return Err;
      }
      listed := compiled.value;
    } else {
      NothingNamed(world, table.columns[column], values);
    }
    if !table.setsOk(key, names) {
      return Err;
    }
    var test := if listed.Some? then Either(listed.value, InSets(names)) else InSets(names);
    result := Ok(Tests(ColumnPredicate(column, test)));
    forall row | WellTyped(table, row)
      ensures Accepts(world, table, (key, value), row) <==> CompiledPasses(world, result.value, row)
    {
      var cell := CellOf(row, column);
      assert Holds(table.columns[column], cell);
      assert Passes(world, test, cell)
             <==> (listed.Some? && Passes(world, listed.value, cell)) || Passes(world, InSets(names), cell);
      assert NamedBySome(world, table.columns[column], values, cell)
             <==> listed.Some? && Passes(world, listed.value, cell);
    }
  }

  lemma NothingNamed(world: World, kind: Type, values: seq<Json>)
    requires values == []
    ensures forall cell :: !NamedBySome(world, kind, values, cell)
  {
  }

  method CompileSpecial(world: World, table: Table, key: string, value: Json) returns (result: Result<Compiled>)
    requires !HasReference(value) && key in table.specials && !(TakesList(table, key) && EmptyList(value))
    ensures result.Err? <==> !FilterOk(world, table, (key, value))
    ensures result.Ok? && result.value.Groups? ==> table.specials[key].Discriminator? && result.value.groups != []
    ensures result.Ok? ==> (result.value.Sinks? <==> LooksForNothing(world, table, (key, value)))
    ensures result.Ok? ==> forall row :: WellTyped(table, row) ==>
              (Accepts(world, table, (key, value), row) <==> CompiledPasses(world, result.value, row))
  {
    hide PrefixesOk, StartsWithSome, ColumnOk, ColumnAccepts, SomeGroup, WellTyped, KeepsNone;
    match table.specials[key]
    case Discriminator(byLength) =>
      if !value.List? {
        return Err;
      }
      var groups := CompileDiscriminator(world, value.items, byLength);
      if groups.Err? {
        return Err;
      }
      return Ok(if groups.value.Some? then Groups(groups.value.value) else Free);
    case Bloom(column) =>
      if !value.List? || exists i :: 0 <= i < |value.items| && !value.items[i].Text? {
        return Err;
      }
      var needles := seq(|value.items|, i requires 0 <= i < |value.items| && value.items[i].Text? =>
                           value.items[i].text);
      result := Ok(Tests(ColumnPredicate(column, Blooms(needles))));
      forall row ensures Accepts(world, table, (key, value), row) <==> CompiledPasses(world, result.value, row) {
        BloomAccepts(world, table, key, value, column, needles, row);
      }
    case RangeGte(column) =>
      if !RangeOk(table, column, value) {
        return Err;
      }
      return Ok(Tests(ColumnPredicate(column, AtLeast(value.number))));
    case RangeLte(column) =>
      if !RangeOk(table, column, value) {
        return Err;
      }
      return Ok(Tests(ColumnPredicate(column, AtMost(value.number))));
    case ColumnAlias(column) =>
      result := CompileColumn(world, table, column, value);
    case GteConst(column, text) =>
      if !value.Flag? || (value.flag && column !in table.columns) {
        return Err;
      }
      return Ok(if value.flag then Tests(ColumnPredicate(column, TextAtLeast(text))) else Free);
  }

  lemma BloomExact(world: World, values: seq<Json>, needles: seq<string>, cell: Cell)
    requires |needles| == |values| && forall i :: 0 <= i < |values| ==> values[i].Text? && needles[i] == values[i].text
    ensures Passes(world, Blooms(needles), cell)
            <==> exists i :: 0 <= i < |values| && values[i].Text? && world.bloom(cell, values[i].text)
  {
    if Passes(world, Blooms(needles), cell) {
      var i :| 0 <= i < |needles| && world.bloom(cell, needles[i]);
      assert values[i].Text? && world.bloom(cell, values[i].text);
    }
  }

  lemma BloomAccepts(world: World, table: Table, key: string, value: Json, column: string,
                     needles: seq<string>, row: Row)
    requires value.List? && value.items != [] && key in table.specials && table.specials[key] == Bloom(column)
    requires |needles| == |value.items|
             && forall i :: 0 <= i < |needles| ==> value.items[i].Text? && needles[i] == value.items[i].text
    ensures Accepts(world, table, (key, value), row) <==> Passes(world, Blooms(needles), CellOf(row, column))
  {
    assert ListOf(value) == value.items && !HasReference(value);
    BloomExact(world, value.items, needles, CellOf(row, column));
  }

  /** One filter compiled: it is refused exactly where its value is none its kind takes, or where it brings the
      request to too many references, and what it compiles to passes exactly the rows it accepts. */
  method CompileFilter(world: World, table: Table, filter: Filter, tally: ReferenceTally)
    returns (result: Result<Compiled>)
    requires tally.count <= MAX_SET_REFERENCES
    modifies tally
    ensures result.Err?
            <==> !FilterOk(world, table, filter) || old(tally.count) + |References(filter)| > MAX_SET_REFERENCES
    ensures result.Ok? ==> tally.count == old(tally.count) + |References(filter)|
    ensures result.Ok? ==> tally.named == old(tally.named) + (set name | name in References(filter))
    ensures result.Ok? && result.value.Groups? ==>
              filter.0 in table.specials && table.specials[filter.0].Discriminator? && result.value.groups != []
    ensures result.Ok? ==> (result.value.Sinks? <==> LooksForNothing(world, table, filter))
    ensures result.Ok? ==> forall row :: WellTyped(table, row) ==>
              (Accepts(world, table, filter, row) <==> CompiledPasses(world, result.value, row))
  {
    hide ColumnOk, ColumnAccepts, SomeGroup, WellTyped, PrefixesOk, StartsWithSome, ListOk, NamedBySome, KeepsNone;
    var (key, value) := filter;
    var names := SetReferences(value);
    if names.Err? {
      return Err;
    }
    if names.value != [] {
      var fits := tally.Add(names.value);
      if !fits {
        return Err;
      }
      result := CompileSetFilter(world, table, key, value);
      return;
    }
    if TakesList(table, key) && EmptyList(value) {
      return Ok(Sinks);
    }
    if key in table.specials {
      result := CompileSpecial(world, table, key, value);
    } else {
      result := CompileColumn(world, table, key, value);
    }
  }

  // ----- an item -----

  /** Every column predicate holds and, where there are alternatives, one of them in full. */
  datatype RowPredicate = RowPredicate(columns: seq<ColumnPredicate>, alternatives: seq<seq<ColumnPredicate>>)

  predicate RowPasses(world: World, predicate_: RowPredicate, row: Row) {
    AllPass(world, predicate_.columns, row)
    && (predicate_.alternatives != [] ==> SomeGroup(world, predicate_.alternatives, row))
  }

  predicate AllAccept(world: World, table: Table, filters: seq<Filter>, row: Row) {
    forall i :: 0 <= i < |filters| ==> Accepts(world, table, filters[i], row)
  }

  /** The filters that name one discriminator: the special filter, and the columns it dispatches to. */
  predicate InFamily(table: Table, key: string) {
    || (key in table.specials && table.specials[key].Discriminator?)
    || exists name :: name in table.specials && table.specials[name].Discriminator?
         && key in table.specials[name].byLength.Values
  }

  const MAX_BLOOM_VALUES := 10

  /** At most one filter of a discriminator's family, and no bloom filter of too many values. */
  predicate LimitsOk(table: Table, filters: seq<Filter>) {
    && (forall i, j :: 0 <= i < j < |filters| ==> !(InFamily(table, filters[i].0) && InFamily(table, filters[j].0)))
    && forall i :: 0 <= i < |filters| && filters[i].0 in table.specials && table.specials[filters[i].0].Bloom? ==>
         (if filters[i].1.List? then |filters[i].1.items| else 0) <= MAX_BLOOM_VALUES
  }

  datatype CompiledItem = Unsatisfiable | Predicate(predicate_: RowPredicate)

  /** What an item's filters compile to so far. */
  predicate SoFar(world: World, columns: seq<ColumnPredicate>, groups: Option<seq<seq<ColumnPredicate>>>, sinks: bool,
                  row: Row) {
    !sinks && AllPass(world, columns, row) && (groups.Some? ==> SomeGroup(world, groups.value, row))
  }

  /** Some filter looks for nothing, so that no row matches the item. */
  predicate MatchesNone(world: World, table: Table, filters: seq<Filter>) {
    exists i :: 0 <= i < |filters| && LooksForNothing(world, table, filters[i])
  }

  predicate FiltersOk(world: World, table: Table, filters: seq<Filter>) {
    LimitsOk(table, filters) && forall i :: 0 <= i < |filters| ==> FilterOk(world, table, filters[i])
  }

  /** An item is refused exactly where it breaks a limit, a filter is refused, or its filters bring the request to too
      many references. Otherwise it is dropped exactly where a filter looks for nothing, and its predicate passes
      exactly the rows all of its filters accept. */
  method CompileItem(world: World, table: Table, filters: seq<Filter>, tally: ReferenceTally)
    returns (result: Result<CompiledItem>)
    requires tally.count <= MAX_SET_REFERENCES
    modifies tally
    ensures result.Err?
            <==> !FiltersOk(world, table, filters) || old(tally.count) + ReferenceCount(filters) > MAX_SET_REFERENCES
    ensures result.Ok? ==> tally.count == old(tally.count) + ReferenceCount(filters)
    ensures result.Ok? ==> tally.named == old(tally.named) + Referred(filters)
    ensures result.Ok? ==> (result.value.Unsatisfiable? <==> MatchesNone(world, table, filters))
    ensures result.Ok? ==> forall row :: WellTyped(table, row) ==>
              (AllAccept(world, table, filters, row)
               <==> result.value.Predicate? && RowPasses(world, result.value.predicate_, row))
  {
    hide WellTyped, Accepts, FilterOk, AllPass, SomeGroup, InFamily, RowPasses, LooksForNothing,
         References, ReferenceCount, Referred;
    if !LimitsOk(table, filters) {
      return Err;
    }
    var columns: seq<ColumnPredicate> := [];
    var groups: Option<seq<seq<ColumnPredicate>>> := None;
    var sinks := false;
    NothingReferred(filters[..0]);
    forall row ensures SoFar(world, columns, groups, sinks, row) {
      NothingFails(world, row);
    }
    for k := 0 to |filters|
      invariant forall i :: 0 <= i < k ==> FilterOk(world, table, filters[i])
      invariant tally.count == old(tally.count) + ReferenceCount(filters[..k]) <= MAX_SET_REFERENCES
      invariant tally.named == old(tally.named) + Referred(filters[..k])
      invariant sinks <==> exists i :: 0 <= i < k && LooksForNothing(world, table, filters[i])
      invariant groups.Some? ==> groups.value != [] && exists i :: 0 <= i < k && InFamily(table, filters[i].0)
      invariant forall row :: WellTyped(table, row) ==>
                  (SoFar(world, columns, groups, sinks, row)
                   <==> forall i :: 0 <= i < k ==> Accepts(world, table, filters[i], row))
    {
      CountGrows(filters, k + 1);
      ReferredStep(filters, k);
      var compiled := CompileFilter(world, table, filters[k], tally);
      if compiled.Err? {
        return Err;
      }
      ghost var (before, wasGroups, sank) := (columns, groups, sinks);
      match compiled.value {
        case Sinks => sinks := true;
        case Tests(predicate_) => columns := columns + [predicate_];
        case Groups(own) =>
          assert InFamily(table, filters[k].0) by {
            FamilyHas(table, filters[k].0);
          }
          groups := Some(own);
        case Free =>
      }
      forall row | WellTyped(table, row)
        ensures SoFar(world, columns, groups, sinks, row)
                <==> SoFar(world, before, wasGroups, sank, row) && CompiledPasses(world, compiled.value, row)
      {
        if compiled.value.Tests? {
          AllPassStep(world, before, compiled.value.predicate_, columns, row);
        }
      }
    }
    assert filters[..|filters|] == filters;
    if sinks {
      return Ok(Unsatisfiable);
    }
    var whole := Whole(columns, groups);
    forall row ensures SoFar(world, columns, groups, sinks, row) <==> RowPasses(world, whole, row) {
      WholePasses(world, columns, groups, row);
    }
    return Ok(Predicate(whole));
  }

  /** One length's group joins the item's own predicates; several stay alternatives, so that the own run once. */
  function Whole(columns: seq<ColumnPredicate>, groups: Option<seq<seq<ColumnPredicate>>>): RowPredicate
    requires groups.Some? ==> groups.value != []
  {
    if groups.None? then RowPredicate(columns, [])
    else if |groups.value| > 1 then RowPredicate(columns, groups.value)
    else RowPredicate(columns + groups.value[0], [])
  }

  lemma WholePasses(world: World, columns: seq<ColumnPredicate>, groups: Option<seq<seq<ColumnPredicate>>>, row: Row)
    requires groups.Some? ==> groups.value != []
    ensures RowPasses(world, Whole(columns, groups), row) <==> SoFar(world, columns, groups, false, row)
  {
    hide ColumnPasses;
    if groups.Some? && |groups.value| == 1 {
      AllPassAdds(world, columns, groups.value[0], row);
    }
  }

  lemma AllPassAdds(world: World, a: seq<ColumnPredicate>, b: seq<ColumnPredicate>, row: Row)
    ensures AllPass(world, a + b, row) <==> AllPass(world, a, row) && AllPass(world, b, row)
  {
    hide ColumnPasses;
    var both := a + b;
    if AllPass(world, both, row) {
      assert forall i :: 0 <= i < |a| ==> both[i] == a[i];
      assert forall i :: 0 <= i < |b| ==> both[|a| + i] == b[i];
    }
  }

  lemma AllPassStep(world: World, before: seq<ColumnPredicate>, predicate_: ColumnPredicate,
                    now: seq<ColumnPredicate>, row: Row)
    requires now == before + [predicate_]
    ensures AllPass(world, now, row) <==> AllPass(world, before, row) && ColumnPasses(world, predicate_, row)
  {
    hide ColumnPasses;
    AllPassAdds(world, before, [predicate_], row);
    assert AllPass(world, [predicate_], row) <==> ColumnPasses(world, [predicate_][0], row);
  }

  lemma NothingFails(world: World, row: Row)
    ensures SoFar(world, [], None, false, row)
  {
  }

  lemma FamilyHas(table: Table, key: string)
    requires key in table.specials && table.specials[key].Discriminator?
    ensures InFamily(table, key)
  {
  }
}
