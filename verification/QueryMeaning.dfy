/**
 What a filter asks and which filters are none, read off the request, the catalog and the row
 alone: a list asks for any of its elements, a value by itself for that one, hex for the bytes
 it spells.
 */
module QueryMeaning {
  import opened Wrappers
  import Order
  import opened QueryFilters
  import opened QueryItems
  import opened QueryPlan

  /** An element of a filter's list; a value that is no list is its own one element. */
  ghost predicate Element(value: Json, element: Json) {
    match value
    case List(items) => element in items
    case _ => element == value
  }

  /** What a row holds in a column. */
  ghost function Held(row: Row, column: string): Cell {
    if column in row then row[column] else NullCell
  }

  /** An element asks for what a cell of this type holds. */
  ghost predicate AsksFor(world: World, kind: Type, element: Json, cell: Cell) {
    match kind
    case Texts(fold) => element.Text? && cell == TextCell(fold(element.text))
    case TextList(fold) => element.Text? && cell.TextsCell? && fold(element.text) in cell.texts
    case Unsigned(width) =>
      || (element.Number? && cell == IntCell(element.number))
      || (element.Text? && exists bytes: Bytes ::
            |bytes| == width && world.hex(element.text) == Some(bytes) && Spells(cell, bytes))
    case Signed(_, _) => element.Number? && cell == IntCell(element.number)
    case Binary(_) => element.Text? && cell.BytesCell? && world.hex(element.text) == Some(cell.bytes)
    case UInt32List => element.Number? && cell.IntsCell? && element.number in cell.numbers
    case _ => false
  }

  /** The row starts with these bytes: in the column for so many, an integer where an integer has so many. */
  ghost predicate Prefixed(byLength: map<nat, string>, bytes: Bytes, row: Row) {
    || bytes == []
    || (|bytes| in byLength
        && var cell := Held(row, byLength[|bytes|]);
           if |bytes| in {1, 2, 4, 8} then Spells(cell, bytes) else cell == BytesCell(bytes))
  }

  /** The column a filter of this name is on, where it is on one. */
  ghost function Target(table: Table, key: string): string {
    if key in table.specials then
      match table.specials[key]
      case ColumnAlias(column) => column
      case _ => key
    else key
  }

  ghost predicate RefersToSet(value: Json) {
    exists element :: Element(value, element) && element.Object?
  }

  /** An element asks for the cell, or for a set it is in. */
  ghost predicate ElementAsks(world: World, kind: Type, element: Json, cell: Cell) {
    match element
    case Object(Some(name)) => world.inSet(name, cell)
    case Object(None) => false
    case _ => AsksFor(world, kind, element, cell)
  }

  /** Some element asks for the cell, or for a set it is in. */
  ghost predicate AnyAsks(world: World, kind: Type, value: Json, cell: Cell) {
    exists element :: Element(value, element) && ElementAsks(world, kind, element, cell)
  }

  ghost predicate AnyPrefix(world: World, value: Json, byLength: map<nat, string>, row: Row) {
    exists element, bytes: Bytes ::
      Element(value, element) && element.Text? && world.hex(element.text) == Some(bytes)
      && Prefixed(byLength, bytes, row)
  }

  ghost predicate AnyBloom(world: World, value: Json, cell: Cell) {
    exists element :: Element(value, element) && element.Text? && world.bloom(cell, element.text)
  }

  /** What a filter asks of a row. */
  ghost predicate Wants(world: World, table: Table, key: string, value: Json, row: Row) {
    var column := Target(table, key);
    if RefersToSet(value) || key !in table.specials || table.specials[key].ColumnAlias? then
      column in table.columns
      && if value.Flag? && table.columns[column] == Boolean then Held(row, column) == FlagCell(value.flag)
         else AnyAsks(world, table.columns[column], value, Held(row, column))
    else
      match table.specials[key]
      case Discriminator(byLength) => AnyPrefix(world, value, byLength, row)
      case Bloom(on) => AnyBloom(world, value, Held(row, on))
      case RangeGte(on) => value.Number? && Held(row, on).IntCell? && Held(row, on).number >= value.number
      case RangeLte(on) => value.Number? && Held(row, on).IntCell? && Held(row, on).number <= value.number
      case GteConst(on, text) =>
        value.Flag? && (value.flag ==> Held(row, on).TextCell? && world.textAtLeast(Held(row, on).text, text))
      case _ => false
  }

  // ----- accepting is asking -----

  lemma ElementsListed(value: Json, element: Json)
    ensures Element(value, element) <==> element in ListOf(value)
  {
  }

  lemma ReferenceIs(value: Json)
    ensures HasReference(value) <==> RefersToSet(value)
  {
    if HasReference(value) {
      var i :| 0 <= i < |ListOf(value)| && ListOf(value)[i].Object?;
      assert Element(value, ListOf(value)[i]);
    }
    if element :| Element(value, element) && element.Object? {
      ElementsListed(value, element);
    }
  }

  /** What an element names is what it asks for. */
  lemma NamesAsks(world: World, kind: Type, element: Json, cell: Cell)
    ensures Names(world, kind, element, cell) <==> AsksFor(world, kind, element, cell)
  {
    hide Spells;
  }

  /** A listed value that names the cell is an element that asks for it. */
  lemma ListedAsks(world: World, kind: Type, value: Json, element: Json, cell: Cell)
    requires element in ListOf(value) && !element.Object? && Names(world, kind, element, cell)
    ensures AnyAsks(world, kind, value, cell)
  {
    hide Names, AsksFor, ListOf, Element;
    ElementsListed(value, element);
    NamesAsks(world, kind, element, cell);
    assert ElementAsks(world, kind, element, cell);
  }

  lemma AsksListed(world: World, kind: Type, value: Json, cell: Cell) returns (element: Json)
    requires AnyAsks(world, kind, value, cell)
    ensures element in ListOf(value)
    ensures if element.Object? then element.named.Some? && world.inSet(element.named.value, cell)
            else Names(world, kind, element, cell)
  {
    hide Names, AsksFor, ListOf, Element;
    element :| Element(value, element) && ElementAsks(world, kind, element, cell);
    ElementsListed(value, element);
    NamesAsks(world, kind, element, cell);
  }

  lemma SomeNames(world: World, kind: Type, values: seq<Json>, element: Json, cell: Cell)
    requires element in values && Names(world, kind, element, cell)
    ensures NamedBySome(world, kind, values, cell)
  {
    hide Names;
    var i :| 0 <= i < |values| && values[i] == element;
  }

  lemma NamedAsks(world: World, kind: Type, value: Json, cell: Cell)
    requires !RefersToSet(value)
    ensures NamedBySome(world, kind, ListOf(value), cell) <==> AnyAsks(world, kind, value, cell)
  {
    hide Names, AsksFor, ListOf, AnyAsks, Element, RefersToSet;
    NoObjects(value);
    if NamedBySome(world, kind, ListOf(value), cell) {
      var i :| 0 <= i < |ListOf(value)| && Names(world, kind, ListOf(value)[i], cell);
      ListedAsks(world, kind, value, ListOf(value)[i], cell);
    }
    if AnyAsks(world, kind, value, cell) {
      var element := AsksListed(world, kind, value, cell);
      hide NamedBySome;
      SomeNames(world, kind, ListOf(value), element, cell);
    }
  }

  lemma NoObjects(value: Json)
    requires !RefersToSet(value)
    ensures forall element :: element in ListOf(value) ==> !element.Object?
  {
    forall element | element in ListOf(value) ensures !element.Object? {
      ElementsListed(value, element);
    }
  }

  /** Values and sets in one list. */
  lemma SetsAsk(world: World, kind: Type, value: Json, cell: Cell)
    ensures AnyAsks(world, kind, value, cell)
            <==> NamedBySome(world, kind, Listed(ListOf(value)), cell)
                 || InSomeSet(world, Named(ListOf(value)), cell)
  {
    hide Names, AsksFor, Listed, Named, AnyAsks, ListOf, Element, NamedBySome, InSomeSet;
    if AnyAsks(world, kind, value, cell) {
      var element := AsksListed(world, kind, value, cell);
      if element.Object? {
        assert element == Object(Some(element.named.value));
        NameInSet(world, Named(ListOf(value)), element.named.value, cell);
      } else {
        SomeNames(world, kind, Listed(ListOf(value)), element, cell);
      }
    }
    if NamedBySome(world, kind, Listed(ListOf(value)), cell) {
      ValuesAsk(world, kind, value, cell);
    }
    if InSomeSet(world, Named(ListOf(value)), cell) {
      NamesAsk(world, kind, value, cell);
    }
  }

  lemma NameInSet(world: World, names: seq<string>, name: string, cell: Cell)
    requires name in names && world.inSet(name, cell)
    ensures InSomeSet(world, names, cell)
  {
    var i :| 0 <= i < |names| && names[i] == name;
  }

  lemma ValuesAsk(world: World, kind: Type, value: Json, cell: Cell)
    requires NamedBySome(world, kind, Listed(ListOf(value)), cell)
    ensures AnyAsks(world, kind, value, cell)
  {
    hide Names, Listed, AnyAsks, ListOf;
    var values := Listed(ListOf(value));
    var i :| 0 <= i < |values| && Names(world, kind, values[i], cell);
    assert values[i] in values;
    ListedAsks(world, kind, value, values[i], cell);
  }

  lemma NamesAsk(world: World, kind: Type, value: Json, cell: Cell)
    requires InSomeSet(world, Named(ListOf(value)), cell)
    ensures AnyAsks(world, kind, value, cell)
  {
    hide Named, ListOf, Element;
    var names := Named(ListOf(value));
    var i :| 0 <= i < |names| && world.inSet(names[i], cell);
    assert names[i] in names;
    var element := Object(Some(names[i]));
    ElementsListed(value, element);
    assert ElementAsks(world, kind, element, cell);
  }

  lemma StartsPrefixed(world: World, element: Json, byLength: map<nat, string>, row: Row)
    ensures StartsWith(world, element, byLength, row)
            <==> element.Text? && world.hex(element.text).Some?
                 && Prefixed(byLength, world.hex(element.text).value, row)
  {
    hide Spells;
  }

  lemma SomePrefix(world: World, value: Json, byLength: map<nat, string>, row: Row)
    ensures StartsWithSome(world, ListOf(value), byLength, row) <==> AnyPrefix(world, value, byLength, row)
  {
    hide StartsWith, Prefixed;
    forall element
      ensures StartsWith(world, element, byLength, row)
              <==> element.Text? && world.hex(element.text).Some?
                   && Prefixed(byLength, world.hex(element.text).value, row)
    {
      StartsPrefixed(world, element, byLength, row);
    }
    if StartsWithSome(world, ListOf(value), byLength, row) {
      var i :| 0 <= i < |ListOf(value)| && StartsWith(world, ListOf(value)[i], byLength, row);
      var element := ListOf(value)[i];
      assert Element(value, element) && world.hex(element.text) == Some(world.hex(element.text).value);
    }
    if AnyPrefix(world, value, byLength, row) {
      var element, bytes: Bytes :|
        Element(value, element) && element.Text? && world.hex(element.text) == Some(bytes)
        && Prefixed(byLength, bytes, row);
      ElementsListed(value, element);
      var i :| 0 <= i < |ListOf(value)| && ListOf(value)[i] == element;
    }
  }

  lemma SomeBloom(world: World, value: Json, cell: Cell)
    ensures AnyBloom(world, value, cell)
            <==> exists i :: 0 <= i < |ListOf(value)| && ListOf(value)[i].Text?
                             && world.bloom(cell, ListOf(value)[i].text)
  {
    if AnyBloom(world, value, cell) {
      var element :| Element(value, element) && element.Text? && world.bloom(cell, element.text);
      ElementsListed(value, element);
      var i :| 0 <= i < |ListOf(value)| && ListOf(value)[i] == element;
    }
    if i :| 0 <= i < |ListOf(value)| && ListOf(value)[i].Text? && world.bloom(cell, ListOf(value)[i].text) {
      assert Element(value, ListOf(value)[i]);
    }
  }

  /** An empty list asks for nothing. */
  lemma EmptyAsks(world: World, table: Table, key: string, value: Json, row: Row)
    requires EmptyList(value) && TakesList(table, key)
    ensures !Wants(world, table, key, value, row)
  {
    assert forall element :: !Element(value, element);
  }

  lemma AcceptsSets(world: World, table: Table, key: string, value: Json, row: Row)
    requires HasReference(value) && ColumnOf(table, key) in table.columns
    ensures var (kind, cell) := (table.columns[ColumnOf(table, key)], CellOf(row, ColumnOf(table, key)));
            Accepts(world, table, (key, value), row)
            <==> NamedBySome(world, kind, Listed(ListOf(value)), cell) || InSomeSet(world, Named(ListOf(value)), cell)
  {
    hide NamedBySome, Listed, Named, HasReference, InSomeSet;
  }

  /** A filter accepts the rows it asks for. */
  lemma AcceptsAsked(world: World, table: Table, key: string, value: Json, row: Row)
    ensures Accepts(world, table, (key, value), row) <==> Wants(world, table, key, value, row)
  {
    hide NamedBySome, AnyAsks, InSomeSet, StartsWithSome, AnyPrefix, AnyBloom, Listed, Named, HasReference, RefersToSet;
    ReferenceIs(value);
    var column := Target(table, key);
    assert ColumnOf(table, key) == column && CellOf(row, column) == Held(row, column);
    if HasReference(value) {
      FlagIsNoList(value);
      if column in table.columns {
        SetsAsk(world, table.columns[column], value, Held(row, column));
        AcceptsSets(world, table, key, value, row);
      }
    } else if TakesList(table, key) && EmptyList(value) {
      EmptyAsks(world, table, key, value, row);
    } else if key in table.specials && table.specials[key].Discriminator? {
      SomePrefix(world, value, table.specials[key].byLength, row);
    } else if key in table.specials && table.specials[key].Bloom? {
      SomeBloom(world, value, Held(row, table.specials[key].column));
    } else if column in table.columns {
      NamedAsks(world, table.columns[column], value, Held(row, column));
    }
  }

  lemma FlagIsNoList(value: Json)
    requires HasReference(value)
    ensures !value.Flag? && !EmptyList(value)
  {
  }

  // ----- values a column can hold -----

  /** A list element's kind is one that filters on the type take. */
  ghost predicate KindTaken(kind: Type, element: Json) {
    match kind
    case Texts(_) => element.Text?
    case Unsigned(_) => element.Text? || element.Number?
    case Signed(_, _) => element.Number?
    case Binary(_) => element.Text?
    case UInt32List => element.Number? && element.number >= 0
    case TextList(_) => element.Text?
    case Boolean => false
    case Unfilterable => false
  }

  /** An element fits a type exactly where the type holds some value that it asks for. */
  lemma FitsHeld(world: World, kind: Type, element: Json)
    requires KindTaken(kind, element)
    ensures ElementOk(world, kind, element)
    ensures Fits(world, kind, element) <==> exists cell :: Holds(kind, cell) && AsksFor(world, kind, element, cell)
  {
    hide BigEndianValue, Order.BigEndian, Order.Bound, Spells;
    if Fits(world, kind, element) {
      var cell := match kind
        case Texts(fold) => TextCell(fold(element.text))
        case TextList(fold) => TextsCell([fold(element.text)])
        case Unsigned(width) =>
          IntCell(if element.Text? then BigEndianValue(world.hex(element.text).value) else element.number)
        case Binary(_) => BytesCell(world.hex(element.text).value)
        case UInt32List => IntsCell([element.number])
        case Signed(_, _) => IntCell(element.number)
        case _ => NullCell;
      if kind.Unsigned? && element.Text? {
        SpellsValue(cell, world.hex(element.text).value);
        BigEndianReads(world.hex(element.text).value, 0);
      }
      NamesAsks(world, kind, element, cell);
      assert Holds(kind, cell) && AsksFor(world, kind, element, cell);
    }
    if cell :| Holds(kind, cell) && AsksFor(world, kind, element, cell) {
      if kind.UInt32List? {
        var i :| 0 <= i < |cell.numbers| && cell.numbers[i] == element.number;
      }
    }
  }

  // ----- filters with nothing to look for -----

  /** A column's filter that no value the column can hold would pass. */
  ghost predicate NoneHeld(world: World, table: Table, column: string, value: Json) {
    && column in table.columns
    && !(value.Flag? && table.columns[column] == Boolean)
    && forall element, cell ::
         Element(value, element) && Holds(table.columns[column], cell) ==>
           !AsksFor(world, table.columns[column], element, cell)
  }

  /** A filter refused by none finds nothing exactly where its list is empty, or asks its column for nothing that the
      column can hold. */
  lemma NothingHeld(world: World, table: Table, key: string, value: Json)
    requires FilterOk(world, table, (key, value))
    ensures LooksForNothing(world, table, (key, value))
            <==> !RefersToSet(value)
                 && (if value == List([])
                     then !(key in table.specials && (table.specials[key].RangeGte? || table.specials[key].RangeLte?
                                                      || table.specials[key].GteConst?))
                     else (key !in table.specials || table.specials[key].ColumnAlias?)
                          && NoneHeld(world, table, Target(table, key), value))
  {
    hide HasReference, RefersToSet, KeepsNone, NoneHeld, PrefixesOk;
    ReferenceIs(value);
    if !HasReference(value) && value != List([]) && (key !in table.specials || table.specials[key].ColumnAlias?) {
      KeepsNoneHeld(world, table, Target(table, key), value);
    }
  }

  lemma KeepsNoneHeld(world: World, table: Table, column: string, value: Json)
    requires ColumnOk(world, table, column, value)
    ensures KeepsNone(world, table, column, value) <==> NoneHeld(world, table, column, value)
  {
    hide Fits, AsksFor, ElementOk, Holds;
    var kind := table.columns[column];
    if !(value.Flag? && kind == Boolean) {
      forall element | element in ListOf(value)
        ensures Fits(world, kind, element) <==> exists cell :: Holds(kind, cell) && AsksFor(world, kind, element, cell)
      {
        TakenOk(world, kind, element);
        FitsHeld(world, kind, element);
      }
      if KeepsNone(world, table, column, value) {
        forall element, cell | Element(value, element) && Holds(kind, cell)
          ensures !AsksFor(world, kind, element, cell)
        {
          ElementsListed(value, element);
          var i :| 0 <= i < |ListOf(value)| && ListOf(value)[i] == element;
          assert !Fits(world, kind, element);
        }
      }
      if SomeFits(world, kind, ListOf(value)) {
        var i :| 0 <= i < |ListOf(value)| && Fits(world, kind, ListOf(value)[i]);
        assert ListOf(value)[i] in ListOf(value);
        ElementsListed(value, ListOf(value)[i]);
      }
    }
  }

  lemma TakenOk(world: World, kind: Type, element: Json)
    ensures ElementOk(world, kind, element) <==> KindTaken(kind, element)
  {
  }

  // ----- refusals -----

  /** A value a column's filter may have: a flag on a boolean column, or values its type takes. */
  ghost predicate ColumnTakes(table: Table, column: string, value: Json) {
    && column in table.columns
    && ((value.Flag? && table.columns[column] == Boolean)
        || ((value.Text? || value.Number? || value.List?)
            && table.columns[column] != Boolean && table.columns[column] != Unfilterable
            && forall element :: Element(value, element) ==> KindTaken(table.columns[column], element)))
  }

  /** A bound a range filter may have: a number of an unsigned column of 64 bits. */
  ghost predicate BoundTaken(table: Table, column: string, value: Json) {
    column in table.columns && table.columns[column] == Unsigned(8) && value.Number? && value.number >= 0
  }

  /** A prefix a discriminator may have: hex of at most 16 bytes, of a length there is a column for, or none. */
  ghost predicate PrefixTaken(world: World, byLength: map<nat, string>, element: Json) {
    element.Text? && exists bytes: Bytes :: world.hex(element.text) == Some(bytes)
                                            && |bytes| <= 16 && (bytes == [] || |bytes| in byLength)
  }

  /** A filter that is not refused. */
  ghost predicate Taken(world: World, table: Table, key: string, value: Json) {
    if RefersToSet(value) then
      && (forall element :: Element(value, element) && element.Object? ==> element.named.Some?)
      && (key in table.specials ==> table.specials[key].ColumnAlias?)
      && Target(table, key) in table.columns
      && table.setsOk(key, References((key, value)))
      && ((exists element :: Element(value, element) && !element.Object?) ==>
            var kind := table.columns[Target(table, key)];
            kind != Boolean && kind != Unfilterable
            && forall element :: Element(value, element) && !element.Object? ==> KindTaken(kind, element))
    else if key !in table.specials then value == List([]) || ColumnTakes(table, key, value)
    else
      match table.specials[key]
      case Discriminator(byLength) =>
        value.List? && forall element :: Element(value, element) ==> PrefixTaken(world, byLength, element)
      case Bloom(_) => value.List? && forall element :: Element(value, element) ==> element.Text?
      case RangeGte(column) => BoundTaken(table, column, value)
      case RangeLte(column) => BoundTaken(table, column, value)
      case ColumnAlias(column) => value == List([]) || ColumnTakes(table, column, value)
      case GteConst(column, _) => value.Flag? && (value.flag ==> column in table.columns)
  }

  lemma ColumnIs(world: World, table: Table, column: string, value: Json)
    ensures ColumnOk(world, table, column, value) <==> ColumnTakes(table, column, value)
  {
    hide ElementOk, KindTaken;
    if column in table.columns {
      forall element ensures ElementOk(world, table.columns[column], element)
                             <==> KindTaken(table.columns[column], element) {
        TakenOk(world, table.columns[column], element);
      }
      ElementsAre(value);
    }
  }

  /** The elements are those listed, place by place. */
  lemma ElementsAre(value: Json)
    ensures forall i :: 0 <= i < |ListOf(value)| ==> Element(value, ListOf(value)[i])
    ensures forall element :: Element(value, element) ==>
              exists i :: 0 <= i < |ListOf(value)| && ListOf(value)[i] == element
  {
    forall element | Element(value, element)
      ensures exists i :: 0 <= i < |ListOf(value)| && ListOf(value)[i] == element
    {
      ElementsListed(value, element);
      var i :| 0 <= i < |ListOf(value)| && ListOf(value)[i] == element;
    }
  }

  lemma PrefixesTaken(world: World, values: seq<Json>, byLength: map<nat, string>)
    ensures PrefixesOk(world, values, byLength)
            <==> forall i :: 0 <= i < |values| ==> PrefixTaken(world, byLength, values[i])
  {
    forall i | 0 <= i < |values|
      ensures PrefixTaken(world, byLength, values[i])
              <==> PrefixOk(world, values[i])
                   && (PrefixOf(world, values[i]) == [] || |PrefixOf(world, values[i])| in byLength)
    {
      if PrefixOk(world, values[i]) {
        assert world.hex(values[i].text) == Some(PrefixOf(world, values[i]));
      }
    }
  }

  lemma SetsTaken(world: World, table: Table, key: string, value: Json)
    requires HasReference(value)
    ensures FilterOk(world, table, (key, value)) <==> Taken(world, table, key, value)
  {
    hide ElementOk, KindTaken, Named;
    ReferenceIs(value);
    ElementsAre(value);
    var values := Listed(ListOf(value));
    assert AllNamed(value) <==> forall element :: Element(value, element) && element.Object? ==> element.named.Some?;
    forall element ensures element in values <==> Element(value, element) && !element.Object? {
      ElementsListed(value, element);
    }
    var column := Target(table, key);
    assert column == ColumnOf(table, key) && References((key, value)) == Named(ListOf(value));
    if column in table.columns {
      var kind := table.columns[column];
      ListTaken(world, kind, values);
      assert values != [] ==> Element(value, values[0]) && !values[0].Object?;
      assert (forall element :: element in values ==> KindTaken(kind, element))
             <==> forall element :: Element(value, element) && !element.Object? ==> KindTaken(kind, element);
    }
  }

  lemma ListTaken(world: World, kind: Type, values: seq<Json>)
    ensures ListOk(world, kind, values)
            <==> kind != Boolean && kind != Unfilterable && forall element :: element in values ==>
                                                              KindTaken(kind, element)
  {
    hide ElementOk, KindTaken;
    forall element ensures ElementOk(world, kind, element) <==> KindTaken(kind, element) {
      TakenOk(world, kind, element);
    }
    assert forall i :: 0 <= i < |values| ==> values[i] in values;
  }

  /** A filter is refused exactly where it is none its kind takes. */
  lemma RefusedExactly(world: World, table: Table, key: string, value: Json)
    ensures FilterOk(world, table, (key, value)) <==> Taken(world, table, key, value)
  {
    hide ColumnOk, ColumnTakes, PrefixesOk, PrefixTaken, HasReference, RefersToSet;
    ReferenceIs(value);
    if HasReference(value) {
      SetsTaken(world, table, key, value);
    } else {
      ElementsAre(value);
      var column := Target(table, key);
      ColumnIs(world, table, column, value);
      if key in table.specials && table.specials[key].Discriminator? {
        PrefixesTaken(world, ListOf(value), table.specials[key].byLength);
      }
    }
  }

  // ----- an item's limits -----

  /** A filter that narrows a discriminator's columns: the discriminator, or one of the columns. */
  ghost predicate Narrows(table: Table, key: string) {
    exists name :: name in table.specials && table.specials[name].Discriminator?
                   && (key == name || exists length :: length in table.specials[name].byLength
                                                       && table.specials[name].byLength[length] == key)
  }

  lemma FamilyNarrows(table: Table, key: string)
    ensures InFamily(table, key) <==> Narrows(table, key)
  {
  }

  /** An item is within the limits exactly where at most one of its filters narrows a discriminator's columns, and no
      bloom filter lists more than ten values. */
  lemma LimitsExactly(table: Table, filters: seq<Filter>)
    ensures LimitsOk(table, filters)
            <==> (forall i, j :: 0 <= i < |filters| && 0 <= j < |filters| ==>
                    (Narrows(table, filters[i].0) && Narrows(table, filters[j].0) ==> i == j))
                 && (forall i :: 0 <= i < |filters| ==>
                       (filters[i].0 in table.specials && table.specials[filters[i].0].Bloom? && filters[i].1.List? ==>
                          |filters[i].1.items| <= 10))
  {
    hide InFamily, Narrows;
    forall i | 0 <= i < |filters| ensures InFamily(table, filters[i].0) <==> Narrows(table, filters[i].0) {
      FamilyNarrows(table, filters[i].0);
    }
  }

  // ----- a table's items -----

  /** A row that every filter of an item asks for. */
  ghost predicate AllWant(world: World, table: Table, filters: seq<Filter>, row: Row) {
    forall i :: 0 <= i < |filters| ==> Wants(world, table, filters[i].0, filters[i].1, row)
  }

  lemma AllAsked(world: World, table: Table, filters: seq<Filter>, row: Row)
    ensures AllAccept(world, table, filters, row) <==> AllWant(world, table, filters, row)
  {
    hide Accepts, Wants;
    forall i | 0 <= i < |filters|
      ensures Accepts(world, table, filters[i], row) <==> Wants(world, table, filters[i].0, filters[i].1, row)
    {
      AcceptsAsked(world, table, filters[i].0, filters[i].1, row);
    }
  }

  /** A plan that answers a table's items scans the rows that all filters of some item ask for, and feeds a relation
      with those of an item that names it. */
  lemma PlanWants(world: World, table: Table, items: seq<Item>, plan: Plan, row: Row)
    requires Answers(world, table, items, plan) && WellTyped(table, row)
    ensures Scanned(world, plan, row) <==> exists i :: 0 <= i < |items| && AllWant(world, table, items[i].filters, row)
    ensures forall r :: 0 <= r < |plan.relations| ==>
              (Feeds(world, plan, plan.relations[r], row)
               <==> exists i :: 0 <= i < |items| && Some(plan.relations[r].join) in items[i].relations
                                && AllWant(world, table, items[i].filters, row))
  {
    hide WellTyped, AllAccept, AllWant, Feeds, Scanned;
    forall i | 0 <= i < |items|
      ensures AllAccept(world, table, items[i].filters, row) <==> AllWant(world, table, items[i].filters, row)
    {
      AllAsked(world, table, items[i].filters, row);
    }
  }
}
