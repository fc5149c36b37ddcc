/**
 A query item's filters compiled to predicates. Values a column cannot hold are dropped, a
 list left with none sinks the item, and discriminator prefixes are grouped by length into
 alternatives; a row passes the compiled predicates exactly when the filters, read directly,
 accept it.
 */
module QueryFilters {
  import opened Wrappers
  import Order

  type Byte = byte: nat | byte < 256

  type Bytes = seq<Byte>

  /** A filter's value as it was sent. An object is a set reference, or no filter value at all. */
  datatype Json =
    | Text(text: string)
    | Number(number: int)
    | Flag(flag: bool)
    | List(items: seq<Json>)
    | Object(named: Option<string>)
    | Other

  /** The declared type of a column: text, perhaps folded to lower case; integers by bytes or by range; bytes; lists. */
  datatype Type =
    | Texts(fold: string -> string)
    | Unsigned(width: nat)
    | Signed(least: int, most: int)
    | Binary(size: nat)
    | UInt32List
    | TextList(fold: string -> string)
    | Boolean
    | Unfilterable

  /** A row's value in a column. */
  datatype Cell =
    | NullCell
    | TextCell(text: string)
    | IntCell(number: int)
    | BytesCell(bytes: Bytes)
    | FlagCell(flag: bool)
    | IntsCell(numbers: seq<int>)
    | TextsCell(texts: seq<string>)

  type Row = map<string, Cell>

  /** What the engine takes from elsewhere: hex read as bytes, the order of text, bloom and set lookups. */
  datatype World = World(hex: string -> Option<Bytes>, textAtLeast: (string, string) -> bool,
                         bloom: (Cell, string) -> bool, inSet: (string, Cell) -> bool)

  function CellOf(row: Row, column: string): Cell {
    if column in row then row[column] else NullCell
  }

  function BigEndianValue(bytes: Bytes): nat {
    if bytes == [] then 0 else 256 * BigEndianValue(bytes[..|bytes| - 1]) + bytes[|bytes| - 1]
  }

  /** Bytes are the big-endian bytes of the number they are read as, and a number is that of its own. */
  lemma {:induction false} BigEndianReads(bytes: Bytes, number: nat)
    ensures BigEndianValue(bytes) < Order.Bound(|bytes|)
    ensures Order.BigEndian(BigEndianValue(bytes), |bytes|) == bytes
    ensures number < Order.Bound(|bytes|) && Order.BigEndian(number, |bytes|) == bytes ==>
              number == BigEndianValue(bytes)
  {
    if bytes != [] {
      var (before, last) := (bytes[..|bytes| - 1], bytes[|bytes| - 1]);
      BigEndianReads(before, number / 256);
      assert BigEndianValue(bytes) / 256 == BigEndianValue(before) && BigEndianValue(bytes) % 256 == last;
      if number < Order.Bound(|bytes|) && Order.BigEndian(number, |bytes|) == bytes {
        var high := Order.BigEndian(number / 256, |bytes| - 1);
        assert (high + [number % 256])[..|bytes| - 1] == high;
        assert number == 256 * (number / 256) + number % 256;
      }
    }
  }

  const UINT32 := 0x1_0000_0000

  /** A value a column of this type can hold. */
  predicate Holds(kind: Type, cell: Cell) {
    match cell
    case NullCell => true
    case TextCell(_) => kind.Texts?
    case IntCell(n) => (kind.Unsigned? && 0 <= n < Order.Bound(kind.width))
                       || (kind.Signed? && kind.least <= n <= kind.most)
    case BytesCell(bytes) => kind.Binary? && |bytes| == kind.size
    case FlagCell(_) => kind.Boolean?
    case IntsCell(numbers) => kind.UInt32List? && forall i :: 0 <= i < |numbers| ==> 0 <= numbers[i] < UINT32
    case TextsCell(_) => kind.TextList?
  }

  // ----- a list filter, read directly -----

  /** Well-formed hex of so many bytes. */
  predicate IsHex(world: World, text: string, size: nat) {
    world.hex(text).Some? && |world.hex(text).value| == size
  }

  /** An integer whose big-endian bytes these are. */
  predicate Spells(cell: Cell, bytes: Bytes) {
    cell.IntCell? && 0 <= cell.number < Order.Bound(|bytes|) && Order.BigEndian(cell.number, |bytes|) == bytes
  }

  lemma SpellsValue(cell: Cell, bytes: Bytes)
    ensures Spells(cell, bytes) <==> cell == IntCell(BigEndianValue(bytes))
  {
    BigEndianReads(bytes, if cell.IntCell? && cell.number >= 0 then cell.number else 0);
  }

  /** A row's value is the one a list element names. */
  predicate Names(world: World, kind: Type, value: Json, cell: Cell) {
    match kind
    case Texts(fold) => value.Text? && cell == TextCell(fold(value.text))
    case Unsigned(width) =>
      || (value.Text? && IsHex(world, value.text, width) && Spells(cell, world.hex(value.text).value))
      || (value.Number? && cell == IntCell(value.number))
    case Signed(_, _) => value.Number? && cell == IntCell(value.number)
    case Binary(_) => value.Text? && world.hex(value.text).Some? && cell == BytesCell(world.hex(value.text).value)
    case UInt32List => value.Number? && cell.IntsCell? && value.number in cell.numbers
    case TextList(fold) => value.Text? && cell.TextsCell? && fold(value.text) in cell.texts
    case _ => false
  }

  predicate NamedBySome(world: World, kind: Type, values: seq<Json>, cell: Cell) {
    exists i :: 0 <= i < |values| && Names(world, kind, values[i], cell)
  }

  /** An element a list filter on this type may carry; hex that is not well-formed names nothing, and is no error. */
  predicate ElementOk(world: World, kind: Type, value: Json) {
    match kind
    case Texts(_) => value.Text?
    case Unsigned(_) => value.Text? || value.Number?
    case Signed(_, _) => value.Number?
    case Binary(_) => value.Text?
    case UInt32List => value.Number? && value.number >= 0
    case TextList(_) => value.Text?
    case _ => false
  }

  predicate ListOk(world: World, kind: Type, values: seq<Json>) {
    kind != Boolean && kind != Unfilterable && forall i :: 0 <= i < |values| ==> ElementOk(world, kind, values[i])
  }

  // ----- compiled predicates -----

  datatype Test =
    | InTexts(texts: seq<string>)
    | InInts(numbers: seq<int>)
    | InBytes(values: seq<Bytes>)
    | HasInt(numbers: seq<int>)
    | HasText(texts: seq<string>)
    | IsFlag(flag: bool)
    | AtLeast(number: int)
    | AtMost(number: int)
    | TextAtLeast(text: string)
    | Blooms(needles: seq<string>)
    | InSets(names: seq<string>)
    | Either(one: Test, other: Test)

  predicate Passes(world: World, test: Test, cell: Cell) {
    match test
    case InTexts(texts) => cell.TextCell? && cell.text in texts
    case InInts(numbers) => cell.IntCell? && cell.number in numbers
    case InBytes(values) => cell.BytesCell? && cell.bytes in values
    case HasInt(numbers) => cell.IntsCell? && exists i :: 0 <= i < |numbers| && numbers[i] in cell.numbers
    case HasText(texts) => cell.TextsCell? && exists i :: 0 <= i < |texts| && texts[i] in cell.texts
    case IsFlag(flag) => cell == FlagCell(flag)
    case AtLeast(number) => cell.IntCell? && cell.number >= number
    case AtMost(number) => cell.IntCell? && cell.number <= number
    case TextAtLeast(text) => cell.TextCell? && world.textAtLeast(cell.text, text)
    case Blooms(needles) => exists i :: 0 <= i < |needles| && world.bloom(cell, needles[i])
    case InSets(names) => exists i :: 0 <= i < |names| && world.inSet(names[i], cell)
    case Either(one, other) => Passes(world, one, cell) || Passes(world, other, cell)
  }

  datatype Result<T> = Ok(value: T) | Err

  /** What is left of a list's elements once those the type cannot hold are dropped. */
  datatype Kept = KeptTexts(texts: seq<string>) | KeptInts(numbers: seq<int>) | KeptBytes(values: seq<Bytes>)

  function EmptyFor(kind: Type): Kept {
    match kind
    case Unsigned(_) => KeptInts([])
    case Signed(_, _) => KeptInts([])
    case UInt32List => KeptInts([])
    case Binary(_) => KeptBytes([])
    case _ => KeptTexts([])
  }

  predicate KeptFor(kind: Type, kept: Kept) {
    match kind
    case Unsigned(_) => kept.KeptInts?
    case Signed(_, _) => kept.KeptInts?
    case UInt32List => kept.KeptInts?
    case Binary(_) => kept.KeptBytes?
    case _ => kept.KeptTexts?
  }

  /** The type can hold what a list element says. */
  predicate Fits(world: World, kind: Type, value: Json) {
    match kind
    case Texts(_) => value.Text?
    case TextList(_) => value.Text?
    case Unsigned(width) =>
      || (value.Text? && IsHex(world, value.text, width))
      || (value.Number? && 0 <= value.number < Order.Bound(width))
    case Signed(least, most) => value.Number? && least <= value.number <= most
    case UInt32List => value.Number? && 0 <= value.number < UINT32
    case Binary(size) => value.Text? && IsHex(world, value.text, size)
    case _ => false
  }

  /** Some element of a list says what the type can hold. */
  predicate SomeFits(world: World, kind: Type, values: seq<Json>) {
    exists i :: 0 <= i < |values| && Fits(world, kind, values[i])
  }

  /** One element more, where the type can hold it. */
  function Keep(world: World, kind: Type, kept: Kept, value: Json): (more: Kept)
    requires KeptFor(kind, kept) && ElementOk(world, kind, value)
    ensures KeptFor(kind, more)
    ensures IsEmpty(more) <==> IsEmpty(kept) && !Fits(world, kind, value)
  {
    if !Fits(world, kind, value) then kept
    else
      match kind
      case Texts(fold) => KeptTexts(kept.texts + [fold(value.text)])
      case TextList(fold) => KeptTexts(kept.texts + [fold(value.text)])
      case Unsigned(_) =>
        KeptInts(kept.numbers + [if value.Text? then BigEndianValue(world.hex(value.text).value) else value.number])
      case Binary(_) => KeptBytes(kept.values + [world.hex(value.text).value])
      case Signed(_, _) => KeptInts(kept.numbers + [value.number])
      case UInt32List => KeptInts(kept.numbers + [value.number])
      case _ => kept
  }

  function TestOf(kind: Type, kept: Kept): Test
    requires KeptFor(kind, kept)
  {
    match kind
    case Unsigned(_) => InInts(kept.numbers)
    case Signed(_, _) => InInts(kept.numbers)
    case UInt32List => HasInt(kept.numbers)
    case Binary(_) => InBytes(kept.values)
    case TextList(_) => HasText(kept.texts)
    case _ => InTexts(kept.texts)
  }

  predicate IsEmpty(kept: Kept) {
    match kept
    case KeptTexts(texts) => texts == []
    case KeptInts(numbers) => numbers == []
    case KeptBytes(values) => values == []
  }

  /** What is dropped could name no value the column holds. */
  lemma KeepNames(world: World, kind: Type, kept: Kept, value: Json, cell: Cell)
    requires KeptFor(kind, kept) && ElementOk(world, kind, value) && Holds(kind, cell)
    requires kind != Boolean && kind != Unfilterable
    ensures Passes(world, TestOf(kind, Keep(world, kind, kept, value)), cell)
            <==> Passes(world, TestOf(kind, kept), cell) || Names(world, kind, value, cell)
  {
    hide BigEndianValue, Order.Bound, Spells;
    match kind {
      case Texts(fold) =>
      case TextList(fold) =>
        if cell.TextsCell? {
          HasMore(kept.texts, fold(value.text), cell.texts);
        }
      case Unsigned(width) =>
        if value.Text? && IsHex(world, value.text, width) {
          SpellsValue(cell, world.hex(value.text).value);
        }
      case Signed(_, _) =>
      case UInt32List =>
        if cell.IntsCell? {
          HasMore(kept.numbers, value.number, cell.numbers);
        }
      case Binary(_) =>
      case _ =>
    }
  }

  lemma HasMore<T>(some: seq<T>, x: T, cell: seq<T>)
    ensures (exists i :: 0 <= i < |some + [x]| && (some + [x])[i] in cell)
            <==> (exists i :: 0 <= i < |some| && some[i] in cell) || x in cell
  {
    var more := some + [x];
    if i :| 0 <= i < |some| && some[i] in cell {
      assert more[i] in cell;
    }
    if x in cell {
      assert more[|some|] in cell;
    }
  }

  /** A list over a column: the values it can hold, or nothing where none is left. */
  method CompileInList(world: World, kind: Type, values: seq<Json>) returns (result: Result<Option<Test>>)
    ensures result.Err? <==> !ListOk(world, kind, values)
    ensures result.Ok? ==> (result.value.Some? <==> SomeFits(world, kind, values))
    ensures result.Ok? ==> forall cell :: Holds(kind, cell) ==>
              (NamedBySome(world, kind, values, cell)
               <==> result.value.Some? && Passes(world, result.value.value, cell))
  {
    hide Holds, Names, Passes, TestOf, Keep, ElementOk, Fits;
    if kind == Boolean || kind == Unfilterable {
      return Err;
    }
    var kept := EmptyFor(kind);
    forall cell ensures !Passes(world, TestOf(kind, kept), cell) {
      NothingPasses(world, kind, kept, cell);
    }
    for k := 0 to |values|
      invariant KeptFor(kind, kept)
      invariant !IsEmpty(kept) <==> exists i :: 0 <= i < k && Fits(world, kind, values[i])
      invariant forall i :: 0 <= i < k ==> ElementOk(world, kind, values[i])
      invariant forall cell :: Holds(kind, cell) ==>
                  (Passes(world, TestOf(kind, kept), cell)
                   <==> exists i :: 0 <= i < k && Names(world, kind, values[i], cell))
    {
      if !ElementOk(world, kind, values[k]) {
        return Err;
      }
      forall cell | Holds(kind, cell)
        ensures Passes(world, TestOf(kind, Keep(world, kind, kept, values[k])), cell)
                <==> Passes(world, TestOf(kind, kept), cell) || Names(world, kind, values[k], cell)
      {
        KeepNames(world, kind, kept, values[k], cell);
      }
      kept := Keep(world, kind, kept, values[k]);
    }
    if IsEmpty(kept) {
      forall cell ensures !Passes(world, TestOf(kind, kept), cell) {
        NothingPasses(world, kind, kept, cell);
      }
      return Ok(None);
    }
    return Ok(Some(TestOf(kind, kept)));
  }

  lemma NothingPasses(world: World, kind: Type, kept: Kept, cell: Cell)
    requires KeptFor(kind, kept) && IsEmpty(kept)
    ensures !Passes(world, TestOf(kind, kept), cell)
  {
  }

  // ----- discriminators -----

  const MAX_DISCRIMINATOR_BYTES := 16

  datatype ColumnPredicate = ColumnPredicate(column: string, test: Test)

  predicate ColumnPasses(world: World, predicate_: ColumnPredicate, row: Row) {
    Passes(world, predicate_.test, CellOf(row, predicate_.column))
  }

  predicate AllPass(world: World, columns: seq<ColumnPredicate>, row: Row) {
    forall i :: 0 <= i < |columns| ==> ColumnPasses(world, columns[i], row)
  }

  predicate SomeGroup(world: World, groups: seq<seq<ColumnPredicate>>, row: Row) {
    exists g :: 0 <= g < |groups| && AllPass(world, groups[g], row)
  }

  /** The column for prefixes of this length stores this one: an integer of those bytes, where one has so many. */
  predicate StoresPrefix(cell: Cell, bytes: Bytes) {
    if |bytes| == 1 || |bytes| == 2 || |bytes| == 4 || |bytes| == 8 then Spells(cell, bytes)
    else cell == BytesCell(bytes)
  }

  /** A row starts with the prefix an element names; the empty prefix starts every row. */
  predicate StartsWith(world: World, value: Json, byLength: map<nat, string>, row: Row) {
    && value.Text? && world.hex(value.text).Some?
    && var bytes := world.hex(value.text).value;
       bytes == [] || Started(bytes, byLength, row)
  }

  predicate StartsWithSome(world: World, values: seq<Json>, byLength: map<nat, string>, row: Row) {
    exists i :: 0 <= i < |values| && StartsWith(world, values[i], byLength, row)
  }

  predicate PrefixOk(world: World, value: Json) {
    value.Text? && world.hex(value.text).Some? && |world.hex(value.text).value| <= MAX_DISCRIMINATOR_BYTES
  }

  function PrefixOf(world: World, value: Json): Bytes
    requires PrefixOk(world, value)
  {
    world.hex(value.text).value
  }

  predicate PrefixesOk(world: World, values: seq<Json>, byLength: map<nat, string>) {
    && (forall i :: 0 <= i < |values| ==> PrefixOk(world, values[i]))
    && forall i :: 0 <= i < |values| ==> PrefixOf(world, values[i]) == [] || |PrefixOf(world, values[i])| in byLength
  }

  /** The prefixes of one length. */
  function OfLength(prefixes: seq<Bytes>, length: nat): (own: seq<Bytes>)
    ensures forall i :: 0 <= i < |own| ==> |own[i]| == length
    ensures forall bytes :: bytes in own <==> bytes in prefixes && |bytes| == length
  {
    if prefixes == [] then []
    else
      var (before, last) := (OfLength(prefixes[..|prefixes| - 1], length), prefixes[|prefixes| - 1]);
      assert prefixes == prefixes[..|prefixes| - 1] + [last];
      if |last| == length then before + [last] else before
  }

  /** A test for the prefixes of one length, at the type their column stores them. */
  function PrefixTest(length: nat, own: seq<Bytes>): Test {
    if length == 1 || length == 2 || length == 4 || length == 8 then
      InInts(seq(|own|, i requires 0 <= i < |own| => BigEndianValue(own[i])))
    else InBytes(own)
  }

  lemma PrefixTestExact(world: World, length: nat, own: seq<Bytes>, cell: Cell)
    requires forall i :: 0 <= i < |own| ==> |own[i]| == length
    ensures Passes(world, PrefixTest(length, own), cell) <==> exists i :: 0 <= i < |own| && StoresPrefix(cell, own[i])
  {
    hide BigEndianValue, Spells;
    if length == 1 || length == 2 || length == 4 || length == 8 {
      var numbers := PrefixTest(length, own).numbers;
      forall i | 0 <= i < |own| ensures StoresPrefix(cell, own[i]) <==> cell == IntCell(numbers[i]) {
        SpellsValue(cell, own[i]);
      }
      if i :| 0 <= i < |own| && StoresPrefix(cell, own[i]) {
        assert numbers[i] in numbers;
      }
    } else if cell.BytesCell? && cell.bytes in own {
      var i :| 0 <= i < |own| && own[i] == cell.bytes;
      assert StoresPrefix(cell, own[i]);
    }
  }

  /** Some prefix up to a length starts the row. */
  predicate StartedUpTo(prefixes: seq<Bytes>, byLength: map<nat, string>, length: nat, row: Row) {
    exists i :: 0 <= i < |prefixes| && 0 < |prefixes[i]| <= length && Started(prefixes[i], byLength, row)
  }

  /** The column for prefixes of this length holds this one. */
  predicate Started(prefix: Bytes, byLength: map<nat, string>, row: Row) {
    |prefix| in byLength && StoresPrefix(CellOf(row, byLength[|prefix|]), prefix)
  }

  lemma GroupStep(world: World, prefixes: seq<Bytes>, byLength: map<nat, string>, length: nat,
                  groups: seq<seq<ColumnPredicate>>,
                  more: seq<seq<ColumnPredicate>>, row: Row)
    requires var own := OfLength(prefixes, length + 1);
             more == if own == [] then groups
                     else
                       var column := if length + 1 in byLength then byLength[length + 1] else "";
                       groups + [[ColumnPredicate(column, PrefixTest(length + 1, own))]]
    requires OfLength(prefixes, length + 1) != [] ==> length + 1 in byLength
    requires SomeGroup(world, groups, row) <==> StartedUpTo(prefixes, byLength, length, row)
    ensures SomeGroup(world, more, row) <==> StartedUpTo(prefixes, byLength, length + 1, row)
  {
    hide Passes, PrefixTest, StoresPrefix, SomeGroup, StartedUpTo;
    var own := OfLength(prefixes, length + 1);
    StartedStep(prefixes, byLength, length, row);
    if own != [] {
      var group := [ColumnPredicate(byLength[length + 1], PrefixTest(length + 1, own))];
      var cell := CellOf(row, byLength[length + 1]);
      PrefixTestExact(world, length + 1, own, cell);
      assert AllPass(world, group, row) <==> ColumnPasses(world, group[0], row);
      assert forall i :: 0 <= i < |own| ==> (Started(own[i], byLength, row) <==> StoresPrefix(cell, own[i]));
      SomeGroupStep(world, groups, group, row);
    }
  }

  lemma StartedStep(prefixes: seq<Bytes>, byLength: map<nat, string>, length: nat, row: Row)
    ensures var own := OfLength(prefixes, length + 1);
            StartedUpTo(prefixes, byLength, length + 1, row)
            <==> StartedUpTo(prefixes, byLength, length, row)
                 || exists i :: 0 <= i < |own| && Started(own[i], byLength, row)
  {
    hide Started;
    var own := OfLength(prefixes, length + 1);
    if StartedUpTo(prefixes, byLength, length, row) {
      var i :| 0 <= i < |prefixes| && 0 < |prefixes[i]| <= length && Started(prefixes[i], byLength, row);
      assert 0 < |prefixes[i]| <= length + 1;
    }
    if StartedUpTo(prefixes, byLength, length + 1, row) {
      var i :| 0 <= i < |prefixes| && 0 < |prefixes[i]| <= length + 1 && Started(prefixes[i], byLength, row);
      assert prefixes[i] in prefixes;
      assert |prefixes[i]| == length + 1 ==> prefixes[i] in own;
    }
    if i :| 0 <= i < |own| && Started(own[i], byLength, row) {
      assert own[i] in own;
      var k :| 0 <= k < |prefixes| && prefixes[k] == own[i];
      assert |prefixes[k]| == length + 1 && Started(prefixes[k], byLength, row);
    }
  }

  lemma SomeGroupStep(world: World, groups: seq<seq<ColumnPredicate>>, group: seq<ColumnPredicate>, row: Row)
    ensures SomeGroup(world, groups + [group], row) <==> SomeGroup(world, groups, row) || AllPass(world, group, row)
  {
    hide AllPass;
    var more := groups + [group];
    if g :| 0 <= g < |groups| && AllPass(world, groups[g], row) {
      assert more[g] == groups[g];
    }
    if AllPass(world, group, row) {
      assert more[|groups|] == group;
    }
  }

  /** A discriminator's prefixes as one group per length, the shortest first; nothing where the empty prefix, which
      starts every row, is among them. */
  method CompileDiscriminator(world: World, values: seq<Json>, byLength: map<nat, string>)
    returns (result: Result<Option<seq<seq<ColumnPredicate>>>>)
    ensures result.Err? <==> !PrefixesOk(world, values, byLength)
    ensures result.Ok? && result.value.Some? && values != [] ==> result.value.value != []
    ensures result.Ok? ==> forall row ::
              StartsWithSome(world, values, byLength, row)
              <==> (result.value.Some? ==> SomeGroup(world, result.value.value, row))
  {
    hide StoresPrefix, SomeGroup, StartedUpTo, PrefixTest;
    var prefixes: seq<Bytes> := [];
    var every := false;
    for k := 0 to |values|
      invariant |prefixes| == k && forall i :: 0 <= i < k ==>
                                     PrefixOk(world, values[i]) && prefixes[i] == PrefixOf(world, values[i])
      invariant every <==> exists i :: 0 <= i < k && prefixes[i] == []
    {
      if !PrefixOk(world, values[k]) {
        return Err;
      }
      prefixes := prefixes + [PrefixOf(world, values[k])];
      every := every || prefixes[k] == [];
    }
    var groups: seq<seq<ColumnPredicate>> := [];
    forall row ensures SomeGroup(world, groups, row) <==> StartedUpTo(prefixes, byLength, 0, row) {
      NothingStarts(world, prefixes, byLength, row);
    }
    for length := 0 to MAX_DISCRIMINATOR_BYTES
      invariant forall i :: 0 <= i < |prefixes| && 0 < |prefixes[i]| <= length ==> |prefixes[i]| in byLength
      invariant forall row :: SomeGroup(world, groups, row) <==> StartedUpTo(prefixes, byLength, length, row)
      invariant forall i :: 0 <= i < |prefixes| && 0 < |prefixes[i]| <= length ==> groups != []
    {
      var own := OfLength(prefixes, length + 1);
      ghost var before := groups;
      if own != [] {
        assert own[0] in own;
        if length + 1 !in byLength {
          var i :| 0 <= i < |prefixes| && prefixes[i] == own[0];
          assert PrefixOf(world, values[i]) == own[0];
          return Err;
        }
        groups := groups + [[ColumnPredicate(byLength[length + 1], PrefixTest(length + 1, own))]];
      }
      forall i | 0 <= i < |prefixes| && |prefixes[i]| == length + 1 ensures |prefixes[i]| in byLength {
        assert prefixes[i] in prefixes && prefixes[i] in own;
      }
      forall row ensures SomeGroup(world, groups, row) <==> StartedUpTo(prefixes, byLength, length + 1, row) {
        GroupStep(world, prefixes, byLength, length, before, groups, row);
      }
    }
    forall row
      ensures StartsWithSome(world, values, byLength, row)
              <==> every || StartedUpTo(prefixes, byLength, MAX_DISCRIMINATOR_BYTES, row)
    {
      StartsAre(world, values, prefixes, byLength, row);
    }
    return Ok(if every then None else Some(groups));
  }

  lemma NothingStarts(world: World, prefixes: seq<Bytes>, byLength: map<nat, string>, row: Row)
    ensures SomeGroup(world, [], row) <==> StartedUpTo(prefixes, byLength, 0, row)
  {
  }

  lemma StartsAre(world: World, values: seq<Json>, prefixes: seq<Bytes>, byLength: map<nat, string>, row: Row)
    requires |prefixes| == |values|
    requires forall i :: 0 <= i < |values| ==> PrefixOk(world, values[i]) && prefixes[i] == PrefixOf(world, values[i])
    ensures StartsWithSome(world, values, byLength, row)
            <==> (exists i :: 0 <= i < |prefixes| && prefixes[i] == [])
                 || StartedUpTo(prefixes, byLength, MAX_DISCRIMINATOR_BYTES, row)
  {
    hide Started;
    if StartsWithSome(world, values, byLength, row) {
      var i :| 0 <= i < |values| && StartsWith(world, values[i], byLength, row);
      assert prefixes[i] == PrefixOf(world, values[i]);
    }
    if i :| 0 <= i < |prefixes| && prefixes[i] == [] {
      assert StartsWith(world, values[i], byLength, row);
    }
    if StartedUpTo(prefixes, byLength, MAX_DISCRIMINATOR_BYTES, row) {
      var i :| 0 <= i < |prefixes| && 0 < |prefixes[i]| <= MAX_DISCRIMINATOR_BYTES
               && Started(prefixes[i], byLength, row);
      assert StartsWith(world, values[i], byLength, row);
    }
  }
}
