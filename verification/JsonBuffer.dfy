/**
 The comma discipline of written JSON: every entry of an object is followed by a comma, and
 closing the object overwrites the last one. What is written is the entries between braces,
 separated by commas, however many there are and however they nest.
 */
module JsonBuffer {
  type Bytes = seq<int>

  const COMMA: int := 44
  const OPEN_BRACE: int := 123
  const CLOSE_BRACE: int := 125
  const CLOSE_BRACKET: int := 93

  /** The parts with a comma between each two. */
  function Join(parts: seq<Bytes>): Bytes {
    if parts == [] then []
    else if |parts| == 1 then parts[0]
    else Join(parts[..|parts| - 1]) + [COMMA] + parts[|parts| - 1]
  }

  /** The parts, each followed by a comma. */
  function Followed(parts: seq<Bytes>): Bytes {
    if parts == [] then [] else Followed(parts[..|parts| - 1]) + parts[|parts| - 1] + [COMMA]
  }

  function Object(parts: seq<Bytes>): Bytes {
    [OPEN_BRACE] + Join(parts) + [CLOSE_BRACE]
  }

  lemma {:induction false} FollowedIsJoin(parts: seq<Bytes>)
    requires parts != []
    ensures Followed(parts) == Join(parts) + [COMMA]
  {
    var (before, last) := (parts[..|parts| - 1], parts[|parts| - 1]);
    if before == [] {
      assert Followed(before) + last == last;
    } else {
      FollowedIsJoin(before);
    }
  }

  lemma {:induction false} FollowedAdds(a: seq<Bytes>, b: seq<Bytes>)
    ensures Followed(a + b) == Followed(a) + Followed(b)
  {
    if b == [] {
      assert a + b == a;
    } else {
      var before := b[..|b| - 1];
      assert (a + b)[..|a + b| - 1] == a + before;
      FollowedAdds(a, before);
    }
  }

  /** A field as it is written: its quoted name and colon, and its value. One that resolved to no column writes
      nothing. */
  datatype Field = Field(key: Bytes, value: Bytes) | Missing

  function FieldParts(fields: seq<Field>): seq<Bytes> {
    if fields == [] then []
    else
      var (before, field) := (FieldParts(fields[..|fields| - 1]), fields[|fields| - 1]);
      match field
      case Missing => before
      case Field(key, value) => before + [key + value]
  }

  /** A group of fields under one key; the flat group has none. */
  datatype Group = Group(key: Bytes, fields: seq<Field>)

  /** The parts a group writes: none without fields, its fields where it is flat, and otherwise one object. */
  function PartsOf(group: Group): seq<Bytes> {
    if group.fields == [] then []
    else if group.key == [] then FieldParts(group.fields)
    else [group.key + Object(FieldParts(group.fields))]
  }

  function GroupParts(groups: seq<Group>): seq<Bytes> {
    if groups == [] then [] else GroupParts(groups[..|groups| - 1]) + PartsOf(groups[|groups| - 1])
  }

  /** A row: its own fields, and the groups its variant adds. */
  datatype Item = Item(fields: seq<Field>, groups: seq<Group>)

  function ItemParts(item: Item): seq<Bytes> {
    FieldParts(item.fields) + GroupParts(item.groups)
  }

  function Rendered(items: seq<Item>): (objects: seq<Bytes>)
    ensures |objects| == |items|
  {
    seq(|items|, i requires 0 <= i < |items| => Object(ItemParts(items[i])))
  }

  /** A trailing comma overwritten with the closing byte; the byte added where there is none. */
  function Closed(bytes: Bytes, end: int): Bytes {
    if bytes != [] && bytes[|bytes| - 1] == COMMA then bytes[..|bytes| - 1] + [end] else bytes + [end]
  }

  /** Closing overwrites the last entry's comma, or follows the brace of an object without entries. */
  lemma ClosedObject(before: Bytes, parts: seq<Bytes>)
    ensures Closed(before + [OPEN_BRACE] + Followed(parts), CLOSE_BRACE) == before + Object(parts)
  {
    var start := before + [OPEN_BRACE];
    if parts == [] {
      assert start + Followed(parts) == start;
      assert start + Join(parts) == start;
    } else {
      FollowedIsJoin(parts);
      hide Followed, Join;
      var bytes := start + Followed(parts);
      assert bytes == start + Join(parts) + [COMMA];
      assert bytes[..|bytes| - 1] == start + Join(parts);
    }
    assert before + Object(parts) == start + Join(parts) + [CLOSE_BRACE];
  }

  class Buffer {
    var bytes: Bytes

    constructor ()
      ensures bytes == []
    {
      bytes := [];
    }

    method Push(byte: int)
      modifies this
      ensures bytes == old(bytes) + [byte]
    {
      bytes := bytes + [byte];
    }

    method Extend(more: Bytes)
      modifies this
      ensures bytes == old(bytes) + more
    {
      bytes := bytes + more;
    }

    /** Overwrites a trailing comma with the closing byte, or adds it. */
    method Close(end: int)
      modifies this
      ensures bytes == Closed(old(bytes), end)
    {
      if bytes != [] && bytes[|bytes| - 1] == COMMA {
        bytes := bytes[|bytes| - 1 := end];
      } else {
        Push(end);
      }
    }

    method WriteFields(fields: seq<Field>)
      modifies this
      ensures bytes == old(bytes) + Followed(FieldParts(fields))
    {
      for i := 0 to |fields|
        invariant bytes == old(bytes) + Followed(FieldParts(fields[..i]))
      {
        assert fields[..i + 1][..i] == fields[..i];
        match fields[i]
        case Missing =>
        case Field(key, value) =>
          FollowedOne(FieldParts(fields[..i]), key + value);
          Extend(key);
          Extend(value);
          Push(COMMA);
      }
      assert fields[..|fields|] == fields;
    }

    /** Closes an object whose parts were written each with a comma after it. */
    method CloseObject(ghost before: Bytes, ghost parts: seq<Bytes>)
      requires bytes == before + [OPEN_BRACE] + Followed(parts)
      modifies this
      ensures bytes == before + Object(parts)
    {
      ClosedObject(before, parts);
      hide *;
      Close(CLOSE_BRACE);
    }

    method WriteGroup(group: Group)
      modifies this
      ensures bytes == old(bytes) + Followed(PartsOf(group))
    {
      hide FieldParts, Object;
      if group.fields != [] {
        if group.key == [] {
          WriteFields(group.fields);
        } else {
          ghost var before := bytes;
          Extend(group.key);
          Push(OPEN_BRACE);
          WriteFields(group.fields);
          CloseObject(before + group.key, FieldParts(group.fields));
          Push(COMMA);
          FollowedOne([], group.key + Object(FieldParts(group.fields)));
        }
      }
    }

    method WriteItem(item: Item)
      modifies this
      ensures bytes == old(bytes) + Object(ItemParts(item))
    {
      hide FieldParts, Object, PartsOf, Followed;
      ghost var (before, base) := (bytes, FieldParts(item.fields));
      Push(OPEN_BRACE);
      WriteFields(item.fields);
      assert base + GroupParts(item.groups[..0]) == base;
      for i := 0 to |item.groups|
        invariant bytes == before + [OPEN_BRACE] + Followed(base + GroupParts(item.groups[..i]))
      {
        ghost var (so, parts) := (GroupParts(item.groups[..i]), PartsOf(item.groups[i]));
        assert item.groups[..i + 1][..i] == item.groups[..i];
        FollowedAdds(base + so, parts);
        assert base + so + parts == base + (so + parts);
        WriteGroup(item.groups[i]);
      }
      assert item.groups[..|item.groups|] == item.groups;
      CloseObject(before, ItemParts(item));
    }

    /** The items, a comma before each but the first. */
    method WriteElements(items: seq<Item>)
      modifies this
      ensures bytes == old(bytes) + Join(Rendered(items))
    {
      hide Object, ItemParts, Join, Rendered;
      ghost var start := bytes;
      NothingRendered(items);
      for i := 0 to |items|
        invariant bytes == start + Join(Rendered(items[..i]))
      {
        ghost var (so, item) := (Join(Rendered(items[..i])), Object(ItemParts(items[i])));
        RenderedOne(items, i);
        if i > 0 {
          Push(COMMA);
          WriteItem(items[i]);
          assert bytes == start + so + [COMMA] + item;
          assert start + so + [COMMA] + item == start + (so + [COMMA] + item);
        } else {
          WriteItem(items[i]);
          assert bytes == start + item;
        }
      }
      assert items[..|items|] == items;
    }

    /** The items as a table's array, or nothing where there are none. */
    method WriteItems(prefix: Bytes, items: seq<Item>)
      modifies this
      ensures bytes == old(bytes) + if items == [] then [] else prefix + Join(Rendered(items)) + [CLOSE_BRACKET, COMMA]
    {
      hide Join, Rendered;
      if items == [] {
        return;
      }
      Extend(prefix);
      WriteElements(items);
      Push(CLOSE_BRACKET);
      Push(COMMA);
    }
  }

  lemma NothingRendered(items: seq<Item>)
    ensures Join(Rendered(items[..0])) == []
  {
  }

  lemma FollowedOne(parts: seq<Bytes>, part: Bytes)
    ensures Followed(parts + [part]) == Followed(parts) + part + [COMMA]
  {
    assert (parts + [part])[..|parts|] == parts;
  }

  lemma RenderedOne(items: seq<Item>, i: nat)
    requires i < |items|
    ensures i == 0 ==> Join(Rendered(items[..i + 1])) == Object(ItemParts(items[i]))
    ensures i > 0 ==>
              Join(Rendered(items[..i + 1])) == Join(Rendered(items[..i])) + [COMMA] + Object(ItemParts(items[i]))
  {
    hide ItemParts;
    var more := Rendered(items[..i + 1]);
    assert more[..i] == Rendered(items[..i]);
  }
}
