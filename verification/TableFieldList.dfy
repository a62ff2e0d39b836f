/** Repeated column fields: what the containing message does with all of them. */
module TableFieldLists {
  import opened Options
  import opened Wire
  import opened Schema
  import opened Sizes
  import opened Streams
  import opened Effects
  import opened Writers
  import opened TableFields

  /** The items are distinct valid objects with the given values. */
  ghost predicate ListOk(items: seq<TableField>, msgs: seq<Msg>)
    reads items
  {
    && |items| == |msgs|
    && (forall i, j :: 0 <= i < j < |items| ==> items[i] != items[j])
    && (forall i :: 0 <= i < |items| ==> items[i].Valid() && items[i].Contents() == msgs[i])
  }

  /** Every item has its own encoded size cached. */
  ghost predicate SizesRight(items: seq<TableField>, msgs: seq<Msg>)
    requires |items| == |msgs|
    reads items
  {
    forall i :: 0 <= i < |items| ==> items[i].cachedSize == |Encode(FieldMsg, msgs[i])|
  }

  lemma ListAppend(a: seq<TableField>, x: seq<Msg>, b: seq<TableField>, y: seq<Msg>)
    requires ListOk(a, x) && ListOk(b, y)
    requires forall o :: o in b ==> o !in a
    ensures ListOk(a + b, x + y)
  {
    hide TableField.Valid, TableField.Contents;
    forall i, j | 0 <= i < j < |a + b| ensures (a + b)[i] != (a + b)[j] {
      if i < |a| <= j {
        assert (a + b)[i] in a && (a + b)[j] in b;
      }
    }
  }

  lemma ListOne(item: TableField)
    requires item.Valid()
    ensures ListOk([item], [item.Contents()])
  {
    hide TableField.Valid, TableField.Contents;
  }

  /** Adds up the sizes of all items, which caches the size of each. */
  method SizeAll(items: seq<TableField>, ghost msgs: seq<Msg>, ghost tag: nat) returns (total: nat)
    requires ListOk(items, msgs) && tag < 128
    modifies items
    ensures ListOk(items, msgs)
    ensures Agrees(total, |EncodeMessages(tag, FieldMsg, msgs)|)
    ensures |EncodeMessages(tag, FieldMsg, msgs)| <= INT_MAX ==> SizesRight(items, msgs)
  {
    hide TableField.Valid, TableField.Contents, Encode, EncodeMessages, LengthDelimitedSize, Agrees, ToCachedSize;
    total := |items|;
    ghost var sum: nat := 0;
    NoMessages(tag, FieldMsg, msgs);
    AgreesSame(0);
    for i := 0 to |items|
      invariant ListOk(items, msgs)
      invariant total == |items| - i + sum && Agrees(sum, |EncodeMessages(tag, FieldMsg, msgs[..i])|)
      invariant forall j :: 0 <= j < i && |Encode(FieldMsg, msgs[j])| <= INT_MAX ==>
                  items[j].cachedSize == |Encode(FieldMsg, msgs[j])|
    {
      var size := items[i].ByteSizeLong();
      CachedSizeIs(size, |Encode(FieldMsg, msgs[i])|);
      MessageSizeAgrees(tag, FieldMsg, msgs, i, sum, size);
      total := total + LengthDelimitedSize(size);
      sum := sum + 1 + LengthDelimitedSize(size);
    }
    assert msgs[..|msgs|] == msgs;
    forall i | 0 <= i < |msgs| ensures |Encode(FieldMsg, msgs[i])| <= |EncodeMessages(tag, FieldMsg, msgs)| {
      MessageWithin(tag, FieldMsg, msgs, i);
    }
  }

  /** One item: tag, cached size, and the item itself, in place when the buffer has room for that size. */
  method WriteMessage(tag: nat, item: TableField, output: CodedOutputStream)
    requires item.Valid() && item.cachedSize == |Encode(FieldMsg, item.Contents())|
    modifies output
    ensures output.written == old(output.written) + (Varint(tag) + Block(Encode(FieldMsg, item.Contents())))
  {
    hide TableField.Valid, TableField.Contents, Encode, Varint, Wrote;
    ghost var body := Encode(FieldMsg, item.Contents());
    output.WriteVarint(tag);
    var size := item.cachedSize;
    output.WriteVarint(size);
    var direct := output.HasDirectBuffer(size);
    if direct {
      var buffer := new byte[size];
      ghost var before := buffer[..];
      var end := item.InternalSerializeWithCachedSizesToArray(buffer, 0);
      WroteAll(before, buffer[..], body);
      output.WriteRaw(buffer[..]);
    } else {
      item.SerializeWithCachedSizes(output);
    }
  }

  method WriteAll(tag: nat, items: seq<TableField>, ghost msgs: seq<Msg>, output: CodedOutputStream)
    requires ListOk(items, msgs) && SizesRight(items, msgs)
    modifies output
    ensures output.written == old(output.written) + EncodeMessages(tag, FieldMsg, msgs)
  {
    hide TableField.Valid, TableField.Contents, Encode, EncodeMessages, Varint, Block;
    ghost var start := output.written;
    NoMessages(tag, FieldMsg, msgs);
    for i := 0 to |items|
      invariant ListOk(items, msgs) && SizesRight(items, msgs)
      invariant output.written == start + EncodeMessages(tag, FieldMsg, msgs[..i])
    {
      WriteMessage(tag, items[i], output);
      EncodeMessagesNext(tag, FieldMsg, msgs, i);
    }
    assert msgs[..|msgs|] == msgs;
  }

  method WriteAllToArray(target: array<byte>, pos: nat, tag: nat, items: seq<TableField>, ghost msgs: seq<Msg>)
    returns (end: nat)
    requires ListOk(items, msgs) && SizesRight(items, msgs)
    requires pos + |EncodeMessages(tag, FieldMsg, msgs)| <= target.Length
    modifies target
    ensures end == pos + |EncodeMessages(tag, FieldMsg, msgs)|
    ensures Wrote(old(target[..]), target[..], pos, EncodeMessages(tag, FieldMsg, msgs))
  {
    hide TableField.Valid, TableField.Contents, Encode, EncodeMessages, Varint, Wrote;
    end := pos;
    ghost var start := target[..];
    WroteNothing(start, pos);
    NoMessages(tag, FieldMsg, msgs);
    for i := 0 to |items|
      invariant ListOk(items, msgs) && SizesRight(items, msgs)
      invariant end == pos + |EncodeMessages(tag, FieldMsg, msgs[..i])|
      invariant Wrote(start, target[..], pos, EncodeMessages(tag, FieldMsg, msgs[..i]))
    {
      EncodeMessagesNext(tag, FieldMsg, msgs, i);
      EncodeMessagesPrefix(tag, FieldMsg, msgs, i + 1);
      ghost var now := target[..];
      end := WriteMessageToArray(target, end, tag, items[i]);
      WroteThen(start, now, target[..], pos, EncodeMessages(tag, FieldMsg, msgs[..i]),
                Varint(tag) + Block(Encode(FieldMsg, msgs[i])));
    }
    assert msgs[..|msgs|] == msgs;
  }

  /** One item in place: tag, cached size, and the item. */
  method WriteMessageToArray(target: array<byte>, pos: nat, tag: nat, item: TableField) returns (end: nat)
    requires item.Valid() && item.cachedSize == |Encode(FieldMsg, item.Contents())|
    requires pos + |Varint(tag) + Block(Encode(FieldMsg, item.Contents()))| <= target.Length
    modifies target
    ensures end == pos + |Varint(tag) + Block(Encode(FieldMsg, item.Contents()))|
    ensures Wrote(old(target[..]), target[..], pos, Varint(tag) + Block(Encode(FieldMsg, item.Contents())))
  {
    hide *;
    ghost var body := Encode(FieldMsg, item.Contents());
    BlockIs(body);
    ghost var a := target[..];
    end := WriteVarintToArray(target, pos, tag);
    ghost var b := target[..];
    end := WriteVarintToArray(target, end, item.cachedSize);
    WroteThen(a, b, target[..], pos, Varint(tag), Varint(|body|));
    b := target[..];
    end := item.InternalSerializeWithCachedSizesToArray(target, end);
    WroteThen(a, b, target[..], pos, Varint(tag) + Varint(|body|), body);
    assert Varint(tag) + Varint(|body|) + body == Varint(tag) + Block(body);
  }

  /** Fresh copies of all items. */
  method CopyAll(items: seq<TableField>, ghost msgs: seq<Msg>) returns (copies: seq<TableField>)
    requires ListOk(items, msgs)
    ensures ListOk(copies, msgs) && forall i :: 0 <= i < |copies| ==> fresh(copies[i])
  {
    hide TableField.Valid, TableField.Contents, Merge, Empty;
    copies := [];
    for i := 0 to |items|
      invariant |copies| == i && ListOk(copies, msgs[..i]) && forall j :: 0 <= j < i ==> fresh(copies[j])
      invariant ListOk(items, msgs)
    {
      var copy := new TableField();
      copy.CopyFrom(items[i]);
      copies := copies + [copy];
    }
    assert msgs[..|msgs|] == msgs;
  }

  /** Reads one length-prefixed item into a cleared object. */
  method ReadItem(input: CodedInputStream, item: TableField) returns (ok: bool)
    requires item.Valid() && item.Contents() == Empty(FieldMsg)
    requires input.Valid() && input.budget >= 0 && !input.legitimateEnd
    modifies item, input
    ensures item.Valid() && input.Valid() && input.pos >= old(input.pos)
    ensures ok ==> input.limit == old(input.limit) && input.budget == old(input.budget) && !input.legitimateEnd
    ensures ok ==> input.pos - old(input.pos) <= |old(input.Rest())|
    ensures ok ==> input.Rest() == old(input.Rest())[input.pos - old(input.pos)..]
    ensures MessageRead(FieldMsg, old(input.Rest()), old(input.budget), ok, input.pos - old(input.pos), item.Contents())
  {
    hide TableField.Valid, TableField.Contents, Parse, ReadExtent, Empty;
    ghost var rest, budget: nat := input.Rest(), input.budget;
    var oldLimit;
    ok, oldLimit := input.EnterMessage();
    if !ok {
      return;
    }
    ghost var inner := input.Rest();
    ok := item.MergePartialFromCodedStream(input);
    MessageOutcome(FieldMsg, rest, budget, inner, ok && input.legitimateEnd, item.Contents());
    if !ok {
      return;
    }
    ok := input.LeaveMessage(oldLimit);
  }

  /** A setter that runs after the sizes were computed leaves the cached size right if and only if the encoding keeps
      its length: for a string, if it was present with a string of the same length. */
  method SizeThenSetName(item: TableField, value: bytes)
    requires item.Valid() && |Encode(FieldMsg, item.Contents())| <= INT_MAX
    modifies item
    ensures item.Valid() && item.data.name == value
    ensures item.cachedSize == |Encode(FieldMsg, item.Contents())|
       <==> old(item.data.hasBits.b0) && |old(item.data.name)| == |value|
  {
    hide *;
    ghost var m, d := item.Contents(), item.data;
    var size := item.ByteSizeLong();
    CachedSizeIs(size, |Encode(FieldMsg, m)|);
    item.Unfold();
    FieldSlots();
    NameSlot(d);
    item.SetName(value);
    SameSizeExactly(FieldMsg, m, 0, Scalar(Some(Text(value))));
    SameTextSize(FieldSpec(1, Str), d.hasBits.b0, d.name, value);
  }

  lemma NameSlot(d: FieldData)
    ensures |View(d).slots| == 9 && View(d).slots[0] == Optional(d.hasBits.b0, Text(d.name))
  {
    hide Optional;
  }
}
