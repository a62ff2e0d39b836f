/** Repeated schema fields: what the containing message does with all of them. */
module MysqlSchemaLists {
  import opened Options
  import opened Wire
  import opened Schema
  import opened Sizes
  import opened Streams
  import opened Effects
  import opened Writers
  import opened MysqlSchemas

  /** The items are valid objects with the given values; the trees below them lie apart, inside `repr`. */
  ghost predicate ListOk(items: seq<MysqlSchema>, msgs: seq<Msg>, repr: set<object>)
    reads items, repr
  {
    && |items| == |msgs|
    && (forall i :: 0 <= i < |items| ==> items[i] in items[i].Repr && items[i].Repr <= repr)
    && (forall i :: 0 <= i < |items| ==> items[i].Valid() && items[i].Contents() == msgs[i])
    && (forall i, j :: 0 <= i < j < |items| ==> items[i].Repr !! items[j].Repr)
  }

  /** Every item has its own encoded size cached, and so has every message below it. */
  ghost predicate SizesRight(items: seq<MysqlSchema>, msgs: seq<Msg>, repr: set<object>)
    requires ListOk(items, msgs, repr)
    reads items, repr
  {
    forall i :: 0 <= i < |items| ==> SizeRight(items[i], msgs[i])
  }

  ghost predicate SizeRight(item: MysqlSchema, m: Msg)
    requires item.Valid()
    reads item, item.Repr
  {
    item.cachedSize == |Encode(SchemaMsg, m)| && item.CachesRight()
  }

  lemma ListAppend(a: seq<MysqlSchema>, x: seq<Msg>, r: set<object>, b: seq<MysqlSchema>, y: seq<Msg>, s: set<object>)
    requires ListOk(a, x, r) && ListOk(b, y, s) && r !! s
    ensures ListOk(a + b, x + y, r + s)
  {
    hide MysqlSchema.Valid, MysqlSchema.Contents;
  }

  lemma Inside(item: MysqlSchema)
    requires item.Valid()
    ensures item in item.Repr
  {
  }

  lemma ListOne(item: MysqlSchema)
    requires item.Valid()
    ensures item in item.Repr && ListOk([item], [item.Contents()], item.Repr)
  {
    Inside(item);
    hide MysqlSchema.Valid, MysqlSchema.Contents;
  }

  /** Adds up the sizes of all items, which caches the size of every message below them. */
  method SizeAll(items: seq<MysqlSchema>, ghost msgs: seq<Msg>, ghost repr: set<object>, ghost tag: nat) returns (total: nat)
    requires ListOk(items, msgs, repr) && tag < 128
    modifies repr
    ensures ListOk(items, msgs, repr)
    ensures Agrees(total, |EncodeMessages(tag, SchemaMsg, msgs)|)
    ensures |EncodeMessages(tag, SchemaMsg, msgs)| <= INT_MAX ==> SizesRight(items, msgs, repr)
  {
    hide MysqlSchema.Valid, MysqlSchema.Contents, MysqlSchema.CachesRight, Encode, EncodeMessages, LengthDelimitedSize, Agrees, ToCachedSize;
    total := |items|;
    ghost var sum: nat := 0;
    NoMessages(tag, SchemaMsg, msgs);
    AgreesSame(0);
    for i := 0 to |items|
      invariant ListOk(items, msgs, repr)
      invariant total == |items| - i + sum && Agrees(sum, |EncodeMessages(tag, SchemaMsg, msgs[..i])|)
      invariant forall j :: 0 <= j < i && |Encode(SchemaMsg, msgs[j])| <= INT_MAX ==> SizeRight(items[j], msgs[j])
    {
      var size := items[i].ByteSizeLong();
      CachedSizeIs(size, |Encode(SchemaMsg, msgs[i])|);
      MessageSizeAgrees(tag, SchemaMsg, msgs, i, sum, size);
      total := total + LengthDelimitedSize(size);
      sum := sum + 1 + LengthDelimitedSize(size);
    }
    assert msgs[..|msgs|] == msgs;
    forall i | 0 <= i < |msgs| ensures |Encode(SchemaMsg, msgs[i])| <= |EncodeMessages(tag, SchemaMsg, msgs)| {
      MessageWithin(tag, SchemaMsg, msgs, i);
    }
  }

  /** One item: tag, cached size, and the item itself, in place when the buffer has room for that size. */
  method WriteMessage(tag: nat, item: MysqlSchema, output: CodedOutputStream)
    requires item.Valid() && SizeRight(item, item.Contents()) && output !in item.Repr
    modifies output
    ensures output.written == old(output.written) + (Varint(tag) + Block(Encode(SchemaMsg, item.Contents())))
  {
    hide MysqlSchema.Valid, MysqlSchema.Contents, MysqlSchema.CachesRight, Encode, Varint, Wrote;
    ghost var body := Encode(SchemaMsg, item.Contents());
    output.WriteVarint(tag);
    var size := item.cachedSize;
    output.WriteVarint(size);
    var direct := output.HasDirectBuffer(size);
    if direct {
      var buffer := new byte[size];
      ghost var before := buffer[..];
      var end := item.InternalSerializeWithCachedSizesToArray(buffer, 0);
      WroteAll(before, buffer[..], body);
      output.WriteRaw(buffer[..]);
    } else {
      item.SerializeWithCachedSizes(output);
    }
  }

  method WriteAll(tag: nat, items: seq<MysqlSchema>, ghost msgs: seq<Msg>, ghost repr: set<object>, output: CodedOutputStream)
    requires ListOk(items, msgs, repr) && SizesRight(items, msgs, repr) && output !in repr
    modifies output
    ensures output.written == old(output.written) + EncodeMessages(tag, SchemaMsg, msgs)
  {
    hide MysqlSchema.Valid, MysqlSchema.Contents, SizeRight, Encode, EncodeMessages, Varint, Block;
    ghost var start := output.written;
    NoMessages(tag, SchemaMsg, msgs);
    for i := 0 to |items|
      invariant ListOk(items, msgs, repr) && SizesRight(items, msgs, repr)
      invariant output.written == start + EncodeMessages(tag, SchemaMsg, msgs[..i])
    {
      WriteMessage(tag, items[i], output);
      EncodeMessagesNext(tag, SchemaMsg, msgs, i);
    }
    assert msgs[..|msgs|] == msgs;
  }

  method WriteAllToArray(target: array<byte>, pos: nat, tag: nat, items: seq<MysqlSchema>, ghost msgs: seq<Msg>,
                         ghost repr: set<object>)
    returns (end: nat)
    requires ListOk(items, msgs, repr) && SizesRight(items, msgs, repr) && target !in repr
    requires pos + |EncodeMessages(tag, SchemaMsg, msgs)| <= target.Length
    modifies target
    ensures end == pos + |EncodeMessages(tag, SchemaMsg, msgs)|
    ensures Wrote(old(target[..]), target[..], pos, EncodeMessages(tag, SchemaMsg, msgs))
  {
    hide MysqlSchema.Valid, MysqlSchema.Contents, SizeRight, Encode, EncodeMessages, Varint, Wrote;
    end := pos;
    ghost var start := target[..];
    WroteNothing(start, pos);
    NoMessages(tag, SchemaMsg, msgs);
    for i := 0 to |items|
      invariant ListOk(items, msgs, repr) && SizesRight(items, msgs, repr)
      invariant end == pos + |EncodeMessages(tag, SchemaMsg, msgs[..i])|
      invariant Wrote(start, target[..], pos, EncodeMessages(tag, SchemaMsg, msgs[..i]))
    {
      EncodeMessagesNext(tag, SchemaMsg, msgs, i);
      EncodeMessagesPrefix(tag, SchemaMsg, msgs, i + 1);
      ghost var now := target[..];
      end := WriteMessageToArray(target, end, tag, items[i]);
      WroteThen(start, now, target[..], pos, EncodeMessages(tag, SchemaMsg, msgs[..i]),
                Varint(tag) + Block(Encode(SchemaMsg, msgs[i])));
    }
    assert msgs[..|msgs|] == msgs;
  }

  /** One item in place: tag, cached size, and the item. */
  method WriteMessageToArray(target: array<byte>, pos: nat, tag: nat, item: MysqlSchema) returns (end: nat)
    requires item.Valid() && SizeRight(item, item.Contents()) && target !in item.Repr
    requires pos + |Varint(tag) + Block(Encode(SchemaMsg, item.Contents()))| <= target.Length
    modifies target
    ensures end == pos + |Varint(tag) + Block(Encode(SchemaMsg, item.Contents()))|
    ensures Wrote(old(target[..]), target[..], pos, Varint(tag) + Block(Encode(SchemaMsg, item.Contents())))
  {
    hide *;
    SizeIs(item);
    ghost var body := Encode(SchemaMsg, item.Contents());
    BlockIs(body);
    ghost var a := target[..];
    end := WriteVarintToArray(target, pos, tag);
    ghost var b := target[..];
    end := WriteVarintToArray(target, end, item.cachedSize);
    WroteThen(a, b, target[..], pos, Varint(tag), Varint(|body|));
    b := target[..];
    end := item.InternalSerializeWithCachedSizesToArray(target, end);
    WroteThen(a, b, target[..], pos, Varint(tag) + Varint(|body|), body);
    assert Varint(tag) + Varint(|body|) + body == Varint(tag) + Block(body);
  }

  lemma SizeIs(item: MysqlSchema)
    requires item.Valid() && SizeRight(item, item.Contents())
    ensures item.cachedSize == |Encode(SchemaMsg, item.Contents())| && item.CachesRight()
  {
    hide MysqlSchema.Valid, MysqlSchema.Contents, MysqlSchema.CachesRight, Encode;
  }

  /** Fresh copies of all items. */
  method CopyAll(items: seq<MysqlSchema>, ghost msgs: seq<Msg>, ghost repr: set<object>)
    returns (copies: seq<MysqlSchema>, ghost copyRepr: set<object>)
    requires ListOk(items, msgs, repr)
    ensures ListOk(copies, msgs, copyRepr) && fresh(copyRepr)
  {
    hide MysqlSchema.Valid, MysqlSchema.Contents, Merge, Empty;
    copies, copyRepr := [], {};
    for i := 0 to |items|
      invariant |copies| == i && ListOk(copies, msgs[..i], copyRepr) && fresh(copyRepr)
      invariant ListOk(items, msgs, repr)
    {
      var copy := new MysqlSchema();
      copy.CopyFrom(items[i]);
      ListOne(copy);
      ListAppend(copies, msgs[..i], copyRepr, [copy], [msgs[i]], copy.Repr);
      copies, copyRepr := copies + [copy], copyRepr + copy.Repr;
      assert msgs[..i] + [msgs[i]] == msgs[..i + 1];
    }
    assert msgs[..|msgs|] == msgs;
  }

  /** Reads one length-prefixed item into a cleared object. */
  method ReadItem(input: CodedInputStream, item: MysqlSchema) returns (ok: bool)
    requires item.Valid() && item.Contents() == Empty(SchemaMsg) && input !in item.Repr
    requires input.Valid() && input.budget >= 0 && !input.legitimateEnd
    modifies item, input
    ensures item.Valid() && fresh(item.Repr - old(item.Repr)) && input.Valid() && input.pos >= old(input.pos)
    ensures ok ==> input.limit == old(input.limit) && input.budget == old(input.budget) && !input.legitimateEnd
    ensures ok ==> input.pos - old(input.pos) <= |old(input.Rest())|
    ensures ok ==> input.Rest() == old(input.Rest())[input.pos - old(input.pos)..]
    ensures MessageRead(SchemaMsg, old(input.Rest()), old(input.budget), ok, input.pos - old(input.pos), item.Contents())
  {
    hide MysqlSchema.Valid, MysqlSchema.Contents, Parse, ReadExtent, Empty;
    ghost var rest, budget: nat := input.Rest(), input.budget;
    var oldLimit;
    ok, oldLimit := input.EnterMessage();
    if !ok {
      return;
    }
    ghost var inner := input.Rest();
    ok := item.MergePartialFromCodedStream(input);
    MessageOutcome(SchemaMsg, rest, budget, inner, ok && input.legitimateEnd, item.Contents());
    if !ok {
      return;
    }
    ok := input.LeaveMessage(oldLimit);
  }
}
