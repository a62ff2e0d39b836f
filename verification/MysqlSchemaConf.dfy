/** The generated class for a whole configuration, the root message, and its entry points. */
module MysqlSchemaConfs {
  import opened Options
  import opened Wire
  import opened Schema
  import opened Sizes
  import opened Streams
  import opened Effects
  import opened Writers
  import S = MysqlSchemas
  import Schemas = MysqlSchemaLists
  import MergeLaws
  import RoundTrip

  function View(unknown: seq<Unknown>, schemas: seq<Msg>): Msg { Msg([Msgs(schemas)], unknown) }

  lemma SchemaAdded(unknown: seq<Unknown>, schemas: seq<Msg>, m: Msg)
    ensures View(unknown, schemas + [m]) == WithSlot(View(unknown, schemas), 0, Msgs(schemas + [m]))
  {
  }

  lemma ViewIs(unknown: seq<Unknown>, schemas: seq<Msg>)
    ensures View(unknown, schemas).slots == [Msgs(schemas)] && View(unknown, schemas).unknown == unknown
    ensures Shape(ConfMsg, View(unknown, schemas))
  {
  }

  lemma ConfSlots()
    ensures Fields(ConfMsg) == [FieldSpec(1, Messages(SchemaMsg))] && |Fields(ConfMsg)| == 1
  {
  }

  lemma DefaultIsEmpty()
    ensures View([], []) == Empty(ConfMsg)
  {
  }

  lemma MergeMerges(unknown: seq<Unknown>, schemas: seq<Msg>, moreUnknown: seq<Unknown>, more: seq<Msg>)
    ensures View(unknown + moreUnknown, schemas + more) == Merge(View(unknown, schemas), View(moreUnknown, more))
  {
    assert View(unknown + moreUnknown, schemas + more).slots
        == Merge(View(unknown, schemas), View(moreUnknown, more)).slots;
  }

  lemma UnknownAppended(unknown: seq<Unknown>, more: seq<Unknown>)
    requires AllSized(unknown) && AllSized(more)
    ensures AllSized(unknown + more)
  {
    hide Sized;
  }

  lemma EncodeIs(unknown: seq<Unknown>, schemas: seq<Msg>)
    ensures Encode(ConfMsg, View(unknown, schemas)) == EncodeMessages(10, SchemaMsg, schemas) + EncodeUnknowns(unknown)
  {
    hide *;
    ConfSlots();
    ViewIs(unknown, schemas);
    MessagesField(1, SchemaMsg, schemas);
    EncodeNone(ConfMsg, View(unknown, schemas));
    EncodeNext(ConfMsg, View(unknown, schemas), 0);
  }

  lemma ConfSizeAgrees(unknown: seq<Unknown>, schemas: seq<Msg>, repeated: nat)
    requires AllSized(unknown) && Agrees(repeated, |EncodeMessages(10, SchemaMsg, schemas)|)
    ensures Agrees(UnknownFieldsSize(unknown) + repeated, |Encode(ConfMsg, View(unknown, schemas))|)
    ensures |EncodeMessages(10, SchemaMsg, schemas)| <= |Encode(ConfMsg, View(unknown, schemas))|
  {
    hide *;
    EncodeIs(unknown, schemas);
    UnknownFieldsSizeAgrees(unknown);
    AgreesSum(UnknownFieldsSize(unknown), |EncodeUnknowns(unknown)|, repeated, |EncodeMessages(10, SchemaMsg, schemas)|);
  }

  class MysqlSchemaConf {
    var unknown: seq<Unknown>
    var schemas: seq<S.MysqlSchema>
    var cachedSize: int
    ghost var schemaMsgs: seq<Msg>
    ghost var Repr: set<object>

    ghost function Contents(): Msg
      reads this`unknown, this`schemaMsgs
    {
      View(unknown, schemaMsgs)
    }

    ghost predicate Valid()
      reads this, Repr
    {
      this in Repr && AllSized(unknown) && Owns(Repr - {this}, schemas, schemaMsgs)
    }

    /** The trees of the schemas lie in `repr` and have the given values. */
    static ghost predicate Owns(repr: set<object>, schemas: seq<S.MysqlSchema>, schemaMsgs: seq<Msg>)
      reads repr
    {
      (forall i :: 0 <= i < |schemas| ==> schemas[i] in repr) && Schemas.ListOk(schemas, schemaMsgs, repr)
    }

    /** Every message below this one has its own encoded size cached. */
    ghost predicate CachesRight()
      requires Valid()
      reads this, Repr
    {
      Schemas.SizesRight(schemas, schemaMsgs, Repr - {this})
    }

    lemma Unfold()
      ensures Valid() <==> this in Repr && AllSized(unknown) && Owns(Repr - {this}, schemas, schemaMsgs)
      ensures Valid() ==> Schemas.ListOk(schemas, schemaMsgs, Repr - {this})
      ensures Valid() ==> |schemas| == |schemaMsgs|
      ensures Valid() ==> (CachesRight() <==> Schemas.SizesRight(schemas, schemaMsgs, Repr - {this}))
      ensures Valid() ==> forall i :: 0 <= i < |schemas| ==> schemas[i] in Repr - {this}
      ensures var inside := forall i :: 0 <= i < |schemas| ==> schemas[i] in Repr - {this};
              Owns(Repr - {this}, schemas, schemaMsgs) == (inside && Schemas.ListOk(schemas, schemaMsgs, Repr - {this}))
      ensures Contents() == View(unknown, schemaMsgs)
    {
      hide View, AllSized, S.MysqlSchema.Valid, S.MysqlSchema.Contents;
    }

    constructor ()
      ensures Valid() && Contents() == Empty(ConfMsg) && Repr == {this} && cachedSize == 0
      ensures unknown == [] && schemas == []
    {
      DefaultIsEmpty();
      hide View, Empty;
      unknown, schemas, cachedSize := [], [], 0;
      schemaMsgs, Repr := [], {this};
    }

    method Clear()
      requires Valid()
      modifies this`unknown, this`schemas, this`schemaMsgs, this`Repr
      ensures Valid() && Contents() == Empty(ConfMsg) && Repr <= old(Repr)
      ensures unknown == [] && schemas == []
    {
      DefaultIsEmpty();
      hide View, Empty, S.MysqlSchema.Valid, S.MysqlSchema.Contents;
      schemas, schemaMsgs, Repr := [], [], {this};
      unknown := [];
    }

    /** New schemas become the last ones. */
    method AddSchemas(items: seq<S.MysqlSchema>, ghost msgs: seq<Msg>, ghost repr: set<object>)
      requires Valid() && Schemas.ListOk(items, msgs, repr) && repr !! Repr
      modifies this`schemas, this`schemaMsgs, this`Repr
      ensures Valid() && schemas == old(schemas) + items && schemaMsgs == old(schemaMsgs) + msgs
      ensures Repr == old(Repr) + repr
    {
      hide AllSized, S.MysqlSchema.Valid, S.MysqlSchema.Contents;
      Schemas.ListAppend(schemas, schemaMsgs, Repr - {this}, items, msgs, repr);
      schemas, schemaMsgs, Repr := schemas + items, schemaMsgs + msgs, Repr + repr;
      assert Repr - {this} == old(Repr) - {this} + repr;
    }

    method MergeFrom(from: MysqlSchemaConf)
      requires Valid() && from.Valid() && Repr !! from.Repr
      modifies this`unknown, this`schemas, this`schemaMsgs, this`Repr
      ensures Valid() && Contents() == Merge(old(Contents()), from.Contents())
      ensures fresh(Repr - old(Repr))
    {
      hide View, Merge, AllSized, Owns;
      Unfold();
      from.Unfold();
      MergeMerges(unknown, schemaMsgs, from.unknown, from.schemaMsgs);
      UnknownAppended(unknown, from.unknown);
      unknown := unknown + from.unknown;
      var newSchemas;
      ghost var newRepr;
      newSchemas, newRepr := Schemas.CopyAll(from.schemas, from.schemaMsgs, from.Repr - {from});
      AddSchemas(newSchemas, from.schemaMsgs, newRepr);
    }

    method CopyFrom(from: MysqlSchemaConf)
      requires Valid() && from.Valid() && (from == this || Repr !! from.Repr)
      modifies this`unknown, this`schemas, this`schemaMsgs, this`Repr
      ensures Valid() && Contents() == old(from.Contents())
      ensures fresh(Repr - old(Repr))
    {
      hide View, AllSized, Merge, Empty, Owns;
      if from == this {
        return;
      }
      Clear();
      MergeFrom(from);
      ViewIs(from.unknown, from.schemaMsgs);
      MergeLaws.EmptyMerge(ConfMsg, from.Contents());
    }

    method Swap(other: MysqlSchemaConf)
      requires Valid() && other.Valid() && (other == this || Repr !! other.Repr)
      modifies this, other
      ensures Valid() && other.Valid()
      ensures Contents() == old(other.Contents()) && other.Contents() == old(Contents())
      ensures cachedSize == old(other.cachedSize) && other.cachedSize == old(cachedSize)
      ensures other == this || Repr !! other.Repr
      ensures Repr + other.Repr == old(Repr + other.Repr)
    {
      hide AllSized, View, Owns;
      if other == this {
        return;
      }
      SwapRepeated(other);
      unknown, other.unknown, cachedSize, other.cachedSize := other.unknown, unknown, other.cachedSize, cachedSize;
      assert Repr - {this} == old(other.Repr) - {other};
      assert other.Repr - {other} == old(Repr) - {this};
    }

    method SwapRepeated(other: MysqlSchemaConf)
      requires other != this
      modifies this`schemas, other`schemas, this`schemaMsgs, other`schemaMsgs, this`Repr, other`Repr
      ensures schemas == old(other.schemas) && other.schemas == old(schemas)
      ensures schemaMsgs == old(other.schemaMsgs) && other.schemaMsgs == old(schemaMsgs)
      ensures Repr == old(other.Repr) - {other} + {this} && other.Repr == old(Repr) - {this} + {other}
    {
      schemas, other.schemas, schemaMsgs, other.schemaMsgs := other.schemas, schemas, other.schemaMsgs, schemaMsgs;
      Repr, other.Repr := other.Repr - {other} + {this}, Repr - {this} + {other};
    }

    // ----- the parser -----

    method ReadSchemas(input: CodedInputStream) returns (ok: bool)
      requires Valid() && input.Valid() && input.budget >= 0 && !input.legitimateEnd && input !in Repr
      modifies this`schemas, this`schemaMsgs, this`Repr, input
      ensures Valid() && fresh(Repr - old(Repr)) && input.Moved(old(input.pos), old(input.Rest()), ok)
      ensures ok ==> input.limit == old(input.limit) && input.budget == old(input.budget) && !input.legitimateEnd
      ensures Absorbs(ConfMsg, 0, old(input.Rest()), old(input.budget), ok, input.pos - old(input.pos),
                      old(Contents()), Contents())
    {
      ConfSlots();
      ViewIs(unknown, schemaMsgs);
      hide DecodeVarint, ReadBlock, Fields, ReadKnown, Absorbs, View, AllSized, Owns, MessageRead, Empty,
           S.MysqlSchema.Valid, S.MysqlSchema.Contents, Schemas.ListOk;
      var item := new S.MysqlSchema();
      ok := Schemas.ReadItem(input, item);
      ghost var m := item.Contents();
      Schemas.ListOne(item);
      SchemaAdded(unknown, schemaMsgs, m);
      AddSchemas([item], [m], item.Repr);
      AbsorbsMessage(ConfMsg, 0, SchemaMsg, old(input.Rest()), old(input.budget), ok, m, input.pos - old(input.pos),
                     old(Contents()), Contents());
    }

    method SkipUnknown(tag: nat, input: CodedInputStream) returns (ok: bool)
      requires Valid() && input.Valid() && input.budget >= 0 && tag < TWO_32 && input !in Repr
      modifies this`unknown, input
      ensures Valid() && input.Moved(old(input.pos), old(input.Rest()), ok) && input.limit == old(input.limit)
      ensures ok ==> input.budget == old(input.budget) && input.legitimateEnd == old(input.legitimateEnd)
      ensures Skipped(tag, old(input.Rest()), old(input.budget), ok, input.pos - old(input.pos),
                      old(Contents()), Contents())
    {
      hide Wire.SkipField, AllSized, Owns;
      ok, unknown := input.SkipField(tag, unknown);
    }

    method MergePartialFromCodedStream(input: CodedInputStream) returns (ok: bool)
      requires Valid() && input.Valid() && input.budget >= 0 && !input.legitimateEnd && input !in Repr
      modifies this`unknown, this`schemas, this`schemaMsgs, this`Repr, input
      ensures Valid() && fresh(Repr - old(Repr)) && input.Valid() && input.pos >= old(input.pos)
      ensures ok ==> input.limit == old(input.limit)
      ensures Outcome(ConfMsg, old(Contents()), old(input.Rest()), old(input.budget), ok && input.legitimateEnd, Contents())
      ensures ok && input.legitimateEnd ==> input.pos == input.limit && input.budget == old(input.budget)
    {
      hide View, AllSized, Owns, Parse, TagAt, Absorbs, Wire.SkipField, Outcome, Apply;
      ghost var budget: nat := input.budget;
      ghost var start, before := input.Rest(), Contents();
      while true
        invariant Valid() && fresh(Repr - old(Repr)) && input !in Repr
        invariant input.Valid() && input.limit == old(input.limit) && input.pos >= old(input.pos)
        invariant input.budget == budget && !input.legitimateEnd
        invariant Parse(ConfMsg, before, start, budget) == Parse(ConfMsg, Contents(), input.Rest(), budget)
        decreases input.limit - input.pos
      {
        ghost var rest, at, now := input.Rest(), input.pos, Contents();
        var tag := input.ReadTag();
        if tag == 0 {
          EndStep(ConfMsg, now, rest, budget);
          TagOutcome(ConfMsg, before, now, start, rest, budget, rest == [], now);
          return true;
        }
        ghost var n := input.pos - at;
        if tag == 10 {
          ok := ReadSchemas(input);
          KnownStep(ConfMsg, now, Contents(), rest, tag, n, ok, input.pos - at - n, budget);
        } else {
          ok := SkipUnknown(tag, input);
          UnknownStep(ConfMsg, now, rest, tag, n, budget);
        }
        if !ok {
          ParseFailed(ConfMsg, before, now, start, rest, budget, Contents());
          return false;
        }
      }
    }

    // ----- sizes and serializers -----

    /** The size of the serialized message; the size of every message in the tree is cached on the way. */
    method ByteSizeLong() returns (total: nat)
      requires Valid()
      modifies Repr
      ensures Valid() && Contents() == old(Contents()) && Repr == old(Repr)
      ensures Agrees(total, |Encode(ConfMsg, Contents())|) && cachedSize == ToCachedSize(total)
      ensures |Encode(ConfMsg, Contents())| <= INT_MAX ==> CachesRight()
    {
      hide *;
      Unfold();
      total := UnknownFieldsSize(unknown);
      var repeated := Schemas.SizeAll(schemas, schemaMsgs, Repr - {this}, 10);
      ConfSizeAgrees(unknown, schemaMsgs, repeated);
      total := total + repeated;
      Unfold();
      cachedSize := ToCachedSize(total);
      Unfold();
    }

    method SerializeWithCachedSizes(output: CodedOutputStream)
      requires Valid() && CachesRight() && output !in Repr
      modifies output
      ensures output.written == old(output.written) + Encode(ConfMsg, Contents())
    {
      hide *;
      Unfold();
      EncodeIs(unknown, schemaMsgs);
      Schemas.WriteAll(10, schemas, schemaMsgs, Repr - {this}, output);
      output.WriteUnknownFields(unknown);
    }

    method InternalSerializeWithCachedSizesToArray(target: array<byte>, pos: nat) returns (end: nat)
      requires Valid() && CachesRight() && target !in Repr
      requires pos + |Encode(ConfMsg, Contents())| <= target.Length
      modifies target
      ensures end == pos + |Encode(ConfMsg, Contents())|
      ensures Wrote(old(target[..]), target[..], pos, Encode(ConfMsg, Contents()))
    {
      hide *;
      Unfold();
      EncodeIs(unknown, schemaMsgs);
      ghost var a := target[..];
      end := Schemas.WriteAllToArray(target, pos, 10, schemas, schemaMsgs, Repr - {this});
      end := AppendUnknownFieldsToArray(target, end, unknown, a, pos, EncodeMessages(10, SchemaMsg, schemaMsgs));
    }

    // ----- entry points -----

    /** Parses a whole buffer into the cleared message. */
    method ParseFromArray(data: bytes) returns (ok: bool)
      requires Valid() && |data| <= INT_MAX
      modifies this`unknown, this`schemas, this`schemaMsgs, this`Repr
      ensures Valid() && fresh(Repr - old(Repr))
      ensures Outcome(ConfMsg, Empty(ConfMsg), data, 100, ok, Contents())
    {
      hide View, AllSized, Owns, Parse, Outcome, Empty;
      var input := new CodedInputStream(data);
      Clear();
      ok := MergePartialFromCodedStream(input);
      ok := ok && input.legitimateEnd;
    }

    /** Appends the serialized message to `output`, which fails exactly when it is longer than 2 GB.
        The bytes produced are always as many as were counted. */
    method AppendPartialToString(output: bytes) returns (ok: bool, result: bytes)
      requires Valid()
      modifies Repr
      ensures Valid() && Contents() == old(Contents()) && Repr == old(Repr)
      ensures ok <==> |Encode(ConfMsg, Contents())| <= INT_MAX
      ensures result == if ok then output + Encode(ConfMsg, Contents()) else output
    {
      hide View, AllSized, Owns, Encode, Wrote, ToCachedSize, CachesRight;
      var size := ByteSizeLong();
      if size > INT_MAX {
        return false, output;
      }
      var target := new byte[size];
      ghost var before := target[..];
      var end := InternalSerializeWithCachedSizesToArray(target, 0);
      assert end - 0 == size;
      WroteAll(before, target[..], Encode(ConfMsg, Contents()));
      return true, output + target[..];
    }

    /** The same through a coded stream, in place when its buffer has room for the whole message. */
    method SerializePartialToCodedStream(output: CodedOutputStream) returns (ok: bool)
      requires Valid() && output !in Repr
      modifies Repr, output
      ensures Valid() && Contents() == old(Contents()) && Repr == old(Repr)
      ensures ok <==> |Encode(ConfMsg, Contents())| <= INT_MAX
      ensures output.written == old(output.written) + if ok then Encode(ConfMsg, Contents()) else []
    {
      hide View, AllSized, Owns, Encode, Wrote, ToCachedSize, CachesRight;
      var size := ByteSizeLong();
      if size > INT_MAX {
        return false;
      }
      var direct := output.HasDirectBuffer(size);
      if direct {
        var buffer := new byte[size];
        ghost var before := buffer[..];
        var end := InternalSerializeWithCachedSizesToArray(buffer, 0);
        WroteAll(before, buffer[..], Encode(ConfMsg, Contents()));
        output.WriteRaw(buffer[..]);
      } else {
        SerializeWithCachedSizes(output);
      }
      ok := true;
    }
  }

  /** Serializing one tree and parsing the bytes into another object copies it, exactly when the tree is well formed. */
  method CopyThroughBytes(from: MysqlSchemaConf, to: MysqlSchemaConf) returns (ok: bool)
    requires from.Valid() && to.Valid() && from.Repr !! to.Repr
    requires |Encode(ConfMsg, from.Contents())| <= INT_MAX
    modifies from.Repr, to
    ensures to.Valid() && from.Valid() && from.Contents() == old(from.Contents())
    ensures ok && to.Contents() == from.Contents() <==> WellFormed(ConfMsg, from.Contents(), 100)
  {
    hide MysqlSchemaConf.Valid, MysqlSchemaConf.Contents, Encode, Empty, Parse, WellFormed;
    from.Unfold();
    to.Unfold();
    var data;
    ok, data := from.AppendPartialToString([]);
    assert data == Encode(ConfMsg, from.Contents());
    ok := to.ParseFromArray(data);
    RoundTrip.RoundTripExactly(ConfMsg, from.Contents(), 100);
  }

  /** Parsing the bytes of two trees written one after the other gives what merging the second into a copy
      of the first gives. */
  method MergeThroughBytes(a: MysqlSchemaConf, b: MysqlSchemaConf, to: MysqlSchemaConf) returns (ok: bool)
    requires a.Valid() && b.Valid() && to.Valid()
    requires a.Repr !! b.Repr && a.Repr !! to.Repr && b.Repr !! to.Repr
    requires WellFormed(ConfMsg, a.Contents(), 100) && WellFormed(ConfMsg, b.Contents(), 100)
    requires |Encode(ConfMsg, a.Contents())| + |Encode(ConfMsg, b.Contents())| <= INT_MAX
    modifies a.Repr, b.Repr, to
    ensures a.Valid() && b.Valid() && to.Valid()
    ensures a.Contents() == old(a.Contents()) && b.Contents() == old(b.Contents())
    ensures ok && to.Contents() == Merge(a.Contents(), b.Contents())
  {
    hide *;
    a.Unfold();
    b.Unfold();
    to.Unfold();
    var data;
    ok, data := a.AppendPartialToString([]);
    assert data == Encode(ConfMsg, a.Contents());
    ok, data := b.AppendPartialToString(data);
    ok := to.ParseFromArray(data);
    RoundTrip.ConcatenatedMessagesMerge(ConfMsg, a.Contents(), b.Contents(), 100);
    ParsedTo(ConfMsg, Empty(ConfMsg), data, 100, ok, to.Contents(), Merge(a.Contents(), b.Contents()));
  }
}
