/** The generated class for a table: a scalar and two repeated message fields. */
module MysqlTables {
  import opened Options
  import opened Wire
  import opened Schema
  import opened Sizes
  import opened Streams
  import opened Effects
  import opened Writers
  import F = TableFields
  import K = TableKeys
  import Columns = TableFieldLists
  import Keys = TableKeyLists
  import MergeLaws

  // ----- the members that are not repeated -----

  datatype TableData = TableData(hasBits: HasBits, tableName: bytes, unknown: seq<Unknown>)

  const DEFAULT := TableData(NO_BITS, [], [])

  function View(d: TableData, fields: seq<Msg>, keys: seq<Msg>): Msg {
    Msg([Optional(d.hasBits.b0, Text(d.tableName)), Msgs(fields), Msgs(keys)], d.unknown)
  }

  /** A field whose presence bit is clear holds its default. */
  predicate DataOk(d: TableData) {
    (!d.hasBits.b0 ==> d.tableName == []) && AllSized(d.unknown)
  }

  function WithTableName(d: TableData, v: bytes): TableData {
    d.(hasBits := d.hasBits.(b0 := true), tableName := v)
  }

  lemma WithTableNameSets(d: TableData, fields: seq<Msg>, keys: seq<Msg>, v: bytes)
    requires DataOk(d)
    ensures DataOk(WithTableName(d, v))
    ensures View(WithTableName(d, v), fields, keys) == WithSlot(View(d, fields, keys), 0, Scalar(Some(Text(v))))
  {
    hide AllSized;
  }

  function WithoutTableName(d: TableData): TableData { d.(hasBits := d.hasBits.(b0 := false), tableName := []) }

  lemma WithoutTableNameClears(d: TableData, fields: seq<Msg>, keys: seq<Msg>)
    requires DataOk(d)
    ensures DataOk(WithoutTableName(d)) && View(WithoutTableName(d), fields, keys) == WithSlot(View(d, fields, keys), 0, Scalar(None))
  {
    hide AllSized;
  }

  lemma FieldAdded(d: TableData, fields: seq<Msg>, keys: seq<Msg>, m: Msg)
    ensures View(d, fields + [m], keys) == WithSlot(View(d, fields, keys), 1, Msgs(fields + [m]))
  {
    hide Optional;
  }

  lemma KeyAdded(d: TableData, fields: seq<Msg>, keys: seq<Msg>, m: Msg)
    ensures View(d, fields, keys + [m]) == WithSlot(View(d, fields, keys), 2, Msgs(keys + [m]))
  {
    hide Optional;
  }

  lemma UnknownReplaced(d: TableData, fields: seq<Msg>, keys: seq<Msg>, us: seq<Unknown>)
    requires DataOk(d)
    ensures AllSized(d.unknown)
    ensures AllSized(us) ==> DataOk(d.(unknown := us))
    ensures View(d.(unknown := us), fields, keys) == View(d, fields, keys).(unknown := us)
  {
    hide Sized;
  }

  lemma ViewIs(d: TableData, fields: seq<Msg>, keys: seq<Msg>)
    ensures View(d, fields, keys).slots == [Optional(d.hasBits.b0, Text(d.tableName)), Msgs(fields), Msgs(keys)]
    ensures View(d, fields, keys).unknown == d.unknown
    ensures Shape(TableMsg, View(d, fields, keys))
  {
  }

  lemma TableSlots()
    ensures Fields(TableMsg) == [FieldSpec(1, Str), FieldSpec(2, Messages(FieldMsg)), FieldSpec(3, Messages(KeyMsg))]
    ensures |Fields(TableMsg)| == 3
  {
  }

  lemma DefaultIsEmpty()
    ensures DataOk(DEFAULT) && View(DEFAULT, [], []) == Empty(TableMsg)
  {
  }

  function MergeData(d: TableData, e: TableData): TableData {
    TableData(if e.hasBits.b0 then d.hasBits.(b0 := true) else d.hasBits,
              if e.hasBits.b0 then e.tableName else d.tableName, d.unknown + e.unknown)
  }

  lemma MergeDataMerges(d: TableData, fields: seq<Msg>, keys: seq<Msg>, e: TableData, moreFields: seq<Msg>, moreKeys: seq<Msg>)
    requires DataOk(d) && DataOk(e)
    ensures DataOk(MergeData(d, e))
    ensures View(MergeData(d, e), fields + moreFields, keys + moreKeys)
         == Merge(View(d, fields, keys), View(e, moreFields, moreKeys))
  {
    MergeKeepsOk(d, e);
    OptionalMerge(d.hasBits.b0, Text(d.tableName), e.hasBits.b0, Text(e.tableName));
    hide DataOk, Optional;
    assert View(MergeData(d, e), fields + moreFields, keys + moreKeys).slots
        == Merge(View(d, fields, keys), View(e, moreFields, moreKeys)).slots;
  }

  lemma MergeKeepsOk(d: TableData, e: TableData)
    requires DataOk(d) && DataOk(e)
    ensures DataOk(MergeData(d, e))
  {
    hide Sized;
  }

  // ----- the serialized form -----

  lemma EncodeIs(d: TableData, fields: seq<Msg>, keys: seq<Msg>)
    ensures Encode(TableMsg, View(d, fields, keys))
         == EncodeField(FieldSpec(1, Str), Optional(d.hasBits.b0, Text(d.tableName)))
          + EncodeMessages(18, FieldMsg, fields) + EncodeMessages(26, KeyMsg, keys) + EncodeUnknowns(d.unknown)
  {
    hide *;
    TableSlots();
    ViewIs(d, fields, keys);
    MessagesField(2, FieldMsg, fields);
    MessagesField(3, KeyMsg, keys);
    var m := View(d, fields, keys);
    EncodeNone(TableMsg, m);
    EncodeNext(TableMsg, m, 0);
    EncodeNext(TableMsg, m, 1);
    EncodeNext(TableMsg, m, 2);
  }

  lemma TableSizeFacts(d: TableData)
    requires DataOk(d)
    ensures Agrees(UnknownFieldsSize(d.unknown), |EncodeUnknowns(d.unknown)|)
    ensures Agrees(ScalarSize(d.hasBits.b0, Text(d.tableName)),
                   |EncodeField(FieldSpec(1, Str), Optional(d.hasBits.b0, Text(d.tableName)))|)
  {
    hide UnknownFieldsSize, EncodeField, Optional, VarintSize, LengthDelimitedSize, Agrees, Sized;
    UnknownFieldsSizeAgrees(d.unknown);
    ScalarSizeAgrees(FieldSpec(1, Str), d.hasBits.b0, Text(d.tableName));
  }

  lemma TableSizeAgrees(d: TableData, fields: seq<Msg>, keys: seq<Msg>, unknown: nat, repeated: nat)
    requires DataOk(d) && unknown == UnknownFieldsSize(d.unknown)
    requires Agrees(repeated, |EncodeMessages(18, FieldMsg, fields)| + |EncodeMessages(26, KeyMsg, keys)|)
    ensures Agrees(unknown + repeated + ScalarSize(d.hasBits.b0, Text(d.tableName)),
                   |Encode(TableMsg, View(d, fields, keys))|)
    ensures |EncodeMessages(18, FieldMsg, fields)| <= |Encode(TableMsg, View(d, fields, keys))|
    ensures |EncodeMessages(26, KeyMsg, keys)| <= |Encode(TableMsg, View(d, fields, keys))|
  {
    hide *;
    EncodeIs(d, fields, keys);
    TableSizeFacts(d);
    var x := |EncodeField(FieldSpec(1, Str), Optional(d.hasBits.b0, Text(d.tableName)))|;
    var y := |EncodeMessages(18, FieldMsg, fields)| + |EncodeMessages(26, KeyMsg, keys)|;
    AgreesSum(unknown, |EncodeUnknowns(d.unknown)|, repeated, y);
    AgreesSum(unknown + repeated, |EncodeUnknowns(d.unknown)| + y,
              ScalarSize(d.hasBits.b0, Text(d.tableName)), x);
  }

  class MysqlTable {
    var data: TableData
    var fields: seq<F.TableField>
    var keys: seq<K.TableKey>
    var cachedSize: int
    ghost var fieldMsgs: seq<Msg>
    ghost var keyMsgs: seq<Msg>
    ghost var Repr: set<object>

    ghost function Contents(): Msg
      reads this`data, this`fieldMsgs, this`keyMsgs
    {
      View(data, fieldMsgs, keyMsgs)
    }

    ghost predicate Valid()
      reads this, Repr
    {
      this in Repr && DataOk(data) && Owns(Repr - {this}, fields, fieldMsgs, keys, keyMsgs)
    }

    /** The columns and keys are valid objects in `repr` with the given values. */
    static ghost predicate Owns(repr: set<object>, fields: seq<F.TableField>, fieldMsgs: seq<Msg>,
                                keys: seq<K.TableKey>, keyMsgs: seq<Msg>)
      reads repr
    {
      && (forall i :: 0 <= i < |fields| ==> fields[i] in repr) && Columns.ListOk(fields, fieldMsgs)
      && (forall i :: 0 <= i < |keys| ==> keys[i] in repr) && Keys.ListOk(keys, keyMsgs)
    }

    /** Every message below this one has its own encoded size cached. */
    ghost predicate CachesRight()
      requires Valid()
      reads this, Repr
    {
      Columns.SizesRight(fields, fieldMsgs) && Keys.SizesRight(keys, keyMsgs)
    }

    lemma Unfold()
      ensures Valid() <==> this in Repr && DataOk(data) && Owns(Repr - {this}, fields, fieldMsgs, keys, keyMsgs)
      ensures Valid() ==> Columns.ListOk(fields, fieldMsgs) && Keys.ListOk(keys, keyMsgs)
      ensures Valid() ==> |fields| == |fieldMsgs| && |keys| == |keyMsgs|
      ensures Valid() ==> forall i :: 0 <= i < |fields| ==> fields[i] in Repr
      ensures Valid() ==> forall i :: 0 <= i < |keys| ==> keys[i] in Repr
      ensures var inside := forall i :: 0 <= i < |fields| ==> fields[i] in Repr - {this};
              var insideToo := forall i :: 0 <= i < |keys| ==> keys[i] in Repr - {this};
              Owns(Repr - {this}, fields, fieldMsgs, keys, keyMsgs)
              == (inside && Columns.ListOk(fields, fieldMsgs) && insideToo && Keys.ListOk(keys, keyMsgs))
      ensures Valid() ==>
                (CachesRight() <==> Columns.SizesRight(fields, fieldMsgs) && Keys.SizesRight(keys, keyMsgs))
      ensures Contents() == View(data, fieldMsgs, keyMsgs)
    {
      hide View, DataOk;
    }

    constructor ()
      ensures Valid() && Contents() == Empty(TableMsg) && Repr == {this} && cachedSize == 0
      ensures data == DEFAULT && fields == [] && keys == []
    {
      DefaultIsEmpty();
      hide DataOk, View, Empty;
      data, fields, keys, cachedSize := DEFAULT, [], [], 0;
      fieldMsgs, keyMsgs, Repr := [], [], {this};
    }

    method Clear()
      requires Valid()
      modifies this`data, this`fields, this`keys, this`fieldMsgs, this`keyMsgs, this`Repr
      ensures Valid() && Contents() == Empty(TableMsg) && Repr <= old(Repr)
      ensures data == DEFAULT && fields == [] && keys == []
    {
      DefaultIsEmpty();
      hide View, Empty, AllSized, F.TableField.Valid, F.TableField.Contents, K.TableKey.Valid, K.TableKey.Contents;
      fields, keys, fieldMsgs, keyMsgs := [], [], [], [];
      if data.hasBits.b0 {
        data := data.(tableName := []);
      }
      data := data.(hasBits := NO_BITS, unknown := []);
      Repr := {this};
    }

    /** New columns become the last ones. */
    method AddFields(items: seq<F.TableField>, ghost msgs: seq<Msg>)
      requires Valid() && Columns.ListOk(items, msgs) && forall f :: f in items ==> f !in Repr
      modifies this`fields, this`fieldMsgs, this`Repr
      ensures Valid() && fields == old(fields) + items && fieldMsgs == old(fieldMsgs) + msgs
      ensures Repr == old(Repr) + set f | f in items
    {
      hide DataOk, F.TableField.Valid, F.TableField.Contents, Keys.ListOk;
      Columns.ListAppend(fields, fieldMsgs, items, msgs);
      hide Columns.ListOk;
      fields, fieldMsgs, Repr := fields + items, fieldMsgs + msgs, Repr + set f | f in items;
    }

    /** New keys become the last ones. */
    method AddKeys(items: seq<K.TableKey>, ghost msgs: seq<Msg>)
      requires Valid() && Keys.ListOk(items, msgs) && forall k :: k in items ==> k !in Repr
      modifies this`keys, this`keyMsgs, this`Repr
      ensures Valid() && keys == old(keys) + items && keyMsgs == old(keyMsgs) + msgs
      ensures Repr == old(Repr) + set k | k in items
    {
      hide DataOk, K.TableKey.Valid, K.TableKey.Contents, Columns.ListOk;
      Keys.ListAppend(keys, keyMsgs, items, msgs);
      hide Keys.ListOk;
      keys, keyMsgs, Repr := keys + items, keyMsgs + msgs, Repr + set k | k in items;
    }

    method MergeFrom(from: MysqlTable)
      requires Valid() && from.Valid() && Repr !! from.Repr
      modifies this`data, this`fields, this`keys, this`fieldMsgs, this`keyMsgs, this`Repr
      ensures Valid() && Contents() == Merge(old(Contents()), from.Contents())
      ensures fresh(Repr - old(Repr))
    {
      hide View, DataOk, Merge, Columns.ListOk, Keys.ListOk;
      MergeDataMerges(data, fieldMsgs, keyMsgs, from.data, from.fieldMsgs, from.keyMsgs);
      var d := data.(unknown := data.unknown + from.data.unknown);
      var newFields := Columns.CopyAll(from.fields, from.fieldMsgs);
      AddFields(newFields, from.fieldMsgs);
      var newKeys := Keys.CopyAll(from.keys, from.keyMsgs);
      AddKeys(newKeys, from.keyMsgs);
      if from.data.hasBits.b0 {
        d := d.(hasBits := d.hasBits.(b0 := true), tableName := from.data.tableName);
      }
      assert d == MergeData(data, from.data);
      data := d;
    }

    method CopyFrom(from: MysqlTable)
      requires Valid() && from.Valid() && (from == this || Repr !! from.Repr)
      modifies this`data, this`fields, this`keys, this`fieldMsgs, this`keyMsgs, this`Repr
      ensures Valid() && Contents() == old(from.Contents())
      ensures fresh(Repr - old(Repr))
    {
      hide View, DataOk, Merge, Empty;
      if from == this {
        return;
      }
      Clear();
      MergeFrom(from);
      ViewIs(from.data, from.fieldMsgs, from.keyMsgs);
      MergeLaws.EmptyMerge(TableMsg, from.Contents());
    }

    method SwapRepeated(other: MysqlTable)
      requires other != this
      modifies this`fields, other`fields, this`keys, other`keys, this`fieldMsgs, other`fieldMsgs,
               this`keyMsgs, other`keyMsgs, this`Repr, other`Repr
      ensures fields == old(other.fields) && other.fields == old(fields)
      ensures keys == old(other.keys) && other.keys == old(keys)
      ensures fieldMsgs == old(other.fieldMsgs) && other.fieldMsgs == old(fieldMsgs)
      ensures keyMsgs == old(other.keyMsgs) && other.keyMsgs == old(keyMsgs)
      ensures Repr == old(other.Repr) - {other} + {this} && other.Repr == old(Repr) - {this} + {other}
    {
      fields, other.fields, fieldMsgs, other.fieldMsgs := other.fields, fields, other.fieldMsgs, fieldMsgs;
      keys, other.keys, keyMsgs, other.keyMsgs := other.keys, keys, other.keyMsgs, keyMsgs;
      Repr, other.Repr := other.Repr - {other} + {this}, Repr - {this} + {other};
    }

    method Swap(other: MysqlTable)
      requires Valid() && other.Valid() && (other == this || Repr !! other.Repr)
      modifies this, other
      ensures Valid() && other.Valid()
      ensures Contents() == old(other.Contents()) && other.Contents() == old(Contents())
      ensures cachedSize == old(other.cachedSize) && other.cachedSize == old(cachedSize)
      ensures other == this || Repr !! other.Repr
      ensures Repr + other.Repr == old(Repr + other.Repr)
    {
      hide DataOk, View, Owns;
      if other == this {
        return;
      }
      SwapRepeated(other);
      data, other.data, cachedSize, other.cachedSize := other.data, data, other.cachedSize, cachedSize;
      assert Repr - {this} == old(other.Repr) - {other};
      assert other.Repr - {other} == old(Repr) - {this};
    }

    // ----- accessors -----

    method SetTableName(value: bytes)
      requires Valid()
      modifies this`data
      ensures Valid() && Contents() == WithSlot(old(Contents()), 0, Scalar(Some(Text(value))))
    {
      WithTableNameSets(data, fieldMsgs, keyMsgs, value);
      hide View, DataOk, Owns;
      data := WithTableName(data, value);
    }

    method ClearTableName()
      requires Valid()
      modifies this`data
      ensures Valid() && data.tableName == [] && Contents() == WithSlot(old(Contents()), 0, Scalar(None))
    {
      WithoutTableNameClears(data, fieldMsgs, keyMsgs);
      hide View, DataOk, Owns;
      data := WithoutTableName(data);
    }

    /** Hands the string over to the caller. */
    method ReleaseTableName() returns (value: bytes)
      requires Valid()
      modifies this`data
      ensures Valid() && value == old(data.tableName) && Contents() == WithSlot(old(Contents()), 0, Scalar(None))
    {
      value := data.tableName;
      ClearTableName();
    }

    // ----- the parser -----

    method ReadTableName(input: CodedInputStream) returns (ok: bool)
      requires Valid() && input.Valid() && input.budget >= 0 && input !in Repr
      modifies this`data, input`pos
      ensures Valid() && input.Moved(old(input.pos), old(input.Rest()), ok)
      ensures Absorbs(TableMsg, 0, old(input.Rest()), input.budget, ok, input.pos - old(input.pos),
                      old(Contents()), Contents())
    {
      TableSlots();
      ViewIs(data, fieldMsgs, keyMsgs);
      hide DecodeVarint, ReadBlock, Fields, ReadKnown, Absorbs, View, DataOk, Owns;
      var value;
      ok, value := input.ReadBytes(data.tableName);
      WithTableNameSets(data, fieldMsgs, keyMsgs, value);
      data := WithTableName(data, value);
      AbsorbsText(TableMsg, 0, old(input.Rest()), input.budget, ok, value, input.pos - old(input.pos),
                  old(Contents()), Contents());
    }

    method ReadFields(input: CodedInputStream) returns (ok: bool)
      requires Valid() && input.Valid() && input.budget >= 0 && !input.legitimateEnd && input !in Repr
      modifies this`fields, this`fieldMsgs, this`Repr, input
      ensures Valid() && fresh(Repr - old(Repr)) && input.Moved(old(input.pos), old(input.Rest()), ok)
      ensures ok ==> input.limit == old(input.limit) && input.budget == old(input.budget) && !input.legitimateEnd
      ensures Absorbs(TableMsg, 1, old(input.Rest()), old(input.budget), ok, input.pos - old(input.pos),
                      old(Contents()), Contents())
    {
      TableSlots();
      ViewIs(data, fieldMsgs, keyMsgs);
      hide DecodeVarint, ReadBlock, Fields, ReadKnown, Absorbs, View, DataOk, Owns, MessageRead, Empty,
           F.TableField.Valid, F.TableField.Contents, Columns.ListOk;
      var item := new F.TableField();
      ok := Columns.ReadItem(input, item);
      ghost var m := item.Contents();
      Columns.ListOne(item);
      FieldAdded(data, fieldMsgs, keyMsgs, m);
      AddFields([item], [m]);
      AbsorbsMessage(TableMsg, 1, FieldMsg, old(input.Rest()), old(input.budget), ok, m, input.pos - old(input.pos),
                     old(Contents()), Contents());
    }

    method ReadKeys(input: CodedInputStream) returns (ok: bool)
      requires Valid() && input.Valid() && input.budget >= 0 && !input.legitimateEnd && input !in Repr
      modifies this`keys, this`keyMsgs, this`Repr, input
      ensures Valid() && fresh(Repr - old(Repr)) && input.Moved(old(input.pos), old(input.Rest()), ok)
      ensures ok ==> input.limit == old(input.limit) && input.budget == old(input.budget) && !input.legitimateEnd
      ensures Absorbs(TableMsg, 2, old(input.Rest()), old(input.budget), ok, input.pos - old(input.pos),
                      old(Contents()), Contents())
    {
      TableSlots();
      ViewIs(data, fieldMsgs, keyMsgs);
      hide DecodeVarint, ReadBlock, Fields, ReadKnown, Absorbs, View, DataOk, Owns, MessageRead, Empty,
           K.TableKey.Valid, K.TableKey.Contents, Keys.ListOk;
      var item := new K.TableKey();
      ok := Keys.ReadItem(input, item);
      ghost var m := item.Contents();
      Keys.ListOne(item);
      KeyAdded(data, fieldMsgs, keyMsgs, m);
      AddKeys([item], [m]);
      AbsorbsMessage(TableMsg, 2, KeyMsg, old(input.Rest()), old(input.budget), ok, m, input.pos - old(input.pos),
                     old(Contents()), Contents());
    }

    method ParseCase(tag: nat, input: CodedInputStream) returns (known: bool, ok: bool)
      requires Valid() && input.Valid() && input.budget >= 0 && !input.legitimateEnd && input !in Repr
      modifies this`data, this`fields, this`keys, this`fieldMsgs, this`keyMsgs, this`Repr, input
      ensures Valid() && fresh(Repr - old(Repr)) && (known <==> SlotOf(TableMsg, tag).Some?)
      ensures !known ==> unchanged(this, input)
      ensures known ==> input.Moved(old(input.pos), old(input.Rest()), ok)
      ensures known && ok ==>
                input.limit == old(input.limit) && input.budget == old(input.budget) && !input.legitimateEnd
      ensures known ==> Absorbs(TableMsg, SlotOf(TableMsg, tag).value, old(input.Rest()), old(input.budget), ok,
                                input.pos - old(input.pos), old(Contents()), Contents())
    {
      hide Absorbs, View, DataOk, Owns, Fields;
      known, ok := true, true;
      match tag {
        case 10 => ok := ReadTableName(input);
        case 18 => ok := ReadFields(input);
        case 26 => ok := ReadKeys(input);
        case _ => known := false;
      }
    }

    method SkipUnknown(tag: nat, input: CodedInputStream) returns (ok: bool)
      requires Valid() && input.Valid() && input.budget >= 0 && tag < TWO_32 && input !in Repr
      modifies this`data, input
      ensures Valid() && input.Moved(old(input.pos), old(input.Rest()), ok) && input.limit == old(input.limit)
      ensures ok ==> input.budget == old(input.budget) && input.legitimateEnd == old(input.legitimateEnd)
      ensures Skipped(tag, old(input.Rest()), old(input.budget), ok, input.pos - old(input.pos),
                      old(Contents()), Contents())
    {
      hide Wire.SkipField, View, DataOk, AllSized, Owns;
      UnknownReplaced(data, fieldMsgs, keyMsgs, data.unknown);
      ViewIs(data, fieldMsgs, keyMsgs);
      ghost var before := data;
      var unknown;
      ok, unknown := input.SkipField(tag, data.unknown);
      UnknownReplaced(before, fieldMsgs, keyMsgs, unknown);
      data := data.(unknown := unknown);
    }

    method MergePartialFromCodedStream(input: CodedInputStream) returns (ok: bool)
      requires Valid() && input.Valid() && input.budget >= 0 && !input.legitimateEnd && input !in Repr
      modifies this`data, this`fields, this`keys, this`fieldMsgs, this`keyMsgs, this`Repr, input
      ensures Valid() && fresh(Repr - old(Repr)) && input.Valid() && input.pos >= old(input.pos)
      ensures ok ==> input.limit == old(input.limit)
      ensures Outcome(TableMsg, old(Contents()), old(input.Rest()), old(input.budget), ok && input.legitimateEnd, Contents())
      ensures ok && input.legitimateEnd ==> input.pos == input.limit && input.budget == old(input.budget)
    {
      hide View, DataOk, Owns, Parse, TagAt, Absorbs, Wire.SkipField, SlotOf, Outcome, Apply;
      ghost var budget: nat := input.budget;
      ghost var start, before := input.Rest(), Contents();
      while true
        invariant Valid() && fresh(Repr - old(Repr)) && input !in Repr
        invariant input.Valid() && input.limit == old(input.limit) && input.pos >= old(input.pos)
        invariant input.budget == budget && !input.legitimateEnd
        invariant Parse(TableMsg, before, start, budget) == Parse(TableMsg, Contents(), input.Rest(), budget)
        decreases input.limit - input.pos
      {
        ghost var rest, at, now := input.Rest(), input.pos, Contents();
        var tag := input.ReadTag();
        if tag == 0 {
          EndStep(TableMsg, now, rest, budget);
          TagOutcome(TableMsg, before, now, start, rest, budget, rest == [], now);
          return true;
        }
        ghost var n := input.pos - at;
        var known;
        known, ok := ParseCase(tag, input);
        if known {
          KnownStep(TableMsg, now, Contents(), rest, tag, n, ok, input.pos - at - n, budget);
        } else {
          ok := SkipUnknown(tag, input);
          UnknownStep(TableMsg, now, rest, tag, n, budget);
        }
        if !ok {
          ParseFailed(TableMsg, before, now, start, rest, budget, Contents());
          return false;
        }
      }
    }

    // ----- sizes and serializers -----

    /** The size of the serialized message; the size of every message in the tree is cached on the way. */
    method ByteSizeLong() returns (total: nat)
      requires Valid()
      modifies Repr
      ensures Valid() && Contents() == old(Contents()) && Repr == old(Repr)
      ensures Agrees(total, |Encode(TableMsg, Contents())|) && cachedSize == ToCachedSize(total)
      ensures |Encode(TableMsg, Contents())| <= INT_MAX ==> CachesRight()
    {
      hide *;
      Unfold();
      TableSizeFacts(data);
      total := UnknownFieldsSize(data.unknown);
      var repeated := SizeRepeated();
      TableSizeAgrees(data, fieldMsgs, keyMsgs, total, repeated);
      total := AddStringSize(total + repeated, data.hasBits.b0, data.tableName);
      Unfold();
      cachedSize := ToCachedSize(total);
      Unfold();
    }

    method SizeRepeated() returns (total: nat)
      requires Valid()
      modifies fields, keys
      ensures Valid() && Contents() == old(Contents())
      ensures Agrees(total, |EncodeMessages(18, FieldMsg, fieldMsgs)| + |EncodeMessages(26, KeyMsg, keyMsgs)|)
      ensures |EncodeMessages(18, FieldMsg, fieldMsgs)| <= INT_MAX && |EncodeMessages(26, KeyMsg, keyMsgs)| <= INT_MAX ==>
                CachesRight()
    {
      hide *;
      Unfold();
      total := Columns.SizeAll(fields, fieldMsgs, 18);
      var rest := Keys.SizeAll(keys, keyMsgs, 26);
      AgreesSum(total, |EncodeMessages(18, FieldMsg, fieldMsgs)|, rest, |EncodeMessages(26, KeyMsg, keyMsgs)|);
      total := total + rest;
      Unfold();
    }

    method SerializeWithCachedSizes(output: CodedOutputStream)
      requires Valid() && CachesRight() && output !in Repr
      modifies output
      ensures output.written == old(output.written) + Encode(TableMsg, Contents())
    {
      hide *;
      Unfold();
      EncodeIs(data, fieldMsgs, keyMsgs);
      output.WriteOptional(FieldSpec(1, Str), data.hasBits.b0, Text(data.tableName));
      Columns.WriteAll(18, fields, fieldMsgs, output);
      Keys.WriteAll(26, keys, keyMsgs, output);
      output.WriteUnknownFields(data.unknown);
    }

    method InternalSerializeWithCachedSizesToArray(target: array<byte>, pos: nat) returns (end: nat)
      requires Valid() && CachesRight() && target !in Repr
      requires pos + |Encode(TableMsg, Contents())| <= target.Length
      modifies target
      ensures end == pos + |Encode(TableMsg, Contents())|
      ensures Wrote(old(target[..]), target[..], pos, Encode(TableMsg, Contents()))
    {
      hide *;
      Unfold();
      EncodeIs(data, fieldMsgs, keyMsgs);
      ghost var x := EncodeField(FieldSpec(1, Str), Optional(data.hasBits.b0, Text(data.tableName)));
      ghost var y := EncodeMessages(18, FieldMsg, fieldMsgs) + EncodeMessages(26, KeyMsg, keyMsgs);
      ghost var a := target[..];
      end := WriteOptionalToArray(target, pos, FieldSpec(1, Str), data.hasBits.b0, Text(data.tableName));
      ghost var b := target[..];
      end := RepeatedToArray(target, end);
      WroteThen(a, b, target[..], pos, x, y);
      end := AppendUnknownFieldsToArray(target, end, data.unknown, a, pos, x + y);
      assert Encode(TableMsg, Contents()) == x + y + EncodeUnknowns(data.unknown);
    }

    method RepeatedToArray(target: array<byte>, pos: nat) returns (end: nat)
      requires Valid() && CachesRight() && target !in Repr
      requires pos + |EncodeMessages(18, FieldMsg, fieldMsgs)| + |EncodeMessages(26, KeyMsg, keyMsgs)| <= target.Length
      modifies target
      ensures end == pos + |EncodeMessages(18, FieldMsg, fieldMsgs)| + |EncodeMessages(26, KeyMsg, keyMsgs)|
      ensures Wrote(old(target[..]), target[..], pos,
                    EncodeMessages(18, FieldMsg, fieldMsgs) + EncodeMessages(26, KeyMsg, keyMsgs))
    {
      hide *;
      Unfold();
      ghost var a := target[..];
      end := Columns.WriteAllToArray(target, pos, 18, fields, fieldMsgs);
      ghost var b := target[..];
      end := Keys.WriteAllToArray(target, end, 26, keys, keyMsgs);
      WroteThen(a, b, target[..], pos, EncodeMessages(18, FieldMsg, fieldMsgs), EncodeMessages(26, KeyMsg, keyMsgs));
    }
  }
}
