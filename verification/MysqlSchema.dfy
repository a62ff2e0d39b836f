/** The generated class for a schema: five scalars and the tables. */
module MysqlSchemas {
  import opened Options
  import opened Wire
  import opened Schema
  import opened Sizes
  import opened Streams
  import opened Effects
  import opened Writers
  import T = MysqlTables
  import Tables = MysqlTableLists
  import MergeLaws

  // ----- the members that are not repeated -----

  datatype SchemaData = SchemaData(hasBits: HasBits, ip: bytes, user: bytes, passwd: bytes, schemaName: bytes,
                                   port: nat, unknown: seq<Unknown>)

  const DEFAULT := SchemaData(NO_BITS, [], [], [], [], 0, [])

  /** Scalar field `i` in serialization order, present if its bit is set. */
  function SlotAt(d: SchemaData, i: nat): Slot {
    match i
    case 0 => Optional(d.hasBits.b0, Text(d.ip))
    case 1 => Optional(d.hasBits.b4, Num(d.port))
    case 2 => Optional(d.hasBits.b1, Text(d.user))
    case 3 => Optional(d.hasBits.b2, Text(d.passwd))
    case _ => Optional(d.hasBits.b3, Text(d.schemaName))
  }

  function View(d: SchemaData, tables: seq<Msg>): Msg {
    Msg([SlotAt(d, 0), SlotAt(d, 1), SlotAt(d, 2), SlotAt(d, 3), SlotAt(d, 4), Msgs(tables)], d.unknown)
  }

  /** Only the five low bits of the presence word are ever set. */
  predicate FiveBits(b: HasBits) { !b.b5 && !b.b6 && !b.b7 && !b.b8 }

  /** A field whose presence bit is clear holds its default, and every value fits its field. */
  predicate DataOk(d: SchemaData) {
    && (!d.hasBits.b0 ==> d.ip == [])
    && (!d.hasBits.b1 ==> d.user == [])
    && (!d.hasBits.b2 ==> d.passwd == [])
    && (!d.hasBits.b3 ==> d.schemaName == [])
    && (!d.hasBits.b4 ==> d.port == 0)
    && d.port < TWO_32 && FiveBits(d.hasBits) && AllSized(d.unknown)
  }

  function WithIp(d: SchemaData, v: bytes): SchemaData { d.(hasBits := d.hasBits.(b0 := true), ip := v) }

  function WithUser(d: SchemaData, v: bytes): SchemaData { d.(hasBits := d.hasBits.(b1 := true), user := v) }

  function WithPasswd(d: SchemaData, v: bytes): SchemaData { d.(hasBits := d.hasBits.(b2 := true), passwd := v) }

  function WithSchemaName(d: SchemaData, v: bytes): SchemaData { d.(hasBits := d.hasBits.(b3 := true), schemaName := v) }

  function WithPort(d: SchemaData, v: nat): SchemaData { d.(hasBits := d.hasBits.(b4 := true), port := v) }

  lemma WithIpSets(d: SchemaData, tables: seq<Msg>, v: bytes)
    requires DataOk(d)
    ensures DataOk(WithIp(d, v)) && View(WithIp(d, v), tables) == WithSlot(View(d, tables), 0, Scalar(Some(Text(v))))
  {
    hide AllSized;
  }

  lemma WithPortSets(d: SchemaData, tables: seq<Msg>, v: nat)
    requires DataOk(d) && v < TWO_32
    ensures DataOk(WithPort(d, v)) && View(WithPort(d, v), tables) == WithSlot(View(d, tables), 1, Scalar(Some(Num(v))))
  {
    hide AllSized;
  }

  lemma WithUserSets(d: SchemaData, tables: seq<Msg>, v: bytes)
    requires DataOk(d)
    ensures DataOk(WithUser(d, v)) && View(WithUser(d, v), tables) == WithSlot(View(d, tables), 2, Scalar(Some(Text(v))))
  {
    hide AllSized;
  }

  lemma WithPasswdSets(d: SchemaData, tables: seq<Msg>, v: bytes)
    requires DataOk(d)
    ensures DataOk(WithPasswd(d, v))
    ensures View(WithPasswd(d, v), tables) == WithSlot(View(d, tables), 3, Scalar(Some(Text(v))))
  {
    hide AllSized;
  }

  lemma WithSchemaNameSets(d: SchemaData, tables: seq<Msg>, v: bytes)
    requires DataOk(d)
    ensures DataOk(WithSchemaName(d, v))
    ensures View(WithSchemaName(d, v), tables) == WithSlot(View(d, tables), 4, Scalar(Some(Text(v))))
  {
    hide AllSized;
  }

  function WithoutIp(d: SchemaData): SchemaData { d.(hasBits := d.hasBits.(b0 := false), ip := []) }

  lemma WithoutIpClears(d: SchemaData, tables: seq<Msg>)
    requires DataOk(d)
    ensures DataOk(WithoutIp(d)) && View(WithoutIp(d), tables) == WithSlot(View(d, tables), 0, Scalar(None))
  {
    hide AllSized;
  }

  function WithoutPort(d: SchemaData): SchemaData { d.(hasBits := d.hasBits.(b4 := false), port := 0) }

  lemma WithoutPortClears(d: SchemaData, tables: seq<Msg>)
    requires DataOk(d)
    ensures DataOk(WithoutPort(d)) && View(WithoutPort(d), tables) == WithSlot(View(d, tables), 1, Scalar(None))
  {
    hide AllSized;
  }

  function WithoutUser(d: SchemaData): SchemaData { d.(hasBits := d.hasBits.(b1 := false), user := []) }

  lemma WithoutUserClears(d: SchemaData, tables: seq<Msg>)
    requires DataOk(d)
    ensures DataOk(WithoutUser(d)) && View(WithoutUser(d), tables) == WithSlot(View(d, tables), 2, Scalar(None))
  {
    hide AllSized;
  }

  function WithoutPasswd(d: SchemaData): SchemaData { d.(hasBits := d.hasBits.(b2 := false), passwd := []) }

  lemma WithoutPasswdClears(d: SchemaData, tables: seq<Msg>)
    requires DataOk(d)
    ensures DataOk(WithoutPasswd(d)) && View(WithoutPasswd(d), tables) == WithSlot(View(d, tables), 3, Scalar(None))
  {
    hide AllSized;
  }

  function WithoutSchemaName(d: SchemaData): SchemaData { d.(hasBits := d.hasBits.(b3 := false), schemaName := []) }

  lemma WithoutSchemaNameClears(d: SchemaData, tables: seq<Msg>)
    requires DataOk(d)
    ensures DataOk(WithoutSchemaName(d)) && View(WithoutSchemaName(d), tables) == WithSlot(View(d, tables), 4, Scalar(None))
  {
    hide AllSized;
  }

  lemma TableAdded(d: SchemaData, tables: seq<Msg>, m: Msg)
    ensures View(d, tables + [m]) == WithSlot(View(d, tables), 5, Msgs(tables + [m]))
  {
    hide SlotAt;
  }

  lemma UnknownReplaced(d: SchemaData, tables: seq<Msg>, us: seq<Unknown>)
    requires DataOk(d)
    ensures AllSized(d.unknown)
    ensures AllSized(us) ==> DataOk(d.(unknown := us))
    ensures View(d.(unknown := us), tables) == View(d, tables).(unknown := us)
  {
    hide Sized;
  }

  lemma ViewIs(d: SchemaData, tables: seq<Msg>)
    ensures View(d, tables).slots
         == [SlotAt(d, 0), SlotAt(d, 1), SlotAt(d, 2), SlotAt(d, 3), SlotAt(d, 4), Msgs(tables)]
    ensures |View(d, tables).slots| == 6
    ensures View(d, tables).unknown == d.unknown
  {
    hide SlotAt;
  }

  lemma ViewShape(d: SchemaData, tables: seq<Msg>)
    ensures Shape(SchemaMsg, View(d, tables)) && |View(d, tables).slots| == 6
    ensures View(d, tables).slots[0].Scalar? && View(d, tables).slots[1].Scalar? && View(d, tables).slots[2].Scalar?
    ensures View(d, tables).slots[3].Scalar? && View(d, tables).slots[4].Scalar?
    ensures View(d, tables).slots[5] == Msgs(tables)
  {
  }

  lemma SchemaSlots()
    ensures Fields(SchemaMsg) == [FieldSpec(1, Str), FieldSpec(2, UInt32), FieldSpec(3, Str), FieldSpec(4, Str),
                                  FieldSpec(5, Str), FieldSpec(6, Messages(TableMsg))]
    ensures |Fields(SchemaMsg)| == 6
  {
  }

  lemma DefaultIsEmpty()
    ensures DataOk(DEFAULT) && View(DEFAULT, []) == Empty(SchemaMsg)
  {
  }

  function MergeData(d: SchemaData, e: SchemaData): SchemaData {
    SchemaData(Or(d.hasBits, e.hasBits), if e.hasBits.b0 then e.ip else d.ip, if e.hasBits.b1 then e.user else d.user,
               if e.hasBits.b2 then e.passwd else d.passwd, if e.hasBits.b3 then e.schemaName else d.schemaName,
               if e.hasBits.b4 then e.port else d.port, d.unknown + e.unknown)
  }

  lemma MergeSlotAt(d: SchemaData, e: SchemaData, i: nat)
    requires i < 5
    ensures SlotAt(MergeData(d, e), i) == MergeSlot(SlotAt(d, i), SlotAt(e, i))
  {
    hide Optional, MergeSlot;
    match i {
      case 0 => OptionalMerge(d.hasBits.b0, Text(d.ip), e.hasBits.b0, Text(e.ip));
      case 1 => OptionalMerge(d.hasBits.b4, Num(d.port), e.hasBits.b4, Num(e.port));
      case 2 => OptionalMerge(d.hasBits.b1, Text(d.user), e.hasBits.b1, Text(e.user));
      case 3 => OptionalMerge(d.hasBits.b2, Text(d.passwd), e.hasBits.b2, Text(e.passwd));
      case _ => OptionalMerge(d.hasBits.b3, Text(d.schemaName), e.hasBits.b3, Text(e.schemaName));
    }
  }

  lemma MergeDataMerges(d: SchemaData, tables: seq<Msg>, e: SchemaData, more: seq<Msg>)
    requires DataOk(d) && DataOk(e)
    ensures DataOk(MergeData(d, e))
    ensures View(MergeData(d, e), tables + more) == Merge(View(d, tables), View(e, more))
  {
    MergeKeepsOk(d, e);
    hide DataOk, SlotAt;
    MergeSlotAt(d, e, 0);
    MergeSlotAt(d, e, 1);
    MergeSlotAt(d, e, 2);
    MergeSlotAt(d, e, 3);
    MergeSlotAt(d, e, 4);
    assert View(MergeData(d, e), tables + more).slots == Merge(View(d, tables), View(e, more)).slots;
  }

  lemma MergeKeepsOk(d: SchemaData, e: SchemaData)
    requires DataOk(d) && DataOk(e)
    ensures DataOk(MergeData(d, e))
  {
    hide Sized;
  }

  predicate AnyOfFive(b: HasBits) { b.b0 || b.b1 || b.b2 || b.b3 || b.b4 }

  /** What merging does with the scalars: nothing at all when no bit under the mask 31 is set. */
  function GuardedMerge(d: SchemaData, e: SchemaData): SchemaData {
    if AnyOfFive(e.hasBits) then MergeData(d, e) else d.(unknown := d.unknown + e.unknown)
  }

  lemma GuardedMergeIsMerge(d: SchemaData, e: SchemaData)
    requires DataOk(d) && DataOk(e)
    ensures GuardedMerge(d, e) == MergeData(d, e)
  {
    hide AllSized;
  }

  // ----- the serialized form -----

  /** The scalar fields in serialization order. */
  function ScalarBytes(d: SchemaData): bytes {
    EncodeField(FieldSpec(1, Str), SlotAt(d, 0)) + EncodeField(FieldSpec(2, UInt32), SlotAt(d, 1))
    + EncodeField(FieldSpec(3, Str), SlotAt(d, 2)) + EncodeField(FieldSpec(4, Str), SlotAt(d, 3))
    + EncodeField(FieldSpec(5, Str), SlotAt(d, 4))
  }

  lemma EncodeIs(d: SchemaData, tables: seq<Msg>)
    ensures Encode(SchemaMsg, View(d, tables))
         == ScalarBytes(d) + EncodeMessages(50, TableMsg, tables) + EncodeUnknowns(d.unknown)
  {
    hide *;
    SchemaSlots();
    ViewIs(d, tables);
    MessagesField(6, TableMsg, tables);
    var m := View(d, tables);
    EncodeNone(SchemaMsg, m);
    EncodeNext(SchemaMsg, m, 0);
    EncodeNext(SchemaMsg, m, 1);
    EncodeNext(SchemaMsg, m, 2);
    EncodeNext(SchemaMsg, m, 3);
    EncodeNext(SchemaMsg, m, 4);
    EncodeNext(SchemaMsg, m, 5);
    ScalarBytesIs(d);
  }

  lemma ScalarBytesIs(d: SchemaData)
    ensures ScalarBytes(d)
         == EncodeField(FieldSpec(1, Str), SlotAt(d, 0)) + EncodeField(FieldSpec(2, UInt32), SlotAt(d, 1))
          + EncodeField(FieldSpec(3, Str), SlotAt(d, 2)) + EncodeField(FieldSpec(4, Str), SlotAt(d, 3))
          + EncodeField(FieldSpec(5, Str), SlotAt(d, 4))
  {
    hide EncodeField, SlotAt;
  }

  lemma SlotsAre(d: SchemaData)
    ensures SlotAt(d, 0) == Optional(d.hasBits.b0, Text(d.ip))
    ensures SlotAt(d, 1) == Optional(d.hasBits.b4, Num(d.port))
    ensures SlotAt(d, 2) == Optional(d.hasBits.b1, Text(d.user))
    ensures SlotAt(d, 3) == Optional(d.hasBits.b2, Text(d.passwd))
    ensures SlotAt(d, 4) == Optional(d.hasBits.b3, Text(d.schemaName))
  {
    hide Optional;
  }

  /** The sizes of the scalar fields in the order of their presence bits. */
  function ScalarsSize(d: SchemaData): nat {
    ScalarSize(d.hasBits.b0, Text(d.ip)) + ScalarSize(d.hasBits.b1, Text(d.user))
    + ScalarSize(d.hasBits.b2, Text(d.passwd)) + ScalarSize(d.hasBits.b3, Text(d.schemaName))
    + ScalarSize(d.hasBits.b4, Num(d.port))
  }

  lemma ScalarsSizeIs(d: SchemaData)
    ensures ScalarsSize(d)
         == ScalarSize(d.hasBits.b0, Text(d.ip)) + ScalarSize(d.hasBits.b1, Text(d.user))
          + ScalarSize(d.hasBits.b2, Text(d.passwd)) + ScalarSize(d.hasBits.b3, Text(d.schemaName))
          + ScalarSize(d.hasBits.b4, Num(d.port))
    ensures !AnyOfFive(d.hasBits) ==> ScalarsSize(d) == 0
  {
    hide LengthDelimitedSize, VarintSize;
  }

  lemma DataFacts(d: SchemaData)
    requires DataOk(d)
    ensures d.port < TWO_32 < TWO_64 && AllSized(d.unknown)
  {
  }

  lemma OneScalarAgrees(number: nat, k: Kind, present: bool, v: Value)
    requires 1 <= number <= 5 && (k == Str || k == UInt32) && (v.Text? <==> k == Str) && (v.Num? ==> v.num < TWO_64)
    ensures Agrees(ScalarSize(present, v), |EncodeField(FieldSpec(number, k), Optional(present, v))|)
  {
    hide ScalarSize, EncodeField, Optional, Agrees;
    ScalarSizeAgrees(FieldSpec(number, k), present, v);
  }

  lemma ScalarsAgree(d: SchemaData)
    requires DataOk(d)
    ensures Agrees(ScalarsSize(d), |ScalarBytes(d)|)
  {
    hide *;
    DataFacts(d);
    SlotsAre(d);
    ScalarBytesIs(d);
    ScalarsSizeIs(d);
    OneScalarAgrees(1, Str, d.hasBits.b0, Text(d.ip));
    OneScalarAgrees(2, UInt32, d.hasBits.b4, Num(d.port));
    OneScalarAgrees(3, Str, d.hasBits.b1, Text(d.user));
    OneScalarAgrees(4, Str, d.hasBits.b2, Text(d.passwd));
    OneScalarAgrees(5, Str, d.hasBits.b3, Text(d.schemaName));
    var x, y, z, w, v := |EncodeField(FieldSpec(1, Str), SlotAt(d, 0))|, |EncodeField(FieldSpec(2, UInt32), SlotAt(d, 1))|,
      |EncodeField(FieldSpec(3, Str), SlotAt(d, 2))|, |EncodeField(FieldSpec(4, Str), SlotAt(d, 3))|,
      |EncodeField(FieldSpec(5, Str), SlotAt(d, 4))|;
    var a, b := ScalarSize(d.hasBits.b0, Text(d.ip)), ScalarSize(d.hasBits.b4, Num(d.port));
    var c, e := ScalarSize(d.hasBits.b1, Text(d.user)), ScalarSize(d.hasBits.b2, Text(d.passwd));
    AgreesSum(a, x, b, y);
    AgreesSum(a + b, x + y, c, z);
    AgreesSum(a + b + c, x + y + z, e, w);
    AgreesSum(a + b + c + e, x + y + z + w, ScalarSize(d.hasBits.b3, Text(d.schemaName)), v);
  }

  lemma SchemaSizeAgrees(d: SchemaData, tables: seq<Msg>, unknown: nat, repeated: nat)
    requires DataOk(d) && unknown == UnknownFieldsSize(d.unknown)
    requires Agrees(repeated, |EncodeMessages(50, TableMsg, tables)|)
    ensures Agrees(unknown + repeated + ScalarsSize(d), |Encode(SchemaMsg, View(d, tables))|)
    ensures |EncodeMessages(50, TableMsg, tables)| <= |Encode(SchemaMsg, View(d, tables))|
  {
    hide *;
    EncodeIs(d, tables);
    DataFacts(d);
    ScalarsAgree(d);
    UnknownFieldsSizeAgrees(d.unknown);
    AgreesSum(unknown, |EncodeUnknowns(d.unknown)|, repeated, |EncodeMessages(50, TableMsg, tables)|);
    AgreesSum(unknown + repeated, |EncodeUnknowns(d.unknown)| + |EncodeMessages(50, TableMsg, tables)|,
              ScalarsSize(d), |ScalarBytes(d)|);
  }

  class MysqlSchema {
    var data: SchemaData
    var tables: seq<T.MysqlTable>
    var cachedSize: int
    ghost var tableMsgs: seq<Msg>
    ghost var Repr: set<object>

    ghost function Contents(): Msg
      reads this`data, this`tableMsgs
    {
      View(data, tableMsgs)
    }

    ghost predicate Valid()
      reads this, Repr
    {
      this in Repr && DataOk(data) && Owns(Repr - {this}, tables, tableMsgs)
    }

    /** The trees of the tables lie in `repr` and have the given values. */
    static ghost predicate Owns(repr: set<object>, tables: seq<T.MysqlTable>, tableMsgs: seq<Msg>)
      reads repr
    {
      (forall i :: 0 <= i < |tables| ==> tables[i] in repr) && Tables.ListOk(tables, tableMsgs, repr)
    }

    /** Every message below this one has its own encoded size cached. */
    ghost predicate CachesRight()
      requires Valid()
      reads this, Repr
    {
      Tables.SizesRight(tables, tableMsgs, Repr - {this})
    }

    lemma Unfold()
      ensures Valid() <==> this in Repr && DataOk(data) && Owns(Repr - {this}, tables, tableMsgs)
      ensures Valid() ==> Tables.ListOk(tables, tableMsgs, Repr - {this})
      ensures Valid() ==> |tables| == |tableMsgs|
      ensures Valid() ==> (CachesRight() <==> Tables.SizesRight(tables, tableMsgs, Repr - {this}))
      ensures Valid() ==> forall i :: 0 <= i < |tables| ==> tables[i] in Repr - {this}
      ensures var inside := forall i :: 0 <= i < |tables| ==> tables[i] in Repr - {this};
              Owns(Repr - {this}, tables, tableMsgs) == (inside && Tables.ListOk(tables, tableMsgs, Repr - {this}))
      ensures Contents() == View(data, tableMsgs)
    {
      hide View, DataOk, T.MysqlTable.Valid, T.MysqlTable.Contents;
    }

    constructor ()
      ensures Valid() && Contents() == Empty(SchemaMsg) && Repr == {this} && cachedSize == 0
      ensures data == DEFAULT && tables == []
    {
      DefaultIsEmpty();
      hide DataOk, View, Empty;
      data, tables, cachedSize := DEFAULT, [], 0;
      tableMsgs, Repr := [], {this};
    }

    method Clear()
      requires Valid()
      modifies this`data, this`tables, this`tableMsgs, this`Repr
      ensures Valid() && Contents() == Empty(SchemaMsg) && Repr <= old(Repr)
      ensures data == DEFAULT && tables == []
    {
      DefaultIsEmpty();
      ClearedIsDefault(data);
      hide View, Empty, DataOk, T.MysqlTable.Valid, T.MysqlTable.Contents;
      tables, tableMsgs, Repr := [], [], {this};
      var d := ClearStrings(data);
      data := d.(port := 0, hasBits := NO_BITS, unknown := []);
    }

    /** Empties the strings whose bits are set, none of which is outside the mask 15. */
    static method ClearStrings(d: SchemaData) returns (r: SchemaData)
      ensures r == StringsCleared(d)
    {
      r := d;
      var bits := d.hasBits;
      if bits.b0 || bits.b1 || bits.b2 || bits.b3 {
        if bits.b0 { r := r.(ip := []); }
        if bits.b1 { r := r.(user := []); }
        if bits.b2 { r := r.(passwd := []); }
        if bits.b3 { r := r.(schemaName := []); }
      }
    }

    /** New tables become the last ones. */
    method AddTables(items: seq<T.MysqlTable>, ghost msgs: seq<Msg>, ghost repr: set<object>)
      requires Valid() && Tables.ListOk(items, msgs, repr) && repr !! Repr
      modifies this`tables, this`tableMsgs, this`Repr
      ensures Valid() && tables == old(tables) + items && tableMsgs == old(tableMsgs) + msgs
      ensures Repr == old(Repr) + repr
    {
      hide DataOk, T.MysqlTable.Valid, T.MysqlTable.Contents;
      Tables.ListAppend(tables, tableMsgs, Repr - {this}, items, msgs, repr);
      tables, tableMsgs, Repr := tables + items, tableMsgs + msgs, Repr + repr;
      assert Repr - {this} == old(Repr) - {this} + repr;
    }

    method MergeFrom(from: MysqlSchema)
      requires Valid() && from.Valid() && Repr !! from.Repr
      modifies this`data, this`tables, this`tableMsgs, this`Repr
      ensures Valid() && Contents() == Merge(old(Contents()), from.Contents())
      ensures fresh(Repr - old(Repr))
    {
      hide *;
      Unfold();
      from.Unfold();
      MergeDataMerges(data, tableMsgs, from.data, from.tableMsgs);
      GuardedMergeIsMerge(data, from.data);
      var newTables;
      ghost var newRepr;
      newTables, newRepr := Tables.CopyAll(from.tables, from.tableMsgs, from.Repr - {from});
      AddTables(newTables, from.tableMsgs, newRepr);
      Unfold();
      data := MergeScalars(data, from.data);
      Unfold();
    }

    static method MergeScalars(d: SchemaData, e: SchemaData) returns (r: SchemaData)
      ensures r == GuardedMerge(d, e)
    {
      r := d.(unknown := d.unknown + e.unknown);
      var bits := e.hasBits;
      if AnyOfFive(bits) {
        r := r.(ip := if bits.b0 then e.ip else r.ip);
        r := r.(user := if bits.b1 then e.user else r.user);
        r := r.(passwd := if bits.b2 then e.passwd else r.passwd);
        r := r.(schemaName := if bits.b3 then e.schemaName else r.schemaName);
        r := r.(port := if bits.b4 then e.port else r.port);
        r := r.(hasBits := Or(r.hasBits, bits));
      }
    }

    method CopyFrom(from: MysqlSchema)
      requires Valid() && from.Valid() && (from == this || Repr !! from.Repr)
      modifies this`data, this`tables, this`tableMsgs, this`Repr
      ensures Valid() && Contents() == old(from.Contents())
      ensures fresh(Repr - old(Repr))
    {
      hide View, DataOk, Merge, Empty, Owns;
      if from == this {
        return;
      }
      Clear();
      MergeFrom(from);
      ViewShape(from.data, from.tableMsgs);
      MergeLaws.EmptyMerge(SchemaMsg, from.Contents());
    }

    method Swap(other: MysqlSchema)
      requires Valid() && other.Valid() && (other == this || Repr !! other.Repr)
      modifies this, other
      ensures Valid() && other.Valid()
      ensures Contents() == old(other.Contents()) && other.Contents() == old(Contents())
      ensures cachedSize == old(other.cachedSize) && other.cachedSize == old(cachedSize)
      ensures other == this || Repr !! other.Repr
      ensures Repr + other.Repr == old(Repr + other.Repr)
    {
      hide DataOk, View, Owns;
      if other == this {
        return;
      }
      SwapRepeated(other);
      data, other.data, cachedSize, other.cachedSize := other.data, data, other.cachedSize, cachedSize;
      assert Repr - {this} == old(other.Repr) - {other};
      assert other.Repr - {other} == old(Repr) - {this};
    }

    method SwapRepeated(other: MysqlSchema)
      requires other != this
      modifies this`tables, other`tables, this`tableMsgs, other`tableMsgs, this`Repr, other`Repr
      ensures tables == old(other.tables) && other.tables == old(tables)
      ensures tableMsgs == old(other.tableMsgs) && other.tableMsgs == old(tableMsgs)
      ensures Repr == old(other.Repr) - {other} + {this} && other.Repr == old(Repr) - {this} + {other}
    {
      tables, other.tables, tableMsgs, other.tableMsgs := other.tables, tables, other.tableMsgs, tableMsgs;
      Repr, other.Repr := other.Repr - {other} + {this}, Repr - {this} + {other};
    }

    // ----- accessors -----

    method SetIp(value: bytes)
      requires Valid()
      modifies this`data
      ensures Valid() && Contents() == WithSlot(old(Contents()), 0, Scalar(Some(Text(value))))
    {
      WithIpSets(data, tableMsgs, value);
      hide View, DataOk, Owns;
      data := WithIp(data, value);
    }

    method ClearIp()
      requires Valid()
      modifies this`data
      ensures Valid() && data.ip == [] && Contents() == WithSlot(old(Contents()), 0, Scalar(None))
    {
      WithoutIpClears(data, tableMsgs);
      hide View, DataOk, Owns;
      data := WithoutIp(data);
    }

    /** Hands the string over to the caller. */
    method ReleaseIp() returns (value: bytes)
      requires Valid()
      modifies this`data
      ensures Valid() && value == old(data.ip) && Contents() == WithSlot(old(Contents()), 0, Scalar(None))
    {
      value := data.ip;
      ClearIp();
    }

    method SetPort(value: nat)
      requires Valid() && value < TWO_32
      modifies this`data
      ensures Valid() && Contents() == WithSlot(old(Contents()), 1, Scalar(Some(Num(value))))
    {
      WithPortSets(data, tableMsgs, value);
      hide View, DataOk, Owns;
      data := WithPort(data, value);
    }

    method ClearPort()
      requires Valid()
      modifies this`data
      ensures Valid() && data.port == 0 && Contents() == WithSlot(old(Contents()), 1, Scalar(None))
    {
      WithoutPortClears(data, tableMsgs);
      hide View, DataOk, Owns;
      data := WithoutPort(data);
    }

    method SetUser(value: bytes)
      requires Valid()
      modifies this`data
      ensures Valid() && Contents() == WithSlot(old(Contents()), 2, Scalar(Some(Text(value))))
    {
      WithUserSets(data, tableMsgs, value);
      hide View, DataOk, Owns;
      data := WithUser(data, value);
    }

    method ClearUser()
      requires Valid()
      modifies this`data
      ensures Valid() && data.user == [] && Contents() == WithSlot(old(Contents()), 2, Scalar(None))
    {
      WithoutUserClears(data, tableMsgs);
      hide View, DataOk, Owns;
      data := WithoutUser(data);
    }

    /** Hands the string over to the caller. */
    method ReleaseUser() returns (value: bytes)
      requires Valid()
      modifies this`data
      ensures Valid() && value == old(data.user) && Contents() == WithSlot(old(Contents()), 2, Scalar(None))
    {
      value := data.user;
      ClearUser();
    }

    method SetPasswd(value: bytes)
      requires Valid()
      modifies this`data
      ensures Valid() && Contents() == WithSlot(old(Contents()), 3, Scalar(Some(Text(value))))
    {
      WithPasswdSets(data, tableMsgs, value);
      hide View, DataOk, Owns;
      data := WithPasswd(data, value);
    }

    method ClearPasswd()
      requires Valid()
      modifies this`data
      ensures Valid() && data.passwd == [] && Contents() == WithSlot(old(Contents()), 3, Scalar(None))
    {
      WithoutPasswdClears(data, tableMsgs);
      hide View, DataOk, Owns;
      data := WithoutPasswd(data);
    }

    /** Hands the string over to the caller. */
    method ReleasePasswd() returns (value: bytes)
      requires Valid()
      modifies this`data
      ensures Valid() && value == old(data.passwd) && Contents() == WithSlot(old(Contents()), 3, Scalar(None))
    {
      value := data.passwd;
      ClearPasswd();
    }

    method SetSchemaName(value: bytes)
      requires Valid()
      modifies this`data
      ensures Valid() && Contents() == WithSlot(old(Contents()), 4, Scalar(Some(Text(value))))
    {
      WithSchemaNameSets(data, tableMsgs, value);
      hide View, DataOk, Owns;
      data := WithSchemaName(data, value);
    }

    method ClearSchemaName()
      requires Valid()
      modifies this`data
      ensures Valid() && data.schemaName == [] && Contents() == WithSlot(old(Contents()), 4, Scalar(None))
    {
      WithoutSchemaNameClears(data, tableMsgs);
      hide View, DataOk, Owns;
      data := WithoutSchemaName(data);
    }

    /** Hands the string over to the caller. */
    method ReleaseSchemaName() returns (value: bytes)
      requires Valid()
      modifies this`data
      ensures Valid() && value == old(data.schemaName) && Contents() == WithSlot(old(Contents()), 4, Scalar(None))
    {
      value := data.schemaName;
      ClearSchemaName();
    }

    // ----- the parser -----

    method ReadIp(input: CodedInputStream) returns (ok: bool)
      requires Valid() && input.Valid() && input.budget >= 0 && input !in Repr
      modifies this`data, input`pos
      ensures Valid() && input.Moved(old(input.pos), old(input.Rest()), ok)
      ensures Absorbs(SchemaMsg, 0, old(input.Rest()), input.budget, ok, input.pos - old(input.pos),
                      old(Contents()), Contents())
    {
      SchemaSlots();
      ViewShape(data, tableMsgs);
      hide DecodeVarint, ReadBlock, Fields, ReadKnown, Absorbs, View, DataOk, Owns;
      var value;
      ok, value := input.ReadBytes(data.ip);
      WithIpSets(data, tableMsgs, value);
      data := WithIp(data, value);
      AbsorbsText(SchemaMsg, 0, old(input.Rest()), input.budget, ok, value, input.pos - old(input.pos),
                  old(Contents()), Contents());
    }

    method ReadUser(input: CodedInputStream) returns (ok: bool)
      requires Valid() && input.Valid() && input.budget >= 0 && input !in Repr
      modifies this`data, input`pos
      ensures Valid() && input.Moved(old(input.pos), old(input.Rest()), ok)
      ensures Absorbs(SchemaMsg, 2, old(input.Rest()), input.budget, ok, input.pos - old(input.pos),
                      old(Contents()), Contents())
    {
      SchemaSlots();
      ViewShape(data, tableMsgs);
      hide DecodeVarint, ReadBlock, Fields, ReadKnown, Absorbs, View, DataOk, Owns;
      var value;
      ok, value := input.ReadBytes(data.user);
      WithUserSets(data, tableMsgs, value);
      data := WithUser(data, value);
      AbsorbsText(SchemaMsg, 2, old(input.Rest()), input.budget, ok, value, input.pos - old(input.pos),
                  old(Contents()), Contents());
    }

    method ReadPasswd(input: CodedInputStream) returns (ok: bool)
      requires Valid() && input.Valid() && input.budget >= 0 && input !in Repr
      modifies this`data, input`pos
      ensures Valid() && input.Moved(old(input.pos), old(input.Rest()), ok)
      ensures Absorbs(SchemaMsg, 3, old(input.Rest()), input.budget, ok, input.pos - old(input.pos),
                      old(Contents()), Contents())
    {
      SchemaSlots();
      ViewShape(data, tableMsgs);
      hide DecodeVarint, ReadBlock, Fields, ReadKnown, Absorbs, View, DataOk, Owns;
      var value;
      ok, value := input.ReadBytes(data.passwd);
      WithPasswdSets(data, tableMsgs, value);
      data := WithPasswd(data, value);
      AbsorbsText(SchemaMsg, 3, old(input.Rest()), input.budget, ok, value, input.pos - old(input.pos),
                  old(Contents()), Contents());
    }

    method ReadSchemaName(input: CodedInputStream) returns (ok: bool)
      requires Valid() && input.Valid() && input.budget >= 0 && input !in Repr
      modifies this`data, input`pos
      ensures Valid() && input.Moved(old(input.pos), old(input.Rest()), ok)
      ensures Absorbs(SchemaMsg, 4, old(input.Rest()), input.budget, ok, input.pos - old(input.pos),
                      old(Contents()), Contents())
    {
      SchemaSlots();
      ViewShape(data, tableMsgs);
      hide DecodeVarint, ReadBlock, Fields, ReadKnown, Absorbs, View, DataOk, Owns;
      var value;
      ok, value := input.ReadBytes(data.schemaName);
      WithSchemaNameSets(data, tableMsgs, value);
      data := WithSchemaName(data, value);
      AbsorbsText(SchemaMsg, 4, old(input.Rest()), input.budget, ok, value, input.pos - old(input.pos),
                  old(Contents()), Contents());
    }

    method ReadPort(input: CodedInputStream) returns (ok: bool)
      requires Valid() && input.Valid() && input.budget >= 0 && input !in Repr
      modifies this`data, input`pos
      ensures Valid() && input.Moved(old(input.pos), old(input.Rest()), ok)
      ensures Absorbs(SchemaMsg, 1, old(input.Rest()), input.budget, ok, input.pos - old(input.pos),
                      old(Contents()), Contents())
    {
      SchemaSlots();
      ViewShape(data, tableMsgs);
      DataFacts(data);
      hide DecodeVarint, ReadBlock, Fields, ReadKnown, Absorbs, View, DataOk, SignExtend, Owns;
      var value;
      ok, value := input.ReadVarint32();
      var next := if ok then value else data.port;
      WithPortSets(data, tableMsgs, next);
      data := WithPort(data, next);
      AbsorbsVarint(SchemaMsg, 1, old(input.Rest()), input.budget, ok, input.pos - old(input.pos),
                    old(Contents()), Contents());
    }

    method ReadTables(input: CodedInputStream) returns (ok: bool)
      requires Valid() && input.Valid() && input.budget >= 0 && !input.legitimateEnd && input !in Repr
      modifies this`tables, this`tableMsgs, this`Repr, input
      ensures Valid() && fresh(Repr - old(Repr)) && input.Moved(old(input.pos), old(input.Rest()), ok)
      ensures ok ==> input.limit == old(input.limit) && input.budget == old(input.budget) && !input.legitimateEnd
      ensures Absorbs(SchemaMsg, 5, old(input.Rest()), old(input.budget), ok, input.pos - old(input.pos),
                      old(Contents()), Contents())
    {
      SchemaSlots();
      ViewShape(data, tableMsgs);
      hide DecodeVarint, ReadBlock, Fields, ReadKnown, Absorbs, View, DataOk, Owns, MessageRead, Empty,
           T.MysqlTable.Valid, T.MysqlTable.Contents, Tables.ListOk;
      var item := new T.MysqlTable();
      ok := Tables.ReadItem(input, item);
      ghost var m := item.Contents();
      Tables.ListOne(item);
      TableAdded(data, tableMsgs, m);
      AddTables([item], [m], item.Repr);
      AbsorbsMessage(SchemaMsg, 5, TableMsg, old(input.Rest()), old(input.budget), ok, m, input.pos - old(input.pos),
                     old(Contents()), Contents());
    }

    method ParseCase(tag: nat, input: CodedInputStream) returns (known: bool, ok: bool)
      requires Valid() && input.Valid() && input.budget >= 0 && !input.legitimateEnd && input !in Repr
      modifies this`data, this`tables, this`tableMsgs, this`Repr, input
      ensures Valid() && fresh(Repr - old(Repr)) && (known <==> SlotOf(SchemaMsg, tag).Some?)
      ensures !known ==> unchanged(this, input)
      ensures known ==> input.Moved(old(input.pos), old(input.Rest()), ok)
      ensures known && ok ==>
                input.limit == old(input.limit) && input.budget == old(input.budget) && !input.legitimateEnd
      ensures known ==> Absorbs(SchemaMsg, SlotOf(SchemaMsg, tag).value, old(input.Rest()), old(input.budget), ok,
                                input.pos - old(input.pos), old(Contents()), Contents())
    {
      hide Absorbs, View, DataOk, Owns, Fields;
      known, ok := true, true;
      match tag {
        case 10 => ok := ReadIp(input);
        case 16 => ok := ReadPort(input);
        case 26 => ok := ReadUser(input);
        case 34 => ok := ReadPasswd(input);
        case 42 => ok := ReadSchemaName(input);
        case 50 => ok := ReadTables(input);
        case _ => known := false;
      }
    }

    method SkipUnknown(tag: nat, input: CodedInputStream) returns (ok: bool)
      requires Valid() && input.Valid() && input.budget >= 0 && tag < TWO_32 && input !in Repr
      modifies this`data, input
      ensures Valid() && input.Moved(old(input.pos), old(input.Rest()), ok) && input.limit == old(input.limit)
      ensures ok ==> input.budget == old(input.budget) && input.legitimateEnd == old(input.legitimateEnd)
      ensures Skipped(tag, old(input.Rest()), old(input.budget), ok, input.pos - old(input.pos),
                      old(Contents()), Contents())
    {
      hide Wire.SkipField, View, DataOk, AllSized, Owns;
      UnknownReplaced(data, tableMsgs, data.unknown);
      ViewIs(data, tableMsgs);
      ghost var before := data;
      var unknown;
      ok, unknown := input.SkipField(tag, data.unknown);
      UnknownReplaced(before, tableMsgs, unknown);
      data := data.(unknown := unknown);
    }

    method MergePartialFromCodedStream(input: CodedInputStream) returns (ok: bool)
      requires Valid() && input.Valid() && input.budget >= 0 && !input.legitimateEnd && input !in Repr
      modifies this`data, this`tables, this`tableMsgs, this`Repr, input
      ensures Valid() && fresh(Repr - old(Repr)) && input.Valid() && input.pos >= old(input.pos)
      ensures ok ==> input.limit == old(input.limit)
      ensures Outcome(SchemaMsg, old(Contents()), old(input.Rest()), old(input.budget), ok && input.legitimateEnd, Contents())
      ensures ok && input.legitimateEnd ==> input.pos == input.limit && input.budget == old(input.budget)
    {
      hide View, DataOk, Owns, Parse, TagAt, Absorbs, Wire.SkipField, SlotOf, Outcome, Apply;
      ghost var budget: nat := input.budget;
      ghost var start, before := input.Rest(), Contents();
      while true
        invariant Valid() && fresh(Repr - old(Repr)) && input !in Repr
        invariant input.Valid() && input.limit == old(input.limit) && input.pos >= old(input.pos)
        invariant input.budget == budget && !input.legitimateEnd
        invariant Parse(SchemaMsg, before, start, budget) == Parse(SchemaMsg, Contents(), input.Rest(), budget)
        decreases input.limit - input.pos
      {
        ghost var rest, at, now := input.Rest(), input.pos, Contents();
        var tag := input.ReadTag();
        if tag == 0 {
          EndStep(SchemaMsg, now, rest, budget);
          TagOutcome(SchemaMsg, before, now, start, rest, budget, rest == [], now);
          return true;
        }
        ghost var n := input.pos - at;
        var known;
        known, ok := ParseCase(tag, input);
        if known {
          KnownStep(SchemaMsg, now, Contents(), rest, tag, n, ok, input.pos - at - n, budget);
        } else {
          ok := SkipUnknown(tag, input);
          UnknownStep(SchemaMsg, now, rest, tag, n, budget);
        }
        if !ok {
          ParseFailed(SchemaMsg, before, now, start, rest, budget, Contents());
          return false;
        }
      }
    }

    // ----- sizes and serializers -----

    /** The size of the serialized message; the size of every message in the tree is cached on the way. */
    method ByteSizeLong() returns (total: nat)
      requires Valid()
      modifies Repr
      ensures Valid() && Contents() == old(Contents()) && Repr == old(Repr)
      ensures Agrees(total, |Encode(SchemaMsg, Contents())|) && cachedSize == ToCachedSize(total)
      ensures |Encode(SchemaMsg, Contents())| <= INT_MAX ==> CachesRight()
    {
      hide *;
      Unfold();
      total := UnknownFieldsSize(data.unknown);
      var repeated := Tables.SizeAll(tables, tableMsgs, Repr - {this}, 50);
      SchemaSizeAgrees(data, tableMsgs, total, repeated);
      ScalarsSizeIs(data);
      total := total + repeated;
      if AnyOfFive(data.hasBits) {
        total := AddStringSize(total, data.hasBits.b0, data.ip);
        total := AddStringSize(total, data.hasBits.b1, data.user);
        total := AddStringSize(total, data.hasBits.b2, data.passwd);
        total := AddStringSize(total, data.hasBits.b3, data.schemaName);
        total := AddNumberSize(total, data.hasBits.b4, data.port);
      }
      Unfold();
      cachedSize := ToCachedSize(total);
      Unfold();
    }

    method SerializeWithCachedSizes(output: CodedOutputStream)
      requires Valid() && CachesRight() && output !in Repr
      modifies output
      ensures output.written == old(output.written) + Encode(SchemaMsg, Contents())
    {
      hide *;
      Unfold();
      EncodeIs(data, tableMsgs);
      SerializeScalars(data, output);
      Tables.WriteAll(50, tables, tableMsgs, Repr - {this}, output);
      output.WriteUnknownFields(data.unknown);
    }

    static method SerializeScalars(d: SchemaData, output: CodedOutputStream)
      modifies output
      ensures output.written == old(output.written) + ScalarBytes(d)
    {
      hide *;
      SlotsAre(d);
      ScalarBytesIs(d);
      output.WriteOptional(FieldSpec(1, Str), d.hasBits.b0, Text(d.ip));
      output.WriteOptional(FieldSpec(2, UInt32), d.hasBits.b4, Num(d.port));
      output.WriteOptional(FieldSpec(3, Str), d.hasBits.b1, Text(d.user));
      output.WriteOptional(FieldSpec(4, Str), d.hasBits.b2, Text(d.passwd));
      output.WriteOptional(FieldSpec(5, Str), d.hasBits.b3, Text(d.schemaName));
    }

    method InternalSerializeWithCachedSizesToArray(target: array<byte>, pos: nat) returns (end: nat)
      requires Valid() && CachesRight() && target !in Repr
      requires pos + |Encode(SchemaMsg, Contents())| <= target.Length
      modifies target
      ensures end == pos + |Encode(SchemaMsg, Contents())|
      ensures Wrote(old(target[..]), target[..], pos, Encode(SchemaMsg, Contents()))
    {
      hide *;
      Unfold();
      EncodeIs(data, tableMsgs);
      ghost var x := ScalarBytes(data);
      ghost var y := EncodeMessages(50, TableMsg, tableMsgs);
      ghost var a := target[..];
      end := ScalarsToArray(data, target, pos);
      ghost var b := target[..];
      end := Tables.WriteAllToArray(target, end, 50, tables, tableMsgs, Repr - {this});
      WroteThen(a, b, target[..], pos, x, y);
      end := AppendUnknownFieldsToArray(target, end, data.unknown, a, pos, x + y);
    }

    static method ScalarsToArray(d: SchemaData, target: array<byte>, pos: nat) returns (end: nat)
      requires pos + |ScalarBytes(d)| <= target.Length
      modifies target
      ensures end == pos + |ScalarBytes(d)| && Wrote(old(target[..]), target[..], pos, ScalarBytes(d))
    {
      hide *;
      SlotsAre(d);
      ScalarBytesIs(d);
      ghost var x := EncodeField(FieldSpec(1, Str), SlotAt(d, 0));
      ghost var y := x + EncodeField(FieldSpec(2, UInt32), SlotAt(d, 1));
      ghost var z := y + EncodeField(FieldSpec(3, Str), SlotAt(d, 2));
      ghost var w := z + EncodeField(FieldSpec(4, Str), SlotAt(d, 3));
      ghost var start := target[..];
      end := WriteOptionalToArray(target, pos, FieldSpec(1, Str), d.hasBits.b0, Text(d.ip));
      end := AppendOptionalToArray(target, end, FieldSpec(2, UInt32), d.hasBits.b4, Num(d.port), start, pos, x);
      end := AppendOptionalToArray(target, end, FieldSpec(3, Str), d.hasBits.b1, Text(d.user), start, pos, y);
      end := AppendOptionalToArray(target, end, FieldSpec(4, Str), d.hasBits.b2, Text(d.passwd), start, pos, z);
      end := AppendOptionalToArray(target, end, FieldSpec(5, Str), d.hasBits.b3, Text(d.schemaName), start, pos, w);
    }
  }

  /** The strings emptied, when any bit under the mask 15 is set. */
  function StringsCleared(d: SchemaData): SchemaData {
    d.(ip := if d.hasBits.b0 then [] else d.ip, user := if d.hasBits.b1 then [] else d.user,
       passwd := if d.hasBits.b2 then [] else d.passwd, schemaName := if d.hasBits.b3 then [] else d.schemaName)
  }

  lemma ClearedIsDefault(d: SchemaData)
    requires DataOk(d)
    ensures StringsCleared(d).(port := 0, hasBits := NO_BITS, unknown := []) == DEFAULT
  {
    hide AllSized;
  }
}
