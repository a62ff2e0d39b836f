/** The generated class for a table column. */
module TableFields {
  import opened Options
  import opened Wire
  import opened Schema
  import opened Sizes
  import opened Streams
  import opened Effects
  import opened Writers
  import MergeLaws

  // ----- the members of an object -----

  datatype FieldData = FieldData(
    hasBits: HasBits, name: bytes, defaultValue: bytes, renameFrom: bytes, notNull: bool, autoIncr: bool,
    isDelete: bool, varcharLen: nat, fieldType: nat, modifyType: nat, unknown: seq<Unknown>)

  /** The exact state of a new or cleared object. */
  const DEFAULT := FieldData(NO_BITS, [], [], [], false, false, false, 255, 1, 1, [])

  /** Field `i` in serialization order, present if its bit is set. */
  function SlotAt(d: FieldData, i: nat): Slot {
    match i
    case 0 => Optional(d.hasBits.b0, Text(d.name))
    case 1 => Optional(d.hasBits.b7, Num(d.fieldType))
    case 2 => Optional(d.hasBits.b3, BoolValue(d.notNull))
    case 3 => Optional(d.hasBits.b4, BoolValue(d.autoIncr))
    case 4 => Optional(d.hasBits.b1, Text(d.defaultValue))
    case 5 => Optional(d.hasBits.b2, Text(d.renameFrom))
    case 6 => Optional(d.hasBits.b8, Num(d.modifyType))
    case 7 => Optional(d.hasBits.b6, Num(d.varcharLen))
    case _ => Optional(d.hasBits.b5, BoolValue(d.isDelete))
  }

  /** The message value the members stand for. */
  function View(d: FieldData): Msg {
    Msg(seq(9, i requires 0 <= i < 9 => SlotAt(d, i)), d.unknown)
  }

  /** A field whose presence bit is clear holds its default. */
  predicate AbsentIsDefault(d: FieldData) {
    && (!d.hasBits.b0 ==> d.name == [])
    && (!d.hasBits.b1 ==> d.defaultValue == [])
    && (!d.hasBits.b2 ==> d.renameFrom == [])
    && (!d.hasBits.b3 ==> !d.notNull)
    && (!d.hasBits.b4 ==> !d.autoIncr)
    && (!d.hasBits.b5 ==> !d.isDelete)
    && (!d.hasBits.b6 ==> d.varcharLen == 255)
    && (!d.hasBits.b7 ==> d.fieldType == 1)
    && (!d.hasBits.b8 ==> d.modifyType == 1)
  }

  predicate DataOk(d: FieldData) {
    && AbsentIsDefault(d)
    && d.varcharLen < TWO_32 && EnumRange(d.fieldType, 12) && EnumRange(d.modifyType, 12)
    && AllSized(d.unknown)
  }

  // ----- making one field present sets its slot, keeps the others, and keeps the invariant -----

  function WithName(d: FieldData, v: bytes): FieldData { d.(hasBits := d.hasBits.(b0 := true), name := v) }

  lemma WithNameSets(d: FieldData, v: bytes)
    requires DataOk(d)
    ensures DataOk(WithName(d, v)) && View(WithName(d, v)) == WithSlot(View(d), 0, Scalar(Some(Text(v))))
  {
    WithNameOk(d, v);
    hide DataOk, Optional, BoolValue;
    OptionalPresent(Text(v));
    assert View(WithName(d, v)).slots == WithSlot(View(d), 0, Scalar(Some(Text(v)))).slots;
  }

  lemma WithNameOk(d: FieldData, v: bytes)
    requires DataOk(d)
    ensures DataOk(WithName(d, v))
  {
    hide AllSized;
  }

  function WithFieldType(d: FieldData, v: nat): FieldData { d.(hasBits := d.hasBits.(b7 := true), fieldType := v) }

  lemma WithFieldTypeSets(d: FieldData, v: nat)
    requires DataOk(d) && EnumRange(v, 12)
    ensures DataOk(WithFieldType(d, v)) && View(WithFieldType(d, v)) == WithSlot(View(d), 1, Scalar(Some(Num(v))))
  {
    WithFieldTypeOk(d, v);
    hide DataOk, Optional, BoolValue;
    OptionalPresent(Num(v));
    assert View(WithFieldType(d, v)).slots == WithSlot(View(d), 1, Scalar(Some(Num(v)))).slots;
  }

  lemma WithFieldTypeOk(d: FieldData, v: nat)
    requires DataOk(d) && EnumRange(v, 12)
    ensures DataOk(WithFieldType(d, v))
  {
    hide AllSized;
  }

  function WithNotNull(d: FieldData, v: bool): FieldData { d.(hasBits := d.hasBits.(b3 := true), notNull := v) }

  lemma WithNotNullSets(d: FieldData, v: bool)
    requires DataOk(d)
    ensures DataOk(WithNotNull(d, v)) && View(WithNotNull(d, v)) == WithSlot(View(d), 2, Scalar(Some(BoolValue(v))))
  {
    WithNotNullOk(d, v);
    hide DataOk, Optional, BoolValue;
    OptionalPresent(BoolValue(v));
    assert View(WithNotNull(d, v)).slots == WithSlot(View(d), 2, Scalar(Some(BoolValue(v)))).slots;
  }

  lemma WithNotNullOk(d: FieldData, v: bool)
    requires DataOk(d)
    ensures DataOk(WithNotNull(d, v))
  {
    hide AllSized;
  }

  function WithAutoIncr(d: FieldData, v: bool): FieldData { d.(hasBits := d.hasBits.(b4 := true), autoIncr := v) }

  lemma WithAutoIncrSets(d: FieldData, v: bool)
    requires DataOk(d)
    ensures DataOk(WithAutoIncr(d, v)) && View(WithAutoIncr(d, v)) == WithSlot(View(d), 3, Scalar(Some(BoolValue(v))))
  {
    WithAutoIncrOk(d, v);
    hide DataOk, Optional, BoolValue;
    OptionalPresent(BoolValue(v));
    assert View(WithAutoIncr(d, v)).slots == WithSlot(View(d), 3, Scalar(Some(BoolValue(v)))).slots;
  }

  lemma WithAutoIncrOk(d: FieldData, v: bool)
    requires DataOk(d)
    ensures DataOk(WithAutoIncr(d, v))
  {
    hide AllSized;
  }

  function WithDefault(d: FieldData, v: bytes): FieldData { d.(hasBits := d.hasBits.(b1 := true), defaultValue := v) }

  lemma WithDefaultSets(d: FieldData, v: bytes)
    requires DataOk(d)
    ensures DataOk(WithDefault(d, v)) && View(WithDefault(d, v)) == WithSlot(View(d), 4, Scalar(Some(Text(v))))
  {
    WithDefaultOk(d, v);
    hide DataOk, Optional, BoolValue;
    OptionalPresent(Text(v));
    assert View(WithDefault(d, v)).slots == WithSlot(View(d), 4, Scalar(Some(Text(v)))).slots;
  }

  lemma WithDefaultOk(d: FieldData, v: bytes)
    requires DataOk(d)
    ensures DataOk(WithDefault(d, v))
  {
    hide AllSized;
  }

  function WithRenameFrom(d: FieldData, v: bytes): FieldData { d.(hasBits := d.hasBits.(b2 := true), renameFrom := v) }

  lemma WithRenameFromSets(d: FieldData, v: bytes)
    requires DataOk(d)
    ensures DataOk(WithRenameFrom(d, v)) && View(WithRenameFrom(d, v)) == WithSlot(View(d), 5, Scalar(Some(Text(v))))
  {
    WithRenameFromOk(d, v);
    hide DataOk, Optional, BoolValue;
    OptionalPresent(Text(v));
    assert View(WithRenameFrom(d, v)).slots == WithSlot(View(d), 5, Scalar(Some(Text(v)))).slots;
  }

  lemma WithRenameFromOk(d: FieldData, v: bytes)
    requires DataOk(d)
    ensures DataOk(WithRenameFrom(d, v))
  {
    hide AllSized;
  }

  function WithModifyType(d: FieldData, v: nat): FieldData { d.(hasBits := d.hasBits.(b8 := true), modifyType := v) }

  lemma WithModifyTypeSets(d: FieldData, v: nat)
    requires DataOk(d) && EnumRange(v, 12)
    ensures DataOk(WithModifyType(d, v)) && View(WithModifyType(d, v)) == WithSlot(View(d), 6, Scalar(Some(Num(v))))
  {
    WithModifyTypeOk(d, v);
    hide DataOk, Optional, BoolValue;
    OptionalPresent(Num(v));
    assert View(WithModifyType(d, v)).slots == WithSlot(View(d), 6, Scalar(Some(Num(v)))).slots;
  }

  lemma WithModifyTypeOk(d: FieldData, v: nat)
    requires DataOk(d) && EnumRange(v, 12)
    ensures DataOk(WithModifyType(d, v))
  {
    hide AllSized;
  }

  function WithVarcharLen(d: FieldData, v: nat): FieldData { d.(hasBits := d.hasBits.(b6 := true), varcharLen := v) }

  lemma WithVarcharLenSets(d: FieldData, v: nat)
    requires DataOk(d) && v < TWO_32
    ensures DataOk(WithVarcharLen(d, v)) && View(WithVarcharLen(d, v)) == WithSlot(View(d), 7, Scalar(Some(Num(v))))
  {
    WithVarcharLenOk(d, v);
    hide DataOk, Optional, BoolValue;
    OptionalPresent(Num(v));
    assert View(WithVarcharLen(d, v)).slots == WithSlot(View(d), 7, Scalar(Some(Num(v)))).slots;
  }

  lemma WithVarcharLenOk(d: FieldData, v: nat)
    requires DataOk(d) && v < TWO_32
    ensures DataOk(WithVarcharLen(d, v))
  {
    hide AllSized;
  }

  function WithIsDelete(d: FieldData, v: bool): FieldData { d.(hasBits := d.hasBits.(b5 := true), isDelete := v) }

  lemma WithIsDeleteSets(d: FieldData, v: bool)
    requires DataOk(d)
    ensures DataOk(WithIsDelete(d, v)) && View(WithIsDelete(d, v)) == WithSlot(View(d), 8, Scalar(Some(BoolValue(v))))
  {
    WithIsDeleteOk(d, v);
    hide DataOk, Optional, BoolValue;
    OptionalPresent(BoolValue(v));
    assert View(WithIsDelete(d, v)).slots == WithSlot(View(d), 8, Scalar(Some(BoolValue(v)))).slots;
  }

  lemma WithIsDeleteOk(d: FieldData, v: bool)
    requires DataOk(d)
    ensures DataOk(WithIsDelete(d, v))
  {
    hide AllSized;
  }

  // ----- making one field absent keeps the invariant -----

  function WithoutName(d: FieldData): FieldData { d.(name := [], hasBits := d.hasBits.(b0 := false)) }

  lemma WithoutNameOk(d: FieldData)
    requires DataOk(d)
    ensures DataOk(WithoutName(d))
  {
    hide AllSized;
  }

  function WithoutFieldType(d: FieldData): FieldData { d.(fieldType := 1, hasBits := d.hasBits.(b7 := false)) }

  lemma WithoutFieldTypeOk(d: FieldData)
    requires DataOk(d)
    ensures DataOk(WithoutFieldType(d))
  {
    hide AllSized;
  }

  function WithoutNotNull(d: FieldData): FieldData { d.(notNull := false, hasBits := d.hasBits.(b3 := false)) }

  lemma WithoutNotNullOk(d: FieldData)
    requires DataOk(d)
    ensures DataOk(WithoutNotNull(d))
  {
    hide AllSized;
  }

  function WithoutAutoIncr(d: FieldData): FieldData { d.(autoIncr := false, hasBits := d.hasBits.(b4 := false)) }

  lemma WithoutAutoIncrOk(d: FieldData)
    requires DataOk(d)
    ensures DataOk(WithoutAutoIncr(d))
  {
    hide AllSized;
  }

  function WithoutDefault(d: FieldData): FieldData { d.(defaultValue := [], hasBits := d.hasBits.(b1 := false)) }

  lemma WithoutDefaultOk(d: FieldData)
    requires DataOk(d)
    ensures DataOk(WithoutDefault(d))
  {
    hide AllSized;
  }

  function WithoutRenameFrom(d: FieldData): FieldData { d.(renameFrom := [], hasBits := d.hasBits.(b2 := false)) }

  lemma WithoutRenameFromOk(d: FieldData)
    requires DataOk(d)
    ensures DataOk(WithoutRenameFrom(d))
  {
    hide AllSized;
  }

  function WithoutModifyType(d: FieldData): FieldData { d.(modifyType := 1, hasBits := d.hasBits.(b8 := false)) }

  lemma WithoutModifyTypeOk(d: FieldData)
    requires DataOk(d)
    ensures DataOk(WithoutModifyType(d))
  {
    hide AllSized;
  }

  function WithoutVarcharLen(d: FieldData): FieldData { d.(varcharLen := 255, hasBits := d.hasBits.(b6 := false)) }

  lemma WithoutVarcharLenOk(d: FieldData)
    requires DataOk(d)
    ensures DataOk(WithoutVarcharLen(d))
  {
    hide AllSized;
  }

  function WithoutIsDelete(d: FieldData): FieldData { d.(isDelete := false, hasBits := d.hasBits.(b5 := false)) }

  lemma WithoutIsDeleteOk(d: FieldData)
    requires DataOk(d)
    ensures DataOk(WithoutIsDelete(d))
  {
    hide AllSized;
  }

  lemma UnknownAppended(d: FieldData, u: Unknown)
    requires DataOk(d) && Sized(u)
    ensures var e := d.(unknown := d.unknown + [u]);
            DataOk(e) && View(e) == Apply(View(d), AddUnknown(u))
  {
    hide Sized;
    assert View(d.(unknown := d.unknown + [u])).slots == View(d).slots;
  }

  /** The unknown fields are apart from everything else. */
  lemma UnknownReplaced(d: FieldData)
    requires DataOk(d)
    ensures AllSized(d.unknown)
    ensures forall us :: AllSized(us) ==>
              DataOk(d.(unknown := us)) && View(d.(unknown := us)) == View(d).(unknown := us)
  {
    forall us | AllSized(us) ensures DataOk(d.(unknown := us)) && View(d.(unknown := us)) == View(d).(unknown := us) {
      hide AllSized;
      assert View(d.(unknown := us)).slots == View(d).slots;
    }
  }

  // ----- defaults and merging -----

  lemma DefaultIsEmpty()
    ensures DataOk(DEFAULT) && View(DEFAULT) == Empty(FieldMsg)
  {
    FieldSlots();
    forall i: nat | i < 9 ensures SlotAt(DEFAULT, i) == EmptySlot(Fields(FieldMsg)[i].kind) {
      match i { case 0 => case 1 => case 2 => case 3 => case 4 => case 5 => case 6 => case 7 => case _ => }
    }
    hide SlotAt, EmptySlot, Fields;
    assert View(DEFAULT).slots == Empty(FieldMsg).slots;
  }

  lemma ViewShape(d: FieldData)
    ensures Shape(FieldMsg, View(d)) && forall i :: 0 <= i < 9 ==> View(d).slots[i].Scalar?
  {
    FieldSlots();
    hide Fields;
    forall i: nat | i < 9 ensures SlotAt(d, i).Scalar? && SlotShape(Fields(FieldMsg)[i].kind, SlotAt(d, i)) {
      match i { case 0 => case 1 => case 2 => case 3 => case 4 => case 5 => case 6 => case 7 => case _ => }
    }
    hide SlotAt, SlotShape;
  }

  /** Some bit under the mask 255 is set. */
  predicate AnyOfEight(b: HasBits) { b.b0 || b.b1 || b.b2 || b.b3 || b.b4 || b.b5 || b.b6 || b.b7 }

  /** The first eight fields of `e`, where present, over those of `d`. */
  function LowMerge(d: FieldData, e: FieldData): FieldData {
    var bits := e.hasBits;
    FieldData(
      Or(d.hasBits, bits),
      if bits.b0 then e.name else d.name,
      if bits.b1 then e.defaultValue else d.defaultValue,
      if bits.b2 then e.renameFrom else d.renameFrom,
      if bits.b3 then e.notNull else d.notNull,
      if bits.b4 then e.autoIncr else d.autoIncr,
      if bits.b5 then e.isDelete else d.isDelete,
      if bits.b6 then e.varcharLen else d.varcharLen,
      if bits.b7 then e.fieldType else d.fieldType,
      d.modifyType, d.unknown)
  }

  /** `d` with the present fields of `e` over it and the unknown fields of both. */
  function MergeData(d: FieldData, e: FieldData): FieldData {
    LowMerge(d, e).(modifyType := if e.hasBits.b8 then e.modifyType else d.modifyType,
                    unknown := d.unknown + e.unknown)
  }

  lemma MergeSlotAt(d: FieldData, e: FieldData, j: nat)
    requires j < 9
    ensures SlotAt(MergeData(d, e), j) == MergeSlot(SlotAt(d, j), SlotAt(e, j))
  {
    hide MergeSlot, Optional, BoolValue;
    match j {
      case 0 => OptionalMerge(d.hasBits.b0, Text(d.name), e.hasBits.b0, Text(e.name));
      case 1 => OptionalMerge(d.hasBits.b7, Num(d.fieldType), e.hasBits.b7, Num(e.fieldType));
      case 2 => OptionalMerge(d.hasBits.b3, BoolValue(d.notNull), e.hasBits.b3, BoolValue(e.notNull));
      case 3 => OptionalMerge(d.hasBits.b4, BoolValue(d.autoIncr), e.hasBits.b4, BoolValue(e.autoIncr));
      case 4 => OptionalMerge(d.hasBits.b1, Text(d.defaultValue), e.hasBits.b1, Text(e.defaultValue));
      case 5 => OptionalMerge(d.hasBits.b2, Text(d.renameFrom), e.hasBits.b2, Text(e.renameFrom));
      case 6 => OptionalMerge(d.hasBits.b8, Num(d.modifyType), e.hasBits.b8, Num(e.modifyType));
      case 7 => OptionalMerge(d.hasBits.b6, Num(d.varcharLen), e.hasBits.b6, Num(e.varcharLen));
      case _ => OptionalMerge(d.hasBits.b5, BoolValue(d.isDelete), e.hasBits.b5, BoolValue(e.isDelete));
    }
  }

  lemma MergeDataMerges(d: FieldData, e: FieldData)
    requires DataOk(d) && DataOk(e)
    ensures DataOk(MergeData(d, e)) && View(MergeData(d, e)) == Merge(View(d), View(e))
  {
    MergeKeepsOk(d, e);
    hide DataOk, MergeSlot, SlotAt;
    forall j: nat | j < 9 ensures SlotAt(MergeData(d, e), j) == MergeSlot(SlotAt(d, j), SlotAt(e, j)) {
      MergeSlotAt(d, e, j);
    }
    assert View(MergeData(d, e)).slots == Merge(View(d), View(e)).slots;
  }

  /** What the guarded assignments of the merge leave. */
  function GuardedMerge(d: FieldData, e: FieldData): FieldData {
    var bits := e.hasBits;
    var start := d.(unknown := d.unknown + e.unknown);
    var low := if AnyOfEight(bits) then LowMerge(start, e) else start;
    if bits.b8 then WithModifyType(low, e.modifyType) else low
  }

  /** The guard over the first eight bits loses nothing. */
  lemma GuardedMergeIsMerge(d: FieldData, e: FieldData)
    ensures GuardedMerge(d, e) == MergeData(d, e)
  {
    var start := d.(unknown := d.unknown + e.unknown);
    OrHighBit(d.hasBits, e.hasBits);
    LowMergeRest(start, e);
    LowMergeRest(d, e);
    LowMergeUnknown(d, e, start.unknown);
    hide Or, LowMerge;
  }

  lemma LowMergeRest(d: FieldData, e: FieldData)
    ensures LowMerge(d, e).hasBits == Or(d.hasBits, e.hasBits) && LowMerge(d, e).modifyType == d.modifyType
    ensures !AnyOfEight(e.hasBits) ==> LowMerge(d, e) == d.(hasBits := Or(d.hasBits, e.hasBits))
  {
    hide Or;
  }

  lemma LowMergeUnknown(d: FieldData, e: FieldData, us: seq<Unknown>)
    ensures LowMerge(d.(unknown := us), e) == LowMerge(d, e).(unknown := us)
  {
    hide Or;
  }

  lemma OrHighBit(x: HasBits, y: HasBits)
    ensures y.b8 ==> Or(x, y).(b8 := true) == Or(x, y)
    ensures !AnyOfEight(y) ==>
              Or(x, y) == x.(b8 := x.b8 || y.b8)
  {
  }

  /** What the guarded resets leave. */
  function GuardedClear(d: FieldData): FieldData {
    var bits := d.hasBits;
    FieldData(
      NO_BITS,
      if bits.b0 then [] else d.name,
      if bits.b1 then [] else d.defaultValue,
      if bits.b2 then [] else d.renameFrom,
      false, false, false,
      if bits.b6 || bits.b7 then 255 else d.varcharLen,
      if bits.b6 || bits.b7 then 1 else d.fieldType,
      1, [])
  }

  /** The mask-guarded reset reaches the exact default state because absent members hold their defaults. */
  lemma GuardedClearIsDefault(d: FieldData)
    requires DataOk(d)
    ensures GuardedClear(d) == DEFAULT
  {
    hide AllSized;
  }

  lemma MergeKeepsOk(d: FieldData, e: FieldData)
    requires DataOk(d) && DataOk(e)
    ensures DataOk(MergeData(d, e))
  {
    hide Sized;
  }

  // ----- the serialized fields, three at a time -----

  /** The bytes of field `k` in serialization order, none when it is absent. */
  function FieldBytes(d: FieldData, k: nat): bytes {
    match k
    case 0 => EncodeField(FieldSpec(1, Str), Optional(d.hasBits.b0, Text(d.name)))
    case 1 => EncodeField(FieldSpec(2, Enum(12)), Optional(d.hasBits.b7, Num(d.fieldType)))
    case 2 => EncodeField(FieldSpec(3, Bool), Optional(d.hasBits.b3, BoolValue(d.notNull)))
    case 3 => EncodeField(FieldSpec(4, Bool), Optional(d.hasBits.b4, BoolValue(d.autoIncr)))
    case 4 => EncodeField(FieldSpec(5, Str), Optional(d.hasBits.b1, Text(d.defaultValue)))
    case 5 => EncodeField(FieldSpec(7, Str), Optional(d.hasBits.b2, Text(d.renameFrom)))
    case 6 => EncodeField(FieldSpec(8, Enum(12)), Optional(d.hasBits.b8, Num(d.modifyType)))
    case 7 => EncodeField(FieldSpec(9, UInt32), Optional(d.hasBits.b6, Num(d.varcharLen)))
    case _ => EncodeField(FieldSpec(10, Bool), Optional(d.hasBits.b5, BoolValue(d.isDelete)))
  }

  /** Fields `3i`, `3i + 1` and `3i + 2`. */
  function Group(d: FieldData, i: nat): bytes {
    FieldBytes(d, 3 * i) + FieldBytes(d, 3 * i + 1) + FieldBytes(d, 3 * i + 2)
  }

  lemma FieldBytesIs(d: FieldData, k: nat)
    requires k < 9
    ensures FieldBytes(d, k) == EncodeField(Fields(FieldMsg)[k], SlotAt(d, k))
  {
    FieldSlots();
    hide EncodeField, Optional, BoolValue, Fields;
    match k { case 0 => case 1 => case 2 => case 3 => case 4 => case 5 => case 6 => case 7 => case _ => }
  }

  lemma {:induction false} SlotsAreFieldBytes(d: FieldData, k: nat)
    requires k < 9
    ensures EncodeSlots(FieldMsg, View(d), k + 1) == EncodeSlots(FieldMsg, View(d), k) + FieldBytes(d, k)
  {
    FieldSlots();
    FieldBytesIs(d, k);
    hide EncodeField, Fields, SlotAt, FieldBytes, EncodeSlots;
    EncodeNext(FieldMsg, View(d), k);
  }

  lemma GroupStep(d: FieldData, k: nat)
    requires k < 7
    ensures EncodeSlots(FieldMsg, View(d), k + 3)
         == EncodeSlots(FieldMsg, View(d), k) + (FieldBytes(d, k) + FieldBytes(d, k + 1) + FieldBytes(d, k + 2))
  {
    hide *;
    SlotsAreFieldBytes(d, k);
    SlotsAreFieldBytes(d, k + 1);
    SlotsAreFieldBytes(d, k + 2);
  }

  lemma EncodeIsGroups(d: FieldData)
    ensures Encode(FieldMsg, View(d)) == Group(d, 0) + Group(d, 1) + Group(d, 2) + EncodeUnknowns(d.unknown)
  {
    hide *;
    FieldSlots();
    ViewUnknown(d);
    EncodeNone(FieldMsg, View(d));
    GroupsAre(d);
    GroupStep(d, 0);
    GroupStep(d, 3);
    GroupStep(d, 6);
  }

  lemma ViewUnknown(d: FieldData)
    ensures View(d).unknown == d.unknown
  {
  }

  lemma GroupsAre(d: FieldData)
    ensures Group(d, 0) == FieldBytes(d, 0) + FieldBytes(d, 1) + FieldBytes(d, 2)
    ensures Group(d, 1) == FieldBytes(d, 3) + FieldBytes(d, 4) + FieldBytes(d, 5)
    ensures Group(d, 2) == FieldBytes(d, 6) + FieldBytes(d, 7) + FieldBytes(d, 8)
  {
    hide FieldBytes;
  }

  lemma FieldBytesAre(d: FieldData)
    ensures FieldBytes(d, 0) == EncodeField(FieldSpec(1, Str), Optional(d.hasBits.b0, Text(d.name)))
    ensures FieldBytes(d, 1) == EncodeField(FieldSpec(2, Enum(12)), Optional(d.hasBits.b7, Num(d.fieldType)))
    ensures FieldBytes(d, 2) == EncodeField(FieldSpec(3, Bool), Optional(d.hasBits.b3, BoolValue(d.notNull)))
    ensures FieldBytes(d, 3) == EncodeField(FieldSpec(4, Bool), Optional(d.hasBits.b4, BoolValue(d.autoIncr)))
    ensures FieldBytes(d, 4) == EncodeField(FieldSpec(5, Str), Optional(d.hasBits.b1, Text(d.defaultValue)))
    ensures FieldBytes(d, 5) == EncodeField(FieldSpec(7, Str), Optional(d.hasBits.b2, Text(d.renameFrom)))
    ensures FieldBytes(d, 6) == EncodeField(FieldSpec(8, Enum(12)), Optional(d.hasBits.b8, Num(d.modifyType)))
    ensures FieldBytes(d, 7) == EncodeField(FieldSpec(9, UInt32), Optional(d.hasBits.b6, Num(d.varcharLen)))
    ensures FieldBytes(d, 8) == EncodeField(FieldSpec(10, Bool), Optional(d.hasBits.b5, BoolValue(d.isDelete)))
  {
    hide EncodeField, Optional, BoolValue;
  }

  // ----- sizes -----

  /** What field `k` adds to the size. */
  function FieldSize(d: FieldData, k: nat): nat {
    match k
    case 0 => ScalarSize(d.hasBits.b0, Text(d.name))
    case 1 => ScalarSize(d.hasBits.b7, Num(d.fieldType))
    case 2 => ScalarSize(d.hasBits.b3, BoolValue(d.notNull))
    case 3 => ScalarSize(d.hasBits.b4, BoolValue(d.autoIncr))
    case 4 => ScalarSize(d.hasBits.b1, Text(d.defaultValue))
    case 5 => ScalarSize(d.hasBits.b2, Text(d.renameFrom))
    case 6 => ScalarSize(d.hasBits.b8, Num(d.modifyType))
    case 7 => ScalarSize(d.hasBits.b6, Num(d.varcharLen))
    case _ => ScalarSize(d.hasBits.b5, BoolValue(d.isDelete))
  }

  lemma FieldSizeAgrees(d: FieldData, k: nat)
    requires k < 9 && d.varcharLen < TWO_32 && EnumRange(d.fieldType, 12) && EnumRange(d.modifyType, 12)
    ensures Agrees(FieldSize(d, k), |FieldBytes(d, k)|)
  {
    hide EncodeField, Optional, ScalarSize, Agrees;
    match k {
      case 0 => ScalarSizeAgrees(FieldSpec(1, Str), d.hasBits.b0, Text(d.name));
      case 1 => ScalarSizeAgrees(FieldSpec(2, Enum(12)), d.hasBits.b7, Num(d.fieldType));
      case 2 => ScalarSizeAgrees(FieldSpec(3, Bool), d.hasBits.b3, BoolValue(d.notNull));
      case 3 => ScalarSizeAgrees(FieldSpec(4, Bool), d.hasBits.b4, BoolValue(d.autoIncr));
      case 4 => ScalarSizeAgrees(FieldSpec(5, Str), d.hasBits.b1, Text(d.defaultValue));
      case 5 => ScalarSizeAgrees(FieldSpec(7, Str), d.hasBits.b2, Text(d.renameFrom));
      case 6 => ScalarSizeAgrees(FieldSpec(8, Enum(12)), d.hasBits.b8, Num(d.modifyType));
      case 7 => ScalarSizeAgrees(FieldSpec(9, UInt32), d.hasBits.b6, Num(d.varcharLen));
      case _ => ScalarSizeAgrees(FieldSpec(10, Bool), d.hasBits.b5, BoolValue(d.isDelete));
    }
  }

  function GroupSize(d: FieldData, i: nat): nat {
    FieldSize(d, 3 * i) + FieldSize(d, 3 * i + 1) + FieldSize(d, 3 * i + 2)
  }

  lemma GroupSizeAgrees(d: FieldData, i: nat)
    requires i < 3 && d.varcharLen < TWO_32 && EnumRange(d.fieldType, 12) && EnumRange(d.modifyType, 12)
    ensures Agrees(GroupSize(d, i), |Group(d, i)|)
  {
    hide FieldSize, FieldBytes;
    FieldSizeAgrees(d, 3 * i);
    FieldSizeAgrees(d, 3 * i + 1);
    FieldSizeAgrees(d, 3 * i + 2);
  }

  /** Every field and the unknown fields, in whatever order they are added up. */
  function DataSize(d: FieldData): nat {
    GroupSize(d, 0) + GroupSize(d, 1) + GroupSize(d, 2) + UnknownFieldsSize(d.unknown)
  }

  lemma DataSizeIs(d: FieldData)
    ensures DataSize(d) == GroupSize(d, 0) + GroupSize(d, 1) + GroupSize(d, 2) + UnknownFieldsSize(d.unknown)
  {
    hide GroupSize;
  }

  lemma DataSizeAgrees(d: FieldData)
    requires DataOk(d)
    ensures Agrees(DataSize(d), |Encode(FieldMsg, View(d))|)
  {
    assert AllSized(d.unknown) && d.varcharLen < TWO_32 && EnumRange(d.fieldType, 12) && EnumRange(d.modifyType, 12);
    DataSizeIs(d);
    hide *;
    UnknownFieldsSizeAgrees(d.unknown);
    GroupSizeAgrees(d, 0);
    GroupSizeAgrees(d, 1);
    GroupSizeAgrees(d, 2);
    EncodeIsGroups(d);
    AgreesSum(GroupSize(d, 0), |Group(d, 0)|, GroupSize(d, 1), |Group(d, 1)|);
    AgreesSum(GroupSize(d, 0) + GroupSize(d, 1), |Group(d, 0)| + |Group(d, 1)|, GroupSize(d, 2), |Group(d, 2)|);
    AgreesSum(GroupSize(d, 0) + GroupSize(d, 1) + GroupSize(d, 2), |Group(d, 0)| + |Group(d, 1)| + |Group(d, 2)|,
              UnknownFieldsSize(d.unknown), |EncodeUnknowns(d.unknown)|);
  }

  /** The same sum, by presence bit; the guard over the first eight bits skips nothing that counts. */
  lemma DataSizeByBit(d: FieldData)
    ensures AnyOfEight(d.hasBits) ==>
              DataSize(d) == UnknownFieldsSize(d.unknown)
                           + ScalarSize(d.hasBits.b0, Text(d.name))
                           + ScalarSize(d.hasBits.b1, Text(d.defaultValue))
                           + ScalarSize(d.hasBits.b2, Text(d.renameFrom))
                           + ScalarSize(d.hasBits.b3, BoolValue(d.notNull))
                           + ScalarSize(d.hasBits.b4, BoolValue(d.autoIncr))
                           + ScalarSize(d.hasBits.b5, BoolValue(d.isDelete))
                           + ScalarSize(d.hasBits.b6, Num(d.varcharLen))
                           + ScalarSize(d.hasBits.b7, Num(d.fieldType))
                           + ScalarSize(d.hasBits.b8, Num(d.modifyType))
    ensures !AnyOfEight(d.hasBits) ==>
              DataSize(d) == UnknownFieldsSize(d.unknown) + ScalarSize(d.hasBits.b8, Num(d.modifyType))
  {
    hide UnknownFieldsSize, BoolValue, VarintSize, LengthDelimitedSize;
  }

  lemma DataRange(d: FieldData)
    requires DataOk(d)
    ensures d.varcharLen < TWO_32
  {
  }

  lemma FieldSlots()
    ensures var f := Fields(FieldMsg);
            && |f| == 9
            && f[0] == FieldSpec(1, Str) && f[1] == FieldSpec(2, Enum(12)) && f[2] == FieldSpec(3, Bool)
            && f[3] == FieldSpec(4, Bool) && f[4] == FieldSpec(5, Str) && f[5] == FieldSpec(7, Str)
            && f[6] == FieldSpec(8, Enum(12)) && f[7] == FieldSpec(9, UInt32) && f[8] == FieldSpec(10, Bool)
  {
  }

  class TableField {
    var data: FieldData
    var cachedSize: int

    ghost function Contents(): Msg
      reads this`data
    {
      View(data)
    }

    ghost predicate Valid()
      reads this`data
    {
      DataOk(data)
    }

    lemma Unfold()
      ensures Valid() <==> DataOk(data)
      ensures Contents() == View(data)
    {
      hide View, DataOk;
    }

    constructor ()
      ensures Valid() && data == DEFAULT && Contents() == Empty(FieldMsg) && cachedSize == 0
    {
      DefaultIsEmpty();
      hide DataOk, View, Empty;
      data, cachedSize := DEFAULT, 0;
    }

    /** Resets what the presence bits say can differ from the default. */
    method Clear()
      requires Valid()
      modifies this`data
      ensures Valid() && data == DEFAULT && Contents() == Empty(FieldMsg)
    {
      DefaultIsEmpty();
      GuardedClearIsDefault(data);
      hide View, Empty, DataOk, AbsentIsDefault;
      var d := ClearStrings(data);
      var bits := d.hasBits;
      d := d.(notNull := false, autoIncr := false, isDelete := false);
      if bits.b6 || bits.b7 {
        d := d.(varcharLen := 255, fieldType := 1);
      }
      data := d.(modifyType := 1, hasBits := NO_BITS, unknown := []);
      assert data == GuardedClear(old(data));
    }

    /** Empties the strings whose bits are set. */
    static method ClearStrings(d: FieldData) returns (r: FieldData)
      ensures var bits := d.hasBits;
              r == d.(name := if bits.b0 then [] else d.name,
                      defaultValue := if bits.b1 then [] else d.defaultValue,
                      renameFrom := if bits.b2 then [] else d.renameFrom)
    {
      r := d;
      var bits := d.hasBits;
      if bits.b0 || bits.b1 || bits.b2 {
        if bits.b0 { r := r.(name := []); }
        if bits.b1 { r := r.(defaultValue := []); }
        if bits.b2 { r := r.(renameFrom := []); }
      }
    }

    method MergeFrom(from: TableField)
      requires Valid() && from.Valid() && from != this
      modifies this`data
      ensures Valid() && Contents() == Merge(old(Contents()), from.Contents())
    {
      MergeDataMerges(data, from.data);
      GuardedMergeIsMerge(data, from.data);
      hide View, DataOk, Merge, MergeData, GuardedMerge;
      data := MergeMembers(data, from.data);
    }

    /** The unknown fields, the fields behind the guard over the first eight bits, then the ninth. */
    static method MergeMembers(d: FieldData, e: FieldData) returns (r: FieldData)
      ensures r == GuardedMerge(d, e)
    {
      hide Or;
      var bits := e.hasBits;
      r := d.(unknown := d.unknown + e.unknown);
      if AnyOfEight(bits) {
        r := MergeFirstEight(r, e);
      }
      if bits.b8 {
        r := WithModifyType(r, e.modifyType);
      }
    }

    static method MergeFirstEight(d: FieldData, e: FieldData) returns (r: FieldData)
      ensures r == LowMerge(d, e)
    {
      r := MergeStrings(d, e);
      r := MergeFlags(r, e);
      r := MergeNumbers(r, e);
      r := r.(hasBits := Or(r.hasBits, e.hasBits));
    }

    /** The present strings, each marked present. */
    static method MergeStrings(d: FieldData, e: FieldData) returns (r: FieldData)
      ensures r == d.(name := if e.hasBits.b0 then e.name else d.name,
                      defaultValue := if e.hasBits.b1 then e.defaultValue else d.defaultValue,
                      renameFrom := if e.hasBits.b2 then e.renameFrom else d.renameFrom,
                      hasBits := d.hasBits.(b0 := d.hasBits.b0 || e.hasBits.b0, b1 := d.hasBits.b1 || e.hasBits.b1,
                                            b2 := d.hasBits.b2 || e.hasBits.b2))
    {
      r := d;
      if e.hasBits.b0 { r := WithName(r, e.name); }
      if e.hasBits.b1 { r := WithDefault(r, e.defaultValue); }
      if e.hasBits.b2 { r := WithRenameFrom(r, e.renameFrom); }
    }

    /** The present booleans; their presence bits are set together later. */
    static method MergeFlags(d: FieldData, e: FieldData) returns (r: FieldData)
      ensures r == d.(notNull := if e.hasBits.b3 then e.notNull else d.notNull,
                      autoIncr := if e.hasBits.b4 then e.autoIncr else d.autoIncr,
                      isDelete := if e.hasBits.b5 then e.isDelete else d.isDelete)
    {
      r := d;
      if e.hasBits.b3 { r := r.(notNull := e.notNull); }
      if e.hasBits.b4 { r := r.(autoIncr := e.autoIncr); }
      if e.hasBits.b5 { r := r.(isDelete := e.isDelete); }
    }

    /** The present numbers among the first eight. */
    static method MergeNumbers(d: FieldData, e: FieldData) returns (r: FieldData)
      ensures r == d.(varcharLen := if e.hasBits.b6 then e.varcharLen else d.varcharLen,
                      fieldType := if e.hasBits.b7 then e.fieldType else d.fieldType)
    {
      r := d;
      if e.hasBits.b6 { r := r.(varcharLen := e.varcharLen); }
      if e.hasBits.b7 { r := r.(fieldType := e.fieldType); }
    }

    /** An object copied onto itself is left alone. */
    method CopyFrom(from: TableField)
      requires Valid() && from.Valid()
      modifies this`data
      ensures Valid() && Contents() == old(from.Contents())
    {
      hide View, DataOk, Merge, Empty;
      if from == this {
        return;
      }
      Clear();
      MergeFrom(from);
      ViewShape(from.data);
      MergeLaws.EmptyMerge(FieldMsg, from.Contents());
    }

    /** Exchanges everything, the cached sizes included. */
    method Swap(other: TableField)
      requires Valid() && other.Valid()
      modifies this, other
      ensures Valid() && other.Valid()
      ensures data == old(other.data) && other.data == old(data)
      ensures cachedSize == old(other.cachedSize) && other.cachedSize == old(cachedSize)
    {
      hide DataOk;
      if other == this {
        return;
      }
      data, cachedSize, other.data, other.cachedSize := other.data, other.cachedSize, data, cachedSize;
    }

    // ----- accessors -----

    method SetName(value: bytes)
      requires Valid()
      modifies this`data
      ensures Valid() && data.name == value && Contents() == WithSlot(old(Contents()), 0, Scalar(Some(Text(value))))
    {
      WithNameSets(data, value);
      hide View, DataOk;
      data := WithName(data, value);
    }

    method SetFieldType(value: nat)
      requires Valid() && EnumRange(value, 12)
      modifies this`data
      ensures Valid() && data.fieldType == value && Contents() == WithSlot(old(Contents()), 1, Scalar(Some(Num(value))))
    {
      WithFieldTypeSets(data, value);
      hide View, DataOk;
      data := WithFieldType(data, value);
    }

    method SetNotNull(value: bool)
      requires Valid()
      modifies this`data
      ensures Valid() && data.notNull == value && Contents() == WithSlot(old(Contents()), 2, Scalar(Some(BoolValue(value))))
    {
      WithNotNullSets(data, value);
      hide View, DataOk;
      data := WithNotNull(data, value);
    }

    method SetAutoIncr(value: bool)
      requires Valid()
      modifies this`data
      ensures Valid() && data.autoIncr == value && Contents() == WithSlot(old(Contents()), 3, Scalar(Some(BoolValue(value))))
    {
      WithAutoIncrSets(data, value);
      hide View, DataOk;
      data := WithAutoIncr(data, value);
    }

    method SetDefault(value: bytes)
      requires Valid()
      modifies this`data
      ensures Valid() && data.defaultValue == value && Contents() == WithSlot(old(Contents()), 4, Scalar(Some(Text(value))))
    {
      WithDefaultSets(data, value);
      hide View, DataOk;
      data := WithDefault(data, value);
    }

    method SetRenameFrom(value: bytes)
      requires Valid()
      modifies this`data
      ensures Valid() && data.renameFrom == value && Contents() == WithSlot(old(Contents()), 5, Scalar(Some(Text(value))))
    {
      WithRenameFromSets(data, value);
      hide View, DataOk;
      data := WithRenameFrom(data, value);
    }

    method SetModifyType(value: nat)
      requires Valid() && EnumRange(value, 12)
      modifies this`data
      ensures Valid() && data.modifyType == value && Contents() == WithSlot(old(Contents()), 6, Scalar(Some(Num(value))))
    {
      WithModifyTypeSets(data, value);
      hide View, DataOk;
      data := WithModifyType(data, value);
    }

    method SetVarcharLen(value: nat)
      requires Valid() && value < TWO_32
      modifies this`data
      ensures Valid() && data.varcharLen == value && Contents() == WithSlot(old(Contents()), 7, Scalar(Some(Num(value))))
    {
      WithVarcharLenSets(data, value);
      hide View, DataOk;
      data := WithVarcharLen(data, value);
    }

    method SetIsDelete(value: bool)
      requires Valid()
      modifies this`data
      ensures Valid() && data.isDelete == value && Contents() == WithSlot(old(Contents()), 8, Scalar(Some(BoolValue(value))))
    {
      WithIsDeleteSets(data, value);
      hide View, DataOk;
      data := WithIsDelete(data, value);
    }

    method ClearName()
      requires Valid()
      modifies this`data
      ensures Valid() && data.name == [] && Contents() == WithSlot(old(Contents()), 0, Scalar(None))
    {
      WithoutNameOk(data);
      hide DataOk, Optional, BoolValue;
      OptionalAbsent(Text([]));
      data := WithoutName(data);
      assert Contents().slots == WithSlot(old(Contents()), 0, Scalar(None)).slots;
    }

    method ClearFieldType()
      requires Valid()
      modifies this`data
      ensures Valid() && data.fieldType == 1 && Contents() == WithSlot(old(Contents()), 1, Scalar(None))
    {
      WithoutFieldTypeOk(data);
      hide DataOk, Optional, BoolValue;
      OptionalAbsent(Num(1));
      data := WithoutFieldType(data);
      assert Contents().slots == WithSlot(old(Contents()), 1, Scalar(None)).slots;
    }

    method ClearNotNull()
      requires Valid()
      modifies this`data
      ensures Valid() && data.notNull == false && Contents() == WithSlot(old(Contents()), 2, Scalar(None))
    {
      WithoutNotNullOk(data);
      hide DataOk, Optional, BoolValue;
      OptionalAbsent(BoolValue(false));
      data := WithoutNotNull(data);
      assert Contents().slots == WithSlot(old(Contents()), 2, Scalar(None)).slots;
    }

    method ClearAutoIncr()
      requires Valid()
      modifies this`data
      ensures Valid() && data.autoIncr == false && Contents() == WithSlot(old(Contents()), 3, Scalar(None))
    {
      WithoutAutoIncrOk(data);
      hide DataOk, Optional, BoolValue;
      OptionalAbsent(BoolValue(false));
      data := WithoutAutoIncr(data);
      assert Contents().slots == WithSlot(old(Contents()), 3, Scalar(None)).slots;
    }

    method ClearDefault()
      requires Valid()
      modifies this`data
      ensures Valid() && data.defaultValue == [] && Contents() == WithSlot(old(Contents()), 4, Scalar(None))
    {
      WithoutDefaultOk(data);
      hide DataOk, Optional, BoolValue;
      OptionalAbsent(Text([]));
      data := WithoutDefault(data);
      assert Contents().slots == WithSlot(old(Contents()), 4, Scalar(None)).slots;
    }

    method ClearRenameFrom()
      requires Valid()
      modifies this`data
      ensures Valid() && data.renameFrom == [] && Contents() == WithSlot(old(Contents()), 5, Scalar(None))
    {
      WithoutRenameFromOk(data);
      hide DataOk, Optional, BoolValue;
      OptionalAbsent(Text([]));
      data := WithoutRenameFrom(data);
      assert Contents().slots == WithSlot(old(Contents()), 5, Scalar(None)).slots;
    }

    method ClearModifyType()
      requires Valid()
      modifies this`data
      ensures Valid() && data.modifyType == 1 && Contents() == WithSlot(old(Contents()), 6, Scalar(None))
    {
      WithoutModifyTypeOk(data);
      hide DataOk, Optional, BoolValue;
      OptionalAbsent(Num(1));
      data := WithoutModifyType(data);
      assert Contents().slots == WithSlot(old(Contents()), 6, Scalar(None)).slots;
    }

    method ClearVarcharLen()
      requires Valid()
      modifies this`data
      ensures Valid() && data.varcharLen == 255 && Contents() == WithSlot(old(Contents()), 7, Scalar(None))
    {
      WithoutVarcharLenOk(data);
      hide DataOk, Optional, BoolValue;
      OptionalAbsent(Num(255));
      data := WithoutVarcharLen(data);
      assert Contents().slots == WithSlot(old(Contents()), 7, Scalar(None)).slots;
    }

    method ClearIsDelete()
      requires Valid()
      modifies this`data
      ensures Valid() && data.isDelete == false && Contents() == WithSlot(old(Contents()), 8, Scalar(None))
    {
      WithoutIsDeleteOk(data);
      hide DataOk, Optional, BoolValue;
      OptionalAbsent(BoolValue(false));
      data := WithoutIsDelete(data);
      assert Contents().slots == WithSlot(old(Contents()), 8, Scalar(None)).slots;
    }

    /** Hands the string over to the caller. */
    method ReleaseName() returns (value: bytes)
      requires Valid()
      modifies this`data
      ensures Valid() && value == old(data.name) && Contents() == WithSlot(old(Contents()), 0, Scalar(None))
    {
      value := data.name;
      ClearName();
    }

    /** Hands the string over to the caller. */
    method ReleaseDefault() returns (value: bytes)
      requires Valid()
      modifies this`data
      ensures Valid() && value == old(data.defaultValue) && Contents() == WithSlot(old(Contents()), 4, Scalar(None))
    {
      value := data.defaultValue;
      ClearDefault();
    }

    /** Hands the string over to the caller. */
    method ReleaseRenameFrom() returns (value: bytes)
      requires Valid()
      modifies this`data
      ensures Valid() && value == old(data.renameFrom) && Contents() == WithSlot(old(Contents()), 5, Scalar(None))
    {
      value := data.renameFrom;
      ClearRenameFrom();
    }

    // ----- the parser: one case of its switch each -----

    method ReadName(input: CodedInputStream) returns (ok: bool)
      requires Valid() && input.Valid() && input.budget >= 0
      modifies this`data, input`pos
      ensures Valid() && input.Moved(old(input.pos), old(input.Rest()), ok)
      ensures Absorbs(FieldMsg, 0, old(input.Rest()), input.budget, ok, input.pos - old(input.pos),
                      old(Contents()), Contents())
    {
      FieldSlots();
      ViewShape(data);
      hide DecodeVarint, ReadBlock, Fields, ReadKnown, Absorbs, View, DataOk, SignExtend;
      var value;
      ok, value := input.ReadBytes(data.name);
      WithNameSets(data, value);
      data := WithName(data, value);
      AbsorbsText(FieldMsg, 0, old(input.Rest()), input.budget, ok, value, input.pos - old(input.pos),
                  old(Contents()), Contents());
    }

    method ReadFieldType(input: CodedInputStream) returns (ok: bool)
      requires Valid() && input.Valid() && input.budget >= 0
      modifies this`data, input`pos
      ensures Valid() && input.Moved(old(input.pos), old(input.Rest()), ok)
      ensures Absorbs(FieldMsg, 1, old(input.Rest()), input.budget, ok, input.pos - old(input.pos),
                      old(Contents()), Contents())
    {
      FieldSlots();
      ViewShape(data);
      hide DecodeVarint, ReadBlock, Fields, ReadKnown, Absorbs, View, DataOk, SignExtend;
      var value;
      ok, value := input.ReadVarint32();
      if ok && EnumRange(value, 12) {
        WithFieldTypeSets(data, value);
        data := WithFieldType(data, value);
      } else if ok {
        SignExtendFits(value);
        UnknownAppended(data, UVarint(2, SignExtend(value)));
        data := data.(unknown := data.unknown + [UVarint(2, SignExtend(value))]);
      }
      AbsorbsVarint(FieldMsg, 1, old(input.Rest()), input.budget, ok, input.pos - old(input.pos),
                    old(Contents()), Contents());
    }

    method ReadNotNull(input: CodedInputStream) returns (ok: bool)
      requires Valid() && input.Valid() && input.budget >= 0
      modifies this`data, input`pos
      ensures Valid() && input.Moved(old(input.pos), old(input.Rest()), ok)
      ensures Absorbs(FieldMsg, 2, old(input.Rest()), input.budget, ok, input.pos - old(input.pos),
                      old(Contents()), Contents())
    {
      FieldSlots();
      ViewShape(data);
      hide DecodeVarint, ReadBlock, Fields, ReadKnown, Absorbs, View, DataOk, SignExtend;
      var value;
      ok, value := input.ReadVarint64();
      var next := if ok then value != 0 else data.notNull;
      WithNotNullSets(data, next);
      data := WithNotNull(data, next);
      AbsorbsVarint(FieldMsg, 2, old(input.Rest()), input.budget, ok, input.pos - old(input.pos),
                    old(Contents()), Contents());
    }

    method ReadAutoIncr(input: CodedInputStream) returns (ok: bool)
      requires Valid() && input.Valid() && input.budget >= 0
      modifies this`data, input`pos
      ensures Valid() && input.Moved(old(input.pos), old(input.Rest()), ok)
      ensures Absorbs(FieldMsg, 3, old(input.Rest()), input.budget, ok, input.pos - old(input.pos),
                      old(Contents()), Contents())
    {
      FieldSlots();
      ViewShape(data);
      hide DecodeVarint, ReadBlock, Fields, ReadKnown, Absorbs, View, DataOk, SignExtend;
      var value;
      ok, value := input.ReadVarint64();
      var next := if ok then value != 0 else data.autoIncr;
      WithAutoIncrSets(data, next);
      data := WithAutoIncr(data, next);
      AbsorbsVarint(FieldMsg, 3, old(input.Rest()), input.budget, ok, input.pos - old(input.pos),
                    old(Contents()), Contents());
    }

    method ReadDefault(input: CodedInputStream) returns (ok: bool)
      requires Valid() && input.Valid() && input.budget >= 0
      modifies this`data, input`pos
      ensures Valid() && input.Moved(old(input.pos), old(input.Rest()), ok)
      ensures Absorbs(FieldMsg, 4, old(input.Rest()), input.budget, ok, input.pos - old(input.pos),
                      old(Contents()), Contents())
    {
      FieldSlots();
      ViewShape(data);
      hide DecodeVarint, ReadBlock, Fields, ReadKnown, Absorbs, View, DataOk, SignExtend;
      var value;
      ok, value := input.ReadBytes(data.defaultValue);
      WithDefaultSets(data, value);
      data := WithDefault(data, value);
      AbsorbsText(FieldMsg, 4, old(input.Rest()), input.budget, ok, value, input.pos - old(input.pos),
                  old(Contents()), Contents());
    }

    method ReadRenameFrom(input: CodedInputStream) returns (ok: bool)
      requires Valid() && input.Valid() && input.budget >= 0
      modifies this`data, input`pos
      ensures Valid() && input.Moved(old(input.pos), old(input.Rest()), ok)
      ensures Absorbs(FieldMsg, 5, old(input.Rest()), input.budget, ok, input.pos - old(input.pos),
                      old(Contents()), Contents())
    {
      FieldSlots();
      ViewShape(data);
      hide DecodeVarint, ReadBlock, Fields, ReadKnown, Absorbs, View, DataOk, SignExtend;
      var value;
      ok, value := input.ReadBytes(data.renameFrom);
      WithRenameFromSets(data, value);
      data := WithRenameFrom(data, value);
      AbsorbsText(FieldMsg, 5, old(input.Rest()), input.budget, ok, value, input.pos - old(input.pos),
                  old(Contents()), Contents());
    }

    method ReadModifyType(input: CodedInputStream) returns (ok: bool)
      requires Valid() && input.Valid() && input.budget >= 0
      modifies this`data, input`pos
      ensures Valid() && input.Moved(old(input.pos), old(input.Rest()), ok)
      ensures Absorbs(FieldMsg, 6, old(input.Rest()), input.budget, ok, input.pos - old(input.pos),
                      old(Contents()), Contents())
    {
      FieldSlots();
      ViewShape(data);
      hide DecodeVarint, ReadBlock, Fields, ReadKnown, Absorbs, View, DataOk, SignExtend;
      var value;
      ok, value := input.ReadVarint32();
      if ok && EnumRange(value, 12) {
        WithModifyTypeSets(data, value);
        data := WithModifyType(data, value);
      } else if ok {
        SignExtendFits(value);
        UnknownAppended(data, UVarint(8, SignExtend(value)));
        data := data.(unknown := data.unknown + [UVarint(8, SignExtend(value))]);
      }
      AbsorbsVarint(FieldMsg, 6, old(input.Rest()), input.budget, ok, input.pos - old(input.pos),
                    old(Contents()), Contents());
    }

    method ReadVarcharLen(input: CodedInputStream) returns (ok: bool)
      requires Valid() && input.Valid() && input.budget >= 0
      modifies this`data, input`pos
      ensures Valid() && input.Moved(old(input.pos), old(input.Rest()), ok)
      ensures Absorbs(FieldMsg, 7, old(input.Rest()), input.budget, ok, input.pos - old(input.pos),
                      old(Contents()), Contents())
    {
      FieldSlots();
      ViewShape(data);
      hide DecodeVarint, ReadBlock, Fields, ReadKnown, Absorbs, View, DataOk, SignExtend;
      var value;
      ok, value := input.ReadVarint32();
      var next := if ok then value else data.varcharLen;
      DataRange(data);
      WithVarcharLenSets(data, next);
      data := WithVarcharLen(data, next);
      AbsorbsVarint(FieldMsg, 7, old(input.Rest()), input.budget, ok, input.pos - old(input.pos),
                    old(Contents()), Contents());
    }

    method ReadIsDelete(input: CodedInputStream) returns (ok: bool)
      requires Valid() && input.Valid() && input.budget >= 0
      modifies this`data, input`pos
      ensures Valid() && input.Moved(old(input.pos), old(input.Rest()), ok)
      ensures Absorbs(FieldMsg, 8, old(input.Rest()), input.budget, ok, input.pos - old(input.pos),
                      old(Contents()), Contents())
    {
      FieldSlots();
      ViewShape(data);
      hide DecodeVarint, ReadBlock, Fields, ReadKnown, Absorbs, View, DataOk, SignExtend;
      var value;
      ok, value := input.ReadVarint64();
      var next := if ok then value != 0 else data.isDelete;
      WithIsDeleteSets(data, next);
      data := WithIsDelete(data, next);
      AbsorbsVarint(FieldMsg, 8, old(input.Rest()), input.budget, ok, input.pos - old(input.pos),
                    old(Contents()), Contents());
    }

    /** The switch: `known` tells whether the tag belongs to a field. A tag above the cut-off of 127 never does. */
    method ParseCase(tag: nat, input: CodedInputStream) returns (known: bool, ok: bool)
      requires Valid() && input.Valid() && input.budget >= 0
      modifies this`data, input`pos
      ensures Valid() && (known <==> SlotOf(FieldMsg, tag).Some?)
      ensures !known ==> data == old(data) && input.pos == old(input.pos)
      ensures known ==> input.Moved(old(input.pos), old(input.Rest()), ok)
      ensures known ==> Absorbs(FieldMsg, SlotOf(FieldMsg, tag).value, old(input.Rest()), input.budget, ok,
                                input.pos - old(input.pos), old(Contents()), Contents())
    {
      hide Absorbs, View, DataOk, Fields;
      known, ok := true, true;
      match tag {
        case 10 => ok := ReadName(input);
        case 16 => ok := ReadFieldType(input);
        case 24 => ok := ReadNotNull(input);
        case 32 => ok := ReadAutoIncr(input);
        case 42 => ok := ReadDefault(input);
        case 58 => ok := ReadRenameFrom(input);
        case 64 => ok := ReadModifyType(input);
        case 72 => ok := ReadVarcharLen(input);
        case 80 => ok := ReadIsDelete(input);
        case _ => known := false;
      }
    }

    /** The parse loop. It stops at a zero tag, which is a success only at a legitimate end of the input. */
    method MergePartialFromCodedStream(input: CodedInputStream) returns (ok: bool)
      requires Valid() && input.Valid() && input.budget >= 0 && !input.legitimateEnd
      modifies this`data, input
      ensures Valid() && input.Valid() && input.limit == old(input.limit) && input.pos >= old(input.pos)
      ensures Outcome(FieldMsg, old(Contents()), old(input.Rest()), old(input.budget), ok && input.legitimateEnd, Contents())
      ensures ok && input.legitimateEnd ==> input.pos == input.limit && input.budget == old(input.budget)
    {
      hide View, DataOk, Parse, TagAt, Absorbs, Wire.SkipField, SlotOf, Outcome, Apply;
      ghost var budget: nat := input.budget;
      ghost var start, before := input.Rest(), Contents();
      while true
        invariant Valid() && input.Valid() && input.limit == old(input.limit) && input.pos >= old(input.pos)
        invariant input.budget == budget && !input.legitimateEnd
        invariant Parse(FieldMsg, before, start, budget) == Parse(FieldMsg, Contents(), input.Rest(), budget)
        decreases input.limit - input.pos
      {
        ghost var rest, at, now := input.Rest(), input.pos, Contents();
        var tag := input.ReadTag();
        if tag == 0 {
          EndStep(FieldMsg, now, rest, budget);
          TagOutcome(FieldMsg, before, now, start, rest, budget, rest == [], now);
          return true;
        }
        ghost var n := input.pos - at;
        var known;
        known, ok := ParseCase(tag, input);
        if known {
          KnownStep(FieldMsg, now, Contents(), rest, tag, n, ok, input.pos - at - n, budget);
          if !ok {
            ParseFailed(FieldMsg, before, now, start, rest, budget, Contents());
            return false;
          }
        } else {
          ok := SkipUnknown(tag, input);
          UnknownStep(FieldMsg, now, rest, tag, n, budget);
          if !ok {
            ParseFailed(FieldMsg, before, now, start, rest, budget, Contents());
            return false;
          }
        }
      }
    }

    /** Adds the record to the unknown fields. */
    method SkipUnknown(tag: nat, input: CodedInputStream) returns (ok: bool)
      requires Valid() && input.Valid() && input.budget >= 0 && tag < TWO_32
      modifies this`data, input
      ensures Valid() && input.Moved(old(input.pos), old(input.Rest()), ok) && input.limit == old(input.limit)
      ensures ok ==> input.budget == old(input.budget) && input.legitimateEnd == old(input.legitimateEnd)
      ensures Skipped(tag, old(input.Rest()), old(input.budget), ok, input.pos - old(input.pos),
                      old(Contents()), Contents())
    {
      hide Wire.SkipField;
      UnknownReplaced(data);
      hide View, DataOk, AllSized;
      var unknown;
      ok, unknown := input.SkipField(tag, data.unknown);
      data := data.(unknown := unknown);
    }

    // ----- the serializers -----

    method SerializeWithCachedSizes(output: CodedOutputStream)
      requires Valid()
      modifies output
      ensures output.written == old(output.written) + Encode(FieldMsg, Contents())
    {
      hide *;
      Unfold();
      EncodeIsGroups(data);
      NoUnknownFields(data.unknown);
      SerializeFirst(output);
      SerializeSecond(output);
      SerializeThird(output);
      if data.unknown != [] {
        output.WriteUnknownFields(data.unknown);
      }
    }

    method SerializeFirst(output: CodedOutputStream)
      modifies output
      ensures output.written == old(output.written) + Group(data, 0)
    {
      hide EncodeField, Optional, BoolValue;
      var d := data;
      output.WriteOptional(FieldSpec(1, Str), d.hasBits.b0, Text(d.name));
      output.WriteOptional(FieldSpec(2, Enum(12)), d.hasBits.b7, Num(d.fieldType));
      output.WriteOptional(FieldSpec(3, Bool), d.hasBits.b3, BoolValue(d.notNull));
    }

    method SerializeSecond(output: CodedOutputStream)
      modifies output
      ensures output.written == old(output.written) + Group(data, 1)
    {
      hide EncodeField, Optional, BoolValue;
      var d := data;
      output.WriteOptional(FieldSpec(4, Bool), d.hasBits.b4, BoolValue(d.autoIncr));
      output.WriteOptional(FieldSpec(5, Str), d.hasBits.b1, Text(d.defaultValue));
      output.WriteOptional(FieldSpec(7, Str), d.hasBits.b2, Text(d.renameFrom));
    }

    method SerializeThird(output: CodedOutputStream)
      modifies output
      ensures output.written == old(output.written) + Group(data, 2)
    {
      hide EncodeField, Optional, BoolValue;
      var d := data;
      output.WriteOptional(FieldSpec(8, Enum(12)), d.hasBits.b8, Num(d.modifyType));
      output.WriteOptional(FieldSpec(9, UInt32), d.hasBits.b6, Num(d.varcharLen));
      output.WriteOptional(FieldSpec(10, Bool), d.hasBits.b5, BoolValue(d.isDelete));
    }

    method InternalSerializeWithCachedSizesToArray(target: array<byte>, pos: nat) returns (end: nat)
      requires Valid() && pos + |Encode(FieldMsg, Contents())| <= target.Length
      modifies target
      ensures end == pos + |Encode(FieldMsg, Contents())|
      ensures Wrote(old(target[..]), target[..], pos, Encode(FieldMsg, Contents()))
    {
      hide *;
      Unfold();
      EncodeIsGroups(data);
      NoUnknownFields(data.unknown);
      ghost var start := target[..];
      WroteNothing(start, pos);
      end := FirstToArray(target, pos, start, pos, []);
      end := SecondToArray(target, end, start, pos, [] + Group(data, 0));
      end := ThirdToArray(target, end, start, pos, [] + Group(data, 0) + Group(data, 1));
      assert [] + Group(data, 0) == Group(data, 0);
      if data.unknown != [] {
        ghost var b := target[..];
        end := WriteUnknownFieldsToArray(target, end, data.unknown);
        WroteThen(start, b, target[..], pos, Group(data, 0) + Group(data, 1) + Group(data, 2),
                  EncodeUnknowns(data.unknown));
      } else {
        assert Encode(FieldMsg, Contents()) == Group(data, 0) + Group(data, 1) + Group(data, 2);
      }
    }

    /** Continues a message begun at `origin`, of which `done` is written. */
    method FirstToArray(target: array<byte>, pos: nat, ghost start: bytes, ghost origin: nat, ghost done: bytes)
      returns (end: nat)
      requires pos == origin + |done| && pos + |Group(data, 0)| <= target.Length
      requires Wrote(start, target[..], origin, done)
      modifies target
      ensures end == pos + |Group(data, 0)| && Wrote(start, target[..], origin, done + Group(data, 0))
    {
      hide *;
      GroupsAre(data);
      FieldBytesAre(data);
      var d := data;
      end := AppendOptionalToArray(target, pos, FieldSpec(1, Str), d.hasBits.b0, Text(d.name),
                                   start, origin, done);
      end := AppendOptionalToArray(target, end, FieldSpec(2, Enum(12)), d.hasBits.b7, Num(d.fieldType),
                                   start, origin, done + FieldBytes(d, 0));
      end := AppendOptionalToArray(target, end, FieldSpec(3, Bool), d.hasBits.b3, BoolValue(d.notNull),
                                   start, origin, done + FieldBytes(d, 0) + FieldBytes(d, 1));
      assert done + FieldBytes(d, 0) + FieldBytes(d, 1) + FieldBytes(d, 2) == done + Group(d, 0);
    }

    /** Continues a message begun at `origin`, of which `done` is written. */
    method SecondToArray(target: array<byte>, pos: nat, ghost start: bytes, ghost origin: nat, ghost done: bytes)
      returns (end: nat)
      requires pos == origin + |done| && pos + |Group(data, 1)| <= target.Length
      requires Wrote(start, target[..], origin, done)
      modifies target
      ensures end == pos + |Group(data, 1)| && Wrote(start, target[..], origin, done + Group(data, 1))
    {
      hide *;
      GroupsAre(data);
      FieldBytesAre(data);
      var d := data;
      end := AppendOptionalToArray(target, pos, FieldSpec(4, Bool), d.hasBits.b4, BoolValue(d.autoIncr),
                                   start, origin, done);
      end := AppendOptionalToArray(target, end, FieldSpec(5, Str), d.hasBits.b1, Text(d.defaultValue),
                                   start, origin, done + FieldBytes(d, 3));
      end := AppendOptionalToArray(target, end, FieldSpec(7, Str), d.hasBits.b2, Text(d.renameFrom),
                                   start, origin, done + FieldBytes(d, 3) + FieldBytes(d, 4));
      assert done + FieldBytes(d, 3) + FieldBytes(d, 4) + FieldBytes(d, 5) == done + Group(d, 1);
    }

    /** Continues a message begun at `origin`, of which `done` is written. */
    method ThirdToArray(target: array<byte>, pos: nat, ghost start: bytes, ghost origin: nat, ghost done: bytes)
      returns (end: nat)
      requires pos == origin + |done| && pos + |Group(data, 2)| <= target.Length
      requires Wrote(start, target[..], origin, done)
      modifies target
      ensures end == pos + |Group(data, 2)| && Wrote(start, target[..], origin, done + Group(data, 2))
    {
      hide *;
      GroupsAre(data);
      FieldBytesAre(data);
      var d := data;
      end := AppendOptionalToArray(target, pos, FieldSpec(8, Enum(12)), d.hasBits.b8, Num(d.modifyType),
                                   start, origin, done);
      end := AppendOptionalToArray(target, end, FieldSpec(9, UInt32), d.hasBits.b6, Num(d.varcharLen),
                                   start, origin, done + FieldBytes(d, 6));
      end := AppendOptionalToArray(target, end, FieldSpec(10, Bool), d.hasBits.b5, BoolValue(d.isDelete),
                                   start, origin, done + FieldBytes(d, 6) + FieldBytes(d, 7));
      assert done + FieldBytes(d, 6) + FieldBytes(d, 7) + FieldBytes(d, 8) == done + Group(d, 2);
    }

    /** The size of the serialized message, visiting the fields by presence bit; the result is also cached. */
    method ByteSizeLong() returns (total: nat)
      requires Valid()
      modifies this`cachedSize
      ensures Agrees(total, |Encode(FieldMsg, Contents())|) && cachedSize == ToCachedSize(total)
    {
      hide *;
      Unfold();
      DataSizeAgrees(data);
      DataSizeByBit(data);
      NoUnknownFields(data.unknown);
      var d := data;
      var bits := d.hasBits;
      total := 0;
      if d.unknown != [] {
        total := total + UnknownFieldsSize(d.unknown);
      }
      if AnyOfEight(bits) {
        total := AddStringSize(total, bits.b0, d.name);
        total := AddStringSize(total, bits.b1, d.defaultValue);
        total := AddStringSize(total, bits.b2, d.renameFrom);
        total := AddBoolSize(total, bits.b3, d.notNull);
        total := AddBoolSize(total, bits.b4, d.autoIncr);
        total := AddBoolSize(total, bits.b5, d.isDelete);
        total := AddNumberSize(total, bits.b6, d.varcharLen);
        total := AddNumberSize(total, bits.b7, d.fieldType);
      }
      total := AddNumberSize(total, bits.b8, d.modifyType);
      cachedSize := ToCachedSize(total);
    }
  }
}
