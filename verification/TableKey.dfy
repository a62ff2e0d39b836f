/** The generated class for a table key: two scalars and a repeated string. */
module TableKeys {
  import opened Options
  import opened Wire
  import opened Schema
  import opened Sizes
  import opened Streams
  import opened Effects
  import opened Writers
  import MergeLaws

  // ----- the members of an object -----

  datatype KeyData = KeyData(hasBits: HasBits, name: bytes, keyType: nat, fields: seq<bytes>, unknown: seq<Unknown>)

  const DEFAULT := KeyData(NO_BITS, [], 1, [], [])

  function View(d: KeyData): Msg {
    Msg([Optional(d.hasBits.b0, Text(d.name)), Optional(d.hasBits.b1, Num(d.keyType)), Strs(d.fields)], d.unknown)
  }

  /** Only the two low bits of the presence word are ever set. */
  predicate TwoBits(b: HasBits) { !b.b2 && !b.b3 && !b.b4 && !b.b5 && !b.b6 && !b.b7 && !b.b8 }

  /** A field whose presence bit is clear holds its default, and every value fits its field. */
  predicate DataOk(d: KeyData) {
    && (!d.hasBits.b0 ==> d.name == [])
    && (!d.hasBits.b1 ==> d.keyType == 1)
    && EnumRange(d.keyType, 3) && TwoBits(d.hasBits)
    && AllSized(d.unknown)
  }

  function WithName(d: KeyData, v: bytes): KeyData { d.(hasBits := d.hasBits.(b0 := true), name := v) }

  function WithKeyType(d: KeyData, v: nat): KeyData { d.(hasBits := d.hasBits.(b1 := true), keyType := v) }

  lemma WithNameSets(d: KeyData, v: bytes)
    requires DataOk(d)
    ensures DataOk(WithName(d, v)) && View(WithName(d, v)) == WithSlot(View(d), 0, Scalar(Some(Text(v))))
  {
    hide AllSized;
  }

  lemma WithKeyTypeSets(d: KeyData, v: nat)
    requires DataOk(d) && EnumRange(v, 3)
    ensures DataOk(WithKeyType(d, v)) && View(WithKeyType(d, v)) == WithSlot(View(d), 1, Scalar(Some(Num(v))))
  {
    hide AllSized;
  }

  function WithoutName(d: KeyData): KeyData { d.(hasBits := d.hasBits.(b0 := false), name := []) }

  lemma WithoutNameClears(d: KeyData)
    requires DataOk(d)
    ensures DataOk(WithoutName(d)) && View(WithoutName(d)) == WithSlot(View(d), 0, Scalar(None))
  {
    hide AllSized;
  }

  function WithoutKeyType(d: KeyData): KeyData { d.(hasBits := d.hasBits.(b1 := false), keyType := 1) }

  lemma WithoutKeyTypeClears(d: KeyData)
    requires DataOk(d)
    ensures DataOk(WithoutKeyType(d)) && View(WithoutKeyType(d)) == WithSlot(View(d), 1, Scalar(None))
  {
    hide AllSized;
  }

  lemma FieldAppended(d: KeyData, v: bytes)
    requires DataOk(d)
    ensures var e := d.(fields := d.fields + [v]);
            DataOk(e) && View(e) == WithSlot(View(d), 2, Strs(d.fields + [v]))
  {
    hide AllSized;
  }

  lemma UnknownReplaced(d: KeyData, us: seq<Unknown>)
    requires DataOk(d)
    ensures AllSized(d.unknown)
    ensures AllSized(us) ==> DataOk(d.(unknown := us)) && View(d.(unknown := us)) == View(d).(unknown := us)
  {
    hide Sized;
  }

  lemma UnknownAppended(d: KeyData, u: Unknown)
    requires DataOk(d) && Sized(u)
    ensures var e := d.(unknown := d.unknown + [u]);
            DataOk(e) && View(e) == Apply(View(d), AddUnknown(u))
  {
    hide Sized;
  }

  lemma KeySlots()
    ensures Fields(KeyMsg) == [FieldSpec(1, Str), FieldSpec(2, Enum(3)), FieldSpec(3, Strings)]
    ensures |Fields(KeyMsg)| == 3
  {
  }

  lemma ViewShape(d: KeyData)
    ensures Shape(KeyMsg, View(d)) && |View(d).slots| == 3
    ensures View(d).slots[0].Scalar? && View(d).slots[1].Scalar? && View(d).slots[2] == Strs(d.fields)
  {
  }

  lemma DefaultIsEmpty()
    ensures DataOk(DEFAULT) && View(DEFAULT) == Empty(KeyMsg)
  {
  }

  function MergeData(d: KeyData, e: KeyData): KeyData {
    KeyData(Or(d.hasBits, e.hasBits), if e.hasBits.b0 then e.name else d.name,
            if e.hasBits.b1 then e.keyType else d.keyType, d.fields + e.fields, d.unknown + e.unknown)
  }

  lemma MergeDataMerges(d: KeyData, e: KeyData)
    requires DataOk(d) && DataOk(e)
    ensures DataOk(MergeData(d, e)) && View(MergeData(d, e)) == Merge(View(d), View(e))
  {
    MergeKeepsOk(d, e);
    OptionalMerge(d.hasBits.b0, Text(d.name), e.hasBits.b0, Text(e.name));
    OptionalMerge(d.hasBits.b1, Num(d.keyType), e.hasBits.b1, Num(e.keyType));
    hide DataOk, Optional;
    assert View(MergeData(d, e)).slots == Merge(View(d), View(e)).slots;
  }

  lemma MergeKeepsOk(d: KeyData, e: KeyData)
    requires DataOk(d) && DataOk(e)
    ensures DataOk(MergeData(d, e))
  {
    hide Sized;
  }

  /** What merging does: nothing to the scalars nor to the presence word when no bit under the mask 3 is set. */
  function GuardedMerge(d: KeyData, e: KeyData): KeyData {
    if e.hasBits.b0 || e.hasBits.b1 then MergeData(d, e)
    else d.(fields := d.fields + e.fields, unknown := d.unknown + e.unknown)
  }

  lemma GuardedMergeIsMerge(d: KeyData, e: KeyData)
    requires DataOk(d) && DataOk(e)
    ensures GuardedMerge(d, e) == MergeData(d, e)
  {
    hide AllSized;
  }

  // ----- the serialized form -----

  lemma EncodeIs(d: KeyData)
    ensures Encode(KeyMsg, View(d))
         == EncodeField(FieldSpec(1, Str), Optional(d.hasBits.b0, Text(d.name)))
          + EncodeField(FieldSpec(2, Enum(3)), Optional(d.hasBits.b1, Num(d.keyType)))
          + EncodeStrings(26, d.fields) + EncodeUnknowns(d.unknown)
  {
    hide *;
    KeySlots();
    ViewIs(d);
    StringsField(d.fields);
    var m := View(d);
    EncodeNone(KeyMsg, m);
    EncodeNext(KeyMsg, m, 0);
    EncodeNext(KeyMsg, m, 1);
    EncodeNext(KeyMsg, m, 2);
  }

  lemma ViewIs(d: KeyData)
    ensures View(d).slots == [Optional(d.hasBits.b0, Text(d.name)), Optional(d.hasBits.b1, Num(d.keyType)), Strs(d.fields)]
    ensures View(d).unknown == d.unknown
  {
  }

  lemma StringsField(ss: seq<bytes>)
    ensures EncodeField(FieldSpec(3, Strings), Strs(ss)) == EncodeStrings(26, ss)
  {
    hide EncodeStrings;
  }

  class TableKey {
    var data: KeyData
    var cachedSize: int

    ghost function Contents(): Msg
      reads this`data
    {
      View(data)
    }

    ghost predicate Valid()
      reads this`data
    {
      DataOk(data)
    }

    lemma Unfold()
      ensures Valid() <==> DataOk(data)
      ensures Contents() == View(data)
    {
      hide View, DataOk;
    }

    constructor ()
      ensures Valid() && data == DEFAULT && Contents() == Empty(KeyMsg) && cachedSize == 0
    {
      DefaultIsEmpty();
      hide DataOk, View, Empty;
      data, cachedSize := DEFAULT, 0;
    }

    method Clear()
      requires Valid()
      modifies this`data
      ensures Valid() && Contents() == Empty(KeyMsg) && data == DEFAULT
    {
      DefaultIsEmpty();
      hide View, Empty, AllSized;
      var d := data.(fields := []);
      if d.hasBits.b0 || d.hasBits.b1 {
        if d.hasBits.b0 {
          d := d.(name := []);
        }
        d := d.(keyType := 1);
      }
      data := d.(hasBits := NO_BITS, unknown := []);
    }

    method MergeFrom(from: TableKey)
      requires Valid() && from.Valid() && from != this
      modifies this`data
      ensures Valid() && Contents() == Merge(old(Contents()), from.Contents())
    {
      MergeDataMerges(data, from.data);
      GuardedMergeIsMerge(data, from.data);
      hide View, DataOk, Merge;
      var d, e := data, from.data;
      d := d.(unknown := d.unknown + e.unknown);
      d := d.(fields := d.fields + e.fields);
      if e.hasBits.b0 || e.hasBits.b1 {
        if e.hasBits.b0 {
          d := WithName(d, e.name);
        }
        if e.hasBits.b1 {
          d := d.(keyType := e.keyType);
        }
        d := d.(hasBits := Or(d.hasBits, e.hasBits));
      }
      data := d;
      assert data == GuardedMerge(old(data), e);
    }

    method CopyFrom(from: TableKey)
      requires Valid() && from.Valid()
      modifies this`data
      ensures Valid() && Contents() == old(from.Contents())
    {
      hide View, DataOk, Merge, Empty;
      if from == this {
        return;
      }
      Clear();
      MergeFrom(from);
      ViewShape(from.data);
      MergeLaws.EmptyMerge(KeyMsg, from.Contents());
    }

    method Swap(other: TableKey)
      requires Valid() && other.Valid()
      modifies this, other
      ensures Valid() && other.Valid()
      ensures data == old(other.data) && other.data == old(data)
      ensures cachedSize == old(other.cachedSize) && other.cachedSize == old(cachedSize)
    {
      hide DataOk;
      if other == this {
        return;
      }
      data, cachedSize, other.data, other.cachedSize := other.data, other.cachedSize, data, cachedSize;
    }

    // ----- accessors -----

    method SetName(value: bytes)
      requires Valid()
      modifies this`data
      ensures Valid() && Contents() == WithSlot(old(Contents()), 0, Scalar(Some(Text(value))))
    {
      WithNameSets(data, value);
      hide View, DataOk;
      data := WithName(data, value);
    }

    method ClearName()
      requires Valid()
      modifies this`data
      ensures Valid() && data.name == [] && Contents() == WithSlot(old(Contents()), 0, Scalar(None))
    {
      WithoutNameClears(data);
      hide View, DataOk;
      data := WithoutName(data);
    }

    /** Hands the string over to the caller. */
    method ReleaseName() returns (value: bytes)
      requires Valid()
      modifies this`data
      ensures Valid() && value == old(data.name) && Contents() == WithSlot(old(Contents()), 0, Scalar(None))
    {
      value := data.name;
      ClearName();
    }

    method SetKeyType(value: nat)
      requires Valid() && EnumRange(value, 3)
      modifies this`data
      ensures Valid() && Contents() == WithSlot(old(Contents()), 1, Scalar(Some(Num(value))))
    {
      WithKeyTypeSets(data, value);
      hide View, DataOk;
      data := WithKeyType(data, value);
    }

    method ClearKeyType()
      requires Valid()
      modifies this`data
      ensures Valid() && data.keyType == 1 && Contents() == WithSlot(old(Contents()), 1, Scalar(None))
    {
      WithoutKeyTypeClears(data);
      hide View, DataOk;
      data := WithoutKeyType(data);
    }

    /** A string becomes the last field name of the key. */
    method AddField(value: bytes)
      requires Valid()
      modifies this`data
      ensures Valid() && Contents() == WithSlot(old(Contents()), 2, Strs(old(data.fields) + [value]))
    {
      FieldAppended(data, value);
      hide View, DataOk;
      data := data.(fields := data.fields + [value]);
    }

    // ----- the parser -----

    method ReadName(input: CodedInputStream) returns (ok: bool)
      requires Valid() && input.Valid() && input.budget >= 0
      modifies this`data, input`pos
      ensures Valid() && input.Moved(old(input.pos), old(input.Rest()), ok)
      ensures Absorbs(KeyMsg, 0, old(input.Rest()), input.budget, ok, input.pos - old(input.pos),
                      old(Contents()), Contents())
    {
      KeySlots();
      ViewShape(data);
      hide DecodeVarint, ReadBlock, Fields, ReadKnown, Absorbs, View, DataOk;
      var value;
      ok, value := input.ReadBytes(data.name);
      WithNameSets(data, value);
      data := WithName(data, value);
      AbsorbsText(KeyMsg, 0, old(input.Rest()), input.budget, ok, value, input.pos - old(input.pos),
                  old(Contents()), Contents());
    }

    method ReadKeyType(input: CodedInputStream) returns (ok: bool)
      requires Valid() && input.Valid() && input.budget >= 0
      modifies this`data, input`pos
      ensures Valid() && input.Moved(old(input.pos), old(input.Rest()), ok)
      ensures Absorbs(KeyMsg, 1, old(input.Rest()), input.budget, ok, input.pos - old(input.pos),
                      old(Contents()), Contents())
    {
      KeySlots();
      ViewShape(data);
      hide DecodeVarint, ReadBlock, Fields, ReadKnown, Absorbs, View, DataOk, SignExtend;
      var value;
      ok, value := input.ReadVarint32();
      if ok && EnumRange(value, 3) {
        WithKeyTypeSets(data, value);
        data := WithKeyType(data, value);
      } else if ok {
        SignExtendFits(value);
        UnknownAppended(data, UVarint(2, SignExtend(value)));
        data := data.(unknown := data.unknown + [UVarint(2, SignExtend(value))]);
      }
      AbsorbsVarint(KeyMsg, 1, old(input.Rest()), input.budget, ok, input.pos - old(input.pos),
                    old(Contents()), Contents());
    }

    method ReadFields(input: CodedInputStream) returns (ok: bool)
      requires Valid() && input.Valid() && input.budget >= 0
      modifies this`data, input`pos
      ensures Valid() && input.Moved(old(input.pos), old(input.Rest()), ok)
      ensures Absorbs(KeyMsg, 2, old(input.Rest()), input.budget, ok, input.pos - old(input.pos),
                      old(Contents()), Contents())
    {
      KeySlots();
      ViewShape(data);
      hide DecodeVarint, ReadBlock, Fields, ReadKnown, Absorbs, View, DataOk;
      var value;
      ok, value := input.ReadBytes([]);
      FieldAppended(data, value);
      data := data.(fields := data.fields + [value]);
      AbsorbsString(KeyMsg, 2, old(input.Rest()), input.budget, ok, value, input.pos - old(input.pos),
                    old(Contents()), Contents());
    }

    method ParseCase(tag: nat, input: CodedInputStream) returns (known: bool, ok: bool)
      requires Valid() && input.Valid() && input.budget >= 0
      modifies this`data, input`pos
      ensures Valid() && (known <==> SlotOf(KeyMsg, tag).Some?)
      ensures !known ==> data == old(data) && input.pos == old(input.pos)
      ensures known ==> input.Moved(old(input.pos), old(input.Rest()), ok)
      ensures known ==> Absorbs(KeyMsg, SlotOf(KeyMsg, tag).value, old(input.Rest()), input.budget, ok,
                                input.pos - old(input.pos), old(Contents()), Contents())
    {
      hide Absorbs, View, DataOk, Fields;
      known, ok := true, true;
      match tag {
        case 10 => ok := ReadName(input);
        case 16 => ok := ReadKeyType(input);
        case 26 => ok := ReadFields(input);
        case _ => known := false;
      }
    }

    method SkipUnknown(tag: nat, input: CodedInputStream) returns (ok: bool)
      requires Valid() && input.Valid() && input.budget >= 0 && tag < TWO_32
      modifies this`data, input
      ensures Valid() && input.Moved(old(input.pos), old(input.Rest()), ok) && input.limit == old(input.limit)
      ensures ok ==> input.budget == old(input.budget) && input.legitimateEnd == old(input.legitimateEnd)
      ensures Skipped(tag, old(input.Rest()), old(input.budget), ok, input.pos - old(input.pos),
                      old(Contents()), Contents())
    {
      hide Wire.SkipField, View, DataOk, AllSized;
      UnknownReplaced(data, data.unknown);
      ViewIs(data);
      ghost var before := data;
      var unknown;
      ok, unknown := input.SkipField(tag, data.unknown);
      UnknownReplaced(before, unknown);
      data := data.(unknown := unknown);
    }

    method MergePartialFromCodedStream(input: CodedInputStream) returns (ok: bool)
      requires Valid() && input.Valid() && input.budget >= 0 && !input.legitimateEnd
      modifies this`data, input
      ensures Valid() && input.Valid() && input.limit == old(input.limit) && input.pos >= old(input.pos)
      ensures Outcome(KeyMsg, old(Contents()), old(input.Rest()), old(input.budget), ok && input.legitimateEnd, Contents())
      ensures ok && input.legitimateEnd ==> input.pos == input.limit && input.budget == old(input.budget)
    {
      hide View, DataOk, Parse, TagAt, Absorbs, Wire.SkipField, SlotOf, Outcome, Apply;
      ghost var budget: nat := input.budget;
      ghost var start, before := input.Rest(), Contents();
      while true
        invariant Valid() && input.Valid() && input.limit == old(input.limit) && input.pos >= old(input.pos)
        invariant input.budget == budget && !input.legitimateEnd
        invariant Parse(KeyMsg, before, start, budget) == Parse(KeyMsg, Contents(), input.Rest(), budget)
        decreases input.limit - input.pos
      {
        ghost var rest, at, now := input.Rest(), input.pos, Contents();
        var tag := input.ReadTag();
        if tag == 0 {
          EndStep(KeyMsg, now, rest, budget);
          TagOutcome(KeyMsg, before, now, start, rest, budget, rest == [], now);
          return true;
        }
        ghost var n := input.pos - at;
        var known;
        known, ok := ParseCase(tag, input);
        if known {
          KnownStep(KeyMsg, now, Contents(), rest, tag, n, ok, input.pos - at - n, budget);
        } else {
          ok := SkipUnknown(tag, input);
          UnknownStep(KeyMsg, now, rest, tag, n, budget);
        }
        if !ok {
          ParseFailed(KeyMsg, before, now, start, rest, budget, Contents());
          return false;
        }
      }
    }

    // ----- sizes and serializers -----

    method ByteSizeLong() returns (total: nat)
      requires Valid()
      modifies this`cachedSize
      ensures Agrees(total, |Encode(KeyMsg, Contents())|) && cachedSize == ToCachedSize(total)
    {
      KeySizeFacts(data);
      hide *;
      Unfold();
      var d := data;
      total := UnknownFieldsSize(d.unknown);
      ghost var actual := |EncodeUnknowns(d.unknown)|;
      var strings := StringsSize(d.fields, 26);
      AgreesSum(total, actual, strings, |EncodeStrings(26, d.fields)|);
      total, actual := total + strings, actual + |EncodeStrings(26, d.fields)|;
      ghost var x := ScalarSize(d.hasBits.b0, Text(d.name));
      ghost var y := ScalarSize(d.hasBits.b1, Num(d.keyType));
      ghost var x' := |EncodeField(FieldSpec(1, Str), Optional(d.hasBits.b0, Text(d.name)))|;
      ghost var y' := |EncodeField(FieldSpec(2, Enum(3)), Optional(d.hasBits.b1, Num(d.keyType)))|;
      AgreesSum(total, actual, x, x');
      AgreesSum(total + x, actual + x', y, y');
      if d.hasBits.b0 || d.hasBits.b1 {
        total := AddStringSize(total, d.hasBits.b0, d.name);
        total := AddNumberSize(total, d.hasBits.b1, d.keyType);
      }
      EncodeIs(d);
      cachedSize := ToCachedSize(total);
    }

    method SerializeWithCachedSizes(output: CodedOutputStream)
      requires Valid()
      modifies output
      ensures output.written == old(output.written) + Encode(KeyMsg, Contents())
    {
      hide *;
      Unfold();
      EncodeIs(data);
      var d := data;
      output.WriteOptional(FieldSpec(1, Str), d.hasBits.b0, Text(d.name));
      output.WriteOptional(FieldSpec(2, Enum(3)), d.hasBits.b1, Num(d.keyType));
      output.WriteStrings(26, d.fields);
      output.WriteUnknownFields(d.unknown);
    }

    method InternalSerializeWithCachedSizesToArray(target: array<byte>, pos: nat) returns (end: nat)
      requires Valid() && pos + |Encode(KeyMsg, Contents())| <= target.Length
      modifies target
      ensures end == pos + |Encode(KeyMsg, Contents())|
      ensures Wrote(old(target[..]), target[..], pos, Encode(KeyMsg, Contents()))
    {
      hide *;
      Unfold();
      EncodeIs(data);
      var d := data;
      ghost var x := EncodeField(FieldSpec(1, Str), Optional(d.hasBits.b0, Text(d.name)));
      ghost var y := EncodeField(FieldSpec(2, Enum(3)), Optional(d.hasBits.b1, Num(d.keyType)));
      ghost var z := EncodeStrings(26, d.fields);
      ghost var start := target[..];
      end := WriteOptionalToArray(target, pos, FieldSpec(1, Str), d.hasBits.b0, Text(d.name));
      end := AppendOptionalToArray(target, end, FieldSpec(2, Enum(3)), d.hasBits.b1, Num(d.keyType), start, pos, x);
      end := AppendStringsToArray(target, end, 26, d.fields, start, pos, x + y);
      end := AppendUnknownFieldsToArray(target, end, d.unknown, start, pos, x + y + z);
    }
  }

  lemma KeySizeFacts(d: KeyData)
    requires DataOk(d)
    ensures Agrees(UnknownFieldsSize(d.unknown), |EncodeUnknowns(d.unknown)|)
    ensures Agrees(ScalarSize(d.hasBits.b0, Text(d.name)),
                   |EncodeField(FieldSpec(1, Str), Optional(d.hasBits.b0, Text(d.name)))|)
    ensures Agrees(ScalarSize(d.hasBits.b1, Num(d.keyType)),
                   |EncodeField(FieldSpec(2, Enum(3)), Optional(d.hasBits.b1, Num(d.keyType)))|)
    ensures !d.hasBits.b0 && !d.hasBits.b1 ==>
              ScalarSize(d.hasBits.b0, Text(d.name)) == 0 && ScalarSize(d.hasBits.b1, Num(d.keyType)) == 0
  {
    hide UnknownFieldsSize, EncodeField, Optional, VarintSize, LengthDelimitedSize, Agrees, Sized;
    UnknownFieldsSizeAgrees(d.unknown);
    ScalarSizeAgrees(FieldSpec(1, Str), d.hasBits.b0, Text(d.name));
    ScalarSizeAgrees(FieldSpec(2, Enum(3)), d.hasBits.b1, Num(d.keyType));
  }
}
