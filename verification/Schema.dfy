/** The five message types of the schema tool, their values, and the meaning of their wire form:
    what parsing, serializing and merging do, independently of how the generated classes do it. */
module Schema {
  import opened Options
  import opened Wire

  // ----- the message types -----

  datatype MessageType = FieldMsg | KeyMsg | TableMsg | SchemaMsg | ConfMsg

  datatype Kind = Str | Enum(max: nat) | Bool | UInt32 | Strings | Messages(of: MessageType)

  datatype FieldSpec = FieldSpec(number: nat, kind: Kind)

  /** The fields of a message type in the order the serializers write them. */
  function Fields(t: MessageType): seq<FieldSpec> {
    match t
    case FieldMsg => [
      FieldSpec(1, Str), FieldSpec(2, Enum(12)), FieldSpec(3, Bool), FieldSpec(4, Bool), FieldSpec(5, Str),
      FieldSpec(7, Str), FieldSpec(8, Enum(12)), FieldSpec(9, UInt32), FieldSpec(10, Bool)]
    case KeyMsg => [FieldSpec(1, Str), FieldSpec(2, Enum(3)), FieldSpec(3, Strings)]
    case TableMsg => [FieldSpec(1, Str), FieldSpec(2, Messages(FieldMsg)), FieldSpec(3, Messages(KeyMsg))]
    case SchemaMsg => [
      FieldSpec(1, Str), FieldSpec(2, UInt32), FieldSpec(3, Str), FieldSpec(4, Str), FieldSpec(5, Str),
      FieldSpec(6, Messages(TableMsg))]
    case ConfMsg => [FieldSpec(1, Messages(SchemaMsg))]
  }

  function Tag(f: FieldSpec): nat {
    f.number * 8 + (if f.kind.Str? || f.kind.Strings? || f.kind.Messages? then 2 else 0)
  }

  /** Which field, if any, a tag selects in the parser's switch. */
  function SlotOf(t: MessageType, tag: nat): (r: Option<nat>)
    ensures r.Some? ==> r.value < |Fields(t)| && Tag(Fields(t)[r.value]) == tag
    ensures r.None? ==> forall i :: 0 <= i < |Fields(t)| ==> Tag(Fields(t)[i]) != tag
  {
    match t
    case FieldMsg =>
      (match tag
       case 10 => Some(0) case 16 => Some(1) case 24 => Some(2) case 32 => Some(3) case 42 => Some(4)
       case 58 => Some(5) case 64 => Some(6) case 72 => Some(7) case 80 => Some(8) case _ => None)
    case KeyMsg =>
      (match tag case 10 => Some(0) case 16 => Some(1) case 26 => Some(2) case _ => None)
    case TableMsg =>
      (match tag case 10 => Some(0) case 18 => Some(1) case 26 => Some(2) case _ => None)
    case SchemaMsg =>
      (match tag
       case 10 => Some(0) case 16 => Some(1) case 26 => Some(2) case 34 => Some(3) case 42 => Some(4)
       case 50 => Some(5) case _ => None)
    case ConfMsg => if tag == 10 then Some(0) else None
  }

  lemma SlotOfTag(t: MessageType, i: nat)
    requires i < |Fields(t)|
    ensures SlotOf(t, Tag(Fields(t)[i])) == Some(i)
    ensures 8 <= Tag(Fields(t)[i]) < 128
  {
  }

  // ----- message values -----

  datatype Value = Text(text: bytes) | Num(num: nat)

  /** One field of a message: a presence-tracked scalar or a repeated field. */
  datatype Slot = Scalar(value: Option<Value>) | Strs(strings: seq<bytes>) | Msgs(messages: seq<Msg>)

  datatype Msg = Msg(slots: seq<Slot>, unknown: seq<Unknown>)

  function EmptySlot(k: Kind): Slot {
    match k
    case Strings => Strs([])
    case Messages(_) => Msgs([])
    case _ => Scalar(None)
  }

  /** The cleared message. */
  function Empty(t: MessageType): Msg {
    Msg(seq(|Fields(t)|, i requires 0 <= i < |Fields(t)| => EmptySlot(Fields(t)[i].kind)), [])
  }

  predicate SlotShape(k: Kind, slot: Slot) {
    match k
    case Strings => slot.Strs?
    case Messages(_) => slot.Msgs?
    case _ => slot.Scalar?
  }

  /** The slots are the fields of the type, each of its kind. */
  predicate Shape(t: MessageType, m: Msg) {
    |m.slots| == |Fields(t)| && forall i :: 0 <= i < |m.slots| ==> SlotShape(Fields(t)[i].kind, m.slots[i])
  }

  // ----- merging -----

  function MergeSlot(a: Slot, b: Slot): Slot {
    match (a, b)
    case (Scalar(_), Scalar(Some(v))) => b
    case (Strs(x), Strs(y)) => Strs(x + y)
    case (Msgs(x), Msgs(y)) => Msgs(x + y)
    case _ => a
  }

  /** The first `k` slots of `b` merged into `a`. */
  function MergeSlots(a: Msg, b: Msg, k: nat): seq<Slot> {
    seq(|a.slots|, i requires 0 <= i < |a.slots| =>
      if i < k && i < |b.slots| then MergeSlot(a.slots[i], b.slots[i]) else a.slots[i])
  }

  /** What merging `b` into `a` yields: a present scalar replaces, repeated and unknown fields append. */
  function Merge(a: Msg, b: Msg): Msg {
    Msg(MergeSlots(a, b, |b.slots|), a.unknown + b.unknown)
  }

  // ----- parsing -----

  /** The effect of one wire record on a message. */
  datatype Piece =
    | SetValue(slot: nat, value: Value)
    | AddString(slot: nat, text: bytes)
    | AddMessage(slot: nat, message: Msg)
    | AddUnknown(entry: Unknown)

  function ApplySlot(slot: Slot, p: Piece): Slot {
    match (slot, p)
    case (Scalar(_), SetValue(_, v)) => Scalar(Some(v))
    case (Strs(ss), AddString(_, s)) => Strs(ss + [s])
    case (Msgs(ms), AddMessage(_, m)) => Msgs(ms + [m])
    case _ => slot
  }

  function Apply(m: Msg, p: Piece): Msg {
    if p.AddUnknown? then m.(unknown := m.unknown + [p.entry])
    else if p.slot < |m.slots| then m.(slots := m.slots[p.slot := ApplySlot(m.slots[p.slot], p)])
    else m
  }

  /** An `int` stored in an unknown varint is sign-extended to 64 bits. */
  function SignExtend(v: nat): nat {
    if v <= INT_MAX then v else v + (TWO_64 - TWO_32)
  }

  /** What a varint read for a scalar field does: an out-of-range enum value becomes an unknown field. */
  function ScalarPiece(f: FieldSpec, slot: nat, v: nat): Piece {
    match f.kind
    case Enum(max) =>
      var int32 := v % TWO_32;
      if 1 <= int32 <= max then SetValue(slot, Num(int32)) else AddUnknown(UVarint(f.number, SignExtend(int32)))
    case Bool => SetValue(slot, Num(if v % TWO_64 != 0 then 1 else 0))
    case _ => SetValue(slot, Num(v % TWO_32))
  }

  /** The bytes of a submessage whose length prefix is at the start of `s`: where they begin and end.
      A declared length past the enclosing limit is cut to that limit. */
  function ReadExtent(s: bytes): (r: Option<(nat, nat)>)
    ensures r.Some? ==> 1 <= r.value.0 <= r.value.1 <= |s|
  {
    match DecodeVarint(s, MAX_VARINT_BYTES)
    case None => None
    case Some((v, n)) =>
      var size := v % TWO_64;
      if size > INT_MAX then None else Some((n, if n + size < |s| then n + size else |s|))
  }

  /** The body of a record for field `slot`: its effect and the bytes it takes. */
  function ReadKnown(t: MessageType, slot: nat, s: bytes, budget: nat): (r: Option<(Piece, nat)>)
    requires slot < |Fields(t)|
    ensures r.Some? ==> r.value.1 <= |s|
    decreases |s|, 0
  {
    var f := Fields(t)[slot];
    match f.kind
    case Str =>
      (match ReadBlock(s) case None => None case Some((text, n)) => Some((SetValue(slot, Text(text)), n)))
    case Strings =>
      (match ReadBlock(s) case None => None case Some((text, n)) => Some((AddString(slot, text), n)))
    case Messages(c) =>
      (match ReadExtent(s)
       case None => None
       case Some((from, to)) =>
         if budget == 0 then None
         else
           match Parse(c, Empty(c), s[from..to], budget - 1)
           case None => None
           case Some(m) => Some((AddMessage(slot, m), to)))
    case _ =>
      match DecodeVarint(s, MAX_VARINT_BYTES)
      case None => None
      case Some((v, n)) => Some((ScalarPiece(f, slot, v), n))
  }

  /** The record at the start of `s`: its effect and the bytes it takes.
      `budget` is the recursion budget left for submessages and groups. */
  function ReadPiece(t: MessageType, s: bytes, budget: nat): (r: Option<(Piece, nat)>)
    ensures r.Some? ==> 1 <= r.value.1 <= |s|
    decreases |s|, 1
  {
    match TagAt(s)
    case None => None
    case Some((tag, n)) =>
      match SlotOf(t, tag)
      case None =>
        (match SkipField(tag, s[n..], budget)
         case None => None
         case Some((u, k)) => Some((AddUnknown(u), n + k)))
      case Some(slot) =>
        match ReadKnown(t, slot, s[n..], budget)
        case None => None
        case Some((p, k)) => Some((p, n + k))
  }

  /** Parsing all of `s` into a message that holds `m`; None when the parser reports failure. */
  function Parse(t: MessageType, m: Msg, s: bytes, budget: nat): Option<Msg>
    decreases |s|, 2
  {
    if s == [] then Some(m)
    else
      match ReadPiece(t, s, budget)
      case None => None
      case Some((p, n)) => Parse(t, Apply(m, p), s[n..], budget)
  }

  // ----- serializing -----

  function EncodeStrings(tag: nat, ss: seq<bytes>): bytes {
    if ss == [] then []
    else EncodeStrings(tag, ss[..|ss| - 1]) + (Varint(tag) + Block(ss[|ss| - 1]))
  }

  function EncodeMessages(tag: nat, c: MessageType, ms: seq<Msg>): bytes
    decreases ms, 0
  {
    if ms == [] then []
    else EncodeMessages(tag, c, ms[..|ms| - 1]) + (Varint(tag) + Block(Encode(c, ms[|ms| - 1])))
  }

  function EncodeField(f: FieldSpec, slot: Slot): bytes
    decreases slot, 1
  {
    match slot
    case Scalar(None) => []
    case Scalar(Some(Text(text))) => Varint(Tag(f)) + Block(text)
    case Scalar(Some(Num(n))) => Varint(Tag(f)) + Varint(n)
    case Strs(ss) => EncodeStrings(Tag(f), ss)
    case Msgs(ms) => if f.kind.Messages? then EncodeMessages(Tag(f), f.kind.of, ms) else []
  }

  /** The first `k` fields in field-number order. */
  function EncodeSlots(t: MessageType, m: Msg, k: nat): bytes
    decreases m, 2, k
  {
    if k == 0 || k > |m.slots| || k > |Fields(t)| then []
    else EncodeSlots(t, m, k - 1) + EncodeField(Fields(t)[k - 1], m.slots[k - 1])
  }

  /** The serialized message: known fields by number, then the unknown fields. */
  function Encode(t: MessageType, m: Msg): bytes
    decreases m, 3
  {
    EncodeSlots(t, m, |Fields(t)|) + EncodeUnknowns(m.unknown)
  }

  // ----- values a message can hold -----

  predicate EnumRange(v: nat, max: nat) { 1 <= v <= max }

  /** An unknown field that the parser of type `t` puts back among the unknown fields, unchanged:
      its tag selects no field, or it is a sign-extended out-of-range value of an enum field. */
  predicate Survives(t: MessageType, u: Unknown) {
    match SlotOf(t, UnknownTag(u))
    case None => true
    case Some(i) =>
      && Fields(t)[i].kind.Enum? && u.UVarint?
      && u.value == SignExtend(u.value % TWO_32)
      && !EnumRange(u.value % TWO_32, Fields(t)[i].kind.max)
  }

  predicate SlotOk(k: Kind, slot: Slot, budget: nat)
    decreases slot, 0
  {
    match k
    case Str => slot.Scalar? && (slot.value.Some? ==> slot.value.value.Text? && |slot.value.value.text| <= INT_MAX)
    case Enum(max) => slot.Scalar? && (slot.value.Some? ==> slot.value.value.Num? && EnumRange(slot.value.value.num, max))
    case Bool => slot.Scalar? && (slot.value.Some? ==> slot.value.value.Num? && slot.value.value.num <= 1)
    case UInt32 => slot.Scalar? && (slot.value.Some? ==> slot.value.value.Num? && slot.value.value.num < TWO_32)
    case Strings => slot.Strs? && forall j :: 0 <= j < |slot.strings| ==> |slot.strings[j]| <= INT_MAX
    case Messages(c) =>
      && slot.Msgs?
      && forall j :: 0 <= j < |slot.messages| ==> budget > 0 && WellFormed(c, slot.messages[j], budget - 1)
  }

  /** Every value fits its field and every unknown field survives a parse. */
  predicate WellFormed(t: MessageType, m: Msg, budget: nat)
    decreases m, 1
  {
    && |m.slots| == |Fields(t)|
    && (forall i :: 0 <= i < |m.slots| ==> SlotOk(Fields(t)[i].kind, m.slots[i], budget))
    && (forall i :: 0 <= i < |m.unknown| ==> CanonicalUnknown(m.unknown[i], budget) && Survives(t, m.unknown[i]))
  }

  lemma WellFormedShape(t: MessageType, m: Msg, budget: nat)
    requires WellFormed(t, m, budget)
    ensures Shape(t, m)
  {
    forall i | 0 <= i < |m.slots| ensures SlotShape(Fields(t)[i].kind, m.slots[i]) {
      assert SlotOk(Fields(t)[i].kind, m.slots[i], budget);
    }
  }
}
