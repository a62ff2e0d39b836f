/** Serializing and parsing: a well-formed message survives, at every level of nesting, and everything the
    parser accepts is well-formed, so one parse normalises a byte string for good. */
module RoundTrip {
  import opened Options
  import opened Wire
  import opened Schema
  import opened MergeLaws

  // ----- one record -----

  lemma ParseRecord(t: MessageType, m: Msg, record: bytes, rest: bytes, p: Piece, budget: nat)
    requires record != [] && ReadPiece(t, record + rest, budget) == Some((p, |record|))
    ensures Parse(t, m, record + rest, budget) == Parse(t, Apply(m, p), rest, budget)
  {
    hide ReadPiece, Apply;
    assert (record + rest)[|record|..] == rest;
    ParseStep(t, m, record + rest, budget);
  }

  lemma ReadKnownRecord(t: MessageType, slot: nat, body: bytes, rest: bytes, p: Piece, budget: nat)
    requires slot < |Fields(t)| && ReadKnown(t, slot, body + rest, budget) == Some((p, |body|))
    ensures ReadPiece(t, Varint(Tag(Fields(t)[slot])) + body + rest, budget)
         == Some((p, |Varint(Tag(Fields(t)[slot])) + body|))
  {
    hide ReadKnown, Fields, Tag, SlotOf, Varint, TagAt, SkipField;
    var tag := Tag(Fields(t)[slot]);
    SlotOfTag(t, slot);
    ReadTagOf(tag, body, rest);
    assert Varint(tag) + body + rest == Varint(tag) + (body + rest);
  }

  lemma ReadUnknownRecord(t: MessageType, u: Unknown, rest: bytes, budget: nat)
    requires CanonicalUnknown(u, budget) && SlotOf(t, UnknownTag(u)).None?
    ensures ReadPiece(t, EncodeUnknown(u) + rest, budget) == Some((AddUnknown(u), |EncodeUnknown(u)|))
  {
    hide SkipField, SlotOf, Varint, TagAt, UnknownBody, CanonicalUnknown, ReadKnown;
    var head, body := Varint(UnknownTag(u)), UnknownBody(u);
    UnknownTagBound(u, budget);
    ReadTagOf(UnknownTag(u), body, rest);
    assert EncodeUnknown(u) + rest == head + (body + rest);
    SkipFieldRoundTrip(u, rest, budget);
  }

  /** An out-of-range enum value kept as an unknown field is read back as the same unknown field. */
  lemma ReadEnumRecord(t: MessageType, u: Unknown, slot: nat, rest: bytes, budget: nat)
    requires CanonicalUnknown(u, budget) && Survives(t, u) && SlotOf(t, UnknownTag(u)) == Some(slot)
    ensures ReadPiece(t, EncodeUnknown(u) + rest, budget) == Some((AddUnknown(u), |EncodeUnknown(u)|))
  {
    hide SkipField, SlotOf, Fields, DecodeVarint;
    Varint64RoundTrip(u.value, rest);
    assert ReadKnown(t, slot, Varint(u.value) + rest, budget) == Some((AddUnknown(u), |Varint(u.value)|));
    ReadKnownRecord(t, slot, Varint(u.value), rest, AddUnknown(u), budget);
  }

  lemma {:induction false} ParseUnknowns(t: MessageType, m: Msg, us: seq<Unknown>, rest: bytes, budget: nat)
    requires forall i :: 0 <= i < |us| ==> CanonicalUnknown(us[i], budget) && Survives(t, us[i])
    ensures Parse(t, m, EncodeUnknowns(us) + rest, budget)
         == Parse(t, m.(unknown := m.unknown + us), rest, budget)
    decreases |us|
  {
    hide Parse, EncodeUnknown, CanonicalUnknown, SlotOf, UnknownTag, Fields, SignExtend, ReadPiece;
    if us == [] {
      assert EncodeUnknowns(us) + rest == rest;
      assert m.unknown + us == m.unknown;
    } else {
      var u, tail := us[0], EncodeUnknowns(us[1..]) + rest;
      assert EncodeUnknowns(us) + rest == EncodeUnknown(u) + tail;
      match SlotOf(t, UnknownTag(u)) {
        case None => ReadUnknownRecord(t, u, tail, budget);
        case Some(slot) => ReadEnumRecord(t, u, slot, tail, budget);
      }
      ParseRecord(t, m, EncodeUnknown(u), tail, AddUnknown(u), budget);
      ParseUnknowns(t, Apply(m, AddUnknown(u)), us[1..], rest, budget);
      assert m.unknown + [u] + us[1..] == m.unknown + us;
    }
  }

  // ----- one field -----

  /** `m` with the slot replaced by its merge with `slot`. */
  function MergeAt(m: Msg, i: nat, slot: Slot): Msg
    requires i < |m.slots|
  {
    m.(slots := m.slots[i := MergeSlot(m.slots[i], slot)])
  }

  lemma EnumBound(t: MessageType, i: nat)
    requires i < |Fields(t)|
    ensures Fields(t)[i].kind.Enum? ==> Fields(t)[i].kind.max <= 12
  {
  }

  lemma ReadScalar(t: MessageType, i: nat, value: Value, rest: bytes, budget: nat)
    requires i < |Fields(t)| && SlotOk(Fields(t)[i].kind, Scalar(Some(value)), budget)
    ensures var body := if value.Text? then Block(value.text) else Varint(value.num);
            ReadKnown(t, i, body + rest, budget) == Some((SetValue(i, value), |body|))
  {
    hide Fields, DecodeVarint, Varint, ReadBlock, Block, Parse;
    match value
    case Text(text) => BlockRoundTrip(text, rest);
    case Num(n) =>
      EnumBound(t, i);
      Varint64RoundTrip(n, rest);
  }

  lemma ParseScalar(t: MessageType, m: Msg, i: nat, value: Value, rest: bytes, budget: nat)
    requires Shape(t, m) && i < |Fields(t)| && SlotOk(Fields(t)[i].kind, Scalar(Some(value)), budget)
    ensures Parse(t, m, EncodeField(Fields(t)[i], Scalar(Some(value))) + rest, budget)
         == Parse(t, MergeAt(m, i, Scalar(Some(value))), rest, budget)
  {
    hide Parse, ReadPiece, ReadKnown, Fields, Tag, Varint, Block;
    var body := if value.Text? then Block(value.text) else Varint(value.num);
    ReadScalar(t, i, value, rest, budget);
    ReadKnownRecord(t, i, body, rest, SetValue(i, value), budget);
    ParseRecord(t, m, Varint(Tag(Fields(t)[i])) + body, rest, SetValue(i, value), budget);
    assert SlotShape(Fields(t)[i].kind, m.slots[i]);
  }

  lemma {:induction false} ParseStrings(t: MessageType, m: Msg, i: nat, ss: seq<bytes>, rest: bytes, budget: nat)
    requires Shape(t, m) && i < |Fields(t)| && SlotOk(Fields(t)[i].kind, Strs(ss), budget)
    ensures Parse(t, m, EncodeStrings(Tag(Fields(t)[i]), ss) + rest, budget)
         == Parse(t, MergeAt(m, i, Strs(ss)), rest, budget)
    decreases |ss|
  {
    hide Parse, ReadPiece, ReadBlock, Fields, Tag, Varint, Block;
    var tag := Tag(Fields(t)[i]);
    assert SlotShape(Fields(t)[i].kind, m.slots[i]);
    if ss == [] {
      assert EncodeStrings(tag, ss) + rest == rest;
      assert m.slots[i].strings + ss == m.slots[i].strings;
      assert MergeAt(m, i, Strs(ss)) == m;
    } else {
      var init, last := ss[..|ss| - 1], ss[|ss| - 1];
      var record := Varint(tag) + Block(last);
      assert EncodeStrings(tag, ss) + rest == EncodeStrings(tag, init) + (record + rest);
      ParseStrings(t, m, i, init, record + rest, budget);
      BlockRoundTrip(last, rest);
      ReadKnownRecord(t, i, Block(last), rest, AddString(i, last), budget);
      var n := MergeAt(m, i, Strs(init));
      ParseRecord(t, n, record, rest, AddString(i, last), budget);
      assert m.slots[i].strings + init + [last] == m.slots[i].strings + ss;
      assert Apply(n, AddString(i, last)) == MergeAt(m, i, Strs(ss));
    }
  }

  lemma ReadMessage(t: MessageType, i: nat, c: MessageType, child: Msg, rest: bytes, budget: nat)
    requires i < |Fields(t)| && Fields(t)[i].kind == Messages(c) && budget > 0
    requires |Encode(c, child)| <= INT_MAX
    requires Parse(c, Empty(c), Encode(c, child), budget - 1) == Some(child)
    ensures ReadKnown(t, i, Block(Encode(c, child)) + rest, budget)
         == Some((AddMessage(i, child), |Block(Encode(c, child))|))
  {
    hide Fields, Varint, DecodeVarint, Encode, Parse, Empty;
    var body := Encode(c, child);
    var s := Block(body) + rest;
    assert s == Varint(|body|) + (body + rest);
    Varint64RoundTrip(|body|, body + rest);
    assert s[|Varint(|body|)|..|Varint(|body|)| + |body|] == body;
  }

  lemma {:induction false} ParseMessages(t: MessageType, m: Msg, i: nat, c: MessageType, ms: seq<Msg>,
                                         rest: bytes, budget: nat)
    requires Shape(t, m) && i < |Fields(t)| && Fields(t)[i].kind == Messages(c)
    requires forall j :: 0 <= j < |ms| ==> budget > 0 && WellFormed(c, ms[j], budget - 1)
    requires |EncodeMessages(Tag(Fields(t)[i]), c, ms)| <= INT_MAX
    ensures Parse(t, m, EncodeMessages(Tag(Fields(t)[i]), c, ms) + rest, budget)
         == Parse(t, MergeAt(m, i, Msgs(ms)), rest, budget)
    decreases ms, 0
  {
    hide Parse, ReadPiece, ReadKnown, Fields, Tag, Varint, Encode, WellFormed;
    var tag := Tag(Fields(t)[i]);
    assert SlotShape(Fields(t)[i].kind, m.slots[i]);
    if ms == [] {
      assert EncodeMessages(tag, c, ms) + rest == rest;
      assert m.slots[i].messages + ms == m.slots[i].messages;
      assert MergeAt(m, i, Msgs(ms)) == m;
    } else {
      var init, last := ms[..|ms| - 1], ms[|ms| - 1];
      var record := Varint(tag) + Block(Encode(c, last));
      assert EncodeMessages(tag, c, ms) == EncodeMessages(tag, c, init) + record;
      assert EncodeMessages(tag, c, ms) + rest == EncodeMessages(tag, c, init) + (record + rest);
      ParseMessages(t, m, i, c, init, record + rest, budget);
      EmptyShape(c);
      RoundTripAlone(c, last, budget - 1);
      ReadMessage(t, i, c, last, rest, budget);
      ReadKnownRecord(t, i, Block(Encode(c, last)), rest, AddMessage(i, last), budget);
      var n := MergeAt(m, i, Msgs(init));
      ParseRecord(t, n, record, rest, AddMessage(i, last), budget);
      assert m.slots[i].messages + init + [last] == m.slots[i].messages + ms;
      assert Apply(n, AddMessage(i, last)) == MergeAt(m, i, Msgs(ms));
    }
  }

  lemma {:induction false} ParseField(t: MessageType, m: Msg, i: nat, slot: Slot, rest: bytes, budget: nat)
    requires Shape(t, m) && i < |Fields(t)| && SlotOk(Fields(t)[i].kind, slot, budget)
    requires |EncodeField(Fields(t)[i], slot)| <= INT_MAX
    ensures Parse(t, m, EncodeField(Fields(t)[i], slot) + rest, budget)
         == Parse(t, MergeAt(m, i, slot), rest, budget)
    decreases slot, 1
  {
    hide Parse, Fields, Tag, Varint, Block;
    match slot
    case Scalar(None) =>
      assert EncodeField(Fields(t)[i], slot) + rest == rest;
      assert MergeAt(m, i, slot) == m;
    case Scalar(Some(value)) => ParseScalar(t, m, i, value, rest, budget);
    case Strs(ss) => ParseStrings(t, m, i, ss, rest, budget);
    case Msgs(ms) => ParseMessages(t, m, i, Fields(t)[i].kind.of, ms, rest, budget);
  }

  // ----- whole messages -----

  lemma {:induction false} ParseSlots(t: MessageType, base: Msg, m: Msg, k: nat, rest: bytes, budget: nat)
    requires Shape(t, base) && WellFormed(t, m, budget) && k <= |Fields(t)|
    requires |EncodeSlots(t, m, k)| <= INT_MAX
    ensures Parse(t, base, EncodeSlots(t, m, k) + rest, budget)
         == Parse(t, base.(slots := MergeSlots(base, m, k)), rest, budget)
    decreases m, 2, k
  {
    hide Parse, Fields, EncodeField;
    if k == 0 {
      assert EncodeSlots(t, m, k) + rest == rest;
      assert MergeSlots(base, m, 0) == base.slots;
    } else {
      var field := EncodeField(Fields(t)[k - 1], m.slots[k - 1]);
      assert EncodeSlots(t, m, k) + rest == EncodeSlots(t, m, k - 1) + (field + rest);
      ParseSlots(t, base, m, k - 1, field + rest, budget);
      var next := base.(slots := MergeSlots(base, m, k - 1));
      WellFormedShape(t, m, budget);
      PrefixShape(t, base, m, k - 1);
      ParseField(t, next, k - 1, m.slots[k - 1], rest, budget);
      assert MergeAt(next, k - 1, m.slots[k - 1]).slots == MergeSlots(base, m, k);
    }
  }

  lemma PrefixShape(t: MessageType, a: Msg, b: Msg, k: nat)
    requires Shape(t, a) && Shape(t, b)
    ensures Shape(t, a.(slots := MergeSlots(a, b, k)))
  {
  }

  /** Parsing a serialized well-formed message onto `base` merges it in and leaves the rest to be parsed. */
  lemma {:induction false} RoundTripInto(t: MessageType, base: Msg, m: Msg, rest: bytes, budget: nat)
    requires Shape(t, base) && WellFormed(t, m, budget) && |Encode(t, m)| <= INT_MAX
    ensures Parse(t, base, Encode(t, m) + rest, budget) == Parse(t, Merge(base, m), rest, budget)
    decreases m, 3
  {
    hide Parse, Fields, EncodeSlots, EncodeUnknowns, CanonicalUnknown, Survives;
    var slots, unknowns := EncodeSlots(t, m, |Fields(t)|), EncodeUnknowns(m.unknown);
    assert Encode(t, m) + rest == slots + (unknowns + rest);
    ParseSlots(t, base, m, |Fields(t)|, unknowns + rest, budget);
    ParseUnknowns(t, base.(slots := MergeSlots(base, m, |Fields(t)|)), m.unknown, rest, budget);
  }

  /** Round trip: a cleared message that parses the serialized bytes is the message again. */
  lemma {:induction false} RoundTripAlone(t: MessageType, m: Msg, budget: nat)
    requires WellFormed(t, m, budget) && |Encode(t, m)| <= INT_MAX
    ensures Parse(t, Empty(t), Encode(t, m), budget) == Some(m)
    decreases m, 4
  {
    hide Fields, WellFormed, Encode, Empty;
    EmptyShape(t);
    WellFormedShape(t, m, budget);
    RoundTripInto(t, Empty(t), m, [], budget);
    assert Encode(t, m) + [] == Encode(t, m);
    EmptyMerge(t, m);
  }

  /** Concatenation is merge, for serialized messages of every type and depth. */
  lemma ConcatenatedMessagesMerge(t: MessageType, a: Msg, b: Msg, budget: nat)
    requires WellFormed(t, a, budget) && |Encode(t, a)| <= INT_MAX
    requires WellFormed(t, b, budget) && |Encode(t, b)| <= INT_MAX
    ensures Parse(t, Empty(t), Encode(t, a) + Encode(t, b), budget) == Some(Merge(a, b))
  {
    hide Fields, WellFormed, Encode, Empty;
    EmptyShape(t);
    WellFormedShape(t, a, budget);
    RoundTripInto(t, Empty(t), a, Encode(t, b), budget);
    EmptyMerge(t, a);
    RoundTripInto(t, a, b, [], budget);
    assert Encode(t, b) + [] == Encode(t, b);
  }

  // ----- what the parser accepts -----

  /** The effect of a record is one a well-formed message can absorb. */
  predicate PieceOk(t: MessageType, p: Piece, budget: nat) {
    match p
    case SetValue(i, v) => i < |Fields(t)| && SlotOk(Fields(t)[i].kind, Scalar(Some(v)), budget)
    case AddString(i, s) => i < |Fields(t)| && Fields(t)[i].kind.Strings? && |s| <= INT_MAX
    case AddMessage(i, m) =>
      && i < |Fields(t)| && Fields(t)[i].kind.Messages?
      && budget > 0 && WellFormed(Fields(t)[i].kind.of, m, budget - 1)
    case AddUnknown(u) => CanonicalUnknown(u, budget) && Survives(t, u)
  }

  lemma EmptyWellFormed(t: MessageType, budget: nat)
    ensures WellFormed(t, Empty(t), budget)
  {
    forall i | 0 <= i < |Fields(t)| ensures SlotOk(Fields(t)[i].kind, EmptySlot(Fields(t)[i].kind), budget) {
    }
  }

  lemma ApplyWellFormed(t: MessageType, m: Msg, p: Piece, budget: nat)
    requires WellFormed(t, m, budget) && PieceOk(t, p, budget)
    ensures WellFormed(t, Apply(m, p), budget)
  {
    hide Fields, CanonicalUnknown, Survives;
    if !p.AddUnknown? {
      assert SlotOk(Fields(t)[p.slot].kind, m.slots[p.slot], budget);
      assert SlotOk(Fields(t)[p.slot].kind, ApplySlot(m.slots[p.slot], p), budget);
    }
  }

  lemma SignExtendTruncates(v: nat)
    requires v < TWO_32
    ensures SignExtend(v) < TWO_64 && SignExtend(v) % TWO_32 == v
  {
  }

  lemma ScalarPieceOk(t: MessageType, i: nat, v: nat, budget: nat)
    requires i < |Fields(t)|
    requires Fields(t)[i].kind.Enum? || Fields(t)[i].kind.Bool? || Fields(t)[i].kind.UInt32?
    ensures PieceOk(t, ScalarPiece(Fields(t)[i], i, v), budget)
  {
    hide Fields, SignExtend, SlotOf;
    SlotOfTag(t, i);
    SignExtendTruncates(v % TWO_32);
    FieldNumber(t, i);
  }

  lemma FieldNumber(t: MessageType, i: nat)
    requires i < |Fields(t)|
    ensures 1 <= Fields(t)[i].number <= 10
  {
  }

  lemma {:induction false} ReadKnownOk(t: MessageType, i: nat, s: bytes, budget: nat)
    requires i < |Fields(t)| && ReadKnown(t, i, s, budget).Some?
    ensures PieceOk(t, ReadKnown(t, i, s, budget).value.0, budget)
    decreases |s|, 0
  {
    hide Fields, DecodeVarint, ScalarPiece, Parse, Empty, WellFormed;
    match Fields(t)[i].kind
    case Str =>
    case Strings =>
    case Messages(c) =>
      var (from, to) := ReadExtent(s).value;
      EmptyWellFormed(c, budget - 1);
      ParseWellFormed(c, Empty(c), s[from..to], budget - 1);
    case _ => ScalarPieceOk(t, i, DecodeVarint(s, MAX_VARINT_BYTES).value.0, budget);
  }

  lemma {:induction false} ReadPieceOk(t: MessageType, s: bytes, budget: nat)
    requires ReadPiece(t, s, budget).Some?
    ensures PieceOk(t, ReadPiece(t, s, budget).value.0, budget)
    decreases |s|, 1
  {
    hide Fields, TagAt, ReadKnown, SkipField, SlotOf, CanonicalUnknown;
    var (tag, n) := TagAt(s).value;
    match SlotOf(t, tag)
    case None => SkipFieldCanonical(tag, s[n..], budget);
    case Some(i) => ReadKnownOk(t, i, s[n..], budget);
  }

  /** Parsing any byte string onto a well-formed message leaves a well-formed message. */
  lemma {:induction false} ParseWellFormed(t: MessageType, m: Msg, s: bytes, budget: nat)
    requires WellFormed(t, m, budget) && Parse(t, m, s, budget).Some?
    ensures WellFormed(t, Parse(t, m, s, budget).value, budget)
    decreases |s|, 2
  {
    hide ReadPiece, Apply, PieceOk, WellFormed;
    if s != [] {
      ParseStep(t, m, s, budget);
      var (p, n) := ReadPiece(t, s, budget).value;
      ReadPieceOk(t, s, budget);
      ApplyWellFormed(t, m, p, budget);
      ParseWellFormed(t, Apply(m, p), s[n..], budget);
    }
  }

  /** One parse normalises: whatever bytes were accepted, serializing the result (when it fits the 2 GB the
      library allows) gives bytes that parse to the same message. No condition on the bytes is needed. */
  lemma ParseNormalises(t: MessageType, s: bytes, budget: nat)
    requires Parse(t, Empty(t), s, budget).Some?
    ensures var m := Parse(t, Empty(t), s, budget).value;
            |Encode(t, m)| <= INT_MAX ==> Parse(t, Empty(t), Encode(t, m), budget) == Some(m)
  {
    hide Encode, Empty, WellFormed, Parse;
    var m := Parse(t, Empty(t), s, budget).value;
    EmptyWellFormed(t, budget);
    ParseWellFormed(t, Empty(t), s, budget);
    if |Encode(t, m)| <= INT_MAX {
      RoundTripAlone(t, m, budget);
    }
  }

  /** Round trip, exactly: a message that fits the size limit comes back if and only if it is well-formed,
      that is, its values fit their fields and each unknown field at each level survives a parse. */
  lemma RoundTripExactly(t: MessageType, m: Msg, budget: nat)
    requires |Encode(t, m)| <= INT_MAX
    ensures Parse(t, Empty(t), Encode(t, m), budget) == Some(m) <==> WellFormed(t, m, budget)
  {
    hide Encode, Empty, WellFormed, Parse;
    if WellFormed(t, m, budget) {
      RoundTripAlone(t, m, budget);
    }
    if Parse(t, Empty(t), Encode(t, m), budget) == Some(m) {
      EmptyWellFormed(t, budget);
      ParseWellFormed(t, Empty(t), Encode(t, m), budget);
    }
  }
}
