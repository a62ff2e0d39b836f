/** What one case of a parser's switch must do, by the kind of the field it reads. */
module Effects {
  import opened Options
  import opened Wire
  import opened Schema
  import opened Sizes

  /** The presence word, lowest bit first; no message type uses more than nine bits. */
  datatype HasBits = HasBits(b0: bool, b1: bool, b2: bool, b3: bool, b4: bool, b5: bool, b6: bool, b7: bool, b8: bool)

  const NO_BITS := HasBits(false, false, false, false, false, false, false, false, false)

  /** Bitwise or. */
  function Or(x: HasBits, y: HasBits): HasBits {
    HasBits(x.b0 || y.b0, x.b1 || y.b1, x.b2 || y.b2, x.b3 || y.b3, x.b4 || y.b4,
            x.b5 || y.b5, x.b6 || y.b6, x.b7 || y.b7, x.b8 || y.b8)
  }

  /** A present scalar field, or an absent one. */
  function Optional(present: bool, value: Value): Slot { Scalar(if present then Some(value) else None) }

  function BoolValue(b: bool): Value { Num(if b then 1 else 0) }

  lemma OptionalPresent(v: Value)
    ensures Optional(true, v) == Scalar(Some(v))
  {
  }

  lemma OptionalAbsent(v: Value)
    ensures Optional(false, v) == Scalar(None)
  {
  }

  lemma OptionalMerge(p: bool, x: Value, q: bool, y: Value)
    ensures MergeSlot(Optional(p, x), Optional(q, y)) == Optional(p || q, if q then y else x)
  {
  }

  /** `m` with one slot replaced. */
  function WithSlot(m: Msg, i: nat, slot: Slot): Msg
    requires i < |m.slots|
  {
    m.(slots := m.slots[i := slot])
  }

  /** A read for field `slot` of a message, starting at `rest`, did what the record says. */
  ghost predicate Absorbs(t: MessageType, slot: nat, rest: bytes, budget: int, ok: bool, taken: int,
                          before: Msg, after: Msg)
    requires slot < |Fields(t)| && budget >= 0
  {
    var r := ReadKnown(t, slot, rest, budget);
    && (ok <==> r.Some?)
    && (ok ==> after == Apply(before, r.value.0) && taken == r.value.1)
  }

  lemma AbsorbsText(t: MessageType, i: nat, rest: bytes, budget: int, ok: bool, text: bytes, taken: int,
                    before: Msg, after: Msg)
    requires i < |Fields(t)| && i < |before.slots| && budget >= 0
    requires Fields(t)[i].kind == Str && before.slots[i].Scalar?
    requires ok <==> ReadBlock(rest).Some?
    requires ok ==> ReadBlock(rest) == Some((text, taken))
    requires ok ==> after == WithSlot(before, i, Scalar(Some(Text(text))))
    ensures Absorbs(t, i, rest, budget, ok, taken, before, after)
  {
    hide Fields, ReadBlock;
  }

  lemma AbsorbsString(t: MessageType, i: nat, rest: bytes, budget: int, ok: bool, text: bytes, taken: int,
                      before: Msg, after: Msg)
    requires i < |Fields(t)| && i < |before.slots| && budget >= 0
    requires Fields(t)[i].kind == Strings && before.slots[i].Strs?
    requires ok <==> ReadBlock(rest).Some?
    requires ok ==> ReadBlock(rest) == Some((text, taken))
    requires ok ==> after == WithSlot(before, i, Strs(before.slots[i].strings + [text]))
    ensures Absorbs(t, i, rest, budget, ok, taken, before, after)
  {
    hide Fields, ReadBlock;
  }

  /** A submessage was read into a cleared message of type `c`. */
  ghost predicate MessageRead(c: MessageType, rest: bytes, budget: int, ok: bool, taken: int, m: Msg)
    requires budget >= 0
  {
    var r := ReadExtent(rest);
    && (ok <==> r.Some? && budget > 0 && Parse(c, Empty(c), rest[r.value.0..r.value.1], budget - 1).Some?)
    && (ok ==> taken == r.value.1)
    && (ok ==> Parse(c, Empty(c), rest[r.value.0..r.value.1], budget - 1) == Some(m))
  }

  lemma AbsorbsMessage(t: MessageType, i: nat, c: MessageType, rest: bytes, budget: int, ok: bool, m: Msg, taken: int,
                       before: Msg, after: Msg)
    requires i < |Fields(t)| && i < |before.slots| && budget >= 0
    requires Fields(t)[i].kind == Messages(c) && before.slots[i].Msgs?
    requires MessageRead(c, rest, budget, ok, taken, m)
    requires ok ==> after == WithSlot(before, i, Msgs(before.slots[i].messages + [m]))
    ensures Absorbs(t, i, rest, budget, ok, taken, before, after)
  {
    hide Fields, ReadExtent, Parse, Empty;
  }

  /** The sign-extended value kept for an out-of-range enum fits 64 bits. */
  lemma SignExtendFits(v: nat)
    requires v < TWO_32
    ensures SignExtend(v) < TWO_64
  {
  }

  lemma AbsorbsVarint(t: MessageType, i: nat, rest: bytes, budget: int, ok: bool, taken: int, before: Msg, after: Msg)
    requires i < |Fields(t)| && i < |before.slots| && budget >= 0 && before.slots[i].Scalar?
    requires Fields(t)[i].kind.Enum? || Fields(t)[i].kind.Bool? || Fields(t)[i].kind.UInt32?
    requires ok <==> DecodeVarint(rest, MAX_VARINT_BYTES).Some?
    requires ok ==> var (v, n) := DecodeVarint(rest, MAX_VARINT_BYTES).value;
                    taken == n && after == Apply(before, ScalarPiece(Fields(t)[i], i, v))
    ensures Absorbs(t, i, rest, budget, ok, taken, before, after)
  {
    hide Fields, DecodeVarint, ScalarPiece;
  }

  // ----- one round of a parser's loop -----

  /** The parse of a message is over: at a legitimate end it has consumed everything and holds `after`. */
  ghost predicate Outcome(t: MessageType, before: Msg, rest: bytes, budget: nat, ok: bool, after: Msg) {
    var r := Parse(t, before, rest, budget);
    (ok <==> r.Some?) && (ok ==> after == r.value)
  }

  /** A record of a known field was read. */
  lemma KnownStep(t: MessageType, before: Msg, after: Msg, s: bytes, tag: nat, n: nat, ok: bool, k: nat, budget: nat)
    requires TagAt(s) == Some((tag, n)) && SlotOf(t, tag).Some?
    requires Absorbs(t, SlotOf(t, tag).value, s[n..], budget, ok, k, before, after)
    ensures !ok ==> Parse(t, before, s, budget).None?
    ensures ok ==> n + k <= |s| && Parse(t, before, s, budget) == Parse(t, after, s[n..][k..], budget)
  {
    hide ReadKnown, SkipField, SlotOf, Apply, TagAt;
    var slot := SlotOf(t, tag).value;
    if ok {
      var p := ReadKnown(t, slot, s[n..], budget).value.0;
      assert ReadPiece(t, s, budget) == Some((p, n + k));
      assert s[n..][k..] == s[n + k..];
    } else {
      assert ReadPiece(t, s, budget).None?;
    }
  }

  /** A record of no known field was skipped into the unknown fields. */
  lemma UnknownStep(t: MessageType, before: Msg, s: bytes, tag: nat, n: nat, budget: nat)
    requires TagAt(s) == Some((tag, n)) && SlotOf(t, tag).None?
    ensures SkipField(tag, s[n..], budget).None? ==> Parse(t, before, s, budget).None?
    ensures SkipField(tag, s[n..], budget).Some? ==>
              var (u, k) := SkipField(tag, s[n..], budget).value;
              Parse(t, before, s, budget) == Parse(t, Apply(before, AddUnknown(u)), s[n..][k..], budget)
  {
    hide ReadKnown, SkipField, SlotOf, Apply, TagAt;
    if SkipField(tag, s[n..], budget).Some? {
      assert s[n..][SkipField(tag, s[n..], budget).value.1..] == s[n + SkipField(tag, s[n..], budget).value.1..];
    }
  }

  lemma ParsedTo(t: MessageType, before: Msg, rest: bytes, budget: nat, ok: bool, after: Msg, m: Msg)
    requires Outcome(t, before, rest, budget, ok, after) && Parse(t, before, rest, budget) == Some(m)
    ensures ok && after == m
  {
    hide Parse;
  }

  /** The parse of a submessage, seen from the message that contains it. */
  lemma MessageOutcome(c: MessageType, rest: bytes, budget: nat, inner: bytes, ok: bool, m: Msg)
    requires ReadExtent(rest).Some? && budget > 0
    requires inner == rest[ReadExtent(rest).value.0..ReadExtent(rest).value.1]
    requires Outcome(c, Empty(c), inner, budget - 1, ok, m)
    ensures MessageRead(c, rest, budget, ok, ReadExtent(rest).value.1, m)
  {
    hide Parse, ReadExtent, Empty;
  }

  /** No tag could be read: that is right at the end of the bytes and wrong anywhere else. */
  lemma EndStep(t: MessageType, m: Msg, s: bytes, budget: nat)
    requires TagAt(s).None?
    ensures Outcome(t, m, s, budget, s == [], m)
  {
    hide ReadKnown, SkipField, SlotOf, Apply, TagAt;
    if s != [] {
      assert ReadPiece(t, s, budget).None?;
    } else {
      assert Parse(t, m, s, budget) == Some(m);
    }
  }

  /** A record was skipped into the unknown fields of a message. */
  ghost predicate Skipped(tag: nat, rest: bytes, budget: int, ok: bool, taken: int, before: Msg, after: Msg)
    requires budget >= 0
  {
    var r := SkipField(tag, rest, budget);
    && (ok <==> r.Some?)
    && (ok ==> after == Apply(before, AddUnknown(r.value.0)) && taken == r.value.1)
  }

  lemma ParseFailed(t: MessageType, before: Msg, now: Msg, start: bytes, s: bytes, budget: nat, after: Msg)
    requires Parse(t, before, start, budget) == Parse(t, now, s, budget) && Parse(t, now, s, budget).None?
    ensures Outcome(t, before, start, budget, false, after)
  {
    hide Parse;
  }

  lemma TagOutcome(t: MessageType, before: Msg, now: Msg, start: bytes, s: bytes, budget: nat, ok: bool, after: Msg)
    requires Parse(t, before, start, budget) == Parse(t, now, s, budget)
    requires Outcome(t, now, s, budget, ok, after)
    ensures Outcome(t, before, start, budget, ok, after)
  {
    hide Parse;
  }

  // ----- serializing field by field -----

  lemma EncodeNext(t: MessageType, m: Msg, k: nat)
    requires k < |Fields(t)| && k < |m.slots|
    ensures EncodeSlots(t, m, k + 1) == EncodeSlots(t, m, k) + EncodeField(Fields(t)[k], m.slots[k])
  {
    hide EncodeField, Fields;
  }

  lemma EncodeNone(t: MessageType, m: Msg)
    ensures EncodeSlots(t, m, 0) == []
    ensures Encode(t, m) == EncodeSlots(t, m, |Fields(t)|) + EncodeUnknowns(m.unknown)
  {
    hide EncodeField, Fields;
  }

  /** The first `k` fields are no longer than the whole message. */
  lemma {:induction false} EncodePrefix(t: MessageType, m: Msg, k: nat, j: nat)
    requires k <= j <= |Fields(t)| && j <= |m.slots|
    ensures |EncodeSlots(t, m, k)| <= |EncodeSlots(t, m, j)|
    decreases j
  {
    hide EncodeField, Fields;
    if k < j {
      EncodePrefix(t, m, k, j - 1);
    }
  }

  lemma {:induction false} SlotChangesSlots(t: MessageType, m: Msg, i: nat, slot: Slot, k: nat)
    requires i < |m.slots| == |Fields(t)| && k <= |Fields(t)|
    ensures |EncodeSlots(t, WithSlot(m, i, slot), k)|
         == |EncodeSlots(t, m, k)|
          + if i < k then |EncodeField(Fields(t)[i], slot)| - |EncodeField(Fields(t)[i], m.slots[i])| else 0
    decreases k
  {
    hide EncodeField, Fields, EncodeSlots;
    EncodeNone(t, m);
    EncodeNone(t, WithSlot(m, i, slot));
    if k > 0 {
      SlotChangesSlots(t, m, i, slot, k - 1);
      EncodeNext(t, m, k - 1);
      EncodeNext(t, WithSlot(m, i, slot), k - 1);
    }
  }

  /** Changing one field keeps the size of a message, of any type, if and only if the field keeps its own size. */
  lemma SameSizeExactly(t: MessageType, m: Msg, i: nat, slot: Slot)
    requires i < |m.slots| == |Fields(t)|
    ensures |Encode(t, WithSlot(m, i, slot))| == |Encode(t, m)|
       <==> |EncodeField(Fields(t)[i], slot)| == |EncodeField(Fields(t)[i], m.slots[i])|
  {
    hide EncodeField, Fields, EncodeSlots, Encode;
    SlotChangesSlots(t, m, i, slot, |Fields(t)|);
    EncodeNone(t, m);
    EncodeNone(t, WithSlot(m, i, slot));
  }

  lemma {:induction false} VarintGrows(m: nat, n: nat)
    requires m <= n
    ensures 1 <= |Varint(m)| <= |Varint(n)|
  {
    if m >= 128 {
      VarintGrows(m / 128, n / 128);
    }
  }

  /** Setting a string keeps the size of its field if and only if it was present with a string of the same length. */
  lemma SameTextSize(f: FieldSpec, present: bool, was: bytes, value: bytes)
    requires f.kind == Str
    ensures |EncodeField(f, Scalar(Some(Text(value))))| == |EncodeField(f, Optional(present, Text(was)))|
       <==> present && |value| == |was|
  {
    hide Varint;
    VarintGrows(Tag(f), Tag(f));
    if |value| <= |was| {
      VarintGrows(|value|, |was|);
    } else {
      VarintGrows(|was|, |value|);
    }
  }

  /** What one scalar field adds to the size: one byte of tag and its value, when present. */
  function ScalarSize(present: bool, v: Value): nat {
    if !present then 0
    else
      match v
      case Text(text) => 1 + LengthDelimitedSize(|text|)
      case Num(n) => 1 + VarintSize(n)
  }

  lemma ScalarSizeAgrees(f: FieldSpec, present: bool, v: Value)
    requires Tag(f) < 128 && (v.Num? ==> v.num < TWO_64)
    ensures Agrees(ScalarSize(present, v), |EncodeField(f, Optional(present, v))|)
  {
    hide LengthDelimitedSize, VarintSize, Block;
    match v
    case Text(text) => BlockSizeAgrees(|text|, text);
    case Num(n) => VarintSizeIsLength(n);
  }

  lemma BoolSizes()
    ensures VarintSize(0) == 1 && VarintSize(1) == 1
    ensures forall b: bool :: BoolValue(b).Num? && VarintSize(BoolValue(b).num) == 1
  {
    assert Log2Floor(1) == 0;
  }
}
