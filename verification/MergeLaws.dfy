/** Parsing onto a message is merging: what one parse leaves behind never changes what the next one adds,
    and byte strings may be concatenated exactly when the first does not end in a cut submessage. */
module MergeLaws {
  import opened Options
  import opened Wire
  import opened Schema

  // ----- one record -----

  lemma ParseStep(t: MessageType, m: Msg, s: bytes, budget: nat)
    requires s != []
    ensures ReadPiece(t, s, budget).None? ==> Parse(t, m, s, budget).None?
    ensures ReadPiece(t, s, budget).Some? ==>
              var (p, n) := ReadPiece(t, s, budget).value;
              Parse(t, m, s, budget) == Parse(t, Apply(m, p), s[n..], budget)
  {
    hide ReadPiece, Apply;
  }

  lemma ApplyShape(t: MessageType, m: Msg, p: Piece)
    requires Shape(t, m)
    ensures Shape(t, Apply(m, p))
  {
  }

  lemma EmptyShape(t: MessageType)
    ensures Shape(t, Empty(t))
  {
  }

  lemma MergeEmpty(t: MessageType, a: Msg)
    requires Shape(t, a)
    ensures Merge(a, Empty(t)) == a
  {
    forall i | 0 <= i < |a.slots| ensures MergeSlot(a.slots[i], EmptySlot(Fields(t)[i].kind)) == a.slots[i] {
      assert SlotShape(Fields(t)[i].kind, a.slots[i]);
      match a.slots[i]
      case Scalar(_) =>
      case Strs(x) => assert x + [] == x;
      case Msgs(x) => assert x + [] == x;
    }
    assert MergeSlots(a, Empty(t), |Fields(t)|) == a.slots;
    assert a.unknown + [] == a.unknown;
  }

  lemma EmptyMerge(t: MessageType, a: Msg)
    requires Shape(t, a)
    ensures Merge(Empty(t), a) == a
  {
    forall i | 0 <= i < |a.slots| ensures MergeSlot(EmptySlot(Fields(t)[i].kind), a.slots[i]) == a.slots[i] {
      assert SlotShape(Fields(t)[i].kind, a.slots[i]);
      match a.slots[i]
      case Scalar(_) =>
      case Strs(x) => assert [] + x == x;
      case Msgs(x) => assert [] + x == x;
    }
    assert MergeSlots(Empty(t), a, |a.slots|) == a.slots;
    assert [] + a.unknown == a.unknown;
  }

  lemma MergeApplySlot(k: Kind, a: Slot, b: Slot, p: Piece)
    requires SlotShape(k, a) && SlotShape(k, b)
    ensures MergeSlot(a, ApplySlot(b, p)) == ApplySlot(MergeSlot(a, b), p)
  {
    match (a, b, p)
    case (Strs(x), Strs(y), AddString(_, s)) => assert x + (y + [s]) == x + y + [s];
    case (Msgs(x), Msgs(y), AddMessage(_, m)) => assert x + (y + [m]) == x + y + [m];
    case _ =>
  }

  /** A record acts on the later of two merged messages. */
  lemma MergeApply(t: MessageType, a: Msg, b: Msg, p: Piece)
    requires Shape(t, a) && Shape(t, b)
    ensures Merge(a, Apply(b, p)) == Apply(Merge(a, b), p)
  {
    if p.AddUnknown? {
      assert a.unknown + (b.unknown + [p.entry]) == a.unknown + b.unknown + [p.entry];
    } else if p.slot < |b.slots| {
      MergeApplySlot(Fields(t)[p.slot].kind, a.slots[p.slot], b.slots[p.slot], p);
      assert Merge(a, Apply(b, p)).slots == Apply(Merge(a, b), p).slots;
    }
  }

  // ----- whole byte strings -----

  function MergeInto(a: Msg, parsed: Option<Msg>): Option<Msg> {
    match parsed case None => None case Some(m) => Some(Merge(a, m))
  }

  lemma {:induction false} ParseAfter(t: MessageType, a: Msg, b: Msg, s: bytes, budget: nat)
    requires Shape(t, a) && Shape(t, b)
    ensures Parse(t, Merge(a, b), s, budget) == MergeInto(a, Parse(t, b, s, budget))
    decreases |s|
  {
    if s != [] {
      ParseStep(t, Merge(a, b), s, budget);
      ParseStep(t, b, s, budget);
      match ReadPiece(t, s, budget)
      case None =>
      case Some((p, n)) =>
        MergeApply(t, a, b, p);
        ApplyShape(t, b, p);
        ParseAfter(t, a, Apply(b, p), s[n..], budget);
    }
  }

  /** Parsing `s` onto a message is merging in what `s` parses to on its own: same success, same result. */
  lemma ParseIsMerge(t: MessageType, a: Msg, s: bytes, budget: nat)
    requires Shape(t, a)
    ensures Parse(t, a, s, budget) == MergeInto(a, Parse(t, Empty(t), s, budget))
  {
    EmptyShape(t);
    MergeEmpty(t, a);
    ParseAfter(t, a, Empty(t), s, budget);
  }

  /** A parse keeps every field of its kind. */
  lemma {:induction false} ParseShape(t: MessageType, m: Msg, s: bytes, budget: nat)
    requires Shape(t, m) && Parse(t, m, s, budget).Some?
    ensures Shape(t, Parse(t, m, s, budget).value)
    decreases |s|
  {
    if s != [] {
      ParseStep(t, m, s, budget);
      var (p, n) := ReadPiece(t, s, budget).value;
      ApplyShape(t, m, p);
      ParseShape(t, Apply(m, p), s[n..], budget);
    }
  }

  // ----- concatenation -----

  /** The record at the start of `s` is a submessage that declares more bytes than are there. */
  predicate CutRecord(t: MessageType, s: bytes) {
    match TagAt(s)
    case None => false
    case Some((tag, n)) =>
      match SlotOf(t, tag)
      case None => false
      case Some(slot) =>
        && Fields(t)[slot].kind.Messages?
        && match DecodeVarint(s[n..], MAX_VARINT_BYTES)
           case None => false
           case Some((size, k)) => size % TWO_64 <= INT_MAX && n + k + size % TWO_64 > |s|
  }

  /** No record at the outermost level of `s` is cut. */
  predicate Tight(t: MessageType, s: bytes, budget: nat)
    decreases |s|
  {
    if s == [] then true
    else
      match ReadPiece(t, s, budget)
      case None => true
      case Some((_, n)) => !CutRecord(t, s) && Tight(t, s[n..], budget)
  }

  lemma ReadExtentExtend(s: bytes, x: bytes)
    requires ReadExtent(s).Some?
    requires var (size, k) := DecodeVarint(s, MAX_VARINT_BYTES).value; k + size % TWO_64 <= |s|
    ensures ReadExtent(s + x) == ReadExtent(s)
  {
    hide DecodeVarint;
    DecodeVarintExtend(s, x, MAX_VARINT_BYTES);
  }

  lemma ReadKnownExtend(t: MessageType, slot: nat, s: bytes, x: bytes, budget: nat)
    requires slot < |Fields(t)| && ReadKnown(t, slot, s, budget).Some?
    requires Fields(t)[slot].kind.Messages? ==>
               var (size, k) := DecodeVarint(s, MAX_VARINT_BYTES).value; k + size % TWO_64 <= |s|
    ensures ReadKnown(t, slot, s + x, budget) == ReadKnown(t, slot, s, budget)
  {
    hide Parse, Fields, ScalarPiece;
    match Fields(t)[slot].kind
    case Str => ReadBlockExtend(s, x);
    case Strings => ReadBlockExtend(s, x);
    case Messages(_) =>
      ReadExtentExtend(s, x);
      var (from, to) := ReadExtent(s).value;
      assert (s + x)[from..to] == s[from..to];
    case _ => DecodeVarintExtend(s, x, MAX_VARINT_BYTES);
  }

  /** A record that is not cut reads the same whatever follows. */
  lemma ReadPieceExtend(t: MessageType, s: bytes, x: bytes, budget: nat)
    requires ReadPiece(t, s, budget).Some? && !CutRecord(t, s)
    ensures ReadPiece(t, s + x, budget) == ReadPiece(t, s, budget)
  {
    hide ReadKnown, SkipField, Fields, TagAt;
    TagAtExtend(s, x);
    var (tag, n) := TagAt(s).value;
    assert (s + x)[n..] == s[n..] + x;
    match SlotOf(t, tag)
    case None => SkipFieldExtend(tag, s[n..], x, budget);
    case Some(slot) =>
      NotCut(t, slot, s, budget);
      ReadKnownExtend(t, slot, s[n..], x, budget);
  }

  lemma NotCut(t: MessageType, slot: nat, s: bytes, budget: nat)
    requires TagAt(s).Some? && !CutRecord(t, s)
    requires var (tag, n) := TagAt(s).value;
             SlotOf(t, tag) == Some(slot) && ReadKnown(t, slot, s[n..], budget).Some?
    ensures Fields(t)[slot].kind.Messages? ==>
              var (_, n) := TagAt(s).value;
              var (size, k) := DecodeVarint(s[n..], MAX_VARINT_BYTES).value;
              k + size % TWO_64 <= |s[n..]|
  {
    hide Parse, SkipField, DecodeVarint, TagAt;
  }

  /** Bytes may be appended to a tight string: the parse simply continues. */
  lemma {:induction false} ParseConcat(t: MessageType, m: Msg, x: bytes, y: bytes, budget: nat)
    requires Tight(t, x, budget) && Parse(t, m, x, budget).Some?
    ensures Parse(t, m, x + y, budget) == Parse(t, Parse(t, m, x, budget).value, y, budget)
    decreases |x|
  {
    hide ReadPiece, Apply, CutRecord;
    if x == [] {
      assert x + y == y;
    } else {
      ParseStep(t, m, x, budget);
      ParseStep(t, m, x + y, budget);
      var (p, n) := ReadPiece(t, x, budget).value;
      ReadPieceExtend(t, x, y, budget);
      assert (x + y)[n..] == x[n..] + y;
      ParseConcat(t, Apply(m, p), x[n..], y, budget);
    }
  }

  /** A record no message type knows: field 15, varint 0. */
  const PROBE: bytes := [0x78, 0x00]

  lemma ProbeParse(t: MessageType, m: Msg, budget: nat)
    ensures Parse(t, m, PROBE, budget) == Some(m.(unknown := m.unknown + [UVarint(15, 0)]))
    ensures Parse(t, m, PROBE[1..], budget).None?
  {
    assert PROBE[1..] == [0x00];
    assert TagAt(PROBE) == Some((0x78, 1));
    assert DecodeVarint(PROBE[1..], MAX_VARINT_BYTES) == Some((0, 1));
    assert SkipField(0x78, PROBE[1..], budget) == Some((UVarint(15, 0), 1));
    assert ReadPiece(t, PROBE, budget) == Some((AddUnknown(UVarint(15, 0)), 2));
    assert PROBE[2..] == [];
    ParseStep(t, m, PROBE, budget);
    ParseStep(t, m, PROBE[1..], budget);
  }

  /** A cut record takes in bytes that follow it. */
  lemma CutRecordSwallows(t: MessageType, s: bytes, x: bytes, budget: nat)
    requires ReadPiece(t, s, budget).Some? && CutRecord(t, s) && x != []
    ensures ReadPiece(t, s, budget).value.0.AddMessage? && ReadPiece(t, s, budget).value.1 == |s|
    ensures ReadPiece(t, s + x, budget).Some? ==>
              ReadPiece(t, s + x, budget).value.0.AddMessage? && ReadPiece(t, s + x, budget).value.1 > |s|
  {
    hide Parse, SkipField, Fields, TagAt;
    TagAtExtend(s, x);
    var (tag, n) := TagAt(s).value;
    assert (s + x)[n..] == s[n..] + x;
    DecodeVarintExtend(s[n..], x, MAX_VARINT_BYTES);
  }

  /** After a parse that ends in a cut record, the probe disappears into the submessage or breaks the parse. */
  lemma {:induction false} CutSwallowsProbe(t: MessageType, m: Msg, x: bytes, budget: nat)
    requires !Tight(t, x, budget) && Parse(t, m, x, budget).Some?
    ensures Parse(t, m, x + PROBE, budget).Some? ==>
              |Parse(t, m, x + PROBE, budget).value.unknown| == |Parse(t, m, x, budget).value.unknown|
    decreases |x|
  {
    hide ReadPiece, CutRecord, DecodeVarint;
    ParseStep(t, m, x, budget);
    ParseStep(t, m, x + PROBE, budget);
    var (p, n) := ReadPiece(t, x, budget).value;
    if CutRecord(t, x) {
      CutRecordSwallows(t, x, PROBE, budget);
      if ReadPiece(t, x + PROBE, budget).Some? {
        var (q, k) := ReadPiece(t, x + PROBE, budget).value;
        assert (x + PROBE)[k..] == PROBE[k - |x|..];
        ProbeParse(t, Apply(m, q), budget);
      }
    } else {
      ReadPieceExtend(t, x, PROBE, budget);
      assert (x + PROBE)[n..] == x[n..] + PROBE;
      CutSwallowsProbe(t, Apply(m, p), x[n..], budget);
    }
  }

  /** Concatenation is merge: what `x + y` parses to is what the two parse to separately, merged. */
  ghost predicate ConcatenationIsMerge(t: MessageType, x: bytes, y: bytes, budget: nat) {
    Parse(t, Empty(t), x + y, budget)
    == match Parse(t, Empty(t), x, budget)
       case None => None
       case Some(a) => MergeInto(a, Parse(t, Empty(t), y, budget))
  }

  /** For an accepted `x`, concatenation is merge with every `y` if and only if `x` is tight. */
  lemma ConcatenationIsMergeExactly(t: MessageType, x: bytes, budget: nat)
    requires Parse(t, Empty(t), x, budget).Some?
    ensures Tight(t, x, budget) <==> forall y: bytes :: ConcatenationIsMerge(t, x, y, budget)
  {
    hide Tight, Parse;
    var a := Parse(t, Empty(t), x, budget).value;
    EmptyShape(t);
    ParseShape(t, Empty(t), x, budget);
    if Tight(t, x, budget) {
      forall y: bytes ensures ConcatenationIsMerge(t, x, y, budget) {
        ParseConcat(t, Empty(t), x, y, budget);
        ParseIsMerge(t, a, y, budget);
      }
    } else {
      CutSwallowsProbe(t, Empty(t), x, budget);
      ProbeParse(t, Empty(t), budget);
      assert !ConcatenationIsMerge(t, x, PROBE, budget);
    }
  }

  /** A cut submessage is accepted: a table field whose length says 5 where no byte follows parses as an
      empty field, and the same bytes in front of another record swallow that record. */
  lemma CutExample(budget: nat)
    requires budget > 0
    ensures var x: bytes := [18, 5];
            && Parse(TableMsg, Empty(TableMsg), x, budget).Some?
            && !Tight(TableMsg, x, budget)
            && !ConcatenationIsMerge(TableMsg, x, PROBE, budget)
  {
    var x: bytes := [18, 5];
    assert TagAt(x) == Some((18, 1));
    assert x[1..] == [5];
    assert DecodeVarint(x[1..], MAX_VARINT_BYTES) == Some((5, 1));
    assert ReadExtent(x[1..]) == Some((1, 1));
    assert x[1..][1..1] == [];
    assert ReadKnown(TableMsg, 1, x[1..], budget) == Some((AddMessage(1, Empty(FieldMsg)), 1));
    assert ReadPiece(TableMsg, x, budget) == Some((AddMessage(1, Empty(FieldMsg)), 2));
    assert x[2..] == [];
    CutSwallowsProbe(TableMsg, Empty(TableMsg), x, budget);
    ProbeParse(TableMsg, Empty(TableMsg), budget);
  }
}
