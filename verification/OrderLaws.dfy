/** The parse result does not depend on how the records of different fields are interleaved. */
module OrderLaws {
  import opened Options
  import opened Wire
  import opened Schema
  import opened MergeLaws

  /** `c` is the bytes of exactly one record that parses. */
  predicate WholeRecord(t: MessageType, c: bytes, budget: nat) {
    c != [] && !CutRecord(t, c) && ReadPiece(t, c, budget).Some? && ReadPiece(t, c, budget).value.1 == |c|
  }

  function PieceOf(t: MessageType, c: bytes, budget: nat): Piece
    requires WholeRecord(t, c, budget)
  {
    ReadPiece(t, c, budget).value.0
  }

  /** Where a record ends up: the slot of a known field, or -1 for the unknown fields. */
  function Target(t: MessageType, c: bytes, budget: nat): int
    requires WholeRecord(t, c, budget)
  {
    var p := PieceOf(t, c, budget);
    if p.AddUnknown? then -1 else p.slot
  }

  function Concat(cs: seq<bytes>): bytes {
    if cs == [] then [] else cs[0] + Concat(cs[1..])
  }

  /** The records with one target, in their order. */
  function RecordsFor(t: MessageType, cs: seq<bytes>, target: int, budget: nat): seq<bytes>
    requires forall i :: 0 <= i < |cs| ==> WholeRecord(t, cs[i], budget)
  {
    if cs == [] then []
    else (if Target(t, cs[0], budget) == target then [cs[0]] else []) + RecordsFor(t, cs[1..], target, budget)
  }

  /** One slot after the records meant for it. */
  ghost function SlotAfter(t: MessageType, slot: Slot, cs: seq<bytes>, budget: nat): Slot
    decreases |cs|
  {
    if cs == [] || !WholeRecord(t, cs[0], budget) then slot
    else SlotAfter(t, ApplySlot(slot, PieceOf(t, cs[0], budget)), cs[1..], budget)
  }

  /** The unknown fields after the records that end up there. */
  ghost function UnknownAfter(t: MessageType, us: seq<Unknown>, cs: seq<bytes>, budget: nat): seq<Unknown>
    decreases |cs|
  {
    if cs == [] || !WholeRecord(t, cs[0], budget) || !PieceOf(t, cs[0], budget).AddUnknown? then us
    else UnknownAfter(t, us + [PieceOf(t, cs[0], budget).entry], cs[1..], budget)
  }

  /** The message each of whose parts depends only on the records with that target. */
  ghost function ByTarget(t: MessageType, m: Msg, cs: seq<bytes>, budget: nat): Msg
    requires forall i :: 0 <= i < |cs| ==> WholeRecord(t, cs[i], budget)
  {
    Msg(seq(|m.slots|, i requires 0 <= i < |m.slots| =>
              SlotAfter(t, m.slots[i], RecordsFor(t, cs, i, budget), budget)),
        UnknownAfter(t, m.unknown, RecordsFor(t, cs, -1, budget), budget))
  }

  lemma ByTargetStep(t: MessageType, m: Msg, cs: seq<bytes>, budget: nat)
    requires cs != [] && forall i :: 0 <= i < |cs| ==> WholeRecord(t, cs[i], budget)
    ensures ByTarget(t, m, cs, budget) == ByTarget(t, Apply(m, PieceOf(t, cs[0], budget)), cs[1..], budget)
  {
    hide WholeRecord, PieceOf, ApplySlot;
    var p := PieceOf(t, cs[0], budget);
    var next := Apply(m, p);
    forall i | 0 <= i < |m.slots|
      ensures SlotAfter(t, m.slots[i], RecordsFor(t, cs, i, budget), budget)
           == SlotAfter(t, next.slots[i], RecordsFor(t, cs[1..], i, budget), budget)
    {
      TargetStep(t, cs, i, budget);
    }
    TargetStep(t, cs, -1, budget);
    assert ByTarget(t, m, cs, budget).slots == ByTarget(t, next, cs[1..], budget).slots;
  }

  lemma TargetStep(t: MessageType, cs: seq<bytes>, target: int, budget: nat)
    requires cs != [] && forall i :: 0 <= i < |cs| ==> WholeRecord(t, cs[i], budget)
    ensures var here := RecordsFor(t, cs, target, budget);
            var later := RecordsFor(t, cs[1..], target, budget);
            if Target(t, cs[0], budget) == target then here != [] && here[0] == cs[0] && here[1..] == later
            else here == later
  {
    hide WholeRecord, Target;
  }

  /** The parse of a list of records and whatever follows them, target by target. */
  lemma {:induction false} ParseByTarget(t: MessageType, m: Msg, cs: seq<bytes>, z: bytes, budget: nat)
    requires forall i :: 0 <= i < |cs| ==> WholeRecord(t, cs[i], budget)
    ensures Parse(t, m, Concat(cs) + z, budget) == Parse(t, ByTarget(t, m, cs, budget), z, budget)
    ensures z == [] ==> Parse(t, m, Concat(cs), budget) == Some(ByTarget(t, m, cs, budget))
    decreases |cs|
  {
    hide ReadPiece, Apply, CutRecord, ByTarget;
    assert Concat(cs) + [] == Concat(cs);
    if cs == [] {
      assert ByTarget(t, m, [], budget) == m by { ByTargetNone(t, m, budget); }
      assert Concat(cs) + z == z;
    } else {
      var c, rest := cs[0], Concat(cs[1..]) + z;
      ReadPieceExtend(t, c, rest, budget);
      ParseStep(t, m, c + rest, budget);
      assert (c + rest)[|c|..] == rest;
      assert Concat(cs) + z == c + rest;
      ByTargetStep(t, m, cs, budget);
      ParseByTarget(t, Apply(m, PieceOf(t, c, budget)), cs[1..], z, budget);
    }
  }

  lemma ByTargetNone(t: MessageType, m: Msg, budget: nat)
    ensures ByTarget(t, m, [], budget) == m
  {
    assert ByTarget(t, m, [], budget).slots == m.slots;
  }

  /** Field-order independence: two lists of records that agree, for each field and for the unknown fields, on the
      records that go there and their order, parse alike onto every message, whatever bytes follow them both. */
  lemma FieldOrderIndependence(t: MessageType, m: Msg, cs: seq<bytes>, ds: seq<bytes>, z: bytes, budget: nat)
    requires forall i :: 0 <= i < |cs| ==> WholeRecord(t, cs[i], budget)
    requires forall i :: 0 <= i < |ds| ==> WholeRecord(t, ds[i], budget)
    requires forall target: int :: RecordsFor(t, cs, target, budget) == RecordsFor(t, ds, target, budget)
    ensures Parse(t, m, Concat(cs) + z, budget) == Parse(t, m, Concat(ds) + z, budget)
  {
    hide Parse, WholeRecord;
    ParseByTarget(t, m, cs, z, budget);
    ParseByTarget(t, m, ds, z, budget);
    assert ByTarget(t, m, cs, budget).slots == ByTarget(t, m, ds, budget).slots;
  }
}
