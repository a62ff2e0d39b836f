/** How the library computes encoded sizes, and when the computed size is the true one. */
module Sizes {
  import opened Wire
  import opened Schema

  /** A computed size can be trusted up to 2 GB: it is exact when the true size fits an `int`,
      and it exceeds an `int` when the true size does. */
  predicate Agrees(computed: nat, actual: nat) {
    if actual <= INT_MAX then computed == actual else computed > INT_MAX
  }

  /** The cast of a size to the `int` that is cached. */
  function ToCachedSize(size: nat): int {
    if size % TWO_32 <= INT_MAX then size % TWO_32 else size % TWO_32 - TWO_32
  }

  lemma AgreesSum(c1: nat, a1: nat, c2: nat, a2: nat)
    requires Agrees(c1, a1) && Agrees(c2, a2)
    ensures Agrees(c1 + c2, a1 + a2)
  {
  }

  /** The size of a block whose content has the given length; the length is cut to 32 bits for its own varint. */
  function LengthDelimitedSize(length: nat): nat {
    length + VarintSize(length % TWO_32)
  }

  lemma BlockSizeAgrees(length: nat, data: bytes)
    requires Agrees(length, |data|)
    ensures Agrees(LengthDelimitedSize(length), |Block(data)|)
  {
    hide VarintSize, Varint;
    if |data| <= INT_MAX {
      VarintSizeIsLength(|data|);
    }
  }

  /** An unknown field whose numbers fit their wire widths. */
  predicate Sized(u: Unknown) {
    && 1 <= u.number < 0x2000_0000
    && match u
       case UVarint(_, v) => v < TWO_64
       case UFixed64(_, data) => |data| == 8
       case ULength(_, _) => true
       case UGroup(_, fields) => forall i :: 0 <= i < |fields| ==> Sized(fields[i])
       case UFixed32(_, data) => |data| == 4
  }

  predicate AllSized(us: seq<Unknown>) {
    forall i :: 0 <= i < |us| ==> Sized(us[i])
  }

  lemma {:induction false} CanonicalSized(u: Unknown, budget: nat)
    requires CanonicalUnknown(u, budget)
    ensures Sized(u)
  {
    if u.UGroup? {
      forall i | 0 <= i < |u.fields| ensures Sized(u.fields[i]) {
        CanonicalSized(u.fields[i], budget - 1);
      }
    }
  }

  function UnknownSize(u: Unknown): nat
    decreases u, 0
  {
    VarintSize(UnknownTag(u)) +
    match u
    case UVarint(_, v) => VarintSize(v)
    case UFixed64(_, _) => 8
    case ULength(_, data) => LengthDelimitedSize(|data|)
    case UGroup(number, fields) => UnknownFieldsSize(fields) + VarintSize(EndGroupTag(number))
    case UFixed32(_, _) => 4
  }

  function UnknownFieldsSize(us: seq<Unknown>): nat
    decreases us, 1
  {
    if us == [] then 0 else UnknownSize(us[0]) + UnknownFieldsSize(us[1..])
  }

  lemma NoUnknownFields(us: seq<Unknown>)
    ensures us == [] ==> UnknownFieldsSize(us) == 0 && EncodeUnknowns(us) == []
  {
  }

  lemma {:induction false} UnknownSizeAgrees(u: Unknown)
    requires Sized(u)
    ensures Agrees(UnknownSize(u), |EncodeUnknown(u)|)
    decreases u, 0
  {
    hide VarintSize, Varint;
    VarintSizeIsLength(UnknownTag(u));
    match u
    case UVarint(_, v) => VarintSizeIsLength(v);
    case UFixed64(_, _) =>
    case ULength(_, data) => BlockSizeAgrees(|data|, data);
    case UGroup(number, fields) =>
      UnknownFieldsSizeAgrees(fields);
      VarintSizeIsLength(EndGroupTag(number));
    case UFixed32(_, _) =>
  }

  lemma {:induction false} UnknownFieldsSizeAgrees(us: seq<Unknown>)
    requires AllSized(us)
    ensures Agrees(UnknownFieldsSize(us), |EncodeUnknowns(us)|)
    decreases us, 1
  {
    hide UnknownSize, EncodeUnknown;
    if us != [] {
      UnknownSizeAgrees(us[0]);
      UnknownFieldsSizeAgrees(us[1..]);
    }
  }
}
