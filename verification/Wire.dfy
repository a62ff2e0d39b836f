/** The option type used for readers that can fail. */
module Options {
  datatype Option<+T> = None | Some(value: T)
}

/** The Protocol Buffers wire format as the bundled C++ library reads and writes it:
    varints, the payload of one record, and the unknown fields a parser keeps. */
module Wire {
  import opened Options

  type byte = b: int | 0 <= b < 256
  type bytes = seq<byte>

  const TWO_32 := 0x1_0000_0000
  const TWO_64 := 0x1_0000_0000_0000_0000
  const INT_MAX := 0x7FFF_FFFF
  const MAX_VARINT_BYTES := 10

  // ----- varints -----

  /** The base-128 varint of `n`, least significant group first. */
  function Varint(n: nat): (s: bytes)
    ensures |s| >= 1
  {
    if n < 128 then [n] else [128 + n % 128] + Varint(n / 128)
  }

  /** Reads a varint of at most `room` bytes at the start of `s`: its unbounded value and its length. */
  function DecodeVarint(s: bytes, room: nat): (r: Option<(nat, nat)>)
    ensures r.Some? ==> 1 <= r.value.1 <= |s| && r.value.1 <= room
    decreases |s|
  {
    if room == 0 || s == [] then None
    else if s[0] < 128 then Some((s[0], 1))
    else
      match DecodeVarint(s[1..], room - 1)
      case None => None
      case Some((v, n)) => Some((s[0] - 128 + 128 * v, n + 1))
  }

  /** 128 to the power `k`. */
  function Power128(k: nat): (p: nat)
    ensures p >= 1
  {
    if k == 0 then 1 else 128 * Power128(k - 1)
  }

  lemma {:induction false} VarintLength(n: nat, k: nat)
    requires k >= 1 && n < Power128(k)
    ensures |Varint(n)| <= k
  {
    if n >= 128 {
      assert k > 1;
      VarintLength(n / 128, k - 1);
    }
  }

  /** A varint is as long as its value needs and no longer. */
  lemma {:induction false} VarintLengthLower(n: nat, k: nat)
    requires n >= Power128(k)
    ensures |Varint(n)| > k
  {
    if k > 0 {
      assert Power128(k) == 128 * Power128(k - 1);
      VarintLengthLower(n / 128, k - 1);
    }
  }

  /** Every 64-bit value fits the ten bytes a reader accepts. */
  lemma Varint64Fits(n: nat)
    requires n < TWO_64
    ensures |Varint(n)| <= MAX_VARINT_BYTES
  {
    assert Power128(2) == 0x4000;
    assert Power128(4) == 0x1000_0000;
    assert Power128(6) == 0x400_0000_0000;
    assert Power128(8) == 0x100_0000_0000_0000;
    assert Power128(10) == 0x40_0000_0000_0000_0000;
    VarintLength(n, 10);
  }

  lemma {:induction false} VarintRoundTrip(n: nat, rest: bytes, room: nat)
    requires |Varint(n)| <= room
    ensures DecodeVarint(Varint(n) + rest, room) == Some((n, |Varint(n)|))
  {
    var s := Varint(n) + rest;
    if n >= 128 {
      VarintRoundTrip(n / 128, rest, room - 1);
      assert s[1..] == Varint(n / 128) + rest;
    }
  }

  lemma Varint64RoundTrip(n: nat, rest: bytes)
    requires n < TWO_64
    ensures DecodeVarint(Varint(n) + rest, MAX_VARINT_BYTES) == Some((n, |Varint(n)|))
    ensures (Varint(n) + rest)[|Varint(n)|..] == rest
  {
    Varint64Fits(n);
    VarintRoundTrip(n, rest, MAX_VARINT_BYTES);
  }

  /** A varint that ends inside `s` reads the same whatever follows. */
  lemma {:induction false} DecodeVarintExtend(s: bytes, t: bytes, room: nat)
    requires DecodeVarint(s, room).Some?
    ensures DecodeVarint(s + t, room) == DecodeVarint(s, room)
  {
    assert (s + t)[0] == s[0];
    if s[0] >= 128 {
      assert (s + t)[1..] == s[1..] + t;
      DecodeVarintExtend(s[1..], t, room - 1);
    }
  }

  /** A tag at the start of `s`: a varint whose low 32 bits are not zero. */
  function TagAt(s: bytes): (r: Option<(nat, nat)>)
    ensures r.Some? ==> 0 < r.value.0 < TWO_32 && 1 <= r.value.1 <= |s|
  {
    match DecodeVarint(s, MAX_VARINT_BYTES)
    case None => None
    case Some((v, n)) => if v % TWO_32 == 0 then None else Some((v % TWO_32, n))
  }

  lemma TagAtExtend(s: bytes, t: bytes)
    requires TagAt(s).Some?
    ensures TagAt(s + t) == TagAt(s)
  {
    DecodeVarintExtend(s, t, MAX_VARINT_BYTES);
  }

  // ----- sizes of varints, as the library computes them -----

  /** Position of the highest set bit. */
  function Log2Floor(n: nat): nat
    requires n >= 1
  {
    if n == 1 then 0 else 1 + Log2Floor(n / 2)
  }

  /** The library's multiply-and-shift formula for the size of a varint. */
  function VarintSize(n: nat): nat {
    (Log2Floor(if n % 2 == 0 then n + 1 else n) * 9 + 73) / 64
  }

  lemma {:induction false} Log2FloorHalves(n: nat)
    requires n >= 128
    ensures Log2Floor(n) == 7 + Log2Floor(n / 128)
  {
    assert n / 2 / 2 / 2 / 2 / 2 / 2 / 2 == n / 128;
    assert Log2Floor(n) == 1 + Log2Floor(n / 2);
    assert Log2Floor(n / 2) == 1 + Log2Floor(n / 4) by { assert n / 2 / 2 == n / 4; }
    assert Log2Floor(n / 4) == 1 + Log2Floor(n / 8) by { assert n / 4 / 2 == n / 8; }
    assert Log2Floor(n / 8) == 1 + Log2Floor(n / 16) by { assert n / 8 / 2 == n / 16; }
    assert Log2Floor(n / 16) == 1 + Log2Floor(n / 32) by { assert n / 16 / 2 == n / 32; }
    assert Log2Floor(n / 32) == 1 + Log2Floor(n / 64) by { assert n / 32 / 2 == n / 64; }
    assert Log2Floor(n / 64) == 1 + Log2Floor(n / 128) by { assert n / 64 / 2 == n / 128; }
  }

  function Power2(k: nat): nat { if k == 0 then 1 else 2 * Power2(k - 1) }

  lemma {:induction false} Log2FloorBound(n: nat, k: nat)
    requires 1 <= n < Power2(k)
    ensures Log2Floor(n) < k
  {
    if n > 1 {
      assert Power2(0) == 1;
      assert Power2(k) == 2 * Power2(k - 1);
      Log2FloorBound(n / 2, k - 1);
    }
  }

  /** Bit length determines varint length: one byte for every seven bits begun. */
  lemma {:induction false} VarintLengthByLog(n: nat)
    requires n >= 1
    ensures |Varint(n)| == Log2Floor(n) / 7 + 1
  {
    if n < 128 {
      assert Power2(7) == 128;
      Log2FloorBound(n, 7);
    } else {
      Log2FloorHalves(n);
      VarintLengthByLog(n / 128);
    }
  }

  /** The multiply-and-shift size is the length of the varint, for every 64-bit value. */
  lemma VarintSizeIsLength(n: nat)
    requires n < TWO_64
    ensures VarintSize(n) == |Varint(n)|
  {
    hide *;
    var odd := if n % 2 == 0 then n + 1 else n;
    RoundedUp(n);
    SixtyFourBits();
    VarintLengthByLog(odd);
    Log2FloorBound(odd, 64);
    DivideBySeven(Log2Floor(odd));
  }

  /** Or-ing in the lowest bit changes neither the size nor the width. */
  lemma RoundedUp(n: nat)
    requires n < TWO_64
    ensures var odd := if n % 2 == 0 then n + 1 else n;
            odd < TWO_64 && |Varint(odd)| == |Varint(n)| && VarintSize(n) == (Log2Floor(odd) * 9 + 73) / 64
  {
    hide Log2Floor;
    if n >= 128 && n % 2 == 0 {
      assert (n + 1) / 128 == n / 128;
    }
  }

  lemma SixtyFourBits()
    ensures Power2(64) == TWO_64
  {
    assert Power2(8) == 256;
    assert Power2(16) == 0x1_0000;
    assert Power2(24) == 0x100_0000;
    assert Power2(32) == TWO_32;
    assert Power2(40) == 0x100_0000_0000;
    assert Power2(48) == 0x1_0000_0000_0000;
    assert Power2(56) == 0x100_0000_0000_0000;
  }

  /** Why the formula works: multiplying by 9/64 replaces dividing by 7 for up to 63 bits. */
  lemma DivideBySeven(k: nat)
    requires k < 64
    ensures (k * 9 + 73) / 64 == k / 7 + 1
  {
    var q, r := k / 7, k % 7;
    assert k == 7 * q + r && r < 7 && q <= 9;
    assert k * 9 + 73 == 64 * (q + 1) + (9 * r + 9 - q);
  }

  // ----- length-delimited blocks -----

  /** A length-delimited block of bytes, as a string or an unrecognised record holds it. */
  function Block(data: bytes): bytes { Varint(|data|) + data }

  /** Reads a block at the start of `s`: its bytes and how many were taken. The length is read as
      32 bits and refused when it does not fit an `int` or runs past the end. */
  function ReadBlock(s: bytes): (r: Option<(bytes, nat)>)
    ensures r.Some? ==> 1 <= r.value.1 <= |s| && |r.value.0| <= INT_MAX
  {
    match DecodeVarint(s, MAX_VARINT_BYTES)
    case None => None
    case Some((v, n)) =>
      var size := v % TWO_32;
      if size <= INT_MAX && n + size <= |s| then Some((s[n..n + size], n + size)) else None
  }

  lemma BlockRoundTrip(data: bytes, rest: bytes)
    requires |data| <= INT_MAX
    ensures ReadBlock(Block(data) + rest) == Some((data, |Block(data)|))
  {
    var n := |Varint(|data|)|;
    assert Block(data) + rest == Varint(|data|) + (data + rest);
    Varint64RoundTrip(|data|, data + rest);
    assert (Block(data) + rest)[n..n + |data|] == data;
  }

  lemma ReadBlockExtend(s: bytes, t: bytes)
    requires ReadBlock(s).Some?
    ensures ReadBlock(s + t) == ReadBlock(s)
  {
    DecodeVarintExtend(s, t, MAX_VARINT_BYTES);
    var (v, n) := DecodeVarint(s, MAX_VARINT_BYTES).value;
    assert (s + t)[n..n + v % TWO_32] == s[n..n + v % TWO_32];
  }

  // ----- unknown fields -----

  /** One entry of an unknown-field set. The value of a fixed-width field is kept as its bytes. */
  datatype Unknown =
    | UVarint(number: nat, value: nat)
    | UFixed64(number: nat, data: bytes)
    | ULength(number: nat, data: bytes)
    | UGroup(number: nat, fields: seq<Unknown>)
    | UFixed32(number: nat, data: bytes)

  function UnknownTag(u: Unknown): nat {
    u.number * 8 + (match u
                    case UVarint(_, _) => 0
                    case UFixed64(_, _) => 1
                    case ULength(_, _) => 2
                    case UGroup(_, _) => 3
                    case UFixed32(_, _) => 5)
  }

  /** The parts of a tag: a field number and a wire type. */
  lemma TagParts(number: nat, wireType: nat)
    requires wireType < 8
    ensures (number * 8 + wireType) / 8 == number && (number * 8 + wireType) % 8 == wireType
  {
  }

  function EndGroupTag(number: nat): nat { number * 8 + 4 }

  /** What follows the tag of an unknown field. */
  function UnknownBody(u: Unknown): bytes
    decreases u, 0
  {
    match u
    case UVarint(_, v) => Varint(v)
    case UFixed64(_, data) => data
    case ULength(_, data) => Block(data)
    case UGroup(number, fields) => EncodeUnknowns(fields) + Varint(EndGroupTag(number))
    case UFixed32(_, data) => data
  }

  function EncodeUnknown(u: Unknown): (s: bytes)
    ensures |s| >= 1
    decreases u, 1
  {
    Varint(UnknownTag(u)) + UnknownBody(u)
  }

  function EncodeUnknowns(us: seq<Unknown>): bytes
    decreases us, 2
  {
    if us == [] then [] else EncodeUnknown(us[0]) + EncodeUnknowns(us[1..])
  }

  lemma {:induction false} EncodeUnknownsAppend(us: seq<Unknown>, vs: seq<Unknown>)
    ensures EncodeUnknowns(us + vs) == EncodeUnknowns(us) + EncodeUnknowns(vs)
  {
    if us == [] {
      assert us + vs == vs;
    } else {
      assert (us + vs)[1..] == us[1..] + vs;
      EncodeUnknownsAppend(us[1..], vs);
    }
  }

  /** An entry a reader with `budget` levels of nesting left can have produced. */
  predicate CanonicalUnknown(u: Unknown, budget: nat) {
    && 1 <= u.number < 0x2000_0000
    && match u
       case UVarint(_, v) => v < TWO_64
       case UFixed64(_, data) => |data| == 8
       case ULength(_, data) => |data| <= INT_MAX
       case UGroup(_, fields) =>
         budget > 0 && forall i :: 0 <= i < |fields| ==> CanonicalUnknown(fields[i], budget - 1)
       case UFixed32(_, data) => |data| == 4
  }

  /** The body of an unrecognised record with the given tag, at the start of `s`:
      the entry it adds and the bytes it takes. `budget` is the recursion budget left for groups. */
  function SkipField(tag: nat, s: bytes, budget: nat): (r: Option<(Unknown, nat)>)
    ensures r.Some? ==> r.value.1 <= |s|
    decreases |s|, 1
  {
    var number := tag / 8;
    if number == 0 then None
    else match tag % 8
      case 0 =>
        (match DecodeVarint(s, MAX_VARINT_BYTES)
         case None => None
         case Some((v, n)) => Some((UVarint(number, v % TWO_64), n)))
      case 1 =>
        if |s| < 8 then None else Some((UFixed64(number, s[..8]), 8))
      case 2 =>
        (match ReadBlock(s)
         case None => None
         case Some((data, n)) => Some((ULength(number, data), n)))
      case 3 =>
        if budget == 0 then None
        else
          (match SkipMessage(s, budget - 1)
           case None => None
           case Some((fields, endTag, n)) =>
             if endTag == EndGroupTag(number) then Some((UGroup(number, fields), n)) else None)
      case 5 =>
        if |s| < 4 then None else Some((UFixed32(number, s[..4]), 4))
      case _ => None
  }

  /** The records of a group up to and including its end tag: entries, the end tag, bytes taken. */
  function SkipMessage(s: bytes, budget: nat): (r: Option<(seq<Unknown>, nat, nat)>)
    ensures r.Some? ==> r.value.2 <= |s|
    decreases |s|, 0
  {
    match TagAt(s)
    case None => None
    case Some((tag, n)) =>
      if tag % 8 == 4 then Some(([], tag, n))
      else
        match SkipField(tag, s[n..], budget)
        case None => None
        case Some((u, k)) =>
          match SkipMessage(s[n + k..], budget)
          case None => None
          case Some((us, endTag, m)) => Some(([u] + us, endTag, n + k + m))
  }

  /** Skipping an encoded unknown field gives it back and takes exactly its bytes. */
  lemma {:induction false} SkipFieldRoundTrip(u: Unknown, rest: bytes, budget: nat)
    requires CanonicalUnknown(u, budget)
    ensures SkipField(UnknownTag(u), UnknownBody(u) + rest, budget) == Some((u, |UnknownBody(u)|))
    decreases u, 0
  {
    hide SkipMessage, DecodeVarint, Varint, EncodeUnknowns, ReadBlock, Block;
    var s := UnknownBody(u) + rest;
    match u
    case UVarint(number, v) =>
      TagParts(number, 0);
      Varint64RoundTrip(v, rest);
    case UFixed64(number, data) =>
      TagParts(number, 1);
      assert s[..8] == data;
    case ULength(number, data) =>
      TagParts(number, 2);
      BlockRoundTrip(data, rest);
    case UGroup(number, fields) =>
      TagParts(number, 3);
      SkipMessageRoundTrip(fields, number, rest, budget - 1);
    case UFixed32(number, data) =>
      TagParts(number, 5);
      assert s[..4] == data;
  }

  lemma Regroup(a: bytes, b: bytes, c: bytes, d: bytes, e: bytes)
    ensures a + b + c + d + e == a + (b + (c + d + e))
    ensures (a + b + c + d + e)[|a|..] == b + (c + d + e)
    ensures (a + b + c + d + e)[|a| + |b|..] == c + d + e
  {
  }

  lemma {:induction false} SkipMessageRoundTrip(us: seq<Unknown>, number: nat, rest: bytes, budget: nat)
    requires 1 <= number < 0x2000_0000
    requires forall i :: 0 <= i < |us| ==> CanonicalUnknown(us[i], budget)
    ensures SkipMessage(EncodeUnknowns(us) + Varint(EndGroupTag(number)) + rest, budget)
         == Some((us, EndGroupTag(number), |EncodeUnknowns(us) + Varint(EndGroupTag(number))|))
    decreases us, 1
  {
    hide SkipField, SkipMessage, TagAt, Varint, UnknownTag, UnknownBody, CanonicalUnknown;
    var end := Varint(EndGroupTag(number));
    if us == [] {
      assert EncodeUnknowns(us) + end == end;
      SkipMessageEnd(number, rest, budget);
    } else {
      var head, body, others := Varint(UnknownTag(us[0])), UnknownBody(us[0]), EncodeUnknowns(us[1..]);
      var tail := others + end + rest;
      Regroup(head, body, others, end, rest);
      UnknownTagBound(us[0], budget);
      SkipFieldRoundTrip(us[0], tail, budget);
      SkipMessageRoundTrip(us[1..], number, rest, budget);
      ReadTagOf(UnknownTag(us[0]), body, tail);
      SkipMessageStep(head + (body + tail), UnknownTag(us[0]), |head|, us[0], |body|, budget);
      assert [us[0]] + us[1..] == us;
    }
  }

  lemma SkipMessageEnd(number: nat, rest: bytes, budget: nat)
    requires 1 <= number < 0x2000_0000
    ensures SkipMessage(Varint(EndGroupTag(number)) + rest, budget)
         == Some(([], EndGroupTag(number), |Varint(EndGroupTag(number))|))
  {
    hide SkipField, DecodeVarint, Varint;
    TagParts(number, 4);
    Varint64RoundTrip(EndGroupTag(number), rest);
  }

  /** A record read by its tag and body, in front of anything. */
  lemma ReadTagOf(tag: nat, body: bytes, tail: bytes)
    requires 1 <= tag < TWO_32
    ensures TagAt(Varint(tag) + (body + tail)) == Some((tag, |Varint(tag)|))
    ensures (Varint(tag) + (body + tail))[|Varint(tag)|..] == body + tail
    ensures (Varint(tag) + (body + tail))[|Varint(tag)| + |body|..] == tail
  {
    Varint64RoundTrip(tag, body + tail);
  }

  /** One more record in front of the rest of a group. */
  lemma SkipMessageStep(s: bytes, tag: nat, n: nat, u: Unknown, k: nat, budget: nat)
    requires tag % 8 != 4 && TagAt(s) == Some((tag, n))
    requires SkipField(tag, s[n..], budget) == Some((u, k))
    requires SkipMessage(s[n + k..], budget).Some?
    ensures SkipMessage(s, budget)
         == (var (us, endTag, m) := SkipMessage(s[n + k..], budget).value;
             Some(([u] + us, endTag, n + k + m)))
  {
    hide SkipField, TagAt;
  }

  lemma UnknownTagBound(u: Unknown, budget: nat)
    requires CanonicalUnknown(u, budget)
    ensures 8 <= UnknownTag(u) < TWO_32 && UnknownTag(u) % 8 != 4
  {
  }

  /** A record that ends inside `s` is skipped the same way whatever follows. */
  lemma {:induction false} SkipFieldExtend(tag: nat, s: bytes, t: bytes, budget: nat)
    requires SkipField(tag, s, budget).Some?
    ensures SkipField(tag, s + t, budget) == SkipField(tag, s, budget)
    decreases |s|, 1
  {
    match tag % 8
    case 0 => DecodeVarintExtend(s, t, MAX_VARINT_BYTES);
    case 1 => assert (s + t)[..8] == s[..8];
    case 2 => ReadBlockExtend(s, t);
    case 3 => SkipMessageExtend(s, t, budget - 1);
    case 5 => assert (s + t)[..4] == s[..4];
    case _ =>
  }

  lemma {:induction false} SkipMessageExtend(s: bytes, t: bytes, budget: nat)
    requires SkipMessage(s, budget).Some?
    ensures SkipMessage(s + t, budget) == SkipMessage(s, budget)
    decreases |s|, 0
  {
    hide SkipField, TagAt;
    TagAtExtend(s, t);
    var (tag, n) := TagAt(s).value;
    if tag % 8 != 4 {
      assert (s + t)[n..] == s[n..] + t;
      SkipFieldExtend(tag, s[n..], t, budget);
      var k := SkipField(tag, s[n..], budget).value.1;
      assert (s + t)[n + k..] == s[n + k..] + t;
      SkipMessageExtend(s[n + k..], t, budget);
    }
  }

  /** Whatever skipping produces is canonical and carries the number of its tag. */
  lemma {:induction false} SkipFieldCanonical(tag: nat, s: bytes, budget: nat)
    requires tag < TWO_32 && SkipField(tag, s, budget).Some?
    ensures CanonicalUnknown(SkipField(tag, s, budget).value.0, budget)
    ensures UnknownTag(SkipField(tag, s, budget).value.0) == tag
    decreases |s|, 1
  {
    if tag % 8 == 3 {
      SkipMessageCanonical(s, budget - 1);
    }
  }

  lemma {:induction false} SkipMessageCanonical(s: bytes, budget: nat)
    requires SkipMessage(s, budget).Some?
    ensures forall u :: u in SkipMessage(s, budget).value.0 ==> CanonicalUnknown(u, budget)
    decreases |s|, 0
  {
    hide SkipField, TagAt, CanonicalUnknown;
    var (tag, n) := TagAt(s).value;
    if tag % 8 != 4 {
      SkipFieldCanonical(tag, s[n..], budget);
      var k := SkipField(tag, s[n..], budget).value.1;
      SkipMessageCanonical(s[n + k..], budget);
    }
  }
}
