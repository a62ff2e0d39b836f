/** The coded output stream, and the writers that fill a caller's buffer directly. */
module Writers {
  import opened Options
  import opened Wire
  import opened Schema
  import opened Sizes
  import opened Effects

  // ----- the stream -----

  /** Appends to an output whose free buffer space after `n` bytes is `spare(n)`. */
  class CodedOutputStream {
    const spare: nat -> nat
    var written: bytes

    constructor (spare: nat -> nat)
      ensures written == [] && this.spare == spare
    {
      this.spare := spare;
      written := [];
    }

    method WriteVarint(value: nat)
      modifies this
      ensures written == old(written) + Varint(value)
    {
      var rest := value;
      ghost var start := written;
      assert start + [] == start;
      while rest >= 128
        invariant written + Varint(rest) == start + Varint(value)
      {
        assert written + Varint(rest) == written + [128 + rest % 128] + Varint(rest / 128);
        written := written + [128 + rest % 128];
        rest := rest / 128;
      }
      written := written + [rest];
    }

    method WriteRaw(data: bytes)
      modifies this
      ensures written == old(written) + data
    {
      written := written + data;
    }

    /** True when the current buffer has room for `size` more bytes, which are then written in place. */
    method HasDirectBuffer(size: int) returns (direct: bool)
      ensures direct <==> size <= spare(|written|)
    {
      direct := size <= spare(|written|);
    }

    /** A scalar field, when present: its tag and its value. */
    method WriteOptional(f: FieldSpec, present: bool, v: Value)
      modifies this
      ensures written == old(written) + EncodeField(f, Optional(present, v))
    {
      hide Varint, Tag, Block;
      if present {
        WriteVarint(Tag(f));
        match v {
          case Text(text) => WriteBlock(text);
          case Num(n) => WriteVarint(n);
        }
      }
    }

    method WriteBlock(data: bytes)
      modifies this
      ensures written == old(written) + Block(data)
    {
      hide Varint;
      WriteVarint(|data|);
      WriteRaw(data);
    }

    method WriteStrings(tag: nat, ss: seq<bytes>)
      modifies this
      ensures written == old(written) + EncodeStrings(tag, ss)
    {
      hide Varint, Block;
      ghost var start := written;
      for i := 0 to |ss|
        invariant written == start + EncodeStrings(tag, ss[..i])
      {
        WriteVarint(tag);
        WriteBlock(ss[i]);
        assert ss[..i + 1][..i] == ss[..i];
      }
      assert ss[..|ss|] == ss;
    }

    /** What follows the tag of an unknown field. */
    method WriteUnknownBody(u: Unknown)
      modifies this
      ensures written == old(written) + UnknownBody(u)
      decreases u, 0
    {
      hide Varint, Block;
      match u {
        case UVarint(_, value) => WriteVarint(value);
        case UFixed64(_, data) => WriteRaw(data);
        case ULength(_, data) => WriteBlock(data);
        case UGroup(number, fields) =>
          WriteUnknownFields(fields);
          WriteVarint(EndGroupTag(number));
        case UFixed32(_, data) => WriteRaw(data);
      }
    }

    /** The unknown fields, groups included. */
    method WriteUnknownFields(us: seq<Unknown>)
      modifies this
      ensures written == old(written) + EncodeUnknowns(us)
      decreases us, 1
    {
      hide Varint, UnknownBody, UnknownTag;
      ghost var start := written;
      for i := 0 to |us|
        invariant written == start + EncodeUnknowns(us[..i])
      {
        ghost var before := written;
        WriteVarint(UnknownTag(us[i]));
        WriteUnknownBody(us[i]);
        EncodeUnknownsNext(us, i);
        assert written == before + EncodeUnknown(us[i]);
      }
      assert us[..|us|] == us;
    }
  }

  lemma EncodeUnknownsNext(us: seq<Unknown>, i: nat)
    requires i < |us|
    ensures EncodeUnknowns(us[..i + 1]) == EncodeUnknowns(us[..i]) + EncodeUnknown(us[i])
  {
    hide EncodeUnknown;
    assert us[..i + 1] == us[..i] + [us[i]];
    EncodeUnknownsAppend(us[..i], [us[i]]);
    assert EncodeUnknowns([us[i]]) == EncodeUnknown(us[i]) + EncodeUnknowns([]);
  }

  // ----- writing into an array -----

  /** `after` is `before` with `s` at position `pos`. */
  predicate Wrote(before: bytes, after: bytes, pos: nat, s: bytes) {
    && |after| == |before| && pos + |s| <= |before|
    && after == before[..pos] + s + before[pos + |s|..]
  }

  lemma WroteNothing(before: bytes, pos: nat)
    requires pos <= |before|
    ensures Wrote(before, before, pos, [])
  {
  }

  lemma WroteThen(a: bytes, b: bytes, c: bytes, pos: nat, s: bytes, t: bytes)
    requires Wrote(a, b, pos, s) && Wrote(b, c, pos + |s|, t)
    ensures Wrote(a, c, pos, s + t)
  {
  }

  method WriteRawToArray(target: array<byte>, pos: nat, data: bytes) returns (end: nat)
    requires pos + |data| <= target.Length
    modifies target
    ensures end == pos + |data| && Wrote(old(target[..]), target[..], pos, data)
  {
    for i := 0 to |data|
      invariant forall k :: 0 <= k < target.Length ==>
                  target[k] == if pos <= k < pos + i then data[k - pos] else old(target[k])
    {
      target[pos + i] := data[i];
    }
    end := pos + |data|;
  }

  lemma VarintStep(n: nat)
    ensures n < 128 ==> Varint(n) == [n]
    ensures n >= 128 ==> Varint(n) == [128 + n % 128] + Varint(n / 128)
  {
  }

  /** One more byte of a varint. */
  lemma VarintMore(done: bytes, rest: nat)
    ensures rest < 128 ==> done + Varint(rest) == done + [rest]
    ensures rest >= 128 ==> done + Varint(rest) == done + [128 + rest % 128] + Varint(rest / 128)
  {
    VarintStep(rest);
    hide Varint;
  }

  method WriteByteToArray(target: array<byte>, pos: nat, value: byte) returns (end: nat)
    requires pos < target.Length
    modifies target
    ensures end == pos + 1 && Wrote(old(target[..]), target[..], pos, [value])
  {
    target[pos] := value;
    end := pos + 1;
  }

  method WriteVarintToArray(target: array<byte>, pos: nat, value: nat) returns (end: nat)
    requires pos + |Varint(value)| <= target.Length
    modifies target
    ensures end == pos + |Varint(value)| && Wrote(old(target[..]), target[..], pos, Varint(value))
  {
    hide *;
    var rest := value;
    end := pos;
    ghost var before := target[..];
    ghost var done: bytes := [];
    WroteNothing(before, pos);
    assert done + Varint(rest) == Varint(value);
    while rest >= 128
      invariant done + Varint(rest) == Varint(value)
      invariant end == pos + |done| && Wrote(before, target[..], pos, done)
    {
      var low: byte := 128 + rest % 128;
      VarintMore(done, rest);
      ghost var now := target[..];
      end := WriteByteToArray(target, end, low);
      WroteThen(before, now, target[..], pos, done, [low]);
      done := done + [low];
      rest := rest / 128;
    }
    VarintMore(done, rest);
    ghost var now := target[..];
    end := WriteByteToArray(target, end, rest);
    WroteThen(before, now, target[..], pos, done, [rest as byte]);
  }

  /** A length-delimited block. */
  method WriteBlockToArray(target: array<byte>, pos: nat, data: bytes) returns (end: nat)
    requires pos + |Block(data)| <= target.Length
    modifies target
    ensures end == pos + |Block(data)| && Wrote(old(target[..]), target[..], pos, Block(data))
  {
    hide Wrote, Varint;
    ghost var a := target[..];
    end := WriteVarintToArray(target, pos, |data|);
    ghost var b := target[..];
    end := WriteRawToArray(target, end, data);
    WroteThen(a, b, target[..], pos, Varint(|data|), data);
  }

  /** A scalar field, when present: its tag and its value. */
  method WriteOptionalToArray(target: array<byte>, pos: nat, f: FieldSpec, present: bool, v: Value) returns (end: nat)
    requires pos + |EncodeField(f, Optional(present, v))| <= target.Length
    modifies target
    ensures end == pos + |EncodeField(f, Optional(present, v))|
    ensures Wrote(old(target[..]), target[..], pos, EncodeField(f, Optional(present, v)))
  {
    hide Varint, Wrote, Tag, Block;
    end := pos;
    WroteNothing(target[..], pos);
    if present {
      ghost var a := target[..];
      end := WriteVarintToArray(target, end, Tag(f));
      ghost var b := target[..];
      match v {
        case Text(text) => end := WriteBlockToArray(target, end, text);
        case Num(n) => end := WriteVarintToArray(target, end, n);
      }
      WroteThen(a, b, target[..], pos, Varint(Tag(f)), if v.Text? then Block(v.text) else Varint(v.num));
    }
  }

  /** A scalar field after `done`, which the buffer has held from `origin` on since it was `start`. */
  method AppendOptionalToArray(target: array<byte>, pos: nat, f: FieldSpec, present: bool, v: Value,
                               ghost start: bytes, ghost origin: nat, ghost done: bytes) returns (end: nat)
    requires Wrote(start, target[..], origin, done) && pos == origin + |done|
    requires pos + |EncodeField(f, Optional(present, v))| <= target.Length
    modifies target
    ensures end == pos + |EncodeField(f, Optional(present, v))|
    ensures Wrote(start, target[..], origin, done + EncodeField(f, Optional(present, v)))
  {
    hide *;
    ghost var now := target[..];
    end := WriteOptionalToArray(target, pos, f, present, v);
    WroteThen(start, now, target[..], origin, done, EncodeField(f, Optional(present, v)));
  }

  /** What follows the tag of an unknown field. */
  method WriteUnknownBodyToArray(target: array<byte>, pos: nat, u: Unknown) returns (end: nat)
    requires pos + |UnknownBody(u)| <= target.Length
    modifies target
    ensures end == pos + |UnknownBody(u)| && Wrote(old(target[..]), target[..], pos, UnknownBody(u))
    decreases u, 0
  {
    hide Varint, Wrote;
    ghost var a := target[..];
    match u {
      case UVarint(_, value) => end := WriteVarintToArray(target, pos, value);
      case UFixed64(_, data) => end := WriteRawToArray(target, pos, data);
      case ULength(_, data) => end := WriteBlockToArray(target, pos, data);
      case UGroup(number, fields) =>
        end := WriteUnknownFieldsToArray(target, pos, fields);
        ghost var b := target[..];
        end := WriteVarintToArray(target, end, EndGroupTag(number));
        WroteThen(a, b, target[..], pos, EncodeUnknowns(fields), Varint(EndGroupTag(number)));
      case UFixed32(_, data) => end := WriteRawToArray(target, pos, data);
    }
  }

  method WriteUnknownFieldsToArray(target: array<byte>, pos: nat, us: seq<Unknown>) returns (end: nat)
    requires pos + |EncodeUnknowns(us)| <= target.Length
    modifies target
    ensures end == pos + |EncodeUnknowns(us)| && Wrote(old(target[..]), target[..], pos, EncodeUnknowns(us))
    decreases us, 1
  {
    hide Varint, Wrote, UnknownBody, UnknownTag;
    end := pos;
    ghost var before := target[..];
    WroteNothing(before, pos);
    for i := 0 to |us|
      invariant end == pos + |EncodeUnknowns(us[..i])| && Wrote(before, target[..], pos, EncodeUnknowns(us[..i]))
    {
      EncodeUnknownsNext(us, i);
      EncodeUnknownsPrefix(us, i + 1);
      ghost var a := target[..];
      ghost var done := EncodeUnknowns(us[..i]);
      end := WriteVarintToArray(target, end, UnknownTag(us[i]));
      ghost var b := target[..];
      end := WriteUnknownBodyToArray(target, end, us[i]);
      WroteThen(a, b, target[..], pos + |done|, Varint(UnknownTag(us[i])), UnknownBody(us[i]));
      WroteThen(before, a, target[..], pos, done, EncodeUnknown(us[i]));
    }
    assert us[..|us|] == us;
  }

  /** Unknown fields after `done`. */
  method AppendUnknownFieldsToArray(target: array<byte>, pos: nat, us: seq<Unknown>,
                                    ghost start: bytes, ghost origin: nat, ghost done: bytes) returns (end: nat)
    requires Wrote(start, target[..], origin, done) && pos == origin + |done|
    requires pos + |EncodeUnknowns(us)| <= target.Length
    modifies target
    ensures end == pos + |EncodeUnknowns(us)|
    ensures Wrote(start, target[..], origin, done + EncodeUnknowns(us))
  {
    hide *;
    ghost var now := target[..];
    end := WriteUnknownFieldsToArray(target, pos, us);
    WroteThen(start, now, target[..], origin, done, EncodeUnknowns(us));
  }

  lemma EncodeUnknownsPrefix(us: seq<Unknown>, i: nat)
    requires i <= |us|
    ensures |EncodeUnknowns(us[..i])| <= |EncodeUnknowns(us)|
  {
    assert us == us[..i] + us[i..];
    EncodeUnknownsAppend(us[..i], us[i..]);
  }

  // ----- adding up sizes -----

  method AddStringSize(total: nat, present: bool, text: bytes) returns (sum: nat)
    ensures sum == total + ScalarSize(present, Text(text))
  {
    sum := total;
    if present {
      sum := sum + 1 + LengthDelimitedSize(|text|);
    }
  }

  method AddNumberSize(total: nat, present: bool, n: nat) returns (sum: nat)
    ensures sum == total + ScalarSize(present, Num(n))
  {
    sum := total;
    if present {
      sum := sum + 1 + VarintSize(n);
    }
  }

  /** A boolean always takes a byte of tag and a byte of value. */
  method AddBoolSize(total: nat, present: bool, b: bool) returns (sum: nat)
    ensures sum == total + ScalarSize(present, BoolValue(b))
  {
    BoolSizes();
    hide VarintSize;
    sum := total;
    if present {
      sum := sum + 1 + 1;
    }
  }

  // ----- repeated strings -----

  lemma EncodeStringsNext(tag: nat, ss: seq<bytes>, i: nat)
    requires i < |ss|
    ensures EncodeStrings(tag, ss[..i + 1]) == EncodeStrings(tag, ss[..i]) + (Varint(tag) + Block(ss[i]))
  {
    hide Varint, Block;
    assert ss[..i + 1][..i] == ss[..i];
  }

  lemma {:induction false} EncodeStringsPrefix(tag: nat, ss: seq<bytes>, i: nat)
    requires i <= |ss|
    ensures |EncodeStrings(tag, ss[..i])| <= |EncodeStrings(tag, ss)|
    decreases |ss| - i
  {
    hide Varint, Block, EncodeStrings;
    if i < |ss| {
      EncodeStringsNext(tag, ss, i);
      EncodeStringsPrefix(tag, ss, i + 1);
    } else {
      assert ss[..i] == ss;
    }
  }

  method WriteStringsToArray(target: array<byte>, pos: nat, tag: nat, ss: seq<bytes>) returns (end: nat)
    requires pos + |EncodeStrings(tag, ss)| <= target.Length
    modifies target
    ensures end == pos + |EncodeStrings(tag, ss)| && Wrote(old(target[..]), target[..], pos, EncodeStrings(tag, ss))
  {
    hide *;
    end := pos;
    ghost var before := target[..];
    WroteNothing(before, pos);
    NoStrings(tag, ss);
    for i := 0 to |ss|
      invariant end == pos + |EncodeStrings(tag, ss[..i])| && Wrote(before, target[..], pos, EncodeStrings(tag, ss[..i]))
    {
      EncodeStringsNext(tag, ss, i);
      EncodeStringsPrefix(tag, ss, i + 1);
      ghost var a := target[..];
      ghost var done := EncodeStrings(tag, ss[..i]);
      end := WriteVarintToArray(target, end, tag);
      ghost var b := target[..];
      end := WriteBlockToArray(target, end, ss[i]);
      WroteThen(a, b, target[..], pos + |done|, Varint(tag), Block(ss[i]));
      WroteThen(before, a, target[..], pos, done, Varint(tag) + Block(ss[i]));
    }
    assert ss[..|ss|] == ss;
  }

  /** Repeated strings after `done`. */
  method AppendStringsToArray(target: array<byte>, pos: nat, tag: nat, ss: seq<bytes>,
                              ghost start: bytes, ghost origin: nat, ghost done: bytes) returns (end: nat)
    requires Wrote(start, target[..], origin, done) && pos == origin + |done|
    requires pos + |EncodeStrings(tag, ss)| <= target.Length
    modifies target
    ensures end == pos + |EncodeStrings(tag, ss)|
    ensures Wrote(start, target[..], origin, done + EncodeStrings(tag, ss))
  {
    hide *;
    ghost var now := target[..];
    end := WriteStringsToArray(target, pos, tag, ss);
    WroteThen(start, now, target[..], origin, done, EncodeStrings(tag, ss));
  }

  lemma NoStrings(tag: nat, ss: seq<bytes>)
    ensures EncodeStrings(tag, ss[..0]) == []
  {
  }

  /** The count of one tag byte each, then each string. */
  method StringsSize(ss: seq<bytes>, ghost tag: nat) returns (total: nat)
    requires tag < 128
    ensures Agrees(total, |EncodeStrings(tag, ss)|)
  {
    hide *;
    NoStrings(tag, ss);
    total := |ss|;
    ghost var sum := 0;
    AgreesSame(0);
    for i := 0 to |ss|
      invariant total == |ss| - i + sum && Agrees(sum, |EncodeStrings(tag, ss[..i])|)
    {
      EncodeStringsNext(tag, ss, i);
      AgreesSame(|ss[i]|);
      BlockSizeAgrees(|ss[i]|, ss[i]);
      OneByteTag(tag);
      AgreesSame(1);
      ghost var size := LengthDelimitedSize(|ss[i]|);
      AgreesSum(1, 1, size, |Block(ss[i])|);
      AgreesSum(sum, |EncodeStrings(tag, ss[..i])|, 1 + size, 1 + |Block(ss[i])|);
      total := total + LengthDelimitedSize(|ss[i]|);
      sum := sum + 1 + size;
    }
    assert ss[..|ss|] == ss;
  }

  lemma AgreesSame(n: nat)
    ensures Agrees(n, n)
  {
  }

  lemma OneByteTag(tag: nat)
    requires tag < 128
    ensures |Varint(tag)| == 1
  {
  }

  // ----- repeated messages -----

  lemma NoMessages(tag: nat, c: MessageType, ms: seq<Msg>)
    ensures EncodeMessages(tag, c, ms[..0]) == []
  {
    hide Encode;
  }

  lemma MessagesField(number: nat, c: MessageType, ms: seq<Msg>)
    ensures EncodeField(FieldSpec(number, Messages(c)), Msgs(ms)) == EncodeMessages(8 * number + 2, c, ms)
  {
    hide EncodeMessages;
  }

  lemma EncodeMessagesNext(tag: nat, c: MessageType, ms: seq<Msg>, i: nat)
    requires i < |ms|
    ensures EncodeMessages(tag, c, ms[..i + 1])
         == EncodeMessages(tag, c, ms[..i]) + (Varint(tag) + Block(Encode(c, ms[i])))
  {
    hide Varint, Block, Encode;
    assert ms[..i + 1][..i] == ms[..i];
  }

  lemma {:induction false} EncodeMessagesPrefix(tag: nat, c: MessageType, ms: seq<Msg>, i: nat)
    requires i <= |ms|
    ensures |EncodeMessages(tag, c, ms[..i])| <= |EncodeMessages(tag, c, ms)|
    decreases |ms| - i
  {
    hide *;
    if i < |ms| {
      EncodeMessagesNext(tag, c, ms, i);
      EncodeMessagesPrefix(tag, c, ms, i + 1);
    } else {
      assert ms[..i] == ms;
    }
  }

  /** One message is no longer than all of them. */
  lemma MessageWithin(tag: nat, c: MessageType, ms: seq<Msg>, i: nat)
    requires i < |ms|
    ensures |Encode(c, ms[i])| <= |EncodeMessages(tag, c, ms)|
  {
    BlockIs(Encode(c, ms[i]));
    hide *;
    EncodeMessagesNext(tag, c, ms, i);
    EncodeMessagesPrefix(tag, c, ms, i + 1);
  }

  lemma BlockIs(data: bytes)
    ensures Block(data) == Varint(|data|) + data
  {
    hide Varint;
  }

  /** One more message of known size. */
  lemma MessageSizeAgrees(tag: nat, c: MessageType, ms: seq<Msg>, i: nat, sum: nat, size: nat)
    requires tag < 128 && i < |ms| && Agrees(size, |Encode(c, ms[i])|)
    requires Agrees(sum, |EncodeMessages(tag, c, ms[..i])|)
    ensures Agrees(sum + 1 + LengthDelimitedSize(size), |EncodeMessages(tag, c, ms[..i + 1])|)
  {
    hide *;
    var body := Encode(c, ms[i]);
    EncodeMessagesNext(tag, c, ms, i);
    BlockSizeAgrees(size, body);
    OneByteTag(tag);
    AgreesSame(1);
    AgreesSum(1, 1, LengthDelimitedSize(size), |Block(body)|);
    AgreesSum(sum, |EncodeMessages(tag, c, ms[..i])|, 1 + LengthDelimitedSize(size), 1 + |Block(body)|);
  }

  /** A size that fits an `int` is cached as it is. */
  lemma CachedSizeIs(size: nat, actual: nat)
    requires Agrees(size, actual)
    ensures actual <= INT_MAX ==> ToCachedSize(size) == actual
  {
  }

  /** Filling a whole buffer. */
  lemma WroteAll(before: bytes, after: bytes, s: bytes)
    requires Wrote(before, after, 0, s) && |s| == |before|
    ensures after == s
  {
  }
}
