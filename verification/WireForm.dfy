/** The wire form written out: the bytes of every message, tag by tag, and what every record does to a parse. */
module WireForms {
  import opened Options
  import opened Wire
  import opened Schema
  import opened Effects
  import MergeLaws
  import OrderLaws
  import RoundTrip
  import F = TableFields
  import K = TableKeys
  import T = MysqlTables
  import S = MysqlSchemas
  import C = MysqlSchemaConfs

  // ----- varints, byte by byte -----

  lemma DivideTwice(n: nat, p: nat)
    requires p >= 1
    ensures n / 128 / p == n / (128 * p)
  {
    var x := n / 128;
    var y := x / p;
    var low := (x % p) * 128 + n % 128;
    assert x == p * y + x % p;
    SplitWeight(p, y, x % p);
    assert n == (128 * p) * y + low && low < 128 * p;
    QuotientIs(n, 128 * p, y, low);
  }

  lemma SplitWeight(p: nat, y: nat, r: nat)
    ensures 128 * (p * y + r) == (128 * p) * y + 128 * r
  {
  }

  lemma QuotientIs(n: nat, d: nat, q: nat, r: nat)
    requires n == d * q + r && r < d
    ensures n / d == q
  {
    var k, rest := n / d, n % d;
    assert n == d * k + rest;
    assert d * (k - q) == d * k - d * q;
    MultipleWithin(d, k - q, r - rest);
  }

  lemma Grows(d: int, k: int)
    requires d > 0 && k >= 1
    ensures d * k >= d
  {
  }

  /** A multiple of a number that is smaller than it is none of it. */
  lemma MultipleWithin(d: int, k: int, m: int)
    requires d > 0 && d * k == m && -d < m < d
    ensures k == 0
  {
    assert d * k == m && -d < m;
    if k >= 1 {
      Grows(d, k);
    } else if k <= -1 {
      Grows(d, -k);
    }
  }

  /** Byte `i` of a varint holds the seven bits of weight 128 to the `i`, and every byte but the last has the high bit. */
  lemma {:induction false} VarintGroups(n: nat, i: nat)
    requires i < |Varint(n)|
    ensures Varint(n)[i] == n / Power128(i) % 128 + if i < |Varint(n)| - 1 then 128 else 0
  {
    if i > 0 {
      VarintGroups(n / 128, i - 1);
      DivideTwice(n, Power128(i - 1));
      assert Power128(i) == 128 * Power128(i - 1);
    } else {
      assert Power128(0) == 1;
    }
  }

  /** The value of the first `n` bytes, seven bits each. */
  function Weighted(s: bytes, n: nat): nat
    requires n <= |s|
  {
    if n == 0 then 0 else Weighted(s, n - 1) + s[n - 1] % 128 * Power128(n - 1)
  }

  /** Byte `n - 1` is the first without the high bit. */
  predicate EndsAt(s: bytes, n: int) {
    1 <= n <= |s| && s[n - 1] < 128 && forall i :: 0 <= i < n - 1 ==> s[i] >= 128
  }

  lemma {:induction false} WeightedShift(s: bytes, n: nat)
    requires 1 <= n <= |s|
    ensures Weighted(s, n) == s[0] % 128 + 128 * Weighted(s[1..], n - 1)
  {
    if n == 1 {
      assert Power128(0) == 1;
      assert Weighted(s, 1) == Weighted(s, 0) + s[0] % 128 * Power128(0);
    } else {
      WeightedShift(s, n - 1);
      var p := Power128(n - 2);
      assert Power128(n - 1) == 128 * p;
      assert s[1..][n - 2] == s[n - 1];
      TimesWeight(s[n - 1] % 128, p);
    }
  }

  lemma TimesWeight(x: nat, p: nat)
    ensures x * (128 * p) == 128 * (x * p)
  {
  }

  lemma {:induction false} DecodeExactly(s: bytes, room: nat)
    ensures DecodeVarint(s, room).Some? <==> exists n :: EndsAt(s, n) && n <= room
    ensures DecodeVarint(s, room).Some? ==>
              var (v, n) := DecodeVarint(s, room).value; EndsAt(s, n) && v == Weighted(s, n)
  {
    hide EndsAt, Weighted;
    if room == 0 || s == [] {
      EndsInside(s);
    } else {
      if s[0] < 128 {
        EndsAtOnce(s);
      } else {
        DecodeExactly(s[1..], room - 1);
        EndsInside(s[1..]);
        if n :| EndsAt(s[1..], n) && n <= room - 1 {
          EndsLater(s, n);
        }
        if n :| EndsAt(s, n) && n <= room {
          EndsEarlier(s, n);
        }
        if DecodeVarint(s[1..], room - 1).Some? {
          var n := DecodeVarint(s[1..], room - 1).value.1;
          EndsLater(s, n);
          WeightedShift(s, n + 1);
        }
      }
    }
  }

  lemma EndsInside(s: bytes)
    ensures forall n :: EndsAt(s, n) ==> 1 <= n <= |s|
  {
  }

  lemma EndsAtOnce(s: bytes)
    requires s != [] && s[0] < 128
    ensures EndsAt(s, 1) && Weighted(s, 1) == s[0]
  {
    WeightedShift(s, 1);
  }

  lemma EndsLater(s: bytes, n: int)
    requires s != [] && s[0] >= 128 && EndsAt(s[1..], n)
    ensures EndsAt(s, n + 1)
  {
    assert s[n] == s[1..][n - 1];
    forall i | 0 <= i < n ensures s[i] >= 128 {
      assert i > 0 ==> s[i] == s[1..][i - 1];
    }
  }

  lemma EndsEarlier(s: bytes, n: int)
    requires s != [] && s[0] >= 128 && EndsAt(s, n)
    ensures n >= 2 && EndsAt(s[1..], n - 1)
  {
    assert s[1..][n - 2] == s[n - 1];
    forall i | 0 <= i < n - 2 ensures s[1..][i] >= 128 {
      assert s[1..][i] == s[i + 1];
    }
  }

  /** A varint is read if and only if one of the first ten bytes is without the high bit, and then its value is that of the
      bytes up to the first such one. */
  lemma VarintReadExactly(s: bytes)
    ensures DecodeVarint(s, MAX_VARINT_BYTES).Some? <==> exists n :: EndsAt(s, n) && n <= 10
    ensures DecodeVarint(s, MAX_VARINT_BYTES).Some? ==>
              var (v, n) := DecodeVarint(s, MAX_VARINT_BYTES).value; EndsAt(s, n) && v == Weighted(s, n)
  {
    hide DecodeVarint, EndsAt, Weighted;
    DecodeExactly(s, 10);
  }

  /** A tag is the low 32 bits of its varint, which must not be zero. */
  lemma TagRead(v: nat, s: bytes)
    requires v < TWO_64
    ensures TagAt(Varint(v) + s)
         == if v % 0x1_0000_0000 == 0 then None else Some((v % 0x1_0000_0000, |Varint(v)|))
  {
    hide DecodeVarint, Varint;
    Varint64RoundTrip(v, s);
  }

  // ----- the bytes of a message -----

  function TextField(present: bool, tag: byte, text: bytes): bytes {
    if present then [tag] + Varint(|text|) + text else []
  }

  function NumberField(present: bool, tag: byte, n: nat): bytes {
    if present then [tag] + Varint(n) else []
  }

  function FlagField(present: bool, tag: byte, flag: bool): bytes {
    if present then [tag, if flag then 1 else 0] else []
  }

  /** One tagged, length-prefixed record for each of the bodies. */
  function Blocks(tag: byte, bodies: seq<bytes>): bytes {
    if bodies == [] then []
    else Blocks(tag, bodies[..|bodies| - 1]) + ([tag] + Varint(|bodies[|bodies| - 1]|) + bodies[|bodies| - 1])
  }

  /** The bytes of each of the messages. */
  function Bodies(c: MessageType, ms: seq<Msg>): seq<bytes> {
    seq(|ms|, i requires 0 <= i < |ms| => Encode(c, ms[i]))
  }

  lemma SmallVarint(n: nat)
    requires n < 128
    ensures Varint(n) == [n]
  {
  }

  lemma TextBytes(f: FieldSpec, tag: byte, present: bool, text: bytes)
    requires tag < 128 && Tag(f) == tag
    ensures EncodeField(f, Optional(present, Text(text))) == TextField(present, tag, text)
  {
    SmallVarint(tag);
    hide Varint, Tag;
    assert [tag as byte] + (Varint(|text|) + text) == [tag] + Varint(|text|) + text;
  }

  lemma NumberBytes(f: FieldSpec, tag: byte, present: bool, n: nat)
    requires tag < 128 && Tag(f) == tag
    ensures EncodeField(f, Optional(present, Num(n))) == NumberField(present, tag, n)
  {
    SmallVarint(tag);
    hide Varint, Tag;
  }

  lemma FlagBytes(f: FieldSpec, tag: byte, present: bool, flag: bool)
    requires tag < 128 && Tag(f) == tag
    ensures EncodeField(f, Optional(present, Num(if flag then 1 else 0))) == FlagField(present, tag, flag)
  {
    SmallVarint(tag);
    SmallVarint(0);
    SmallVarint(1);
    hide Varint, Tag;
  }

  lemma {:induction false} StringsBytes(tag: byte, ss: seq<bytes>)
    requires tag < 128
    ensures EncodeStrings(tag, ss) == Blocks(tag, ss)
  {
    if ss != [] {
      var last := ss[|ss| - 1];
      StringsBytes(tag, ss[..|ss| - 1]);
      SmallVarint(tag);
      hide Varint;
      assert [tag as byte] + (Varint(|last|) + last) == [tag] + Varint(|last|) + last;
    }
  }

  lemma {:induction false} MessagesBytes(tag: byte, c: MessageType, ms: seq<Msg>)
    requires tag < 128
    ensures EncodeMessages(tag, c, ms) == Blocks(tag, Bodies(c, ms))
  {
    hide *;
    MessagesNext(tag, c, ms);
    if ms != [] {
      MessagesBytes(tag, c, ms[..|ms| - 1]);
      BlocksNext(tag, Bodies(c, ms[..|ms| - 1]), Encode(c, ms[|ms| - 1]));
    } else {
      NoBlocks(tag);
    }
  }

  lemma MessagesNext(tag: byte, c: MessageType, ms: seq<Msg>)
    requires tag < 128
    ensures ms == [] ==> EncodeMessages(tag, c, ms) == [] && Bodies(c, ms) == []
    ensures ms != [] ==>
              var body := Encode(c, ms[|ms| - 1]);
              && EncodeMessages(tag, c, ms) == EncodeMessages(tag, c, ms[..|ms| - 1]) + ([tag] + Varint(|body|) + body)
              && Bodies(c, ms) == Bodies(c, ms[..|ms| - 1]) + [body]
  {
    hide *;
    SmallVarint(tag);
    BodiesNext(c, ms);
    EncodeMessagesNext(tag, c, ms);
    if ms != [] {
      Regroup(tag, Encode(c, ms[|ms| - 1]));
    }
  }

  lemma EncodeMessagesNext(tag: byte, c: MessageType, ms: seq<Msg>)
    ensures ms == [] ==> EncodeMessages(tag, c, ms) == []
    ensures ms != [] ==>
              EncodeMessages(tag, c, ms)
              == EncodeMessages(tag, c, ms[..|ms| - 1]) + (Varint(tag) + Block(Encode(c, ms[|ms| - 1])))
  {
    hide Varint, Block, Encode;
  }

  lemma BodiesNext(c: MessageType, ms: seq<Msg>)
    ensures ms == [] ==> Bodies(c, ms) == []
    ensures ms != [] ==> Bodies(c, ms) == Bodies(c, ms[..|ms| - 1]) + [Encode(c, ms[|ms| - 1])]
  {
    hide Encode;
  }

  lemma Regroup(tag: byte, body: bytes)
    ensures [tag] + Block(body) == [tag] + Varint(|body|) + body
  {
    hide Varint;
  }

  lemma BlocksNext(tag: byte, bodies: seq<bytes>, body: bytes)
    ensures Blocks(tag, bodies + [body]) == Blocks(tag, bodies) + ([tag] + Varint(|body|) + body)
  {
    hide Varint;
    assert (bodies + [body])[..|bodies|] == bodies;
  }

  lemma NoBlocks(tag: byte)
    ensures Blocks(tag, []) == []
  {
  }

  lemma SlotsNext(t: MessageType, m: Msg, k: nat)
    requires k < |m.slots| && k < |Fields(t)|
    ensures EncodeSlots(t, m, 0) == []
    ensures EncodeSlots(t, m, k + 1) == EncodeSlots(t, m, k) + EncodeField(Fields(t)[k], m.slots[k])
  {
    hide Fields, EncodeField;
  }

  /** The bytes of one slot. */
  function SlotBytes(t: MessageType, m: Msg, i: nat): bytes
    requires i < |m.slots| && i < |Fields(t)|
  {
    EncodeField(Fields(t)[i], m.slots[i])
  }

  lemma SlotsThree(t: MessageType, m: Msg)
    requires |m.slots| == |Fields(t)| >= 3
    ensures EncodeSlots(t, m, 3) == SlotBytes(t, m, 0) + SlotBytes(t, m, 1) + SlotBytes(t, m, 2)
  {
    hide Fields, EncodeField, EncodeSlots;
    SlotsNext(t, m, 0);
    assert EncodeSlots(t, m, 1) == SlotBytes(t, m, 0);
    SlotsNext(t, m, 1);
    SlotsNext(t, m, 2);
  }

  lemma SlotsSix(t: MessageType, m: Msg)
    requires |m.slots| == |Fields(t)| >= 6
    ensures EncodeSlots(t, m, 6)
         == SlotBytes(t, m, 0) + SlotBytes(t, m, 1) + SlotBytes(t, m, 2) + SlotBytes(t, m, 3) + SlotBytes(t, m, 4)
            + SlotBytes(t, m, 5)
  {
    hide Fields, EncodeField, EncodeSlots;
    SlotsThree(t, m);
    SlotsNext(t, m, 3);
    SlotsNext(t, m, 4);
    SlotsNext(t, m, 5);
  }

  lemma SlotsNine(t: MessageType, m: Msg)
    requires |m.slots| == |Fields(t)| >= 9
    ensures EncodeSlots(t, m, 9)
         == SlotBytes(t, m, 0) + SlotBytes(t, m, 1) + SlotBytes(t, m, 2) + SlotBytes(t, m, 3) + SlotBytes(t, m, 4)
            + SlotBytes(t, m, 5) + SlotBytes(t, m, 6) + SlotBytes(t, m, 7) + SlotBytes(t, m, 8)
  {
    hide Fields, EncodeField, EncodeSlots;
    SlotsSix(t, m);
    SlotsNext(t, m, 6);
    SlotsNext(t, m, 7);
    SlotsNext(t, m, 8);
  }

  /** The tags and kinds of the fields, as the generated parsers and serializers have them. */
  lemma FieldTable()
    ensures [10, 16, 24, 32, 42, 58, 64, 72, 80] == Tags(FieldMsg)
    ensures [Str, Enum(12), Bool, Bool, Str, Str, Enum(12), UInt32, Bool] == Kinds(FieldMsg)
    ensures [10, 16, 26] == Tags(KeyMsg) && [Str, Enum(3), Strings] == Kinds(KeyMsg)
    ensures [10, 18, 26] == Tags(TableMsg) && [Str, Messages(FieldMsg), Messages(KeyMsg)] == Kinds(TableMsg)
    ensures [10, 16, 26, 34, 42, 50] == Tags(SchemaMsg)
    ensures [Str, UInt32, Str, Str, Str, Messages(TableMsg)] == Kinds(SchemaMsg)
    ensures [10] == Tags(ConfMsg) && [Messages(SchemaMsg)] == Kinds(ConfMsg)
  {
  }

  function Tags(t: MessageType): seq<nat> { seq(|Fields(t)|, i requires 0 <= i < |Fields(t)| => Tag(Fields(t)[i])) }

  function Kinds(t: MessageType): seq<Kind> { seq(|Fields(t)|, i requires 0 <= i < |Fields(t)| => Fields(t)[i].kind) }

  lemma FieldIs(t: MessageType, i: nat)
    requires i < |Tags(t)| && i < |Kinds(t)|
    ensures i < |Fields(t)| == |Tags(t)| && Tag(Fields(t)[i]) == Tags(t)[i] && Fields(t)[i].kind == Kinds(t)[i]
  {
    hide Fields, Tag;
  }

  /** What each member of a column is on the wire; the flags are 1 and 0. */
  lemma ColumnSlots(d: F.FieldData)
    ensures F.View(d).slots
         == [Optional(d.hasBits.b0, Text(d.name)), Optional(d.hasBits.b7, Num(d.fieldType)),
             Optional(d.hasBits.b3, Num(if d.notNull then 1 else 0)), Optional(d.hasBits.b4, Num(if d.autoIncr then 1 else 0)),
             Optional(d.hasBits.b1, Text(d.defaultValue)), Optional(d.hasBits.b2, Text(d.renameFrom)),
             Optional(d.hasBits.b8, Num(d.modifyType)), Optional(d.hasBits.b6, Num(d.varcharLen)),
             Optional(d.hasBits.b5, Num(if d.isDelete then 1 else 0))]
    ensures F.View(d).unknown == d.unknown
  {
    hide Optional;
  }

  /** The bytes of a column, member by member. */
  lemma ColumnBytes(d: F.FieldData)
    ensures Encode(FieldMsg, F.View(d))
         == TextField(d.hasBits.b0, 10, d.name) + NumberField(d.hasBits.b7, 16, d.fieldType)
            + FlagField(d.hasBits.b3, 24, d.notNull) + FlagField(d.hasBits.b4, 32, d.autoIncr)
            + TextField(d.hasBits.b1, 42, d.defaultValue) + TextField(d.hasBits.b2, 58, d.renameFrom)
            + NumberField(d.hasBits.b8, 64, d.modifyType) + NumberField(d.hasBits.b6, 72, d.varcharLen)
            + FlagField(d.hasBits.b5, 80, d.isDelete) + EncodeUnknowns(d.unknown)
  {
    hide *;
    ColumnShape(d);
    ColumnTexts(d);
    ColumnNumbers(d);
    ColumnFlags(d);
    EncodeParts(FieldMsg, F.View(d));
    SlotsNine(FieldMsg, F.View(d));
  }

  lemma ColumnShape(d: F.FieldData)
    ensures |F.View(d).slots| == |Fields(FieldMsg)| == 9 && F.View(d).unknown == d.unknown
  {
  }

  lemma ColumnTexts(d: F.FieldData)
    requires |F.View(d).slots| == |Fields(FieldMsg)| == 9
    ensures SlotBytes(FieldMsg, F.View(d), 0) == TextField(d.hasBits.b0, 10, d.name)
    ensures SlotBytes(FieldMsg, F.View(d), 4) == TextField(d.hasBits.b1, 42, d.defaultValue)
    ensures SlotBytes(FieldMsg, F.View(d), 5) == TextField(d.hasBits.b2, 58, d.renameFrom)
  {
    FieldTable();
    ColumnSlots(d);
    hide Fields, Tag, Tags, Kinds, EncodeField, Optional, TextField, F.View;
    FieldIs(FieldMsg, 0);
    FieldIs(FieldMsg, 4);
    FieldIs(FieldMsg, 5);
    TextBytes(Fields(FieldMsg)[0], 10, d.hasBits.b0, d.name);
    TextBytes(Fields(FieldMsg)[4], 42, d.hasBits.b1, d.defaultValue);
    TextBytes(Fields(FieldMsg)[5], 58, d.hasBits.b2, d.renameFrom);
  }

  lemma ColumnNumbers(d: F.FieldData)
    requires |F.View(d).slots| == |Fields(FieldMsg)| == 9
    ensures SlotBytes(FieldMsg, F.View(d), 1) == NumberField(d.hasBits.b7, 16, d.fieldType)
    ensures SlotBytes(FieldMsg, F.View(d), 6) == NumberField(d.hasBits.b8, 64, d.modifyType)
    ensures SlotBytes(FieldMsg, F.View(d), 7) == NumberField(d.hasBits.b6, 72, d.varcharLen)
  {
    FieldTable();
    ColumnSlots(d);
    hide Fields, Tag, Tags, Kinds, EncodeField, Optional, NumberField, F.View;
    FieldIs(FieldMsg, 1);
    FieldIs(FieldMsg, 6);
    FieldIs(FieldMsg, 7);
    NumberBytes(Fields(FieldMsg)[1], 16, d.hasBits.b7, d.fieldType);
    NumberBytes(Fields(FieldMsg)[6], 64, d.hasBits.b8, d.modifyType);
    NumberBytes(Fields(FieldMsg)[7], 72, d.hasBits.b6, d.varcharLen);
  }

  lemma ColumnFlags(d: F.FieldData)
    requires |F.View(d).slots| == |Fields(FieldMsg)| == 9
    ensures SlotBytes(FieldMsg, F.View(d), 2) == FlagField(d.hasBits.b3, 24, d.notNull)
    ensures SlotBytes(FieldMsg, F.View(d), 3) == FlagField(d.hasBits.b4, 32, d.autoIncr)
    ensures SlotBytes(FieldMsg, F.View(d), 8) == FlagField(d.hasBits.b5, 80, d.isDelete)
  {
    FieldTable();
    ColumnSlots(d);
    hide Fields, Tag, Tags, Kinds, EncodeField, Optional, FlagField, F.View;
    FieldIs(FieldMsg, 2);
    FieldIs(FieldMsg, 3);
    FieldIs(FieldMsg, 8);
    FlagBytes(Fields(FieldMsg)[2], 24, d.hasBits.b3, d.notNull);
    FlagBytes(Fields(FieldMsg)[3], 32, d.hasBits.b4, d.autoIncr);
    FlagBytes(Fields(FieldMsg)[8], 80, d.hasBits.b5, d.isDelete);
  }

  lemma EncodeParts(t: MessageType, m: Msg)
    ensures Encode(t, m) == EncodeSlots(t, m, |Fields(t)|) + EncodeUnknowns(m.unknown)
  {
    hide Fields, EncodeSlots, EncodeUnknowns;
  }

  /** The bytes of a key. */
  lemma KeyBytes(d: K.KeyData)
    ensures Encode(KeyMsg, K.View(d))
         == TextField(d.hasBits.b0, 10, d.name) + NumberField(d.hasBits.b1, 16, d.keyType) + Blocks(26, d.fields)
            + EncodeUnknowns(d.unknown)
  {
    hide *;
    KeySlots(d);
    EncodeParts(KeyMsg, K.View(d));
    SlotsThree(KeyMsg, K.View(d));
  }

  lemma KeySlots(d: K.KeyData)
    ensures |K.View(d).slots| == |Fields(KeyMsg)| == 3 && K.View(d).unknown == d.unknown
    ensures SlotBytes(KeyMsg, K.View(d), 0) == TextField(d.hasBits.b0, 10, d.name)
    ensures SlotBytes(KeyMsg, K.View(d), 1) == NumberField(d.hasBits.b1, 16, d.keyType)
    ensures SlotBytes(KeyMsg, K.View(d), 2) == Blocks(26, d.fields)
  {
    FieldTable();
    hide Fields, Tag, Tags, Kinds, EncodeField, Optional, TextField, NumberField, Blocks;
    FieldIs(KeyMsg, 0);
    FieldIs(KeyMsg, 1);
    FieldIs(KeyMsg, 2);
    TextBytes(Fields(KeyMsg)[0], 10, d.hasBits.b0, d.name);
    NumberBytes(Fields(KeyMsg)[1], 16, d.hasBits.b1, d.keyType);
    StringsField(Fields(KeyMsg)[2], 26, d.fields);
  }

  lemma StringsField(f: FieldSpec, tag: byte, ss: seq<bytes>)
    requires tag < 128 && Tag(f) == tag
    ensures EncodeField(f, Strs(ss)) == Blocks(tag, ss)
  {
    StringsBytes(tag, ss);
    hide Tag, EncodeStrings;
  }

  lemma MessagesField(f: FieldSpec, tag: byte, c: MessageType, ms: seq<Msg>)
    requires tag < 128 && Tag(f) == tag && f.kind == Messages(c)
    ensures EncodeField(f, Msgs(ms)) == Blocks(tag, Bodies(c, ms))
  {
    MessagesBytes(tag, c, ms);
    hide Tag, EncodeMessages, Encode;
  }

  /** The bytes of a table: its name, its columns, its keys. */
  lemma TableBytes(d: T.TableData, columns: seq<Msg>, keys: seq<Msg>)
    ensures Encode(TableMsg, T.View(d, columns, keys))
         == TextField(d.hasBits.b0, 10, d.tableName) + Blocks(18, Bodies(FieldMsg, columns)) + Blocks(26, Bodies(KeyMsg, keys))
            + EncodeUnknowns(d.unknown)
  {
    hide *;
    TableSlots(d, columns, keys);
    EncodeParts(TableMsg, T.View(d, columns, keys));
    SlotsThree(TableMsg, T.View(d, columns, keys));
  }

  lemma TableSlots(d: T.TableData, columns: seq<Msg>, keys: seq<Msg>)
    ensures var m := T.View(d, columns, keys);
            && |m.slots| == |Fields(TableMsg)| == 3 && m.unknown == d.unknown
            && SlotBytes(TableMsg, m, 0) == TextField(d.hasBits.b0, 10, d.tableName)
            && SlotBytes(TableMsg, m, 1) == Blocks(18, Bodies(FieldMsg, columns))
            && SlotBytes(TableMsg, m, 2) == Blocks(26, Bodies(KeyMsg, keys))
  {
    FieldTable();
    hide Fields, Tag, Tags, Kinds, EncodeField, Optional, TextField, Blocks, Bodies;
    FieldIs(TableMsg, 0);
    FieldIs(TableMsg, 1);
    FieldIs(TableMsg, 2);
    TextBytes(Fields(TableMsg)[0], 10, d.hasBits.b0, d.tableName);
    MessagesField(Fields(TableMsg)[1], 18, FieldMsg, columns);
    MessagesField(Fields(TableMsg)[2], 26, KeyMsg, keys);
  }

  /** The bytes of a schema: where it is, who may use it, and its tables. */
  lemma SchemaBytes(d: S.SchemaData, tables: seq<Msg>)
    ensures Encode(SchemaMsg, S.View(d, tables))
         == TextField(d.hasBits.b0, 10, d.ip) + NumberField(d.hasBits.b4, 16, d.port) + TextField(d.hasBits.b1, 26, d.user)
            + TextField(d.hasBits.b2, 34, d.passwd) + TextField(d.hasBits.b3, 42, d.schemaName)
            + Blocks(50, Bodies(TableMsg, tables)) + EncodeUnknowns(d.unknown)
  {
    hide *;
    SchemaSlots(d, tables);
    EncodeParts(SchemaMsg, S.View(d, tables));
    SlotsSix(SchemaMsg, S.View(d, tables));
  }

  lemma SchemaSlots(d: S.SchemaData, tables: seq<Msg>)
    ensures var m := S.View(d, tables);
            && |m.slots| == |Fields(SchemaMsg)| == 6 && m.unknown == d.unknown
            && SlotBytes(SchemaMsg, m, 0) == TextField(d.hasBits.b0, 10, d.ip)
            && SlotBytes(SchemaMsg, m, 1) == NumberField(d.hasBits.b4, 16, d.port)
            && SlotBytes(SchemaMsg, m, 2) == TextField(d.hasBits.b1, 26, d.user)
            && SlotBytes(SchemaMsg, m, 3) == TextField(d.hasBits.b2, 34, d.passwd)
            && SlotBytes(SchemaMsg, m, 4) == TextField(d.hasBits.b3, 42, d.schemaName)
            && SlotBytes(SchemaMsg, m, 5) == Blocks(50, Bodies(TableMsg, tables))
  {
    FieldTable();
    hide Fields, Tag, Tags, Kinds, EncodeField, Optional, TextField, NumberField, Blocks, Bodies;
    FieldIs(SchemaMsg, 0);
    FieldIs(SchemaMsg, 1);
    FieldIs(SchemaMsg, 2);
    FieldIs(SchemaMsg, 3);
    FieldIs(SchemaMsg, 4);
    FieldIs(SchemaMsg, 5);
    TextBytes(Fields(SchemaMsg)[0], 10, d.hasBits.b0, d.ip);
    NumberBytes(Fields(SchemaMsg)[1], 16, d.hasBits.b4, d.port);
    TextBytes(Fields(SchemaMsg)[2], 26, d.hasBits.b1, d.user);
    TextBytes(Fields(SchemaMsg)[3], 34, d.hasBits.b2, d.passwd);
    TextBytes(Fields(SchemaMsg)[4], 42, d.hasBits.b3, d.schemaName);
    MessagesField(Fields(SchemaMsg)[5], 50, TableMsg, tables);
  }

  /** The bytes of a configuration: its schemas. */
  lemma ConfBytes(unknown: seq<Unknown>, schemas: seq<Msg>)
    ensures Encode(ConfMsg, C.View(unknown, schemas)) == Blocks(10, Bodies(SchemaMsg, schemas)) + EncodeUnknowns(unknown)
  {
    FieldTable();
    hide Fields, Tag, Tags, Kinds, EncodeField, EncodeSlots, Blocks, Bodies, Encode, EncodeUnknowns;
    FieldIs(ConfMsg, 0);
    EncodeParts(ConfMsg, C.View(unknown, schemas));
    MessagesField(Fields(ConfMsg)[0], 10, SchemaMsg, schemas);
    SlotsNext(ConfMsg, C.View(unknown, schemas), 0);
  }

  /** The bytes of an unknown field, by wire type. */
  lemma UnknownBytes(number: nat, v: nat, data: bytes, fields: seq<Unknown>, more: seq<Unknown>)
    ensures EncodeUnknown(UVarint(number, v)) == Varint(8 * number) + Varint(v)
    ensures EncodeUnknown(UFixed64(number, data)) == Varint(8 * number + 1) + data
    ensures EncodeUnknown(ULength(number, data)) == Varint(8 * number + 2) + Varint(|data|) + data
    ensures EncodeUnknown(UGroup(number, fields))
         == Varint(8 * number + 3) + EncodeUnknowns(fields) + Varint(8 * number + 4)
    ensures EncodeUnknown(UFixed32(number, data)) == Varint(8 * number + 5) + data
    ensures EncodeUnknowns([]) == [] && EncodeUnknowns(fields + more) == EncodeUnknowns(fields) + EncodeUnknowns(more)
  {
    EncodeUnknownsAppend(fields, more);
    hide Varint, EncodeUnknowns;
    assert Varint(8 * number + 2) + (Varint(|data|) + data) == Varint(8 * number + 2) + Varint(|data|) + data;
    assert Varint(8 * number + 3) + (EncodeUnknowns(fields) + Varint(8 * number + 4))
        == Varint(8 * number + 3) + EncodeUnknowns(fields) + Varint(8 * number + 4);
    assert EncodeUnknowns([]) == [] by { NoUnknowns(); }
  }

  lemma NoUnknowns()
    ensures EncodeUnknowns([]) == []
  {
  }

  // ----- what a record does -----

  function Replaced(m: Msg, i: nat, slot: Slot): Msg
    requires i < |m.slots|
  {
    m.(slots := m.slots[i := slot])
  }

  lemma KnownRecord(t: MessageType, m: Msg, i: nat, body: bytes, budget: nat)
    requires i < |Fields(t)|
    ensures Parse(t, m, Varint(Tag(Fields(t)[i])) + body, budget)
         == var r := ReadKnown(t, i, body, budget);
            if r.None? then None else Parse(t, Apply(m, r.value.0), body[r.value.1..], budget)
  {
    hide ReadKnown, Fields, Tag, SlotOf, Varint, TagAt, SkipField, Parse, Apply;
    var tag := Tag(Fields(t)[i]);
    var s := Varint(tag) + body;
    SlotOfTag(t, i);
    ReadTagOf(tag, body, []);
    assert body + [] == body;
    MergeLaws.ParseStep(t, m, s, budget);
    match ReadKnown(t, i, body, budget)
    case None =>
    case Some((p, k)) => assert s[|Varint(tag)| + k..] == body[k..];
  }

  lemma VarintRecord(t: MessageType, m: Msg, i: nat, v: nat, s: bytes, budget: nat)
    requires i < |Fields(t)| && v < TWO_64
    requires Fields(t)[i].kind.Enum? || Fields(t)[i].kind.Bool? || Fields(t)[i].kind.UInt32?
    ensures Parse(t, m, Varint(Tag(Fields(t)[i])) + (Varint(v) + s), budget)
         == Parse(t, Apply(m, ScalarPiece(Fields(t)[i], i, v)), s, budget)
  {
    KnownRecord(t, m, i, Varint(v) + s, budget);
    hide Fields, Tag, Varint, Parse, Apply, ScalarPiece, DecodeVarint;
    Varint64RoundTrip(v, s);
  }

  /** A varint that sets a value. */
  lemma SetRecord(t: MessageType, m: Msg, i: nat, v: nat, s: bytes, budget: nat, value: Value)
    requires Shape(t, m) && i < |m.slots| && i < |Fields(t)| && v < TWO_64
    requires Fields(t)[i].kind.Enum? || Fields(t)[i].kind.Bool? || Fields(t)[i].kind.UInt32?
    requires ScalarPiece(Fields(t)[i], i, v) == SetValue(i, value)
    ensures Parse(t, m, Varint(Tag(Fields(t)[i])) + (Varint(v) + s), budget)
         == Parse(t, Replaced(m, i, Scalar(Some(value))), s, budget)
  {
    hide *;
    VarintRecord(t, m, i, v, s, budget);
    ApplyScalar(t, m, i, value);
  }

  lemma ApplyScalar(t: MessageType, m: Msg, i: nat, value: Value)
    requires Shape(t, m) && i < |Fields(t)|
    requires !Fields(t)[i].kind.Strings? && !Fields(t)[i].kind.Messages?
    ensures i < |m.slots| && Apply(m, SetValue(i, value)) == Replaced(m, i, Scalar(Some(value)))
  {
    assert SlotShape(Fields(t)[i].kind, m.slots[i]);
    hide Fields;
  }

  /** A flag becomes true exactly for a varint that is not zero. */
  lemma FlagRecord(t: MessageType, m: Msg, i: nat, v: nat, s: bytes, budget: nat)
    requires Shape(t, m) && i < |m.slots| && i < |Fields(t)| && Fields(t)[i].kind == Bool && v < TWO_64
    ensures Parse(t, m, Varint(Tag(Fields(t)[i])) + (Varint(v) + s), budget)
         == Parse(t, Replaced(m, i, Scalar(Some(Num(if v == 0 then 0 else 1)))), s, budget)
  {
    hide Fields, Tag, Varint, Parse, Shape;
    SetRecord(t, m, i, v, s, budget, Num(if v == 0 then 0 else 1));
  }

  /** In particular, parsing one of the flags of a column from any varint. */
  lemma ColumnFlagParsed(i: nat, tag: byte, v: nat, budget: nat)
    requires (i == 2 && tag == 24) || (i == 3 && tag == 32) || (i == 8 && tag == 80)
    requires v < TWO_64
    ensures |Empty(FieldMsg).slots| == 9
    ensures Parse(FieldMsg, Empty(FieldMsg), [tag] + Varint(v), budget)
         == Some(Replaced(Empty(FieldMsg), i, Scalar(Some(Num(if v == 0 then 0 else 1)))))
  {
    var m := Empty(FieldMsg);
    MergeLaws.EmptyShape(FieldMsg);
    FieldTable();
    hide Varint, Tag, Empty, Fields, ReadPiece;
    FieldIs(FieldMsg, i);
    SmallVarint(tag);
    FlagRecord(FieldMsg, m, i, v, [], budget);
    assert Varint(v) + [] == Varint(v);
  }

  /** What a member holds while its field is absent, and so what a new or cleared object holds. */
  lemma AbsentMembers(d: F.FieldData, k: K.KeyData, s: S.SchemaData)
    requires F.DataOk(d) && K.DataOk(k) && S.DataOk(s)
    ensures !d.hasBits.b6 ==> d.varcharLen == 255
    ensures (!d.hasBits.b7 ==> d.fieldType == 1) && (!d.hasBits.b8 ==> d.modifyType == 1)
    ensures (!d.hasBits.b3 ==> !d.notNull) && (!d.hasBits.b4 ==> !d.autoIncr) && (!d.hasBits.b5 ==> !d.isDelete)
    ensures (!k.hasBits.b1 ==> k.keyType == 1) && (!s.hasBits.b4 ==> s.port == 0)
    ensures F.DEFAULT.hasBits == K.DEFAULT.hasBits == S.DEFAULT.hasBits == NO_BITS
    ensures F.DEFAULT.varcharLen == 255 && F.DEFAULT.fieldType == F.DEFAULT.modifyType == K.DEFAULT.keyType == 1
    ensures !F.DEFAULT.notNull && !F.DEFAULT.autoIncr && !F.DEFAULT.isDelete && S.DEFAULT.port == 0
  {
  }

  /** A number keeps the low 32 bits of its varint. */
  lemma NumberRecord(t: MessageType, m: Msg, i: nat, v: nat, s: bytes, budget: nat)
    requires Shape(t, m) && i < |m.slots| && i < |Fields(t)| && Fields(t)[i].kind == UInt32 && v < TWO_64
    ensures Parse(t, m, Varint(Tag(Fields(t)[i])) + (Varint(v) + s), budget)
         == Parse(t, Replaced(m, i, Scalar(Some(Num(v % 0x1_0000_0000)))), s, budget)
  {
    hide Fields, Tag, Varint, Parse, Shape;
    SetRecord(t, m, i, v, s, budget, Num(v % 0x1_0000_0000));
  }

  /** An enum whose low 32 bits name a value takes it; otherwise those bits, extended with their sign to 64, join the
      unknown fields. */
  lemma EnumRecord(t: MessageType, m: Msg, i: nat, v: nat, s: bytes, budget: nat)
    requires Shape(t, m) && i < |m.slots| && i < |Fields(t)| && Fields(t)[i].kind.Enum? && v < TWO_64
    ensures var low, max := v % 0x1_0000_0000, if t == KeyMsg then 3 else 12;
            Parse(t, m, Varint(Tag(Fields(t)[i])) + (Varint(v) + s), budget)
            == if 1 <= low <= max then Parse(t, Replaced(m, i, Scalar(Some(Num(low)))), s, budget)
               else
                 var value := if low < 0x8000_0000 then low else low + 0xFFFF_FFFF_0000_0000;
                 Parse(t, m.(unknown := m.unknown + [UVarint(Tag(Fields(t)[i]) / 8, value)]), s, budget)
  {
    VarintRecord(t, m, i, v, s, budget);
    ApplyScalar(t, m, i, Num(v % 0x1_0000_0000));
    EnumIs(t, i);
    hide Fields, Tag, Varint, Parse, ApplySlot, Shape;
  }

  lemma EnumIs(t: MessageType, i: nat)
    requires i < |Fields(t)| && Fields(t)[i].kind.Enum?
    ensures Fields(t)[i].kind == Enum(if t == KeyMsg then 3 else 12)
    ensures Fields(t)[i].number == Tag(Fields(t)[i]) / 8
  {
  }

  /** A string takes as many bytes as the low 32 bits of its length say, over whatever was there; it is refused when they
      do not fit an `int` or are not there. */
  lemma TextRecord(t: MessageType, m: Msg, i: nat, v: nat, s: bytes, budget: nat)
    requires Shape(t, m) && i < |m.slots| && i < |Fields(t)| && Fields(t)[i].kind == Str && v < TWO_64
    ensures var n := v % 0x1_0000_0000;
            Parse(t, m, Varint(Tag(Fields(t)[i])) + (Varint(v) + s), budget)
            == if n > 0x7FFF_FFFF || n > |s| then None
               else Parse(t, Replaced(m, i, Scalar(Some(Text(s[..n])))), s[n..], budget)
  {
    hide *;
    var n := v % 0x1_0000_0000;
    KnownRecord(t, m, i, Varint(v) + s, budget);
    BlockRead(v, s);
    ReadText(t, i, Varint(v) + s, budget);
    ApplyScalar(t, m, i, Text(if n <= |s| then s[..n] else []));
  }

  lemma ReadText(t: MessageType, i: nat, body: bytes, budget: nat)
    requires i < |Fields(t)| && Fields(t)[i].kind == Str
    ensures var r := ReadBlock(body);
            ReadKnown(t, i, body, budget) == if r.None? then None else Some((SetValue(i, Text(r.value.0)), r.value.1))
  {
    hide Fields, ReadBlock;
  }

  /** A string of a repeated field joins at the end. */
  lemma StringRecord(t: MessageType, m: Msg, i: nat, v: nat, s: bytes, budget: nat)
    requires Shape(t, m) && i < |m.slots| && i < |Fields(t)| && Fields(t)[i].kind == Strings && v < TWO_64
    ensures m.slots[i].Strs?
    ensures var n := v % 0x1_0000_0000;
            Parse(t, m, Varint(Tag(Fields(t)[i])) + (Varint(v) + s), budget)
            == if n > 0x7FFF_FFFF || n > |s| then None
               else Parse(t, Replaced(m, i, Strs(m.slots[i].strings + [s[..n]])), s[n..], budget)
  {
    hide *;
    var n := v % 0x1_0000_0000;
    KnownRecord(t, m, i, Varint(v) + s, budget);
    BlockRead(v, s);
    ReadRepeated(t, i, t, Varint(v) + s, budget);
    ApplyRepeated(t, m, i, if n <= |s| then s[..n] else [], m);
  }

  lemma BlockRead(v: nat, s: bytes)
    requires v < TWO_64
    ensures var n, r := v % 0x1_0000_0000, ReadBlock(Varint(v) + s);
            if n > 0x7FFF_FFFF || n > |s| then r.None?
            else r == Some((s[..n], |Varint(v)| + n)) && (Varint(v) + s)[|Varint(v)| + n..] == s[n..]
  {
    hide DecodeVarint, Varint;
    Varint64RoundTrip(v, s);
    var n, k := v % 0x1_0000_0000, |Varint(v)|;
    if n <= |s| {
      assert (Varint(v) + s)[k..k + n] == s[..n];
    }
  }

  /** A piece that joins a repeated field at its end. */
  lemma ApplyRepeated(t: MessageType, m: Msg, i: nat, text: bytes, item: Msg)
    requires Shape(t, m) && i < |m.slots| && i < |Fields(t)|
    ensures Fields(t)[i].kind.Strings? ==>
              m.slots[i].Strs? && Apply(m, AddString(i, text)) == Replaced(m, i, Strs(m.slots[i].strings + [text]))
    ensures Fields(t)[i].kind.Messages? ==>
              m.slots[i].Msgs? && Apply(m, AddMessage(i, item)) == Replaced(m, i, Msgs(m.slots[i].messages + [item]))
  {
    assert SlotShape(Fields(t)[i].kind, m.slots[i]);
    hide Fields;
  }

  lemma ReadRepeated(t: MessageType, i: nat, c: MessageType, body: bytes, budget: nat)
    requires i < |Fields(t)|
    ensures Fields(t)[i].kind == Strings ==>
              var r := ReadBlock(body);
              ReadKnown(t, i, body, budget)
              == if r.None? then None else Some((AddString(i, r.value.0), r.value.1))
    ensures Fields(t)[i].kind == Messages(c) ==>
              var r := ReadExtent(body);
              ReadKnown(t, i, body, budget)
              == if r.None? || budget == 0 then None
                 else
                   var item := Parse(c, Empty(c), body[r.value.0..r.value.1], budget - 1);
                   if item.None? then None else Some((AddMessage(i, item.value), r.value.1))
  {
    hide Fields, ReadBlock, ReadExtent, Parse, Empty;
  }

  /** A nested message is parsed on its own, from as many bytes as its length says or as there are, one level deeper, and
      joins at the end. A length of 2 GB or more is refused, and so is any nested message when no level is left. */
  lemma MessageRecord(t: MessageType, m: Msg, i: nat, c: MessageType, v: nat, s: bytes, budget: nat)
    requires Shape(t, m) && i < |m.slots| && i < |Fields(t)| && Fields(t)[i].kind == Messages(c) && v < TWO_64
    ensures m.slots[i].Msgs?
    ensures var n := if v < |s| then v else |s|;
            Parse(t, m, Varint(Tag(Fields(t)[i])) + (Varint(v) + s), budget)
            == if v > 0x7FFF_FFFF || budget == 0 then None
               else
                 var item := Parse(c, Empty(c), s[..n], budget - 1);
                 if item.None? then None
                 else Parse(t, Replaced(m, i, Msgs(m.slots[i].messages + [item.value])), s[n..], budget)
  {
    hide *;
    var n := if v < |s| then v else |s|;
    KnownRecord(t, m, i, Varint(v) + s, budget);
    ExtentRead(v, s);
    ReadRepeated(t, i, c, Varint(v) + s, budget);
    ApplyRepeated(t, m, i, [], m);
    if budget > 0 && Parse(c, Empty(c), s[..n], budget - 1).Some? {
      ApplyRepeated(t, m, i, [], Parse(c, Empty(c), s[..n], budget - 1).value);
    }
  }

  lemma ExtentRead(v: nat, s: bytes)
    requires v < TWO_64
    ensures var n, k, r := if v < |s| then v else |s|, |Varint(v)|, ReadExtent(Varint(v) + s);
            if v > 0x7FFF_FFFF then r.None?
            else r == Some((k, k + n)) && (Varint(v) + s)[k..k + n] == s[..n] && (Varint(v) + s)[k + n..] == s[n..]
  {
    hide DecodeVarint, Varint;
    Varint64RoundTrip(v, s);
  }

  /** A scalar field by itself is a whole record, and so is an unknown field. */
  lemma EncodedIsWhole(t: MessageType, i: nat, value: Value, u: Unknown, budget: nat)
    requires i < |Fields(t)| && SlotOk(Fields(t)[i].kind, Scalar(Some(value)), budget)
    requires CanonicalUnknown(u, budget) && SlotOf(t, UnknownTag(u)).None?
    ensures OrderLaws.WholeRecord(t, EncodeField(Fields(t)[i], Scalar(Some(value))), budget)
    ensures OrderLaws.WholeRecord(t, EncodeUnknown(u), budget)
  {
    ScalarIsWhole(t, i, value, budget);
    UnknownIsWhole(t, u, budget);
  }

  lemma ScalarIsWhole(t: MessageType, i: nat, value: Value, budget: nat)
    requires i < |Fields(t)| && SlotOk(Fields(t)[i].kind, Scalar(Some(value)), budget)
    ensures OrderLaws.WholeRecord(t, EncodeField(Fields(t)[i], Scalar(Some(value))), budget)
  {
    var body := if value.Text? then Block(value.text) else Varint(value.num);
    RoundTrip.ReadScalar(t, i, value, [], budget);
    RoundTrip.ReadKnownRecord(t, i, body, [], SetValue(i, value), budget);
    SlotOfTag(t, i);
    ReadTagOf(Tag(Fields(t)[i]), body, []);
    hide Fields, Tag, SlotOf, Varint, Block, TagAt, ReadPiece, ReadKnown, DecodeVarint;
    assert Varint(Tag(Fields(t)[i])) + body + [] == Varint(Tag(Fields(t)[i])) + body;
    assert Varint(Tag(Fields(t)[i])) + (body + []) == Varint(Tag(Fields(t)[i])) + body;
  }

  lemma UnknownIsWhole(t: MessageType, u: Unknown, budget: nat)
    requires CanonicalUnknown(u, budget) && SlotOf(t, UnknownTag(u)).None?
    ensures OrderLaws.WholeRecord(t, EncodeUnknown(u), budget)
  {
    RoundTrip.ReadUnknownRecord(t, u, [], budget);
    UnknownTagBound(u, budget);
    ReadTagOf(UnknownTag(u), UnknownBody(u), []);
    hide CanonicalUnknown, SlotOf, Varint, TagAt, ReadPiece, UnknownBody, UnknownTag, DecodeVarint;
    assert EncodeUnknown(u) + [] == EncodeUnknown(u);
    assert Varint(UnknownTag(u)) + (UnknownBody(u) + []) == Varint(UnknownTag(u)) + UnknownBody(u);
  }

  // ----- how deep groups may nest -----

  /** A group within `depth` groups, all of the same number. */
  function Nested(number: nat, depth: nat): Unknown {
    UGroup(number, if depth == 0 then [] else [Nested(number, depth - 1)])
  }

  lemma {:induction false} NestedCanonical(number: nat, depth: nat, budget: nat)
    requires 1 <= number < 0x2000_0000 && depth < budget
    ensures CanonicalUnknown(Nested(number, depth), budget)
  {
    if depth > 0 {
      NestedCanonical(number, depth - 1, budget - 1);
    }
  }

  lemma {:induction false} NestedTooDeep(number: nat, depth: nat, rest: bytes, budget: nat)
    requires 1 <= number < 0x2000_0000 && budget <= depth
    ensures SkipField(8 * number + 3, UnknownBody(Nested(number, depth)) + rest, budget).None?
    decreases depth
  {
    hide *;
    if budget == 0 {
      NoLevelLeft(number, UnknownBody(Nested(number, depth)) + rest);
    } else {
      var body, tail := UnknownBody(Nested(number, depth - 1)), Varint(EndGroupTag(number)) + rest;
      NestedTooDeep(number, depth - 1, tail, budget - 1);
      NestedBody(number, depth, rest);
      GroupTagFits(number);
      ReadTagOf(8 * number + 3, body, tail);
      StuckInGroup(8 * number + 3, Varint(8 * number + 3) + (body + tail), |Varint(8 * number + 3)|, budget - 1);
      GroupFails(number, UnknownBody(Nested(number, depth)) + rest, budget);
    }
  }

  lemma NoLevelLeft(number: nat, s: bytes)
    ensures SkipField(8 * number + 3, s, 0).None?
  {
  }

  lemma GroupTagFits(number: nat)
    requires 1 <= number < 0x2000_0000
    ensures 1 <= 8 * number + 3 < TWO_32 && (8 * number + 3) % 8 == 3
  {
  }

  lemma NestedBody(number: nat, depth: nat, rest: bytes)
    requires depth > 0
    ensures UnknownBody(Nested(number, depth)) + rest
         == Varint(8 * number + 3) + (UnknownBody(Nested(number, depth - 1)) + (Varint(EndGroupTag(number)) + rest))
  {
    var inner := Nested(number, depth - 1);
    assert EncodeUnknowns([inner]) == EncodeUnknown(inner) + EncodeUnknowns([]);
    hide Varint, UnknownBody;
    assert UnknownTag(inner) == 8 * number + 3;
    assert EncodeUnknowns([inner]) == Varint(8 * number + 3) + UnknownBody(inner);
    GroupBody(number, [inner]);
  }

  lemma GroupBody(number: nat, fields: seq<Unknown>)
    ensures UnknownBody(UGroup(number, fields)) == EncodeUnknowns(fields) + Varint(EndGroupTag(number))
  {
  }

  lemma StuckInGroup(tag: nat, s: bytes, n: nat, budget: nat)
    requires TagAt(s) == Some((tag, n)) && tag % 8 == 3 && SkipField(tag, s[n..], budget).None?
    ensures SkipMessage(s, budget).None?
  {
    hide TagAt, SkipField;
  }

  lemma GroupFails(number: nat, s: bytes, budget: nat)
    requires budget > 0 && SkipMessage(s, budget - 1).None?
    ensures SkipField(8 * number + 3, s, budget).None?
  {
    hide SkipMessage;
  }

  /** Groups within groups are accepted if and only if they are no more than the levels that are left. */
  lemma GroupDepthExactly(t: MessageType, m: Msg, number: nat, depth: nat, budget: nat)
    requires 1 <= number < 0x2000_0000
    ensures Parse(t, m, EncodeUnknown(Nested(number, depth)), budget).Some? <==> depth < budget
    ensures depth < budget ==>
              Parse(t, m, EncodeUnknown(Nested(number, depth)), budget)
              == Some(m.(unknown := m.unknown + [Nested(number, depth)]))
  {
    var u := Nested(number, depth);
    NoGroupField(t, number);
    assert UnknownTag(u) == 8 * number + 3;
    NestedParts(number, depth);
    hide *;
    if depth < budget {
      NestedCanonical(number, depth, budget);
      NestedRead(t, m, number, depth, budget);
    } else {
      NestedTooDeep(number, depth, [], budget);
      NestedRefused(t, m, number, depth, budget);
    }
  }

  lemma NoGroupField(t: MessageType, number: nat)
    ensures SlotOf(t, 8 * number + 3).None?
  {
  }

  lemma NestedParts(number: nat, depth: nat)
    ensures EncodeUnknown(Nested(number, depth)) == Varint(8 * number + 3) + UnknownBody(Nested(number, depth))
  {
    hide Varint, UnknownBody;
  }

  lemma NestedRead(t: MessageType, m: Msg, number: nat, depth: nat, budget: nat)
    requires 1 <= number < 0x2000_0000 && CanonicalUnknown(Nested(number, depth), budget)
    ensures Parse(t, m, EncodeUnknown(Nested(number, depth)), budget)
         == Some(m.(unknown := m.unknown + [Nested(number, depth)]))
  {
    var u := Nested(number, depth);
    NoGroupField(t, number);
    assert UnknownTag(u) == 8 * number + 3;
    hide CanonicalUnknown, EncodeUnknown, SlotOf, Nested, ReadPiece;
    RoundTrip.ReadUnknownRecord(t, u, [], budget);
    RoundTrip.ParseRecord(t, m, EncodeUnknown(u), [], AddUnknown(u), budget);
    assert EncodeUnknown(u) + [] == EncodeUnknown(u);
  }

  lemma NestedRefused(t: MessageType, m: Msg, number: nat, depth: nat, budget: nat)
    requires 1 <= number < 0x2000_0000
    requires SkipField(8 * number + 3, UnknownBody(Nested(number, depth)) + [], budget).None?
    ensures Parse(t, m, EncodeUnknown(Nested(number, depth)), budget).None?
  {
    NoGroupField(t, number);
    NestedParts(number, depth);
    var body := UnknownBody(Nested(number, depth));
    hide SkipField, SlotOf, Nested, UnknownBody, Varint, EncodeUnknown, TagAt;
    ReadTagOf(8 * number + 3, body, []);
    assert Varint(8 * number + 3) + (body + []) == Varint(8 * number + 3) + body;
    MergeLaws.ParseStep(t, m, Varint(8 * number + 3) + body, budget);
  }
}
