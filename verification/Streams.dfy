/** The coded streams the generated classes read from and write to. */
module Streams {
  import opened Options
  import opened Wire
  import opened Schema
  import opened Sizes

  /** Reads one flat buffer, up to a limit that submessages narrow. */
  class CodedInputStream {
    const data: bytes
    var pos: nat
    var limit: nat
    var legitimateEnd: bool
    var budget: int
    var lastTag: nat

    ghost predicate Valid()
      reads this
    {
      pos <= limit <= |data| <= INT_MAX
    }

    ghost function Rest(): bytes
      requires Valid()
      reads this
    {
      data[pos..limit]
    }

    /** Where a read may leave the stream: further on, and if it succeeded, just after what it read. */
    ghost predicate Moved(from: nat, rest: bytes, ok: bool)
      reads this
    {
      && Valid() && pos >= from
      && (ok ==> pos - from <= |rest| && Rest() == rest[pos - from..])
    }

    constructor (data: bytes)
      requires |data| <= INT_MAX
      ensures Valid() && Rest() == data && budget == 100 && !legitimateEnd
    {
      this.data := data;
      pos, limit := 0, |data|;
      legitimateEnd, budget, lastTag := false, 100, 0;
    }

    /** Reads a varint as 64 bits. */
    method ReadVarint64() returns (ok: bool, value: nat)
      requires Valid()
      modifies this`pos
      ensures Valid() && pos >= old(pos)
      ensures ok <==> DecodeVarint(old(Rest()), MAX_VARINT_BYTES).Some?
      ensures ok ==> var (v, n) := DecodeVarint(old(Rest()), MAX_VARINT_BYTES).value;
                     value == v % TWO_64 && pos == old(pos) + n && Rest() == old(Rest())[n..]
      ensures value < TWO_64
    {
      hide Placed, DecodeVarint;
      var result, count: nat := 0, 0;
      ghost var total: nat := 0;
      ghost var start := Rest();
      ShiftStart(DecodeVarint(start, MAX_VARINT_BYTES));
      while true
        invariant Valid() && 0 <= count <= MAX_VARINT_BYTES && pos == old(pos) + count && count <= |start|
        invariant Rest() == start[count..]
        invariant result == total % TWO_64
        invariant DecodeVarint(start, MAX_VARINT_BYTES)
               == Shift(total, count, DecodeVarint(Rest(), MAX_VARINT_BYTES - count))
        decreases MAX_VARINT_BYTES - count
      {
        NoVarint(MAX_VARINT_BYTES - count, Rest());
        if count == MAX_VARINT_BYTES || pos == limit {
          return false, 0;
        }
        var b := data[pos];
        ShiftStep(total, count, Rest(), MAX_VARINT_BYTES - count);
        AddModulo64(total, Placed(b % 128, count));
        result := (result + Placed(b % 128, count)) % TWO_64;
        total := total + Placed(b % 128, count);
        pos := pos + 1;
        count := count + 1;
        if b < 128 {
          return true, result;
        }
      }
    }

    /** Reads a varint and keeps its low 32 bits. */
    method ReadVarint32() returns (ok: bool, value: nat)
      requires Valid()
      modifies this`pos
      ensures Valid() && pos >= old(pos)
      ensures ok <==> DecodeVarint(old(Rest()), MAX_VARINT_BYTES).Some?
      ensures ok ==> var (v, n) := DecodeVarint(old(Rest()), MAX_VARINT_BYTES).value;
                     value == v % TWO_32 && pos == old(pos) + n && Rest() == old(Rest())[n..]
      ensures value < TWO_32
    {
      hide DecodeVarint;
      ok, value := ReadVarint64();
      if ok {
        LowBits(DecodeVarint(old(Rest()), MAX_VARINT_BYTES).value.0);
      }
      value := value % TWO_32;
    }

    /** Reads a varint that must fit an `int`. */
    method ReadVarintSizeAsInt() returns (ok: bool, value: nat)
      requires Valid()
      modifies this`pos
      ensures Valid() && pos >= old(pos)
      ensures ok <==> var r := DecodeVarint(old(Rest()), MAX_VARINT_BYTES);
                      r.Some? && r.value.0 % TWO_64 <= INT_MAX
      ensures ok ==> var (v, n) := DecodeVarint(old(Rest()), MAX_VARINT_BYTES).value;
                     value == v % TWO_64 && pos == old(pos) + n && Rest() == old(Rest())[n..]
    {
      hide DecodeVarint;
      ok, value := ReadVarint64();
      if value > INT_MAX {
        ok := false;
      }
    }

    /** Reads the next tag; zero at the limit (which is then a legitimate end), at a zero tag and at a bad varint. */
    method ReadTag() returns (tag: nat)
      requires Valid()
      modifies this`pos, this`legitimateEnd, this`lastTag
      ensures Valid() && pos >= old(pos) && tag == lastTag && tag < TWO_32
      ensures tag != 0 <==> TagAt(old(Rest())).Some?
      ensures tag != 0 ==> TagAt(old(Rest())) == Some((tag, pos - old(pos)))
      ensures tag != 0 ==> pos > old(pos) && Rest() == old(Rest())[pos - old(pos)..]
      ensures legitimateEnd == (old(legitimateEnd) || old(Rest()) == [])
    {
      hide DecodeVarint;
      if pos == limit {
        legitimateEnd := true;
        tag := 0;
        NoVarint(MAX_VARINT_BYTES, Rest());
      } else {
        var ok, value := ReadVarint64();
        if ok {
          LowBits(DecodeVarint(old(Rest()), MAX_VARINT_BYTES).value.0);
        }
        tag := if ok then value % TWO_32 else 0;
      }
      lastTag := tag;
    }

    /** Takes the next `size` bytes; when they are not there, what is left is taken and the read fails. */
    method ReadString(size: nat, current: bytes) returns (ok: bool, value: bytes)
      requires Valid() && size < TWO_32
      modifies this`pos
      ensures Valid() && pos >= old(pos)
      ensures ok <==> size <= INT_MAX && size <= |old(Rest())|
      ensures ok ==> value == old(Rest())[..size] && pos == old(pos) + size && Rest() == old(Rest())[size..]
      ensures !ok ==> if size > INT_MAX then value == current && pos == old(pos) else value == old(Rest()) && pos == limit
    {
      ghost var rest := Rest();
      if size > INT_MAX {
        return false, current;
      }
      if size <= limit - pos {
        value := data[pos..pos + size];
        SliceOfSlice(data, pos, limit, pos, pos + size);
        SliceOfSlice(data, pos, limit, pos + size, limit);
        assert rest[size..] == rest[size..limit - pos];
        pos := pos + size;
        ok := true;
      } else {
        value := data[pos..limit];
        assert value == rest;
        pos := limit;
        ok := false;
      }
    }

    /** Reads a length-prefixed string over `current`. */
    method ReadBytes(current: bytes) returns (ok: bool, value: bytes)
      requires Valid()
      modifies this`pos
      ensures Valid() && pos >= old(pos)
      ensures ok <==> ReadBlock(old(Rest())).Some?
      ensures ok ==> ReadBlock(old(Rest())) == Some((value, pos - old(pos)))
      ensures ok ==> pos > old(pos) && Rest() == old(Rest())[pos - old(pos)..]
    {
      hide DecodeVarint;
      var size;
      ok, size := ReadVarint32();
      if !ok {
        return false, current;
      }
      ghost var n := pos - old(pos);
      ok, value := ReadString(size, current);
      assert ok ==> old(Rest())[n..][..size] == old(Rest())[n..n + size];
    }

    /** Reads the length of a submessage and narrows the limit to it, unless it reaches past the limit
        in force. Fails when the recursion budget is used up. */
    method EnterMessage() returns (ok: bool, oldLimit: nat)
      requires Valid() && budget >= 0
      modifies this`pos, this`limit, this`budget
      ensures Valid() && pos >= old(pos) && oldLimit == old(limit) && limit <= oldLimit
      ensures ok <==> ReadExtent(old(Rest())).Some? && old(budget) > 0
      ensures ok ==> var (from, to) := ReadExtent(old(Rest())).value;
                     && pos == old(pos) + from && limit == old(pos) + to && budget == old(budget) - 1
                     && Rest() == old(Rest())[from..to]
    {
      hide DecodeVarint;
      oldLimit := limit;
      var size;
      ok, size := ReadVarintSizeAsInt();
      if !ok {
        return false, oldLimit;
      }
      if size <= INT_MAX - pos && size < limit - pos {
        limit := pos + size;
      }
      budget := budget - 1;
      ok := budget >= 0;
      SliceOfSlice(data, old(pos), old(limit), pos, limit);
    }

    /** Restores the limit after a submessage; reports whether its parse stopped at its own end. */
    method LeaveMessage(oldLimit: nat) returns (ok: bool)
      requires Valid() && limit <= oldLimit <= |data|
      modifies this`limit, this`budget, this`legitimateEnd
      ensures Valid() && limit == oldLimit && budget == old(budget) + 1
      ensures ok == old(legitimateEnd) && !legitimateEnd
    {
      ok := legitimateEnd;
      limit := oldLimit;
      legitimateEnd := false;
      budget := budget + 1;
    }

    /** Skips a record with the given tag, adding it to the unknown fields. */
    method SkipField(tag: nat, unknown: seq<Unknown>) returns (ok: bool, unknown': seq<Unknown>)
      requires Valid() && tag < TWO_32 && budget >= 0 && AllSized(unknown)
      modifies this
      ensures Valid() && limit == old(limit) && pos >= old(pos) && AllSized(unknown')
      ensures ok <==> Wire.SkipField(tag, old(Rest()), old(budget)).Some?
      ensures ok ==> budget == old(budget) && legitimateEnd == old(legitimateEnd)
      ensures ok ==> Appends(unknown, unknown', pos - old(pos), Wire.SkipField(tag, old(Rest()), old(budget)))
      ensures ok ==> Rest() == old(Rest())[pos - old(pos)..]
      decreases limit - pos, 2
    {
      hide DecodeVarint, ReadBlock, Wire.SkipMessage;
      unknown' := unknown;
      var number := tag / 8;
      if number == 0 {
        return false, unknown;
      }
      match tag % 8 {
        case 0 =>
          var value;
          ok, value := ReadVarint64();
          if ok {
            unknown' := unknown + [UVarint(number, value)];
          }
        case 1 =>
          if limit - pos < 8 {
            return false, unknown;
          }
          SliceOfSlice(data, pos, limit, pos, pos + 8);
          unknown' := unknown + [UFixed64(number, data[pos..pos + 8])];
          pos := pos + 8;
          ok := true;
        case 2 =>
          var value;
          ok, value := ReadBytes([]);
          unknown' := unknown + [ULength(number, value)];
        case 3 =>
          var fields;
          ok, fields := SkipGroup(number);
          unknown' := unknown + [UGroup(number, fields)];
        case 5 =>
          if limit - pos < 4 {
            return false, unknown;
          }
          SliceOfSlice(data, pos, limit, pos, pos + 4);
          unknown' := unknown + [UFixed32(number, data[pos..pos + 4])];
          pos := pos + 4;
          ok := true;
        case _ => ok := false;
      }
    }

    /** Skips a group that has been opened: its fields and the end tag, which must match. */
    method SkipGroup(number: nat) returns (ok: bool, fields: seq<Unknown>)
      requires Valid() && 1 <= number && budget >= 0
      modifies this
      ensures Valid() && limit == old(limit) && pos >= old(pos) && AllSized(fields)
      ensures ok <==> old(budget) > 0 && GroupAt(number, old(Rest()), old(budget) - 1).Some?
      ensures ok ==> budget == old(budget) && legitimateEnd == old(legitimateEnd)
      ensures ok ==> GroupAt(number, old(Rest()), old(budget) - 1) == Some((fields, pos - old(pos)))
      ensures ok ==> Rest() == old(Rest())[pos - old(pos)..]
      decreases limit - pos, 1
    {
      hide DecodeVarint, Wire.SkipMessage;
      fields := [];
      budget := budget - 1;
      if budget < 0 {
        return false, fields;
      }
      ghost var r := Wire.SkipMessage(Rest(), budget);
      ok, fields := SkipMessage([]);
      AfterStart(r);
      if ok {
        budget := budget + 1;
        ok := lastTag == EndGroupTag(number);
      }
    }

    /** Skips records up to an end-group tag or the end of input, adding them to the unknown fields. */
    method SkipMessage(unknown: seq<Unknown>) returns (ok: bool, unknown': seq<Unknown>)
      requires Valid() && budget >= 0 && AllSized(unknown)
      modifies this
      ensures Valid() && limit == old(limit) && pos >= old(pos) && AllSized(unknown')
      ensures ok && lastTag != 0 <==> Wire.SkipMessage(old(Rest()), old(budget)).Some?
      ensures ok ==> budget == old(budget)
      ensures ok && lastTag != 0 ==> legitimateEnd == old(legitimateEnd)
      ensures ok && lastTag != 0 ==>
                Extends(unknown, unknown', lastTag, pos - old(pos), Wire.SkipMessage(old(Rest()), old(budget)))
      ensures ok && lastTag != 0 ==> Rest() == old(Rest())[pos - old(pos)..]
      decreases limit - pos, 0
    {
      hide DecodeVarint, Wire.SkipField, Wire.SkipMessage, TagAt, AllSized, After;
      unknown' := unknown;
      ghost var start, depth: nat := Rest(), budget;
      ghost var done := [];
      AfterStart(Wire.SkipMessage(start, depth));
      while true
        invariant Valid() && limit == old(limit) && pos >= old(pos) && budget == depth == old(budget)
        invariant AllSized(unknown') && unknown' == unknown + done
        invariant Rest() == start[pos - old(pos)..] && legitimateEnd == old(legitimateEnd)
        invariant Wire.SkipMessage(start, depth) == After(done, pos - old(pos), Wire.SkipMessage(Rest(), depth))
        decreases limit - pos
      {
        ghost var here, at := Rest(), pos;
        var tag := ReadTag();
        if tag == 0 {
          NoGroupEnd(start, depth, done, at - old(pos), here);
          return true, unknown';
        }
        ghost var n := pos - at;
        if tag % 8 == 4 {
          GroupEnds(start, depth, done, at - old(pos), here, tag, n);
          return true, unknown';
        }
        var one;
        ok, one := SkipField(tag, unknown');
        GroupContinues(start, depth, done, at - old(pos), here, tag, n);
        if !ok {
          return false, one;
        }
        done := done + [Wire.SkipField(tag, here[n..], depth).value.0];
        assert one == unknown + done;
        unknown' := one;
      }
    }
  }

  /** A group body at the start of `s`, closed by the end tag of the same number. */
  function GroupAt(number: nat, s: bytes, budget: nat): Option<(seq<Unknown>, nat)> {
    match Wire.SkipMessage(s, budget)
    case None => None
    case Some((fields, end, n)) => if end == EndGroupTag(number) then Some((fields, n)) else None
  }

  /** The rest of a group, after `done` entries that took `n` bytes. */
  ghost function After(done: seq<Unknown>, n: nat, r: Option<(seq<Unknown>, nat, nat)>): Option<(seq<Unknown>, nat, nat)> {
    match r case None => None case Some((us, end, k)) => Some((done + us, end, n + k))
  }

  /** The one entry added to `unknown` is that of `r`, which also gives the bytes taken. */
  ghost predicate Appends(unknown: seq<Unknown>, unknown': seq<Unknown>, n: int, r: Option<(Unknown, nat)>) {
    r.Some? && unknown' == unknown + [r.value.0] && n == r.value.1
  }

  /** The entries added to `unknown` are those of `r`, which also gives the end tag and the bytes taken. */
  ghost predicate Extends(unknown: seq<Unknown>, unknown': seq<Unknown>, end: nat, n: int,
                          r: Option<(seq<Unknown>, nat, nat)>) {
    r.Some? && unknown' == unknown + r.value.0 && end == r.value.1 && n == r.value.2
  }

  lemma AfterStart(r: Option<(seq<Unknown>, nat, nat)>)
    ensures After([], 0, r) == r
  {
    if r.Some? {
      assert [] + r.value.0 == r.value.0;
    }
  }

  lemma AfterStep(done: seq<Unknown>, u: Unknown, n: nat, k: nat, r: Option<(seq<Unknown>, nat, nat)>)
    ensures After(done, n, After([u], k, r)) == After(done + [u], n + k, r)
  {
    if r.Some? {
      assert done + ([u] + r.value.0) == done + [u] + r.value.0;
    }
  }

  /** No tag where the group goes on. */
  lemma NoGroupEnd(start: bytes, depth: nat, done: seq<Unknown>, m: nat, here: bytes)
    requires Wire.SkipMessage(start, depth) == After(done, m, Wire.SkipMessage(here, depth)) && TagAt(here).None?
    ensures Wire.SkipMessage(start, depth).None?
  {
    hide TagAt, Wire.SkipField;
  }

  /** An end-group tag. */
  lemma GroupEnds(start: bytes, depth: nat, done: seq<Unknown>, m: nat, here: bytes, tag: nat, n: nat)
    requires Wire.SkipMessage(start, depth) == After(done, m, Wire.SkipMessage(here, depth))
    requires TagAt(here) == Some((tag, n)) && tag % 8 == 4
    ensures Wire.SkipMessage(start, depth) == Some((done, tag, m + n))
  {
    hide TagAt, Wire.SkipField;
    assert done + [] == done;
  }

  /** One more record of the group. */
  lemma GroupContinues(start: bytes, depth: nat, done: seq<Unknown>, m: nat, here: bytes, tag: nat, n: nat)
    requires Wire.SkipMessage(start, depth) == After(done, m, Wire.SkipMessage(here, depth))
    requires TagAt(here) == Some((tag, n)) && tag % 8 != 4
    ensures var r := Wire.SkipField(tag, here[n..], depth);
            Wire.SkipMessage(start, depth)
            == if r.None? then None
               else After(done + [r.value.0], m + n + r.value.1, Wire.SkipMessage(here[n..][r.value.1..], depth))
  {
    hide *;
    if Wire.SkipField(tag, here[n..], depth).Some? {
      var (u, k) := Wire.SkipField(tag, here[n..], depth).value;
      assert here[n..][k..] == here[n + k..];
      SkipMessageNext(here, depth, tag, n, u, k);
      AfterStep(done, u, m, n + k, Wire.SkipMessage(here[n + k..], depth));
    } else {
      SkipMessageStuck(here, depth, tag, n);
      AfterNone(done, m);
    }
  }

  lemma SkipMessageStuck(here: bytes, depth: nat, tag: nat, n: nat)
    requires TagAt(here) == Some((tag, n)) && tag % 8 != 4 && Wire.SkipField(tag, here[n..], depth).None?
    ensures Wire.SkipMessage(here, depth).None?
  {
    hide TagAt, Wire.SkipField;
  }

  lemma AfterNone(done: seq<Unknown>, m: nat)
    ensures After(done, m, None).None?
  {
  }

  lemma SkipMessageNext(here: bytes, depth: nat, tag: nat, n: nat, u: Unknown, k: nat)
    requires TagAt(here) == Some((tag, n)) && tag % 8 != 4 && Wire.SkipField(tag, here[n..], depth) == Some((u, k))
    ensures Wire.SkipMessage(here, depth) == After([u], n + k, Wire.SkipMessage(here[n + k..], depth))
  {
    hide TagAt, Wire.SkipField;
  }

  lemma SliceOfSlice(data: bytes, a: nat, b: nat, from: nat, to: nat)
    requires a <= from <= to <= b <= |data|
    ensures data[from..to] == data[a..b][from - a..to - a]
  {
    forall i | 0 <= i < to - from ensures data[from..to][i] == data[a..b][from - a..to - a][i] {
      assert data[a..b][from - a..to - a][i] == data[a..b][from - a + i];
    }
  }

  lemma LowBits(v: nat)
    ensures v % TWO_64 % TWO_32 == v % TWO_32
  {
  }

  // ----- facts about reading varints byte by byte -----

  /** `x` shifted left by `count` groups of seven bits. */
  function Placed(x: nat, count: nat): nat { x * Power128(count) }

  /** A varint read after `count` bytes worth `total`. */
  ghost function Shift(total: nat, count: nat, r: Option<(nat, nat)>): Option<(nat, nat)> {
    match r case None => None case Some((v, n)) => Some((total + Placed(v, count), count + n))
  }

  lemma PlacedSplit(low: nat, high: nat, count: nat)
    ensures Placed(low + 128 * high, count) == Placed(low, count) + Placed(high, count + 1)
  {
    hide Power128;
    var p := Power128(count);
    assert Power128(count + 1) == 128 * p by { NextPower128(count); }
    assert (low + 128 * high) * p == low * p + high * (128 * p);
  }

  lemma NextPower128(count: nat)
    ensures Power128(count + 1) == 128 * Power128(count)
  {
  }

  lemma ShiftStart(r: Option<(nat, nat)>)
    ensures Shift(0, 0, r) == r
  {
  }

  lemma ShiftStep(total: nat, count: nat, s: bytes, room: nat)
    requires s != []
    ensures room == 0 ==> Shift(total, count, DecodeVarint(s, room)).None?
    ensures room > 0 && s[0] < 128 ==>
              Shift(total, count, DecodeVarint(s, room)) == Some((total + Placed(s[0] % 128, count), count + 1))
    ensures room > 0 && s[0] >= 128 ==>
              Shift(total, count, DecodeVarint(s, room))
              == Shift(total + Placed(s[0] % 128, count), count + 1, DecodeVarint(s[1..], room - 1))
  {
    hide Placed;
    if room > 0 && s[0] >= 128 {
      match DecodeVarint(s[1..], room - 1)
      case None =>
      case Some((v, n)) => PlacedSplit(s[0] % 128, v, count);
    }
  }

  lemma AddModulo64(a: nat, b: nat)
    ensures (a % TWO_64 + b) % TWO_64 == (a + b) % TWO_64
  {
  }

  lemma NoVarint(room: nat, s: bytes)
    ensures room == 0 || s == [] ==> DecodeVarint(s, room).None?
  {
  }
}
