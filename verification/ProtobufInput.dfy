/** nanopb, pb_decode.c: input streams, and what is read from them without a descriptor: varints, tags,
    substreams and fields that nobody knows. */
module ProtobufInput {
  import opened Bytes
  import opened Coding
  import opened Options
  import opened ProtobufFields

  // ---- Bits of numbers ----

  function Or(a: nat, b: nat): nat {
    if a == 0 && b == 0 then 0 else 2 * Or(a / 2, b / 2) + OneIf(a % 2 == 1 || b % 2 == 1)
  }

  lemma {:induction false} OrNothing(a: nat)
    ensures Or(a, 0) == a && Or(0, a) == a
  {
    if a > 0 {
      OrNothing(a / 2);
    }
  }

  // Bits that do not overlap add up.
  lemma {:induction false} OrAbove(a: nat, g: nat, k: nat)
    requires a < Power(2, k)
    ensures Or(a, g * Power(2, k)) == a + g * Power(2, k)
    decreases k
  {
    if k == 0 {
      OrNothing(g);
    } else {
      var half := g * Power(2, k - 1);
      assert g * Power(2, k) == 2 * half;
      OrAbove(a / 2, g, k - 1);
    }
  }

  lemma {:induction false} PowerOf128(i: nat)
    ensures Power(128, i) == Power(2, 7 * i)
  {
    if i > 0 {
      PowerOf128(i - 1);
      var n := 7 * (i - 1);
      assert Power(2, n + 2) == 4 * Power(2, n);
      assert Power(2, n + 4) == 4 * Power(2, n + 2);
      assert Power(2, n + 6) == 4 * Power(2, n + 4);
      assert Power(2, n + 7) == 2 * Power(2, n + 6);
    }
  }

  // ---- What stands at the front of some bytes ----

  // pb_decode_varint32 behind its first byte. Bits that do not fit must extend the sign; the place of a
  // bit is kept in eight bits.
  function Varint32Tail(result: nat, bitpos: nat, s: String): (p: Parsed<nat>)
    requires result < TWO_32
    ensures p.Parsed? ==> |p.rest| < |s| && p.value < TWO_32
    decreases |s|
  {
    if s == [] then Failed
    else
      var byte := DecodeByte(s[0]);
      if BadExtension(result, bitpos, byte) then Failed
      else
        var more := WithGroup(result, bitpos, byte);
        var next := (bitpos + 7) % 256;
        if byte >= 128 then Varint32Tail(more, next, s[1..])
        else if next == 35 && byte / 16 % 8 != 0 then Failed
        else Parsed(more, s[1..])
  }

  predicate BadExtension(result: nat, bitpos: nat, byte: nat) {
    bitpos >= 32 && byte % 128 != 0 && (result < 0x8000_0000 || byte != if bitpos < 63 then 0xFF else 0x01)
  }

  function WithGroup(result: nat, bitpos: nat, byte: nat): (r: nat)
    requires result < TWO_32
    ensures r < TWO_32
  {
    if bitpos >= 32 then result else Or(result, byte % 128 * Power(2, bitpos)) % TWO_32
  }

  function ReadVarint32(s: String): (p: Parsed<nat>)
    ensures p.Parsed? ==> |p.rest| < |s| && p.value < TWO_32
  {
    if s == [] then Failed
    else
      var byte := DecodeByte(s[0]);
      if byte < 128 then Parsed(byte, s[1..]) else Varint32Tail(byte - 128, 7, s[1..])
  }

  function Front(s: String, n: nat): (p: Parsed<String>)
    ensures p.Parsed? <==> n <= |s|
    ensures p.Parsed? ==> |p.value| == n && |p.rest| == |s| - n
  {
    if n <= |s| then Parsed(s[..n], s[n..]) else Failed
  }

  // The bytes that a substream is limited to.
  function DelimitedAt(s: String): (p: Parsed<String>)
    ensures p.Parsed? ==> |p.rest| < |s| && |p.value| < TWO_32
  {
    match ReadVarint32(s)
    case Failed => Failed
    case Parsed(n, rest) => Front(rest, n)
  }

  datatype TagRead = Bad | Ended(rest: String) | Tag(tag: nat, wireType: nat, rest: String)

  // Messages may end with a zero.
  function ReadTag(s: String): (t: TagRead)
    ensures t.Tag? ==> |t.rest| < |s|
  {
    if s == [] then Ended(s)
    else
      match ReadVarint32(s)
      case Failed => Bad
      case Parsed(n, rest) => if n == 0 then Ended(rest) else Tag(n / 8, n % 8, rest)
  }

  function AfterVarint(s: String): (r: Option<String>)
    ensures r.Some? ==> |r.value| < |s|
  {
    if s == [] then None else if DecodeByte(s[0]) < 128 then Some(s[1..]) else AfterVarint(s[1..])
  }

  function Behind(p: Parsed<String>): Option<String> {
    if p.Parsed? then Some(p.rest) else None
  }

  // What is behind a field that is skipped.
  function AfterField(s: String, wireType: nat): (r: Option<String>)
    ensures r.Some? ==> |r.value| < |s|
  {
    if wireType == WT_VARINT then AfterVarint(s)
    else if wireType == WT_64BIT then Behind(Front(s, 8))
    else if wireType == WT_STRING then Behind(DelimitedAt(s))
    else if wireType == WT_32BIT then Behind(Front(s, 4))
    else None
  }

  // ---- Round trips ----

  // The place of group i of a varint, and what is left for the groups from there on.
  function Place(i: nat): nat {
    if i == 1 then 0x80 else if i == 2 then 0x4000 else if i == 3 then 0x20_0000 else 0x1000_0000
  }

  function Left(i: nat): nat {
    if i == 1 then 0x200_0000 else if i == 2 then 0x4_0000 else if i == 3 then 0x800 else 0x10
  }

  lemma Places(i: nat)
    requires 1 <= i <= 4
    ensures Power(2, 7 * i) == Place(i)
  {
    PowerOf128(i);
    assert Power(128, 1) == 0x80 && Power(128, 2) == 0x4000;
    assert Power(128, 3) == 128 * Power(128, 2) && Power(128, 4) == 128 * Power(128, 3);
  }

  // A group that fits where it belongs.
  lemma GroupFits(low: nat, i: nat, byte: nat)
    requires 1 <= i <= 4 && low < Place(i) && byte < 256 && byte % 128 < Left(i)
    ensures !BadExtension(low, 7 * i, byte)
    ensures WithGroup(low, 7 * i, byte) == low + byte % 128 * Place(i) < TWO_32
    ensures i < 4 ==> low + byte % 128 * Place(i) < Place(i + 1)
    ensures (7 * i + 7) % 256 == 7 * (i + 1) && (7 * (i + 1) == 35 ==> byte / 16 % 8 == 0)
  {
    hide Or, Power;
    Places(i);
    OrAbove(low, byte % 128, 7 * i);
  }

  lemma {:induction false} TailRoundTrip(low: nat, i: nat, v: nat, rest: String)
    requires 1 <= i <= 4 && low < Place(i) && v < Left(i)
    ensures Varint32Tail(low, 7 * i, Varint(v) + rest) == Parsed(low + v * Place(i), rest)
    decreases 4 - i
  {
    hide EncodeByte, DecodeByte, BadExtension, WithGroup, Place, Left;
    var s := Varint(v) + rest;
    if v < 128 {
      ByteRoundTrip(v);
      GroupFits(low, i, v);
      assert s[1..] == rest;
    } else {
      ByteRoundTrip(128 + v % 128);
      LaterGroups(low, i, v);
      GroupFits(low, i, 128 + v % 128);
      assert s[1..] == Varint(v / 128) + rest;
      TailRoundTrip(low + v % 128 * Place(i), i + 1, v / 128, rest);
    }
  }

  lemma LaterGroups(low: nat, i: nat, v: nat)
    requires 1 <= i <= 4 && low < Place(i) && 128 <= v < Left(i)
    ensures i < 4 && v / 128 < Left(i + 1) && v % 128 < Left(i)
    ensures low + v % 128 * Place(i) + v / 128 * Place(i + 1) == low + v * Place(i)
  {
    assert v == 128 * (v / 128) + v % 128;
  }

  // What pb_encode_varint writes for a 32-bit number, pb_decode_varint32 reads.
  lemma Varint32Reads(v: nat, rest: String)
    requires v < TWO_32
    ensures ReadVarint32(Varint(v) + rest) == Parsed(v, rest)
  {
    hide EncodeByte, DecodeByte, Varint32Tail;
    var s := Varint(v) + rest;
    if v < 128 {
      ByteRoundTrip(v);
      assert s[1..] == rest;
    } else {
      ByteRoundTrip(128 + v % 128);
      assert s[1..] == Varint(v / 128) + rest;
      TailRoundTrip(v % 128, 1, v / 128, rest);
    }
  }

  // Behind the bits that fit, the last group of a number has no way to look like a sign.
  lemma {:induction false} WideTail(result: nat, i: nat, v: nat, rest: String)
    requires 5 <= i <= 8 && 0 < v < Power(128, 9 - i) && result < TWO_32
    ensures Varint32Tail(result, 7 * i, Varint(v) + rest) == Failed
    decreases 8 - i
  {
    hide EncodeByte, DecodeByte;
    var s := Varint(v) + rest;
    if v < 128 {
      ByteRoundTrip(v);
    } else {
      ByteRoundTrip(128 + v % 128);
      assert s[1..] == Varint(v / 128) + rest;
      assert v / 128 < Power(128, 8 - i);
      assert i < 8;
      WideTail(result, i + 1, v / 128, rest);
    }
  }

  lemma {:induction false} LongTail(result: nat, i: nat, v: nat, rest: String)
    requires 1 <= i <= 4 && Left(i) <= v < Power(128, 9 - i) && result < TWO_32
    ensures Varint32Tail(result, 7 * i, Varint(v) + rest) == Failed
    decreases 4 - i
  {
    hide EncodeByte, DecodeByte, WithGroup;
    var s := Varint(v) + rest;
    if v < 128 {
      ByteRoundTrip(v);
    } else {
      ByteRoundTrip(128 + v % 128);
      assert s[1..] == Varint(v / 128) + rest;
      assert v / 128 < Power(128, 8 - i);
      var more := WithGroup(result, 7 * i, 128 + v % 128);
      if i < 4 {
        LongTail(more, i + 1, v / 128, rest);
      } else {
        WideTail(more, i + 1, v / 128, rest);
      }
    }
  }

  // A number that is too wide is refused by the 32-bit reader, never cut short.
  lemma Varint32Refuses(v: nat, rest: String)
    requires TWO_32 <= v < TWO_64 / 2
    ensures ReadVarint32(Varint(v) + rest) == Failed && Varint64At(Varint(v) + rest) == Parsed(v, rest)
  {
    hide EncodeByte, DecodeByte, Varint32Tail, Varint64At, Varint, Power;
    var s := Varint(v) + rest;
    ByteRoundTrip(128 + v % 128);
    MoreGroups(v);
    assert s[0] == EncodeByte(128 + v % 128) && s[1..] == Varint(v / 128) + rest;
    EightPowers();
    LongTail(v % 128, 1, v / 128, rest);
    Varint64RoundTrip(v, rest);
  }

  lemma MoreGroups(v: nat)
    requires v >= 128
    ensures Varint(v) == [EncodeByte(128 + v % 128)] + Varint(v / 128)
  {
    hide EncodeByte;
  }

  lemma EightPowers()
    ensures Power(128, 8) == 0x100_0000_0000_0000
  {
    NinePowers();
    NextPower(8);
  }

  // ---- What follows does not matter ----

  lemma {:induction false} TailExtends(result: nat, bitpos: nat, s: String, t: String)
    requires result < TWO_32 && Varint32Tail(result, bitpos, s).Parsed?
    ensures var p := Varint32Tail(result, bitpos, s); Varint32Tail(result, bitpos, s + t) == Parsed(p.value, p.rest + t)
    decreases |s|
  {
    hide DecodeByte, BadExtension, WithGroup;
    var byte := DecodeByte(s[0]);
    assert (s + t)[0] == s[0] && (s + t)[1..] == s[1..] + t;
    if byte >= 128 {
      TailExtends(WithGroup(result, bitpos, byte), (bitpos + 7) % 256, s[1..], t);
    }
  }

  lemma NumberExtends(s: String, t: String)
    requires ReadVarint32(s).Parsed?
    ensures var p := ReadVarint32(s); ReadVarint32(s + t) == Parsed(p.value, p.rest + t)
  {
    hide DecodeByte, Varint32Tail;
    var byte := DecodeByte(s[0]);
    assert (s + t)[0] == s[0] && (s + t)[1..] == s[1..] + t;
    if byte >= 128 {
      TailExtends(byte - 128, 7, s[1..], t);
    }
  }

  lemma TagExtends(s: String, t: String)
    requires ReadTag(s).Tag?
    ensures ReadTag(s + t) == Tag(ReadTag(s).tag, ReadTag(s).wireType, ReadTag(s).rest + t) && s + t != []
  {
    hide ReadVarint32;
    NumberExtends(s, t);
  }

  lemma {:induction false} VarintExtends(s: String, t: String)
    requires AfterVarint(s).Some?
    ensures AfterVarint(s + t) == Some(AfterVarint(s).value + t)
  {
    hide DecodeByte;
    assert (s + t)[0] == s[0] && (s + t)[1..] == s[1..] + t;
    if DecodeByte(s[0]) >= 128 {
      VarintExtends(s[1..], t);
    }
  }

  lemma FrontExtends(s: String, n: nat, t: String)
    requires n <= |s|
    ensures Front(s + t, n) == Parsed(s[..n], s[n..] + t)
  {
    assert (s + t)[..n] == s[..n] && (s + t)[n..] == s[n..] + t;
  }

  lemma FieldExtends(s: String, wireType: nat, t: String)
    requires AfterField(s, wireType).Some?
    ensures AfterField(s + t, wireType) == Some(AfterField(s, wireType).value + t)
  {
    hide ReadVarint32, AfterVarint;
    if wireType == WT_VARINT {
      VarintExtends(s, t);
    } else if wireType == WT_64BIT {
      FrontExtends(s, 8, t);
    } else if wireType == WT_STRING {
      NumberExtends(s, t);
      FrontExtends(ReadVarint32(s).rest, ReadVarint32(s).value, t);
    } else if wireType == WT_32BIT {
      FrontExtends(s, 4, t);
    }
  }

  // ---- Streams ----

  class IStream {
    const input: String
    var state: nat
    var bytesLeft: nat

    function End(): nat
      reads this
    {
      state + bytesLeft
    }

    ghost predicate Valid()
      reads this
    {
      End() <= |input|
    }

    function Rest(): String
      requires Valid()
      reads this
    {
      input[state..End()]
    }

    constructor FromBuffer(buf: String)
      ensures Valid() && Rest() == buf && input == buf && state == 0
    {
      input, state, bytesLeft := buf, 0, |buf|;
    }

    constructor Copy(other: IStream, bytesLeft: nat)
      requires other.Valid() && bytesLeft <= other.bytesLeft
      ensures Valid() && input == other.input && state == other.state && this.bytesLeft == bytesLeft
    {
      input, state, this.bytesLeft := other.input, other.state, bytesLeft;
    }

    // pb_read
    method Read(count: nat) returns (ok: bool, buf: String)
      requires Valid()
      modifies this
      ensures Valid() && End() == old(End())
      ensures ok == Front(old(Rest()), count).Parsed?
      ensures ok ==> Front(old(Rest()), count) == Parsed(buf, Rest())
    {
      if count == 0 {
        assert Rest()[..0] == [] && Rest()[0..] == Rest();
        return true, [];
      }
      if bytesLeft < count {
        return false, [];
      }
      ok, buf := true, input[state..state + count];
      state := state + count;
      bytesLeft := bytesLeft - count;
      assert buf == old(Rest())[..count] && Rest() == old(Rest())[count..];
    }

    // pb_readbyte
    method ReadByte() returns (ok: bool, byte: nat)
      requires Valid()
      modifies this
      ensures Valid() && End() == old(End()) && byte < 256
      ensures ok == (old(Rest()) != [])
      ensures ok ==> byte == DecodeByte(old(Rest())[0]) && Rest() == old(Rest())[1..]
      ensures !ok ==> Rest() == old(Rest())
    {
      hide DecodeByte;
      if bytesLeft == 0 {
        return false, 0;
      }
      ok, byte := true, DecodeByte(input[state]);
      state := state + 1;
      bytesLeft := bytesLeft - 1;
      assert Rest() == old(Rest())[1..];
    }

    // pb_decode_varint32_eof; pb_decode_varint32 is the same without the last result.
    method DecodeVarint32() returns (ok: bool, dest: nat, eof: bool)
      requires Valid()
      modifies this
      ensures Valid() && End() == old(End())
      ensures ok == ReadVarint32(old(Rest())).Parsed?
      ensures ok ==> ReadVarint32(old(Rest())) == Parsed(dest, Rest())
      ensures eof == (old(Rest()) == []) && (eof ==> Rest() == [])
    {
      hide DecodeByte, BadExtension, WithGroup, Front;
      dest, eof := 0, false;
      var byte;
      ok, byte := ReadByte();
      if !ok {
        eof := bytesLeft == 0;
        return;
      }
      if byte < 128 {
        dest := byte;
        return;
      }
      var bitpos: nat, result: nat := 7, byte - 128;
      ok := false;
      while true
        invariant Valid() && End() == old(End()) && result < TWO_32 && !eof && !ok
        invariant ReadVarint32(old(Rest())) == Varint32Tail(result, bitpos, Rest())
        decreases |Rest()|
      {
        var more;
        more, byte := ReadByte();
        if !more {
          return;
        }
        if BadExtension(result, bitpos, byte) {
          return;
        }
        result := WithGroup(result, bitpos, byte);
        bitpos := (bitpos + 7) % 256;
        if byte < 128 {
          break;
        }
      }
      if bitpos == 35 && byte / 16 % 8 != 0 {
        return;
      }
      ok, dest := true, result;
    }

    // pb_decode_varint
    method DecodeVarint() returns (ok: bool, dest: nat)
      requires Valid()
      modifies this
      ensures Valid() && End() == old(End())
      ensures ok == Varint64At(old(Rest())).Parsed?
      ensures ok ==> Varint64At(old(Rest())) == Parsed(dest, Rest())
    {
      hide *;
      ghost var s := Rest();
      var bitpos: nat, result: nat, byte := 0, 0, 0;
      ghost var i: nat := 0;
      NoGroupYet(s);
      while true
        invariant Valid() && End() == old(End()) && i <= 10 && bitpos == 7 * i
        invariant i < 10 ==> GroupsRead(s, result, i, Rest())
        invariant i == 10 ==> Varint64At(s) == Failed
        decreases 10 - i
      {
        if bitpos >= 64 {
          return false, 0;
        }
        var more;
        OneGroup(s, result, i, Rest());
        more, byte := ReadByte();
        if !more {
          return false, 0;
        }
        result := WithGroup64(result, bitpos, byte);
        bitpos := bitpos + 7;
        i := i + 1;
        if byte < 128 {
          return true, result;
        }
      }
    }

    // pb_skip_varint
    method SkipVarint() returns (ok: bool)
      requires Valid()
      modifies this
      ensures Valid() && End() == old(End())
      ensures ok == AfterVarint(old(Rest())).Some?
      ensures ok ==> AfterVarint(old(Rest())) == Some(Rest())
    {
      hide DecodeByte;
      while true
        invariant Valid() && End() == old(End()) && AfterVarint(old(Rest())) == AfterVarint(Rest())
        decreases |Rest()|
      {
        ghost var rest := Rest();
        var byte;
        ok, byte := Read(1);
        if !ok {
          return;
        }
        assert byte[0] == rest[0];
        if DecodeByte(byte[0]) < 128 {
          return;
        }
      }
    }

    // pb_skip_string
    method SkipString() returns (ok: bool)
      requires Valid()
      modifies this
      ensures Valid() && End() == old(End())
      ensures ok == DelimitedAt(old(Rest())).Parsed?
      ensures ok ==> DelimitedAt(old(Rest())).rest == Rest()
    {
      hide ReadVarint32, Front;
      var length, eof, skipped;
      ok, length, eof := DecodeVarint32();
      if ok {
        ok, skipped := Read(length);
      }
    }

    // pb_skip_field
    method SkipField(wireType: nat) returns (ok: bool)
      requires Valid()
      modifies this
      ensures Valid() && End() == old(End())
      ensures ok == AfterField(old(Rest()), wireType).Some?
      ensures ok ==> AfterField(old(Rest()), wireType) == Some(Rest())
    {
      hide DelimitedAt, Front, AfterVarint;
      var skipped;
      if wireType == WT_VARINT {
        ok := SkipVarint();
      } else if wireType == WT_64BIT {
        ok, skipped := Read(8);
      } else if wireType == WT_STRING {
        ok := SkipString();
      } else if wireType == WT_32BIT {
        ok, skipped := Read(4);
      } else {
        ok := false;
      }
    }

    // pb_decode_tag
    method DecodeTag() returns (ok: bool, wireType: nat, tag: nat, eof: bool)
      requires Valid()
      modifies this
      ensures Valid() && End() == old(End())
      ensures ok == ReadTag(old(Rest())).Tag?
      ensures ok ==> ReadTag(old(Rest())) == Tag(tag, wireType, Rest())
      ensures !ok ==> eof == ReadTag(old(Rest())).Ended? && (eof ==> ReadTag(old(Rest())) == Ended(Rest()))
    {
      hide ReadVarint32;
      wireType, tag := 0, 0;
      var temp;
      ok, temp, eof := DecodeVarint32();
      if ok {
        if temp == 0 {
          return false, wireType, tag, true;
        }
        tag, wireType := temp / 8, temp % 8;
      }
    }

    // pb_make_string_substream: a stream for the contents, which this one leaves out.
    method MakeStringSubstream() returns (ok: bool, substream: IStream)
      requires Valid()
      modifies this
      ensures Valid() && fresh(substream) && substream.Valid() && substream.input == input
      ensures ok == DelimitedAt(old(Rest())).Parsed?
      ensures ok ==> substream.state == state && substream.bytesLeft + bytesLeft + state == old(End())
      ensures ok ==> DelimitedAt(old(Rest())) == Parsed(substream.Rest(), input[substream.End()..old(End())])
      ensures !ok ==> End() == old(End())
    {
      hide ReadVarint32;
      var size, eof;
      ok, size, eof := DecodeVarint32();
      if !ok || bytesLeft < size {
        substream := new IStream.Copy(this, 0);
        return false, substream;
      }
      substream := new IStream.Copy(this, size);
      ghost var rest := Rest();
      bytesLeft := bytesLeft - size;
      assert substream.Rest() == rest[..size];
    }

    // pb_close_string_substream: goes on behind the contents.
    method CloseStringSubstream(substream: IStream) returns (ok: bool)
      requires Valid() && substream.Valid() && substream != this && substream.input == input
      requires substream.End() + bytesLeft <= |input|
      modifies this, substream
      ensures ok && Valid() && End() == old(substream.End() + bytesLeft)
      ensures Rest() == input[old(substream.End())..old(substream.End() + bytesLeft)]
    {
      if substream.bytesLeft > 0 {
        var skipped;
        ok, skipped := substream.Read(substream.bytesLeft);
      }
      state := substream.state;
      ok := true;
    }
  }

  // The 64-bit reader took i groups of s and has the rest before it.
  ghost predicate GroupsRead(s: String, result: nat, i: nat, rest: String) {
    i < 10 && result < Power(128, i) && ParseVarint(s, 10) == Scaled(result, Power(128, i), ParseVarint(rest, 10 - i))
  }

  lemma NoGroupYet(s: String)
    ensures GroupsRead(s, 0, 0, s)
  {
    hide ParseVarint;
    FirstGroup(ParseVarint(s, 10), 10);
  }

  function WithGroup64(result: nat, bitpos: nat, byte: nat): nat {
    Truncate(Or(result, byte % 128 * Power(2, bitpos)), TWO_64)
  }

  function Grouped(low: nat, i: nat, byte: nat): nat {
    low + byte % 128 * Power(128, i)
  }

  lemma GroupFacts(low: nat, i: nat, s: String)
    requires i < 10 && low < Power(128, i) && s != []
    ensures var byte := DecodeByte(s[0]);
            && Scaled(low, Power(128, i), ParseVarint(s, 10 - i))
               == (if byte < 128 then Parsed(Grouped(low, i, byte), s[1..])
                   else Scaled(Grouped(low, i, byte), Power(128, i + 1), ParseVarint(s[1..], 9 - i)))
            && WithGroup64(low, 7 * i, byte) == Truncate(Grouped(low, i, byte), TWO_64)
            && Grouped(low, i, byte) < Power(128, i + 1)
            && (i < 9 ==> Power(128, i + 1) <= TWO_64)
  {
    hide DecodeByte, Or, Power, Scaled, ParseVarint;
    var byte := DecodeByte(s[0]);
    NextGroup(low, Power(128, i), s, 10 - i);
    TenthGroup(low, i, byte);
    OrGroup(low, i, byte);
  }

  lemma OneGroup(s: String, result: nat, i: nat, rest: String)
    requires GroupsRead(s, result, i, rest)
    ensures rest == [] ==> Varint64At(s) == Failed
    ensures rest != [] ==>
              var byte := DecodeByte(rest[0]);
              var r := WithGroup64(result, 7 * i, byte);
              && (byte < 128 ==> Varint64At(s) == Parsed(r, rest[1..]))
              && (byte >= 128 && i < 9 ==> GroupsRead(s, r, i + 1, rest[1..]))
              && (byte >= 128 && i == 9 ==> Varint64At(s) == Failed)
  {
    hide DecodeByte, Or, Power, Scaled, ParseVarint, WithGroup64, Grouped, Truncated, Truncate;
    NothingRead(TWO_64);
    if rest == [] {
      NextGroup(result, Power(128, i), rest, 10 - i);
    } else {
      var byte := DecodeByte(rest[0]);
      GroupFacts(result, i, rest);
      RegisterHolds(Grouped(result, i, byte), rest[1..]);
      LastGroup(Grouped(result, i, byte), Power(128, i + 1), rest[1..]);
    }
  }

  lemma RegisterHolds(v: nat, rest: String)
    ensures Truncated(Parsed(v, rest), TWO_64) == Parsed(Truncate(v, TWO_64), rest)
  {
  }

  // A group of the 64-bit reader; of the tenth one, the lowest bit fits.
  lemma TenthGroup(low: nat, i: nat, byte: nat)
    requires i < 10 && low < Power(128, i) && byte < 256
    ensures low + byte % 128 * Power(128, i) < Power(128, i) * 128 == Power(128, i + 1)
    ensures i < 9 ==> Power(128, i + 1) <= TWO_64
  {
    hide Power;
    var scale, group := Power(128, i), byte % 128;
    GroupBound(group, scale);
    NextPower(i);
    if i < 9 {
      NinePowers();
      PowerGrows(128, i + 1, 9);
    }
  }

  lemma GroupBound(group: nat, scale: nat)
    requires group < 128
    ensures group * scale + scale <= 128 * scale
  {
    hide *;
    assert (127 - group) * scale >= 0;
  }

  lemma NextPower(i: nat)
    ensures Power(128, i) * 128 == Power(128, i + 1)
  {
  }

  lemma NinePowers()
    ensures Power(128, 9) == TWO_64 / 2
  {
    PowersOf128();
    NextPower(9);
  }

  lemma OrGroup(low: nat, i: nat, byte: nat)
    requires low < Power(128, i)
    ensures Or(low, byte % 128 * Power(2, 7 * i)) == low + byte % 128 * Power(128, i)
  {
    PowerOf128(i);
    OrAbove(low, byte % 128, 7 * i);
  }
}
