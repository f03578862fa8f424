/** nanopb: the wire types in front of the fields, and a reader that goes by them alone. Numbers of wire types
    are written out here as the encoding of protocol buffers has them: 0 for a varint, 1 for eight bytes, 2 for
    a length and what it announces, 5 for four bytes. */
module ProtobufSkips {
  import opened Bytes
  import opened Coding
  import opened Options
  import opened Spellings
  import opened ProtobufFields
  import opened ProtobufInput
  import opened ProtobufEncoders
  import opened ProtobufDecoders
  import opened ProtobufRoundTrips

  lemma {:induction false} VarintSkipped(v: nat, rest: String)
    ensures AfterVarint(Varint(v) + rest) == Some(rest)
    decreases v
  {
    hide EncodeByte, DecodeByte;
    var s := Varint(v) + rest;
    if v < 128 {
      ByteRoundTrip(v);
      assert s[1..] == rest;
    } else {
      ByteRoundTrip(128 + v % 128);
      assert s[1..] == Varint(v / 128) + rest;
      VarintSkipped(v / 128, rest);
    }
  }

  lemma FrontSkipped(e: String, rest: String)
    ensures Behind(Front(e + rest, |e|)) == Some(rest)
  {
    assert (e + rest)[|e|..] == rest;
  }

  lemma DelimitedSkipped(e: String, rest: String)
    requires |Delimited(e)| < TWO_32
    ensures AfterField(Delimited(e) + rest, 2) == Some(rest)
  {
    hide DelimitedAt, Delimited;
    DelimitedIsLonger(e);
    DelimitedReads(e, rest);
  }

  // A reader that only knows the wire type comes out right behind the item.
  lemma ItemSkipped(f: Field, v: Value, rest: String)
    requires ShapedValue(f, v) && Item(f, v).Some? && |Item(f, v).value| < TWO_32
    ensures f.kind.LBool? || f.kind.LVarint? || f.kind.LUvarint? || f.kind.LSvarint? ==> AfterField(Item(f, v).value + rest, 0) == Some(rest)
    ensures f.kind.LFixed64? ==> AfterField(Item(f, v).value + rest, 1) == Some(rest)
    ensures f.kind.LBytes? || f.kind.LString? || f.kind.LFixedLengthBytes? || f.kind.LSubmessage? ==>
              AfterField(Item(f, v).value + rest, 2) == Some(rest)
    ensures f.kind.LFixed32? ==> AfterField(Item(f, v).value + rest, 5) == Some(rest)
  {
    hide Varint, Fixed, Delimited, AfterVarint, Front, DelimitedAt, TextOf, Encoding, Unsigned64, ZigZag, Shaped;
    var e := Item(f, v).value;
    match f.kind {
      case LBool => VarintSkipped(OneIf(v.n != 0), rest);
      case LVarint => Cast64(v.n); VarintSkipped(Unsigned64(v.n), rest);
      case LUvarint => VarintSkipped(v.n, rest);
      case LSvarint => VarintSkipped(ZigZag(v.n), rest);
      case LFixed32 => FrontSkipped(e, rest);
      case LFixed64 => FrontSkipped(e, rest);
      case LBytes => DelimitedSkipped(v.bytes, rest);
      case LString => DelimitedSkipped(TextOf(v.bytes), rest);
      case LFixedLengthBytes => DelimitedSkipped(v.bytes, rest);
      case LSubmessage => DelimitedSkipped(Encoding(f.sub, v.cells).value, rest);
    }
  }

  // ---- What stands behind the wire type ----

  lemma NumberSpelled(n: nat)
    requires n < TWO_64
    ensures Spells(Varint(n), Number64(n))
  {
    hide Varint, ParseVarint, IsGroups, Sum, Power;
    PowersOf128();
    VarintRoundTrip(n, 10, []);
    assert Varint(n) + [] == Varint(n);
    var g := ReadAreGroups(Varint(n), 10);
    assert g + [] == g;
  }

  lemma TextOfSize(size: nat)
    requires size < TWO_32
    ensures Spells(Varint(size), Number32(size))
  {
    hide Varint, ParseVarint, IsGroups, Sum, Power;
    PowersOf128();
    VarintRoundTrip(size, 5, []);
    assert Varint(size) + [] == Varint(size);
    var g := ReadAreGroups(Varint(size), 5);
    assert g + [] == g;
  }

  lemma DelimitedSpelled(e: String)
    requires |e| < TWO_32
    ensures Spells(Delimited(e), Text(e))
  {
    hide Varint, Spells;
    TextOfSize(|e|);
    TextSpelled(Varint(|e|), e);
  }

  lemma FixedIs(v: nat, n: nat)
    ensures forall k :: 0 <= k < n ==> Fixed(v, n)[k] as int == v / Power(256, k) % 256
  {
    hide Fixed, Power;
    forall k | 0 <= k < n
      ensures Fixed(v, n)[k] as int == v / Power(256, k) % 256
    {
      FixedAt(v, n, k);
    }
  }

  // The bytes of an item in the words of the format: a truth value is 0 or 1, a negative int32 or int64 is the
  // number 2^64 above it, a sint alternates between positive and negative numbers, fixed numbers have their
  // lowest byte first, and everything else has its length in front.
  lemma ItemSpelled(f: Field, v: Value)
    requires ShapedValue(f, v) && Item(f, v).Some? && |Item(f, v).value| < TWO_32
    ensures f.kind.LBool? ==> Spells(Item(f, v).value, Number64(if v.n == 0 then 0 else 1))
    ensures f.kind.LVarint? ==> Spells(Item(f, v).value, Number64(if v.n >= 0 then v.n else 0x1_0000_0000_0000_0000 + v.n))
    ensures f.kind.LUvarint? ==> Spells(Item(f, v).value, Number64(v.n))
    ensures f.kind.LSvarint? ==> Spells(Item(f, v).value, Number64(if v.n >= 0 then 2 * v.n else -2 * v.n - 1))
    ensures f.kind.LFixed32? ==> |Item(f, v).value| == 4 && forall k :: 0 <= k < 4 ==> Item(f, v).value[k] as int == v.n / Power(256, k) % 256
    ensures f.kind.LFixed64? ==> |Item(f, v).value| == 8 && forall k :: 0 <= k < 8 ==> Item(f, v).value[k] as int == v.n / Power(256, k) % 256
    ensures f.kind.LBytes? || f.kind.LFixedLengthBytes? ==> Spells(Item(f, v).value, Text(v.bytes))
    ensures f.kind.LString? ==> Spells(Item(f, v).value, Text(TextOf(v.bytes)))
    ensures f.kind.LSubmessage? ==> Encoding(f.sub, v.cells).Some? && Spells(Item(f, v).value, Text(Encoding(f.sub, v.cells).value))
  {
    hide Varint, Fixed, Delimited, Spells, Power, TextOf, Encoding, Unsigned64, ZigZag, Shaped;
    match f.kind {
      case LBool => NumberSpelled(OneIf(v.n != 0));
      case LVarint => Wrapped64(v.n); NumberSpelled(Unsigned64(v.n));
      case LUvarint => NumberSpelled(v.n);
      case LSvarint => ZigZagBack(v.n); ZigZagIs(v.n); NumberSpelled(ZigZag(v.n));
      case LFixed32 => FixedIs(v.n, 4);
      case LFixed64 => FixedIs(v.n, 8);
      case LBytes => DelimitedIsLonger(v.bytes); DelimitedSpelled(v.bytes);
      case LString => DelimitedIsLonger(TextOf(v.bytes)); DelimitedSpelled(TextOf(v.bytes));
      case LFixedLengthBytes => DelimitedIsLonger(v.bytes); DelimitedSpelled(v.bytes);
      case LSubmessage => DelimitedIsLonger(Encoding(f.sub, v.cells).value); DelimitedSpelled(Encoding(f.sub, v.cells).value);
    }
  }

  lemma Wrapped64(n: int)
    requires -0x8000_0000_0000_0000 <= n < 0x1_0000_0000_0000_0000
    ensures Unsigned64(n) == if n >= 0 then n else 0x1_0000_0000_0000_0000 + n
  {
  }

  lemma ZigZagIs(n: int)
    ensures ZigZag(n) == if n >= 0 then 2 * n else -2 * n - 1
  {
  }

  lemma KeyIs(tag: nat, wireType: nat, tail: String)
    requires 0 < tag <= MAX_TAG && wireType < 8
    ensures Key(wireType, tag) == Varint(8 * tag + wireType)
    ensures ReadTag(Key(wireType, tag) + tail) == Tag(tag, wireType, tail)
  {
    hide Varint, ReadVarint32;
    Varint32Reads(8 * tag + wireType, tail);
  }

  // A record as a reader that knows nothing but the format sees it: its key gives the field number and a wire
  // type that leads right behind it.
  ghost predicate IsRecord(e: String, tag: nat, wireType: nat) {
    && Varint(8 * tag + wireType) <= e
    && forall rest: String :: ReadTag(e + rest) == Tag(tag, wireType, e[|Varint(8 * tag + wireType)|..] + rest)
                              && AfterField(e[|Varint(8 * tag + wireType)|..] + rest, wireType) == Some(rest)
  }

  lemma RecordIs(tag: nat, wireType: nat, item: String)
    requires 0 < tag <= MAX_TAG && wireType < 8
    requires forall rest: String :: AfterField(item + rest, wireType) == Some(rest)
    ensures IsRecord(Key(wireType, tag) + item, tag, wireType)
  {
    hide Varint, ReadTag, AfterField, Key;
    var e := Key(wireType, tag) + item;
    KeyIs(tag, wireType, item);
    assert e[|Key(wireType, tag)|..] == item;
    forall rest: String
      ensures ReadTag(e + rest) == Tag(tag, wireType, item + rest)
    {
      KeyIs(tag, wireType, item + rest);
      Assoc(Key(wireType, tag), item, rest);
    }
  }

  // What pb_encode writes for an entry of a field is such a record, and its wire type is the one of the format.
  lemma EntryIsRecord(f: Field, v: Value)
    requires WellFormedField(f) && ShapedValue(f, v) && Entry(f, v, true).Some? && |Entry(f, v, true).value| < TWO_32
    ensures f.kind.LBool? || f.kind.LVarint? || f.kind.LUvarint? || f.kind.LSvarint? ==> IsRecord(Entry(f, v, true).value, f.tag, 0)
    ensures f.kind.LFixed64? ==> IsRecord(Entry(f, v, true).value, f.tag, 1)
    ensures f.kind.LBytes? || f.kind.LString? || f.kind.LFixedLengthBytes? || f.kind.LSubmessage? ==>
              IsRecord(Entry(f, v, true).value, f.tag, 2)
    ensures f.kind.LFixed32? ==> IsRecord(Entry(f, v, true).value, f.tag, 5)
  {
    hide Item, Key, AfterField, WellFormedField, ShapedValue, IsRecord;
    TagIsPositive(f);
    var item := Item(f, v).value;
    forall rest: String
      ensures AfterField(item + rest, WireType(f.kind)) == Some(rest)
    {
      ItemSkipped(f, v, rest);
    }
    RecordIs(f.tag, WireType(f.kind), item);
  }

  // A packed array is one record with a length.
  lemma PackedIsRecord(f: Field, items: seq<Value>)
    requires WellFormedField(f) && forall k :: 0 <= k < |items| ==> ShapedValue(f, items[k])
    requires Packed(f, items).Some? && |Packed(f, items).value| < TWO_32
    ensures IsRecord(Packed(f, items).value, f.tag, 2)
  {
    hide Key, AfterField, WellFormedField, ShapedValue, IsRecord, Delimited, EntriesFrom;
    TagIsPositive(f);
    var contents := EntriesFrom(f, items, 0, false).value;
    forall rest: String
      ensures AfterField(Delimited(contents) + rest, 2) == Some(rest)
    {
      DelimitedSkipped(contents, rest);
    }
    RecordIs(f.tag, 2, Delimited(contents));
  }

  // ---- A field of another descriptor ----

  ghost predicate NotIn(d: Descriptor, tag: nat) {
    forall i :: 0 <= i < |d.fields| ==> d.fields[i].tag != tag
  }

  lemma RecordSkipped(d: Descriptor, st: State, e: String, tag: nat, wireType: nat, rest: String)
    requires WellFormed(d) && Shaped(d, st.cells) && tag > 0 && NotIn(d, tag) && IsRecord(e, tag, wireType)
    ensures Run(d, st, e + rest) == Run(d, st, rest)
  {
    hide WellFormed, Shaped, Run, ReadTag, AfterField, Varint;
    RunUnknown(d, st, e + rest);
    assert (e + rest)[0] == e[0];
  }

  lemma EntrySkipped(d: Descriptor, st: State, f: Field, v: Value, rest: String)
    requires WellFormed(d) && Shaped(d, st.cells) && WellFormedField(f) && NotIn(d, f.tag)
    requires ShapedValue(f, v) && Entry(f, v, true).Some? && |Entry(f, v, true).value| < TWO_32
    ensures Run(d, st, Entry(f, v, true).value + rest) == Run(d, st, rest)
  {
    hide WellFormed, Shaped, Run, IsRecord, Entry, ShapedValue, WellFormedField;
    EntryIsRecord(f, v);
    TagIsPositive(f);
    RecordSkipped(d, st, Entry(f, v, true).value, f.tag,
                  if f.kind.LFixed64? then 1 else if f.kind.LFixed32? then 5
                  else if f.kind.LBytes? || f.kind.LString? || f.kind.LFixedLengthBytes? || f.kind.LSubmessage? then 2 else 0, rest);
  }

  lemma {:induction false} EntriesSkipped(d: Descriptor, st: State, f: Field, items: seq<Value>, k: nat, rest: String)
    requires WellFormed(d) && Shaped(d, st.cells) && WellFormedField(f) && NotIn(d, f.tag)
    requires k <= |items| && forall j :: 0 <= j < |items| ==> ShapedValue(f, items[j])
    requires EntriesFrom(f, items, k, true).Some? && |EntriesFrom(f, items, k, true).value| < TWO_32
    ensures Run(d, st, EntriesFrom(f, items, k, true).value + rest) == Run(d, st, rest)
    decreases |items| - k
  {
    hide WellFormed, Shaped, Run, Entry, ShapedValue, WellFormedField;
    if k == |items| {
      assert [] + rest == rest;
    } else {
      var e, more := Entry(f, items[k], true).value, EntriesFrom(f, items, k + 1, true).value;
      Assoc(e, more, rest);
      EntrySkipped(d, st, f, items[k], more + rest);
      EntriesSkipped(d, st, f, items, k + 1, rest);
    }
  }

  // All that pb_encode writes for a field, of any rule, is passed over by a decoder whose descriptor does not
  // have the tag.
  lemma FieldSkipped(d: Descriptor, st: State, f: Field, c: Cell, rest: String)
    requires WellFormed(d) && Shaped(d, st.cells) && WellFormedField(f) && NotIn(d, f.tag)
    requires ShapedCell(f, c) && FieldBytes(f, c).Some? && |FieldBytes(f, c).value| < TWO_32
    ensures Run(d, st, FieldBytes(f, c).value + rest) == Run(d, st, rest)
  {
    hide WellFormed, Shaped, Run, IsRecord, Entry, ShapedValue, WellFormedField, EntriesFrom, Packed;
    if f.Array() {
      ArraySkipped(d, st, f, c, rest);
    } else if f.rule.Required? || (f.rule.Optional? && c.size != 0) || (f.rule.OneOf? && c.size == f.tag) {
      EntrySkipped(d, st, f, c.items[0], rest);
    } else {
      assert [] + rest == rest;
    }
  }

  lemma ArraySkipped(d: Descriptor, st: State, f: Field, c: Cell, rest: String)
    requires WellFormed(d) && Shaped(d, st.cells) && WellFormedField(f) && NotIn(d, f.tag) && f.Array()
    requires ShapedCell(f, c) && FieldBytes(f, c).Some? && |FieldBytes(f, c).value| < TWO_32
    ensures Run(d, st, FieldBytes(f, c).value + rest) == Run(d, st, rest)
  {
    hide WellFormed, Shaped, Run, IsRecord, FieldBytes, ShapedCell, ShapedValue, WellFormedField, EntriesFrom, Packed;
    var count := if f.rule.FixedCount? then f.arraySize else c.size;
    ArrayParts(f, c, count);
    var items := c.items[..count];
    if count == 0 {
      assert [] + rest == rest;
    } else if f.Packable() {
      PackedIsRecord(f, items);
      TagIsPositive(f);
      RecordSkipped(d, st, Packed(f, items).value, f.tag, 2, rest);
    } else {
      EntriesSkipped(d, st, f, items, 0, rest);
    }
  }

  // Wire types that are none of the four, and records that their bytes end within, are refused.
  lemma SkippedExactlyWhen(s: String, wireType: nat)
    ensures wireType == 1 ==> AfterField(s, wireType) == if |s| >= 8 then Some(s[8..]) else None
    ensures wireType == 5 ==> AfterField(s, wireType) == if |s| >= 4 then Some(s[4..]) else None
    ensures wireType != 0 && wireType != 1 && wireType != 2 && wireType != 5 ==> AfterField(s, wireType).None?
    ensures wireType == 0 ==> (AfterField(s, wireType).Some? <==> exists k :: 0 <= k < |s| && s[k] < 0x80)
    ensures wireType == 0 ==> forall k :: 0 <= k < |s| && s[k] < 0x80 && (forall j :: 0 <= j < k ==> s[j] >= 0x80) ==>
                                AfterField(s, wireType) == Some(s[k + 1..])
  {
    hide DelimitedAt, DecodeByte;
    VarintEnds(s);
  }

  lemma {:induction false} VarintEnds(s: String)
    ensures AfterVarint(s).Some? <==> exists k :: 0 <= k < |s| && s[k] < 0x80
    ensures forall k :: 0 <= k < |s| && s[k] < 0x80 && (forall j :: 0 <= j < k ==> s[j] >= 0x80) ==> AfterVarint(s) == Some(s[k + 1..])
  {
    hide DecodeByte;
    if s != [] {
      DecodeIsValue(s[0]);
      HighBit(s[0]);
      VarintEnds(s[1..]);
      if s[0] >= 0x80 {
        assert forall k :: 0 < k < |s| ==> s[k] == s[1..][k - 1] && s[k + 1..] == s[1..][k..];
      }
    }
  }

  lemma HighBit(b: Byte)
    ensures b as int >= 128 <==> b >= 0x80
  {
  }
}
