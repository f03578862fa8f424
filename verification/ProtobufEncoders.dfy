/** nanopb, pb_encode.c: output streams that write or only count, and the encoder driven by descriptors. */
module ProtobufEncoders {
  import opened Bytes
  import opened Coding
  import opened Options
  import opened ProtobufFields

  // ---- The encoding of a message, without a stream ----

  function Join(a: Option<String>, b: Option<String>): Option<String> {
    if a.Some? && b.Some? then Some(a.value + b.value) else None
  }

  function WireType(kind: Kind): (wt: nat)
    ensures wt < 8
  {
    match kind
    case LBool => WT_VARINT
    case LVarint => WT_VARINT
    case LUvarint => WT_VARINT
    case LSvarint => WT_VARINT
    case LFixed32 => WT_32BIT
    case LFixed64 => WT_64BIT
    case _ => WT_STRING
  }

  function Key(wireType: nat, tag: nat): String {
    Varint(8 * tag + wireType)
  }

  // A length and as many bytes.
  function Delimited(e: String): String {
    Varint(Wrapped(|e|)) + e
  }

  // The cast of a size to 64 bits.
  function Wrapped(size: nat): (n: nat)
    ensures n < TWO_64 && (size < TWO_64 ==> n == size)
  {
    size % TWO_64
  }

  // The cast of a signed 64-bit number to an unsigned one.
  function Unsigned64(n: int): nat {
    n % TWO_64
  }

  function ZigZag(n: int): nat {
    if n < 0 then -2 * n - 1 else 2 * n
  }

  // The characters in front of the terminator, or all of them when there is none.
  function TextOf(s: String): (t: String)
    ensures |t| <= |s| && t == s[..|t|] && (forall k :: 0 <= k < |t| ==> s[k] != 0) && (|t| < |s| ==> s[|t|] == 0)
  {
    if s == [] || s[0] == 0 then [] else [s[0]] + TextOf(s[1..])
  }

  // What is written behind the tag.
  ghost function Item(f: Field, v: Value): (e: Option<String>)
    requires ShapedValue(f, v)
    ensures e.Some? ==> |e.value| > 0
    decreases f, 0
  {
    match f.kind
    case LBool => Some(Varint(OneIf(v.n != 0)))
    case LVarint => if IntegerSize(f.dataSize) then Some(Varint(Unsigned64(v.n))) else None
    case LUvarint => if IntegerSize(f.dataSize) then Some(Varint(v.n)) else None
    case LSvarint => if IntegerSize(f.dataSize) then Some(Varint(ZigZag(v.n))) else None
    case LFixed32 => Some(Fixed(v.n, 4))
    case LFixed64 => Some(Fixed(v.n, 8))
    case LBytes => if |v.bytes| + SIZE_BYTES <= f.dataSize then Some(Delimited(v.bytes)) else None
    case LString => Some(Delimited(TextOf(v.bytes)))
    case LFixedLengthBytes => Some(Delimited(v.bytes))
    case LSubmessage =>
      var contents := Encoding(f.sub, v.cells);
      if contents.Some? then Some(Delimited(contents.value)) else None
  }

  // One item, with or without a tag of its own.
  ghost function Entry(f: Field, v: Value, tagged: bool): (e: Option<String>)
    requires ShapedValue(f, v)
    ensures e.Some? ==> |e.value| > 0
    decreases f, 1
  {
    if tagged then Join(Some(Key(WireType(f.kind), f.tag)), Item(f, v)) else Item(f, v)
  }

  // The items from k on of a list.
  ghost function EntriesFrom(f: Field, items: seq<Value>, k: nat, tagged: bool): Option<String>
    requires k <= |items| && forall j :: 0 <= j < |items| ==> ShapedValue(f, items[j])
    decreases f, 2, |items| - k
  {
    if k == |items| then Some([]) else Join(Entry(f, items[k], tagged), EntriesFrom(f, items, k + 1, tagged))
  }

  ghost function Array(f: Field, items: seq<Value>, count: nat): Option<String>
    requires |items| == f.arraySize && forall j :: 0 <= j < |items| ==> ShapedValue(f, items[j])
    decreases f, 3
  {
    if count == 0 then Some([])
    else if count > f.arraySize then None
    else if f.Packable() then
      var contents := EntriesFrom(f, items[..count], 0, false);
      if contents.Some? then Some(Key(WT_STRING, f.tag) + Delimited(contents.value)) else None
    else EntriesFrom(f, items[..count], 0, true)
  }

  // A field: what is there of it, each time with its tag.
  ghost function FieldBytes(f: Field, c: Cell): Option<String>
    requires ShapedCell(f, c)
    decreases f, 4
  {
    match f.rule
    case Required => Entry(f, c.items[0], true)
    case Optional => if c.size != 0 then Entry(f, c.items[0], true) else Some([])
    case OneOf => if c.size == f.tag then Entry(f, c.items[0], true) else Some([])
    case Repeated => Array(f, c.items, c.size)
    case FixedCount => Array(f, c.items, f.arraySize)
  }

  ghost function FieldsFrom(d: Descriptor, cells: seq<Cell>, i: nat): Option<String>
    requires Shaped(d, cells) && i <= |d.fields|
    decreases d, 0, |d.fields| - i
  {
    if i == |d.fields| then Some([])
    else Join(FieldBytes(d.fields[i], cells[CellOf(d, i)]), FieldsFrom(d, cells, i + 1))
  }

  // The fields of a struct in the order of the descriptor.
  ghost function Encoding(d: Descriptor, cells: seq<Cell>): Option<String>
    requires Shaped(d, cells)
    decreases d, 1
  {
    FieldsFrom(d, cells, 0)
  }

  // ---- What a call does to a stream ----

  datatype Room = Limit(sizing: bool, maxSize: nat)
  datatype Mark = Mark(written: nat, output: String)

  // A call that was to write e: it succeeds exactly when e exists and fits, and then e was written, or
  // only counted; in any case no more was written than fits.
  ghost predicate Emits(room: Room, before: Mark, after: Mark, ok: bool, e: Option<String>) {
    && (ok <==> e.Some? && (room.sizing || before.written + |e.value| <= room.maxSize))
    && (ok ==> after == Mark(before.written + |e.value|, before.output + if room.sizing then [] else e.value))
    && InRoom(room, before, after)
  }

  ghost predicate InRoom(room: Room, before: Mark, after: Mark) {
    && before.output <= after.output
    && (room.sizing ==> after.output == before.output)
    && (!room.sizing ==>
          after.written <= room.maxSize && |after.output| - |before.output| == after.written - before.written)
  }

  lemma EmitsNothing(room: Room, before: Mark)
    requires !room.sizing ==> before.written <= room.maxSize
    ensures Emits(room, before, before, true, Some([]))
  {
  }

  lemma EmitsMore(room: Room, before: Mark, mid: Mark, after: Mark, ok: bool, a: Option<String>, b: Option<String>)
    requires Emits(room, before, mid, true, a) && Emits(room, mid, after, ok, b)
    ensures Emits(room, before, after, ok, Join(a, b))
  {
    if ok && !room.sizing {
      Assoc(before.output, a.value, b.value);
    }
  }

  lemma EmitsFailure(room: Room, before: Mark, after: Mark, a: Option<String>, b: Option<String>)
    requires Emits(room, before, after, false, a)
    ensures Emits(room, before, after, false, Join(a, b))
  {
  }

  lemma JoinAssoc(a: Option<String>, b: Option<String>, c: Option<String>)
    ensures Join(a, Join(b, c)) == Join(Join(a, b), c)
  {
    if a.Some? && b.Some? && c.Some? {
      Assoc(a.value, b.value, c.value);
    }
  }

  lemma JoinNothing(a: Option<String>)
    ensures Join(a, Some([])) == a && Join(Some([]), a) == a
  {
    if a.Some? {
      assert a.value + [] == a.value && [] + a.value == a.value;
    }
  }

  class OStream {
    const sizing: bool
    const maxSize: nat
    var bytesWritten: nat
    var output: String

    ghost predicate Valid()
      reads this
    {
      !sizing ==> bytesWritten <= maxSize
    }

    function Space(): Room {
      Limit(sizing, maxSize)
    }

    function Now(): Mark
      reads this
    {
      Mark(bytesWritten, output)
    }

    constructor Sizing()
      ensures Valid() && Space() == Limit(true, 0) && Now() == Mark(0, [])
    {
      sizing, maxSize, bytesWritten, output := true, 0, 0, [];
    }

    constructor FromBuffer(bufsize: nat)
      ensures Valid() && Space() == Limit(false, bufsize) && Now() == Mark(0, [])
    {
      sizing, maxSize, bytesWritten, output := false, bufsize, 0, [];
    }

    // A stream that goes on behind another one, for `size` bytes.
    constructor Within(parent: OStream, size: nat)
      requires !parent.sizing
      ensures Valid() && Space() == Limit(false, size) && Now() == Mark(0, parent.output)
    {
      sizing, maxSize, bytesWritten, output := false, size, 0, parent.output;
    }

    // pb_write: writes these bytes, or counts as many as e has without looking at any.
    method Write(buf: String, count: nat, ghost e: String) returns (ok: bool)
      requires Valid() && |e| == count && (!sizing ==> buf == e)
      modifies this
      ensures Valid() && Emits(Space(), old(Now()), Now(), ok, Some(e))
    {
      if count > 0 && !sizing {
        if bytesWritten + count > maxSize {
          return false;
        }
        output := output + buf;
      }
      bytesWritten := bytesWritten + count;
      ok := true;
    }

    method Put(buf: String) returns (ok: bool)
      requires Valid()
      modifies this
      ensures Valid() && Emits(Space(), old(Now()), Now(), ok, Some(buf))
    {
      ok := Write(buf, |buf|, buf);
    }

    // pb_encode_varint: the groups in a buffer of ten, each marked as continued, and then the last one unmarked.
    method EncodeVarint(value: nat) returns (ok: bool)
      requires Valid() && value < TWO_64
      modifies this
      ensures Valid() && Emits(Space(), old(Now()), Now(), ok, Some(Varint(value)))
    {
      hide Emits, EncodeByte, Power;
      if value <= 0x7F {
        ok := Put([EncodeByte(value)]);
        return;
      }
      var buffer := new Byte[10];
      var i, v := 0, value;
      ghost var w := value;
      TenGroups(value);
      while v != 0
        invariant 0 <= i <= 10 && v < Power(128, 10 - i)
        invariant i == 0 ==> v == value
        invariant i > 0 ==> v == w / 128 && w > 0 && buffer[i - 1] == EncodeByte(128 + w % 128)
        invariant i > 0 ==> buffer[..i - 1] + Varint(w) == Varint(value)
        invariant unchanged(this)
        decreases v
      {
        NextFits(v, 10 - i);
        buffer[i] := EncodeByte(128 + v % 128);
        ghost var before := buffer[..i];
        if i > 0 {
          assert before == buffer[..i - 1] + [EncodeByte(128 + w % 128)];
          Assoc(buffer[..i - 1], [EncodeByte(128 + w % 128)], Varint(v));
        }
        assert before + Varint(v) == Varint(value);
        w := v;
        v := v / 128;
        i := i + 1;
        assert buffer[..i - 1] == before;
      }
      Unmarked(w);
      buffer[i - 1] := buffer[i - 1] & 0x7F;
      assert buffer[..i] == buffer[..i - 1] + [EncodeByte(w)];
      ok := Put(buffer[..i]);
    }
  }

  lemma TenGroups(value: nat)
    requires value < TWO_64
    ensures value < Power(128, 10)
  {
    PowersOf128();
  }

  lemma NextFits(v: nat, n: nat)
    requires 0 < v < Power(128, n)
    ensures n > 0 && v / 128 < Power(128, n - 1)
  {
  }

  lemma Unmarked(w: nat)
    requires w < 128
    ensures EncodeByte(128 + w % 128) & 0x7F == EncodeByte(w)
  {
    hide FromBits, HasBit;
    HighBit(w);
    ClearedBit(HasBit(w, 6), HasBit(w, 5), HasBit(w, 4), HasBit(w, 3), HasBit(w, 2), HasBit(w, 1), HasBit(w, 0));
  }

  lemma ClearedBit(b6: bool, b5: bool, b4: bool, b3: bool, b2: bool, b1: bool, b0: bool)
    ensures FromBits(true, b6, b5, b4, b3, b2, b1, b0) & 0x7F == FromBits(false, b6, b5, b4, b3, b2, b1, b0)
  {
  }

  lemma HighBit(w: nat)
    requires w < 128
    ensures HasBit(128 + w, 7) && !HasBit(w, 7)
    ensures forall k: nat :: k < 7 ==> HasBit(128 + w, k) == HasBit(w, k)
  {
    assert Drop(128 + w, 1) == 64 + Drop(w, 1) && Drop(128 + w, 2) == 32 + Drop(w, 2);
    assert Drop(128 + w, 3) == 16 + Drop(w, 3) && Drop(128 + w, 4) == 8 + Drop(w, 4);
    assert Drop(128 + w, 5) == 4 + Drop(w, 5) && Drop(128 + w, 6) == 2 + Drop(w, 6);
    assert Drop(128 + w, 7) == 1 + Drop(w, 7);
    assert Drop(w, 6) < 2 && Drop(w, 7) == 0;
    assert forall k: nat :: k < 7 ==> HasBit(128 + w, k) == HasBit(w, k) by {
      forall k: nat | k < 7 ensures HasBit(128 + w, k) == HasBit(w, k) {
        assert k == 0 || k == 1 || k == 2 || k == 3 || k == 4 || k == 5 || k == 6;
      }
    }
  }

  // ---- Encoders of one item ----

  // pb_encode_string
  method EncodeString(stream: OStream, buffer: String) returns (ok: bool)
    requires stream.Valid()
    modifies stream
    ensures stream.Valid() && Emits(stream.Space(), old(stream.Now()), stream.Now(), ok, Some(Delimited(buffer)))
  {
    hide Emits, Varint;
    ok := stream.EncodeVarint(Wrapped(|buffer|));
    ghost var mid := stream.Now();
    if ok {
      ok := stream.Put(buffer);
      EmitsMore(stream.Space(), old(stream.Now()), mid, stream.Now(), ok, Some(Varint(Wrapped(|buffer|))), Some(buffer));
    } else {
      EmitsFailure(stream.Space(), old(stream.Now()), mid, Some(Varint(Wrapped(|buffer|))), Some(buffer));
    }
  }

  // pb_encode_tag
  method EncodeTag(stream: OStream, wireType: nat, tag: nat) returns (ok: bool)
    requires stream.Valid() && wireType < 8 && tag < TWO_32
    modifies stream
    ensures stream.Valid() && Emits(stream.Space(), old(stream.Now()), stream.Now(), ok, Some(Key(wireType, tag)))
  {
    ok := stream.EncodeVarint(8 * tag + wireType);
  }

  // pb_encode_svarint
  method EncodeSvarint(stream: OStream, value: int) returns (ok: bool)
    requires stream.Valid() && -(TWO_64 / 2) <= value < TWO_64 / 2
    modifies stream
    ensures stream.Valid() && Emits(stream.Space(), old(stream.Now()), stream.Now(), ok, Some(Varint(ZigZag(value))))
  {
    hide Emits, Varint;
    var shifted := Unsigned64(2 * value);
    if value < 0 {
      ok := stream.EncodeVarint(TWO_64 - 1 - shifted);
    } else {
      ok := stream.EncodeVarint(shifted);
    }
  }

  // pb_encode_fixed32
  method EncodeFixed32(stream: OStream, value: nat) returns (ok: bool)
    requires stream.Valid() && value < TWO_32
    modifies stream
    ensures stream.Valid() && Emits(stream.Space(), old(stream.Now()), stream.Now(), ok, Some(Fixed(value, 4)))
  {
    hide Emits, EncodeByte, Fixed;
    LastFour(value);
    ok := stream.Put([EncodeByte(value % 0x100), EncodeByte(value / 0x100 % 0x100), EncodeByte(value / 0x1_0000 % 0x100),
                      EncodeByte(value / 0x100_0000 % 0x100)]);
  }

  // pb_encode_fixed64
  method EncodeFixed64(stream: OStream, value: nat) returns (ok: bool)
    requires stream.Valid() && value < TWO_64
    modifies stream
    ensures stream.Valid() && Emits(stream.Space(), old(stream.Now()), stream.Now(), ok, Some(Fixed(value, 8)))
  {
    hide Emits, EncodeByte, Fixed;
    EightBytes(value);
    ok := stream.Put([EncodeByte(value % 0x100), EncodeByte(value / 0x100 % 0x100), EncodeByte(value / 0x1_0000 % 0x100),
                      EncodeByte(value / 0x100_0000 % 0x100), EncodeByte(value / 0x1_0000_0000 % 0x100),
                      EncodeByte(value / 0x100_0000_0000 % 0x100), EncodeByte(value / 0x1_0000_0000_0000 % 0x100),
                      EncodeByte(value / 0x100_0000_0000_0000 % 0x100)]);
  }

  lemma FourBytes(v: nat, n: nat)
    ensures Fixed(v, n + 4)
            == [EncodeByte(v % 0x100), EncodeByte(v / 0x100 % 0x100), EncodeByte(v / 0x1_0000 % 0x100),
                EncodeByte(v / 0x100_0000 % 0x100)]
               + Fixed(v / 0x1_0000_0000, n)
  {
    hide EncodeByte, Fixed;
    FixedStep(v, n + 3);
    FixedStep(v / 0x100, n + 2);
    FixedStep(v / 0x1_0000, n + 1);
    FixedStep(v / 0x100_0000, n);
    SameQuotients(v);
    var rest := Fixed(v / 0x1_0000_0000, n);
    assert [EncodeByte(v % 0x100)] + ([EncodeByte(v / 0x100 % 0x100)] + ([EncodeByte(v / 0x1_0000 % 0x100)] + ([EncodeByte(v / 0x100_0000 % 0x100)] + rest)))
        == [EncodeByte(v % 0x100), EncodeByte(v / 0x100 % 0x100), EncodeByte(v / 0x1_0000 % 0x100), EncodeByte(v / 0x100_0000 % 0x100)] + rest;
  }

  lemma FixedStep(v: nat, n: nat)
    ensures Fixed(v, n + 1) == [EncodeByte(v % 0x100)] + Fixed(v / 0x100, n)
  {
    hide EncodeByte;
  }

  lemma SameQuotients(v: nat)
    ensures v / 0x100 / 0x100 == v / 0x1_0000
    ensures v / 0x1_0000 / 0x100 == v / 0x100_0000
    ensures v / 0x100_0000 / 0x100 == v / 0x1_0000_0000
  {
  }

  lemma LastFour(v: nat)
    ensures Fixed(v, 4) == [EncodeByte(v % 0x100), EncodeByte(v / 0x100 % 0x100), EncodeByte(v / 0x1_0000 % 0x100),
                            EncodeByte(v / 0x100_0000 % 0x100)]
  {
    hide EncodeByte;
    FourBytes(v, 0);
    assert Fixed(v / 0x1_0000_0000, 0) == [];
  }

  lemma EightBytes(v: nat)
    ensures Fixed(v, 8) == [EncodeByte(v % 0x100), EncodeByte(v / 0x100 % 0x100), EncodeByte(v / 0x1_0000 % 0x100),
                            EncodeByte(v / 0x100_0000 % 0x100), EncodeByte(v / 0x1_0000_0000 % 0x100),
                            EncodeByte(v / 0x100_0000_0000 % 0x100), EncodeByte(v / 0x1_0000_0000_0000 % 0x100),
                            EncodeByte(v / 0x100_0000_0000_0000 % 0x100)]
  {
    hide EncodeByte, Fixed;
    FourBytes(v, 4);
    LastFour(v / 0x1_0000_0000);
    HighBytes(v);
  }

  lemma HighBytes(v: nat)
    ensures v / 0x1_0000_0000 / 0x100 == v / 0x100_0000_0000
    ensures v / 0x1_0000_0000 / 0x1_0000 == v / 0x1_0000_0000_0000
    ensures v / 0x1_0000_0000 / 0x100_0000 == v / 0x100_0000_0000_0000
  {
  }

  // The loop of pb_enc_string up to the terminator.
  method TextLength(src: String, maxSize: nat) returns (size: nat)
    requires maxSize == |src|
    ensures size == |TextOf(src)|
  {
    size := 0;
    while size < maxSize && src[size] != 0
      invariant size <= maxSize && |TextOf(src)| == size + |TextOf(src[size..])|
    {
      assert src[size..][1..] == src[size + 1..];
      size := size + 1;
    }
  }

  // ---- The encoder ----

  // PB_ENCODERS
  method EncodeItem(stream: OStream, f: Field, v: Value) returns (ok: bool)
    requires stream.Valid() && WellFormedField(f) && ShapedValue(f, v)
    modifies stream
    ensures stream.Valid() && Emits(stream.Space(), old(stream.Now()), stream.Now(), ok, Item(f, v))
    decreases f, 0
  {
    hide Emits, Varint, Fixed, Shaped, Encoding, WellFormed;
    match f.kind {
      case LBool =>
        ok := stream.EncodeVarint(if v.n != 0 then 1 else 0);
      case LVarint =>
        if IntegerSize(f.dataSize) {
          ok := stream.EncodeVarint(Unsigned64(v.n));
        } else {
          ok := Refuse(stream);
        }
      case LUvarint =>
        if IntegerSize(f.dataSize) {
          ok := stream.EncodeVarint(v.n);
        } else {
          ok := Refuse(stream);
        }
      case LSvarint =>
        if IntegerSize(f.dataSize) {
          ok := EncodeSvarint(stream, v.n);
        } else {
          ok := Refuse(stream);
        }
      case LFixed32 =>
        ok := EncodeFixed32(stream, v.n);
      case LFixed64 =>
        ok := EncodeFixed64(stream, v.n);
      case LBytes =>
        if |v.bytes| + SIZE_BYTES > f.dataSize {
          ok := Refuse(stream);
        } else {
          ok := EncodeString(stream, v.bytes);
        }
      case LString =>
        var size := TextLength(v.bytes, f.dataSize);
        ok := EncodeString(stream, v.bytes[..size]);
      case LSubmessage =>
        ok := EncodeSubmessage(stream, f.sub, v.cells);
      case LFixedLengthBytes =>
        ok := EncodeString(stream, v.bytes);
    }
  }

  // PB_RETURN_ERROR
  method Refuse(stream: OStream) returns (ok: bool)
    requires stream.Valid()
    ensures Emits(stream.Space(), stream.Now(), stream.Now(), ok, None)
  {
    ok := false;
  }

  method EncodeEntry(stream: OStream, f: Field, v: Value, tagged: bool) returns (ok: bool)
    requires stream.Valid() && WellFormedField(f) && ShapedValue(f, v)
    modifies stream
    ensures stream.Valid() && Emits(stream.Space(), old(stream.Now()), stream.Now(), ok, Entry(f, v, tagged))
    decreases f, 1
  {
    hide Emits, Item, Varint, ShapedValue, WellFormedField;
    if tagged {
      TagIsPositive(f);
      ok := EncodeTag(stream, WireType(f.kind), f.tag);
      ghost var mid := stream.Now();
      ghost var key := Some(Key(WireType(f.kind), f.tag));
      if ok {
        ok := EncodeItem(stream, f, v);
        EmitsMore(stream.Space(), old(stream.Now()), mid, stream.Now(), ok, key, Item(f, v));
      } else {
        EmitsFailure(stream.Space(), old(stream.Now()), mid, key, Item(f, v));
      }
    } else {
      ok := EncodeItem(stream, f, v);
    }
  }

  // The loops of encode_array.
  method EncodeEntries(stream: OStream, f: Field, items: seq<Value>, tagged: bool) returns (ok: bool)
    requires stream.Valid() && WellFormedField(f) && forall k :: 0 <= k < |items| ==> ShapedValue(f, items[k])
    modifies stream
    ensures stream.Valid()
    ensures Emits(stream.Space(), old(stream.Now()), stream.Now(), ok, EntriesFrom(f, items, 0, tagged))
    decreases f, 2
  {
    hide Emits, Entry, Join, ShapedValue, WellFormedField;
    var i := 0;
    ghost var done := Some([]);
    StartsEmpty(stream, EntriesFrom(f, items, 0, tagged));
    while i < |items|
      invariant i <= |items| && stream.Valid()
      invariant Emits(stream.Space(), old(stream.Now()), stream.Now(), true, done)
      invariant Join(done, EntriesFrom(f, items, i, tagged)) == EntriesFrom(f, items, 0, tagged)
    {
      ghost var mid := stream.Now();
      ok := EncodeEntry(stream, f, items[i], tagged);
      OneMore(stream.Space(), old(stream.Now()), mid, stream.Now(), ok, done, Entry(f, items[i], tagged),
              EntriesFrom(f, items, i + 1, tagged));
      if !ok {
        return;
      }
      done := Join(done, Entry(f, items[i], tagged));
      i := i + 1;
    }
    JoinNothing(done);
    ok := true;
  }

  lemma StartsEmpty(stream: OStream, e: Option<String>)
    requires stream.Valid()
    ensures Emits(stream.Space(), stream.Now(), stream.Now(), true, Some([])) && Join(Some([]), e) == e
  {
    EmitsNothing(stream.Space(), stream.Now());
    JoinNothing(e);
  }

  // A list is written piece by piece: one more piece is done, or the whole list fails.
  lemma OneMore(room: Room, before: Mark, mid: Mark, after: Mark, ok: bool, done: Option<String>, e: Option<String>, rest: Option<String>)
    requires Emits(room, before, mid, true, done) && Emits(room, mid, after, ok, e)
    ensures Join(Join(done, e), rest) == Join(done, Join(e, rest))
    ensures ok ==> Emits(room, before, after, true, Join(done, e))
    ensures !ok ==> Emits(room, before, after, false, Join(done, Join(e, rest)))
  {
    hide Emits, Join;
    JoinAssoc(done, e, rest);
    EmitsMore(room, before, mid, after, ok, done, e);
    if !ok {
      EmitsFailure(room, before, after, Join(done, e), rest);
    }
  }

  // Fixed-size items need no sizing pass.
  lemma {:induction false} FixedSize(f: Field, items: seq<Value>, k: nat)
    requires k <= |items| && forall j :: 0 <= j < |items| ==> ShapedValue(f, items[j])
    requires f.kind.LFixed32? || f.kind.LFixed64?
    ensures var e := EntriesFrom(f, items, k, false);
            e.Some? && |e.value| == (if f.kind.LFixed32? then 4 else 8) * (|items| - k)
    decreases |items| - k
  {
    hide Fixed;
    if k < |items| {
      FixedSize(f, items, k + 1);
      assert Entry(f, items[k], false) == Item(f, items[k]);
      var rest := EntriesFrom(f, items, k + 1, false);
      if f.kind.LFixed32? {
        assert Item(f, items[k]) == Some(Fixed(items[k].n, 4)) && |rest.value| == 4 * (|items| - k - 1);
      } else {
        assert Item(f, items[k]) == Some(Fixed(items[k].n, 8)) && |rest.value| == 8 * (|items| - k - 1);
      }
    }
  }

  // encode_array
  method EncodeArray(stream: OStream, f: Field, items: seq<Value>, count: nat) returns (ok: bool)
    requires stream.Valid() && WellFormedField(f) && |items| == f.arraySize
    requires forall k :: 0 <= k < |items| ==> ShapedValue(f, items[k])
    modifies stream
    ensures stream.Valid() && Emits(stream.Space(), old(stream.Now()), stream.Now(), ok, Array(f, items, count))
    decreases f, 4
  {
    hide Emits, EntriesFrom, Varint, ShapedValue, WellFormedField;
    if count == 0 {
      StartsEmpty(stream, None);
      return true;
    }
    if count > f.arraySize {
      ok := Refuse(stream);
      return;
    }
    if f.Packable() {
      ok := EncodePacked(stream, f, items[..count]);
    } else {
      ok := EncodeEntries(stream, f, items[..count], true);
    }
  }

  ghost function Packed(f: Field, items: seq<Value>): Option<String>
    requires forall k :: 0 <= k < |items| ==> ShapedValue(f, items[k])
  {
    var contents := EntriesFrom(f, items, 0, false);
    if contents.Some? then Some(Key(WT_STRING, f.tag) + Delimited(contents.value)) else None
  }

  lemma PackedInParts(f: Field, items: seq<Value>)
    requires forall k :: 0 <= k < |items| ==> ShapedValue(f, items[k])
    ensures var contents := EntriesFrom(f, items, 0, false);
            contents.Some? ==>
              Packed(f, items) == Join(Join(Some(Key(WT_STRING, f.tag)), Some(Varint(Wrapped(|contents.value|)))), contents)
  {
    hide EntriesFrom, Varint, ShapedValue;
    var contents := EntriesFrom(f, items, 0, false);
    if contents.Some? {
      Assoc(Key(WT_STRING, f.tag), Varint(Wrapped(|contents.value|)), contents.value);
    }
  }

  // The packed branch of encode_array: the tag, the size by counting or from a table, and the items.
  method EncodePacked(stream: OStream, f: Field, items: seq<Value>) returns (ok: bool)
    requires stream.Valid() && WellFormedField(f) && f.Packable() && forall k :: 0 <= k < |items| ==> ShapedValue(f, items[k])
    modifies stream
    ensures stream.Valid() && Emits(stream.Space(), old(stream.Now()), stream.Now(), ok, Packed(f, items))
    decreases f, 3
  {
    hide Emits, InRoom, EntriesFrom, Packed, Varint, ShapedValue, WellFormedField, Join, Wrapped;
    ghost var room, before := stream.Space(), stream.Now();
    ghost var contents := EntriesFrom(f, items, 0, false);
    TagIsPositive(f);
    ok := EncodeTag(stream, WT_STRING, f.tag);
    ghost var key, mid := Some(Key(WT_STRING, f.tag)), stream.Now();
    if !ok {
      PackedFails(room, before, mid, f, items);
      return;
    }
    var size: nat;
    if f.kind.LFixed32? {
      FixedSize(f, items, 0);
      size := 4 * |items|;
    } else if f.kind.LFixed64? {
      FixedSize(f, items, 0);
      size := 8 * |items|;
    } else {
      var sizestream := new OStream.Sizing();
      ok := EncodeEntries(sizestream, f, items, false);
      SizingCounts(sizestream.Now(), ok, contents);
      if !ok {
        PackedNone(room, before, mid, f, items);
        return;
      }
      size := sizestream.bytesWritten;
    }
    assert contents.Some? && size == |contents.value|;
    PackedInParts(f, items);
    ok := stream.EncodeVarint(Wrapped(size));
    ghost var length, late := Some(Varint(Wrapped(size))), stream.Now();
    OneMore(room, before, mid, late, ok, key, length, contents);
    if !ok {
      return;
    }
    if stream.sizing {
      ok := stream.Write([], size, contents.value);
    } else {
      ok := EncodeEntries(stream, f, items, false);
    }
    EmitsMore(room, before, late, stream.Now(), ok, Join(key, length), contents);
  }

  lemma PackedFails(room: Room, before: Mark, mid: Mark, f: Field, items: seq<Value>)
    requires Emits(room, before, mid, false, Some(Key(WT_STRING, f.tag))) && forall k :: 0 <= k < |items| ==> ShapedValue(f, items[k])
    ensures Emits(room, before, mid, false, Packed(f, items))
  {
    hide EntriesFrom, Varint, ShapedValue;
  }

  lemma PackedNone(room: Room, before: Mark, mid: Mark, f: Field, items: seq<Value>)
    requires InRoom(room, before, mid)
    requires forall k :: 0 <= k < |items| ==> ShapedValue(f, items[k])
    requires EntriesFrom(f, items, 0, false) == None
    ensures Emits(room, before, mid, false, Packed(f, items))
  {
    hide EntriesFrom, Varint, ShapedValue;
  }

  lemma SizingCounts(after: Mark, ok: bool, e: Option<String>)
    requires Emits(Limit(true, 0), Mark(0, []), after, ok, e)
    ensures ok <==> e.Some?
    ensures ok ==> after.written == |e.value|
  {
  }

  // pb_encode_submessage: counts with a stream of its own, and then writes with another one that has
  // just that much room. The size never changes between the two.
  method EncodeSubmessage(stream: OStream, d: Descriptor, cells: seq<Cell>) returns (ok: bool)
    requires stream.Valid() && WellFormed(d) && Shaped(d, cells)
    modifies stream
    ensures stream.Valid()
    ensures Emits(stream.Space(), old(stream.Now()), stream.Now(), ok, DelimitedMessage(d, cells))
    decreases d, 3
  {
    hide Emits, InRoom, Encoding, Shaped, WellFormed, Varint, Wrapped, Join, Power, CellOf, CellCount;
    ghost var room, before := stream.Space(), stream.Now();
    ghost var contents := Encoding(d, cells);
    var substream := new OStream.Sizing();
    ok := Encode(substream, d, cells);
    SizingCounts(substream.Now(), ok, contents);
    if !ok {
      ok := Refuse(stream);
      return;
    }
    var size := substream.bytesWritten;
    ok := stream.EncodeVarint(Wrapped(size));
    ghost var length, mid := Some(Varint(Wrapped(size))), stream.Now();
    assert DelimitedMessage(d, cells) == Join(length, contents) by {
      JoinIs(length.value, contents.value);
    }
    if !ok {
      EmitsFailure(room, before, mid, length, contents);
      return;
    }
    if stream.sizing {
      ok := stream.Write([], size, contents.value);
      EmitsMore(room, before, mid, stream.Now(), ok, length, contents);
      return;
    }
    if stream.bytesWritten + size > stream.maxSize {
      NoRoom(room, mid, contents);
      EmitsMore(room, before, mid, mid, false, length, contents);
      return false;
    }
    substream := new OStream.Within(stream, size);
    var status := Encode(substream, d, cells);
    stream.bytesWritten := stream.bytesWritten + substream.bytesWritten;
    stream.output := substream.output;
    SecondPass(room, mid, size, substream.Now(), status, contents);
    ok := status && substream.bytesWritten == size;
    EmitsMore(room, before, mid, stream.Now(), ok, length, contents);
  }

  ghost function DelimitedMessage(d: Descriptor, cells: seq<Cell>): Option<String>
    requires Shaped(d, cells)
  {
    var contents := Encoding(d, cells);
    if contents.Some? then Some(Delimited(contents.value)) else None
  }

  lemma JoinIs(a: String, b: String)
    ensures Join(Some(a), Some(b)) == Some(a + b)
  {
  }

  lemma NoRoom(room: Room, at: Mark, e: Option<String>)
    requires !room.sizing && at.written <= room.maxSize && e.Some? && at.written + |e.value| > room.maxSize
    ensures Emits(room, at, at, false, e)
  {
  }

  // What the second pass does with the room that the first one asked for.
  lemma SecondPass(room: Room, mid: Mark, size: nat, after: Mark, status: bool, e: Option<String>)
    requires !room.sizing && mid.written + size <= room.maxSize && e.Some? && |e.value| == size
    requires Emits(Limit(false, size), Mark(0, mid.output), after, status, e)
    ensures status && after.written == size
    ensures Emits(room, mid, Mark(mid.written + after.written, after.output), true, e)
  {
  }

  // encode_basic_field
  method EncodeBasicField(stream: OStream, f: Field, c: Cell) returns (ok: bool)
    requires stream.Valid() && WellFormedField(f) && ShapedCell(f, c)
    modifies stream
    ensures stream.Valid() && Emits(stream.Space(), old(stream.Now()), stream.Now(), ok, FieldBytes(f, c))
    decreases f, 5
  {
    hide Emits, Entry, Array, ShapedValue, WellFormedField;
    StartsEmpty(stream, None);
    match f.rule {
      case Required =>
        ok := EncodeEntry(stream, f, c.items[0], true);
      case Optional =>
        if c.size != 0 {
          ok := EncodeEntry(stream, f, c.items[0], true);
        } else {
          ok := true;
        }
      case Repeated =>
        ok := EncodeArray(stream, f, c.items, c.size);
      case FixedCount =>
        ok := EncodeArray(stream, f, c.items, f.arraySize);
      case OneOf =>
        if c.size == f.tag {
          ok := EncodeEntry(stream, f, c.items[0], true);
        } else {
          ok := true;
        }
    }
  }

  // pb_encode
  method Encode(stream: OStream, d: Descriptor, cells: seq<Cell>) returns (ok: bool)
    requires stream.Valid() && WellFormed(d) && Shaped(d, cells)
    modifies stream
    ensures stream.Valid() && Emits(stream.Space(), old(stream.Now()), stream.Now(), ok, Encoding(d, cells))
    decreases d, 2
  {
    hide Emits, InRoom, FieldBytes, FieldsFrom, Join, Shaped, WellFormed, CellOf, CellCount, RequiredBefore;
    var iter := new FieldIter(d);
    var more := iter.Begin();
    StartsEmpty(stream, Encoding(d, cells));
    FieldsEnd(d, cells);
    if !more {
      return true;
    }
    ghost var done := Some([]);
    while true
      invariant d.fields != [] && iter.d == d && iter.At(iter.pos) && stream.Valid()
      invariant fresh(iter)
      invariant Emits(stream.Space(), old(stream.Now()), stream.Now(), true, done)
      invariant Join(done, FieldsFrom(d, cells, iter.pos)) == Encoding(d, cells)
      decreases |d.fields| - iter.pos
    {
      ghost var i, mid := iter.pos, stream.Now();
      FieldsStep(d, cells, i);
      ghost var e := FieldBytes(d.fields[i], cells[CellOf(d, i)]);
      ok := EncodeBasicField(stream, d.fields[iter.pos], cells[iter.cell]);
      OneMore(stream.Space(), old(stream.Now()), mid, stream.Now(), ok, done, e, FieldsFrom(d, cells, i + 1));
      if !ok {
        return;
      }
      done := Join(done, e);
      more := iter.Next();
      if !more {
        JoinNothing(done);
        return true;
      }
    }
  }

  lemma FieldsStep(d: Descriptor, cells: seq<Cell>, i: nat)
    requires WellFormed(d) && Shaped(d, cells) && i < |d.fields|
    ensures WellFormedField(d.fields[i])
    ensures CellOf(d, i) < |cells| && ShapedCell(d.fields[i], cells[CellOf(d, i)])
    ensures FieldsFrom(d, cells, i) == Join(FieldBytes(d.fields[i], cells[CellOf(d, i)]), FieldsFrom(d, cells, i + 1))
  {
    hide FieldBytes, ShapedCell, WellFormedField, Join, CellOf;
  }

  lemma FieldsEnd(d: Descriptor, cells: seq<Cell>)
    requires Shaped(d, cells)
    ensures FieldsFrom(d, cells, |d.fields|) == Some([]) && Encoding(d, cells) == FieldsFrom(d, cells, 0)
  {
    hide FieldBytes, ShapedCell, Join, CellOf;
  }

  // pb_get_encoded_size
  method GetEncodedSize(d: Descriptor, cells: seq<Cell>) returns (ok: bool, size: nat)
    requires WellFormed(d) && Shaped(d, cells)
    ensures ok <==> Encoding(d, cells).Some?
    ensures ok ==> size == |Encoding(d, cells).value|
  {
    hide Emits, Encoding, Shaped, WellFormed;
    var stream := new OStream.Sizing();
    ok := Encode(stream, d, cells);
    SizingCounts(stream.Now(), ok, Encoding(d, cells));
    size := stream.bytesWritten;
  }
}
