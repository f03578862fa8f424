/** nanopb: what pb_decode makes of the bytes that pb_encode wrote, for any descriptor and any message. */
module ProtobufRoundTrips {
  import opened Bytes
  import opened Coding
  import opened Options
  import opened ProtobufFields
  import opened ProtobufInput
  import opened ProtobufEncoders
  import opened ProtobufDecoders

  // ---- What has to survive ----

  // The same value to a reader of the struct: bools as truth values and strings up to the terminator.
  ghost predicate SameValue(f: Field, v: Value, w: Value)
    decreases f, 0
  {
    match f.kind
    case LBool => v.Number? && w.Number? && (v.n != 0 <==> w.n != 0)
    case LString => v.Raw? && w.Raw? && TextOf(v.bytes) == TextOf(w.bytes)
    case LSubmessage => v.Struct? && w.Struct? && Same(f.sub, v.cells, w.cells)
    case _ => v == w
  }

  ghost predicate SameItems(f: Field, c: Cell, r: Cell, from: nat, count: nat)
    decreases f, 1
  {
    && |c.items| == |r.items|
    && forall k :: from <= k < count && k < |c.items| ==> SameValue(f, c.items[k], r.items[k])
  }

  // What is absent has no contents to compare.
  ghost predicate SameCell(f: Field, c: Cell, r: Cell)
    decreases f, 2
  {
    match f.rule
    case Required => SameItems(f, c, r, 0, 1)
    case Optional => (c.size != 0 <==> r.size != 0) && (c.size != 0 ==> SameItems(f, c, r, 0, 1))
    case OneOf => (c.size == f.tag <==> r.size == f.tag) && (c.size == f.tag ==> SameItems(f, c, r, 0, 1))
    case Repeated => c.size == r.size && SameItems(f, c, r, 0, c.size)
    case FixedCount => SameItems(f, c, r, 0, f.arraySize)
  }

  ghost predicate Same(d: Descriptor, cells: seq<Cell>, r: seq<Cell>)
    decreases d
  {
    forall i :: 0 <= i < |d.fields| ==>
                  && CellOf(d, i) < |cells| && CellOf(d, i) < |r|
                  && SameCell(d.fields[i], cells[CellOf(d, i)], r[CellOf(d, i)])
  }

  // The decoder wants room for a terminator; the encoder does without one.
  ghost predicate TerminatedValue(f: Field, v: Value)
    decreases f, 0
  {
    match f.kind
    case LString => v.Raw? && |TextOf(v.bytes)| < f.dataSize
    case LSubmessage => v.Struct? && Terminated(f.sub, v.cells)
    case _ => true
  }

  ghost predicate TerminatedItems(f: Field, items: seq<Value>, from: nat, count: nat)
    decreases f, 1
  {
    forall k :: from <= k < count && k < |items| ==> TerminatedValue(f, items[k])
  }

  ghost predicate TerminatedCell(f: Field, c: Cell)
    decreases f, 2
  {
    match f.rule
    case Required => TerminatedItems(f, c.items, 0, 1)
    case Optional => c.size != 0 ==> TerminatedItems(f, c.items, 0, 1)
    case OneOf => c.size == f.tag ==> TerminatedItems(f, c.items, 0, 1)
    case Repeated => TerminatedItems(f, c.items, 0, c.size)
    case FixedCount => TerminatedItems(f, c.items, 0, f.arraySize)
  }

  // Every string that is present ends before its buffer does.
  ghost predicate Terminated(d: Descriptor, cells: seq<Cell>)
    decreases d
  {
    forall i :: 0 <= i < |d.fields| && CellOf(d, i) < |cells| ==> TerminatedCell(d.fields[i], cells[CellOf(d, i)])
  }

  // ---- One item ----

  // The outcome of reading an encoded value.
  ghost predicate Reads(f: Field, v: Value, p: Parsed<Value>, rest: String) {
    if TerminatedValue(f, v) then p.Parsed? && p.rest == rest && SameValue(f, v, p.value) else p.Failed?
  }

  lemma DelimitedReads(e: String, rest: String)
    requires |e| < TWO_32
    ensures DelimitedAt(Delimited(e) + rest) == Parsed(e, rest)
  {
    hide Varint, ReadVarint32;
    Varint32Reads(|e|, e + rest);
    Assoc(Varint(|e|), e, rest);
    assert (e + rest)[..|e|] == e && (e + rest)[|e|..] == rest;
  }

  // ---- Integers of every size ----

  lemma SignedBack(n: int, size: nat)
    requires IntegerSize(size) && -Half(size) <= n < Half(size)
    ensures SignedOf(Unsigned64(n), size) == n && SignedOf(n, size) == n
    ensures size != 8 ==> SignedOf(Unsigned64(n), 4) == n
  {
    hide SignedOf, Unsigned64;
    WrapTwice(n, size);
    InRange(Unsigned64(n), n, size);
    InRange(n, n, size);
    if size != 8 {
      WrapTwice(n, 4);
      InRange(Unsigned64(n), n, 4);
    }
  }

  lemma InRange(a: int, n: int, size: nat)
    requires IntegerSize(size) && -Half(size) <= n < Half(size) && a % (2 * Half(size)) == n % (2 * Half(size))
    ensures SignedOf(a, size) == n
  {
  }

  // Cutting a number to 64 bits and then to fewer is cutting it to fewer.
  lemma WrapTwice(n: int, size: nat)
    requires IntegerSize(size)
    ensures Unsigned64(n) % (2 * Half(size)) == n % (2 * Half(size))
  {
    var m := 2 * Half(size);
    var times := if size == 1 then 0x100_0000_0000_0000 else if size == 2 then 0x1_0000_0000_0000 else if size == 4 then 0x1_0000_0000 else 1;
    assert TWO_64 == m * times;
    CutTwice(n, m, times);
  }

  lemma CutTwice(n: int, m: int, times: int)
    requires m > 0 && times > 0
    ensures m * times > 0 && n % (m * times) % m == n % m
  {
    var big := m * times;
    assert big >= 1 by {
      Apart(times, 0, m);
    }
    var q, u := n / big, n % big;
    assert n == big * q + u;
    var a, r := u / m, u % m;
    assert u == m * a + r;
    assert big * q == m * (times * q);
    assert n == m * (times * q + a) + r;
    Remainder(n, m, times * q + a, r);
  }

  lemma Remainder(x: int, m: int, a: int, r: int)
    requires x == m * a + r && 0 <= r < m
    ensures x % m == r
  {
    var b, rest := x / m, x % m;
    assert x == m * b + rest;
    Difference(a, b, m, rest - r);
  }

  lemma ZigZagBack(n: int)
    requires -(TWO_64 / 2) <= n < TWO_64 / 2
    ensures ZigZag(n) < TWO_64 && UnZigZag(ZigZag(n)) == n
  {
  }

  // pb_dec_varint and its kind take back what the encoder of the same kind wrote.
  lemma NumberBack(f: Field, n: int)
    requires IntegerSize(f.dataSize) && ShapedNumber(f, n) && (f.kind.LVarint? || f.kind.LUvarint? || f.kind.LSvarint?)
    ensures var v := if f.kind.LVarint? then Unsigned64(n) else if f.kind.LUvarint? then n else ZigZag(n);
            0 <= v < TWO_64 && NumberOf(f, v) == Some(n)
  {
    hide SignedOf, Unsigned64, ZigZag, UnZigZag;
    if f.kind.LVarint? {
      SignedBack(n, f.dataSize);
      Cast64(n);
    } else if f.kind.LSvarint? {
      SignedBack(n, f.dataSize);
      ZigZagBack(n);
    }
  }

  lemma Cast64(n: int)
    ensures 0 <= Unsigned64(n) < TWO_64
  {
  }

  lemma VarintReads(f: Field, v: Value, rest: String)
    requires ShapedValue(f, v) && Item(f, v).Some? && (f.kind.LVarint? || f.kind.LUvarint? || f.kind.LSvarint?)
    ensures VarintItem(f, Item(f, v).value + rest) == Parsed(v, rest)
  {
    hide NumberOf, Unsigned64, ZigZag, Varint, Varint64At;
    NumberBack(f, v.n);
    Varint64RoundTrip(if f.kind.LVarint? then Unsigned64(v.n) else if f.kind.LUvarint? then v.n else ZigZag(v.n), rest);
  }

  lemma FixedReads(v: nat, n: nat, rest: String)
    requires v < Power(256, n)
    ensures FixedItem(Fixed(v, n) + rest, n) == Parsed(Number(v), rest)
  {
    hide Fixed, FromFixed, Power;
    FixedRoundTrip(v, n);
    assert (Fixed(v, n) + rest)[..n] == Fixed(v, n) && (Fixed(v, n) + rest)[n..] == rest;
  }

  lemma {:induction false} TextStays(s: String, t: String)
    ensures TextOf(TextOf(s) + [0] + t) == TextOf(s)
  {
    if s != [] && s[0] != 0 {
      TextStays(s[1..], t);
      assert (TextOf(s) + [0] + t)[1..] == TextOf(s[1..]) + [0] + t;
    }
  }

  lemma StringReads(f: Field, v: Value, dest: Value, rest: String)
    requires f.kind.LString? && ShapedValue(f, v) && f.dataSize < TWO_32
    ensures Reads(f, v, StringItem(f, dest, Delimited(TextOf(v.bytes)) + rest), rest)
  {
    hide DelimitedAt, Delimited, TextOf, AfterTerminator;
    var text := TextOf(v.bytes);
    DelimitedReads(text, rest);
    if |text| < f.dataSize {
      TextStays(v.bytes, AfterTerminator(f, dest, |text|));
    }
  }

  lemma FixedBytesReads(f: Field, v: Value, rest: String)
    requires f.kind.LFixedLengthBytes? && ShapedValue(f, v) && f.dataSize < TWO_32
    ensures FixedBytesItem(f, Delimited(v.bytes) + rest) == Parsed(v, rest)
  {
    hide ReadVarint32, Varint;
    Varint32Reads(f.dataSize, v.bytes + rest);
    Assoc(Varint(f.dataSize), v.bytes, rest);
    assert (v.bytes + rest)[..f.dataSize] == v.bytes && (v.bytes + rest)[f.dataSize..] == rest;
    if f.dataSize == 0 {
      assert v.bytes == Zeros(0) && v.bytes + rest == rest;
    }
  }

  lemma BytesReads(f: Field, v: Value, rest: String)
    requires f.kind.LBytes? && ShapedValue(f, v) && Item(f, v).Some?
    ensures BytesItem(f, Item(f, v).value + rest) == Parsed(v, rest)
  {
    hide DelimitedAt, Delimited;
    DelimitedReads(v.bytes, rest);
  }

  lemma BoolReads(n: int, rest: String)
    ensures BoolItem(Varint(OneIf(n != 0)) + rest) == Parsed(Number(OneIf(n != 0)), rest)
  {
    hide ReadVarint32, Varint;
    Varint32Reads(OneIf(n != 0), rest);
  }

  // Items that are not messages; what was stored before does not matter.
  lemma ScalarReads(f: Field, v: Value, dest: Value, rest: String)
    requires WellFormedField(f) && !f.kind.LSubmessage? && ShapedValue(f, v) && Item(f, v).Some?
    ensures Reads(f, v, ItemAt(f, dest, Item(f, v).value + rest), rest)
  {
    hide BoolItem, VarintItem, FixedItem, BytesItem, StringItem, FixedBytesItem, Delimited, TextOf, Varint, Fixed, WellFormed, Shaped,
         Unsigned64, ZigZag;
    match f.kind {
      case LBool => BoolReads(v.n, rest);
      case LFixed32 => PowersOf256(); FixedReads(v.n, 4, rest);
      case LFixed64 => PowersOf256(); FixedReads(v.n, 8, rest);
      case LBytes => BytesReads(f, v, rest);
      case LString => StringReads(f, v, dest, rest);
      case LFixedLengthBytes => FixedBytesReads(f, v, rest);
      case _ => VarintReads(f, v, rest);
    }
  }

  // ---- Any item, and arrays ----

  // A submessage is read into a place that is ready for it, or made ready because the field is an array.
  ghost predicate Place(f: Field, dest: Value) {
    f.kind.LSubmessage? ==> ShapedValue(f, dest) && (f.Array() || ReadyValue(f, dest))
  }

  lemma ItemReads(f: Field, v: Value, dest: Value, rest: String)
    requires WellFormedField(f) && ShapedValue(f, v) && Item(f, v).Some? && |Item(f, v).value| < TWO_32 && Place(f, dest)
    ensures Reads(f, v, ItemAt(f, dest, Item(f, v).value + rest), rest)
    decreases f, 0
  {
    hide ItemAt, Item, ShapedValue, TerminatedValue, SameValue, ReadyValue, WellFormedField;
    if !f.kind.LSubmessage? {
      ScalarReads(f, v, dest, rest);
    } else {
      SubmessageParts(f, v, dest, rest);
      var start := if f.Array() then Defaults(f.sub, dest.cells) else dest.cells;
      MessageReads(f.sub, v.cells, start);
      SubmessageReads(f, v, dest, rest, start);
    }
  }

  lemma SubmessageParts(f: Field, v: Value, dest: Value, rest: String)
    requires WellFormedField(f) && ShapedValue(f, v) && f.kind.LSubmessage? && Item(f, v).Some? && Place(f, dest)
    ensures WellFormed(f.sub) && v.Struct? && Shaped(f.sub, v.cells) && dest.Struct? && Shaped(f.sub, dest.cells)
    ensures f.Array() || Ready(f.sub, dest.cells)
    ensures Encoding(f.sub, v.cells).Some? && |Encoding(f.sub, v.cells).value| < |Item(f, v).value|
  {
    hide Encoding, WellFormed, Shaped, Ready, Varint;
  }

  lemma SubmessageReads(f: Field, v: Value, dest: Value, rest: String, start: seq<Cell>)
    requires WellFormedField(f) && ShapedValue(f, v) && f.kind.LSubmessage? && Item(f, v).Some? && ShapedValue(f, dest)
    requires |Item(f, v).value| < TWO_32 && start == if f.Array() then Defaults(f.sub, dest.cells) else dest.cells
    requires Encoding(f.sub, v.cells).Some?
    requires MessageOutcome(f.sub, v.cells, Run(f.sub, Start(start), Encoding(f.sub, v.cells).value))
    ensures Reads(f, v, ItemAt(f, dest, Item(f, v).value + rest), rest)
  {
    hide DelimitedAt, Delimited, Encoding, Run, Defaults, Same, Terminated, WellFormed, Shaped, Ready;
    var contents := Encoding(f.sub, v.cells).value;
    DelimitedIsLonger(contents);
    DelimitedReads(contents, rest);
  }

  // A message is read completely and unchanged, or refused for a string without a terminator.
  ghost predicate MessageOutcome(d: Descriptor, m: seq<Cell>, p: Parsed<seq<Cell>>) {
    if Terminated(d, m) then p.Parsed? && p.rest == [] && Same(d, m, p.value) else p.Failed?
  }

  lemma DelimitedIsLonger(e: String)
    ensures |Delimited(e)| > |e|
  {
    hide Varint;
  }

  lemma {:induction false} PackedReads(f: Field, items: seq<Value>, k: nat, dest: seq<Value>)
    requires WellFormedField(f) && f.Packable() && k <= |items| <= f.arraySize == |dest|
    requires forall j :: 0 <= j < |items| ==> ShapedValue(f, items[j])
    requires forall j :: 0 <= j < |dest| ==> ShapedValue(f, dest[j])
    requires EntriesFrom(f, items, k, false).Some?
    ensures var p := PackedAt(f, dest, k, EntriesFrom(f, items, k, false).value);
            p.Parsed? && p.value.size == |items| && |p.value.items| == |dest| && Filled(f, items, k, dest, p.value.items)
    decreases |items| - k
  {
    hide Item, ItemAt, WellFormedField, ShapedValue, SameValue;
    if k < |items| {
      var rest := EntriesFrom(f, items, k + 1, false).value;
      NotSubmessage(f);
      ScalarReads(f, items[k], dest[k], rest);
      AlwaysTerminated(f, items[k]);
      var v := ItemAt(f, dest[k], Item(f, items[k]).value + rest).value;
      PackedReads(f, items, k + 1, dest[k := v]);
      Refill(f, items, k, dest, v, PackedAt(f, dest[k := v], k + 1, rest).value.items);
    }
  }

  // From k on the items were read, and the ones before were left alone.
  ghost predicate Filled(f: Field, items: seq<Value>, k: nat, dest: seq<Value>, after: seq<Value>) {
    && k <= |items| <= |dest| == |after|
    && after[..k] == dest[..k]
    && forall j :: k <= j < |items| ==> SameValue(f, items[j], after[j])
  }

  lemma Refill(f: Field, items: seq<Value>, k: nat, dest: seq<Value>, v: Value, after: seq<Value>)
    requires k < |items| <= |dest| && SameValue(f, items[k], v) && Filled(f, items, k + 1, dest[k := v], after)
    ensures Filled(f, items, k, dest, after)
  {
    hide SameValue;
    assert after[k] == after[..k + 1][k] == v;
    assert after[..k] == after[..k + 1][..k] == dest[..k];
  }

  lemma NotSubmessage(f: Field)
    requires f.Packable()
    ensures !f.kind.LSubmessage? && !f.kind.LString?
  {
  }

  lemma AlwaysTerminated(f: Field, v: Value)
    requires !f.kind.LSubmessage? && !f.kind.LString?
    ensures TerminatedValue(f, v)
  {
  }

  // ---- One record of the message ----

  lemma KeyReads(d: Descriptor, st: State, i: nat, wireType: nat, tail: String)
    requires WellFormed(d) && Shaped(d, st.cells) && i < |d.fields| && wireType < 8
    ensures var p := Step(d, st, i, wireType, tail);
            Run(d, st, Key(wireType, d.fields[i].tag) + tail) == if p.Failed? then Failed else Run(d, p.value, p.rest)
  {
    hide Run, Step, WellFormed, Shaped, Varint, ReadVarint32;
    FieldIsFine(d, i);
    TagIsPositive(d.fields[i]);
    var n := 8 * d.fields[i].tag + wireType;
    Varint32Reads(n, tail);
    RunField(d, st, Varint(n) + tail, i);
  }

  // ---- How far the decoder got ----

  // The fields before i are decoded, the others are still ready.
  ghost predicate Progress(d: Descriptor, m: seq<Cell>, i: nat, st: State)
    requires i <= |d.fields|
  {
    && Shaped(d, m) && Shaped(d, st.cells)
    && (forall j :: 0 <= j < i ==> SameCell(d.fields[j], m[CellOf(d, j)], st.cells[CellOf(d, j)]))
    && (forall j :: i <= j < |d.fields| ==> ReadyCell(d.fields[j], st.cells[CellOf(d, j)]))
    && FixedDone(d, st) && (st.fixed.Some? ==> st.fixed.value < i)
  }

  // The required fields before i were seen.
  ghost predicate Marked(d: Descriptor, i: nat, seen: set<nat>)
    requires i <= |d.fields|
  {
    forall j :: 0 <= j < i && d.fields[j].rule.Required? && RequiredBefore(d, j) < MAX_REQUIRED_FIELDS ==> RequiredBefore(d, j) in seen
  }

  // What decoding field i leaves behind.
  ghost predicate Decoded(d: Descriptor, m: seq<Cell>, i: nat, st: State, after: State)
    requires i < |d.fields| && Shaped(d, m) && Shaped(d, st.cells)
  {
    var at := CellOf(d, i);
    && Shaped(d, after.cells)
    && after.cells == st.cells[at := after.cells[at]]
    && SameCell(d.fields[i], m[at], after.cells[at])
    && (d.fields[i].rule.OneOf? && after.cells[at] != st.cells[at] ==> m[at].size == after.cells[at].size == d.fields[i].tag)
    && SeenWith(d, st.seen, i) == after.seen
    && FixedDone(d, after) && (after.fixed == st.fixed || after.fixed == Some(i))
  }

  lemma Advance(d: Descriptor, m: seq<Cell>, i: nat, st: State, after: State)
    requires WellFormed(d) && i < |d.fields| && Progress(d, m, i, st) && Decoded(d, m, i, st, after)
    ensures Progress(d, m, i + 1, after)
  {
    hide CellOf, RequiredBefore, Shaped, WellFormedField, FixedDone, ReadyValue, SameItems;
    ShapedCells(d, m);
    ShapedCells(d, st.cells);
    ShapedCells(d, after.cells);
    forall j | 0 <= j < |d.fields| && j != i
      ensures j < i ==> SameCell(d.fields[j], m[CellOf(d, j)], after.cells[CellOf(d, j)])
      ensures j > i ==> ReadyCell(d.fields[j], after.cells[CellOf(d, j)])
    {
      if CellOf(d, j) == CellOf(d, i) {
        SharedCell(d, if i < j then i else j, if i < j then j else i);
      }
    }
  }

  lemma ShapedCells(d: Descriptor, cells: seq<Cell>)
    requires Shaped(d, cells)
    ensures forall j :: 0 <= j < |d.fields| ==> CellOf(d, j) < |cells|
  {
    hide CellOf, ShapedCell, CellCount;
  }

  // The outcome of decoding the bytes of field i: a state that got further, or a failure.
  ghost predicate Goes(d: Descriptor, m: seq<Cell>, i: nat, st: State, e: String, rest: String, after: State)
    requires WellFormed(d) && i < |d.fields| && Shaped(d, m) && Shaped(d, st.cells)
  {
    if TerminatedCell(d.fields[i], m[CellOf(d, i)])
    then Decoded(d, m, i, st, after) && Run(d, st, e + rest) == Run(d, after, rest)
    else Run(d, st, e + rest) == Failed
  }

  // ---- Fields with one item ----

  function SizeAfter(f: Field, size: nat): nat {
    match f.rule
    case Optional => 1
    case OneOf => f.tag
    case _ => size
  }

  // Where the decoder puts the item: what is there, or a fresh message when a union changes its member.
  ghost function PlaceOf(f: Field, c: Cell): Value
    requires WellFormedField(f) && |c.items| == 1
  {
    if f.rule.OneOf? && f.kind.LSubmessage? && c.size != f.tag then Struct(Defaults(f.sub, ZeroCells(f.sub))) else c.items[0]
  }

  lemma PlaceIsReady(f: Field, c: Cell)
    requires WellFormedField(f) && !f.Array() && ShapedCell(f, c) && ReadyCell(f, c)
    ensures Place(f, PlaceOf(f, c))
  {
    hide Shaped, Ready, Defaults, ZeroCells, WellFormed;
  }

  lemma SingleStep(d: Descriptor, st: State, i: nat, wireType: nat, s: String)
    requires WellFormed(d) && Shaped(d, st.cells) && i < |d.fields| && !d.fields[i].Array()
    requires WellFormedField(d.fields[i]) && ReadyCell(d.fields[i], st.cells[CellOf(d, i)])
    ensures var f, c := d.fields[i], st.cells[CellOf(d, i)];
            && |c.items| == 1 && Place(f, PlaceOf(f, c))
            && var p := ItemAt(f, PlaceOf(f, c), s);
               Step(d, st, i, wireType, s)
               == if p.Failed? then Failed else Parsed(Stored(d, st, i, Cell(SizeAfter(f, c.size), [p.value])), p.rest)
  {
    hide CellOf, WellFormed, Shaped, ItemAt, WellFormedField, ReadyCell, ShapedCell, Stored, CellAt, PlaceOf, Place, SizeAfter;
    TargetShaped(d, st, i);
    PlaceIsReady(d.fields[i], st.cells[CellOf(d, i)]);
    SingleCell(d.fields[i], st.cells[CellOf(d, i)], wireType, s);
  }

  lemma SingleCell(f: Field, c: Cell, wireType: nat, s: String)
    requires WellFormedField(f) && ShapedCell(f, c) && !f.Array() && Place(f, PlaceOf(f, c))
    ensures var p := ItemAt(f, PlaceOf(f, c), s);
            CellAt(f, c, wireType, s) == if p.Failed? then Failed else Parsed(Cell(SizeAfter(f, c.size), [p.value]), p.rest)
  {
    hide WellFormed, Shaped, ItemAt, WellFormedField, ShapedValue, Defaults, ZeroCells;
  }

  lemma StepShaped(d: Descriptor, st: State, i: nat, wireType: nat, s: String)
    requires WellFormed(d) && Shaped(d, st.cells) && i < |d.fields|
    ensures var p := Step(d, st, i, wireType, s); p.Parsed? ==> Shaped(d, p.value.cells)
  {
    hide *;
  }

  lemma SingleReads(d: Descriptor, m: seq<Cell>, i: nat, st: State, rest: String) returns (after: State)
    requires WellFormed(d) && i < |d.fields| && Progress(d, m, i, st) && !d.fields[i].Array()
    requires var f, c := d.fields[i], m[CellOf(d, i)];
             && (f.rule.Optional? ==> c.size != 0) && (f.rule.OneOf? ==> c.size == f.tag)
             && FieldBytes(f, c).Some? && |FieldBytes(f, c).value| < TWO_32
    ensures Goes(d, m, i, st, FieldBytes(d.fields[i], m[CellOf(d, i)]).value, rest, after)
    decreases d, 2
  {
    hide Run, Step, Item, ItemAt, WellFormed, Shaped, WellFormedField, CellOf, TerminatedValue, SameValue, ReadyValue,
         ShapedValue, RequiredBefore, PlaceOf, Key, Stored, SeenWith, Decoded;
    FieldIsFine(d, i);
    TargetShaped(d, Start(m), i);
    TargetShaped(d, st, i);
    var at, f := CellOf(d, i), d.fields[i];
    var v, item, key := m[at].items[0], Item(f, m[at].items[0]).value, Key(WireType(f.kind), f.tag);
    assert FieldBytes(f, m[at]) == Some(key + item);
    Assoc(key, item, rest);
    KeyReads(d, st, i, WireType(f.kind), item + rest);
    SingleStep(d, st, i, WireType(f.kind), item + rest);
    StepShaped(d, st, i, WireType(f.kind), item + rest);
    ItemReads(f, v, PlaceOf(f, st.cells[at]), rest);
    after := st;
    SingleTerminated(f, m[at]);
    if TerminatedValue(f, v) {
      var c := Cell(SizeAfter(f, st.cells[at].size), [ItemAt(f, PlaceOf(f, st.cells[at]), item + rest).value]);
      after := Stored(d, st, i, c);
      TargetStored(d, st, i, c);
      StaysDone(d, st, after);
      DecodedIs(d, m, i, st, after);
    }
  }

  lemma SingleTerminated(f: Field, c: Cell)
    requires !f.Array() && |c.items| == 1 && (f.rule.Optional? ==> c.size != 0) && (f.rule.OneOf? ==> c.size == f.tag)
    ensures TerminatedCell(f, c) <==> TerminatedValue(f, c.items[0])
  {
    hide TerminatedValue;
  }

  lemma StaysDone(d: Descriptor, st: State, after: State)
    requires FixedDone(d, st) && after.fixed == st.fixed && after.fixedSize == st.fixedSize
    ensures FixedDone(d, after)
  {
  }

  // ---- Arrays ----

  // Since st0, the first k of these items were read into field i.
  ghost predicate Reading(d: Descriptor, i: nat, st0: State, items: seq<Value>, k: nat, st: State) {
    && i < |d.fields| && CellOf(d, i) < |st0.cells| && Shaped(d, st.cells)
    && st.cells == st0.cells[CellOf(d, i) := st.cells[CellOf(d, i)]]
    && st.seen == st0.seen
    && Target(d, st, i).size == k <= |items|
    && k <= |Target(d, st, i).items|
    && (forall j :: 0 <= j < k ==> SameValue(d.fields[i], items[j], Target(d, st, i).items[j]))
    && ((st.fixed == st0.fixed && st.fixedSize == st0.fixedSize) || (d.fields[i].rule.FixedCount? && st.fixed == Some(i)))
    && (d.fields[i].rule.FixedCount? ==> st.fixed == Some(i) || (k == 0 && FixedDone(d, st)))
  }

  lemma RecordStep(d: Descriptor, st: State, i: nat, wireType: nat, s: String)
    requires WellFormed(d) && Shaped(d, st.cells) && i < |d.fields| && d.fields[i].Array()
    requires d.fields[i].Packable() ==> wireType != WT_STRING
    requires WellFormedField(d.fields[i]) && (d.fields[i].rule.FixedCount? ==> st.fixed == Some(i) || FixedDone(d, st))
    requires CellOf(d, i) < |st.cells| && Target(d, st, i).size < d.fields[i].arraySize
    ensures var f, c := d.fields[i], Target(d, st, i);
            && |c.items| == f.arraySize && ShapedValue(f, c.items[c.size])
            && var p := ItemAt(f, c.items[c.size], s);
               Step(d, st, i, wireType, s)
               == if p.Failed? then Failed else Parsed(Stored(d, st, i, Cell(c.size + 1, c.items[c.size := p.value])), p.rest)
  {
    hide CellOf, WellFormed, Shaped, ItemAt, WellFormedField, ShapedValue, Stored, Target, FixedDone;
    TargetShaped(d, st, i);
  }

  // A cell that was stored is found again.
  lemma TargetStored(d: Descriptor, st: State, i: nat, c: Cell)
    requires i < |d.fields| && CellOf(d, i) < |st.cells|
    ensures var after := Stored(d, st, i, c);
            && |after.cells| == |st.cells| && Target(d, after, i) == c && after.seen == SeenWith(d, st.seen, i)
            && after.cells == st.cells[CellOf(d, i) := after.cells[CellOf(d, i)]]
            && (if d.fields[i].rule.FixedCount? then after.fixed == Some(i) && after.fixedSize == c.size
                else after.fixed == st.fixed && after.fixedSize == st.fixedSize)
  {
    hide CellOf, SeenWith;
  }

  lemma {:induction false} RecordsRead(d: Descriptor, i: nat, st0: State, items: seq<Value>, k: nat, st: State, rest: String)
    returns (after: State)
    requires WellFormed(d) && Reading(d, i, st0, items, k, st) && d.fields[i].Array()
    requires |items| <= d.fields[i].arraySize && forall j :: 0 <= j < |items| ==> ShapedValue(d.fields[i], items[j])
    requires var e := EntriesFrom(d.fields[i], items, k, true); e.Some? && |e.value| < TWO_32
    ensures var e := EntriesFrom(d.fields[i], items, k, true).value;
            if TerminatedItems(d.fields[i], items, k, |items|)
            then Reading(d, i, st0, items, |items|, after) && Run(d, st, e + rest) == Run(d, after, rest)
            else Run(d, st, e + rest) == Failed
    decreases d, 2, |items| - k
  {
    hide Run, Step, Item, ItemAt, WellFormed, Shaped, WellFormedField, CellOf, TerminatedValue, SameValue, ShapedValue,
         Key, Stored, Target, FixedDone, RequiredBefore;
    var f := d.fields[i];
    var e := EntriesFrom(f, items, k, true).value;
    after := st;
    if k == |items| {
      assert e + rest == rest;
    } else {
      FieldIsFine(d, i);
      var item, key, more := Item(f, items[k]).value, Key(WireType(f.kind), f.tag), EntriesFrom(f, items, k + 1, true).value;
      assert e == (key + item) + more;
      Assoc(key + item, more, rest);
      Assoc(key, item, more + rest);
      KeyReads(d, st, i, WireType(f.kind), item + (more + rest));
      RecordStep(d, st, i, WireType(f.kind), item + (more + rest));
      StepShaped(d, st, i, WireType(f.kind), item + (more + rest));
      var c := Target(d, st, i);
      ItemReads(f, items[k], c.items[k], more + rest);
      if TerminatedValue(f, items[k]) {
        var v := ItemAt(f, c.items[k], item + (more + rest)).value;
        var next := Stored(d, st, i, Cell(k + 1, c.items[k := v]));
        TargetStored(d, st, i, Cell(k + 1, c.items[k := v]));
        after := RecordsRead(d, i, st0, items, k + 1, next, rest);
      }
    }
  }

  // An array that was read is the field that was encoded.
  lemma ReadingDone(d: Descriptor, m: seq<Cell>, i: nat, st0: State, st: State, count: nat)
    requires WellFormed(d) && i < |d.fields| && Progress(d, m, i, st0) && d.fields[i].Array()
    requires count <= |m[CellOf(d, i)].items| && Reading(d, i, st0, m[CellOf(d, i)].items[..count], count, st)
    requires count == if d.fields[i].rule.FixedCount? then d.fields[i].arraySize else m[CellOf(d, i)].size
    ensures Decoded(d, m, i, st0, st)
  {
    hide WellFormed, Shaped, CellOf, SameValue, RequiredBefore, Decoded, Progress, FixedDone, SameCell;
    BeforeField(d, m, i, st0);
    TargetShaped(d, st, i);
    var at := CellOf(d, i);
    AllRead(d.fields[i], m[at], Target(d, st, i), st.cells[at], count);
    CountedOut(d, i, st0, st, m[at].items[..count], count);
    DecodedIs(d, m, i, st0, st);
  }

  lemma AllRead(f: Field, src: Cell, c: Cell, r: Cell, count: nat)
    requires f.Array() && count <= |src.items| == |c.items| && r.items == c.items
    requires forall k :: 0 <= k < count ==> SameValue(f, src.items[..count][k], c.items[k])
    requires count == if f.rule.FixedCount? then f.arraySize else src.size
    requires f.rule.Repeated? ==> r.size == count
    ensures SameCell(f, src, r)
  {
    hide SameValue;
    assert forall k :: 0 <= k < count ==> src.items[..count][k] == src.items[k];
  }

  lemma CountedOut(d: Descriptor, i: nat, st0: State, st: State, items: seq<Value>, count: nat)
    requires i < |d.fields| && d.fields[i].Array() && Reading(d, i, st0, items, count, st)
    requires FixedDone(d, st0) && (st0.fixed.Some? ==> st0.fixed.value < i)
    requires d.fields[i].rule.FixedCount? ==> count == d.fields[i].arraySize
    ensures FixedDone(d, st) && (st.fixed == st0.fixed || st.fixed == Some(i)) && SeenWith(d, st0.seen, i) == st.seen
  {
    hide Shaped, CellOf, SameValue, RequiredBefore;
  }

  lemma BeforeField(d: Descriptor, m: seq<Cell>, i: nat, st: State)
    requires WellFormed(d) && i < |d.fields| && Progress(d, m, i, st)
    ensures Shaped(d, m) && Shaped(d, st.cells) && CellOf(d, i) < |m| && CellOf(d, i) < |st.cells| && WellFormedField(d.fields[i])
    ensures ShapedCell(d.fields[i], m[CellOf(d, i)]) && ShapedCell(d.fields[i], st.cells[CellOf(d, i)])
    ensures ReadyCell(d.fields[i], st.cells[CellOf(d, i)])
    ensures FixedDone(d, st) && (st.fixed.Some? ==> st.fixed.value < i)
  {
    hide ShapedCell, ReadyCell, WellFormedField, CellOf, SameCell, FixedDone;
  }

  // What a change of the cell of field i alone has to show.
  lemma DecodedIs(d: Descriptor, m: seq<Cell>, i: nat, st: State, after: State)
    requires i < |d.fields| && Shaped(d, m) && Shaped(d, st.cells) && Shaped(d, after.cells)
    requires after.cells == st.cells[CellOf(d, i) := after.cells[CellOf(d, i)]]
    requires SameCell(d.fields[i], m[CellOf(d, i)], after.cells[CellOf(d, i)])
    requires d.fields[i].rule.OneOf? ==>
               after.cells[CellOf(d, i)] == st.cells[CellOf(d, i)] || m[CellOf(d, i)].size == after.cells[CellOf(d, i)].size == d.fields[i].tag
    requires SeenWith(d, st.seen, i) == after.seen && FixedDone(d, after) && (after.fixed == st.fixed || after.fixed == Some(i))
    ensures Decoded(d, m, i, st, after)
  {
    hide CellOf, Shaped, SameCell, SeenWith, FixedDone;
  }

  // Nothing of an array was read yet.
  lemma ReadingStarts(d: Descriptor, m: seq<Cell>, i: nat, st: State, items: seq<Value>)
    requires WellFormed(d) && i < |d.fields| && Progress(d, m, i, st) && d.fields[i].Array()
    ensures Reading(d, i, st, items, 0, st)
  {
    hide WellFormed, Shaped, CellOf, SameValue, RequiredBefore, FixedDone;
    TargetShaped(d, st, i);
  }

  lemma PackedStep(d: Descriptor, st: State, i: nat, contents: String, rest: String)
    requires WellFormed(d) && Shaped(d, st.cells) && i < |d.fields| && d.fields[i].Array() && d.fields[i].Packable()
    requires WellFormedField(d.fields[i]) && |contents| < TWO_32
    requires d.fields[i].rule.FixedCount? ==> st.fixed == Some(i) || FixedDone(d, st)
    ensures CellOf(d, i) < |st.cells|
    ensures var f, c := d.fields[i], Target(d, st, i);
            && |c.items| == f.arraySize && (forall k :: 0 <= k < |c.items| ==> ShapedValue(f, c.items[k]))
            && var p := PackedAt(f, c.items, c.size, contents);
               Step(d, st, i, WT_STRING, Delimited(contents) + rest)
               == if p.Failed? then Failed else Parsed(Stored(d, st, i, p.value), rest)
  {
    hide CellOf, WellFormed, Shaped, PackedAt, WellFormedField, ShapedValue, Stored, Target, FixedDone, DelimitedAt, Delimited;
    TargetShaped(d, st, i);
    DelimitedReads(contents, rest);
  }

  lemma PackedFieldReads(d: Descriptor, m: seq<Cell>, i: nat, st: State, items: seq<Value>, rest: String) returns (after: State)
    requires WellFormed(d) && i < |d.fields| && Progress(d, m, i, st) && d.fields[i].Array() && d.fields[i].Packable()
    requires |items| <= d.fields[i].arraySize && forall j :: 0 <= j < |items| ==> ShapedValue(d.fields[i], items[j])
    requires Packed(d.fields[i], items).Some? && |Packed(d.fields[i], items).value| < TWO_32
    ensures Reading(d, i, st, items, |items|, after)
    ensures Run(d, st, Packed(d.fields[i], items).value + rest) == Run(d, after, rest)
  {
    hide Run, Step, WellFormed, Shaped, WellFormedField, CellOf, SameValue, ShapedValue, Key, Stored, Target, FixedDone,
         Delimited, Progress, EntriesFrom, ShapedCell, ReadyCell, PackedAt, RequiredBefore;
    var f := d.fields[i];
    var key, contents := Key(WT_STRING, f.tag), EntriesFrom(f, items, 0, false).value;
    BeforeField(d, m, i, st);
    DelimitedIsLonger(contents);
    Assoc(key, Delimited(contents), rest);
    KeyReads(d, st, i, WT_STRING, Delimited(contents) + rest);
    PackedStep(d, st, i, contents, rest);
    StepShaped(d, st, i, WT_STRING, Delimited(contents) + rest);
    StartsAtZero(d, m, i, st);
    var c := Target(d, st, i);
    PackedReads(f, items, 0, c.items);
    var r := PackedAt(f, c.items, 0, contents).value;
    after := Stored(d, st, i, r);
    TargetStored(d, st, i, r);
  }

  lemma StartsAtZero(d: Descriptor, m: seq<Cell>, i: nat, st: State)
    requires WellFormed(d) && i < |d.fields| && Progress(d, m, i, st) && d.fields[i].Array()
    ensures CellOf(d, i) < |st.cells| && Target(d, st, i).size == 0
  {
    hide ShapedCell, WellFormedField, CellOf, SameCell, FixedDone;
  }

  lemma ArrayReads(d: Descriptor, m: seq<Cell>, i: nat, st: State, rest: String) returns (after: State)
    requires WellFormed(d) && i < |d.fields| && Progress(d, m, i, st) && d.fields[i].Array()
    requires CellOf(d, i) < |m| && ShapedCell(d.fields[i], m[CellOf(d, i)])
    requires FieldBytes(d.fields[i], m[CellOf(d, i)]).Some? && |FieldBytes(d.fields[i], m[CellOf(d, i)]).value| < TWO_32
    ensures Goes(d, m, i, st, FieldBytes(d.fields[i], m[CellOf(d, i)]).value, rest, after)
    decreases d, 3
  {
    hide Run, WellFormed, Shaped, WellFormedField, CellOf, ShapedValue, Progress, EntriesFrom, Reading, Decoded, Key, Delimited,
         TerminatedValue, TerminatedItems;
    var f, src := d.fields[i], m[CellOf(d, i)];
    var count := if f.rule.FixedCount? then f.arraySize else src.size;
    var e := FieldBytes(f, src).value;
    ArrayParts(f, src, count);
    BeforeField(d, m, i, st);
    after := st;
    var items := src.items[..count];
    ReadingStarts(d, m, i, st, items);
    if count == 0 {
      assert e + rest == rest;
    } else if f.Packable() {
      after := PackedFieldReads(d, m, i, st, items, rest);
    } else {
      after := RecordsRead(d, i, st, items, 0, st, rest);
    }
    if TerminatedItems(f, items, 0, count) {
      ReadingDone(d, m, i, st, after, count);
    }
  }

  // The bytes of an array by cases.
  lemma ArrayParts(f: Field, src: Cell, count: nat)
    requires f.Array() && ShapedCell(f, src) && count == (if f.rule.FixedCount? then f.arraySize else src.size)
    requires FieldBytes(f, src).Some?
    ensures count <= |src.items| == f.arraySize && forall j :: 0 <= j < |src.items| ==> ShapedValue(f, src.items[j])
    ensures TerminatedCell(f, src) <==> TerminatedItems(f, src.items[..count], 0, count)
    ensures count == 0 || f.Packable() ==> TerminatedItems(f, src.items[..count], 0, count)
    ensures FieldBytes(f, src)
            == if count == 0 then Some([]) else if f.Packable() then Packed(f, src.items[..count]) else EntriesFrom(f, src.items[..count], 0, true)
  {
    hide EntriesFrom, Key, Delimited, ShapedValue, TerminatedValue;
    var items := src.items[..count];
    assert forall k :: 0 <= k < count ==> items[k] == src.items[k];
    if f.Packable() {
      forall k | 0 <= k < count
        ensures TerminatedValue(f, items[k])
      {
        NotSubmessage(f);
        AlwaysTerminated(f, items[k]);
      }
    }
  }

  // ---- Whole messages ----

  lemma FieldReads(d: Descriptor, m: seq<Cell>, i: nat, st: State, rest: String) returns (after: State)
    requires WellFormed(d) && i < |d.fields| && Progress(d, m, i, st)
    requires CellOf(d, i) < |m| && ShapedCell(d.fields[i], m[CellOf(d, i)])
    requires FieldBytes(d.fields[i], m[CellOf(d, i)]).Some? && |FieldBytes(d.fields[i], m[CellOf(d, i)]).value| < TWO_32
    ensures Goes(d, m, i, st, FieldBytes(d.fields[i], m[CellOf(d, i)]).value, rest, after)
    decreases d, 4
  {
    hide Run, WellFormed, Shaped, WellFormedField, CellOf, ShapedValue, Progress, Array, Entry, Goes, SameItems, ReadyValue,
         TerminatedItems;
    var f, src := d.fields[i], m[CellOf(d, i)];
    if f.Array() {
      after := ArrayReads(d, m, i, st, rest);
    } else if f.rule.Required? || (f.rule.Optional? && src.size != 0) || (f.rule.OneOf? && src.size == f.tag) {
      after := SingleReads(d, m, i, st, rest);
    } else {
      after := st;
      BeforeField(d, m, i, st);
      NothingToRead(d, m, i, st, rest);
    }
  }

  // An absent field has no bytes, and the state says that it is absent.
  lemma NothingToRead(d: Descriptor, m: seq<Cell>, i: nat, st: State, rest: String)
    requires WellFormed(d) && i < |d.fields| && Shaped(d, m) && Shaped(d, st.cells) && CellOf(d, i) < |m| && CellOf(d, i) < |st.cells|
    requires ReadyCell(d.fields[i], st.cells[CellOf(d, i)]) && FixedDone(d, st) && (st.fixed.Some? ==> st.fixed.value < i)
    requires (d.fields[i].rule.Optional? && m[CellOf(d, i)].size == 0) || (d.fields[i].rule.OneOf? && m[CellOf(d, i)].size != d.fields[i].tag)
    ensures Goes(d, m, i, st, [], rest, st)
  {
    hide Run, WellFormed, Shaped, CellOf, ReadyValue, Decoded, FixedDone;
    assert [] + rest == rest;
    assert st.cells == st.cells[CellOf(d, i) := st.cells[CellOf(d, i)]];
    DecodedIs(d, m, i, st, st);
  }

  lemma {:induction false} FieldsRead(d: Descriptor, m: seq<Cell>, i: nat, st: State)
    requires WellFormed(d) && i <= |d.fields| && Progress(d, m, i, st) && Marked(d, i, st.seen)
    requires FieldsFrom(d, m, i).Some? && |FieldsFrom(d, m, i).value| < TWO_32
    ensures var p := Run(d, st, FieldsFrom(d, m, i).value);
            if TerminatedFrom(d, m, i) then p.Parsed? && p.rest == [] && Same(d, m, p.value) else p.Failed?
    decreases d, 5, |d.fields| - i
  {
    hide Run, WellFormed, Shaped, WellFormedField, CellOf, ShapedCell, Progress, FieldBytes, Decoded, Same, TerminatedCell;
    ProgressShaped(d, m, i, st);
    if i == |d.fields| {
      Complete(d, m, st);
    } else {
      FieldsStep(d, m, i);
      var e, rest := FieldBytes(d.fields[i], m[CellOf(d, i)]).value, FieldsFrom(d, m, i + 1).value;
      var after := FieldReads(d, m, i, st, rest);
      TerminatedStep(d, m, i);
      if TerminatedCell(d.fields[i], m[CellOf(d, i)]) {
        Advance(d, m, i, st, after);
        NextMarked(d, m, i, st, after);
        FieldsRead(d, m, i + 1, after);
      }
    }
  }

  lemma NextMarked(d: Descriptor, m: seq<Cell>, i: nat, st: State, after: State)
    requires i < |d.fields| && Shaped(d, m) && Shaped(d, st.cells) && Decoded(d, m, i, st, after) && Marked(d, i, st.seen)
    ensures Marked(d, i + 1, after.seen)
  {
    hide CellOf, Shaped, SameCell, FixedDone;
  }

  ghost predicate TerminatedFrom(d: Descriptor, m: seq<Cell>, i: nat) {
    forall j :: i <= j < |d.fields| && CellOf(d, j) < |m| ==> TerminatedCell(d.fields[j], m[CellOf(d, j)])
  }

  lemma TerminatedStep(d: Descriptor, m: seq<Cell>, i: nat)
    requires i < |d.fields| && CellOf(d, i) < |m|
    ensures TerminatedFrom(d, m, i) <==> TerminatedCell(d.fields[i], m[CellOf(d, i)]) && TerminatedFrom(d, m, i + 1)
  {
    hide CellOf, TerminatedCell;
  }

  lemma ProgressShaped(d: Descriptor, m: seq<Cell>, i: nat, st: State)
    requires i <= |d.fields| && Progress(d, m, i, st)
    ensures Shaped(d, m) && Shaped(d, st.cells)
  {
    hide Shaped, CellOf, SameCell, ReadyCell, FixedDone, RequiredBefore;
  }

  // Behind the last field, all checks succeed.
  lemma Complete(d: Descriptor, m: seq<Cell>, st: State)
    requires WellFormed(d) && Progress(d, m, |d.fields|, st) && Marked(d, |d.fields|, st.seen)
    ensures Run(d, st, []) == Parsed(st.cells, []) && Same(d, m, st.cells) && TerminatedFrom(d, m, |d.fields|)
  {
    hide Run, WellFormed, CellOf, SameCell, RequiredBefore, ShapedCell;
    RunEnds(d, st);
    forall k: nat | k < Tracked(d)
      ensures k in st.seen
    {
      var i := RequiredAt(d, k, |d.fields|);
    }
  }

  lemma MessageReads(d: Descriptor, m: seq<Cell>, start: seq<Cell>)
    requires WellFormed(d) && Shaped(d, m) && Shaped(d, start) && Ready(d, start)
    requires Encoding(d, m).Some? && |Encoding(d, m).value| < TWO_32
    ensures MessageOutcome(d, m, Run(d, Start(start), Encoding(d, m).value))
    decreases d, 6
  {
    hide Run, WellFormed, Same, ReadyCell, SameCell, TerminatedCell, CellOf, Shaped;
    Begins(d, m, start);
    FieldsRead(d, m, 0, Start(start));
  }

  lemma Begins(d: Descriptor, m: seq<Cell>, start: seq<Cell>)
    requires Shaped(d, m) && Shaped(d, start) && Ready(d, start)
    ensures Progress(d, m, 0, Start(start)) && Marked(d, 0, {}) && (TerminatedFrom(d, m, 0) <==> Terminated(d, m))
  {
    hide SameCell, ReadyCell, ShapedCell, CellOf, TerminatedCell;
  }

  // Decoding what was encoded gives the message back, whatever the struct held before, exactly when every
  // string in it is terminated.
  lemma DecodeUndoesEncode(d: Descriptor, m: seq<Cell>, dest: seq<Cell>)
    requires WellFormed(d) && Shaped(d, m) && Shaped(d, dest)
    requires Encoding(d, m).Some? && |Encoding(d, m).value| < TWO_32
    ensures Decoding(d, dest, Encoding(d, m).value).Parsed? <==> Terminated(d, m)
    ensures var p := Decoding(d, dest, Encoding(d, m).value); p.Parsed? ==> p.rest == [] && Same(d, m, p.value)
  {
    hide Run, WellFormed, Shaped, Ready, Defaults, Encoding, Same, Terminated;
    MessageReads(d, m, Defaults(d, dest));
  }

  // A one-byte buffer that a single character fills is written, and is refused by the decoder.
  lemma UnterminatedIsRefused(dest: seq<Cell>)
    requires Shaped(OneString(), dest)
    ensures WellFormed(OneString()) && Shaped(OneString(), FullBuffer())
    ensures Encoding(OneString(), FullBuffer()).Some?
    ensures Decoding(OneString(), dest, Encoding(OneString(), FullBuffer()).value).Failed?
  {
    hide Varint, Decoding;
    var d, m := OneString(), FullBuffer();
    var f := d.fields[0];
    assert WellFormed(Descriptor([]));
    assert Shaped(d, m);
    assert TextOf([65]) == [65];
    assert Item(f, m[0].items[0]) == Some(Delimited([65]));
    assert FieldBytes(f, m[0]) == Some(Key(WT_STRING, 1) + Delimited([65]));
    FieldsStep(d, m, 0);
    FieldsEnd(d, m);
    Short(10);
    Short(1);
    assert !TerminatedCell(f, m[0]) by {
      assert !TerminatedValue(f, m[0].items[0]);
    }
    DecodeUndoesEncode(d, m, dest);
  }

  function OneString(): Descriptor {
    Descriptor([Field(1, LString, Required, 1, 0, false, Descriptor([]), None)])
  }

  function FullBuffer(): seq<Cell> {
    [Cell(0, [Raw([65])])]
  }

  lemma Short(n: nat)
    requires n < 128
    ensures |Varint(n)| == 1
  {
  }

  // ---- Fields that nobody knows ----

  // A complete field of a tag that the descriptor does not have, wherever the decoder meets it, changes
  // nothing: newer senders may add fields.
  lemma UnknownFieldsIgnored(d: Descriptor, st: State, u: String, rest: String)
    requires WellFormed(d) && Shaped(d, st.cells) && ReadTag(u).Tag? && ReadTag(u).tag > 0
    requires AfterField(ReadTag(u).rest, ReadTag(u).wireType) == Some([])
    requires forall i :: 0 <= i < |d.fields| ==> d.fields[i].tag != ReadTag(u).tag
    ensures Run(d, st, u + rest) == Run(d, st, rest)
  {
    hide WellFormed, Shaped, Run, ReadTag, AfterField;
    TagExtends(u, rest);
    FieldExtends(ReadTag(u).rest, ReadTag(u).wireType, rest);
    RunUnknown(d, st, u + rest);
    assert [] + rest == rest;
  }

  // Any number of them, in front of an encoded message, are skipped on the way to it.
  lemma DecodeSkipsUnknown(d: Descriptor, m: seq<Cell>, dest: seq<Cell>, unknown: seq<String>)
    requires WellFormed(d) && Shaped(d, m) && Shaped(d, dest)
    requires Encoding(d, m).Some? && |Encoding(d, m).value| < TWO_32
    requires forall k :: 0 <= k < |unknown| ==> Unknown(d, unknown[k])
    ensures var p := Decoding(d, dest, AllOf(unknown) + Encoding(d, m).value);
            if Terminated(d, m) then p.Parsed? && p.rest == [] && Same(d, m, p.value) else p.Failed?
  {
    hide WellFormed, Shaped, Encoding, Run, Same, Terminated, Defaults, Unknown;
    RunSkips(d, Start(Defaults(d, dest)), unknown, Encoding(d, m).value);
    DecodeUndoesEncode(d, m, dest);
  }

  ghost predicate Unknown(d: Descriptor, u: String) {
    && ReadTag(u).Tag? && ReadTag(u).tag > 0
    && AfterField(ReadTag(u).rest, ReadTag(u).wireType) == Some([])
    && forall i :: 0 <= i < |d.fields| ==> d.fields[i].tag != ReadTag(u).tag
  }

  function AllOf(parts: seq<String>): String {
    if parts == [] then [] else parts[0] + AllOf(parts[1..])
  }

  lemma {:induction false} RunSkips(d: Descriptor, st: State, unknown: seq<String>, rest: String)
    requires WellFormed(d) && Shaped(d, st.cells) && forall k :: 0 <= k < |unknown| ==> Unknown(d, unknown[k])
    ensures Run(d, st, AllOf(unknown) + rest) == Run(d, st, rest)
  {
    hide WellFormed, Shaped, Run, ReadTag, AfterField;
    if unknown == [] {
      assert [] + rest == rest;
    } else {
      assert Unknown(d, unknown[0]);
      Assoc(unknown[0], AllOf(unknown[1..]), rest);
      UnknownFieldsIgnored(d, st, unknown[0], AllOf(unknown[1..]) + rest);
      RunSkips(d, st, unknown[1..], rest);
    }
  }

  // ---- Encoding again ----

  lemma SameItemEncodes(f: Field, v: Value, w: Value)
    requires ShapedValue(f, v) && ShapedValue(f, w) && SameValue(f, v, w)
    ensures Item(f, v) == Item(f, w)
    decreases f, 0
  {
    hide Encoding, Same, Shaped, Varint, TextOf, Fixed, Delimited;
    if f.kind.LSubmessage? {
      SameEncodes(f.sub, v.cells, w.cells);
    }
  }

  lemma {:induction false} SameEntriesEncode(f: Field, items: seq<Value>, others: seq<Value>, k: nat, tagged: bool)
    requires k <= |items| == |others| && forall j :: 0 <= j < |items| ==> ShapedValue(f, items[j]) && ShapedValue(f, others[j])
    requires forall j :: 0 <= j < |items| ==> SameValue(f, items[j], others[j])
    ensures EntriesFrom(f, items, k, tagged) == EntriesFrom(f, others, k, tagged)
    decreases f, 1, |items| - k
  {
    hide Item, ShapedValue, SameValue, Join;
    if k < |items| {
      SameItemEncodes(f, items[k], others[k]);
      SameEntriesEncode(f, items, others, k + 1, tagged);
    }
  }

  lemma SameCellEncodes(f: Field, c: Cell, r: Cell)
    requires ShapedCell(f, c) && ShapedCell(f, r) && SameCell(f, c, r)
    ensures FieldBytes(f, c) == FieldBytes(f, r)
    decreases f, 2
  {
    hide Item, ShapedValue, SameValue, EntriesFrom, Key, Delimited;
    if f.Array() {
      var count := if f.rule.FixedCount? then f.arraySize else c.size;
      if count <= f.arraySize {
        var items, others := c.items[..count], r.items[..count];
        assert forall j :: 0 <= j < count ==> items[j] == c.items[j] && others[j] == r.items[j];
        SameEntriesEncode(f, items, others, 0, !f.Packable());
      }
    } else if f.rule.Required? || (f.rule.Optional? && c.size != 0) || (f.rule.OneOf? && c.size == f.tag) {
      SameItemEncodes(f, c.items[0], r.items[0]);
    }
  }

  lemma {:induction false} SameFieldsEncode(d: Descriptor, m: seq<Cell>, r: seq<Cell>, i: nat)
    requires Shaped(d, m) && Shaped(d, r) && Same(d, m, r) && i <= |d.fields|
    ensures FieldsFrom(d, m, i) == FieldsFrom(d, r, i)
    decreases d, 0, |d.fields| - i
  {
    hide FieldBytes, ShapedCell, SameCell, Join, CellOf;
    if i < |d.fields| {
      SameCellEncodes(d.fields[i], m[CellOf(d, i)], r[CellOf(d, i)]);
      SameFieldsEncode(d, m, r, i + 1);
    }
  }

  // What cannot be told apart is encoded alike, so encoding what was decoded gives the same bytes again.
  lemma SameEncodes(d: Descriptor, m: seq<Cell>, r: seq<Cell>)
    requires Shaped(d, m) && Shaped(d, r) && Same(d, m, r)
    ensures Encoding(d, m) == Encoding(d, r)
    decreases d, 1
  {
    hide FieldsFrom, Shaped, Same;
    SameFieldsEncode(d, m, r, 0);
    FieldsEnd(d, m);
    FieldsEnd(d, r);
  }

  // ---- Through buffers ----

  // A buffer is written by pb_encode and read by pb_decode into any struct.
  method ThroughBuffer(d: Descriptor, m: seq<Cell>, dest: seq<Cell>, bufsize: nat) returns (encoded: bool, decoded: bool, r: seq<Cell>)
    requires WellFormed(d) && Shaped(d, m) && Shaped(d, dest) && bufsize < TWO_32
    ensures encoded <==> Encoding(d, m).Some? && |Encoding(d, m).value| <= bufsize
    ensures encoded ==> (decoded <==> Terminated(d, m))
    ensures encoded && decoded ==> Shaped(d, r) && Same(d, m, r) && Encoding(d, r) == Encoding(d, m)
  {
    hide WellFormed, Shaped, Encoding, Same, Terminated, Decoding;
    r, decoded := dest, false;
    var ostream := new OStream.FromBuffer(bufsize);
    encoded := Encode(ostream, d, m);
    if encoded {
      WrittenIs(d, m, ostream.Space(), ostream.Now());
      var istream := new IStream.FromBuffer(ostream.output);
      DecodeUndoesEncode(d, m, dest);
      decoded, r := Decode(istream, d, dest);
      if decoded {
        SameEncodes(d, m, r);
      }
    }
  }

  lemma WrittenIs(d: Descriptor, m: seq<Cell>, room: Room, after: Mark)
    requires Shaped(d, m) && !room.sizing && Emits(room, Mark(0, []), after, true, Encoding(d, m))
    ensures Encoding(d, m).Some? && after.output == Encoding(d, m).value && |after.output| <= room.maxSize
  {
    hide Shaped, Encoding;
  }
}
