/** nanopb, pb_decode.c: default values and the decoder driven by descriptors, on any input. */
module ProtobufDecoders {
  import opened Bytes
  import opened Coding
  import opened Options
  import opened ProtobufFields
  import opened ProtobufInput

  const MAX_REQUIRED_FIELDS: nat := 64

  // ---- Default values ----

  function Zeros(n: nat): (s: String)
    ensures |s| == n
  {
    seq(n, _ => 0)
  }

  // Memory that was cleared, as a value of this field.
  function Zero(f: Field): (v: Value)
    requires WellFormedField(f)
    ensures ShapedValue(f, v)
    decreases f, 0
  {
    match f.kind
    case LBytes => Raw([])
    case LString => Raw(Zeros(f.dataSize))
    case LFixedLengthBytes => Raw(Zeros(f.dataSize))
    case LSubmessage => Struct(ZeroCells(f.sub))
    case _ => Number(0)
  }

  function ZeroCell(f: Field): (c: Cell)
    requires WellFormedField(f)
    ensures ShapedCell(f, c) && c.size == 0
    decreases f, 1
  {
    if f.Array() then Cell(0, seq(f.arraySize, _ => Zero(f)))
    else if f.rule.OneOf? then Cell(0, [Number(0)])
    else Cell(0, [Zero(f)])
  }

  // The first n fields have their cells, and these are all.
  ghost predicate ShapedUpTo(d: Descriptor, cells: seq<Cell>, n: nat)
    requires n <= |d.fields|
  {
    && |cells| == (if n == 0 then 0 else CellOf(d, n - 1) + 1)
    && (forall j :: 0 <= j < n ==> CellOf(d, j) < |cells| && ShapedCell(d.fields[j], cells[CellOf(d, j)]))
    && (n > 0 && d.fields[n - 1].rule.OneOf? ==> cells[CellOf(d, n - 1)].size == 0)
  }

  function ZeroCellsUpTo(d: Descriptor, n: nat): (cells: seq<Cell>)
    requires WellFormed(d) && n <= |d.fields|
    ensures ShapedUpTo(d, cells, n)
    decreases d, 0, n
  {
    if n == 0 then []
    else
      var front, f := ZeroCellsUpTo(d, n - 1), d.fields[n - 1];
      NextCell(d, front, n, ZeroCell(f));
      if n > 1 && SharesUnion(d.fields[n - 2], f) then front else front + [ZeroCell(f)]
  }

  lemma NextCell(d: Descriptor, front: seq<Cell>, n: nat, c: Cell)
    requires WellFormed(d) && 0 < n <= |d.fields| && ShapedUpTo(d, front, n - 1)
    requires ShapedCell(d.fields[n - 1], c) && c.size == 0
    ensures ShapedUpTo(d, if n > 1 && SharesUnion(d.fields[n - 2], d.fields[n - 1]) then front else front + [c], n)
  {
    hide ShapedCell, WellFormedField, CellOf;
    var f := d.fields[n - 1];
    NextPlace(d, n - 1);
    TagIsPositive(f);
    if n > 1 && SharesUnion(d.fields[n - 2], f) {
      EmptyMember(f, front[CellOf(d, n - 1)]);
    }
  }

  lemma NextPlace(d: Descriptor, i: nat)
    requires i < |d.fields|
    ensures i == 0 ==> CellOf(d, i) == 0
    ensures i > 0 ==> CellOf(d, i) == CellOf(d, i - 1) + if SharesUnion(d.fields[i - 1], d.fields[i]) then 0 else 1
  {
  }

  lemma EmptyMember(f: Field, c: Cell)
    requires f.rule.OneOf? && f.tag > 0 && c.size == 0 && |c.items| == 1
    ensures ShapedCell(f, c)
  {
  }

  // A struct that was cleared.
  function ZeroCells(d: Descriptor): (cells: seq<Cell>)
    requires WellFormed(d)
    ensures Shaped(d, cells)
    decreases d, 1
  {
    AllShaped(d, ZeroCellsUpTo(d, |d.fields|));
    ZeroCellsUpTo(d, |d.fields|)
  }

  lemma AllShaped(d: Descriptor, cells: seq<Cell>)
    ensures ShapedUpTo(d, cells, |d.fields|) ==> Shaped(d, cells)
  {
    hide ShapedCell, CellOf;
  }

  // A message that nothing was decoded into yet.
  ghost predicate ReadyValue(f: Field, v: Value)
    decreases f, 0
  {
    f.kind.LSubmessage? ==> v.Struct? && Ready(f.sub, v.cells)
  }

  ghost predicate ReadyCell(f: Field, c: Cell)
    decreases f, 1
  {
    match f.rule
    case Required => |c.items| == 1 && ReadyValue(f, c.items[0])
    case Optional => |c.items| == 1 && ReadyValue(f, c.items[0]) && c.size == 0
    case Repeated => c.size == 0
    case OneOf => c.size != f.tag
    case FixedCount => true
  }

  ghost predicate Ready(d: Descriptor, cells: seq<Cell>)
    decreases d
  {
    forall i :: 0 <= i < |d.fields| ==> CellOf(d, i) < |cells| && ReadyCell(d.fields[i], cells[CellOf(d, i)])
  }

  // pb_field_set_to_default, for the data of a field that is not repeated and not in a union.
  ghost function DefaultValue(f: Field, v: Value): (r: Value)
    requires WellFormedField(f) && ShapedValue(f, v)
    ensures ShapedValue(f, r) && ReadyValue(f, r)
    decreases f, 0
  {
    if f.kind.LSubmessage? then Struct(Defaults(f.sub, v.cells))
    else if f.initial.Some? then f.initial.value
    else Zero(f)
  }

  ghost function DefaultCell(f: Field, c: Cell): (r: Cell)
    requires WellFormedField(f) && ShapedCell(f, c)
    ensures ShapedCell(f, r) && ReadyCell(f, r) && (f.rule.OneOf? ==> r.size == 0)
    decreases f, 1
  {
    match f.rule
    case Required => c.(items := [DefaultValue(f, c.items[0])])
    case Optional => Cell(0, [DefaultValue(f, c.items[0])])
    case FixedCount => c
    case _ => c.(size := 0)
  }

  ghost predicate ReadyUpTo(d: Descriptor, cells: seq<Cell>, n: nat)
    requires n <= |d.fields|
  {
    Shaped(d, cells) && forall j :: 0 <= j < n ==> ReadyCell(d.fields[j], cells[CellOf(d, j)])
  }

  ghost function DefaultsUpTo(d: Descriptor, cells: seq<Cell>, n: nat): (r: seq<Cell>)
    requires WellFormed(d) && Shaped(d, cells) && n <= |d.fields|
    ensures ReadyUpTo(d, r, n)
    decreases d, 0, n
  {
    if n == 0 then cells else DefaultField(d, DefaultsUpTo(d, cells, n - 1), n - 1)
  }

  ghost function DefaultField(d: Descriptor, cells: seq<Cell>, i: nat): (r: seq<Cell>)
    requires WellFormed(d) && i < |d.fields| && ReadyUpTo(d, cells, i)
    ensures ReadyUpTo(d, r, i + 1)
    decreases d, 0, i, 0
  {
    var c := DefaultCell(d.fields[i], cells[CellOf(d, i)]);
    StoreKeepsShape(d, cells, i, c);
    StoreKeepsReady(d, cells, i, c);
    cells[CellOf(d, i) := c]
  }

  lemma StoreKeepsReady(d: Descriptor, cells: seq<Cell>, n: nat, c: Cell)
    requires WellFormed(d) && Shaped(d, cells) && n < |d.fields|
    requires ReadyCell(d.fields[n], c) && (d.fields[n].rule.OneOf? ==> c.size == 0)
    requires forall j :: 0 <= j < n ==> ReadyCell(d.fields[j], cells[CellOf(d, j)])
    ensures forall j :: 0 <= j <= n ==> CellOf(d, j) < |cells| && ReadyCell(d.fields[j], cells[CellOf(d, n) := c][CellOf(d, j)])
  {
    hide ShapedCell, WellFormedField, CellOf, ReadyValue;
    forall j | 0 <= j <= n
      ensures CellOf(d, j) < |cells| && ReadyCell(d.fields[j], cells[CellOf(d, n) := c][CellOf(d, j)])
    {
      if j < n && CellOf(d, j) == CellOf(d, n) {
        SharedCell(d, j, n);
        TagIsPositive(d.fields[j]);
      }
    }
  }

  // pb_message_set_to_defaults
  ghost function Defaults(d: Descriptor, cells: seq<Cell>): (r: seq<Cell>)
    requires WellFormed(d) && Shaped(d, cells)
    ensures Shaped(d, r) && Ready(d, r)
    decreases d, 1
  {
    AllReady(d, DefaultsUpTo(d, cells, |d.fields|));
    DefaultsUpTo(d, cells, |d.fields|)
  }

  lemma AllReady(d: Descriptor, cells: seq<Cell>)
    ensures ReadyUpTo(d, cells, |d.fields|) ==> Shaped(d, cells) && Ready(d, cells)
  {
    hide ShapedCell, ReadyCell, CellOf;
  }

  // ---- What is decoded from given bytes ----

  // An unsigned number read as a signed one of this many bytes.
  function SignedOf(u: int, size: nat): int {
    var m := u % (2 * Half(size));
    if m < Half(size) then m else m - 2 * Half(size)
  }

  function UnZigZag(v: nat): int {
    if v % 2 == 1 then -(v / 2) - 1 else v / 2
  }

  // The last steps of the varint decoders: cast to the size of the field, and refuse what does not fit.
  function NumberOf(f: Field, v: nat): (n: Option<int>)
    ensures n.Some? ==> ShapedNumber(f, n.value) || f.kind.LFixed32? || f.kind.LFixed64?
  {
    if !IntegerSize(f.dataSize) then None
    else
      match f.kind
      case LVarint =>
        var svalue := SignedOf(v, if f.dataSize == 8 then 8 else 4);
        var clamped := SignedOf(svalue, f.dataSize);
        if clamped == svalue then Some(clamped) else None
      case LUvarint =>
        var clamped := v % (2 * Half(f.dataSize));
        if clamped == v then Some(clamped) else None
      case LSvarint =>
        var value := UnZigZag(v);
        var clamped := SignedOf(value, f.dataSize);
        if clamped == value then Some(clamped) else None
      case _ => None
  }

  // Exactly what fits is taken, and as what it stands for.
  lemma NumberTaken(f: Field, v: nat)
    requires f.kind.LVarint? || f.kind.LUvarint? || f.kind.LSvarint?
    ensures var n := if f.kind.LVarint? then SignedOf(v, if f.dataSize == 8 then 8 else 4) else if f.kind.LUvarint? then v else UnZigZag(v);
            var low := if f.kind.LUvarint? then 0 else -Half(f.dataSize);
            var high := if f.kind.LUvarint? then 2 * Half(f.dataSize) else Half(f.dataSize);
            NumberOf(f, v) == if IntegerSize(f.dataSize) && low <= n < high then Some(n) else None
  {
    hide UnZigZag;
    if IntegerSize(f.dataSize) {
      if f.kind.LVarint? {
        CastKeeps(SignedOf(v, if f.dataSize == 8 then 8 else 4), f.dataSize);
      } else if f.kind.LSvarint? {
        CastKeeps(UnZigZag(v), f.dataSize);
      }
    }
  }

  lemma CastKeeps(n: int, size: nat)
    requires IntegerSize(size)
    ensures SignedOf(n, size) == n <==> -Half(size) <= n < Half(size)
  {
  }

  function VarintItem(f: Field, s: String): (p: Parsed<Value>)
    ensures p.Parsed? ==> |p.rest| < |s|
  {
    match Varint64At(s)
    case Failed => Failed
    case Parsed(v, rest) => if NumberOf(f, v).Some? then Parsed(Number(NumberOf(f, v).value), rest) else Failed
  }

  function FixedItem(s: String, n: nat): (p: Parsed<Value>)
    ensures p.Parsed? ==> |p.rest| == |s| - n && p.value.Number?
  {
    match Front(s, n)
    case Failed => Failed
    case Parsed(bytes, rest) => Parsed(Number(FromFixed(bytes)), rest)
  }

  function BytesItem(f: Field, s: String): (p: Parsed<Value>)
    ensures p.Parsed? ==> |p.rest| < |s| && p.value.Raw? && |p.value.bytes| < TWO_32
  {
    match DelimitedAt(s)
    case Failed => Failed
    case Parsed(bytes, rest) => if |bytes| + SIZE_BYTES > f.dataSize then Failed else Parsed(Raw(bytes), rest)
  }

  // What stays behind a terminator at n. A buffer that a union used for something else counts as cleared.
  function AfterTerminator(f: Field, v: Value, n: nat): (t: String)
    requires n < f.dataSize
    ensures |t| == f.dataSize - n - 1
  {
    if v.Raw? && |v.bytes| == f.dataSize then v.bytes[n + 1..] else Zeros(f.dataSize - n - 1)
  }

  // The characters and a terminator, over what the buffer held.
  function StringItem(f: Field, v: Value, s: String): (p: Parsed<Value>)
    ensures p.Parsed? ==> |p.rest| < |s| && p.value.Raw? && |p.value.bytes| == f.dataSize
  {
    match DelimitedAt(s)
    case Failed => Failed
    case Parsed(bytes, rest) =>
      if |bytes| + 1 > f.dataSize then Failed else Parsed(Raw(bytes + [0] + AfterTerminator(f, v, |bytes|)), rest)
  }

  // An empty string of bytes stands for zeros.
  function FixedBytesItem(f: Field, s: String): (p: Parsed<Value>)
    ensures p.Parsed? ==> |p.rest| < |s| && p.value.Raw? && |p.value.bytes| == f.dataSize
  {
    match ReadVarint32(s)
    case Failed => Failed
    case Parsed(n, rest) =>
      if n == 0 then Parsed(Raw(Zeros(f.dataSize)), rest)
      else if n != f.dataSize then Failed
      else
        match Front(rest, n)
        case Failed => Failed
        case Parsed(bytes, behind) => Parsed(Raw(bytes), behind)
  }

  function BoolItem(s: String): (p: Parsed<Value>)
    ensures p.Parsed? ==> |p.rest| < |s| && p.value.Number?
  {
    match ReadVarint32(s)
    case Failed => Failed
    case Parsed(n, rest) => Parsed(Number(OneIf(n != 0)), rest)
  }

  // PB_DECODERS: an item read into a place that holds v.
  ghost function ItemAt(f: Field, v: Value, s: String): (p: Parsed<Value>)
    requires WellFormedField(f) && (f.kind.LSubmessage? ==> ShapedValue(f, v))
    ensures p.Parsed? ==> |p.rest| < |s| && ShapedValue(f, p.value)
    decreases f, 0
  {
    match f.kind
    case LBool => BoolItem(s)
    case LFixed32 => NumbersFit(s, 4); FixedItem(s, 4)
    case LFixed64 => NumbersFit(s, 8); FixedItem(s, 8)
    case LBytes => BytesItem(f, s)
    case LString => StringItem(f, v, s)
    case LFixedLengthBytes => FixedBytesItem(f, s)
    case LSubmessage =>
      match DelimitedAt(s) {
        case Failed => Failed
        case Parsed(contents, rest) =>
          var start := if f.Array() then Defaults(f.sub, v.cells) else v.cells;
          match Run(f.sub, Start(start), contents)
          case Failed => Failed
          case Parsed(cells, _) => Parsed(Struct(cells), rest)
      }
    case _ => VarintItem(f, s)
  }

  lemma {:induction false} FromFixedFits(s: String)
    ensures FromFixed(s) < Power(256, |s|)
  {
    if s != [] {
      FromFixedFits(s[1..]);
    }
  }

  lemma NumbersFit(s: String, n: nat)
    requires n == 4 || n == 8
    ensures FixedItem(s, n).Parsed? ==> FixedItem(s, n).value.n < (if n == 4 then TWO_32 else TWO_64) && FixedItem(s, n).value.n >= 0
  {
    hide FromFixed, Power;
    if n <= |s| {
      FromFixedFits(s[..n]);
      PowersOf256();
    }
  }

  // The items of a packed array, until its bytes are used up.
  ghost function PackedAt(f: Field, items: seq<Value>, size: nat, s: String): (p: Parsed<Cell>)
    requires WellFormedField(f) && f.Packable()
    requires |items| == f.arraySize && forall k :: 0 <= k < |items| ==> ShapedValue(f, items[k])
    ensures p.Parsed? ==> |p.value.items| == f.arraySize && forall k :: 0 <= k < |p.value.items| ==> ShapedValue(f, p.value.items[k])
    decreases f, 1, |s|
  {
    if s == [] then Parsed(Cell(size, items), s)
    else if size >= f.arraySize then Failed
    else
      match ItemAt(f, items[size], s)
      case Failed => Failed
      case Parsed(v, rest) => PackedAt(f, items[size := v], size + 1, rest)
  }

  // decode_static_field, with the counter of the array in the cell.
  ghost function CellAt(f: Field, c: Cell, wireType: nat, s: String): (p: Parsed<Cell>)
    requires WellFormedField(f) && ShapedCell(f, c)
    ensures p.Parsed? ==> |p.rest| < |s| && ShapedCell(f, p.value)
    ensures p.Parsed? && f.rule.OneOf? ==> p.value.size == f.tag
    decreases f, 2
  {
    match f.rule
    case Required => OneItem(f, c.size, c.items[0], s)
    case Optional => OneItem(f, 1, c.items[0], s)
    case OneOf =>
      OneItem(f, f.tag, if f.kind.LSubmessage? && c.size != f.tag then Struct(Defaults(f.sub, ZeroCells(f.sub))) else c.items[0], s)
    case _ =>
      if wireType == WT_STRING && f.Packable() then
        match DelimitedAt(s)
        case Failed => Failed
        case Parsed(contents, rest) =>
          match PackedAt(f, c.items, c.size, contents)
          case Failed => Failed
          case Parsed(after, _) => Parsed(after, rest)
      else if c.size >= f.arraySize then Failed
      else
        match ItemAt(f, c.items[c.size], s)
        case Failed => Failed
        case Parsed(v, rest) => Parsed(Cell(c.size + 1, c.items[c.size := v]), rest)
  }

  ghost function OneItem(f: Field, size: nat, v: Value, s: String): (p: Parsed<Cell>)
    requires WellFormedField(f) && (f.kind.LSubmessage? ==> ShapedValue(f, v))
    ensures p.Parsed? ==> |p.rest| < |s| && p.value.size == size && |p.value.items| == 1 && ShapedValue(f, p.value.items[0])
    decreases f, 1
  {
    match ItemAt(f, v, s)
    case Failed => Failed
    case Parsed(w, rest) => Parsed(Cell(size, [w]), rest)
  }

  // ---- A whole message ----

  // The struct, the required fields seen, and the array of fixed length that is being filled.
  datatype State = State(cells: seq<Cell>, seen: set<nat>, fixed: Option<nat>, fixedSize: nat)

  function Start(cells: seq<Cell>): State {
    State(cells, {}, None, 0)
  }

  predicate FixedDone(d: Descriptor, st: State) {
    st.fixed.Some? && st.fixed.value < |d.fields| ==> st.fixedSize == d.fields[st.fixed.value].arraySize
  }

  // The number of required fields that are kept track of.
  function Tracked(d: Descriptor): (n: nat)
    ensures n <= MAX_REQUIRED_FIELDS
  {
    if RequiredBefore(d, |d.fields|) > MAX_REQUIRED_FIELDS then MAX_REQUIRED_FIELDS else RequiredBefore(d, |d.fields|)
  }

  predicate AllSeen(d: Descriptor, seen: set<nat>) {
    forall k: nat :: k < Tracked(d) ==> k in seen
  }

  // The checks behind the loop of pb_decode_noinit.
  function Finish(d: Descriptor, st: State, rest: String): Parsed<seq<Cell>> {
    if FixedDone(d, st) && AllSeen(d, st.seen) then Parsed(st.cells, rest) else Failed
  }

  function SeenWith(d: Descriptor, seen: set<nat>, i: nat): set<nat>
    requires i < |d.fields|
  {
    if d.fields[i].rule.Required? && RequiredBefore(d, i) < MAX_REQUIRED_FIELDS then seen + {RequiredBefore(d, i)} else seen
  }

  // The place that field i is decoded into; an array of fixed length is counted outside of the struct.
  function Target(d: Descriptor, st: State, i: nat): Cell
    requires i < |d.fields| && CellOf(d, i) < |st.cells|
  {
    var c := st.cells[CellOf(d, i)];
    if d.fields[i].rule.FixedCount? then c.(size := if st.fixed == Some(i) then st.fixedSize else 0) else c
  }

  function Stored(d: Descriptor, st: State, i: nat, c: Cell): State
    requires i < |d.fields| && CellOf(d, i) < |st.cells|
  {
    var at, seen := CellOf(d, i), SeenWith(d, st.seen, i);
    if d.fields[i].rule.FixedCount? then State(st.cells[at := c.(size := st.cells[at].size)], seen, Some(i), c.size)
    else State(st.cells[at := c], seen, st.fixed, st.fixedSize)
  }

  // One field of the input.
  ghost function Step(d: Descriptor, st: State, i: nat, wireType: nat, s: String): (p: Parsed<State>)
    requires WellFormed(d) && Shaped(d, st.cells) && i < |d.fields|
    ensures p.Parsed? ==> |p.rest| < |s| && Shaped(d, p.value.cells)
    decreases d, 0
  {
    if d.fields[i].rule.FixedCount? && st.fixed != Some(i) && !FixedDone(d, st) then Failed
    else
      TargetShaped(d, st, i);
      match CellAt(d.fields[i], Target(d, st, i), wireType, s)
      case Failed => Failed
      case Parsed(c, rest) =>
        StoredShaped(d, st, i, c);
        Parsed(Stored(d, st, i, c), rest)
  }

  lemma TargetShaped(d: Descriptor, st: State, i: nat)
    requires WellFormed(d) && Shaped(d, st.cells) && i < |d.fields|
    ensures CellOf(d, i) < |st.cells| && ShapedCell(d.fields[i], Target(d, st, i))
  {
    hide ShapedValue, CellOf, WellFormedField;
  }

  lemma StoredShaped(d: Descriptor, st: State, i: nat, c: Cell)
    requires WellFormed(d) && Shaped(d, st.cells) && i < |d.fields| && ShapedCell(d.fields[i], c)
    requires d.fields[i].rule.OneOf? ==> c.size == d.fields[i].tag
    ensures CellOf(d, i) < |st.cells| && Shaped(d, Stored(d, st, i, c).cells)
  {
    hide ShapedValue, CellOf, WellFormedField, CellCount, SeenWith;
    var at := CellOf(d, i);
    var stored := if d.fields[i].rule.FixedCount? then c.(size := st.cells[at].size) else c;
    assert ShapedCell(d.fields[i], stored);
    StoreKeepsShape(d, st.cells, i, stored);
  }

  function FieldFrom(d: Descriptor, tag: nat, i: nat): (r: Option<nat>)
    requires i <= |d.fields|
    ensures r.Some? ==> r.value < |d.fields| && d.fields[r.value].tag == tag
    ensures r.None? ==> forall j :: i <= j < |d.fields| ==> d.fields[j].tag != tag
    decreases |d.fields| - i
  {
    if i == |d.fields| then None else if d.fields[i].tag == tag then Some(i) else FieldFrom(d, tag, i + 1)
  }

  // What is behind a field that no row of the descriptor has. The terminator of an empty message type is
  // taken for a bool with tag 0.
  function AfterUnknown(d: Descriptor, tag: nat, wireType: nat, s: String): (r: Option<String>)
    ensures r.Some? ==> |r.value| < |s|
  {
    if d.fields == [] && tag == 0 then
      match ReadVarint32(s)
      case Failed => None
      case Parsed(_, rest) => Some(rest)
    else AfterField(s, wireType)
  }

  // The loop of pb_decode_noinit.
  ghost function Run(d: Descriptor, st: State, s: String): (p: Parsed<seq<Cell>>)
    requires WellFormed(d) && Shaped(d, st.cells)
    ensures p.Parsed? ==> Shaped(d, p.value)
    decreases d, 1, |s|
  {
    if s == [] then Finish(d, st, s)
    else
      match ReadTag(s)
      case Bad => Failed
      case Ended(rest) => Finish(d, st, rest)
      case Tag(tag, wireType, rest) =>
        var i := FieldFrom(d, tag, 0);
        if i.None? then
          match AfterUnknown(d, tag, wireType, rest)
          case None => Failed
          case Some(behind) => Run(d, st, behind)
        else
          match Step(d, st, i.value, wireType, rest)
          case Failed => Failed
          case Parsed(after, behind) => Run(d, after, behind)
  }

  // pb_decode, of all these bytes.
  ghost function Decoding(d: Descriptor, dest: seq<Cell>, s: String): (p: Parsed<seq<Cell>>)
    requires WellFormed(d) && Shaped(d, dest)
    ensures p.Parsed? ==> Shaped(d, p.value)
  {
    Run(d, Start(Defaults(d, dest)), s)
  }

  // ---- Setting defaults ----

  // pb_field_set_to_default
  method FieldSetToDefault(f: Field, c: Cell) returns (r: Cell)
    requires WellFormedField(f) && ShapedCell(f, c)
    ensures r == DefaultCell(f, c)
    decreases f, 1
  {
    hide WellFormed, Shaped, Defaults;
    r := c;
    var initData := true;
    if f.rule.Optional? {
      r := r.(size := 0);
    } else if f.rule.Repeated? || f.rule.OneOf? {
      r := r.(size := 0);
      initData := false;
    } else if f.rule.FixedCount? {
      initData := false;
    }
    if initData {
      if f.kind.LSubmessage? {
        var cells := MessageSetToDefaults(f.sub, c.items[0].cells);
        r := r.(items := [Struct(cells)]);
      } else if f.initial.Some? {
        r := r.(items := [f.initial.value]);
      } else {
        r := r.(items := [Zero(f)]);
      }
    }
  }

  // pb_message_set_to_defaults
  method MessageSetToDefaults(d: Descriptor, cells: seq<Cell>) returns (r: seq<Cell>)
    requires WellFormed(d) && Shaped(d, cells)
    ensures r == Defaults(d, cells)
    decreases d, 0
  {
    hide WellFormed, Shaped, ShapedCell, DefaultCell, CellOf, CellCount, RequiredBefore, ReadyUpTo;
    var iter := new FieldIter(d);
    var more := iter.Begin();
    r := cells;
    DefaultsStep(d, cells, 0);
    if !more {
      return;
    }
    while true
      invariant d.fields != [] && iter.d == d && iter.At(iter.pos) && fresh(iter)
      invariant r == DefaultsUpTo(d, cells, iter.pos)
      decreases |d.fields| - iter.pos
    {
      DefaultsStep(d, cells, iter.pos);
      var c := FieldSetToDefault(d.fields[iter.pos], r[iter.cell]);
      r := r[iter.cell := c];
      more := iter.Next();
      if !more {
        return;
      }
    }
  }

  lemma DefaultsStep(d: Descriptor, cells: seq<Cell>, i: nat)
    requires WellFormed(d) && Shaped(d, cells) && i <= |d.fields|
    ensures DefaultsUpTo(d, cells, 0) == cells && Defaults(d, cells) == DefaultsUpTo(d, cells, |d.fields|)
    ensures i < |d.fields| ==>
              var before := DefaultsUpTo(d, cells, i);
              && CellOf(d, i) < |before| && WellFormedField(d.fields[i]) && ShapedCell(d.fields[i], before[CellOf(d, i)])
              && DefaultsUpTo(d, cells, i + 1) == before[CellOf(d, i) := DefaultCell(d.fields[i], before[CellOf(d, i)])]
  {
    hide WellFormedField, ShapedCell, ReadyCell, CellOf, DefaultCell;
  }

  // ---- Decoders of one item ----

  // pb_dec_bool
  method DecBool(stream: IStream) returns (ok: bool, w: Value)
    requires stream.Valid()
    modifies stream
    ensures stream.Valid() && stream.End() == old(stream.End()) && ok == BoolItem(old(stream.Rest())).Parsed?
    ensures ok ==> BoolItem(old(stream.Rest())) == Parsed(w, stream.Rest())
  {
    hide ReadVarint32;
    var value, eof;
    ok, value, eof := stream.DecodeVarint32();
    w := Number(if value != 0 then 1 else 0);
  }

  // pb_dec_varint, pb_dec_uvarint and pb_dec_svarint
  method DecVarint(stream: IStream, f: Field) returns (ok: bool, w: Value)
    requires stream.Valid() && (f.kind.LVarint? || f.kind.LUvarint? || f.kind.LSvarint?)
    modifies stream
    ensures stream.Valid() && stream.End() == old(stream.End()) && ok == VarintItem(f, old(stream.Rest())).Parsed?
    ensures ok ==> VarintItem(f, old(stream.Rest())) == Parsed(w, stream.Rest())
  {
    hide Varint64At, SignedOf, UnZigZag;
    var value;
    ok, value := stream.DecodeVarint();
    w := Number(0);
    if !ok {
      return;
    }
    var wanted, clamped: int;
    if f.kind.LVarint? {
      wanted := if f.dataSize == 8 then SignedOf(value, 8) else SignedOf(value, 4);
      clamped := SignedOf(wanted, f.dataSize);
    } else if f.kind.LUvarint? {
      wanted, clamped := value, value % (2 * Half(f.dataSize));
    } else {
      wanted := UnZigZag(value);
      clamped := SignedOf(wanted, f.dataSize);
    }
    if !IntegerSize(f.dataSize) || clamped != wanted {
      ok := false;
      return;
    }
    w := Number(clamped);
  }

  // pb_dec_fixed32 and pb_dec_fixed64
  method DecFixed(stream: IStream, n: nat) returns (ok: bool, w: Value)
    requires stream.Valid()
    modifies stream
    ensures stream.Valid() && stream.End() == old(stream.End()) && ok == FixedItem(old(stream.Rest()), n).Parsed?
    ensures ok ==> FixedItem(old(stream.Rest()), n) == Parsed(w, stream.Rest())
  {
    hide FromFixed, Front;
    var bytes;
    ok, bytes := stream.Read(n);
    w := Number(FromFixed(bytes));
  }

  // pb_dec_bytes
  method DecBytes(stream: IStream, f: Field) returns (ok: bool, w: Value)
    requires stream.Valid()
    modifies stream
    ensures stream.Valid() && stream.End() == old(stream.End()) && ok == BytesItem(f, old(stream.Rest())).Parsed?
    ensures ok ==> BytesItem(f, old(stream.Rest())) == Parsed(w, stream.Rest())
  {
    hide ReadVarint32, Front;
    var size, eof, bytes;
    w := Raw([]);
    ok, size, eof := stream.DecodeVarint32();
    if !ok {
      return;
    }
    if size + SIZE_BYTES > f.dataSize {
      ok := false;
      return;
    }
    ok, bytes := stream.Read(size);
    w := Raw(bytes);
  }

  // pb_dec_string
  method DecString(stream: IStream, f: Field, v: Value) returns (ok: bool, w: Value)
    requires stream.Valid()
    modifies stream
    ensures stream.Valid() && stream.End() == old(stream.End()) && ok == StringItem(f, v, old(stream.Rest())).Parsed?
    ensures ok ==> StringItem(f, v, old(stream.Rest())) == Parsed(w, stream.Rest())
  {
    hide ReadVarint32, Front;
    var size, eof, bytes;
    w := Raw([]);
    ok, size, eof := stream.DecodeVarint32();
    if !ok {
      return;
    }
    if size + 1 > f.dataSize {
      ok := false;
      return;
    }
    ok, bytes := stream.Read(size);
    if ok {
      w := Raw(bytes + [0] + AfterTerminator(f, v, size));
    }
  }

  // pb_dec_fixed_length_bytes
  method DecFixedLengthBytes(stream: IStream, f: Field) returns (ok: bool, w: Value)
    requires stream.Valid()
    modifies stream
    ensures stream.Valid() && stream.End() == old(stream.End()) && ok == FixedBytesItem(f, old(stream.Rest())).Parsed?
    ensures ok ==> FixedBytesItem(f, old(stream.Rest())) == Parsed(w, stream.Rest())
  {
    hide ReadVarint32, Front;
    var size, eof, bytes;
    w := Raw([]);
    ok, size, eof := stream.DecodeVarint32();
    if !ok {
      return;
    }
    if size == 0 {
      w := Raw(Zeros(f.dataSize));
      return;
    }
    if size != f.dataSize {
      ok := false;
      return;
    }
    ok, bytes := stream.Read(f.dataSize);
    w := Raw(bytes);
  }

  // ---- The decoder ----

  // What a decoder leaves of a stream: after an error, the end may be missing.
  ghost predicate Within(stream: IStream, end: nat, ok: bool)
    reads stream
  {
    stream.Valid() && stream.End() <= end && (ok ==> stream.End() == end)
  }

  // PB_DECODERS
  method DecodeItem(stream: IStream, f: Field, v: Value) returns (ok: bool, w: Value)
    requires stream.Valid() && WellFormedField(f) && (f.kind.LSubmessage? ==> ShapedValue(f, v))
    modifies stream
    ensures Within(stream, old(stream.End()), ok) && ok == ItemAt(f, v, old(stream.Rest())).Parsed?
    ensures ok ==> ItemAt(f, v, old(stream.Rest())) == Parsed(w, stream.Rest())
    decreases f, 1
  {
    hide BoolItem, VarintItem, FixedItem, BytesItem, StringItem, FixedBytesItem, Run, Defaults, DelimitedAt, WellFormed, Shaped;
    match f.kind {
      case LBool => ok, w := DecBool(stream);
      case LFixed32 => ok, w := DecFixed(stream, 4);
      case LFixed64 => ok, w := DecFixed(stream, 8);
      case LBytes => ok, w := DecBytes(stream, f);
      case LString => ok, w := DecString(stream, f, v);
      case LFixedLengthBytes => ok, w := DecFixedLengthBytes(stream, f);
      case LSubmessage => ok, w := DecSubmessage(stream, f, v);
      case LVarint => ok, w := DecVarint(stream, f);
      case LUvarint => ok, w := DecVarint(stream, f);
      case LSvarint => ok, w := DecVarint(stream, f);
    }
  }

  // pb_dec_submessage
  method DecSubmessage(stream: IStream, f: Field, v: Value) returns (ok: bool, w: Value)
    requires stream.Valid() && WellFormedField(f) && f.kind.LSubmessage? && ShapedValue(f, v)
    modifies stream
    ensures Within(stream, old(stream.End()), ok) && ok == ItemAt(f, v, old(stream.Rest())).Parsed?
    ensures ok ==> ItemAt(f, v, old(stream.Rest())) == Parsed(w, stream.Rest())
    decreases f, 0
  {
    hide Run, Defaults, DelimitedAt, WellFormed, Shaped, Decoding;
    w := v;
    var substream, cells;
    ok, substream := stream.MakeStringSubstream();
    if !ok {
      return;
    }
    ghost var contents := substream.Rest();
    if f.Array() {
      DecodingIs(f.sub, v.cells, contents);
      ok, cells := Decode(substream, f.sub, v.cells);
    } else {
      ok, cells := DecodeNoinit(substream, f.sub, v.cells);
    }
    var closed := stream.CloseStringSubstream(substream);
    w := Struct(cells);
  }

  lemma DecodingIs(d: Descriptor, dest: seq<Cell>, s: String)
    requires WellFormed(d) && Shaped(d, dest)
    ensures Decoding(d, dest, s) == Run(d, Start(Defaults(d, dest)), s)
  {
  }

  method DecodePacked(stream: IStream, f: Field, c: Cell) returns (ok: bool, after: Cell)
    requires stream.Valid() && WellFormedField(f) && f.Packable() && |c.items| == f.arraySize
    requires forall k :: 0 <= k < |c.items| ==> ShapedValue(f, c.items[k])
    modifies stream
    ensures Within(stream, old(stream.End()), ok)
    ensures ok == PackedAt(f, c.items, c.size, old(stream.Rest())).Parsed?
    ensures ok ==> PackedAt(f, c.items, c.size, old(stream.Rest())).value == after
    decreases f, 2
  {
    hide ItemAt, WellFormedField, ShapedValue;
    ok, after := true, c;
    while stream.bytesLeft > 0 && after.size < f.arraySize
      invariant stream.Valid() && stream.End() == old(stream.End()) && ok && |after.items| == f.arraySize
      invariant forall k :: 0 <= k < |after.items| ==> ShapedValue(f, after.items[k])
      invariant PackedAt(f, c.items, c.size, old(stream.Rest())) == PackedAt(f, after.items, after.size, stream.Rest())
      decreases stream.bytesLeft
    {
      ghost var rest := stream.Rest();
      var w;
      ok, w := DecodeItem(stream, f, after.items[after.size]);
      if !ok {
        return;
      }
      after := Cell(after.size + 1, after.items[after.size := w]);
    }
    ok := stream.bytesLeft == 0;
  }

  // decode_static_field
  method DecodeStaticField(stream: IStream, wireType: nat, f: Field, c: Cell) returns (ok: bool, after: Cell)
    requires stream.Valid() && WellFormedField(f) && ShapedCell(f, c)
    modifies stream
    ensures Within(stream, old(stream.End()), ok) && ok == CellAt(f, c, wireType, old(stream.Rest())).Parsed?
    ensures ok ==> CellAt(f, c, wireType, old(stream.Rest())) == Parsed(after, stream.Rest())
    decreases f, 3
  {
    hide ItemAt, WellFormedField, ShapedValue, PackedAt, DelimitedAt, Defaults, ZeroCells;
    after := c;
    var w;
    match f.rule {
      case Required =>
        ok, w := DecodeItem(stream, f, c.items[0]);
        after := after.(items := [w]);
      case Optional =>
        after := after.(size := 1);
        ok, w := DecodeItem(stream, f, c.items[0]);
        after := after.(items := [w]);
      case OneOf =>
        var v := c.items[0];
        if f.kind.LSubmessage? && c.size != f.tag {
          TagIsPositive(f);
          var cells := MessageSetToDefaults(f.sub, ZeroCells(f.sub));
          v := Struct(cells);
          StructShaped(f, cells);
        }
        ok, w := DecodeItem(stream, f, v);
        after := Cell(f.tag, [w]);
      case _ =>
        if wireType == WT_STRING && f.Packable() {
          var substream;
          ok, substream := stream.MakeStringSubstream();
          if !ok {
            return;
          }
          ok, after := DecodePacked(substream, f, c);
          if !ok {
            return;
          }
          var closed := stream.CloseStringSubstream(substream);
        } else {
          if c.size >= f.arraySize {
            return false, after;
          }
          ok, w := DecodeItem(stream, f, c.items[c.size]);
          after := Cell(c.size + 1, c.items[c.size := w]);
        }
    }
  }

  lemma StructShaped(f: Field, cells: seq<Cell>)
    requires f.kind.LSubmessage? && Shaped(f.sub, cells)
    ensures ShapedValue(f, Struct(cells))
  {
  }

  // ---- The fields that were seen, as bits ----

  // The bits from k on, the lowest first.
  function Word(seen: set<nat>, k: nat, n: nat): nat
    requires k <= n
    decreases n - k
  {
    if k == n then 0 else OneIf(k in seen) + 2 * Word(seen, k + 1, n)
  }

  lemma {:induction false} WordWith(seen: set<nat>, k: nat, n: nat, j: nat)
    requires k <= j < n
    ensures Or(Word(seen, k, n), Power(2, j - k)) == Word(seen + {j}, k, n)
    decreases n - k
  {
    var rest := Word(seen, k + 1, n);
    if j == k {
      OrNothing(rest);
      WordWithout(seen, k + 1, n, j);
    } else {
      WordWith(seen, k + 1, n, j);
      assert Power(2, j - k) == 2 * Power(2, j - k - 1);
    }
  }

  lemma {:induction false} WordWithout(seen: set<nat>, k: nat, n: nat, j: nat)
    requires k <= n && (j < k || n <= j)
    ensures Word(seen + {j}, k, n) == Word(seen, k, n)
    decreases n - k
  {
    if k < n {
      WordWithout(seen, k + 1, n, j);
    }
  }

  // The lowest c bits are set and no others.
  lemma {:induction false} LowBits(seen: set<nat>, k: nat, n: nat, c: nat)
    requires k + c <= n
    ensures Word(seen, k, n) == Power(2, c) - 1 <==> forall j: nat :: k <= j < n ==> (j in seen <==> j < k + c)
    decreases n - k
  {
    if k < n {
      LowBits(seen, k + 1, n, if c == 0 then 0 else c - 1);
      if c > 0 {
        assert Power(2, c) - 1 == 1 + 2 * (Power(2, c - 1) - 1);
      }
    }
  }

  lemma {:induction false} NoBits(k: nat, n: nat)
    requires k <= n
    ensures Word({}, k, n) == 0
    decreases n - k
  {
    if k < n {
      NoBits(k + 1, n);
    }
  }

  // The two words of the bitmap.
  ghost predicate Shows(words: seq<nat>, seen: set<nat>) {
    |words| == 2 && words[0] == Word(seen, 0, 32) && words[1] == Word(seen, 32, 64)
  }

  lemma ShowsMore(words: seq<nat>, seen: set<nat>, j: nat)
    requires Shows(words, seen) && j < MAX_REQUIRED_FIELDS
    ensures Shows(words[j / 32 := Or(words[j / 32], Power(2, j % 32))], seen + {j})
  {
    hide Word, Or, Power;
    if j < 32 {
      WordWith(seen, 0, 32, j);
      WordWithout(seen, 32, 64, j);
    } else {
      WordWith(seen, 32, 64, j);
      WordWithout(seen, 0, 32, j);
    }
  }

  // A field that the descriptor has, with the track that is kept of arrays of fixed length.
  method DecodeField(stream: IStream, wireType: nat, d: Descriptor, i: nat, at: nat, ghost st: State,
                     cells: seq<Cell>, fixedCountField: Option<nat>, fixedCountSize: nat)
    returns (ok: bool, after: seq<Cell>, field: Option<nat>, size: nat)
    requires stream.Valid() && WellFormed(d) && Shaped(d, cells) && i < |d.fields| && at == CellOf(d, i)
    requires st == State(cells, st.seen, fixedCountField, fixedCountSize)
    requires fixedCountField.Some? ==> fixedCountField.value < |d.fields|
    modifies stream
    ensures Within(stream, old(stream.End()), ok) && ok == Step(d, st, i, wireType, old(stream.Rest())).Parsed?
    ensures ok ==>
              Step(d, st, i, wireType, old(stream.Rest()))
              == Parsed(State(after, SeenWith(d, st.seen, i), field, size), stream.Rest())
    ensures field.Some? ==> field.value < |d.fields|
    decreases d, 0
  {
    hide WellFormed, Shaped, ShapedCell, WellFormedField, CellOf, CellCount, RequiredBefore, CellAt, SeenWith;
    TargetShaped(d, st, i);
    FieldIsFine(d, i);
    after, field, size := cells, fixedCountField, fixedCountSize;
    var f, c := d.fields[i], cells[at];
    if f.rule.FixedCount? {
      if fixedCountField != Some(i) {
        if fixedCountField.Some? && fixedCountSize != d.fields[fixedCountField.value].arraySize {
          return false, after, field, size;
        }
        field, size := Some(i), 0;
      }
      c := c.(size := size);
    }
    ok, c := DecodeStaticField(stream, wireType, f, c);
    if !ok {
      return;
    }
    if f.rule.FixedCount? {
      size := c.size;
      c := c.(size := cells[at].size);
    }
    after := cells[at := c];
  }

  lemma FieldIsFine(d: Descriptor, i: nat)
    requires WellFormed(d) && i < |d.fields|
    ensures WellFormedField(d.fields[i])
  {
    hide WellFormedField;
  }

  // Marks the field of the iterator as seen when it is required.
  method MarkSeen(iter: FieldIter, words: array<nat>, ghost seen: set<nat>) returns (ghost after: set<nat>)
    requires iter.d.fields != [] && iter.At(iter.pos) && words.Length == 2 && Shows(words[..], seen)
    requires forall k :: k in seen ==> k < Tracked(iter.d)
    modifies words
    ensures after == SeenWith(iter.d, seen, iter.pos) && Shows(words[..], after)
    ensures forall k :: k in after ==> k < Tracked(iter.d)
  {
    hide Word, Or, Power, CellOf, Shows;
    after := seen;
    if iter.d.fields[iter.pos].rule.Required? && iter.requiredFieldIndex < MAX_REQUIRED_FIELDS {
      var index := iter.requiredFieldIndex;
      ghost var before := words[..];
      ShowsMore(before, seen, index);
      words[index / 32] := Or(words[index / 32], Power(2, index % 32));
      assert words[..] == before[index / 32 := Or(before[index / 32], Power(2, index % 32))];
      after := seen + {index};
      RequiredAscend(iter.d, iter.pos, |iter.d.fields|);
    }
  }

  // pb_decode_noinit
  method DecodeNoinit(stream: IStream, d: Descriptor, cells: seq<Cell>) returns (ok: bool, after: seq<Cell>)
    requires stream.Valid() && WellFormed(d) && Shaped(d, cells)
    modifies stream
    ensures Within(stream, old(stream.End()), ok) && ok == Run(d, Start(cells), old(stream.Rest())).Parsed?
    ensures ok ==> Run(d, Start(cells), old(stream.Rest())) == Parsed(after, stream.Rest())
    decreases d, 1
  {
    hide Run, Step, ReadTag, FieldFrom, AfterUnknown, Shows, WellFormed, Shaped, CellOf, CellCount, RequiredBefore,
         AllSeen, Tracked, SeenWith, BoolItem, AfterField;
    var fieldsSeen := new nat[2](_ => 0);
    NothingSeen(fieldsSeen[..]);
    var iter := new FieldIter(d);
    var more := iter.Begin();
    var fixedCountField: Option<nat>, fixedCountSize: nat := None, 0;
    ghost var seen: set<nat> := {};
    ghost var outcome := Run(d, Start(cells), stream.Rest());
    after := cells;
    var ended := false;
    while stream.bytesLeft > 0 && !ended
      invariant iter.d == d && iter.At(iter.pos) && stream.Valid() && stream.End() == old(stream.End())
      invariant fresh(iter) && fresh(fieldsSeen) && fieldsSeen.Length == 2
      invariant Shaped(d, after) && (fixedCountField.Some? ==> fixedCountField.value < |d.fields|)
      invariant Shows(fieldsSeen[..], seen)
      invariant d.fields != [] ==> forall k :: k in seen ==> k < Tracked(d)
      invariant !ended ==> outcome == Run(d, State(after, seen, fixedCountField, fixedCountSize), stream.Rest())
      invariant ended ==> outcome == Finish(d, State(after, seen, fixedCountField, fixedCountSize), stream.Rest())
      decreases !ended, stream.bytesLeft
    {
      ghost var s, st := stream.Rest(), State(after, seen, fixedCountField, fixedCountSize);
      var wireType, tag, eof;
      ok, wireType, tag, eof := stream.DecodeTag();
      RunReads(d, st, s);
      if !ok {
        if !eof {
          return;
        }
        ended := true;
      } else {
        var found := iter.Find(tag);
        if !found {
          RunUnknown(d, st, s);
          ok := stream.SkipField(wireType);
        } else if d.fields == [] {
          RunUnknown(d, st, s);
          var w;
          ok, w := DecBool(stream);
        } else {
          RunField(d, st, s, iter.pos);
          seen := MarkSeen(iter, fieldsSeen, seen);
          ok, after, fixedCountField, fixedCountSize :=
            DecodeField(stream, wireType, d, iter.pos, iter.cell, st, after, fixedCountField, fixedCountSize);
        }
        if !ok {
          return;
        }
      }
    }
    RunEnds(d, State(after, seen, fixedCountField, fixedCountSize));
    if fixedCountField.Some? && fixedCountSize != d.fields[fixedCountField.value].arraySize {
      return false, after;
    }
    ok := CheckRequired(iter, fieldsSeen[..], seen);
  }

  lemma NothingSeen(words: seq<nat>)
    requires words == [0, 0]
    ensures Shows(words, {})
  {
    NoBits(0, 32);
    NoBits(32, 64);
  }

  lemma RunEnds(d: Descriptor, st: State)
    requires WellFormed(d) && Shaped(d, st.cells)
    ensures Run(d, st, []) == Finish(d, st, [])
  {
    hide WellFormed, Shaped, Step, Finish;
  }

  lemma RunReads(d: Descriptor, st: State, s: String)
    requires WellFormed(d) && Shaped(d, st.cells) && s != []
    ensures ReadTag(s).Bad? ==> Run(d, st, s) == Failed
    ensures ReadTag(s).Ended? ==> Run(d, st, s) == Finish(d, st, ReadTag(s).rest)
  {
    hide WellFormed, Shaped, Step, Finish, ReadTag;
  }

  lemma RunUnknown(d: Descriptor, st: State, s: String)
    requires WellFormed(d) && Shaped(d, st.cells) && s != [] && ReadTag(s).Tag?
    requires forall i :: 0 <= i < |d.fields| ==> d.fields[i].tag != ReadTag(s).tag
    ensures var behind := AfterUnknown(d, ReadTag(s).tag, ReadTag(s).wireType, ReadTag(s).rest);
            Run(d, st, s) == if behind.None? then Failed else Run(d, st, behind.value)
    ensures d.fields == [] && ReadTag(s).tag == 0 ==>
              var p := BoolItem(ReadTag(s).rest);
              AfterUnknown(d, 0, ReadTag(s).wireType, ReadTag(s).rest) == if p.Parsed? then Some(p.rest) else None
    ensures d.fields != [] || ReadTag(s).tag != 0 ==>
              AfterUnknown(d, ReadTag(s).tag, ReadTag(s).wireType, ReadTag(s).rest) == AfterField(ReadTag(s).rest, ReadTag(s).wireType)
  {
    hide WellFormed, Shaped, Step, Finish, ReadTag, AfterField, ReadVarint32;
    assert FieldFrom(d, ReadTag(s).tag, 0) == None;
  }

  lemma RunField(d: Descriptor, st: State, s: String, i: nat)
    requires WellFormed(d) && Shaped(d, st.cells) && s != [] && ReadTag(s).Tag?
    requires i < |d.fields| && d.fields[i].tag == ReadTag(s).tag
    ensures var p := Step(d, st, i, ReadTag(s).wireType, ReadTag(s).rest);
            Run(d, st, s) == if p.Failed? then Failed else Run(d, p.value, p.rest)
  {
    hide WellFormedField, CellOf, Step, ReadTag, Finish, ShapedCell;
    assert FieldFrom(d, ReadTag(s).tag, 0) == Some(i);
  }

  // The loop over the whole descriptor that counts its required fields, and the comparison of the words.
  method CheckRequired(iter: FieldIter, words: seq<nat>, ghost seen: set<nat>) returns (ok: bool)
    requires iter.At(iter.pos) && WellFormed(iter.d) && Shows(words, seen)
    requires iter.d.fields != [] ==> forall k :: k in seen ==> k < Tracked(iter.d)
    modifies iter
    ensures ok == AllSeen(iter.d, seen)
  {
    hide Word, Power, CellOf, WellFormed;
    ghost var d := iter.d;
    var reqFieldCount: nat, lastRequired: bool;
    while true
      invariant iter.At(iter.pos)
      decreases |d.fields| - iter.pos
    {
      reqFieldCount := iter.requiredFieldIndex;
      lastRequired := iter.d.fields == [] || iter.d.fields[iter.pos].rule.Required?;
      var more := iter.Next();
      if !more {
        break;
      }
    }
    FirstTag(d);
    if lastRequired && iter.Tag() != 0 {
      reqFieldCount := reqFieldCount + 1;
    }
    if reqFieldCount > MAX_REQUIRED_FIELDS {
      reqFieldCount := MAX_REQUIRED_FIELDS;
    }
    ok := CompareWords(words, reqFieldCount, seen);
  }

  lemma FirstTag(d: Descriptor)
    requires WellFormed(d)
    ensures d.fields != [] ==> d.fields[0].tag > 0
  {
    if d.fields != [] {
      TagIsPositive(d.fields[0]);
    }
  }

  const ALL_BITS: nat := 0xFFFF_FFFF

  // Whole words first, and then the remaining bits.
  method CompareWords(words: seq<nat>, reqFieldCount: nat, ghost seen: set<nat>) returns (ok: bool)
    requires Shows(words, seen) && reqFieldCount <= MAX_REQUIRED_FIELDS
    requires reqFieldCount > 0 ==> forall k :: k in seen ==> k < reqFieldCount
    ensures ok <==> forall k: nat :: k < reqFieldCount ==> k in seen
  {
    hide Word, Power;
    ok := true;
    if reqFieldCount > 0 {
      var i := 0;
      while i < reqFieldCount / 32
        invariant i <= reqFieldCount / 32
        invariant forall k: nat :: k < 32 * i ==> k in seen
      {
        LowBits(seen, 32 * i, 32 * i + 32, 32);
        Powers32(32);
        if words[i] != ALL_BITS {
          return false;
        }
        i := i + 1;
      }
      var bits := reqFieldCount % 32;
      if bits != 0 {
        LowBits(seen, 32 * i, 32 * i + 32, bits);
        Powers32(bits);
        if words[i] != ALL_BITS / Power(2, 32 - bits) {
          return false;
        }
      }
    }
  }

  lemma Powers32(r: nat)
    requires 0 < r <= 32
    ensures Power(2, 32) - 1 == ALL_BITS && ALL_BITS / Power(2, 32 - r) == Power(2, r) - 1
  {
    hide Power;
    PowerSum(r, 32 - r);
    BigPower();
    var q, p := Power(2, 32 - r), Power(2, r);
    assert ALL_BITS == (p - 1) * q + (q - 1);
    Quotient(p - 1, q, q - 1);
  }

  lemma Quotient(a: nat, q: nat, r: nat)
    requires q > 0 && r < q
    ensures (a * q + r) / q == a
  {
    var x := a * q + r;
    var b, rest := x / q, x % q;
    Difference(a, b, q, rest - r);
  }

  lemma BigPower()
    ensures Power(2, 32) == TWO_32
  {
    PowerSum(16, 16);
    PowerSum(8, 8);
    assert Power(2, 4) == 16;
    PowerSum(4, 4);
  }

  lemma {:induction false} PowerSum(m: nat, n: nat)
    ensures Power(2, m + n) == Power(2, m) * Power(2, n)
  {
    if m > 0 {
      PowerSum(m - 1, n);
    }
  }

  // pb_decode
  method Decode(stream: IStream, d: Descriptor, dest: seq<Cell>) returns (ok: bool, after: seq<Cell>)
    requires stream.Valid() && WellFormed(d) && Shaped(d, dest)
    modifies stream
    ensures Within(stream, old(stream.End()), ok) && ok == Decoding(d, dest, old(stream.Rest())).Parsed?
    ensures ok ==> Decoding(d, dest, old(stream.Rest())) == Parsed(after, stream.Rest())
    decreases d, 2
  {
    hide Run, WellFormed, Shaped, Defaults;
    after := MessageSetToDefaults(d, dest);
    ok, after := DecodeNoinit(stream, d, after);
  }
}
