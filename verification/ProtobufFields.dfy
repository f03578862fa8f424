/** nanopb, pb.h and pb_common.c: message descriptors, the structs that they lay out, and the circular
    iterator over their fields. */
module ProtobufFields {
  import opened Bytes
  import opened Coding
  import opened Options

  type String = seq<Byte>

  // Wire types.
  const WT_VARINT: nat := 0
  const WT_64BIT: nat := 1
  const WT_STRING: nat := 2
  const WT_32BIT: nat := 5

  datatype Kind =
    | LBool | LVarint | LUvarint | LSvarint | LFixed32 | LFixed64
    | LBytes | LString | LSubmessage | LFixedLengthBytes

  datatype Rule = Required | Optional | Repeated | FixedCount | OneOf

  // A row of the descriptor table. A field that is `joined` to the one before it shares its union.
  datatype Field = Field(tag: nat, kind: Kind, rule: Rule, dataSize: nat, arraySize: nat, joined: bool,
                         sub: Descriptor, initial: Option<Value>)
  {
    predicate Packable() {
      kind.LBool? || kind.LVarint? || kind.LUvarint? || kind.LSvarint? || kind.LFixed32? || kind.LFixed64?
    }

    predicate Array() {
      rule.Repeated? || rule.FixedCount?
    }
  }

  datatype Descriptor = Descriptor(fields: seq<Field>)

  // What a field stores for one item: an integer, the characters of a buffer, or a struct.
  datatype Value = Number(n: int) | Raw(bytes: String) | Struct(cells: seq<Cell>)

  // The storage of a field, or of a union: its has_, _count or which_ variable, and its items.
  datatype Cell = Cell(size: nat, items: seq<Value>)

  // Sizes and counts are pb_size_t, of 32 bits; a bytes array has one in front of its contents.
  const SIZE_BYTES: nat := 4
  const MAX_TAG: nat := 0x1FFF_FFFF

  // ---- Where fields are ----

  predicate SharesUnion(before: Field, f: Field) {
    before.rule.OneOf? && f.rule.OneOf? && f.joined
  }

  // The place of field i in the struct.
  function CellOf(d: Descriptor, i: nat): (c: nat)
    requires i < |d.fields|
    ensures c <= i
  {
    if i == 0 then 0
    else CellOf(d, i - 1) + if SharesUnion(d.fields[i - 1], d.fields[i]) then 0 else 1
  }

  function CellCount(d: Descriptor): nat {
    if d.fields == [] then 0 else CellOf(d, |d.fields| - 1) + 1
  }

  // How many required fields are before field i.
  function RequiredBefore(d: Descriptor, i: nat): (n: nat)
    requires i <= |d.fields|
    ensures n <= i
  {
    if i == 0 then 0 else RequiredBefore(d, i - 1) + OneIf(d.fields[i - 1].rule.Required?)
  }

  lemma {:induction false} CellsAscend(d: Descriptor, i: nat, j: nat)
    requires i <= j < |d.fields|
    ensures CellOf(d, i) <= CellOf(d, j)
    decreases j
  {
    if i < j {
      CellsAscend(d, i, j - 1);
    }
  }

  // Only the members of one union are in the same place.
  lemma {:induction false} SharedCell(d: Descriptor, i: nat, j: nat)
    requires i < j < |d.fields| && CellOf(d, i) == CellOf(d, j)
    ensures d.fields[i].rule.OneOf? && d.fields[j].rule.OneOf?
    decreases j
  {
    CellsAscend(d, i, j - 1);
    if i < j - 1 {
      SharedCell(d, i, j - 1);
    }
  }

  lemma {:induction false} RequiredAscend(d: Descriptor, i: nat, j: nat)
    requires i < j <= |d.fields|
    ensures RequiredBefore(d, i) + OneIf(d.fields[i].rule.Required?) <= RequiredBefore(d, j)
    decreases j
  {
    if i < j - 1 {
      RequiredAscend(d, i, j - 1);
    }
  }

  // Every count below the total is the index of a required field.
  lemma {:induction false} RequiredAt(d: Descriptor, k: nat, n: nat) returns (i: nat)
    requires n <= |d.fields| && k < RequiredBefore(d, n)
    ensures i < n && d.fields[i].rule.Required? && RequiredBefore(d, i) == k
    decreases n
  {
    if k < RequiredBefore(d, n - 1) {
      i := RequiredAt(d, k, n - 1);
    } else {
      i := n - 1;
    }
  }

  // ---- What structs hold ----

  predicate IntegerSize(size: nat) {
    size == 1 || size == 2 || size == 4 || size == 8
  }

  // Half the range of an integer of this many bytes.
  function Half(size: nat): (h: int)
    ensures h > 0
  {
    if size == 1 then 0x80 else if size == 2 then 0x8000 else if size == 4 then 0x8000_0000 else 0x8000_0000_0000_0000
  }

  predicate ShapedNumber(f: Field, n: int) {
    match f.kind
    case LVarint => IntegerSize(f.dataSize) ==> -Half(f.dataSize) <= n < Half(f.dataSize)
    case LSvarint => IntegerSize(f.dataSize) ==> -Half(f.dataSize) <= n < Half(f.dataSize)
    case LUvarint => IntegerSize(f.dataSize) ==> 0 <= n < 2 * Half(f.dataSize)
    case LFixed32 => 0 <= n < TWO_32
    case LFixed64 => 0 <= n < TWO_64
    case _ => true
  }

  // A value of the type that the descriptor gives the field.
  ghost predicate ShapedValue(f: Field, v: Value)
    decreases f, 0
  {
    match f.kind
    case LBytes => v.Raw? && |v.bytes| < TWO_32
    case LString => v.Raw? && |v.bytes| == f.dataSize
    case LFixedLengthBytes => v.Raw? && |v.bytes| == f.dataSize
    case LSubmessage => v.Struct? && Shaped(f.sub, v.cells)
    case _ => v.Number? && ShapedNumber(f, v.n)
  }

  ghost predicate ShapedCell(f: Field, c: Cell): (ok: bool)
    ensures ok ==> ItemCount(f, c)
    decreases f, 1
  {
    match f.rule
    case Repeated => |c.items| == f.arraySize && forall k :: 0 <= k < |c.items| ==> ShapedValue(f, c.items[k])
    case FixedCount => |c.items| == f.arraySize && forall k :: 0 <= k < |c.items| ==> ShapedValue(f, c.items[k])
    case OneOf => |c.items| == 1 && (c.size == f.tag ==> ShapedValue(f, c.items[0]))
    case _ => |c.items| == 1 && ShapedValue(f, c.items[0])
  }

  // A struct with the layout of this message type.
  ghost predicate Shaped(d: Descriptor, cells: seq<Cell>)
    decreases d
  {
    && |cells| == CellCount(d)
    && forall i :: 0 <= i < |d.fields| ==> CellOf(d, i) < |cells| && ShapedCell(d.fields[i], cells[CellOf(d, i)])
  }

  // What the generator of descriptors sees to.
  ghost predicate WellFormedField(f: Field)
    decreases f
  {
    && 0 < f.tag <= MAX_TAG && f.dataSize < TWO_32 && f.arraySize < TWO_32
    && (f.initial.Some? ==> !f.kind.LSubmessage? && ShapedValue(f, f.initial.value))
    && WellFormed(f.sub)
  }

  ghost predicate WellFormed(d: Descriptor)
    decreases d
  {
    && (forall i :: 0 <= i < |d.fields| ==> WellFormedField(d.fields[i]))
    && forall i, j :: 0 <= i < j < |d.fields| ==> d.fields[i].tag != d.fields[j].tag
  }

  // Storing into the place of field i: the other members of its union only need to be told apart.
  lemma StoreKeepsShape(d: Descriptor, cells: seq<Cell>, i: nat, c: Cell)
    requires WellFormed(d) && Shaped(d, cells) && i < |d.fields| && ShapedCell(d.fields[i], c)
    requires d.fields[i].rule.OneOf? ==> c.size == 0 || c.size == d.fields[i].tag
    ensures Shaped(d, cells[CellOf(d, i) := c])
  {
    hide ShapedCell, WellFormedField, CellOf;
    var after := cells[CellOf(d, i) := c];
    forall j | 0 <= j < |d.fields|
      ensures CellOf(d, j) < |after| && ShapedCell(d.fields[j], after[CellOf(d, j)])
    {
      if CellOf(d, j) == CellOf(d, i) && j != i {
        SharedCell(d, if i < j then i else j, if i < j then j else i);
        TagIsPositive(d.fields[j]);
        OtherMember(d.fields[j], cells[CellOf(d, i)], c);
        assert after[CellOf(d, j)] == c;
      }
    }
  }

  predicate ItemCount(f: Field, c: Cell) {
    |c.items| == if f.Array() then f.arraySize else 1
  }

  lemma OtherMember(f: Field, before: Cell, after: Cell)
    requires f.rule.OneOf? && ShapedCell(f, before) && |after.items| == 1 && after.size != f.tag
    ensures ShapedCell(f, after)
  {
  }

  lemma TagIsPositive(f: Field)
    requires WellFormedField(f)
    ensures 0 < f.tag <= MAX_TAG && f.dataSize < TWO_32 && f.arraySize < TWO_32 && WellFormed(f.sub)
  {
    hide WellFormed, ShapedValue;
  }

  // ---- The iterator ----

  class FieldIter {
    const d: Descriptor
    var pos: nat
    var cell: nat
    var requiredFieldIndex: nat

    // At field i, or at the terminator of an empty message type.
    ghost predicate At(i: nat)
      reads this
    {
      && pos == i
      && (if d.fields == [] then i == 0 && cell == 0 && requiredFieldIndex == 0
          else i < |d.fields| && cell == CellOf(d, i) && requiredFieldIndex == RequiredBefore(d, i))
    }

    // The tag at the place of the iterator; terminators have tag 0.
    function Tag(): nat
      reads this
    {
      if pos < |d.fields| then d.fields[pos].tag else 0
    }

    constructor (d: Descriptor)
      ensures this.d == d && At(0)
    {
      this.d, pos, cell, requiredFieldIndex := d, 0, 0, 0;
    }

    method Begin() returns (more: bool)
      modifies this
      ensures At(0) && more == (d.fields != [])
    {
      pos, cell, requiredFieldIndex := 0, 0, 0;
      more := d.fields != [];
    }

    // Goes to the next field, or back to the first one behind the last.
    method Next() returns (more: bool)
      requires At(pos)
      modifies this
      ensures more == (old(pos) + 1 < |d.fields|)
      ensures At(if more then old(pos) + 1 else 0)
    {
      if d.fields == [] {
        return false;
      }
      var before := d.fields[pos];
      pos := pos + 1;
      if pos == |d.fields| {
        var again := Begin();
        return false;
      }
      if SharesUnion(before, d.fields[pos]) {
        return true;
      }
      if before.rule.Required? {
        requiredFieldIndex := requiredFieldIndex + 1;
      }
      cell := cell + 1;
      return true;
    }

    // Finds the field with this tag from any place; the terminator of an empty message type has tag 0.
    method Find(tag: nat) returns (found: bool)
      requires At(pos)
      modifies this
      ensures At(pos)
      ensures found ==> Tag() == tag
      ensures !found ==> (d.fields == [] ==> tag != 0)
      ensures !found ==> forall i :: 0 <= i < |d.fields| ==> d.fields[i].tag != tag
    {
      var start := pos;
      var first := true;
      while first || pos != start
        invariant At(pos) && start == old(pos)
        invariant first ==> pos == start
        invariant d.fields == [] ==> first || tag != 0
        invariant !first ==> forall i :: start <= i < (if start < pos then pos else |d.fields|) ==> d.fields[i].tag != tag
        invariant !first && pos <= start ==> forall i :: 0 <= i < pos ==> d.fields[i].tag != tag
        decreases if first then |d.fields| + 1 else if pos > start then |d.fields| + start - pos else start - pos
      {
        if Tag() == tag {
          return true;
        }
        var more := Next();
        first := false;
      }
      found := false;
    }
  }
}
