/** nanopb: what a decoded struct is like, whatever the bytes were. Strings end inside their buffers, byte arrays
    and counts stay within their sizes, and so everything that pb_decode accepts can be written by pb_encode
    and read again. */
module ProtobufSafety {
  import opened Bytes
  import opened Coding
  import opened Options
  import opened ProtobufFields
  import opened ProtobufInput
  import opened ProtobufEncoders
  import opened ProtobufDecoders
  import opened ProtobufRoundTrips

  // ---- Structs that stay within their sizes ----

  ghost predicate FitsValue(f: Field, v: Value)
    decreases f, 0
  {
    match f.kind
    case LVarint => IntegerSize(f.dataSize)
    case LUvarint => IntegerSize(f.dataSize)
    case LSvarint => IntegerSize(f.dataSize)
    case LBytes => v.Raw? && |v.bytes| + 4 <= f.dataSize
    case LString => v.Raw? && exists k :: 0 <= k < |v.bytes| && k < f.dataSize && v.bytes[k] == 0
    case LSubmessage => v.Struct? && Fits(f.sub, v.cells)
    case _ => true
  }

  // An optional value fits even while it is absent: a submessage is decoded into what is there.
  ghost predicate FitsCell(f: Field, c: Cell)
    decreases f, 1
  {
    match f.rule
    case Required => |c.items| == 1 && FitsValue(f, c.items[0])
    case Optional => |c.items| == 1 && FitsValue(f, c.items[0])
    case OneOf => |c.items| == 1 && (c.size == f.tag ==> FitsValue(f, c.items[0]))
    case Repeated => c.size <= f.arraySize && c.size <= |c.items| && forall k :: 0 <= k < c.size ==> FitsValue(f, c.items[k])
    case FixedCount => false
  }

  ghost predicate Fits(d: Descriptor, cells: seq<Cell>)
    decreases d
  {
    forall i :: 0 <= i < |d.fields| ==> CellOf(d, i) < |cells| && FitsCell(d.fields[i], cells[CellOf(d, i)])
  }

  // Descriptors whose defaults fit. An array of fixed length keeps what was in memory before, so nothing is
  // promised about messages that have one.
  ghost predicate GoodDefaults(d: Descriptor)
    decreases d
  {
    forall i :: 0 <= i < |d.fields| ==> GoodField(d.fields[i])
  }

  ghost predicate GoodField(f: Field)
    decreases f
  {
    && !f.rule.FixedCount? && (f.kind.LSubmessage? ==> GoodDefaults(f.sub))
    && ((f.rule.Required? || f.rule.Optional?) && !f.kind.LSubmessage? ==>
          match f.initial
          case Some(v) => FitsValue(f, v)
          case None => FitsZero(f))
  }

  // Zeroed memory fits when an integer has a size and a string or byte array has room for its own.
  predicate FitsZero(f: Field) {
    match f.kind
    case LVarint => IntegerSize(f.dataSize)
    case LUvarint => IntegerSize(f.dataSize)
    case LSvarint => IntegerSize(f.dataSize)
    case LBytes => 4 <= f.dataSize
    case LString => 0 < f.dataSize
    case _ => true
  }

  // ---- Defaults fit ----

  lemma ZeroFits(f: Field)
    requires WellFormedField(f) && !f.kind.LSubmessage? && FitsZero(f)
    ensures FitsValue(f, Zero(f))
  {
    hide WellFormed;
    if f.kind.LString? {
      assert Zeros(f.dataSize)[0] == 0;
    }
  }

  lemma DefaultFits(f: Field, c: Cell)
    requires WellFormedField(f) && ShapedCell(f, c) && GoodField(f)
    ensures FitsCell(f, DefaultCell(f, c))
    decreases f
  {
    hide WellFormed, Shaped, ZeroCells, Defaults, Fits, GoodDefaults, FitsZero;
    TagIsPositive(f);
    if f.rule.Required? || f.rule.Optional? {
      if f.kind.LSubmessage? {
        DefaultsFit(f.sub, c.items[0].cells);
      } else if f.initial.None? {
        ZeroFits(f);
      }
    }
  }

  lemma DefaultsFit(d: Descriptor, cells: seq<Cell>)
    requires WellFormed(d) && Shaped(d, cells) && GoodDefaults(d)
    ensures Fits(d, Defaults(d, cells))
    decreases d, 1
  {
    hide WellFormed, Shaped, FitsCell, CellOf, GoodField;
    DefaultsFitUpTo(d, cells, |d.fields|);
    FitsAll(d, DefaultsUpTo(d, cells, |d.fields|));
  }

  ghost predicate FitsUpTo(d: Descriptor, cells: seq<Cell>, n: nat)
    requires n <= |d.fields|
  {
    forall i :: 0 <= i < n ==> CellOf(d, i) < |cells| && FitsCell(d.fields[i], cells[CellOf(d, i)])
  }

  lemma FitsAll(d: Descriptor, cells: seq<Cell>)
    ensures FitsUpTo(d, cells, |d.fields|) <==> Fits(d, cells)
  {
    hide FitsCell, CellOf;
  }

  lemma {:induction false} DefaultsFitUpTo(d: Descriptor, cells: seq<Cell>, n: nat)
    requires WellFormed(d) && Shaped(d, cells) && GoodDefaults(d) && n <= |d.fields|
    ensures FitsUpTo(d, DefaultsUpTo(d, cells, n), n)
    decreases d, 0, n
  {
    hide WellFormed, Shaped, FitsCell, CellOf, GoodField, ReadyCell, DefaultCell, ShapedCell, WellFormedField;
    if n > 0 {
      var i := n - 1;
      var before := DefaultsUpTo(d, cells, i);
      DefaultsFitUpTo(d, cells, i);
      CellIsShaped(d, before, i);
      DefaultFits(d.fields[i], before[CellOf(d, i)]);
      DefaultIsReady(d.fields[i], before[CellOf(d, i)]);
      StoreFits(d, before, i, i, DefaultCell(d.fields[i], before[CellOf(d, i)]));
    }
  }

  lemma DefaultIsReady(f: Field, c: Cell)
    requires WellFormedField(f) && ShapedCell(f, c)
    ensures f.rule.OneOf? ==> DefaultCell(f, c).size == 0
  {
    hide WellFormed, Shaped, ZeroCells, Defaults;
  }

  lemma CellIsShaped(d: Descriptor, cells: seq<Cell>, i: nat)
    requires WellFormed(d) && Shaped(d, cells) && i < |d.fields|
    ensures WellFormedField(d.fields[i]) && CellOf(d, i) < |cells| && ShapedCell(d.fields[i], cells[CellOf(d, i)])
  {
    hide CellOf, ShapedCell, WellFormedField;
  }

  // Storing one field leaves the others as they fit; the other members of its union are absent then.
  lemma StoreFits(d: Descriptor, cells: seq<Cell>, n: nat, i: nat, c: Cell)
    requires WellFormed(d) && i < |d.fields| && n <= |d.fields| && CellOf(d, i) < |cells|
    requires FitsUpTo(d, cells, n) && FitsCell(d.fields[i], c)
    requires d.fields[i].rule.OneOf? ==> c.size == 0 || c.size == d.fields[i].tag
    ensures FitsUpTo(d, cells[CellOf(d, i) := c], if i == n then n + 1 else n)
  {
    hide CellOf, FitsValue, WellFormedField;
    var after := cells[CellOf(d, i) := c];
    forall j | 0 <= j < |d.fields| && (j < n || j == i)
      ensures CellOf(d, j) < |after| && FitsCell(d.fields[j], after[CellOf(d, j)])
    {
      if j != i && CellOf(d, j) == CellOf(d, i) {
        SharedCell(d, if i < j then i else j, if i < j then j else i);
        FieldIsFine(d, j);
        TagIsPositive(d.fields[j]);
        OthersAbsent(d.fields[j], c, d.fields[i]);
      }
    }
  }

  lemma OthersAbsent(f: Field, c: Cell, g: Field)
    requires f.rule.OneOf? && g.rule.OneOf? && f.tag != g.tag && 0 < f.tag && FitsCell(g, c) && (c.size == 0 || c.size == g.tag)
    ensures FitsCell(f, c)
  {
    hide FitsValue;
  }

  // ---- Decoding keeps it so ----

  lemma StringFits(f: Field, v: Value, s: String)
    requires f.kind.LString? && StringItem(f, v, s).Parsed?
    ensures FitsValue(f, StringItem(f, v, s).value)
  {
    hide DelimitedAt, AfterTerminator;
    var text := DelimitedAt(s).value;
    assert (text + [0] + AfterTerminator(f, v, |text|))[|text|] == 0;
  }

  lemma ItemFits(f: Field, v: Value, s: String)
    requires WellFormedField(f) && GoodField(f) && (f.kind.LSubmessage? ==> ShapedValue(f, v) && (f.Array() || FitsValue(f, v)))
    ensures ItemAt(f, v, s).Parsed? ==> FitsValue(f, ItemAt(f, v, s).value)
    decreases f, 0
  {
    hide WellFormed, Shaped, Run, Defaults, Fits, GoodDefaults, DelimitedAt, FixedItem, BoolItem, FixedBytesItem, SignedOf, FitsZero;
    if ItemAt(f, v, s).Parsed? {
      if f.kind.LString? {
        StringFits(f, v, s);
      } else if f.kind.LSubmessage? {
        TagIsPositive(f);
        var start := if f.Array() then Defaults(f.sub, v.cells) else v.cells;
        if f.Array() {
          DefaultsFit(f.sub, v.cells);
        }
        RunFits(f.sub, Start(start), DelimitedAt(s).value);
      }
    }
  }

  lemma {:induction false} PackedFits(f: Field, items: seq<Value>, size: nat, s: String)
    requires WellFormedField(f) && GoodField(f) && f.Packable() && size <= f.arraySize
    requires |items| == f.arraySize && forall k :: 0 <= k < |items| ==> ShapedValue(f, items[k])
    requires forall k :: 0 <= k < size ==> FitsValue(f, items[k])
    ensures var p := PackedAt(f, items, size, s);
            p.Parsed? ==> p.value.size <= f.arraySize == |p.value.items| && forall k :: 0 <= k < p.value.size ==> FitsValue(f, p.value.items[k])
    decreases f, 1, |s|
  {
    hide ItemAt, ShapedValue, FitsValue, WellFormedField, GoodField;
    if s != [] && size < f.arraySize {
      NotSubmessage(f);
      ItemFits(f, items[size], s);
      match ItemAt(f, items[size], s)
      case Failed =>
      case Parsed(v, rest) => PackedFits(f, items[size := v], size + 1, rest);
    }
  }

  lemma CellFits(f: Field, c: Cell, wireType: nat, s: String)
    requires WellFormedField(f) && GoodField(f) && ShapedCell(f, c) && FitsCell(f, c)
    ensures CellAt(f, c, wireType, s).Parsed? ==> FitsCell(f, CellAt(f, c, wireType, s).value)
    decreases f, 2
  {
    hide ItemAt, PackedAt, ShapedValue, FitsValue, WellFormedField, GoodField, DelimitedAt, Defaults, ZeroCells;
    if f.Array() {
      ArrayFits(f, c, wireType, s);
    } else {
      SingleFits(f, c, wireType, s);
    }
  }

  lemma SingleFits(f: Field, c: Cell, wireType: nat, s: String)
    requires WellFormedField(f) && GoodField(f) && ShapedCell(f, c) && FitsCell(f, c) && !f.Array()
    ensures CellAt(f, c, wireType, s).Parsed? ==> FitsCell(f, CellAt(f, c, wireType, s).value)
    decreases f, 1
  {
    hide ItemAt, WellFormed, Shaped, GoodDefaults, Fits, DelimitedAt, Defaults, ZeroCells, FitsZero;
    TagIsPositive(f);
    if f.rule.OneOf? && c.size != f.tag {
      if f.kind.LSubmessage? {
        DefaultsFit(f.sub, ZeroCells(f.sub));
        ItemFits(f, Struct(Defaults(f.sub, ZeroCells(f.sub))), s);
      } else {
        ItemFits(f, c.items[0], s);
      }
    } else {
      ItemFits(f, c.items[0], s);
    }
  }

  lemma ArrayFits(f: Field, c: Cell, wireType: nat, s: String)
    requires WellFormedField(f) && GoodField(f) && ShapedCell(f, c) && FitsCell(f, c) && f.Array()
    ensures CellAt(f, c, wireType, s).Parsed? ==> FitsCell(f, CellAt(f, c, wireType, s).value)
    decreases f, 1, |s| + 1
  {
    hide ItemAt, PackedAt, ShapedValue, FitsValue, WellFormedField, GoodField, DelimitedAt;
    if wireType == WT_STRING && f.Packable() {
      if DelimitedAt(s).Parsed? {
        ShorterContents(s);
        PackedFits(f, c.items, c.size, DelimitedAt(s).value);
      }
    } else if c.size < f.arraySize {
      ItemFits(f, c.items[c.size], s);
    }
  }

  lemma ShorterContents(s: String)
    ensures DelimitedAt(s).Parsed? ==> |DelimitedAt(s).value| < |s|
  {
    hide ReadVarint32;
  }

  lemma StepFits(d: Descriptor, st: State, i: nat, wireType: nat, s: String)
    requires WellFormed(d) && Shaped(d, st.cells) && i < |d.fields| && GoodDefaults(d) && Fits(d, st.cells)
    ensures Step(d, st, i, wireType, s).Parsed? ==> Fits(d, Step(d, st, i, wireType, s).value.cells)
    decreases d, 0
  {
    hide WellFormed, Shaped, CellAt, FitsCell, CellOf, GoodField, WellFormedField, ShapedCell, FixedDone, SeenWith;
    CellIsShaped(d, st.cells, i);
    TargetShaped(d, st, i);
    CellFits(d.fields[i], st.cells[CellOf(d, i)], wireType, s);
    NotFixed(d.fields[i]);
    if Step(d, st, i, wireType, s).Parsed? {
      OneOfSize(d.fields[i], st.cells[CellOf(d, i)], wireType, s);
      FitsAll(d, st.cells);
      var c := CellAt(d.fields[i], st.cells[CellOf(d, i)], wireType, s).value;
      StoreFits(d, st.cells, |d.fields|, i, c);
      FitsAll(d, st.cells[CellOf(d, i) := c]);
    }
  }

  lemma OneOfSize(f: Field, c: Cell, wireType: nat, s: String)
    requires WellFormedField(f) && ShapedCell(f, c)
    ensures CellAt(f, c, wireType, s).Parsed? && f.rule.OneOf? ==> CellAt(f, c, wireType, s).value.size == f.tag
  {
    hide ItemAt, PackedAt, ShapedValue, WellFormedField, DelimitedAt, Defaults, ZeroCells;
  }

  lemma NotFixed(f: Field)
    requires GoodField(f)
    ensures !f.rule.FixedCount?
  {
    hide GoodDefaults, FitsValue, FitsZero;
  }

  lemma {:induction false} RunFits(d: Descriptor, st: State, s: String)
    requires WellFormed(d) && Shaped(d, st.cells) && GoodDefaults(d) && Fits(d, st.cells)
    ensures Run(d, st, s).Parsed? ==> Fits(d, Run(d, st, s).value)
    decreases d, 1, |s|
  {
    hide WellFormed, Shaped, GoodDefaults, Fits, Step, ReadTag, AfterUnknown, FixedDone, AllSeen;
    if s != [] {
      match ReadTag(s)
      case Bad =>
      case Ended(rest) =>
      case Tag(tag, wireType, rest) =>
        var i := FieldFrom(d, tag, 0);
        if i.None? {
          match AfterUnknown(d, tag, wireType, rest)
          case None =>
          case Some(behind) => RunFits(d, st, behind);
        } else {
          StepFits(d, st, i.value, wireType, rest);
          match Step(d, st, i.value, wireType, rest)
          case Failed =>
          case Parsed(after, behind) => RunFits(d, after, behind);
        }
    }
  }

  // ---- What fits can be written ----

  lemma ValueIsWritten(f: Field, v: Value)
    requires WellFormedField(f) && ShapedValue(f, v) && FitsValue(f, v)
    ensures Item(f, v).Some? && TerminatedValue(f, v)
    decreases f, 0
  {
    hide WellFormed, Shaped, Fits, Encoding, Terminated, Varint, Fixed, Delimited, Unsigned64, ZigZag;
    if f.kind.LSubmessage? {
      TagIsPositive(f);
      FittingIsWritten(f.sub, v.cells);
    }
  }

  lemma {:induction false} EntriesAreWritten(f: Field, items: seq<Value>, k: nat, tagged: bool)
    requires WellFormedField(f) && k <= |items| && forall j :: 0 <= j < |items| ==> ShapedValue(f, items[j]) && FitsValue(f, items[j])
    ensures EntriesFrom(f, items, k, tagged).Some? && forall j :: k <= j < |items| ==> TerminatedValue(f, items[j])
    decreases f, 1, |items| - k
  {
    hide Item, ShapedValue, FitsValue, WellFormedField, TerminatedValue;
    if k < |items| {
      ValueIsWritten(f, items[k]);
      EntriesAreWritten(f, items, k + 1, tagged);
    }
  }

  lemma CellIsWritten(f: Field, c: Cell)
    requires WellFormedField(f) && ShapedCell(f, c) && FitsCell(f, c)
    ensures FieldBytes(f, c).Some? && TerminatedCell(f, c)
    decreases f, 2
  {
    hide Item, ShapedValue, FitsValue, WellFormedField, TerminatedValue, EntriesFrom, Delimited, Key;
    if f.rule.Repeated? {
      assert forall k :: 0 <= k < c.size ==> c.items[..c.size][k] == c.items[k];
      EntriesAreWritten(f, c.items[..c.size], 0, !f.Packable());
    } else if f.rule.Required? || f.rule.Optional? || c.size == f.tag {
      ValueIsWritten(f, c.items[0]);
    }
  }

  lemma {:induction false} FieldsAreWritten(d: Descriptor, cells: seq<Cell>, i: nat)
    requires WellFormed(d) && Shaped(d, cells) && Fits(d, cells) && i <= |d.fields|
    ensures FieldsFrom(d, cells, i).Some? && TerminatedFrom(d, cells, i)
    decreases d, 0, |d.fields| - i
  {
    hide WellFormed, Shaped, WellFormedField, CellOf, ShapedCell, FieldBytes, FitsCell, TerminatedCell;
    if i < |d.fields| {
      FieldsStep(d, cells, i);
      CellIsWritten(d.fields[i], cells[CellOf(d, i)]);
      FieldsAreWritten(d, cells, i + 1);
      TerminatedStep(d, cells, i);
    } else {
      FieldsEnd(d, cells);
    }
  }

  lemma FittingIsWritten(d: Descriptor, cells: seq<Cell>)
    requires WellFormed(d) && Shaped(d, cells) && Fits(d, cells)
    ensures Encoding(d, cells).Some? && Terminated(d, cells)
    decreases d, 1
  {
    hide WellFormed, Shaped, Fits, CellOf, TerminatedCell, FieldsFrom;
    FieldsAreWritten(d, cells, 0);
    FieldsEnd(d, cells);
  }

  // Whatever the bytes are: what pb_decode makes of them stays within its buffers, has an encoding, and, when
  // that is not too long, comes back from it the same.
  lemma DecodedIsWritten(d: Descriptor, dest: seq<Cell>, s: String, dest': seq<Cell>)
    requires WellFormed(d) && Shaped(d, dest) && GoodDefaults(d) && Shaped(d, dest')
    requires Decoding(d, dest, s).Parsed?
    ensures var r := Decoding(d, dest, s).value;
            && Fits(d, r) && Encoding(d, r).Some?
            && (|Encoding(d, r).value| < TWO_32 ==>
                  var p := Decoding(d, dest', Encoding(d, r).value); p.Parsed? && p.rest == [] && Same(d, r, p.value))
  {
    hide WellFormed, Shaped, Run, Defaults, Encoding, Same, Fits, GoodDefaults, Terminated;
    var r := Decoding(d, dest, s).value;
    DefaultsFit(d, dest);
    RunFits(d, Start(Defaults(d, dest)), s);
    FittingIsWritten(d, r);
    if |Encoding(d, r).value| < TWO_32 {
      DecodeUndoesEncode(d, r, dest');
    }
  }

  // ---- What is taken of a length and its bytes ----

  // A byte array takes what its buffer has room for beside its size, a string what leaves room for a
  // terminator, and an array of fixed length all of its bytes, or none, which makes it zeros.
  lemma DelimitedIsTaken(f: Field, v: Value, e: String, rest: String)
    requires WellFormedField(f) && |e| < TWO_32
    ensures f.kind.LBytes? ==> ItemAt(f, v, Delimited(e) + rest) == if |e| + 4 <= f.dataSize then Parsed(Raw(e), rest) else Failed
    ensures f.kind.LString? ==>
              var p := ItemAt(f, v, Delimited(e) + rest);
              if |e| < f.dataSize then p.Parsed? && p.rest == rest && p.value.Raw? && |p.value.bytes| == f.dataSize && e + [0] <= p.value.bytes
              else p == Failed
    ensures f.kind.LFixedLengthBytes? ==>
              var p := ItemAt(f, v, Delimited(e) + rest);
              if e == [] then p.Parsed? && p.rest == rest && p.value.Raw? && |p.value.bytes| == f.dataSize
                              && forall k :: 0 <= k < f.dataSize ==> p.value.bytes[k] == 0
              else p == if |e| == f.dataSize then Parsed(Raw(e), rest) else Failed
  {
    hide DelimitedAt, Delimited, WellFormed, Varint32Tail, ReadVarint32, AfterTerminator, FixedBytesItem;
    DelimitedReads(e, rest);
    if f.kind.LFixedLengthBytes? {
      FixedIsTaken(f, e, rest);
    }
  }

  lemma FixedIsTaken(f: Field, e: String, rest: String)
    requires |e| < TWO_32
    ensures FixedBytesItem(f, Delimited(e) + rest)
            == if e == [] then Parsed(Raw(Zeros(f.dataSize)), rest) else if |e| == f.dataSize then Parsed(Raw(e), rest) else Failed
  {
    hide ReadVarint32, Varint;
    Varint32Reads(|e|, e + rest);
    Assoc(Varint(|e|), e, rest);
    assert (e + rest)[..|e|] == e && (e + rest)[|e|..] == rest;
  }

  // Every number but zero is true.
  lemma BoolIsTaken(n: nat, rest: String)
    requires n < TWO_32
    ensures BoolItem(Varint(n) + rest) == Parsed(Number(if n == 0 then 0 else 1), rest)
  {
    hide ReadVarint32, Varint;
    Varint32Reads(n, rest);
  }

  // A submessage outside of an array is decoded into what is there: one without any fields changes nothing, and is
  // refused only for its own required fields.
  lemma EmptySubmessage(f: Field, v: Value, rest: String)
    requires WellFormedField(f) && f.kind.LSubmessage? && ShapedValue(f, v) && !f.Array()
    ensures ItemAt(f, v, Delimited([]) + rest)
            == if forall i :: 0 <= i < |f.sub.fields| ==> !f.sub.fields[i].rule.Required? then Parsed(v, rest) else Failed
  {
    hide DelimitedAt, Delimited, WellFormed, Shaped, Run, AllSeen;
    TagIsPositive(f);
    DelimitedReads([], rest);
    RunEnds(f.sub, Start(v.cells));
    NoneRequired(f.sub);
  }

  lemma NoneRequired(d: Descriptor)
    ensures AllSeen(d, {}) <==> forall i :: 0 <= i < |d.fields| ==> !d.fields[i].rule.Required?
  {
    hide RequiredBefore;
    var none: set<nat> := {};
    assert 0 !in none;
    if 0 < RequiredBefore(d, |d.fields|) {
      var i := RequiredAt(d, 0, |d.fields|);
    }
    forall i | 0 <= i < |d.fields| && d.fields[i].rule.Required?
      ensures RequiredBefore(d, |d.fields|) > 0
    {
      RequiredAscend(d, i, |d.fields|);
    }
  }
}
