/** db/write_batch.cc: the bytes of a batch of updates, which are also the payload of its log record. */
module WriteBatches {
  import opened Bytes
  import opened Coding

  const HEADER: nat := 12           // kHeader: sequence number and count
  const TYPE_DELETION: nat := 0
  const TYPE_VALUE: nat := 1
  const COUNT_LIMIT: nat := 0x8000_0000     // counts are passed as int

  datatype Op = Put(key: seq<Byte>, value: seq<Byte>) | Delete(key: seq<Byte>)

  predicate OpFits(op: Op) {
    |op.key| < TWO_32 && (op.Put? ==> |op.value| < TWO_32)
  }

  predicate Fits(ops: seq<Op>) {
    |ops| < COUNT_LIMIT && forall i :: 0 <= i < |ops| ==> OpFits(ops[i])
  }

  // ---- The format ----

  function Record(op: Op): (s: seq<Byte>)
    ensures |s| > 0
  {
    match op
    case Put(key, value) => [EncodeByte(TYPE_VALUE)] + Prefixed(key) + Prefixed(value)
    case Delete(key) => [EncodeByte(TYPE_DELETION)] + Prefixed(key)
  }

  function Records(ops: seq<Op>): seq<Byte> {
    if ops == [] then [] else Records(ops[..|ops| - 1]) + Record(ops[|ops| - 1])
  }

  function Rep(sequence: nat, ops: seq<Op>): seq<Byte> {
    Fixed(sequence, 8) + Fixed(|ops|, 4) + Records(ops)
  }

  function SequenceOf(rep: seq<Byte>): nat
    requires |rep| >= HEADER
  {
    FromFixed(rep[..8])
  }

  function CountOf(rep: seq<Byte>): nat
    requires |rep| >= HEADER
  {
    FromFixed(rep[8..HEADER])
  }

  // The next record, if there is a well-formed one.
  function ParseRecord(s: seq<Byte>): (p: Parsed<Op>)
    requires s != []
    ensures p.Parsed? ==> |p.rest| < |s|
  {
    var tag := DecodeByte(s[0]);
    if tag != TYPE_VALUE && tag != TYPE_DELETION then Failed
    else
      match PrefixedAt(s[1..])
      case Failed => Failed
      case Parsed(key, rest) =>
        if tag == TYPE_DELETION then Parsed(Delete(key), rest)
        else
          match PrefixedAt(rest)
          case Failed => Failed
          case Parsed(value, rest') => Parsed(Put(key, value), rest')
  }

  datatype Iterated = Iterated(ops: seq<Op>, ok: bool)

  // The handler calls that the records of s make, and whether they end well.
  function ParseRecords(s: seq<Byte>): Iterated
    decreases |s|
  {
    if s == [] then Iterated([], true)
    else
      match ParseRecord(s)
      case Failed => Iterated([], false)
      case Parsed(op, rest) =>
        var tail := ParseRecords(rest);
        Iterated([op] + tail.ops, tail.ok)
  }

  function IterateOver(rep: seq<Byte>): Iterated {
    if |rep| < HEADER then Iterated([], false)
    else
      var r := ParseRecords(rep[HEADER..]);
      Iterated(r.ops, r.ok && |r.ops| == CountOf(rep))
  }

  // ---- Round trips ----

  lemma RecordRoundTrip(op: Op, rest: seq<Byte>)
    requires OpFits(op)
    ensures ParseRecord(Record(op) + rest) == Parsed(op, rest)
  {
    hide EncodeByte, DecodeByte, Prefixed, PrefixedAt;
    ByteRoundTrip(TYPE_VALUE);
    ByteRoundTrip(TYPE_DELETION);
    var s := Record(op) + rest;
    match op
    case Put(key, value) =>
      assert s[1..] == Prefixed(key) + (Prefixed(value) + rest);
      PrefixedRoundTrip(key, Prefixed(value) + rest);
      PrefixedRoundTrip(value, rest);
    case Delete(key) =>
      assert s[1..] == Prefixed(key) + rest;
      PrefixedRoundTrip(key, rest);
  }

  lemma {:induction false} RecordsConcat(a: seq<Op>, b: seq<Op>)
    ensures Records(a + b) == Records(a) + Records(b)
  {
    hide Record;
    if b == [] {
      assert a + b == a;
    } else {
      var n := |b| - 1;
      RecordsConcat(a, b[..n]);
      assert (a + b)[..|a + b| - 1] == a + b[..n];
      Assoc(Records(a), Records(b[..n]), Record(b[n]));
    }
  }

  lemma RecordsFirst(ops: seq<Op>)
    requires ops != []
    ensures Records(ops) == Record(ops[0]) + Records(ops[1..])
  {
    hide Record;
    assert ops == [ops[0]] + ops[1..];
    RecordsConcat([ops[0]], ops[1..]);
    assert Records([ops[0]]) == Records([]) + Record(ops[0]) == Record(ops[0]);
  }

  lemma {:induction false} RecordsRoundTrip(ops: seq<Op>)
    requires forall i :: 0 <= i < |ops| ==> OpFits(ops[i])
    ensures ParseRecords(Records(ops)) == Iterated(ops, true)
  {
    hide Record, ParseRecord;
    if ops != [] {
      RecordsFirst(ops);
      RecordRoundTrip(ops[0], Records(ops[1..]));
      RecordsRoundTrip(ops[1..]);
    }
  }

  lemma RepParts(sequence: nat, ops: seq<Op>)
    requires sequence < TWO_64 && |ops| < TWO_32
    ensures var rep := Rep(sequence, ops);
            |rep| >= HEADER && SequenceOf(rep) == sequence && CountOf(rep) == |ops| && rep[HEADER..] == Records(ops)
  {
    hide Fixed, FromFixed, Records;
    PowersOf256();
    FixedRoundTrip(sequence, 8);
    FixedRoundTrip(|ops|, 4);
    assert Rep(sequence, ops)[..8] == Fixed(sequence, 8);
    assert Rep(sequence, ops)[8..HEADER] == Fixed(|ops|, 4);
  }

  // One more operation: a new count and one more record.
  lemma RepGrows(sequence: nat, ops: seq<Op>, op: Op)
    requires sequence < TWO_64 && Fits(ops) && Fits(ops + [op])
    ensures |ops| < TWO_32 && |ops + [op]| == |ops| + 1 && |op.key| < TWO_32 && (op.Put? ==> |op.value| < TWO_32)
    ensures var rep := Rep(sequence, ops);
            |rep| >= HEADER && Rep(sequence, ops + [op]) == rep[..8] + Fixed(|ops| + 1, 4) + rep[HEADER..] + Record(op)
  {
    hide Fixed, Record;
    assert (ops + [op])[|ops|] == op;
    assert (ops + [op])[..|ops|] == ops;
    assert Rep(sequence, ops)[..8] == Fixed(sequence, 8);
    assert Rep(sequence, ops)[HEADER..] == Records(ops);
    Assoc(Fixed(sequence, 8) + Fixed(|ops| + 1, 4), Records(ops), Record(op));
  }

  lemma RestampedRep(sequence: nat, was: nat, ops: seq<Op>)
    ensures |Rep(was, ops)| >= 8 && Fixed(sequence, 8) + Rep(was, ops)[8..] == Rep(sequence, ops)
  {
    hide Fixed, Records;
    assert Rep(was, ops)[8..] == Fixed(|ops|, 4) + Records(ops);
    Assoc(Fixed(sequence, 8), Fixed(|ops|, 4), Records(ops));
  }

  // Iterating over a batch gives back its operations, in order.
  lemma BatchRoundTrip(sequence: nat, ops: seq<Op>)
    requires sequence < TWO_64 && Fits(ops)
    ensures IterateOver(Rep(sequence, ops)) == Iterated(ops, true)
  {
    hide ParseRecords, Records, SequenceOf, CountOf, Rep;
    RepParts(sequence, ops);
    RecordsRoundTrip(ops);
  }

  // ---- What goes into the memtable ----

  datatype Stamped = Stamped(sequence: nat, op: Op)

  // MemTableInserter: consecutive sequence numbers from the one of the batch.
  function Stamps(sequence: nat, ops: seq<Op>): (s: seq<Stamped>)
    ensures |s| == |ops|
    ensures forall i :: 0 <= i < |s| ==> s[i] == Stamped(sequence + i, ops[i])
  {
    seq(|ops|, i requires 0 <= i < |ops| => Stamped(sequence + i, ops[i]))
  }

  function After(ops: seq<Op>, rest: Iterated): Iterated {
    Iterated(ops + rest.ops, rest.ok)
  }

  lemma AfterNothing(rest: Iterated)
    ensures After([], rest) == rest
  {
    assert [] + rest.ops == rest.ops;
  }

  lemma NoMoreRecords(ops: seq<Op>)
    ensures After(ops, ParseRecords([])) == Iterated(ops, true)
  {
    assert ops + [] == ops;
  }

  lemma NextRecord(ops: seq<Op>, s: seq<Byte>)
    requires s != []
    ensures After(ops, ParseRecords(s))
            == match ParseRecord(s)
               case Failed => Iterated(ops, false)
               case Parsed(op, rest) => After(ops + [op], ParseRecords(rest))
  {
    hide ParseRecord;
    match ParseRecord(s)
    case Failed =>
      assert ops + [] == ops;
    case Parsed(op, rest) =>
      assert ops + ([op] + ParseRecords(rest).ops) == ops + [op] + ParseRecords(rest).ops;
  }

  // ---- The batch ----

  class WriteBatch {
    var rep: seq<Byte>

    ghost predicate Holds(sequence: nat, ops: seq<Op>)
      reads this
    {
      sequence < TWO_64 && Fits(ops) && rep == Rep(sequence, ops)
    }

    constructor ()
      ensures Holds(0, [])
    {
      rep := seq(HEADER, _ => EncodeByte(0));
      ZeroHeader();
    }

    method SetCount(n: nat)
      requires |rep| >= HEADER
      modifies this
      ensures rep == old(rep)[..8] + Fixed(n, 4) + old(rep)[HEADER..]
    {
      rep := rep[..8] + Fixed(n, 4) + rep[HEADER..];
    }

    method SetSequence(sequence: nat, ghost was: nat, ghost ops: seq<Op>)
      requires Holds(was, ops) && sequence < TWO_64
      modifies this
      ensures Holds(sequence, ops)
    {
      hide Fixed, Records, Rep;
      RepParts(was, ops);
      RestampedRep(sequence, was, ops);
      rep := Fixed(sequence, 8) + rep[8..];
    }

    method Put(key: seq<Byte>, value: seq<Byte>, ghost sequence: nat, ghost ops: seq<Op>)
      requires Holds(sequence, ops) && Fits(ops + [Op.Put(key, value)])
      modifies this
      ensures Holds(sequence, ops + [Op.Put(key, value)])
    {
      hide Fixed, Records, Rep, Prefixed, EncodeByte, SequenceOf, CountOf, Fits;
      RepGrows(sequence, ops, Op.Put(key, value));
      RepParts(sequence, ops);
      SetCount(CountOf(rep) + 1);
      ghost var counted := rep;
      rep := rep + [EncodeByte(TYPE_VALUE)];
      rep := PutLengthPrefixedSlice(rep, key);
      rep := PutLengthPrefixedSlice(rep, value);
      assert rep == counted + Record(Op.Put(key, value));
    }

    method Delete(key: seq<Byte>, ghost sequence: nat, ghost ops: seq<Op>)
      requires Holds(sequence, ops) && Fits(ops + [Op.Delete(key)])
      modifies this
      ensures Holds(sequence, ops + [Op.Delete(key)])
    {
      hide Fixed, Records, Rep, Prefixed, EncodeByte, SequenceOf, CountOf, Fits;
      RepGrows(sequence, ops, Op.Delete(key));
      RepParts(sequence, ops);
      SetCount(CountOf(rep) + 1);
      ghost var counted := rep;
      rep := rep + [EncodeByte(TYPE_DELETION)];
      rep := PutLengthPrefixedSlice(rep, key);
      assert rep == counted + Record(Op.Delete(key));
    }

    method Append(source: WriteBatch, ghost sequence: nat, ghost ops: seq<Op>, ghost sequence': nat, ghost ops': seq<Op>)
      requires Holds(sequence, ops) && source.Holds(sequence', ops') && Fits(ops + ops') && source != this
      modifies this
      ensures Holds(sequence, ops + ops')
    {
      hide Fixed, Records, SequenceOf, CountOf;
      RepParts(sequence, ops);
      RepParts(sequence', ops');
      SetCount(CountOf(rep) + CountOf(source.rep));
      rep := rep + source.rep[HEADER..];
      RecordsConcat(ops, ops');
    }

    // The switch on the tag of the next record.
    static method ReadRecord(input: seq<Byte>) returns (p: Parsed<Op>)
      requires input != []
      ensures p == ParseRecord(input)
    {
      hide DecodeByte, PrefixedAt;
      var tag := DecodeByte(input[0]);
      var rest := input[1..];
      if tag == TYPE_VALUE {
        var key := GetLengthPrefixedSlice(rest);
        if key == Failed {
          return Failed;
        }
        var value := GetLengthPrefixedSlice(key.rest);
        if value == Failed {
          return Failed;
        }
        p := Parsed(Op.Put(key.value, value.value), value.rest);
      } else if tag == TYPE_DELETION {
        var key := GetLengthPrefixedSlice(rest);
        if key == Failed {
          return Failed;
        }
        p := Parsed(Op.Delete(key.value), key.rest);
      } else {
        p := Failed;
      }
    }

    // Calls the handler for every record; the calls are the result.
    method Iterate() returns (ops: seq<Op>, ok: bool)
      ensures Iterated(ops, ok) == IterateOver(rep)
    {
      hide CountOf, ParseRecord, ParseRecords, After;
      ops := [];
      if |rep| < HEADER {
        return [], false;
      }
      var input := rep[HEADER..];
      AfterNothing(ParseRecords(input));
      var found := 0;
      while input != []
        invariant found == |ops|
        invariant ParseRecords(rep[HEADER..]) == After(ops, ParseRecords(input))
        decreases |input|
      {
        found := found + 1;
        NextRecord(ops, input);
        var record := ReadRecord(input);
        if record == Failed {
          return ops, false;
        }
        ops := ops + [record.value];
        input := record.rest;
      }
      NoMoreRecords(ops);
      ok := found == CountOf(rep);
    }

    method InsertInto() returns (entries: seq<Stamped>, ok: bool)
      requires |rep| >= HEADER
      ensures var r := IterateOver(rep); entries == Stamps(SequenceOf(rep), r.ops) && ok == r.ok
    {
      hide IterateOver, SequenceOf;
      var ops;
      ops, ok := Iterate();
      entries := Stamps(SequenceOf(rep), ops);
    }
  }

  lemma ZeroHeader()
    ensures Rep(0, []) == seq(HEADER, _ => EncodeByte(0))
  {
    hide EncodeByte;
    assert forall n: nat :: n <= 8 ==> Fixed(0, n) == seq(n, _ => EncodeByte(0)) by {
      forall n: nat | n <= 8 ensures Fixed(0, n) == seq(n, _ => EncodeByte(0)) {
        FixedZero(n);
      }
    }
  }

  lemma {:induction false} FixedZero(n: nat)
    ensures Fixed(0, n) == seq(n, _ => EncodeByte(0))
  {
    hide EncodeByte;
    if n > 0 {
      FixedZero(n - 1);
    }
  }
}
