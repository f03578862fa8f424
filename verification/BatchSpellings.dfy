/** Exactly which bytes WriteBatch::Iterate takes for operations (db/write_batch.cc:41-84), with the types of the
    records as the bytes that stand in the log. */
module BatchSpellings {
  import opened Bytes
  import opened Coding
  import opened Spellings
  import opened WriteBatches

  function Pieces(op: Op): seq<Token> {
    match op
    case Put(key, value) => [Mark(1)] + ([Text(key)] + [Text(value)])
    case Delete(key) => [Mark(0)] + [Text(key)]
  }

  ghost predicate OpStarts(s: seq<Byte>, op: Op, rest: seq<Byte>) {
    StartsWith(s, Pieces(op), rest)
  }

  lemma OpExactly(s: seq<Byte>, op: Op, rest: seq<Byte>)
    ensures s != [] && ParseRecord(s) == Parsed(op, rest) <==> OpStarts(s, op, rest)
  {
    hide PrefixedAt, Starts, StartsWith, DecodeByte;
    match op {
      case Put(key, value) => PutExactly(s, key, value, rest);
      case Delete(key) => DeleteExactly(s, key, rest);
    }
  }

  lemma DeleteExactly(s: seq<Byte>, key: seq<Byte>, rest: seq<Byte>)
    ensures s != [] && ParseRecord(s) == Parsed(Delete(key), rest) <==> StartsWith(s, [Mark(0)] + [Text(key)], rest)
  {
    hide PrefixedAt, Starts, StartsWith, DecodeByte;
    if s != [] {
      MarkExactly(s, 0, s[1..]);
      TextExactly(s[1..], key, rest);
      Last(s[1..], Text(key), rest);
    }
    if s != [] && ParseRecord(s) == Parsed(Delete(key), rest) {
      Step(s, Mark(0), s[1..], [Text(key)], rest);
    }
    if StartsWith(s, [Mark(0)] + [Text(key)], rest) {
      var mid := Next(s, Mark(0), [Text(key)], rest);
      MarkExactly(s, 0, mid);
    }
  }

  lemma PutExactly(s: seq<Byte>, key: seq<Byte>, value: seq<Byte>, rest: seq<Byte>)
    ensures s != [] && ParseRecord(s) == Parsed(Op.Put(key, value), rest)
            <==> StartsWith(s, [Mark(1)] + ([Text(key)] + [Text(value)]), rest)
  {
    hide PrefixedAt, Starts, StartsWith, DecodeByte;
    if s != [] && ParseRecord(s) == Parsed(Op.Put(key, value), rest) {
      var mid := PrefixedAt(s[1..]).rest;
      MarkExactly(s, 1, s[1..]);
      TextExactly(s[1..], key, mid);
      TextExactly(mid, value, rest);
      Last(mid, Text(value), rest);
      Step(s[1..], Text(key), mid, [Text(value)], rest);
      Step(s, Mark(1), s[1..], [Text(key)] + [Text(value)], rest);
    }
    if StartsWith(s, [Mark(1)] + ([Text(key)] + [Text(value)]), rest) {
      var behind := Next(s, Mark(1), [Text(key)] + [Text(value)], rest);
      var mid := Next(behind, Text(key), [Text(value)], rest);
      Last(mid, Text(value), rest);
      MarkExactly(s, 1, behind);
      TextExactly(behind, key, mid);
      TextExactly(mid, value, rest);
    }
  }

  // s starts with these operations, and this is what follows.
  ghost predicate OpsStart(s: seq<Byte>, ops: seq<Op>, rest: seq<Byte>)
    decreases |ops|
  {
    if ops == [] then s == rest
    else exists mid: seq<Byte> :: OpStarts(s, ops[0], mid) && OpsStart(mid, ops[1..], rest)
  }

  // Nothing more can be read: the bytes are used up, or no record starts here.
  ghost predicate Stops(rest: seq<Byte>) {
    forall op, r: seq<Byte> :: !OpStarts(rest, op, r)
  }

  lemma {:induction false} OpsAreRead(s: seq<Byte>, ops: seq<Op>, rest: seq<Byte>)
    requires OpsStart(s, ops, rest) && Stops(rest)
    ensures ParseRecords(s) == Iterated(ops, rest == [])
    decreases |ops|
  {
    hide ParseRecord, OpStarts;
    if ops == [] {
      if rest != [] && ParseRecord(rest).Parsed? {
        OpExactly(rest, ParseRecord(rest).value, ParseRecord(rest).rest);
      }
    } else {
      var mid :| OpStarts(s, ops[0], mid) && OpsStart(mid, ops[1..], rest);
      OpExactly(s, ops[0], mid);
      OpsAreRead(mid, ops[1..], rest);
    }
  }

  lemma {:induction false} ReadAreOps(s: seq<Byte>) returns (rest: seq<Byte>)
    ensures OpsStart(s, ParseRecords(s).ops, rest) && Stops(rest) && (ParseRecords(s).ok <==> rest == [])
    decreases |s|
  {
    hide ParseRecord, OpStarts;
    if s == [] || ParseRecord(s).Failed? {
      rest := s;
      forall op, r: seq<Byte>
        ensures !OpStarts(s, op, r)
      {
        OpExactly(s, op, r);
      }
    } else {
      var p := ParseRecord(s);
      rest := ReadAreOps(p.rest);
      OpExactly(s, p.value, p.rest);
      assert ParseRecords(s).ops[1..] == ParseRecords(p.rest).ops;
    }
  }

  // The operations that a batch makes, whatever bytes it is, are those that stand behind its header up to where
  // no whole record starts; it is well-formed exactly when nothing is left there and the count is theirs.
  lemma IteratedExactlyWhen(rep: seq<Byte>, ops: seq<Op>, ok: bool)
    requires |rep| >= 12
    ensures IterateOver(rep) == Iterated(ops, ok)
            <==> exists rest: seq<Byte> :: OpsStart(rep[12..], ops, rest) && Stops(rest)
                                           && (ok <==> rest == [] && |ops| == FromFixed(rep[8..12]))
  {
    hide ParseRecords, OpsStart, Stops, FromFixed;
    var found := ReadAreOps(rep[12..]);
    assert IterateOver(rep).ok <==> found == [] && |IterateOver(rep).ops| == FromFixed(rep[8..12]);
    forall rest: seq<Byte> | OpsStart(rep[12..], ops, rest) && Stops(rest)
      ensures ParseRecords(rep[12..]) == Iterated(ops, rest == [])
    {
      OpsAreRead(rep[12..], ops, rest);
    }
  }
}
