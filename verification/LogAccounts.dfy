/** What the reader does with every byte of payload that it sees (db/log_reader.cc:60-186): it is in a record that
    is returned, or it is reported, or it belongs to a record that the file ends within. */
module LogAccounts {
  import opened Options
  import opened Bytes
  import opened Logs
  import opened LogReaders
  import opened LogCrashes

  function Sum(ns: seq<nat>): nat {
    if ns == [] then 0 else Sum(ns[..|ns| - 1]) + ns[|ns| - 1]
  }

  lemma SumMore(ns: seq<nat>, n: nat)
    ensures Sum(ns + [n]) == Sum(ns) + n
  {
    assert (ns + [n])[..|ns|] == ns;
  }

  lemma SumNone(ns: seq<nat>)
    ensures Sum(ns + []) == Sum(ns)
  {
    assert ns + [] == ns;
  }

  lemma SumOne(n: nat)
    ensures Sum([n]) == n
  {
    SumMore([], n);
    assert [] + [n] == [n];
    assert Sum([]) == 0;
  }

  lemma SumSome(ns: seq<nat>, more: seq<nat>)
    requires |more| <= 1
    ensures Sum(ns + more) == Sum(ns) + Sum(more)
  {
    hide Sum;
    if more == [] {
      SumNone(ns);
      NoSum();
    } else {
      SumMore(ns, more[0]);
      SumOne(more[0]);
      assert more == [more[0]];
    }
  }

  lemma NoSum()
    ensures Sum([]) == 0
  {
  }

  function Lengths(records: seq<seq<Byte>>): nat {
    if records == [] then 0 else |records[0]| + Lengths(records[1..])
  }

  // The payload of a physical record; the types 5 and 6 are codes of the reader, and what a file has under
  // them is passed over.
  function Payload(p: PhysicalRecord): nat {
    if p.kind == 5 || p.kind == 6 then 0 else |p.fragment|
  }

  // All that ReadPhysicalRecord hands out or reports from a position to the end.
  function Seen(file: seq<Byte>, checksum: bool, pos: nat): nat
    requires pos <= |file|
    decreases |file| - pos
  {
    var p := PhysicalAt(file, checksum, pos);
    Payload(p) + Sum(p.drops) + if p.kind == END_OF_FILE then 0 else Seen(file, checksum, p.next)
  }

  // How much of a record has begun after one more physical record, if one has.
  function Pending(begun: Option<nat>, p: PhysicalRecord): Option<nat> {
    if p.kind == 2 then Some(|p.fragment|)
    else if p.kind == 3 && begun.Some? then Some(begun.value + |p.fragment|)
    else None
  }

  // What has begun when the file ends.
  function Unfinished(file: seq<Byte>, checksum: bool, pos: nat, begun: Option<nat>): nat
    requires pos <= |file|
    decreases |file| - pos
  {
    var p := PhysicalAt(file, checksum, pos);
    if p.kind == END_OF_FILE then (if begun.Some? then begun.value else 0)
    else Unfinished(file, checksum, p.next, Pending(begun, p))
  }

  function Begun(inFragment: bool, scratch: seq<Byte>): Option<nat> {
    if inFragment then Some(|scratch|) else None
  }

  lemma OneDropAtMost(file: seq<Byte>, checksum: bool, pos: nat)
    requires pos <= |file|
    ensures |PhysicalAt(file, checksum, pos).drops| <= 1
    ensures var p := PhysicalAt(file, checksum, pos); p.drops != [] ==> p.kind == BAD_RECORD && p.fragment == []
    decreases |file| - pos
  {
    hide Parse, BlockEnd;
    var end := BlockEnd(file, pos);
    ParsedAt(file, checksum, pos);
    TrailerSkipped(file, checksum, pos);
    EndAt(file, checksum, pos);
    if end - pos >= HEADER_SIZE {
      ParseDrops(file[pos..end], checksum, end % BLOCK_SIZE != 0);
    } else if end % BLOCK_SIZE == 0 && pos < end {
      OneDropAtMost(file, checksum, end);
    }
  }

  lemma ParseDrops(buffer: seq<Byte>, checksum: bool, last: bool)
    requires |buffer| >= HEADER_SIZE
    ensures var p := Parse(buffer, checksum, last); |p.drops| <= 1 && (p.drops != [] ==> p.kind == BAD_RECORD && p.fragment == [])
  {
    hide DecodeLength, DecodeByte, ChecksumMatches;
  }

  lemma SeenStep(file: seq<Byte>, checksum: bool, pos: nat)
    requires pos <= |file|
    ensures var p := PhysicalAt(file, checksum, pos);
            Seen(file, checksum, pos) == Payload(p) + Sum(p.drops) + if p.kind == END_OF_FILE then 0 else Seen(file, checksum, p.next)
  {
    hide PhysicalAt, Sum;
  }

  lemma UnfinishedStep(file: seq<Byte>, checksum: bool, pos: nat, begun: Option<nat>)
    requires pos <= |file|
    ensures var p := PhysicalAt(file, checksum, pos);
            Unfinished(file, checksum, pos, begun)
            == if p.kind == END_OF_FILE then (if begun.Some? then begun.value else 0)
               else Unfinished(file, checksum, p.next, Pending(begun, p))
  {
    hide PhysicalAt;
  }

  lemma PartialAtMostOne(inFragment: bool, scratch: seq<Byte>)
    ensures |PartialDrop(inFragment, scratch)| <= 1
  {
  }

  // What one call owes: what was begun before, what is seen until it returns, and what was reported already.
  ghost predicate Balances(file: seq<Byte>, checksum: bool, pos: nat, begun: Option<nat>, reported: nat, o: Outcome)
    requires pos <= |file|
  {
    && o.next <= |file|
    && (o.found ==>
          && Value(begun) + Seen(file, checksum, pos) + reported == |o.record| + Sum(o.drops) + Seen(file, checksum, o.next)
          && Unfinished(file, checksum, pos, begun) == Unfinished(file, checksum, o.next, None))
    && (!o.found ==> Value(begun) + Seen(file, checksum, pos) + reported == Sum(o.drops) + Unfinished(file, checksum, pos, begun))
  }

  function Value(begun: Option<nat>): nat {
    if begun.Some? then begun.value else 0
  }

  // Going on after a physical record that starts, continues or drops something.
  lemma GoesOn(file: seq<Byte>, checksum: bool, pos: nat, begun: Option<nat>, reported: nat, reported': nat, o: Outcome)
    requires pos <= |file| && PhysicalAt(file, checksum, pos).kind != END_OF_FILE
    requires var p := PhysicalAt(file, checksum, pos);
             && Balances(file, checksum, p.next, Pending(begun, p), reported', o)
             && Value(Pending(begun, p)) + reported' == Value(begun) + Payload(p) + Sum(p.drops) + reported
    ensures Balances(file, checksum, pos, begun, reported, o)
  {
    hide PhysicalAt, Sum, Seen, Unfinished, Pending;
    SeenStep(file, checksum, pos);
    UnfinishedStep(file, checksum, pos, begun);
  }

  // Returning a record with a physical record, full or last.
  lemma Returns(file: seq<Byte>, checksum: bool, pos: nat, begun: Option<nat>, reported: nat, o: Outcome)
    requires pos <= |file| && o.found
    requires var p := PhysicalAt(file, checksum, pos);
             && p.kind != END_OF_FILE && Pending(begun, p) == None && o.next == p.next
             && |o.record| + Sum(o.drops) == Value(begun) + Payload(p) + Sum(p.drops) + reported
    ensures Balances(file, checksum, pos, begun, reported, o)
  {
    hide PhysicalAt, Sum, Seen, Unfinished, Pending;
    SeenStep(file, checksum, pos);
    UnfinishedStep(file, checksum, pos, begun);
  }

  lemma Ends(file: seq<Byte>, checksum: bool, pos: nat, begun: Option<nat>, reported: nat, o: Outcome)
    requires pos <= |file| && !o.found && o.next <= |file| && PhysicalAt(file, checksum, pos).kind == END_OF_FILE
    requires Sum(o.drops) == Sum(PhysicalAt(file, checksum, pos).drops) + reported
    ensures Balances(file, checksum, pos, begun, reported, o)
  {
    hide PhysicalAt, Sum, Seen, Unfinished, Pending;
    SeenStep(file, checksum, pos);
    UnfinishedStep(file, checksum, pos, begun);
  }

  lemma {:induction false} RecordBalances(file: seq<Byte>, checksum: bool, pos: nat, inFragment: bool, scratch: seq<Byte>, offset: int,
                                          drops: seq<nat>)
    requires pos <= |file| && (!inFragment ==> scratch == [])
    ensures Balances(file, checksum, pos, Begun(inFragment, scratch), Sum(drops),
                     RecordAt(file, checksum, pos, inFragment, scratch, offset, drops))
    decreases |file| - pos
  {
    hide PhysicalAt, Sum, Balances, PartialDrop;
    var p := PhysicalAt(file, checksum, pos);
    var o := RecordAt(file, checksum, pos, inFragment, scratch, offset, drops);
    var here := p.next - HEADER_SIZE - |p.fragment|;
    var drops' := drops + p.drops;
    var begun, partial := Begun(inFragment, scratch), PartialDrop(inFragment, scratch);
    OneDropAtMost(file, checksum, pos);
    SumSome(drops, p.drops);
    if p.kind == END_OF_FILE {
      Ends(file, checksum, pos, begun, Sum(drops), o);
    } else if p.kind == FULL_TYPE || (p.kind == LAST_TYPE && inFragment) {
      PartialSum(inFragment, scratch, drops');
      Returns(file, checksum, pos, begun, Sum(drops), o);
    } else {
      var reported := drops';
      if p.kind == FIRST_TYPE {
        PartialSum(inFragment, scratch, drops');
        reported := drops' + partial;
        RecordBalances(file, checksum, p.next, true, p.fragment, here, reported);
      } else if p.kind == MIDDLE_TYPE && inFragment {
        RecordBalances(file, checksum, p.next, true, scratch + p.fragment, offset, drops');
      } else if p.kind == MIDDLE_TYPE || p.kind == LAST_TYPE {
        SumMore(drops', |p.fragment|);
        reported := drops' + [|p.fragment|];
        RecordBalances(file, checksum, p.next, false, scratch, offset, reported);
      } else if p.kind == BAD_RECORD && inFragment {
        SumMore(drops', |scratch|);
        reported := drops' + [|scratch|];
        RecordBalances(file, checksum, p.next, false, [], offset, reported);
      } else if p.kind == BAD_RECORD {
        RecordBalances(file, checksum, p.next, false, scratch, offset, drops');
      } else {
        var n := |p.fragment| + if inFragment then |scratch| else 0;
        SumMore(drops', n);
        reported := drops' + [n];
        RecordBalances(file, checksum, p.next, false, [], offset, reported);
      }
      GoesOn(file, checksum, pos, begun, Sum(drops), Sum(reported), o);
    }
  }

  lemma PartialSum(inFragment: bool, scratch: seq<Byte>, drops: seq<nat>)
    ensures Sum(drops + PartialDrop(inFragment, scratch)) == Sum(drops) + if inFragment then |scratch| else 0
  {
    hide Sum;
    PartialAtMostOne(inFragment, scratch);
    SumSome(drops, PartialDrop(inFragment, scratch));
    OneSum(inFragment, scratch);
  }

  lemma OneSum(inFragment: bool, scratch: seq<Byte>)
    ensures Sum(PartialDrop(inFragment, scratch)) == if inFragment then |scratch| else 0
  {
    hide Sum;
    SumOne(|scratch|);
    NoSum();
  }

  // No byte of payload goes missing in silence: together, the records that are returned, the sizes that are
  // reported and the record that the file ends within are all that was seen.
  lemma {:induction false} NothingIsLost(file: seq<Byte>, checksum: bool, pos: nat, drops: seq<nat>)
    requires pos <= |file|
    ensures var found := RecordsFrom(file, checksum, pos, drops);
            Seen(file, checksum, pos) + Sum(drops) == Lengths(found.records) + Sum(found.drops) + Unfinished(file, checksum, pos, None)
    decreases |file| - pos
  {
    hide RecordAt, Seen, Unfinished, Sum;
    RecordBalances(file, checksum, pos, false, [], 0, drops);
    assert Value(Begun(false, [])) == 0;
    var o := RecordAt(file, checksum, pos, false, [], 0, drops);
    if o.found {
      NothingIsLost(file, checksum, o.next, o.drops);
      var rest := RecordsFrom(file, checksum, o.next, o.drops).records;
      assert ([o.record] + rest)[1..] == rest;
    }
  }
}
