/** What the reader makes of a log whose last bytes were lost, wherever it was cut. */
module LogCrashes {
  import opened Bytes
  import opened Crc32c
  import opened Logs
  import opened LogReaders

  // As far as the file goes, it has these bytes at this position.
  ghost predicate Holds(file: seq<Byte>, at: nat, s: seq<Byte>) {
    forall i :: at <= i < at + |s| && i < |file| ==> file[i] == s[i - at]
  }

  // ---- One physical record ----

  lemma HeaderBack(kind: nat, payload: seq<Byte>)
    requires kind < 256 && |payload| < 65536
    ensures var header := Header(kind, payload);
            && DecodeLength(header) == |payload|
            && DecodeByte(header[6]) == kind
            && Unmask(ReadUint32LE(header[0], header[1], header[2], header[3])) == Value([header[6]] + payload)
  {
    hide EncodeByte, DecodeByte, EncodeFixed32, ReadUint32LE, Mask, Unmask, Value;
    ByteRoundTrip(|payload| % 256);
    ByteRoundTrip(|payload| / 256);
    ByteRoundTrip(kind);
    Fixed32RoundTrip(Checksum(kind, payload));
    MaskUnmask(Value([EncodeByte(kind)] + payload));
  }

  // A buffer that starts with a whole physical record.
  lemma WholeParses(buffer: seq<Byte>, kind: nat, payload: seq<Byte>, checksum: bool, last: bool)
    requires 0 < kind < 256 && |payload| < 65536
    requires Physical(kind, payload) <= buffer
    ensures Parse(buffer, checksum, last) == PhysicalRecord(kind, payload, HEADER_SIZE + |payload|, [])
  {
    hide EncodeByte, DecodeByte, Header, ReadUint32LE, Unmask, Value;
    var header := Header(kind, payload);
    var n := |payload|;
    HeaderBack(kind, payload);
    assert Physical(kind, payload) == buffer[..HEADER_SIZE + n];
    assert forall i :: 0 <= i < HEADER_SIZE ==> buffer[i] == header[i];
    assert buffer[HEADER_SIZE..HEADER_SIZE + n] == payload;
    assert buffer[6..HEADER_SIZE + n] == [header[6]] + payload;
  }

  // A buffer that ends within one.
  lemma CutParses(buffer: seq<Byte>, kind: nat, payload: seq<Byte>, checksum: bool)
    requires 0 < kind < 256 && |payload| < 65536
    requires HEADER_SIZE <= |buffer| < HEADER_SIZE + |payload|
    requires buffer <= Physical(kind, payload)
    ensures Parse(buffer, checksum, true) == PhysicalRecord(END_OF_FILE, [], |buffer|, [])
  {
    hide EncodeByte, DecodeByte, Header, ReadUint32LE, Unmask, Value;
    var header := Header(kind, payload);
    HeaderBack(kind, payload);
    assert forall i :: 0 <= i < HEADER_SIZE ==> buffer[i] == Physical(kind, payload)[i] == header[i];
  }

  // The trailer of a block is skipped.
  lemma PaddingSkipped(file: seq<Byte>, checksum: bool, at: nat)
    requires at <= |file|
    ensures var here := at + Padding(at);
            PhysicalAt(file, checksum, at)
            == if here <= |file| then PhysicalAt(file, checksum, here) else PhysicalRecord(END_OF_FILE, [], |file|, [])
  {
    hide Parse;
  }

  lemma PhysicalBack(file: seq<Byte>, checksum: bool, here: nat, kind: nat, payload: seq<Byte>)
    requires here <= |file| && here % BLOCK_SIZE + HEADER_SIZE <= BLOCK_SIZE
    requires 0 < kind < 256 && |payload| <= Available(here)
    requires Holds(file, here, Physical(kind, payload))
    ensures var next := here + HEADER_SIZE + |payload|;
            PhysicalAt(file, checksum, here)
            == if next <= |file| then PhysicalRecord(kind, payload, next, []) else PhysicalRecord(END_OF_FILE, [], |file|, [])
  {
    hide Parse, Physical, PhysicalAt;
    var end := BlockEnd(file, here);
    var buffer := file[here..end];
    var next := here + HEADER_SIZE + |payload|;
    if next <= |file| {
      assert next <= end;
      assert Physical(kind, payload) <= buffer;
      WholeParses(buffer, kind, payload, checksum, end % BLOCK_SIZE != 0);
      ParsedAt(file, checksum, here);
    } else {
      assert end == |file| && (here < |file| ==> end % BLOCK_SIZE != 0);
      if end - here >= HEADER_SIZE {
        assert buffer <= Physical(kind, payload);
        CutParses(buffer, kind, payload, checksum);
        ParsedAt(file, checksum, here);
      } else {
        EndAt(file, checksum, here);
      }
    }
  }

  // A fragment is read whole, or the file ends within it.
  lemma FragmentBack(file: seq<Byte>, checksum: bool, at: nat, begin: bool, data: seq<Byte>)
    requires at <= |file| && Holds(file, at, Fragment(at, begin, data))
    ensures var n := FragmentLength(at, data);
            var next := at + Padding(at) + HEADER_SIZE + n;
            PhysicalAt(file, checksum, at)
            == if next <= |file| then PhysicalRecord(KindOf(begin, n == |data|), data[..n], next, [])
               else PhysicalRecord(END_OF_FILE, [], |file|, [])
  {
    hide Physical, PhysicalAt, Padding, Available, Zeros;
    var here := at + Padding(at);
    var n := FragmentLength(at, data);
    var physical := Physical(KindOf(begin, n == |data|), data[..n]);
    PaddingSkipped(file, checksum, at);
    if here <= |file| {
      assert Holds(file, here, physical) by {
        forall i | here <= i < here + |physical| && i < |file| ensures file[i] == physical[i - here] {
          assert Fragment(at, begin, data)[i - at] == physical[i - here];
        }
      }
      PhysicalBack(file, checksum, here, KindOf(begin, n == |data|), data[..n]);
    }
  }

  // ---- One record ----

  lemma HoldsParts(file: seq<Byte>, at: nat, a: seq<Byte>, b: seq<Byte>)
    requires Holds(file, at, a + b)
    ensures Holds(file, at, a) && Holds(file, at + |a|, b)
  {
    forall i | at <= i < at + |a| && i < |file| ensures file[i] == a[i - at] {
      assert (a + b)[i - at] == a[i - at];
    }
    forall i | at + |a| <= i < at + |a| + |b| && i < |file| ensures file[i] == b[i - at - |a|] {
      assert (a + b)[i - at] == b[i - at - |a|];
    }
  }

  // What the reader does with a fragment that starts, continues or ends a record as it should.
  lemma FragmentTaken(file: seq<Byte>, checksum: bool, at: nat, begin: bool, end: bool, payload: seq<Byte>, next: nat,
                      scratch: seq<Byte>, offset: int, drops: seq<nat>)
    requires at <= |file| && (begin ==> scratch == [])
    requires PhysicalAt(file, checksum, at) == PhysicalRecord(KindOf(begin, end), payload, next, [])
    ensures next <= |file|
    ensures var offset' := if begin then next - HEADER_SIZE - |payload| else offset;
            RecordAt(file, checksum, at, !begin, scratch, offset, drops)
            == if end then Outcome(true, scratch + payload, offset', next, drops)
               else RecordAt(file, checksum, next, true, scratch + payload, offset', drops)
  {
    hide PhysicalAt;
    assert drops + [] == drops;
    assert scratch == [] ==> scratch + payload == payload;
  }

  lemma FileEnds(file: seq<Byte>, checksum: bool, at: nat, inFragment: bool, scratch: seq<Byte>, offset: int, drops: seq<nat>)
    requires at <= |file| && PhysicalAt(file, checksum, at) == PhysicalRecord(END_OF_FILE, [], |file|, [])
    ensures RecordAt(file, checksum, at, inFragment, scratch, offset, drops) == Outcome(false, [], -1, |file|, drops)
  {
    hide PhysicalAt;
    assert drops + [] == drops;
  }

  lemma WrittenParts(at: nat, begin: bool, data: seq<Byte>)
    ensures var n := FragmentLength(at, data);
            var next := at + Padding(at) + HEADER_SIZE + n;
            if n == |data| then Written(at, begin, data) == Fragment(at, begin, data)
            else Written(at, begin, data) == Fragment(at, begin, data) + Written(next, false, data[n..])
  {
    hide Fragment, Padding, Available;
  }

  // A record is read whole if the file has all of its bytes; otherwise the file just ends.
  lemma {:induction false} RecordBack(file: seq<Byte>, checksum: bool, at: nat, begin: bool, data: seq<Byte>,
                                      scratch: seq<Byte>, offset: int, drops: seq<nat>)
    requires at <= |file| && Holds(file, at, Written(at, begin, data)) && (begin ==> scratch == [])
    ensures var next := at + |Written(at, begin, data)|;
            RecordAt(file, checksum, at, !begin, scratch, offset, drops)
            == if next <= |file| then Outcome(true, scratch + data, if begin then at + Padding(at) else offset, next, drops)
               else Outcome(false, [], -1, |file|, drops)
    decreases |data|, if FragmentLength(at, data) == 0 then 1 else 0
  {
    hide *;
    var n := FragmentLength(at, data);
    var next := at + Padding(at) + HEADER_SIZE + n;
    WrittenParts(at, begin, data);
    if n < |data| {
      HoldsParts(file, at, Fragment(at, begin, data), Written(next, false, data[n..]));
    } else {
      assert data[..n] == data;
    }
    FragmentBack(file, checksum, at, begin, data);
    if next > |file| {
      FileEnds(file, checksum, at, !begin, scratch, offset, drops);
    } else {
      FragmentTaken(file, checksum, at, begin, n == |data|, data[..n], next, scratch, offset, drops);
      if n < |data| {
        RoomInNextBlock(at, data);
        assert n == 0 ==> data[n..] == data;
        RecordBack(file, checksum, next, false, data[n..], scratch + data[..n], if begin then at + Padding(at) else offset, drops);
        assert scratch + data[..n] + data[n..] == scratch + data;
      }
    }
  }

  lemma RoomInNextBlock(at: nat, data: seq<Byte>)
    ensures FragmentLength(at, data) == 0 && |data| > 0 ==> FragmentLength(at + Padding(at) + HEADER_SIZE, data) > 0
  {
  }

  // ---- The whole log ----

  // k records have all of their bytes among the first n, and no more.
  ghost predicate IsComplete(records: seq<seq<Byte>>, n: nat, k: nat) {
    && k <= |records|
    && |Log(records[..k])| <= n
    && (k < |records| ==> n < |Log(records[..k + 1])|)
  }

  lemma {:induction false} LogPrefix(records: seq<seq<Byte>>, k: nat)
    requires k <= |records|
    ensures Log(records[..k]) <= Log(records)
  {
    hide Written;
    if k == |records| {
      assert records[..k] == records;
    } else {
      var before := records[..|records| - 1];
      assert before[..k] == records[..k];
      LogPrefix(before, k);
    }
  }

  // Record k is where the log of the records before it ends.
  lemma RecordIsThere(records: seq<seq<Byte>>, n: nat, k: nat)
    requires k < |records| && n <= |Log(records)|
    ensures var at := |Log(records[..k])|;
            && Holds(Log(records)[..n], at, Written(at, true, records[k]))
            && |Log(records[..k + 1])| == at + |Written(at, true, records[k])|
  {
    hide Written;
    var at := |Log(records[..k])|;
    var written := Written(at, true, records[k]);
    assert records[..k + 1][..k] == records[..k];
    LogPrefix(records, k + 1);
    forall i | at <= i < at + |written| && i < n ensures Log(records)[..n][i] == written[i - at] {
      assert Log(records)[i] == Log(records[..k + 1])[i];
    }
  }

  datatype Recovered = Recovered(records: seq<seq<Byte>>, drops: seq<nat>)

  // Everything a reader returns from a position until it says that there is nothing left.
  function RecordsFrom(file: seq<Byte>, checksum: bool, pos: nat, drops: seq<nat>): Recovered
    requires pos <= |file|
    decreases |file| - pos
  {
    var o := RecordAt(file, checksum, pos, false, [], 0, drops);
    if o.found then
      var rest := RecordsFrom(file, checksum, o.next, o.drops);
      rest.(records := [o.record] + rest.records)
    else Recovered([], o.drops)
  }

  lemma {:induction false} TailReadsBack(records: seq<seq<Byte>>, n: nat, checksum: bool, k: nat, at: nat, last: nat)
    requires n <= |Log(records)| && k <= last && IsComplete(records, n, last)
    requires at == |Log(records[..k])| && at <= n
    ensures RecordsFrom(Log(records)[..n], checksum, at, []) == Recovered(records[k..last], [])
    decreases |records| - k
  {
    hide RecordAt, Written, Log;
    var file := Log(records)[..n];
    if k < |records| {
      RecordIsThere(records, n, k);
      var next := at + |Written(at, true, records[k])|;
      RecordBack(file, checksum, at, true, records[k], [], 0, []);
      assert [] + records[k] == records[k];
      if k < last {
        LogGrows(records, k + 1, last);
        TailReadsBack(records, n, checksum, k + 1, next, last);
        assert records[k..last] == [records[k]] + records[k + 1..last];
      } else {
        assert records[k..last] == [];
      }
    } else {
      assert records[..k] == records;
      NothingAtEnd(file, checksum);
      assert records[k..last] == [];
    }
  }

  lemma LogGrows(records: seq<seq<Byte>>, j: nat, k: nat)
    requires j <= k <= |records|
    ensures |Log(records[..j])| <= |Log(records[..k])|
  {
    hide Log;
    assert records[..k][..j] == records[..j];
    LogPrefix(records[..k], j);
  }

  // There is exactly one such number of records.
  lemma CompleteExists(records: seq<seq<Byte>>, n: nat) returns (k: nat)
    ensures IsComplete(records, n, k)
  {
    hide Log;
    k := 0;
    EmptyLog(records);
    while k < |records| && |Log(records[..k + 1])| <= n
      invariant k <= |records| && |Log(records[..k])| <= n
    {
      k := k + 1;
    }
  }

  lemma CompleteIsUnique(records: seq<seq<Byte>>, n: nat, j: nat, k: nat)
    requires IsComplete(records, n, j) && IsComplete(records, n, k)
    ensures j == k
  {
    hide Log;
    if j < k {
      LogGrows(records, j + 1, k);
    } else if k < j {
      LogGrows(records, k + 1, j);
    }
  }

  lemma EmptyLog(records: seq<seq<Byte>>)
    ensures Log(records[..0]) == []
  {
  }

  lemma NothingAtEnd(file: seq<Byte>, checksum: bool)
    ensures RecordAt(file, checksum, |file|, false, [], 0, []) == Outcome(false, [], -1, |file|, [])
  {
    EndAt(file, checksum, |file|);
  }

  // Of a log that was cut anywhere, the reader returns exactly the records that are wholly inside, in
  // order, and reports no corruption.
  lemma CutLogReadsBack(records: seq<seq<Byte>>, n: nat, checksum: bool, k: nat)
    requires n <= |Log(records)|
    ensures IsComplete(records, n, k) <==> k <= |records| && RecordsFrom(Log(records)[..n], checksum, 0, []) == Recovered(records[..k], [])
  {
    hide RecordsFrom, Log, IsComplete;
    var last := CompleteExists(records, n);
    EmptyLog(records);
    assert IsComplete(records, n, last) ==> last <= |records| by {
      CompleteFits(records, n, last);
    }
    TailReadsBack(records, n, checksum, 0, 0, last);
    assert records[0..last] == records[..last];
    if IsComplete(records, n, k) {
      CompleteIsUnique(records, n, k, last);
    }
    PrefixLengths(records, k, last);
  }

  lemma PrefixLengths(records: seq<seq<Byte>>, j: nat, k: nat)
    ensures j <= |records| && k <= |records| && records[..j] == records[..k] ==> j == k
  {
    if j <= |records| && k <= |records| && j != k {
      assert |records[..j]| != |records[..k]|;
    }
  }

  lemma CompleteFits(records: seq<seq<Byte>>, n: nat, k: nat)
    requires IsComplete(records, n, k)
    ensures k <= |records|
  {
  }

  // The uncut log gives back every record.
  lemma LogReadsBack(records: seq<seq<Byte>>, checksum: bool)
    ensures RecordsFrom(Log(records), checksum, 0, []) == Recovered(records, [])
  {
    hide RecordsFrom, Log;
    var n := |Log(records)|;
    assert records[..|records|] == records;
    CutLogReadsBack(records, n, checksum, |records|);
    assert Log(records)[..n] == Log(records);
  }

  function After(records: seq<seq<Byte>>, rest: Recovered): Recovered {
    Recovered(records + rest.records, rest.drops)
  }

  lemma AfterNothing(rest: Recovered)
    ensures After([], rest) == rest
  {
    assert [] + rest.records == rest.records;
  }

  lemma NextRecord(file: seq<Byte>, checksum: bool, pos: nat, records: seq<seq<Byte>>, drops: seq<nat>)
    requires pos <= |file|
    ensures var o := RecordAt(file, checksum, pos, false, [], 0, drops);
            After(records, RecordsFrom(file, checksum, pos, drops))
            == if o.found then After(records + [o.record], RecordsFrom(file, checksum, o.next, o.drops))
               else Recovered(records, o.drops)
  {
    hide RecordAt;
    var o := RecordAt(file, checksum, pos, false, [], 0, drops);
    if o.found {
      var rest := RecordsFrom(file, checksum, o.next, o.drops).records;
      assert records + ([o.record] + rest) == records + [o.record] + rest;
    } else {
      assert records + [] == records;
    }
  }

  // The loop of RecoverLogFile and of VersionSet::Recover over a fresh reader.
  method ReadAll(file: seq<Byte>, checksum: bool) returns (records: seq<seq<Byte>>, drops: seq<nat>)
    ensures Recovered(records, drops) == RecordsFrom(file, checksum, 0, [])
  {
    hide *;
    var reader := new Reader(file, checksum);
    records := [];
    NextRecord(file, checksum, 0, [], []);
    AfterNothing(RecordsFrom(file, checksum, 0, []));
    var found, record := reader.ReadRecord();
    while found
      invariant fresh(reader) && reader.Valid() && reader.file == file && reader.checksum == checksum
      invariant RecordsFrom(file, checksum, 0, [])
                == if found then After(records + [record], RecordsFrom(file, checksum, reader.Position(), reader.drops))
                   else Recovered(records, reader.drops)
      decreases found, |file| - reader.Position()
    {
      records := records + [record];
      NextRecord(file, checksum, reader.Position(), records, reader.drops);
      found, record := reader.ReadRecord();
    }
    drops := reader.drops;
  }
}
