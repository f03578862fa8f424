/** db/log_reader.cc: the reader of a log that starts at its beginning, and what it makes of a log that
    was cut off anywhere. */
module LogReaders {
  import opened Bytes
  import opened Crc32c
  import opened Logs

  // ---- What the bytes of any file say ----

  datatype PhysicalRecord = PhysicalRecord(kind: nat, fragment: seq<Byte>, next: nat, drops: seq<nat>)

  datatype Outcome = Outcome(found: bool, record: seq<Byte>, offset: int, next: nat, drops: seq<nat>)

  // Where the block of a position ends.
  function BlockEnd(file: seq<Byte>, pos: nat): (end: nat)
    requires pos <= |file|
    ensures pos <= end <= |file| && (pos < |file| ==> pos < end)
  {
    var boundary := (pos / BLOCK_SIZE + 1) * BLOCK_SIZE;
    if boundary < |file| then boundary else |file|
  }

  function DecodeLength(header: seq<Byte>): (n: nat)
    requires |header| >= HEADER_SIZE
  {
    DecodeByte(header[4]) + 256 * DecodeByte(header[5])
  }

  predicate ChecksumMatches(buffer: seq<Byte>, length: nat)
    requires HEADER_SIZE + length <= |buffer|
  {
    Value(buffer[6..HEADER_SIZE + length]) == Unmask(ReadUint32LE(buffer[0], buffer[1], buffer[2], buffer[3]))
  }

  // What the rest of a block, header first, holds; `last` says that the file ends with it.
  function Parse(buffer: seq<Byte>, checksum: bool, last: bool): (p: PhysicalRecord)
    requires |buffer| >= HEADER_SIZE
    ensures HEADER_SIZE <= p.next <= |buffer|
  {
    var length := DecodeLength(buffer);
    var kind := DecodeByte(buffer[6]);
    if HEADER_SIZE + length > |buffer| then
      if last then PhysicalRecord(END_OF_FILE, [], |buffer|, []) else PhysicalRecord(BAD_RECORD, [], |buffer|, [|buffer|])
    else if kind == ZERO_TYPE && length == 0 then PhysicalRecord(BAD_RECORD, [], |buffer|, [])
    else if checksum && !ChecksumMatches(buffer, length) then PhysicalRecord(BAD_RECORD, [], |buffer|, [|buffer|])
    else PhysicalRecord(kind, buffer[HEADER_SIZE..HEADER_SIZE + length], HEADER_SIZE + length, [])
  }

  // The physical record at a position: a fragment, a bad record or the end of the file.
  function PhysicalAt(file: seq<Byte>, checksum: bool, pos: nat): (p: PhysicalRecord)
    requires pos <= |file|
    ensures pos <= p.next <= |file| && (p.kind != END_OF_FILE ==> pos < p.next)
    decreases |file| - pos
  {
    var end := BlockEnd(file, pos);
    if end - pos >= HEADER_SIZE then
      var p := Parse(file[pos..end], checksum, end % BLOCK_SIZE != 0);
      p.(next := pos + p.next)
    else if end % BLOCK_SIZE == 0 && pos < end then PhysicalAt(file, checksum, end)
    else PhysicalRecord(END_OF_FILE, [], |file|, [])
  }

  // The drop reported when a new record starts inside an unfinished one.
  function PartialDrop(inFragment: bool, scratch: seq<Byte>): seq<nat> {
    if inFragment && scratch != [] then [|scratch|] else []
  }

  // The record that is read from a position, with `scratch` holding what came of it and `drops` what
  // was reported so far.
  function RecordAt(file: seq<Byte>, checksum: bool, pos: nat, inFragment: bool, scratch: seq<Byte>, offset: int,
                    drops: seq<nat>): (o: Outcome)
    requires pos <= |file|
    ensures pos <= o.next <= |file| && (o.found ==> pos < o.next)
    decreases |file| - pos
  {
    var p := PhysicalAt(file, checksum, pos);
    var here := p.next - HEADER_SIZE - |p.fragment|;
    var drops' := drops + p.drops;
    if p.kind == FULL_TYPE then
      Outcome(true, p.fragment, here, p.next, drops' + PartialDrop(inFragment, scratch))
    else if p.kind == FIRST_TYPE then
      RecordAt(file, checksum, p.next, true, p.fragment, here, drops' + PartialDrop(inFragment, scratch))
    else if p.kind == MIDDLE_TYPE && inFragment then
      RecordAt(file, checksum, p.next, true, scratch + p.fragment, offset, drops')
    else if p.kind == LAST_TYPE && inFragment then
      Outcome(true, scratch + p.fragment, offset, p.next, drops')
    else if p.kind == MIDDLE_TYPE || p.kind == LAST_TYPE then
      RecordAt(file, checksum, p.next, false, scratch, offset, drops' + [|p.fragment|])
    else if p.kind == END_OF_FILE then
      Outcome(false, [], -1, p.next, drops')
    else if p.kind == BAD_RECORD && inFragment then
      RecordAt(file, checksum, p.next, false, [], offset, drops' + [|scratch|])
    else if p.kind == BAD_RECORD then
      RecordAt(file, checksum, p.next, false, scratch, offset, drops')
    else
      RecordAt(file, checksum, p.next, false, [], offset, drops' + [|p.fragment| + if inFragment then |scratch| else 0])
  }

  // ---- The reader ----

  // The buffer is the rest of the block that was read last, and eof says whether the file ended in it.
  ghost predicate BufferOk(file: seq<Byte>, filePosition: nat, buffer: seq<Byte>, eof: bool) {
    && |buffer| <= filePosition <= |file|
    && buffer == file[filePosition - |buffer|..filePosition]
    && (if buffer == [] then if eof then filePosition == |file| else filePosition % BLOCK_SIZE == 0
        else filePosition == BlockEnd(file, filePosition - |buffer|) && (eof <==> filePosition % BLOCK_SIZE != 0))
  }

  class Reader {
    const file: seq<Byte>
    const checksum: bool
    var filePosition: nat        // of the sequential file
    var buffer: seq<Byte>
    var eof: bool
    var lastRecordOffset: int
    var endOfBufferOffset: nat
    var drops: seq<nat>          // the sizes reported to the reporter

    ghost predicate Valid()
      reads this`filePosition, this`buffer, this`eof, this`endOfBufferOffset
    {
      endOfBufferOffset == filePosition <= |file| && BufferOk(file, filePosition, buffer, eof)
    }

    ghost function Position(): (pos: nat)
      requires Valid()
      reads this`filePosition, this`buffer, this`eof, this`endOfBufferOffset
      ensures pos <= |file| && pos == endOfBufferOffset - |buffer|
    {
      filePosition - |buffer|
    }

    constructor (file: seq<Byte>, checksum: bool)
      ensures Valid() && this.file == file && this.checksum == checksum
      ensures Position() == 0 && drops == []
    {
      this.file := file;
      this.checksum := checksum;
      filePosition := 0;
      buffer := [];
      eof := false;
      lastRecordOffset := 0;
      endOfBufferOffset := 0;
      drops := [];
    }

    method ReportCorruption(bytes: nat)
      modifies this`drops
      ensures drops == old(drops) + [bytes]
    {
      drops := drops + [bytes];
    }

    // Reads the next block, or what is left of the file.
    method Refill()
      requires Valid() && |buffer| < HEADER_SIZE && !eof
      modifies this`filePosition, this`buffer, this`eof, this`endOfBufferOffset
      ensures Valid()
      ensures PhysicalAt(file, checksum, Position()) == old(PhysicalAt(file, checksum, Position()))
      ensures filePosition > old(filePosition) || eof
      ensures filePosition >= old(filePosition)
    {
      hide PhysicalAt, BlockEnd;
      TrailerSkipped(file, checksum, Position());
      var n := if |file| - filePosition < BLOCK_SIZE then |file| - filePosition else BLOCK_SIZE;
      NextBlock(file, filePosition);
      buffer := file[filePosition..filePosition + n];
      filePosition := filePosition + n;
      endOfBufferOffset := endOfBufferOffset + n;
      if |buffer| < BLOCK_SIZE {
        eof := true;
      }
    }

    // Takes one physical record off the buffer.
    method ParseBuffer() returns (kind: nat, fragment: seq<Byte>)
      requires |buffer| >= HEADER_SIZE
      modifies this`buffer, this`drops
      ensures var p := Parse(old(buffer), checksum, eof);
              kind == p.kind && fragment == p.fragment && buffer == old(buffer)[p.next..] && drops == old(drops) + p.drops
    {
      hide DecodeLength, DecodeByte, ChecksumMatches;
      fragment := [];
      var header := buffer;
      var length := DecodeLength(header);
      kind := DecodeByte(header[6]);
      if HEADER_SIZE + length > |buffer| {
        var dropSize := |buffer|;
        buffer := [];
        if !eof {
          ReportCorruption(dropSize);
          return BAD_RECORD, fragment;
        }
        return END_OF_FILE, fragment;
      }
      if kind == ZERO_TYPE && length == 0 {
        buffer := [];
        return BAD_RECORD, fragment;
      }
      if checksum && !ChecksumMatches(header, length) {
        var dropSize := |buffer|;
        buffer := [];
        ReportCorruption(dropSize);
        return BAD_RECORD, fragment;
      }
      buffer := buffer[HEADER_SIZE + length..];
      fragment := header[HEADER_SIZE..HEADER_SIZE + length];
    }

    method ReadPhysicalRecord() returns (kind: nat, fragment: seq<Byte>)
      requires Valid()
      modifies this`filePosition, this`buffer, this`eof, this`endOfBufferOffset, this`drops
      ensures Valid()
      ensures var p := PhysicalAt(file, checksum, old(Position()));
              kind == p.kind && fragment == p.fragment && Position() == p.next && drops == old(drops) + p.drops
    {
      hide Parse, PhysicalAt, BlockEnd, BufferOk;
      while |buffer| < HEADER_SIZE
        invariant Valid() && drops == old(drops)
        invariant PhysicalAt(file, checksum, Position()) == PhysicalAt(file, checksum, old(Position()))
        decreases |file| - filePosition, !eof
      {
        if eof {
          ShortBufferIsEnd(file, checksum, filePosition, buffer);
          buffer := [];
          return END_OF_FILE, [];
        }
        Refill();
      }
      BufferParses(file, checksum, filePosition, buffer, eof);
      kind, fragment := ParseBuffer();
    }

    // The next logical record; offset 0 is only a start value, as in the source.
    method ReadRecord() returns (found: bool, record: seq<Byte>)
      requires Valid()
      modifies this
      ensures Valid()
      ensures var o := RecordAt(file, checksum, old(Position()), false, [], 0, old(drops));
              && found == o.found && record == o.record && Position() == o.next && drops == o.drops
              && lastRecordOffset == if found then o.offset else old(lastRecordOffset)
    {
      hide PhysicalAt, BlockEnd, Parse, Valid, Position;
      record := [];
      var scratch: seq<Byte> := [];
      var inFragment, offset := false, 0;
      while true
        invariant Valid() && record == [] && lastRecordOffset == old(lastRecordOffset)
        invariant RecordAt(file, checksum, old(Position()), false, [], 0, old(drops))
                  == RecordAt(file, checksum, Position(), inFragment, scratch, offset, drops)
        decreases |file| - Position()
      {
        var kind, fragment := ReadPhysicalRecord();
        var here := endOfBufferOffset - |buffer| - HEADER_SIZE - |fragment|;
        assert drops + [] == drops;
        if kind == FULL_TYPE {
          if inFragment && scratch != [] {
            ReportCorruption(|scratch|);
          }
          lastRecordOffset := here;
          return true, fragment;
        } else if kind == FIRST_TYPE {
          if inFragment && scratch != [] {
            ReportCorruption(|scratch|);
          }
          offset := here;
          scratch := fragment;
          inFragment := true;
        } else if kind == MIDDLE_TYPE {
          if !inFragment {
            ReportCorruption(|fragment|);
          } else {
            scratch := scratch + fragment;
          }
        } else if kind == LAST_TYPE {
          if !inFragment {
            ReportCorruption(|fragment|);
          } else {
            lastRecordOffset := offset;
            return true, scratch + fragment;
          }
        } else if kind == END_OF_FILE {
          return false, [];
        } else if kind == BAD_RECORD {
          if inFragment {
            ReportCorruption(|scratch|);
            inFragment := false;
            scratch := [];
          }
        } else {
          ReportCorruption(|fragment| + if inFragment then |scratch| else 0);
          inFragment := false;
          scratch := [];
        }
      }
    }
  }

  // ---- How a position and its buffer go together ----

  // Too few bytes for a header before a block boundary are a trailer.
  lemma TrailerSkipped(file: seq<Byte>, checksum: bool, pos: nat)
    requires pos <= |file|
    ensures var end := BlockEnd(file, pos);
            end - pos < HEADER_SIZE && end % BLOCK_SIZE == 0 ==> PhysicalAt(file, checksum, pos) == PhysicalAt(file, checksum, end)
  {
  }

  // Too few bytes at the end of the file are its end.
  lemma EndAt(file: seq<Byte>, checksum: bool, pos: nat)
    requires pos <= |file|
    ensures var end := BlockEnd(file, pos);
            end - pos < HEADER_SIZE && (end % BLOCK_SIZE != 0 || pos == end)
            ==> PhysicalAt(file, checksum, pos) == PhysicalRecord(END_OF_FILE, [], |file|, []) && end == |file|
  {
  }

  lemma ParsedAt(file: seq<Byte>, checksum: bool, pos: nat)
    requires pos <= |file|
    ensures var end := BlockEnd(file, pos);
            end - pos >= HEADER_SIZE ==>
              var p := Parse(file[pos..end], checksum, end % BLOCK_SIZE != 0);
              PhysicalAt(file, checksum, pos) == p.(next := pos + p.next)
  {
  }

  lemma NextBlock(file: seq<Byte>, pos: nat)
    requires pos <= |file| && pos % BLOCK_SIZE == 0
    ensures var n := if |file| - pos < BLOCK_SIZE then |file| - pos else BLOCK_SIZE;
            BlockEnd(file, pos) == pos + n && (n == BLOCK_SIZE || (n == 0 && pos == |file|) <==> (pos + n) % BLOCK_SIZE == 0)
  {
  }

  lemma RestOfBlock(file: seq<Byte>, pos: nat, used: nat)
    requires pos <= |file| && pos + used <= BlockEnd(file, pos)
    ensures var end := BlockEnd(file, pos);
            && (pos + used < end ==> BlockEnd(file, pos + used) == end)
            && (end % BLOCK_SIZE != 0 ==> end == |file|)
            && file[pos + used..end] == file[pos..end][used..]
  {
  }

  lemma ShortBufferIsEnd(file: seq<Byte>, checksum: bool, filePosition: nat, buffer: seq<Byte>)
    requires BufferOk(file, filePosition, buffer, true) && |buffer| < HEADER_SIZE
    ensures |buffer| <= filePosition == |file| && BufferOk(file, filePosition, [], true)
    ensures PhysicalAt(file, checksum, filePosition - |buffer|) == PhysicalRecord(END_OF_FILE, [], |file|, [])
  {
    hide PhysicalAt;
    EndAt(file, checksum, filePosition - |buffer|);
  }

  lemma BufferParses(file: seq<Byte>, checksum: bool, filePosition: nat, buffer: seq<Byte>, eof: bool)
    requires BufferOk(file, filePosition, buffer, eof) && |buffer| >= HEADER_SIZE
    ensures |buffer| <= filePosition <= |file|
    ensures var p := Parse(buffer, checksum, eof);
            && PhysicalAt(file, checksum, filePosition - |buffer|) == p.(next := filePosition - |buffer| + p.next)
            && BufferOk(file, filePosition, buffer[p.next..], eof)
  {
    hide PhysicalAt, Parse, BlockEnd;
    var pos := filePosition - |buffer|;
    ParsedAt(file, checksum, pos);
    RestOfBlock(file, pos, Parse(buffer, checksum, eof).next);
  }
}
