/** What the reader lets through when checksums are on: nothing but fragments as EmitPhysicalRecord writes
    them, and records that are made of such fragments, one behind the other. */
module LogIntegrity {
  import opened Bytes
  import opened Crc32c
  import opened CrcDetection
  import opened Logs
  import opened LogReaders
  import opened LogCrashes

  // ---- One physical record ----

  lemma WordForth(b0: Byte, b1: Byte, b2: Byte, b3: Byte)
    ensures EncodeFixed32(ReadUint32LE(b0, b1, b2, b3)) == [b0, b1, b2, b3]
  {
    hide ReadUint32LE;
    StoredBytes(b0, b1, b2, b3);
  }

  lemma LengthForth(b4: Byte, b5: Byte)
    ensures var n := DecodeByte(b4) + 256 * DecodeByte(b5);
            n < 65536 && EncodeByte(n % 256) == b4 && EncodeByte(n / 256) == b5
  {
    hide EncodeByte, DecodeByte;
    NumberRoundTrip(b4);
    NumberRoundTrip(b5);
  }

  // The bytes of a checksum that matches are those that the writer puts in front of this payload.
  lemma MatchingIsWritten(buffer: seq<Byte>)
    requires |buffer| >= HEADER_SIZE && HEADER_SIZE + DecodeLength(buffer) <= |buffer|
    ensures DecodeLength(buffer) < 65536
    ensures var n := DecodeLength(buffer);
            ChecksumMatches(buffer, n) <==> Physical(DecodeByte(buffer[6]), buffer[HEADER_SIZE..HEADER_SIZE + n]) <= buffer
  {
    hide EncodeByte, DecodeByte, EncodeFixed32, ReadUint32LE, Mask, Unmask, Value;
    var n, kind := DecodeLength(buffer), DecodeByte(buffer[6]);
    var data := buffer[HEADER_SIZE..HEADER_SIZE + n];
    var stored := ReadUint32LE(buffer[0], buffer[1], buffer[2], buffer[3]);
    LengthForth(buffer[4], buffer[5]);
    NumberRoundTrip(buffer[6]);
    WordForth(buffer[0], buffer[1], buffer[2], buffer[3]);
    assert buffer[6..HEADER_SIZE + n] == [EncodeByte(kind)] + data;
    MaskUnmask(stored);
    MaskUnmask(Value([EncodeByte(kind)] + data));
    Fixed32RoundTrip(Checksum(kind, data));
    if ChecksumMatches(buffer, n) {
      assert buffer[..HEADER_SIZE + n] == Physical(kind, data);
    }
    if Physical(kind, data) <= buffer {
      HeaderIs(buffer, kind, data);
    }
  }

  lemma HeaderIs(buffer: seq<Byte>, kind: nat, data: seq<Byte>)
    requires kind < 256 && |data| < 65536 && Physical(kind, data) <= buffer
    ensures |buffer| >= HEADER_SIZE && buffer[..4] == EncodeFixed32(Checksum(kind, data))
  {
    hide EncodeFixed32, Checksum;
    assert buffer[..4] == Physical(kind, data)[..4] == Header(kind, data)[..4];
  }

  lemma ParseCases(buffer: seq<Byte>, last: bool, n: nat, kind: nat)
    requires |buffer| >= HEADER_SIZE && n == DecodeLength(buffer) < 65536 && kind == DecodeByte(buffer[6])
    requires HEADER_SIZE + n <= |buffer| ==>
               (ChecksumMatches(buffer, n) <==> Physical(kind, buffer[HEADER_SIZE..HEADER_SIZE + n]) <= buffer)
    ensures Parse(buffer, true, last) == Verdict(buffer, last, n, kind)
  {
    hide DecodeByte, DecodeLength, ChecksumMatches, Physical;
  }

  // What becomes of the rest of a block whose header announces n bytes of this kind.
  function Verdict(buffer: seq<Byte>, last: bool, n: nat, kind: nat): PhysicalRecord
    requires n < 65536 && kind < 256
  {
    if HEADER_SIZE + n > |buffer| then
      if last then PhysicalRecord(END_OF_FILE, [], |buffer|, []) else PhysicalRecord(BAD_RECORD, [], |buffer|, [|buffer|])
    else if kind == 0 && n == 0 then PhysicalRecord(BAD_RECORD, [], |buffer|, [])
    else if Physical(kind, buffer[HEADER_SIZE..HEADER_SIZE + n]) <= buffer
    then PhysicalRecord(kind, buffer[HEADER_SIZE..HEADER_SIZE + n], HEADER_SIZE + n, [])
    else PhysicalRecord(BAD_RECORD, [], |buffer|, [|buffer|])
  }

  lemma HeaderNumbers(buffer: seq<Byte>)
    requires |buffer| >= HEADER_SIZE
    ensures 0 <= buffer[4] as int + 256 * buffer[5] as int == DecodeLength(buffer) < 65536
    ensures 0 <= buffer[6] as int == DecodeByte(buffer[6]) < 256
  {
    hide DecodeByte;
    DecodeIsValue(buffer[4]);
    DecodeIsValue(buffer[5]);
    DecodeIsValue(buffer[6]);
    LengthFits(buffer);
  }

  // A checking reader takes a fragment exactly when these are the bytes that the writer makes of it; anything
  // else is dropped with the rest of the block, and reported unless it is an empty record of type zero.
  lemma ParseIs(buffer: seq<Byte>, last: bool)
    requires |buffer| >= HEADER_SIZE
    ensures DecodeLength(buffer) < 65536 && Parse(buffer, true, last) == Verdict(buffer, last, DecodeLength(buffer), DecodeByte(buffer[6]))
  {
    hide DecodeByte, DecodeLength, ChecksumMatches, Physical, Parse, Verdict;
    LengthFits(buffer);
    if HEADER_SIZE + DecodeLength(buffer) <= |buffer| {
      MatchingIsWritten(buffer);
    }
    ParseCases(buffer, last, DecodeLength(buffer), DecodeByte(buffer[6]));
  }

  lemma LengthFits(buffer: seq<Byte>)
    requires |buffer| >= HEADER_SIZE
    ensures DecodeLength(buffer) < 65536
  {
    hide DecodeByte;
    LengthForth(buffer[4], buffer[5]);
  }

  // A fragment comes out exactly when its bytes went in.
  lemma ParsedExactlyWhen(buffer: seq<Byte>, last: bool, kind: nat, data: seq<Byte>)
    requires |buffer| >= HEADER_SIZE && FULL_TYPE <= kind <= LAST_TYPE && |data| < 65536
    ensures Parse(buffer, true, last) == PhysicalRecord(kind, data, HEADER_SIZE + |data|, []) <==> Physical(kind, data) <= buffer
  {
    hide Parse, Physical;
    ParseIs(buffer, last);
    if Physical(kind, data) <= buffer {
      WholeParses(buffer, kind, data, true, last);
    }
  }

  // Damage within four consecutive bytes of the type and the payload of a record is always noticed.
  lemma DamageIsNoticed(kind: nat, data: seq<Byte>, a: seq<Byte>, x: seq<Byte>, y: seq<Byte>, b: seq<Byte>, rest: seq<Byte>, last: bool)
    requires kind < 256 && |data| < 65536 && [EncodeByte(kind)] + data == a + x + b
    requires |x| == |y| <= 4 && x != y
    ensures |Header(kind, data)[..6]| == 6
    ensures var buffer := Header(kind, data)[..6] + (a + y + b) + rest;
            && |buffer| >= HEADER_SIZE
            && Parse(buffer, true, last)
               == PhysicalRecord(BAD_RECORD, [], |buffer|, if data == [] && y == [0] then [] else [|buffer|])
  {
    hide EncodeByte, DecodeByte, EncodeFixed32, ReadUint32LE, Crc, Parse, Physical, Checksum;
    var header := Header(kind, data);
    var damaged := a + y + b;
    var buffer := header[..6] + damaged + rest;
    assert |damaged| == 1 + |data|;
    assert buffer[4] == header[4] && buffer[5] == header[5] && buffer[6] == damaged[0] && buffer[..4] == header[..4];
    ByteRoundTrip(|data| % 256);
    ByteRoundTrip(|data| / 256);
    ParseIs(buffer, last);
    var kind', data' := DecodeByte(buffer[6]), buffer[HEADER_SIZE..HEADER_SIZE + |data|];
    NumberRoundTrip(buffer[6]);
    assert [EncodeByte(kind')] + data' == damaged;
    DamageChangesCrc(0, a, x, y, b);
    ChecksumsDiffer(kind, data, kind', data');
    NotWritten(buffer, kind', data');
    if data == [] {
      assert y == damaged;
      ZeroByte(buffer[6]);
    }
  }

  lemma NotWritten(buffer: seq<Byte>, kind: nat, data: seq<Byte>)
    requires kind < 256 && |data| < 65536 && |buffer| >= 4 && buffer[..4] != EncodeFixed32(Checksum(kind, data))
    ensures !(Physical(kind, data) <= buffer)
  {
    hide EncodeFixed32, Checksum, Physical;
    if Physical(kind, data) <= buffer {
      HeaderIs(buffer, kind, data);
    }
  }

  lemma ZeroByte(b: Byte)
    ensures DecodeByte(b) == 0 <==> b == 0
  {
  }

  lemma ChecksumsDiffer(kind: nat, data: seq<Byte>, kind': nat, data': seq<Byte>)
    requires kind < 256 && kind' < 256
    requires Crc(0, [EncodeByte(kind)] + data) != Crc(0, [EncodeByte(kind')] + data')
    ensures EncodeFixed32(Checksum(kind, data)) != EncodeFixed32(Checksum(kind', data'))
  {
    hide EncodeByte, EncodeFixed32, ReadUint32LE, Mask, Unmask, Crc;
    MaskUnmask(Value([EncodeByte(kind)] + data));
    MaskUnmask(Value([EncodeByte(kind')] + data'));
    Fixed32RoundTrip(Checksum(kind, data));
    Fixed32RoundTrip(Checksum(kind', data'));
  }

  // ---- Records ----

  // A fragment and where its header stands.
  datatype Piece = Piece(at: nat, kind: nat, data: seq<Byte>) {
    function End(): nat {
      at + 7 + |data|
    }
  }

  // The bytes of a physical record, all in one block.
  ghost predicate Stands(file: seq<Byte>, p: Piece) {
    && p.kind < 256 && |p.data| < 65536 && p.End() <= |file|
    && p.at % 32768 + 7 + |p.data| <= 32768
    && file[p.at..p.End()] == Physical(p.kind, p.data)
  }

  // Each piece stands right behind the one before it, or behind the trailer of its block.
  ghost predicate IsChain(file: seq<Byte>, pieces: seq<Piece>) {
    && (forall i :: 0 <= i < |pieces| ==> Stands(file, pieces[i]))
    && forall i :: 0 < i < |pieces| ==> pieces[i].at == pieces[i - 1].End() + Padding(pieces[i - 1].End())
  }

  function Joined(pieces: seq<Piece>): seq<Byte> {
    if pieces == [] then [] else Joined(pieces[..|pieces| - 1]) + pieces[|pieces| - 1].data
  }

  // A full fragment, or a first one, middle ones and a last one.
  ghost predicate IsMadeOf(file: seq<Byte>, record: seq<Byte>, pieces: seq<Piece>) {
    && pieces != [] && IsChain(file, pieces) && record == Joined(pieces)
    && forall i :: 0 <= i < |pieces| ==> pieces[i].kind == if |pieces| == 1 then 1 else if i == 0 then 2 else if i < |pieces| - 1 then 3 else 4
  }

  // The beginning of a record, up to a position.
  ghost predicate Begun(file: seq<Byte>, pos: nat, scratch: seq<Byte>, offset: int, pieces: seq<Piece>) {
    && pieces != [] && IsChain(file, pieces) && scratch == Joined(pieces)
    && pieces[|pieces| - 1].End() == pos && offset == pieces[0].at
    && forall i :: 0 <= i < |pieces| ==> pieces[i].kind == if i == 0 then 2 else 3
  }

  lemma ParsedStands(file: seq<Byte>, pos: nat, end: nat, last: bool)
    requires pos + HEADER_SIZE <= end <= |file| && pos % 32768 + (end - pos) <= 32768
    ensures var p := Parse(file[pos..end], true, last);
            FULL_TYPE <= p.kind <= LAST_TYPE ==>
              && p.drops == [] && p.next == HEADER_SIZE + |p.fragment|
              && Stands(file, Piece(pos, p.kind, p.fragment))
  {
    hide Parse, Physical, DecodeLength, DecodeByte;
    var buffer := file[pos..end];
    ParseIs(buffer, last);
    var n, kind := DecodeLength(buffer), DecodeByte(buffer[6]);
    if HEADER_SIZE + n <= |buffer| {
      PrefixStands(file, pos, end, Physical(kind, buffer[HEADER_SIZE..HEADER_SIZE + n]));
    }
  }

  lemma PrefixStands(file: seq<Byte>, pos: nat, end: nat, s: seq<Byte>)
    requires pos <= end <= |file|
    ensures s <= file[pos..end] ==> pos + |s| <= end && file[pos..pos + |s|] == s
  {
    if s <= file[pos..end] {
      assert file[pos..pos + |s|] == file[pos..end][..|s|];
    }
  }

  lemma {:induction false} FragmentStands(file: seq<Byte>, pos: nat)
    requires pos <= |file|
    ensures var p := PhysicalAt(file, true, pos);
            FULL_TYPE <= p.kind <= LAST_TYPE ==>
              && p.drops == [] && p.next == pos + Padding(pos) + HEADER_SIZE + |p.fragment|
              && Stands(file, Piece(pos + Padding(pos), p.kind, p.fragment))
    decreases |file| - pos
  {
    hide Parse, PhysicalAt, Stands, Padding, BlockEnd;
    var end := BlockEnd(file, pos);
    BlockEndIs(file, pos);
    ParsedAt(file, true, pos);
    TrailerSkipped(file, true, pos);
    EndAt(file, true, pos);
    if end - pos >= HEADER_SIZE {
      ParsedStands(file, pos, end, end % BLOCK_SIZE != 0);
    } else if end % BLOCK_SIZE == 0 && pos < end {
      FragmentStands(file, end);
    }
  }

  lemma BlockEndIs(file: seq<Byte>, pos: nat)
    requires pos <= |file|
    ensures var end := BlockEnd(file, pos);
            && (end - pos >= HEADER_SIZE ==> Padding(pos) == 0 && pos % 32768 + (end - pos) <= 32768)
            && (end % BLOCK_SIZE == 0 && 0 < end - pos < HEADER_SIZE ==> pos + Padding(pos) == end && Padding(end) == 0)
  {
  }

  lemma OnePiece(p: Piece)
    ensures Joined([p]) == p.data
  {
    assert [p][..0] == [];
  }

  lemma MorePieces(pieces: seq<Piece>, p: Piece)
    ensures Joined(pieces + [p]) == Joined(pieces) + p.data
  {
    assert (pieces + [p])[..|pieces|] == pieces;
  }

  // Whatever the file holds, a record that the reader returns is made of pieces as the writer makes them,
  // behind the position where the reader was.
  lemma {:induction false} RecordIsMade(file: seq<Byte>, pos: nat, inFragment: bool, scratch: seq<Byte>, offset: int,
                                        drops: seq<nat>, begun: seq<Piece>) returns (pieces: seq<Piece>)
    requires pos <= |file| && (inFragment ==> Begun(file, pos, scratch, offset, begun))
    ensures var o := RecordAt(file, true, pos, inFragment, scratch, offset, drops);
            o.found ==>
              && IsMadeOf(file, o.record, pieces) && EndOf(pieces) == o.next && StartOf(pieces) == o.offset
              && (StartOf(pieces) >= pos || (inFragment && StartOf(pieces) >= StartOf(begun)))
    decreases |file| - pos
  {
    hide PhysicalAt, Stands, Padding, Joined;
    var p := PhysicalAt(file, true, pos);
    var here := p.next - HEADER_SIZE - |p.fragment|;
    var drops' := drops + p.drops;
    FragmentStands(file, pos);
    pieces := [];
    if FULL_TYPE <= p.kind <= LAST_TYPE {
      var piece := Piece(pos + Padding(pos), p.kind, p.fragment);
      OnePiece(piece);
      MorePieces(begun, piece);
      if p.kind == FULL_TYPE {
        pieces := [piece];
      } else if p.kind == FIRST_TYPE {
        pieces := RecordIsMade(file, p.next, true, p.fragment, here, drops' + PartialDrop(inFragment, scratch), [piece]);
      } else if inFragment && p.kind == MIDDLE_TYPE {
        pieces := RecordIsMade(file, p.next, true, scratch + p.fragment, offset, drops', begun + [piece]);
      } else if inFragment {
        pieces := begun + [piece];
      } else {
        pieces := RecordIsMade(file, p.next, false, scratch, offset, drops' + [|p.fragment|], []);
      }
    } else if p.kind == BAD_RECORD && inFragment {
      pieces := RecordIsMade(file, p.next, false, [], offset, drops' + [|scratch|], []);
    } else if p.kind == BAD_RECORD {
      pieces := RecordIsMade(file, p.next, false, scratch, offset, drops', []);
    } else if p.kind != END_OF_FILE {
      pieces := RecordIsMade(file, p.next, false, [], offset, drops' + [|p.fragment| + if inFragment then |scratch| else 0], []);
    }
  }

  function StartOf(pieces: seq<Piece>): nat {
    if pieces == [] then 0 else pieces[0].at
  }

  function EndOf(pieces: seq<Piece>): nat {
    if pieces == [] then 0 else pieces[|pieces| - 1].End()
  }

  // The pieces of each record, and the records apart from each other and in the order of the file.
  ghost predicate AreMadeOf(file: seq<Byte>, pos: nat, records: seq<seq<Byte>>, made: seq<seq<Piece>>) {
    && |made| == |records|
    && (forall i :: 0 <= i < |made| ==> IsMadeOf(file, records[i], made[i]))
    && (forall i :: 0 <= i < |made| ==> StartOf(made[i]) >= pos)
    && forall i :: 0 < i < |made| ==> StartOf(made[i]) >= EndOf(made[i - 1])
  }

  // The same for everything that is read from a log, whatever happened to it.
  lemma {:induction false} RecordsAreMade(file: seq<Byte>, pos: nat, drops: seq<nat>) returns (made: seq<seq<Piece>>)
    requires pos <= |file|
    ensures AreMadeOf(file, pos, RecordsFrom(file, true, pos, drops).records, made)
    decreases |file| - pos
  {
    hide RecordAt, IsMadeOf;
    var o := RecordAt(file, true, pos, false, [], 0, drops);
    made := [];
    if o.found {
      var first := RecordIsMade(file, pos, false, [], 0, drops, []);
      var rest := RecordsAreMade(file, o.next, o.drops);
      made := [first] + rest;
    }
  }

  // ---- A record that can be looked at ----

  lemma CrcOfOne()
    ensures Shift(Xor(ONES, 0x01), 4) == 0xeccf57e5 && Shift(0xeccf57e5, 4) == 0x5fe92fad
  {
    assert Shift(Xor(ONES, 0x01), 2) == 0xbd09c487 && Shift(0xbd09c487, 2) == 0xeccf57e5;
    assert Shift(0xeccf57e5, 2) == 0x7a48c845 && Shift(0x7a48c845, 2) == 0x5fe92fad;
    hide *;
    ShiftCompose(Xor(ONES, 0x01), 2, 2);
    ShiftCompose(0xeccf57e5, 2, 2);
  }

  lemma MaskOfOne()
    ensures Mask(0xa016d052) == 0x43282b05
  {
  }

  lemma FourBytes()
    ensures EncodeFixed32(0x43282b05) == [0x05, 0x2b, 0x28, 0x43]
  {
  }

  lemma SmallBytes()
    ensures EncodeByte(1) == 0x01 && EncodeByte(0) == 0x00
  {
    hide EncodeByte;
    EncodeIsNumber(0);
    EncodeIsNumber(1);
    SameNumber(EncodeByte(0), 0x00);
    SameNumber(EncodeByte(1), 0x01);
  }

  lemma ValueOfOne(one: seq<Byte>)
    requires one == [0x01]
    ensures Value(one) == 0xa016d052
  {
    hide Fold, Shift;
    CrcOfOne();
    FoldNothing(ONES);
    NextDigit([], 0x01, ONES, 0xeccf57e5, 0x5fe92fad);
    assert [] + one == one;
  }

  // The record of an empty write: a masked checksum, no length, and the type of a full record.
  lemma EmptyRecord()
    ensures Physical(1, []) == [0x05, 0x2b, 0x28, 0x43, 0x00, 0x00, 0x01]
  {
    hide Value, EncodeByte, EncodeFixed32, Mask;
    SmallBytes();
    ValueOfOne([EncodeByte(1)]);
    assert [EncodeByte(1)] + [] == [EncodeByte(1)];
    MaskOfOne();
    FourBytes();
  }
}
