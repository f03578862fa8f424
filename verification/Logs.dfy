/** db/log_writer.cc: records cut into checksummed fragments that never cross a block boundary. */
module Logs {
  import opened Bytes
  import opened Crc32c

  const BLOCK_SIZE: nat := 32768
  const HEADER_SIZE: nat := 7

  // The record types, and the two codes the reader adds to them.
  const ZERO_TYPE: nat := 0
  const FULL_TYPE: nat := 1
  const FIRST_TYPE: nat := 2
  const MIDDLE_TYPE: nat := 3
  const LAST_TYPE: nat := 4
  const END_OF_FILE: nat := 5
  const BAD_RECORD: nat := 6

  // ---- The bytes of one fragment ----

  function EncodeFixed32(w: Word): (s: seq<Byte>)
    ensures |s| == 4
  {
    [(w & 0xff) as Byte, ((w >> 8) & 0xff) as Byte, ((w >> 16) & 0xff) as Byte, (w >> 24) as Byte]
  }

  lemma Fixed32RoundTrip(w: Word)
    ensures var s := EncodeFixed32(w); ReadUint32LE(s[0], s[1], s[2], s[3]) == w
  {
  }

  function Checksum(kind: nat, data: seq<Byte>): Word
    requires kind < 256
  {
    Mask(Value([EncodeByte(kind)] + data))
  }

  function Header(kind: nat, data: seq<Byte>): (s: seq<Byte>)
    requires kind < 256 && |data| < 65536
    ensures |s| == HEADER_SIZE
  {
    EncodeFixed32(Checksum(kind, data)) + [EncodeByte(|data| % 256), EncodeByte(|data| / 256), EncodeByte(kind)]
  }

  // One physical record: EmitPhysicalRecord.
  function Physical(kind: nat, data: seq<Byte>): (s: seq<Byte>)
    requires kind < 256 && |data| < 65536
    ensures |s| == HEADER_SIZE + |data|
  {
    Header(kind, data) + data
  }

  // ---- The bytes of one record ----

  function Zeros(n: nat): (s: seq<Byte>)
    ensures |s| == n
  {
    seq(n, _ => 0)
  }

  // The trailer of a block in which no header fits.
  function Padding(at: nat): (n: nat)
    ensures n < HEADER_SIZE
    ensures (at + n) % BLOCK_SIZE + HEADER_SIZE <= BLOCK_SIZE
  {
    var leftover := BLOCK_SIZE - at % BLOCK_SIZE;
    if leftover < HEADER_SIZE then leftover else 0
  }

  // The payload that fits behind a header at `here`.
  function Available(here: nat): (n: nat)
    requires here % BLOCK_SIZE + HEADER_SIZE <= BLOCK_SIZE
    ensures n < 65536
  {
    BLOCK_SIZE - here % BLOCK_SIZE - HEADER_SIZE
  }

  function KindOf(begin: bool, end: bool): (kind: nat)
    ensures FULL_TYPE <= kind <= LAST_TYPE
  {
    if begin && end then FULL_TYPE else if begin then FIRST_TYPE else if end then LAST_TYPE else MIDDLE_TYPE
  }

  function FragmentLength(at: nat, data: seq<Byte>): (n: nat)
    ensures n <= |data| && n < 65536
  {
    var room := Available(at + Padding(at));
    if |data| < room then |data| else room
  }

  // The next fragment, behind the padding it needs.
  function Fragment(at: nat, begin: bool, data: seq<Byte>): (s: seq<Byte>)
    ensures |s| == Padding(at) + HEADER_SIZE + FragmentLength(at, data)
  {
    var n := FragmentLength(at, data);
    Zeros(Padding(at)) + Physical(KindOf(begin, n == |data|), data[..n])
  }

  // What AddRecord appends to a file of length `at`.
  function Written(at: nat, begin: bool, data: seq<Byte>): (s: seq<Byte>)
    ensures |s| > 0
    decreases |data|, if FragmentLength(at, data) == 0 then 1 else 0
  {
    var n := FragmentLength(at, data);
    if n == |data| then Fragment(at, begin, data)
    else Fragment(at, begin, data) + Written(at + Padding(at) + HEADER_SIZE + n, false, data[n..])
  }

  // A log of these records.
  function Log(records: seq<seq<Byte>>): seq<Byte> {
    if records == [] then []
    else
      var before := Log(records[..|records| - 1]);
      before + Written(|before|, true, records[|records| - 1])
  }

  // ---- The writer ----

  class Writer {
    var dest: seq<Byte>
    var blockOffset: nat
    const typeCrc: seq<Word>

    ghost predicate Valid()
      reads this
    {
      && blockOffset <= BLOCK_SIZE
      && blockOffset % BLOCK_SIZE == |dest| % BLOCK_SIZE
      && |typeCrc| == 5
      && forall t: nat :: t < 5 ==> typeCrc[t] == Value([EncodeByte(t)])
    }

    // InitTypeCrc
    static function TypeCrc(t: nat): Word
      requires t < 5
    {
      Value([EncodeByte(t)])
    }

    // On a new file.
    constructor ()
      ensures Valid() && dest == []
    {
      dest := [];
      blockOffset := 0;
      typeCrc := seq(5, t requires 0 <= t < 5 => TypeCrc(t));
    }

    // On a file that has contents already.
    constructor Reopen(contents: seq<Byte>)
      ensures Valid() && dest == contents
    {
      dest := contents;
      blockOffset := |contents| % BLOCK_SIZE;
      typeCrc := seq(5, t requires 0 <= t < 5 => TypeCrc(t));
    }

    method EmitPhysicalRecord(kind: nat, data: seq<Byte>)
      requires Valid() && FULL_TYPE <= kind <= LAST_TYPE
      requires |data| <= 0xffff && blockOffset + HEADER_SIZE + |data| <= BLOCK_SIZE
      modifies this
      ensures Valid() && dest == old(dest) + Physical(kind, data)
    {
      hide EncodeByte, EncodeFixed32, Value, Crc, Mask, Physical, Xor, Fold;
      var crc := Extend(typeCrc[kind], data, 0);
      crc := Mask(crc);
      var header := EncodeFixed32(crc) + [EncodeByte(|data| % 256), EncodeByte(|data| / 256), EncodeByte(kind)];
      PhysicalIs(kind, data);
      dest := dest + header;
      dest := dest + data;
      blockOffset := blockOffset + HEADER_SIZE + |data|;
    }

    // Fills the trailer of a block that has no room for a header.
    method SwitchBlock()
      requires Valid()
      modifies this
      ensures Valid() && dest == old(dest) + Zeros(Padding(|old(dest)|))
      ensures blockOffset + HEADER_SIZE + Available(|dest|) == BLOCK_SIZE
    {
      hide Zeros;
      var leftover := BLOCK_SIZE - blockOffset;
      if leftover < HEADER_SIZE {
        dest := dest + Zeros(leftover);
        blockOffset := 0;
        assert Padding(|old(dest)|) == leftover || leftover == 0;
      }
    }

    // Appends the record, whatever its length, in as many fragments as the blocks require.
    method AddRecord(record: seq<Byte>)
      requires Valid()
      modifies this
      ensures Valid() && dest == old(dest) + Written(|old(dest)|, true, record)
    {
      hide Physical, Zeros, Written, Padding, Available;
      var ptr := record;
      var begin, again := true, true;
      while again
        invariant Valid()
        invariant again ==> dest + Written(|dest|, begin, ptr) == old(dest) + Written(|old(dest)|, true, record)
        invariant !again ==> dest == old(dest) + Written(|old(dest)|, true, record)
        decreases again, |ptr|, if again && FragmentLength(|dest|, ptr) == 0 then 1 else 0
      {
        ghost var was, part := dest, ptr;
        WrittenStep(was, begin, ptr);
        SwitchBlock();
        var avail := BLOCK_SIZE - blockOffset - HEADER_SIZE;
        var fragmentLength := if |ptr| < avail then |ptr| else avail;
        var end := |ptr| == fragmentLength;
        var kind;
        if begin && end {
          kind := FULL_TYPE;
        } else if begin {
          kind := FIRST_TYPE;
        } else if end {
          kind := LAST_TYPE;
        } else {
          kind := MIDDLE_TYPE;
        }
        EmitPhysicalRecord(kind, ptr[..fragmentLength]);
        ptr := ptr[fragmentLength..];
        begin := false;
        again := |ptr| > 0;
        NextBlockHasRoom(was, part);
      }
    }
  }

  lemma WrittenStep(file: seq<Byte>, begin: bool, data: seq<Byte>)
    ensures var n := FragmentLength(|file|, data);
            var next := file + Zeros(Padding(|file|)) + Physical(KindOf(begin, n == |data|), data[..n]);
            file + Written(|file|, begin, data) == if n == |data| then next else next + Written(|next|, false, data[n..])
  {
    hide Physical, Zeros, FragmentLength, Padding, Available, KindOf;
    var n := FragmentLength(|file|, data);
    Assoc(file, Zeros(Padding(|file|)), Physical(KindOf(begin, n == |data|), data[..n]));
    if n < |data| {
      Assoc(file, Fragment(|file|, begin, data), Written(|file| + Padding(|file|) + HEADER_SIZE + n, false, data[n..]));
    }
  }

  lemma NextBlockHasRoom(file: seq<Byte>, data: seq<Byte>)
    ensures FragmentLength(|file|, data) == 0 && |data| > 0 ==> FragmentLength(|file| + Padding(|file|) + HEADER_SIZE, data) > 0
  {
  }

  // Continuing the checksum of the type over the payload gives the checksum of both.
  lemma PhysicalIs(kind: nat, data: seq<Byte>)
    requires kind < 256 && |data| < 65536
    ensures EncodeFixed32(Mask(Crc(Value([EncodeByte(kind)]), data)))
            + [EncodeByte(|data| % 256), EncodeByte(|data| / 256), EncodeByte(kind)] + data == Physical(kind, data)
  {
    hide Crc, EncodeByte, EncodeFixed32, Mask;
    ExtendConcat(0, [EncodeByte(kind)], data);
  }
}
