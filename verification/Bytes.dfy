/** Numbers below 256 and the bytes that store them, bit by bit. */
module Bytes {
  type Byte = bv8

  function OneIf(bit: bool): nat {
    if bit then 1 else 0
  }

  // n without its k lowest bits.
  function Drop(n: nat, k: nat): nat {
    if k == 0 then n else Drop(n, k - 1) / 2
  }

  function HasBit(n: nat, k: nat): bool {
    Drop(n, k) % 2 == 1
  }

  function FromBits(b7: bool, b6: bool, b5: bool, b4: bool, b3: bool, b2: bool, b1: bool, b0: bool): Byte {
    (if b7 then 0x80 else 0) | (if b6 then 0x40 else 0) | (if b5 then 0x20 else 0) | (if b4 then 0x10 else 0)
    | (if b3 then 0x08 else 0) | (if b2 then 0x04 else 0) | (if b1 then 0x02 else 0) | (if b0 then 0x01 else 0)
  }

  function EncodeByte(n: nat): Byte {
    FromBits(HasBit(n, 7), HasBit(n, 6), HasBit(n, 5), HasBit(n, 4), HasBit(n, 3), HasBit(n, 2), HasBit(n, 1), HasBit(n, 0))
  }

  function Nibble(b3: bool, b2: bool, b1: bool, b0: bool): (n: nat)
    ensures n < 16
  {
    8 * OneIf(b3) + 4 * OneIf(b2) + 2 * OneIf(b1) + OneIf(b0)
  }

  function Weighted(b7: bool, b6: bool, b5: bool, b4: bool, b3: bool, b2: bool, b1: bool, b0: bool): (n: nat)
    ensures n < 256
  {
    16 * Nibble(b7, b6, b5, b4) + Nibble(b3, b2, b1, b0)
  }

  function DecodeByte(b: Byte): (n: nat)
    ensures n < 256
  {
    Weighted(b & 0x80 != 0, b & 0x40 != 0, b & 0x20 != 0, b & 0x10 != 0, b & 0x08 != 0, b & 0x04 != 0, b & 0x02 != 0, b & 0x01 != 0)
  }

  lemma BitsRoundTrip(b7: bool, b6: bool, b5: bool, b4: bool, b3: bool, b2: bool, b1: bool, b0: bool)
    ensures DecodeByte(FromBits(b7, b6, b5, b4, b3, b2, b1, b0)) == Weighted(b7, b6, b5, b4, b3, b2, b1, b0)
  {
    hide Weighted;
  }

  lemma NextBit(n: nat, k: nat)
    ensures Drop(n, k) == 2 * Drop(n, k + 1) + OneIf(HasBit(n, k))
  {
  }

  lemma NextNibble(n: nat, k: nat)
    ensures Drop(n, k) == 16 * Drop(n, k + 4) + Nibble(HasBit(n, k + 3), HasBit(n, k + 2), HasBit(n, k + 1), HasBit(n, k))
  {
    hide Drop, HasBit, OneIf;
    NextBit(n, k);
    NextBit(n, k + 1);
    NextBit(n, k + 2);
    NextBit(n, k + 3);
  }

  lemma WeightedBits(n: nat)
    requires n < 256
    ensures Weighted(HasBit(n, 7), HasBit(n, 6), HasBit(n, 5), HasBit(n, 4), HasBit(n, 3), HasBit(n, 2), HasBit(n, 1), HasBit(n, 0)) == n
  {
    hide HasBit, Nibble, Drop;
    NothingLeft(n);
    NextNibble(n, 0);
    NextNibble(n, 4);
  }

  lemma NothingLeft(n: nat)
    requires n < 256
    ensures Drop(n, 0) == n && Drop(n, 8) == 0
  {
    assert Drop(n, 1) == Drop(n, 0) / 2 < 128;
    assert Drop(n, 2) == Drop(n, 1) / 2 < 64;
    assert Drop(n, 3) == Drop(n, 2) / 2 < 32;
    assert Drop(n, 4) == Drop(n, 3) / 2 < 16;
    assert Drop(n, 5) == Drop(n, 4) / 2 < 8;
    assert Drop(n, 6) == Drop(n, 5) / 2 < 4;
    assert Drop(n, 7) == Drop(n, 6) / 2 < 2;
    assert Drop(n, 8) == Drop(n, 7) / 2;
  }

  lemma ByteRoundTrip(n: nat)
    requires n < 256
    ensures DecodeByte(EncodeByte(n)) == n
  {
    hide FromBits, Weighted, DecodeByte, HasBit, Drop;
    BitsRoundTrip(HasBit(n, 7), HasBit(n, 6), HasBit(n, 5), HasBit(n, 4), HasBit(n, 3), HasBit(n, 2), HasBit(n, 1), HasBit(n, 0));
    WeightedBits(n);
  }

  // A byte is decoded as the number that it is.
  lemma DecodeIsValue(b: Byte)
    ensures DecodeByte(b) == b as int
  {
  }

  lemma EncodeIsNumber(n: nat)
    requires n < 256
    ensures EncodeByte(n) as int == n
  {
    hide EncodeByte, DecodeByte;
    ByteRoundTrip(n);
    DecodeIsValue(EncodeByte(n));
  }

  lemma SameNumber(a: Byte, b: Byte)
    requires a as int == b as int
    ensures a == b
  {
  }

  // Every byte comes back from its number.
  lemma NumberRoundTrip(b: Byte)
    ensures EncodeByte(DecodeByte(b)) == b
  {
    hide EncodeByte, DecodeByte;
    ByteRoundTrip(DecodeByte(b));
    DecodeIsValue(b);
    DecodeIsValue(EncodeByte(DecodeByte(b)));
    SameNumber(EncodeByte(DecodeByte(b)), b);
  }

  lemma Assoc(a: seq<Byte>, b: seq<Byte>, c: seq<Byte>)
    ensures a + (b + c) == a + b + c
  {
  }
}
