/** util/crc32c.cc and util/crc32c.h: the striped CRC against the bit-by-bit one.

    The tables are modelled by what they hold: the remainder of a byte after 8 shifts (the byte
    extension table), and of a byte at each of the four places of a word after 128 shifts, that is,
    16 zero bytes later (the stride extension tables). */
module Crc32c {
  import opened Bytes

  type Word = bv32

  const POLYNOMIAL: Word := 0x82f63b78    // the CRC-32C polynomial, reflected
  const ONES: Word := 0xffffffff          // kCRC32Xor
  const MASK_DELTA: Word := 0xa282ead8    // kMaskDelta

  function Xor(a: Word, b: Word): Word {
    a ^ b
  }

  // ---- The bit-by-bit CRC ----

  function Feedback(bit: Word): Word {
    if bit == 1 then POLYNOMIAL else 0
  }

  function Shift1(l: Word): Word {
    Xor(l >> 1, Feedback(l & 1))
  }

  function Shift(l: Word, n: nat): Word
    decreases n
  {
    if n == 0 then l else Shift(Shift1(l), n - 1)
  }

  // The register after `data` went through it, one byte at a time.
  function Fold(l: Word, data: seq<Byte>): Word {
    if data == [] then l else Shift(Xor(Fold(l, data[..|data| - 1]), data[|data| - 1] as Word), 8)
  }

  // CRC-32C of section 12.1 of RFC 3720, continued from crc.
  function Crc(crc: Word, data: seq<Byte>): Word {
    Xor(Fold(Xor(crc, ONES), data), ONES)
  }

  function Value(data: seq<Byte>): Word {
    Crc(0, data)
  }

  lemma {:induction false} FoldConcat(l: Word, a: seq<Byte>, b: seq<Byte>)
    ensures Fold(l, a + b) == Fold(Fold(l, a), b)
  {
    hide Xor, Shift;
    if b == [] {
      assert a + b == a;
    } else {
      var n := |b| - 1;
      FoldConcat(l, a, b[..n]);
      assert (a + b)[..|a + b| - 1] == a + b[..n];
    }
  }

  lemma XorTwice(a: Word, b: Word)
    ensures Xor(Xor(a, b), b) == a
  {
  }

  // Extending over a concatenation is extending twice.
  lemma ExtendConcat(crc: Word, a: seq<Byte>, b: seq<Byte>)
    ensures Crc(crc, a + b) == Crc(Crc(crc, a), b)
  {
    hide Xor, Fold;
    FoldConcat(Xor(crc, ONES), a, b);
    XorTwice(Fold(Xor(crc, ONES), a), ONES);
  }

  // ---- Shifting is linear ----

  lemma BitsSwap(a: Word, b: Word, c: Word, d: Word)
    ensures (a ^ b) ^ (c ^ d) == (a ^ c) ^ (b ^ d)
  {
  }

  lemma XorSwap(a: Word, b: Word, c: Word, d: Word)
    ensures Xor(Xor(a, b), Xor(c, d)) == Xor(Xor(a, c), Xor(b, d))
  {
    hide Xor;
    calc {
      Xor(Xor(a, b), Xor(c, d));
      { XorIs(a, b); XorIs(c, d); XorIs(a ^ b, c ^ d); }
      (a ^ b) ^ (c ^ d);
      { BitsSwap(a, b, c, d); }
      (a ^ c) ^ (b ^ d);
      { XorIs(a, c); XorIs(b, d); XorIs(a ^ c, b ^ d); }
      Xor(Xor(a, c), Xor(b, d));
    }
  }

  lemma XorIs(a: Word, b: Word)
    ensures Xor(a, b) == a ^ b
  {
  }

  lemma HalvesLinear(a: Word, b: Word)
    ensures Xor(a, b) >> 1 == Xor(a >> 1, b >> 1)
    ensures Xor(a, b) & 1 == Xor(a & 1, b & 1)
  {
    hide Xor;
    HighBits(a, b);
    LowBit(a, b);
    XorIs(a, b);
    XorIs(a >> 1, b >> 1);
    XorIs(a & 1, b & 1);
  }

  lemma HighBits(a: Word, b: Word)
    ensures (a ^ b) >> 1 == (a >> 1) ^ (b >> 1)
  {
  }

  lemma LowBit(a: Word, b: Word)
    ensures (a ^ b) & 1 == (a & 1) ^ (b & 1)
  {
  }

  lemma FeedbackLinear(a: Word, b: Word)
    ensures Feedback(Xor(a & 1, b & 1)) == Xor(Feedback(a & 1), Feedback(b & 1))
  {
    assert (a & 1 == 0 || a & 1 == 1) && (b & 1 == 0 || b & 1 == 1);
  }

  lemma Shift1Linear(a: Word, b: Word)
    ensures Shift1(Xor(a, b)) == Xor(Shift1(a), Shift1(b))
  {
    hide Xor, Feedback;
    HalvesLinear(a, b);
    FeedbackLinear(a, b);
    XorSwap(a >> 1, b >> 1, Feedback(a & 1), Feedback(b & 1));
  }

  lemma {:induction false} ShiftLinear(a: Word, b: Word, n: nat)
    ensures Shift(Xor(a, b), n) == Xor(Shift(a, n), Shift(b, n))
    decreases n
  {
    hide Xor, Shift1;
    if n > 0 {
      Shift1Linear(a, b);
      ShiftLinear(Shift1(a), Shift1(b), n - 1);
    }
  }

  lemma {:induction false} ShiftCompose(l: Word, m: nat, n: nat)
    ensures Shift(Shift(l, m), n) == Shift(l, m + n)
    decreases m
  {
    hide Xor, Shift1;
    if m > 0 {
      ShiftCompose(Shift1(l), m - 1, n);
    }
  }

  function Twice(x: Word): Word {
    x << 1
  }

  lemma TwiceBack(x: Word)
    requires x < 0x80000000
    ensures Shift1(Twice(x)) == x
  {
    hide Shift1;
    LowZero(x);
    NoFeedback(Twice(x));
  }

  lemma LowZero(x: Word)
    requires x < 0x80000000
    ensures Twice(x) >> 1 == x && Twice(x) & 1 == 0
  {
  }

  lemma TwiceBelow(x: Word)
    ensures x < 0x1000000 ==> Twice(x) < 0x2000000
    ensures x < 0x2000000 ==> Twice(x) < 0x4000000
    ensures x < 0x4000000 ==> Twice(x) < 0x8000000
    ensures x < 0x8000000 ==> Twice(x) < 0x10000000
    ensures x < 0x10000000 ==> Twice(x) < 0x20000000
    ensures x < 0x20000000 ==> Twice(x) < 0x40000000
    ensures x < 0x40000000 ==> Twice(x) < 0x80000000
  {
  }

  lemma XorZero(x: Word)
    ensures Xor(x, 0) == x && Xor(0, x) == x
  {
  }

  function Up(x: Word, k: Word): Word
    requires k <= 32
  {
    x << k
  }

  lemma NoFeedback(l: Word)
    requires l & 1 == 0
    ensures Shift1(l) == l >> 1
  {
    hide Xor;
    XorZero(l >> 1);
  }

  lemma EightShifts(x8: Word, x7: Word, x6: Word, x5: Word, x4: Word, x3: Word, x2: Word, x1: Word, x0: Word)
    requires Shift1(x8) == x7 && Shift1(x7) == x6 && Shift1(x6) == x5 && Shift1(x5) == x4
    requires Shift1(x4) == x3 && Shift1(x3) == x2 && Shift1(x2) == x1 && Shift1(x1) == x0
    ensures Shift(x8, 8) == x0
  {
    hide Shift1;
    assert Shift(x8, 8) == Shift(x7, 7) == Shift(x6, 6) == Shift(x5, 5) == Shift(x4, 4);
    assert Shift(x4, 4) == Shift(x3, 3) == Shift(x2, 2) == Shift(x1, 1) == Shift(x0, 0);
  }

  // A low zero byte just falls out.
  lemma ZeroByteFallsOut(x: Word)
    requires x < 0x1000000
    ensures Shift(Up(x, 8), 8) == x
  {
    hide Shift, Shift1, Up, Twice;
    var x1 := Doubled(x, 0x1000000);
    var x2 := Doubled(x1, 0x2000000);
    var x3 := Doubled(x2, 0x4000000);
    var x4 := Doubled(x3, 0x8000000);
    var x5 := Doubled(x4, 0x10000000);
    var x6 := Doubled(x5, 0x20000000);
    var x7 := Doubled(x6, 0x40000000);
    TwiceBack(x7);
    EightShifts(Twice(x7), x7, x6, x5, x4, x3, x2, x1, x);
    EightTimesTwice(x);
  }

  // A bit further up, as long as there is room.
  lemma Doubled(x: Word, bound: Word) returns (y: Word)
    requires bound == 0x1000000 || bound == 0x2000000 || bound == 0x4000000 || bound == 0x8000000 || bound == 0x10000000
             || bound == 0x20000000 || bound == 0x40000000
    requires x < bound
    ensures y == Twice(x) && Shift1(y) == x && y < 2 * bound
  {
    hide Shift1, Twice;
    y := Twice(x);
    TwiceBelow(x);
    TwiceBack(x);
  }

  lemma EightTimesTwice(x: Word)
    ensures Up(x, 8) == Twice(Twice(Twice(Twice(Twice(Twice(Twice(Twice(x))))))))
  {
  }

  // ---- The byte step ----

  // kByteExtensionTable
  function ByteExtensionTable(c: Byte): Word {
    Shift(c as Word, 8)
  }

  function LowByte(l: Word): Byte {
    (l & 0xff) as Byte
  }

  lemma HighPartFits(l: Word)
    ensures l >> 8 < 0x1000000
  {
  }

  lemma SplitWord(l: Word, b: Byte)
    ensures Xor(l, b as Word) == Xor((LowByte(l) ^ b) as Word, Up(l >> 8, 8))
  {
    assert l == (l & 0xff) | ((l >> 8) << 8);
  }

  // STEP1
  function ByteStep(l: Word, b: Byte): Word {
    Xor(ByteExtensionTable(LowByte(l) ^ b), l >> 8)
  }

  // A table lookup and a shift by a whole byte are eight shifts of one bit.
  lemma Step1(l: Word, b: Byte)
    ensures ByteStep(l, b) == Shift(Xor(l, b as Word), 8)
  {
    hide Xor, Shift, LowByte, Up;
    SplitWord(l, b);
    ShiftLinear((LowByte(l) ^ b) as Word, Up(l >> 8, 8), 8);
    HighPartFits(l);
    ZeroByteFallsOut(l >> 8);
  }

  // ---- Words ----

  // DecodeFixed32: four bytes, least significant first.
  function ReadUint32LE(b0: Byte, b1: Byte, b2: Byte, b3: Byte): Word {
    b0 as Word | (b1 as Word << 8) | (b2 as Word << 16) | (b3 as Word << 24)
  }

  lemma WordIsNested(b0: Byte, b1: Byte, b2: Byte, b3: Byte)
    ensures var h2 := Xor(b2 as Word, Up(b3 as Word, 8));
            var h1 := Xor(b1 as Word, Up(h2, 8));
            && ReadUint32LE(b0, b1, b2, b3) == Xor(b0 as Word, Up(h1, 8))
            && b3 as Word < 0x1000000 && h2 < 0x1000000 && h1 < 0x1000000
  {
  }

  lemma XorAssoc(a: Word, b: Word, c: Word)
    ensures Xor(Xor(a, b), c) == Xor(a, Xor(b, c))
  {
  }

  lemma XorCommutes(a: Word, b: Word)
    ensures Xor(a, b) == Xor(b, a)
  {
  }

  // Bytes further up in the register wait until the byte below them has gone through.
  lemma LowByteFirst(l: Word, b: Byte, h: Word)
    requires h < 0x1000000
    ensures Shift(Xor(l, Xor(b as Word, Up(h, 8))), 8) == Xor(Shift(Xor(l, b as Word), 8), h)
  {
    hide Xor, Shift, Up;
    XorAssoc(l, b as Word, Up(h, 8));
    ShiftLinear(Xor(l, b as Word), Up(h, 8), 8);
    ZeroByteFallsOut(h);
  }

  lemma FoldStep(l: Word, data: seq<Byte>, b: Byte)
    ensures Fold(l, data + [b]) == Shift(Xor(Fold(l, data), b as Word), 8)
  {
    hide Xor, Shift;
    assert (data + [b])[..|data|] == data;
  }

  // Four bytes go through the register as one word.
  lemma FoldWord(l: Word, data: seq<Byte>, b0: Byte, b1: Byte, b2: Byte, b3: Byte)
    ensures Fold(l, data + [b0, b1, b2, b3]) == Shift(Xor(Fold(l, data), ReadUint32LE(b0, b1, b2, b3)), 32)
  {
    hide Xor, Shift, Up, Fold, ReadUint32LE;
    WordIsNested(b0, b1, b2, b3);
    var h2 := Xor(b2 as Word, Up(b3 as Word, 8));
    var h1 := Xor(b1 as Word, Up(h2, 8));
    var w := ReadUint32LE(b0, b1, b2, b3);
    var l0 := Fold(l, data);
    FoldFour(l, data, b0, b1, b2, b3);
    LowByteFirst(l0, b0, h1);
    ShiftCompose(Xor(l0, w), 8, 24);
    var l1 := Shift(Xor(l0, b0 as Word), 8);
    LowByteFirst(l1, b1, h2);
    ShiftCompose(Xor(l1, h1), 8, 16);
    var l2 := Shift(Xor(l1, b1 as Word), 8);
    LowByteFirst(l2, b2, b3 as Word);
    ShiftCompose(Xor(l2, h2), 8, 8);
  }

  lemma FoldFour(l: Word, data: seq<Byte>, b0: Byte, b1: Byte, b2: Byte, b3: Byte)
    ensures var l1 := Shift(Xor(Fold(l, data), b0 as Word), 8);
            var l2 := Shift(Xor(l1, b1 as Word), 8);
            var l3 := Shift(Xor(l2, b2 as Word), 8);
            Fold(l, data + [b0, b1, b2, b3]) == Shift(Xor(l3, b3 as Word), 8)
  {
    hide Xor, Shift, Fold;
    FoldStep(l, data, b0);
    FoldStep(l, data + [b0], b1);
    assert data + [b0] + [b1] == data + [b0, b1];
    FoldStep(l, data + [b0, b1], b2);
    assert data + [b0, b1] + [b2] == data + [b0, b1, b2];
    FoldStep(l, data + [b0, b1, b2], b3);
    assert data + [b0, b1, b2] + [b3] == data + [b0, b1, b2, b3];
  }

  // ---- Four strides ----

  // The four partial results, combined one word apart.
  function Combine(c0: Word, c1: Word, c2: Word, c3: Word): Word {
    Shift(Xor(Shift(Xor(Shift(Xor(Shift(c0, 32), c1), 32), c2), 32), c3), 32)
  }

  lemma WordLinear(a: Word, b: Word, x: Word, y: Word)
    ensures Shift(Xor(Xor(a, b), Xor(x, y)), 32) == Xor(Shift(Xor(a, x), 32), Shift(Xor(b, y), 32))
  {
    hide Xor, Shift;
    XorSwap(a, b, x, y);
    ShiftLinear(Xor(a, x), Xor(b, y), 32);
  }

  lemma CombineLinear(a0: Word, a1: Word, a2: Word, a3: Word, b0: Word, b1: Word, b2: Word, b3: Word)
    ensures Combine(Xor(a0, b0), Xor(a1, b1), Xor(a2, b2), Xor(a3, b3)) == Xor(Combine(a0, a1, a2, a3), Combine(b0, b1, b2, b3))
  {
    hide Xor, Shift;
    ShiftLinear(a0, b0, 32);
    var p, q := Shift(a0, 32), Shift(b0, 32);
    WordLinear(p, q, a1, b1);
    var r, s := Shift(Xor(p, a1), 32), Shift(Xor(q, b1), 32);
    WordLinear(r, s, a2, b2);
    WordLinear(Shift(Xor(r, a2), 32), Shift(Xor(s, b2), 32), a3, b3);
  }

  lemma {:induction false} ShiftZero(n: nat)
    ensures Shift(0, n) == 0
  {
    if n > 0 {
      ShiftZero(n - 1);
    }
  }

  // A lone first stride is just shifted by four words.
  lemma CombineFirst(c: Word)
    ensures Combine(c, 0, 0, 0) == Shift(c, 128)
  {
    hide Xor, Shift;
    XorZero(Shift(c, 32));
    ShiftCompose(c, 32, 32);
    XorZero(Shift(c, 64));
    ShiftCompose(c, 64, 32);
    XorZero(Shift(c, 96));
    ShiftCompose(c, 96, 32);
  }

  lemma CombineRest(c1: Word, c2: Word, c3: Word)
    ensures Combine(0, c1, c2, c3) == Shift(Xor(Shift(Xor(Shift(c1, 32), c2), 32), c3), 32)
  {
    hide Xor, Shift;
    ShiftZero(32);
    XorZero(c1);
  }

  // The first stride and the others contribute separately.
  lemma CombineSplit(c0: Word, c1: Word, c2: Word, c3: Word)
    ensures Combine(c0, c1, c2, c3) == Xor(Shift(c0, 128), Combine(0, c1, c2, c3))
  {
    hide Xor, Shift, Combine;
    XorZero(c0);
    XorZero(c1);
    XorZero(c2);
    XorZero(c3);
    CombineLinear(c0, 0, 0, 0, 0, c1, c2, c3);
    CombineFirst(c0);
  }

  lemma WordAdvances(p: Word, c: Word)
    ensures Shift(Xor(Shift(p, 128), Shift(c, 128)), 32) == Shift(Shift(Xor(p, c), 32), 128)
  {
    hide *;
    ShiftLinear(p, c, 128);
    ShiftsSwap(Xor(p, c), 128, 32);
  }

  lemma ShiftsSwap(l: Word, m: nat, n: nat)
    ensures Shift(Shift(l, m), n) == Shift(Shift(l, n), m)
  {
    hide *;
    ShiftCompose(l, m, n);
    ShiftCompose(l, n, m);
  }

  // Advancing every stride by 16 zero bytes advances their combination.
  lemma CombineAdvances(c0: Word, c1: Word, c2: Word, c3: Word)
    ensures Combine(Shift(c0, 128), Shift(c1, 128), Shift(c2, 128), Shift(c3, 128)) == Shift(Combine(c0, c1, c2, c3), 128)
  {
    hide Xor, Shift;
    ShiftCompose(c0, 128, 32);
    ShiftCompose(c0, 32, 128);
    var p := Shift(c0, 32);
    WordAdvances(p, c1);
    var q := Shift(Xor(p, c1), 32);
    WordAdvances(q, c2);
    WordAdvances(Shift(Xor(q, c2), 32), c3);
  }

  // A swath of 16 bytes, each word into its own stride.
  lemma SwathStep(c0: Word, c1: Word, c2: Word, c3: Word, w0: Word, w1: Word, w2: Word, w3: Word)
    ensures Combine(Xor(w0, Shift(c0, 128)), Xor(w1, Shift(c1, 128)), Xor(w2, Shift(c2, 128)), Xor(w3, Shift(c3, 128)))
            == Combine(Xor(w0, Combine(c0, c1, c2, c3)), w1, w2, w3)
  {
    hide Xor, Shift, Combine;
    var l := Combine(c0, c1, c2, c3);
    CombineLinear(w0, w1, w2, w3, Shift(c0, 128), Shift(c1, 128), Shift(c2, 128), Shift(c3, 128));
    CombineAdvances(c0, c1, c2, c3);
    CombineLinear(w0, w1, w2, w3, l, 0, 0, 0);
    XorZero(w1);
    XorZero(w2);
    XorZero(w3);
    CombineFirst(l);
  }

  // One word into the first stride, and the strides change places.
  lemma RotateStep(c0: Word, c1: Word, c2: Word, c3: Word, w: Word)
    ensures Combine(c1, c2, c3, Xor(w, Shift(c0, 128))) == Shift(Xor(Combine(c0, c1, c2, c3), w), 32)
  {
    hide Xor, Shift;
    var rest := Shift(Xor(Shift(Xor(Shift(c1, 32), c2), 32), c3), 32);
    CombineSplit(c0, c1, c2, c3);
    CombineRest(c1, c2, c3);
    RotateXor(Shift(c0, 128), rest, w);
  }

  lemma RotateXor(a: Word, b: Word, w: Word)
    ensures Xor(b, Xor(w, a)) == Xor(Xor(a, b), w)
  {
  }

  // ---- The stride step ----

  // kStrideExtensionTable3 to kStrideExtensionTable0: a byte at each place of the word.
  function StrideExtensionTable3(c: Byte): Word {
    Shift(c as Word, 128)
  }

  function StrideExtensionTable2(c: Byte): Word {
    Shift(Up(c as Word, 8), 128)
  }

  function StrideExtensionTable1(c: Byte): Word {
    Shift(Up(c as Word, 16), 128)
  }

  function StrideExtensionTable0(c: Byte): Word {
    Shift(Up(c as Word, 24), 128)
  }

  // STEP4
  function Stride(w: Word, c: Word): Word {
    Xor(Xor(Xor(Xor(w, StrideExtensionTable3(LowByte(c))), StrideExtensionTable2(LowByte(c >> 8))),
            StrideExtensionTable1(LowByte(c >> 16))),
        StrideExtensionTable0(LowByte(c >> 24)))
  }

  lemma BytesOfWord(c: Word)
    ensures c == Xor(Xor(Xor(LowByte(c) as Word, Up(LowByte(c >> 8) as Word, 8)), Up(LowByte(c >> 16) as Word, 16)),
                     Up(LowByte(c >> 24) as Word, 24))
  {
    assert c == (c & 0xff) | (((c >> 8) & 0xff) << 8) | (((c >> 16) & 0xff) << 16) | (((c >> 24) & 0xff) << 24);
  }

  lemma FourLinear(w: Word, a: Word, b: Word, c: Word, d: Word, n: nat)
    ensures Xor(Xor(Xor(Xor(w, Shift(a, n)), Shift(b, n)), Shift(c, n)), Shift(d, n))
            == Xor(w, Shift(Xor(Xor(Xor(a, b), c), d), n))
  {
    hide Xor, Shift;
    ShiftLinear(a, b, n);
    ShiftLinear(Xor(a, b), c, n);
    ShiftLinear(Xor(Xor(a, b), c), d, n);
    XorAssoc(w, Shift(a, n), Shift(b, n));
    XorAssoc(w, Xor(Shift(a, n), Shift(b, n)), Shift(c, n));
    XorAssoc(w, Xor(Xor(Shift(a, n), Shift(b, n)), Shift(c, n)), Shift(d, n));
  }

  lemma StrideIs(w: Word, c: Word)
    ensures Stride(w, c)
            == Xor(Xor(Xor(Xor(w, Shift(LowByte(c) as Word, 128)), Shift(Up(LowByte(c >> 8) as Word, 8), 128)),
                       Shift(Up(LowByte(c >> 16) as Word, 16), 128)),
                   Shift(Up(LowByte(c >> 24) as Word, 24), 128))
  {
    hide Xor, Shift, Up, LowByte;
  }

  // STEP4: four table lookups advance a stride by the 16 bytes of a swath and take in its next word.
  lemma StrideAdvances(w: Word, c: Word)
    ensures Stride(w, c) == Xor(w, Shift(c, 128))
  {
    hide *;
    StrideIs(w, c);
    BytesOfWord(c);
    FourLinear(w, LowByte(c) as Word, Up(LowByte(c >> 8) as Word, 8), Up(LowByte(c >> 16) as Word, 16),
               Up(LowByte(c >> 24) as Word, 24), 128);
  }

  // ---- The whole loop ----

  function WordAt(data: seq<Byte>, p: nat): Word
    requires p + 4 <= |data|
  {
    ReadUint32LE(data[p], data[p + 1], data[p + 2], data[p + 3])
  }

  lemma FoldNextWord(l: Word, data: seq<Byte>, p: nat)
    requires p + 4 <= |data|
    ensures Fold(l, data[..p + 4]) == Shift(Xor(Fold(l, data[..p]), WordAt(data, p)), 32)
  {
    hide Xor, Shift, Fold, ReadUint32LE;
    FoldWord(l, data[..p], data[p], data[p + 1], data[p + 2], data[p + 3]);
    assert data[..p + 4] == data[..p] + [data[p], data[p + 1], data[p + 2], data[p + 3]];
  }

  lemma FoldNextSwath(l: Word, data: seq<Byte>, p: nat)
    requires p + 16 <= |data|
    ensures Fold(l, data[..p + 16])
            == Combine(Xor(WordAt(data, p), Fold(l, data[..p])), WordAt(data, p + 4), WordAt(data, p + 8), WordAt(data, p + 12))
  {
    hide Xor, Shift, Fold, WordAt;
    FoldNextWord(l, data, p);
    FoldNextWord(l, data, p + 4);
    FoldNextWord(l, data, p + 8);
    FoldNextWord(l, data, p + 12);
    XorCommutes(WordAt(data, p), Fold(l, data[..p]));
  }

  lemma FoldNextByte(l: Word, data: seq<Byte>, p: nat)
    requires p < |data|
    ensures Fold(l, data[..p + 1]) == ByteStep(Fold(l, data[..p]), data[p])
  {
    hide Xor, Shift, Fold, ByteStep;
    assert data[..p + 1] == data[..p] + [data[p]];
    FoldStep(l, data[..p], data[p]);
    Step1(Fold(l, data[..p]), data[p]);
  }

  lemma StepZero(w: Word)
    ensures Xor(w >> 8, ByteExtensionTable(LowByte(w))) == Shift(w, 8)
  {
    hide Xor, Shift, LowByte, ByteExtensionTable;
    var zero: Byte := 0;
    assert LowByte(w) ^ zero == LowByte(w);
    Step1(w, zero);
    XorZero(w);
    XorCommutes(w >> 8, ByteExtensionTable(LowByte(w)));
  }

  // STEP4W: a word that is already loaded, one byte at a time.
  method CombineWord(word: Word, l: Word) returns (w: Word)
    ensures w == Shift(Xor(l, word), 32)
  {
    hide Xor, Shift, LowByte, ByteExtensionTable;
    w := Xor(word, l);
    XorCommutes(word, l);
    ghost var w0 := w;
    ShiftNothing(w0);
    for i := 0 to 4
      invariant w == Shift(w0, 8 * i)
    {
      StepZero(w);
      ShiftCompose(w0, 8 * i, 8);
      w := Xor(w >> 8, ByteExtensionTable(LowByte(w)));
    }
  }

  lemma ShiftNothing(l: Word)
    ensures Shift(l, 0) == l
  {
  }

  // RoundUp<4>, for the offset of the first aligned byte.
  function AlignedOffset(address: nat): (x: nat)
    ensures x < 4 && (address + x) % 4 == 0
  {
    (address + 3) / 4 * 4 - address
  }

  // STEP1 until p reaches to.
  method ExtendBytes(ghost start: Word, data: seq<Byte>, from: nat, to: nat, l0: Word) returns (l: Word)
    requires from <= to <= |data| && l0 == Fold(start, data[..from])
    ensures l == Fold(start, data[..to])
  {
    hide Xor, Shift, Fold, ByteStep;
    l := l0;
    var p := from;
    while p != to
      invariant from <= p <= to && l == Fold(start, data[..p])
    {
      FoldNextByte(start, data, p);
      l := ByteStep(l, data[p]);
      p := p + 1;
    }
  }

  // The strided middle part: at least one swath, then words, until fewer than 4 bytes are left.
  method ExtendStrides(ghost start: Word, data: seq<Byte>, from: nat, l0: Word) returns (l: Word, p: nat)
    requires from + 16 <= |data| && l0 == Fold(start, data[..from])
    ensures from <= p <= |data| < p + 4 && l == Fold(start, data[..p])
  {
    hide Xor, Shift, Fold, Stride, WordAt, Combine;
    p := from;
    var crc0, crc1, crc2, crc3 := Xor(WordAt(data, p), l0), WordAt(data, p + 4), WordAt(data, p + 8), WordAt(data, p + 12);
    FoldNextSwath(start, data, p);
    p := p + 16;
    while |data| - p >= 16
      invariant from <= p <= |data|
      invariant Fold(start, data[..p]) == Combine(crc0, crc1, crc2, crc3)
    {
      FoldNextSwath(start, data, p);
      SwathStep(crc0, crc1, crc2, crc3, WordAt(data, p), WordAt(data, p + 4), WordAt(data, p + 8), WordAt(data, p + 12));
      StrideAdvances(WordAt(data, p), crc0);
      StrideAdvances(WordAt(data, p + 4), crc1);
      StrideAdvances(WordAt(data, p + 8), crc2);
      StrideAdvances(WordAt(data, p + 12), crc3);
      crc0 := Stride(WordAt(data, p), crc0);
      crc1 := Stride(WordAt(data, p + 4), crc1);
      crc2 := Stride(WordAt(data, p + 8), crc2);
      crc3 := Stride(WordAt(data, p + 12), crc3);
      p := p + 16;
    }
    while |data| - p >= 4
      invariant from <= p <= |data|
      invariant Fold(start, data[..p]) == Combine(crc0, crc1, crc2, crc3)
    {
      FoldNextWord(start, data, p);
      RotateStep(crc0, crc1, crc2, crc3, WordAt(data, p));
      StrideAdvances(WordAt(data, p), crc0);
      var tmp := Stride(WordAt(data, p), crc0);
      crc0 := crc1;
      crc1 := crc2;
      crc2 := crc3;
      crc3 := tmp;
      p := p + 4;
    }
    l := CombineAll(crc0, crc1, crc2, crc3);
  }

  method CombineAll(crc0: Word, crc1: Word, crc2: Word, crc3: Word) returns (l: Word)
    ensures l == Combine(crc0, crc1, crc2, crc3)
  {
    hide Xor, Shift;
    l := CombineWord(crc0, 0);
    XorZero(crc0);
    l := CombineWord(crc1, l);
    l := CombineWord(crc2, l);
    l := CombineWord(crc3, l);
  }

  // Extend: whatever the length and whatever the address of the first byte, this is the bit-by-bit CRC.
  method Extend(crc: Word, data: seq<Byte>, address: nat) returns (r: Word)
    ensures r == Crc(crc, data)
  {
    hide Xor, Shift, Fold;
    ghost var start := Xor(crc, ONES);
    var l := Xor(crc, ONES);
    var p, e := 0, |data|;
    FoldNothing(start);
    assert data[..0] == [];
    var x := AlignedOffset(address);
    if x <= e {
      l := ExtendBytes(start, data, p, x, l);
      p := x;
    }
    if e - p >= 16 {
      l, p := ExtendStrides(start, data, p, l);
    }
    l := ExtendBytes(start, data, p, e, l);
    assert data[..e] == data;
    r := Xor(l, ONES);
  }

  lemma FoldNothing(l: Word)
    ensures Fold(l, []) == l
  {
  }

  // ---- Masking ----

  // By 15 bits.
  function RotateRight(c: Word): Word {
    (c >> 15) | (c << 17)
  }

  function RotateLeft(c: Word): Word {
    (c >> 17) | (c << 15)
  }

  function Mask(crc: Word): Word {
    RotateRight(crc) + MASK_DELTA
  }

  function Unmask(masked: Word): Word {
    RotateLeft(masked - MASK_DELTA)
  }

  // Masking only rotates and adds, so each undoes the other.
  lemma MaskUnmask(crc: Word)
    ensures Unmask(Mask(crc)) == crc
    ensures Mask(Unmask(crc)) == crc
  {
    hide RotateRight, RotateLeft;
    AddBack(RotateRight(crc));
    RotateBack(crc);
    RotateForth(crc - MASK_DELTA);
    SubtractBack(crc);
  }

  // A masked checksum is the checksum turned right by 15 bits, plus a constant.
  lemma MaskIs(crc: Word)
    ensures Mask(crc) - 0xa282ead8 == crc.RotateRight(15)
  {
  }

  lemma RotateBack(c: Word)
    ensures RotateLeft(RotateRight(c)) == c
  {
  }

  lemma RotateForth(c: Word)
    ensures RotateRight(RotateLeft(c)) == c
  {
  }

  lemma AddBack(c: Word)
    ensures (c + MASK_DELTA) - MASK_DELTA == c
  {
  }

  lemma SubtractBack(c: Word)
    ensures (c - MASK_DELTA) + MASK_DELTA == c
  {
  }
}
