/** What the checksum detects, and a value of it that everybody knows. */
module CrcDetection {
  import opened Bytes
  import opened Crc32c

  // ---- No damage is forgotten ----

  lemma Shift1Injective(a: Word, b: Word)
    requires Shift1(a) == Shift1(b)
    ensures a == b
  {
  }

  lemma {:induction false} ShiftInjective(a: Word, b: Word, n: nat)
    requires Shift(a, n) == Shift(b, n)
    ensures a == b
    decreases n
  {
    hide Shift1;
    if n > 0 {
      ShiftInjective(Shift1(a), Shift1(b), n - 1);
      Shift1Injective(a, b);
    }
  }

  lemma XorInjective(a: Word, b: Word, c: Word)
    requires Xor(a, c) == Xor(b, c) || Xor(c, a) == Xor(c, b)
    ensures a == b
  {
  }

  // Registers that differ still differ after the same bytes.
  lemma {:induction false} FoldInjective(l: Word, m: Word, data: seq<Byte>)
    requires Fold(l, data) == Fold(m, data)
    ensures l == m
  {
    hide Xor, Shift;
    if data != [] {
      var n := |data| - 1;
      ShiftInjective(Xor(Fold(l, data[..n]), data[n] as Word), Xor(Fold(m, data[..n]), data[n] as Word), 8);
      XorInjective(Fold(l, data[..n]), Fold(m, data[..n]), data[n] as Word);
      FoldInjective(l, m, data[..n]);
    }
  }

  lemma WordInjective(a: seq<Byte>, b: seq<Byte>)
    requires |a| == |b| == 4 && ReadUint32LE(a[0], a[1], a[2], a[3]) == ReadUint32LE(b[0], b[1], b[2], b[3])
    ensures a == b
  {
    StoredBytes(a[0], a[1], a[2], a[3]);
    StoredBytes(b[0], b[1], b[2], b[3]);
  }

  lemma StoredBytes(b0: Byte, b1: Byte, b2: Byte, b3: Byte)
    ensures var w := ReadUint32LE(b0, b1, b2, b3);
            (w & 0xff) as Byte == b0 && ((w >> 8) & 0xff) as Byte == b1 && ((w >> 16) & 0xff) as Byte == b2 && (w >> 24) as Byte == b3
  {
  }

  lemma FoursInjective(l: Word, x: seq<Byte>, y: seq<Byte>)
    requires |x| == |y| == 4 && Fold(l, x) == Fold(l, y)
    ensures x == y
  {
    hide Fold, Shift, Xor, ReadUint32LE;
    FoldWord(l, [], x[0], x[1], x[2], x[3]);
    FoldWord(l, [], y[0], y[1], y[2], y[3]);
    assert [] + [x[0], x[1], x[2], x[3]] == x && [] + [y[0], y[1], y[2], y[3]] == y;
    var wx, wy := ReadUint32LE(x[0], x[1], x[2], x[3]), ReadUint32LE(y[0], y[1], y[2], y[3]);
    ShiftInjective(Xor(Fold(l, []), wx), Xor(Fold(l, []), wy), 32);
    XorInjective(wx, wy, Fold(l, []));
    WordInjective(x, y);
  }

  lemma FewInjective(l: Word, x: seq<Byte>, y: seq<Byte>)
    requires |x| == |y| <= 4 && Fold(l, x) == Fold(l, y)
    ensures x == y
  {
    hide Fold;
    var zeros: seq<Byte> := seq(4 - |x|, _ => 0);
    FoldConcat(l, x, zeros);
    FoldConcat(l, y, zeros);
    FoursInjective(l, x + zeros, y + zeros);
    assert x == (x + zeros)[..|x|] && y == (y + zeros)[..|x|];
  }

  // Damage within four consecutive bytes, wherever they are, changes the checksum.
  lemma DamageChangesCrc(crc: Word, a: seq<Byte>, x: seq<Byte>, y: seq<Byte>, b: seq<Byte>)
    requires |x| == |y| <= 4 && x != y
    ensures Crc(crc, a + x + b) != Crc(crc, a + y + b)
  {
    hide Fold, Xor;
    var l := Xor(crc, ONES);
    if Crc(crc, a + x + b) == Crc(crc, a + y + b) {
      XorInjective(Fold(l, a + x + b), Fold(l, a + y + b), ONES);
      FoldConcat(l, a + x, b);
      FoldConcat(l, a + y, b);
      FoldInjective(Fold(l, a + x), Fold(l, a + y), b);
      FoldConcat(l, a, x);
      FoldConcat(l, a, y);
      FewInjective(Fold(l, a), x, y);
    }
  }

  // ---- The check value of CRC-32C: the digits from 1 to 9, four bits at a time ----

  lemma Digit1()
    ensures Shift(Xor(0xffffffff, 0x31), 4) == 0xeccf57e6 && Shift(0xeccf57e6, 4) == 0x6f0a661c
  {
    assert Shift(Xor(0xffffffff, 0x31), 2) == 0xbd09c48b && Shift(0xbd09c48b, 2) == 0xeccf57e6;
    assert Shift(0xeccf57e6, 2) == 0xb9c5ee81 && Shift(0xb9c5ee81, 2) == 0x6f0a661c;
    hide *;
    ShiftCompose(Xor(0xffffffff, 0x31), 2, 2);
    ShiftCompose(0xeccf57e6, 2, 2);
  }

  lemma Digit2()
    ensures Shift(Xor(0x6f0a661c, 0x32), 4) == 0xe5c00e78 && Shift(0xe5c00e78, 4) == 0x8caa3b9f
  {
    assert Shift(Xor(0x6f0a661c, 0x32), 2) == 0x9934a2f3 && Shift(0x9934a2f3, 2) == 0xe5c00e78;
    assert Shift(0xe5c00e78, 2) == 0x3970039e && Shift(0x3970039e, 2) == 0x8caa3b9f;
    hide *;
    ShiftCompose(Xor(0x6f0a661c, 0x32), 2, 2);
    ShiftCompose(0xe5c00e78, 2, 2);
  }

  lemma Digit3()
    ensures Shift(Xor(0x8caa3b9f, 0x33), 4) == 0xcb47857e && Shift(0xcb47857e, 4) == 0xef84d04d
  {
    assert Shift(Xor(0x8caa3b9f, 0x33), 2) == 0x232a8eeb && Shift(0x232a8eeb, 2) == 0xcb47857e;
    assert Shift(0xcb47857e, 2) == 0xb027da27 && Shift(0xb027da27, 2) == 0xef84d04d;
    hide *;
    ShiftCompose(Xor(0x8caa3b9f, 0x33), 2, 2);
    ShiftCompose(0xcb47857e, 2, 2);
  }

  lemma Digit4()
    ensures Shift(Xor(0xef84d04d, 0x34), 4) == 0x9c50b110 && Shift(0x9c50b110, 4) == 0x09c50b11
  {
    assert Shift(Xor(0xef84d04d, 0x34), 2) == 0x7a9a29a2 && Shift(0x7a9a29a2, 2) == 0x9c50b110;
    assert Shift(0x9c50b110, 2) == 0x27142c44 && Shift(0x27142c44, 2) == 0x09c50b11;
    hide *;
    ShiftCompose(Xor(0xef84d04d, 0x34), 2, 2);
    ShiftCompose(0x9c50b110, 2, 2);
  }

  lemma Digit5()
    ensures Shift(Xor(0x09c50b11, 0x35), 4) == 0x41e74d0e && Shift(0x41e74d0e, 4) == 0xe72edcca
  {
    assert Shift(Xor(0x09c50b11, 0x35), 2) == 0x027142c9 && Shift(0x027142c9, 2) == 0x41e74d0e;
    assert Shift(0x41e74d0e, 2) == 0x928fe83b && Shift(0x928fe83b, 2) == 0xe72edcca;
    hide *;
    ShiftCompose(Xor(0x09c50b11, 0x35), 2, 2);
    ShiftCompose(0x41e74d0e, 2, 2);
  }

  lemma Digit6()
    ensures Shift(Xor(0xe72edcca, 0x36), 4) == 0xcdffcb0b && Shift(0xcdffcb0b, 4) == 0xbeca8e79
  {
    assert Shift(Xor(0xe72edcca, 0x36), 2) == 0x39cbb73f && Shift(0x39cbb73f, 2) == 0xcdffcb0b;
    assert Shift(0xcdffcb0b, 2) == 0xf0f2d406 && Shift(0xf0f2d406, 2) == 0xbeca8e79;
    hide *;
    ShiftCompose(Xor(0xe72edcca, 0x36), 2, 2);
    ShiftCompose(0xcdffcb0b, 2, 2);
  }

  lemma Digit7()
    ensures Shift(Xor(0xbeca8e79, 0x37), 4) == 0xe8dc00fe && Shift(0xe8dc00fe, 4) == 0xedbd6815
  {
    assert Shift(Xor(0xbeca8e79, 0x37), 2) == 0xad4498eb && Shift(0xad4498eb, 2) == 0xe8dc00fe;
    assert Shift(0xe8dc00fe, 2) == 0xb8c13b47 && Shift(0xb8c13b47, 2) == 0xedbd6815;
    hide *;
    ShiftCompose(Xor(0xbeca8e79, 0x37), 2, 2);
    ShiftCompose(0xe8dc00fe, 2, 2);
  }

  lemma Digit8()
    ensures Shift(Xor(0xedbd6815, 0x38), 4) == 0xdd083729 && Shift(0xdd083729, 4) == 0x9f787f65
  {
    assert Shift(Xor(0xedbd6815, 0x38), 2) == 0x7a1447b7 && Shift(0x7a1447b7, 2) == 0xdd083729;
    assert Shift(0xdd083729, 2) == 0x76391076 && Shift(0x76391076, 2) == 0x9f787f65;
    hide *;
    ShiftCompose(Xor(0xedbd6815, 0x38), 2, 2);
    ShiftCompose(0xdd083729, 2, 2);
  }

  lemma Digit9()
    ensures Shift(Xor(0x9f787f65, 0x39), 4) == 0xca7aa131 && Shift(0xca7aa131, 4) == 0x1cf96d7c
  {
    assert Shift(Xor(0x9f787f65, 0x39), 2) == 0x27de1fd7 && Shift(0x27de1fd7, 2) == 0xca7aa131;
    assert Shift(0xca7aa131, 2) == 0x73e5b5f0 && Shift(0x73e5b5f0, 2) == 0x1cf96d7c;
    hide *;
    ShiftCompose(Xor(0x9f787f65, 0x39), 2, 2);
    ShiftCompose(0xca7aa131, 2, 2);
  }

  // The register after one more digit.
  lemma NextDigit(data: seq<Byte>, b: Byte, l: Word, half: Word, next: Word)
    requires Fold(ONES, data) == l && Shift(Xor(l, b as Word), 4) == half && Shift(half, 4) == next
    ensures Fold(ONES, data + [b]) == next
  {
    hide Fold, Shift, Xor;
    FoldStep(ONES, data, b);
    ShiftCompose(Xor(l, b as Word), 4, 4);
  }

  lemma CheckValue()
    ensures Value([0x31, 0x32, 0x33, 0x34, 0x35, 0x36, 0x37, 0x38, 0x39]) == 0xe3069283
  {
    hide Fold, Shift;
    FoldNothing(ONES);
    var digits: seq<Byte> := [0x31, 0x32, 0x33, 0x34, 0x35, 0x36, 0x37, 0x38, 0x39];
    assert digits[..0] == [];
    Digit1();
    assert digits[..1] == digits[..0] + [0x31];
    NextDigit(digits[..0], 0x31, 0xffffffff, 0xeccf57e6, 0x6f0a661c);
    Digit2();
    assert digits[..2] == digits[..1] + [0x32];
    NextDigit(digits[..1], 0x32, 0x6f0a661c, 0xe5c00e78, 0x8caa3b9f);
    Digit3();
    assert digits[..3] == digits[..2] + [0x33];
    NextDigit(digits[..2], 0x33, 0x8caa3b9f, 0xcb47857e, 0xef84d04d);
    Digit4();
    assert digits[..4] == digits[..3] + [0x34];
    NextDigit(digits[..3], 0x34, 0xef84d04d, 0x9c50b110, 0x09c50b11);
    Digit5();
    assert digits[..5] == digits[..4] + [0x35];
    NextDigit(digits[..4], 0x35, 0x09c50b11, 0x41e74d0e, 0xe72edcca);
    Digit6();
    assert digits[..6] == digits[..5] + [0x36];
    NextDigit(digits[..5], 0x36, 0xe72edcca, 0xcdffcb0b, 0xbeca8e79);
    Digit7();
    assert digits[..7] == digits[..6] + [0x37];
    NextDigit(digits[..6], 0x37, 0xbeca8e79, 0xe8dc00fe, 0xedbd6815);
    Digit8();
    assert digits[..8] == digits[..7] + [0x38];
    NextDigit(digits[..7], 0x38, 0xedbd6815, 0xdd083729, 0x9f787f65);
    Digit9();
    assert digits[..9] == digits[..8] + [0x39];
    NextDigit(digits[..8], 0x39, 0x9f787f65, 0xca7aa131, 0x1cf96d7c);
    assert digits[..9] == digits;
  }
}
