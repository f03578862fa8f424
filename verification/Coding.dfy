/** util/coding.cc: fixed-length and variable-length numbers, and strings with their length in front. */
module Coding {
  import opened Bytes

  const TWO_32: nat := 0x1_0000_0000
  const TWO_64: nat := 0x1_0000_0000_0000_0000

  datatype Parsed<T> = Failed | Parsed(value: T, rest: seq<Byte>)

  // ---- Fixed-length numbers, least significant byte first ----

  function Fixed(v: nat, n: nat): (s: seq<Byte>)
    ensures |s| == n
    decreases n
  {
    if n == 0 then [] else [EncodeByte(v % 256)] + Fixed(v / 256, n - 1)
  }

  function FromFixed(s: seq<Byte>): nat {
    if s == [] then 0 else DecodeByte(s[0]) + 256 * FromFixed(s[1..])
  }

  function Power(base: nat, n: nat): (p: nat)
    requires base > 0
    ensures p > 0
    decreases n
  {
    if n == 0 then 1 else base * Power(base, n - 1)
  }

  lemma {:induction false} FixedRoundTrip(v: nat, n: nat)
    requires v < Power(256, n)
    ensures FromFixed(Fixed(v, n)) == v
    decreases n
  {
    hide EncodeByte, DecodeByte;
    if n > 0 {
      assert v / 256 < Power(256, n - 1);
      FixedRoundTrip(v / 256, n - 1);
      ByteRoundTrip(v % 256);
      assert Fixed(v, n)[1..] == Fixed(v / 256, n - 1);
    }
  }

  // Several fixed32 numbers, one behind the other.
  function FixedArray(vs: seq<nat>): (s: seq<Byte>)
    ensures |s| == 4 * |vs|
  {
    if vs == [] then [] else FixedArray(vs[..|vs| - 1]) + Fixed(vs[|vs| - 1], 4)
  }

  lemma {:induction false} FixedArrayAt(vs: seq<nat>, i: nat)
    requires i < |vs|
    ensures FixedArray(vs)[4 * i..4 * i + 4] == Fixed(vs[i], 4)
  {
    hide Fixed;
    var n := |vs| - 1;
    if i < n {
      FixedArrayAt(vs[..n], i);
      var front := FixedArray(vs[..n]);
      assert FixedArray(vs)[4 * i..4 * i + 4] == front[4 * i..4 * i + 4];
    }
  }

  lemma PowersOf256()
    ensures Power(256, 4) == TWO_32 && Power(256, 8) == TWO_64
  {
    assert Power(256, 2) == 0x1_0000 && Power(256, 3) == 0x100_0000;
    assert Power(256, 6) == 0x1_0000_0000_0000;
  }

  // ---- Multiples ----

  lemma Difference(a: int, b: int, q: int, r: int)
    requires a * q == b * q + r && -q < r < q
    ensures a == b
  {
    if a < b {
      Apart(b - a, a, q);
    } else if a > b {
      Apart(a - b, b, q);
    }
  }

  lemma Apart(n: int, b: int, q: int)
    requires n >= 1 && q >= 1
    ensures (b + n) * q >= b * q + q
  {
    assert (b + n) * q == b * q + n * q;
    assert n * q == (n - 1) * q + q;
  }

  // ---- Variable-length numbers ----

  // Groups of seven bits, the lowest first; every byte but the last has its high bit set.
  function Varint(v: nat): (s: seq<Byte>)
    ensures |s| > 0
  {
    if v < 128 then [EncodeByte(v)] else [EncodeByte(128 + v % 128)] + Varint(v / 128)
  }

  // The number at the front, of at most n bytes.
  function ParseVarint(s: seq<Byte>, n: nat): (p: Parsed<nat>)
    ensures p.Parsed? ==> |p.rest| < |s|
    decreases n
  {
    if n == 0 || s == [] then Failed
    else
      var byte := DecodeByte(s[0]);
      if byte < 128 then Parsed(byte, s[1..])
      else
        match ParseVarint(s[1..], n - 1)
        case Failed => Failed
        case Parsed(v, rest) => Parsed(byte - 128 + 128 * v, rest)
  }

  lemma {:induction false} VarintRoundTrip(v: nat, n: nat, rest: seq<Byte>)
    requires n > 0 && v < Power(128, n)
    ensures ParseVarint(Varint(v) + rest, n) == Parsed(v, rest)
    decreases n
  {
    hide EncodeByte, DecodeByte;
    var s := Varint(v) + rest;
    if v < 128 {
      ByteRoundTrip(v);
      assert s[1..] == rest;
    } else {
      assert v / 128 < Power(128, n - 1);
      assert n - 1 > 0;
      ByteRoundTrip(128 + v % 128);
      assert s[1..] == Varint(v / 128) + rest;
      VarintRoundTrip(v / 128, n - 1, rest);
    }
  }

  function Truncated(p: Parsed<nat>, modulus: nat): Parsed<nat>
    requires modulus > 0
  {
    match p
    case Failed => Failed
    case Parsed(v, rest) => Parsed(v % modulus, rest)
  }

  // What the readers make of it: five bytes in 32 bits, or ten in 64.
  function Varint32At(s: seq<Byte>): Parsed<nat> {
    Truncated(ParseVarint(s, 5), TWO_32)
  }

  function Varint64At(s: seq<Byte>): Parsed<nat> {
    Truncated(ParseVarint(s, 10), TWO_64)
  }

  lemma Varint32RoundTrip(v: nat, rest: seq<Byte>)
    requires v < TWO_32
    ensures Varint32At(Varint(v) + rest) == Parsed(v, rest)
  {
    hide Varint, ParseVarint;
    PowersOf128();
    VarintRoundTrip(v, 5, rest);
  }

  lemma Varint64RoundTrip(v: nat, rest: seq<Byte>)
    requires v < TWO_64
    ensures Varint64At(Varint(v) + rest) == Parsed(v, rest)
  {
    hide Varint, ParseVarint;
    PowersOf128();
    VarintRoundTrip(v, 10, rest);
  }

  lemma PowersOf128()
    ensures Power(128, 5) == 0x8_0000_0000 && Power(128, 10) == 0x40_0000_0000_0000_0000
  {
    assert Power(128, 2) == 0x4000 && Power(128, 4) == 0x1000_0000 && Power(128, 5) == 0x8_0000_0000;
    assert Power(128, 7) == 0x2_0000_0000_0000 && Power(128, 9) == 0x8000_0000_0000_0000;
  }

  // EncodeVarint32, by cases.
  method PutVarint32(dst: seq<Byte>, v: nat) returns (dst': seq<Byte>)
    requires v < TWO_32
    ensures dst' == dst + Varint(v)
  {
    hide EncodeByte;
    var buf;
    if v < 0x80 {
      buf := [EncodeByte(v)];
    } else if v < 0x4000 {
      buf := [EncodeByte(128 + v % 128), EncodeByte(v / 0x80)];
    } else if v < 0x20_0000 {
      buf := [EncodeByte(128 + v % 128), EncodeByte(128 + v / 0x80 % 128), EncodeByte(v / 0x4000)];
    } else if v < 0x1000_0000 {
      buf := [EncodeByte(128 + v % 128), EncodeByte(128 + v / 0x80 % 128), EncodeByte(128 + v / 0x4000 % 128),
              EncodeByte(v / 0x20_0000)];
    } else {
      buf := [EncodeByte(128 + v % 128), EncodeByte(128 + v / 0x80 % 128), EncodeByte(128 + v / 0x4000 % 128),
              EncodeByte(128 + v / 0x20_0000 % 128), EncodeByte(v / 0x1000_0000)];
    }
    VarintByCases(v);
    dst' := dst + buf;
  }

  lemma VarintByCases(v: nat)
    requires v < TWO_32
    ensures Varint(v)
            == if v < 0x80 then [EncodeByte(v)]
               else [EncodeByte(128 + v % 128)]
                    + if v < 0x4000 then [EncodeByte(v / 0x80)]
                      else [EncodeByte(128 + v / 0x80 % 128)]
                           + if v < 0x20_0000 then [EncodeByte(v / 0x4000)]
                             else [EncodeByte(128 + v / 0x4000 % 128)]
                                  + if v < 0x1000_0000 then [EncodeByte(v / 0x20_0000)]
                                    else [EncodeByte(128 + v / 0x20_0000 % 128), EncodeByte(v / 0x1000_0000)]
  {
    hide EncodeByte;
    assert v / 0x80 / 128 == v / 0x4000 && v / 0x4000 / 128 == v / 0x20_0000 && v / 0x20_0000 / 128 == v / 0x1000_0000;
    assert Varint(v / 0x1000_0000) == [EncodeByte(v / 0x1000_0000)];
    assert Varint(v / 0x20_0000) == if v < 0x1000_0000 then [EncodeByte(v / 0x20_0000)] else [EncodeByte(128 + v / 0x20_0000 % 128)] + Varint(v / 0x1000_0000);
    assert Varint(v / 0x4000) == if v < 0x20_0000 then [EncodeByte(v / 0x4000)] else [EncodeByte(128 + v / 0x4000 % 128)] + Varint(v / 0x20_0000);
    assert Varint(v / 0x80) == if v < 0x4000 then [EncodeByte(v / 0x80)] else [EncodeByte(128 + v / 0x80 % 128)] + Varint(v / 0x4000);
  }

  // EncodeVarint64, with a loop.
  method PutVarint64(dst: seq<Byte>, value: nat) returns (dst': seq<Byte>)
    ensures dst' == dst + Varint(value)
  {
    hide EncodeByte;
    var v := value;
    dst' := dst;
    while v >= 128
      invariant dst' + Varint(v) == dst + Varint(value)
    {
      assert dst' + Varint(v) == dst' + [EncodeByte(128 + v % 128)] + Varint(v / 128);
      dst' := dst' + [EncodeByte(128 + v % 128)];
      v := v / 128;
    }
    dst' := dst' + [EncodeByte(v)];
  }

  // A number whose lower groups were read already.
  function Scaled(low: nat, scale: nat, p: Parsed<nat>): Parsed<nat> {
    match p
    case Failed => Failed
    case Parsed(v, rest) => Parsed(low + v * scale, rest)
  }

  lemma NextGroup(low: nat, scale: nat, s: seq<Byte>, n: nat)
    ensures n == 0 || s == [] ==> Scaled(low, scale, ParseVarint(s, n)) == Failed
    ensures n > 0 && s != [] ==>
              var byte := DecodeByte(s[0]);
              Scaled(low, scale, ParseVarint(s, n))
              == if byte < 128 then Parsed(low + byte * scale, s[1..])
                 else Scaled(low + (byte - 128) * scale, scale * 128, ParseVarint(s[1..], n - 1))
  {
    hide DecodeByte;
    if n > 0 && s != [] {
      var byte, p := DecodeByte(s[0]), ParseVarint(s[1..], n - 1);
      if byte >= 128 && p.Parsed? {
        Regroup(low, byte - 128, p.value, scale);
      }
    }
  }

  lemma Regroup(low: nat, group: nat, v: nat, scale: nat)
    ensures low + (group + 128 * v) * scale == low + group * scale + v * (scale * 128)
  {
  }

  // The loop of the two pointer readers: at most `groups` bytes, into a register of this size.
  method ReadGroups(input: seq<Byte>, groups: nat, modulus: nat) returns (p: Parsed<nat>)
    requires groups > 0 && modulus >= Power(128, groups - 1)
    ensures p == Truncated(ParseVarint(input, groups), modulus)
  {
    hide *;
    var result: nat, scale: nat, i, rest := 0, 1, 0, input;
    FirstGroup(ParseVarint(input, groups), groups);
    while i < groups && rest != []
      invariant i <= groups && scale == Power(128, i) && (i < groups ==> result < scale <= modulus)
      invariant i < groups ==> ParseVarint(input, groups) == Scaled(result, scale, ParseVarint(rest, groups - i))
      invariant i == groups ==> ParseVarint(input, groups) == Failed
    {
      var byte := DecodeByte(rest[0]);
      NextGroup(result, scale, rest, groups - i);
      if byte < 128 {
        FitsRegister(result + byte * scale, rest[1..], modulus);
        return Parsed((result + byte * scale) % modulus, rest[1..]);
      }
      StaysSmall(result, byte - 128, scale, i, groups);
      LastGroup(result + (byte - 128) * scale, scale * 128, rest[1..]);
      result := Truncate(result + (byte - 128) * scale, modulus);
      rest := rest[1..];
      scale := scale * 128;
      i := i + 1;
    }
    if i < groups {
      NextGroup(result, scale, rest, groups - i);
    }
    NothingRead(modulus);
    p := Failed;
  }

  function Truncate(v: nat, modulus: nat): (r: nat)
    requires modulus > 0
    ensures r < modulus && (v < modulus ==> r == v)
  {
    v % modulus
  }

  lemma FitsRegister(v: nat, rest: seq<Byte>, modulus: nat)
    requires modulus > 0
    ensures Truncated(Parsed(v, rest), modulus) == Parsed(v % modulus, rest)
  {
  }

  lemma NothingRead(modulus: nat)
    requires modulus > 0
    ensures Truncated(Failed, modulus) == Failed
  {
  }

  lemma FirstGroup(p: Parsed<nat>, groups: nat)
    ensures Scaled(0, 1, p) == p && Power(128, 0) == 1
    ensures groups > 0 ==> 1 <= Power(128, groups - 1)
  {
  }

  lemma LastGroup(low: nat, scale: nat, s: seq<Byte>)
    ensures Scaled(low, scale, ParseVarint(s, 0)) == Failed
  {
  }

  lemma StaysSmall(low: nat, group: nat, scale: nat, i: nat, groups: nat)
    requires i < groups && low < scale == Power(128, i) && group < 128
    ensures low + group * scale < scale * 128 == Power(128, i + 1)
    ensures i + 1 < groups ==> scale * 128 <= Power(128, groups - 1)
  {
    assert group * scale <= 127 * scale;
    if i + 1 < groups {
      PowerGrows(128, i + 1, groups - 1);
    }
  }

  lemma {:induction false} PowerGrows(base: nat, m: nat, n: nat)
    requires base > 0 && m <= n
    ensures Power(base, m) <= Power(base, n)
    decreases n
  {
    if m < n {
      PowerGrows(base, m, n - 1);
    }
  }

  method GetVarint32(input: seq<Byte>) returns (p: Parsed<nat>)
    ensures p == Varint32At(input)
  {
    hide DecodeByte;
    if input != [] {
      var byte := DecodeByte(input[0]);
      if byte < 128 {
        return Parsed(byte, input[1..]);
      }
    }
    PowersOf128();
    p := ReadGroups(input, 5, TWO_32);
  }

  method GetVarint64(input: seq<Byte>) returns (p: Parsed<nat>)
    ensures p == Varint64At(input)
  {
    PowersOf128();
    p := ReadGroups(input, 10, TWO_64);
  }

  // ---- Strings ----

  function Prefixed(value: seq<Byte>): seq<Byte> {
    Varint(|value|) + value
  }

  function PrefixedAt(s: seq<Byte>): (p: Parsed<seq<Byte>>)
    ensures p.Parsed? ==> |p.rest| < |s|
  {
    match Varint32At(s)
    case Failed => Failed
    case Parsed(n, rest) => if n <= |rest| then Parsed(rest[..n], rest[n..]) else Failed
  }

  lemma PrefixedRoundTrip(value: seq<Byte>, rest: seq<Byte>)
    requires |value| < TWO_32
    ensures PrefixedAt(Prefixed(value) + rest) == Parsed(value, rest)
  {
    hide Varint, ParseVarint;
    Varint32RoundTrip(|value|, value + rest);
    assert Prefixed(value) + rest == Varint(|value|) + (value + rest);
    assert (value + rest)[..|value|] == value && (value + rest)[|value|..] == rest;
  }

  method PutLengthPrefixedSlice(dst: seq<Byte>, value: seq<Byte>) returns (dst': seq<Byte>)
    requires |value| < TWO_32
    ensures dst' == dst + Prefixed(value)
  {
    dst' := PutVarint32(dst, |value|);
    dst' := dst' + value;
  }

  method GetLengthPrefixedSlice(input: seq<Byte>) returns (p: Parsed<seq<Byte>>)
    ensures p == PrefixedAt(input)
  {
    var length := GetVarint32(input);
    if length.Parsed? && |length.rest| >= length.value {
      return Parsed(length.rest[..length.value], length.rest[length.value..]);
    }
    p := Failed;
  }
}
