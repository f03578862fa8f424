/** util/bloom.cc: the Bloom filter of a set of keys. Its hash function is a parameter. */
module Blooms {
  import opened Bytes

  type Word = bv32

  // ---- Bits ----

  function BitMask(i: nat): Byte
    requires i < 8
  {
    1 << i
  }

  lemma MaskIsSomething(i: nat)
    requires i < 8
    ensures BitMask(i) != 0
  {
    assert i == 0 || i == 1 || i == 2 || i == 3 || i == 4 || i == 5 || i == 6 || i == 7;
  }

  lemma MasksApart(i: nat, j: nat)
    requires i < 8 && j < 8 && i != j
    ensures BitMask(i) & BitMask(j) == 0
  {
    assert i == 0 || i == 1 || i == 2 || i == 3 || i == 4 || i == 5 || i == 6 || i == 7;
    assert j == 0 || j == 1 || j == 2 || j == 3 || j == 4 || j == 5 || j == 6 || j == 7;
  }

  lemma OrBits(x: Byte, m: Byte, n: Byte)
    ensures (x | m) & n == (x & n) | (m & n)
    ensures m & m == m && x | 0 == x && (m != 0 ==> x | m != 0)
  {
  }

  predicate IsSet(bits: seq<Byte>, p: nat)
    requires p < 8 * |bits|
  {
    bits[p / 8] & BitMask(p % 8) != 0
  }

  function SetBit(bits: seq<Byte>, p: nat): (r: seq<Byte>)
    requires p < 8 * |bits|
    ensures |r| == |bits|
  {
    bits[p / 8 := bits[p / 8] | BitMask(p % 8)]
  }

  lemma SetBitSets(bits: seq<Byte>, p: nat, q: nat)
    requires p < 8 * |bits| && q < 8 * |bits|
    ensures IsSet(SetBit(bits, p), q) <==> p == q || IsSet(bits, q)
  {
    hide BitMask;
    if p / 8 == q / 8 {
      OrBits(bits[p / 8], BitMask(p % 8), BitMask(q % 8));
      MaskIsSomething(p % 8);
      if p != q {
        MasksApart(p % 8, q % 8);
      }
    }
  }

  // ---- Probes ----

  function RotateRight17(h: Word): Word {
    (h >> 17) | (h << 15)
  }

  function Add(a: Word, b: Word): Word {
    a + b
  }

  // The j-th hash value of double hashing.
  function Probe(h: Word, delta: Word, j: nat): Word {
    if j == 0 then h else Add(Probe(h, delta, j - 1), delta)
  }

  function Remainder(h: Word, bits: nat): (p: nat)
    requires bits > 0
    ensures p < bits
  {
    Modulo(h as nat, bits)
  }

  function Modulo(n: nat, d: nat): (r: nat)
    requires d > 0
    ensures r < d && n == n / d * d + r
  {
    n % d
  }

  function Position(hash: seq<Byte> -> Word, key: seq<Byte>, j: nat, bits: nat): (p: nat)
    requires bits > 0
    ensures p < bits
  {
    Remainder(Probe(hash(key), RotateRight17(hash(key)), j), bits)
  }

  ghost predicate Hits(hash: seq<Byte> -> Word, key: seq<Byte>, k: nat, bits: nat, p: nat)
    requires bits > 0
  {
    exists j: nat :: j < k && p == Position(hash, key, j, bits)
  }

  // The bits of a filter are exactly the positions of its keys.
  ghost predicate Probed(hash: seq<Byte> -> Word, k: nat, keys: seq<seq<Byte>>, bits: nat, p: nat)
    requires bits > 0
  {
    exists key :: key in keys && Hits(hash, key, k, bits, p)
  }

  ghost predicate AllSet(hash: seq<Byte> -> Word, key: seq<Byte>, k: nat, array_: seq<Byte>, bits: nat)
    requires bits == 8 * |array_| > 0
  {
    forall j: nat :: j < k ==> IsSet(array_, Position(hash, key, j, bits))
  }

  ghost predicate IsArray(hash: seq<Byte> -> Word, k: nat, keys: seq<seq<Byte>>, array_: seq<Byte>) {
    |array_| > 0 && forall p: nat :: p < 8 * |array_| ==> (IsSet(array_, p) <==> Probed(hash, k, keys, 8 * |array_|, p))
  }

  function FilterBytes(n: nat, bitsPerKey: nat): (bytes: nat)
    ensures bytes >= 8
  {
    var bits := if n * bitsPerKey < 64 then 64 else n * bitsPerKey;
    (bits + 7) / 8
  }

  ghost predicate IsFilter(hash: seq<Byte> -> Word, k: nat, bitsPerKey: nat, keys: seq<seq<Byte>>, filter: seq<Byte>) {
    && 1 <= k <= 30 && |filter| == FilterBytes(|keys|, bitsPerKey) + 1
    && IsArray(hash, k, keys, filter[..|filter| - 1]) && filter[|filter| - 1] == EncodeByte(k)
  }

  // ---- The policy ----

  // BloomFilterPolicy. The number of probes, k, was computed from bitsPerKey and clipped to 1 and 30.
  class BloomFilterPolicy {
    const hash: seq<Byte> -> Word
    const bitsPerKey: nat
    const k: nat

    constructor (hash: seq<Byte> -> Word, bitsPerKey: nat, k: nat)
      requires 1 <= k <= 30
      ensures this.hash == hash && this.bitsPerKey == bitsPerKey && this.k == k
    {
      this.hash, this.bitsPerKey, this.k := hash, bitsPerKey, k;
    }

    // The probes of one key.
    method SetKey(key: seq<Byte>, bits: seq<Byte>) returns (array_: seq<Byte>)
      requires |bits| > 0
      ensures |array_| == |bits|
      ensures forall p: nat :: p < 8 * |bits| ==> (IsSet(array_, p) <==> IsSet(bits, p) || Hits(hash, key, k, 8 * |bits|, p))
    {
      hide IsSet, SetBit, Hits, Position, Probe, RotateRight17, Remainder;
      array_ := bits;
      var n := 8 * |bits|;
      var h := hash(key);
      var delta := RotateRight17(h);
      ProbeStarts(h, delta);
      NoHits(hash, key, n);
      for j := 0 to k
        invariant |array_| == |bits| && h == Probe(hash(key), delta, j)
        invariant forall p: nat :: p < n ==> (IsSet(array_, p) <==> IsSet(bits, p) || Hits(hash, key, j, n, p))
      {
        var bitpos := Remainder(h, n);
        OneMoreHit(hash, key, j, n);
        forall p: nat | p < n ensures IsSet(SetBit(array_, bitpos), p) <==> bitpos == p || IsSet(array_, p) {
          SetBitSets(array_, bitpos, p);
        }
        array_ := SetBit(array_, bitpos);
        h := Add(h, delta);
        ProbeNext(hash(key), delta, j);
      }
    }

    method CreateFilter(keys: seq<seq<Byte>>, dst: seq<Byte>) returns (dst': seq<Byte>)
      requires 1 <= k <= 30
      ensures dst <= dst' && IsFilter(hash, k, bitsPerKey, keys, dst'[|dst|..])
    {
      hide IsSet, EncodeByte, Hits, Probed;
      var bytes := FilterBytes(|keys|, bitsPerKey);
      var array_: seq<Byte> := seq(bytes, _ => 0);
      NothingSet(array_);
      NoneProbed(hash, k, 8 * |array_|);
      assert keys[..0] == [];
      for i := 0 to |keys|
        invariant |array_| == bytes && IsArray(hash, k, keys[..i], array_)
      {
        KeyProbed(hash, k, keys, i, 8 * bytes);
        array_ := SetKey(keys[i], array_);
      }
      assert keys[..|keys|] == keys;
      dst' := dst + array_ + [EncodeByte(k)];
      assert dst'[|dst|..] == array_ + [EncodeByte(k)];
      assert (array_ + [EncodeByte(k)])[..bytes] == array_;
    }

    method KeyMayMatch(key: seq<Byte>, filter: seq<Byte>) returns (match_: bool)
      ensures match_ == MayMatch(hash, key, filter)
    {
      hide IsSet, DecodeByte, Probe, RotateRight17, Position, Remainder, Add;
      if |filter| < 2 {
        return false;
      }
      var array_ := filter[..|filter| - 1];
      var bits := (|filter| - 1) * 8;
      var probes := DecodeByte(filter[|filter| - 1]);
      if probes > 30 {
        return true;
      }
      var h := hash(key);
      var delta := RotateRight17(h);
      ProbeStarts(h, delta);
      for j := 0 to probes
        invariant h == Probe(hash(key), delta, j) && AllSet(hash, key, j, array_, bits)
      {
        var bitpos := Remainder(h, bits);
        PositionIs(hash, key, j, bits);
        if !IsSet(array_, bitpos) {
          return false;
        }
        h := Add(h, delta);
        ProbeNext(hash(key), delta, j);
      }
      match_ := true;
    }
  }

  ghost predicate MayMatch(hash: seq<Byte> -> Word, key: seq<Byte>, filter: seq<Byte>) {
    if |filter| < 2 then false
    else
      var k := DecodeByte(filter[|filter| - 1]);
      k > 30 || AllSet(hash, key, k, filter[..|filter| - 1], (|filter| - 1) * 8)
  }

  lemma NoHits(hash: seq<Byte> -> Word, key: seq<Byte>, bits: nat)
    requires bits > 0
    ensures forall p: nat :: !Hits(hash, key, 0, bits, p)
  {
  }

  lemma OneMoreHit(hash: seq<Byte> -> Word, key: seq<Byte>, j: nat, bits: nat)
    requires bits > 0
    ensures forall p: nat :: Hits(hash, key, j + 1, bits, p) <==> Hits(hash, key, j, bits, p) || p == Position(hash, key, j, bits)
    ensures Position(hash, key, j, bits) == Remainder(Probe(hash(key), RotateRight17(hash(key)), j), bits)
  {
    PositionIs(hash, key, j, bits);
    hide Position;
    forall p: nat ensures Hits(hash, key, j + 1, bits, p) <==> Hits(hash, key, j, bits, p) || p == Position(hash, key, j, bits) {
      if Hits(hash, key, j + 1, bits, p) {
        var i: nat :| i < j + 1 && p == Position(hash, key, i, bits);
      }
    }
  }

  lemma NoneProbed(hash: seq<Byte> -> Word, k: nat, bits: nat)
    requires bits > 0
    ensures forall p: nat :: !Probed(hash, k, [], bits, p)
  {
  }

  lemma NothingSet(array_: seq<Byte>)
    requires forall i :: 0 <= i < |array_| ==> array_[i] == 0
    ensures forall p: nat :: p < 8 * |array_| ==> !IsSet(array_, p)
  {
    hide BitMask;
    forall p: nat | p < 8 * |array_| ensures !IsSet(array_, p) {
      NoBits(BitMask(p % 8));
    }
  }

  lemma NoBits(m: Byte)
    ensures 0 & m == 0
  {
  }

  lemma ProbeStarts(h: Word, delta: Word)
    ensures Probe(h, delta, 0) == h
  {
  }

  lemma ProbeNext(h: Word, delta: Word, j: nat)
    ensures Probe(h, delta, j + 1) == Add(Probe(h, delta, j), delta)
  {
    hide Add;
  }

  lemma PositionIs(hash: seq<Byte> -> Word, key: seq<Byte>, j: nat, bits: nat)
    requires bits > 0
    ensures Position(hash, key, j, bits) == Remainder(Probe(hash(key), RotateRight17(hash(key)), j), bits)
  {
    hide Probe, RotateRight17, Remainder;
  }

  lemma KeyProbed(hash: seq<Byte> -> Word, k: nat, keys: seq<seq<Byte>>, i: nat, bits: nat)
    requires i < |keys| && bits > 0
    ensures forall p: nat :: Probed(hash, k, keys[..i + 1], bits, p) <==> Probed(hash, k, keys[..i], bits, p) || Hits(hash, keys[i], k, bits, p)
  {
    hide Hits;
    assert keys[..i + 1] == keys[..i] + [keys[i]];
  }

  // A filter matches every key that it was made of.
  lemma NoFalseNegative(hash: seq<Byte> -> Word, k: nat, bitsPerKey: nat, keys: seq<seq<Byte>>, filter: seq<Byte>, key: seq<Byte>)
    requires IsFilter(hash, k, bitsPerKey, keys, filter) && key in keys
    ensures MayMatch(hash, key, filter)
  {
    hide IsSet, DecodeByte, EncodeByte, Position;
    ByteRoundTrip(k);
    var bits := (|filter| - 1) * 8;
    forall j: nat | j < k ensures IsSet(filter[..|filter| - 1], Position(hash, key, j, bits)) {
      assert Hits(hash, key, k, bits, Position(hash, key, j, bits));
      assert Probed(hash, k, keys, bits, Position(hash, key, j, bits));
    }
  }

  // A filter matches a key exactly when every one of its probes falls on a probe of a key that it was made of.
  lemma MatchesExactlyWhen(hash: seq<Byte> -> Word, k: nat, bitsPerKey: nat, keys: seq<seq<Byte>>, filter: seq<Byte>, key: seq<Byte>)
    requires IsFilter(hash, k, bitsPerKey, keys, filter)
    ensures |filter| > 1
    ensures var bits := (|filter| - 1) * 8;
            MayMatch(hash, key, filter) <==> forall j: nat :: j < k ==> FallsOnOne(hash, k, keys, bits, Position(hash, key, j, bits))
  {
    hide IsSet, DecodeByte, EncodeByte, Position;
    ByteRoundTrip(k);
    var bits := (|filter| - 1) * 8;
    forall j: nat | j < k
      ensures IsSet(filter[..|filter| - 1], Position(hash, key, j, bits)) <==> FallsOnOne(hash, k, keys, bits, Position(hash, key, j, bits))
    {
      FallsIsProbed(hash, k, keys, bits, Position(hash, key, j, bits));
    }
  }

  ghost predicate FallsOnOne(hash: seq<Byte> -> Word, k: nat, keys: seq<seq<Byte>>, bits: nat, p: nat)
    requires bits > 0
  {
    exists n: nat, i: nat :: n < |keys| && i < k && p == Position(hash, keys[n], i, bits)
  }

  lemma FallsIsProbed(hash: seq<Byte> -> Word, k: nat, keys: seq<seq<Byte>>, bits: nat, p: nat)
    requires bits > 0
    ensures FallsOnOne(hash, k, keys, bits, p) <==> Probed(hash, k, keys, bits, p)
  {
    hide Position;
    if FallsOnOne(hash, k, keys, bits, p) {
      var n: nat, i: nat :| n < |keys| && i < k && p == Position(hash, keys[n], i, bits);
      assert Hits(hash, keys[n], k, bits, p);
    }
    if Probed(hash, k, keys, bits, p) {
      var key :| key in keys && Hits(hash, key, k, bits, p);
      var n :| 0 <= n < |keys| && keys[n] == key;
      assert Hits(hash, keys[n], k, bits, p);
    }
  }

  // Filters with more than 30 probes are of a kind to come, and match everything; what is too short for a filter
  // matches nothing.
  lemma OtherKinds(hash: seq<Byte> -> Word, key: seq<Byte>, filter: seq<Byte>)
    ensures |filter| >= 2 && filter[|filter| - 1] as int > 30 ==> MayMatch(hash, key, filter)
    ensures |filter| < 2 ==> !MayMatch(hash, key, filter)
  {
    hide DecodeByte, IsSet, Position;
    if |filter| >= 2 {
      DecodeIsValue(filter[|filter| - 1]);
    }
  }

  // Bit p of an array counts from the lowest bit of its first byte.
  lemma IsSetIs(bits: seq<Byte>, p: nat)
    requires p < 8 * |bits|
    ensures IsSet(bits, p) <==> (bits[p / 8] >> (p % 8)) & 1 == 1
  {
    BitOf(bits[p / 8], p % 8);
  }

  lemma BitOf(b: Byte, i: nat)
    requires i < 8
    ensures b & BitMask(i) != 0 <==> (b >> i) & 1 == 1
  {
    assert i == 0 || i == 1 || i == 2 || i == 3 || i == 4 || i == 5 || i == 6 || i == 7;
  }

  // The operations on words that make up the probes.
  lemma RemainderIs(h: Word, bits: nat)
    requires bits > 0
    ensures Remainder(h, bits) == h as nat % bits
  {
  }

  lemma AddIs(a: Word, b: Word)
    ensures Add(a, b) == a + b
  {
  }

  lemma TurnedRight(h: Word)
    ensures RotateRight17(h) == h.RotateRight(17)
  {
  }
}
