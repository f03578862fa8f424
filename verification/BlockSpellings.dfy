/** The entries of a block as numbers and bytes (table/block_builder.cc:28-44), and exactly which bytes DecodeEntry
    (table/block.cc:50-74) takes for one, on its fast path as on the slow one. */
module BlockSpellings {
  import opened Bytes
  import opened Coding
  import opened Spellings
  import opened Blocks
  import opened BlockIterators

  // The three lengths that an entry starts with.
  function Lengths(shared: nat, nonShared: nat, valueLength: nat): seq<Token> {
    [Number32(shared)] + ([Number32(nonShared)] + [Number32(valueLength)])
  }

  lemma LengthsExactly(s: seq<Byte>, shared: nat, nonShared: nat, valueLength: nat, rest: seq<Byte>)
    ensures StartsWith(s, Lengths(shared, nonShared, valueLength), rest)
            <==> && Varint32At(s).Parsed? && Varint32At(s).value == shared
                 && Varint32At(Varint32At(s).rest).Parsed? && Varint32At(Varint32At(s).rest).value == nonShared
                 && Varint32At(Varint32At(Varint32At(s).rest).rest) == Parsed(valueLength, rest)
  {
    hide Varint32At, Starts, StartsWith;
    if StartsWith(s, Lengths(shared, nonShared, valueLength), rest) {
      var s1 := Next(s, Number32(shared), [Number32(nonShared)] + [Number32(valueLength)], rest);
      var s2 := Next(s1, Number32(nonShared), [Number32(valueLength)], rest);
      Last(s2, Number32(valueLength), rest);
      Number32Exactly(s, shared, s1);
      Number32Exactly(s1, nonShared, s2);
      Number32Exactly(s2, valueLength, rest);
    }
    if Varint32At(s).Parsed? && Varint32At(Varint32At(s).rest).Parsed? {
      var s1 := Varint32At(s).rest;
      var s2 := Varint32At(s1).rest;
      Number32Exactly(s, shared, s1);
      Number32Exactly(s1, nonShared, s2);
      Number32Exactly(s2, valueLength, rest);
      if Varint32At(s).value == shared && Varint32At(s1).value == nonShared && Varint32At(s2) == Parsed(valueLength, rest) {
        Last(s2, Number32(valueLength), rest);
        Step(s1, Number32(nonShared), s2, [Number32(valueLength)], rest);
        Step(s, Number32(shared), s1, [Number32(nonShared)] + [Number32(valueLength)], rest);
      }
    }
  }

  lemma OneByte(s: seq<Byte>)
    requires s != [] && DecodeByte(s[0]) < 128
    ensures Varint32At(s) == Parsed(DecodeByte(s[0]), s[1..])
  {
    hide DecodeByte;
  }

  // Three small lengths are read the same without the general reader.
  lemma FastIsSlow(data: seq<Byte>, p: nat, limit: nat)
    requires p + 3 <= limit <= |data|
    requires DecodeByte(data[p]) < 128 && DecodeByte(data[p + 1]) < 128 && DecodeByte(data[p + 2]) < 128
    ensures var s := data[p..limit];
            && Varint32At(s) == Parsed(DecodeByte(data[p]), data[p + 1..limit])
            && Varint32At(data[p + 1..limit]) == Parsed(DecodeByte(data[p + 1]), data[p + 2..limit])
            && Varint32At(data[p + 2..limit]) == Parsed(DecodeByte(data[p + 2]), data[p + 3..limit])
  {
    hide DecodeByte, Varint32At;
    OneByte(data[p..limit]);
    OneByte(data[p + 1..limit]);
    OneByte(data[p + 2..limit]);
    assert data[p..limit][1..] == data[p + 1..limit] && data[p + 1..limit][1..] == data[p + 2..limit];
    assert data[p + 2..limit][1..] == data[p + 3..limit];
  }

  // The slow path alone.
  function ByReaders(s: seq<Byte>, limit: nat): (d: Decoded)
    requires |s| <= limit
    ensures d.Decoded? ==> d.p <= limit
  {
    match Varint32At(s)
    case Failed => NoEntry
    case Parsed(shared, s1) =>
      match Varint32At(s1)
      case Failed => NoEntry
      case Parsed(nonShared, s2) =>
        match Varint32At(s2)
        case Failed => NoEntry
        case Parsed(valueLength, rest) => ShorterRests(s); Decoded(shared, nonShared, valueLength, limit - |rest|)
  }

  lemma ShorterRests(s: seq<Byte>)
    ensures Varint32At(s).Parsed? && Varint32At(Varint32At(s).rest).Parsed? && Varint32At(Varint32At(Varint32At(s).rest).rest).Parsed? ==>
              |Varint32At(Varint32At(Varint32At(s).rest).rest).rest| <= |s|
  {
    hide Varint32At;
    TailsOf(s);
  }

  lemma EntryIsRead(data: seq<Byte>, p: nat, limit: nat)
    requires p + 3 <= limit <= |data|
    ensures var d := ByReaders(data[p..limit], limit);
            DecodeEntry(data, p, limit) == if d.Decoded? then CheckRoom(d, limit) else NoEntry
  {
    hide DecodeByte, Varint32At, CheckRoom;
    if DecodeByte(data[p]) < 128 && DecodeByte(data[p + 1]) < 128 && DecodeByte(data[p + 2]) < 128 {
      FastIsSlow(data, p, limit);
    }
  }

  lemma ReadersExactly(s: seq<Byte>, limit: nat, shared: nat, nonShared: nat, valueLength: nat, rest: seq<Byte>)
    requires |s| <= limit && |rest| <= |s|
    ensures ByReaders(s, limit) == Decoded(shared, nonShared, valueLength, limit - |rest|) && IsTail(s, rest)
            <==> StartsWith(s, Lengths(shared, nonShared, valueLength), rest)
  {
    hide Varint32At, StartsWith, Lengths;
    LengthsExactly(s, shared, nonShared, valueLength, rest);
    TailsOf(s);
  }

  // An entry is taken exactly when three lengths stand there, in at least three bytes, and leave room for the
  // rest of the key and the value, whose lengths are added in 32 bits.
  lemma DecodedExactlyWhen(data: seq<Byte>, p: nat, limit: nat, shared: nat, nonShared: nat, valueLength: nat, rest: seq<Byte>)
    requires p <= limit <= |data| && |rest| <= limit - p
    ensures DecodeEntry(data, p, limit) == Decoded(shared, nonShared, valueLength, limit - |rest|) && IsTail(data[p..limit], rest)
            <==> && limit - p >= 3 && StartsWith(data[p..limit], Lengths(shared, nonShared, valueLength), rest)
                 && (nonShared + valueLength) % 0x1_0000_0000 <= |rest|
  {
    hide ByReaders, DecodeEntry, StartsWith, Lengths, IsTail;
    TooShort(data, p, limit);
    if limit - p >= 3 {
      EntryIsRead(data, p, limit);
      ReadersExactly(data[p..limit], limit, shared, nonShared, valueLength, rest);
    }
  }

  lemma TooShort(data: seq<Byte>, p: nat, limit: nat)
    requires p <= limit <= |data|
    ensures limit - p < 3 ==> DecodeEntry(data, p, limit) == NoEntry
  {
  }

  // What the reader leaves is the end of what it was given.
  lemma TailsOf(s: seq<Byte>)
    ensures Varint32At(s).Parsed? ==> IsTail(s, Varint32At(s).rest)
    ensures Varint32At(s).Parsed? && Varint32At(Varint32At(s).rest).Parsed? ==>
              var s2 := Varint32At(Varint32At(s).rest).rest;
              IsTail(s, s2) && (Varint32At(s2).Parsed? ==> IsTail(s, Varint32At(s2).rest))
  {
    hide Varint32At;
    TailOf(s);
    if Varint32At(s).Parsed? {
      TailOf(Varint32At(s).rest);
      if Varint32At(Varint32At(s).rest).Parsed? {
        TailOf(Varint32At(Varint32At(s).rest).rest);
      }
    }
  }

  predicate IsTail(s: seq<Byte>, rest: seq<Byte>) {
    |rest| <= |s| && rest == s[|s| - |rest|..]
  }

  lemma TailOf(s: seq<Byte>)
    ensures Varint32At(s).Parsed? ==> IsTail(s, Varint32At(s).rest)
  {
    hide ParseVarint, IsGroups;
    if Varint32At(s).Parsed? {
      var g := ReadAreGroups(s, 5);
    }
  }

  // What the builder writes for an entry: how much of the key before it shares, how much is new, how long the
  // value is, and then what is new of the key, and the value.
  lemma EntrySpelled(shared: nat, e: Entry)
    requires shared <= |e.key| < 0x1_0000_0000 && |e.value| < 0x1_0000_0000
    ensures StartsWith(EntryBytes(shared, e), Lengths(shared, |e.key| - shared, |e.value|), e.key[shared..] + e.value)
  {
    hide Varint, Varint32At, StartsWith, Lengths;
    var n, v, tail := |e.key| - shared, |e.value|, e.key[shared..] + e.value;
    var s := EntryBytes(shared, e);
    assert s == Varint(shared) + (Varint(n) + (Varint(v) + tail));
    Varint32RoundTrip(shared, Varint(n) + (Varint(v) + tail));
    Varint32RoundTrip(n, Varint(v) + tail);
    Varint32RoundTrip(v, tail);
    LengthsExactly(s, shared, n, v, tail);
  }
}
