/** nanopb: exactly which varints pb_decode_varint32 (pb_decode.c:193-247) takes, and as what, among all that the
    64-bit reader takes as well, canonical or not. */
module ProtobufNumbers {
  import opened Bytes
  import opened Coding
  import opened Spellings
  import opened ProtobufFields
  import opened ProtobufInput

  // Behind 32 bits a group is empty, or all ones under a sign bit; the tenth group has room for one of them.
  predicate MayExtend(result: nat, b: Byte, place: nat) {
    Group(b as int) == 0 || (result >= 0x8000_0000 && b as int == if place < 9 then 0xFF else 0x01)
  }

  ghost predicate AllExtend(result: nat, g: String, place: nat, from: nat) {
    forall j :: from <= j < |g| ==> MayExtend(result, g[j], place + j)
  }

  lemma ExtendsOneMore(result: nat, g: String, place: nat)
    requires g != []
    ensures AllExtend(result, g, place, 0) <==> MayExtend(result, g[0], place) && AllExtend(result, g[1..], place + 1, 0)
  {
    hide MayExtend;
    if AllExtend(result, g[1..], place + 1, 0) {
      forall j | 0 < j < |g|
        ensures MayExtend(result, g[j], place + j)
      {
        assert g[j] == g[1..][j - 1];
      }
    }
  }

  lemma ExtendsLater(result: nat, g: String, place: nat, from: nat)
    requires g != [] && from > 0
    ensures AllExtend(result, g, place, from) <==> AllExtend(result, g[1..], place + 1, from - 1)
  {
    hide MayExtend;
    if AllExtend(result, g[1..], place + 1, from - 1) {
      forall j | from <= j < |g|
        ensures MayExtend(result, g[j], place + j)
      {
        assert g[j] == g[1..][j - 1];
      }
    }
  }

  lemma ExtensionIs(result: nat, b: Byte, place: nat)
    requires 5 <= place < 10 && result < TWO_32
    ensures !BadExtension(result, 7 * place, DecodeByte(b)) <==> MayExtend(result, b, place)
    ensures WithGroup(result, 7 * place, DecodeByte(b)) == result
  {
    hide DecodeByte, Or;
    DecodeIsValue(b);
    GroupIs(b as int);
  }

  lemma GroupIs(n: nat)
    ensures Group(n) == n % 128
  {
  }

  lemma {:induction false} HighTail(result: nat, k: nat, g: String, rest: String)
    requires 5 <= k && IsGroups(g) && k + |g| <= 10 && result < TWO_32
    ensures Varint32Tail(result, 7 * k, g + rest) == if AllExtend(result, g, k, 0) then Parsed(result, rest) else Failed
    decreases |g|
  {
    hide DecodeByte, BadExtension, WithGroup, IsGroups, MayExtend, AllExtend;
    var s := g + rest;
    GroupsAreFirst(s, g, rest);
    NotEmpty(g);
    DecodeIsValue(s[0]);
    HighBit(s[0]);
    ExtensionIs(result, s[0], k);
    ExtendsOneMore(result, g, k);
    if s[0] >= 0x80 {
      HighTail(result, k + 1, g[1..], rest);
    } else {
      NothingExtends(result, k + 1);
      assert g[1..] == [];
    }
  }

  lemma NothingExtends(result: nat, place: nat)
    ensures AllExtend(result, [], place, 0)
  {
  }

  // The fifth group has four bits that belong to the number.
  predicate HalfEmpty(b: Byte) {
    b as int < 16
  }

  function Low32(n: nat): (r: nat)
    ensures r < TWO_32 && (n < TWO_32 ==> r == n)
  {
    n % 0x1_0000_0000
  }

  // What the groups from place i on make of the ones before.
  ghost function Outcome(low: nat, i: nat, g: String, rest: String): Parsed<nat>
    requires 1 <= i <= 4 && g != []
  {
    var whole := Low32(low + Sum(g) * Place(i));
    if i + |g| < 5 || (i + |g| == 5 && HalfEmpty(g[4 - i])) || (i + |g| > 5 && AllExtend(whole, g, i, 5 - i))
    then Parsed(whole, rest) else Failed
  }

  // A group of the first four that belongs there.
  lemma GroupIsSmall(n: nat)
    ensures Group(n) < 128
  {
  }

  lemma LowGroup(low: nat, i: nat, b: Byte)
    requires 1 <= i <= 3 && low < Place(i)
    ensures !BadExtension(low, 7 * i, DecodeByte(b))
    ensures WithGroup(low, 7 * i, DecodeByte(b)) == low + Group(b as int) * Place(i) < Place(i + 1) < TWO_32
  {
    hide Or, Power, DecodeByte, Group;
    DecodeIsValue(b);
    GroupIs(b as int);
    GroupIsSmall(b as int);
    Places(i);
    OrAbove(low, DecodeByte(b) % 128, 7 * i);
  }

  lemma FifthGroup(low: nat, b: Byte)
    requires low < Place(4)
    ensures !BadExtension(low, 28, DecodeByte(b))
    ensures WithGroup(low, 28, DecodeByte(b)) == (low + Group(b as int) * Place(4)) % TWO_32
  {
    hide Or, Power, DecodeByte;
    DecodeIsValue(b);
    GroupIs(b as int);
    Places(4);
    OrAbove(low, DecodeByte(b) % 128, 28);
  }

  lemma SumStep(g: String)
    requires g != []
    ensures Sum(g) == Group(g[0] as int) + 128 * Sum(g[1..])
  {
    hide Group;
  }

  lemma SumFirst(low: nat, place: nat, g: String)
    requires g != []
    ensures low + Sum(g) * place == low + Group(g[0] as int) * place + Sum(g[1..]) * (place * 128)
  {
    hide Group, Sum;
    SumStep(g);
    Regroup(low, Group(g[0] as int), Sum(g[1..]), place);
  }

  lemma SumOfOne(low: nat, place: nat, g: String)
    requires g != [] && g[1..] == []
    ensures low + Sum(g) * place == low + Group(g[0] as int) * place
  {
    hide Group, Sum;
    SumStep(g);
    NoGroups();
  }

  lemma NoGroups()
    ensures Sum([]) == 0
  {
  }

  lemma LastLow(low: nat, b: Byte)
    requires low < Place(4) && b < 0x80
    ensures DecodeByte(b) / 16 % 8 != 0 <==> b as int >= 16
    ensures b as int < 16 ==> low + Group(b as int) * Place(4) < TWO_32
  {
    hide DecodeByte;
    DecodeIsValue(b);
    HighBit(b);
    GroupIs(b as int);
  }

  lemma LowGoesOn(low: nat, i: nat, g: String, rest: String)
    requires 1 <= i <= 3 && |g| > 1
    ensures Outcome(low, i, g, rest) == Outcome(low + Group(g[0] as int) * Place(i), i + 1, g[1..], rest)
  {
    hide Group, Sum, AllExtend, HalfEmpty, Low32;
    SumFirst(low, Place(i), g);
    if i + |g| > 5 {
      ExtendsLater(Low32(low + Sum(g) * Place(i)), g, i, 5 - i);
    }
  }

  lemma LowEnds(low: nat, i: nat, g: String, rest: String)
    requires 1 <= i <= 3 && low < Place(i) && g != [] && g[1..] == []
    ensures Outcome(low, i, g, rest) == Parsed(low + Group(g[0] as int) * Place(i), rest)
  {
    hide Group, Sum, AllExtend, Place, WithGroup, BadExtension, HalfEmpty, Low32;
    SumOfOne(low, Place(i), g);
    LowGroup(low, i, g[0]);
  }

  lemma FifthGoesOn(low: nat, g: String, rest: String)
    requires |g| > 1
    ensures var more := (low + Group(g[0] as int) * Place(4)) % TWO_32;
            Outcome(low, 4, g, rest) == if AllExtend(more, g[1..], 5, 0) then Parsed(more, rest) else Failed
  {
    hide Group, Sum, AllExtend, HalfEmpty;
    SumFirst(low, Place(4), g);
    HighGroupsVanish(low + Group(g[0] as int) * Place(4), Sum(g[1..]));
    ExtendsLater((low + Group(g[0] as int) * Place(4)) % TWO_32, g, 4, 1);
  }

  lemma FifthEnds(low: nat, g: String, rest: String)
    requires low < Place(4) && g != [] && g[1..] == [] && g[0] < 0x80
    ensures Outcome(low, 4, g, rest)
            == if DecodeByte(g[0]) / 16 % 8 != 0 then Failed else Parsed((low + Group(g[0] as int) * Place(4)) % TWO_32, rest)
  {
    hide Group, Sum, AllExtend, DecodeByte;
    SumOfOne(low, Place(4), g);
    LastLow(low, g[0]);
  }

  lemma PlaceFits(i: nat)
    ensures Place(i) < TWO_32
  {
  }

  lemma {:induction false} LowTail(low: nat, i: nat, g: String, rest: String)
    requires 1 <= i <= 4 && low < Place(i) && IsGroups(g) && i + |g| <= 10
    ensures g != [] && low < TWO_32 && Varint32Tail(low, 7 * i, g + rest) == Outcome(low, i, g, rest)
    decreases |g|
  {
    hide DecodeByte, BadExtension, WithGroup, IsGroups, AllExtend, Group, Sum, Outcome, Place;
    var s := g + rest;
    GroupsAreFirst(s, g, rest);
    NotEmpty(g);
    DecodeIsValue(s[0]);
    HighBit(s[0]);
    PlaceFits(i);
    if i < 4 {
      LowGroup(low, i, s[0]);
      if s[0] >= 0x80 {
        LongerThanOne(g);
        LowGoesOn(low, i, g, rest);
        LowTail(low + Group(s[0] as int) * Place(i), i + 1, g[1..], rest);
      } else {
        LowEnds(low, i, g, rest);
      }
    } else {
      FifthGroup(low, s[0]);
      if s[0] >= 0x80 {
        LongerThanOne(g);
        FifthGoesOn(low, g, rest);
        HighTail((low + Group(s[0] as int) * Place(4)) % TWO_32, 5, g[1..], rest);
      } else {
        FifthEnds(low, g, rest);
      }
    }
  }

  lemma LongerThanOne(g: String)
    requires IsGroups(g) && g[0] >= 0x80
    ensures |g| > 1
  {
  }

  lemma HighGroupsVanish(low: nat, high: nat)
    ensures (low + high * (Place(4) * 128)) % TWO_32 == low % TWO_32
  {
    assert Place(4) * 128 == 8 * TWO_32;
    assert high * (8 * TWO_32) == 8 * high * TWO_32;
    Multiple(low, 8 * high);
  }

  lemma Multiple(low: nat, n: nat)
    ensures (low + n * TWO_32) % TWO_32 == low % TWO_32
  {
    var q, r := (low + n * TWO_32) / TWO_32, (low + n * TWO_32) % TWO_32;
    Difference(q, n + low / TWO_32, TWO_32, low % TWO_32 - r);
  }

  // Four groups fit; a fifth one fits with its four lowest bits, or when more follow; and those are empty or go
  // on with the sign.
  ghost predicate FitsIn32(g: String) {
    || |g| < 5
    || (|g| == 5 && HalfEmpty(g[4]))
    || (|g| > 5 && AllExtend(Low32(Sum(g)), g, 0, 5))
  }

  // The 32-bit reader takes exactly these, for the lowest 32 bits of what the 64-bit reader takes them for.
  lemma Varint32ExactlyWhen(g: String, rest: String)
    requires IsGroups(g) && |g| <= 10
    ensures ReadVarint32(g + rest) == if FitsIn32(g) then Parsed(Sum(g) % 0x1_0000_0000, rest) else Failed
    ensures Varint64At(g + rest) == Parsed(Sum(g) % 0x1_0000_0000_0000_0000, rest)
  {
    hide DecodeByte, Varint32Tail, IsGroups, ParseVarint, Group, Sum;
    var s := g + rest;
    GroupsAreFirst(s, g, rest);
    NotEmpty(g);
    DecodeIsValue(s[0]);
    HighBit(s[0]);
    GroupIs(s[0] as int);
    GroupsAreRead(s, 10, g, rest);
    if s[0] >= 0x80 {
      LongerThanOne(g);
      LowTail(Group(s[0] as int), 1, g[1..], rest);
      SumStep(g);
      FirstGoesOn(g, Group(s[0] as int), rest);
    } else {
      SumOfOne(0, 1, g);
    }
  }

  lemma PlaceOne(n: nat)
    ensures n * Place(1) == 128 * n
  {
  }

  lemma FirstGoesOn(g: String, low: nat, rest: String)
    requires |g| > 1 && low + 128 * Sum(g[1..]) == Sum(g)
    ensures Outcome(low, 1, g[1..], rest) == if FitsIn32(g) then Parsed(Low32(Sum(g)), rest) else Failed
  {
    hide Sum, AllExtend, HalfEmpty, Low32, Place;
    var h := g[1..];
    PlaceOne(Sum(h));
    assert |g| == 5 ==> h[3] == g[4];
    ExtendsLater(Low32(Sum(g)), g, 0, 5);
  }
}
