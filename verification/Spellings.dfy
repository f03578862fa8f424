/** The formats of util/coding.cc byte by byte: what stands at each place of an encoding, and exactly which bytes
    the readers accept. Canonical or not, a number that a reader takes is the sum of the groups that it took. */
module Spellings {
  import opened Bytes
  import opened Coding

  // ---- What the writers write ----

  // The byte at place k of a fixed-length number counts the 256^k.
  lemma {:induction false} FixedAt(v: nat, n: nat, k: nat)
    requires k < n
    ensures Fixed(v, n)[k] as int == v / Power(256, k) % 256
    decreases n
  {
    hide EncodeByte;
    if k == 0 {
      EncodeIsNumber(v % 256);
    } else {
      FixedAt(v / 256, n - 1, k - 1);
      DivideTwice(v, 256, Power(256, k - 1));
    }
  }

  // And the bytes come back from the number that is read from them.
  lemma {:induction false} FixedForth(s: seq<Byte>)
    ensures Fixed(FromFixed(s), |s|) == s
    decreases |s|
  {
    hide EncodeByte, DecodeByte;
    if s != [] {
      FixedForth(s[1..]);
      NumberRoundTrip(s[0]);
      LowByte(DecodeByte(s[0]), FromFixed(s[1..]));
      assert Fixed(FromFixed(s), |s|) == [EncodeByte(FromFixed(s) % 256)] + Fixed(FromFixed(s) / 256, |s| - 1);
    }
  }

  lemma LowByte(b: nat, v: nat)
    requires b < 256
    ensures (b + 256 * v) % 256 == b && (b + 256 * v) / 256 == v
  {
  }

  lemma DivideTwice(v: nat, a: nat, b: nat)
    requires a > 0 && b > 0
    ensures a * b > 0 && v / a / b == v / (a * b)
  {
    var w, s := v / a, v % a;
    var q, r := w / b, w % b;
    Nested(v, a, b, w, s, q, r);
    Quotient(v, a * b, q, a * r + s);
  }

  lemma Nested(v: nat, a: nat, b: nat, w: nat, s: nat, q: nat, r: nat)
    requires v == a * w + s && w == b * q + r && r < b && s < a
    ensures v == a * b * q + (a * r + s) && a * r + s < a * b
  {
    Distribute(a, b, q, r);
    Apart(b - r, r, a);
  }

  lemma Distribute(a: nat, b: nat, q: nat, r: nat)
    ensures a * (b * q + r) == a * b * q + a * r
  {
  }

  lemma Quotient(v: nat, m: nat, q: nat, r: nat)
    requires m > 0 && v == m * q + r && r < m
    ensures v / m == q
  {
    var d, rest := v / m, v % m;
    assert v == m * d + rest;
    Difference(q, d, m, rest - r);
  }

  // Groups of seven bits whose high bits say that more follow.
  ghost predicate IsGroups(g: seq<Byte>) {
    g != [] && g[|g| - 1] < 0x80 && forall k :: 0 <= k < |g| - 1 ==> g[k] >= 0x80
  }

  // What they stand for, the first group counting ones.
  function Sum(g: seq<Byte>): nat {
    if g == [] then 0 else Group(g[0] as int) + 128 * Sum(g[1..])
  }

  function Group(n: nat): (r: nat)
    ensures n < 128 ==> r == n
    ensures 128 <= n < 256 ==> r == n - 128
  {
    n % 128
  }

  lemma OneGroup(b: Byte)
    requires b < 0x80
    ensures IsGroups([b]) && Sum([b]) == b as int < 128
  {
    hide Group;
    HighBit(b);
    assert [b][1..] == [];
  }

  lemma OneGroupMore(b: Byte, tail: seq<Byte>)
    requires b >= 0x80 && IsGroups(tail)
    ensures IsGroups([b] + tail) && Sum([b] + tail) == b as int - 128 + 128 * Sum(tail)
  {
    hide Group;
    HighBit(b);
    assert ([b] + tail)[1..] == tail;
  }

  // A number is written in groups, and in as few as possible.
  lemma {:induction false} VarintIs(v: nat)
    ensures IsGroups(Varint(v)) && Sum(Varint(v)) == v && (|Varint(v)| > 1 ==> Varint(v)[|Varint(v)| - 1] != 0)
    decreases v
  {
    hide EncodeByte, IsGroups, Sum;
    if v < 128 {
      EncodeIsNumber(v);
      HighBit(EncodeByte(v));
      OneGroup(EncodeByte(v));
    } else {
      VarintIs(v / 128);
      EncodeIsNumber(128 + v % 128);
      HighBit(EncodeByte(128 + v % 128));
      OneGroupMore(EncodeByte(128 + v % 128), Varint(v / 128));
      if v / 128 < 128 {
        EncodeIsNumber(v / 128);
        NotZero(EncodeByte(v / 128));
      }
    }
  }

  lemma HighBit(b: Byte)
    ensures b as int >= 128 <==> b >= 0x80
  {
  }

  lemma NotZero(b: Byte)
    ensures b as int > 0 <==> b != 0
  {
  }

  // ---- What the readers take ----

  // The rest of s behind a part.
  ghost predicate Splits(s: seq<Byte>, part: seq<Byte>, rest: seq<Byte>) {
    s == part + rest
  }

  lemma GroupsAreFirst(s: seq<Byte>, g: seq<Byte>, rest: seq<Byte>)
    requires IsGroups(g) && s == g + rest
    ensures s != [] && (s[0] < 0x80 ==> g == [s[0]] && rest == s[1..])
    ensures s[0] >= 0x80 ==> IsGroups(g[1..]) && s[1..] == g[1..] + rest
  {
    assert s[0] == g[0];
    if s[0] < 0x80 {
      assert |g| == 1;
    } else {
      assert |g| > 1;
    }
  }

  lemma {:induction false} GroupsAreRead(s: seq<Byte>, n: nat, g: seq<Byte>, rest: seq<Byte>)
    requires IsGroups(g) && s == g + rest && |g| <= n
    ensures ParseVarint(s, n) == Parsed(Sum(g), rest)
    decreases n
  {
    hide DecodeByte, IsGroups;
    GroupsAreFirst(s, g, rest);
    DecodeIsValue(s[0]);
    HighBit(s[0]);
    if s[0] >= 0x80 {
      GroupsAreRead(s[1..], n - 1, g[1..], rest);
      NotEmpty(g);
    } else {
      assert g[1..] == [];
    }
  }

  lemma NotEmpty(g: seq<Byte>)
    requires IsGroups(g)
    ensures g != []
  {
  }

  // What the parser takes are groups, not more than it may.
  lemma {:induction false} ReadAreGroups(s: seq<Byte>, n: nat) returns (g: seq<Byte>)
    requires ParseVarint(s, n).Parsed?
    ensures var p := ParseVarint(s, n);
            IsGroups(g) && |g| <= n && s == g + p.rest && p.value == Sum(g)
    decreases n
  {
    hide DecodeByte, IsGroups, Sum;
    DecodeIsValue(s[0]);
    HighBit(s[0]);
    if s[0] < 0x80 {
      g := [s[0]];
      OneGroup(s[0]);
    } else {
      var tail := ReadAreGroups(s[1..], n - 1);
      g := [s[0]] + tail;
      OneGroupMore(s[0], tail);
    }
  }

  // ---- Tokens ----

  // The pieces that records are made of.
  datatype Token = Mark(n: nat) | Number32(n: nat) | Number64(n: nat) | Text(s: seq<Byte>)

  ghost predicate IsNumber(g: seq<Byte>, groups: nat, modulus: nat, n: nat)
    requires modulus > 0
  {
    IsGroups(g) && |g| <= groups && n == Sum(g) % modulus
  }

  // g is a token in one of its spellings.
  ghost predicate Spells(g: seq<Byte>, t: Token) {
    match t
    case Mark(n) => |g| == 1 && g[0] as int == n
    case Number32(n) => IsNumber(g, 5, 0x1_0000_0000, n)
    case Number64(n) => IsNumber(g, 10, 0x1_0000_0000_0000_0000, n)
    case Text(s) => |s| <= |g| && IsNumber(g[..|g| - |s|], 5, 0x1_0000_0000, |s|) && g[|g| - |s|..] == s
  }

  // s starts with the token, and this is what follows.
  ghost predicate Starts(s: seq<Byte>, t: Token, rest: seq<Byte>) {
    exists g: seq<Byte> :: Spells(g, t) && Splits(s, g, rest)
  }

  lemma Number32Exactly(s: seq<Byte>, n: nat, rest: seq<Byte>)
    ensures Varint32At(s) == Parsed(n, rest) <==> Starts(s, Number32(n), rest)
  {
    hide IsGroups, ParseVarint;
    if Varint32At(s) == Parsed(n, rest) {
      var g := ReadAreGroups(s, 5);
      assert Spells(g, Number32(n)) && Splits(s, g, rest);
    }
    if Starts(s, Number32(n), rest) {
      var g :| Spells(g, Number32(n)) && Splits(s, g, rest);
      GroupsAreRead(s, 5, g, rest);
    }
  }

  lemma Number64Exactly(s: seq<Byte>, n: nat, rest: seq<Byte>)
    ensures Varint64At(s) == Parsed(n, rest) <==> Starts(s, Number64(n), rest)
  {
    hide IsGroups, ParseVarint;
    if Varint64At(s) == Parsed(n, rest) {
      var g := ReadAreGroups(s, 10);
      assert Spells(g, Number64(n)) && Splits(s, g, rest);
    }
    if Starts(s, Number64(n), rest) {
      var g :| Spells(g, Number64(n)) && Splits(s, g, rest);
      GroupsAreRead(s, 10, g, rest);
    }
  }

  lemma TextSpelled(g: seq<Byte>, text: seq<Byte>)
    requires Spells(g, Number32(|text|))
    ensures Spells(g + text, Text(text))
  {
    hide IsNumber;
    assert (g + text)[..|g|] == g && (g + text)[|g|..] == text;
  }

  lemma TextParts(whole: seq<Byte>, text: seq<Byte>) returns (g: seq<Byte>)
    requires Spells(whole, Text(text))
    ensures Spells(g, Number32(|text|)) && whole == g + text
  {
    hide IsNumber;
    g := whole[..|whole| - |text|];
  }

  lemma PrefixedIs(s: seq<Byte>, text: seq<Byte>, rest: seq<Byte>)
    ensures PrefixedAt(s) == Parsed(text, rest) <==> Varint32At(s) == Parsed(|text|, text + rest)
  {
    hide Varint32At;
    if Varint32At(s) == Parsed(|text|, text + rest) {
      assert (text + rest)[..|text|] == text && (text + rest)[|text|..] == rest;
    }
  }

  lemma TextExactly(s: seq<Byte>, text: seq<Byte>, rest: seq<Byte>)
    ensures PrefixedAt(s) == Parsed(text, rest) <==> Starts(s, Text(text), rest)
  {
    hide Spells, Varint32At, PrefixedAt;
    PrefixedIs(s, text, rest);
    Number32Exactly(s, |text|, text + rest);
    if Starts(s, Number32(|text|), text + rest) {
      var g :| Spells(g, Number32(|text|)) && Splits(s, g, text + rest);
      TextSpelled(g, text);
      Assoc(g, text, rest);
      assert Splits(s, g + text, rest);
    }
    if Starts(s, Text(text), rest) {
      var whole :| Spells(whole, Text(text)) && Splits(s, whole, rest);
      var g := TextParts(whole, text);
      Assoc(g, text, rest);
      assert Splits(s, g, text + rest);
    }
  }

  lemma MarkExactly(s: seq<Byte>, n: nat, rest: seq<Byte>)
    ensures s != [] && DecodeByte(s[0]) == n && rest == s[1..] <==> Starts(s, Mark(n), rest)
  {
    hide DecodeByte;
    if s != [] {
      DecodeIsValue(s[0]);
      if DecodeByte(s[0]) == n && rest == s[1..] {
        assert Spells([s[0]], Mark(n)) && Splits(s, [s[0]], rest);
      }
    }
    if Starts(s, Mark(n), rest) {
      var g :| Spells(g, Mark(n)) && Splits(s, g, rest);
      assert s[0] == g[0] && s[1..] == rest;
    }
  }

  // s starts with these tokens, and this is what follows.
  ghost predicate StartsWith(s: seq<Byte>, ts: seq<Token>, rest: seq<Byte>)
    decreases |ts|
  {
    if ts == [] then s == rest
    else exists mid: seq<Byte> :: Starts(s, ts[0], mid) && StartsWith(mid, ts[1..], rest)
  }

  lemma Step(s: seq<Byte>, t: Token, mid: seq<Byte>, ts: seq<Token>, rest: seq<Byte>)
    requires Starts(s, t, mid) && StartsWith(mid, ts, rest)
    ensures StartsWith(s, [t] + ts, rest)
  {
    hide Starts;
    assert ([t] + ts)[1..] == ts;
  }

  lemma Last(s: seq<Byte>, t: Token, rest: seq<Byte>)
    ensures StartsWith(s, [t], rest) <==> Starts(s, t, rest)
  {
    hide Starts;
    assert [t][1..] == [];
    assert StartsWith(rest, [], rest);
    if StartsWith(s, [t], rest) {
      var mid :| Starts(s, t, mid) && StartsWith(mid, [t][1..], rest);
      assert StartsWith(mid, [], rest);
    }
    if Starts(s, t, rest) {
      assert StartsWith(rest, [t][1..], rest);
    }
  }

  lemma Next(s: seq<Byte>, t: Token, ts: seq<Token>, rest: seq<Byte>) returns (mid: seq<Byte>)
    requires StartsWith(s, [t] + ts, rest)
    ensures Starts(s, t, mid) && StartsWith(mid, ts, rest)
  {
    hide Starts;
    assert ([t] + ts)[1..] == ts;
    mid :| Starts(s, t, mid) && StartsWith(mid, ts, rest);
  }
}
