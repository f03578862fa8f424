/** util/comparator.cc and db/dbformat.cc: the order of keys as bytes, and the short keys that stand
    between two of them in the index of a table. */
module Separators {
  import opened Bytes

  // Slice::compare: the first difference decides, and a prefix comes first.
  predicate Less(a: seq<Byte>, b: seq<Byte>) {
    if b == [] then false
    else if a == [] then true
    else a[0] < b[0] || (a[0] == b[0] && Less(a[1..], b[1..]))
  }

  lemma {:induction false} Total(a: seq<Byte>, b: seq<Byte>)
    ensures Less(a, b) || Less(b, a) || a == b
    ensures !(Less(a, b) && Less(b, a)) && !(a == b && Less(a, b))
  {
    if a != [] && b != [] && a[0] == b[0] {
      Total(a[1..], b[1..]);
      assert a == [a[0]] + a[1..] && b == [b[0]] + b[1..];
    }
  }

  lemma {:induction false} Transitive(a: seq<Byte>, b: seq<Byte>, c: seq<Byte>)
    requires Less(a, b) && Less(b, c)
    ensures Less(a, c)
  {
    if a != [] && a[0] == b[0] == c[0] {
      Transitive(a[1..], b[1..], c[1..]);
    }
  }

  // Behind a common prefix the next byte decides.
  lemma {:induction false} DecidedAt(a: seq<Byte>, b: seq<Byte>, n: nat)
    requires n < |a| && n < |b| && a[..n] == b[..n]
    ensures a[n] < b[n] ==> Less(a, b)
    ensures a[n] > b[n] ==> Less(b, a)
  {
    if n > 0 {
      assert a[0] == a[..n][0] && b[0] == b[..n][0];
      assert a[1..][..n - 1] == a[..n][1..] && b[1..][..n - 1] == b[..n][1..];
      DecidedAt(a[1..], b[1..], n - 1);
    }
  }

  // A key in [start, limit), no longer than start.
  ghost predicate Separates(start: seq<Byte>, limit: seq<Byte>, r: seq<Byte>) {
    && |r| <= |start|
    && !Less(r, start)
    && (if Less(start, limit) then Less(r, limit) else r == start)
  }

  // The first difference, at n, leaves room for a byte in between.
  ghost predicate HasRoomAt(start: seq<Byte>, limit: seq<Byte>, n: nat) {
    n < |start| && n < |limit| && start[..n] == limit[..n] && start[n] < 0xff && start[n] + 1 < limit[n]
  }

  // There start is cut behind its next byte; without room it stays as it is.
  ghost predicate IsCutBetween(start: seq<Byte>, limit: seq<Byte>, r: seq<Byte>) {
    && (forall n: nat :: HasRoomAt(start, limit, n) ==> r == start[..n] + [start[n] + 1])
    && ((forall n: nat :: !HasRoomAt(start, limit, n)) ==> r == start)
  }

  lemma NoOtherRoom(start: seq<Byte>, limit: seq<Byte>, n: nat)
    requires n <= |start| && n <= |limit| && start[..n] == limit[..n] && (n < |start| && n < |limit| ==> start[n] != limit[n])
    ensures forall m: nat :: HasRoomAt(start, limit, m) ==> m == n
  {
    SameBytes(start, limit, n);
    forall m: nat | HasRoomAt(start, limit, m)
      ensures m == n
    {
      SameBytes(start, limit, m);
      NextByte(start[m]);
    }
  }

  lemma SameBytes(a: seq<Byte>, b: seq<Byte>, n: nat)
    requires n <= |a| && n <= |b| && a[..n] == b[..n]
    ensures forall i :: 0 <= i < n ==> a[i] == b[i]
  {
    assert forall i :: 0 <= i < n ==> a[..n][i] == a[i] && b[..n][i] == b[i];
  }

  lemma StaysBetween(start: seq<Byte>, limit: seq<Byte>, n: nat)
    requires n <= |start| && n <= |limit| && start[..n] == limit[..n] && (n < |start| && n < |limit| ==> start[n] != limit[n])
    requires !HasRoomAt(start, limit, n)
    ensures Separates(start, limit, start) && IsCutBetween(start, limit, start)
  {
    hide Less, HasRoomAt;
    Total(start, start);
    NoOtherRoom(start, limit, n);
  }

  lemma CutSeparates(start: seq<Byte>, limit: seq<Byte>, n: nat)
    requires HasRoomAt(start, limit, n)
    ensures n < |start| && Separates(start, limit, start[..n] + [start[n] + 1]) && IsCutBetween(start, limit, start[..n] + [start[n] + 1])
  {
    hide Less, Separates;
    var r := start[..n] + [start[n] + 1];
    NextByte(start[n]);
    assert r[..n] == start[..n];
    SeparatorFits(start, limit, n, r);
    NoOtherRoom(start, limit, n);
  }

  method FindShortestSeparator(start: seq<Byte>, limit: seq<Byte>) returns (r: seq<Byte>)
    ensures Separates(start, limit, r) && IsCutBetween(start, limit, r)
  {
    hide Separates, IsCutBetween;
    r := start;
    var minLength := if |start| < |limit| then |start| else |limit|;
    var diffIndex := 0;
    while diffIndex < minLength && start[diffIndex] == limit[diffIndex]
      invariant diffIndex <= minLength && start[..diffIndex] == limit[..diffIndex]
    {
      assert start[..diffIndex + 1] == start[..diffIndex] + [start[diffIndex]];
      assert limit[..diffIndex + 1] == limit[..diffIndex] + [limit[diffIndex]];
      diffIndex := diffIndex + 1;
    }
    if diffIndex >= minLength {
      // one is a prefix of the other
    } else {
      var diffByte := start[diffIndex];
      if diffByte < 0xff && diffByte + 1 < limit[diffIndex] {
        CutSeparates(start, limit, diffIndex);
        return start[..diffIndex] + [diffByte + 1];
      }
    }
    StaysBetween(start, limit, diffIndex);
  }

  lemma NextByte(b: Byte)
    requires b < 0xff
    ensures b < b + 1
  {
  }

  lemma SeparatorFits(start: seq<Byte>, limit: seq<Byte>, n: nat, r: seq<Byte>)
    requires n < |start| && n < |limit| && start[..n] == limit[..n]
    requires |r| == n + 1 && r[..n] == start[..n] && start[n] < r[n] < limit[n]
    ensures Separates(start, limit, r)
  {
    DecidedAt(start, r, n);
    DecidedAt(r, limit, n);
    DecidedAt(start, limit, n);
    Total(r, start);
  }

  // Nothing shorter stands behind a key that starts with n bytes 0xff.
  lemma {:induction false} ShorterIsLess(s: seq<Byte>, key: seq<Byte>, n: nat)
    requires |s| <= n <= |key| && |s| < |key| && forall i :: 0 <= i < n ==> key[i] == 0xff
    ensures Less(s, key)
  {
    if s != [] {
      AtMost(s[0]);
      ShorterIsLess(s[1..], key[1..], n - 1);
    }
  }

  lemma AtMost(b: Byte)
    ensures b <= 0xff
  {
  }

  // The key itself when nothing but 0xff stands in it; otherwise it is cut behind its first other byte, which
  // is increased. Nothing shorter is not below the key.
  ghost predicate IsSuccessor(key: seq<Byte>, r: seq<Byte>) {
    && !Less(r, key) && |r| <= |key| && (forall s: seq<Byte> :: |s| < |r| ==> Less(s, key))
    && if forall i :: 0 <= i < |key| ==> key[i] == 0xff then r == key
       else
         && r != [] && r[..|r| - 1] == key[..|r| - 1] && key[|r| - 1] < r[|r| - 1] == key[|r| - 1] + 1
         && forall i :: 0 <= i < |r| - 1 ==> key[i] == 0xff
  }

  lemma CutIsSuccessor(key: seq<Byte>, i: nat)
    requires i < |key| && key[i] != 0xff && forall j :: 0 <= j < i ==> key[j] == 0xff
    ensures IsSuccessor(key, key[..i] + [key[i] + 1])
  {
    hide Less;
    var b := key[i] + 1;
    var r := key[..i] + [b];
    AtMost(key[i]);
    NextByte(key[i]);
    Greater(key, i, b);
    assert r[|r| - 1] == b && r[..|r| - 1] == key[..i];
    forall s: seq<Byte> | |s| < |r|
      ensures Less(s, key)
    {
      ShorterIsLess(s, key, i);
    }
  }

  lemma Greater(key: seq<Byte>, i: nat, b: Byte)
    requires i < |key| && key[i] < b
    ensures !Less(key[..i] + [b], key)
  {
    hide Less;
    var r := key[..i] + [b];
    assert r[..i] == key[..i] && r[i] == b;
    DecidedAt(key, r, i);
    Total(r, key);
  }

  lemma FullIsSuccessor(key: seq<Byte>)
    requires forall j :: 0 <= j < |key| ==> key[j] == 0xff
    ensures IsSuccessor(key, key)
  {
    hide Less;
    Total(key, key);
    forall s: seq<Byte> | |s| < |key|
      ensures Less(s, key)
    {
      ShorterIsLess(s, key, |key|);
    }
  }

  method FindShortSuccessor(key: seq<Byte>) returns (r: seq<Byte>)
    ensures IsSuccessor(key, r)
  {
    hide IsSuccessor;
    for i := 0 to |key|
      invariant forall j :: 0 <= j < i ==> key[j] == 0xff
    {
      var byte := key[i];
      if byte != 0xff {
        CutIsSuccessor(key, i);
        return key[..i] + [byte + 1];
      }
    }
    FullIsSuccessor(key);
    r := key;
  }

  // ---- Internal keys ----

  // A user key with its tag, the packed sequence number and type: newer entries have greater tags.
  datatype Key = Key(user: seq<Byte>, tag: nat)

  const MAX_TAG: nat := 0xff_ffff_ffff_ffff * 256 + 1   // kMaxSequenceNumber and kValueTypeForSeek

  predicate KeyLess(a: Key, b: Key) {
    Less(a.user, b.user) || (a.user == b.user && a.tag > b.tag)
  }

  lemma KeyTotal(a: Key, b: Key)
    ensures KeyLess(a, b) || KeyLess(b, a) || a == b
    ensures !(KeyLess(a, b) && KeyLess(b, a)) && !(a == b && KeyLess(a, b))
  {
    Total(a.user, b.user);
  }

  lemma KeyTransitive(a: Key, b: Key, c: Key)
    requires KeyLess(a, b) && KeyLess(b, c)
    ensures KeyLess(a, c)
  {
    if Less(a.user, b.user) && Less(b.user, c.user) {
      Transitive(a.user, b.user, c.user);
    }
  }

  // An index key between two blocks: at least the last key of the one and below the first of the next.
  // It either is that last key, or stays below every entry of the next user key.
  ghost predicate Between(last: Key, first: Key, r: Key) {
    && !KeyLess(r, last) && KeyLess(r, first)
    && (r == last || (Less(last.user, r.user) && Less(r.user, first.user)))
  }

  lemma ShortenedIs(start: seq<Byte>, limit: seq<Byte>, r: seq<Byte>)
    requires IsCutBetween(start, limit, r)
    ensures forall n: nat :: HasRoomAt(start, limit, n) ==> n < |start| && r == start[..n] + [start[n] + 1] && Less(start, r)
    ensures (forall n: nat :: HasRoomAt(start, limit, n) ==> n + 1 == |start|) ==> |r| == |start|
  {
    hide Less;
    forall n: nat | HasRoomAt(start, limit, n)
      ensures Less(start, r)
    {
      NextByte(start[n]);
      DecidedAt(start, r, n);
    }
  }

  method FindShortestInternalSeparator(start: Key, limit: Key) returns (r: Key)
    ensures KeyLess(start, limit) ==> Between(start, limit, r)
    ensures forall n: nat :: HasRoomAt(start.user, limit.user, n) && n + 1 < |start.user| ==>
                               r == Key(start.user[..n] + [start.user[n] + 1], MAX_TAG)
    ensures (forall n: nat :: HasRoomAt(start.user, limit.user, n) ==> n + 1 == |start.user|) ==> r == start
  {
    hide Less, HasRoomAt;
    r := start;
    KeyTotal(start, start);
    var tmp := FindShortestSeparator(start.user, limit.user);
    Total(start.user, tmp);
    Total(start.user, limit.user);
    ShortenedIs(start.user, limit.user, tmp);
    if |tmp| < |start.user| && Less(start.user, tmp) {
      r := Key(tmp, MAX_TAG);
    }
  }

  // A shorter successor of the user key takes its place, with the first tag of all.
  method FindShortInternalSuccessor(key: Key) returns (r: Key)
    ensures !KeyLess(r, key) && (r == key || Less(key.user, r.user))
    ensures if exists i :: 0 <= i < |key.user| - 1 && key.user[i] != 0xff
            then r.tag == MAX_TAG && |r.user| < |key.user| && IsSuccessor(key.user, r.user) else r == key
  {
    hide Less;
    r := key;
    KeyTotal(key, key);
    var tmp := FindShortSuccessor(key.user);
    Total(tmp, key.user);
    if |tmp| < |key.user| && Less(key.user, tmp) {
      r := Key(tmp, MAX_TAG);
    }
  }
}
