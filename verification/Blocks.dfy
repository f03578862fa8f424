/** table/block_builder.cc: a block of sorted entries. A key is stored without the prefix that it shares with
    the key before it, except at the restart points, whose offsets stand at the end of the block. */
module Blocks {
  import opened Bytes
  import opened Coding

  datatype Entry = Entry(key: seq<Byte>, value: seq<Byte>)

  function Min(a: nat, b: nat): nat {
    if a < b then a else b
  }

  // How long the common prefix is.
  function CommonPrefix(a: seq<Byte>, b: seq<Byte>): (n: nat)
    ensures n <= |a| && n <= |b| && a[..n] == b[..n] && (n < |a| && n < |b| ==> a[n] != b[n])
  {
    if a == [] || b == [] || a[0] != b[0] then 0
    else
      var n := CommonPrefix(a[1..], b[1..]);
      assert a[..n + 1] == [a[0]] + a[1..][..n] && b[..n + 1] == [b[0]] + b[1..][..n];
      n + 1
  }

  lemma {:induction false} CommonPrefixIs(a: seq<Byte>, b: seq<Byte>, n: nat)
    requires n <= |a| && n <= |b| && a[..n] == b[..n] && (n == |a| || n == |b| || a[n] != b[n])
    ensures CommonPrefix(a, b) == n
  {
    if n > 0 {
      assert a[0] == a[..n][0] && b[0] == b[..n][0];
      assert a[1..][..n - 1] == a[..n][1..] && b[1..][..n - 1] == b[..n][1..];
      CommonPrefixIs(a[1..], b[1..], n - 1);
    }
  }

  // ---- The format ----

  predicate IsRestart(i: nat, interval: nat)
    requires interval > 0
  {
    i % interval == 0
  }

  // How many entries there are since the last restart point.
  function CounterAfter(n: nat, interval: nat): nat
    requires interval > 0
  {
    if n == 0 then 0 else (n - 1) % interval + 1
  }

  // The bytes of the key that are not stored; every interval-th entry is a restart point.
  function SharedAt(es: seq<Entry>, interval: nat, i: nat): (n: nat)
    requires interval > 0 && i < |es|
    ensures n <= |es[i].key|
  {
    if IsRestart(i, interval) then 0 else CommonPrefix(es[i - 1].key, es[i].key)
  }

  function EntryBytes(shared: nat, e: Entry): (s: seq<Byte>)
    requires shared <= |e.key|
    ensures |s| >= 3
  {
    Varint(shared) + Varint(|e.key| - shared) + Varint(|e.value|) + e.key[shared..] + e.value
  }

  function Data(es: seq<Entry>, interval: nat): seq<Byte>
    requires interval > 0
  {
    if es == [] then []
    else
      var n := |es| - 1;
      Data(es[..n], interval) + EntryBytes(SharedAt(es, interval, n), es[n])
  }

  function Offset(es: seq<Entry>, interval: nat, i: nat): nat
    requires interval > 0 && i <= |es|
  {
    |Data(es[..i], interval)|
  }

  // There is always a first restart point, even in an empty block.
  function NumRestarts(n: nat, interval: nat): (r: nat)
    requires interval > 0
    ensures r > 0
  {
    if n == 0 then 1 else (n - 1) / interval + 1
  }

  lemma RestartInRange(n: nat, interval: nat, r: nat)
    requires interval > 0 && r < NumRestarts(n, interval)
    ensures r * interval <= n && (n > 0 ==> r * interval < n)
    ensures n > 0 ==> n <= NumRestarts(n, interval) * interval
  {
    if n > 0 {
      assert r <= (n - 1) / interval;
      Multiples(n - 1, interval, r);
    }
  }

  lemma Multiples(n: nat, interval: nat, r: nat)
    requires interval > 0
    ensures r <= n / interval <==> r * interval <= n
    ensures n < (n / interval + 1) * interval
  {
    var q := n / interval;
    assert n == q * interval + n % interval;
    if r <= q {
      assert r * interval <= q * interval;
    } else {
      assert (q + 1) * interval <= r * interval;
      assert (q + 1) * interval == q * interval + interval;
    }
  }

  function RestartOffset(es: seq<Entry>, interval: nat, r: nat): nat
    requires interval > 0 && r < NumRestarts(|es|, interval)
  {
    RestartInRange(|es|, interval, r);
    Offset(es, interval, r * interval)
  }

  function RestartOffsets(es: seq<Entry>, interval: nat): (s: seq<nat>)
    requires interval > 0
    ensures |s| == NumRestarts(|es|, interval)
  {
    seq(NumRestarts(|es|, interval), r requires 0 <= r < NumRestarts(|es|, interval) => RestartOffset(es, interval, r))
  }

  function Block(es: seq<Entry>, interval: nat): seq<Byte>
    requires interval > 0
  {
    var restarts := RestartOffsets(es, interval);
    Data(es, interval) + FixedArray(restarts) + Fixed(|restarts|, 4)
  }

  // Earlier entries are stored the same way whatever follows.
  lemma SharedInPrefix(es: seq<Entry>, interval: nat, k: nat, i: nat)
    requires interval > 0 && i < k <= |es|
    ensures SharedAt(es[..k], interval, i) == SharedAt(es, interval, i)
  {
  }

  lemma DataGrows(es: seq<Entry>, interval: nat, i: nat)
    requires interval > 0 && i < |es|
    ensures Data(es[..i + 1], interval) == Data(es[..i], interval) + EntryBytes(SharedAt(es, interval, i), es[i])
  {
    hide EntryBytes;
    SharedInPrefix(es, interval, i + 1, i);
    assert es[..i + 1][..i] == es[..i];
  }

  lemma {:induction false} DataPrefix(es: seq<Entry>, interval: nat, i: nat, k: nat)
    requires interval > 0 && i <= k <= |es|
    ensures Data(es[..i], interval) <= Data(es[..k], interval)
    decreases k
  {
    hide EntryBytes, SharedAt, Data;
    if i < k {
      DataPrefix(es, interval, i, k - 1);
      DataGrows(es, interval, k - 1);
    }
  }

  lemma {:induction false} OffsetsRise(es: seq<Entry>, interval: nat, i: nat, k: nat)
    requires interval > 0 && i < k <= |es|
    ensures Offset(es, interval, i) + 3 <= Offset(es, interval, k)
    decreases k
  {
    hide EntryBytes, SharedAt, Data;
    DataGrows(es, interval, k - 1);
    if i < k - 1 {
      OffsetsRise(es, interval, i, k - 1);
    }
  }

  // The next entry, the n-th, starts over when the counter has reached the interval.
  lemma NextRestart(n: nat, interval: nat)
    requires interval > 0
    ensures n > 0 && IsRestart(n, interval) ==>
              NumRestarts(n + 1, interval) == NumRestarts(n, interval) + 1 && NumRestarts(n, interval) * interval == n
    ensures n == 0 || !IsRestart(n, interval) ==> NumRestarts(n + 1, interval) == NumRestarts(n, interval)
    ensures CounterAfter(n, interval) < interval <==> n == 0 || !IsRestart(n, interval)
    ensures CounterAfter(n + 1, interval) == if n > 0 && IsRestart(n, interval) then 1 else CounterAfter(n, interval) + 1
    ensures IsRestart(0, interval)
  {
    if n > 0 {
      var q, m := (n - 1) / interval, (n - 1) % interval;
      assert n - 1 == q * interval + m;
      if m + 1 == interval {
        assert n == (q + 1) * interval;
        Quotient(n, interval, q + 1, 0);
      } else {
        Quotient(n, interval, q, m + 1);
      }
    }
  }

  lemma Quotient(n: nat, d: nat, q: nat, m: nat)
    requires d > 0 && n == q * d + m && m < d
    ensures n / d == q && n % d == m
  {
    var q', m' := n / d, n % d;
    assert n == q' * d + m';
    TimesGrows(q', q, d);
    TimesGrows(q, q', d);
  }

  lemma {:induction false} TimesGrows(a: nat, b: nat, d: nat)
    ensures a < b ==> a * d + d <= b * d
    decreases b
  {
    if a < b {
      TimesGrows(a, b - 1, d);
      assert b * d == (b - 1) * d + d;
    }
  }

  // ---- The builder ----

  class BlockBuilder {
    const interval: nat
    var buffer: seq<Byte>
    var restarts: seq<nat>
    var counter: nat
    var lastKey: seq<Byte>
    ghost var entries: seq<Entry>

    ghost predicate Valid()
      reads this
    {
      && interval >= 1
      && buffer == Data(entries, interval)
      && restarts == RestartOffsets(entries, interval)
      && counter == CounterAfter(|entries|, interval)
      && lastKey == (if entries == [] then [] else entries[|entries| - 1].key)
    }

    constructor (interval: nat)
      requires interval >= 1
      ensures Valid() && entries == [] && this.interval == interval
    {
      this.interval := interval;
      buffer, restarts, counter, lastKey, entries := [], [0], 0, [], [];
    }

    method Reset()
      requires Valid()
      modifies this
      ensures Valid() && entries == []
    {
      buffer, restarts, counter, lastKey, entries := [], [0], 0, [], [];
    }

    // The loop that compares a key with the one before it.
    static method SharedWith(lastKey: seq<Byte>, key: seq<Byte>) returns (shared: nat)
      ensures shared == CommonPrefix(lastKey, key)
    {
      shared := 0;
      var minLength := Min(|lastKey|, |key|);
      while shared < minLength && lastKey[shared] == key[shared]
        invariant shared <= minLength && lastKey[..shared] == key[..shared]
      {
        assert lastKey[..shared + 1] == lastKey[..shared] + [lastKey[shared]];
        assert key[..shared + 1] == key[..shared] + [key[shared]];
        shared := shared + 1;
      }
      CommonPrefixIs(lastKey, key, shared);
    }

    method Add(key: seq<Byte>, value: seq<Byte>)
      requires Valid() && |key| < TWO_32 && |value| < TWO_32
      modifies this
      ensures Valid() && entries == old(entries) + [Entry(key, value)]
    {
      hide *;
      ghost var es, n := entries + [Entry(key, value)], |entries|;
      ValidIs();
      NextRestart(n, interval);
      RestartsGrow(entries, interval, Entry(key, value));
      var shared := 0;
      if counter < interval {
        shared := SharedWith(lastKey, key);
      } else {
        restarts := restarts + [|buffer|];
        counter := 0;
      }
      SharedIs(entries, interval, Entry(key, value));
      var nonShared := |key| - shared;
      EntryAppended(buffer, shared, Entry(key, value));
      buffer := PutVarint32(buffer, shared);
      buffer := PutVarint32(buffer, nonShared);
      buffer := PutVarint32(buffer, |value|);
      buffer := buffer + key[shared..];
      buffer := buffer + value;
      DataAppended(entries, interval, Entry(key, value));
      KeyRebuilt(lastKey, key, shared);
      lastKey := lastKey[..shared];
      lastKey := lastKey + key[shared..];
      counter := counter + 1;
      entries := es;
      ValidIs();
    }

    lemma ValidIs()
      ensures Valid() <==>
                && interval >= 1
                && buffer == Data(entries, interval)
                && restarts == RestartOffsets(entries, interval)
                && counter == CounterAfter(|entries|, interval)
                && lastKey == (if entries == [] then [] else entries[|entries| - 1].key)
    {
      hide Data, RestartOffsets, CounterAfter;
    }

    method Finish() returns (block: seq<Byte>)
      requires Valid() && |restarts| < TWO_32
      ensures block == Block(entries, interval)
    {
      hide Data, RestartOffsets, Fixed;
      block := buffer;
      assert restarts[..0] == [];
      for i := 0 to |restarts|
        invariant block == buffer + FixedArray(restarts[..i])
      {
        ArrayGrows(buffer, restarts, i);
        block := block + Fixed(restarts[i], 4);
      }
      assert restarts[..|restarts|] == restarts;
      block := block + Fixed(|restarts|, 4);
    }
  }

  lemma DataAppended(es: seq<Entry>, interval: nat, e: Entry)
    requires interval > 0
    ensures Data(es + [e], interval) == Data(es, interval) + EntryBytes(SharedAt(es + [e], interval, |es|), e)
  {
    hide EntryBytes, SharedAt;
    assert (es + [e])[..|es|] == es;
  }

  lemma KeyRebuilt(lastKey: seq<Byte>, key: seq<Byte>, shared: nat)
    requires shared <= |lastKey| && shared <= |key| && lastKey[..shared] == key[..shared]
    ensures lastKey[..shared] + key[shared..] == key
  {
  }

  lemma SharedIs(es: seq<Entry>, interval: nat, e: Entry)
    requires interval > 0
    ensures SharedAt(es + [e], interval, |es|)
            == if IsRestart(|es|, interval) || es == [] then 0 else CommonPrefix(es[|es| - 1].key, e.key)
    ensures CommonPrefix([], e.key) == 0
  {
    hide CommonPrefix;
    CommonPrefixIs([], e.key, 0);
  }

  lemma EntryAppended(buffer: seq<Byte>, shared: nat, e: Entry)
    requires shared <= |e.key|
    ensures buffer + Varint(shared) + Varint(|e.key| - shared) + Varint(|e.value|) + e.key[shared..] + e.value
            == buffer + EntryBytes(shared, e)
  {
    hide Varint;
  }

  lemma ArrayGrows(buffer: seq<Byte>, restarts: seq<nat>, i: nat)
    requires i < |restarts|
    ensures buffer + FixedArray(restarts[..i + 1]) == buffer + FixedArray(restarts[..i]) + Fixed(restarts[i], 4)
  {
    hide Fixed;
    assert restarts[..i + 1][..i] == restarts[..i];
  }

  // A new entry brings a restart point, or none.
  lemma RestartsGrow(es: seq<Entry>, interval: nat, e: Entry)
    requires interval > 0
    ensures var n := |es|;
            RestartOffsets(es + [e], interval)
            == RestartOffsets(es, interval) + if n > 0 && IsRestart(n, interval) then [|Data(es, interval)|] else []
  {
    hide Data;
    var n := |es|;
    var es' := es + [e];
    NextRestart(n, interval);
    forall r: nat | r < NumRestarts(n, interval)
      ensures RestartOffset(es', interval, r) == RestartOffset(es, interval, r)
    {
      RestartInRange(n, interval, r);
      assert es'[..r * interval] == es[..r * interval];
    }
    assert es'[..n] == es;
  }
}
