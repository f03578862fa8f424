/** db/memtable.cc: entries of the memtable as bytes in an arena, in the order of the internal keys that
    they start with. */
module MemTables {
  import opened Bytes
  import opened Coding
  import opened Separators

  const MAX_SEQUENCE: nat := 0xff_ffff_ffff_ffff

  datatype ValueType = Deletion | Value

  datatype Item = Item(key: Key, value: seq<Byte>)

  // PackSequenceAndType
  function Packed(sequence: nat, kind: ValueType): nat {
    sequence * 256 + if kind == Value then 1 else 0
  }

  predicate Encodable(e: Item) {
    |e.key.user| + 8 < TWO_32 && |e.value| < TWO_32 && e.key.tag < TWO_64
  }

  function InternalBytes(k: Key): (s: seq<Byte>)
    ensures |s| == |k.user| + 8
  {
    k.user + Fixed(k.tag, 8)
  }

  // What MemTable::Add puts into the arena.
  function EntryBytes(e: Item): seq<Byte> {
    Prefixed(InternalBytes(e.key)) + Prefixed(e.value)
  }

  // The key that an entry or a lookup key starts with: the comparator of the table sees nothing else.
  function KeyAt(s: seq<Byte>): Key {
    match PrefixedAt(s)
    case Failed => Key([], 0)
    case Parsed(internal, _) =>
      if |internal| < 8 then Key([], 0) else Key(internal[..|internal| - 8], FromFixed(internal[|internal| - 8..]))
  }

  lemma KeyReadsBack(k: Key, rest: seq<Byte>)
    requires |k.user| + 8 < TWO_32 && k.tag < TWO_64
    ensures PrefixedAt(Prefixed(InternalBytes(k)) + rest) == Parsed(InternalBytes(k), rest)
    ensures KeyAt(Prefixed(InternalBytes(k)) + rest) == k
  {
    hide Prefixed, PrefixedAt, Fixed, FromFixed, Power;
    var internal := InternalBytes(k);
    PrefixedRoundTrip(internal, rest);
    PowersOf256();
    FixedRoundTrip(k.tag, 8);
    assert internal[..|internal| - 8] == k.user && internal[|internal| - 8..] == Fixed(k.tag, 8);
  }

  lemma ValueReadsBack(e: Item)
    requires Encodable(e)
    ensures KeyAt(EntryBytes(e)) == e.key
    ensures PrefixedAt(EntryBytes(e)) == Parsed(InternalBytes(e.key), Prefixed(e.value))
    ensures PrefixedAt(Prefixed(e.value)) == Parsed(e.value, [])
  {
    hide Prefixed, PrefixedAt, KeyAt, InternalBytes;
    KeyReadsBack(e.key, Prefixed(e.value));
    PrefixedRoundTrip(e.value, []);
    assert Prefixed(e.value) + [] == Prefixed(e.value);
  }

  // ---- What the table holds ----

  ghost predicate Ascending(items: seq<Item>) {
    forall i, j :: 0 <= i < j < |items| ==> KeyLess(items[i].key, items[j].key)
  }

  ghost predicate Visible(e: Item, user: seq<Byte>, sequence: nat) {
    e.key.user == user && e.key.tag / 256 <= sequence
  }

  // The newest of the items that a reader at this sequence number sees of a user key.
  ghost predicate Newest(items: seq<Item>, i: nat, user: seq<Byte>, sequence: nat) {
    && i < |items| && Visible(items[i], user, sequence)
    && forall j :: 0 <= j < |items| && Visible(items[j], user, sequence) ==> items[j].key.tag <= items[i].key.tag
  }

  datatype Found = Absent | Deleted | Present(value: seq<Byte>)

  function Outcome(e: Item): Found {
    if e.key.tag % 256 == 1 then Present(e.value) else if e.key.tag % 256 == 0 then Deleted else Absent
  }

  // What a reader at this sequence number is told about a user key.
  ghost predicate Answers(items: seq<Item>, user: seq<Byte>, sequence: nat, found: Found) {
    && ((exists i :: Newest(items, i, user, sequence)) || found == Absent)
    && forall i: nat :: Newest(items, i, user, sequence) ==> found == Outcome(items[i])
  }

  // The first item not below the lookup key is the newest visible one, or nothing is visible.
  lemma SeekFindsNewest(items: seq<Item>, c: nat, user: seq<Byte>, sequence: nat)
    requires Ascending(items) && c <= |items| && forall j :: 0 <= j < |items| ==> items[j].key.tag % 256 <= 1
    requires IsCut(items, c, Key(user, Packed(sequence, Value)))
    ensures c < |items| && items[c].key.user == user ==> Newest(items, c, user, sequence)
    ensures c == |items| || items[c].key.user != user ==> forall j :: 0 <= j < |items| ==> !Visible(items[j], user, sequence)
  {
    hide Less;
    var target := Key(user, Packed(sequence, Value));
    Total(user, user);
    forall j | 0 <= j < |items| && Visible(items[j], user, sequence)
      ensures c <= j && items[c].key.user == user && items[j].key.tag <= items[c].key.tag
    {
      assert items[j].key.tag <= target.tag;
      if c < j {
        Total(items[c].key.user, user);
      }
    }
    if c < |items| && items[c].key.user == user {
      assert items[c].key.tag <= target.tag;
    }
  }

  ghost predicate Holds(table: seq<seq<Byte>>, items: seq<Item>) {
    && |table| == |items| && Ascending(items)
    && forall i :: 0 <= i < |items| ==> Encodable(items[i]) && items[i].key.tag % 256 <= 1 && table[i] == EntryBytes(items[i])
  }

  ghost function Keys(items: seq<Item>): set<Key> {
    set i | 0 <= i < |items| :: items[i].key
  }

  lemma HoldsInserted(table: seq<seq<Byte>>, items: seq<Item>, c: nat, e: Item)
    requires Holds(table, items) && IsCut(items, c, e.key) && Encodable(e) && e.key.tag % 256 <= 1
    requires e.key !in Keys(items)
    ensures Holds(table[..c] + [EntryBytes(e)] + table[c..], Inserted(items, c, e))
  {
    hide KeyLess, EntryBytes, Encodable, Ascending, Inserted;
    InsertKeeps(items, c, e);
    InsertedAt(items, c, e);
    var after := table[..c] + [EntryBytes(e)] + table[c..];
    forall i | 0 <= i < |after|
      ensures Encodable(Inserted(items, c, e)[i]) && Inserted(items, c, e)[i].key.tag % 256 <= 1
      ensures after[i] == EntryBytes(Inserted(items, c, e)[i])
    {
      if c < i {
        assert Inserted(items, c, e)[i] == items[i - 1] && after[i] == table[i - 1];
      }
    }
  }

  class MemTable {
    var table: seq<seq<Byte>>        // the keys of the skip list, in its order
    ghost var items: seq<Item>

    ghost predicate Valid()
      reads this
    {
      Holds(table, items)
    }

    constructor ()
      ensures Valid() && items == []
    {
      table, items := [], [];
    }

    // MemTable::KeyComparator, as "less than": the bytes of two entries or lookup keys compare as the internal
    // keys do that they were made of.
    static method Compare(a: seq<Byte>, b: seq<Byte>, ghost k: Key, ghost m: Key, ghost r: seq<Byte>, ghost t: seq<Byte>)
      returns (less: bool)
      requires |k.user| + 8 < TWO_32 && k.tag < TWO_64 && |m.user| + 8 < TWO_32 && m.tag < TWO_64
      requires a == Prefixed(InternalBytes(k)) + r && b == Prefixed(InternalBytes(m)) + t
      ensures less <==> KeyLess(k, m)
    {
      hide Less, Prefixed, PrefixedAt, InternalBytes, FromFixed;
      KeyReadsBack(k, r);
      KeyReadsBack(m, t);
      InternalParts(k);
      InternalParts(m);
      var x := GetLengthPrefixedSlice(a);
      var y := GetLengthPrefixedSlice(b);
      var userX, userY := x.value[..|x.value| - 8], y.value[..|y.value| - 8];
      if userX == userY {
        less := FromFixed(x.value[|x.value| - 8..]) > FromFixed(y.value[|y.value| - 8..]);
        Total(userX, userY);
      } else {
        less := Less(userX, userY);
      }
    }

    lemma EntryAt(i: nat)
      requires Valid() && i < |items|
      ensures |table| == |items| && table[i] == EntryBytes(items[i]) && Encodable(items[i])
      ensures KeyAt(table[i]) == items[i].key
    {
      hide Ascending, EntryBytes, KeyAt, Encodable;
      ValueReadsBack(items[i]);
    }

    // The search of the skip list: the first key that is not below the target.
    method Seek(target: seq<Byte>, ghost k: Key, ghost rest: seq<Byte>) returns (c: nat)
      requires Valid() && |k.user| + 8 < TWO_32 && k.tag < TWO_64 && target == Prefixed(InternalBytes(k)) + rest
      ensures c <= |table| == |items| && IsCut(items, c, k)
    {
      hide Ascending, KeyLess, KeyAt, Prefixed, InternalBytes;
      c := 0;
      while c < |table|
        invariant c <= |table| && forall j :: 0 <= j < c ==> KeyLess(items[j].key, k)
      {
        EntryAt(c);
        var less := Compare(table[c], target, items[c].key, k, Prefixed(items[c].value), rest);
        if !less {
          RestNotBelow(items, c, k);
          return;
        }
        c := c + 1;
      }
    }

    method Add(sequence: nat, kind: ValueType, key: seq<Byte>, value: seq<Byte>) returns (ghost c: nat)
      requires Valid() && |key| + 8 < TWO_32 && |value| < TWO_32 && sequence <= MAX_SEQUENCE
      requires Key(key, Packed(sequence, kind)) !in Keys(items)
      modifies this
      ensures Valid()
      ensures c <= |old(items)| && items == Inserted(old(items), c, Item(Key(key, Packed(sequence, kind)), value))
    {
      hide Less, KeyLess, KeyAt, Varint, Fixed, EntryBytes, Prefixed, InternalBytes, Ascending, Inserted, IsCut, Holds, Packed;
      ghost var e := Item(Key(key, Packed(sequence, kind)), value);
      var buf := EncodeEntry(sequence, kind, key, value);
      TagIsSmall(sequence, kind);
      EntryParts(e);
      var at := Seek(buf, e.key, Prefixed(e.value));
      c := at;
      HoldsInserted(table, items, c, e);
      table := table[..at] + [buf] + table[at..];
      items := Inserted(items, c, e);
    }

    // Seeks to the lookup key and compares user keys; sequence numbers need no comparison.
    method Get(user: seq<Byte>, sequence: nat) returns (found: Found)
      requires Valid() && |user| + 8 < TWO_32 && sequence <= MAX_SEQUENCE
      ensures Answers(items, user, sequence, found)
    {
      hide Less, KeyLess, KeyAt, Fixed, EntryBytes, Ascending, Prefixed, PrefixedAt, IsCut, Newest, Visible, Power, FromFixed;
      var lookup := Key(user, Packed(sequence, Value));
      var memkey := Prefixed(InternalBytes(lookup));
      assert memkey == memkey + [];
      var c := Seek(memkey, lookup, []);
      SeekFindsNewest(items, c, user, sequence);
      NewestIsOne(items, c, user, sequence);
      found := Absent;
      if c < |table| {
        EntryAt(c);
        ValueReadsBack(items[c]);
        InternalParts(items[c].key);
        var entry := PrefixedAt(table[c]);
        var internal := entry.value;
        if internal[..|internal| - 8] == user {
          var tag := FromFixed(internal[|internal| - 8..]);
          if tag % 256 == 1 {
            found := Present(PrefixedAt(entry.rest).value);
          } else if tag % 256 == 0 {
            found := Deleted;
          }
        }
      }
    }
  }

  ghost predicate IsCut(items: seq<Item>, c: nat, target: Key) {
    && c <= |items|
    && (forall j :: 0 <= j < c ==> KeyLess(items[j].key, target))
    && (forall j :: c <= j < |items| ==> !KeyLess(items[j].key, target))
  }

  lemma RestNotBelow(items: seq<Item>, c: nat, target: Key)
    requires Ascending(items) && c < |items| && !KeyLess(items[c].key, target)
    requires forall j :: 0 <= j < c ==> KeyLess(items[j].key, target)
    ensures IsCut(items, c, target)
  {
    hide KeyLess;
    forall j | c < j < |items|
      ensures !KeyLess(items[j].key, target)
    {
      if KeyLess(items[j].key, target) {
        KeyTransitive(items[c].key, items[j].key, target);
      }
    }
  }

  lemma InternalParts(k: Key)
    requires k.tag < TWO_64
    ensures var internal := InternalBytes(k);
            internal[..|internal| - 8] == k.user && FromFixed(internal[|internal| - 8..]) == k.tag
  {
    hide Fixed, FromFixed, Power;
    PowersOf256();
    FixedRoundTrip(k.tag, 8);
    var internal := InternalBytes(k);
    assert internal[..|internal| - 8] == k.user && internal[|internal| - 8..] == Fixed(k.tag, 8);
  }

  // There is only one newest item of a user key.
  lemma NewestIsOne(items: seq<Item>, c: nat, user: seq<Byte>, sequence: nat)
    requires Ascending(items)
    ensures Newest(items, c, user, sequence) ==> forall i: nat :: Newest(items, i, user, sequence) ==> i == c
    ensures (forall j :: 0 <= j < |items| ==> !Visible(items[j], user, sequence)) ==> forall i: nat :: !Newest(items, i, user, sequence)
  {
    hide KeyLess;
    if Newest(items, c, user, sequence) {
      forall i: nat | Newest(items, i, user, sequence)
        ensures i == c
      {
        if i < c {
          KeyTotal(items[i].key, items[c].key);
        } else if c < i {
          KeyTotal(items[c].key, items[i].key);
        }
      }
    }
  }

  function Inserted(items: seq<Item>, c: nat, e: Item): seq<Item>
    requires c <= |items|
  {
    items[..c] + [e] + items[c..]
  }

  // MemTable::Add up to the insertion: the pieces of the entry, in a buffer of the computed length.
  method EncodeEntry(sequence: nat, kind: ValueType, key: seq<Byte>, value: seq<Byte>) returns (buf: seq<Byte>)
    requires |key| + 8 < TWO_32 && |value| < TWO_32
    ensures buf == EntryBytes(Item(Key(key, Packed(sequence, kind)), value))
  {
    hide Varint, Fixed, EntryBytes, Packed;
    EntryInPieces(Item(Key(key, Packed(sequence, kind)), value));
    var encodedLen := VarintLength(|key| + 8) + |key| + 8 + VarintLength(|value|) + |value|;
    buf := PutVarint32([], |key| + 8);
    buf := buf + key;
    buf := buf + Fixed(Packed(sequence, kind), 8);
    buf := PutVarint32(buf, |value|);
    buf := buf + value;
    assert |buf| == encodedLen;
  }

  lemma EntryParts(e: Item)
    ensures EntryBytes(e) == Prefixed(InternalBytes(e.key)) + Prefixed(e.value)
  {
    hide Prefixed, InternalBytes;
  }

  lemma TagIsSmall(sequence: nat, kind: ValueType)
    requires sequence <= MAX_SEQUENCE
    ensures Packed(sequence, kind) < TWO_64 && Packed(sequence, kind) % 256 <= 1
  {
  }

  // VarintLength of util/coding.cc
  function VarintLength(v: nat): (n: nat)
    ensures n == |Varint(v)|
  {
    if v >= 128 then VarintLength(v / 128) + 1 else 1
  }

  lemma EntryInPieces(e: Item)
    ensures EntryBytes(e) == [] + Varint(|e.key.user| + 8) + e.key.user + Fixed(e.key.tag, 8) + Varint(|e.value|) + e.value
  {
    hide Varint, Fixed;
  }

  lemma InsertKeeps(items: seq<Item>, c: nat, e: Item)
    requires Ascending(items) && c <= |items| && forall i :: 0 <= i < |items| ==> items[i].key != e.key
    requires IsCut(items, c, e.key)
    ensures Ascending(Inserted(items, c, e))
  {
    hide Less;
    forall j | c <= j < |items|
      ensures KeyLess(e.key, items[j].key)
    {
      KeyTotal(e.key, items[j].key);
    }
  }

  lemma InsertedAt(items: seq<Item>, c: nat, e: Item)
    requires c <= |items|
    ensures var after := Inserted(items, c, e);
            && |after| == |items| + 1
            && (forall i :: 0 <= i < c ==> after[i] == items[i])
            && after[c] == e
            && (forall i :: c < i < |after| ==> after[i] == items[i - 1])
  {
  }

  // What an insertion does to the reads of the table: the new item decides those that see it and nothing
  // newer, and leaves the others as they were.
  lemma InsertDecides(items: seq<Item>, c: nat, e: Item, user: seq<Byte>, sequence: nat)
    requires c <= |items| && e.key !in Keys(items)
    ensures Overtakes(items, e, user, sequence) ==> Newest(Inserted(items, c, e), c, user, sequence)
    ensures forall i: nat :: Newest(items, i, user, sequence) && !Overtakes(items, e, user, sequence) ==>
                               Newest(Inserted(items, c, e), if i < c then i else i + 1, user, sequence)
  {
    hide Inserted;
    InsertedAt(items, c, e);
    forall i: nat | Newest(items, i, user, sequence) && !Overtakes(items, e, user, sequence)
      ensures Newest(Inserted(items, c, e), if i < c then i else i + 1, user, sequence)
    {
    }
  }

  ghost predicate Overtakes(items: seq<Item>, e: Item, user: seq<Byte>, sequence: nat) {
    && Visible(e, user, sequence)
    && forall j :: 0 <= j < |items| && Visible(items[j], user, sequence) ==> items[j].key.tag < e.key.tag
  }

  // What was added is read: the value, or that the key is deleted, by every reader who sees it and nothing newer.
  lemma AddedIsRead(items: seq<Item>, c: nat, sequence: nat, kind: ValueType, key: seq<Byte>, value: seq<Byte>, reader: nat, found: Found)
    requires c <= |items| && Key(key, Packed(sequence, kind)) !in Keys(items) && sequence <= reader
    requires forall j :: 0 <= j < |items| && items[j].key.user == key && items[j].key.tag / 256 <= reader ==> items[j].key.tag / 256 < sequence
    requires Answers(Inserted(items, c, Item(Key(key, Packed(sequence, kind)), value)), key, reader, found)
    ensures found == if kind == Value then Present(value) else Deleted
  {
    hide Inserted;
    var e := Item(Key(key, Packed(sequence, kind)), value);
    InsertedAt(items, c, e);
    assert Packed(sequence, kind) / 256 == sequence;
    forall j | 0 <= j < |items| && Visible(items[j], key, reader)
      ensures items[j].key.tag < e.key.tag
    {
      OlderTag(items[j].key.tag, sequence, kind);
    }
    InsertDecides(items, c, e, key, reader);
    assert Overtakes(items, e, key, reader);
  }

  lemma OlderTag(tag: nat, sequence: nat, kind: ValueType)
    requires tag / 256 < sequence
    ensures tag < Packed(sequence, kind)
  {
  }

  // Readers of other keys, and those who do not see the new entry, are told what they were told before.
  lemma OthersAreTheSame(items: seq<Item>, c: nat, e: Item, user: seq<Byte>, reader: nat, found: Found)
    requires c <= |items| && e.key !in Keys(items) && (e.key.user != user || e.key.tag / 256 > reader)
    requires Answers(items, user, reader, found)
    ensures Answers(Inserted(items, c, e), user, reader, found)
  {
    hide Inserted, Outcome;
    var after := Inserted(items, c, e);
    InsertedAt(items, c, e);
    InsertDecides(items, c, e, user, reader);
    if i: nat :| Newest(items, i, user, reader) {
      assert Newest(after, if i < c then i else i + 1, user, reader);
    }
    forall i: nat | Newest(after, i, user, reader)
      ensures found == Outcome(after[i])
    {
      BackToOld(items, c, e, i, user, reader);
      assert Newest(items, if i < c then i else i - 1, user, reader);
    }
  }

  lemma BackToOld(items: seq<Item>, c: nat, e: Item, i: nat, user: seq<Byte>, reader: nat)
    requires c <= |items| && !Visible(e, user, reader) && Newest(Inserted(items, c, e), i, user, reader)
    ensures i != c && Newest(items, if i < c then i else i - 1, user, reader)
  {
    hide Inserted;
    var after := Inserted(items, c, e);
    InsertedAt(items, c, e);
    forall j | 0 <= j < |items| && Visible(items[j], user, reader)
      ensures items[j].key.tag <= after[i].key.tag
    {
      assert after[if j < c then j else j + 1] == items[j];
    }
  }
}
