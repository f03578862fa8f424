/** table/table_builder.cc, table/two_level_iterator.cc and table/table.cc: a table as data blocks with an
    index of separators. Blocks are cursors over their entries here; how they are stored is the matter of
    Blocks and BlockIterators. */
module Tables {
  import opened Options
  import Bytes
  import opened Separators

  datatype Entry = Entry(key: Key, value: string)

  ghost predicate Sorted(es: seq<Entry>) {
    forall i, j :: 0 <= i < j < |es| ==> KeyLess(es[i].key, es[j].key)
  }

  // All entries of the blocks, in order.
  function Flat(blocks: seq<seq<Entry>>): seq<Entry> {
    if blocks == [] then [] else Flat(blocks[..|blocks| - 1]) + blocks[|blocks| - 1]
  }

  // How many entries the first b blocks have.
  function Start(blocks: seq<seq<Entry>>, b: nat): nat
    requires b <= |blocks|
  {
    |Flat(blocks[..b])|
  }

  // What the index key of a block has to do with the block and with what comes after it.
  ghost predicate Routes(block: seq<Entry>, key: Key, rest: seq<Entry>) {
    && block != [] && !KeyLess(key, block[|block| - 1].key)
    && (rest != [] ==> Between(block[|block| - 1].key, rest[0].key, key))
  }

  // The entries right behind a block, the last of which is still being filled.
  function Following(blocks: seq<seq<Entry>>, dataBlock: seq<Entry>, b: nat): seq<Entry> {
    if b + 1 < |blocks| then blocks[b + 1] else dataBlock
  }

  // A table: sorted entries in blocks that are not empty, each with its index key.
  ghost predicate TableOk(blocks: seq<seq<Entry>>, index: seq<Key>) {
    && |index| == |blocks| && Sorted(Flat(blocks))
    && forall b: nat :: b < |blocks| ==> Routes(blocks[b], index[b], Following(blocks, [], b))
  }

  // ---- Places ----

  lemma StartNext(blocks: seq<seq<Entry>>, b: nat)
    requires b < |blocks|
    ensures Start(blocks, b + 1) == Start(blocks, b) + |blocks[b]|
  {
    assert blocks[..b + 1][..b] == blocks[..b];
  }

  lemma {:induction false} FlatPrefix(blocks: seq<seq<Entry>>, b: nat)
    requires b <= |blocks|
    ensures Flat(blocks[..b]) <= Flat(blocks)
    decreases |blocks|
  {
    var n := |blocks| - 1;
    if b <= n {
      assert blocks[..n][..b] == blocks[..b];
      FlatPrefix(blocks[..n], b);
    } else {
      assert blocks[..b] == blocks;
    }
  }

  // Entry j of block b.
  lemma EntryAt(blocks: seq<seq<Entry>>, b: nat, j: nat)
    requires b < |blocks| && j < |blocks[b]|
    ensures Start(blocks, b) + j < |Flat(blocks)| && Flat(blocks)[Start(blocks, b) + j] == blocks[b][j]
  {
    FlatPrefix(blocks, b + 1);
    assert blocks[..b + 1][..b] == blocks[..b];
    assert Flat(blocks[..b + 1])[Start(blocks, b) + j] == blocks[b][j];
  }

  lemma StartBound(blocks: seq<seq<Entry>>, b: nat)
    requires b <= |blocks|
    ensures Start(blocks, b) <= |Flat(blocks)| && Start(blocks, |blocks|) == |Flat(blocks)|
  {
    FlatPrefix(blocks, b);
    assert blocks[..|blocks|] == blocks;
  }

  // ---- The builder ----

  ghost predicate BuilderOk(blocks: seq<seq<Entry>>, index: seq<Key>, dataBlock: seq<Entry>, lastKey: Key, pending: bool) {
    && |blocks| == |index| + (if pending then 1 else 0)
    && (forall b: nat :: b < |index| ==> Routes(blocks[b], index[b], Following(blocks, dataBlock, b)))
    && (forall b: nat :: b < |blocks| ==> blocks[b] != [])
    && Sorted(Flat(blocks) + dataBlock)
    && (pending ==> dataBlock == []) && (blocks != [] && dataBlock == [] ==> pending)
    && (Flat(blocks) + dataBlock != [] ==> lastKey == Last(Flat(blocks) + dataBlock).key)
  }

  function Last(es: seq<Entry>): Entry
    requires es != []
  {
    es[|es| - 1]
  }

  class TableBuilder {
    const blockSize: nat
    const sizeOf: seq<Entry> -> nat        // CurrentSizeEstimate of a block with these entries
    var blocks: seq<seq<Entry>>            // the data blocks written so far
    var index: seq<Key>                    // the keys of the index block
    var dataBlock: seq<Entry>
    var lastKey: Key
    var pendingIndexEntry: bool            // the last block has no index key yet

    ghost function Added(): seq<Entry>
      reads this
    {
      Flat(blocks) + dataBlock
    }

    ghost predicate Valid()
      reads this
    {
      BuilderOk(blocks, index, dataBlock, lastKey, pendingIndexEntry)
    }

    constructor (blockSize: nat, sizeOf: seq<Entry> -> nat)
      ensures Valid() && Added() == []
    {
      this.blockSize, this.sizeOf := blockSize, sizeOf;
      blocks, index, dataBlock, pendingIndexEntry := [], [], [], false;
      lastKey := Key([], 0);
    }

    method Flush()
      requires Valid()
      modifies this
      ensures Valid() && Added() == old(Added()) && dataBlock == [] && lastKey == old(lastKey) && index == old(index)
      ensures pendingIndexEntry <==> blocks != []
    {
      hide BuilderOk, Flat;
      PendingBlocks(blocks, index, dataBlock, lastKey, pendingIndexEntry);
      if dataBlock == [] {
        return;
      }
      FlushKeeps(blocks, index, dataBlock, lastKey, pendingIndexEntry);
      blocks := blocks + [dataBlock];
      dataBlock := [];
      pendingIndexEntry := true;
    }

    method Add(key: Key, value: string)
      requires Valid() && (Added() != [] ==> KeyLess(Last(Added()).key, key))
      modifies this
      ensures Valid() && Added() == old(Added()) + [Entry(key, value)]
    {
      hide BuilderOk, Flat, KeyLess;
      var e := Entry(key, value);
      ghost var before := Added();
      if pendingIndexEntry {
        PendingLast(blocks, index, dataBlock, lastKey);
        lastKey := FindShortestInternalSeparator(lastKey, key);
        IndexKeeps(blocks, index, lastKey, e);
        index := index + [lastKey];
        pendingIndexEntry := false;
        assert dataBlock + [e] == [e];
      } else {
        EntryKeeps(blocks, index, dataBlock, lastKey, e);
      }
      lastKey := key;
      Assoc(Flat(blocks), dataBlock, e);
      dataBlock := dataBlock + [e];
      if sizeOf(dataBlock) >= blockSize {
        Flush();
      }
    }

    // The table holds exactly what was added, and its index routes every lookup.
    method Finish()
      requires Valid()
      modifies this
      ensures TableOk(blocks, index) && Flat(blocks) == old(Added())
    {
      hide BuilderOk, Flat, KeyLess, TableOk;
      Flush();
      if pendingIndexEntry {
        PendingLast(blocks, index, dataBlock, lastKey);
        lastKey := FindShortInternalSuccessor(lastKey);
        IndexCompletes(blocks, index, lastKey);
        index := index + [lastKey];
        pendingIndexEntry := false;
      } else {
        NoBlocks(blocks, index, lastKey);
      }
    }
  }

  lemma PendingBlocks(blocks: seq<seq<Entry>>, index: seq<Key>, dataBlock: seq<Entry>, lastKey: Key, pending: bool)
    requires BuilderOk(blocks, index, dataBlock, lastKey, pending)
    ensures dataBlock == [] ==> (pending <==> blocks != [])
  {
  }

  lemma FlushKeeps(blocks: seq<seq<Entry>>, index: seq<Key>, dataBlock: seq<Entry>, lastKey: Key, pending: bool)
    requires BuilderOk(blocks, index, dataBlock, lastKey, pending) && dataBlock != []
    ensures BuilderOk(blocks + [dataBlock], index, [], lastKey, true)
    ensures Flat(blocks + [dataBlock]) + [] == Flat(blocks) + dataBlock
  {
    assert (blocks + [dataBlock])[..|blocks|] == blocks;
    assert Flat(blocks + [dataBlock]) + [] == Flat(blocks) + dataBlock;
  }

  lemma PendingLast(blocks: seq<seq<Entry>>, index: seq<Key>, dataBlock: seq<Entry>, lastKey: Key)
    requires BuilderOk(blocks, index, dataBlock, lastKey, true)
    ensures dataBlock == [] && |blocks| == |index| + 1 && blocks[|index|] != [] && lastKey == Last(blocks[|index|]).key
    ensures Flat(blocks) + dataBlock == Flat(blocks) && Flat(blocks) != [] && Last(Flat(blocks)) == Last(blocks[|index|])
    ensures BuilderOk(blocks, index, [], Last(Flat(blocks)).key, true)
  {
    LastOfFlat(blocks);
  }

  // The index key is made when the first key of the next block is known.
  lemma IndexKeeps(blocks: seq<seq<Entry>>, index: seq<Key>, r: Key, e: Entry)
    requires Flat(blocks) != [] && BuilderOk(blocks, index, [], Last(Flat(blocks)).key, true)
    requires |blocks| == |index| + 1 && blocks[|index|] != [] && Last(Flat(blocks)) == Last(blocks[|index|])
    requires KeyLess(Last(Flat(blocks)).key, e.key) && Between(Last(Flat(blocks)).key, e.key, r)
    ensures BuilderOk(blocks, index + [r], [e], e.key, false)
  {
    hide KeyLess, Flat, Between, Sorted;
    BetweenIs(Last(Flat(blocks)).key, e.key, r);
    assert Flat(blocks) + [] == Flat(blocks);
    SortedMore(Flat(blocks), e);
    forall b: nat | b < |index + [r]| ensures Routes(blocks[b], (index + [r])[b], Following(blocks, [e], b)) {
      if b < |index| {
        assert Routes(blocks[b], index[b], Following(blocks, [], b));
      }
    }
  }

  lemma BetweenIs(last: Key, first: Key, r: Key)
    requires Between(last, first, r)
    ensures !KeyLess(r, last)
  {
  }

  lemma EntryKeeps(blocks: seq<seq<Entry>>, index: seq<Key>, dataBlock: seq<Entry>, lastKey: Key, e: Entry)
    requires BuilderOk(blocks, index, dataBlock, lastKey, false)
    requires Flat(blocks) + dataBlock != [] ==> KeyLess(Last(Flat(blocks) + dataBlock).key, e.key)
    ensures BuilderOk(blocks, index, dataBlock + [e], e.key, false)
  {
    hide KeyLess, Flat, Between;
    Assoc(Flat(blocks), dataBlock, e);
    SortedMore(Flat(blocks) + dataBlock, e);
    forall b: nat | b < |index| ensures Routes(blocks[b], index[b], Following(blocks, dataBlock + [e], b)) {
      assert Routes(blocks[b], index[b], Following(blocks, dataBlock, b));
    }
  }

  lemma Assoc(a: seq<Entry>, b: seq<Entry>, e: Entry)
    ensures a + (b + [e]) == a + b + [e]
  {
  }

  lemma IndexCompletes(blocks: seq<seq<Entry>>, index: seq<Key>, r: Key)
    requires Flat(blocks) != [] && BuilderOk(blocks, index, [], Last(Flat(blocks)).key, true)
    requires |blocks| == |index| + 1 && blocks[|index|] != [] && !KeyLess(r, Last(blocks[|index|]).key)
    ensures TableOk(blocks, index + [r])
  {
    hide KeyLess, Flat, Between;
    assert Flat(blocks) + [] == Flat(blocks);
    forall b: nat | b < |blocks| ensures Routes(blocks[b], (index + [r])[b], Following(blocks, [], b)) {
      if b < |index| {
        assert Routes(blocks[b], index[b], Following(blocks, [], b));
      }
    }
  }

  lemma NoBlocks(blocks: seq<seq<Entry>>, index: seq<Key>, lastKey: Key)
    requires BuilderOk(blocks, index, [], lastKey, false)
    ensures TableOk(blocks, index) && Flat(blocks) == Flat(blocks) + [] == []
  {
  }

  lemma SortedMore(es: seq<Entry>, e: Entry)
    requires Sorted(es) && (es != [] ==> KeyLess(es[|es| - 1].key, e.key))
    ensures Sorted(es + [e])
  {
    forall i | 0 <= i < |es| ensures KeyLess(es[i].key, e.key) {
      if i < |es| - 1 {
        KeyTransitive(es[i].key, es[|es| - 1].key, e.key);
      }
    }
  }

  lemma LastOfFlat(blocks: seq<seq<Entry>>)
    requires blocks != [] && blocks[|blocks| - 1] != []
    ensures Flat(blocks) != [] && Flat(blocks)[|Flat(blocks)| - 1] == blocks[|blocks| - 1][|blocks[|blocks| - 1]| - 1]
  {
  }

  // ---- The two-level cursor ----

  // The place of the first key that is not below the target.
  ghost predicate IsLowerBound(keys: seq<Key>, target: Key, p: nat) {
    && p <= |keys|
    && (forall i :: 0 <= i < p ==> KeyLess(keys[i], target))
    && (p < |keys| ==> !KeyLess(keys[p], target))
  }

  function Keys(es: seq<Entry>): (keys: seq<Key>)
    ensures |keys| == |es| && forall i :: 0 <= i < |es| ==> keys[i] == es[i].key
  {
    seq(|es|, i requires 0 <= i < |es| => es[i].key)
  }

  // What Seek of a block cursor finds.
  method SeekIn(keys: seq<Key>, target: Key) returns (p: nat)
    ensures IsLowerBound(keys, target, p)
  {
    p := 0;
    while p < |keys| && KeyLess(keys[p], target)
      invariant p <= |keys| && forall i :: 0 <= i < p ==> KeyLess(keys[i], target)
    {
      p := p + 1;
    }
  }

  // Where SeekToLast of a block cursor goes.
  function LastPlace(n: nat): nat {
    if n == 0 then 0 else n - 1
  }

  class TwoLevelIterator {
    const blocks: seq<seq<Entry>>
    const index: seq<Key>
    var indexPos: nat              // of the index cursor; the end when it is not valid
    var dataBlock: Option<nat>     // the block that the data cursor is open on
    var dataPos: nat

    constructor (blocks: seq<seq<Entry>>, index: seq<Key>)
      requires TableOk(blocks, index)
      ensures WellFormed() && !Valid() && this.blocks == blocks && this.index == index
    {
      this.blocks, this.index := blocks, index;
      indexPos, dataBlock, dataPos := |index|, None, 0;
    }

    ghost predicate Open()
      reads this
    {
      && TableOk(blocks, index) && indexPos <= |index|
      && (dataBlock.Some? ==> dataBlock.value == indexPos < |blocks| && dataPos <= |blocks[indexPos]|)
    }

    ghost predicate WellFormed()
      reads this
    {
      Open() && (!Valid() ==> dataBlock == None && indexPos == |index|)
    }

    predicate Valid()
      reads this
    {
      dataBlock.Some? && dataBlock.value < |blocks| && dataPos < |blocks[dataBlock.value]|
    }

    // The place among all entries of the table.
    ghost function At(): nat
      reads this
    {
      if Valid() then Start(blocks, dataBlock.value) + dataPos else |Flat(blocks)|
    }

    method InitDataBlock()
      requires TableOk(blocks, index) && indexPos <= |index| && (dataBlock.Some? ==> dataBlock.value < |blocks| && dataPos <= |blocks[dataBlock.value]|)
      modifies this`dataBlock, this`dataPos
      ensures Open() && (dataBlock.Some? <==> indexPos < |index|)
    {
      if indexPos == |index| {
        dataBlock := None;
      } else if dataBlock == Some(indexPos) {
        // already open on this block
      } else {
        dataBlock := Some(indexPos);
        dataPos := |blocks[indexPos]|;
      }
    }

    method SkipEmptyDataBlocksForward()
      requires Open() && (dataBlock == None ==> indexPos == |index|)
      modifies this
      ensures WellFormed()
      ensures At() == if old(dataBlock) == None then |Flat(blocks)| else Start(blocks, old(indexPos)) + old(dataPos)
    {
      hide TableOk, Start, Flat;
      TableSizes(blocks, index);
      while dataBlock == None || !Valid()
        invariant Open() && (dataBlock == None ==> indexPos == |index|)
        invariant dataBlock.Some? ==> old(dataBlock).Some? && Start(blocks, indexPos) + dataPos == Start(blocks, old(indexPos)) + old(dataPos)
        invariant dataBlock == None ==> old(dataBlock) == None || |Flat(blocks)| == Start(blocks, old(indexPos)) + old(dataPos)
        decreases |index| - indexPos, dataBlock.Some?
      {
        if indexPos == |index| {
          dataBlock := None;
          return;
        }
        StartNext(blocks, indexPos);
        StartBound(blocks, indexPos + 1);
        indexPos := indexPos + 1;
        InitDataBlock();
        if dataBlock.Some? {
          dataPos := 0;
        }
      }
    }

    method SkipEmptyDataBlocksBackward()
      requires Open() && (dataBlock == None ==> indexPos == |index|)
      requires dataBlock.Some? && !Valid() ==> indexPos > 0 || Start(blocks, indexPos) == 0
      modifies this
      ensures WellFormed()
      ensures old(Valid()) ==> At() == old(At())
      ensures old(dataBlock).Some? && !old(Valid()) ==>
                At() == if Start(blocks, old(indexPos)) == 0 then |Flat(blocks)| else Start(blocks, old(indexPos)) - 1
      ensures old(dataBlock) == None ==> At() == |Flat(blocks)|
    {
      hide TableOk, Flat;
      TableSizes(blocks, index);
      FirstStart(blocks);
      if indexPos > 0 && dataBlock.Some? {
        StartNext(blocks, indexPos - 1);
      }
      while dataBlock == None || !Valid()
        invariant Open() && (dataBlock == None ==> indexPos == |index|)
        invariant Valid() || unchanged(this) || (dataBlock == None && (old(dataBlock) == None || Start(blocks, old(indexPos)) == 0))
        invariant Valid() ==> unchanged(this) || (old(dataBlock).Some? && !old(Valid()) && At() == Start(blocks, old(indexPos)) - 1 >= 0)
        decreases !Valid(), dataBlock.Some?
      {
        if indexPos == |index| {
          dataBlock := None;
          return;
        }
        indexPos := if indexPos == 0 then |index| else indexPos - 1;
        InitDataBlock();
        if dataBlock.Some? {
          dataPos := LastPlace(|blocks[indexPos]|);
        }
      }
    }

    method SeekToFirst()
      requires WellFormed()
      modifies this
      ensures WellFormed() && At() == 0
    {
      FirstStart(blocks);
      NoneAtAll(blocks);
      indexPos := 0;
      InitDataBlock();
      if dataBlock.Some? {
        dataPos := 0;
      }
      SkipEmptyDataBlocksForward();
    }

    method Next()
      requires WellFormed() && Valid()
      modifies this
      ensures WellFormed() && At() == old(At()) + 1
    {
      dataPos := dataPos + 1;
      SkipEmptyDataBlocksForward();
    }

    method SeekToLast()
      requires WellFormed()
      modifies this
      ensures WellFormed() && At() == if Flat(blocks) == [] then 0 else |Flat(blocks)| - 1
    {
      hide TableOk, Flat;
      TableSizes(blocks, index);
      NoneAtAll(blocks);
      indexPos := if |index| == 0 then 0 else |index| - 1;
      InitDataBlock();
      if dataBlock.Some? {
        StartNext(blocks, indexPos);
        StartBound(blocks, |blocks|);
        dataPos := LastPlace(|blocks[indexPos]|);
      }
      SkipEmptyDataBlocksBackward();
    }

    method Prev()
      requires WellFormed() && Valid()
      modifies this
      ensures WellFormed() && At() == if old(At()) == 0 then |Flat(blocks)| else old(At()) - 1
    {
      FirstStart(blocks);
      dataPos := if dataPos == 0 then |blocks[indexPos]| else dataPos - 1;
      SkipEmptyDataBlocksBackward();
    }

    // The same place as a search of the whole table.
    method Seek(target: Key)
      requires WellFormed()
      modifies this
      ensures WellFormed() && IsLowerBound(Keys(Flat(blocks)), target, At())
    {
      hide TableOk, Start, Flat, IsLowerBound, KeyLess;
      indexPos := SeekIn(index, target);
      BoundFits(index, target, indexPos);
      InitDataBlock();
      if dataBlock.Some? {
        dataPos := SeekIn(Keys(blocks[indexPos]), target);
        BoundFits(Keys(blocks[indexPos]), target, dataPos);
        RoutedSeek(blocks, index, target, indexPos, dataPos);
      } else {
        BehindAll(blocks, index, target);
      }
      SkipEmptyDataBlocksForward();
    }
  }

  lemma TableSizes(blocks: seq<seq<Entry>>, index: seq<Key>)
    requires TableOk(blocks, index)
    ensures |blocks| == |index| && forall b :: 0 <= b < |blocks| ==> blocks[b] != []
  {
    hide TableOk;
    forall b: nat | b < |blocks| ensures blocks[b] != [] {
      RouteAt(blocks, index, b);
    }
    SameSize(blocks, index);
  }

  lemma SameSize(blocks: seq<seq<Entry>>, index: seq<Key>)
    requires TableOk(blocks, index)
    ensures |blocks| == |index|
  {
  }

  lemma RouteAt(blocks: seq<seq<Entry>>, index: seq<Key>, b: nat)
    requires TableOk(blocks, index) && b < |blocks|
    ensures |blocks| == |index| && blocks[b] != [] && !KeyLess(index[b], Last(blocks[b]).key)
    ensures b + 1 < |blocks| ==> blocks[b + 1] != [] && Between(Last(blocks[b]).key, blocks[b + 1][0].key, index[b])
  {
    hide KeyLess, Between, Sorted, Flat;
    assert Routes(blocks[b], index[b], Following(blocks, [], b));
    if b + 1 < |blocks| {
      assert Routes(blocks[b + 1], index[b + 1], Following(blocks, [], b + 1));
    }
  }

  lemma IsSorted(blocks: seq<seq<Entry>>, index: seq<Key>)
    requires TableOk(blocks, index)
    ensures Sorted(Flat(blocks))
  {
  }

  lemma FirstStart(blocks: seq<seq<Entry>>)
    ensures Start(blocks, 0) == 0
  {
  }

  lemma NoneAtAll(blocks: seq<seq<Entry>>)
    ensures blocks == [] ==> Flat(blocks) == []
  {
  }

  lemma BoundFits(keys: seq<Key>, target: Key, p: nat)
    requires IsLowerBound(keys, target, p)
    ensures p <= |keys|
  {
  }

  // Entries of the blocks before the one that the index leads to are below the target.
  lemma EarlierBlocks(blocks: seq<seq<Entry>>, index: seq<Key>, target: Key, b: nat)
    requires TableOk(blocks, index) && b <= |blocks| && forall i :: 0 <= i < b ==> KeyLess(index[i], target)
    ensures Start(blocks, b) <= |Flat(blocks)|
    ensures forall i :: 0 <= i < Start(blocks, b) ==> KeyLess(Flat(blocks)[i].key, target)
  {
    hide Start, Flat, KeyLess, TableOk;
    StartBound(blocks, b);
    FirstStart(blocks);
    IsSorted(blocks, index);
    if b > 0 {
      TableSizes(blocks, index);
      var last := |blocks[b - 1]| - 1;
      EntryAt(blocks, b - 1, last);
      StartNext(blocks, b - 1);
      RouteAt(blocks, index, b - 1);
      var all, end := Flat(blocks), Start(blocks, b) - 1;
      NotAbove(all[end].key, index[b - 1], target);
      forall i | 0 <= i < Start(blocks, b) ensures KeyLess(all[i].key, target) {
        if i < end {
          KeyTransitive(all[i].key, all[end].key, target);
        }
      }
    }
  }

  lemma NotAbove(a: Key, b: Key, c: Key)
    requires !KeyLess(b, a) && KeyLess(b, c)
    ensures KeyLess(a, c)
  {
    KeyTotal(a, b);
    if KeyLess(a, b) {
      KeyTransitive(a, b, c);
    }
  }

  lemma BehindAll(blocks: seq<seq<Entry>>, index: seq<Key>, target: Key)
    requires TableOk(blocks, index) && IsLowerBound(index, target, |index|)
    ensures IsLowerBound(Keys(Flat(blocks)), target, |Flat(blocks)|)
  {
    TableSizes(blocks, index);
    EarlierBlocks(blocks, index, target, |blocks|);
    StartBound(blocks, |blocks|);
  }

  // The index leads to the block of the target, or to the one whose end the target lies behind.
  lemma RoutedSeek(blocks: seq<seq<Entry>>, index: seq<Key>, target: Key, b: nat, j: nat)
    requires TableOk(blocks, index) && b < |blocks|
    requires IsLowerBound(index, target, b) && IsLowerBound(Keys(blocks[b]), target, j)
    ensures IsLowerBound(Keys(Flat(blocks)), target, Start(blocks, b) + j)
  {
    hide Start, Flat, KeyLess, TableOk;
    TableSizes(blocks, index);
    EarlierBlocks(blocks, index, target, b);
    StartNext(blocks, b);
    StartBound(blocks, b + 1);
    var all := Flat(blocks);
    forall i | Start(blocks, b) <= i < Start(blocks, b) + j ensures KeyLess(all[i].key, target) {
      EntryAt(blocks, b, i - Start(blocks, b));
    }
    if j < |blocks[b]| {
      EntryAt(blocks, b, j);
    } else if b + 1 < |blocks| {
      EntryAt(blocks, b + 1, 0);
      RouteAt(blocks, index, b);
      NotBelow(index[b], blocks[b + 1][0].key, target);
    } else {
      StartBound(blocks, |blocks|);
    }
  }

  lemma NotBelow(a: Key, b: Key, c: Key)
    requires KeyLess(a, b) && !KeyLess(a, c)
    ensures !KeyLess(b, c)
  {
    if KeyLess(b, c) {
      KeyTransitive(a, b, c);
    }
  }

  // ---- Looking up one key ----

  // InternalGet: the index, the filter of the block, then the block. `mayMatch` is the filter's answer for
  // a block and a user key.
  method InternalGet(blocks: seq<seq<Entry>>, index: seq<Key>, mayMatch: (nat, seq<Bytes.Byte>) -> bool, k: Key)
    returns (found: Option<Entry>)
    requires TableOk(blocks, index)
    requires forall b, i :: 0 <= b < |blocks| && 0 <= i < |blocks[b]| ==> mayMatch(b, blocks[b][i].key.user)
    ensures forall p: nat :: IsLowerBound(Keys(Flat(blocks)), k, p) ==>
              if p < |Flat(blocks)| && Flat(blocks)[p].key.user == k.user then found == Some(Flat(blocks)[p])
              else found.Some? ==> found.value.key.user != k.user
  {
    hide TableOk, Start, Flat, KeyLess, IsLowerBound, Less;
    TableSizes(blocks, index);
    var b := SeekIn(index, k);
    BoundFits(index, k, b);
    if b < |index| {
      var j := SeekIn(Keys(blocks[b]), k);
      BoundFits(Keys(blocks[b]), k, j);
      RoutedSeek(blocks, index, k, b, j);
      OneBound(Keys(Flat(blocks)), k, Start(blocks, b) + j);
      if j < |blocks[b]| {
        EntryAt(blocks, b, j);
      } else {
        NextBlockDiffers(blocks, index, k, b);
      }
      if !mayMatch(b, k.user) {
        found := None;
      } else {
        found := if j < |blocks[b]| then Some(blocks[b][j]) else None;
      }
    } else {
      BehindAll(blocks, index, k);
      OneBound(Keys(Flat(blocks)), k, |Flat(blocks)|);
      found := None;
    }
  }

  lemma OneBound(keys: seq<Key>, target: Key, p: nat)
    requires IsLowerBound(keys, target, p)
    ensures p <= |keys| && forall q: nat :: IsLowerBound(keys, target, q) ==> q == p
  {
    hide IsLowerBound;
    BoundFits(keys, target, p);
    forall q: nat ensures IsLowerBound(keys, target, q) ==> q == p {
      if q != p {
        NoOtherBound(keys, target, p, q);
      }
    }
  }

  lemma NoOtherBound(keys: seq<Key>, target: Key, p: nat, q: nat)
    requires IsLowerBound(keys, target, p) && q != p
    ensures !IsLowerBound(keys, target, q)
  {
    if q < p {
      assert KeyLess(keys[q], target);
    } else if p < q <= |keys| {
      assert !KeyLess(keys[p], target);
    }
  }

  // A shortened index key never reaches the user key of the next block, so a target between the two has
  // no entry there.
  lemma NextBlockDiffers(blocks: seq<seq<Entry>>, index: seq<Key>, k: Key, b: nat)
    requires TableOk(blocks, index) && b < |blocks| && IsLowerBound(index, k, b)
    requires IsLowerBound(Keys(blocks[b]), k, |blocks[b]|)
    ensures Start(blocks, b) + |blocks[b]| <= |Flat(blocks)|
    ensures var p := Start(blocks, b) + |blocks[b]|; p < |Flat(blocks)| ==> Flat(blocks)[p].key.user != k.user
  {
    hide Start, Flat, TableOk, Less;
    RouteAt(blocks, index, b);
    StartNext(blocks, b);
    StartBound(blocks, b + 1);
    StartBound(blocks, |blocks|);
    if b + 1 < |blocks| {
      EntryAt(blocks, b + 1, 0);
      var last, first := Last(blocks[b]).key, blocks[b + 1][0].key;
      assert KeyLess(Keys(blocks[b])[|blocks[b]| - 1], k);
      Total(index[b].user, first.user);
      Total(k.user, index[b].user);
      if Less(k.user, index[b].user) {
        UserBelow(k.user, index[b].user, first.user);
      }
    }
  }

  lemma UserBelow(a: seq<Bytes.Byte>, b: seq<Bytes.Byte>, c: seq<Bytes.Byte>)
    requires Less(a, b)
    ensures Less(b, c) ==> a != c && Less(a, c)
  {
    if Less(b, c) {
      Transitive(a, b, c);
      Total(a, c);
    }
  }
}
