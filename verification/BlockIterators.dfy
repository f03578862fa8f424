/** table/block.cc: the cursor over a block, which has no index but the restart points. */
module BlockIterators {
  import opened Bytes
  import opened Coding
  import opened Blocks

  // ---- Decoding ----

  datatype Decoded = NoEntry | Decoded(shared: nat, nonShared: nat, valueLength: nat, p: nat)

  // DecodeEntry: three lengths at p, one byte each on the fast path, and room for what they announce.
  function DecodeEntry(data: seq<Byte>, p: nat, limit: nat): Decoded
    requires p <= limit <= |data|
  {
    if limit - p < 3 then NoEntry
    else
      var shared, nonShared, valueLength := DecodeByte(data[p]), DecodeByte(data[p + 1]), DecodeByte(data[p + 2]);
      if shared < 128 && nonShared < 128 && valueLength < 128 then
        CheckRoom(Decoded(shared, nonShared, valueLength, p + 3), limit)
      else
        match Varint32At(data[p..limit])
        case Failed => NoEntry
        case Parsed(shared', rest) =>
          match Varint32At(rest)
          case Failed => NoEntry
          case Parsed(nonShared', rest') =>
            match Varint32At(rest')
            case Failed => NoEntry
            case Parsed(valueLength', rest'') =>
              RestFits(data[p..limit], rest, rest', rest'');
              CheckRoom(Decoded(shared', nonShared', valueLength', limit - |rest''|), limit)
  }

  lemma RestFits(s: seq<Byte>, rest: seq<Byte>, rest': seq<Byte>, rest'': seq<Byte>)
    requires Varint32At(s).Parsed? && Varint32At(s).rest == rest
    requires Varint32At(rest).Parsed? && Varint32At(rest).rest == rest'
    requires Varint32At(rest').Parsed? && Varint32At(rest').rest == rest''
    ensures |rest''| <= |s|
  {
  }

  function CheckRoom(d: Decoded, limit: nat): Decoded
    requires d.Decoded? && d.p <= limit
  {
    if limit - d.p < (d.nonShared + d.valueLength) % TWO_32 then NoEntry else d
  }

  function HeaderLength(shared: nat, e: Entry): nat
    requires shared <= |e.key|
  {
    |Varint(shared)| + |Varint(|e.key| - shared)| + |Varint(|e.value|)|
  }

  ghost predicate EntryFits(e: Entry) {
    |e.key| + |e.value| < TWO_32
  }

  // A number of one byte is the byte.
  lemma OneByte(v: nat, rest: seq<Byte>)
    requires v < TWO_32
    ensures var s := Varint(v) + rest;
            DecodeByte(s[0]) < 128 ==> v == DecodeByte(s[0]) && |Varint(v)| == 1
  {
    hide EncodeByte, DecodeByte;
    if v < 128 {
      ByteRoundTrip(v);
    } else {
      ByteRoundTrip(128 + v % 128);
    }
  }

  // Both paths agree: lengths that are one byte long are those bytes.
  lemma DecodeIs(data: seq<Byte>, p: nat, limit: nat, d: Decoded, s1: seq<Byte>, s2: seq<Byte>, s3: seq<Byte>, a: nat, b: nat, c: nat)
    requires p <= limit <= |data| && limit - p >= 3 && d.Decoded? && d.p == p + a + b + c == limit - |s3|
    requires Varint32At(data[p..limit]) == Parsed(d.shared, s1)
    requires Varint32At(s1) == Parsed(d.nonShared, s2)
    requires Varint32At(s2) == Parsed(d.valueLength, s3)
    requires DecodeByte(data[p]) < 128 ==> d.shared == DecodeByte(data[p]) && a == 1
    requires a == 1 && DecodeByte(data[p + 1]) < 128 ==> d.nonShared == DecodeByte(data[p + 1]) && b == 1
    requires a == 1 && b == 1 && DecodeByte(data[p + 2]) < 128 ==> d.valueLength == DecodeByte(data[p + 2]) && c == 1
    requires d.nonShared + d.valueLength < TWO_32 && d.nonShared + d.valueLength <= |s3|
    ensures DecodeEntry(data, p, limit) == d
  {
    hide DecodeByte, Varint32At;
  }

  // An encoded entry decodes to its lengths, on either path.
  lemma DecodeBack(data: seq<Byte>, p: nat, limit: nat, shared: nat, e: Entry)
    requires p <= limit <= |data| && shared <= |e.key| && EntryFits(e)
    requires EntryBytes(shared, e) <= data[p..limit]
    ensures var h := HeaderLength(shared, e);
            && p + h + |e.key| - shared + |e.value| <= limit
            && |EntryBytes(shared, e)| == h + |e.key| - shared + |e.value|
            && DecodeEntry(data, p, limit) == Decoded(shared, |e.key| - shared, |e.value|, p + h)
            && data[p + h..p + h + |e.key| - shared] == e.key[shared..]
            && data[p + h + |e.key| - shared..p + h + |e.key| - shared + |e.value|] == e.value
  {
    hide Varint, Varint32At, DecodeByte, DecodeEntry, EntryBytes, EntryFits;
    LengthsFit(e);
    var nonShared, valueLength := |e.key| - shared, |e.value|;
    var a, b, c := Varint(shared), Varint(nonShared), Varint(valueLength);
    var s := data[p..limit];
    var tail := s[|EntryBytes(shared, e)|..];
    EntryParts(s, shared, e, tail);
    var s3 := e.key[shared..] + (e.value + tail);
    Varint32RoundTrip(shared, b + (c + s3));
    Varint32RoundTrip(nonShared, c + s3);
    Varint32RoundTrip(valueLength, s3);
    OneByte(shared, b + (c + s3));
    OneByte(nonShared, c + s3);
    OneByte(valueLength, s3);
    BytesAt(data, p, limit, a, b, c, s3);
    TailAt(data, p, limit, |a| + |b| + |c|, e.key[shared..], e.value, tail);
    DecodeIs(data, p, limit, Decoded(shared, nonShared, valueLength, p + |a| + |b| + |c|), b + (c + s3), c + s3, s3, |a|, |b|, |c|);
  }

  lemma LengthsFit(e: Entry)
    requires EntryFits(e)
    ensures |e.key| + |e.value| < TWO_32
  {
  }

  lemma EntryParts(s: seq<Byte>, shared: nat, e: Entry, tail: seq<Byte>)
    requires shared <= |e.key| && EntryBytes(shared, e) <= s && tail == s[|EntryBytes(shared, e)|..]
    ensures s == Varint(shared) + (Varint(|e.key| - shared) + (Varint(|e.value|) + (e.key[shared..] + (e.value + tail))))
    ensures |EntryBytes(shared, e)| == HeaderLength(shared, e) + |e.key| - shared + |e.value|
  {
    hide Varint;
    assert s == EntryBytes(shared, e) + tail;
    var a, b, c, d := Varint(shared), Varint(|e.key| - shared), Varint(|e.value|), e.key[shared..];
    Assoc(a + b + c + d, e.value, tail);
    Assoc(a + b + c, d, e.value + tail);
    Assoc(a + b, c, d + (e.value + tail));
    Assoc(a, b, c + (d + (e.value + tail)));
  }

  lemma BytesAt(data: seq<Byte>, p: nat, limit: nat, a: seq<Byte>, b: seq<Byte>, c: seq<Byte>, s3: seq<Byte>)
    requires p <= limit <= |data| && data[p..limit] == a + (b + (c + s3)) && |a| > 0 && |b| > 0 && |c| > 0
    ensures data[p..limit][|a| + |b| + |c|..] == s3
    ensures limit - p >= 3 && data[p] == (a + (b + (c + s3)))[0]
    ensures |a| == 1 ==> data[p + 1] == (b + (c + s3))[0]
    ensures |a| == 1 && |b| == 1 ==> data[p + 2] == (c + s3)[0]
  {
    var s := data[p..limit];
    assert s[0] == data[p] && s[1] == data[p + 1] && s[2] == data[p + 2];
  }

  lemma TailAt(data: seq<Byte>, p: nat, limit: nat, h: nat, k: seq<Byte>, v: seq<Byte>, tail: seq<Byte>)
    requires p + h <= limit <= |data| && data[p..limit][h..] == k + (v + tail)
    ensures p + h + |k| + |v| <= limit
    ensures data[p + h..p + h + |k|] == k && data[p + h + |k|..p + h + |k| + |v|] == v
  {
    var s := data[p..limit][h..];
    assert s[..|k|] == k;
    assert s[|k|..] == v + tail;
    assert (v + tail)[..|v|] == v;
    SliceOfSlice(data, p, limit, h, 0, |k|);
    SliceOfSlice(data, p, limit, h, |k|, |k| + |v|);
    assert s[|k|..|k| + |v|] == s[|k|..][..|v|];
  }

  lemma SliceOfSlice(data: seq<Byte>, p: nat, limit: nat, h: nat, i: nat, j: nat)
    requires p + h <= limit <= |data| && i <= j <= limit - p - h
    ensures data[p..limit][h..][i..j] == data[p + h + i..p + h + j]
  {
    var a, b := data[p..limit][h..][i..j], data[p + h + i..p + h + j];
    assert |a| == |b| && forall k :: 0 <= k < |a| ==> a[k] == b[k];
  }

  // ---- The block ----

  // What the cursor was given: a whole block of these entries, small enough for 32-bit offsets.
  ghost predicate IsBlock(data: seq<Byte>, restarts: nat, numRestarts: nat, es: seq<Entry>, interval: nat) {
    && interval > 0 && data == Block(es, interval) && |data| < TWO_32
    && restarts == |Data(es, interval)| && numRestarts == NumRestarts(|es|, interval)
    && (forall i :: 0 <= i < |es| ==> EntryFits(es[i]))
  }

  lemma BlockParts(data: seq<Byte>, restarts: nat, numRestarts: nat, es: seq<Entry>, interval: nat)
    requires IsBlock(data, restarts, numRestarts, es, interval)
    ensures |data| == restarts + 4 * numRestarts + 4 && numRestarts > 0
    ensures data[..restarts] == Data(es, interval)
    ensures data[restarts..restarts + 4 * numRestarts] == FixedArray(RestartOffsets(es, interval))
    ensures data[restarts + 4 * numRestarts..] == Fixed(numRestarts, 4)
  {
    hide Data, RestartOffsets, FixedArray, Fixed, NumRestarts;
    var a, b, c := Data(es, interval), FixedArray(RestartOffsets(es, interval)), Fixed(numRestarts, 4);
    assert data == a + b + c;
  }

  lemma RestartBack(data: seq<Byte>, restarts: nat, numRestarts: nat, es: seq<Entry>, interval: nat, r: nat)
    requires IsBlock(data, restarts, numRestarts, es, interval) && r < numRestarts
    ensures restarts + 4 * r + 4 <= |data|
    ensures FromFixed(data[restarts + 4 * r..restarts + 4 * r + 4]) == RestartOffset(es, interval, r)
  {
    hide Data, FixedArray, Fixed, FromFixed, NumRestarts, Power;
    BlockParts(data, restarts, numRestarts, es, interval);
    var offsets := RestartOffsets(es, interval);
    FixedArrayAt(offsets, r);
    var array_ := data[restarts..restarts + 4 * numRestarts];
    assert array_[4 * r..4 * r + 4] == data[restarts + 4 * r..restarts + 4 * r + 4];
    RestartInRange(|es|, interval, r);
    DataPrefix(es, interval, r * interval, |es|);
    assert es[..|es|] == es;
    PowersOf256();
    FixedRoundTrip(offsets[r], 4);
  }

  lemma CountBack(data: seq<Byte>, restarts: nat, numRestarts: nat, es: seq<Entry>, interval: nat)
    requires IsBlock(data, restarts, numRestarts, es, interval)
    ensures |data| >= 4 && FromFixed(data[|data| - 4..]) == numRestarts
    ensures numRestarts <= (|data| - 4) / 4
  {
    hide Data, FixedArray, Fixed, FromFixed, NumRestarts, Power, RestartOffsets;
    BlockParts(data, restarts, numRestarts, es, interval);
    PowersOf256();
    FixedRoundTrip(numRestarts, 4);
  }

  // The i-th entry is encoded at its offset, and ends where the next one starts.
  lemma EntryThere(data: seq<Byte>, restarts: nat, numRestarts: nat, es: seq<Entry>, interval: nat, i: nat)
    requires IsBlock(data, restarts, numRestarts, es, interval) && i < |es|
    ensures var p, shared, e := Offset(es, interval, i), SharedAt(es, interval, i), es[i];
            && p < restarts <= |data| && EntryBytes(shared, e) <= data[p..restarts]
            && p + |EntryBytes(shared, e)| == Offset(es, interval, i + 1) <= restarts
  {
    hide Data, EntryBytes, FixedArray, Fixed, NumRestarts, SharedAt, RestartOffsets;
    BlockParts(data, restarts, numRestarts, es, interval);
    DataGrows(es, interval, i);
    DataPrefix(es, interval, i + 1, |es|);
    assert es[..|es|] == es;
    var front := Data(es[..i], interval);
    var bytes := EntryBytes(SharedAt(es, interval, i), es[i]);
    PartThere(data, restarts, front, bytes);
  }

  lemma PartThere(data: seq<Byte>, restarts: nat, front: seq<Byte>, bytes: seq<Byte>)
    requires restarts <= |data| && front + bytes <= data[..restarts]
    ensures bytes <= data[|front|..restarts]
  {
    assert data[|front|..restarts] == data[..restarts][|front|..];
    assert data[..restarts][|front|..][..|bytes|] == bytes;
  }

  // Which entry a restart point is.
  function RegionStart(r: nat, interval: nat): nat {
    r * interval
  }

  // ---- The cursor ----

  class BlockIter {
    const data: seq<Byte>
    const restarts: nat           // offset of the restart array
    const numRestarts: nat
    const rank: seq<Byte> -> real // the comparator
    var current: nat
    var restartIndex: nat
    var key: seq<Byte>
    var valueStart: nat           // the slice of the value
    var valueLength: nat
    ghost const es: seq<Entry>
    ghost const interval: nat
    ghost var at: nat             // the place in the block; the end when the cursor is not valid

    ghost predicate Shape() {
      IsBlock(data, restarts, numRestarts, es, interval)
    }

    ghost predicate OnEntry(i: nat)
      reads this
    {
      && interval > 0 && i < |es| && restarts <= |data| && current == Offset(es, interval, i) && key == es[i].key
      && valueStart + valueLength == Offset(es, interval, i + 1) <= restarts
      && data[valueStart..valueStart + valueLength] == es[i].value
      && InRegion(i)
    }

    // restartIndex is that of the region of entry i, or of the one before when i starts a region.
    ghost predicate InRegion(i: nat)
      reads this
    {
      && restartIndex < numRestarts && RegionStart(restartIndex, interval) <= i
      && (restartIndex + 1 < numRestarts ==> i <= RegionStart(restartIndex + 1, interval))
    }

    ghost predicate WellFormed()
      reads this
    {
      && Shape() && at <= |es|
      && (if at < |es| then OnEntry(at) && current < restarts else current == restarts && restartIndex == numRestarts)
    }

    // The next entry to parse is the n-th, and the key before it is at hand if that one needs it.
    ghost predicate Before(n: nat)
      reads this
    {
      && interval > 0 && n <= |es| && valueStart + valueLength == Offset(es, interval, n)
      && (n < |es| && !IsRestart(n, interval) ==> key == es[n - 1].key)
      && restartIndex < numRestarts && RegionStart(restartIndex, interval) <= n
    }

    // Block::Block and Block::NewIterator.
    constructor (block: seq<Byte>, rank: seq<Byte> -> real, ghost es: seq<Entry>, ghost interval: nat)
      requires interval > 0 && block == Block(es, interval) && |block| < TWO_32
      requires forall i :: 0 <= i < |es| ==> EntryFits(es[i])
      ensures WellFormed() && !Valid() && this.es == es && this.interval == interval && this.rank == rank
    {
      hide Data, Block, NumRestarts, FromFixed, FixedArray, Fixed, RestartOffsets;
      CountBack(block, |Data(es, interval)|, NumRestarts(|es|, interval), es, interval);
      BlockParts(block, |Data(es, interval)|, NumRestarts(|es|, interval), es, interval);
      var count := FromFixed(block[|block| - 4..]);
      this.data := block;
      this.rank := rank;
      numRestarts := count;
      restarts := |block| - (1 + count) * 4;
      current := |block| - (1 + count) * 4;
      restartIndex := count;
      key, valueStart, valueLength := [], 0, 0;
      this.es, this.interval, at := es, interval, |es|;
    }

    predicate Valid()
      reads this
    {
      current < restarts
    }

    function NextEntryOffset(): nat
      reads this
    {
      valueStart + valueLength
    }

    function GetRestartPoint(index: nat): (p: nat)
      requires restarts + 4 * index + 4 <= |data|
    {
      FromFixed(data[restarts + 4 * index..restarts + 4 * index + 4])
    }

    method SeekToRestartPoint(index: nat)
      requires Shape() && index < numRestarts
      modifies this`key, this`restartIndex, this`valueStart, this`valueLength
      ensures key == [] && Before(RegionStart(index, interval)) && restartIndex == index
    {
      hide Offset, RegionStart, IsBlock, IsRestart, FromFixed;
      RestartBack(data, restarts, numRestarts, es, interval, index);
      RegionInRange(data, restarts, numRestarts, es, interval, index);
      key := [];
      restartIndex := index;
      valueStart, valueLength := GetRestartPoint(index), 0;
    }

    // The next entry, the n-th, becomes the current one; there may be none.
    method ParseNextKey(ghost n: nat) returns (ok: bool)
      requires Shape() && Before(n)
      modifies this
      ensures WellFormed() && at == n && ok == (n < |es|)
    {
      hide Offset, RegionStart, IsBlock, IsRestart, FromFixed, EntryBytes, SharedAt, DecodeEntry, HeaderLength;
      current := NextEntryOffset();
      DataEnds(data, restarts, numRestarts, es, interval, n);
      if current >= restarts {
        current := restarts;
        restartIndex := numRestarts;
        at := n;
        return false;
      }
      var d := DecodeEntry(data, current, restarts);
      NextDecodes(data, restarts, numRestarts, es, interval, n);
      KeyRestored(key, data, d, es, interval, n);
      key := key[..d.shared] + data[d.p..d.p + d.nonShared];
      valueStart, valueLength := d.p + d.nonShared, d.valueLength;
      FindRegion(n);
      at := n;
      ok := true;
    }

    // The loop of ParseNextKey that follows the current entry into its region.
    method FindRegion(ghost n: nat)
      requires Shape() && n < |es| && current == Offset(es, interval, n)
      requires restartIndex < numRestarts && RegionStart(restartIndex, interval) <= n
      modifies this`restartIndex
      ensures InRegion(n)
    {
      hide Offset, RegionStart, IsBlock, FromFixed;
      BlockSizes(data, restarts, numRestarts, es, interval);
      while restartIndex + 1 < numRestarts && GetRestartPoint(restartIndex + 1) < current
        invariant restartIndex < numRestarts && RegionStart(restartIndex, interval) <= n
        decreases numRestarts - restartIndex
      {
        RestartOrder(data, restarts, numRestarts, es, interval, restartIndex + 1, n);
        restartIndex := restartIndex + 1;
      }
      if restartIndex + 1 < numRestarts {
        RestartOrder(data, restarts, numRestarts, es, interval, restartIndex + 1, n);
      }
    }

    method Next()
      requires WellFormed() && Valid()
      modifies this
      ensures WellFormed() && at == old(at) + 1
    {
      hide Offset, RegionStart, IsBlock, IsRestart;
      var ok := ParseNextKey(at + 1);
    }

    method SeekToFirst()
      requires WellFormed()
      modifies this
      ensures WellFormed() && at == 0
    {
      hide Offset, IsBlock, IsRestart;
      FirstRegion(data, restarts, numRestarts, es, interval);
      SeekToRestartPoint(0);
      var ok := ParseNextKey(0);
    }

    // The entry before: scanned to from the last restart point in front of it.
    method Prev()
      requires WellFormed() && Valid()
      modifies this
      ensures WellFormed() && at == if old(at) == 0 then |es| else old(at) - 1
    {
      hide Offset, RegionStart, IsBlock, IsRestart, FromFixed;
      ghost var i := at;
      var original := current;
      BlockSizes(data, restarts, numRestarts, es, interval);
      RestartOrder(data, restarts, numRestarts, es, interval, restartIndex, i);
      while GetRestartPoint(restartIndex) >= original
        invariant restartIndex < numRestarts && current == original == Offset(es, interval, i)
        invariant GetRestartPoint(restartIndex) < original <==> RegionStart(restartIndex, interval) < i
        decreases restartIndex
      {
        if restartIndex == 0 {
          FirstRegion(data, restarts, numRestarts, es, interval);
          current := restarts;
          restartIndex := numRestarts;
          at := |es|;
          return;
        }
        restartIndex := restartIndex - 1;
        RestartOrder(data, restarts, numRestarts, es, interval, restartIndex, i);
      }
      ghost var n := RegionStart(restartIndex, interval);
      SeekToRestartPoint(restartIndex);
      var ok := ParseNextKey(n);
      OffsetOrder(es, interval, n + 1, i);
      while ok && NextEntryOffset() < original
        invariant WellFormed() && at == n < i && ok && n + 1 <= |es|
        invariant Offset(es, interval, n + 1) < original <==> n + 1 < i
        decreases i - n
      {
        n := n + 1;
        ok := ParseNextKey(n);
        OffsetOrder(es, interval, n + 1, i);
      }
    }

    // The first entry whose key is not below the target: binary search over the restart points, then a
    // scan of one region.
    method Seek(target: seq<Byte>)
      requires WellFormed() && Rising(es, rank)
      modifies this
      ensures WellFormed()
      ensures forall j :: 0 <= j < at ==> rank(es[j].key) < rank(target)
      ensures at < |es| ==> rank(es[at].key) >= rank(target)
    {
      hide Offset, RegionStart, IsBlock, IsRestart, FromFixed, DecodeEntry, Rising;
      BlockSizes(data, restarts, numRestarts, es, interval);
      var left := FindRegionOf(target);
      RegionInRange(data, restarts, numRestarts, es, interval, left);
      SeekToRestartPoint(left);
      ghost var n := RegionStart(left, interval);
      while true
        invariant Before(n) && n <= |es|
        invariant forall j :: 0 <= j < n ==> rank(es[j].key) < rank(target)
        decreases |es| - n
      {
        var ok := ParseNextKey(n);
        if !ok {
          return;
        }
        if rank(key) >= rank(target) {
          return;
        }
        n := n + 1;
      }
    }

    // The last restart point with a key below the target, or the first one.
    method FindRegionOf(target: seq<Byte>) returns (left: nat)
      requires Shape() && Rising(es, rank)
      ensures left < numRestarts
      ensures forall j :: 0 <= j < |es| && j < RegionStart(left, interval) ==> rank(es[j].key) < rank(target)
    {
      hide Offset, RegionStart, IsBlock, IsRestart, FromFixed, DecodeEntry, Rising;
      BlockSizes(data, restarts, numRestarts, es, interval);
      FirstRegion(data, restarts, numRestarts, es, interval);
      left := 0;
      var right := numRestarts - 1;
      while left < right
        invariant left <= right < numRestarts
        invariant forall j :: 0 <= j < |es| && j < RegionStart(left, interval) ==> rank(es[j].key) < rank(target)
      {
        var mid := (left + right + 1) / 2;
        var regionOffset := GetRestartPoint(mid);
        MidKey(data, restarts, numRestarts, es, interval, mid);
        var d := DecodeEntry(data, regionOffset, restarts);
        var midKey := data[d.p..d.p + d.nonShared];
        if rank(midKey) < rank(target) {
          BelowRegion(es, rank, RegionStart(mid, interval), target);
          left := mid;
        } else {
          right := mid - 1;
        }
      }
    }

    method SeekToLast()
      requires WellFormed()
      modifies this
      ensures WellFormed() && at == if es == [] then 0 else |es| - 1
    {
      hide Offset, IsBlock, IsRestart, RegionStart;
      FirstRegion(data, restarts, numRestarts, es, interval);
      RegionInRange(data, restarts, numRestarts, es, interval, numRestarts - 1);
      SeekToRestartPoint(numRestarts - 1);
      ghost var n := RegionStart(numRestarts - 1, interval);
      var ok := ParseNextKey(n);
      while ok && NextEntryOffset() < restarts
        invariant WellFormed() && at == n && ok == (n < |es|)
        invariant n <= |es| && (es != [] ==> n < |es|)
        decreases |es| - n
      {
        DataEnds(data, restarts, numRestarts, es, interval, n + 1);
        n := n + 1;
        ok := ParseNextKey(n);
      }
      if ok {
        DataEnds(data, restarts, numRestarts, es, interval, n + 1);
      }
    }
  }

  ghost predicate Rising(es: seq<Entry>, rank: seq<Byte> -> real) {
    forall i, j :: 0 <= i < j < |es| ==> rank(es[i].key) < rank(es[j].key)
  }

  lemma BelowRegion(es: seq<Entry>, rank: seq<Byte> -> real, n: nat, target: seq<Byte>)
    requires Rising(es, rank) && n < |es| && rank(es[n].key) < rank(target)
    ensures forall j :: 0 <= j <= n ==> rank(es[j].key) < rank(target)
  {
  }

  // At a restart point the key stands in full; it is the first of its region.
  lemma MidKey(data: seq<Byte>, restarts: nat, numRestarts: nat, es: seq<Entry>, interval: nat, r: nat)
    requires IsBlock(data, restarts, numRestarts, es, interval) && 0 < r < numRestarts
    ensures interval > 0 && restarts + 4 * r + 4 <= |data|
    ensures var p := FromFixed(data[restarts + 4 * r..restarts + 4 * r + 4]);
            && p <= restarts && RegionStart(r, interval) < |es|
            && var d := DecodeEntry(data, p, restarts);
               d.Decoded? && d.shared == 0 && d.p + d.nonShared <= |data|
               && data[d.p..d.p + d.nonShared] == es[RegionStart(r, interval)].key
  {
    hide Block, FixedArray, Offset, FromFixed, RegionStart, IsBlock, DecodeEntry, IsRestart;
    BlockSizes(data, restarts, numRestarts, es, interval);
    RestartBack(data, restarts, numRestarts, es, interval, r);
    RegionInRange(data, restarts, numRestarts, es, interval, r);
    ManyRestarts(data, restarts, numRestarts, es, interval, r);
    var n := RegionStart(r, interval);
    NextDecodes(data, restarts, numRestarts, es, interval, n);
    assert SharedAt(es, interval, n) == 0;
    assert es[n].key[0..] == es[n].key;
  }

  lemma ManyRestarts(data: seq<Byte>, restarts: nat, numRestarts: nat, es: seq<Entry>, interval: nat, r: nat)
    requires IsBlock(data, restarts, numRestarts, es, interval) && 0 < r < numRestarts
    ensures es != []
  {
    hide Block, Data;
  }

  lemma BlockSizes(data: seq<Byte>, restarts: nat, numRestarts: nat, es: seq<Entry>, interval: nat)
    requires IsBlock(data, restarts, numRestarts, es, interval)
    ensures |data| == restarts + 4 * numRestarts + 4 && numRestarts > 0 && interval > 0
  {
    hide Data, RestartOffsets, FixedArray, Fixed, NumRestarts, Block;
    BlockParts(data, restarts, numRestarts, es, interval);
  }

  lemma FirstRegion(data: seq<Byte>, restarts: nat, numRestarts: nat, es: seq<Entry>, interval: nat)
    requires IsBlock(data, restarts, numRestarts, es, interval)
    ensures RegionStart(0, interval) == 0 && numRestarts > 0 && interval > 0
  {
    BlockSizes(data, restarts, numRestarts, es, interval);
  }

  lemma OffsetOrder(es: seq<Entry>, interval: nat, i: nat, j: nat)
    requires interval > 0 && i <= |es| && j <= |es|
    ensures Offset(es, interval, i) < Offset(es, interval, j) <==> i < j
  {
    hide Offset;
    if i < j {
      OffsetsRise(es, interval, i, j);
    } else if j < i {
      OffsetsRise(es, interval, j, i);
    }
  }

  // There is data left if and only if there are entries left.
  lemma DataEnds(data: seq<Byte>, restarts: nat, numRestarts: nat, es: seq<Entry>, interval: nat, n: nat)
    requires IsBlock(data, restarts, numRestarts, es, interval) && n <= |es|
    ensures interval > 0 && restarts <= |data|
    ensures Offset(es, interval, n) < restarts <==> n < |es|
    ensures Offset(es, interval, n) <= restarts
  {
    hide Block, NumRestarts, FixedArray;
    BlockSizes(data, restarts, numRestarts, es, interval);
    OffsetOrder(es, interval, n, |es|);
    OffsetOrder(es, interval, |es|, n);
    assert es[..|es|] == es;
  }

  lemma NextDecodes(data: seq<Byte>, restarts: nat, numRestarts: nat, es: seq<Entry>, interval: nat, n: nat)
    requires IsBlock(data, restarts, numRestarts, es, interval) && n < |es|
    ensures interval > 0 && Offset(es, interval, n) <= restarts <= |data|
    ensures var e, d := es[n], DecodeEntry(data, Offset(es, interval, n), restarts);
            && d.Decoded? && d.shared == SharedAt(es, interval, n) && d.p + d.nonShared + d.valueLength == Offset(es, interval, n + 1) <= restarts
            && data[d.p..d.p + d.nonShared] == e.key[d.shared..]
            && data[d.p + d.nonShared..d.p + d.nonShared + d.valueLength] == e.value
  {
    hide *;
    BlockSizes(data, restarts, numRestarts, es, interval);
    EntryThere(data, restarts, numRestarts, es, interval, n);
    BlockFits(data, restarts, numRestarts, es, interval, n);
    DecodeBack(data, Offset(es, interval, n), restarts, SharedAt(es, interval, n), es[n]);
  }

  lemma BlockFits(data: seq<Byte>, restarts: nat, numRestarts: nat, es: seq<Entry>, interval: nat, n: nat)
    requires IsBlock(data, restarts, numRestarts, es, interval) && n < |es|
    ensures EntryFits(es[n])
  {
  }

  // The prefix that is not stored is that of the key before, if there is one.
  lemma KeyRestored(key: seq<Byte>, data: seq<Byte>, d: Decoded, es: seq<Entry>, interval: nat, n: nat)
    requires interval > 0 && n < |es| && d.Decoded? && d.p + d.nonShared <= |data|
    requires d.shared == SharedAt(es, interval, n) && data[d.p..d.p + d.nonShared] == es[n].key[d.shared..]
    requires n > 0 && !IsRestart(n, interval) ==> key == es[n - 1].key
    ensures d.shared <= |key| && key[..d.shared] + data[d.p..d.p + d.nonShared] == es[n].key
  {
    assert n == 0 ==> IsRestart(n, interval);
  }

  lemma RestartOrder(data: seq<Byte>, restarts: nat, numRestarts: nat, es: seq<Entry>, interval: nat, r: nat, n: nat)
    requires IsBlock(data, restarts, numRestarts, es, interval) && r < numRestarts && n <= |es|
    ensures interval > 0 && restarts + 4 * r + 4 <= |data|
    ensures FromFixed(data[restarts + 4 * r..restarts + 4 * r + 4]) < Offset(es, interval, n) <==> RegionStart(r, interval) < n
  {
    hide Block, NumRestarts, FixedArray, Offset, FromFixed, RegionStart, IsBlock;
    BlockSizes(data, restarts, numRestarts, es, interval);
    RestartBack(data, restarts, numRestarts, es, interval, r);
    RegionInRange(data, restarts, numRestarts, es, interval, r);
    OffsetOrder(es, interval, RegionStart(r, interval), n);
  }

  lemma RegionInRange(data: seq<Byte>, restarts: nat, numRestarts: nat, es: seq<Entry>, interval: nat, r: nat)
    requires IsBlock(data, restarts, numRestarts, es, interval) && r < numRestarts
    ensures interval > 0 && RegionStart(r, interval) <= |es| && (es != [] ==> RegionStart(r, interval) < |es|)
    ensures RestartOffset(es, interval, r) == Offset(es, interval, RegionStart(r, interval))
    ensures IsRestart(RegionStart(r, interval), interval)
  {
    hide Block, Data;
    RestartInRange(|es|, interval, r);
    Quotient(r * interval, interval, r, 0);
  }
}
