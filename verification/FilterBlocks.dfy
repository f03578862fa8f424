/** table/filter_block.cc: one filter for every 2 KB of data blocks, and an array that leads to them. */
module FilterBlocks {
  import opened Bytes
  import opened Coding
  import opened Blooms

  const BASE_LG: nat := 11        // kFilterBaseLg
  const BASE: nat := 2048         // kFilterBase

  // ---- The format ----

  // What Finish makes of the filters and their offsets.
  function Contents(result: seq<Byte>, offsets: seq<nat>): seq<Byte> {
    result + FixedArray(offsets) + Fixed(|result|, 4) + [EncodeByte(BASE_LG)]
  }

  // Where filter i ends.
  function Limit(result: seq<Byte>, offsets: seq<nat>, i: nat): nat
    requires i < |offsets|
  {
    if i + 1 < |offsets| then offsets[i + 1] else |result|
  }

  // The i-th filter was made of the i-th group of keys; one without keys is empty.
  ghost predicate FilterIs(policy: BloomFilterPolicy, result: seq<Byte>, offsets: seq<nat>, groups: seq<seq<seq<Byte>>>, i: nat)
    requires i < |offsets| == |groups|
  {
    && offsets[i] <= Limit(result, offsets, i) <= |result|
    && var filter := result[offsets[i]..Limit(result, offsets, i)];
       if groups[i] == [] then filter == []
       else IsFilter(policy.hash, policy.k, policy.bitsPerKey, groups[i], filter)
  }

  ghost predicate FiltersOk(policy: BloomFilterPolicy, result: seq<Byte>, offsets: seq<nat>, groups: seq<seq<seq<Byte>>>) {
    |offsets| == |groups| && forall i: nat :: i < |offsets| ==> FilterIs(policy, result, offsets, groups, i)
  }

  // One more filter at the end.
  lemma FilterAdded(policy: BloomFilterPolicy, result: seq<Byte>, offsets: seq<nat>, groups: seq<seq<seq<Byte>>>,
                    keys: seq<seq<Byte>>, filter: seq<Byte>)
    requires FiltersOk(policy, result, offsets, groups)
    requires if keys == [] then filter == [] else IsFilter(policy.hash, policy.k, policy.bitsPerKey, keys, filter)
    ensures FiltersOk(policy, result + filter, offsets + [|result|], groups + [keys])
  {
    hide IsFilter;
    var result', offsets', groups' := result + filter, offsets + [|result|], groups + [keys];
    forall i: nat | i < |offsets'| ensures FilterIs(policy, result', offsets', groups', i) {
      if i < |offsets| {
        assert FilterIs(policy, result, offsets, groups, i);
        assert Limit(result', offsets', i) == Limit(result, offsets, i);
        assert result'[offsets[i]..Limit(result, offsets, i)] == result[offsets[i]..Limit(result, offsets, i)];
      } else {
        assert result'[|result|..|result'|] == filter;
      }
    }
  }

  // ---- The builder ----

  function Join(keys: seq<seq<Byte>>): seq<Byte> {
    if keys == [] then [] else Join(keys[..|keys| - 1]) + keys[|keys| - 1]
  }

  lemma NothingJoined()
    ensures Join([]) == []
  {
  }

  lemma {:induction false} JoinPart(keys: seq<seq<Byte>>, i: nat)
    requires i < |keys|
    ensures |Join(keys[..i])| + |keys[i]| == |Join(keys[..i + 1])| <= |Join(keys)|
    ensures Join(keys)[|Join(keys[..i])|..|Join(keys[..i + 1])|] == keys[i]
    decreases |keys|
  {
    var n := |keys| - 1;
    assert keys[..i + 1][..i] == keys[..i];
    if i < n {
      JoinPart(keys[..n], i);
      assert keys[..n][..i] == keys[..i] && keys[..n][..i + 1] == keys[..i + 1];
      assert Join(keys)[|Join(keys[..i])|..|Join(keys[..i + 1])|] == Join(keys[..n])[|Join(keys[..i])|..|Join(keys[..i + 1])|];
    } else {
      assert keys[..i + 1] == keys;
    }
  }

  class FilterBlockBuilder {
    const policy: BloomFilterPolicy
    var keys: seq<Byte>             // the keys for the next filter, one behind the other
    var start: seq<nat>             // where each of them starts
    var result: seq<Byte>
    var filterOffsets: seq<nat>
    ghost var pending: seq<seq<Byte>>
    ghost var groups: seq<seq<seq<Byte>>>
    ghost var block: nat                       // the offset of the current block
    ghost var added: set<(nat, seq<Byte>)>     // every key with the offset of its block

    ghost predicate Valid()
      reads this
    {
      && 1 <= policy.k <= 30
      && keys == Join(pending) && |start| == |pending|
      && (forall i: nat :: i < |start| ==> start[i] == |Join(pending[..i])|)
      && FiltersOk(policy, result, filterOffsets, groups)
      && |groups| == block / BASE
      && forall a :: a in added ==> KeyThere(a.0 / BASE, a.1)
    }

    // The key is in the group of that number, or will be.
    ghost predicate KeyThere(group: nat, key: seq<Byte>)
      reads this
    {
      (group < |groups| && key in groups[group]) || (group == |groups| && key in pending)
    }

    constructor (policy: BloomFilterPolicy)
      requires 1 <= policy.k <= 30
      ensures Valid() && added == {} && block == 0 && this.policy == policy
    {
      this.policy := policy;
      keys, start, result, filterOffsets := [], [], [], [];
      pending, groups, block, added := [], [], 0, {};
    }

    method StartBlock(blockOffset: nat)
      requires Valid() && blockOffset >= block
      modifies this
      ensures Valid() && block == blockOffset && added == old(added)
    {
      hide FiltersOk;
      var filterIndex := blockOffset / BASE;
      ghost var from := block;
      FiltersSize(policy, result, filterOffsets, groups);
      while filterIndex > |filterOffsets|
        invariant Valid() && from <= block <= blockOffset && |filterOffsets| == |groups| && added == old(added)
        decreases filterIndex - |filterOffsets|
      {
        GenerateFilter();
        block := |groups| * BASE;
        FiltersSize(policy, result, filterOffsets, groups);
      }
      block := blockOffset;
    }

    method AddKey(key: seq<Byte>)
      requires Valid()
      modifies this
      ensures Valid() && block == old(block) && added == old(added) + {(block, key)}
    {
      hide FiltersOk;
      assert (pending + [key])[..|pending|] == pending;
      assert forall i: nat :: i < |pending| ==> (pending + [key])[..i] == pending[..i];
      start := start + [|keys|];
      keys := keys + key;
      pending := pending + [key];
      added := added + {(block, key)};
    }

    // The pending keys become the next filter.
    // The loop of GenerateFilter over the starts of the keys.
    static method TakeApart(keys: seq<Byte>, start: seq<nat>, ghost pending: seq<seq<Byte>>) returns (tmpKeys: seq<seq<Byte>>)
      requires keys == Join(pending) && |start| == |pending| + 1
      requires forall i: nat :: i < |start| ==> start[i] == |Join(pending[..i])|
      ensures tmpKeys == pending
    {
      tmpKeys := [];
      for i := 0 to |start| - 1
        invariant |tmpKeys| == i && tmpKeys == pending[..i]
      {
        JoinPart(pending, i);
        assert start[i + 1] == |Join(pending[..i + 1])|;
        tmpKeys := tmpKeys + [keys[start[i]..start[i + 1]]];
      }
    }

    method GenerateFilter()
      requires Valid()
      modifies this
      ensures pending == [] && keys == [] && start == []
      ensures groups == old(groups) + [old(pending)] && FiltersOk(policy, result, filterOffsets, groups)
      ensures block == old(block) && added == old(added)
      ensures forall a :: a in added ==> KeyThere(a.0 / BASE, a.1)
    {
      hide FiltersOk, IsFilter, Join;
      NothingJoined();
      var numKeys := |start|;
      if numKeys == 0 {
        FilterAdded(policy, result, filterOffsets, groups, [], []);
        assert result + [] == result;
        filterOffsets := filterOffsets + [|result|];
        groups := groups + [pending];
        return;
      }
      start := start + [|keys|];
      assert pending[..|pending|] == pending;
      var tmpKeys := TakeApart(keys, start, pending);
      filterOffsets := filterOffsets + [|result|];
      ghost var old_ := result;
      result := policy.CreateFilter(tmpKeys, result);
      FilterAdded(policy, old_, old(filterOffsets), groups, pending, result[|old_|..]);
      assert old_ + result[|old_|..] == result;
      groups := groups + [pending];
      keys, start, pending := [], [], [];
    }

    method Finish() returns (contents: seq<Byte>)
      requires Valid()
      modifies this
      ensures FiltersOk(policy, result, filterOffsets, groups) && contents == Contents(result, filterOffsets)
      ensures forall a :: a in old(added) ==> a.0 / BASE < |groups| && a.1 in groups[a.0 / BASE]
    {
      hide FiltersOk, Fixed, EncodeByte;
      if start != [] {
        GenerateFilter();
      }
      contents := result;
      assert filterOffsets[..0] == [];
      for i := 0 to |filterOffsets|
        invariant contents == result + FixedArray(filterOffsets[..i])
      {
        assert filterOffsets[..i + 1][..i] == filterOffsets[..i];
        contents := contents + Fixed(filterOffsets[i], 4);
      }
      assert filterOffsets[..|filterOffsets|] == filterOffsets;
      contents := contents + Fixed(|result|, 4);
      contents := contents + [EncodeByte(BASE_LG)];
    }
  }

  lemma FiltersSize(policy: BloomFilterPolicy, result: seq<Byte>, offsets: seq<nat>, groups: seq<seq<seq<Byte>>>)
    requires FiltersOk(policy, result, offsets, groups)
    ensures |offsets| == |groups|
  {
  }

  // ---- The reader ----

  lemma ContentsParts(result: seq<Byte>, offsets: seq<nat>)
    ensures var s := Contents(result, offsets);
            var n := |s|;
            && n == |result| + 4 * |offsets| + 5
            && s[..|result|] == result
            && s[n - 1] == EncodeByte(BASE_LG)
            && s[n - 5..n - 1] == Fixed(|result|, 4)
            && s[|result|..n - 5] == FixedArray(offsets)
  {
    hide Fixed, FixedArray, EncodeByte;
    var a, b, c := result, FixedArray(offsets), Fixed(|result|, 4);
    assert Contents(result, offsets) == a + b + c + [EncodeByte(BASE_LG)];
  }

  lemma BaseIsPower()
    ensures Power(2, BASE_LG) == BASE
  {
    assert Power(2, 4) == 16 && Power(2, 8) == 256;
  }

  class FilterBlockReader {
    const policy: BloomFilterPolicy
    const data: seq<Byte>
    const offset: nat     // of the offset array
    const num: nat
    const baseLg: nat

    constructor (policy: BloomFilterPolicy, contents: seq<Byte>)
      ensures this.policy == policy
      ensures |contents| >= 5 && FromFixed(contents[|contents| - 5..|contents| - 1]) <= |contents| - 5 ==>
                && data == contents && offset == FromFixed(contents[|contents| - 5..|contents| - 1])
                && num == (|contents| - 5 - offset) / 4 && baseLg == DecodeByte(contents[|contents| - 1])
    {
      this.policy := policy;
      var n := |contents|;
      if n < 5 {
        data, offset, num, baseLg := [], 0, 0, 0;
      } else {
        baseLg := DecodeByte(contents[n - 1]);
        var lastWord := FromFixed(contents[n - 5..n - 1]);
        if lastWord > n - 5 {
          data, offset, num := [], 0, 0;
        } else {
          data, offset, num := contents, lastWord, (n - 5 - lastWord) / 4;
        }
      }
    }

    // Reads the filters that were built.
    ghost predicate Reads(result: seq<Byte>, offsets: seq<nat>) {
      data == Contents(result, offsets) && offset == |result| && num == |offsets| && baseLg == BASE_LG
    }

    method KeyMayMatch(blockOffset: nat, key: seq<Byte>, ghost result: seq<Byte>, ghost offsets: seq<nat>) returns (match_: bool)
      requires Reads(result, offsets) && |result| < TWO_32 && forall i :: 0 <= i < |offsets| ==> offsets[i] <= Limit(result, offsets, i) <= |result|
      ensures var index := blockOffset / BASE;
              match_ == (index >= |offsets| || MayMatch(policy.hash, key, result[offsets[index]..Limit(result, offsets, index)]))
    {
      hide FromFixed, Contents, MayMatch, Limit, Power;
      BaseIsPower();
      var index := blockOffset / Power(2, baseLg);
      if index < num {
        OffsetsBack(result, offsets, index);
        var start := FromFixed(data[offset + 4 * index..offset + 4 * index + 4]);
        var limit := FromFixed(data[offset + 4 * index + 4..offset + 4 * index + 8]);
        if start <= limit && limit <= offset {
          match_ := policy.KeyMayMatch(key, data[start..limit]);
          assert data[start..limit] == data[..offset][start..limit];
        } else if start == limit {
          match_ := false;
        } else {
          match_ := true;
        }
      } else {
        match_ := true;
      }
    }
  }

  lemma PartOfPart(data: seq<Byte>, from: nat, to: nat, a: nat, b: nat)
    requires from <= to <= |data| && a <= b <= to - from
    ensures data[from..to][a..b] == data[from + a..from + b]
  {
    var part, whole := data[from..to][a..b], data[from + a..from + b];
    assert |part| == |whole|;
    forall k | 0 <= k < |part|
      ensures part[k] == whole[k]
    {
      assert part[k] == data[from..to][a + k] == data[from + (a + k)];
    }
  }

  lemma OffsetsBack(result: seq<Byte>, offsets: seq<nat>, i: nat)
    requires i < |offsets| && |result| < TWO_32
    requires forall j :: 0 <= j < |offsets| ==> offsets[j] <= Limit(result, offsets, j) <= |result|
    ensures var data, offset := Contents(result, offsets), |result|;
            && offset + 4 * i + 8 <= |data| && data[..offset] == result
            && FromFixed(data[offset + 4 * i..offset + 4 * i + 4]) == offsets[i]
            && FromFixed(data[offset + 4 * i + 4..offset + 4 * i + 8]) == Limit(result, offsets, i)
  {
    hide Fixed, FromFixed, FixedArray, EncodeByte, Contents, Power;
    ContentsParts(result, offsets);
    PowersOf256();
    var data, offset := Contents(result, offsets), |result|;
    var array_ := data[offset..|data| - 5];
    FixedArrayAt(offsets, i);
    PartOfPart(data, offset, |data| - 5, 4 * i, 4 * i + 4);
    FixedRoundTrip(offsets[i], 4);
    if i + 1 < |offsets| {
      FixedArrayAt(offsets, i + 1);
      PartOfPart(data, offset, |data| - 5, 4 * i + 4, 4 * i + 8);
      FixedRoundTrip(offsets[i + 1], 4);
    } else {
      assert data[offset + 4 * i + 4..offset + 4 * i + 8] == data[|data| - 5..|data| - 1];
      FixedRoundTrip(|result|, 4);
    }
  }

  // Whatever blocks and keys went in, the reader answers "may match" for every key at the offset of its
  // block.
  method BuiltFilterMatches(builder: FilterBlockBuilder, blockOffset: nat, key: seq<Byte>) returns (match_: bool)
    requires builder.Valid() && (blockOffset, key) in builder.added
    modifies builder
    ensures |builder.result| < TWO_32 ==> match_
  {
    hide FiltersOk, Contents, FromFixed, MayMatch, IsFilter, Fixed, EncodeByte, DecodeByte;
    var contents := builder.Finish();
    ghost var result, offsets, groups := builder.result, builder.filterOffsets, builder.groups;
    match_ := false;
    if |builder.result| < TWO_32 {
      ContentsParts(result, offsets);
      PowersOf256();
      FixedRoundTrip(|result|, 4);
      ByteRoundTrip(BASE_LG);
      var reader := new FilterBlockReader(builder.policy, contents);
      FilterMatches(builder.policy, result, offsets, groups, blockOffset / BASE, key);
      match_ := reader.KeyMayMatch(blockOffset, key, result, offsets);
    }
  }

  lemma FilterMatches(policy: BloomFilterPolicy, result: seq<Byte>, offsets: seq<nat>, groups: seq<seq<seq<Byte>>>, i: nat, key: seq<Byte>)
    requires FiltersOk(policy, result, offsets, groups) && i < |groups| && key in groups[i]
    ensures forall j :: 0 <= j < |offsets| ==> offsets[j] <= Limit(result, offsets, j) <= |result|
    ensures i < |offsets| && MayMatch(policy.hash, key, result[offsets[i]..Limit(result, offsets, i)])
  {
    hide IsFilter, MayMatch;
    forall j: nat | j < |offsets| ensures offsets[j] <= Limit(result, offsets, j) <= |result| {
      assert FilterIs(policy, result, offsets, groups, j);
    }
    assert FilterIs(policy, result, offsets, groups, i);
    NoFalseNegative(policy.hash, policy.k, policy.bitsPerKey, groups[i], result[offsets[i]..Limit(result, offsets, i)], key);
  }
}
