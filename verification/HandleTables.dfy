/** util/cache.cc:69-147: the hash table of the cache. A bucket is a chain of handles, first one first. */
module HandleTables {
  import opened Options

  // What tells entries apart: the key and its hash.
  datatype Name = Name(key: string, hash: nat)

  datatype Slot = Slot(name: Name, handle: int)

  // How many slots the chains have.
  function Total(list: seq<seq<Slot>>): nat {
    if list == [] then 0 else Total(list[..|list| - 1]) + |list[|list| - 1]|
  }

  lemma {:induction false} TotalUpdate(list: seq<seq<Slot>>, b: nat, chain: seq<Slot>)
    requires b < |list|
    ensures Total(list[b := chain]) == Total(list) - |list[b]| + |chain|
  {
    var n := |list| - 1;
    if b == n {
      assert list[b := chain][..n] == list[..n];
    } else {
      TotalUpdate(list[..n], b, chain);
      assert list[b := chain][..n] == list[..n][b := chain];
    }
  }

  lemma {:induction false} TotalEmpty(list: seq<seq<Slot>>)
    requires forall b :: 0 <= b < |list| ==> list[b] == []
    ensures Total(list) == 0
  {
    if list != [] {
      TotalEmpty(list[..|list| - 1]);
    }
  }

  // Every slot stands in the bucket of its hash, and no name stands twice.
  ghost predicate Placed(list: seq<seq<Slot>>) {
    && |list| > 0
    && (forall b, i :: 0 <= b < |list| && 0 <= i < |list[b]| ==> list[b][i].name.hash % |list| == b)
    && (forall b, i, j :: 0 <= b < |list| && 0 <= i < j < |list[b]| ==> list[b][i].name != list[b][j].name)
  }

  // The chain where a name belongs.
  function Home(list: seq<seq<Slot>>, name: Name): seq<Slot>
    requires |list| > 0
  {
    list[name.hash % |list|]
  }

  ghost predicate In(contents: map<Name, int>, s: Slot) {
    s.name in contents && contents[s.name] == s.handle
  }

  ghost predicate Holds(list: seq<seq<Slot>>, contents: map<Name, int>)
    requires |list| > 0
  {
    forall s: Slot :: In(contents, s) <==> s in Home(list, s.name)
  }

  class HandleTable {
    var length: nat
    var elems: nat
    var list: seq<seq<Slot>>
    ghost var contents: map<Name, int>

    ghost predicate Valid()
      reads this
    {
      |list| == length > 0 && Placed(list) && Holds(list, contents) && elems == Total(list)
    }

    constructor ()
      ensures Valid() && contents == map[]
    {
      length, elems, list := 4, 0, seq(4, _ => []);
      contents := map[];
      new;
      TotalEmpty(list);
    }

    // The place of a name: its bucket, and its index in the chain or the end of the chain.
    method FindPointer(name: Name) returns (b: nat, i: nat)
      requires Valid()
      ensures b < length && b == name.hash % length && i <= |list[b]|
      ensures i < |list[b]| <==> name in contents
      ensures i < |list[b]| ==> list[b][i] == Slot(name, contents[name])
      ensures forall j :: 0 <= j < i ==> list[b][j].name != name
    {
      b, i := name.hash % length, 0;
      while i < |list[b]| && list[b][i].name != name
        invariant i <= |list[b]| && forall j :: 0 <= j < i ==> list[b][j].name != name
      {
        i := i + 1;
      }
      if i < |list[b]| {
        assert In(contents, list[b][i]);
      } else {
        NotThere(list, contents, name);
      }
    }

    method Lookup(name: Name) returns (handle: Option<int>)
      requires Valid()
      ensures handle == if name in contents then Some(contents[name]) else None
    {
      var b, i := FindPointer(name);
      handle := if i < |list[b]| then Some(list[b][i].handle) else None;
    }

    method Insert(name: Name, handle: int) returns (old_: Option<int>)
      requires Valid()
      modifies this
      ensures Valid() && contents == old(contents)[name := handle]
      ensures old_ == if name in old(contents) then Some(old(contents)[name]) else None
      ensures old_ == None ==> elems <= length
    {
      var b, i := FindPointer(name);
      var slot := Slot(name, handle);
      if i < |list[b]| {
        old_ := Some(list[b][i].handle);
        ReplacedHolds(list, contents, b, i, slot);
        TotalUpdate(list, b, list[b][i := slot]);
        list := list[b := list[b][i := slot]];
        contents := contents[name := handle];
      } else {
        old_ := None;
        AddedHolds(list, contents, slot, list[b] + [slot]);
        TotalUpdate(list, b, list[b] + [slot]);
        list := list[b := list[b] + [slot]];
        contents := contents[name := handle];
        elems := elems + 1;
        if elems > length {
          Resize();
        }
      }
    }

    method Remove(name: Name) returns (result: Option<int>)
      requires Valid()
      modifies this
      ensures Valid() && contents == old(contents) - {name}
      ensures result == if name in old(contents) then Some(old(contents)[name]) else None
    {
      var b, i := FindPointer(name);
      if i < |list[b]| {
        result := Some(list[b][i].handle);
        RemovedHolds(list, contents, b, i);
        TotalUpdate(list, b, list[b][..i] + list[b][i + 1..]);
        TotalAtLeast(list, b);
        list := list[b := list[b][..i] + list[b][i + 1..]];
        contents := contents - {name};
        elems := elems - 1;
      } else {
        result := None;
        assert contents - {name} == contents;
      }
    }

    method Resize()
      requires Valid()
      modifies this
      ensures Valid() && contents == old(contents) && elems == old(elems) <= length
    {
      hide Placed, Holds, Moving, Total, Home;
      var newLength := 4;
      while newLength < elems
        invariant newLength >= 4
      {
        newLength := newLength * 2;
      }
      var newList: seq<seq<Slot>> := seq(newLength, _ => []);
      TotalEmpty(newList);
      NothingMoved(list, newList);
      var count := 0;
      ghost var moved: map<Name, int> := map[];
      for b := 0 to length
        invariant unchanged(this) && |list| == length > 0
        invariant Moving(list, newList, moved, b, 0) && |newList| == newLength
        invariant count == Total(newList) == Total(list[..b])
      {
        var i := 0;
        TotalNext(list, b);
        while i < |list[b]|
          invariant unchanged(this) && |list| == length > 0
          invariant i <= |list[b]| && Moving(list, newList, moved, b, i) && |newList| == newLength
          invariant count == Total(newList) == Total(list[..b]) + i
        {
          var h := list[b][i];
          var ptr := h.name.hash % newLength;
          BucketExists(h.name.hash, newLength);
          MovesOne(list, newList, moved, b, i);
          TotalUpdate(newList, ptr, [h] + newList[ptr]);
          newList := newList[ptr := [h] + newList[ptr]];
          moved := moved[h.name := h.handle];
          i := i + 1;
          count := count + 1;
        }
        NextBucket(list, newList, moved, b);
      }
      assert list[..length] == list;
      AllMoved(list, newList, moved, contents);
      list := newList;
      length := newLength;
    }
  }

  lemma {:induction false} TotalAtLeast(list: seq<seq<Slot>>, b: nat)
    requires b < |list|
    ensures |list[b]| <= Total(list)
  {
    if b < |list| - 1 {
      TotalAtLeast(list[..|list| - 1], b);
    }
  }

  lemma KeyHasSlot(contents: map<Name, int>, name: Name)
    ensures name in contents ==> exists s: Slot :: s.name == name && In(contents, s)
  {
    if name in contents {
      assert In(contents, Slot(name, contents[name]));
    }
  }

  lemma NotThere(list: seq<seq<Slot>>, contents: map<Name, int>, name: Name)
    requires Placed(list) && Holds(list, contents)
    requires forall s :: s in Home(list, name) ==> s.name != name
    ensures name !in contents
  {
    KeyHasSlot(contents, name);
  }

  lemma ReplacedHolds(list: seq<seq<Slot>>, contents: map<Name, int>, b: nat, i: nat, slot: Slot)
    requires Placed(list) && Holds(list, contents) && b < |list| && i < |list[b]| && list[b][i].name == slot.name
    ensures Placed(list[b := list[b][i := slot]])
    ensures Holds(list[b := list[b][i := slot]], contents[slot.name := slot.handle])
  {
    var chain := list[b][i := slot];
    var list' := list[b := chain];
    forall s: Slot ensures In(contents[slot.name := slot.handle], s) <==> s in Home(list', s.name) {
      assert In(contents, s) <==> s in Home(list, s.name);
      if s.name.hash % |list| == b {
        if s in list[b] && s.name != slot.name {
          var j :| 0 <= j < |list[b]| && list[b][j] == s;
          assert chain[j] == s;
        }
        assert chain[i] == slot;
      }
    }
  }

  lemma AddedHolds(list: seq<seq<Slot>>, contents: map<Name, int>, slot: Slot, chain: seq<Slot>)
    requires Placed(list) && Holds(list, contents) && slot.name !in contents
    requires chain == Home(list, slot.name) + [slot] || chain == [slot] + Home(list, slot.name)
    ensures Placed(list[slot.name.hash % |list| := chain])
    ensures Holds(list[slot.name.hash % |list| := chain], contents[slot.name := slot.handle])
  {
    var b := slot.name.hash % |list|;
    var list' := list[b := chain];
    assert forall s :: s in chain <==> s == slot || s in list[b];
    forall s | s in list[b] ensures s.name != slot.name {
      assert In(contents, s) by {
        var i :| 0 <= i < |list[b]| && list[b][i] == s;
      }
    }
    forall s: Slot ensures In(contents[slot.name := slot.handle], s) <==> s in Home(list', s.name) {
      assert In(contents, s) <==> s in Home(list, s.name);
    }
  }

  lemma RemovedHolds(list: seq<seq<Slot>>, contents: map<Name, int>, b: nat, i: nat)
    requires Placed(list) && Holds(list, contents) && b < |list| && i < |list[b]|
    ensures Placed(list[b := list[b][..i] + list[b][i + 1..]])
    ensures Holds(list[b := list[b][..i] + list[b][i + 1..]], contents - {list[b][i].name})
  {
    var name := list[b][i].name;
    var chain := list[b][..i] + list[b][i + 1..];
    var list' := list[b := chain];
    assert forall j :: 0 <= j < i ==> chain[j] == list[b][j];
    assert forall j :: i <= j < |chain| ==> chain[j] == list[b][j + 1];
    forall s: Slot ensures In(contents - {name}, s) <==> s in Home(list', s.name) {
      assert In(contents, s) <==> s in Home(list, s.name);
      if s.name.hash % |list| == b && s in list[b] && s.name != name {
        var j :| 0 <= j < |list[b]| && list[b][j] == s;
        assert if j < i then chain[j] == s else chain[j - 1] == s;
      }
    }
  }

  // The first i slots of bucket b have been moved, and all of the buckets before it.
  ghost predicate Moving(list: seq<seq<Slot>>, newList: seq<seq<Slot>>, moved: map<Name, int>, b: nat, i: nat)
    requires |list| > 0
  {
    && b <= |list| && (if b == |list| then i == 0 else i <= |list[b]|)
    && Placed(newList) && Holds(newList, moved)
    && forall s: Slot :: In(moved, s) <==> s in Home(list, s.name) && Done(list, s, b, i)
  }

  ghost predicate Done(list: seq<seq<Slot>>, s: Slot, b: nat, i: nat)
    requires |list| > 0 && b <= |list| && if b == |list| then i == 0 else i <= |list[b]|
  {
    var home := s.name.hash % |list|;
    home < b || (home == b && s in list[b][..i])
  }

  lemma NothingMoved(list: seq<seq<Slot>>, newList: seq<seq<Slot>>)
    requires |list| > 0 && |newList| > 0 && forall b :: 0 <= b < |newList| ==> newList[b] == []
    ensures Moving(list, newList, map[], 0, 0) && Total(list[..0]) == 0
  {
  }

  lemma TotalNext(list: seq<seq<Slot>>, b: nat)
    requires b < |list|
    ensures Total(list[..b + 1]) == Total(list[..b]) + |list[b]|
  {
    assert list[..b + 1][..b] == list[..b];
  }

  lemma BucketExists(hash: nat, length: nat)
    requires length > 0
    ensures 0 <= hash % length < length
  {
  }

  lemma MovesOne(list: seq<seq<Slot>>, newList: seq<seq<Slot>>, moved: map<Name, int>, b: nat, i: nat)
    requires Placed(list) && b < |list| && i < |list[b]| && Moving(list, newList, moved, b, i)
    ensures var h := list[b][i];
            var ptr := h.name.hash % |newList|;
            Moving(list, newList[ptr := [h] + newList[ptr]], moved[h.name := h.handle], b, i + 1)
  {
    var h := list[b][i];
    KeyHasSlot(moved, h.name);
    forall s | s in list[b][..i] ensures s.name != h.name {
      var j :| 0 <= j < i && list[b][..i][j] == s;
    }
    AddedHolds(newList, moved, h, [h] + Home(newList, h.name));
    forall s: Slot ensures In(moved[h.name := h.handle], s) <==> s in Home(list, s.name) && Done(list, s, b, i + 1) {
      assert In(moved, s) <==> s in Home(list, s.name) && Done(list, s, b, i);
      assert list[b][..i + 1] == list[b][..i] + [h];
    }
  }

  lemma NextBucket(list: seq<seq<Slot>>, newList: seq<seq<Slot>>, moved: map<Name, int>, b: nat)
    requires b < |list| && Moving(list, newList, moved, b, |list[b]|)
    ensures Moving(list, newList, moved, b + 1, 0)
  {
    assert list[b][..|list[b]|] == list[b];
    forall s: Slot ensures In(moved, s) <==> s in Home(list, s.name) && Done(list, s, b + 1, 0) {
      assert In(moved, s) <==> s in Home(list, s.name) && Done(list, s, b, |list[b]|);
    }
  }

  lemma AllMoved(list: seq<seq<Slot>>, newList: seq<seq<Slot>>, moved: map<Name, int>, contents: map<Name, int>)
    requires |list| > 0 && Moving(list, newList, moved, |list|, 0) && Holds(list, contents)
    ensures moved == contents && |newList| > 0 && Placed(newList) && Holds(newList, contents)
  {
    forall s: Slot ensures In(moved, s) <==> In(contents, s) {
    }
    forall name ensures name in moved <==> name in contents {
      if name in moved {
        assert In(moved, Slot(name, moved[name]));
      }
      if name in contents {
        assert In(contents, Slot(name, contents[name]));
      }
    }
    forall name | name in moved ensures moved[name] == contents[name] {
      assert In(moved, Slot(name, moved[name]));
    }
  }
}
