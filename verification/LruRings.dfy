/** util/cache.cc, the two circular lists of the cache: links between handles, which live in one memory
    and are named by their place in it. */
module LruRings {
  import opened HandleTables

  const LRU: int := 0       // the dummy head of the list of entries without clients, oldest first
  const IN_USE: int := 1    // the dummy head of the list of entries with clients
  const FIRST_HANDLE: int := 2

  datatype Handle = Handle(name: Name, value: int, charge: nat, inCache: bool, refs: nat, next: int, prev: int)

  // The i-th place of a ring, counted from its head at both ends.
  function At(head: int, list: seq<int>, i: int): int {
    if 0 < i <= |list| then list[i - 1] else head
  }

  ghost predicate Distinct(list: seq<int>) {
    forall i, j :: 0 <= i < j < |list| ==> list[i] != list[j]
  }

  ghost predicate InMemory(mem: seq<Handle>, list: seq<int>) {
    forall i :: 0 <= i < |list| ==> FIRST_HANDLE <= list[i] < |mem|
  }

  ghost predicate Linked(mem: seq<Handle>, head: int, list: seq<int>, i: int)
    requires 0 <= At(head, list, i) < |mem| && 0 <= At(head, list, i + 1) < |mem|
  {
    mem[At(head, list, i)].next == At(head, list, i + 1) && mem[At(head, list, i + 1)].prev == At(head, list, i)
  }

  ghost predicate Ring(mem: seq<Handle>, head: int, list: seq<int>) {
    && 0 <= head < FIRST_HANDLE <= |mem| && InMemory(mem, list) && Distinct(list)
    && forall i :: 0 <= i <= |list| ==> Linked(mem, head, list, i)
  }

  ghost predicate Rings(mem: seq<Handle>, lru: seq<int>, inUse: seq<int>) {
    && Ring(mem, LRU, lru) && Ring(mem, IN_USE, inUse)
    && forall e :: e in lru ==> e !in inUse
  }

  // Everything but the links is the same.
  ghost predicate SameData(mem: seq<Handle>, mem': seq<Handle>) {
    && |mem| == |mem'|
    && forall n :: 0 <= n < |mem| ==> mem'[n] == mem[n].(next := mem'[n].next, prev := mem'[n].prev)
  }

  function SetNext(mem: seq<Handle>, n: int, to: int): seq<Handle>
    requires 0 <= n < |mem|
  {
    mem[n := mem[n].(next := to)]
  }

  function SetPrev(mem: seq<Handle>, n: int, to: int): seq<Handle>
    requires 0 <= n < |mem|
  {
    mem[n := mem[n].(prev := to)]
  }

  function Without(list: seq<int>, k: int): seq<int>
    requires 0 <= k < |list|
  {
    list[..k] + list[k + 1..]
  }

  // LRU_Remove
  function Removed(mem: seq<Handle>, e: int): seq<Handle>
    requires 0 <= e < |mem| && 0 <= mem[e].next < |mem| && 0 <= mem[e].prev < |mem|
  {
    SetNext(SetPrev(mem, mem[e].next, mem[e].prev), mem[e].prev, mem[e].next)
  }

  // LRU_Append
  function Appended(mem: seq<Handle>, head: int, e: int): seq<Handle>
    requires 0 <= e < |mem| && 0 <= head < |mem| && 0 <= mem[head].prev < |mem| && e != head
  {
    var last := mem[head].prev;
    SetPrev(SetNext(SetPrev(SetNext(mem, e, head), e, last), last, e), head, e)
  }

  lemma WithoutIs(list: seq<int>, k: int)
    requires 0 <= k < |list|
    ensures |Without(list, k)| == |list| - 1
    ensures forall i :: 0 <= i < k ==> Without(list, k)[i] == list[i]
    ensures forall i :: k <= i < |list| - 1 ==> Without(list, k)[i] == list[i + 1]
    ensures forall e :: e in Without(list, k) ==> e in list
    ensures Distinct(list) ==> Distinct(Without(list, k)) && forall e :: e in Without(list, k) <==> e in list && e != list[k]
  {
    if Distinct(list) {
      forall e | e in list && e != list[k] ensures e in Without(list, k) {
        var i :| 0 <= i < |list| && list[i] == e;
        assert Without(list, k)[if i < k then i else i - 1] == e;
      }
    }
  }

  // A ring does not notice changes elsewhere.
  lemma RingKept(mem: seq<Handle>, mem': seq<Handle>, head: int, list: seq<int>)
    requires Ring(mem, head, list) && |mem| <= |mem'|
    requires mem'[head].next == mem[head].next && mem'[head].prev == mem[head].prev
    requires forall e :: e in list ==> 0 <= e < |mem| && mem'[e].next == mem[e].next && mem'[e].prev == mem[e].prev
    ensures Ring(mem', head, list)
  {
    forall i | 0 <= i <= |list| ensures Linked(mem', head, list, i) {
      assert Linked(mem, head, list, i);
    }
  }

  lemma Neighbours(mem: seq<Handle>, head: int, list: seq<int>, k: int)
    requires Ring(mem, head, list) && 0 <= k < |list|
    ensures mem[list[k]].next == At(head, list, k + 2) && mem[list[k]].prev == At(head, list, k)
    ensures mem[list[k]].next == head || mem[list[k]].next in list
    ensures mem[list[k]].prev == head || mem[list[k]].prev in list
    ensures mem[list[k]].next != list[k] && mem[list[k]].prev != list[k]
  {
    assert Linked(mem, head, list, k) && Linked(mem, head, list, k + 1);
  }

  lemma RemovedRing(mem: seq<Handle>, head: int, list: seq<int>, k: int)
    requires Ring(mem, head, list) && 0 <= k < |list|
    ensures 0 <= mem[list[k]].next < |mem| && 0 <= mem[list[k]].prev < |mem|
    ensures Ring(Removed(mem, list[k]), head, Without(list, k)) && SameData(mem, Removed(mem, list[k]))
  {
    hide Without, Removed;
    Neighbours(mem, head, list, k);
    WithoutIs(list, k);
    RemovedIs(mem, list[k]);
    forall i | 0 <= i < |list| ensures Linked(Removed(mem, list[k]), head, Without(list, k), i) {
      RemovedLink(mem, head, list, k, i);
    }
  }

  lemma RemovedIs(mem: seq<Handle>, e: int)
    requires 0 <= e < |mem| && 0 <= mem[e].next < |mem| && 0 <= mem[e].prev < |mem|
    ensures SameData(mem, Removed(mem, e))
    ensures forall n :: 0 <= n < |mem| ==> Removed(mem, e)[n].next == if n == mem[e].prev then mem[e].next else mem[n].next
    ensures forall n :: 0 <= n < |mem| ==> Removed(mem, e)[n].prev == if n == mem[e].next then mem[e].prev else mem[n].prev
  {
  }

  lemma RemovedLink(mem: seq<Handle>, head: int, list: seq<int>, k: int, i: int)
    requires Ring(mem, head, list) && 0 <= k < |list| && 0 <= i < |list| == |Without(list, k)| + 1
    requires 0 <= mem[list[k]].next < |mem| && 0 <= mem[list[k]].prev < |mem|
    ensures 0 <= At(head, Without(list, k), i) < |mem| && 0 <= At(head, Without(list, k), i + 1) < |mem|
    ensures Linked(Removed(mem, list[k]), head, Without(list, k), i)
  {
    hide Without, Removed, Distinct;
    Neighbours(mem, head, list, k);
    RemovedIs(mem, list[k]);
    PlacesWithout(head, list, k);
    PlacesDiffer(head, list);
    if i < k {
      assert Linked(mem, head, list, i);
    } else if i > k {
      assert Linked(mem, head, list, i + 1);
    }
  }

  lemma PlacesWithout(head: int, list: seq<int>, k: int)
    requires 0 <= k < |list|
    ensures forall i :: 0 <= i <= k ==> At(head, Without(list, k), i) == At(head, list, i)
    ensures forall i :: k < i <= |list| ==> At(head, Without(list, k), i) == At(head, list, i + 1)
  {
    WithoutIs(list, k);
    hide Without;
  }

  lemma PlacesDiffer(head: int, list: seq<int>)
    requires Distinct(list) && head !in list
    ensures forall i, j :: 0 <= i < j <= |list| ==> At(head, list, i) != At(head, list, j)
  {
  }

  lemma AppendedRing(mem: seq<Handle>, head: int, list: seq<int>, e: int)
    requires Ring(mem, head, list) && FIRST_HANDLE <= e < |mem| && e !in list
    ensures 0 <= mem[head].prev < |mem|
    ensures Ring(Appended(mem, head, e), head, list + [e]) && SameData(mem, Appended(mem, head, e))
  {
    assert Linked(mem, head, list, |list|);
    var mem', list' := Appended(mem, head, e), list + [e];
    forall i | 0 <= i <= |list'| ensures Linked(mem', head, list', i) {
      if i < |list| {
        assert Linked(mem, head, list, i);
      }
      PlacesDiffer(head, list);
    }
  }
}
