/** util/cache.cc:150-333: one shard of the cache. An entry is kept by its clients and by the cache; it is
    on the list that its references call for, and freed when the last of them goes. */
module LruCaches {
  import opened Options
  import opened HandleTables
  import opened LruRings

  datatype State = State(
    mem: seq<Handle>,
    usage: nat,
    lru: seq<int>,             // the handles on the two lists
    inUse: seq<int>,
    clients: map<int, nat>,    // how many handles to an entry clients hold, for every entry not freed
    contents: map<Name, int>,  // the hash table
    deleted: seq<int>)         // the entries freed so far, in order

  function Charges(mem: seq<Handle>, list: seq<int>): nat
    requires forall i :: 0 <= i < |list| ==> 0 <= list[i] < |mem|
  {
    if list == [] then 0 else Charges(mem, list[..|list| - 1]) + mem[list[|list| - 1]].charge
  }

  // ---- The invariant ----

  ghost predicate InTable(s: State, e: int)
    requires 0 <= e < |s.mem|
  {
    s.mem[e].name in s.contents && s.contents[s.mem[e].name] == e
  }

  // `loose` is an entry in the cache that is not in the table, in the middle of an operation.
  ghost predicate HandleOk(s: State, e: int, loose: Option<int>)
    requires 0 <= e < |s.mem|
  {
    var h := s.mem[e];
    && (h.inCache <==> InTable(s, e) || loose == Some(e))
    && (e in s.deleted <==> e !in s.clients)
    && (e in s.clients ==> h.refs == s.clients[e] + (if h.inCache then 1 else 0) && h.refs > 0)
    && (e in s.deleted ==> !h.inCache && h.refs == 0)
    && (e in s.lru <==> h.inCache && h.refs == 1)
    && (e in s.inUse <==> h.inCache && h.refs >= 2)
  }

  ghost predicate HandlesOk(s: State, loose: Option<int>) {
    forall e :: FIRST_HANDLE <= e < |s.mem| ==> HandleOk(s, e, loose)
  }

  ghost predicate TableOk(s: State, loose: Option<int>) {
    && (forall name :: name in s.contents ==>
          FIRST_HANDLE <= s.contents[name] < |s.mem| && s.mem[s.contents[name]].name == name && loose != Some(s.contents[name]))
    && (loose.Some? ==> FIRST_HANDLE <= loose.value < |s.mem|)
    && (forall e :: e in s.clients ==> FIRST_HANDLE <= e < |s.mem|)
    && Distinct(s.deleted) && InMemory(s.mem, s.deleted)
  }

  ghost predicate UsageOk(s: State)
    requires Rings(s.mem, s.lru, s.inUse)
  {
    s.usage == Charges(s.mem, s.lru) + Charges(s.mem, s.inUse)
  }

  ghost predicate Inv(s: State, loose: Option<int>) {
    && Rings(s.mem, s.lru, s.inUse) && HandlesOk(s, loose) && TableOk(s, loose) && UsageOk(s)
  }

  // ---- Sums ----

  lemma {:induction false} ChargesSame(mem: seq<Handle>, mem': seq<Handle>, list: seq<int>)
    requires forall i :: 0 <= i < |list| ==> 0 <= list[i] < |mem| && 0 <= list[i] < |mem'| && mem'[list[i]].charge == mem[list[i]].charge
    ensures Charges(mem', list) == Charges(mem, list)
  {
    if list != [] {
      ChargesSame(mem, mem', list[..|list| - 1]);
    }
  }

  lemma {:induction false} ChargesWithout(mem: seq<Handle>, list: seq<int>, k: int)
    requires 0 <= k < |list| && forall i :: 0 <= i < |list| ==> 0 <= list[i] < |mem|
    ensures forall i :: 0 <= i < |Without(list, k)| ==> 0 <= Without(list, k)[i] < |mem|
    ensures Charges(mem, list) == Charges(mem, Without(list, k)) + mem[list[k]].charge
  {
    WithoutIs(list, k);
    var n := |list| - 1;
    if k == n {
      assert Without(list, k) == list[..n];
    } else {
      ChargesWithout(mem, list[..n], k);
      ChargesWith(mem, Without(list[..n], k), list[n]);
      assert Without(list, k) == Without(list[..n], k) + [list[n]];
    }
  }

  lemma ChargesWith(mem: seq<Handle>, list: seq<int>, e: int)
    requires 0 <= e < |mem| && forall i :: 0 <= i < |list| ==> 0 <= list[i] < |mem|
    ensures Charges(mem, list + [e]) == Charges(mem, list) + mem[e].charge
  {
    assert (list + [e])[..|list|] == list;
  }

  ghost function IndexOf(list: seq<int>, e: int): (k: int)
    requires e in list
    ensures 0 <= k < |list| && list[k] == e
  {
    if list[0] == e then 0 else 1 + IndexOf(list[1..], e)
  }

  // Entries keep the name, the value and the charge that they were made with.
  ghost predicate SameEntries(mem: seq<Handle>, mem': seq<Handle>) {
    && |mem| <= |mem'|
    && forall n :: 0 <= n < |mem| ==>
                     mem'[n].name == mem[n].name && mem'[n].value == mem[n].value && mem'[n].charge == mem[n].charge
  }

  // ---- The steps ----

  // LRU_Remove from whichever list the entry is on.
  ghost function TakeOff(s: State, e: int): State
    requires Rings(s.mem, s.lru, s.inUse) && (e in s.lru || e in s.inUse)
  {
    TakeOffLinks(s, e);
    if e in s.lru then s.(mem := Removed(s.mem, e), lru := Without(s.lru, IndexOf(s.lru, e)))
    else s.(mem := Removed(s.mem, e), inUse := Without(s.inUse, IndexOf(s.inUse, e)))
  }

  ghost function PutOn(s: State, head: int, e: int): State
    requires Rings(s.mem, s.lru, s.inUse) && FIRST_HANDLE <= e < |s.mem| && e !in s.lru && e !in s.inUse
    requires head == LRU || head == IN_USE
  {
    PutOnLinks(s, head, e);
    if head == LRU then s.(mem := Appended(s.mem, head, e), lru := s.lru + [e])
    else s.(mem := Appended(s.mem, head, e), inUse := s.inUse + [e])
  }

  lemma TakeOffLinks(s: State, e: int)
    requires Rings(s.mem, s.lru, s.inUse) && (e in s.lru || e in s.inUse)
    ensures 0 <= e < |s.mem| && 0 <= s.mem[e].next < |s.mem| && 0 <= s.mem[e].prev < |s.mem|
  {
    if e in s.lru {
      RemovedRing(s.mem, LRU, s.lru, IndexOf(s.lru, e));
    } else {
      RemovedRing(s.mem, IN_USE, s.inUse, IndexOf(s.inUse, e));
    }
  }

  lemma PutOnLinks(s: State, head: int, e: int)
    requires Rings(s.mem, s.lru, s.inUse) && FIRST_HANDLE <= e < |s.mem| && e !in s.lru && e !in s.inUse
    requires head == LRU || head == IN_USE
    ensures 0 <= head < |s.mem| && 0 <= s.mem[head].prev < |s.mem|
  {
    AppendedRing(s.mem, head, if head == LRU then s.lru else s.inUse, e);
  }

  ghost function Listed(s: State): nat
    requires Rings(s.mem, s.lru, s.inUse)
  {
    Charges(s.mem, s.lru) + Charges(s.mem, s.inUse)
  }

  // Only the links and the lists differ; `gone` is taken off them.
  ghost predicate OnlyLinks(s: State, s': State) {
    SameData(s.mem, s'.mem) && s' == s.(mem := s'.mem, lru := s'.lru, inUse := s'.inUse)
  }

  lemma TakeOffKeeps(s: State, e: int)
    requires Rings(s.mem, s.lru, s.inUse) && (e in s.lru || e in s.inUse)
    ensures var s' := TakeOff(s, e);
            && Rings(s'.mem, s'.lru, s'.inUse) && OnlyLinks(s, s')
            && Listed(s) == Listed(s') + s.mem[e].charge
    ensures forall x :: x in TakeOff(s, e).lru <==> x in s.lru && x != e
    ensures forall x :: x in TakeOff(s, e).inUse <==> x in s.inUse && x != e
  {
    hide Ring, Removed, Without, Charges;
    var s' := TakeOff(s, e);
    if e in s.lru {
      OneTakenOff(s.mem, LRU, s.lru, e, IN_USE, s.inUse);
    } else {
      OneTakenOff(s.mem, IN_USE, s.inUse, e, LRU, s.lru);
    }
  }

  lemma OneTakenOff(mem: seq<Handle>, head: int, list: seq<int>, e: int, other: int, others: seq<int>)
    requires Ring(mem, head, list) && Ring(mem, other, others) && head != other && e in list
    requires forall x :: x in list ==> x !in others
    ensures 0 <= e < |mem| && 0 <= mem[e].next < |mem| && 0 <= mem[e].prev < |mem|
    ensures var k := IndexOf(list, e);
            && Ring(Removed(mem, e), head, Without(list, k)) && Ring(Removed(mem, e), other, others)
            && SameData(mem, Removed(mem, e))
            && Charges(mem, list) == Charges(Removed(mem, e), Without(list, k)) + mem[e].charge
            && Charges(mem, others) == Charges(Removed(mem, e), others)
    ensures forall x :: x in Without(list, IndexOf(list, e)) <==> x in list && x != e
  {
    hide Removed, Without, Charges;
    var k := IndexOf(list, e);
    RemovedRing(mem, head, list, k);
    var mem' := Removed(mem, e);
    Neighbours(mem, head, list, k);
    RemovedIs(mem, e);
    RingKept(mem, mem', other, others);
    WithoutIs(list, k);
    ChargesWithout(mem, list, k);
    ChargesSame(mem, mem', Without(list, k));
    ChargesSame(mem, mem', others);
  }

  lemma PutOnKeeps(s: State, head: int, e: int)
    requires Rings(s.mem, s.lru, s.inUse) && FIRST_HANDLE <= e < |s.mem| && e !in s.lru && e !in s.inUse
    requires head == LRU || head == IN_USE
    ensures var s' := PutOn(s, head, e);
            && Rings(s'.mem, s'.lru, s'.inUse) && OnlyLinks(s, s')
            && Listed(s') == Listed(s) + s.mem[e].charge
    ensures forall x :: x in PutOn(s, head, e).lru <==> x in s.lru || (head == LRU && x == e)
    ensures forall x :: x in PutOn(s, head, e).inUse <==> x in s.inUse || (head == IN_USE && x == e)
  {
    hide Ring, Appended, Charges;
    if head == LRU {
      OnePutOn(s.mem, LRU, s.lru, e, IN_USE, s.inUse);
    } else {
      OnePutOn(s.mem, IN_USE, s.inUse, e, LRU, s.lru);
    }
  }

  lemma OnePutOn(mem: seq<Handle>, head: int, list: seq<int>, e: int, other: int, others: seq<int>)
    requires Ring(mem, head, list) && Ring(mem, other, others) && head != other
    requires FIRST_HANDLE <= e < |mem| && e !in list && e !in others
    requires forall x :: x in list ==> x !in others
    ensures 0 <= mem[head].prev < |mem|
    ensures var mem' := Appended(mem, head, e);
            && Ring(mem', head, list + [e]) && Ring(mem', other, others) && SameData(mem, mem')
            && Charges(mem', list + [e]) == Charges(mem, list) + mem[e].charge
            && Charges(mem', others) == Charges(mem, others)
  {
    hide Appended, Charges;
    AppendedRing(mem, head, list, e);
    var mem' := Appended(mem, head, e);
    LastIs(mem, head, list);
    AppendedIs(mem, head, e);
    RingKept(mem, mem', other, others);
    ChargesWith(mem, list, e);
    ChargesSame(mem, mem', list + [e]);
    ChargesSame(mem, mem', others);
  }

  lemma LastIs(mem: seq<Handle>, head: int, list: seq<int>)
    requires Ring(mem, head, list)
    ensures mem[head].prev == head || mem[head].prev in list
    ensures mem[head].next == if list == [] then head else list[0]
  {
    assert Linked(mem, head, list, |list|) && Linked(mem, head, list, 0);
  }

  lemma AppendedIs(mem: seq<Handle>, head: int, e: int)
    requires 0 <= e < |mem| && 0 <= head < |mem| && 0 <= mem[head].prev < |mem| && e != head
    ensures forall n :: 0 <= n < |mem| && n != e && n != head && n != mem[head].prev ==> Appended(mem, head, e)[n] == mem[n]
  {
  }

  // ---- What a step leaves alone ----

  ghost predicate SameAt(s: State, s': State, x: int)
    requires 0 <= x < |s.mem| && 0 <= x < |s'.mem|
  {
    && s'.mem[x].inCache == s.mem[x].inCache && s'.mem[x].refs == s.mem[x].refs
    && (x in s'.lru <==> x in s.lru) && (x in s'.inUse <==> x in s.inUse)
    && (x in s'.deleted <==> x in s.deleted)
    && (x in s'.clients <==> x in s.clients) && (x in s.clients ==> s'.clients[x] == s.clients[x])
  }

  lemma OthersOk(s: State, s': State, e: int, loose: Option<int>, loose': Option<int>)
    requires |s'.mem| == |s.mem| || (|s'.mem| == |s.mem| + 1 && e == |s.mem|)
    requires FIRST_HANDLE <= e < |s'.mem| && HandlesOk(s, loose)
    requires forall x :: FIRST_HANDLE <= x < |s.mem| && x != e ==>
               SameAt(s, s', x) && (InTable(s', x) || loose' == Some(x) <==> InTable(s, x) || loose == Some(x))
    requires HandleOk(s', e, loose')
    ensures HandlesOk(s', loose')
  {
    forall x | FIRST_HANDLE <= x < |s'.mem| ensures HandleOk(s', x, loose') {
      if x != e {
        assert HandleOk(s, x, loose);
      }
    }
  }

  function WithRefs(mem: seq<Handle>, e: int, refs: nat): seq<Handle>
    requires 0 <= e < |mem|
  {
    mem[e := mem[e].(refs := refs)]
  }

  lemma DataKeepsRings(s: State, mem': seq<Handle>)
    requires Rings(s.mem, s.lru, s.inUse) && |mem'| >= |s.mem|
    requires forall n :: 0 <= n < |s.mem| ==> mem'[n].next == s.mem[n].next && mem'[n].prev == s.mem[n].prev && mem'[n].charge == s.mem[n].charge
    ensures Rings(mem', s.lru, s.inUse)
    ensures Charges(mem', s.lru) == Charges(s.mem, s.lru) && Charges(mem', s.inUse) == Charges(s.mem, s.inUse)
  {
    hide Linked;
    RingKept(s.mem, mem', LRU, s.lru);
    RingKept(s.mem, mem', IN_USE, s.inUse);
    ChargesSame(s.mem, mem', s.lru);
    ChargesSame(s.mem, mem', s.inUse);
  }

  // Ref, when a client gets a handle to e.
  ghost function Referred(s: State, e: int): State
    requires Inv(s, None) && e in s.clients
  {
    RefMoves(s, e);
    var s1 := if s.mem[e].refs == 1 && s.mem[e].inCache then PutOn(TakeOff(s, e), IN_USE, e) else s;
    s1.(mem := WithRefs(s1.mem, e, s1.mem[e].refs + 1), clients := s.clients[e := s.clients[e] + 1])
  }

  lemma RefMoves(s: State, e: int)
    requires Inv(s, None) && e in s.clients
    ensures FIRST_HANDLE <= e < |s.mem| && Rings(s.mem, s.lru, s.inUse)
    ensures s.mem[e].refs == 1 && s.mem[e].inCache ==>
              && e in s.lru && e !in s.inUse
              && var s1 := TakeOff(s, e);
                 && Rings(s1.mem, s1.lru, s1.inUse) && |s1.mem| == |s.mem| && e !in s1.lru && e !in s1.inUse
                 && |PutOn(s1, IN_USE, e).mem| == |s.mem|
  {
    hide Ring, TakeOff, PutOn, Charges;
    assert HandleOk(s, e, None);
    if s.mem[e].refs == 1 && s.mem[e].inCache {
      TakeOffKeeps(s, e);
      PutOnKeeps(TakeOff(s, e), IN_USE, e);
    }
  }

  lemma ReferredKeeps(s: State, e: int)
    requires Inv(s, None) && e in s.clients
    ensures Inv(Referred(s, e), None)
    ensures var s' := Referred(s, e);
            && s'.contents == s.contents && s'.deleted == s.deleted && s'.usage == s.usage
            && s'.clients == s.clients[e := s.clients[e] + 1] && SameEntries(s.mem, s'.mem)
            && s'.lru == if e in s.lru then Without(s.lru, IndexOf(s.lru, e)) else s.lru
  {
    hide Ring, TakeOff, PutOn, Charges, Without;
    RefMoves(s, e);
    assert HandleOk(s, e, None);
    var s' := Referred(s, e);
    if s.mem[e].refs == 1 && s.mem[e].inCache {
      TakeOffKeeps(s, e);
      PutOnKeeps(TakeOff(s, e), IN_USE, e);
      var s1 := PutOn(TakeOff(s, e), IN_USE, e);
      DataKeepsRings(s1, s'.mem);
      TookOffLru(s, e);
    } else {
      DataKeepsRings(s, s'.mem);
    }
    OthersOk(s, s', e, None, None);
  }

  lemma TookOffLru(s: State, e: int)
    requires Rings(s.mem, s.lru, s.inUse) && e in s.lru
    ensures TakeOff(s, e).lru == Without(s.lru, IndexOf(s.lru, e))
    ensures var s1 := TakeOff(s, e);
            FIRST_HANDLE <= e < |s1.mem| && Rings(s1.mem, s1.lru, s1.inUse) && e !in s1.lru && e !in s1.inUse ==>
              PutOn(s1, IN_USE, e).lru == s1.lru
  {
  }

  // An entry without references is freed; nobody holds it any more.
  function ClientsAfter(clients: map<int, nat>, e: int, refs: nat): map<int, nat> {
    if refs == 0 then clients - {e} else clients
  }

  function DeletedAfter(deleted: seq<int>, e: int, refs: nat): seq<int> {
    if refs == 0 then deleted + [e] else deleted
  }

  // Unref: the entry is freed with its last reference, and goes on the LRU list with its last client.
  ghost function Unreffed(s: State, e: int): State
    requires CanUnref(s, e)
  {
    var refs := s.mem[e].refs - 1;
    var s1 := s.(mem := WithRefs(s.mem, e, refs), clients := ClientsAfter(s.clients, e, refs), deleted := DeletedAfter(s.deleted, e, refs));
    if refs == 1 && s.mem[e].inCache then PutOn(TakeOff(s1, e), LRU, e) else s1
  }

  ghost predicate CanUnref(s: State, e: int) {
    && FIRST_HANDLE <= e < |s.mem| && s.mem[e].refs > 0
    && (s.mem[e].refs == 2 && s.mem[e].inCache ==>
          var s1 := s.(mem := WithRefs(s.mem, e, 1));
          && Rings(s1.mem, s1.lru, s1.inUse) && e !in s.lru && e in s.inUse
          && var s2 := TakeOff(s1, e);
             Rings(s2.mem, s2.lru, s2.inUse) && |s2.mem| == |s.mem| && e !in s2.lru && e !in s2.inUse)
  }

  // Release, for a client that holds a handle.
  ghost function Dropped(s: State, e: int): State
    requires Inv(s, None) && e in s.clients && s.clients[e] > 0
  {
    DropMoves(s, e);
    Unreffed(s.(clients := s.clients[e := s.clients[e] - 1]), e)
  }

  lemma DropMoves(s: State, e: int)
    requires Inv(s, None) && e in s.clients && s.clients[e] > 0
    ensures FIRST_HANDLE <= e < |s.mem|
    ensures CanUnref(s.(clients := s.clients[e := s.clients[e] - 1]), e)
  {
    hide Ring, TakeOff, PutOn, Charges;
    assert HandleOk(s, e, None);
    DataKeepsRings(s, WithRefs(s.mem, e, s.mem[e].refs - 1));
    if s.mem[e].refs == 2 && s.mem[e].inCache {
      TakeOffKeeps(s.(mem := WithRefs(s.mem, e, 1), clients := s.clients[e := s.clients[e] - 1]), e);
    }
  }

  lemma DroppedKeeps(s: State, e: int)
    requires Inv(s, None) && e in s.clients && s.clients[e] > 0
    ensures Inv(Dropped(s, e), None)
    ensures var s' := Dropped(s, e);
            var gone := s.clients[e] == 1 && e !in s.contents.Values;
            && s'.contents == s.contents && s'.usage == s.usage && SameEntries(s.mem, s'.mem)
            && s'.deleted == (if gone then s.deleted + [e] else s.deleted)
            && s'.clients == (if gone then s.clients - {e} else s.clients[e := s.clients[e] - 1])
            && s'.lru == if s.clients[e] == 1 && !gone then s.lru + [e] else s.lru
  {
    hide Ring, TakeOff, PutOn, Charges, Without;
    DropMoves(s, e);
    CachedIffInTable(s, e);
    assert HandleOk(s, e, None);
    var s' := Dropped(s, e);
    var refs := s.mem[e].refs - 1;
    var s1 := s.(mem := WithRefs(s.mem, e, refs), clients := ClientsAfter(s.clients[e := s.clients[e] - 1], e, refs),
                 deleted := DeletedAfter(s.deleted, e, refs));
    DataKeepsRings(s, s1.mem);
    if refs == 1 && s.mem[e].inCache {
      TakeOffKeeps(s1, e);
      PutOnKeeps(TakeOff(s1, e), LRU, e);
      TookOffInUse(s1, e);
    }
    FreedTable(s, s', e, refs);
    OthersOk(s, s', e, None, None);
  }

  lemma TookOffInUse(s: State, e: int)
    requires Rings(s.mem, s.lru, s.inUse) && e in s.inUse && e !in s.lru
    ensures TakeOff(s, e).lru == s.lru
    ensures var s1 := TakeOff(s, e);
            FIRST_HANDLE <= e < |s1.mem| && Rings(s1.mem, s1.lru, s1.inUse) && e !in s1.lru && e !in s1.inUse ==>
              PutOn(s1, LRU, e).lru == s1.lru + [e]
  {
  }

  lemma CachedIffInTable(s: State, e: int)
    requires Inv(s, None) && FIRST_HANDLE <= e < |s.mem|
    ensures s.mem[e].inCache <==> e in s.contents.Values
  {
    hide Rings, UsageOk;
    assert HandleOk(s, e, None);
    if s.mem[e].inCache {
      assert s.contents[s.mem[e].name] == e;
    }
  }

  lemma FreedTable(s: State, s': State, e: int, refs: nat)
    requires TableOk(s, None) && FIRST_HANDLE <= e < |s.mem| == |s'.mem| && HandleOk(s, e, None) && e in s.clients
    requires s'.contents == s.contents && s'.deleted == DeletedAfter(s.deleted, e, refs)
    requires forall x :: x in s'.clients ==> x in s.clients
    requires forall n :: 0 <= n < |s.mem| ==> s'.mem[n].name == s.mem[n].name
    ensures TableOk(s', None)
  {
  }

  // FinishErase, for an entry that has left the table: off its list, and the cache's reference goes.
  ghost function Finished(s: State, e: int): State
    requires Inv(s, Some(e))
  {
    FinishMoves(s, e);
    Unreffed(Uncached(s, e), e)
  }

  ghost function Uncached(s: State, e: int): State
    requires Rings(s.mem, s.lru, s.inUse) && (e in s.lru || e in s.inUse)
    requires |TakeOff(s, e).mem| == |s.mem| && 0 <= e < |s.mem| && s.usage >= s.mem[e].charge
  {
    var s1 := TakeOff(s, e);
    s1.(mem := s1.mem[e := s1.mem[e].(inCache := false)], usage := s.usage - s.mem[e].charge)
  }

  lemma FinishMoves(s: State, e: int)
    requires Inv(s, Some(e))
    ensures Rings(s.mem, s.lru, s.inUse)
    ensures FIRST_HANDLE <= e < |s.mem| && (e in s.lru || e in s.inUse) && s.mem[e].refs > 0 && s.mem[e].inCache
    ensures |TakeOff(s, e).mem| == |s.mem| && s.usage >= s.mem[e].charge
    ensures CanUnref(Uncached(s, e), e)
  {
    hide Ring, TakeOff, Charges;
    assert HandleOk(s, e, Some(e));
    TakeOffKeeps(s, e);
  }

  lemma FinishedKeeps(s: State, e: int)
    requires Inv(s, Some(e))
    ensures Inv(Finished(s, e), None)
    ensures 0 <= e < |s.mem|
    ensures var s' := Finished(s, e);
            && s'.contents == s.contents && s'.usage + s.mem[e].charge == s.usage && SameEntries(s.mem, s'.mem)
            && (e in s.lru ==> s'.deleted == s.deleted + [e] && s'.clients == s.clients - {e}
                               && s'.lru == Without(s.lru, IndexOf(s.lru, e)))
            && (e !in s.lru ==> s'.deleted == s.deleted && s'.clients == s.clients && s'.lru == s.lru)
  {
    hide Ring, TakeOff, Charges, Without;
    FinishMoves(s, e);
    assert HandleOk(s, e, Some(e));
    TakeOffKeeps(s, e);
    TookOff(s, e);
    var s', s1 := Finished(s, e), TakeOff(s, e);
    DataKeepsRings(s1, s'.mem);
    FinishedTable(s, s', e);
    OthersOk(s, s', e, Some(e), None);
  }

  lemma TookOff(s: State, e: int)
    requires Rings(s.mem, s.lru, s.inUse) && (e in s.lru || e in s.inUse)
    ensures TakeOff(s, e).lru == if e in s.lru then Without(s.lru, IndexOf(s.lru, e)) else s.lru
  {
  }

  lemma FinishedTable(s: State, s': State, e: int)
    requires TableOk(s, Some(e)) && FIRST_HANDLE <= e < |s.mem| == |s'.mem| && HandleOk(s, e, Some(e)) && e in s.clients
    requires s'.contents == s.contents && (s'.deleted == s.deleted || s'.deleted == s.deleted + [e])
    requires forall x :: x in s'.clients ==> x in s.clients
    requires forall n :: 0 <= n < |s.mem| ==> s'.mem[n].name == s.mem[n].name
    ensures TableOk(s', None)
  {
  }

  // A new entry with one client. When it is to be cached it goes on the in-use list, and is not in the
  // table yet.
  function NewHandle(name: Name, value: int, charge: nat, cached: bool): Handle {
    Handle(name, value, charge, cached, if cached then 2 else 1, -1, -1)
  }

  ghost function Made(s: State, name: Name, value: int, charge: nat, cached: bool): State
    requires Inv(s, None)
  {
    MadeMoves(s, name, value, charge, cached);
    var e := |s.mem|;
    var s1 := s.(mem := s.mem + [NewHandle(name, value, charge, cached)], clients := s.clients[e := 1]);
    if cached then PutOn(s1, IN_USE, e).(usage := s.usage + charge) else s1
  }

  lemma MadeMoves(s: State, name: Name, value: int, charge: nat, cached: bool)
    requires Inv(s, None)
    ensures var mem' := s.mem + [NewHandle(name, value, charge, cached)];
            Rings(mem', s.lru, s.inUse) && |s.mem| !in s.lru && |s.mem| !in s.inUse && FIRST_HANDLE <= |s.mem|
            && Charges(mem', s.lru) == Charges(s.mem, s.lru) && Charges(mem', s.inUse) == Charges(s.mem, s.inUse)
  {
    hide Charges, Linked;
    DataKeepsRings(s, s.mem + [NewHandle(name, value, charge, cached)]);
  }

  lemma MadeKeeps(s: State, name: Name, value: int, charge: nat, cached: bool)
    requires Inv(s, None)
    ensures Inv(Made(s, name, value, charge, cached), if cached then Some(|s.mem|) else None)
    ensures var s' := Made(s, name, value, charge, cached);
            && |s'.mem| == |s.mem| + 1 && SameEntries(s.mem, s'.mem)
            && s'.mem[|s.mem|].name == name && s'.mem[|s.mem|].value == value && s'.mem[|s.mem|].charge == charge
            && s'.contents == s.contents && s'.deleted == s.deleted && s'.lru == s.lru
            && s'.clients == s.clients[|s.mem| := 1] && s'.usage == s.usage + (if cached then charge else 0)
  {
    hide Ring, PutOn, Charges;
    MadeMoves(s, name, value, charge, cached);
    var e := |s.mem|;
    var s' := Made(s, name, value, charge, cached);
    var s1 := s.(mem := s.mem + [NewHandle(name, value, charge, cached)], clients := s.clients[e := 1]);
    var loose := if cached then Some(e) else None;
    if cached {
      PutOnKeeps(s1, IN_USE, e);
      PutOnInUse(s1, e);
    }
    assert e !in s.deleted && e !in s.clients;
    MadeTable(s, s', loose);
    OthersOk(s, s', e, None, loose);
  }

  lemma PutOnInUse(s: State, e: int)
    requires Rings(s.mem, s.lru, s.inUse) && FIRST_HANDLE <= e < |s.mem| && e !in s.lru && e !in s.inUse
    ensures PutOn(s, IN_USE, e).lru == s.lru
  {
  }

  lemma MadeTable(s: State, s': State, loose: Option<int>)
    requires TableOk(s, None) && FIRST_HANDLE <= |s.mem| && |s'.mem| == |s.mem| + 1
    requires s'.contents == s.contents && s'.deleted == s.deleted && s'.clients == s.clients[|s.mem| := 1]
    requires forall n :: 0 <= n < |s.mem| ==> s'.mem[n].name == s.mem[n].name
    requires loose == None || loose == Some(|s.mem|)
    ensures TableOk(s', loose) && forall name :: name in s.contents ==> s.contents[name] != |s.mem|
  {
  }

  // The new entry enters the table; one of the same name that it replaces is loose then.
  lemma EnteredKeeps(s: State, e: int)
    requires Inv(s, Some(e))
    ensures FIRST_HANDLE <= e < |s.mem|
    ensures var name := s.mem[e].name;
            Inv(s.(contents := s.contents[name := e]), if name in s.contents then Some(s.contents[name]) else None)
  {
    hide Ring, Charges;
    var name := s.mem[e].name;
    var s' := s.(contents := s.contents[name := e]);
    var loose := if name in s.contents then Some(s.contents[name]) else None;
    forall x | FIRST_HANDLE <= x < |s.mem| ensures HandleOk(s', x, loose) {
      assert HandleOk(s, x, Some(e));
    }
  }

  lemma LeftKeeps(s: State, name: Name)
    requires Inv(s, None) && name in s.contents
    ensures Inv(s.(contents := s.contents - {name}), Some(s.contents[name]))
  {
    hide Ring, Charges;
    var e := s.contents[name];
    var s' := s.(contents := s.contents - {name});
    forall x | FIRST_HANDLE <= x < |s.mem| ensures HandleOk(s', x, Some(e)) {
      assert HandleOk(s, x, None);
    }
  }

  // ---- Eviction ----

  // The entry at the front of the LRU list leaves the table and is freed.
  ghost function Evicted(s: State): State
    requires Inv(s, None) && s.lru != []
  {
    OldestIsLoose(s);
    Finished(s.(contents := s.contents - {s.mem[s.lru[0]].name}), s.lru[0])
  }

  lemma OldestIsLoose(s: State)
    requires Inv(s, None) && s.lru != []
    ensures FIRST_HANDLE <= s.lru[0] < |s.mem| && s.mem[s.lru[0]].name in s.contents && s.contents[s.mem[s.lru[0]].name] == s.lru[0]
    ensures s.mem[LRU].next == s.lru[0]
    ensures Inv(s.(contents := s.contents - {s.mem[s.lru[0]].name}), Some(s.lru[0]))
  {
    hide Ring;
    var e := s.lru[0];
    OldestInRange(s);
    LastIs(s.mem, LRU, s.lru);
    assert HandleOk(s, e, None);
    LeftKeeps(s, s.mem[e].name);
  }

  lemma OldestInRange(s: State)
    requires Rings(s.mem, s.lru, s.inUse) && s.lru != []
    ensures FIRST_HANDLE <= s.lru[0] < |s.mem|
  {
  }

  lemma EvictedKeeps(s: State)
    requires Inv(s, None) && s.lru != []
    ensures Inv(Evicted(s), None) && Evicts(s, Evicted(s), 1)
  {
    hide Inv, Finished, Charges, Without;
    OldestIsLoose(s);
    var e := s.lru[0];
    var s0 := s.(contents := s.contents - {s.mem[e].name});
    FinishedKeeps(s0, e);
    FirstWithout(s.lru, e);
    OnlyName(s, e);
    FinishedData(s0, e);
    FirstCharge(s.mem, s.lru);
  }

  lemma FirstWithout(list: seq<int>, e: int)
    requires list != [] && list[0] == e
    ensures IndexOf(list, e) == 0 && Without(list, 0) == list[1..] && list[..1] == [e]
  {
  }

  lemma FirstCharge(mem: seq<Handle>, list: seq<int>)
    requires list != [] && 0 <= list[0] < |mem|
    ensures Charges(mem, list[..1]) == mem[list[0]].charge
  {
    assert list[..1] == [list[0]];
    assert [list[0]][..0] == [];
  }

  // No other name leads to the entry.
  lemma OnlyName(s: State, e: int)
    requires Inv(s, None) && FIRST_HANDLE <= e < |s.mem| && s.mem[e].name in s.contents && s.contents[s.mem[e].name] == e
    ensures s.contents - {s.mem[e].name} == map name | name in s.contents && s.contents[name] != e :: s.contents[name]
  {
  }

  lemma FinishedData(s: State, e: int)
    requires Inv(s, Some(e))
    ensures |Finished(s, e).mem| == |s.mem|
    ensures SameEntries(s.mem, Finished(s, e).mem)
  {
    hide Inv, TakeOff;
    FinishMoves(s, e);
    TakeOffKeeps(s, e);
  }

  // The k oldest entries without clients are freed, oldest first.
  ghost predicate Evicts(s: State, s': State, k: nat) {
    && k <= |s.lru| && (forall i :: 0 <= i < k ==> 0 <= s.lru[i] < |s.mem|)
    && s'.lru == s.lru[k..] && s'.deleted == s.deleted + s.lru[..k]
    && s'.clients == (map e | e in s.clients && e !in s.lru[..k] :: s.clients[e])
    && s'.contents == (map name | name in s.contents && s.contents[name] !in s.lru[..k] :: s.contents[name])
    && s'.usage + Charges(s.mem, s.lru[..k]) == s.usage
    && |s'.mem| == |s.mem| && SameEntries(s.mem, s'.mem)
  }

  lemma EvictsMore(s: State, s': State, s'': State, k: nat)
    requires Evicts(s, s', k) && Evicts(s', s'', 1)
    ensures Evicts(s, s'', k + 1)
  {
    hide Charges;
    var e := s'.lru[0];
    assert e == s.lru[k];
    assert s.lru[..k + 1] == s.lru[..k] + [e] && s.lru[k..][1..] == s.lru[k + 1..];
    assert s'.lru[..1] == [e];
    FirstCharge(s'.mem, s'.lru);
    ChargesWith(s.mem, s.lru[..k], e);
    assert forall x :: x in s.lru[..k + 1] <==> x in s.lru[..k] || x == e;
  }

  lemma EvictsNone(s: State)
    ensures Evicts(s, s, 0)
  {
    assert s.lru[..0] == [];
    assert s.deleted + [] == s.deleted;
  }

  // The state after an insertion, before anything is evicted for it.
  ghost function Inserted(s: State, name: Name, value: int, charge: nat, cached: bool): State
    requires Inv(s, None)
  {
    var s1 := Made(s, name, value, charge, cached);
    if !cached then s1
    else
      EntryMade(s, name, value, charge);
      var s2 := s1.(contents := s1.contents[name := |s.mem|]);
      if name in s.contents then Finished(s2, s.contents[name]) else s2
  }

  lemma EntryMade(s: State, name: Name, value: int, charge: nat)
    requires Inv(s, None)
    ensures var s1 := Made(s, name, value, charge, true);
            && s1.contents == s.contents && s1.mem != []
            && Inv(s1, Some(|s.mem|))
            && Inv(s1.(contents := s1.contents[name := |s.mem|]), if name in s.contents then Some(s.contents[name]) else None)
  {
    hide Inv, Made;
    MadeKeeps(s, name, value, charge, true);
    EnteredKeeps(Made(s, name, value, charge, true), |s.mem|);
  }

  // A new entry under its name; the one that it replaces leaves the cache.
  lemma InsertedKeeps(s: State, name: Name, value: int, charge: nat, cached: bool)
    requires Inv(s, None)
    ensures Inv(Inserted(s, name, value, charge, cached), None)
    ensures var s' := Inserted(s, name, value, charge, cached);
            var e := |s.mem|;
            && e !in s.clients && s'.contents == (if cached then s.contents[name := e] else s.contents)
            && |s'.mem| == |s.mem| + 1 && SameEntries(s.mem, s'.mem)
            && s'.mem[e].name == name && s'.mem[e].value == value && s'.mem[e].charge == charge
            && (if cached && name in s.contents && s.contents[name] in s.lru then
                  var old_ := s.contents[name];
                  s'.deleted == s.deleted + [old_] && s'.clients == s.clients[e := 1] - {old_} && s'.lru == Without(s.lru, IndexOf(s.lru, old_))
                else s'.deleted == s.deleted && s'.clients == s.clients[e := 1] && s'.lru == s.lru)
  {
    hide Inv, Made, Finished, Without;
    MadeKeeps(s, name, value, charge, cached);
    NewIsUnknown(s);
    if cached {
      EntryMade(s, name, value, charge);
      var s1 := Made(s, name, value, charge, cached);
      if name in s.contents {
        FinishedKeeps(s1.(contents := s1.contents[name := |s.mem|]), s.contents[name]);
        FinishedData(s1.(contents := s1.contents[name := |s.mem|]), s.contents[name]);
      }
    }
  }

  lemma NewIsUnknown(s: State)
    requires Inv(s, None)
    ensures |s.mem| !in s.clients
  {
    hide Rings, UsageOk, HandlesOk;
  }

  // ---- The cache ----

  class LRUCache {
    var capacity: nat
    var usage: nat
    var mem: seq<Handle>
    const table: HandleTable
    var deleted: seq<int>          // the calls of the deleter
    ghost var lru: seq<int>
    ghost var inUse: seq<int>
    ghost var clients: map<int, nat>

    ghost function Current(): State
      reads this, table
    {
      State(mem, usage, lru, inUse, clients, table.contents, deleted)
    }

    ghost predicate Valid()
      reads this, table
    {
      table.Valid() && Inv(Current(), None)
    }

    constructor (capacity: nat)
      ensures Valid() && fresh(table) && this.capacity == capacity
      ensures table.contents == map[] && clients == map[] && deleted == [] && lru == []
    {
      this.capacity := capacity;
      usage, deleted := 0, [];
      mem := [Handle(Name("", 0), 0, 0, false, 0, LRU, LRU), Handle(Name("", 0), 0, 0, false, 0, IN_USE, IN_USE)];
      lru, inUse, clients := [], [], map[];
      table := new HandleTable();
    }

    method LRU_Remove(e: int)
      requires 0 <= e < |mem| && 0 <= mem[e].next < |mem| && 0 <= mem[e].prev < |mem|
      modifies this`mem
      ensures mem == Removed(old(mem), e)
    {
      var next, prev := mem[e].next, mem[e].prev;
      mem := SetPrev(mem, next, prev);
      mem := SetNext(mem, prev, next);
    }

    method LRU_Append(head: int, e: int)
      requires 0 <= e < |mem| && 0 <= head < |mem| && 0 <= mem[head].prev < |mem| && e != head
      modifies this`mem
      ensures mem == Appended(old(mem), head, e)
    {
      var last := mem[head].prev;
      mem := SetNext(mem, e, head);
      mem := SetPrev(mem, e, last);
      mem := SetNext(mem, last, e);
      mem := SetPrev(mem, head, e);
    }

    // Ref, for a client.
    method Ref(e: int)
      requires Valid() && e in clients
      modifies this`mem, this`lru, this`inUse, this`clients
      ensures Valid() && Current() == Referred(old(Current()), e)
    {
      hide Inv, Ring, Removed, Appended, Without;
      ghost var s := Current();
      RefMoves(s, e);
      ReferredKeeps(s, e);
      if mem[e].refs == 1 && mem[e].inCache {
        TakeOffLinks(s, e);
        PutOnLinks(TakeOff(s, e), IN_USE, e);
        LRU_Remove(e);
        lru := Without(lru, IndexOf(lru, e));
        LRU_Append(IN_USE, e);
        inUse := inUse + [e];
      }
      mem := WithRefs(mem, e, mem[e].refs + 1);
      clients := clients[e := clients[e] + 1];
    }

    // Lookup agrees with the table; the entry found is in use then.
    method Lookup(name: Name) returns (handle: Option<int>)
      requires Valid()
      modifies this`mem, this`lru, this`inUse, this`clients
      ensures Valid() && handle == if name in table.contents then Some(table.contents[name]) else None
      ensures handle == None ==> Current() == old(Current())
      ensures handle.Some? ==> handle.value in old(clients) && Current() == Referred(old(Current()), handle.value)
    {
      hide Referred;
      handle := table.Lookup(name);
      if handle.Some? {
        CachedIsLive(Current(), name);
        Ref(handle.value);
      }
    }

    method Unref(e: int)
      requires CanUnref(Current(), e)
      modifies this`mem, this`lru, this`inUse, this`clients, this`deleted
      ensures Current() == Unreffed(old(Current()), e)
    {
      hide Ring, Removed, Appended, Without;
      mem := WithRefs(mem, e, mem[e].refs - 1);
      if mem[e].refs == 0 {
        deleted := deleted + [e];
        clients := clients - {e};
      } else if mem[e].inCache && mem[e].refs == 1 {
        ghost var s1 := Current();
        TakeOffLinks(s1, e);
        PutOnLinks(TakeOff(s1, e), LRU, e);
        LRU_Remove(e);
        inUse := Without(inUse, IndexOf(inUse, e));
        LRU_Append(LRU, e);
        lru := lru + [e];
      }
    }

    method Release(handle: int)
      requires Valid() && handle in clients && clients[handle] > 0
      modifies this`mem, this`lru, this`inUse, this`clients, this`deleted
      ensures Valid() && Current() == Dropped(old(Current()), handle)
    {
      hide Inv, Unreffed, CanUnref;
      DropMoves(Current(), handle);
      DroppedKeeps(Current(), handle);
      clients := clients[handle := clients[handle] - 1];
      Unref(handle);
    }

    // FinishErase of an entry that was taken out of the table.
    method FinishErase(e: Option<int>) returns (erased: bool)
      requires table.Valid() && Inv(Current(), e)
      modifies this`mem, this`usage, this`lru, this`inUse, this`clients, this`deleted
      ensures Valid() && erased == e.Some?
      ensures Current() == if e == None then old(Current()) else Finished(old(Current()), e.value)
    {
      hide Inv, Unreffed, CanUnref, Ring, Removed, Without;
      if e.Some? {
        ghost var s := Current();
        FinishMoves(s, e.value);
        FinishedKeeps(s, e.value);
        TakeOffLinks(s, e.value);
        RemovedIs(mem, e.value);
        LRU_Remove(e.value);
        if e.value in lru {
          lru := Without(lru, IndexOf(lru, e.value));
        } else {
          inUse := Without(inUse, IndexOf(inUse, e.value));
        }
        mem := mem[e.value := mem[e.value].(inCache := false)];
        usage := usage - mem[e.value].charge;
        assert Current() == Uncached(s, e.value);
        Unref(e.value);
      }
      erased := e.Some?;
    }

    method Erase(name: Name)
      requires Valid()
      modifies this`mem, this`usage, this`lru, this`inUse, this`clients, this`deleted, table
      ensures Valid() && table.contents == old(table.contents) - {name}
      ensures name !in old(table.contents) ==> Current() == old(Current())
      ensures name in old(table.contents) ==>
                Inv(old(Current()).(contents := table.contents), Some(old(table.contents)[name]))
                && Current() == Finished(old(Current()).(contents := table.contents), old(table.contents)[name])
    {
      hide Inv, Finished;
      ghost var s := Current();
      if name in table.contents {
        LeftKeeps(s, name);
        FinishedKeeps(s.(contents := s.contents - {name}), s.contents[name]);
      } else {
        assert table.contents - {name} == table.contents;
      }
      var e := table.Remove(name);
      var erased := FinishErase(e);
    }

    // The body of the loops of Insert and Prune.
    method EvictOldest()
      requires Valid() && lru != []
      modifies this`mem, this`usage, this`lru, this`inUse, this`clients, this`deleted, table
      ensures Valid() && Evicts(old(Current()), Current(), 1)
    {
      hide Inv, Finished, Evicts;
      ghost var s := Current();
      OldestIsLoose(s);
      EvictedKeeps(s);
      var old_ := mem[LRU].next;
      var e := table.Remove(mem[old_].name);
      var erased := FinishErase(e);
    }

    // Frees everything that no client holds.
    method Prune()
      requires Valid()
      modifies this`mem, this`usage, this`lru, this`inUse, this`clients, this`deleted, table
      ensures Valid() && lru == [] && Evicts(old(Current()), Current(), |old(lru)|)
    {
      hide Inv, Evicts;
      ghost var k := 0;
      EvictsNone(Current());
      NonEmptyRing(Current());
      while mem[LRU].next != LRU
        invariant Valid() && |mem| > 0 && k <= |old(lru)| && lru == old(lru)[k..] && Evicts(old(Current()), Current(), k)
        invariant mem[LRU].next != LRU <==> lru != []
        decreases |lru|
      {
        ghost var s := Current();
        EvictOldest();
        EvictsMore(old(Current()), s, Current(), k);
        EvictsLru(s, Current(), 1);
        NonEmptyRing(Current());
        k := k + 1;
      }
    }

    method MakeEntry(name: Name, value: int, charge: nat) returns (handle: int)
      requires Valid()
      modifies this`mem, this`usage, this`inUse, this`clients
      ensures handle == |old(mem)| && Current() == Made(old(Current()), name, value, charge, capacity > 0)
    {
      hide Inv, Made, Ring, Appended;
      ghost var s := Current();
      MadeMoves(s, name, value, charge, capacity > 0);
      handle := |mem|;
      mem := mem + [NewHandle(name, value, charge, capacity > 0)];
      clients := clients[handle := 1];
      if capacity > 0 {
        PutOnLinks(Current(), IN_USE, handle);
        LRU_Append(IN_USE, handle);
        inUse := inUse + [handle];
        usage := usage + charge;
        MadeIs(s, Current(), name, value, charge);
      } else {
        NotCached(s, Current(), name, value, charge);
      }
    }

    // The loop at the end of Insert.
    method EvictToCapacity() returns (ghost k: nat)
      requires Valid()
      modifies this`mem, this`usage, this`lru, this`inUse, this`clients, this`deleted, table
      ensures Valid() && Evicts(old(Current()), Current(), k)
      ensures usage <= capacity || lru == []
      ensures k > 0 ==> usage + old(Current()).mem[old(lru)[k - 1]].charge > capacity
    {
      hide Inv, Evicts;
      ghost var before := Current();
      k := 0;
      EvictsNone(before);
      EvictsLru(before, before, 0);
      NonEmptyRing(before);
      while usage > capacity && mem[LRU].next != LRU
        invariant Valid() && |mem| == |before.mem| && k <= |before.lru| && lru == before.lru[k..] && Evicts(before, Current(), k)
        invariant |mem| > 0 && (mem[LRU].next != LRU <==> lru != [])
        invariant k > 0 ==> 0 <= before.lru[k - 1] < |before.mem| && usage + before.mem[before.lru[k - 1]].charge > capacity
        decreases |lru|
      {
        ghost var s := Current();
        EvictOldest();
        EvictsMore(before, s, Current(), k);
        EvictsLru(s, Current(), 1);
        EvictsCharges(before, s, k);
        NonEmptyRing(Current());
        k := k + 1;
      }
      EvictsCharges(before, Current(), k);
    }

    // Afterwards the cache is within its capacity, or nothing can be freed; and no more was freed than
    // had to be.
    method Insert(name: Name, value: int, charge: nat) returns (handle: int, ghost before: State, ghost k: nat)
      requires Valid()
      modifies this`mem, this`usage, this`lru, this`inUse, this`clients, this`deleted, table
      ensures Valid() && handle == |old(mem)|
      ensures before == Inserted(old(Current()), name, value, charge, capacity > 0) && Evicts(before, Current(), k)
      ensures usage <= capacity || lru == []
      ensures k > 0 ==> usage + before.mem[before.lru[k - 1]].charge > capacity
    {
      hide Inv, Evicts, Made, Finished;
      ghost var s := Current();
      InsertedKeeps(s, name, value, charge, capacity > 0);
      handle := MakeEntry(name, value, charge);
      if capacity > 0 {
        EntryMade(s, name, value, charge);
        var old_ := table.Insert(name, handle);
        var erased := FinishErase(old_);
      }
      before := Current();
      k := EvictToCapacity();
    }
  }

  lemma EvictsCharges(s: State, s': State, k: nat)
    requires Evicts(s, s', k)
    ensures k <= |s.lru| && |s'.mem| == |s.mem|
    ensures forall i :: 0 <= i < k ==> 0 <= s.lru[i] < |s.mem|
    ensures forall n :: 0 <= n < |s.mem| ==> s'.mem[n].charge == s.mem[n].charge
  {
    hide Charges;
  }

  lemma NonEmptyRing(s: State)
    requires Inv(s, None)
    ensures |s.mem| >= FIRST_HANDLE && (s.mem[LRU].next != LRU <==> s.lru != [])
  {
    hide HandlesOk, TableOk, UsageOk;
    LastIs(s.mem, LRU, s.lru);
  }

  lemma EvictsLru(s: State, s': State, k: nat)
    requires Evicts(s, s', k)
    ensures k <= |s.lru| && s'.lru == s.lru[k..] && |s'.mem| == |s.mem|
    ensures k == 1 ==> 0 <= s.lru[0] < |s.mem| && s'.mem[s.lru[0]].charge == s.mem[s.lru[0]].charge
                       && s'.usage + s.mem[s.lru[0]].charge == s.usage
  {
    hide Charges;
    if k == 1 {
      FirstCharge(s.mem, s.lru);
    }
  }

  lemma MadeIs(s: State, s': State, name: Name, value: int, charge: nat)
    requires Inv(s, None)
    requires var s1 := s.(mem := s.mem + [NewHandle(name, value, charge, true)], clients := s.clients[|s.mem| := 1]);
             && Rings(s1.mem, s1.lru, s1.inUse) && |s.mem| !in s.lru && |s.mem| !in s.inUse && FIRST_HANDLE <= |s.mem|
             && s' == PutOn(s1, IN_USE, |s.mem|).(usage := s.usage + charge)
    ensures s' == Made(s, name, value, charge, true)
  {
    hide Inv, Rings, PutOn;
  }

  lemma NotCached(s: State, s': State, name: Name, value: int, charge: nat)
    requires Inv(s, None)
    requires s' == s.(mem := s.mem + [NewHandle(name, value, charge, false)], clients := s.clients[|s.mem| := 1])
    ensures s' == Made(s, name, value, charge, false)
  {
    hide Inv, Rings;
  }

  // Once the clients have let go of everything and the cache is pruned, every entry has been freed, once.
  lemma AllFreed(s: State)
    requires Inv(s, None) && s.lru == [] && forall e :: e in s.clients ==> s.clients[e] == 0
    ensures forall e :: FIRST_HANDLE <= e < |s.mem| ==> e in s.deleted
    ensures Distinct(s.deleted) && |s.deleted| == |s.mem| - FIRST_HANDLE
    ensures s.contents == map[]
  {
    hide Rings, UsageOk;
    forall e | FIRST_HANDLE <= e < |s.mem| ensures e in s.deleted && !InTable(s, e) {
      assert HandleOk(s, e, None);
    }
    NamesLead(s);
    NonEmptyRing(s);
    AllOnce(s.deleted, FIRST_HANDLE, |s.mem|);
  }

  lemma NamesLead(s: State)
    requires Inv(s, None)
    ensures forall name :: name in s.contents ==> FIRST_HANDLE <= s.contents[name] < |s.mem| && InTable(s, s.contents[name])
  {
    hide Rings, UsageOk, HandlesOk;
  }

  lemma {:induction false} AllOnce(list: seq<int>, low: int, high: int)
    requires low <= high && Distinct(list) && forall e :: e in list <==> low <= e < high
    ensures |list| == high - low
    decreases high - low
  {
    if low < high {
      var k := IndexOf(list, high - 1);
      WithoutIs(list, k);
      AllOnce(Without(list, k), low, high - 1);
    } else {
      FirstIsIn(list);
    }
  }

  lemma FirstIsIn(list: seq<int>)
    ensures list != [] ==> list[0] in list
  {
  }

  lemma CachedIsLive(s: State, name: Name)
    requires Inv(s, None) && name in s.contents
    ensures s.contents[name] in s.clients
  {
    hide Rings, UsageOk;
    assert HandleOk(s, s.contents[name], None);
  }

  // An entry that was put into the cache is found under its name, with its value and its charge, whatever had to
  // be freed for it; every other name still leads to the entry it led to, unless that was freed.
  lemma InsertedIsFound(s: State, name: Name, value: int, charge: nat, s': State, k: nat)
    requires Inv(s, None) && Evicts(Inserted(s, name, value, charge, true), s', k)
    ensures name in s'.contents && s'.contents[name] == |s.mem| < |s'.mem|
    ensures var h := s'.mem[|s.mem|]; h.name == name && h.value == value && h.charge == charge
    ensures forall other :: other in s'.contents && other != name ==> other in s.contents && s'.contents[other] == s.contents[other]
    ensures SameEntries(s.mem, s'.mem)
  {
    hide Inserted, Charges, Inv, Without, IndexOf;
    InsertedKeeps(s, name, value, charge, true);
    CachedExist(s);
    NewIsInUse(Inserted(s, name, value, charge, true), |s.mem|);
  }

  lemma CachedExist(s: State)
    requires Inv(s, None)
    ensures forall name :: name in s.contents ==> s.contents[name] < |s.mem|
  {
  }

  // What a client holds is not on the list of entries to free.
  lemma NewIsInUse(s: State, e: int)
    requires Inv(s, None) && e in s.clients && s.clients[e] > 0
    ensures e !in s.lru
  {
    hide Ring, Charges;
    assert HandleOk(s, e, None);
  }
}
