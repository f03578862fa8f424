/** db/db_iter.cc: a cursor over the live keys of one snapshot, on top of a cursor over every
    version of every key. */
module DatabaseIterator {
  import opened Options
  import opened InternalKeys
  import opened MergingIterators

  // The keys that have a value at the snapshot.
  ghost function LiveKeys(es: seq<Entry>, snapshot: nat): set<UserKey> {
    set i | 0 <= i < |es| && Read(Elements(es), es[i].key.user, snapshot).Some? :: es[i].key.user
  }

  predicate Seen(e: Entry, snapshot: nat) {
    e.key.sequence <= snapshot
  }

  // Entry i is the newest visible version of its key.
  ghost predicate Heads(es: seq<Entry>, snapshot: nat, i: nat)
    requires i < |es|
  {
    && Seen(es[i], snapshot)
    && forall j :: 0 <= j < i && es[j].key.user == es[i].key.user ==> !Seen(es[j], snapshot)
  }

  lemma HeadDecides(es: seq<Entry>, snapshot: nat, i: nat)
    requires Sorted(es) && i < |es| && Heads(es, snapshot, i)
    ensures Read(Elements(es), es[i].key.user, snapshot) == Outcome(es[i])
    ensures es[i].key.user in LiveKeys(es, snapshot) <==> es[i].key.kind == Put
  {
    FirstVisibleIsNewest(es, i, es[i].key.user, snapshot);
  }

  lemma LiveHasHead(es: seq<Entry>, snapshot: nat, user: UserKey) returns (i: nat)
    requires Sorted(es) && user in LiveKeys(es, snapshot)
    ensures i < |es| && es[i].key.user == user && Heads(es, snapshot, i) && es[i].key.kind == Put
  {
    var e :| Newest(Elements(es), e, user, snapshot);
    i :| 0 <= i < |es| && es[i] == e;
    assert forall j :: 0 <= j < i && es[j].key.user == user ==> Newer(es[j], e);
    HeadDecides(es, snapshot, i);
  }

  // The abstract cursor: a set of keys and a place among them.
  ghost predicate IsLeast(keys: set<UserKey>, r: Option<UserKey>) {
    match r
    case None => keys == {}
    case Some(k) => k in keys && forall x :: x in keys ==> k <= x
  }

  ghost predicate IsGreatest(keys: set<UserKey>, r: Option<UserKey>) {
    match r
    case None => keys == {}
    case Some(k) => k in keys && forall x :: x in keys ==> x <= k
  }

  ghost function KeysAfter(keys: set<UserKey>, k: UserKey): set<UserKey> {
    set x | x in keys && x > k
  }

  ghost function KeysBefore(keys: set<UserKey>, k: UserKey): set<UserKey> {
    set x | x in keys && x < k
  }

  ghost function KeysFrom(keys: set<UserKey>, k: UserKey): set<UserKey> {
    set x | x in keys && x >= k
  }

  datatype Op = Seek(target: UserKey) | SeekToFirst | SeekToLast | Next | Prev

  // One move of the abstract cursor; from nowhere it can only seek.
  ghost predicate Moves(live: set<UserKey>, from: Option<UserKey>, op: Op, to: Option<UserKey>) {
    match op
    case Seek(target) => IsLeast(KeysFrom(live, target), to)
    case SeekToFirst => IsLeast(live, to)
    case SeekToLast => IsGreatest(live, to)
    case Next => if from.Some? then IsLeast(KeysAfter(live, from.value), to) else to == None
    case Prev => if from.Some? then IsGreatest(KeysBefore(live, from.value), to) else to == None
  }

  // Turning round returns to the key one came from.
  lemma TurningRound(live: set<UserKey>, from: UserKey, there: UserKey, back: Option<UserKey>)
    requires from in live
    ensures Moves(live, Some(from), Next, Some(there)) && Moves(live, Some(there), Prev, back) ==> back == Some(from)
    ensures Moves(live, Some(from), Prev, Some(there)) && Moves(live, Some(there), Next, back) ==> back == Some(from)
  {
    if Moves(live, Some(from), Next, Some(there)) {
      assert from in KeysBefore(live, there);
      assert back.Some? && back.value in live && back.value > from ==> back.value in KeysAfter(live, from);
    }
    if Moves(live, Some(from), Prev, Some(there)) {
      assert from in KeysAfter(live, there);
      assert back.Some? && back.value in live && back.value < from ==> back.value in KeysBefore(live, from);
    }
  }

  ghost function Before(start: Option<UserKey>, shown: seq<Option<(UserKey, string)>>, i: nat): Option<UserKey>
    requires i <= |shown|
  {
    if i == 0 then start else KeyOf(shown[i - 1])
  }

  ghost predicate IsWalk(live: set<UserKey>, start: Option<UserKey>, ops: seq<Op>, shown: seq<Option<(UserKey, string)>>) {
    && |shown| == |ops|
    && forall i :: 0 <= i < |ops| ==>
         Moves(live, Before(start, shown, i), ops[i], KeyOf(shown[i]))
  }

  lemma WalkGoesOn(live: set<UserKey>, start: Option<UserKey>, ops: seq<Op>, shown: seq<Option<(UserKey, string)>>,
                   op: Op, next: Option<(UserKey, string)>)
    requires IsWalk(live, start, ops, shown)
    requires Moves(live, Before(start, shown, |shown|), op, KeyOf(next))
    ensures IsWalk(live, start, ops + [op], shown + [next])
  {
    forall i | 0 <= i <= |ops|
      ensures Moves(live, Before(start, shown + [next], i), (ops + [op])[i], KeyOf((shown + [next])[i]))
    {
      assert Before(start, shown + [next], i) == Before(start, shown, i);
    }
  }

  function KeyOf(shown: Option<(UserKey, string)>): Option<UserKey> {
    if shown.Some? then Some(shown.value.0) else None
  }

  lemma WalkAt(live: set<UserKey>, start: Option<UserKey>, ops: seq<Op>, shown: seq<Option<(UserKey, string)>>, i: nat)
    requires IsWalk(live, start, ops, shown) && i < |ops|
    ensures i < |shown| && Moves(live, Before(start, shown, i), ops[i], KeyOf(shown[i]))
  {
  }

  ghost predicate HasShown(shown: seq<Option<(UserKey, string)>>, n: nat, k: UserKey) {
    exists i :: 0 <= i < n <= |shown| && KeyOf(shown[i]) == Some(k)
  }

  // A forward walk from the start shows the live keys in rising order, each once, and then nothing.
  lemma {:induction false} ForwardWalkShowsAll(live: set<UserKey>, ops: seq<Op>, shown: seq<Option<(UserKey, string)>>, n: nat)
    requires IsWalk(live, None, ops, shown) && 0 < n <= |ops| == |shown|
    requires ops[0] == SeekToFirst && forall i :: 0 < i < |ops| ==> ops[i] == Next
    ensures forall k :: k in live && (shown[n - 1].Some? ==> k <= shown[n - 1].value.0) ==> HasShown(shown, n, k)
    ensures forall i :: 0 <= i < n - 1 && shown[n - 1].Some? ==> shown[i].Some? && shown[i].value.0 < shown[n - 1].value.0
  {
    hide IsWalk;
    var last := shown[n - 1];
    WalkAt(live, None, ops, shown, n - 1);
    if n > 1 {
      ForwardWalkShowsAll(live, ops, shown, n - 1);
    }
    forall k | k in live && (last.Some? ==> k <= last.value.0)
      ensures HasShown(shown, n, k)
    {
      if n > 1 && (shown[n - 2].Some? ==> k <= shown[n - 2].value.0) {
        var i :| 0 <= i < n - 1 && KeyOf(shown[i]) == Some(k);
      } else {
        assert n > 1 ==> k in KeysAfter(live, shown[n - 2].value.0);
        assert KeyOf(shown[n - 1]) == Some(k);
      }
    }
  }

  // Forward scan: entries from p on still have to be judged, `wanted` are the live keys still to
  // come, and `skip` is the key that is being skipped, if any.
  ghost predicate Ahead(es: seq<Entry>, snapshot: nat, live: set<UserKey>, p: nat, wanted: set<UserKey>, skip: Option<UserKey>) {
    && p <= |es|
    && wanted <= live
    && (forall j :: 0 <= j < p && Seen(es[j], snapshot) ==> Settled(es[j].key.user, wanted, skip))
    && (forall j :: p <= j < |es| && Seen(es[j], snapshot) ==> Pending(es[j].key.user, live, wanted, skip))
    && (skip.None? ==> forall j, k :: 0 <= j < p <= k < |es| && Seen(es[j], snapshot) && Seen(es[k], snapshot) ==>
          es[j].key.user < es[k].key.user)
  }

  ghost predicate Settled(user: UserKey, wanted: set<UserKey>, skip: Option<UserKey>) {
    user !in wanted && (skip.Some? ==> user <= skip.value)
  }

  ghost predicate Pending(user: UserKey, live: set<UserKey>, wanted: set<UserKey>, skip: Option<UserKey>) {
    && (skip.Some? ==> skip.value <= user && skip.value !in wanted)
    && (user in live && user !in wanted ==> skip == Some(user))
  }

  predicate Hidden(e: Entry, skip: Option<UserKey>) {
    skip.Some? && e.key.user <= skip.value
  }

  predicate Yields(e: Entry, snapshot: nat, skip: Option<UserKey>) {
    Seen(e, snapshot) && e.key.kind == Put && !Hidden(e, skip)
  }

  function NextSkip(e: Entry, snapshot: nat, skip: Option<UserKey>): Option<UserKey> {
    if Seen(e, snapshot) && e.key.kind == Deletion then Some(e.key.user) else skip
  }

  // An entry that is pending and not hidden is the newest visible version of its key.
  lemma PendingIsHead(es: seq<Entry>, snapshot: nat, p: nat, wanted: set<UserKey>, skip: Option<UserKey>)
    requires Sorted(es) && Ahead(es, snapshot, LiveKeys(es, snapshot), p, wanted, skip) && p < |es|
    requires Seen(es[p], snapshot) && !Hidden(es[p], skip)
    ensures Heads(es, snapshot, p)
  {
  }

  // What the scan passes over was neither wanted nor the newest version of a live key.
  lemma AheadStep(es: seq<Entry>, snapshot: nat, p: nat, wanted: set<UserKey>, skip: Option<UserKey>)
    requires Sorted(es) && Ahead(es, snapshot, LiveKeys(es, snapshot), p, wanted, skip) && p < |es|
    requires !Yields(es[p], snapshot, skip)
    ensures Ahead(es, snapshot, LiveKeys(es, snapshot), p + 1, wanted, NextSkip(es[p], snapshot, skip))
  {
    if Seen(es[p], snapshot) {
      if !Hidden(es[p], skip) {
        PendingIsHead(es, snapshot, p, wanted, skip);
        HeadDecides(es, snapshot, p);
      }
      assert es[p].key.user !in wanted;
    }
  }

  lemma AheadFound(es: seq<Entry>, snapshot: nat, p: nat, wanted: set<UserKey>, skip: Option<UserKey>)
    requires Sorted(es) && Ahead(es, snapshot, LiveKeys(es, snapshot), p, wanted, skip) && p < |es|
    requires Yields(es[p], snapshot, skip)
    ensures Heads(es, snapshot, p) && IsLeast(wanted, Some(es[p].key.user))
  {
    PendingIsHead(es, snapshot, p, wanted, skip);
    HeadDecides(es, snapshot, p);
    forall k | k in wanted
      ensures es[p].key.user <= k
    {
      var h := LiveHasHead(es, snapshot, k);
    }
  }

  lemma AheadExhausted(es: seq<Entry>, snapshot: nat, wanted: set<UserKey>, skip: Option<UserKey>)
    requires Sorted(es) && Ahead(es, snapshot, LiveKeys(es, snapshot), |es|, wanted, skip)
    ensures wanted == {}
  {
    if k :| k in wanted {
      var h := LiveHasHead(es, snapshot, k);
    }
  }

  // Seeking to the lookup key jumps over no version that a read from `target` on could see.
  lemma SeekPassesNothing(es: seq<Entry>, snapshot: nat, p: nat, target: UserKey)
    requires Sorted(es) && p <= |es|
    requires forall j :: 0 <= j < |es| ==> (j < p <==> es[j].key.Before(LookupKey(target, snapshot)))
    ensures Ahead(es, snapshot, LiveKeys(es, snapshot), p, KeysFrom(LiveKeys(es, snapshot), target), None)
  {
    forall j | 0 <= j < |es| && Seen(es[j], snapshot)
      ensures j < p <==> es[j].key.user < target
    {
      LookupKeySplitsVersions(es[j].key, snapshot);
    }
  }

  // Backward scan: entries from q on have been judged. `candidate` is the key of the oldest-to-newest
  // run being scanned when its newest version so far is a value, and es[m] is that version.
  ghost predicate ScannedBack(es: seq<Entry>, snapshot: nat, live: set<UserKey>, q: nat, wanted: set<UserKey>,
                         candidate: Option<UserKey>) {
    && q <= |es|
    && wanted <= live
    && (forall h :: q <= h < |es| && Heads(es, snapshot, h) && es[h].key.user in wanted ==>
          candidate == Some(es[h].key.user))
    && (forall j :: 0 <= j < q && es[j].key.user in live ==> es[j].key.user in wanted)
    && (candidate.Some? && candidate.value in live ==> candidate.value in wanted)
  }

  ghost predicate IsCandidate(es: seq<Entry>, snapshot: nat, q: nat, m: nat, candidate: UserKey, value: string) {
    && q <= m < |es|
    && Seen(es[m], snapshot) && es[m].key.kind == Put && es[m].key.user == candidate && es[m].value == value
    && forall j :: q <= j < m ==> !Seen(es[j], snapshot)
  }

  function NextCandidate(e: Entry, snapshot: nat, candidate: Option<UserKey>): Option<UserKey> {
    if !Seen(e, snapshot) then candidate
    else if e.key.kind == Put then Some(e.key.user)
    else None
  }

  lemma BackStep(es: seq<Entry>, snapshot: nat, q: nat, wanted: set<UserKey>, candidate: Option<UserKey>)
    requires Sorted(es) && 0 < q && ScannedBack(es, snapshot, LiveKeys(es, snapshot), q, wanted, candidate)
    requires Seen(es[q - 1], snapshot) && candidate.Some? ==> es[q - 1].key.user == candidate.value
    ensures ScannedBack(es, snapshot, LiveKeys(es, snapshot), q - 1, wanted, NextCandidate(es[q - 1], snapshot, candidate))
  {
    hide LiveKeys, Read, Sorted;
    if Heads(es, snapshot, q - 1) {
      HeadDecides(es, snapshot, q - 1);
    }
    if Seen(es[q - 1], snapshot) {
      HeadsAreFirst(es, snapshot, q - 1);
    }
  }

  lemma HeadsAreFirst(es: seq<Entry>, snapshot: nat, j: nat)
    requires j < |es| && Seen(es[j], snapshot)
    ensures forall h :: j < h < |es| && Heads(es, snapshot, h) ==> es[h].key.user != es[j].key.user
  {
  }

  // The scan ends at an entry of a smaller key or at the front; the candidate is then the answer.
  lemma BackFound(es: seq<Entry>, snapshot: nat, q: nat, wanted: set<UserKey>, candidate: UserKey, m: nat, value: string)
    requires Sorted(es) && ScannedBack(es, snapshot, LiveKeys(es, snapshot), q, wanted, Some(candidate))
    requires IsCandidate(es, snapshot, q, m, candidate, value)
    requires q > 0 ==> es[q - 1].key.user < candidate
    ensures IsGreatest(wanted, Some(candidate)) && candidate in LiveKeys(es, snapshot)
    ensures Read(Elements(es), candidate, snapshot) == Some(value)
  {
    assert Heads(es, snapshot, m);
    HeadDecides(es, snapshot, m);
    forall k | k in wanted
      ensures k <= candidate
    {
      var h := LiveHasHead(es, snapshot, k);
    }
  }

  lemma BackExhausted(es: seq<Entry>, snapshot: nat, wanted: set<UserKey>)
    requires Sorted(es) && ScannedBack(es, snapshot, LiveKeys(es, snapshot), 0, wanted, None)
    ensures wanted == {}
  {
    if k :| k in wanted {
      var h := LiveHasHead(es, snapshot, k);
    }
  }

  lemma NoKeysBefore(es: seq<Entry>, snapshot: nat, key: UserKey)
    requires forall j :: 0 <= j < |es| ==> es[j].key.user >= key
    ensures KeysBefore(LiveKeys(es, snapshot), key) == {}
  {
  }

  class DBIter {
    const iter: MergingIterator
    const sequence: nat
    var savedKey: Option<UserKey>    // None stands for the cleared string
    var savedValue: string
    var direction: Direction
    var valid: bool

    ghost function Live(): set<UserKey> {
      LiveKeys(iter.merged, sequence)
    }

    ghost predicate WellFormed()
      reads this, iter, iter.children
    {
      && iter.WellFormed()
      && (valid && direction == Forward ==> AtHead())
      && (valid && direction == Reverse ==> BeforeSaved())
    }

    // Moving forward: the internal iterator is at the entry that yields key and value.
    ghost predicate AtHead()
      reads this, iter
    {
      && iter.Valid() && iter.at < |iter.merged|
      && Heads(iter.merged, sequence, iter.at)
      && iter.merged[iter.at].key.kind == Put
    }

    // Moving backwards: the internal iterator is before every entry of savedKey, and whatever it
    // has jumped over on the way is invisible.
    ghost predicate BeforeSaved()
      reads this, iter
    {
      && savedKey.Some?
      && Read(Elements(iter.merged), savedKey.value, sequence) == Some(savedValue)
      && savedKey.value in Live()
      && (forall j :: 0 <= j < |iter.merged| && Passed(j) && Seen(iter.merged[j], sequence) ==>
            iter.merged[j].key.user >= savedKey.value)
      && (forall j :: 0 <= j < |iter.merged| && !Passed(j) ==> iter.merged[j].key.user < savedKey.value)
    }

    // Entry j lies after the internal iterator; every entry does once it has left by the front.
    ghost predicate Passed(j: int)
      reads iter
    {
      iter.at == |iter.merged| || j > iter.at
    }

    function Key(): UserKey
      requires WellFormed() && valid
      reads this, iter, iter.children
    {
      if direction == Forward then iter.Current().key.user else savedKey.value
    }

    function CurrentValue(): string
      requires WellFormed() && valid
      reads this, iter, iter.children
    {
      if direction == Forward then iter.Current().value else savedValue
    }

    // A valid iterator stands on a live key and shows the value a read of that key returns.
    lemma ShowsRead()
      requires WellFormed() && valid
      ensures Key() in Live()
      ensures Read(Elements(iter.merged), Key(), sequence) == Some(CurrentValue())
    {
      if direction == Forward {
        HeadDecides(iter.merged, sequence, iter.at);
      }
    }

    ghost function Cursor(): Option<UserKey>
      requires WellFormed()
      reads this, iter, iter.children
    {
      if valid then Some(Key()) else None
    }

    constructor (iter: MergingIterator, sequence: nat)
      requires iter.WellFormed()
      ensures WellFormed() && !valid && this.iter == iter && this.sequence == sequence
    {
      this.iter := iter;
      this.sequence := sequence;
      savedKey := None;
      savedValue := "";
      direction := Forward;
      valid := false;
    }

    // saved_key_ is the storage for the key being skipped.
    ghost function Skip(skipping: bool): Option<UserKey>
      reads this
    {
      if skipping then savedKey else None
    }

    method FindNextUserEntry(skip: bool, ghost wanted: set<UserKey>)
      requires iter.WellFormed() && iter.Valid() && direction == Forward
      requires skip ==> savedKey.Some?
      requires Ahead(iter.merged, sequence, Live(), iter.at, wanted, Skip(skip))
      modifies this, iter, iter.children
      ensures iter.WellFormed() && direction == Forward
      ensures valid ==> AtHead() && IsLeast(wanted, Some(iter.merged[iter.at].key.user))
      ensures !valid ==> wanted == {}
    {
      hide Ahead, LiveKeys, IsMerge, Disjoint;
      var skipping, found := skip, false;
      while iter.Valid()
        invariant iter.WellFormed() && direction == Forward
        invariant skipping ==> savedKey.Some?
        invariant Ahead(iter.merged, sequence, Live(), iter.at, wanted, Skip(skipping))
        decreases |iter.merged| - iter.at
      {
        found, skipping := ExamineEntry(skipping, wanted);
        if found {
          return;
        }
        iter.Next();
      }
      AheadExhausted(iter.merged, sequence, wanted, Skip(skipping));
      savedKey := None;
      valid := false;
    }

    // The body of the loop of FindNextUserEntry, up to the step to the next entry.
    method ExamineEntry(skip: bool, ghost wanted: set<UserKey>) returns (found: bool, skipping: bool)
      requires iter.WellFormed() && iter.Valid() && direction == Forward
      requires skip ==> savedKey.Some?
      requires Ahead(iter.merged, sequence, Live(), iter.at, wanted, Skip(skip))
      modifies this
      ensures direction == Forward
      ensures found ==> valid && AtHead() && IsLeast(wanted, Some(iter.merged[iter.at].key.user))
      ensures !found ==> (skipping ==> savedKey.Some?)
      ensures !found ==> Ahead(iter.merged, sequence, Live(), iter.at + 1, wanted, Skip(skipping))
    {
      ghost var skipped := Skip(skip);
      skipping := skip;
      var ikey := iter.Current().key;
      if ikey.sequence <= sequence {
        match ikey.kind {
          case Deletion =>
            savedKey := Some(ikey.user);
            skipping := true;
          case Put =>
            if skipping && ikey.user <= savedKey.value {
              // Entry hidden
            } else {
              AheadFound(iter.merged, sequence, iter.at, wanted, skipped);
              valid := true;
              savedKey := None;
              return true, skipping;
            }
        }
      }
      AheadStep(iter.merged, sequence, iter.at, wanted, skipped);
      found := false;
    }

    method Next()
      requires WellFormed() && valid
      modifies this, iter, iter.children
      ensures WellFormed() && IsLeast(KeysAfter(Live(), old(Key())), Cursor())
    {
      hide MergingIterator.WellFormed, LiveKeys;
      ghost var wanted := KeysAfter(Live(), Key());
      ghost var key := Key();
      if direction == Reverse {
        direction := Forward;
        if !iter.Valid() {
          iter.SeekToFirst();
        } else {
          iter.Next();
        }
        if !iter.Valid() {
          assert false;  // the entries of savedKey lie ahead
        }
      } else {
        savedKey := Some(iter.Current().key.user);
      }
      assert savedKey == Some(key);
      FindNextUserEntry(true, wanted);
    }

    method Seek(target: UserKey)
      requires WellFormed()
      modifies this, iter, iter.children
      ensures WellFormed() && IsLeast(KeysFrom(Live(), target), Cursor())
    {
      direction := Forward;
      savedValue := "";
      savedKey := None;
      iter.Seek(LookupKey(target, sequence));
      SeekPassesNothing(iter.merged, sequence, iter.at, target);
      if iter.Valid() {
        FindNextUserEntry(false, KeysFrom(Live(), target));
      } else {
        AheadExhausted(iter.merged, sequence, KeysFrom(Live(), target), None);
        valid := false;
      }
    }

    method SeekToFirst()
      requires WellFormed()
      modifies this, iter, iter.children
      ensures WellFormed() && IsLeast(Live(), Cursor())
    {
      direction := Forward;
      savedValue := "";
      iter.SeekToFirst();
      if iter.Valid() {
        FindNextUserEntry(false, Live());
      } else {
        AheadExhausted(iter.merged, sequence, Live(), None);
        valid := false;
      }
    }

    // How many entries the internal iterator has not yet passed on its way back.
    ghost function Left(): nat
      reads iter
    {
      if iter.at == |iter.merged| then 0 else iter.at + 1
    }

    ghost predicate Held(valueType: ValueType, m: nat)
      reads this, iter
    {
      valueType == Put ==> savedKey.Some? && IsCandidate(iter.merged, sequence, Left(), m, savedKey.value, savedValue)
    }

    ghost function Candidate(valueType: ValueType): Option<UserKey>
      reads this
    {
      if valueType == Put then savedKey else None
    }

    method FindPrevUserEntry(ghost wanted: set<UserKey>)
      requires iter.WellFormed() && direction == Reverse
      requires ScannedBack(iter.merged, sequence, Live(), Left(), wanted, None)
      modifies this, iter, iter.children
      ensures iter.WellFormed()
      ensures valid ==> direction == Reverse && BeforeSaved() && IsGreatest(wanted, savedKey)
      ensures !valid ==> wanted == {}
    {
      hide ScannedBack, LiveKeys, MergingIterator.WellFormed;
      var valueType, stop := Deletion, false;
      ghost var m := 0;
      while iter.Valid()
        invariant iter.WellFormed() && direction == Reverse
        invariant Held(valueType, m)
        invariant ScannedBack(iter.merged, sequence, Live(), Left(), wanted, Candidate(valueType))
        decreases Left()
      {
        stop, valueType, m := ExamineBackward(valueType, m, wanted);
        if stop {
          break;
        }
        iter.Prev();
      }
      if valueType == Deletion {
        BackExhausted(iter.merged, sequence, wanted);
        valid := false;
        savedKey := None;
        savedValue := "";
        direction := Forward;
      } else {
        BackFound(iter.merged, sequence, Left(), wanted, savedKey.value, m, savedValue);
        valid := true;
      }
    }

    // The body of the loop of FindPrevUserEntry, up to the step to the previous entry.
    method ExamineBackward(vt: ValueType, ghost m0: nat, ghost wanted: set<UserKey>)
      returns (stop: bool, valueType: ValueType, ghost m: nat)
      requires iter.WellFormed() && iter.Valid() && direction == Reverse
      requires Held(vt, m0)
      requires ScannedBack(iter.merged, sequence, Live(), Left(), wanted, Candidate(vt))
      modifies this
      ensures direction == Reverse
      ensures stop ==> valueType == vt == Put && m == m0 && savedKey == old(savedKey) && savedValue == old(savedValue)
                       && savedKey.Some? && iter.merged[iter.at].key.user < savedKey.value
      ensures !stop ==> ScannedBack(iter.merged, sequence, Live(), iter.at, wanted, Candidate(valueType))
      ensures !stop && valueType == Put ==>
                savedKey.Some? && IsCandidate(iter.merged, sequence, iter.at, m, savedKey.value, savedValue)
    {
      hide ScannedBack, LiveKeys;
      ghost var candidate := Candidate(vt);
      valueType, m := vt, m0;
      var e := iter.Current();
      if e.key.sequence <= sequence {
        if valueType != Deletion && e.key.user < savedKey.value {
          return true, valueType, m;
        }
        valueType := e.key.kind;
        if valueType == Deletion {
          savedKey := None;
          savedValue := "";
        } else {
          savedKey := Some(e.key.user);
          savedValue := e.value;
          m := iter.at;
        }
      }
      BackStep(iter.merged, sequence, iter.at + 1, wanted, candidate);
      stop := false;
    }

    // Scans back from the current key until the user key is smaller.
    method LeaveKey() returns (found: bool)
      requires WellFormed() && valid && direction == Forward
      modifies this`savedKey, this`savedValue, this`valid, iter, iter.children
      ensures iter.WellFormed() && valid == found
      ensures !found ==> KeysBefore(Live(), old(Key())) == {}
      ensures found ==> ScannedBack(iter.merged, sequence, Live(), Left(), KeysBefore(Live(), old(Key())), None)
    {
      hide MergingIterator.WellFormed, LiveKeys;
      savedKey := Some(iter.Current().key.user);
      while true
        invariant iter.WellFormed() && iter.Valid() && valid
        invariant savedKey == Some(old(Key()))
        invariant forall j :: iter.at <= j < |iter.merged| ==> iter.merged[j].key.user >= savedKey.value
        decreases iter.at
      {
        iter.Prev();
        if !iter.Valid() {
          NoKeysBefore(iter.merged, sequence, savedKey.value);
          valid := false;
          savedKey := None;
          savedValue := "";
          return false;
        }
        if iter.Current().key.user < savedKey.value {
          break;
        }
      }
      found := true;
    }

    method Prev()
      requires WellFormed() && valid
      modifies this, iter, iter.children
      ensures WellFormed() && IsGreatest(KeysBefore(Live(), old(Key())), Cursor())
    {
      hide MergingIterator.WellFormed, LiveKeys;
      ghost var wanted := KeysBefore(Live(), Key());
      if direction == Forward {
        var found := LeaveKey();
        if !found {
          return;
        }
        direction := Reverse;
      }
      FindPrevUserEntry(wanted);
    }

    method SeekToLast()
      requires WellFormed()
      modifies this, iter, iter.children
      ensures WellFormed() && IsGreatest(Live(), Cursor())
    {
      direction := Reverse;
      savedValue := "";
      iter.SeekToLast();
      FindPrevUserEntry(Live());
    }

    // Any sequence of moves: the keys shown are those of the abstract cursor, the values those a read returns.
    method Run(ops: seq<Op>) returns (shown: seq<Option<(UserKey, string)>>)
      requires WellFormed()
      modifies this, iter, iter.children
      ensures WellFormed()
      ensures IsWalk(Live(), old(Cursor()), ops, shown)
      ensures forall i :: 0 <= i < |shown| && shown[i].Some? ==>
                Read(Elements(iter.merged), shown[i].value.0, sequence) == Some(shown[i].value.1)
    {
      shown := [];
      ghost var start := Cursor();
      assert IsWalk(Live(), start, ops[..0], shown);
      for n := 0 to |ops|
        invariant WellFormed() && |shown| == n
        invariant Cursor() == Before(start, shown, n)
        invariant IsWalk(Live(), start, ops[..n], shown)
        invariant forall i :: 0 <= i < n && shown[i].Some? ==>
                    Read(Elements(iter.merged), shown[i].value.0, sequence) == Some(shown[i].value.1)
      {
        hide LiveKeys, Read, Moves, IsWalk, IsMerge, Disjoint;
        var s := Step(ops[n]);
        assert ops[..n + 1] == ops[..n] + [ops[n]];
        WalkGoesOn(Live(), start, ops[..n], shown, ops[n], s);
        shown := shown + [s];
      }
      assert ops[..|ops|] == ops;
    }

    method Step(op: Op) returns (shown: Option<(UserKey, string)>)
      requires WellFormed()
      modifies this, iter, iter.children
      ensures WellFormed()
      ensures Cursor() == KeyOf(shown) && Moves(Live(), old(Cursor()), op, Cursor())
      ensures shown.Some? ==> Read(Elements(iter.merged), shown.value.0, sequence) == Some(shown.value.1)
    {
      match op {
        case Seek(target) => Seek(target);
        case SeekToFirst => SeekToFirst();
        case SeekToLast => SeekToLast();
        case Next => if valid { Next(); }
        case Prev => if valid { Prev(); }
      }
      if valid {
        ShowsRead();
        shown := Some((Key(), CurrentValue()));
      } else {
        shown := None;
      }
    }
  }
}
