/** DBImpl with its memtables, its version and its snapshots: each operation is one step of a run, and
    Get is a read of the flat contents. */
module Databases {
  import opened Options
  import opened InternalKeys
  import opened Versions
  import opened InputSelection
  import opened VersionBuilder
  import opened DropRules
  import opened Compactions
  import opened CompactionResults
  import opened MemTableFlush
  import opened Snapshots
  import opened DatabaseRuns

  // MemTable::Get: seek to the lookup key, then compare user keys.
  method MemTableGet(table: seq<Entry>, user: UserKey, snapshot: nat) returns (state: SaverState)
    requires Sorted(table)
    ensures state == NotFound ==> forall e :: e in table ==> !Visible(e, user, snapshot)
    ensures state.Found? ==> (exists e :: e in table && Visible(e, user, snapshot))
                             && Read(Elements(table), user, snapshot) == Some(state.value)
    ensures state.Deleted? ==> (exists e :: e in table && Visible(e, user, snapshot))
                               && Read(Elements(table), user, snapshot) == None
  {
    var i := 0;
    while i < |table| && table[i].key.Before(LookupKey(user, snapshot))
      invariant 0 <= i <= |table|
      invariant forall j :: 0 <= j < i ==> table[j].key.Before(LookupKey(user, snapshot))
    {
      i := i + 1;
    }
    forall e | e in table && e.key.user == user
      ensures Visible(e, user, snapshot) <==> !e.key.Before(LookupKey(user, snapshot))
    {
      LookupKeySplitsVersions(e.key, snapshot);
    }
    state := SaveValue(if i < |table| then Some(table[i]) else None, user);
    if state != NotFound {
      assert table[i] in table;
      FirstVisibleIsNewest(table, i, user, snapshot);
    }
  }

  // The memtable's skip list keeps its entries in order.
  function InsertSorted(table: seq<Entry>, e: Entry): (r: seq<Entry>)
    requires Sorted(table) && forall x :: x in table ==> x.key != e.key
    ensures Sorted(r)
    ensures forall x :: x in r <==> x == e || x in table
  {
    if table == [] then [e]
    else if e.key.Before(table[0].key) then [e] + table
    else
      assert table == [table[0]] + table[1..];
      Trichotomy(e.key, table[0].key);
      var rest := InsertSorted(table[1..], e);
      assert forall i :: 0 <= i < |rest| ==> rest[i] in rest;
      [table[0]] + rest
  }

  lemma FlushIsAllowed(db: Db)
    requires Inv(db) && db.imm.Some?
    ensures Sorted(db.imm.value) && VersionFits(db.version) && VersionInv(db.version, db.next)
    ensures forall a, b :: a in db.imm.value && b in All(db.version) && a.key.user == b.key.user ==> Newer(a, b)
  {
    assert forall a :: a in db.imm.value ==> a in ImmEntries(db);
    forall l, f | 0 <= l < NUM_LEVELS && f in db.version.files[l]
      ensures f.largest.sequence <= MAX_SEQUENCE
    {
      var e := f.entries[|f.entries| - 1];
      InAll(db.version, l, f, e);
      assert e in Entries(db);
    }
  }

  // ---- A compaction without anything in between ----

  // n file numbers, taken one after the other.
  ghost function Taken(next: nat, n: nat): (s: set<nat>)
    ensures forall i: nat :: i in s <==> next <= i < next + n
  {
    if n == 0 then {} else Taken(next, n - 1) + {next + n - 1}
  }

  // After the compaction took n file numbers.
  ghost function Opened(db: Db, job: Job, n: nat): Db {
    db.(next := db.next + n, job := Some(job.(numbers := Taken(db.next, n))))
  }

  ghost function Path(db: Db, job: Job, n: nat, db': Db): seq<Db> {
    [db] + seq(n + 1, i requires 0 <= i <= n => Opened(db, job, i)) + [db']
  }

  lemma OpensNext(db: Db, job: Job, n: nat)
    ensures OpensOutput(Opened(db, job, n), Opened(db, job, n + 1))
  {
    assert Taken(db.next, n + 1) == Taken(db.next, n) + {db.next + n};
  }

  // Beginning, taking the numbers, and installing, one after the other, are steps of a run.
  lemma AtOnceIsRun(db: Db, db': Db, level: nat, w: Work)
    requires Inv(db) && db.job.None? && Inputs(db.version, level, w.inputs0, w.inputs1)
    requires Worked(db.version, level, w, Oldest(db)) && OutputsOk(db.version, w.inputs0, w.inputs1, w.outputs, db.next, db'.next)
    requires forall i :: 0 <= i < |w.outputs| ==> w.outputs[i].number == db.next + i
    requires Compacted(db.version, level, w.inputs0, w.inputs1, w.outputs, db'.version)
    requires db' == db.(version := db'.version, next := db.next + |w.outputs|)
    ensures DatabaseRuns.IsRun(Path(db, Job(db.version, level, w.inputs0, w.inputs1, Oldest(db), {}), |w.outputs|, db'))
  {
    hide Inv, Inputs, Worked, OutputsOk, Compacted, OutputsFit, DisjointFiles, FileOk;
    var n := |w.outputs|;
    var job := Job(db.version, level, w.inputs0, w.inputs1, Oldest(db), {});
    var path := Path(db, job, n, db');
    assert Opened(db, job, 0) == db.(job := Some(job));
    assert BeginsCompaction(path[0], path[1]);
    forall i | 1 <= i < n + 1
      ensures Step(path[i], path[i + 1])
    {
      assert path[i] == Opened(db, job, i - 1) && path[i + 1] == Opened(db, job, i);
      OpensNext(db, job, i - 1);
      OpenIsStep(path[i], path[i + 1]);
    }
    assert path[n + 1] == Opened(db, job, n) && path[n + 2] == db';
    InstallsAtOnce(db, db', level, w);
    BeginIsStep(path[0], path[1]);
    InstallIsStep(path[n + 1], path[n + 2]);
  }

  lemma OpenIsStep(db: Db, db': Db)
    requires OpensOutput(db, db')
    ensures Step(db, db')
  {
  }

  lemma BeginIsStep(db: Db, db': Db)
    requires BeginsCompaction(db, db')
    ensures Step(db, db')
  {
  }

  lemma InstallIsStep(db: Db, db': Db)
    requires InstallsCompaction(db, db')
    ensures Step(db, db')
  {
  }

  lemma InstallsAtOnce(db: Db, db': Db, level: nat, w: Work)
    requires Inputs(db.version, level, w.inputs0, w.inputs1) && VersionOk(db.version)
    requires Worked(db.version, level, w, Oldest(db)) && OutputsOk(db.version, w.inputs0, w.inputs1, w.outputs, db.next, db'.next)
    requires forall i :: 0 <= i < |w.outputs| ==> w.outputs[i].number == db.next + i
    requires Compacted(db.version, level, w.inputs0, w.inputs1, w.outputs, db'.version)
    requires db' == db.(version := db'.version, next := db.next + |w.outputs|) && db.job.None?
    ensures InstallsCompaction(Opened(db, Job(db.version, level, w.inputs0, w.inputs1, Oldest(db), {}), |w.outputs|), db')
  {
    hide VersionOk, Inputs, Worked, Compacted, DisjointFiles, FileOk, OutputsFit, InputEntries, Unused;
    var job := Job(db.version, level, w.inputs0, w.inputs1, Oldest(db), {});
    var before := Opened(db, job, |w.outputs|);
    OutputsAreMade(db.version, w.inputs0, w.inputs1, w.outputs, db.next, db'.next);
    SelectedFit(db.version, level, w.inputs0, w.inputs1, w.outputs);
    forall f | f in w.outputs
      ensures f.number in before.job.value.numbers
    {
      var i :| 0 <= i < |w.outputs| && w.outputs[i] == f;
    }
    LevelExists(db.version, level, w.inputs0, w.inputs1);
    assert Produces(before.job.value, w);
    assert InstallsWith(before, db', w);
  }

  lemma LevelExists(v: Version, level: nat, inputs0: seq<File>, inputs1: seq<File>)
    requires Inputs(v, level, inputs0, inputs1)
    ensures VersionOk(v) && level + 1 < |v.files| && Chosen(v, level, inputs0, inputs1)
  {
  }

  lemma MoveIsStep(db: Db, db': Db, level: nat, w: Work)
    requires db.job.None? && Moved(w) && Inputs(db.version, level, w.inputs0, w.inputs1)
    requires Compacted(db.version, level, w.inputs0, w.inputs1, w.outputs, db'.version) && db' == db.(version := db'.version)
    ensures MovesFile(db, db') && Step(db, db')
  {
    hide Inputs, Compacted;
  }

  // The exact condition under which nobody sees a difference.
  lemma WorkKeepsViewsExactlyWhen(db: Db, db': Db, level: nat, w: Work)
    requires Inv(db) && Inputs(db.version, level, w.inputs0, w.inputs1) && Worked(db.version, level, w, Oldest(db))
    requires Compacted(db.version, level, w.inputs0, w.inputs1, w.outputs, db'.version)
    requires db'.mem == db.mem && db'.imm == db.imm
    ensures SameViews(Entries(db), Entries(db'), Oldest(db)) <==>
            Harmless(db.version, level, w.merged, Oldest(db), Upper(db) + Rest(db.version, w.inputs0, w.inputs1))
    ensures NoBoundaryBelow(db.version, level, w.inputs1) ==> SameViews(Entries(db), Entries(db'), Oldest(db))
  {
    hide Inv, Inputs, Chosen, All, Compacted, Read, InputEntries, Above, Harmless, SameViews, Kept, Sorted, NoBoundaryBelow, KeepsNewer, Rest;
    LevelExists(db.version, level, w.inputs0, w.inputs1);
    EntriesDistinct(db);
    CompactionKeepsViews(db.version, db.version, level, w.inputs0, w.inputs1, w.outputs, db'.version, w.merged, Oldest(db), Upper(db));
    assert Entries(db) == Upper(db) + All(db.version) && Entries(db') == Upper(db) + All(db'.version);
    if NoBoundaryBelow(db.version, level, w.inputs1) {
      NoBoundaryKeepsNewer(db.version, level, w.inputs0, w.inputs1);
      NotGrown(db.version);
      NothingLeftBehind(db.version, db.version, level, w.inputs0, w.inputs1, w.merged, Oldest(db), Upper(db));
    }
  }

  // Reads go to the first layer that has anything visible for the key.
  lemma LayersDecide(db: Db, user: UserKey, snapshot: nat)
    requires Inv(db)
    ensures Read(Entries(db), user, snapshot) ==
            if exists e :: e in db.mem && Visible(e, user, snapshot) then Read(Elements(db.mem), user, snapshot)
            else if db.imm.Some? && exists e :: e in db.imm.value && Visible(e, user, snapshot)
            then Read(Elements(db.imm.value), user, snapshot)
            else Read(All(db.version), user, snapshot)
  {
    EntriesDistinct(db);
    hide Inv, VersionInv, Read, All, Above;
    InvLayers(db);
    var lower := ImmEntries(db) + All(db.version);
    assert Entries(db) == Elements(db.mem) + lower;
    ReadLayers(Elements(db.mem), lower, user, snapshot);
    ReadLayers(ImmEntries(db), All(db.version), user, snapshot);
    assert forall e :: e in Elements(db.mem) <==> e in db.mem;
    assert db.imm.Some? ==> forall e :: e in ImmEntries(db) <==> e in db.imm.value;
  }

  lemma InvLayers(db: Db)
    requires Inv(db)
    ensures NewerLayer(Elements(db.mem), ImmEntries(db) + All(db.version))
    ensures NewerLayer(ImmEntries(db), All(db.version))
  {
  }

  lemma SameMembers(a: seq<Entry>, b: seq<Entry>)
    ensures forall e :: e in Elements(a) <==> e in a
    ensures forall e :: e in Elements(b) <==> e in b
  {
  }

  function NthEntry(ops: seq<(UserKey, Option<string>)>, last: nat, i: nat): Entry
    requires i < |ops|
  {
    OpEntry(ops[i], last + 1 + i)
  }

  // `table` is `mem` with the operations under the sequence numbers after `last`, and nothing else.
  ghost predicate Inserted(mem: seq<Entry>, last: nat, ops: seq<(UserKey, Option<string>)>, table: seq<Entry>) {
    && Sorted(table)
    && (forall e :: e in mem ==> e in table)
    && (forall i :: 0 <= i < |ops| ==> NthEntry(ops, last, i) in table)
    && (forall e :: e in table && e !in mem ==> exists i :: 0 <= i < |ops| && e == NthEntry(ops, last, i))
  }

  lemma InsertedOne(mem: seq<Entry>, last: nat, ops: seq<(UserKey, Option<string>)>, table: seq<Entry>, i: nat)
    requires i < |ops| && Inserted(mem, last, ops[..i], table)
    requires forall e :: e in mem ==> e.key.sequence <= last
    ensures var e := OpEntry(ops[i], last + 1 + i);
            (forall x :: x in table ==> x.key != e.key) && Inserted(mem, last, ops[..i + 1], InsertSorted(table, e))
  {
    forall x | x in table ensures x.key.sequence < last + 1 + i {
      if x !in mem {
        var j :| 0 <= j < i && x == NthEntry(ops[..i], last, j);
      }
    }
    var e := OpEntry(ops[i], last + 1 + i);
    var done := ops[..i + 1];
    var table' := InsertSorted(table, e);
    forall x | x in table' && x !in mem
      ensures exists j :: 0 <= j <= i && x == NthEntry(done, last, j)
    {
      if x == e {
        assert x == NthEntry(done, last, i);
      } else {
        var j :| 0 <= j < i && x == NthEntry(ops[..i], last, j);
        assert x == NthEntry(done, last, j);
      }
    }
    forall j | 0 <= j <= i ensures NthEntry(done, last, j) in table' {
      assert j < i ==> NthEntry(ops[..i], last, j) in table;
    }
  }

  // MemTableInserter over the operations of a batch.
  method InsertAll(mem: seq<Entry>, last: nat, ops: seq<(UserKey, Option<string>)>) returns (table: seq<Entry>)
    requires Sorted(mem) && forall e :: e in mem ==> e.key.sequence <= last
    ensures Inserted(mem, last, ops, table) && ReadsWrites(Elements(mem), last, ops, Elements(table))
  {
    table := mem;
    var sequence := last + 1;
    for i := 0 to |ops|
      invariant sequence == last + 1 + i && Inserted(mem, last, ops[..i], table)
    {
      hide Inserted, InsertSorted, OpEntry;
      InsertedOne(mem, last, ops, table, i);
      InsertedSorted(mem, last, ops[..i], table);
      table := InsertSorted(table, OpEntry(ops[i], sequence));
      sequence := sequence + 1;
    }
    assert ops[..|ops|] == ops;
    TableReadsWrites(mem, last, ops, table);
  }

  lemma TableReadsWrites(mem: seq<Entry>, last: nat, ops: seq<(UserKey, Option<string>)>, table: seq<Entry>)
    requires (forall e :: e in mem ==> e.key.sequence <= last) && Inserted(mem, last, ops, table)
    ensures ReadsWrites(Elements(mem), last, ops, Elements(table))
  {
    hide NthEntry, ReadsWrites;
    SameMembers(mem, table);
    SortedIsDistinct(table);
    WritesAreRead(Elements(mem), last, ops, Elements(table));
  }

  lemma InsertedSorted(mem: seq<Entry>, last: nat, ops: seq<(UserKey, Option<string>)>, table: seq<Entry>)
    requires Inserted(mem, last, ops, table)
    ensures Sorted(table)
  {
  }

  lemma MemTableBound(db: Db)
    requires Inv(db)
    ensures Sorted(db.mem) && forall e :: e in db.mem ==> e.key.sequence <= db.last
  {
    hide VersionInv, All, RisingTo;
    assert forall e :: e in db.mem ==> e in Entries(db);
  }

  lemma InsertedWrites(db: Db, ops: seq<(UserKey, Option<string>)>, table: seq<Entry>)
    requires Inserted(db.mem, db.last, ops, table) && db.last + |ops| < MAX_SEQUENCE
    ensures Writes(db, db.(mem := table, last := db.last + |ops|)) && Step(db, db.(mem := table, last := db.last + |ops|))
  {
    SameMembers(db.mem, table);
  }

  lemma FlushIsStep(db: Db, db': Db)
    requires FlushesMemTable(db, db')
    ensures Step(db, db')
  {
  }

  lemma ReleaseIsStep(db: Db, db': Db, k: nat)
    requires k < |db.snapshots| && db' == db.(snapshots := db.snapshots[..k] + db.snapshots[k + 1..])
    ensures ReleasesSnapshot(db, db') && Step(db, db')
  {
  }

  // ---- What was written is read ----

  // The operation at i is the last one for its key among the first k.
  ghost predicate IsLastFor(ops: seq<(UserKey, Option<string>)>, k: nat, i: nat) {
    i < k <= |ops| && forall j :: i < j < k ==> ops[j].0 != ops[i].0
  }

  ghost predicate Untouched(ops: seq<(UserKey, Option<string>)>, k: nat, user: UserKey) {
    k <= |ops| && forall j :: 0 <= j < k ==> ops[j].0 != user
  }

  // A reader that sees the first k operations reads the last of them for the key, or what was there before.
  ghost predicate ReadsWrites(before: set<Entry>, last: nat, ops: seq<(UserKey, Option<string>)>, after: set<Entry>) {
    && (forall k: nat, i: nat :: IsLastFor(ops, k, i) ==> Read(after, ops[i].0, last + k) == ops[i].1)
    && (forall k: nat, user :: Untouched(ops, k, user) ==> Read(after, user, last + k) == Read(before, user, last))
    && forall user, snapshot: nat :: snapshot <= last ==> Read(after, user, snapshot) == Read(before, user, snapshot)
  }

  // Readers that see the same entries of a key read the same.
  lemma SameVisible(a: set<Entry>, n: nat, b: set<Entry>, m: nat, user: UserKey)
    requires DistinctKeys(a) && DistinctKeys(b)
    requires forall e :: e in a && Visible(e, user, n) <==> e in b && Visible(e, user, m)
    ensures Read(a, user, n) == Read(b, user, m)
  {
    if e :| Newest(a, e, user, n) {
      assert Newest(b, e, user, m);
      ReadIsNewest(a, e, user, n);
      ReadIsNewest(b, e, user, m);
    } else if e :| Newest(b, e, user, m) {
      assert Newest(a, e, user, n);
    }
  }

  lemma SequenceDecides(x: Entry, e: Entry)
    requires x == e || x.key.sequence < e.key.sequence
    ensures !Newer(x, e)
  {
  }

  lemma WriteIsRead(before: set<Entry>, last: nat, ops: seq<(UserKey, Option<string>)>, after: set<Entry>, k: nat, i: nat)
    requires DistinctKeys(after) && Bounded(before, last) && AddsWrites(before, last, ops, after) && IsLastFor(ops, k, i)
    ensures Read(after, ops[i].0, last + k) == ops[i].1
  {
    hide Newer, DistinctKeys;
    var e := NthEntry(ops, last, i);
    forall x | x in after && Visible(x, ops[i].0, last + k)
      ensures !Newer(x, e)
    {
      if x in before {
        SequenceDecides(x, e);
      } else {
        var j :| 0 <= j < |ops| && x == NthEntry(ops, last, j);
        assert j <= i;
        SequenceDecides(x, e);
      }
    }
    ReadIsNewest(after, e, ops[i].0, last + k);
  }

  lemma OthersAreRead(before: set<Entry>, last: nat, ops: seq<(UserKey, Option<string>)>, after: set<Entry>, k: nat, user: UserKey)
    requires DistinctKeys(after) && Bounded(before, last) && AddsWrites(before, last, ops, after) && Untouched(ops, k, user)
    ensures Read(after, user, last + k) == Read(before, user, last)
  {
    forall x | x in after && Visible(x, user, last + k)
      ensures x in before && Visible(x, user, last)
    {
    }
    SameVisible(after, last + k, before, last, user);
  }

  lemma OldViewsStay(before: set<Entry>, last: nat, ops: seq<(UserKey, Option<string>)>, after: set<Entry>, user: UserKey, snapshot: nat)
    requires DistinctKeys(after) && AddsWrites(before, last, ops, after) && snapshot <= last
    ensures Read(after, user, snapshot) == Read(before, user, snapshot)
  {
    forall x | x in after && Visible(x, user, snapshot)
      ensures x in before
    {
    }
    SameVisible(after, snapshot, before, snapshot, user);
  }

  // `after` is `before` with the operations under the sequence numbers after `last`.
  ghost predicate AddsWrites(before: set<Entry>, last: nat, ops: seq<(UserKey, Option<string>)>, after: set<Entry>) {
    && before <= after
    && (forall i :: 0 <= i < |ops| ==> NthEntry(ops, last, i) in after)
    && (forall e :: e in after && e !in before ==> exists i :: 0 <= i < |ops| && e == NthEntry(ops, last, i))
  }

  lemma WritesAreRead(before: set<Entry>, last: nat, ops: seq<(UserKey, Option<string>)>, after: set<Entry>)
    requires DistinctKeys(after) && Bounded(before, last) && AddsWrites(before, last, ops, after)
    ensures ReadsWrites(before, last, ops, after)
  {
    hide Read, AddsWrites, DistinctKeys, Bounded, Untouched;
    forall k: nat, i: nat | IsLastFor(ops, k, i)
      ensures Read(after, ops[i].0, last + k) == ops[i].1
    {
      WriteIsRead(before, last, ops, after, k, i);
    }
    forall k: nat, user | Untouched(ops, k, user)
      ensures Read(after, user, last + k) == Read(before, user, last)
    {
      OthersAreRead(before, last, ops, after, k, user);
    }
    forall user, snapshot: nat | snapshot <= last
      ensures Read(after, user, snapshot) == Read(before, user, snapshot)
    {
      OldViewsStay(before, last, ops, after, user, snapshot);
    }
  }

  lemma InsertedAdds(db: Db, ops: seq<(UserKey, Option<string>)>, table: seq<Entry>)
    requires Inserted(db.mem, db.last, ops, table)
    ensures AddsWrites(Entries(db), db.last, ops, Entries(db.(mem := table, last := db.last + |ops|)))
  {
    hide Sorted, All, NthEntry;
    SameMembers(db.mem, table);
  }

  lemma DatabaseReadsWrites(db: Db, ops: seq<(UserKey, Option<string>)>, db': Db)
    requires Inv(db) && Inv(db') && db' == db.(mem := db'.mem, last := db.last + |ops|)
    requires Inserted(db.mem, db.last, ops, db'.mem)
    ensures ReadsWrites(Entries(db), db.last, ops, Entries(db'))
  {
    hide Inserted, AddsWrites, ReadsWrites, VersionInv, Entries, RisingTo, Sorted, NewerLayer, JobInv;
    EntriesDistinct(db');
    InsertedAdds(db, ops, db'.mem);
    WritesAreRead(Entries(db), db.last, ops, Entries(db'));
  }

  class DBImpl {
    var mem: seq<Entry>
    var imm: Option<seq<Entry>>
    var current: Version
    var nextFileNumber: nat
    var lastSequence: nat
    var compactPointer: map<nat, InternalKey>
    const snapshots: SnapshotList
    const maxFileSize: nat

    ghost function SnapshotNumbers(): seq<nat>
      reads snapshots
    {
      seq(|snapshots.nodes|, i requires 0 <= i < |snapshots.nodes| reads snapshots => snapshots.nodes[i].sequenceNumber)
    }

    ghost function State(): Db
      reads this, snapshots
    {
      Db(mem, imm, current, nextFileNumber, lastSequence, SnapshotNumbers(), None)
    }

    ghost predicate WellFormed()
      reads this, snapshots, snapshots.head, snapshots.nodes
    {
      snapshots.WellFormed() && Inv(State())
    }

    // A new, empty database.
    constructor (maxFileSize: nat)
      ensures WellFormed() && fresh(snapshots) && fresh(snapshots.head)
      ensures Entries(State()) == {} && SnapshotNumbers() == []
    {
      this.maxFileSize := maxFileSize;
      mem, imm, compactPointer := [], None, map[];
      current := Version(seq(NUM_LEVELS, l => []));
      nextFileNumber, lastSequence := 2, 0;
      snapshots := new SnapshotList();
      new;
      EmptyRun();
    }

    // The operations in a batch get the sequence numbers after the last one, in order.
    method InsertInto(ops: seq<(UserKey, Option<string>)>)
      requires WellFormed() && lastSequence + |ops| < MAX_SEQUENCE
      modifies this`mem, this`lastSequence
      ensures WellFormed() && Writes(old(State()), State())
      ensures lastSequence == old(lastSequence) + |ops|
      ensures Inserted(old(mem), old(lastSequence), ops, mem)
      ensures ReadsWrites(old(Entries(State())), old(lastSequence), ops, Entries(State()))
    {
      hide *;
      ghost var before := State();
      InvHolds();
      MemTableBound(before);
      var table := InsertAll(mem, lastSequence, ops);
      mem, lastSequence := table, lastSequence + |ops|;
      StateIs();
      InsertedWrites(before, ops, table);
      StepKeepsInv(before, State());
      DatabaseReadsWrites(before, ops, State());
      InvSuffices();
    }

    lemma InvHolds()
      requires WellFormed()
      ensures snapshots.WellFormed() && Inv(State())
      ensures State() == Db(mem, imm, current, nextFileNumber, lastSequence, SnapshotNumbers(), None)
    {
    }

    lemma StateIs()
      ensures State() == Db(mem, imm, current, nextFileNumber, lastSequence, SnapshotNumbers(), None)
    {
    }

    lemma InvSuffices()
      requires snapshots.WellFormed() && Inv(State())
      ensures WellFormed()
    {
    }

    method SwitchMemTable()
      requires WellFormed() && imm.None?
      modifies this`mem, this`imm
      ensures WellFormed() && SwitchesMemTable(old(State()), State())
    {
      hide VersionInv, All, RisingTo, Sorted;
      imm := Some(mem);
      mem := [];
      StepKeepsInv(old(State()), State());
    }

    method CompactMemTable(fileSize: nat)
      requires WellFormed() && imm.Some?
      modifies this`imm, this`current, this`nextFileNumber
      ensures WellFormed() && FlushesMemTable(old(State()), State())
    {
      hide Inv, Step, VersionInv, RisingTo, Sorted, VersionFits;
      ghost var before := State();
      FlushIsAllowed(before);
      current, nextFileNumber :=
        MemTableFlush.CompactMemTable(current, imm.value, nextFileNumber, maxFileSize, fileSize, compactPointer);
      imm := None;
      FlushIsStep(before, State());
      StepKeepsInv(before, State());
    }

    method GetSnapshot() returns (snapshot: SnapshotImpl)
      requires WellFormed()
      modifies snapshots, snapshots.head, snapshots.nodes
      ensures WellFormed() && TakesSnapshot(old(State()), State())
      ensures snapshot.sequenceNumber == lastSequence && snapshot in snapshots.nodes
    {
      assert forall i :: 0 <= i < |snapshots.nodes| ==> SnapshotNumbers()[i] == snapshots.nodes[i].sequenceNumber;
      snapshot := snapshots.New(lastSequence);
      assert SnapshotNumbers() == old(SnapshotNumbers()) + [lastSequence];
      StepKeepsInv(old(State()), State());
    }

    method ReleaseSnapshot(snapshot: SnapshotImpl)
      requires WellFormed() && snapshot in snapshots.nodes
      modifies snapshots, snapshots.head, snapshots.nodes
      ensures WellFormed() && ReleasesSnapshot(old(State()), State())
    {
      hide Inv, Step, Snapshots.Rising, Without;
      ghost var before := State();
      snapshots.Delete(snapshot);
      ghost var k :| 0 <= k < |old(snapshots.nodes)| && old(snapshots.nodes)[k] == snapshot
                     && snapshots.nodes == Without(old(snapshots.nodes), k);
      WithoutIs(old(snapshots.nodes), k);
      assert SnapshotNumbers() == before.snapshots[..k] + before.snapshots[k + 1..];
      ReleaseIsStep(before, State(), k);
      StepKeepsInv(before, State());
    }

    // smallest_snapshot, then the compaction itself, with nothing else going on: the steps of a run.
    method Compact(level: nat, picked: seq<File>, isManual: bool, sizeOf: seq<Entry> -> nat)
      returns (ghost w: Work, ghost moved: bool)
      requires WellFormed() && level + 1 < NUM_LEVELS && Pickable(current, level, picked)
      modifies this`current, this`nextFileNumber, this`compactPointer
      ensures WellFormed()
      ensures Inputs(old(current), level, w.inputs0, w.inputs1) && forall f :: f in picked ==> f in w.inputs0
      ensures Compacted(old(current), level, w.inputs0, w.inputs1, w.outputs, current)
      ensures moved ==> Moved(w) && MovesFile(old(State()), State())
      ensures !moved ==> Worked(old(current), level, w, Oldest(old(State())))
      ensures !moved ==> DatabaseRuns.IsRun(Path(old(State()), Job(old(current), level, w.inputs0, w.inputs1, Oldest(old(State())), {}), |w.outputs|, State()))
      ensures !moved ==>
                (SameViews(old(Entries(State())), Entries(State()), Oldest(old(State()))) <==>
                 Harmless(old(current), level, w.merged, Oldest(old(State())), Upper(old(State())) + Rest(old(current), w.inputs0, w.inputs1)))
      ensures !moved && NoBoundaryBelow(old(current), level, w.inputs1) ==>
                SameViews(old(Entries(State())), Entries(State()), Oldest(old(State())))
    {
      hide Inv, RisingTo, Sorted, Pickable, Inputs, Chosen, Compacted, Worked, Harmless, SameViews, OutputsOk, Entries, Upper, Rest,
           NoBoundaryBelow, DatabaseRuns.IsRun, Path, VersionInv, MovesFile, Step, Moved;
      ghost var before := State();
      StateFits();
      var smallestSnapshot := lastSequence;
      if !snapshots.IsEmpty() {
        smallestSnapshot := snapshots.Oldest().sequenceNumber;
      }
      assert smallestSnapshot == Oldest(before) <= lastSequence;
      current, nextFileNumber, compactPointer, w, moved :=
        BackgroundCompaction(current, level, picked, isManual, maxFileSize, smallestSnapshot, nextFileNumber,
                             compactPointer, sizeOf);
      Outcome(before, State(), level, w, moved);
    }

    lemma StateFits()
      requires WellFormed()
      ensures VersionInv(current, nextFileNumber) && lastSequence < MAX_SEQUENCE && Oldest(State()) <= lastSequence
      ensures Inv(State()) && State().job.None? && State().version == current && State().next == nextFileNumber
    {
      hide VersionInv, Sorted, NewerLayer, Bounded;
      OldestIsBounded(State());
    }

    static lemma Outcome(db: Db, db': Db, level: nat, w: Work, moved: bool)
      requires Inv(db) && db.job.None? && Inputs(db.version, level, w.inputs0, w.inputs1)
      requires OutputsOk(db.version, w.inputs0, w.inputs1, w.outputs, db.next, db'.next)
      requires Compacted(db.version, level, w.inputs0, w.inputs1, w.outputs, db'.version)
      requires db' == db.(version := db'.version, next := db'.next)
      requires moved ==> Moved(w) && db'.next == db.next
      requires !moved ==> Worked(db.version, level, w, Oldest(db)) && db'.next == db.next + |w.outputs|
      requires !moved ==> forall i :: 0 <= i < |w.outputs| ==> w.outputs[i].number == db.next + i
      ensures Inv(db') && (moved ==> MovesFile(db, db'))
      ensures !moved ==> DatabaseRuns.IsRun(Path(db, Job(db.version, level, w.inputs0, w.inputs1, Oldest(db), {}), |w.outputs|, db'))
      ensures !moved ==>
                (SameViews(Entries(db), Entries(db'), Oldest(db)) <==>
                 Harmless(db.version, level, w.merged, Oldest(db), Upper(db) + Rest(db.version, w.inputs0, w.inputs1)))
      ensures !moved && NoBoundaryBelow(db.version, level, w.inputs1) ==> SameViews(Entries(db), Entries(db'), Oldest(db))
    {
      hide Inv, Inputs, Chosen, Compacted, Worked, Harmless, SameViews, OutputsOk, Entries, Upper, Rest, NoBoundaryBelow, DatabaseRuns.IsRun,
           MovesFile, Step, Moved;
      if moved {
        MoveIsStep(db, db', level, w);
        StepKeepsInv(db, db');
      } else {
        var path := Path(db, Job(db.version, level, w.inputs0, w.inputs1, Oldest(db), {}), |w.outputs|, db');
        AtOnceIsRun(db, db', level, w);
        RunKeepsInv(path, |path| - 1);
        WorkKeepsViewsExactlyWhen(db, db', level, w);
      }
    }

    // DBImpl::Get.
    method Get(user: UserKey, snapshot: Option<SnapshotImpl>) returns (value: Option<string>)
      requires WellFormed()
      ensures value == Read(Entries(State()), user, if snapshot.Some? then snapshot.value.sequenceNumber else lastSequence)
    {
      hide VersionOk, RisingTo, Sorted, Read, NewerLayer, Bounded, Ordered, NumbersApart, NumbersBelow;
      var number := if snapshot.Some? then snapshot.value.sequenceNumber else lastSequence;
      LayersDecide(State(), user, number);
      var state := MemTableGet(mem, user, number);
      if state == NotFound && imm.Some? {
        state := MemTableGet(imm.value, user, number);
      }
      match state {
        case Found(v) => value := Some(v);
        case Deleted => value := None;
        case NotFound => value := Versions.Get(current, user, number);
      }
    }
  }

  function OpEntry(op: (UserKey, Option<string>), sequence: nat): Entry {
    match op.1
    case Some(v) => Entry(InternalKey(op.0, sequence, Put), v)
    case None => Entry(InternalKey(op.0, sequence, Deletion), "")
  }
}
