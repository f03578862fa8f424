/** Runs of the whole store: writes, memtable switches and flushes, compactions and snapshots, in any
    order. A snapshot reads the same from the moment it is taken until it is released. */
module DatabaseRuns {
  import opened Options
  import opened InternalKeys
  import opened Versions
  import opened InputSelection
  import opened VersionBuilder
  import opened DropRules
  import opened MergingIterators
  import opened Compactions
  import opened CompactionResults
  import opened MemTableFlush

  // A compaction at work: the version it was chosen on, its inputs, its smallest_snapshot, and the file
  // numbers that it took for its outputs.
  datatype Job = Job(base: Version, level: nat, inputs0: seq<File>, inputs1: seq<File>, oldest: nat, numbers: set<nat>)

  // DBImpl: the memtable, the immutable memtable if there is one, the current version, the next file
  // number, the last sequence number, the sequence numbers of the live snapshots, oldest first, and the
  // compaction that the background thread is at.
  datatype Db = Db(mem: seq<Entry>, imm: Option<seq<Entry>>, version: Version, next: nat, last: nat, snapshots: seq<nat>,
                   job: Option<Job>)

  ghost function ImmEntries(db: Db): set<Entry> {
    if db.imm.Some? then Elements(db.imm.value) else {}
  }

  ghost function Entries(db: Db): set<Entry> {
    Elements(db.mem) + ImmEntries(db) + All(db.version)
  }

  ghost predicate NewerLayer(upper: set<Entry>, lower: set<Entry>) {
    forall a, b :: a in upper && b in lower && a.key.user == b.key.user ==> Newer(a, b)
  }

  ghost predicate Bounded(es: set<Entry>, last: nat) {
    forall e :: e in es ==> e.key.sequence <= last
  }

  ghost predicate RisingTo(snapshots: seq<nat>, last: nat) {
    && (forall i, j :: 0 <= i < j < |snapshots| ==> snapshots[i] <= snapshots[j])
    && (forall i :: 0 <= i < |snapshots| ==> snapshots[i] <= last)
  }

  // The inputs are still there, and only newer entries came into the version since.
  ghost predicate JobInv(db: Db, job: Job) {
    && Inputs(job.base, job.level, job.inputs0, job.inputs1)
    && Chosen(db.version, job.level, job.inputs0, job.inputs1) && Grown(job.base, db.version)
    && job.oldest <= db.last && (forall i :: 0 <= i < |db.snapshots| ==> job.oldest <= db.snapshots[i])
    && forall n :: n in job.numbers ==> n < db.next && Unused(db.version, n)
  }

  ghost predicate Inv(db: Db) {
    && Sorted(db.mem) && (db.imm.Some? ==> Sorted(db.imm.value))
    && VersionInv(db.version, db.next)
    && NewerLayer(Elements(db.mem), ImmEntries(db) + All(db.version))
    && NewerLayer(ImmEntries(db), All(db.version))
    && Bounded(Entries(db), db.last) && db.last < MAX_SEQUENCE
    && RisingTo(db.snapshots, db.last)
    && (db.job.Some? ==> JobInv(db, db.job.value))
  }

  // The choice of smallest_snapshot: snapshots_.oldest(), or the last sequence when there is none.
  function Oldest(db: Db): nat {
    if db.snapshots == [] then db.last else db.snapshots[0]
  }

  // ---- Steps ----

  // New entries carry sequence numbers above every earlier one.
  ghost predicate Writes(db: Db, db': Db) {
    && db' == db.(mem := db'.mem, last := db'.last)
    && db.last <= db'.last < MAX_SEQUENCE && Sorted(db'.mem)
    && Elements(db.mem) <= Elements(db'.mem)
    && forall e :: e in Elements(db'.mem) && e !in Elements(db.mem) ==> db.last < e.key.sequence <= db'.last
  }

  ghost predicate SwitchesMemTable(db: Db, db': Db) {
    db.imm.None? && db' == db.(mem := [], imm := Some(db.mem))
  }

  // CompactMemTable, by itself or from within the loop of a compaction.
  ghost predicate FlushesMemTable(db: Db, db': Db) {
    && db.imm.Some? && db' == db.(imm := None, version := db'.version, next := db.next + 1)
    && Flushed(db.version, db.imm.value, db.next, db'.version)
  }

  ghost predicate TakesSnapshot(db: Db, db': Db) {
    db' == db.(snapshots := db.snapshots + [db.last])
  }

  ghost predicate ReleasesSnapshot(db: Db, db': Db) {
    exists k :: 0 <= k < |db.snapshots| && db' == db.(snapshots := db.snapshots[..k] + db.snapshots[k + 1..])
  }

  // The choice of the inputs and of smallest_snapshot.
  ghost predicate BeginsCompaction(db: Db, db': Db) {
    && db.job.None?
    && exists level: nat, inputs0, inputs1 ::
         && Inputs(db.version, level, inputs0, inputs1)
         && db' == db.(job := Some(Job(db.version, level, inputs0, inputs1, Oldest(db), {})))
  }

  // OpenCompactionOutputFile takes a file number.
  ghost predicate OpensOutput(db: Db, db': Db) {
    && db.job.Some?
    && db' == db.(next := db.next + 1, job := Some(db.job.value.(numbers := db.job.value.numbers + {db.next})))
  }

  // The files that a compaction at work may come out with.
  ghost predicate Produces(job: Job, w: Work) {
    && w.inputs0 == job.inputs0 && w.inputs1 == job.inputs1 && Worked(job.base, job.level, w, job.oldest)
    && DisjointFiles(w.outputs) && UniqueNumbers(w.outputs)
    && forall f :: f in w.outputs ==> FileOk(f) && f.number in job.numbers
  }

  ghost predicate InstallsWith(db: Db, db': Db, w: Work) {
    && db.job.Some? && db.job.value.level + 1 < |db.version.files| && Produces(db.job.value, w)
    && OutputsFit(db.version, db.job.value.level, w.inputs1, w.outputs)
    && Compacted(db.version, db.job.value.level, w.inputs0, w.inputs1, w.outputs, db'.version)
    && db' == db.(version := db'.version, job := None)
  }

  // InstallCompactionResults, on the version that is current by then. A flush in the meantime may have put
  // a file on the output level; OutputsFit is what Builder::SaveTo asserts of it.
  ghost predicate InstallsCompaction(db: Db, db': Db) {
    exists w :: InstallsWith(db, db', w)
  }

  // A compaction that meets an error leaves everything as it is.
  ghost predicate AbandonsCompaction(db: Db, db': Db) {
    db.job.Some? && db' == db.(job := None)
  }

  ghost predicate MovesFile(db: Db, db': Db) {
    && db.job.None? && db' == db.(version := db'.version)
    && exists level: nat, inputs0 ::
         && |inputs0| == 1 && Inputs(db.version, level, inputs0, [])
         && Compacted(db.version, level, inputs0, [], inputs0, db'.version)
  }

  ghost predicate Step(db: Db, db': Db) {
    || Writes(db, db') || SwitchesMemTable(db, db') || FlushesMemTable(db, db')
    || TakesSnapshot(db, db') || ReleasesSnapshot(db, db')
    || BeginsCompaction(db, db') || OpensOutput(db, db') || InstallsCompaction(db, db') || AbandonsCompaction(db, db')
    || MovesFile(db, db')
  }

  // ---- What every step keeps ----

  lemma EntriesDistinct(db: Db)
    requires Inv(db)
    ensures DistinctKeys(Entries(db))
    ensures Above(Elements(db.mem) + ImmEntries(db), db.version)
  {
    hide VersionOk, All, JobInv;
    SortedIsDistinct(db.mem);
    if db.imm.Some? {
      SortedIsDistinct(db.imm.value);
    }
    VersionDistinct(db.version);
  }

  lemma StepKeepsInv(db: Db, db': Db)
    requires Inv(db) && Step(db, db')
    ensures Inv(db')
  {
    hide *;
    if Writes(db, db') {
      WriteKeepsInv(db, db');
    } else if SwitchesMemTable(db, db') {
      SwitchKeepsInv(db, db');
    } else if FlushesMemTable(db, db') {
      FlushKeepsInv(db, db');
    } else if TakesSnapshot(db, db') || ReleasesSnapshot(db, db') {
      SnapshotsKeepInv(db, db');
    } else if InstallsCompaction(db, db') {
      InstallKeepsInv(db, db');
    } else if MovesFile(db, db') {
      MoveKeepsInv(db, db');
    } else {
      OthersRemain(db, db');
      JobKeepsInv(db, db');
    }
  }

  lemma OthersRemain(db: Db, db': Db)
    requires Step(db, db') && !Writes(db, db') && !SwitchesMemTable(db, db') && !FlushesMemTable(db, db')
    requires !TakesSnapshot(db, db') && !ReleasesSnapshot(db, db') && !InstallsCompaction(db, db') && !MovesFile(db, db')
    ensures BeginsCompaction(db, db') || OpensOutput(db, db') || AbandonsCompaction(db, db')
  {
    hide Writes, SwitchesMemTable, FlushesMemTable, TakesSnapshot, ReleasesSnapshot, BeginsCompaction, OpensOutput,
         InstallsCompaction, AbandonsCompaction, MovesFile;
  }

  lemma EmptyRun()
    ensures Sorted([]) && Elements([]) == {}
  {
  }

  lemma WriteKeepsInv(db: Db, db': Db)
    requires Inv(db) && Writes(db, db')
    ensures Inv(db')
  {
    hide VersionInv, All, Inputs, Chosen, Grown, Unused;
    assert forall b :: b in ImmEntries(db) + All(db.version) ==> b in Entries(db);
  }

  lemma SwitchKeepsInv(db: Db, db': Db)
    requires Inv(db) && SwitchesMemTable(db, db')
    ensures Inv(db') && Entries(db') == Entries(db)
  {
    hide VersionInv, All, Inputs, Chosen, Grown, Unused, Sorted;
    EmptyRun();
  }

  lemma SnapshotsKeepInv(db: Db, db': Db)
    requires Inv(db) && (TakesSnapshot(db, db') || ReleasesSnapshot(db, db'))
    ensures Inv(db') && Entries(db') == Entries(db)
  {
    hide VersionInv, All, Inputs, Chosen, Grown, Unused, Sorted, NewerLayer, Bounded;
  }

  lemma OldestIsBounded(db: Db)
    requires RisingTo(db.snapshots, db.last)
    ensures Oldest(db) <= db.last && forall i :: 0 <= i < |db.snapshots| ==> Oldest(db) <= db.snapshots[i]
  {
  }

  lemma JobKeepsInv(db: Db, db': Db)
    requires Inv(db) && (BeginsCompaction(db, db') || OpensOutput(db, db') || AbandonsCompaction(db, db'))
    ensures Inv(db') && Entries(db') == Entries(db)
  {
    hide VersionOk, Ordered, NumbersApart, All, Inputs, Chosen, Sorted, NewerLayer, Bounded;
    OldestIsBounded(db);
    NotGrown(db.version);
    if OpensOutput(db, db') {
      assert Unused(db.version, db.next);
    }
  }

  lemma FlushKeepsInv(db: Db, db': Db)
    requires Inv(db) && FlushesMemTable(db, db')
    ensures Inv(db') && Entries(db') == Entries(db)
  {
    hide VersionInv, All, Sorted, JobInv, Flushed;
    var imm := db.imm.value;
    assert forall e :: e in imm ==> e in ImmEntries(db);
    FlushedKeeps(db.version, imm, db.next, db'.version);
    if db.job.Some? {
      FlushKeepsJob(db, db', db.job.value);
    }
  }

  // A flush adds one file of newer entries, with a number of its own.
  ghost predicate GainsFile(v: Version, after: Version, number: nat, entries: set<Entry>) {
    && |v.files| == |after.files| == NUM_LEVELS
    && (forall l, f :: 0 <= l < NUM_LEVELS && f in v.files[l] ==> f in after.files[l])
    && forall l, f :: 0 <= l < NUM_LEVELS && f in after.files[l] && f !in v.files[l] ==>
         f.number == number && Elements(f.entries) == entries
  }

  lemma FlushGains(v: Version, memtable: seq<Entry>, number: nat, after: Version)
    requires |v.files| == NUM_LEVELS && |after.files| == NUM_LEVELS && Flushed(v, memtable, number, after)
    ensures GainsFile(v, after, number, Elements(memtable))
  {
    hide GoodPlace, Elements;
    if memtable != [] {
      var level: nat, fileSize: nat :|
        GoodPlace(v, level, TableOf(memtable, number, fileSize)) && Added(v, level, TableOf(memtable, number, fileSize), after);
      forall l: nat, f | l < NUM_LEVELS
        ensures f in after.files[l] <==> f in v.files[l] || (l == level && f == TableOf(memtable, number, fileSize))
      {
        AddedMember(v, level, TableOf(memtable, number, fileSize), after, l, f);
      }
    }
  }

  lemma FlushKeepsJob(db: Db, db': Db, job: Job)
    requires Inv(db) && FlushesMemTable(db, db') && db.job == Some(job)
    requires VersionInv(db'.version, db'.next) && All(db'.version) == All(db.version) + ImmEntries(db)
    ensures JobInv(db', job)
  {
    hide Inputs, Chosen, Grown, Unused, Sorted, Ordered, NumbersApart, NumbersBelow, All, Bounded, Flushed, GainsFile, LevelOk,
         DisjointFiles, AgedByNumber, LevelNewer;
    FlushGains(db.version, db.imm.value, db.next, db'.version);
    GainKeepsChosen(db.version, db'.version, job, db.next, ImmEntries(db));
    GainKeepsUnused(db.version, db'.version, job, db.next, ImmEntries(db));
  }

  lemma GainKeepsChosen(v: Version, after: Version, job: Job, number: nat, entries: set<Entry>)
    requires Chosen(v, job.level, job.inputs0, job.inputs1) && Grown(job.base, v)
    requires VersionOk(after) && GainsFile(v, after, number, entries) && NewerLayer(entries, All(v))
    requires All(after) == All(v) + entries
    ensures Chosen(after, job.level, job.inputs0, job.inputs1) && Grown(job.base, after)
  {
    hide VersionOk, All;
    var level := job.level;
    LevelsOf(v, job);
    forall f, g | f in job.inputs0 && g in after.files[level] && g !in job.inputs0
      ensures FileNewer(g, f)
    {
      if g !in v.files[level] {
        forall a, b | a in g.entries && b in f.entries && a.key.user == b.key.user
          ensures Newer(a, b)
        {
          assert a in Elements(g.entries);
          InAll(v, level, f, b);
        }
      }
    }
  }

  lemma LevelsOf(v: Version, job: Job)
    requires Chosen(v, job.level, job.inputs0, job.inputs1)
    ensures |v.files| == NUM_LEVELS && job.level + 1 < NUM_LEVELS
  {
  }

  lemma GainKeepsUnused(v: Version, after: Version, job: Job, number: nat, entries: set<Entry>)
    requires GainsFile(v, after, number, entries) && forall n :: n in job.numbers ==> n < number && Unused(v, n)
    ensures forall n :: n in job.numbers ==> n < number + 1 && Unused(after, n)
  {
    hide Elements;
    forall n, l, f | n in job.numbers && 0 <= l < NUM_LEVELS && f in after.files[l]
      ensures f.number != n
    {
      assert Unused(v, n);
    }
  }

  // ---- Installing ----

  lemma InstallIsOk(db: Db, db': Db, w: Work)
    requires Inv(db) && InstallsWith(db, db', w)
    ensures Chosen(db.version, db.job.value.level, w.inputs0, w.inputs1)
    ensures OutputsOk(db.version, w.inputs0, w.inputs1, w.outputs, db.next, db.next)
  {
    hide VersionInv, Inputs, Chosen, Sorted, NewerLayer, Bounded, InputEntries, Kept, FileOk, Compacted, OutputsFit, Unused, Worked;
    var job := db.job.value;
    OutputsAreInputs(job.base, job.level, w, job.oldest);
  }

  // Unless a flush put a file on the output level in the meantime, the outputs fit there.
  lemma UntouchedLevelFits(db: Db, w: Work)
    requires Inv(db) && db.job.Some? && Produces(db.job.value, w)
    requires db.job.value.level + 1 < |db.version.files| && db.job.value.level + 1 < |db.job.value.base.files|
    requires db.version.files[db.job.value.level + 1] == db.job.value.base.files[db.job.value.level + 1]
    ensures OutputsFit(db.version, db.job.value.level, w.inputs1, w.outputs)
  {
    hide VersionInv, Inputs, Chosen, Sorted, NewerLayer, Bounded, InputEntries, Kept, FileOk, Unused, Worked, Apart;
    var job := db.job.value;
    OutputsAreInputs(job.base, job.level, w, job.oldest);
    SelectedFit(job.base, job.level, w.inputs0, w.inputs1, w.outputs);
  }

  lemma InstallKeepsInv(db: Db, db': Db)
    requires Inv(db) && InstallsCompaction(db, db')
    ensures Inv(db') && All(db'.version) <= All(db.version)
  {
    hide VersionInv, Chosen, Sorted, InputEntries, Kept, FileOk, Compacted, OutputsFit, OutputsOk, All, Produces, JobInv, Rest;
    var w :| InstallsWith(db, db', w);
    var level := db.job.value.level;
    InstallIsOk(db, db', w);
    CompactionKeepsInvariant(db.version, level, w.inputs0, w.inputs1, w.outputs, db'.version, db.next, db.next);
    OutputsStayEntries(db, db', w);
    FewerEntries(db, db');
  }

  lemma OutputsStayEntries(db: Db, db': Db, w: Work)
    requires Inv(db) && InstallsWith(db, db', w)
    ensures All(db'.version) <= All(db.version)
  {
    hide VersionInv, Inputs, Chosen, Sorted, InputEntries, Kept, FileOk, Compacted, OutputsFit, All, Unused, Grown, NewerLayer, Bounded;
    var job := db.job.value;
    CompactedEntries(db.version, job.level, w.inputs0, w.inputs1, w.outputs, db'.version);
    InputsAreEntries(db.version, job.level, w.inputs0, w.inputs1);
    KeptAreInputs(w.merged, job.oldest, job.base, job.level);
  }

  lemma FewerEntries(db: Db, db': Db)
    requires Inv(db) && db' == db.(version := db'.version, job := None)
    requires VersionInv(db'.version, db'.next) && All(db'.version) <= All(db.version)
    ensures Inv(db')
  {
    hide VersionInv, Sorted, All, JobInv;
    assert Entries(db') <= Entries(db);
  }

  lemma MoveKeepsInv(db: Db, db': Db)
    requires Inv(db) && MovesFile(db, db')
    ensures Inv(db') && Entries(db') == Entries(db)
  {
    hide VersionInv, Inputs, Sorted, All, Compacted, JobInv, OutputsOk, OutputsFit;
    var level: nat, inputs0 :|
      && |inputs0| == 1 && Inputs(db.version, level, inputs0, [])
      && Compacted(db.version, level, inputs0, [], inputs0, db'.version);
    MoveIsOk(db.version, level, inputs0, db.next);
    OutputsAreMade(db.version, inputs0, [], inputs0, db.next, db.next);
    SelectedFit(db.version, level, inputs0, [], inputs0);
    CompactionKeepsInvariant(db.version, level, inputs0, [], inputs0, db'.version, db.next, db.next);
    MoveKeepsEntries(db.version, level, inputs0, db'.version);
    FewerEntries(db, db');
  }

  // ---- What readers see ----

  ghost function Upper(db: Db): set<Entry> {
    Elements(db.mem) + ImmEntries(db)
  }

  // The compaction at work drops no deletion that still covers something.
  ghost predicate HarmlessJob(db: Db) {
    db.job.Some? ==>
      var job := db.job.value;
      forall merged :: Sorted(merged) && Elements(merged) == InputEntries(job.inputs0, job.inputs1) ==>
                         Harmless(job.base, job.level, merged, job.oldest, Upper(db) + Rest(db.version, job.inputs0, job.inputs1))
  }

  // Installing a compaction leaves every view from its smallest_snapshot on as it is if and only if the
  // compaction is harmless.
  lemma InstallKeepsViewsExactlyWhen(db: Db, db': Db)
    requires Inv(db) && InstallsCompaction(db, db')
    ensures SameViews(Entries(db), Entries(db'), db.job.value.oldest) <==> HarmlessJob(db)
  {
    hide VersionInv, Inputs, Chosen, All, Compacted, OutputsFit, OutputsOk, Read, InputEntries, Above, Harmless, JobInv, SameViews,
         Kept, Sorted;
    var w :| InstallsWith(db, db', w);
    var job := db.job.value;
    EntriesDistinct(db);
    InstallIsOk(db, db', w);
    CompactionKeepsViews(job.base, db.version, job.level, w.inputs0, w.inputs1, w.outputs, db'.version, w.merged, job.oldest, Upper(db));
    assert Entries(db) == Upper(db) + All(db.version) && Entries(db') == Upper(db) + All(db'.version);
    forall merged | Sorted(merged) && Elements(merged) == InputEntries(job.inputs0, job.inputs1)
      ensures merged == w.merged
    {
      SortedRunUnique(merged, w.merged);
    }
  }

  // A selection whose lower inputs do not end inside a user key, as AddBoundaryInputs would see.
  ghost predicate SafeSelection(db: Db) {
    db.job.Some? ==>
      var job := db.job.value;
      job.level + 1 < |job.base.files| && NoBoundaryBelow(job.base, job.level, job.inputs1)
  }

  lemma SafeSelectionIsHarmless(db: Db)
    requires Inv(db) && SafeSelection(db)
    ensures HarmlessJob(db)
  {
    hide VersionInv, Inputs, Chosen, All, Read, InputEntries, Above, Harmless, Sorted, NoBoundaryBelow, KeepsNewer, Grown;
    if db.job.Some? {
      var job := db.job.value;
      EntriesDistinct(db);
      NoBoundaryKeepsNewer(job.base, job.level, job.inputs0, job.inputs1);
      forall merged | Sorted(merged) && Elements(merged) == InputEntries(job.inputs0, job.inputs1)
        ensures Harmless(job.base, job.level, merged, job.oldest, Upper(db) + Rest(db.version, job.inputs0, job.inputs1))
      {
        NothingLeftBehind(job.base, db.version, job.level, job.inputs0, job.inputs1, merged, job.oldest, Upper(db));
      }
    }
  }

  // Entries that a reader cannot see yet make no difference to it.
  lemma UnseenMakesNoDifference(a: set<Entry>, b: set<Entry>, user: UserKey, snapshot: nat)
    requires DistinctKeys(a) && DistinctKeys(b)
    requires forall e: Entry :: e.key.sequence <= snapshot ==> (e in a <==> e in b)
    ensures Read(a, user, snapshot) == Read(b, user, snapshot)
  {
    if e :| e in a && Visible(e, user, snapshot) {
      var n := NewestExists(a, e, user, snapshot);
      ReadIsNewest(a, n, user, snapshot);
      ReadIsNewest(b, n, user, snapshot);
    }
  }

  // A reader that the compaction at work knows of.
  ghost predicate Protected(db: Db, snapshot: nat) {
    snapshot <= db.last && (db.job.Some? ==> db.job.value.oldest <= snapshot)
  }

  lemma StepKeepsView(db: Db, db': Db, user: UserKey, snapshot: nat)
    requires Inv(db) && Step(db, db') && Protected(db, snapshot)
    requires InstallsCompaction(db, db') ==> HarmlessJob(db)
    ensures Read(Entries(db), user, snapshot) == Read(Entries(db'), user, snapshot)
  {
    hide Inv, Read, Entries, HarmlessJob, Writes, SwitchesMemTable, FlushesMemTable, TakesSnapshot, ReleasesSnapshot,
         BeginsCompaction, OpensOutput, AbandonsCompaction, InstallsCompaction, MovesFile;
    if InstallsCompaction(db, db') {
      InstallKeepsViewsExactlyWhen(db, db');
      InstallHasJob(db, db');
    } else if Writes(db, db') {
      WriteIsUnseen(db, db', user, snapshot);
    } else if SwitchesMemTable(db, db') {
      SwitchKeepsInv(db, db');
    } else if FlushesMemTable(db, db') {
      FlushKeepsInv(db, db');
    } else if TakesSnapshot(db, db') || ReleasesSnapshot(db, db') {
      SnapshotsKeepInv(db, db');
    } else if MovesFile(db, db') {
      MoveKeepsInv(db, db');
    } else {
      JobKeepsInv(db, db');
    }
  }

  lemma InstallHasJob(db: Db, db': Db)
    requires InstallsCompaction(db, db')
    ensures db.job.Some?
  {
    hide Produces, Compacted, OutputsFit;
  }

  lemma WriteIsUnseen(db: Db, db': Db, user: UserKey, snapshot: nat)
    requires Inv(db) && Writes(db, db') && snapshot <= db.last
    ensures Read(Entries(db), user, snapshot) == Read(Entries(db'), user, snapshot)
  {
    hide VersionInv, All, JobInv, Read, Above;
    WriteKeepsInv(db, db');
    EntriesDistinct(db);
    EntriesDistinct(db');
    UnseenMakesNoDifference(Entries(db), Entries(db'), user, snapshot);
  }

  // ---- Runs ----

  ghost predicate IsRun(run: seq<Db>) {
    && run != [] && Inv(run[0])
    && forall i :: 0 <= i < |run| - 1 ==> Step(run[i], run[i + 1])
  }

  lemma {:induction false} RunKeepsInv(run: seq<Db>, i: nat)
    requires IsRun(run) && i < |run|
    ensures Inv(run[i])
  {
    hide Inv, Step;
    if i > 0 {
      RunKeepsInv(run, i - 1);
      StepKeepsInv(run[i - 1], run[i]);
    }
  }

  lemma StepRaisesLast(db: Db, db': Db)
    requires Step(db, db')
    ensures db.last <= db'.last
  {
    hide Flushed, Inputs, InstallsWith, Compacted, Sorted, Elements;
    if InstallsCompaction(db, db') {
      var w :| InstallsWith(db, db', w);
      InstallChanges(db, db', w);
    }
  }

  lemma InstallChanges(db: Db, db': Db, w: Work)
    requires InstallsWith(db, db', w)
    ensures db' == db.(version := db'.version, job := None)
  {
  }

  // The last sequence number never falls.
  lemma {:induction false} LastRises(run: seq<Db>, i: nat, j: nat)
    requires IsRun(run) && i <= j < |run|
    ensures run[i].last <= run[j].last
    decreases j - i
  {
    hide Inv, Step;
    if i < j {
      LastRises(run, i, j - 1);
      StepRaisesLast(run[j - 1], run[j]);
    }
  }

  ghost predicate HarmlessBetween(run: seq<Db>, i: nat, j: nat) {
    forall k :: i <= k < j < |run| && InstallsCompaction(run[k], run[k + 1]) ==> HarmlessJob(run[k])
  }

  // A reader at a sequence number that no compaction on the way looks past reads the same throughout.
  lemma {:induction false} ViewsAreStable(run: seq<Db>, i: nat, j: nat, user: UserKey, snapshot: nat)
    requires IsRun(run) && i <= j < |run| && HarmlessBetween(run, i, j)
    requires forall k :: i <= k < j ==> Protected(run[k], snapshot)
    ensures Read(Entries(run[i]), user, snapshot) == Read(Entries(run[j]), user, snapshot)
    decreases j - i
  {
    hide Inv, Step, Read, Entries, HarmlessJob, InstallsCompaction, Protected;
    if i < j {
      ViewsAreStable(run, i, j - 1, user, snapshot);
      RunKeepsInv(run, j - 1);
      StepKeepsView(run[j - 1], run[j], user, snapshot);
    }
  }

  // While a snapshot is live it reads what it read when it was taken: whatever is written, flushed and
  // compacted, however these are interleaved, as long as the compactions that are installed are harmless.
  lemma SnapshotIsolation(run: seq<Db>, i: nat, j: nat, user: UserKey, snapshot: nat)
    requires IsRun(run) && i <= j < |run| && HarmlessBetween(run, i, j)
    requires forall k :: i <= k <= j ==> snapshot in run[k].snapshots
    ensures Read(Entries(run[i]), user, snapshot) == Read(Entries(run[j]), user, snapshot)
  {
    hide Inv, Step, Read, Entries, HarmlessJob, InstallsCompaction, Protected;
    forall k | i <= k < j
      ensures Protected(run[k], snapshot)
    {
      RunKeepsInv(run, k);
      LiveIsProtected(run[k], snapshot);
    }
    ViewsAreStable(run, i, j, user, snapshot);
  }

  lemma LiveIsProtected(db: Db, snapshot: nat)
    requires Inv(db) && snapshot in db.snapshots
    ensures Protected(db, snapshot)
  {
    hide VersionInv, Sorted, NewerLayer, Bounded, Inputs, Chosen, Grown, Unused;
    var n :| 0 <= n < |db.snapshots| && db.snapshots[n] == snapshot;
  }

  // ---- The condition at the beginning of a compaction ----

  lemma StepKeepsSafety(db: Db, db': Db)
    requires Step(db, db') && SafeSelection(db) && (BeginsCompaction(db, db') ==> SafeSelection(db'))
    ensures SafeSelection(db')
  {
    hide Flushed, Inputs, InstallsWith, Compacted, Sorted, Elements, NoBoundaryBelow;
    if InstallsCompaction(db, db') {
      var w :| InstallsWith(db, db', w);
      InstallChanges(db, db', w);
    }
  }

  lemma {:induction false} SafeThroughout(run: seq<Db>, k: nat)
    requires IsRun(run) && k < |run| && SafeSelection(run[0])
    requires forall n :: 0 <= n < |run| - 1 && BeginsCompaction(run[n], run[n + 1]) ==> SafeSelection(run[n + 1])
    ensures SafeSelection(run[k])
    decreases k
  {
    hide Inv, Step, BeginsCompaction, SafeSelection;
    if k > 0 {
      SafeThroughout(run, k - 1);
      StepKeepsSafety(run[k - 1], run[k]);
    }
  }

  // Snapshots are isolated in every run whose compactions begin with a selection that AddBoundaryInputs
  // would leave alone on the lower level, too.
  lemma SafeRunsAreIsolated(run: seq<Db>, i: nat, j: nat, user: UserKey, snapshot: nat)
    requires IsRun(run) && i <= j < |run| && SafeSelection(run[0])
    requires forall n :: 0 <= n < |run| - 1 && BeginsCompaction(run[n], run[n + 1]) ==> SafeSelection(run[n + 1])
    requires forall k :: i <= k <= j ==> snapshot in run[k].snapshots
    ensures Read(Entries(run[i]), user, snapshot) == Read(Entries(run[j]), user, snapshot)
  {
    hide Inv, Step, Read, Entries, HarmlessJob, InstallsCompaction, BeginsCompaction, SafeSelection;
    forall k: nat | i <= k < j
      ensures HarmlessJob(run[k])
    {
      SafeThroughout(run, k);
      RunKeepsInv(run, k);
      SafeSelectionIsHarmless(run[k]);
    }
    SnapshotIsolation(run, i, j, user, snapshot);
  }
}
