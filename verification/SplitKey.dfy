/** A compaction that brings a deleted value back.

    SetupOtherInputs extends only the upper level with boundary files. When the files selected on the
    lower level end in the middle of a user key, a deletion marker can be dropped while the value it
    hides stays behind in the next file. This is the state that shows it. */
module SplitKey {
  import opened Options
  import opened InternalKeys
  import opened MergingIterators
  import opened Versions
  import opened InputSelection
  import opened VersionBuilder
  import opened DropRules
  import opened Compactions
  import opened CompactionResults
  import opened DatabaseRuns

  // Level 1 holds Top; level 2 holds First, which ends with a deletion of key 2, and Second, which
  // starts with an older value of key 2. Compacting Top takes in First, but not Second.
  const NEW: Entry := Entry(InternalKey(1.0, 9, Put), "new")
  const OLD: Entry := Entry(InternalKey(1.0, 5, Put), "old")
  const MARKER: Entry := Entry(InternalKey(2.0, 7, Deletion), "")
  const VALUE: Entry := Entry(InternalKey(2.0, 3, Put), "deleted")

  const TOP: File := File(3, 1, NEW.key, NEW.key, [NEW])
  const FIRST: File := File(2, 1, OLD.key, MARKER.key, [OLD, MARKER])
  const SECOND: File := File(1, 1, VALUE.key, VALUE.key, [VALUE])
  const BEFORE: Version := Version([[], [TOP], [FIRST, SECOND], [], [], [], []])

  const MERGED: seq<Entry> := [NEW, OLD, MARKER]

  lemma FilesAreOk()
    ensures FileOk(TOP) && FileOk(FIRST) && FileOk(SECOND)
  {
    assert OLD.key.Before(MARKER.key);
  }

  lemma Where(l: nat, f: File)
    requires l < NUM_LEVELS
    ensures f in BEFORE.files[l] <==> (l == 1 && f == TOP) || (l == 2 && (f == FIRST || f == SECOND))
  {
  }

  lemma LevelsAreOk(l: nat)
    requires l < NUM_LEVELS
    ensures LevelOk(BEFORE.files[l]) && SortedFiles(BEFORE.files[l]) && DisjointFiles(BEFORE.files[l])
  {
    FilesAreOk();
    forall f | f in BEFORE.files[l]
      ensures FileOk(f)
    {
      Where(l, f);
    }
  }

  lemma StateIsOk()
    ensures VersionInv(BEFORE, 4)
  {
    hide LevelOk, SortedFiles, DisjointFiles, FileOk;
    forall l | 0 <= l < NUM_LEVELS
      ensures LevelOk(BEFORE.files[l]) && SortedFiles(BEFORE.files[l]) && DisjointFiles(BEFORE.files[l])
    {
      LevelsAreOk(l);
    }
    forall l, f | 0 <= l < NUM_LEVELS && f in BEFORE.files[l]
      ensures f.number < 4 && l != 0
    {
      Where(l, f);
    }
    forall l, m, f, g | 0 <= l < m < NUM_LEVELS && f in BEFORE.files[l] && g in BEFORE.files[m]
      ensures f.number != g.number && FileNewer(f, g)
    {
      Where(l, f);
      Where(m, g);
    }
  }

  lemma LowerSelection()
    ensures Select(BEFORE.files[2], UserRange(NEW.key, NEW.key)) == [FIRST]
  {
    var r := UserRange(NEW.key, NEW.key);
    var fs := BEFORE.files[2];
    assert fs[..0] == [] && fs[..1] == [FIRST] && fs[..2] == fs;
    SelectStep(fs, r, 1);
    SelectStep(fs, r, 2);
    assert Overlaps(FIRST, r) && !Overlaps(SECOND, r);
  }

  lemma UpperRange()
    ensures IsRange([TOP], NEW.key, NEW.key) && KeepsNewer(BEFORE.files[1], [TOP])
  {
    assert TOP in [TOP];
  }

  lemma SelectionIsGood()
    ensures Inputs(BEFORE, 1, [TOP], [FIRST])
  {
    hide VersionInv, Select, IsRange, KeepsNewer;
    StateIsOk();
    assert VersionOk(BEFORE) by {
      InvIsOk(BEFORE, 4);
    }
    FilesAreOk();
    UpperRange();
    LowerSelection();
  }

  // SetupOtherInputs has no other choice here.
  lemma OnlySelection(inputs0: seq<File>, inputs1: seq<File>)
    requires GoodInputs(BEFORE, 1, inputs0, inputs1) && TOP in inputs0
    ensures inputs0 == [TOP] && inputs1 == [FIRST]
  {
    hide KeepsNewer, Select;
    forall i | 0 <= i < |inputs0|
      ensures inputs0[i] == TOP
    {
      Where(1, inputs0[i]);
    }
    assert |inputs0| > 1 ==> inputs0[0].number != inputs0[1].number;
    LowerSelection();
    var s, l :| IsRange(inputs0, s, l) && inputs1 == Select(BEFORE.files[2], UserRange(s, l));
  }

  method Selects(maxFileSize: nat) returns (inputs0: seq<File>, inputs1: seq<File>)
    ensures inputs0 == [TOP] && inputs1 == [FIRST]
  {
    hide VersionOk, GoodInputs;
    StateIsOk();
    InvIsOk(BEFORE, 4);
    assert BEFORE.files[1][0..1] == [TOP];
    SliceIsRun(BEFORE.files[1], 0, 1);
    var grandparents, pointer;
    inputs0, inputs1, grandparents, pointer := SetupOtherInputs(BEFORE, 1, [TOP], maxFileSize);
    OnlySelection(inputs0, inputs1);
  }

  lemma InvIsOk(v: Version, next: nat)
    requires VersionInv(v, next)
    ensures VersionOk(v)
  {
    hide VersionOk;
  }

  lemma InputsAreMerged()
    ensures Sorted(MERGED) && Elements(MERGED) == InputEntries([TOP], [FIRST])
  {
    forall e
      ensures e in InputEntries([TOP], [FIRST]) <==> e in [NEW] || e in [OLD, MARKER]
    {
      InContents([TOP], e);
      InContents([FIRST], e);
      assert TOP in [TOP] && FIRST in [FIRST];
    }
    assert forall e :: e in Elements(MERGED) <==> e in MERGED;
  }

  lemma MarkerUncovers()
    ensures Uncovers(MERGED, 2, 20, BEFORE, 1, Rest(BEFORE, [TOP], [FIRST]), VALUE)
  {
    SelectionIsGood();
    assert SECOND in BEFORE.files[2] && VALUE in SECOND.entries;
    UnselectedIsRest(BEFORE, 1, [TOP], [FIRST], 2, SECOND, VALUE);
    forall e | e in Rest(BEFORE, [TOP], [FIRST])
      ensures e == VALUE
    {
      var l, g := RestHome(BEFORE, 1, [TOP], [FIRST], e);
      Where(l, g);
    }
  }

  // Whatever outputs DoCompactionWork makes of these inputs, the deleted value can be read again.
  lemma CompactionBringsValueBack(outputs: seq<File>, after: Version)
    requires Compacted(BEFORE, 1, [TOP], [FIRST], outputs, after)
    requires Concat(outputs) == Kept(MERGED, |MERGED|, 20, BEFORE, 1)
    ensures VersionInv(BEFORE, 4) && Inputs(BEFORE, 1, [TOP], [FIRST])
    ensures Sorted(MERGED) && Elements(MERGED) == InputEntries([TOP], [FIRST])
    ensures Read(All(BEFORE), 2.0, 20) == None
    ensures Read(All(after), 2.0, 20) == Some("deleted")
  {
    hide VersionOk, Compacted, InputEntries, Read, Kept;
    StateIsOk();
    SelectionIsGood();
    InputsAreMerged();
    MarkerUncovers();
    InputsAreEntries(BEFORE, 1, [TOP], [FIRST]);
    CompactedEntries(BEFORE, 1, [TOP], [FIRST], outputs, after);
    VersionDistinct(BEFORE);
    UncoveredIsRead(MERGED, 20, BEFORE, 1, Rest(BEFORE, [TOP], [FIRST]), 2, VALUE);
  }

  // ---- The same as a run of the store ----

  const OUTPUT: File := File(4, 1, NEW.key, NEW.key, [NEW])
  const AFTER: Version := Version([[], [], [OUTPUT, SECOND], [], [], [], []])
  const JOB: Job := Job(BEFORE, 1, [TOP], [FIRST], 20, {4})
  const WORK: Work := Work([TOP], [FIRST], [OUTPUT], MERGED)

  // Nothing in the memtables, and one live snapshot.
  const IDLE: Db := Db([], None, BEFORE, 4, 20, [20], None)
  const BEGUN: Db := IDLE.(job := Some(JOB.(numbers := {})))
  const OPENED: Db := IDLE.(next := 5, job := Some(JOB))
  const INSTALLED: Db := IDLE.(version := AFTER, next := 5)

  lemma IdleIsGood()
    ensures Inv(IDLE) && Entries(IDLE) == All(BEFORE)
  {
    hide VersionInv, All;
    StateIsOk();
    EmptyRun();
    forall e | e in All(BEFORE)
      ensures e.key.sequence <= 20
    {
      var l, f := Home(BEFORE, e);
      Where(l, f);
    }
  }

  lemma WhatIsKept()
    ensures Kept(MERGED, 3, 20, BEFORE, 1) == [NEW]
  {
    assert !Dropped(MERGED, 0, 20, BEFORE, 1);
    assert MERGED[0].key.user == MERGED[1].key.user && MERGED[0].key.sequence <= 20;
    assert Shadowed(MERGED, 1, 20);
    assert BaseLevel(BEFORE, 1, MERGED[2].key.user);
    assert Obsolete(MERGED, 2, 20, BEFORE, 1);
    assert Kept(MERGED, 1, 20, BEFORE, 1) == [NEW];
    assert Kept(MERGED, 2, 20, BEFORE, 1) == [NEW];
  }

  lemma WorkIsDone()
    ensures Worked(BEFORE, 1, WORK, 20) && Produces(JOB, WORK)
  {
    hide Kept, InputEntries;
    WhatIsKept();
    InputsAreMerged();
    assert [OUTPUT][..0] == [];
    assert Concat([OUTPUT]) == [NEW];
  }

  lemma AfterIsCompacted()
    ensures Compacted(BEFORE, 1, [TOP], [FIRST], [OUTPUT], AFTER) && OutputsFit(BEFORE, 1, [FIRST], [OUTPUT])
  {
    assert SortedFiles(AFTER.files[2]);
    forall l | 0 <= l < NUM_LEVELS
      ensures SortedFiles(AFTER.files[l])
      ensures Members(AFTER.files[l]) == CompactionResults.FilesAfter(BEFORE, 1, [TOP], [FIRST], [OUTPUT], l)
    {
    }
  }

  // A snapshot that is live throughout reads a deleted key as deleted, and after the compaction its value.
  lemma IsolationCanFail()
    ensures DatabaseRuns.IsRun([IDLE, BEGUN, OPENED, INSTALLED])
    ensures forall k :: 0 <= k < 4 ==> 20 in [IDLE, BEGUN, OPENED, INSTALLED][k].snapshots
    ensures Read(Entries(IDLE), 2.0, 20) == None && Read(Entries(INSTALLED), 2.0, 20) == Some("deleted")
    ensures !HarmlessJob(OPENED) && !SafeSelection(OPENED)
  {
    hide Inv, Inputs, Worked, Compacted, OutputsFit, Produces, Read, All, HarmlessJob, SafeSelection, DatabaseRuns.Step, Kept, Sorted,
         InputEntries;
    var run := [IDLE, BEGUN, OPENED, INSTALLED];
    IdleIsGood();
    SelectionIsGood();
    WorkIsDone();
    AfterIsCompacted();
    BeginIs();
    InstallIs();
    assert DatabaseRuns.IsRun(run);
    RunKeepsInv(run, 2);
    assert OPENED == run[2];
    ReadsDiffer();
    InstallKeepsViewsExactlyWhen(OPENED, INSTALLED);
    assert !SameViews(Entries(OPENED), Entries(INSTALLED), 20);
    if SafeSelection(OPENED) {
      SafeSelectionIsHarmless(OPENED);
    }
  }

  lemma BeginIs()
    requires Inputs(BEFORE, 1, [TOP], [FIRST])
    ensures DatabaseRuns.Step(IDLE, BEGUN) && DatabaseRuns.Step(BEGUN, OPENED)
  {
    hide Inputs;
    assert BeginsCompaction(IDLE, BEGUN);
    assert BEGUN.job.value.numbers + {BEGUN.next} == JOB.numbers;
    assert OpensOutput(BEGUN, OPENED);
  }

  lemma InstallIs()
    requires Produces(JOB, WORK) && Compacted(BEFORE, 1, [TOP], [FIRST], [OUTPUT], AFTER) && OutputsFit(BEFORE, 1, [FIRST], [OUTPUT])
    ensures InstallsCompaction(OPENED, INSTALLED) && DatabaseRuns.Step(OPENED, INSTALLED)
  {
    hide Produces, Compacted, OutputsFit;
    assert InstallsWith(OPENED, INSTALLED, WORK);
  }

  lemma ReadsDiffer()
    ensures Read(Entries(IDLE), 2.0, 20) == None && Entries(OPENED) == Entries(IDLE)
    ensures Read(Entries(INSTALLED), 2.0, 20) == Some("deleted")
  {
    hide All, Compacted, Worked, Kept, Read, Sorted, InputEntries;
    AfterIsCompacted();
    WorkIsDone();
    EmptyRun();
    KeptOfWork();
    CompactionBringsValueBack([OUTPUT], AFTER);
    assert Entries(IDLE) == All(BEFORE) && Entries(INSTALLED) == All(AFTER);
  }

  lemma KeptOfWork()
    ensures Concat([OUTPUT]) == Kept(MERGED, |MERGED|, 20, BEFORE, 1)
  {
    hide Kept;
    WhatIsKept();
    assert [OUTPUT][..0] == [];
  }
}
