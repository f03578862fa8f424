/** DBImpl::DoCompactionWork and the state of a Compaction. */
module Compactions {
  import opened Options
  import opened InternalKeys
  import opened MergingIterators
  import opened Versions
  import opened InputSelection
  import opened DropRules

  // ---- The merged input ----

  function Concat(fs: seq<File>): seq<Entry> {
    if fs == [] then [] else Concat(fs[..|fs| - 1]) + fs[|fs| - 1].entries
  }

  lemma {:induction false} InConcat(fs: seq<File>, e: Entry)
    ensures e in Concat(fs) <==> exists f :: f in fs && e in f.entries
  {
    if fs != [] {
      var n := |fs| - 1;
      assert fs == fs[..n] + [fs[n]];
      InConcat(fs[..n], e);
    }
  }

  lemma {:induction false} ConcatSorted(fs: seq<File>)
    requires DisjointFiles(fs) && forall f :: f in fs ==> FileOk(f)
    ensures Sorted(Concat(fs))
  {
    if fs != [] {
      var n := |fs| - 1;
      ConcatSorted(fs[..n]);
      var front := Concat(fs[..n]);
      var last := fs[n];
      assert FileOk(last) && last == fs[n];
      forall x, y | x in front && y in last.entries
        ensures x.key.Before(y.key)
      {
        EarlierFile(fs, n, x, y);
      }
      SortedJoin(front, last.entries);
    }
  }

  lemma EarlierFile(fs: seq<File>, n: nat, x: Entry, y: Entry)
    requires DisjointFiles(fs) && n < |fs| && forall f :: f in fs ==> FileOk(f)
    requires x in Concat(fs[..n]) && y in fs[n].entries
    ensures x.key.Before(y.key)
  {
    InConcat(fs[..n], x);
    var f :| f in fs[..n] && x in f.entries;
    var i :| 0 <= i < n && fs[..n][i] == f;
    FileSpan(fs[i], x);
    FileSpan(fs[n], y);
  }

  lemma SortedJoin(a: seq<Entry>, b: seq<Entry>)
    requires Sorted(a) && Sorted(b)
    requires forall x, y :: x in a && y in b ==> x.key.Before(y.key)
    ensures Sorted(a + b)
  {
  }

  // VersionSet::MakeInputIterator: level-0 files are merged, other levels concatenated.
  function InputRuns(level: nat, inputs0: seq<File>, inputs1: seq<File>): seq<seq<Entry>> {
    (if level == 0 then seq(|inputs0|, i requires 0 <= i < |inputs0| => inputs0[i].entries) else [Concat(inputs0)])
    + (if inputs1 == [] then [] else [Concat(inputs1)])
  }

  ghost predicate Inputs(v: Version, level: nat, inputs0: seq<File>, inputs1: seq<File>): (ok: bool)
    ensures ok ==> Chosen(v, level, inputs0, inputs1)
  {
    && VersionOk(v) && level + 1 < NUM_LEVELS
    && GoodInputs(v, level, inputs0, inputs1)
  }

  // Inputs that are still there. Files that a flush adds in the meantime may stand between them.
  ghost predicate Chosen(v: Version, level: nat, inputs0: seq<File>, inputs1: seq<File>) {
    && VersionOk(v) && level + 1 < NUM_LEVELS
    && (forall f :: f in inputs0 ==> f in v.files[level])
    && (forall f :: f in inputs1 ==> f in v.files[level + 1])
    && KeepsNewer(v.files[level], inputs0)
  }

  // The level and the file that an entry of a run comes from.
  lemma RunOrigin(v: Version, level: nat, inputs0: seq<File>, inputs1: seq<File>, c: nat, i: nat)
    returns (l: nat, f: File)
    requires Inputs(v, level, inputs0, inputs1)
    requires c < |InputRuns(level, inputs0, inputs1)| && i < |InputRuns(level, inputs0, inputs1)[c]|
    ensures InputRuns(level, inputs0, inputs1)[c][i] in f.entries
    ensures (l == level && f in inputs0) || (l == level + 1 && f in inputs1)
    ensures f in v.files[l]
    ensures l == level ==> if level == 0 then c < |inputs0| && f == inputs0[c] else c == 0
    ensures l == level + 1 ==> c == |InputRuns(level, inputs0, inputs1)| - 1
    ensures l == level ==> c < if level == 0 then |inputs0| else 1
    ensures l == level + 1 ==> c >= if level == 0 then |inputs0| else 1
  {
    var runs: seq<seq<Entry>> := InputRuns(level, inputs0, inputs1);
    var first := if level == 0 then |inputs0| else 1;
    if c < first {
      l := level;
      if level == 0 {
        f := inputs0[c];
      } else {
        InConcat(inputs0, runs[c][i]);
        f :| f in inputs0 && runs[c][i] in f.entries;
      }
    } else {
      l := level + 1;
      InConcat(inputs1, runs[c][i]);
      f :| f in inputs1 && runs[c][i] in f.entries;
    }
  }

  // Two files of a version share no internal key.
  lemma OneHome(v: Version, l: nat, f: File, a: Entry, m: nat, g: File, b: Entry)
    requires VersionOk(v) && l < NUM_LEVELS && m < NUM_LEVELS
    requires f in v.files[l] && a in f.entries && g in v.files[m] && b in g.entries && a.key == b.key
    ensures l == m && f == g && a == b
  {
    AcrossLevels(v, l, f, m, g);
    AcrossLevels(v, m, g, l, f);
    DistinctInLevel(v.files[l], f, g, a, b);
    var fs := v.files[l];
    var i :| 0 <= i < |fs| && fs[i] == f;
    var j :| 0 <= j < |fs| && fs[j] == g;
    FileSpan(f, a);
    FileSpan(g, b);
    SameNumberSameFile(fs, f, g);
    assert l == 0 && f.number > g.number ==> FileNewer(f, g);
    assert l == 0 && g.number > f.number ==> FileNewer(g, f);
  }

  lemma RunsAreDisjoint(v: Version, level: nat, inputs0: seq<File>, inputs1: seq<File>)
    requires Inputs(v, level, inputs0, inputs1)
    ensures Disjoint(InputRuns(level, inputs0, inputs1))
  {
    var runs: seq<seq<Entry>> := InputRuns(level, inputs0, inputs1);
    forall c: nat, d: nat, i: nat, j: nat | 0 <= c < |runs| && 0 <= d < |runs| && 0 <= i < |runs[c]| && 0 <= j < |runs[d]|
                        && runs[c][i].key == runs[d][j].key
      ensures c == d
    {
      var l, f := RunOrigin(v, level, inputs0, inputs1, c, i);
      var m, g := RunOrigin(v, level, inputs0, inputs1, d, j);
      OneHome(v, l, f, runs[c][i], m, g, runs[d][j]);
    }
  }

  lemma InputFiles(v: Version, level: nat, inputs0: seq<File>, inputs1: seq<File>)
    requires Inputs(v, level, inputs0, inputs1)
    ensures forall f :: f in inputs0 ==> f in v.files[level] && FileOk(f)
    ensures forall f :: f in inputs1 ==> f in v.files[level + 1] && FileOk(f)
    ensures DisjointFiles(inputs1) && UniqueNumbers(inputs1)
    ensures level > 0 ==> DisjointFiles(inputs0)
  {
    var s, l :| IsRange(inputs0, s, l) && inputs1 == Select(v.files[level + 1], UserRange(s, l));
    SelectShape(v.files[level + 1], UserRange(s, l));
  }

  lemma RunsAreSorted(v: Version, level: nat, inputs0: seq<File>, inputs1: seq<File>)
    requires Inputs(v, level, inputs0, inputs1)
    ensures forall c :: 0 <= c < |InputRuns(level, inputs0, inputs1)| ==> Sorted(InputRuns(level, inputs0, inputs1)[c])
  {
    hide VersionOk, GoodInputs;
    InputFiles(v, level, inputs0, inputs1);
    var runs: seq<seq<Entry>> := InputRuns(level, inputs0, inputs1);
    ConcatSorted(inputs1);
    if level > 0 {
      ConcatSorted(inputs0);
    } else {
      forall c | 0 <= c < |inputs0|
        ensures Sorted(runs[c])
      {
        assert FileOk(inputs0[c]);
      }
    }
  }

  lemma SelectShape(fs: seq<File>, r: Range)
    requires LevelOk(fs) && DisjointFiles(fs)
    ensures DisjointFiles(Select(fs, r)) && UniqueNumbers(Select(fs, r))
  {
    var a, b := SelectIsRun(fs, r, |fs|);
    assert fs[..|fs|] == fs;
    RunShape(fs, a, b);
  }

  ghost function InputEntries(inputs0: seq<File>, inputs1: seq<File>): set<Entry> {
    Contents(inputs0) + Contents(inputs1)
  }

  lemma RunsHoldInputs(v: Version, level: nat, inputs0: seq<File>, inputs1: seq<File>, merged: seq<Entry>)
    requires Inputs(v, level, inputs0, inputs1)
    requires IsMerge(merged, InputRuns(level, inputs0, inputs1))
    ensures Elements(merged) == InputEntries(inputs0, inputs1)
  {
    var runs: seq<seq<Entry>> := InputRuns(level, inputs0, inputs1);
    forall e
      ensures e in merged <==> e in InputEntries(inputs0, inputs1)
    {
      InContents(inputs0, e);
      InContents(inputs1, e);
      InConcat(inputs0, e);
      InConcat(inputs1, e);
      if e in merged {
        var c :| 0 <= c < |runs| && e in runs[c];
        var i := InMerged(runs[c], e);
        var l, f := RunOrigin(v, level, inputs0, inputs1, c, i);
      }
      if e in InputEntries(inputs0, inputs1) {
        EntryHasRun(level, inputs0, inputs1, e);
        var c :| 0 <= c < |runs| && e in runs[c];
        var i := InMerged(runs[c], e);
        assert runs[c][i] in merged;
      }
    }
    assert forall e :: e in Elements(merged) <==> e in merged;
  }

  lemma EntryHasRun(level: nat, inputs0: seq<File>, inputs1: seq<File>, e: Entry)
    requires e in InputEntries(inputs0, inputs1)
    ensures exists c :: 0 <= c < |InputRuns(level, inputs0, inputs1)| && e in InputRuns(level, inputs0, inputs1)[c]
  {
    var runs: seq<seq<Entry>> := InputRuns(level, inputs0, inputs1);
    InContents(inputs0, e);
    InContents(inputs1, e);
    InConcat(inputs0, e);
    InConcat(inputs1, e);
    if e in Contents(inputs0) {
      if level == 0 {
        var f :| f in inputs0 && e in f.entries;
        var c :| 0 <= c < |inputs0| && inputs0[c] == f;
        assert runs[c] == f.entries;
      } else {
        assert runs[0] == Concat(inputs0);
      }
    } else {
      assert runs[|runs| - 1] == Concat(inputs1);
    }
  }

  method MakeInputIterator(v: Version, level: nat, inputs0: seq<File>, inputs1: seq<File>) returns (input: MergingIterator)
    requires Inputs(v, level, inputs0, inputs1)
    ensures input.WellFormed() && fresh(input) && fresh(input.children)
    ensures Elements(input.merged) == InputEntries(inputs0, inputs1)
  {
    hide VersionOk, GoodInputs, Inputs, Chosen, InputRuns, InputEntries, Concat, Sorted, Disjoint, IsMerge, Elements, IsCut;
    var runs: seq<seq<Entry>> := InputRuns(level, inputs0, inputs1);
    RunsAreSorted(v, level, inputs0, inputs1);
    var children: seq<RunIterator> := [];
    for i := 0 to |runs|
      invariant |children| == i && fresh(children)
      invariant forall c :: 0 <= c < i ==> children[c].WellFormed() && children[c].entries == runs[c]
      invariant forall c, d :: 0 <= c < d < i ==> children[c] != children[d]
    {
      var child := new RunIterator(runs[i]);
      children := children + [child];
    }
    RunsAreDisjoint(v, level, inputs0, inputs1);
    assert runs == seq(|children|, c requires 0 <= c < |children| => children[c].entries);
    input := new MergingIterator(children);
    assert runs == input.Runs();
    RunsHoldInputs(v, level, inputs0, inputs1, input.merged);
  }

  // ---- The state of a compaction ----

  class Compaction {
    const version: Version
    const level: nat
    const grandparents: seq<File>
    const maxFileSize: nat
    const levelPtrs: array<nat>
    var grandparentIndex: nat
    var seenKey: bool
    var overlappedBytes: nat
    ghost var asked: Option<UserKey>    // the last key IsBaseLevelForKey was asked about

    // Files before a level pointer end before the last key asked about.
    ghost predicate PointerOk(l: nat)
      requires l < NUM_LEVELS == |version.files| == levelPtrs.Length
      reads `asked, levelPtrs
    {
      && levelPtrs[l] <= |version.files[l]|
      && forall i :: 0 <= i < levelPtrs[l] ==> asked.Some? && version.files[l][i].largest.user < asked.value
    }

    ghost predicate WellFormed()
      reads this, levelPtrs
    {
      && VersionOk(version) && level + 1 < NUM_LEVELS && levelPtrs.Length == NUM_LEVELS
      && grandparentIndex <= |grandparents|
      && forall l :: level + 2 <= l < NUM_LEVELS ==> PointerOk(l)
    }

    constructor (version: Version, level: nat, grandparents: seq<File>, maxFileSize: nat)
      requires VersionOk(version) && level + 1 < NUM_LEVELS
      ensures WellFormed() && asked == None && fresh(levelPtrs)
      ensures this.version == version && this.level == level && this.maxFileSize == maxFileSize
    {
      this.version, this.level, this.grandparents, this.maxFileSize := version, level, grandparents, maxFileSize;
      levelPtrs := new nat[NUM_LEVELS](i => 0);
      grandparentIndex, seenKey, overlappedBytes := 0, false, 0;
      asked := None;
    }

    // Asked about rising keys, the moving pointers give the stateless answer.
    method IsBaseLevelForKey(user: UserKey) returns (base: bool)
      requires WellFormed() && (asked.Some? ==> asked.value <= user)
      modifies this`asked, levelPtrs
      ensures WellFormed() && asked == Some(user)
      ensures base <==> BaseLevel(version, level, user)
    {
      asked := Some(user);
      forall l | level + 2 <= l < NUM_LEVELS
        ensures PointerOk(l)
      {
        assert old(PointerOk(l));
      }
      for l := level + 2 to NUM_LEVELS
        invariant WellFormed() && asked == Some(user)
        invariant forall m, f :: level + 2 <= m < l && f in version.files[m] ==> !CoversUser(f, user)
      {
        var files := version.files[l];
        while levelPtrs[l] < |files| && files[levelPtrs[l]].largest.user < user
          invariant WellFormed() && asked == Some(user)
          decreases |files| - levelPtrs[l]
        {
          assert PointerOk(l);
          label before:
          levelPtrs[l] := levelPtrs[l] + 1;
          forall m | level + 2 <= m < NUM_LEVELS
            ensures PointerOk(m)
          {
            assert old@before(PointerOk(m));
          }
        }
        assert PointerOk(l);
        if levelPtrs[l] < |files| && files[levelPtrs[l]].smallest.user <= user {
          assert files[levelPtrs[l]] in version.files[l] && CoversUser(files[levelPtrs[l]], user);
          return false;
        }
        NoneCovers(files, levelPtrs[l], user);
      }
      return true;
    }

    // Only decides where one output file ends and the next begins: when the grandparents passed since the
    // output was begun have too many bytes.
    method ShouldStopBefore(key: InternalKey) returns (stop: bool)
      requires WellFormed()
      modifies this`grandparentIndex, this`seenKey, this`overlappedBytes
      ensures WellFormed() && seenKey && old(grandparentIndex) <= grandparentIndex
      ensures forall i :: old(grandparentIndex) <= i < grandparentIndex ==> grandparents[i].largest.Before(key)
      ensures grandparentIndex < |grandparents| ==> !grandparents[grandparentIndex].largest.Before(key)
      ensures stop <==> old(overlappedBytes) + Passed(old(seenKey), old(grandparentIndex), grandparentIndex) > 10 * maxFileSize
      ensures overlappedBytes == if stop then 0 else old(overlappedBytes) + Passed(old(seenKey), old(grandparentIndex), grandparentIndex)
    {
      while grandparentIndex < |grandparents| && grandparents[grandparentIndex].largest.Before(key)
        invariant WellFormed() && old(grandparentIndex) <= grandparentIndex && seenKey == old(seenKey)
        invariant forall i :: old(grandparentIndex) <= i < grandparentIndex ==> grandparents[i].largest.Before(key)
        invariant overlappedBytes == old(overlappedBytes) + Passed(seenKey, old(grandparentIndex), grandparentIndex)
      {
        if seenKey {
          overlappedBytes := overlappedBytes + grandparents[grandparentIndex].size;
        }
        PassesOne(old(grandparentIndex), grandparentIndex);
        grandparentIndex := grandparentIndex + 1;
      }
      seenKey := true;
      if overlappedBytes > 10 * maxFileSize {
        overlappedBytes := 0;
        return true;
      }
      return false;
    }

    // The bytes of these grandparents; before the first key none count.
    function Passed(counting: bool, from: nat, to: nat): nat
      requires from <= to <= |grandparents|
    {
      if counting then TotalSize(grandparents[from..to]) else 0
    }

    lemma PassesOne(from: nat, to: nat)
      requires from <= to < |grandparents|
      ensures Passed(true, from, to + 1) == Passed(true, from, to) + grandparents[to].size
    {
      assert grandparents[from..to + 1] == grandparents[from..to] + [grandparents[to]];
      TotalSizeGrows(grandparents[from..to], grandparents[to]);
    }
  }

  lemma NoneCovers(files: seq<File>, p: nat, user: UserKey)
    requires LevelOk(files) && DisjointFiles(files) && p <= |files|
    requires forall i :: 0 <= i < p ==> files[i].largest.user < user
    requires p < |files| ==> user < files[p].smallest.user
    ensures forall f :: f in files ==> !CoversUser(f, user)
  {
    forall i | 0 <= i < |files|
      ensures !CoversUser(files[i], user)
    {
      if p <= i {
        RunSpan(files, p, i);
      }
    }
  }

  // ---- The output files ----

  datatype Building = Building(number: nat, smallest: InternalKey, largest: InternalKey, entries: seq<Entry>)

  class CompactionState {
    const firstNumber: nat
    const sizeOf: seq<Entry> -> nat     // TableBuilder::FileSize
    var outputs: seq<File>              // the finished outputs
    var building: Option<Building>      // the current output, while a builder is open
    var nextNumber: nat                 // next_file_number_

    ghost predicate WellFormed()
      reads this
    {
      && nextNumber == firstNumber + |outputs| + (if building.Some? then 1 else 0)
      && (forall i :: 0 <= i < |outputs| ==> outputs[i].number == firstNumber + i && Bounded(outputs[i]))
      && (building.Some? ==> building.value.number == firstNumber + |outputs|)
      && (building.Some? ==> Bounded(Finished(building.value)))
    }

    ghost predicate Bounded(f: File) {
      f.entries != [] && f.smallest == f.entries[0].key && f.largest == f.entries[|f.entries| - 1].key
    }

    function Finished(b: Building): File {
      File(b.number, sizeOf(b.entries), b.smallest, b.largest, b.entries)
    }

    // Everything added so far, in order.
    ghost function Added(): seq<Entry>
      reads this
    {
      Concat(outputs) + if building.Some? then building.value.entries else []
    }

    constructor (firstNumber: nat, sizeOf: seq<Entry> -> nat)
      ensures WellFormed() && Added() == [] && outputs == [] && building == None
      ensures this.firstNumber == firstNumber
    {
      this.firstNumber, this.sizeOf := firstNumber, sizeOf;
      outputs, building, nextNumber := [], None, firstNumber;
    }

    method FinishCompactionOutputFile()
      requires WellFormed() && building.Some?
      modifies this
      ensures WellFormed() && building == None && Added() == old(Added())
      ensures outputs == old(outputs) + [Finished(old(building).value)]
    {
      ghost var longer := outputs + [Finished(building.value)];
      assert longer[..|longer| - 1] == outputs;
      outputs := outputs + [Finished(building.value)];
      building := None;
    }

    // After the loop: the last output file is finished if it was opened.
    method Close()
      requires WellFormed()
      modifies this
      ensures WellFormed() && building == None && Concat(outputs) == old(Added())
    {
      if building.Some? {
        FinishCompactionOutputFile();
      }
      assert Concat(outputs) + [] == Concat(outputs);
    }

    // OpenCompactionOutputFile if there is no open output, then TableBuilder::Add.
    method Add(e: Entry)
      requires WellFormed()
      modifies this
      ensures WellFormed() && building.Some? && Added() == old(Added()) + [e]
    {
      if building == None {
        building := Some(Building(nextNumber, e.key, e.key, [e]));
        nextNumber := nextNumber + 1;
      } else {
        var b := building.value;
        building := Some(Building(b.number, b.smallest, e.key, b.entries + [e]));
      }
    }
  }

  // ---- The compaction loop ----

  // The variables the loop carries from entry to entry, after the first n entries.
  ghost predicate Remembers(es: seq<Entry>, n: nat, currentUserKey: Option<UserKey>, lastSequence: nat)
    requires n <= |es|
  {
    if n == 0 then currentUserKey == None
    else currentUserKey == Some(es[n - 1].key.user) && lastSequence == es[n - 1].key.sequence
  }

  // last_sequence_for_key stands for all newer entries of the key.
  lemma LastSequenceDecides(es: seq<Entry>, n: nat, currentUserKey: Option<UserKey>, lastSequence: nat, oldest: nat)
    requires Sorted(es) && n < |es| && Remembers(es, n, currentUserKey, lastSequence)
    ensures Shadowed(es, n, oldest) <==> currentUserKey == Some(es[n].key.user) && lastSequence <= oldest
  {
    if currentUserKey == Some(es[n].key.user) && lastSequence <= oldest {
      assert es[n - 1].key.user == es[n].key.user && es[n - 1].key.sequence <= oldest;
    }
  }

  // The part of the loop that decides whether an entry is dropped.
  method DecideDrop(compaction: Compaction, ghost es: seq<Entry>, ghost n: nat, entry: Entry,
                    userKey: Option<UserKey>, lastSequence: nat, smallestSnapshot: nat)
    returns (drop: bool, currentUserKey: Option<UserKey>, lastSequenceForKey: nat)
    requires compaction.WellFormed() && smallestSnapshot < MAX_SEQUENCE
    requires Sorted(es) && n < |es| && entry == es[n] && Remembers(es, n, userKey, lastSequence)
    requires compaction.asked.Some? ==> compaction.asked.value <= entry.key.user
    modifies compaction, compaction.levelPtrs
    ensures compaction.WellFormed()
    ensures compaction.asked.Some? ==> compaction.asked.value <= entry.key.user
    ensures Remembers(es, n + 1, currentUserKey, lastSequenceForKey)
    ensures drop <==> Dropped(es, n, smallestSnapshot, compaction.version, compaction.level)
  {
    currentUserKey, lastSequenceForKey := userKey, lastSequence;
    LastSequenceDecides(es, n, currentUserKey, lastSequenceForKey, smallestSnapshot);
    drop := false;
    if currentUserKey != Some(entry.key.user) {
      currentUserKey := Some(entry.key.user);
      lastSequenceForKey := MAX_SEQUENCE;
    }
    if lastSequenceForKey <= smallestSnapshot {
      drop := true;
    } else if entry.key.kind == Deletion && entry.key.sequence <= smallestSnapshot {
      drop := compaction.IsBaseLevelForKey(entry.key.user);
    }
    lastSequenceForKey := entry.key.sequence;
  }

  lemma KeptStep(es: seq<Entry>, n: nat, oldest: nat, v: Version, level: nat)
    requires n < |es|
    ensures Kept(es, n + 1, oldest, v, level) ==
            Kept(es, n, oldest, v, level) + if Dropped(es, n, oldest, v, level) then [] else [es[n]]
    ensures Kept(es, 0, oldest, v, level) == []
  {
  }

  lemma UsersRise(es: seq<Entry>, n: nat)
    requires Sorted(es)
    ensures n + 1 < |es| ==> es[n].key.user <= es[n + 1].key.user
  {
  }

  // One pass of the loop: the entry is dropped, or goes to the current output file.
  method ProcessEntry(compaction: Compaction, state: CompactionState, ghost es: seq<Entry>, ghost n: nat, entry: Entry,
                      userKey: Option<UserKey>, lastSequence: nat, smallestSnapshot: nat)
    returns (currentUserKey: Option<UserKey>, lastSequenceForKey: nat)
    requires compaction.WellFormed() && state.WellFormed() && smallestSnapshot < MAX_SEQUENCE
    requires Sorted(es) && n < |es| && entry == es[n] && Remembers(es, n, userKey, lastSequence)
    requires compaction.asked.Some? ==> compaction.asked.value <= entry.key.user
    requires state.Added() == Kept(es, n, smallestSnapshot, compaction.version, compaction.level)
    modifies compaction, compaction.levelPtrs, state
    ensures compaction.WellFormed() && state.WellFormed()
    ensures compaction.asked.Some? ==> compaction.asked.value <= entry.key.user
    ensures Remembers(es, n + 1, currentUserKey, lastSequenceForKey)
    ensures state.Added() == Kept(es, n + 1, smallestSnapshot, compaction.version, compaction.level)
  {
    hide VersionOk, Shadowed, Dropped, Kept, Sorted, Concat, Remembers;
    var stop := compaction.ShouldStopBefore(entry.key);
    if stop && state.building.Some? {
      state.FinishCompactionOutputFile();
    }
    var drop;
    drop, currentUserKey, lastSequenceForKey :=
      DecideDrop(compaction, es, n, entry, userKey, lastSequence, smallestSnapshot);
    KeptStep(es, n, smallestSnapshot, compaction.version, compaction.level);
    if !drop {
      state.Add(entry);
      if state.sizeOf(state.building.value.entries) >= compaction.maxFileSize {
        state.FinishCompactionOutputFile();
      }
    }
  }

  lemma NothingYet(es: seq<Entry>, oldest: nat, v: Version, level: nat, lastSequence: nat)
    ensures Remembers(es, 0, None, lastSequence) && Kept(es, 0, oldest, v, level) == []
  {
  }

  // The loop over the merged input.
  method AddAll(compaction: Compaction, input: MergingIterator, state: CompactionState, smallestSnapshot: nat)
    requires compaction.WellFormed() && compaction.asked == None && smallestSnapshot < MAX_SEQUENCE
    requires input.WellFormed() && input.at == 0 && state.WellFormed() && state.Added() == []
    modifies compaction, compaction.levelPtrs, state, input, input.children
    ensures state.WellFormed()
    ensures state.Added() == Kept(input.merged, |input.merged|, smallestSnapshot, compaction.version, compaction.level)
  {
    hide IsMerge, Disjoint, IsCut, VersionOk, Shadowed, Dropped, Kept, Sorted, Concat, Remembers;
    ghost var merged := input.merged;
    var currentUserKey: Option<UserKey> := None;
    var lastSequenceForKey: nat := MAX_SEQUENCE;
    NothingYet(merged, smallestSnapshot, compaction.version, compaction.level, lastSequenceForKey);
    while input.Valid()
      invariant input.WellFormed() && state.WellFormed() && compaction.WellFormed()
      invariant Remembers(merged, input.at, currentUserKey, lastSequenceForKey)
      invariant input.at < |merged| && compaction.asked.Some? ==> compaction.asked.value <= merged[input.at].key.user
      invariant state.Added() == Kept(merged, input.at, smallestSnapshot, compaction.version, compaction.level)
      decreases |merged| - input.at
    {
      currentUserKey, lastSequenceForKey := ProcessEntry(compaction, state, merged, input.at, input.Current(),
                                                         currentUserKey, lastSequenceForKey, smallestSnapshot);
      UsersRise(merged, input.at);
      input.Next();
    }
  }

  // DoCompactionWork: the entries kept, cut into output files.
  method DoCompactionWork(compaction: Compaction, inputs0: seq<File>, inputs1: seq<File>, smallestSnapshot: nat,
                          nextFileNumber: nat, sizeOf: seq<Entry> -> nat)
    returns (outputs: seq<File>, ghost merged: seq<Entry>)
    requires compaction.WellFormed() && compaction.asked == None
    requires Inputs(compaction.version, compaction.level, inputs0, inputs1)
    requires smallestSnapshot < MAX_SEQUENCE
    modifies compaction, compaction.levelPtrs
    ensures Sorted(merged) && Elements(merged) == InputEntries(inputs0, inputs1)
    ensures Concat(outputs) == Kept(merged, |merged|, smallestSnapshot, compaction.version, compaction.level)
    ensures forall i :: 0 <= i < |outputs| ==> outputs[i].number == nextFileNumber + i
    ensures DisjointFiles(outputs) && forall f :: f in outputs ==> FileOk(f)
  {
    hide IsMerge, Disjoint, IsCut, VersionOk, Inputs, Shadowed, Dropped, Kept, Sorted, Concat, Remembers;
    var input := MakeInputIterator(compaction.version, compaction.level, inputs0, inputs1);
    merged := input.merged;
    input.SeekToFirst();
    var state := new CompactionState(nextFileNumber, sizeOf);
    AddAll(compaction, input, state, smallestSnapshot);
    state.Close();
    outputs := state.outputs;
    KeptSorted(merged, |merged|, smallestSnapshot, compaction.version, compaction.level);
    PiecesInOrder(outputs);
  }

  lemma SortedParts(a: seq<Entry>, b: seq<Entry>)
    requires Sorted(a + b)
    ensures Sorted(a) && Sorted(b)
    ensures forall i, j :: 0 <= i < |a| && 0 <= j < |b| ==> a[i].key.Before(b[j].key)
  {
    forall i, j | 0 <= i < j < |a|
      ensures a[i].key.Before(a[j].key)
    {
      assert (a + b)[i].key.Before((a + b)[j].key);
    }
    forall i, j | 0 <= i < j < |b|
      ensures b[i].key.Before(b[j].key)
    {
      assert (a + b)[|a| + i].key.Before((a + b)[|a| + j].key);
    }
    forall i, j | 0 <= i < |a| && 0 <= j < |b|
      ensures a[i].key.Before(b[j].key)
    {
      assert (a + b)[i].key.Before((a + b)[|a| + j].key);
    }
  }

  // Pieces of a sorted run are well-formed, disjoint files.
  lemma {:induction false} PiecesInOrder(fs: seq<File>)
    requires Sorted(Concat(fs))
    requires forall i :: 0 <= i < |fs| ==>
               fs[i].entries != [] && fs[i].smallest == fs[i].entries[0].key && fs[i].largest == fs[i].entries[|fs[i].entries| - 1].key
    ensures DisjointFiles(fs) && forall f :: f in fs ==> FileOk(f)
  {
    if fs != [] {
      var n := |fs| - 1;
      var front, last := Concat(fs[..n]), fs[n].entries;
      SortedParts(front, last);
      PiecesInOrder(fs[..n]);
      forall i | 0 <= i < n
        ensures fs[i].largest.Before(fs[n].smallest)
      {
        assert fs[i] in fs[..n];
        InConcat(fs[..n], fs[i].entries[|fs[i].entries| - 1]);
      }
    }
  }
}
