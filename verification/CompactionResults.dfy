/** Installing a compaction: what holds of the version it leads to, and what readers see in it. */
module CompactionResults {
  import opened Options
  import opened InternalKeys
  import opened MergingIterators
  import opened Versions
  import opened InputSelection
  import opened VersionBuilder
  import opened DropRules
  import opened Compactions

  // ---- The invariant of versions ----

  // Files of different levels never share a number.
  ghost predicate NumbersApart(v: Version) {
    forall l, m, f, g :: 0 <= l < m < |v.files| && f in v.files[l] && g in v.files[m] ==> f.number != g.number
  }

  ghost predicate NumbersBelow(v: Version, next: nat) {
    forall l, f :: 0 <= l < |v.files| && f in v.files[l] ==> f.number < next
  }

  ghost predicate VersionInv(v: Version, next: nat) {
    VersionOk(v) && Ordered(v) && NumbersApart(v) && NumbersBelow(v, next)
  }

  // ---- The files after a compaction ----

  // inputs0 leave `level`, inputs1 leave the level below, the outputs join the level below.
  ghost function FilesAfter(v: Version, level: nat, inputs0: seq<File>, inputs1: seq<File>, outputs: seq<File>, l: nat): set<File>
    requires l < |v.files|
  {
    if l == level then Members(v.files[l]) - Members(inputs0)
    else if l == level + 1 then Members(v.files[l]) - Members(inputs1) + Members(outputs)
    else Members(v.files[l])
  }

  ghost predicate Compacted(v: Version, level: nat, inputs0: seq<File>, inputs1: seq<File>, outputs: seq<File>, after: Version) {
    && |v.files| == NUM_LEVELS && Ordered(after)
    && forall l :: 0 <= l < NUM_LEVELS ==> Members(after.files[l]) == FilesAfter(v, level, inputs0, inputs1, outputs, l)
  }

  ghost predicate Unused(v: Version, number: nat) {
    forall l, f :: 0 <= l < |v.files| && f in v.files[l] ==> f.number != number
  }

  // Sorted, disjoint files made of input entries; each bears a new number, or is an input that moves.
  ghost predicate OutputsOk(v: Version, inputs0: seq<File>, inputs1: seq<File>, outputs: seq<File>, next: nat, next': nat) {
    && DisjointFiles(outputs) && UniqueNumbers(outputs) && next <= next'
    && (forall f :: f in outputs ==> FileOk(f) && f.number < next' && (Unused(v, f.number) || f in inputs0))
    && forall f, e :: f in outputs && e in f.entries ==> e in InputEntries(inputs0, inputs1)
  }

  // ---- From members to sorted levels ----

  lemma UniqueFromMembers(fs: seq<File>)
    requires SortedFiles(fs)
    requires forall f, g :: f in fs && g in fs && f.number == g.number ==> f == g
    ensures UniqueNumbers(fs)
  {
    forall i, j | 0 <= i < j < |fs|
      ensures fs[i].number != fs[j].number
    {
      assert fs[i] in fs && fs[j] in fs;
      assert Precedes(fs[i], fs[j]);
    }
  }

  ghost predicate Apart(f: File, g: File) {
    f.largest.Before(g.smallest) || g.largest.Before(f.smallest)
  }

  lemma DisjointFromMembers(fs: seq<File>)
    requires SortedFiles(fs) && forall f :: f in fs ==> FileOk(f)
    requires forall f, g :: f in fs && g in fs && f != g ==> Apart(f, g)
    ensures DisjointFiles(fs)
  {
    forall i, j | 0 <= i < j < |fs|
      ensures fs[i].largest.Before(fs[j].smallest)
    {
      var f, g := fs[i], fs[j];
      assert f in fs && g in fs && Precedes(f, g);
      FileSpan(f, f.entries[0]);
      FileSpan(g, g.entries[0]);
    }
  }

  lemma ApartInLevel(fs: seq<File>, f: File, g: File)
    requires DisjointFiles(fs) && f in fs && g in fs && f != g
    ensures Apart(f, g)
  {
    var i :| 0 <= i < |fs| && fs[i] == f;
    var j :| 0 <= j < |fs| && fs[j] == g;
  }

  // ---- Files that stay against files that were compacted ----

  // Where an input entry comes from.
  lemma InputHome(v: Version, level: nat, inputs0: seq<File>, inputs1: seq<File>, e: Entry) returns (l: nat, h: File)
    requires Chosen(v, level, inputs0, inputs1) && e in InputEntries(inputs0, inputs1)
    ensures (l == level && h in inputs0) || (l == level + 1 && h in inputs1)
    ensures e in h.entries && h in v.files[l] && FileOk(h)
  {
    InContents(inputs0, e);
    InContents(inputs1, e);
    if e in Contents(inputs0) {
      l := level;
      h :| h in inputs0 && e in h.entries;
    } else {
      l := level + 1;
      h :| h in inputs1 && e in h.entries;
    }
  }

  // A file of the lower level that was not selected lies wholly outside the user keys of inputs0.
  lemma UnselectedOutside(v: Version, level: nat, inputs0: seq<File>, inputs1: seq<File>, g: File)
    requires Inputs(v, level, inputs0, inputs1) && g in v.files[level + 1] && g !in inputs1
    ensures (forall h :: h in inputs0 ==> g.largest.user < h.smallest.user)
         || (forall h :: h in inputs0 ==> h.largest.user < g.smallest.user)
    ensures (forall h :: h in inputs0 + inputs1 ==> g.largest.Before(h.smallest))
         || (forall h :: h in inputs0 + inputs1 ==> h.largest.Before(g.smallest))
  {
    var s, k :| IsRange(inputs0, s, k) && inputs1 == Select(v.files[level + 1], UserRange(s, k));
    assert FileOk(g);
    FileSpan(g, g.entries[0]);
    forall h | h in inputs1
      ensures g.largest.user < s.user ==> g.largest.Before(h.smallest)
      ensures k.user < g.smallest.user ==> h.largest.Before(g.smallest)
    {
      assert FileOk(h);
      FileSpan(h, h.entries[0]);
      ApartInLevel(v.files[level + 1], g, h);
    }
  }

  lemma SelectedShadowsNothing(v: Version, level: nat, inputs0: seq<File>, inputs1: seq<File>, g: File, h: File, a: Entry, b: Entry)
    requires Inputs(v, level, inputs0, inputs1) && g in v.files[level + 1] && g !in inputs1
    requires h in inputs0 && a in g.entries && b in h.entries
    ensures a.key.user != b.key.user
  {
    UnselectedOutside(v, level, inputs0, inputs1, g);
    InputFiles(v, level, inputs0, inputs1);
    assert FileOk(g) && FileOk(h);
    FileSpan(g, a);
    FileSpan(h, b);
  }

  // A file that stays on a level above the outputs holds newer versions than any input entry.
  lemma StayingAboveIsNewer(v: Version, level: nat, inputs0: seq<File>, inputs1: seq<File>, l: nat, g: File, a: Entry, e: Entry)
    requires Chosen(v, level, inputs0, inputs1) && l <= level
    requires g in v.files[l] && (l == level ==> g !in inputs0) && a in g.entries
    requires e in InputEntries(inputs0, inputs1) && a.key.user == e.key.user
    ensures Newer(a, e)
  {
    var m, h := InputHome(v, level, inputs0, inputs1, e);
    AcrossLevels(v, l, g, m, h);
    if l == m {
      assert KeepsNewer(v.files[level], inputs0);
      assert FileNewer(g, h);
    }
  }

  // ... and a file further down holds older ones.
  lemma DeeperIsOlder(v: Version, level: nat, inputs0: seq<File>, inputs1: seq<File>, l: nat, g: File, a: Entry, e: Entry)
    requires Chosen(v, level, inputs0, inputs1) && level + 1 < l < NUM_LEVELS
    requires g in v.files[l] && a in g.entries
    requires e in InputEntries(inputs0, inputs1) && a.key.user == e.key.user
    ensures Newer(e, a)
  {
    var m, h := InputHome(v, level, inputs0, inputs1, e);
    AcrossLevels(v, m, h, l, g);
  }

  // ---- The invariant survives ----

  // A file of the new version is an old file that was not selected, or an output.
  lemma FileOrigin(v: Version, level: nat, inputs0: seq<File>, inputs1: seq<File>, outputs: seq<File>, after: Version,
                   l: nat, f: File)
    requires Chosen(v, level, inputs0, inputs1) && Compacted(v, level, inputs0, inputs1, outputs, after)
    requires l < NUM_LEVELS
    ensures f in after.files[l] <==>
            || (f in v.files[l] && (l == level ==> f !in inputs0) && (l == level + 1 ==> f !in inputs1))
            || (l == level + 1 && f in outputs)
  {
    assert f in after.files[l] <==> f in FilesAfter(v, level, inputs0, inputs1, outputs, l);
  }

  lemma NewLevelOk(v: Version, level: nat, inputs0: seq<File>, inputs1: seq<File>, outputs: seq<File>, after: Version,
                   next: nat, next': nat, l: nat)
    requires VersionInv(v, next) && Chosen(v, level, inputs0, inputs1) && l < NUM_LEVELS
    requires OutputsOk(v, inputs0, inputs1, outputs, next, next') && Compacted(v, level, inputs0, inputs1, outputs, after)
    ensures LevelOk(after.files[l])
  {
    forall f | f in after.files[l]
      ensures FileOk(f)
    {
      FileOrigin(v, level, inputs0, inputs1, outputs, after, l, f);
    }
    forall f, g | f in after.files[l] && g in after.files[l] && f.number == g.number
      ensures f == g
    {
      FileOrigin(v, level, inputs0, inputs1, outputs, after, l, f);
      FileOrigin(v, level, inputs0, inputs1, outputs, after, l, g);
      if f in v.files[l] && g in v.files[l] {
        SameNumberSameFile(v.files[l], f, g);
      }
      if f in outputs && g in outputs {
        SameNumberSameFile(outputs, f, g);
      }
    }
    UniqueFromMembers(after.files[l]);
  }

  // An output stands apart from a file of the lower level that was not selected.
  lemma OutputApart(v: Version, level: nat, inputs0: seq<File>, inputs1: seq<File>, f: File, g: File)
    requires Inputs(v, level, inputs0, inputs1) && FileOk(f) && forall e :: e in f.entries ==> e in InputEntries(inputs0, inputs1)
    requires g in v.files[level + 1] && g !in inputs1
    ensures Apart(f, g)
  {
    UnselectedOutside(v, level, inputs0, inputs1, g);
    var last := |f.entries| - 1;
    var m, h := InputHome(v, level, inputs0, inputs1, f.entries[0]);
    var m', h' := InputHome(v, level, inputs0, inputs1, f.entries[last]);
    FileSpan(h, f.entries[0]);
    FileSpan(h', f.entries[last]);
    assert h in inputs0 + inputs1 && h' in inputs0 + inputs1;
  }

  // What Builder::SaveTo asserts of the level below: the outputs stand apart from the files that stay.
  ghost predicate OutputsFit(v: Version, level: nat, inputs1: seq<File>, outputs: seq<File>)
    requires level + 1 < |v.files|
  {
    forall f, g :: f in outputs && g in v.files[level + 1] && g !in inputs1 ==> Apart(f, g)
  }

  // Where the inputs are what was selected on this very version, it holds.
  lemma SelectedFit(v: Version, level: nat, inputs0: seq<File>, inputs1: seq<File>, outputs: seq<File>)
    requires Inputs(v, level, inputs0, inputs1) && (forall f :: f in outputs ==> FileOk(f))
    requires forall f, e :: f in outputs && e in f.entries ==> e in InputEntries(inputs0, inputs1)
    ensures OutputsFit(v, level, inputs1, outputs)
  {
    hide Inputs, Apart, FileOk, InputEntries;
    forall f, g | f in outputs && g in v.files[level + 1] && g !in inputs1
      ensures Apart(f, g)
    {
      OutputApart(v, level, inputs0, inputs1, f, g);
    }
  }

  lemma OutputsAreMade(v: Version, inputs0: seq<File>, inputs1: seq<File>, outputs: seq<File>, next: nat, next': nat)
    requires OutputsOk(v, inputs0, inputs1, outputs, next, next')
    ensures forall f :: f in outputs ==> FileOk(f)
    ensures forall f, e :: f in outputs && e in f.entries ==> e in InputEntries(inputs0, inputs1)
  {
    hide FileOk, InputEntries, Unused;
  }

  lemma NewLevelDisjoint(v: Version, level: nat, inputs0: seq<File>, inputs1: seq<File>, outputs: seq<File>, after: Version,
                         next: nat, next': nat, l: nat)
    requires VersionInv(v, next) && Chosen(v, level, inputs0, inputs1) && 0 < l < NUM_LEVELS && OutputsFit(v, level, inputs1, outputs)
    requires OutputsOk(v, inputs0, inputs1, outputs, next, next') && Compacted(v, level, inputs0, inputs1, outputs, after)
    ensures DisjointFiles(after.files[l])
  {
    NewLevelOk(v, level, inputs0, inputs1, outputs, after, next, next', l);
    forall f, g | f in after.files[l] && g in after.files[l] && f != g
      ensures Apart(f, g)
    {
      FileOrigin(v, level, inputs0, inputs1, outputs, after, l, f);
      FileOrigin(v, level, inputs0, inputs1, outputs, after, l, g);
      if l == level + 1 && f in outputs {
        if g in outputs {
          ApartInLevel(outputs, f, g);
        } else {
          assert Apart(f, g);
        }
      } else if l == level + 1 && g in outputs {
        assert Apart(g, f);
      } else {
        ApartInLevel(v.files[l], f, g);
      }
    }
    DisjointFromMembers(after.files[l]);
  }

  lemma NewLevelsAged(v: Version, level: nat, inputs0: seq<File>, inputs1: seq<File>, outputs: seq<File>, after: Version,
                      next: nat, next': nat, l: nat, f: File, m: nat, g: File)
    requires VersionInv(v, next) && Chosen(v, level, inputs0, inputs1) && l < m < NUM_LEVELS
    requires OutputsOk(v, inputs0, inputs1, outputs, next, next') && Compacted(v, level, inputs0, inputs1, outputs, after)
    requires f in after.files[l] && g in after.files[m]
    ensures FileNewer(f, g)
  {
    FileOrigin(v, level, inputs0, inputs1, outputs, after, l, f);
    FileOrigin(v, level, inputs0, inputs1, outputs, after, m, g);
    if f in v.files[l] && g in v.files[m] {
      AcrossLevels(v, l, f, m, g);
    }
    forall a, b | a in f.entries && b in g.entries && a.key.user == b.key.user
      ensures Newer(a, b)
    {
      if m == level + 1 && g in outputs {
        StayingAboveIsNewer(v, level, inputs0, inputs1, l, f, a, b);
      } else if l == level + 1 && f in outputs {
        DeeperIsOlder(v, level, inputs0, inputs1, m, g, b, a);
      }
    }
  }

  // A compaction leads from a well-formed version to a well-formed version.
  lemma CompactionKeepsInvariant(v: Version, level: nat, inputs0: seq<File>, inputs1: seq<File>, outputs: seq<File>,
                                 after: Version, next: nat, next': nat)
    requires VersionInv(v, next) && Chosen(v, level, inputs0, inputs1) && OutputsFit(v, level, inputs1, outputs)
    requires OutputsOk(v, inputs0, inputs1, outputs, next, next') && Compacted(v, level, inputs0, inputs1, outputs, after)
    ensures VersionInv(after, next')
  {
    hide Chosen, OutputsFit, LevelOk, DisjointFiles, FileNewer, OutputsOk;
    forall l | 0 <= l < NUM_LEVELS
      ensures LevelOk(after.files[l]) && (l > 0 ==> DisjointFiles(after.files[l]))
    {
      NewLevelOk(v, level, inputs0, inputs1, outputs, after, next, next', l);
      if l > 0 {
        NewLevelDisjoint(v, level, inputs0, inputs1, outputs, after, next, next', l);
      }
    }
    forall l, m, f, g | 0 <= l < m < NUM_LEVELS && f in after.files[l] && g in after.files[m]
      ensures FileNewer(f, g) && f.number != g.number
    {
      NewLevelsAged(v, level, inputs0, inputs1, outputs, after, next, next', l, f, m, g);
      NewNumbersApart(v, level, inputs0, inputs1, outputs, after, next, next', l, f, m, g);
    }
    forall l, f | 0 <= l < NUM_LEVELS && f in after.files[l]
      ensures f.number < next'
      ensures l == 0 ==> f in v.files[0]
    {
      NewNumberBelow(v, level, inputs0, inputs1, outputs, after, next, next', l, f);
    }
  }

  lemma NewNumbersApart(v: Version, level: nat, inputs0: seq<File>, inputs1: seq<File>, outputs: seq<File>, after: Version,
                        next: nat, next': nat, l: nat, f: File, m: nat, g: File)
    requires VersionInv(v, next) && Chosen(v, level, inputs0, inputs1) && l < m < NUM_LEVELS
    requires OutputsOk(v, inputs0, inputs1, outputs, next, next') && Compacted(v, level, inputs0, inputs1, outputs, after)
    requires f in after.files[l] && g in after.files[m]
    ensures f.number != g.number
  {
    FileOrigin(v, level, inputs0, inputs1, outputs, after, l, f);
    FileOrigin(v, level, inputs0, inputs1, outputs, after, m, g);
    if l == level && g in inputs0 {
      SameNumberSameFile(v.files[level], f, g);
    }
  }

  lemma NewNumberBelow(v: Version, level: nat, inputs0: seq<File>, inputs1: seq<File>, outputs: seq<File>, after: Version,
                       next: nat, next': nat, l: nat, f: File)
    requires VersionInv(v, next) && Chosen(v, level, inputs0, inputs1) && l < NUM_LEVELS
    requires OutputsOk(v, inputs0, inputs1, outputs, next, next') && Compacted(v, level, inputs0, inputs1, outputs, after)
    requires f in after.files[l]
    ensures f.number < next' && (l == 0 ==> f in v.files[0])
  {
    FileOrigin(v, level, inputs0, inputs1, outputs, after, l, f);
  }

  // ---- What is left of the entries ----

  ghost function Rest(v: Version, inputs0: seq<File>, inputs1: seq<File>): set<Entry> {
    All(v) - InputEntries(inputs0, inputs1)
  }

  lemma InputsAreEntries(v: Version, level: nat, inputs0: seq<File>, inputs1: seq<File>)
    requires Chosen(v, level, inputs0, inputs1)
    ensures InputEntries(inputs0, inputs1) <= All(v)
    ensures Rest(v, inputs0, inputs1) + InputEntries(inputs0, inputs1) == All(v)
  {
    forall e | e in InputEntries(inputs0, inputs1)
      ensures e in All(v)
    {
      var l, h := InputHome(v, level, inputs0, inputs1, e);
      InAll(v, l, h, e);
    }
  }

  // An entry outside the inputs is in a file that was not selected.
  lemma RestHome(v: Version, level: nat, inputs0: seq<File>, inputs1: seq<File>, e: Entry) returns (l: nat, g: File)
    requires Chosen(v, level, inputs0, inputs1) && e in Rest(v, inputs0, inputs1)
    ensures l < NUM_LEVELS && g in v.files[l] && e in g.entries
    ensures (l == level ==> g !in inputs0) && (l == level + 1 ==> g !in inputs1)
  {
    l, g := Home(v, e);
    InContents(inputs0, e);
    InContents(inputs1, e);
  }

  lemma UnselectedIsRest(v: Version, level: nat, inputs0: seq<File>, inputs1: seq<File>, l: nat, g: File, e: Entry)
    requires Chosen(v, level, inputs0, inputs1) && l < NUM_LEVELS && g in v.files[l] && e in g.entries
    requires (l == level ==> g !in inputs0) && (l == level + 1 ==> g !in inputs1)
    ensures e in Rest(v, inputs0, inputs1)
  {
    InAll(v, l, g, e);
    if e in InputEntries(inputs0, inputs1) {
      var m, h := InputHome(v, level, inputs0, inputs1, e);
      OneHome(v, l, g, e, m, h, e);
    }
  }

  // The new version holds what was not compacted, and what the outputs hold.
  lemma CompactedEntries(v: Version, level: nat, inputs0: seq<File>, inputs1: seq<File>, outputs: seq<File>, after: Version)
    requires Chosen(v, level, inputs0, inputs1) && Compacted(v, level, inputs0, inputs1, outputs, after)
    ensures All(after) == Rest(v, inputs0, inputs1) + Elements(Concat(outputs))
  {
    forall e
      ensures e in All(after) <==> e in Rest(v, inputs0, inputs1) + Elements(Concat(outputs))
    {
      InConcat(outputs, e);
      assert e in Elements(Concat(outputs)) <==> e in Concat(outputs);
      if e in All(after) {
        var l, f := Home(after, e);
        FileOrigin(v, level, inputs0, inputs1, outputs, after, l, f);
        if !(l == level + 1 && f in outputs) {
          UnselectedIsRest(v, level, inputs0, inputs1, l, f, e);
        }
      }
      if e in Rest(v, inputs0, inputs1) {
        var l, g := RestHome(v, level, inputs0, inputs1, e);
        FileOrigin(v, level, inputs0, inputs1, outputs, after, l, g);
        InAll(after, l, g, e);
      }
      if e in Concat(outputs) {
        var f :| f in outputs && e in f.entries;
        FileOrigin(v, level, inputs0, inputs1, outputs, after, level + 1, f);
        InAll(after, level + 1, f, e);
      }
    }
  }

  // ---- Views ----

  // `upper` stands for the memtables: whatever they share with the version they hold newer.
  ghost predicate Above(upper: set<Entry>, v: Version) {
    && DistinctKeys(upper)
    && forall a, b :: a in upper && b in All(v) && a.key.user == b.key.user ==> Newer(a, b)
  }

  lemma AboveIsDistinct(upper: set<Entry>, v: Version)
    requires VersionOk(v) && Above(upper, v)
    ensures DistinctKeys(upper + All(v)) && upper !! All(v)
  {
    VersionDistinct(v);
  }

  lemma NotBelowBase(v: Version, level: nat, l: nat, f: File, e: Entry)
    requires VersionOk(v) && l < NUM_LEVELS && f in v.files[l] && e in f.entries
    requires BaseLevel(v, level, e.key.user)
    ensures l <= level + 1
  {
    FileSpan(f, e);
    assert CoversUser(f, e.key.user);
  }

  // With no older entry left behind on the lower level, what stays is newer than a marker that goes.
  lemma RestIsNewer(v: Version, level: nat, inputs0: seq<File>, inputs1: seq<File>, t: Entry, g: Entry)
    requires Inputs(v, level, inputs0, inputs1) && KeepsNewer(v.files[level + 1], inputs1)
    requires t in InputEntries(inputs0, inputs1) && BaseLevel(v, level, t.key.user)
    requires g in Rest(v, inputs0, inputs1) && g.key.user == t.key.user
    ensures Newer(g, t)
  {
    var l, f := RestHome(v, level, inputs0, inputs1, g);
    NotBelowBase(v, level, l, f, g);
    if l <= level {
      StayingAboveIsNewer(v, level, inputs0, inputs1, l, f, g, t);
    } else if l == level + 1 {
      var m, h := InputHome(v, level, inputs0, inputs1, t);
      if h in inputs1 {
        assert FileNewer(f, h);
      } else {
        SelectedShadowsNothing(v, level, inputs0, inputs1, f, h, g, t);
      }
    }
  }

  // What a flush may have done since the inputs were chosen: only newer entries were added.
  ghost predicate Grown(base: Version, v: Version) {
    && All(base) <= All(v)
    && forall a, b :: a in All(v) && a !in All(base) && b in All(base) && a.key.user == b.key.user ==> Newer(a, b)
  }

  lemma NotGrown(v: Version)
    ensures Grown(v, v)
  {
  }

  // No dropped marker uncovers an older value that stays in the database.
  ghost predicate Harmless(base: Version, level: nat, merged: seq<Entry>, oldest: nat, rest: set<Entry>) {
    forall i, g :: 0 <= i < |merged| ==> !Uncovers(merged, i, oldest, base, level, rest, g)
  }

  lemma NothingUncovered(base: Version, v: Version, level: nat, inputs0: seq<File>, inputs1: seq<File>, merged: seq<Entry>,
                         oldest: nat, upper: set<Entry>, i: nat, g: Entry)
    requires Inputs(base, level, inputs0, inputs1) && Grown(base, v) && Above(upper, v)
    requires Elements(merged) == InputEntries(inputs0, inputs1) && i < |merged|
    requires KeepsNewer(base.files[level + 1], inputs1)
    ensures !Uncovers(merged, i, oldest, base, level, upper + Rest(v, inputs0, inputs1), g)
  {
    hide Inputs, KeepsNewer, BaseLevel, All;
    var t := merged[i];
    assert t in Elements(merged);
    InputsAreEntries(base, level, inputs0, inputs1);
    if g in Rest(base, inputs0, inputs1) && g.key.user == t.key.user && BaseLevel(base, level, t.key.user) {
      RestIsNewer(base, level, inputs0, inputs1, t, g);
    }
  }

  // With no older entry left behind on the lower level, a compaction is harmless.
  lemma NothingLeftBehind(base: Version, v: Version, level: nat, inputs0: seq<File>, inputs1: seq<File>, merged: seq<Entry>,
                          oldest: nat, upper: set<Entry>)
    requires Inputs(base, level, inputs0, inputs1) && Grown(base, v) && Above(upper, v)
    requires Elements(merged) == InputEntries(inputs0, inputs1)
    requires KeepsNewer(base.files[level + 1], inputs1)
    ensures Harmless(base, level, merged, oldest, upper + Rest(v, inputs0, inputs1))
  {
    hide Inputs, KeepsNewer, Grown, Above, Uncovers;
    forall i, g | 0 <= i < |merged|
      ensures !Uncovers(merged, i, oldest, base, level, upper + Rest(v, inputs0, inputs1), g)
    {
      NothingUncovered(base, v, level, inputs0, inputs1, merged, oldest, upper, i, g);
    }
  }

  // Inputs chosen on `base` are replaced on `v` by what the drop rules kept of them: every protected view
  // stays the same if and only if that is harmless.
  lemma CompactionKeepsViews(base: Version, v: Version, level: nat, inputs0: seq<File>, inputs1: seq<File>, outputs: seq<File>,
                             after: Version, merged: seq<Entry>, oldest: nat, upper: set<Entry>)
    requires Chosen(v, level, inputs0, inputs1) && Compacted(v, level, inputs0, inputs1, outputs, after)
    requires Sorted(merged) && Elements(merged) == InputEntries(inputs0, inputs1)
    requires Concat(outputs) == Kept(merged, |merged|, oldest, base, level)
    requires Above(upper, v)
    ensures SameViews(upper + All(v), upper + All(after), oldest) <==>
            Harmless(base, level, merged, oldest, upper + Rest(v, inputs0, inputs1))
  {
    var rest := upper + Rest(v, inputs0, inputs1);
    InputsAreEntries(v, level, inputs0, inputs1);
    CompactedEntries(v, level, inputs0, inputs1, outputs, after);
    AboveIsDistinct(upper, v);
    assert rest + Elements(merged) == upper + All(v);
    assert rest + KeptSet(merged, oldest, base, level) == upper + All(after);
    ViewsKeptExactlyWhen(merged, oldest, base, level, rest);
  }

  // The hypothesis in a form that can be checked before the compaction: AddBoundaryInputs would add
  // nothing to inputs1 either.
  ghost predicate NoBoundaryBelow(v: Version, level: nat, inputs1: seq<File>)
    requires level + 1 < |v.files|
  {
    forall key :: IsLargest(inputs1, key) ==> IsSmallestBoundary(v.files[level + 1], key, None)
  }

  lemma NoBoundaryKeepsNewer(v: Version, level: nat, inputs0: seq<File>, inputs1: seq<File>)
    requires Inputs(v, level, inputs0, inputs1) && NoBoundaryBelow(v, level, inputs1)
    ensures KeepsNewer(v.files[level + 1], inputs1)
  {
    hide LevelNewer, AgedByNumber, Select;
    var fs := v.files[level + 1];
    var s, k :| IsRange(inputs0, s, k) && inputs1 == Select(fs, UserRange(s, k));
    var a, b := SelectIsRun(fs, UserRange(s, k), |fs|);
    assert fs[..|fs|] == fs;
    if a < b {
      LargestOfRun(fs, a, b);
      assert IsSmallestBoundary(fs, fs[b - 1].largest, None);
      assert b < |fs| ==> fs[b] in fs;
      RunKeepsNewer(fs, a, b);
    }
  }

  lemma LargestOfRun(fs: seq<File>, a: nat, b: nat)
    requires LevelOk(fs) && DisjointFiles(fs) && a < b <= |fs|
    ensures IsLargest(fs[a..b], fs[b - 1].largest)
  {
    DisjointAscends(fs);
    assert fs[a..b][b - 1 - a] == fs[b - 1];
  }

  // ---- Running and installing a compaction ----

  // The edit of InstallCompactionResults: AddInputDeletions, the outputs, and the compaction pointer.
  function CompactionEdit(level: nat, inputs0: seq<File>, inputs1: seq<File>, outputs: seq<File>, pointer: InternalKey): VersionEdit {
    VersionEdit(
      [(level, pointer)],
      (set f | f in inputs0 :: (level, f.number)) + (set f | f in inputs1 :: (level + 1, f.number)),
      seq(|outputs|, i requires 0 <= i < |outputs| => (level + 1, outputs[i])))
  }

  lemma EditAt(level: nat, inputs0: seq<File>, inputs1: seq<File>, outputs: seq<File>, pointer: InternalKey, l: nat)
    ensures var edit := CompactionEdit(level, inputs0, inputs1, outputs, pointer);
            && DeletedAt(edit, l) == Numbers(if l == level then Members(inputs0) else if l == level + 1 then Members(inputs1) else {})
            && AddedAt(edit, l) == if l == level + 1 then Members(outputs) else {}
  {
    var edit := CompactionEdit(level, inputs0, inputs1, outputs, pointer);
    forall f | f in inputs0
      ensures (level, f.number) in edit.deleted
    {
    }
    forall f | f in inputs1
      ensures (level + 1, f.number) in edit.deleted
    {
    }
    assert forall n :: n in DeletedAt(edit, l) <==> (l, n) in edit.deleted;
    forall i | 0 <= i < |outputs|
      ensures l == level + 1 ==> outputs[i] in AddedAt(edit, l)
    {
      assert edit.added[i] == (level + 1, outputs[i]);
    }
  }

  lemma EditCompacts(v: Version, level: nat, inputs0: seq<File>, inputs1: seq<File>, outputs: seq<File>,
                     pointer: InternalKey, after: Version)
    requires Chosen(v, level, inputs0, inputs1)
    requires Follows(v, CompactionEdit(level, inputs0, inputs1, outputs, pointer), after)
    ensures Compacted(v, level, inputs0, inputs1, outputs, after)
  {
    var edit := CompactionEdit(level, inputs0, inputs1, outputs, pointer);
    forall l | 0 <= l < NUM_LEVELS
      ensures Members(after.files[l]) == FilesAfter(v, level, inputs0, inputs1, outputs, l)
    {
      EditAt(level, inputs0, inputs1, outputs, pointer, l);
      var gone := if l == level then inputs0 else if l == level + 1 then inputs1 else [];
      forall f | f in v.files[l]
        ensures f.number in Numbers(Members(gone)) <==> f in gone
      {
        if f.number in Numbers(Members(gone)) {
          var g :| g in Members(gone) && g.number == f.number;
          SameNumberSameFile(v.files[l], f, g);
        }
      }
    }
  }

  lemma EditIsFresh(v: Version, level: nat, inputs0: seq<File>, inputs1: seq<File>, outputs: seq<File>,
                    pointer: InternalKey, next: nat, next': nat, l: nat)
    requires VersionInv(v, next) && Chosen(v, level, inputs0, inputs1) && l < NUM_LEVELS
    requires OutputsOk(v, inputs0, inputs1, outputs, next, next')
    ensures FreshAt(Members(v.files[l]), CompactionEdit(level, inputs0, inputs1, outputs, pointer), l)
  {
    EditAt(level, inputs0, inputs1, outputs, pointer, l);
    if l == level + 1 {
      forall f, g | f in v.files[l] && g in outputs
        ensures f.number != g.number
      {
        assert g in inputs0 ==> g in v.files[level];
      }
    }
  }

  // Installs outputs in place of inputs.
  method InstallCompactionResults(v: Version, level: nat, inputs0: seq<File>, inputs1: seq<File>, outputs: seq<File>,
                                  pointer: InternalKey, pointers: map<nat, InternalKey>, ghost next: nat, ghost next': nat)
    returns (after: Version, compactPointer: map<nat, InternalKey>)
    requires VersionInv(v, next) && Chosen(v, level, inputs0, inputs1) && OutputsFit(v, level, inputs1, outputs)
    requires OutputsOk(v, inputs0, inputs1, outputs, next, next')
    ensures VersionInv(after, next') && Compacted(v, level, inputs0, inputs1, outputs, after)
    ensures compactPointer == pointers[level := pointer]
  {
    hide Chosen, OutputsFit, OutputsOk;
    var edit := CompactionEdit(level, inputs0, inputs1, outputs, pointer);
    forall l | 0 <= l < NUM_LEVELS
      ensures FreshAt(Members(v.files[l]), edit, l)
    {
      EditIsFresh(v, level, inputs0, inputs1, outputs, pointer, next, next', l);
    }
    LevelsInRange(v, level, inputs0, inputs1);
    after, compactPointer := LogAndApply(v, edit, pointers);
    OnePointer(pointers, level, pointer, compactPointer);
    EditCompacts(v, level, inputs0, inputs1, outputs, pointer, after);
    CompactionKeepsInvariant(v, level, inputs0, inputs1, outputs, after, next, next');
  }

  lemma OnePointer(pointers: map<nat, InternalKey>, level: nat, pointer: InternalKey, next: map<nat, InternalKey>)
    requires PointersFollow(pointers, [(level, pointer)], next)
    ensures next == pointers[level := pointer]
  {
    var written := [(level, pointer)];
    assert IsLastPair(written, 0);
    assert forall l: nat :: l != level ==> !WritesLevel(written, l);
    var expected := pointers[level := pointer];
    forall l: nat
      ensures Agree(expected, next, l)
    {
      assert l != level ==> Agree(pointers, next, l);
    }
    AgreeingMaps(expected, next);
  }

  lemma LevelsInRange(v: Version, level: nat, inputs0: seq<File>, inputs1: seq<File>)
    requires Chosen(v, level, inputs0, inputs1)
    ensures level + 1 < NUM_LEVELS
  {
  }

  // The files of a compaction, and the entries of its inputs in order.
  datatype Work = Work(inputs0: seq<File>, inputs1: seq<File>, outputs: seq<File>, merged: seq<Entry>)

  // What DoCompactionWork makes of inputs that were chosen on `base`.
  ghost predicate Worked(base: Version, level: nat, w: Work, oldest: nat) {
    && Sorted(w.merged) && Elements(w.merged) == InputEntries(w.inputs0, w.inputs1)
    && Concat(w.outputs) == Kept(w.merged, |w.merged|, oldest, base, level)
  }

  // A trivial move: the file stays what it is.
  predicate Moved(w: Work) {
    |w.inputs0| == 1 && w.inputs1 == [] && w.outputs == w.inputs0
  }

  lemma ConcatHolds(fs: seq<File>)
    ensures Elements(Concat(fs)) == Contents(fs)
  {
    forall e
      ensures e in Elements(Concat(fs)) <==> e in Contents(fs)
    {
      InConcat(fs, e);
      InContents(fs, e);
      assert e in Elements(Concat(fs)) <==> e in Concat(fs);
    }
  }

  lemma MoveIsOk(v: Version, level: nat, inputs0: seq<File>, next: nat)
    requires VersionInv(v, next) && Inputs(v, level, inputs0, []) && |inputs0| == 1
    ensures OutputsOk(v, inputs0, [], inputs0, next, next)
  {
    InputFiles(v, level, inputs0, []);
    forall e
      ensures e in Contents(inputs0) <==> exists f :: f in inputs0 && e in f.entries
    {
      InContents(inputs0, e);
    }
  }

  // A trivial move changes no entry at all.
  lemma MoveKeepsEntries(v: Version, level: nat, inputs0: seq<File>, after: Version)
    requires Chosen(v, level, inputs0, []) && Compacted(v, level, inputs0, [], inputs0, after)
    ensures All(after) == All(v)
  {
    CompactedEntries(v, level, inputs0, [], inputs0, after);
    ConcatHolds(inputs0);
    InputsAreEntries(v, level, inputs0, []);
    assert Contents([]) == {};
  }

  lemma WorkIsOk(v: Version, level: nat, w: Work, oldest: nat, next: nat)
    requires Worked(v, level, w, oldest) && NumbersBelow(v, next)
    requires forall i :: 0 <= i < |w.outputs| ==> w.outputs[i].number == next + i
    requires DisjointFiles(w.outputs) && forall f :: f in w.outputs ==> FileOk(f)
    ensures OutputsOk(v, w.inputs0, w.inputs1, w.outputs, next, next + |w.outputs|)
  {
    hide FileOk, InputEntries;
    OutputsAreInputs(v, level, w, oldest);
    forall f | f in w.outputs
      ensures next <= f.number < next + |w.outputs| && Unused(v, f.number)
    {
      var i :| 0 <= i < |w.outputs| && w.outputs[i] == f;
    }
  }

  lemma OutputsAreInputs(base: Version, level: nat, w: Work, oldest: nat)
    requires Worked(base, level, w, oldest)
    ensures forall f, e :: f in w.outputs && e in f.entries ==> e in InputEntries(w.inputs0, w.inputs1)
  {
    hide InputEntries, Kept;
    forall f, e | f in w.outputs && e in f.entries
      ensures e in InputEntries(w.inputs0, w.inputs1)
    {
      InConcat(w.outputs, e);
      InKept(w.merged, |w.merged|, oldest, base, level, e);
      assert forall i :: 0 <= i < |w.merged| ==> w.merged[i] in Elements(w.merged);
    }
  }

  lemma KeptAreInputs(merged: seq<Entry>, oldest: nat, v: Version, level: nat)
    requires Sorted(merged)
    ensures KeptSet(merged, oldest, v, level) <= Elements(merged)
  {
    if merged != [] {
      KeptOrNot(merged, oldest, v, level, 0);
    }
  }

  // BackgroundCompaction from the picked files on: a trivial move, or a full compaction.
  method BackgroundCompaction(v: Version, level: nat, picked: seq<File>, isManual: bool, maxFileSize: nat,
                              smallestSnapshot: nat, nextFileNumber: nat, pointers: map<nat, InternalKey>,
                              sizeOf: seq<Entry> -> nat)
    returns (after: Version, next: nat, compactPointer: map<nat, InternalKey>, ghost w: Work, ghost moved: bool)
    requires VersionInv(v, nextFileNumber) && level + 1 < NUM_LEVELS && Pickable(v, level, picked)
    requires smallestSnapshot < MAX_SEQUENCE
    ensures Inputs(v, level, w.inputs0, w.inputs1) && forall f :: f in picked ==> f in w.inputs0
    ensures OutputsOk(v, w.inputs0, w.inputs1, w.outputs, nextFileNumber, next)
    ensures Compacted(v, level, w.inputs0, w.inputs1, w.outputs, after) && VersionInv(after, next)
    ensures moved ==> !isManual && Moved(w) && next == nextFileNumber
    ensures !moved ==> Worked(v, level, w, smallestSnapshot) && next == nextFileNumber + |w.outputs|
    ensures !moved ==> forall i :: 0 <= i < |w.outputs| ==> w.outputs[i].number == nextFileNumber + i
    ensures compactPointer.Keys == pointers.Keys + {level} && IsLargest(w.inputs0, compactPointer[level])
  {
    hide VersionOk, Pickable, Ordered, NumbersApart, NumbersBelow, OutputsOk, OutputsFit, Compacted, Inputs, Chosen, Worked, IsLargest, GoodInputs,
         IsGrandparents, TotalSize, DisjointFiles, FileOk, Sorted, Elements, InputEntries, Concat, Kept;
    var inputs0, inputs1, grandparents, pointer := SetupOtherInputs(v, level, picked, maxFileSize);
    SetUpIsInputs(v, level, inputs0, inputs1, nextFileNumber);
    moved := false;
    if !isManual && |inputs0| == 1 && inputs1 == [] && TotalSize(grandparents) <= 10 * maxFileSize {
      w, moved := Work(inputs0, inputs1, inputs0, []), true;
      MoveIsOk(v, level, inputs0, nextFileNumber);
      OutputsAreMade(v, inputs0, [], inputs0, nextFileNumber, nextFileNumber);
      SelectedFit(v, level, inputs0, [], inputs0);
      after, compactPointer := InstallCompactionResults(v, level, inputs0, [], inputs0, pointer, pointers,
                                                        nextFileNumber, nextFileNumber);
      next := nextFileNumber;
    } else {
      var compaction := new Compaction(v, level, grandparents, maxFileSize);
      var outputs;
      ghost var merged;
      outputs, merged := DoCompactionWork(compaction, inputs0, inputs1, smallestSnapshot, nextFileNumber, sizeOf);
      next := nextFileNumber + |outputs|;
      w := Work(inputs0, inputs1, outputs, merged);
      WorkedIs(v, level, w, smallestSnapshot);
      WorkIsOk(v, level, w, smallestSnapshot, nextFileNumber);
      OutputsAreMade(v, inputs0, inputs1, outputs, nextFileNumber, next);
      SelectedFit(v, level, inputs0, inputs1, outputs);
      after, compactPointer := InstallCompactionResults(v, level, inputs0, inputs1, outputs, pointer, pointers,
                                                        nextFileNumber, next);
    }
  }

  lemma SetUpIsInputs(v: Version, level: nat, inputs0: seq<File>, inputs1: seq<File>, next: nat)
    requires VersionInv(v, next) && level + 1 < NUM_LEVELS && GoodInputs(v, level, inputs0, inputs1)
    ensures Inputs(v, level, inputs0, inputs1) && NumbersBelow(v, next) && VersionOk(v)
  {
    hide VersionOk, GoodInputs, NumbersBelow, Ordered, NumbersApart;
  }

  lemma WorkedIs(base: Version, level: nat, w: Work, oldest: nat)
    requires Sorted(w.merged) && Elements(w.merged) == InputEntries(w.inputs0, w.inputs1)
    requires Concat(w.outputs) == Kept(w.merged, |w.merged|, oldest, base, level)
    ensures Worked(base, level, w, oldest)
  {
  }
}
