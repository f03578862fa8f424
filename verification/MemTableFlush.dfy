/** DBImpl::CompactMemTable and Version::PickLevelForMemTableOutput: the memtable becomes a file. */
module MemTableFlush {
  import opened Options
  import opened InternalKeys
  import opened Versions
  import opened InputSelection
  import opened VersionBuilder
  import opened CompactionResults

  const MAX_MEM_COMPACT_LEVEL: nat := 2

  ghost predicate SequencesFit(fs: seq<File>) {
    forall f :: f in fs ==> f.largest.sequence <= MAX_SEQUENCE
  }

  ghost predicate SomeOverlap(fs: seq<File>, r: Range) {
    exists f :: f in fs && Overlaps(f, r)
  }

  predicate AfterFile(userKey: Option<UserKey>, f: File) {
    userKey.Some? && userKey.value > f.largest.user
  }

  predicate BeforeFile(userKey: Option<UserKey>, f: File) {
    userKey.Some? && userKey.value < f.smallest.user
  }

  // The scan of a level that may overlap itself, or the binary search on a sorted one.
  method SomeFileOverlapsRange(disjointSorted: bool, files: seq<File>, smallest: Option<UserKey>, largest: Option<UserKey>)
    returns (overlap: bool)
    requires disjointSorted ==> LevelOk(files) && DisjointFiles(files) && SequencesFit(files)
    ensures overlap <==> SomeOverlap(files, Range(smallest, largest))
  {
    if !disjointSorted {
      for i := 0 to |files|
        invariant forall j :: 0 <= j < i ==> !Overlaps(files[j], Range(smallest, largest))
      {
        if AfterFile(smallest, files[i]) || BeforeFile(largest, files[i]) {
          // No overlap
        } else {
          assert files[i] in files;
          return true;
        }
      }
      return false;
    }
    var index := 0;
    if smallest.Some? {
      DisjointAscends(files);
      index := FindFile(files, LookupKey(smallest.value, MAX_SEQUENCE));
    }
    forall i | 0 <= i < |files|
      ensures i < index ==> !Overlaps(files[i], Range(smallest, largest))
      ensures i == index ==> (Overlaps(files[i], Range(smallest, largest)) <==> !BeforeFile(largest, files[i]))
      ensures index < i && Overlaps(files[i], Range(smallest, largest)) ==> !BeforeFile(largest, files[index])
    {
      assert files[i] in files;
      if smallest.Some? && files[i].largest.user == smallest.value {
        LookupKeySplitsVersions(files[i].largest, MAX_SEQUENCE);
      }
      if index <= i {
        RunSpan(files, index, i);
      }
    }
    if index >= |files| {
      return false;
    }
    assert files[index] in files;
    return !BeforeFile(largest, files[index]);
  }

  ghost predicate VersionFits(v: Version) {
    forall l :: 0 <= l < |v.files| ==> SequencesFit(v.files[l])
  }

  // The file may go one level further down: nothing there overlaps it, and not too much below that.
  ghost predicate MayPush(v: Version, level: nat, r: Range, maxFileSize: nat)
    requires level + 1 < |v.files|
  {
    && !SomeOverlap(v.files[level + 1], r)
    && (level + 2 < |v.files| ==> TotalSize(Select(v.files[level + 2], r)) <= 10 * maxFileSize)
  }

  // A level where the new file hides nothing newer: level 0, or one that neither it nor any level
  // above it overlaps. It is pushed down as far as it may be.
  method PickLevelForMemTableOutput(v: Version, smallestUserKey: UserKey, largestUserKey: UserKey, maxFileSize: nat)
    returns (level: nat)
    requires VersionOk(v) && VersionFits(v)
    ensures level <= MAX_MEM_COMPACT_LEVEL
    ensures level > 0 ==>
              forall l :: 0 <= l <= level ==> !SomeOverlap(v.files[l], Range(Some(smallestUserKey), Some(largestUserKey)))
    ensures forall l :: 0 <= l < level ==> MayPush(v, l, Range(Some(smallestUserKey), Some(largestUserKey)), maxFileSize)
    ensures level == MAX_MEM_COMPACT_LEVEL || SomeOverlap(v.files[0], Range(Some(smallestUserKey), Some(largestUserKey)))
            || !MayPush(v, level, Range(Some(smallestUserKey), Some(largestUserKey)), maxFileSize)
  {
    hide SomeOverlap, TotalSize, Select;
    level := 0;
    var range := Range(Some(smallestUserKey), Some(largestUserKey));
    var overlap := SomeFileOverlapsRange(false, v.files[0], range.begin, range.end);
    if !overlap {
      while level < MAX_MEM_COMPACT_LEVEL
        invariant level <= MAX_MEM_COMPACT_LEVEL
        invariant forall l :: 0 <= l <= level ==> !SomeOverlap(v.files[l], range)
        invariant forall l :: 0 <= l < level ==> MayPush(v, l, range, maxFileSize)
      {
        overlap := SomeFileOverlapsRange(true, v.files[level + 1], range.begin, range.end);
        if overlap {
          break;
        }
        if level + 2 < NUM_LEVELS {
          ghost var closed;
          var overlaps;
          overlaps, closed := GetOverlappingInputs(v, level + 2, range);
          if TotalSize(overlaps) > 10 * maxFileSize {
            break;
          }
        }
        level := level + 1;
      }
    }
  }

  // ---- Adding the file ----

  ghost predicate Added(v: Version, level: nat, f: File, after: Version) {
    && |v.files| == NUM_LEVELS && Ordered(after)
    && forall l :: 0 <= l < NUM_LEVELS ==>
         Members(after.files[l]) == Members(v.files[l]) + if l == level then {f} else {}
  }

  // Where the new file may stand.
  ghost predicate GoodPlace(v: Version, level: nat, f: File) {
    && level <= MAX_MEM_COMPACT_LEVEL && |v.files| == NUM_LEVELS
    && (level > 0 ==> forall l, g :: 0 <= l <= level && g in v.files[l] ==>
          !Overlaps(g, UserRange(f.smallest, f.largest)))
  }

  ghost predicate NewerThanVersion(f: File, v: Version) {
    forall a, b :: a in f.entries && b in All(v) && a.key.user == b.key.user ==> Newer(a, b)
  }

  lemma AddedMember(v: Version, level: nat, f: File, after: Version, l: nat, g: File)
    requires Added(v, level, f, after) && l < NUM_LEVELS
    ensures g in after.files[l] <==> g in v.files[l] || (l == level && g == f)
  {
    assert g in Members(after.files[l]) <==> g in Members(v.files[l]) + if l == level then {f} else {};
  }

  // On its level and above, the new file shares no user key with anyone.
  lemma PlaceIsClear(v: Version, level: nat, f: File, l: nat, g: File)
    requires GoodPlace(v, level, f) && 0 < level && l <= level && g in v.files[l] && FileOk(f) && FileOk(g)
    ensures g.largest.user < f.smallest.user || f.largest.user < g.smallest.user
  {
    assert !Overlaps(g, UserRange(f.smallest, f.largest));
  }

  lemma AddedLevelOk(v: Version, level: nat, f: File, after: Version, next: nat, l: nat)
    requires VersionInv(v, next) && FileOk(f) && f.number == next && GoodPlace(v, level, f)
    requires Added(v, level, f, after) && l < NUM_LEVELS
    ensures LevelOk(after.files[l]) && (l > 0 ==> DisjointFiles(after.files[l]))
  {
    forall g, h | g in after.files[l] && h in after.files[l]
      ensures FileOk(g)
      ensures g.number == h.number ==> g == h
      ensures l > 0 && g != h ==> Apart(g, h)
    {
      AddedMember(v, level, f, after, l, g);
      AddedMember(v, level, f, after, l, h);
      if g in v.files[l] && h in v.files[l] {
        SameNumberSameFile(v.files[l], g, h);
        if l > 0 && g != h {
          ApartInLevel(v.files[l], g, h);
        }
      } else if l > 0 && g in v.files[l] {
        PlaceIsClear(v, level, f, l, g);
      } else if l > 0 && h in v.files[l] {
        PlaceIsClear(v, level, f, l, h);
      }
    }
    UniqueFromMembers(after.files[l]);
    if l > 0 {
      DisjointFromMembers(after.files[l]);
    }
  }

  lemma AddedAged(v: Version, level: nat, f: File, after: Version, next: nat, l: nat, g: File, m: nat, h: File)
    requires VersionInv(v, next) && FileOk(f) && f.number == next && GoodPlace(v, level, f)
    requires NewerThanVersion(f, v) && Added(v, level, f, after)
    requires l < NUM_LEVELS && m < NUM_LEVELS && g in after.files[l] && h in after.files[m]
    ensures l < m ==> FileNewer(g, h) && g.number != h.number
    ensures l == m == 0 && g.number > h.number ==> FileNewer(g, h)
  {
    AddedMember(v, level, f, after, l, g);
    AddedMember(v, level, f, after, m, h);
    if g in v.files[l] && h in v.files[m] {
      AcrossLevels(v, l, g, m, h);
    } else if h in v.files[m] {
      forall a, b | a in f.entries && b in h.entries && a.key.user == b.key.user
        ensures Newer(a, b)
      {
        InAll(v, m, h, b);
      }
    } else if g in v.files[l] && l < m {
      PlaceIsClear(v, level, f, l, g);
      forall a, b | a in g.entries && b in f.entries
        ensures a.key.user != b.key.user
      {
        FileSpan(g, a);
        FileSpan(f, b);
      }
    }
  }

  lemma AddedVersionOk(v: Version, level: nat, f: File, after: Version, next: nat)
    requires VersionInv(v, next) && FileOk(f) && f.number == next && GoodPlace(v, level, f)
    requires NewerThanVersion(f, v) && Added(v, level, f, after)
    ensures VersionOk(after)
  {
    hide VersionInv, LevelOk, DisjointFiles, FileNewer, GoodPlace, NewerThanVersion;
    AddedShape(v, level, f, after);
    forall l | 0 <= l < NUM_LEVELS
      ensures LevelOk(after.files[l]) && (l > 0 ==> DisjointFiles(after.files[l]))
    {
      AddedLevelOk(v, level, f, after, next, l);
    }
    forall l, m, g, h | 0 <= l < NUM_LEVELS && 0 <= m < NUM_LEVELS && g in after.files[l] && h in after.files[m]
      ensures l < m ==> FileNewer(g, h)
      ensures l == m == 0 && g.number > h.number ==> FileNewer(g, h)
    {
      AddedAged(v, level, f, after, next, l, g, m, h);
    }
  }

  lemma AddedShape(v: Version, level: nat, f: File, after: Version)
    requires Added(v, level, f, after)
    ensures |after.files| == NUM_LEVELS && Ordered(after)
  {
  }

  lemma AddedNumbers(v: Version, level: nat, f: File, after: Version, next: nat)
    requires VersionInv(v, next) && FileOk(f) && f.number == next && GoodPlace(v, level, f)
    requires NewerThanVersion(f, v) && Added(v, level, f, after)
    ensures NumbersApart(after) && NumbersBelow(after, next + 1)
  {
    hide LevelOk, DisjointFiles, FileNewer, GoodPlace, NewerThanVersion, VersionOk;
    forall l, m, g, h | 0 <= l < m < NUM_LEVELS && g in after.files[l] && h in after.files[m]
      ensures g.number != h.number
    {
      AddedAged(v, level, f, after, next, l, g, m, h);
    }
    forall l, g | 0 <= l < NUM_LEVELS && g in after.files[l]
      ensures g.number < next + 1
    {
      AddedMember(v, level, f, after, l, g);
    }
  }

  lemma AddingKeepsInvariant(v: Version, level: nat, f: File, after: Version, next: nat)
    requires VersionInv(v, next) && FileOk(f) && f.number == next && GoodPlace(v, level, f)
    requires NewerThanVersion(f, v) && Added(v, level, f, after)
    ensures VersionInv(after, next + 1)
  {
    hide VersionOk, Ordered, NumbersApart, NumbersBelow, GoodPlace, NewerThanVersion, Added, FileOk;
    AddedShape(v, level, f, after);
    AddedVersionOk(v, level, f, after, next);
    AddedNumbers(v, level, f, after, next);
  }

  lemma AddedEntries(v: Version, level: nat, f: File, after: Version)
    requires Added(v, level, f, after) && level < NUM_LEVELS
    ensures All(after) == All(v) + Elements(f.entries)
  {
    forall e
      ensures e in All(after) <==> e in All(v) || e in f.entries
    {
      if e in All(after) {
        var l, g := Home(after, e);
        AddedMember(v, level, f, after, l, g);
        if g in v.files[l] {
          InAll(v, l, g, e);
        }
      }
      if e in All(v) {
        var l, g := Home(v, e);
        AddedMember(v, level, f, after, l, g);
        InAll(after, l, g, e);
      }
      if e in f.entries {
        AddedMember(v, level, f, after, level, f);
        InAll(after, level, f, e);
      }
    }
    assert forall e :: e in Elements(f.entries) <==> e in f.entries;
  }

  // The file that WriteLevel0Table makes of a memtable.
  function TableOf(memtable: seq<Entry>, number: nat, fileSize: nat): (f: File)
    requires memtable != []
  {
    File(number, fileSize, memtable[0].key, memtable[|memtable| - 1].key, memtable)
  }

  // An empty memtable leaves the version alone; any other becomes one file at a good place.
  ghost predicate Flushed(v: Version, memtable: seq<Entry>, number: nat, after: Version) {
    if memtable == [] then after == v
    else exists level: nat, fileSize: nat ::
           GoodPlace(v, level, TableOf(memtable, number, fileSize)) && Added(v, level, TableOf(memtable, number, fileSize), after)
  }

  lemma TableIsOk(memtable: seq<Entry>, number: nat, fileSize: nat)
    requires Sorted(memtable) && memtable != []
    ensures FileOk(TableOf(memtable, number, fileSize))
  {
  }

  // What a flush does: the invariant stays, and the entries of the memtable are added.
  lemma FlushedKeeps(v: Version, memtable: seq<Entry>, number: nat, after: Version)
    requires VersionInv(v, number) && Sorted(memtable) && Flushed(v, memtable, number, after)
    requires forall a, b :: a in memtable && b in All(v) && a.key.user == b.key.user ==> Newer(a, b)
    ensures VersionInv(after, number + 1) && All(after) == All(v) + Elements(memtable)
  {
    hide VersionOk, Ordered, NumbersApart, GoodPlace, Added, FileOk, All;
    if memtable != [] {
      var level: nat, fileSize: nat :|
        GoodPlace(v, level, TableOf(memtable, number, fileSize)) && Added(v, level, TableOf(memtable, number, fileSize), after);
      var f := TableOf(memtable, number, fileSize);
      TableIsOk(memtable, number, fileSize);
      PlaceInRange(v, level, f);
      AddingKeepsInvariant(v, level, f, after, number);
      AddedEntries(v, level, f, after);
    } else {
      assert Elements(memtable) == {};
    }
  }

  lemma PlaceInRange(v: Version, level: nat, f: File)
    requires GoodPlace(v, level, f)
    ensures level < NUM_LEVELS
  {
  }

  // CompactMemTable: `memtable` is the sorted content of the immutable memtable.
  method CompactMemTable(v: Version, memtable: seq<Entry>, nextFileNumber: nat, maxFileSize: nat, fileSize: nat,
                         pointers: map<nat, InternalKey>)
    returns (after: Version, next: nat)
    requires VersionInv(v, nextFileNumber) && VersionFits(v) && Sorted(memtable)
    requires forall a, b :: a in memtable && b in All(v) && a.key.user == b.key.user ==> Newer(a, b)
    ensures Flushed(v, memtable, nextFileNumber, after) && next == nextFileNumber + 1
    ensures VersionInv(after, next) && All(after) == All(v) + Elements(memtable)
  {
    hide VersionOk, NumbersApart, All, FileOk, Flushed, Ordered;
    next := nextFileNumber + 1;
    var added := [];
    ghost var level': nat := 0;
    if memtable != [] {
      var f := TableOf(memtable, nextFileNumber, fileSize);
      var level := PickLevelForMemTableOutput(v, f.smallest.user, f.largest.user, maxFileSize);
      level' := level;
      added := [(level, f)];
    }
    var edit := VersionEdit([], {}, added);
    AddOnly(v, edit, nextFileNumber);
    var compactPointer;
    after, compactPointer := LogAndApply(v, edit, pointers);
    AddOnlyFollows(v, edit, after);
    FlushedIs(v, memtable, nextFileNumber, level', fileSize, after);
    FlushedKeeps(v, memtable, nextFileNumber, after);
  }

  lemma FlushedIs(v: Version, memtable: seq<Entry>, number: nat, level: nat, fileSize: nat, after: Version)
    requires |v.files| == NUM_LEVELS && level <= MAX_MEM_COMPACT_LEVEL
    requires memtable == [] ==> after == v
    requires memtable != [] && level > 0 ==>
               forall l :: 0 <= l <= level ==> !SomeOverlap(v.files[l], Range(Some(memtable[0].key.user), Some(memtable[|memtable| - 1].key.user)))
    requires memtable != [] ==> Added(v, level, TableOf(memtable, number, fileSize), after)
    ensures Flushed(v, memtable, number, after)
  {
    hide Added;
    if memtable != [] {
      var f := TableOf(memtable, number, fileSize);
      assert UserRange(f.smallest, f.largest) == Range(Some(memtable[0].key.user), Some(memtable[|memtable| - 1].key.user));
      assert GoodPlace(v, level, f);
    }
  }

  // Edits that add at most one file, with a new number.
  ghost predicate AddsOnly(edit: VersionEdit) {
    edit.deleted == {} && |edit.added| <= 1
  }

  lemma AddOnly(v: Version, edit: VersionEdit, next: nat)
    requires VersionInv(v, next) && AddsOnly(edit) && forall i :: 0 <= i < |edit.added| ==> edit.added[i].1.number == next
    ensures forall l :: 0 <= l < NUM_LEVELS ==> FreshAt(Members(v.files[l]), edit, l)
  {
  }

  lemma AddOnlyFollows(v: Version, edit: VersionEdit, after: Version)
    requires |v.files| == NUM_LEVELS && AddsOnly(edit) && Follows(v, edit, after) && Ordered(v)
    ensures edit.added == [] ==> after == v
    ensures edit.added != [] ==> Added(v, edit.added[0].0, edit.added[0].1, after)
  {
    forall l | 0 <= l < NUM_LEVELS
      ensures Members(after.files[l]) ==
              Members(v.files[l]) + if edit.added != [] && edit.added[0].0 == l then {edit.added[0].1} else {}
    {
      assert DeletedAt(edit, l) == {};
    }
    if edit.added == [] {
      SameFiles(after, v);
    }
  }
}
