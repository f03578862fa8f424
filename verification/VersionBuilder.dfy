/** db/version_set.cc, VersionSet::Builder, LogAndApply and Recover: editing versions. */
module VersionBuilder {
  import opened InternalKeys
  import opened Versions

  datatype VersionEdit = VersionEdit(
    compactPointers: seq<(nat, InternalKey)>,   // (level, key), in the order written
    deleted: set<(nat, nat)>,                   // (level, file number)
    added: seq<(nat, File)>)                    // (level, file)

  // The order of BySmallestKey: smallest key first, ties broken by file number.
  predicate Precedes(f: File, g: File) {
    f.smallest.Before(g.smallest) || (f.smallest == g.smallest && f.number < g.number)
  }

  ghost predicate SortedFiles(fs: seq<File>) {
    forall i, j :: 0 <= i < j < |fs| ==> Precedes(fs[i], fs[j])
  }

  ghost predicate Ordered(v: Version) {
    |v.files| == NUM_LEVELS && forall l :: 0 <= l < NUM_LEVELS ==> SortedFiles(v.files[l])
  }

  function DeletedAt(edit: VersionEdit, level: nat): set<nat> {
    set d | d in edit.deleted && d.0 == level :: d.1
  }

  ghost function AddedAt(edit: VersionEdit, level: nat): set<File> {
    set i | 0 <= i < |edit.added| && edit.added[i].0 == level :: edit.added[i].1
  }

  ghost function Numbers(fs: set<File>): set<nat> {
    set f | f in fs :: f.number
  }

  ghost function Members(fs: seq<File>): (s: set<File>)
    ensures forall f :: f in s <==> f in fs
  {
    set i | 0 <= i < |fs| :: fs[i]
  }

  // What an edit does to the files of one level.
  ghost function Edited(fs: set<File>, edit: VersionEdit, level: nat): set<File> {
    (set f | f in fs && f.number !in DeletedAt(edit, level)) + AddedAt(edit, level)
  }

  // The version an edit leads to: the edited files of each level, in order.
  ghost predicate Follows(v: Version, edit: VersionEdit, next: Version) {
    && |v.files| == NUM_LEVELS && Ordered(next)
    && forall l :: 0 <= l < NUM_LEVELS ==> Members(next.files[l]) == Edited(Members(v.files[l]), edit, l)
  }

  lemma {:induction false} SortedFilesUnique(a: seq<File>, b: seq<File>)
    requires SortedFiles(a) && SortedFiles(b) && Members(a) == Members(b)
    ensures a == b
  {
    EmptyMembers(a);
    EmptyMembers(b);
    if a != [] && b != [] {
      assert a[0] in Members(b) && b[0] in Members(a);
      forall f
        ensures f in Members(a[1..]) <==> f in Members(b[1..])
      {
        DropFirst(a, f);
        DropFirst(b, f);
      }
      SortedFilesUnique(a[1..], b[1..]);
    }
  }

  lemma EmptyMembers(a: seq<File>)
    ensures a == [] <==> Members(a) == {}
  {
    assert a != [] ==> a[0] in Members(a);
  }

  lemma DropFirst(a: seq<File>, f: File)
    requires SortedFiles(a) && a != []
    ensures f in Members(a[1..]) <==> f in Members(a) && f != a[0]
  {
    if f in Members(a) && f != a[0] {
      var i :| 0 <= i < |a| && a[i] == f;
      assert a[1..][i - 1] == f;
    }
  }

  // The version an edit leads to is unique.
  lemma FollowsOnce(v: Version, edit: VersionEdit, a: Version, b: Version)
    requires Follows(v, edit, a) && Follows(v, edit, b)
    ensures a == b
  {
    SameFiles(a, b);
  }

  // No file number comes back to a level once a file there has borne it.
  ghost predicate FreshAt(fs: set<File>, edit: VersionEdit, level: nat) {
    && Numbers(fs) !! Numbers(AddedAt(edit, level))
    && forall i, j :: 0 <= i < j < |edit.added| && edit.added[i].0 == edit.added[j].0 == level ==>
         edit.added[i].1.number != edit.added[j].1.number
  }

  ghost predicate EditOk(edit: VersionEdit) {
    && (forall d :: d in edit.deleted ==> d.0 < NUM_LEVELS)
    && (forall i :: 0 <= i < |edit.added| ==> edit.added[i].0 < NUM_LEVELS)
  }

  // Insertion into a std::set ordered by BySmallestKey.
  function InsertFile(fs: seq<File>, f: File): (r: seq<File>)
    requires SortedFiles(fs)
    ensures SortedFiles(r)
    ensures forall g :: g in r ==> g == f || g in fs
    ensures forall g :: g in fs ==> g in r
    ensures (forall g :: g in fs ==> g.number != f.number) ==> f in r
  {
    if fs == [] then [f]
    else if Precedes(f, fs[0]) then [f] + fs
    else
      assert fs == [fs[0]] + fs[1..];
      if Precedes(fs[0], f) then
        var rest := InsertFile(fs[1..], f);
        assert forall i :: 0 <= i < |rest| ==> rest[i] in rest;
        [fs[0]] + rest
      else
        Tie(fs[0], f);
        fs
  }

  lemma Tie(f: File, g: File)
    requires !Precedes(f, g) && !Precedes(g, f)
    ensures f.number == g.number
  {
    Trichotomy(f.smallest, g.smallest);
  }

  // No later pair is for the same level.
  ghost predicate IsLastPair(written: seq<(nat, InternalKey)>, i: nat) {
    i < |written| && forall j :: i < j < |written| ==> written[j].0 != written[i].0
  }

  ghost predicate WritesLevel(written: seq<(nat, InternalKey)>, level: nat) {
    exists i :: 0 <= i < |written| && written[i].0 == level
  }

  ghost predicate Agree(a: map<nat, InternalKey>, b: map<nat, InternalKey>, level: nat) {
    (level in a <==> level in b) && (level in a ==> a[level] == b[level])
  }

  // Each level has the last key written for it, or what it had before.
  ghost predicate PointersFollow(pointers: map<nat, InternalKey>, written: seq<(nat, InternalKey)>, next: map<nat, InternalKey>) {
    && (forall i: nat :: IsLastPair(written, i) ==> written[i].0 in next && next[written[i].0] == written[i].1)
    && forall level: nat :: !WritesLevel(written, level) ==> Agree(pointers, next, level)
  }

  lemma AgreeingMaps(a: map<nat, InternalKey>, b: map<nat, InternalKey>)
    requires forall level: nat :: Agree(a, b, level)
    ensures a == b
  {
    assert forall level :: level in a ==> Agree(a, b, level);
    assert forall level :: level in b ==> Agree(a, b, level);
  }

  // One pair more: it is the last one for its level, and decides no other level.
  lemma OnePairMore(written: seq<(nat, InternalKey)>, p: (nat, InternalKey))
    ensures forall k: nat :: IsLastPair(written + [p], k) && k < |written| ==> IsLastPair(written, k) && written[k].0 != p.0
    ensures forall level: nat :: WritesLevel(written + [p], level) <==> WritesLevel(written, level) || p.0 == level
  {
    var done := written + [p];
    assert done[|written|] == p;
    forall k: nat | IsLastPair(done, k) && k < |written|
      ensures IsLastPair(written, k) && written[k].0 != p.0
    {
      assert done[|written|].0 != done[k].0;
      assert forall j :: k < j < |written| ==> done[j] == written[j];
    }
    forall level: nat | WritesLevel(written, level)
      ensures WritesLevel(done, level)
    {
      var i :| 0 <= i < |written| && written[i].0 == level;
      assert done[i].0 == level;
    }
  }

  lemma PointerWritten(pointers: map<nat, InternalKey>, written: seq<(nat, InternalKey)>, i: nat, now: map<nat, InternalKey>)
    requires i < |written| && PointersFollow(pointers, written[..i], now)
    ensures PointersFollow(pointers, written[..i + 1], now[written[i].0 := written[i].1])
  {
    hide IsLastPair, WritesLevel;
    assert written[..i + 1] == written[..i] + [written[i]];
    OnePairMore(written[..i], written[i]);
    InRange(written[..i + 1]);
  }

  lemma InRange(written: seq<(nat, InternalKey)>)
    ensures forall k: nat :: IsLastPair(written, k) ==> k < |written|
  {
  }

  lemma AddedStep(edit: VersionEdit, i: nat)
    requires i < |edit.added|
    ensures forall l :: AddedBefore(edit, i + 1, l) ==
              AddedBefore(edit, i, l) + if edit.added[i].0 == l then {edit.added[i].1} else {}
  {
  }

  lemma InsertAddsMember(fs: seq<File>, f: File)
    requires SortedFiles(fs) && forall g :: g in fs ==> g.number != f.number
    ensures Members(InsertFile(fs, f)) == Members(fs) + {f}
  {
    forall g
      ensures g in Members(InsertFile(fs, f)) <==> g in Members(fs) + {f}
    {
      assert g in Members(fs) <==> g in fs;
      assert g in Members(InsertFile(fs, f)) <==> g in InsertFile(fs, f);
    }
  }

  lemma FreshToInsert(before: set<File>, now: seq<File>, edit: VersionEdit, i: nat)
    requires i < |edit.added|
    requires var level := edit.added[i].0;
             FreshAt(before, edit, level) && Members(now) <= before + AddedBefore(edit, i, level)
    ensures forall g :: g in now ==> g.number != edit.added[i].1.number
  {
    var level, f := edit.added[i].0, edit.added[i].1;
    assert f in AddedAt(edit, level) && f.number in Numbers(AddedAt(edit, level));
    forall g | g in now
      ensures g.number != f.number
    {
      assert g in Members(now);
      assert g in before ==> g.number in Numbers(before);
    }
  }

  lemma StillDisjoint(base: set<File>, before: set<File>, edit: VersionEdit, level: nat)
    requires FreshAt(base + before, edit, level) && Numbers(base) !! Numbers(before)
    ensures Numbers(base) !! Numbers(before + AddedAt(edit, level))
  {
    forall f | f in base
      ensures f.number !in Numbers(before + AddedAt(edit, level))
    {
      assert f.number in Numbers(base) && f.number in Numbers(base + before);
      assert forall g :: g in before ==> g.number in Numbers(before);
      assert forall g :: g in AddedAt(edit, level) ==> g.number in Numbers(AddedAt(edit, level));
    }
  }

  class Builder {
    const base: Version
    var deleted: seq<set<nat>>              // deleted_files, by level
    var added: seq<seq<File>>               // added_files, by level, in the order of the set
    var compactPointer: map<nat, InternalKey>  // compact_pointer_ of the version set

    ghost predicate Shape()
      reads this
    {
      && Ordered(base)
      && |deleted| == |added| == NUM_LEVELS
      && forall l :: 0 <= l < NUM_LEVELS ==> SortedFiles(added[l])
    }

    ghost predicate WellFormed()
      reads this
    {
      && Shape()
      && forall l :: 0 <= l < NUM_LEVELS ==> Numbers(Members(base.files[l])) !! Numbers(Members(added[l]))
    }

    // The files ever seen at a level: those of the base and those added since.
    ghost function Seen(level: nat): set<File>
      requires Shape() && level < NUM_LEVELS
      reads this
    {
      Members(base.files[level]) + Members(added[level])
    }

    // The files a level would have if it were saved now.
    ghost function Current(level: nat): set<File>
      requires Shape() && level < NUM_LEVELS
      reads this
    {
      set f | f in Seen(level) && f.number !in deleted[level]
    }

    constructor (base: Version, compactPointer: map<nat, InternalKey>)
      requires Ordered(base)
      ensures WellFormed() && this.base == base && this.compactPointer == compactPointer
      ensures forall l :: 0 <= l < NUM_LEVELS ==> added[l] == [] && deleted[l] == {}
    {
      this.base := base;
      this.compactPointer := compactPointer;
      deleted := seq(NUM_LEVELS, l => {});
      added := seq(NUM_LEVELS, l => []);
    }

    // Saving before the edit and then editing is editing and then saving.
    lemma AppliedToLevel(seen: set<File>, deletedBefore: set<nat>, edit: VersionEdit, level: nat)
      requires FreshAt(seen, edit, level)
      ensures (set f | f in seen + AddedAt(edit, level)
                     && f.number !in deletedBefore + DeletedAt(edit, level) - Numbers(AddedAt(edit, level)))
              == Edited((set f | f in seen && f.number !in deletedBefore), edit, level)
    {
      forall f | f in seen
        ensures f.number !in Numbers(AddedAt(edit, level))
      {
        assert f.number in Numbers(seen);
      }
    }

    method Apply(edit: VersionEdit)
      requires WellFormed() && EditOk(edit)
      requires forall l :: 0 <= l < NUM_LEVELS ==> FreshAt(Seen(l), edit, l)
      modifies this
      ensures WellFormed()
      ensures PointersFollow(old(compactPointer), edit.compactPointers, compactPointer)
      ensures forall l :: 0 <= l < NUM_LEVELS ==> Seen(l) == old(Seen(l)) + AddedAt(edit, l)
      ensures forall l :: 0 <= l < NUM_LEVELS ==> Current(l) == Edited(old(Current(l)), edit, l)
    {
      for i := 0 to |edit.compactPointers|
        invariant deleted == old(deleted) && added == old(added)
        invariant PointersFollow(old(compactPointer), edit.compactPointers[..i], compactPointer)
      {
        hide PointersFollow;
        PointerWritten(old(compactPointer), edit.compactPointers, i, compactPointer);
        compactPointer := compactPointer[edit.compactPointers[i].0 := edit.compactPointers[i].1];
      }
      assert edit.compactPointers[..|edit.compactPointers|] == edit.compactPointers;
      DeleteFiles(edit);
      forall l | 0 <= l < NUM_LEVELS
        ensures FreshAt(Seen(l), edit, l)
      {
        assert FreshAt(old(Seen(l)), edit, l);
      }
      AddFiles(edit);
      forall l | 0 <= l < NUM_LEVELS
        ensures Current(l) == Edited(old(Current(l)), edit, l)
      {
        AppliedToLevel(old(Seen(l)), old(deleted[l]), edit, l);
      }
    }

    method DeleteFiles(edit: VersionEdit)
      requires WellFormed() && EditOk(edit)
      modifies this`deleted
      ensures WellFormed()
      ensures forall l :: 0 <= l < NUM_LEVELS ==> deleted[l] == old(deleted[l]) + DeletedAt(edit, l)
    {
      var rest := edit.deleted;
      while rest != {}
        invariant WellFormed() && rest <= edit.deleted
        invariant forall l, n :: 0 <= l < NUM_LEVELS ==>
                    (n in deleted[l] <==> n in old(deleted[l]) || (l, n) in edit.deleted - rest)
        decreases |rest|
      {
        var d :| d in rest;
        deleted := deleted[d.0 := deleted[d.0] + {d.1}];
        rest := rest - {d};
      }
      forall l, n | 0 <= l < NUM_LEVELS
        ensures n in deleted[l] <==> n in old(deleted[l]) + DeletedAt(edit, l)
      {
        assert n in DeletedAt(edit, l) <==> (l, n) in edit.deleted;
      }
    }

    method AddFiles(edit: VersionEdit)
      requires WellFormed() && EditOk(edit)
      requires forall l :: 0 <= l < NUM_LEVELS ==> FreshAt(Seen(l), edit, l)
      modifies this`deleted, this`added
      ensures WellFormed()
      ensures forall l :: 0 <= l < NUM_LEVELS ==> deleted[l] == old(deleted[l]) - Numbers(AddedAt(edit, l))
      ensures forall l :: 0 <= l < NUM_LEVELS ==> Members(added[l]) == old(Members(added[l])) + AddedAt(edit, l)
    {
      hide FreshAt, Members, AddedBefore, AddedAt, InsertFile, SortedFiles;
      ghost var before := added;
      forall l | 0 <= l < NUM_LEVELS
        ensures FreshAt(Members(base.files[l]) + Members(before[l]), edit, l)
      {
        assert FreshAt(Seen(l), edit, l);
      }
      for i := 0 to |edit.added|
        invariant Shape()
        invariant forall l :: 0 <= l < NUM_LEVELS ==> deleted[l] == old(deleted[l]) - Numbers(AddedBefore(edit, i, l))
        invariant forall l :: 0 <= l < NUM_LEVELS ==> Members(added[l]) == Members(before[l]) + AddedBefore(edit, i, l)
      {
        var level, f := edit.added[i].0, edit.added[i].1;
        AddedStep(edit, i);
        FreshToInsert(Members(base.files[level]) + Members(before[level]), added[level], edit, i);
        InsertAddsMember(added[level], f);
        deleted := deleted[level := deleted[level] - {f.number}];
        added := added[level := InsertFile(added[level], f)];
      }
      forall l | 0 <= l < NUM_LEVELS
        ensures Numbers(Members(base.files[l])) !! Numbers(Members(added[l]))
      {
        StillDisjoint(Members(base.files[l]), Members(before[l]), edit, l);
      }
    }

    // SaveTo: the current files of every level, in order.
    method SaveTo() returns (v: Version)
      requires WellFormed()
      ensures Ordered(v)
      ensures forall l :: 0 <= l < NUM_LEVELS ==> Members(v.files[l]) == Current(l)
    {
      var files := [];
      for level := 0 to NUM_LEVELS
        invariant |files| == level
        invariant forall l :: 0 <= l < level ==> SortedFiles(files[l]) && Members(files[l]) == Current(l)
      {
        var merged := MergeFiles(base.files[level], added[level]);
        var saved := MaybeAddFiles(merged, deleted[level]);
        files := files + [saved];
      }
      v := Version(files);
    }
  }

  // MaybeAddFile over the merged files: those not deleted.
  method MaybeAddFiles(merged: seq<File>, deleted: set<nat>) returns (files: seq<File>)
    requires SortedFiles(merged)
    ensures SortedFiles(files)
    ensures Members(files) == set f | f in Members(merged) && f.number !in deleted
  {
    files := [];
    for i := 0 to |merged|
      invariant SortedFiles(files)
      invariant forall f :: f in files <==> f in merged[..i] && f.number !in deleted
    {
      var f := merged[i];
      assert merged[..i + 1] == merged[..i] + [f];
      if f.number !in deleted {
        forall k | 0 <= k < |files|
          ensures Precedes(files[k], f)
        {
          assert files[k] in files;
          var j :| 0 <= j < i && merged[..i][j] == files[k];
        }
        files := files + [f];
      }
    }
    assert merged[..|merged|] == merged;
  }

  // merged holds the first b base files and the first a added ones, and all others come after them.
  ghost predicate MergedSoFar(base: seq<File>, b: nat, added: seq<File>, a: nat, merged: seq<File>) {
    && b <= |base| && a <= |added| && SortedFiles(merged)
    && (forall f :: f in merged <==> f in base[..b] || f in added[..a])
    && (forall k, f :: b <= k < |base| && f in merged ==> Precedes(f, base[k]))
    && (forall k, f :: a <= k < |added| && f in merged ==> Precedes(f, added[k]))
  }

  lemma TakeBase(base: seq<File>, b: nat, added: seq<File>, a: nat, merged: seq<File>)
    requires SortedFiles(base) && MergedSoFar(base, b, added, a, merged) && b < |base|
    requires forall k :: a <= k < |added| ==> Precedes(base[b], added[k])
    ensures MergedSoFar(base, b + 1, added, a, merged + [base[b]])
  {
    assert base[..b + 1] == base[..b] + [base[b]];
    AppendSorted(merged, base[b]);
    PrecedesRest(base, b + 1, base[b]);
  }

  lemma AppendSorted(merged: seq<File>, f: File)
    requires SortedFiles(merged) && forall g :: g in merged ==> Precedes(g, f)
    ensures SortedFiles(merged + [f])
  {
  }

  lemma TakeAdded(base: seq<File>, b: nat, added: seq<File>, a: nat, merged: seq<File>)
    requires SortedFiles(added) && MergedSoFar(base, b, added, a, merged) && a < |added|
    requires forall k :: b <= k < |base| ==> Precedes(added[a], base[k])
    ensures MergedSoFar(base, b, added, a + 1, merged + [added[a]])
  {
    assert added[..a + 1] == added[..a] + [added[a]];
    AppendSorted(merged, added[a]);
    PrecedesRest(added, a + 1, added[a]);
  }

  lemma NoneMerged(base: seq<File>, added: seq<File>)
    ensures MergedSoFar(base, 0, added, 0, [])
  {
  }

  lemma AllMerged(base: seq<File>, added: seq<File>, merged: seq<File>)
    requires MergedSoFar(base, |base|, added, |added|, merged)
    ensures SortedFiles(merged) && Members(merged) == Members(base) + Members(added)
  {
    assert base[..|base|] == base && added[..|added|] == added;
  }

  // What precedes a file, or is the one before it, precedes all that follow.
  lemma PrecedesRest(fs: seq<File>, k: nat, f: File)
    requires SortedFiles(fs) && k <= |fs| && (k < |fs| ==> Precedes(f, fs[k]))
    ensures forall j :: k <= j < |fs| ==> Precedes(f, fs[j])
  {
    forall j | k <= j < |fs| ensures Precedes(f, fs[j]) {
      assert k < j ==> Precedes(fs[k], fs[j]);
    }
  }

  // The order in which SaveTo walks the base files and the added files.
  method MergeFiles(base: seq<File>, added: seq<File>) returns (merged: seq<File>)
    requires SortedFiles(base) && SortedFiles(added)
    requires Numbers(Members(base)) !! Numbers(Members(added))
    ensures SortedFiles(merged)
    ensures Members(merged) == Members(base) + Members(added)
  {
    hide MergedSoFar, SortedFiles, Precedes, Members, Numbers;
    merged := [];
    var b := 0;
    NoneMerged(base, added);
    for a := 0 to |added|
      invariant 0 <= b <= |base| && MergedSoFar(base, b, added, a, merged)
    {
      // std::upper_bound over the base files that are left
      while b < |base| && !Precedes(added[a], base[b])
        invariant 0 <= b <= |base| && MergedSoFar(base, b, added, a, merged)
      {
        NotTied(base, b, added, a);
        PrecedesRest(added, a, base[b]);
        TakeBase(base, b, added, a, merged);
        merged := merged + [base[b]];
        b := b + 1;
      }
      if b < |base| {
        PrecedesRest(base, b, added[a]);
      }
      TakeAdded(base, b, added, a, merged);
      merged := merged + [added[a]];
    }
    while b < |base|
      invariant 0 <= b <= |base| && MergedSoFar(base, b, added, |added|, merged)
    {
      TakeBase(base, b, added, |added|, merged);
      merged := merged + [base[b]];
      b := b + 1;
    }
    AllMerged(base, added, merged);
  }

  lemma NotTied(base: seq<File>, b: nat, added: seq<File>, a: nat)
    requires b < |base| && a < |added| && Numbers(Members(base)) !! Numbers(Members(added))
    ensures Precedes(added[a], base[b]) || Precedes(base[b], added[a])
  {
    assert base[b].number in Numbers(Members(base)) && added[a].number in Numbers(Members(added));
    Trichotomy(base[b].smallest, added[a].smallest);
  }

  // ---- One edit at a time, or all at once ----

  // LogAndApply, as far as the version goes.
  method LogAndApply(v: Version, edit: VersionEdit, pointers: map<nat, InternalKey>)
    returns (next: Version, compactPointer: map<nat, InternalKey>)
    requires Ordered(v) && EditOk(edit)
    requires forall l :: 0 <= l < NUM_LEVELS ==> FreshAt(Members(v.files[l]), edit, l)
    ensures Follows(v, edit, next)
    ensures PointersFollow(pointers, edit.compactPointers, compactPointer)
  {
    var builder := new Builder(v, pointers);
    builder.Apply(edit);
    next := builder.SaveTo();
    compactPointer := builder.compactPointer;
  }

  // The versions a database goes through when it applies the edits one at a time.
  ghost predicate IsHistory(edits: seq<VersionEdit>, versions: seq<Version>) {
    && |versions| == |edits| + 1 && Ordered(versions[0])
    && forall i :: 0 <= i < |edits| ==> EditOk(edits[i]) && Follows(versions[i], edits[i], versions[i + 1])
  }

  // The files a level has held at any point of the history up to version n.
  ghost function EverAt(edits: seq<VersionEdit>, base: Version, level: nat, n: nat): set<File>
    requires n <= |edits| && level < |base.files|
  {
    if n == 0 then Members(base.files[level]) else EverAt(edits, base, level, n - 1) + AddedAt(edits[n - 1], level)
  }

  // A (level, file number) pair is never used twice.
  ghost predicate NumbersNeverReused(edits: seq<VersionEdit>, base: Version) {
    |base.files| == NUM_LEVELS &&
    forall n, l :: 0 <= n < |edits| && 0 <= l < NUM_LEVELS ==> FreshAt(EverAt(edits, base, l, n), edits[n], l)
  }

  // The pair is the last one for its level in all the edits.
  ghost predicate IsLastInAll(edits: seq<VersionEdit>, n: nat, i: nat) {
    && n < |edits| && IsLastPair(edits[n].compactPointers, i)
    && forall m :: n < m < |edits| ==> !WritesLevel(edits[m].compactPointers, edits[n].compactPointers[i].0)
  }

  // Each level has the last key that any of the edits wrote for it, or what it had before.
  ghost predicate PointersFollowAll(pointers: map<nat, InternalKey>, edits: seq<VersionEdit>, next: map<nat, InternalKey>) {
    && (forall n: nat, i: nat :: IsLastInAll(edits, n, i) ==>
          Agree(map[edits[n].compactPointers[i].0 := edits[n].compactPointers[i].1], next, edits[n].compactPointers[i].0))
    && forall level: nat :: (forall n :: 0 <= n < |edits| ==> !WritesLevel(edits[n].compactPointers, level)) ==>
         Agree(pointers, next, level)
  }

  lemma PointersGoOn(pointers: map<nat, InternalKey>, edits: seq<VersionEdit>, k: nat, now: map<nat, InternalKey>, next: map<nat, InternalKey>)
    requires k < |edits| && PointersFollowAll(pointers, edits[..k], now)
    requires PointersFollow(now, edits[k].compactPointers, next)
    ensures PointersFollowAll(pointers, edits[..k + 1], next)
  {
    hide WritesLevel, IsLastPair;
    var done := edits[..k + 1];
    forall n: nat, i: nat | IsLastInAll(done, n, i)
      ensures i < |done[n].compactPointers|
      ensures Agree(map[done[n].compactPointers[i].0 := done[n].compactPointers[i].1], next, done[n].compactPointers[i].0)
    {
      InRange(done[n].compactPointers);
      var level := done[n].compactPointers[i].0;
      if n < k {
        assert IsLastInAll(edits[..k], n, i);
        assert !WritesLevel(done[k].compactPointers, level);
        assert Agree(now, next, level);
      }
    }
    forall level: nat | forall n :: 0 <= n < |done| ==> !WritesLevel(done[n].compactPointers, level)
      ensures Agree(pointers, next, level)
    {
      forall n | 0 <= n < k
        ensures !WritesLevel(edits[..k][n].compactPointers, level)
      {
        assert edits[..k][n] == done[n];
      }
      assert !WritesLevel(done[k].compactPointers, level);
      assert Agree(pointers, now, level) && Agree(now, next, level);
    }
  }

  // The pointers that a database goes through when it applies the edits one at a time.
  ghost predicate IsPointerHistory(edits: seq<VersionEdit>, maps: seq<map<nat, InternalKey>>) {
    |maps| == |edits| + 1 && forall i :: 0 <= i < |edits| ==> PointersFollow(maps[i], edits[i].compactPointers, maps[i + 1])
  }

  lemma {:induction false} OneAtATime(edits: seq<VersionEdit>, maps: seq<map<nat, InternalKey>>, k: nat)
    requires IsPointerHistory(edits, maps) && k <= |edits|
    ensures PointersFollowAll(maps[0], edits[..k], maps[k])
  {
    hide PointersFollow, PointersFollowAll;
    if k == 0 {
      NothingFollows(maps[0]);
      assert edits[..0] == [];
    } else {
      OneAtATime(edits, maps, k - 1);
      PointersGoOn(maps[0], edits, k - 1, maps[k - 1], maps[k]);
    }
  }

  lemma NothingFollows(pointers: map<nat, InternalKey>)
    ensures PointersFollowAll(pointers, [], pointers)
  {
  }

  lemma {:induction false} LastWriterExists(edits: seq<VersionEdit>, level: nat, k: nat) returns (n: nat, i: nat)
    requires k <= |edits| && exists m :: 0 <= m < k && WritesLevel(edits[m].compactPointers, level)
    requires forall m :: k <= m < |edits| ==> !WritesLevel(edits[m].compactPointers, level)
    ensures IsLastInAll(edits, n, i) && edits[n].compactPointers[i].0 == level
  {
    var written := edits[k - 1].compactPointers;
    if WritesLevel(written, level) {
      n := k - 1;
      i := LastPairExists(written, level, |written|);
    } else {
      n, i := LastWriterExists(edits, level, k - 1);
    }
  }

  lemma {:induction false} LastPairExists(written: seq<(nat, InternalKey)>, level: nat, k: nat) returns (i: nat)
    requires k <= |written| && exists j :: 0 <= j < k && written[j].0 == level
    requires forall j :: k <= j < |written| ==> written[j].0 != level
    ensures IsLastPair(written, i) && written[i].0 == level
  {
    if written[k - 1].0 == level {
      i := k - 1;
    } else {
      i := LastPairExists(written, level, k - 1);
    }
  }

  // What all the edits make of the pointers is unique.
  lemma PointersOnce(pointers: map<nat, InternalKey>, edits: seq<VersionEdit>, a: map<nat, InternalKey>, b: map<nat, InternalKey>)
    requires PointersFollowAll(pointers, edits, a) && PointersFollowAll(pointers, edits, b)
    ensures a == b
  {
    forall level: nat
      ensures Agree(a, b, level)
    {
      if exists m :: 0 <= m < |edits| && WritesLevel(edits[m].compactPointers, level) {
        var n, i := LastWriterExists(edits, level, |edits|);
        assert IsLastInAll(edits, n, i);
      } else {
        assert Agree(pointers, a, level) && Agree(pointers, b, level);
      }
    }
    AgreeingMaps(a, b);
  }

  // Recover: all edits of the manifest go through one builder that is saved once. The result is the
  // version, and the compaction pointers, that the database had when it last wrote the manifest.
  method Recover(edits: seq<VersionEdit>, base: Version, pointers: map<nat, InternalKey>, ghost history: seq<Version>,
                 ghost maps: seq<map<nat, InternalKey>>)
    returns (v: Version, compactPointer: map<nat, InternalKey>)
    requires IsHistory(edits, history) && history[0] == base && NumbersNeverReused(edits, base)
    requires IsPointerHistory(edits, maps) && maps[0] == pointers
    ensures v == history[|edits|]
    ensures compactPointer == maps[|edits|] && PointersFollowAll(pointers, edits, compactPointer)
  {
    hide PointersFollow, PointersFollowAll;
    NothingFollows(pointers);
    assert edits[..0] == [];
    var builder := new Builder(base, pointers);
    for i := 0 to |edits|
      invariant builder.WellFormed() && builder.base == base && Ordered(history[i])
      invariant forall l :: 0 <= l < NUM_LEVELS ==> builder.Seen(l) == EverAt(edits, base, l, i)
      invariant forall l :: 0 <= l < NUM_LEVELS ==> builder.Current(l) == Members(history[i].files[l])
      invariant PointersFollowAll(pointers, edits[..i], builder.compactPointer)
    {
      ghost var now := builder.compactPointer;
      builder.Apply(edits[i]);
      PointersGoOn(pointers, edits, i, now, builder.compactPointer);
      assert Follows(history[i], edits[i], history[i + 1]);
    }
    assert edits[..|edits|] == edits;
    v := builder.SaveTo();
    compactPointer := builder.compactPointer;
    SameFiles(v, history[|edits|]);
    OneAtATime(edits, maps, |edits|);
    PointersOnce(pointers, edits, compactPointer, maps[|edits|]);
  }

  lemma SameFiles(a: Version, b: Version)
    requires Ordered(a) && Ordered(b)
    requires forall l :: 0 <= l < NUM_LEVELS ==> Members(a.files[l]) == Members(b.files[l])
    ensures a == b
  {
    forall l | 0 <= l < NUM_LEVELS
      ensures a.files[l] == b.files[l]
    {
      SortedFilesUnique(a.files[l], b.files[l]);
    }
  }

  // The files that the first n additions of the edit put at a level.
  ghost function AddedBefore(edit: VersionEdit, n: nat, level: nat): set<File>
    requires n <= |edit.added|
    ensures n == |edit.added| ==> AddedBefore(edit, n, level) == AddedAt(edit, level)
    ensures n == 0 ==> AddedBefore(edit, n, level) == {}
  {
    set i | 0 <= i < n && edit.added[i].0 == level :: edit.added[i].1
  }
}
