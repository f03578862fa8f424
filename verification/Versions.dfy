/** db/version_set.cc, the read side: files, levels, and point lookups through them. */
module Versions {
  import opened Options
  import opened InternalKeys

  const NUM_LEVELS: nat := 7

  // FileMetaData together with the sorted contents of the table it names.
  datatype File = File(number: nat, size: nat, smallest: InternalKey, largest: InternalKey, entries: seq<Entry>)

  datatype Version = Version(files: seq<seq<File>>)

  ghost predicate FileOk(f: File) {
    && f.entries != [] && Sorted(f.entries)
    && f.smallest == f.entries[0].key && f.largest == f.entries[|f.entries| - 1].key
  }

  lemma FileSpan(f: File, e: Entry)
    requires FileOk(f) && e in f.entries
    ensures !e.key.Before(f.smallest) && !f.largest.Before(e.key)
    ensures f.smallest.user <= e.key.user <= f.largest.user
  {
  }

  // Whatever f and g both hold versions of, f holds the newer ones.
  ghost predicate FileNewer(f: File, g: File) {
    forall a, b :: a in f.entries && b in g.entries && a.key.user == b.key.user ==> Newer(a, b)
  }

  ghost predicate DisjointFiles(fs: seq<File>) {
    forall i, j :: 0 <= i < j < |fs| ==> fs[i].largest.Before(fs[j].smallest)
  }

  // Level 0: later files hold later writes.
  ghost predicate AgedByNumber(fs: seq<File>) {
    forall f, g :: f in fs && g in fs && f.number > g.number ==> FileNewer(f, g)
  }

  ghost predicate UniqueNumbers(fs: seq<File>) {
    forall i, j :: 0 <= i < j < |fs| ==> fs[i].number != fs[j].number
  }

  ghost predicate LevelOk(fs: seq<File>) {
    UniqueNumbers(fs) && forall f :: f in fs ==> FileOk(f)
  }

  lemma SameNumberSameFile(fs: seq<File>, f: File, g: File)
    requires UniqueNumbers(fs) && f in fs && g in fs
    ensures f.number == g.number ==> f == g
  {
    var i :| 0 <= i < |fs| && fs[i] == f;
    var j :| 0 <= j < |fs| && fs[j] == g;
  }

  // Entries never hop across levels: an upper level holds the newer versions of a key.
  ghost predicate LevelNewer(upper: seq<File>, lower: seq<File>) {
    forall f, g :: f in upper && g in lower ==> FileNewer(f, g)
  }

  ghost predicate VersionOk(v: Version) {
    && |v.files| == NUM_LEVELS
    && (forall l :: 0 <= l < NUM_LEVELS ==> LevelOk(v.files[l]))
    && AgedByNumber(v.files[0])
    && (forall l :: 1 <= l < NUM_LEVELS ==> DisjointFiles(v.files[l]))
    && (forall l, m :: 0 <= l < m < NUM_LEVELS ==> LevelNewer(v.files[l], v.files[m]))
  }

  ghost function Contents(fs: seq<File>): set<Entry> {
    set i, j | 0 <= i < |fs| && 0 <= j < |fs[i].entries| :: fs[i].entries[j]
  }

  lemma InContents(fs: seq<File>, e: Entry)
    ensures e in Contents(fs) <==> exists f :: f in fs && e in f.entries
  {
    if f :| f in fs && e in f.entries {
      var i :| 0 <= i < |fs| && fs[i] == f;
      var j :| 0 <= j < |fs[i].entries| && fs[i].entries[j] == e;
    }
  }

  // Every entry of the version, whatever the level.
  ghost function All(v: Version): set<Entry> {
    set l, e | 0 <= l < |v.files| && e in Contents(v.files[l]) :: e
  }

  // An entry of a version has one home: its level and its file.
  lemma Home(v: Version, e: Entry) returns (l: nat, f: File)
    requires e in All(v)
    ensures l < |v.files| && f in v.files[l] && e in f.entries
  {
    l :| 0 <= l < |v.files| && e in Contents(v.files[l]);
    InContents(v.files[l], e);
    f :| f in v.files[l] && e in f.entries;
  }

  lemma InAll(v: Version, l: nat, f: File, e: Entry)
    requires l < |v.files| && f in v.files[l] && e in f.entries
    ensures e in All(v)
  {
    InContents(v.files[l], e);
  }

  lemma DistinctInLevel(fs: seq<File>, f: File, g: File, a: Entry, b: Entry)
    requires LevelOk(fs) && (AgedByNumber(fs) || DisjointFiles(fs))
    requires f in fs && g in fs && a in f.entries && b in g.entries && a.key == b.key
    ensures a == b
  {
    var i :| 0 <= i < |fs| && fs[i] == f;
    var j :| 0 <= j < |fs| && fs[j] == g;
    FileSpan(f, a);
    FileSpan(g, b);
    assert i != j ==> fs[i].number != fs[j].number;
    assert f.number > g.number && AgedByNumber(fs) ==> FileNewer(f, g);
    assert g.number > f.number && AgedByNumber(fs) ==> FileNewer(g, f);
  }

  lemma AcrossLevels(v: Version, l: nat, f: File, m: nat, g: File)
    requires VersionOk(v) && l < NUM_LEVELS && m < NUM_LEVELS && f in v.files[l] && g in v.files[m]
    ensures l < m ==> FileNewer(f, g)
  {
    if l < m {
      assert LevelNewer(v.files[l], v.files[m]);
    }
  }

  lemma VersionDistinct(v: Version)
    requires VersionOk(v)
    ensures DistinctKeys(All(v))
  {
    forall a, b | a in All(v) && b in All(v) && a.key == b.key
      ensures a == b
    {
      var l, f := Home(v, a);
      var m, g := Home(v, b);
      AcrossLevels(v, l, f, m, g);
      AcrossLevels(v, m, g, l, f);
      assert l == m;
      DistinctInLevel(v.files[l], f, g, a, b);
    }
  }

  // ---- Point lookup ----

  ghost predicate LargestAscending(fs: seq<File>) {
    forall i, j :: 0 <= i < j < |fs| ==> fs[i].largest.Before(fs[j].largest)
  }

  lemma DisjointAscends(fs: seq<File>)
    requires LevelOk(fs) && DisjointFiles(fs)
    ensures LargestAscending(fs)
  {
    forall i, j | 0 <= i < j < |fs|
      ensures fs[i].largest.Before(fs[j].largest)
    {
      assert FileOk(fs[j]);
      FileSpan(fs[j], fs[j].entries[0]);
    }
  }

  // The first file whose largest key is not before `key`.
  method FindFile(files: seq<File>, key: InternalKey) returns (right: nat)
    requires LargestAscending(files)
    ensures right <= |files|
    ensures forall i :: 0 <= i < |files| ==> (i < right <==> files[i].largest.Before(key))
  {
    var left := 0;
    right := |files|;
    while left < right
      invariant left <= right <= |files|
      invariant forall i :: 0 <= i < left ==> files[i].largest.Before(key)
      invariant forall i :: right <= i < |files| ==> !files[i].largest.Before(key)
    {
      var mid := (left + right) / 2;
      if files[mid].largest.Before(key) {
        left := mid + 1;
      } else {
        right := mid;
      }
    }
  }

  // TableCache::Get up to the callback: the first entry of the table that is not before `key`.
  method TableGet(f: File, key: InternalKey) returns (found: Option<Entry>)
    requires FileOk(f)
    ensures found.None? ==> forall e :: e in f.entries ==> e.key.Before(key)
    ensures found.Some? ==> found.value in f.entries && !found.value.key.Before(key)
    ensures found.Some? ==> forall e :: e in f.entries && !e.key.Before(key) ==> e == found.value || found.value.key.Before(e.key)
  {
    var i := 0;
    while i < |f.entries| && f.entries[i].key.Before(key)
      invariant 0 <= i <= |f.entries|
      invariant forall j :: 0 <= j < i ==> f.entries[j].key.Before(key)
    {
      i := i + 1;
    }
    found := if i < |f.entries| then Some(f.entries[i]) else None;
  }

  // What SaveValue makes of the entry the table handed over.
  datatype SaverState = NotFound | Found(value: string) | Deleted

  function SaveValue(found: Option<Entry>, user: UserKey): SaverState {
    match found
    case None => NotFound
    case Some(e) =>
      if e.key.user != user then NotFound
      else if e.key.kind == Put then Found(e.value)
      else Deleted
  }

  ghost predicate HidesNothing(f: File, user: UserKey, snapshot: nat) {
    forall e :: e in f.entries ==> !Visible(e, user, snapshot)
  }

  ghost predicate NewestIn(f: File, e: Entry, user: UserKey, snapshot: nat) {
    && e in f.entries && Visible(e, user, snapshot)
    && forall x :: x in f.entries && Visible(x, user, snapshot) ==> !Newer(x, e)
  }

  // One file: either it has no visible version of the key, or the saver gets the newest one.
  method SearchFile(f: File, user: UserKey, snapshot: nat) returns (state: SaverState, ghost newest: Option<Entry>)
    requires FileOk(f)
    ensures state == NotFound ==> HidesNothing(f, user, snapshot)
    ensures state != NotFound ==> newest.Some? && NewestIn(f, newest.value, user, snapshot)
    ensures state.Found? ==> Outcome(newest.value) == Some(state.value)
    ensures state.Deleted? ==> Outcome(newest.value) == None
  {
    var found := TableGet(f, LookupKey(user, snapshot));
    state := SaveValue(found, user);
    newest := found;
    forall e | e in f.entries && e.key.user == user
      ensures Visible(e, user, snapshot) <==> !e.key.Before(LookupKey(user, snapshot))
    {
      LookupKeySplitsVersions(e.key, snapshot);
    }
  }

  // std::sort with NewestFirst.
  function SortNewestFirst(fs: seq<File>): (r: seq<File>)
    ensures forall f :: f in r <==> f in fs
    ensures forall i, j :: 0 <= i < j < |r| ==> r[i].number >= r[j].number
  {
    if fs == [] then []
    else
      assert fs == [fs[0]] + fs[1..];
      InsertNewest(fs[0], SortNewestFirst(fs[1..]))
  }

  function InsertNewest(f: File, fs: seq<File>): (r: seq<File>)
    requires forall i, j :: 0 <= i < j < |fs| ==> fs[i].number >= fs[j].number
    ensures forall g :: g in r <==> g == f || g in fs
    ensures forall i, j :: 0 <= i < j < |r| ==> r[i].number >= r[j].number
  {
    if fs == [] || f.number >= fs[0].number then [f] + fs
    else
      assert fs == [fs[0]] + fs[1..];
      assert forall g :: g in fs[1..] ==> g.number <= fs[0].number;
      var rest := InsertNewest(f, fs[1..]);
      assert forall i :: 0 <= i < |rest| ==> rest[i] in rest;
      [fs[0]] + rest
  }

  predicate CoversUser(f: File, user: UserKey) {
    f.smallest.user <= user <= f.largest.user
  }

  // Some file of `files` holds a newer visible version than e.
  ghost predicate Superseded(files: seq<File>, e: Entry, user: UserKey, snapshot: nat) {
    exists f, a :: f in files && a in f.entries && Visible(a, user, snapshot) && Newer(a, e)
  }

  // The files of a level that Get looks into, in the order in which it looks.
  method FilesToSearch(v: Version, level: nat, user: UserKey, snapshot: nat) returns (files: seq<File>)
    requires VersionOk(v) && level < NUM_LEVELS
    ensures forall f :: f in files ==> f in v.files[level]
    ensures forall f, e :: f in v.files[level] && f !in files && e in f.entries && Visible(e, user, snapshot) ==>
              Superseded(files, e, user, snapshot)
    ensures level == 0 ==> forall i, j :: 0 <= i < j < |files| ==> files[i].number >= files[j].number
    ensures level > 0 ==> |files| <= 1
  {
    if level == 0 {
      var tmp := [];
      for i := 0 to |v.files[0]|
        invariant forall f :: f in tmp <==> f in v.files[0][..i] && CoversUser(f, user)
      {
        var f := v.files[0][i];
        if CoversUser(f, user) {
          tmp := tmp + [f];
        }
        assert v.files[0][..i + 1] == v.files[0][..i] + [f];
      }
      assert v.files[0][..|v.files[0]|] == v.files[0];
      forall f, e | f in v.files[0] && f !in tmp && e in f.entries
        ensures e.key.user != user
      {
        FileSpan(f, e);
      }
      files := SortNewestFirst(tmp);
    } else {
      DisjointAscends(v.files[level]);
      var index := FindFile(v.files[level], LookupKey(user, snapshot));
      OnlyCandidate(v.files[level], index, user, snapshot);
      if index >= |v.files[level]| {
        files := [];
      } else if user < v.files[level][index].smallest.user {
        files := [];
      } else {
        files := [v.files[level][index]];
      }
    }
  }

  // On a sorted level the file found by binary search is the only one that can matter: files before
  // it hold nothing visible, files after it only versions older than its last one.
  lemma OnlyCandidate(fs: seq<File>, index: nat, user: UserKey, snapshot: nat)
    requires LevelOk(fs) && DisjointFiles(fs) && index <= |fs|
    requires forall i :: 0 <= i < |fs| ==> (i < index <==> fs[i].largest.Before(LookupKey(user, snapshot)))
    ensures forall f, e :: f in fs && e in f.entries && Visible(e, user, snapshot) ==>
              && index < |fs| && fs[index].smallest.user <= user
              && (f != fs[index] ==> Superseded([fs[index]], e, user, snapshot))
  {
    forall f, e | f in fs && e in f.entries && Visible(e, user, snapshot)
      ensures index < |fs| && fs[index].smallest.user <= user
      ensures f != fs[index] ==> Superseded([fs[index]], e, user, snapshot)
    {
      var i :| 0 <= i < |fs| && fs[i] == f;
      FileSpan(f, e);
      if i > index {
        assert FileOk(fs[index]);
        var last := fs[index].entries[|fs[index].entries| - 1];
        FileSpan(fs[index], last);
        assert fs[index].largest.Before(f.smallest);
        LookupKeySplitsVersions(last.key, snapshot);
        assert fs[index] in [fs[index]] && last in fs[index].entries && Visible(last, user, snapshot) && Newer(last, e);
      }
    }
  }

  // Version::Get: level by level, in a level file by file, the first version found decides.
  method Get(v: Version, user: UserKey, snapshot: nat) returns (result: Option<string>)
    requires VersionOk(v)
    ensures result == Read(All(v), user, snapshot)
  {
    for level := 0 to NUM_LEVELS
      invariant forall l, f :: 0 <= l < level && f in v.files[l] ==> HidesNothing(f, user, snapshot)
    {
      var files := FilesToSearch(v, level, user, snapshot);
      for i := 0 to |files|
        invariant forall j :: 0 <= j < i ==> HidesNothing(files[j], user, snapshot)
      {
        assert files[i] in v.files[level] && LevelOk(v.files[level]);
        var state, newest := SearchFile(files[i], user, snapshot);
        match state {
          case NotFound =>
          case Found(value) =>
            FirstHitIsNewest(v, level, files, i, newest.value, user, snapshot);
            return Some(value);
          case Deleted =>
            FirstHitIsNewest(v, level, files, i, newest.value, user, snapshot);
            return None;
        }
      }
      forall f | f in v.files[level]
        ensures HidesNothing(f, user, snapshot)
      {
      }
    }
    forall e | e in All(v)
      ensures !Visible(e, user, snapshot)
    {
      var l, f := Home(v, e);
      assert HidesNothing(f, user, snapshot);
    }
    return None;
  }

  lemma FirstHitIsNewest(v: Version, level: nat, files: seq<File>, i: nat, newest: Entry, user: UserKey, snapshot: nat)
    requires VersionOk(v) && level < NUM_LEVELS && i < |files|
    requires forall f :: f in files ==> f in v.files[level]
    requires forall l, f :: 0 <= l < level && f in v.files[l] ==> HidesNothing(f, user, snapshot)
    requires forall f, e :: f in v.files[level] && f !in files && e in f.entries && Visible(e, user, snapshot) ==>
               Superseded(files, e, user, snapshot)
    requires level == 0 ==> forall i, j :: 0 <= i < j < |files| ==> files[i].number >= files[j].number
    requires level > 0 ==> |files| <= 1
    requires forall j :: 0 <= j < i ==> HidesNothing(files[j], user, snapshot)
    requires NewestIn(files[i], newest, user, snapshot)
    ensures Read(All(v), user, snapshot) == Outcome(newest)
  {
    InAll(v, level, files[i], newest);
    forall e | e in All(v) && Visible(e, user, snapshot)
      ensures !Newer(e, newest)
    {
      var l, f := Home(v, e);
      if l == level {
        if f in files {
          AgainstSearched(v, level, files, i, newest, f, e, user, snapshot);
        } else {
          var g, a :| g in files && a in g.entries && Visible(a, user, snapshot) && Newer(a, e);
          AgainstSearched(v, level, files, i, newest, g, a, user, snapshot);
        }
      } else {
        assert l < level ==> HidesNothing(f, user, snapshot);
        assert LevelNewer(v.files[level], v.files[l]);
        assert FileNewer(files[i], f);
      }
    }
    VersionDistinct(v);
    ReadIsNewest(All(v), newest, user, snapshot);
  }

  lemma AgainstSearched(v: Version, level: nat, files: seq<File>, i: nat, newest: Entry, f: File, e: Entry,
                        user: UserKey, snapshot: nat)
    requires VersionOk(v) && level < NUM_LEVELS && i < |files|
    requires forall f :: f in files ==> f in v.files[level]
    requires level == 0 ==> forall i, j :: 0 <= i < j < |files| ==> files[i].number >= files[j].number
    requires level > 0 ==> |files| <= 1
    requires forall j :: 0 <= j < i ==> HidesNothing(files[j], user, snapshot)
    requires NewestIn(files[i], newest, user, snapshot)
    requires f in files && e in f.entries && Visible(e, user, snapshot)
    ensures !Newer(e, newest)
  {
    var j :| 0 <= j < |files| && files[j] == f;
    SameNumberSameFile(v.files[level], files[i], f);
  }
}
