/** db/version_set.cc, choosing what to compact: overlap closure, boundary files, and both input sets. */
module InputSelection {
  import opened Options
  import opened InternalKeys
  import opened Versions

  // A range of user keys; None is unbounded on that side.
  datatype Range = Range(begin: Option<UserKey>, end: Option<UserKey>)

  predicate Overlaps(f: File, r: Range) {
    && !(r.begin.Some? && f.largest.user < r.begin.value)
    && !(r.end.Some? && f.smallest.user > r.end.value)
  }

  predicate Within(f: File, r: Range) {
    && (r.begin.Some? ==> r.begin.value <= f.smallest.user)
    && (r.end.Some? ==> f.largest.user <= r.end.value)
  }

  ghost predicate Covers(outer: Range, inner: Range) {
    && (outer.begin.Some? ==> inner.begin.Some? && outer.begin.value <= inner.begin.value)
    && (outer.end.Some? ==> inner.end.Some? && inner.end.value <= outer.end.value)
  }

  // Nothing that overlaps the range sticks out of it.
  ghost predicate Closed(fs: seq<File>, r: Range) {
    forall f :: f in fs && Overlaps(f, r) ==> Within(f, r)
  }

  // The files overlapping the range, in their order.
  function Select(fs: seq<File>, r: Range): (s: seq<File>)
    ensures forall f :: f in s <==> f in fs && Overlaps(f, r)
    ensures |s| <= |fs|
  {
    if fs == [] then []
    else
      var last := fs[|fs| - 1];
      assert fs == fs[..|fs| - 1] + [last];
      Select(fs[..|fs| - 1], r) + if Overlaps(last, r) then [last] else []
  }

  // How many files stick out of the range on either side.
  function SticksOut(fs: seq<File>, r: Range): nat {
    if fs == [] then 0
    else (if r.begin.Some? && fs[0].smallest.user < r.begin.value then 1 else 0)
         + (if r.end.Some? && fs[0].largest.user > r.end.value then 1 else 0)
         + SticksOut(fs[1..], r)
  }

  // The range after taking in a file that sticks out of it: on the left if it does, else on the right.
  function Widen(r: Range, f: File): Range {
    if r.begin.Some? && f.smallest.user < r.begin.value then Range(Some(f.smallest.user), r.end)
    else if r.end.Some? && f.largest.user > r.end.value then Range(r.begin, Some(f.largest.user))
    else r
  }

  lemma {:induction false} WideningLowers(fs: seq<File>, r: Range, f: File)
    ensures SticksOut(fs, Widen(r, f)) <= SticksOut(fs, r)
    ensures f in fs && Widen(r, f) != r ==> SticksOut(fs, Widen(r, f)) < SticksOut(fs, r)
  {
    if fs != [] {
      assert fs == [fs[0]] + fs[1..];
      WideningLowers(fs[1..], r, f);
    }
  }

  // Every closed range over `range` takes in r.
  ghost predicate Least(fs: seq<File>, range: Range, r: Range) {
    forall c :: Closed(fs, c) && Covers(c, range) ==> Covers(c, r)
  }

  lemma LeastAtFirst(fs: seq<File>, range: Range)
    ensures Least(fs, range, range)
  {
  }

  lemma WideningStaysLeast(fs: seq<File>, range: Range, r: Range, f: File)
    requires Least(fs, range, r) && f in fs && FileOk(f) && Overlaps(f, r)
    ensures Least(fs, range, Widen(r, f))
  {
    FileSpan(f, f.entries[0]);
    forall c | Closed(fs, c) && Covers(c, range)
      ensures Covers(c, Widen(r, f))
    {
      assert Covers(c, r) && Overlaps(f, c);
    }
  }

  // What a scan of the first i files has established.
  ghost predicate Scanned(files: seq<File>, level: nat, range: Range, i: nat, r: Range, inputs: seq<File>) {
    && i <= |files| && inputs == Select(files[..i], r) && Covers(r, range)
    && (r.begin.Some? <==> range.begin.Some?) && (r.end.Some? <==> range.end.Some?)
    && (level > 0 ==> r == range)
    && (level == 0 ==> Closed(files[..i], r) && Least(files, range, r))
  }

  lemma ScanStarts(files: seq<File>, level: nat, range: Range)
    ensures Scanned(files, level, range, 0, range, [])
  {
    LeastAtFirst(files, range);
  }

  lemma ScanSkips(files: seq<File>, level: nat, range: Range, i: nat, r: Range, inputs: seq<File>)
    requires Scanned(files, level, range, i, r, inputs) && i < |files| && !Overlaps(files[i], r)
    ensures Scanned(files, level, range, i + 1, r, inputs)
  {
    hide Least, Covers;
    assert files[..i + 1] == files[..i] + [files[i]];
    SelectOneMore(files, i, r);
  }

  lemma ScanTakes(files: seq<File>, level: nat, range: Range, i: nat, r: Range, inputs: seq<File>)
    requires Scanned(files, level, range, i, r, inputs) && i < |files| && Overlaps(files[i], r)
    requires level == 0 ==> Within(files[i], r)
    ensures Scanned(files, level, range, i + 1, r, inputs + [files[i]])
  {
    hide Least, Covers;
    assert files[..i + 1] == files[..i] + [files[i]];
    SelectOneMore(files, i, r);
  }

  lemma SelectOneMore(files: seq<File>, i: nat, r: Range)
    requires i < |files|
    ensures Select(files[..i + 1], r) == Select(files[..i], r) + if Overlaps(files[i], r) then [files[i]] else []
  {
    assert files[..i + 1][..i] == files[..i];
  }

  lemma ScanRestarts(files: seq<File>, range: Range, i: nat, r: Range, inputs: seq<File>)
    requires Scanned(files, 0, range, i, r, inputs) && i < |files| && Overlaps(files[i], r) && !Within(files[i], r)
    requires forall f :: f in files ==> FileOk(f)
    ensures Scanned(files, 0, range, 0, Widen(r, files[i]), [])
    ensures SticksOut(files, Widen(r, files[i])) < SticksOut(files, r)
  {
    hide Select, Least;
    WideningLowers(files, r, files[i]);
    WideningStaysLeast(files, range, r, files[i]);
    NothingSelected(files, Widen(r, files[i]));
  }

  lemma NothingSelected(files: seq<File>, r: Range)
    ensures Select(files[..0], r) == [] && Closed(files[..0], r)
  {
  }

  lemma ScanEnds(files: seq<File>, level: nat, range: Range, r: Range, inputs: seq<File>)
    requires Scanned(files, level, range, |files|, r, inputs)
    ensures inputs == Select(files, r)
    ensures level > 0 ==> r == range
    ensures level == 0 ==> Closed(files, r) && Covers(r, range) && Least(files, range, r)
  {
    hide Select, Closed, Least, Covers;
    assert files[..|files|] == files;
  }

  // GetOverlappingInputs. On level 0 a file that sticks out widens the range and the scan restarts.
  method GetOverlappingInputs(v: Version, level: nat, range: Range) returns (inputs: seq<File>, ghost closed: Range)
    requires VersionOk(v) && level < NUM_LEVELS
    ensures inputs == Select(v.files[level], closed)
    ensures level > 0 ==> closed == range
    ensures level == 0 ==> Closed(v.files[0], closed) && Covers(closed, range)
    ensures level == 0 ==> Least(v.files[0], range, closed)
  {
    hide Least, Closed, Covers, Select, Scanned, SticksOut, FileOk;
    var files := v.files[level];
    ScanStarts(files, level, range);
    var userBegin, userEnd := range.begin, range.end;
    inputs := [];
    var i := 0;
    while i < |files|
      invariant 0 <= i <= |files| && Scanned(files, level, range, i, Range(userBegin, userEnd), inputs)
      decreases SticksOut(files, Range(userBegin, userEnd)), |files| - i
    {
      var f := files[i];
      ghost var r := Range(userBegin, userEnd);
      var fileStart, fileLimit := f.smallest.user, f.largest.user;
      if userBegin.Some? && fileLimit < userBegin.value {
        ScanSkips(files, level, range, i, r, inputs);    // completely before the range
        i := i + 1;
      } else if userEnd.Some? && fileStart > userEnd.value {
        ScanSkips(files, level, range, i, r, inputs);    // completely after the range
        i := i + 1;
      } else if level == 0 && userBegin.Some? && fileStart < userBegin.value {
        ScanRestarts(files, range, i, r, inputs);
        userBegin := Some(fileStart);
        inputs := [];
        i := 0;
      } else if level == 0 && userEnd.Some? && fileLimit > userEnd.value {
        ScanRestarts(files, range, i, r, inputs);
        userEnd := Some(fileLimit);
        inputs := [];
        i := 0;
      } else {
        ScanTakes(files, level, range, i, r, inputs);
        inputs := inputs + [f];
        i := i + 1;
      }
    }
    closed := Range(userBegin, userEnd);
    ScanEnds(files, level, range, closed, inputs);
  }

  // ---- Boundary files ----

  ghost predicate IsLargest(fs: seq<File>, key: InternalKey) {
    && (exists f :: f in fs && f.largest == key)
    && forall f :: f in fs ==> !key.Before(f.largest)
  }

  method FindLargestKey(files: seq<File>) returns (key: Option<InternalKey>)
    ensures key.None? <==> files == []
    ensures key.Some? ==> IsLargest(files, key.value)
  {
    if files == [] {
      return None;
    }
    var largest := files[0].largest;
    assert files[0] in files[..1];
    for i := 1 to |files|
      invariant IsLargest(files[..i], largest)
    {
      assert files[..i + 1] == files[..i] + [files[i]];
      if largest.Before(files[i].largest) {
        largest := files[i].largest;
      }
    }
    assert files[..|files|] == files;
    return Some(largest);
  }

  // f starts with an older version of the user key that `key` ends with.
  predicate Continues(key: InternalKey, f: File) {
    key.Before(f.smallest) && f.smallest.user == key.user
  }

  ghost predicate IsSmallestBoundary(fs: seq<File>, key: InternalKey, b: Option<File>) {
    match b
    case None => forall f :: f in fs ==> !Continues(key, f)
    case Some(g) => g in fs && Continues(key, g) && forall f :: f in fs && Continues(key, f) ==> !f.smallest.Before(g.smallest)
  }

  method FindSmallestBoundaryFile(levelFiles: seq<File>, largestKey: InternalKey) returns (boundary: Option<File>)
    ensures IsSmallestBoundary(levelFiles, largestKey, boundary)
  {
    boundary := None;
    for i := 0 to |levelFiles|
      invariant IsSmallestBoundary(levelFiles[..i], largestKey, boundary)
    {
      var f := levelFiles[i];
      assert levelFiles[..i + 1] == levelFiles[..i] + [f];
      if largestKey.Before(f.smallest) && f.smallest.user == largestKey.user {
        if boundary == None || f.smallest.Before(boundary.value.smallest) {
          boundary := Some(f);
        }
      }
    }
    assert levelFiles[..|levelFiles|] == levelFiles;
  }

  function ChainKey(key: InternalKey, added: seq<File>): InternalKey {
    if added == [] then key else added[|added| - 1].largest
  }

  // Each file of `added` is the smallest boundary file of what stands before it.
  ghost predicate Links(fs: seq<File>, key: InternalKey, added: seq<File>) {
    added == [] ||
    var last := |added| - 1;
    Links(fs, key, added[..last]) && IsSmallestBoundary(fs, ChainKey(key, added[..last]), Some(added[last]))
  }

  // ... and nothing continues the last one.
  ghost predicate IsBoundaryChain(fs: seq<File>, key: InternalKey, added: seq<File>) {
    Links(fs, key, added) && IsSmallestBoundary(fs, ChainKey(key, added), None)
  }

  function FilesAfter(fs: seq<File>, key: InternalKey): nat {
    if fs == [] then 0 else (if key.Before(fs[0].smallest) then 1 else 0) + FilesAfter(fs[1..], key)
  }

  lemma {:induction false} RisingLeavesFewer(fs: seq<File>, key: InternalKey, f: File)
    requires FileOk(f) && key.Before(f.smallest)
    ensures FilesAfter(fs, f.largest) <= FilesAfter(fs, key)
    ensures f in fs ==> FilesAfter(fs, f.largest) < FilesAfter(fs, key)
  {
    FileSpan(f, f.entries[0]);
    if fs != [] {
      assert fs == [fs[0]] + fs[1..];
      RisingLeavesFewer(fs[1..], key, f);
    }
  }

  method AddBoundaryInputs(levelFiles: seq<File>, files: seq<File>)
    returns (extended: seq<File>, ghost added: seq<File>, ghost key: InternalKey)
    requires LevelOk(levelFiles)
    ensures extended == files + added
    ensures files == [] ==> added == []
    ensures files != [] ==> IsLargest(files, key) && IsBoundaryChain(levelFiles, key, added)
  {
    extended, added := files, [];
    key := InternalKey(0.0, 0, Deletion);
    var largest := FindLargestKey(files);
    if largest == None {
      return;
    }
    key := largest.value;
    var largestKey, searching := largest.value, true;
    while searching
      invariant extended == files + added
      invariant largestKey == ChainKey(key, added)
      invariant Links(levelFiles, key, added)
      invariant !searching ==> IsSmallestBoundary(levelFiles, largestKey, None)
      decreases searching, FilesAfter(levelFiles, largestKey)
    {
      var boundary := FindSmallestBoundaryFile(levelFiles, largestKey);
      if boundary != None {
        RisingLeavesFewer(levelFiles, largestKey, boundary.value);
        extended := extended + [boundary.value];
        assert (added + [boundary.value])[..|added|] == added;
        added := added + [boundary.value];
        largestKey := boundary.value.largest;
      } else {
        searching := false;
      }
    }
  }

  // On a sorted level the chain is the run of neighbours, up to a change of user key.
  lemma LastOfRunIsLargest(fs: seq<File>, a: nat, b: nat, key: InternalKey)
    requires LevelOk(fs) && DisjointFiles(fs) && a < b <= |fs| && IsLargest(fs[a..b], key)
    ensures key == fs[b - 1].largest
  {
    var f :| f in fs[a..b] && f.largest == key;
    DisjointAscends(fs);
    assert fs[b - 1] in fs[a..b];
  }

  lemma {:induction false} BoundaryChainIsRun(fs: seq<File>, b: nat, key: InternalKey, added: seq<File>)
    requires LevelOk(fs) && DisjointFiles(fs) && 0 < b <= |fs|
    requires key == fs[b - 1].largest && Links(fs, key, added)
    ensures b + |added| <= |fs| && added == fs[b..b + |added|]
    ensures ChainKey(key, added) == fs[b + |added| - 1].largest
  {
    if added != [] {
      var last := |added| - 1;
      BoundaryChainIsRun(fs, b, key, added[..last]);
      NextBoundary(fs, b + last, added[last]);
      assert added == added[..last] + [added[last]];
    }
  }

  lemma NextBoundary(fs: seq<File>, b: nat, next: File)
    requires LevelOk(fs) && DisjointFiles(fs) && 0 < b <= |fs|
    requires IsSmallestBoundary(fs, fs[b - 1].largest, Some(next))
    ensures b < |fs| && next == fs[b]
  {
    var i :| 0 <= i < |fs| && fs[i] == next;
    DisjointAscends(fs);
    assert FileOk(fs[i]);
    FileSpan(fs[i], fs[i].entries[0]);
    assert i >= b;
    assert FileOk(fs[b]);
    FileSpan(fs[b], fs[b].entries[0]);
    assert fs[b - 1].largest.Before(fs[b].smallest);
    assert i > b ==> fs[b].largest.Before(fs[i].smallest);
    assert fs[b] in fs;
  }

  // ---- What must not be left behind ----

  // The files of the level that stay hold newer versions than the chosen ones.
  ghost predicate KeepsNewer(fs: seq<File>, chosen: seq<File>) {
    forall f, g :: f in chosen && g in fs && g !in chosen ==> FileNewer(g, f)
  }

  lemma RunKeepsNewer(fs: seq<File>, a: nat, c: nat)
    requires LevelOk(fs) && DisjointFiles(fs) && a < c <= |fs|
    requires c < |fs| ==> !Continues(fs[c - 1].largest, fs[c])
    ensures KeepsNewer(fs, fs[a..c])
  {
    forall f, g, x, y | f in fs[a..c] && g in fs && g !in fs[a..c] && y in g.entries && x in f.entries
                        && x.key.user == y.key.user
      ensures Newer(y, x)
    {
      var j :| a <= j < c && fs[j] == f;
      var i :| 0 <= i < |fs| && fs[i] == g;
      FileSpan(f, x);
      FileSpan(g, y);
      InSlice(fs, a, c, i);
      if i >= c {
        UsersEndAtCut(fs, c, j, i);
      }
    }
  }

  lemma InSlice(fs: seq<File>, a: nat, c: nat, i: nat)
    requires a <= c <= |fs|
    ensures a <= i < c ==> fs[i] in fs[a..c]
  {
    assert a <= i < c ==> fs[i] == fs[a..c][i - a];
  }

  // A cut between two user keys separates the user keys of the files on its two sides.
  lemma UsersEndAtCut(fs: seq<File>, c: nat, j: nat, i: nat)
    requires LevelOk(fs) && DisjointFiles(fs) && j < c <= i < |fs|
    requires !Continues(fs[c - 1].largest, fs[c])
    ensures fs[j].largest.user < fs[i].smallest.user
  {
    RunSpan(fs, j, c - 1);
    RunSpan(fs, c, i);
    assert fs[c - 1].largest.Before(fs[c].smallest);
  }

  lemma RunSpan(fs: seq<File>, i: nat, j: nat)
    requires LevelOk(fs) && DisjointFiles(fs) && i <= j < |fs|
    ensures fs[i].smallest.user <= fs[j].smallest.user && fs[i].largest.user <= fs[j].largest.user
  {
    assert FileOk(fs[i]) && FileOk(fs[j]);
    FileSpan(fs[i], fs[i].entries[0]);
    FileSpan(fs[j], fs[j].entries[0]);
  }

  lemma ClosedKeepsNewer(fs: seq<File>, r: Range)
    requires LevelOk(fs) && Closed(fs, r)
    ensures KeepsNewer(fs, Select(fs, r))
  {
    forall f, g, x, y | f in Select(fs, r) && g in fs && g !in Select(fs, r) && y in g.entries && x in f.entries
      ensures x.key.user != y.key.user
    {
      FileSpan(f, x);
      FileSpan(g, y);
    }
  }

  // A closed selection has no boundary files to add.
  lemma ClosedHasNoBoundary(fs: seq<File>, r: Range, key: InternalKey, added: seq<File>)
    requires LevelOk(fs) && Closed(fs, r)
    requires IsLargest(Select(fs, r), key) && Links(fs, key, added)
    ensures added == []
  {
    var f :| f in Select(fs, r) && f.largest == key;
    assert FileOk(f);
    FileSpan(f, f.entries[0]);
    forall b | b in fs
      ensures !Continues(key, b)
    {
      assert FileOk(b);
      FileSpan(b, b.entries[0]);
      assert Continues(key, b) ==> b in Select(fs, r);
    }
    LinksFromFirst(fs, key, added);
  }

  lemma {:induction false} LinksFromFirst(fs: seq<File>, key: InternalKey, added: seq<File>)
    requires Links(fs, key, added) && forall b :: b in fs ==> !Continues(key, b)
    ensures added == []
  {
    if added != [] {
      LinksFromFirst(fs, key, added[..|added| - 1]);
    }
  }

  lemma OverlapBetween(fs: seq<File>, r: Range, i: nat, j: nat, k: nat)
    requires LevelOk(fs) && DisjointFiles(fs) && i <= j <= k < |fs|
    requires Overlaps(fs[i], r) && Overlaps(fs[k], r)
    ensures Overlaps(fs[j], r)
  {
    RunSpan(fs, i, j);
    RunSpan(fs, j, k);
  }

  lemma NotInOwnPrefix(fs: seq<File>, a: nat, b: nat)
    requires UniqueNumbers(fs) && a <= b < |fs|
    ensures fs[b] !in fs[a..b]
  {
  }

  // The first file after a nonempty run of overlapping files does not overlap, nor does any later one.
  lemma RunEnds(fs: seq<File>, r: Range, a: nat, b: nat, k: nat)
    requires LevelOk(fs) && DisjointFiles(fs) && a < b <= k < |fs|
    requires Select(fs[..k], r) == fs[a..b] && Overlaps(fs[k], r)
    ensures b == k
  {
    InSlice(fs, a, b, b - 1);
    assert fs[b - 1] in Select(fs[..k], r);
    OverlapBetween(fs, r, b - 1, b, k);
    NotInOwnPrefix(fs, a, b);
    InSlice(fs, 0, k, b);
    assert fs[0..k] == fs[..k];
  }

  lemma SelectStep(fs: seq<File>, r: Range, n: nat)
    requires 0 < n <= |fs|
    ensures Select(fs[..n], r) == Select(fs[..n - 1], r) + if Overlaps(fs[n - 1], r) then [fs[n - 1]] else []
  {
    assert fs[..n][..n - 1] == fs[..n - 1];
  }

  lemma GrowSlice(fs: seq<File>, a: nat, n: nat)
    requires a < n <= |fs|
    ensures fs[a..n - 1] + [fs[n - 1]] == fs[a..n]
  {
  }

  // One more file continues the run, starts it, or does not overlap.
  lemma RunGrows(fs: seq<File>, r: Range, n: nat, a: nat, b: nat) returns (a': nat, b': nat)
    requires LevelOk(fs) && DisjointFiles(fs) && a <= b < n <= |fs|
    requires Select(fs[..n - 1], r) == fs[a..b]
    ensures a' <= b' <= n && Select(fs[..n], r) == fs[a'..b']
  {
    hide LevelOk, DisjointFiles, Overlaps, Select;
    SelectStep(fs, r, n);
    a', b' := a, b;
    if Overlaps(fs[n - 1], r) {
      if a < b {
        RunEnds(fs, r, a, b, n - 1);
      } else {
        a' := n - 1;
      }
      b' := n;
      GrowSlice(fs, a', n);
    }
  }

  // On a sorted level the files overlapping a range are neighbours.
  lemma {:induction false} SelectIsRun(fs: seq<File>, r: Range, n: nat) returns (a: nat, b: nat)
    requires LevelOk(fs) && DisjointFiles(fs) && n <= |fs|
    ensures a <= b <= n && Select(fs[..n], r) == fs[a..b]
  {
    if n == 0 {
      a, b := 0, 0;
    } else {
      a, b := SelectIsRun(fs, r, n - 1);
      a, b := RunGrows(fs, r, n, a, b);
    }
  }

  // ---- Both input sets ----

  ghost predicate IsRange(fs: seq<File>, smallest: InternalKey, largest: InternalKey) {
    && (exists f :: f in fs && f.smallest == smallest)
    && (forall f :: f in fs ==> !f.smallest.Before(smallest))
    && IsLargest(fs, largest)
  }

  method GetRange(inputs: seq<File>) returns (smallest: InternalKey, largest: InternalKey)
    requires inputs != []
    ensures IsRange(inputs, smallest, largest)
  {
    smallest, largest := inputs[0].smallest, inputs[0].largest;
    assert inputs[0] in inputs[..1];
    for i := 1 to |inputs|
      invariant IsRange(inputs[..i], smallest, largest)
    {
      assert inputs[..i + 1] == inputs[..i] + [inputs[i]];
      if inputs[i].smallest.Before(smallest) {
        smallest := inputs[i].smallest;
      }
      if largest.Before(inputs[i].largest) {
        largest := inputs[i].largest;
      }
    }
    assert inputs[..|inputs|] == inputs;
  }

  function UserRange(smallest: InternalKey, largest: InternalKey): Range {
    Range(Some(smallest.user), Some(largest.user))
  }

  function TotalSize(fs: seq<File>): nat {
    if fs == [] then 0 else fs[0].size + TotalSize(fs[1..])
  }

  // What a compaction may start from: a closed selection on level 0, neighbours elsewhere.
  ghost predicate Pickable(v: Version, level: nat, picked: seq<File>)
    requires level < |v.files|
  {
    && picked != []
    && (level == 0 ==> exists r :: Closed(v.files[0], r) && picked == Select(v.files[0], r))
    && (level > 0 ==> IsRun(v.files[level], picked))
  }

  ghost predicate IsRun(fs: seq<File>, s: seq<File>) {
    exists a, b :: 0 <= a < b <= |fs| && s == fs[a..b]
  }

  lemma SliceIsRun(fs: seq<File>, a: nat, b: nat)
    requires a < b <= |fs|
    ensures IsRun(fs, fs[a..b])
  {
  }

  lemma PrefixIsRun(fs: seq<File>, s: seq<File>, n: nat)
    requires IsRun(fs, s) && 0 < n <= |s|
    ensures IsRun(fs, s[..n])
  {
    var a, b :| 0 <= a < b <= |fs| && s == fs[a..b];
    assert s[..n] == fs[a..a + n];
  }

  // The chosen files of `level`: those that stay hold newer versions of whatever they share.
  ghost predicate GoodBase(v: Version, level: nat, inputs0: seq<File>)
    requires level < |v.files|
  {
    && inputs0 != [] && (forall f :: f in inputs0 ==> f in v.files[level])
    && UniqueNumbers(inputs0) && (level > 0 ==> DisjointFiles(inputs0))
    && KeepsNewer(v.files[level], inputs0)
  }

  // Both input sets of a compaction.
  ghost predicate GoodInputs(v: Version, level: nat, inputs0: seq<File>, inputs1: seq<File>)
    requires level + 1 < |v.files|
  {
    && GoodBase(v, level, inputs0)
    && exists s, l :: IsRange(inputs0, s, l) && inputs1 == Select(v.files[level + 1], UserRange(s, l))
  }

  lemma ExtendedRunKeepsNewer(fs: seq<File>, run: seq<File>, added: seq<File>, key: InternalKey)
    requires LevelOk(fs) && DisjointFiles(fs) && IsRun(fs, run)
    requires IsLargest(run, key) && IsBoundaryChain(fs, key, added)
    ensures KeepsNewer(fs, run + added)
    ensures UniqueNumbers(run + added) && DisjointFiles(run + added)
  {
    hide LevelOk, DisjointFiles, KeepsNewer, IsLargest, Links;
    var a, b :| 0 <= a < b <= |fs| && run == fs[a..b];
    LastOfRunIsLargest(fs, a, b, key);
    BoundaryChainIsRun(fs, b, key, added);
    var c := b + |added|;
    JoinSlices(fs, a, b, c);
    RunKeepsNewer(fs, a, c);
    RunShape(fs, a, c);
  }

  lemma RunShape(fs: seq<File>, a: nat, b: nat)
    requires LevelOk(fs) && DisjointFiles(fs) && a <= b <= |fs|
    ensures UniqueNumbers(fs[a..b]) && DisjointFiles(fs[a..b])
  {
  }

  lemma {:induction false} SelectUnique(fs: seq<File>, r: Range, n: nat)
    requires UniqueNumbers(fs) && n <= |fs|
    ensures UniqueNumbers(Select(fs[..n], r))
  {
    if n > 0 {
      SelectUnique(fs, r, n - 1);
      SelectStep(fs, r, n);
      var front := Select(fs[..n - 1], r);
      forall k | 0 <= k < |front|
        ensures front[k].number != fs[n - 1].number
      {
        assert front[k] in fs[..n - 1];
      }
    }
  }

  lemma JoinSlices(fs: seq<File>, a: nat, b: nat, c: nat)
    requires a <= b <= c <= |fs|
    ensures fs[a..b] + fs[b..c] == fs[a..c]
  {
  }

  // AddBoundaryInputs turns what may be picked into what may be compacted.
  lemma ExtendedIsGood(v: Version, level: nat, picked: seq<File>, added: seq<File>, key: InternalKey)
    requires VersionOk(v) && level < NUM_LEVELS && Pickable(v, level, picked)
    requires IsLargest(picked, key) && IsBoundaryChain(v.files[level], key, added)
    ensures GoodBase(v, level, picked + added)
  {
    hide IsRun, KeepsNewer, LevelNewer, AgedByNumber;
    var fs := v.files[level];
    if level == 0 {
      var r :| Closed(fs, r) && picked == Select(fs, r);
      ClosedHasNoBoundary(fs, r, key, added);
      ClosedKeepsNewer(fs, r);
      assert picked + added == picked;
      SelectUnique(fs, r, |fs|);
      assert fs[..|fs|] == fs;
    } else {
      ExtendedRunKeepsNewer(fs, picked, added, key);
      RunMembers(fs, picked);
    }
    LinkMembers(fs, key, added);
  }

  lemma RunMembers(fs: seq<File>, s: seq<File>)
    requires IsRun(fs, s)
    ensures forall f :: f in s ==> f in fs
  {
  }

  lemma {:induction false} LinkMembers(fs: seq<File>, key: InternalKey, added: seq<File>)
    requires Links(fs, key, added)
    ensures forall f :: f in added ==> f in fs
  {
    if added != [] {
      LinkMembers(fs, key, added[..|added| - 1]);
      assert added == added[..|added| - 1] + [added[|added| - 1]];
    }
  }

  lemma OverlapIsPickable(v: Version, level: nat, r: Range)
    requires VersionOk(v) && level < NUM_LEVELS && Select(v.files[level], r) != []
    requires level == 0 ==> Closed(v.files[0], r)
    ensures Pickable(v, level, Select(v.files[level], r))
  {
    if level > 0 {
      var fs := v.files[level];
      var a, b := SelectIsRun(fs, r, |fs|);
      assert fs[..|fs|] == fs;
      SliceIsRun(fs, a, b);
    }
  }

  // The files two levels down that the whole range of the inputs overlaps.
  ghost predicate IsGrandparents(v: Version, level: nat, all: seq<File>, grandparents: seq<File>)
    requires |v.files| == NUM_LEVELS
  {
    if level + 2 < NUM_LEVELS
    then exists s, l :: IsRange(all, s, l) && grandparents == Select(v.files[level + 2], UserRange(s, l))
    else grandparents == []
  }

  // maxFileSize stands for options.max_file_size.
  method SetupOtherInputs(v: Version, level: nat, picked: seq<File>, maxFileSize: nat)
    returns (inputs0: seq<File>, inputs1: seq<File>, grandparents: seq<File>, compactPointer: InternalKey)
    requires VersionOk(v) && level + 1 < NUM_LEVELS && Pickable(v, level, picked)
    ensures GoodInputs(v, level, inputs0, inputs1) && forall f :: f in picked ==> f in inputs0
    ensures IsLargest(inputs0, compactPointer) && IsGrandparents(v, level, inputs0 + inputs1, grandparents)
  {
    hide IsRun, KeepsNewer, IsBoundaryChain, IsLargest, Closed, LevelNewer, AgedByNumber, Select, SizesAllow;
    ghost var added, key, closed;
    inputs0, added, key := AddBoundaryInputs(v.files[level], picked);
    ExtendedIsGood(v, level, picked, added, key);
    var smallest, largest := GetRange(inputs0);
    inputs1, closed := GetOverlappingInputs(v, level + 1, UserRange(smallest, largest));
    if inputs1 != [] {
      inputs0, inputs1, largest := GrowInputs(v, level, inputs0, inputs1, largest, maxFileSize);
    }
    var allStart, allLimit := GetRange(inputs0 + inputs1);
    if level + 2 < NUM_LEVELS {
      grandparents, closed := GetOverlappingInputs(v, level + 2, UserRange(allStart, allLimit));
    } else {
      grandparents := [];
    }
    compactPointer := largest;
  }

  // More files of the level, as many of the next one, and not too many bytes.
  ghost predicate SizesAllow(in0: seq<File>, in1: seq<File>, inputs0: seq<File>, inputs1: seq<File>, maxFileSize: nat) {
    |inputs0| > |in0| && |inputs1| == |in1| && TotalSize(in1) + TotalSize(inputs0) < 25 * maxFileSize
  }

  // What overlaps the range of the inputs has the inputs among it.
  lemma RangeTakesAll(v: Version, level: nat, in0: seq<File>, in1: seq<File>, smallest: InternalKey, largest: InternalKey, r: Range)
    requires VersionOk(v) && level + 1 < NUM_LEVELS && GoodInputs(v, level, in0, in1)
    requires IsRange(in0 + in1, smallest, largest) && Covers(r, UserRange(smallest, largest))
    ensures forall f :: f in in0 ==> f in Select(v.files[level], r)
  {
    hide KeepsNewer, LevelNewer, AgedByNumber;
    forall f | f in in0
      ensures f in Select(v.files[level], r)
    {
      assert f in in0 + in1 && FileOk(f);
      FileSpan(f, f.entries[0]);
    }
  }

  lemma CoversItself(r: Range)
    ensures Covers(r, r)
  {
  }

  // The part of SetupOtherInputs that takes in more of `level` when that adds nothing on level + 1.
  method GrowInputs(v: Version, level: nat, in0: seq<File>, in1: seq<File>, limit: InternalKey, maxFileSize: nat)
    returns (inputs0: seq<File>, inputs1: seq<File>, largest: InternalKey)
    requires VersionOk(v) && level + 1 < NUM_LEVELS && GoodInputs(v, level, in0, in1) && IsLargest(in0, limit)
    ensures GoodInputs(v, level, inputs0, inputs1) && IsLargest(inputs0, largest)
    ensures forall f :: f in in0 ==> f in inputs0
    ensures (inputs0 == in0 && inputs1 == in1) || SizesAllow(in0, in1, inputs0, inputs1, maxFileSize)
  {
    hide IsRun, IsRange, KeepsNewer, IsBoundaryChain, IsLargest, Closed, Covers, Least, LevelNewer, AgedByNumber, Select;
    inputs0, inputs1, largest := in0, in1, limit;
    var allStart, allLimit := GetRange(inputs0 + inputs1);
    ghost var closed, added, key;
    var overlap, expanded0;
    overlap, closed := GetOverlappingInputs(v, level, UserRange(allStart, allLimit));
    CoversItself(UserRange(allStart, allLimit));
    RangeTakesAll(v, level, in0, in1, allStart, allLimit, closed);
    expanded0, added, key := AddBoundaryInputs(v.files[level], overlap);
    if |expanded0| > |inputs0| && TotalSize(inputs1) + TotalSize(expanded0) < 25 * maxFileSize {
      OverlapIsPickable(v, level, closed);
      ExtendedIsGood(v, level, overlap, added, key);
      var newStart, newLimit := GetRange(expanded0);
      var expanded1;
      expanded1, closed := GetOverlappingInputs(v, level + 1, UserRange(newStart, newLimit));
      if |expanded1| == |inputs1| {
        inputs0, inputs1, largest := expanded0, expanded1, newLimit;
      }
    }
  }

  predicate Behind(f: File, pointer: Option<InternalKey>) {
    pointer.None? || pointer.value.Before(f.largest)
  }

  // The given file; or the first one behind the pointer, and the first of all when there is none.
  ghost predicate IsChosen(files: seq<File>, pointer: Option<InternalKey>, seekFile: Option<File>, f: File) {
    if seekFile.Some? then f == seekFile.value
    else if exists g :: g in files && Behind(g, pointer)
    then exists i :: 0 <= i < |files| && f == files[i] && Behind(f, pointer) && forall j :: 0 <= j < i ==> !Behind(files[j], pointer)
    else files != [] && f == files[0]
  }

  // Everything on the level that overlaps the range; on level 0 the least closed selection around it.
  ghost predicate IsOverlap(fs: seq<File>, level: nat, range: Range, s: seq<File>) {
    if level > 0 then s == Select(fs, range)
    else exists r :: s == Select(fs, r) && Closed(fs, r) && Covers(r, range) && Least(fs, range, r)
  }

  lemma OverlapIs(fs: seq<File>, level: nat, range: Range, r: Range)
    requires level > 0 ==> r == range
    requires level == 0 ==> Closed(fs, r) && Covers(r, range) && Least(fs, range, r)
    ensures IsOverlap(fs, level, range, Select(fs, r))
  {
  }

  // PickCompaction, once a level is chosen: by size, the first file after the compaction pointer
  // (wrapping round); by seeks, the given file.
  method PickCompaction(v: Version, level: nat, pointer: Option<InternalKey>, seekFile: Option<File>)
    returns (picked: seq<File>, ghost chosen: File)
    requires VersionOk(v) && level + 1 < NUM_LEVELS && v.files[level] != []
    requires seekFile.Some? ==> seekFile.value in v.files[level]
    ensures Pickable(v, level, picked) && chosen in picked && IsChosen(v.files[level], pointer, seekFile, chosen)
    ensures level > 0 ==> picked == [chosen]
    ensures level == 0 ==> IsOverlap(v.files[0], 0, UserRange(chosen.smallest, chosen.largest), picked)
  {
    var files := v.files[level];
    var first := FirstBehind(files, pointer);
    var file := if seekFile.Some? then seekFile.value else first;
    chosen := file;
    picked := [file];
    if level == 0 {
      ghost var closed;
      picked, closed := GetOverlappingInputs(v, 0, UserRange(file.smallest, file.largest));
      OverlapIs(v.files[0], 0, UserRange(file.smallest, file.largest), closed);
      assert FileOk(file);
      FileSpan(file, file.entries[0]);
      assert file in Select(files, closed);
    } else {
      ghost var i :| 0 <= i < |files| && files[i] == file;
      assert picked == files[i..i + 1];
      SliceIsRun(files, i, i + 1);
    }
  }

  method FirstBehind(files: seq<File>, pointer: Option<InternalKey>) returns (chosen: File)
    requires files != []
    ensures chosen in files && IsChosen(files, pointer, None, chosen)
  {
    for i := 0 to |files|
      invariant forall j :: 0 <= j < i ==> !Behind(files[j], pointer)
    {
      if pointer.None? || pointer.value.Before(files[i].largest) {
        return files[i];
      }
    }
    chosen := files[0];
  }

  // The shortest stretch from the front with this many bytes, or everything.
  ghost predicate IsCutOff(all: seq<File>, limit: nat, s: seq<File>) {
    && 0 < |s| <= |all| && s == all[..|s|]
    && (|s| == 1 || TotalSize(s[..|s| - 1]) < limit)
    && (s == all || TotalSize(s) >= limit)
  }

  lemma {:induction false} TotalSizeGrows(fs: seq<File>, f: File)
    ensures TotalSize(fs + [f]) == TotalSize(fs) + f.size
  {
    if fs != [] {
      assert (fs + [f])[1..] == fs[1..] + [f];
      TotalSizeGrows(fs[1..], f);
    }
  }

  // CompactRange: a manual compaction; elsewhere than on level 0 it stops once enough bytes are in.
  method PickRange(v: Version, level: nat, range: Range, maxFileSize: nat) returns (picked: seq<File>)
    requires VersionOk(v) && level + 1 < NUM_LEVELS
    ensures picked != [] ==> Pickable(v, level, picked)
    ensures picked == [] <==> forall f :: f in v.files[level] ==> !Overlaps(f, range)
    ensures picked != [] && level == 0 ==> IsOverlap(v.files[0], 0, range, picked)
    ensures picked != [] && level > 0 ==> IsCutOff(Select(v.files[level], range), maxFileSize, picked)
  {
    ghost var closed;
    picked, closed := GetOverlappingInputs(v, level, range);
    OverlapIs(v.files[level], level, range, closed);
    OverlapsWider(v.files[level], range, closed, level);
    if picked == [] {
      return;
    }
    OverlapIsPickable(v, level, closed);
    if level > 0 {
      picked := CutOff(v, level, picked, maxFileSize);
    }
  }

  // The loop of CompactRange over the files of a sorted level.
  method CutOff(v: Version, level: nat, all: seq<File>, limit: nat) returns (picked: seq<File>)
    requires all != [] && 0 < level < |v.files| && IsRun(v.files[level], all)
    ensures Pickable(v, level, picked) && IsCutOff(all, limit, picked)
  {
    hide IsRun;
    picked := all;
    var total := 0;
    for i := 0 to |all|
      invariant picked == all && total == TotalSize(all[..i]) && (i > 0 ==> total < limit)
    {
      total := total + all[i].size;
      assert all[..i + 1] == all[..i] + [all[i]];
      TotalSizeGrows(all[..i], all[i]);
      if total >= limit {
        PrefixIsRun(v.files[level], all, i + 1);
        assert all[..i + 1][..i] == all[..i];
        return all[..i + 1];
      }
    }
    assert all[..|all|] == all;
    assert all == all[..|all| - 1] + [all[|all| - 1]];
    TotalSizeGrows(all[..|all| - 1], all[|all| - 1]);
  }

  lemma OverlapsWider(fs: seq<File>, range: Range, r: Range, level: nat)
    requires level > 0 ==> r == range
    requires level == 0 ==> Covers(r, range) && Least(fs, range, r)
    ensures Select(fs, r) == [] <==> forall f :: f in fs ==> !Overlaps(f, range)
  {
    if forall f :: f in fs ==> !Overlaps(f, range) {
      assert Closed(fs, range) && Covers(range, range);
      if level == 0 {
        assert Covers(range, r);
      }
    } else {
      var f :| f in fs && Overlaps(f, range);
      assert Overlaps(f, r);
    }
  }
}
