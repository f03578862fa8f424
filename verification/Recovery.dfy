/** DBImpl::RecoverLogFile (db/db_impl.cc:372-489): what a database finds in its log after a crash that
    cut it off anywhere, in terms of the writes that were committed. */
module Recovery {
  import opened Bytes
  import opened Coding
  import opened WriteBatches
  import opened Logs
  import opened LogReaders
  import opened LogCrashes
  import opened GroupCommits

  datatype Replayed = Replayed(entries: seq<Stamped>, maxSequence: nat)

  // One turn of the loop; what follows a corruption in a batch is ignored, as without paranoid checks.
  function ReplayRecord(r: Replayed, record: seq<Byte>): Replayed {
    if |record| < HEADER then r
    else
      var last := LastSequence(record);
      Replayed(r.entries + Stamps(SequenceOf(record), IterateOver(record).ops),
               if last > r.maxSequence then last else r.maxSequence)
  }

  // The last sequence number of a batch, in 64 bits: below that of an empty batch with sequence number 0
  // comes the greatest of all.
  function LastSequence(record: seq<Byte>): nat
    requires |record| >= HEADER
  {
    Unsigned64(SequenceOf(record) + CountOf(record) - 1)
  }

  function Unsigned64(n: int): (u: nat)
    ensures 0 <= n < TWO_64 ==> u == n
  {
    n % TWO_64
  }

  function Replay(records: seq<seq<Byte>>, maxSequence: nat): Replayed {
    if records == [] then Replayed([], maxSequence)
    else ReplayRecord(Replay(records[..|records| - 1], maxSequence), records[|records| - 1])
  }

  lemma ReplayStep(records: seq<seq<Byte>>, i: nat, maxSequence: nat)
    requires i < |records|
    ensures Replay(records[..i + 1], maxSequence) == ReplayRecord(Replay(records[..i], maxSequence), records[i])
  {
    hide ReplayRecord;
    assert records[..i + 1][..i] == records[..i];
  }

  lemma ReplayRecordIs(r: Replayed, record: seq<Byte>)
    ensures |record| < HEADER ==> ReplayRecord(r, record) == r
    ensures |record| >= HEADER ==>
              ReplayRecord(r, record) == Replayed(r.entries + Stamps(SequenceOf(record), IterateOver(record).ops),
                                                  if LastSequence(record) > r.maxSequence then LastSequence(record) else r.maxSequence)
  {
  }

  method RecoverLogFile(file: seq<Byte>, maxSequence: nat) returns (memtable: seq<Stamped>, maxSequence': nat, drops: seq<nat>)
    ensures var found := RecordsFrom(file, true, 0, []);
            Replayed(memtable, maxSequence') == Replay(found.records, maxSequence) && found.drops <= drops
  {
    hide *;
    var records;
    records, drops := ReadAll(file, true);
    ghost var found := drops;
    memtable, maxSequence' := [], maxSequence;
    ReplayNothing(maxSequence);
    assert records[..0] == [];
    for i := 0 to |records|
      invariant Replayed(memtable, maxSequence') == Replay(records[..i], maxSequence)
      invariant found <= drops
    {
      var record := records[i];
      ReplayStep(records, i, maxSequence);
      ReplayRecordIs(Replayed(memtable, maxSequence'), record);
      if |record| < HEADER {
        drops := drops + [|record|];
        continue;
      }
      var batch := new WriteBatch();
      batch.rep := record;
      var entries, ok := batch.InsertInto();
      memtable := memtable + entries;
      var lastSequence := LastSequence(record);
      if lastSequence > maxSequence' {
        maxSequence' := lastSequence;
      }
    }
    assert records[..|records|] == records;
  }

  lemma ReplayNothing(maxSequence: nat)
    ensures Replay([], maxSequence) == Replayed([], maxSequence)
  {
  }

  // ---- The groups behind the records ----

  function LoggedGroups(groups: seq<Group>): seq<Group> {
    if groups == [] then []
    else
      var g := groups[|groups| - 1];
      LoggedGroups(groups[..|groups| - 1]) + if g.logged then [g] else []
  }

  function Entries(groups: seq<Group>): seq<Stamped> {
    if groups == [] then []
    else
      var g := groups[|groups| - 1];
      Entries(groups[..|groups| - 1]) + Stamps(g.first, g.ops)
  }

  // The last sequence number of the groups, when there is one.
  function LastOf(groups: seq<Group>, otherwise: nat): nat {
    if groups == [] then otherwise
    else
      var g := groups[|groups| - 1];
      var before := LastOf(groups[..|groups| - 1], otherwise);
      if g.first + |g.ops| > before + 1 then g.first + |g.ops| - 1 else before
  }

  ghost predicate Encodable(g: Group) {
    0 < g.first && g.first + |g.ops| <= TWO_64 && g.first < TWO_64 && Fits(g.ops)
  }

  lemma {:induction false} LoggedAre(groups: seq<Group>)
    ensures |LoggedGroups(groups)| == |Logged(groups)|
    ensures forall i :: 0 <= i < |Logged(groups)| ==> Logged(groups)[i] == Rep(LoggedGroups(groups)[i].first, LoggedGroups(groups)[i].ops)
  {
    hide Rep;
    if groups != [] {
      LoggedAre(groups[..|groups| - 1]);
    }
  }

  lemma {:induction false} LoggedFrom(groups: seq<Group>, j: nat) returns (i: nat)
    requires j < |LoggedGroups(groups)|
    ensures i < |groups| && groups[i] == LoggedGroups(groups)[j] && groups[i].logged
  {
    var n := |groups| - 1;
    if j < |LoggedGroups(groups[..n])| {
      i := LoggedFrom(groups[..n], j);
    } else {
      i := n;
    }
  }

  lemma {:induction false} LoggedPlace(groups: seq<Group>, i: nat)
    requires i < |groups| && groups[i].logged
    ensures |Logged(groups[..i])| < |LoggedGroups(groups)|
    ensures LoggedGroups(groups)[|Logged(groups[..i])|] == groups[i]
    decreases |groups|
  {
    hide Rep;
    var n := |groups| - 1;
    LoggedAre(groups[..n]);
    if i < n {
      LoggedPlace(groups[..n], i);
      assert groups[..n][..i] == groups[..i];
    }
  }

  // Replaying the records of some groups gives their entries.
  lemma {:induction false} ReplayBack(groups: seq<Group>, records: seq<seq<Byte>>, maxSequence: nat)
    requires |records| == |groups|
    requires forall i :: 0 <= i < |groups| ==> Encodable(groups[i]) && records[i] == Rep(groups[i].first, groups[i].ops)
    ensures Replay(records, maxSequence) == Replayed(Entries(groups), LastOf(groups, maxSequence))
  {
    hide Rep, SequenceOf, CountOf, IterateOver, LastSequence, Fits;
    if groups != [] {
      var n := |groups| - 1;
      ReplayBack(groups[..n], records[..n], maxSequence);
      LastIs(groups[n]);
      BatchRoundTrip(groups[n].first, groups[n].ops);
      RepParts(groups[n].first, groups[n].ops);
    }
  }

  lemma LastIs(g: Group)
    requires Encodable(g)
    ensures |g.ops| < TWO_32 && |Rep(g.first, g.ops)| >= HEADER
    ensures LastSequence(Rep(g.first, g.ops)) == g.first + |g.ops| - 1
  {
    hide Rep, SequenceOf, CountOf, Unsigned64, Fits;
    SizesFit(g);
    RepParts(g.first, g.ops);
  }

  lemma SizesFit(g: Group)
    requires Encodable(g)
    ensures |g.ops| < TWO_32
  {
  }

  lemma LoggedEncodable(s: State, base: nat, j: nat)
    requires Inv(s, base) && s.lastSequence + 1 < TWO_64 && j < |LoggedGroups(s.groups)|
    ensures Encodable(LoggedGroups(s.groups)[j])
  {
    hide Total, AllOperations, Rep, Order, Awake, Fits, Members, Applied;
    var i := LoggedFrom(s.groups, j);
    assert GroupOk(s, base, s.groups[..i], s.groups[i]);
    TotalGrows(s.groups, i + 1);
    TotalStep(s.groups, i);
  }

  lemma TotalStep(groups: seq<Group>, i: nat)
    requires i < |groups|
    ensures Total(groups[..i + 1]) == Total(groups[..i]) + |groups[i].ops|
  {
    assert groups[..i + 1][..i] == groups[..i];
  }

  lemma {:induction false} TotalGrows(groups: seq<Group>, i: nat)
    requires i <= |groups|
    ensures Total(groups[..i]) <= Total(groups)
    decreases |groups|
  {
    if i < |groups| {
      TotalGrows(groups[..|groups| - 1], i);
      assert groups[..|groups| - 1][..i] == groups[..i];
    } else {
      assert groups[..i] == groups;
    }
  }

  // After a crash that left the first n bytes of the log, recovery finds exactly the entries of the
  // groups whose records are complete: every group whole or not at all, in the order of commitment.
  lemma CrashRecovers(s: State, base: nat, n: nat, k: nat, maxSequence: nat)
    requires Inv(s, base) && s.lastSequence + 1 < TWO_64
    requires n <= |Log(s.log)| && IsComplete(s.log, n, k)
    ensures k <= |LoggedGroups(s.groups)|
    ensures var found := RecordsFrom(Log(s.log)[..n], true, 0, []);
            var survivors := LoggedGroups(s.groups)[..k];
            found.drops == [] && Replay(found.records, maxSequence) == Replayed(Entries(survivors), LastOf(survivors, maxSequence))
  {
    hide Log, RecordsFrom, Rep, Replay, Inv, IsComplete, Encodable;
    LogIsLogged(s, base);
    LoggedAre(s.groups);
    CutLogReadsBack(s.log, n, true, k);
    var survivors := LoggedGroups(s.groups)[..k];
    forall j: nat | j < k ensures Encodable(survivors[j]) {
      LoggedEncodable(s, base, j);
    }
    ReplayBack(survivors, s.log[..k], maxSequence);
  }

  // The sequence number that a group ends with.
  function EndOf(g: Group): int {
    g.first + |g.ops| - 1
  }

  // No group ends above it, and one of them ends there, unless it is the number to start with.
  ghost predicate IsLast(groups: seq<Group>, otherwise: nat, last: int) {
    && otherwise <= last
    && (forall i :: 0 <= i < |groups| ==> EndOf(groups[i]) <= last)
    && (last == otherwise || exists i :: 0 <= i < |groups| && last == EndOf(groups[i]))
  }

  lemma {:induction false} LastBounds(groups: seq<Group>, otherwise: nat)
    requires forall i :: 0 <= i < |groups| ==> groups[i].first > 0
    ensures IsLast(groups, otherwise, LastOf(groups, otherwise))
  {
    if groups != [] {
      var n := |groups| - 1;
      LastBounds(groups[..n], otherwise);
      OneGroupMore(groups[..n], groups[n], otherwise, LastOf(groups[..n], otherwise), LastOf(groups, otherwise));
      assert groups[..n] + [groups[n]] == groups;
    }
  }

  lemma OneGroupMore(groups: seq<Group>, g: Group, otherwise: nat, before: nat, last: nat)
    requires IsLast(groups, otherwise, before) && last == if EndOf(g) > before then EndOf(g) else before
    ensures IsLast(groups + [g], otherwise, last)
  {
    hide EndOf;
    var all := groups + [g];
    assert all[|groups|] == g;
    if last != otherwise && !(EndOf(g) > before) {
      var i :| 0 <= i < |groups| && before == EndOf(groups[i]);
      assert all[i] == groups[i];
    }
  }

  lemma {:induction false} EntriesBelow(groups: seq<Group>, last: int)
    requires forall i :: 0 <= i < |groups| ==> EndOf(groups[i]) <= last
    ensures forall e :: e in Entries(groups) ==> e.sequence <= last
  {
    hide EndOf;
    if groups != [] {
      var n := |groups| - 1;
      EntriesBelow(groups[..n], last);
      StampsBelow(groups[n]);
    }
  }

  lemma StampsBelow(g: Group)
    ensures forall e :: e in Stamps(g.first, g.ops) ==> e.sequence <= EndOf(g)
  {
  }

  lemma LoggedEnd(s: State, base: nat, j: nat)
    requires Inv(s, base) && j < |LoggedGroups(s.groups)|
    ensures EndOf(LoggedGroups(s.groups)[j]) <= s.lastSequence
  {
    hide Total, AllOperations, Rep, Order, Awake, Fits, Members, Applied;
    var i := LoggedFrom(s.groups, j);
    assert GroupOk(s, base, s.groups[..i], s.groups[i]);
    TotalGrows(s.groups, i + 1);
    TotalStep(s.groups, i);
  }

  // The sequence number that recovery goes on from is not below that of any entry it found, is the end of a
  // group it found or the number it started with, and is not above the last one that was given out.
  lemma RecoveredSequence(s: State, base: nat, n: nat, k: nat, maxSequence: nat)
    requires Inv(s, base) && s.lastSequence + 1 < TWO_64
    requires n <= |Log(s.log)| && IsComplete(s.log, n, k)
    ensures k <= |LoggedGroups(s.groups)|
    ensures var r := Replay(RecordsFrom(Log(s.log)[..n], true, 0, []).records, maxSequence);
            && IsLast(LoggedGroups(s.groups)[..k], maxSequence, r.maxSequence)
            && (forall e :: e in r.entries ==> e.sequence <= r.maxSequence)
            && r.maxSequence <= if s.lastSequence > maxSequence then s.lastSequence else maxSequence
  {
    hide Log, RecordsFrom, Rep, Replay, Inv, IsComplete, Encodable, LastOf, Entries, LoggedGroups, EndOf;
    CrashRecovers(s, base, n, k, maxSequence);
    var all := LoggedGroups(s.groups);
    forall j: nat | j < k
      ensures all[j].first > 0 && EndOf(all[j]) <= s.lastSequence
    {
      LoggedEncodable(s, base, j);
      StartsAbove(all[j]);
      LoggedEnd(s, base, j);
    }
    LastBounds(all[..k], maxSequence);
    EntriesBelow(all[..k], LastOf(all[..k], maxSequence));
  }

  lemma StartsAbove(g: Group)
    requires Encodable(g)
    ensures g.first > 0
  {
  }

  lemma LogIsLogged(s: State, base: nat)
    requires Inv(s, base)
    ensures s.log == Logged(s.groups) && s.memtable == Applied(s.groups)
  {
    hide Order, GroupsOk, Awake, AllFit, Logged, Applied;
  }

  // A write that was acknowledged after a sync survives every crash that keeps the synced records.
  lemma SyncedSurvives(s: State, base: nat, n: nat, k: nat, i: nat)
    requires Inv(s, base) && IsComplete(s.log, n, k) && s.durable <= |s.log| && |Log(s.log[..s.durable])| <= n
    requires i < |s.groups| && s.groups[i].ok && s.groups[i].logged
    requires s.groups[i].members != [] && s.groups[i].members[0] in s.requests && s.requests[s.groups[i].members[0]].sync
    ensures k <= |LoggedGroups(s.groups)| && s.groups[i] in LoggedGroups(s.groups)[..k]
  {
    hide Log, Rep, Order, Awake, AllFit, AllOperations, Applied, Total;
    assert GroupOk(s, base, s.groups[..i], s.groups[i]);
    LoggedPlace(s.groups, i);
    LoggedAre(s.groups);
    if k < s.durable {
      LogGrows(s.log, k + 1, s.durable);
    }
    assert |Logged(s.groups[..i])| < k;
    assert LoggedGroups(s.groups)[..k][|Logged(s.groups[..i])|] == s.groups[i];
  }

  lemma {:induction false} EntriesPrefix(groups: seq<Group>, k: nat)
    requires k <= |groups|
    ensures Entries(groups[..k]) <= Entries(groups)
    decreases |groups|
  {
    hide Stamps;
    if k < |groups| {
      EntriesPrefix(groups[..|groups| - 1], k);
      assert groups[..|groups| - 1][..k] == groups[..k];
    } else {
      assert groups[..k] == groups;
    }
  }

  lemma EntriesUnfold(groups: seq<Group>, g: Group)
    ensures LoggedGroups(groups + [g]) == if g.logged then LoggedGroups(groups) + [g] else LoggedGroups(groups)
    ensures Entries(groups + [g]) == Entries(groups) + Stamps(g.first, g.ops)
  {
    hide Stamps;
    assert (groups + [g])[..|groups|] == groups;
  }

  lemma LoggedIsApplied(s: State, base: nat, i: nat)
    requires GroupsOk(s, base) && !s.failing && i < |s.groups|
    ensures var g := s.groups[i]; g.logged == g.ok || (g.ok && Stamps(g.first, g.ops) == [])
  {
    hide AllOperations, Rep, Total, Logged;
    assert GroupOk(s, base, s.groups[..i], s.groups[i]);
  }

  lemma {:induction false} AppliedAreEntries(s: State, base: nat, n: nat)
    requires GroupsOk(s, base) && !s.failing && n <= |s.groups|
    ensures Applied(s.groups[..n]) == Entries(LoggedGroups(s.groups[..n]))
    decreases n
  {
    hide *;
    if n == 0 {
      assert s.groups[..0] == [];
      NoEntries();
    } else {
      AppliedAreEntries(s, base, n - 1);
      var before, g := s.groups[..n - 1], s.groups[n - 1];
      assert before + [g] == s.groups[..n];
      LoggedIsApplied(s, base, n - 1);
      Unfold(before, g);
      EntriesUnfold(before, g);
      EntriesUnfold(LoggedGroups(before), g);
      assert Applied(before) + [] == Applied(before);
    }
  }

  lemma NoEntries()
    ensures Applied([]) == Entries(LoggedGroups([]))
  {
  }

  // As long as no sync failed, what recovery finds is a prefix of what the memtable held.
  lemma RecoveredIsPrefix(s: State, base: nat, n: nat, k: nat, maxSequence: nat)
    requires Inv(s, base) && s.lastSequence + 1 < TWO_64 && !s.failing
    requires n <= |Log(s.log)| && IsComplete(s.log, n, k)
    ensures Replay(RecordsFrom(Log(s.log)[..n], true, 0, []).records, maxSequence).entries <= s.memtable
  {
    hide Log, RecordsFrom, Rep, Replay, IsComplete, Order, Sums, Awake, AllFit, GroupsOk, Entries, Applied;
    CrashRecovers(s, base, n, k, maxSequence);
    EntriesPrefix(LoggedGroups(s.groups), k);
    AppliedAreEntries(s, base, |s.groups|);
    LogIsLogged(s, base);
    assert s.groups[..|s.groups|] == s.groups;
  }
}
