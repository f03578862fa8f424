/** db/db_impl.cc:1185-1306: the queue of writers. The writer at the front commits for a group of those
    behind it, as one log record, while others may join the queue. */
module GroupCommits {
  import opened Bytes
  import opened Coding
  import opened WriteBatches
  import opened Logs

  type Id = nat     // one for each call of Write

  datatype Batch = NoBatch | Batch(ops: seq<Op>)

  datatype Request = Request(batch: Batch, sync: bool)

  function Operations(r: Request): seq<Op> {
    match r.batch
    case NoBatch => []
    case Batch(ops) => ops
  }

  // ---- Which writers form a group ----

  function ByteSize(r: Request): nat {
    match r.batch
    case NoBatch => 0
    case Batch(ops) => HEADER + |Records(ops)|
  }

  function TotalSize(writers: seq<Request>): nat {
    if writers == [] then 0 else TotalSize(writers[..|writers| - 1]) + ByteSize(writers[|writers| - 1])
  }

  // A small first write keeps its group small.
  function MaxSize(first: Request): nat {
    var size := ByteSize(first);
    if size <= 0x2_0000 then size + 0x2_0000 else 0x10_0000
  }

  predicate MayFollow(writers: seq<Request>, i: nat)
    requires i < |writers|
  {
    && !(writers[i].sync && !writers[0].sync)
    && (writers[i].batch.Batch? ==> TotalSize(writers[..i + 1]) <= MaxSize(writers[0]))
  }

  // The group is the longest run of writers from the front each of which may follow the first.
  ghost predicate IsGroup(writers: seq<Request>, k: nat) {
    && 1 <= k <= |writers|
    && (forall i: nat :: 1 <= i < k ==> MayFollow(writers, i))
    && (k < |writers| ==> !MayFollow(writers, k))
  }

  function AllOperations(writers: seq<Request>): seq<Op> {
    if writers == [] then [] else AllOperations(writers[..|writers| - 1]) + Operations(writers[|writers| - 1])
  }

  lemma {:induction false} RecordsAreBytes(ops: seq<Op>)
    ensures |ops| <= |Records(ops)|
  {
    hide Record;
    if ops != [] {
      RecordsAreBytes(ops[..|ops| - 1]);
    }
  }

  lemma {:induction false} SizeBoundsCount(writers: seq<Request>)
    ensures |AllOperations(writers)| <= TotalSize(writers)
  {
    hide Records;
    if writers != [] {
      SizeBoundsCount(writers[..|writers| - 1]);
      RecordsAreBytes(Operations(writers[|writers| - 1]));
    }
  }

  // A writer in the queue, with the caller's batch.
  datatype Waiting = Waiting(batch: WriteBatch?, sync: bool)

  ghost predicate Reflects(w: Waiting, r: Request)
    reads w.batch
  {
    && w.sync == r.sync
    && (w.batch == null <==> r.batch == NoBatch)
    && (w.batch != null ==> Contains(w.batch, Operations(r)))
  }

  ghost predicate Contains(b: WriteBatch, ops: seq<Op>)
    reads b
  {
    |b.rep| >= HEADER && b.Holds(SequenceOf(b.rep), ops)
  }

  lemma SizeOf(w: Waiting, r: Request)
    requires Reflects(w, r) && w.batch != null
    ensures r.batch.Batch? && |w.batch.rep| == ByteSize(r) && Contains(w.batch, Operations(r))
  {
    hide Records, SequenceOf;
  }

  lemma EmptyBatch(b: WriteBatch)
    requires b.Holds(0, [])
    ensures Contains(b, [])
  {
    hide Rep, SequenceOf;
    RepParts(0, []);
  }

  lemma MoreWriters(writers: seq<Request>, k: nat)
    requires k < |writers|
    ensures TotalSize(writers[..k + 1]) == TotalSize(writers[..k]) + ByteSize(writers[k])
    ensures AllOperations(writers[..k + 1]) == AllOperations(writers[..k]) + Operations(writers[k])
    ensures writers[k].batch.NoBatch? ==>
              TotalSize(writers[..k + 1]) == TotalSize(writers[..k]) && AllOperations(writers[..k + 1]) == AllOperations(writers[..k])
  {
    assert writers[..k + 1][..k] == writers[..k];
    assert writers[k].batch.NoBatch? ==> AllOperations(writers[..k]) + [] == AllOperations(writers[..k]);
  }

  lemma OneWriter(writers: seq<Request>)
    requires |writers| > 0
    ensures TotalSize(writers[..1]) == ByteSize(writers[0]) && AllOperations(writers[..1]) == Operations(writers[0])
  {
    MoreWriters(writers, 0);
    assert writers[..0] == [];
  }

  method AppendTo(dst: WriteBatch, source: WriteBatch, ghost a: seq<Op>, ghost b: seq<Op>)
    requires Contains(dst, a) && Contains(source, b) && dst != source && |a + b| < COUNT_LIMIT
    modifies dst
    ensures Contains(dst, a + b)
  {
    hide SequenceOf, Rep;
    ghost var sequence := SequenceOf(dst.rep);
    dst.Append(source, SequenceOf(dst.rep), a, SequenceOf(source.rep), b);
    RepParts(sequence, a + b);
  }

  // BuildBatchGroup: only the temporary batch is ever changed, so callers keep theirs as they are.
  method BuildBatchGroup(waiting: seq<Waiting>, tmpBatch: WriteBatch, ghost writers: seq<Request>) returns (result: WriteBatch, k: nat)
    requires |waiting| == |writers| > 0 && writers[0].batch.Batch?
    requires forall i :: 0 <= i < |waiting| ==> waiting[i].batch != tmpBatch && Reflects(waiting[i], writers[i])
    requires tmpBatch.Holds(0, [])
    modifies tmpBatch
    ensures IsGroup(writers, k) && Contains(result, AllOperations(writers[..k]))
    ensures result == waiting[0].batch || result == tmpBatch
  {
    hide Contains, SequenceOf, Rep, Records, Fits, TotalSize, AllOperations, ByteSize;
    result := waiting[0].batch;
    EmptyBatch(tmpBatch);
    var size := |result.rep|;
    var maxSize := 0x10_0000;
    if size <= 0x2_0000 {
      maxSize := size + 0x2_0000;
    }
    SizeOf(waiting[0], writers[0]);
    OneWriter(writers);
    k := 1;
    while k < |waiting|
      invariant 1 <= k <= |waiting| && size == TotalSize(writers[..k]) && maxSize == MaxSize(writers[0])
      invariant forall i :: 0 <= i < |waiting| ==> Reflects(waiting[i], writers[i])
      invariant forall i: nat :: 1 <= i < k ==> MayFollow(writers, i)
      invariant Contains(result, AllOperations(writers[..k])) && Contains(tmpBatch, if result == tmpBatch then AllOperations(writers[..k]) else [])
      invariant result == waiting[0].batch || result == tmpBatch
    {
      var w := waiting[k];
      MoreWriters(writers, k);
      if w.sync && !waiting[0].sync {
        return;
      }
      if w.batch != null {
        SizeOf(w, writers[k]);
        size := size + |w.batch.rep|;
        if size > maxSize {
          return;
        }
        SizeBoundsCount(writers[..k + 1]);
        if result == waiting[0].batch {
          result := tmpBatch;
          AppendTo(tmpBatch, waiting[0].batch, [], AllOperations(writers[..k]));
          assert [] + AllOperations(writers[..k]) == AllOperations(writers[..k]);
        }
        AppendTo(result, w.batch, AllOperations(writers[..k]), Operations(writers[k]));
      }
      k := k + 1;
    }
  }

  // ---- The protocol ----

  // A group that was taken off the queue. One that entered has a stretch of sequence numbers; it is
  // logged if its record was added to the log, and ok if its writers were told so.
  datatype Group = Group(members: seq<Id>, first: nat, ops: seq<Op>, logged: bool, ok: bool)

  datatype Phase = Free | Logging(count: nat, first: nat, ops: seq<Op>)

  datatype State = State(
    requests: map<Id, Request>,
    queue: seq<Id>,
    awake: set<Id>,             // running, or woken up by a signal
    results: map<Id, bool>,     // of the writers that are done
    phase: Phase,               // Logging while the front writer works without the lock
    lastSequence: nat,
    groups: seq<Group>,         // everything taken off the queue so far
    memtable: seq<Stamped>,
    log: seq<seq<Byte>>,
    durable: nat,               // how many records of the log were synced
    failing: bool)              // a background error was recorded

  function RequestsOf(s: State, ids: seq<Id>): (writers: seq<Request>)
    requires forall i :: 0 <= i < |ids| ==> ids[i] in s.requests
    ensures |writers| == |ids| && forall i :: 0 <= i < |ids| ==> writers[i] == s.requests[ids[i]]
  {
    seq(|ids|, i requires 0 <= i < |ids| => s.requests[ids[i]])
  }

  ghost predicate Init(s: State) {
    && s.requests == map[] && s.queue == [] && s.awake == {} && s.results == map[] && s.phase == Free
    && s.groups == [] && s.memtable == [] && s.log == [] && s.durable == 0 && !s.failing
  }

  // A new call of Write; it goes to sleep unless it is at the front.
  ghost predicate Enters(s: State, s': State, id: Id, r: Request) {
    && id !in s.requests && (r.batch.Batch? ==> Fits(r.batch.ops))
    && s' == s.(requests := s.requests[id := r], queue := s.queue + [id],
                awake := if s.queue == [] then s.awake + {id} else s.awake)
  }

  // A woken writer that is neither done nor at the front waits again.
  ghost predicate WaitsAgain(s: State, s': State, id: Id) {
    && id in s.awake && id in s.queue && id != s.queue[0]
    && s' == s.(awake := s.awake - {id})
  }

  // The front writer has seen MakeRoomForWrite succeed and builds its group.
  ghost predicate Begins(s: State, s': State, k: nat) {
    && s.phase == Free && s.queue != [] && s.queue[0] in s.awake && !s.failing
    && (forall i :: 0 <= i < |s.queue| ==> s.queue[i] in s.requests)
    && var writers := RequestsOf(s, s.queue);
       && writers[0].batch.Batch? && IsGroup(writers, k)
       && s' == s.(phase := Logging(k, s.lastSequence + 1, AllOperations(writers[..k])))
  }

  // Takes k writers off the queue, tells all but the front one, and wakes the new front.
  function Pop(s: State, k: nat, g: Group): State
    requires k <= |s.queue|
  {
    var rest := s.queue[k..];
    s.(queue := rest, phase := Free, groups := s.groups + [g],
       results := s.results + map id | id in s.queue[..k] :: g.ok,
       awake := s.awake + (set id | id in s.queue[..k]) + if rest == [] then {} else {rest[0]})
  }

  // A front writer without a batch, or without room, is done alone.
  ghost predicate Passes(s: State, s': State, room: bool) {
    && s.phase == Free && s.queue != [] && s.queue[0] in s.awake && s.queue[0] in s.requests
    && (room ==> !s.failing && s.requests[s.queue[0]].batch.NoBatch?)
    && s' == Pop(s, 1, Group([s.queue[0]], s.lastSequence + 1, [], false, room))
  }

  ghost predicate Working(s: State) {
    s.phase.Logging? && s.phase.first > 0 && 1 <= s.phase.count <= |s.queue| && s.queue[0] in s.requests
  }

  // Whether the front writer asked for its record to be synced.
  ghost predicate WantsSync(s: State)
    requires Working(s)
  {
    s.requests[s.queue[0]].sync
  }

  ghost function LogAfter(s: State, logged: bool): seq<seq<Byte>>
    requires Working(s)
  {
    if logged then s.log + [Rep(s.phase.first, s.phase.ops)] else s.log
  }

  ghost function MemTableAfter(s: State, ok: bool): seq<Stamped>
    requires Working(s)
  {
    if ok then s.memtable + Stamps(s.phase.first, s.phase.ops) else s.memtable
  }

  // The front writer has logged and applied its group, or failed to, and takes the lock again.
  ghost predicate Ends(s: State, s': State, logged: bool, synced: bool) {
    && Working(s)
    && var ok := logged && (WantsSync(s) ==> synced);
       && s' == Pop(s, s.phase.count, Group(s.queue[..s.phase.count], s.phase.first, s.phase.ops, logged, ok)).(
               lastSequence := s.phase.first - 1 + |s.phase.ops|,
               log := LogAfter(s, logged),
               memtable := MemTableAfter(s, ok),
               durable := if ok && WantsSync(s) then |LogAfter(s, logged)| else s.durable,
               failing := s.failing || (logged && WantsSync(s) && !synced))
  }

  datatype Action = Enter(id: Id, r: Request) | Wait(id: Id) | Begin(k: nat) | Pass(room: bool) | End(logged: bool, synced: bool)

  ghost predicate Step(s: State, a: Action, s': State) {
    match a
    case Enter(id, r) => Enters(s, s', id, r)
    case Wait(id) => WaitsAgain(s, s', id)
    case Begin(k) => Begins(s, s', k)
    case Pass(room) => Passes(s, s', room)
    case End(logged, synced) => Ends(s, s', logged, synced)
  }

  // ---- What every step keeps ----

  function Members(groups: seq<Group>): seq<Id> {
    if groups == [] then [] else Members(groups[..|groups| - 1]) + groups[|groups| - 1].members
  }

  function Total(groups: seq<Group>): nat {
    if groups == [] then 0 else Total(groups[..|groups| - 1]) + |groups[|groups| - 1].ops|
  }

  function Applied(groups: seq<Group>): seq<Stamped> {
    if groups == [] then []
    else
      var g := groups[|groups| - 1];
      Applied(groups[..|groups| - 1]) + if g.ok then Stamps(g.first, g.ops) else []
  }

  function Logged(groups: seq<Group>): seq<seq<Byte>> {
    if groups == [] then []
    else
      var g := groups[|groups| - 1];
      Logged(groups[..|groups| - 1]) + if g.logged then [Rep(g.first, g.ops)] else []
  }

  // Every writer so far, in order of arrival.
  function Everyone(s: State): seq<Id> {
    Members(s.groups) + s.queue
  }

  ghost predicate Known(s: State, ids: seq<Id>) {
    forall i :: 0 <= i < |ids| ==> ids[i] in s.requests
  }

  ghost predicate Distinct(ids: seq<Id>) {
    forall i, j :: 0 <= i < j < |ids| ==> ids[i] != ids[j]
  }

  // A leader that does not sync commits for no one who asked for it.
  ghost predicate SyncsForAll(s: State, ids: seq<Id>)
    requires Known(s, ids) && ids != []
  {
    forall i :: 0 <= i < |ids| && s.requests[ids[i]].sync ==> s.requests[ids[0]].sync
  }

  ghost predicate GroupOk(s: State, base: nat, before: seq<Group>, g: Group) {
    && g.members != [] && Known(s, g.members)
    && g.first == base + Total(before) + 1 && Fits(g.ops)
    && (g.ok || g.logged || g.ops != [] ==> g.ops == AllOperations(RequestsOf(s, g.members)))
    && (g.ok ==> g.logged || g.ops == []) && (g.logged && !g.ok ==> s.failing)
    && SyncsForAll(s, g.members)
    && (forall i :: 0 <= i < |g.members| ==> g.members[i] in s.results && s.results[g.members[i]] == g.ok)
    && (g.ok && g.logged && s.requests[g.members[0]].sync ==> |Logged(before)| < s.durable)
  }

  // Writers leave in the order in which they came.
  ghost predicate Order(s: State) {
    && Distinct(Everyone(s)) && (forall id :: id in Everyone(s) <==> id in s.requests)
    && (forall id :: id in Members(s.groups) <==> id in s.results)
  }

  ghost predicate GroupsOk(s: State, base: nat) {
    forall i: nat :: i < |s.groups| ==> GroupOk(s, base, s.groups[..i], s.groups[i])
  }

  ghost predicate Sums(s: State, base: nat) {
    && s.lastSequence == base + Total(s.groups)
    && s.memtable == Applied(s.groups)
    && s.log == Logged(s.groups) && s.durable <= |s.log|
  }

  ghost predicate AllFit(s: State) {
    forall id :: id in s.requests && s.requests[id].batch.Batch? ==> Fits(s.requests[id].batch.ops)
  }

  ghost predicate Inv(s: State, base: nat) {
    Order(s) && GroupsOk(s, base) && Sums(s, base) && (s.phase.Logging? ==> PhaseOk(s)) && Awake(s) && AllFit(s)
  }

  ghost predicate PhaseOk(s: State)
    requires s.phase.Logging?
  {
    && Working(s) && Known(s, s.queue)
    && s.phase.first == s.lastSequence + 1 && Fits(s.phase.ops)
    && s.phase.ops == AllOperations(RequestsOf(s, s.queue[..s.phase.count]))
    && SyncsForAll(s, s.queue[..s.phase.count])
  }

  // No wake-up is lost: whoever is done or at the front is awake.
  ghost predicate Awake(s: State) {
    && (s.queue != [] ==> s.queue[0] in s.awake)
    && forall id :: id in s.results ==> id in s.awake
  }

  lemma InitHasInv(s: State)
    requires Init(s)
    ensures Inv(s, s.lastSequence)
  {
  }

  // Groups stay in order when writers are added and results are only gained.
  lemma GroupsKept(s: State, s': State, base: nat)
    requires GroupsOk(s, base)
    requires s.groups <= s'.groups && s.durable <= s'.durable && (s.failing ==> s'.failing)
    requires forall id :: id in s.requests ==> id in s'.requests && s'.requests[id] == s.requests[id]
    requires forall id :: id in s.results ==> id in s'.results && s'.results[id] == s.results[id]
    ensures forall i: nat :: i < |s.groups| ==> GroupOk(s', base, s'.groups[..i], s'.groups[i])
  {
    hide Members, Total, Applied, Logged, AllOperations;
    forall i: nat | i < |s.groups| ensures GroupOk(s', base, s'.groups[..i], s'.groups[i]) {
      assert GroupOk(s, base, s.groups[..i], s.groups[i]);
      assert s'.groups[..i] == s.groups[..i] && s'.groups[i] == s.groups[i];
      assert RequestsOf(s', s'.groups[i].members) == RequestsOf(s, s.groups[i].members);
    }
  }

  lemma PhaseKept(s: State, s': State)
    requires s.phase.Logging? && PhaseOk(s)
    requires s'.phase == s.phase && s'.lastSequence == s.lastSequence && s.queue <= s'.queue && Known(s', s'.queue)
    requires forall id :: id in s.requests ==> id in s'.requests && s'.requests[id] == s.requests[id]
    ensures PhaseOk(s')
  {
    hide AllOperations;
    assert s'.queue[..s.phase.count] == s.queue[..s.phase.count];
    assert RequestsOf(s', s.queue[..s.phase.count]) == RequestsOf(s, s.queue[..s.phase.count]);
  }

  lemma EntersKeepsInv(s: State, s': State, id: Id, r: Request, base: nat)
    requires Inv(s, base) && Enters(s, s', id, r)
    ensures Inv(s', base) && Everyone(s') == Everyone(s) + [id]
  {
    hide Members, Total, Applied, Logged, GroupOk, PhaseOk, Known;
    assert Everyone(s') == Everyone(s) + [id];
    GroupsKept(s, s', base);
    if s.phase.Logging? {
      AllKnown(s');
      PhaseKept(s, s');
    }
  }

  lemma AllKnown(s: State)
    requires forall id :: id in Everyone(s) ==> id in s.requests
    ensures Known(s, s.queue)
  {
    hide Members;
    forall i | 0 <= i < |s.queue| ensures s.queue[i] in s.requests {
      assert s.queue[i] in Everyone(s);
    }
  }

  lemma WaitsKeepsInv(s: State, s': State, id: Id, base: nat)
    requires Inv(s, base) && WaitsAgain(s, s', id)
    ensures Inv(s', base) && Everyone(s') == Everyone(s)
  {
    hide Members, Total, Applied, Logged, GroupOk, PhaseOk;
    GroupsKept(s, s', base);
    QueueNotDone(s.groups, s.queue);
    if s.phase.Logging? {
      AllKnown(s');
      PhaseKept(s, s');
    }
  }

  lemma QueueNotDone(groups: seq<Group>, queue: seq<Id>)
    requires Distinct(Members(groups) + queue)
    ensures forall id :: id in queue ==> id !in Members(groups)
  {
    hide Members;
    var done := Members(groups);
    forall i, j | 0 <= i < |done| && 0 <= j < |queue| ensures done[i] != queue[j] {
      assert (done + queue)[i] == done[i] && (done + queue)[|done| + j] == queue[j];
    }
  }

  lemma BeginsKeepsInv(s: State, s': State, k: nat, base: nat)
    requires Inv(s, base) && Begins(s, s', k)
    ensures Inv(s', base) && Everyone(s') == Everyone(s)
  {
    hide Members, Total, Applied, Logged, GroupOk, PhaseOk, IsGroup;
    GroupsKept(s, s', base);
    GroupFormed(s, s', k);
  }

  // The size limit keeps the number of operations within the 32 bits of the count.
  lemma {:induction false} GroupFits(writers: seq<Request>, k: nat)
    requires 1 <= k <= |writers| && (forall i: nat :: 1 <= i < k ==> MayFollow(writers, i))
    requires forall i :: 0 <= i < |writers| && writers[i].batch.Batch? ==> Fits(writers[i].batch.ops)
    ensures Fits(AllOperations(writers[..k]))
  {
    hide Records, ByteSize, MaxSize, TotalSize, AllOperations, OpFits;
    if k == 1 {
      OneWriter(writers);
    } else {
      GroupFits(writers, k - 1);
      MoreWriters(writers, k - 1);
      SizeBoundsCount(writers[..k]);
      MaxIsSmall(writers[0]);
      assert MayFollow(writers, k - 1);
    }
  }

  // A group is no larger than a megabyte, unless its first write alone is, and a first write of up to 128 KB is
  // not held up for more than that much besides.
  lemma {:induction false} GroupIsSmall(writers: seq<Request>, k: nat)
    requires 1 <= k <= |writers| && (forall i: nat :: 1 <= i < k ==> MayFollow(writers, i))
    ensures var first, size := ByteSize(writers[0]), TotalSize(writers[..k]);
            size == first || size <= if first <= 131072 then first + 131072 else 1048576
  {
    hide ByteSize, TotalSize;
    if k == 1 {
      OneWriter(writers);
    } else {
      GroupIsSmall(writers, k - 1);
      MoreWriters(writers, k - 1);
      assert MayFollow(writers, k - 1);
    }
  }

  lemma MaxIsSmall(first: Request)
    ensures MaxSize(first) < COUNT_LIMIT
  {
    hide ByteSize;
  }

  lemma GroupFormed(s: State, s': State, k: nat)
    requires Begins(s, s', k) && AllFit(s)
    ensures s'.phase.Logging? && PhaseOk(s')
  {
    hide AllOperations, Fits;
    var writers := RequestsOf(s, s.queue);
    GroupFits(writers, k);
    assert writers[..k] == RequestsOf(s', s.queue[..k]);
    forall i: nat | i < k && s.requests[s.queue[i]].sync ensures s.requests[s.queue[0]].sync {
      assert i > 0 ==> MayFollow(writers, i);
    }
  }

  // A group comes off the queue with its effects.
  ghost predicate TakesOff(s: State, s': State, k: nat, g: Group) {
    && 1 <= k <= |s.queue| && g.members == s.queue[..k] && Known(s, g.members) && SyncsForAll(s, g.members)
    && (g.ok || g.logged || g.ops != [] ==> g.ops == AllOperations(RequestsOf(s, g.members)))
    && (g.ok ==> g.logged || g.ops == []) && (s.failing || (g.logged && !g.ok) ==> s'.failing)
    && g.first == s.lastSequence + 1 && Fits(g.ops)
    && s'.queue == s.queue[k..] && s'.groups == s.groups + [g] && s'.phase == Free && s'.requests == s.requests
    && s'.results == s.results + (map id | id in g.members :: g.ok)
    && s'.awake == s.awake + (set id | id in g.members) + (if s'.queue == [] then {} else {s'.queue[0]})
    && s'.lastSequence == s.lastSequence + |g.ops|
    && s'.log == (if g.logged then s.log + [Rep(g.first, g.ops)] else s.log)
    && s'.memtable == (if g.ok then s.memtable + Stamps(g.first, g.ops) else s.memtable)
    && s.durable <= s'.durable <= |s'.log|
    && (g.ok && g.logged && s.requests[g.members[0]].sync ==> s'.durable == |s'.log|)
  }

  lemma Unfold(groups: seq<Group>, g: Group)
    ensures Members(groups + [g]) == Members(groups) + g.members
    ensures Total(groups + [g]) == Total(groups) + |g.ops|
    ensures Applied(groups + [g]) == if g.ok then Applied(groups) + Stamps(g.first, g.ops) else Applied(groups)
    ensures Logged(groups + [g]) == if g.logged then Logged(groups) + [Rep(g.first, g.ops)] else Logged(groups)
  {
    hide Rep, Stamps;
    assert (groups + [g])[..|groups|] == groups;
  }

  lemma TakesOffOrder(s: State, s': State, k: nat, g: Group)
    requires Order(s) && TakesOff(s, s', k, g)
    ensures Order(s') && Everyone(s') == Everyone(s)
  {
    hide Members, Order, Distinct, TakesOff;
    MovesToGroups(s, s', k, g);
    OrderStays(s, s', g);
  }

  lemma MovesToGroups(s: State, s': State, k: nat, g: Group)
    requires TakesOff(s, s', k, g)
    ensures Everyone(s') == Everyone(s) && s'.requests == s.requests
    ensures s'.results == s.results + (map id | id in g.members :: g.ok)
    ensures Members(s'.groups) == Members(s.groups) + g.members
  {
    hide Members, Total, Applied, Logged, AllOperations, Rep, Stamps, SyncsForAll, Known, Fits;
    Unfold(s.groups, g);
    assert s.queue == s.queue[..k] + s.queue[k..];
    SameRow(Members(s.groups), g.members, s.queue[k..]);
  }

  lemma SameRow(a: seq<nat>, b: seq<nat>, c: seq<nat>)
    ensures (a + b) + c == a + (b + c)
  {
  }

  lemma OrderStays(s: State, s': State, g: Group)
    requires Order(s) && Everyone(s') == Everyone(s) && s'.requests == s.requests
    requires s'.results == s.results + (map id | id in g.members :: g.ok)
    requires Members(s'.groups) == Members(s.groups) + g.members
    ensures Order(s')
  {
    hide Members, Everyone, Distinct;
  }

  lemma TakesOffSums(s: State, s': State, k: nat, g: Group, base: nat)
    requires Sums(s, base) && TakesOff(s, s', k, g)
    ensures Sums(s', base)
  {
    hide Members, Total, Applied, Logged, AllOperations, Rep, Stamps, SyncsForAll, Known;
    Unfold(s.groups, g);
  }

  lemma TakesOffAwake(s: State, s': State, k: nat, g: Group)
    requires Awake(s) && TakesOff(s, s', k, g)
    ensures Awake(s')
  {
    hide AllOperations, Rep, Stamps, SyncsForAll, Known;
  }

  lemma TakesOffKeepsGroups(s: State, s': State, k: nat, g: Group, base: nat)
    requires Order(s) && GroupsOk(s, base) && Sums(s, base) && TakesOff(s, s', k, g)
    ensures GroupsOk(s', base)
  {
    hide Members, Total, Applied, Logged, AllOperations, Rep, Stamps, GroupOk, SyncsForAll, Known;
    QueueNotDone(s.groups, s.queue);
    GroupsKept(s, s', base);
    NewGroupOk(s, s', k, g, base);
    assert s'.groups[..|s.groups|] == s.groups;
  }

  lemma NewGroupOk(s: State, s': State, k: nat, g: Group, base: nat)
    requires Sums(s, base) && TakesOff(s, s', k, g)
    ensures GroupOk(s', base, s.groups, g)
  {
    hide Members, Total, Applied, Logged, AllOperations, Rep, Stamps;
    assert RequestsOf(s', g.members) == RequestsOf(s, g.members);
    assert forall i :: 0 <= i < |g.members| ==> g.members[i] in g.members;
  }

  lemma TakesOffKeepsInv(s: State, s': State, k: nat, g: Group, base: nat)
    requires Inv(s, base) && TakesOff(s, s', k, g)
    ensures Inv(s', base) && Everyone(s') == Everyone(s)
  {
    hide Order, Sums, Awake, GroupsOk, Everyone, Stamps, Rep, AllOperations;
    TakesOffOrder(s, s', k, g);
    TakesOffSums(s, s', k, g, base);
    TakesOffAwake(s, s', k, g);
    TakesOffKeepsGroups(s, s', k, g, base);
  }

  lemma PassesKeepsInv(s: State, s': State, room: bool, base: nat)
    requires Inv(s, base) && Passes(s, s', room)
    ensures Inv(s', base) && Everyone(s') == Everyone(s)
  {
    hide *;
    PassesTakesOff(s, s', room, base);
    TakesOffKeepsInv(s, s', 1, s'.groups[|s.groups|], base);
  }

  lemma PassesTakesOff(s: State, s': State, room: bool, base: nat)
    requires Inv(s, base) && Passes(s, s', room)
    ensures |s'.groups| == |s.groups| + 1 && TakesOff(s, s', 1, s'.groups[|s.groups|])
  {
    hide Order, GroupsOk, Awake, AllFit, AllOperations, Rep, Stamps, Total, Applied, Logged;
    var front := s.queue[0];
    assert s.queue[..1] == [front];
    assert RequestsOf(s, [front]) == [s.requests[front]];
    NothingToDo(s.requests[front]);
  }

  lemma NothingToDo(r: Request)
    ensures r.batch.NoBatch? ==> AllOperations([r]) == []
  {
    OneWriter([r]);
    assert [r][..1] == [r];
  }

  lemma EndsKeepsInv(s: State, s': State, logged: bool, synced: bool, base: nat)
    requires Inv(s, base) && Ends(s, s', logged, synced)
    ensures Inv(s', base) && Everyone(s') == Everyone(s)
  {
    hide Inv, Everyone;
    EndsTakesOff(s, s', logged, synced, base);
    TakesOffKeepsInv(s, s', s.phase.count, s'.groups[|s.groups|], base);
  }

  lemma EndsTakesOff(s: State, s': State, logged: bool, synced: bool, base: nat)
    requires Inv(s, base) && Ends(s, s', logged, synced)
    ensures |s'.groups| == |s.groups| + 1 && TakesOff(s, s', s.phase.count, s'.groups[|s.groups|])
  {
    hide Order, GroupsOk, Awake, AllFit, AllOperations, Rep, Stamps, Total, Applied, Logged;
  }

  lemma StepKeepsInv(s: State, a: Action, s': State, base: nat)
    requires Inv(s, base) && Step(s, a, s')
    ensures Inv(s', base)
    ensures Everyone(s') == Everyone(s) + if a.Enter? then [a.id] else []
  {
    hide Inv, Enters, WaitsAgain, Begins, Passes, Ends, Members;
    assert Everyone(s) + [] == Everyone(s);
    match a
    case Enter(id, r) => EntersKeepsInv(s, s', id, r, base);
    case Wait(id) => WaitsKeepsInv(s, s', id, base);
    case Begin(k) => BeginsKeepsInv(s, s', k, base);
    case Pass(room) => PassesKeepsInv(s, s', room, base);
    case End(logged, synced) => EndsKeepsInv(s, s', logged, synced, base);
  }

  // ---- Runs ----

  ghost predicate IsRun(states: seq<State>, actions: seq<Action>) {
    && |states| == |actions| + 1 && Init(states[0])
    && forall i :: 0 <= i < |actions| ==> Step(states[i], actions[i], states[i + 1])
  }

  lemma {:induction false} RunKeepsInv(states: seq<State>, actions: seq<Action>, n: nat)
    requires IsRun(states, actions) && n <= |actions|
    ensures Inv(states[n], states[0].lastSequence)
    decreases n
  {
    hide Inv, Step;
    if n == 0 {
      InitHasInv(states[0]);
    } else {
      RunKeepsInv(states, actions, n - 1);
      StepKeepsInv(states[n - 1], actions[n - 1], states[n], states[0].lastSequence);
    }
  }

  // Who came first is served first: the arrivals are the members of the groups, in order, and the queue.
  function Arrivals(actions: seq<Action>): seq<Id> {
    if actions == [] then []
    else
      var a := actions[|actions| - 1];
      Arrivals(actions[..|actions| - 1]) + if a.Enter? then [a.id] else []
  }

  lemma {:induction false} ServedInOrder(states: seq<State>, actions: seq<Action>, n: nat)
    requires IsRun(states, actions) && n <= |actions|
    ensures Everyone(states[n]) == Arrivals(actions[..n])
    decreases n
  {
    hide Inv, Step, Everyone;
    if n == 0 {
      NobodyYet(states[0]);
    } else {
      ServedInOrder(states, actions, n - 1);
      RunKeepsInv(states, actions, n - 1);
      StepKeepsInv(states[n - 1], actions[n - 1], states[n], states[0].lastSequence);
      assert actions[..n][..n - 1] == actions[..n - 1];
    }
  }

  lemma NobodyYet(s: State)
    requires Init(s)
    ensures Everyone(s) == []
  {
  }

  // While somebody waits there is always a step that takes writers off the queue, or leads to one.
  lemma SomebodyCanGo(s: State, base: nat) returns (a: Action, s': State)
    requires Inv(s, base) && s.queue != []
    ensures !a.Enter? && !a.Wait? && Step(s, a, s')
  {
    hide Order, GroupsOk, Sums, AllFit, AllOperations, MayFollow, Rep, Stamps;
    FrontIsKnown(s, base);
    if s.phase.Logging? {
      a := End(false, false);
      s' := Pop(s, s.phase.count, Group(s.queue[..s.phase.count], s.phase.first, s.phase.ops, false, false)).(
              lastSequence := s.phase.first - 1 + |s.phase.ops|);
    } else if s.failing || s.requests[s.queue[0]].batch.NoBatch? {
      a := Pass(!s.failing);
      s' := Pop(s, 1, Group([s.queue[0]], s.lastSequence + 1, [], false, !s.failing));
    } else {
      var writers := RequestsOf(s, s.queue);
      var k := GroupExists(writers);
      a := Begin(k);
      s' := s.(phase := Logging(k, s.lastSequence + 1, AllOperations(writers[..k])));
    }
  }

  lemma FrontIsKnown(s: State, base: nat)
    requires Inv(s, base) && s.queue != []
    ensures Known(s, s.queue)
  {
    AllKnown(s);
  }

  lemma GroupExists(writers: seq<Request>) returns (k: nat)
    requires |writers| > 0
    ensures IsGroup(writers, k)
  {
    hide MayFollow;
    k := 1;
    while k < |writers| && MayFollow(writers, k)
      invariant 1 <= k <= |writers| && forall i: nat :: 1 <= i < k ==> MayFollow(writers, i)
    {
      k := k + 1;
    }
  }

  // ---- Every write once ----

  ghost predicate Ascends(entries: seq<Stamped>, low: nat, high: nat) {
    && (forall i :: 0 <= i < |entries| ==> low < entries[i].sequence <= high)
    && (forall i, j :: 0 <= i < j < |entries| ==> entries[i].sequence < entries[j].sequence)
  }

  lemma AscendsOn(a: seq<Stamped>, b: seq<Stamped>, low: nat, mid: nat, high: nat)
    requires Ascends(a, low, mid) && Ascends(b, mid, high) && low <= mid <= high
    ensures Ascends(a + b, low, high)
  {
  }

  // Sequence numbers are handed out in order and never twice.
  lemma {:induction false} SequencesAscend(s: State, base: nat, n: nat)
    requires GroupsOk(s, base) && n <= |s.groups|
    ensures Ascends(Applied(s.groups[..n]), base, base + Total(s.groups[..n]))
    decreases n
  {
    hide *;
    if n == 0 {
      NothingApplied(base);
      assert s.groups[..0] == [];
    } else {
      SequencesAscend(s, base, n - 1);
      var before, g := s.groups[..n - 1], s.groups[n - 1];
      FirstOf(s, base, n - 1);
      assert before + [g] == s.groups[..n];
      Unfold(before, g);
      var mid := base + Total(before);
      StampsAscend(g.first, g.ops, mid);
      AscendsOn(Applied(before), Stamps(g.first, g.ops), base, mid, mid + |g.ops|);
      AscendsFurther(Applied(before), base, mid, mid + |g.ops|);
    }
  }

  lemma FirstOf(s: State, base: nat, i: nat)
    requires GroupsOk(s, base) && i < |s.groups|
    ensures s.groups[i].first == base + Total(s.groups[..i]) + 1
  {
    hide Total, AllOperations, Rep, Known, SyncsForAll, Logged;
    assert GroupOk(s, base, s.groups[..i], s.groups[i]);
  }

  lemma NothingApplied(base: nat)
    ensures Ascends(Applied([]), base, base + Total([]))
  {
  }

  lemma AscendsFurther(entries: seq<Stamped>, low: nat, high: nat, higher: nat)
    requires Ascends(entries, low, high) && high <= higher
    ensures Ascends(entries, low, higher)
  {
  }

  lemma StampsAscend(first: nat, ops: seq<Op>, low: nat)
    requires first == low + 1
    ensures Ascends(Stamps(first, ops), low, low + |ops|)
  {
  }

  // How many operations the first members of a group have.
  lemma {:induction false} PartOfAll(writers: seq<Request>, j: nat)
    requires j < |writers|
    ensures var before := AllOperations(writers[..j]);
            var ops := Operations(writers[j]);
            |before| + |ops| <= |AllOperations(writers)| && AllOperations(writers)[|before|..|before| + |ops|] == ops
    decreases |writers|
  {
    hide Operations;
    var n := |writers| - 1;
    if j < n {
      PartOfAll(writers[..n], j);
      assert writers[..n][..j] == writers[..j];
      var before := AllOperations(writers[..j]);
      var ops := Operations(writers[j]);
      assert AllOperations(writers) == AllOperations(writers[..n]) + Operations(writers[n]);
      assert AllOperations(writers)[|before|..|before| + |ops|] == AllOperations(writers[..n])[|before|..|before| + |ops|];
    }
  }

  lemma {:induction false} AppliedPrefix(groups: seq<Group>, n: nat)
    requires n <= |groups|
    ensures Applied(groups[..n]) <= Applied(groups)
    decreases |groups|
  {
    hide Stamps;
    if n < |groups| {
      assert groups[..|groups| - 1][..n] == groups[..n];
      AppliedPrefix(groups[..|groups| - 1], n);
    } else {
      assert groups[..n] == groups;
    }
  }

  // A write that was told ok stands in the memtable as one stretch, under consecutive sequence numbers,
  // behind the writes that were in its group before it.
  lemma WriteIsThere(s: State, base: nat, i: nat, j: nat) returns (at: nat, sequence: nat)
    requires Inv(s, base) && i < |s.groups| && s.groups[i].ok && j < |s.groups[i].members|
    ensures Known(s, s.groups[i].members)
    ensures var ops := Operations(s.requests[s.groups[i].members[j]]);
            at + |ops| <= |s.memtable| && s.memtable[at..at + |ops|] == Stamps(sequence, ops)
    ensures sequence == s.groups[i].first + |AllOperations(RequestsOf(s, s.groups[i].members[..j]))|
  {
    hide *;
    var g := s.groups[i];
    var writers := GroupFacts(s, base, i);
    assert writers[..j] == RequestsOf(s, g.members[..j]);
    PartOfAll(writers, j);
    var before := |AllOperations(writers[..j])|;
    var ops := Operations(writers[j]);
    GroupStretch(s, base, i);
    at, sequence := |Applied(s.groups[..i])| + before, g.first + before;
    StretchOfStamps(g.first, g.ops, before, ops);
    StretchOfPrefix(s.memtable, Applied(s.groups[..i]), Stamps(g.first, g.ops), before, |ops|);
  }

  lemma GroupFacts(s: State, base: nat, i: nat) returns (writers: seq<Request>)
    requires Inv(s, base) && i < |s.groups| && s.groups[i].ok
    ensures Known(s, s.groups[i].members) && forall k :: 0 <= k < |s.groups[i].members| ==> s.groups[i].members[k] in s.requests
    ensures writers == RequestsOf(s, s.groups[i].members) && s.groups[i].ops == AllOperations(writers)
  {
    hide AllOperations, Order, Sums, Awake, AllFit;
    assert GroupOk(s, base, s.groups[..i], s.groups[i]);
    writers := RequestsOf(s, s.groups[i].members);
  }

  lemma GroupStretch(s: State, base: nat, i: nat)
    requires Inv(s, base) && i < |s.groups| && s.groups[i].ok
    ensures Applied(s.groups[..i]) + Stamps(s.groups[i].first, s.groups[i].ops) <= s.memtable
  {
    hide AllOperations, Order, Awake, AllFit, GroupsOk, Applied, Stamps, Logged, Rep, Members, Total, Fits, PhaseOk;
    AppliedPrefix(s.groups, i + 1);
    Unfold(s.groups[..i], s.groups[i]);
    assert s.groups[..i] + [s.groups[i]] == s.groups[..i + 1];
  }

  lemma StretchOfStamps(first: nat, all: seq<Op>, from: nat, ops: seq<Op>)
    requires from + |ops| <= |all| && all[from..from + |ops|] == ops
    ensures Stamps(first, all)[from..from + |ops|] == Stamps(first + from, ops)
  {
    var part := Stamps(first, all)[from..from + |ops|];
    forall i | 0 <= i < |ops| ensures part[i] == Stamps(first + from, ops)[i] {
      assert all[from..from + |ops|][i] == ops[i];
    }
  }

  lemma StretchOfPrefix(whole: seq<Stamped>, a: seq<Stamped>, b: seq<Stamped>, from: nat, n: nat)
    requires a + b <= whole && from + n <= |b|
    ensures whole[|a| + from..|a| + from + n] == b[from..from + n]
  {
    assert (a + b)[|a| + from..|a| + from + n] == b[from..from + n];
    assert (a + b) == whole[..|a + b|];
  }

  // Nobody is in two places: not in two groups, not twice in one, and not in a group and in the queue.
  lemma OnePlace(s: State, base: nat, i: nat, j: nat, i': nat, j': nat)
    requires Inv(s, base) && i < |s.groups| && j < |s.groups[i].members| && i' < |s.groups| && j' < |s.groups[i'].members|
    ensures s.groups[i].members[j] !in s.queue
    ensures s.groups[i].members[j] == s.groups[i'].members[j'] ==> i == i' && j == j'
  {
    hide GroupsOk, Sums, Awake, AllFit, Members, Offset, PhaseOk;
    QueueNotDone(s.groups, s.queue);
    MemberPlace(s.groups, i, j);
    MemberPlace(s.groups, i', j');
    PlacesApart(s.groups, i, j, i', j');
    var p, p' := Offset(s.groups, i) + j, Offset(s.groups, i') + j';
    assert Everyone(s)[p] == s.groups[i].members[j] && Everyone(s)[p'] == s.groups[i'].members[j'];
  }

  function Offset(groups: seq<Group>, i: nat): nat
    requires i <= |groups|
  {
    |Members(groups[..i])|
  }

  lemma {:induction false} MemberPlace(groups: seq<Group>, i: nat, j: nat)
    requires i < |groups| && j < |groups[i].members|
    ensures Offset(groups, i) + |groups[i].members| == Offset(groups, i + 1) <= |Members(groups)|
    ensures Members(groups)[Offset(groups, i) + j] == groups[i].members[j]
    decreases |groups|
  {
    var n := |groups| - 1;
    assert groups[..i + 1][..i] == groups[..i];
    if i < n {
      MemberPlace(groups[..n], i, j);
      assert groups[..n][..i] == groups[..i] && groups[..n][..i + 1] == groups[..i + 1];
    } else {
      assert groups[..i + 1] == groups;
    }
  }

  lemma PlacesApart(groups: seq<Group>, i: nat, j: nat, i': nat, j': nat)
    requires i < |groups| && j < |groups[i].members| && i' < |groups| && j' < |groups[i'].members|
    ensures Offset(groups, i) + j == Offset(groups, i') + j' ==> i == i' && j == j'
  {
    hide Members;
    if i < i' {
      OffsetsGrow(groups, i + 1, i');
      MemberPlace(groups, i, j);
    } else if i' < i {
      OffsetsGrow(groups, i' + 1, i);
      MemberPlace(groups, i', j');
    }
  }

  lemma {:induction false} OffsetsGrow(groups: seq<Group>, i: nat, i': nat)
    requires i <= i' <= |groups|
    ensures Offset(groups, i) <= Offset(groups, i')
    decreases i'
  {
    if i < i' {
      OffsetsGrow(groups, i, i' - 1);
      assert groups[..i'][..i' - 1] == groups[..i' - 1];
    }
  }
}
