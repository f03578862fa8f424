/** db/skiplist.h: the skip list of the memtable. Nodes live in an arena and are named by their place in
    it. Every single store of an insertion leaves a list that concurrent searches can use. */
module SkipLists {

  // Any countable total order embeds in the reals.
  type Key = real

  const MAX_HEIGHT: nat := 12
  const NULL: int := -1
  const HEAD: int := 0

  // The links of a node, lowest level first.
  datatype Node = Node(key: Key, next: seq<int>)

  // The memory of a list, with the nodes that are linked at each level.
  datatype Shape = Shape(nodes: seq<Node>, maxHeight: nat, levels: seq<seq<int>>)

  // The i-th node of a level, with the head before the first and null after the last.
  function At(level: seq<int>, i: int): int
    requires -1 <= i <= |level|
  {
    if i == -1 then HEAD else if i == |level| then NULL else level[i]
  }

  ghost predicate NodesOk(nodes: seq<Node>, level: seq<int>, l: nat) {
    && |nodes| > 0 && |nodes[HEAD].next| > l
    && forall i :: 0 <= i < |level| ==> HEAD < level[i] < |nodes| && |nodes[level[i]].next| > l
  }

  ghost predicate Ascending(nodes: seq<Node>, level: seq<int>)
    requires forall i :: 0 <= i < |level| ==> 0 <= level[i] < |nodes|
  {
    forall i, j :: 0 <= i < j < |level| ==> nodes[level[i]].key < nodes[level[j]].key
  }

  ghost predicate Linked(nodes: seq<Node>, level: seq<int>, l: nat)
    requires NodesOk(nodes, level, l)
  {
    forall i :: -1 <= i < |level| ==> nodes[At(level, i)].next[l] == At(level, i + 1)
  }

  ghost predicate LevelOk(nodes: seq<Node>, level: seq<int>, l: nat) {
    NodesOk(nodes, level, l) && Ascending(nodes, level) && Linked(nodes, level, l)
  }

  ghost predicate Below(levels: seq<seq<int>>, l: nat)
    requires l + 1 < |levels|
  {
    forall x :: x in levels[l + 1] ==> x in levels[l]
  }

  // Every level is a strictly ascending linked list and has only nodes of the level below.
  ghost predicate Good(s: Shape) {
    && |s.levels| == MAX_HEIGHT && 1 <= s.maxHeight <= MAX_HEIGHT
    && (forall l: nat :: l < MAX_HEIGHT ==> LevelOk(s.nodes, s.levels[l], l))
    && (forall l: nat :: l + 1 < MAX_HEIGHT ==> Below(s.levels, l))
    && (forall l: nat :: s.maxHeight <= l < MAX_HEIGHT ==> s.levels[l] == [])
  }

  // What was there is still there: nodes keep their keys and heights, and levels only gain nodes.
  ghost predicate Grows(s: Shape, s': Shape) {
    && |s.nodes| <= |s'.nodes| && |s.levels| == |s'.levels|
    && (forall n :: 0 <= n < |s.nodes| ==> s.nodes[n].key == s'.nodes[n].key)
    && (forall l, x :: 0 <= l < |s.levels| && x in s.levels[l] ==> x in s'.levels[l])
  }

  // The place of a target in a level: behind c nodes, all of them below it.
  ghost predicate IsCut(nodes: seq<Node>, level: seq<int>, target: Key, c: int)
    requires forall i :: 0 <= i < |level| ==> 0 <= level[i] < |nodes|
  {
    && 0 <= c <= |level|
    && (forall i :: 0 <= i < c ==> nodes[level[i]].key < target)
    && (forall i :: c <= i < |level| ==> nodes[level[i]].key >= target)
  }

  // `next` is the first key of the list that is not below the target, and `before` the last one that is.
  ghost predicate Answers(s: Shape, target: Key, before: int, next: int)
    requires Good(s)
  {
    assert LevelOk(s.nodes, s.levels[0], 0);
    exists c :: IsCut(s.nodes, s.levels[0], target, c) && before == At(s.levels[0], c - 1) && next == At(s.levels[0], c)
  }

  // ---- Searches ----

  datatype Search = Searching(node: int, level: nat) | Found(before: int, next: int)

  function Next(nodes: seq<Node>, node: int, level: nat): int {
    if 0 <= node < |nodes| && level < |nodes[node].next| then nodes[node].next[level] else NULL
  }

  // KeyIsAfterNode: null counts as infinite.
  predicate KeyIsAfterNode(nodes: seq<Node>, key: Key, node: int) {
    0 <= node < |nodes| && nodes[node].key < key
  }

  // One turn of a search, with the one load of a link that it makes.
  function SearchStep(nodes: seq<Node>, target: Key, r: Search): Search {
    match r
    case Found(_, _) => r
    case Searching(node, level) =>
      var next := Next(nodes, node, level);
      if KeyIsAfterNode(nodes, target, next) then Searching(next, level)
      else if level == 0 then Found(node, next)
      else Searching(node, level - 1)
  }

  // A search stands on the head or on a linked node below its target.
  ghost predicate Sound(s: Shape, target: Key, r: Search)
    requires Good(s)
  {
    r.Searching? ==> r.level < MAX_HEIGHT && (r.node == HEAD || (r.node in s.levels[r.level] && KeyIsAfterNode(s.nodes, target, r.node)))
  }

  lemma IndexIn(level: seq<int>, node: int) returns (i: int)
    requires node == HEAD || node in level
    ensures -1 <= i < |level| && At(level, i) == node
  {
    if node in level {
      i :| 0 <= i < |level| && level[i] == node;
    } else {
      i := -1;
    }
  }

  lemma NextIs(nodes: seq<Node>, level: seq<int>, l: nat, i: int)
    requires LevelOk(nodes, level, l) && -1 <= i < |level|
    ensures Next(nodes, At(level, i), l) == At(level, i + 1)
  {
  }

  // Where the next node is not below the target, the level is cut.
  lemma CutFound(nodes: seq<Node>, level: seq<int>, l: nat, target: Key, i: int)
    requires LevelOk(nodes, level, l) && -1 <= i < |level|
    requires i == -1 || KeyIsAfterNode(nodes, target, level[i])
    requires !KeyIsAfterNode(nodes, target, At(level, i + 1))
    ensures IsCut(nodes, level, target, i + 1)
  {
    forall j | 0 <= j < i + 1 ensures nodes[level[j]].key < target {
      assert j < i ==> nodes[level[j]].key < nodes[level[i]].key;
    }
    forall j | i + 1 <= j < |level| ensures nodes[level[j]].key >= target {
      assert i + 1 < j ==> nodes[level[i + 1]].key < nodes[level[j]].key;
    }
  }

  lemma StepIsSound(s: Shape, target: Key, r: Search)
    requires Good(s) && Sound(s, target, r)
    ensures var r' := SearchStep(s.nodes, target, r);
            && Sound(s, target, r')
            && (r.Searching? && r'.Found? ==> Answers(s, target, r'.before, r'.next))
  {
    if r.Searching? {
      hide LevelOk;
      var level := s.levels[r.level];
      var i := IndexIn(level, r.node);
      assert LevelOk(s.nodes, level, r.level);
      NextIs(s.nodes, level, r.level, i);
      var next := At(level, i + 1);
      if KeyIsAfterNode(s.nodes, target, next) {
        assert next in level;
      } else if r.level == 0 {
        CutFound(s.nodes, level, 0, target, i);
      } else {
        assert Below(s.levels, r.level - 1);
      }
    }
  }

  lemma GrowthKeepsSound(s: Shape, s': Shape, target: Key, r: Search)
    requires Good(s) && Good(s') && Grows(s, s') && Sound(s, target, r)
    ensures Sound(s', target, r)
  {
  }

  // A concurrent search: each turn finds the list as it is at that moment.
  ghost predicate IsSearch(states: seq<Shape>, target: Key, height: nat, turns: seq<Search>) {
    && |turns| == |states| + 1
    && 1 <= height <= MAX_HEIGHT && turns[0] == Searching(HEAD, height - 1)
    && forall i :: 0 <= i < |states| ==> turns[i + 1] == SearchStep(states[i].nodes, target, turns[i])
  }

  ghost predicate IsHistory(states: seq<Shape>) {
    && (forall i :: 0 <= i < |states| ==> Good(states[i]))
    && (forall i :: 0 < i < |states| ==> Grows(states[i - 1], states[i]))
  }

  // Whatever maximum height it started from, and whatever is stored while it runs, a search that ends
  // answers correctly for the list at the moment of its last load.
  lemma {:induction false} SearchLinearizes(states: seq<Shape>, target: Key, height: nat, turns: seq<Search>)
    requires IsHistory(states) && IsSearch(states, target, height, turns) && |states| > 0
    ensures Sound(states[|states| - 1], target, turns[|states|])
    ensures var n := |states|;
            turns[n].Found? && turns[n - 1].Searching? ==>
              Answers(states[n - 1], target, turns[n].before, turns[n].next)
  {
    hide Good, Grows, Sound, Answers;
    var n := |states| - 1;
    var last := states[n];
    if n == 0 {
      HeadIsSound(last, target, height);
    } else {
      SearchLinearizes(states[..n], target, height, turns[..n + 1]);
      GrowthKeepsSound(states[n - 1], last, target, turns[n]);
    }
    StepIsSound(last, target, turns[n]);
  }

  lemma {:induction false} LaterGrows(history: seq<Shape>, i: nat, j: nat)
    requires IsHistory(history) && i <= j < |history|
    ensures Grows(history[i], history[j])
  {
    hide Good;
    if i < j {
      LaterGrows(history, i, j - 1);
      assert Grows(history[j - 1], history[j]);
    }
  }

  // A search may take its turns at any moments of a history, as long as time does not run backwards.
  lemma ConcurrentSearch(history: seq<Shape>, moments: seq<nat>, target: Key, height: nat, turns: seq<Search>)
    requires IsHistory(history) && |moments| > 0
    requires forall i :: 0 <= i < |moments| ==> moments[i] < |history|
    requires forall i, j :: 0 <= i < j < |moments| ==> moments[i] <= moments[j]
    requires IsSearch(seq(|moments|, i requires 0 <= i < |moments| => history[moments[i]]), target, height, turns)
    requires turns[|moments|].Found? && turns[|moments| - 1].Searching?
    ensures var end := moments[|moments| - 1];
            Good(history[end]) && Answers(history[end], target, turns[|moments|].before, turns[|moments|].next)
  {
    hide Good, Grows, Answers;
    var states := seq(|moments|, i requires 0 <= i < |moments| => history[moments[i]]);
    forall i | 0 < i < |states| ensures Grows(states[i - 1], states[i]) {
      LaterGrows(history, moments[i - 1], moments[i]);
    }
    SearchLinearizes(states, target, height, turns);
  }

  lemma HeadIsSound(s: Shape, target: Key, height: nat)
    requires Good(s) && 1 <= height <= MAX_HEIGHT
    ensures Sound(s, target, Searching(HEAD, height - 1))
  {
  }

  // ---- Stores ----

  function WithNext(nodes: seq<Node>, n: int, l: nat, to: int): seq<Node>
    requires 0 <= n < |nodes| && l < |nodes[n].next|
  {
    nodes[n := nodes[n].(next := nodes[n].next[l := to])]
  }

  function InsertAt(level: seq<int>, c: int, x: int): seq<int>
    requires 0 <= c <= |level|
  {
    level[..c] + [x] + level[c..]
  }

  // The stores of an insertion: the maximum height, a fresh node, or one link.
  ghost predicate OneStore(s: Shape, s': Shape) {
    || (s'.nodes == s.nodes && s'.levels == s.levels)
    || (|s'.nodes| == |s.nodes| + 1 && s'.nodes[..|s.nodes|] == s.nodes && s'.levels == s.levels)
    || (exists n, l, to :: 0 <= n < |s.nodes| && 0 <= l < |s.nodes[n].next| && s'.nodes == WithNext(s.nodes, n, l, to))
  }

  lemma OtherLevelKept(nodes: seq<Node>, level: seq<int>, k: nat, n: int, l: nat, to: int)
    requires 0 <= n < |nodes| && l < |nodes[n].next| && LevelOk(nodes, level, k)
    requires k != l || (n != HEAD && n !in level)
    ensures LevelOk(WithNext(nodes, n, l, to), level, k)
  {
    var nodes' := WithNext(nodes, n, l, to);
    forall i | -1 <= i < |level| ensures nodes'[At(level, i)].next[k] == At(level, i + 1) {
      assert nodes[At(level, i)].next[k] == At(level, i + 1);
    }
  }

  lemma NewNodeKept(nodes: seq<Node>, level: seq<int>, l: nat, node: Node)
    requires LevelOk(nodes, level, l)
    ensures LevelOk(nodes + [node], level, l)
  {
  }

  lemma InsertedIs(level: seq<int>, c: int, x: int)
    requires 0 <= c <= |level|
    ensures |InsertAt(level, c, x)| == |level| + 1
    ensures forall i :: 0 <= i < c ==> InsertAt(level, c, x)[i] == level[i]
    ensures InsertAt(level, c, x)[c] == x
    ensures forall i :: c < i <= |level| ==> InsertAt(level, c, x)[i] == level[i - 1]
  {
  }

  lemma OrderGains(nodes: seq<Node>, level: seq<int>, l: nat, c: int, x: int)
    requires NodesOk(nodes, level, l) && Ascending(nodes, level) && HEAD < x < |nodes| && l < |nodes[x].next|
    requires IsCut(nodes, level, nodes[x].key, c)
    requires forall i :: 0 <= i < |level| ==> nodes[level[i]].key != nodes[x].key
    ensures NodesOk(nodes, InsertAt(level, c, x), l) && Ascending(nodes, InsertAt(level, c, x))
  {
    InsertedIs(level, c, x);
  }

  // Linking a node at its place adds it to the level.
  lemma LevelGains(nodes: seq<Node>, level: seq<int>, l: nat, c: int, x: int)
    requires LevelOk(nodes, level, l) && HEAD < x < |nodes| && l < |nodes[x].next| && x !in level
    requires IsCut(nodes, level, nodes[x].key, c) && nodes[x].next[l] == At(level, c)
    requires forall i :: 0 <= i < |level| ==> nodes[level[i]].key != nodes[x].key
    ensures LevelOk(WithNext(nodes, At(level, c - 1), l, x), InsertAt(level, c, x), l)
  {
    hide InsertAt;
    BeforeIsNode(nodes, level, l, c);
    var before := At(level, c - 1);
    var nodes', level' := WithNext(nodes, before, l, x), InsertAt(level, c, x);
    PlacesGain(level, c, x);
    OrderGains(nodes, level, l, c, x);
    forall i | -1 <= i < |level'| ensures nodes'[At(level', i)].next[l] == At(level', i + 1) {
      if i < c - 1 {
        assert nodes[At(level, i)].next[l] == At(level, i + 1);
        DistinctPlaces(nodes, level, l, i, c - 1);
      } else if i == c - 1 {
        assert At(level', i) == before && At(level', c) == x;
      } else if i == c {
        assert At(level', i) == x && At(level', c + 1) == At(level, c);
        assert x != before;
      } else {
        assert nodes[At(level, i - 1)].next[l] == At(level, i);
        DistinctPlaces(nodes, level, l, c - 1, i - 1);
      }
    }
  }

  lemma PlacesGain(level: seq<int>, c: int, x: int)
    requires 0 <= c <= |level|
    ensures |InsertAt(level, c, x)| == |level| + 1
    ensures forall i :: -1 <= i < c ==> At(InsertAt(level, c, x), i) == At(level, i)
    ensures At(InsertAt(level, c, x), c) == x
    ensures forall i :: c < i <= |level| + 1 ==> At(InsertAt(level, c, x), i) == At(level, i - 1)
  {
    hide InsertAt;
    InsertedIs(level, c, x);
  }

  lemma BeforeIsNode(nodes: seq<Node>, level: seq<int>, l: nat, c: int)
    requires NodesOk(nodes, level, l) && 0 <= c <= |level|
    ensures var before := At(level, c - 1);
            (before == HEAD || before in level) && 0 <= before < |nodes| && l < |nodes[before].next|
  {
  }

  lemma DistinctPlaces(nodes: seq<Node>, level: seq<int>, l: nat, i: int, j: int)
    requires LevelOk(nodes, level, l) && -1 <= i < j < |level|
    ensures At(level, i) != At(level, j)
  {
  }

  // The two stores of one turn of Insert's loop: each leaves a good list.
  ghost function Prepared(s: Shape, x: int, l: nat, to: int): Shape
    requires 0 <= x < |s.nodes| && l < |s.nodes[x].next|
  {
    s.(nodes := WithNext(s.nodes, x, l, to))
  }

  ghost function Published(s: Shape, before: int, x: int, l: nat, c: int): Shape
    requires 0 <= before < |s.nodes| && l < |s.nodes[before].next| && l < |s.levels| && 0 <= c <= |s.levels[l]|
  {
    s.(nodes := WithNext(s.nodes, before, l, x), levels := s.levels[l := InsertAt(s.levels[l], c, x)])
  }

  ghost predicate CanLink(s: Shape, x: int, l: nat)
    requires Good(s)
  {
    && HEAD < x < |s.nodes| && l < |s.nodes[x].next| <= s.maxHeight
    && (forall k: nat :: l <= k < MAX_HEIGHT ==> x !in s.levels[k])
    && (l > 0 ==> x in s.levels[l - 1])
    && (forall y :: y in s.levels[l] ==> 0 <= y < |s.nodes| && s.nodes[y].key != s.nodes[x].key)
  }

  lemma PreparedIsGood(s: Shape, x: int, l: nat, to: int)
    requires Good(s) && CanLink(s, x, l)
    ensures Good(Prepared(s, x, l, to)) && Grows(s, Prepared(s, x, l, to)) && CanLink(Prepared(s, x, l, to), x, l)
    ensures OneStore(s, Prepared(s, x, l, to))
  {
    hide LevelOk;
    forall k: nat | k < MAX_HEIGHT ensures LevelOk(Prepared(s, x, l, to).nodes, s.levels[k], k) {
      OtherLevelKept(s.nodes, s.levels[k], k, x, l, to);
    }
  }

  lemma PublishedIsGood(s: Shape, x: int, l: nat, c: int)
    requires Good(s) && CanLink(s, x, l) && LevelOk(s.nodes, s.levels[l], l)
    requires IsCut(s.nodes, s.levels[l], s.nodes[x].key, c) && s.nodes[x].next[l] == At(s.levels[l], c)
    ensures var before := At(s.levels[l], c - 1);
            && 0 <= before < |s.nodes| && l < |s.nodes[before].next|
            && var s' := Published(s, before, x, l, c);
               Good(s') && Grows(s, s') && OneStore(s, s') && x in s'.levels[l]
  {
    var before := At(s.levels[l], c - 1);
    var s' := Published(s, before, x, l, c);
    LevelGains(s.nodes, s.levels[l], l, c, x);
    hide LevelOk;
    forall k: nat | k < MAX_HEIGHT ensures LevelOk(s'.nodes, s'.levels[k], k) {
      if k != l {
        OtherLevelKept(s.nodes, s.levels[k], k, before, l, x);
      }
    }
    assert forall y :: y in s'.levels[l] <==> y == x || y in s.levels[l];
    forall k: nat | k + 1 < MAX_HEIGHT ensures Below(s'.levels, k) {
      assert Below(s.levels, k);
    }
  }

  // A run of stores, each of them leaving a good list.
  ghost predicate IsRun(states: seq<Shape>, from: Shape, to: Shape) {
    && |states| > 0 && states[0] == from && states[|states| - 1] == to
    && IsHistory(states)
    && forall i :: 0 < i < |states| ==> OneStore(states[i - 1], states[i])
  }

  lemma RunGrows(states: seq<Shape>, from: Shape, mid: Shape, to: Shape)
    requires IsRun(states, from, mid) && Good(to) && Grows(mid, to) && OneStore(mid, to)
    ensures IsRun(states + [to], from, to)
  {
    hide Good, Grows, OneStore;
  }

  // ---- The list ----

  ghost function KeysOf(s: Shape): (keys: seq<Key>)
    requires Good(s)
    ensures |keys| == |s.levels[0]|
  {
    assert LevelOk(s.nodes, s.levels[0], 0);
    seq(|s.levels[0]|, i requires 0 <= i < |s.levels[0]| => s.nodes[s.levels[0][i]].key)
  }

  class SkipList {
    var nodes: seq<Node>
    var maxHeight: nat
    ghost var levels: seq<seq<int>>

    ghost function Current(): Shape
      reads this
    {
      Shape(nodes, maxHeight, levels)
    }

    ghost predicate Valid()
      reads this
    {
      Good(Current())
    }

    // The keys of the list, in order.
    ghost function Keys(): (keys: seq<Key>)
      requires Valid()
      reads this
      ensures |keys| == |levels[0]|
    {
      KeysOf(Current())
    }

    constructor ()
      ensures Valid() && Keys() == []
    {
      nodes := [Node(0.0, seq(MAX_HEIGHT, _ => NULL))];
      maxHeight := 1;
      levels := seq(MAX_HEIGHT, _ => []);
    }

    // Fills prev, when there is one, with the last node before the key at every level in use.
    method FindGreaterOrEqual(key: Key, prev: array?<int>) returns (x: int, ghost before: int)
      requires Valid() && (prev != null ==> prev.Length == MAX_HEIGHT)
      modifies if prev == null then {} else {prev}
      ensures Valid() && unchanged(this) && Answers(Current(), key, before, x)
      ensures prev != null ==> forall l: nat :: l < maxHeight ==> IsBefore(Current(), key, l, prev[l])
    {
      x := HEAD;
      var level := maxHeight - 1;
      ghost var i := -1;
      while true
        invariant unchanged(this) && Valid() && 0 <= level < maxHeight
        invariant -1 <= i < |levels[level]| && x == At(levels[level], i)
        invariant i >= 0 ==> KeyIsAfterNode(nodes, key, x)
        invariant prev != null ==> forall l: nat :: level < l < maxHeight ==> IsBefore(Current(), key, l, prev[l])
        decreases level, |levels[level]| - i
      {
        assert LevelOk(nodes, levels[level], level);
        var next := nodes[x].next[level];
        assert next == At(levels[level], i + 1);
        if KeyIsAfterNode(nodes, key, next) {
          x := next;
          i := i + 1;
        } else {
          CutFound(nodes, levels[level], level, key, i);
          if prev != null {
            prev[level] := x;
          }
          if level == 0 {
            before := x;
            return next, before;
          } else {
            level := level - 1;
            assert Below(levels, level);
            i := IndexIn(levels[level], x);
          }
        }
      }
    }

    // The last node below the key, or the head.
    method FindLessThan(key: Key) returns (x: int, ghost next: int)
      requires Valid()
      ensures Answers(Current(), key, x, next)
    {
      x := HEAD;
      var level := maxHeight - 1;
      ghost var i := -1;
      while true
        invariant 0 <= level < maxHeight
        invariant -1 <= i < |levels[level]| && x == At(levels[level], i)
        invariant i >= 0 ==> KeyIsAfterNode(nodes, key, x)
        decreases level, |levels[level]| - i
      {
        assert LevelOk(nodes, levels[level], level);
        var after := nodes[x].next[level];
        assert after == At(levels[level], i + 1);
        if after == NULL || nodes[after].key >= key {
          CutFound(nodes, levels[level], level, key, i);
          if level == 0 {
            next := after;
            return;
          } else {
            level := level - 1;
            assert Below(levels, level);
            i := IndexIn(levels[level], x);
          }
        } else {
          x := after;
          i := i + 1;
        }
      }
    }

    method FindLast() returns (x: int)
      requires Valid()
      ensures x == At(levels[0], |levels[0]| - 1)
    {
      x := HEAD;
      var level := maxHeight - 1;
      ghost var i := -1;
      while true
        invariant 0 <= level < maxHeight
        invariant -1 <= i < |levels[level]| && x == At(levels[level], i)
        decreases level, |levels[level]| - i
      {
        assert LevelOk(nodes, levels[level], level);
        var next := nodes[x].next[level];
        assert next == At(levels[level], i + 1);
        if next == NULL {
          if level == 0 {
            return;
          } else {
            level := level - 1;
            assert Below(levels, level);
            i := IndexIn(levels[level], x);
          }
        } else {
          x := next;
          i := i + 1;
        }
      }
    }

    method Contains(key: Key) returns (found: bool)
      requires Valid()
      ensures found <==> key in Keys()
    {
      ghost var before;
      var x;
      x, before := FindGreaterOrEqual(key, null);
      assert LevelOk(nodes, levels[0], 0);
      ghost var c :| IsCut(nodes, levels[0], key, c) && x == At(levels[0], c);
      CutDecides(Current(), key, c);
      found := x != NULL && nodes[x].key == key;
    }

    // RandomHeight's choice is the parameter. `steps` are the lists that readers can meet meanwhile.
    method Insert(key: Key, height: nat) returns (ghost steps: seq<Shape>, ghost c: int)
      requires Valid() && key !in Keys() && 1 <= height <= MAX_HEIGHT
      modifies this
      ensures Valid() && IsRun(steps, old(Current()), Current())
      ensures 0 <= c <= |old(Keys())| && Keys() == old(Keys())[..c] + [key] + old(Keys())[c..]
    {
      hide Good, Grows, OneStore, IsBefore, LevelOk, IsRun, KeysOf, CanLink, InsertAt;
      var prev := new int[MAX_HEIGHT];
      var next, before := FindGreaterOrEqual(key, prev);
      ghost var start := Current();
      steps := [start];
      RunStarts(start);
      GoodHeight(start);
      if height > maxHeight {
        for i := maxHeight to height
          invariant unchanged(this)
          invariant forall l: nat :: l < i ==> IsBefore(start, key, l, prev[l])
        {
          prev[i] := HEAD;
          EmptyLevelCut(start, key, i);
        }
        HigherIsGood(start, height);
        maxHeight := height;
        RunGrows(steps, start, start, Current());
        steps := steps + [Current()];
      }
      ghost var was := Current();
      var x := |nodes|;
      nodes := nodes + [Node(key, seq(height, _ => NULL))];
      AllocatedIsGood(start, was, Current(), key, height, prev[..]);
      RunGrows(steps, start, was, Current());
      steps := steps + [Current()];
      c := 0;
      for i := 0 to height
        invariant Valid() && |levels| == MAX_HEIGHT && IsRun(steps, start, Current()) && KeysKept(start, nodes)
        invariant LinksLeft(Current(), x, key, i, height, prev[..])
        invariant if i == 0 then levels[0] == start.levels[0]
                  else 0 <= c <= |start.levels[0]| && levels[0] == InsertAt(start.levels[0], c, x)
      {
        ghost var s := Current();
        ghost var cut := LinkTurn(s, x, key, i, height, prev[..]);
        nodes := WithNext(nodes, x, i, nodes[prev[i]].next[i]);
        ghost var prepared := Current();
        RunGrows(steps, start, s, prepared);
        steps := steps + [prepared];
        nodes := WithNext(nodes, prev[i], i, x);
        levels := levels[i := InsertAt(levels[i], cut, x)];
        RunGrows(steps, start, prepared, Current());
        steps := steps + [Current()];
        if i == 0 {
          c := cut;
        }
      }
      KeysAfter(start, Current(), x, key, c);
    }
  }

  ghost predicate IsBefore(s: Shape, key: Key, l: nat, before: int)
    requires Good(s)
  {
    && l < MAX_HEIGHT && LevelOk(s.nodes, s.levels[l], l)
    && exists c :: IsCut(s.nodes, s.levels[l], key, c) && before == At(s.levels[l], c - 1)
  }

  ghost predicate KeysKept(s: Shape, nodes: seq<Node>) {
    |s.nodes| <= |nodes| && forall n :: 0 <= n < |s.nodes| ==> nodes[n].key == s.nodes[n].key
  }

  // What is left to do for x, and what is known for it, when the levels below l are linked.
  ghost predicate LinksLeft(s: Shape, x: int, key: Key, l: nat, height: nat, prev: seq<int>)
    requires Good(s)
  {
    && 0 <= x < |s.nodes| && s.nodes[x].key == key && |s.nodes[x].next| == height <= |prev| == MAX_HEIGHT
    && (l < height ==> CanLink(s, x, l))
    && (forall k: nat :: l <= k < height ==> IsBefore(s, key, k, prev[k]))
  }

  lemma RunStarts(s: Shape)
    requires Good(s)
    ensures IsRun([s], s, s)
  {
    hide Good;
  }

  lemma GoodHeight(s: Shape)
    requires Good(s)
    ensures 1 <= s.maxHeight <= MAX_HEIGHT == |s.levels|
  {
  }

  lemma EmptyLevelCut(s: Shape, key: Key, l: nat)
    requires Good(s) && s.maxHeight <= l < MAX_HEIGHT
    ensures IsBefore(s, key, l, HEAD)
  {
    assert LevelOk(s.nodes, s.levels[l], l);
    assert IsCut(s.nodes, s.levels[l], key, 0);
  }

  lemma HigherIsGood(s: Shape, height: nat)
    requires Good(s) && s.maxHeight <= height <= MAX_HEIGHT
    ensures var s' := s.(maxHeight := height); Good(s') && Grows(s, s') && OneStore(s, s')
  {
  }

  lemma AllocatedIsGood(start: Shape, s: Shape, s': Shape, key: Key, height: nat, prev: seq<int>)
    requires Good(start) && Good(s) && s.nodes == start.nodes && s.levels == start.levels && key !in KeysOf(start)
    requires 1 <= height <= s.maxHeight && |prev| == MAX_HEIGHT
    requires s' == s.(nodes := s.nodes + [Node(key, seq(height, _ => NULL))])
    requires forall l: nat :: l < height ==> IsBefore(start, key, l, prev[l])
    ensures Good(s') && Grows(s, s') && OneStore(s, s') && LinksLeft(s', |s.nodes|, key, 0, height, prev)
  {
    hide KeysOf;
    forall l: nat | l < MAX_HEIGHT ensures LevelOk(s'.nodes, s'.levels[l], l) {
      NewNodeKept(s.nodes, s.levels[l], l, Node(key, seq(height, _ => NULL)));
    }
    assert s'.nodes[..|s.nodes|] == s.nodes;
    NotAKey(start, key);
    forall l: nat | l < height ensures IsBefore(s', key, l, prev[l]) {
      BeforeKept(start, s', key, l, prev[l]);
    }
  }

  lemma NotAKey(s: Shape, key: Key)
    requires Good(s) && key !in KeysOf(s)
    ensures forall y :: y in s.levels[0] ==> 0 <= y < |s.nodes| && s.nodes[y].key != key
  {
    assert LevelOk(s.nodes, s.levels[0], 0);
    forall y | y in s.levels[0] ensures s.nodes[y].key != key {
      var i := IndexIn(s.levels[0], y);
      assert KeysOf(s)[i] == s.nodes[y].key;
    }
  }

  // One turn of Insert's loop.
  lemma LinkTurn(s: Shape, x: int, key: Key, l: nat, height: nat, prev: seq<int>) returns (c: int)
    requires Good(s) && l < height && LinksLeft(s, x, key, l, height, prev)
    ensures 0 <= prev[l] < |s.nodes| && l < |s.nodes[prev[l]].next|
    ensures 0 <= c <= |s.levels[l]|
    ensures var prepared := Prepared(s, x, l, s.nodes[prev[l]].next[l]);
            && Good(prepared) && Grows(s, prepared) && OneStore(s, prepared) && prev[l] != x
            && var s' := Published(prepared, prev[l], x, l, c);
               && Good(s') && Grows(prepared, s') && OneStore(prepared, s')
               && LinksLeft(s', x, key, l + 1, height, prev)
  {
    hide LevelOk, Grows, OneStore, IsBefore;
    c := CutBehind(s, key, l, prev[l]);
    LinkTo(s.nodes, s.levels[l], l, c, x);
    var to := s.nodes[prev[l]].next[l];
    var prepared := Prepared(s, x, l, to);
    PreparedIsGood(s, x, l, to);
    PreparedCut(s, prepared, x, l, c, to);
    PublishedIsGood(prepared, x, l, c);
    var s' := Published(prepared, prev[l], x, l, c);
    if l + 1 < height {
      CanLinkNext(s, s', x, l);
    }
    forall k: nat | l + 1 <= k < height ensures IsBefore(s', key, k, prev[k]) {
      BeforeKept(s, s', key, k, prev[k]);
    }
  }

  lemma BeforeKept(s: Shape, s': Shape, key: Key, l: nat, before: int)
    requires Good(s) && Good(s') && IsBefore(s, key, l, before)
    requires s'.levels[l] == s.levels[l] && KeysKept(s, s'.nodes)
    ensures IsBefore(s', key, l, before)
  {
    assert LevelOk(s'.nodes, s'.levels[l], l);
    var c :| IsCut(s.nodes, s.levels[l], key, c) && before == At(s.levels[l], c - 1);
    assert IsCut(s'.nodes, s'.levels[l], key, c);
  }

  lemma PreparedCut(s: Shape, prepared: Shape, x: int, l: nat, c: int, to: int)
    requires Good(s) && Good(prepared) && CanLink(s, x, l) && prepared == Prepared(s, x, l, to)
    requires LevelOk(s.nodes, s.levels[l], l) && IsCut(s.nodes, s.levels[l], s.nodes[x].key, c)
    ensures LevelOk(prepared.nodes, prepared.levels[l], l) && IsCut(prepared.nodes, prepared.levels[l], prepared.nodes[x].key, c)
    ensures prepared.nodes[x].next[l] == to
  {
  }

  lemma CanLinkNext(s: Shape, s': Shape, x: int, l: nat)
    requires Good(s) && Good(s') && CanLink(s, x, l) && KeysKept(s, s'.nodes) && l + 1 < MAX_HEIGHT
    requires x in s'.levels[l] && l + 1 < |s'.nodes[x].next| <= s'.maxHeight
    requires forall k: nat :: l < k < MAX_HEIGHT ==> s'.levels[k] == s.levels[k]
    ensures CanLink(s', x, l + 1)
  {
    assert Below(s.levels, l);
  }

  lemma CutBehind(s: Shape, key: Key, l: nat, before: int) returns (c: int)
    requires Good(s) && IsBefore(s, key, l, before)
    ensures l < MAX_HEIGHT && LevelOk(s.nodes, s.levels[l], l)
    ensures IsCut(s.nodes, s.levels[l], key, c) && before == At(s.levels[l], c - 1)
  {
    c :| IsCut(s.nodes, s.levels[l], key, c) && before == At(s.levels[l], c - 1);
  }

  lemma LinkTo(nodes: seq<Node>, level: seq<int>, l: nat, c: int, x: int)
    requires LevelOk(nodes, level, l) && 0 <= c <= |level| && x !in level && x != HEAD
    ensures var before := At(level, c - 1);
            0 <= before < |nodes| && l < |nodes[before].next| && nodes[before].next[l] == At(level, c) && before != x
  {
  }

  // A key is in the list if and only if it stands at its own cut.
  lemma CutDecides(s: Shape, key: Key, c: int)
    requires Good(s) && LevelOk(s.nodes, s.levels[0], 0) && IsCut(s.nodes, s.levels[0], key, c)
    ensures key in KeysOf(s) <==> c < |s.levels[0]| && s.nodes[s.levels[0][c]].key == key
  {
    var level := s.levels[0];
    if c < |level| && s.nodes[level[c]].key == key {
      assert KeysOf(s)[c] == key;
    }
    if key in KeysOf(s) {
      var i :| 0 <= i < |level| && KeysOf(s)[i] == key;
      assert c <= i;
      LaterIsAbove(s.nodes, level, c, i);
    }
  }

  lemma LaterIsAbove(nodes: seq<Node>, level: seq<int>, i: int, j: int)
    requires LevelOk(nodes, level, 0) && 0 <= i <= j < |level|
    ensures nodes[level[i]].key <= nodes[level[j]].key
  {
  }

  lemma KeysAfter(s: Shape, s': Shape, x: int, key: Key, c: int)
    requires Good(s) && Good(s') && KeysKept(s, s'.nodes) && 0 <= c <= |s.levels[0]|
    requires s'.levels[0] == InsertAt(s.levels[0], c, x) && 0 <= x < |s'.nodes| && s'.nodes[x].key == key
    ensures KeysOf(s') == KeysOf(s)[..c] + [key] + KeysOf(s)[c..]
  {
    assert LevelOk(s.nodes, s.levels[0], 0);
    assert LevelOk(s'.nodes, s'.levels[0], 0);
  }

  lemma OwnCut(nodes: seq<Node>, level: seq<int>, i: int, c: int)
    requires LevelOk(nodes, level, 0) && 0 <= i < |level|
    ensures IsCut(nodes, level, nodes[level[i]].key, c) ==> c == i
  {
    if 0 <= c < i {
      NoEarlierCut(nodes, level, i, c);
    }
  }

  lemma NoEarlierCut(nodes: seq<Node>, level: seq<int>, i: int, c: int)
    requires LevelOk(nodes, level, 0) && 0 <= c < i < |level|
    ensures !IsCut(nodes, level, nodes[level[i]].key, c)
  {
    assert nodes[level[c]].key < nodes[level[i]].key;
  }

  // SkipList::Iterator; there are no back links, so Prev searches from the top again.
  class Iterator {
    const list: SkipList
    var node: int

    constructor (list: SkipList)
      ensures this.list == list && node == NULL
    {
      this.list := list;
      node := NULL;
    }

    ghost predicate StandsAt(i: int)
      requires list.Valid()
      reads this, list
    {
      node == if 0 <= i < |list.levels[0]| then list.levels[0][i] else NULL
    }

    method Next(ghost i: int)
      requires list.Valid() && 0 <= i < |list.levels[0]| && StandsAt(i)
      modifies this
      ensures StandsAt(i + 1)
    {
      assert LevelOk(list.nodes, list.levels[0], 0);
      assert list.nodes[At(list.levels[0], i)].next[0] == At(list.levels[0], i + 1);
      node := list.nodes[node].next[0];
    }

    method Prev(ghost i: int)
      requires list.Valid() && 0 <= i < |list.levels[0]| && StandsAt(i)
      modifies this
      ensures StandsAt(i - 1)
    {
      assert LevelOk(list.nodes, list.levels[0], 0);
      ghost var next;
      ghost var key := list.nodes[node].key;
      node, next := list.FindLessThan(list.nodes[node].key);
      ghost var c :| IsCut(list.nodes, list.levels[0], key, c) && node == At(list.levels[0], c - 1);
      OwnCut(list.nodes, list.levels[0], i, c);
      if node == HEAD {
        node := NULL;
      }
    }

    method Seek(target: Key) returns (ghost before: int)
      requires list.Valid()
      modifies this
      ensures Answers(list.Current(), target, before, node)
    {
      node, before := list.FindGreaterOrEqual(target, null);
    }

    method SeekToFirst()
      requires list.Valid()
      modifies this
      ensures StandsAt(0)
    {
      assert LevelOk(list.nodes, list.levels[0], 0);
      assert list.nodes[At(list.levels[0], -1)].next[0] == At(list.levels[0], 0);
      node := list.nodes[HEAD].next[0];
    }

    method SeekToLast()
      requires list.Valid()
      modifies this
      ensures StandsAt(|list.levels[0]| - 1)
    {
      node := list.FindLast();
      assert LevelOk(list.nodes, list.levels[0], 0);
      if node == HEAD {
        node := NULL;
      }
    }
  }
}
