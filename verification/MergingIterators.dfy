/** table/merger.cc: one cursor over several sorted children, in either direction. */
module MergingIterators {
  import opened InternalKeys

  // A child: an iterator over one sorted run (a table, a level, a memtable). When it falls off
  // either end it is merely invalid; nothing tells which end it left by.
  class RunIterator {
    const entries: seq<Entry>
    var pos: nat

    ghost predicate WellFormed()
      reads this
    {
      Sorted(entries) && pos <= |entries|
    }

    constructor (entries: seq<Entry>)
      requires Sorted(entries)
      ensures WellFormed() && this.entries == entries && !Valid()
    {
      this.entries := entries;
      pos := |entries|;
    }

    predicate Valid()
      reads this
    {
      pos < |entries|
    }

    function Current(): Entry
      requires Valid()
      reads this
    {
      entries[pos]
    }

    method SeekToFirst()
      modifies this
      ensures pos == 0
    {
      pos := 0;
    }

    method SeekToLast()
      modifies this
      ensures pos == if |entries| == 0 then 0 else |entries| - 1
    {
      pos := if |entries| == 0 then 0 else |entries| - 1;
    }

    // Positions at the first entry not before `target`.
    method Seek(target: InternalKey)
      requires WellFormed()
      modifies this
      ensures WellFormed()
      ensures forall j :: 0 <= j < |entries| ==> (j < pos <==> entries[j].key.Before(target))
    {
      pos := 0;
      while pos < |entries| && entries[pos].key.Before(target)
        invariant pos <= |entries|
        invariant forall j :: 0 <= j < pos ==> entries[j].key.Before(target)
      {
        pos := pos + 1;
      }
    }

    method Next()
      requires Valid()
      modifies this
      ensures pos == old(pos) + 1
    {
      pos := pos + 1;
    }

    method Prev()
      requires Valid()
      modifies this
      ensures pos == if old(pos) == 0 then |entries| else old(pos) - 1
    {
      pos := if pos == 0 then |entries| else pos - 1;
    }
  }

  datatype Direction = Forward | Reverse

  // e stands before position t of the merged run.
  ghost predicate Below(merged: seq<Entry>, t: nat, e: Entry)
    requires t <= |merged|
  {
    t == |merged| || e.key.Before(merged[t].key)
  }

  // p separates the entries of `es` that stand before position t of the merged run from the rest.
  ghost predicate IsCut(merged: seq<Entry>, t: nat, es: seq<Entry>, p: int)
    requires t <= |merged|
  {
    && 0 <= p <= |es|
    && forall j :: 0 <= j < |es| ==> (j < p <==> Below(merged, t, es[j]))
  }

  // A child one step behind its cut for t; having stepped off the front it is invalid.
  ghost predicate Behind(merged: seq<Entry>, t: nat, es: seq<Entry>, pos: nat)
    requires t <= |merged|
  {
    pos <= |es| && IsCut(merged, t, es, if pos == |es| then 0 else pos + 1)
  }

  // `merged` is the sorted union of the runs.
  ghost predicate IsMerge(merged: seq<Entry>, runs: seq<seq<Entry>>) {
    && Sorted(merged)
    && (forall c, j :: 0 <= c < |runs| && 0 <= j < |runs[c]| ==> runs[c][j] in merged)
    && (forall e :: e in merged ==> exists c :: 0 <= c < |runs| && e in runs[c])
  }

  // No internal key stands in two runs.
  ghost predicate Disjoint(runs: seq<seq<Entry>>) {
    forall c, d, i, j ::
      (0 <= c < |runs| && 0 <= d < |runs| && 0 <= i < |runs[c]| && 0 <= j < |runs[d]|
       && runs[c][i].key == runs[d][j].key) ==> c == d
  }

  lemma InMerged(merged: seq<Entry>, e: Entry) returns (i: nat)
    requires e in merged
    ensures i < |merged| && merged[i] == e
  {
    i :| 0 <= i < |merged| && merged[i] == e;
  }

  lemma OrderAt(es: seq<Entry>, i: int, j: int)
    requires Sorted(es)
    ensures 0 <= i < j < |es| ==> es[i].key.Before(es[j].key)
  {
  }

  // Standing before t + 1 is standing before t or being the entry at t.
  lemma BelowStep(merged: seq<Entry>, t: nat, e: Entry)
    requires Sorted(merged) && t < |merged| && e in merged
    ensures Below(merged, t + 1, e) <==> Below(merged, t, e) || e == merged[t]
  {
    var i := InMerged(merged, e);
  }

  // When the position moves from t to t + 1, only the run that holds merged[t] moves its cut.
  lemma CutStep(merged: seq<Entry>, t: nat, es: seq<Entry>, p: int)
    requires Sorted(merged) && Sorted(es) && t < |merged|
    requires forall j :: 0 <= j < |es| ==> es[j] in merged
    ensures IsCut(merged, t, es, p) && p < |es| && es[p] == merged[t] ==> IsCut(merged, t + 1, es, p + 1)
    ensures merged[t] !in es ==> (IsCut(merged, t, es, p) <==> IsCut(merged, t + 1, es, p))
  {
    forall j | 0 <= j < |es|
      ensures Below(merged, t + 1, es[j]) <==> Below(merged, t, es[j]) || es[j] == merged[t]
    {
      BelowStep(merged, t, es[j]);
    }
  }

  // With every child at its cut for t, the child holding merged[t] stands exactly on it.
  lemma CutFindsEntry(merged: seq<Entry>, t: nat, es: seq<Entry>, p: int)
    requires Sorted(merged) && Sorted(es) && t < |merged| && IsCut(merged, t, es, p)
    requires merged[t] in es
    ensures p < |es| && es[p] == merged[t]
  {
    var j := InMerged(es, merged[t]);
    assert !Below(merged, t, es[j]);
    OrderAt(es, p, j);
  }

  // The mirror image: one step behind its cut for t, the child holding merged[t - 1] stands on it.
  lemma BehindFindsEntry(merged: seq<Entry>, t: nat, es: seq<Entry>, pos: nat)
    requires Sorted(merged) && Sorted(es) && 0 < t <= |merged| && Behind(merged, t, es, pos)
    requires merged[t - 1] in es
    requires forall j :: 0 <= j < |es| ==> es[j] in merged
    ensures pos < |es| && es[pos] == merged[t - 1]
  {
    var j := InMerged(es, merged[t - 1]);
    assert Below(merged, t, es[j]);
    BehindIsBelow(merged, t, es, pos);
    OrderAt(es, j, pos);
  }

  lemma BehindIsBelow(merged: seq<Entry>, t: nat, es: seq<Entry>, pos: nat)
    requires Sorted(merged) && 0 < t <= |merged| && Behind(merged, t, es, pos)
    requires pos < |es| && es[pos] in merged
    ensures !merged[t - 1].key.Before(es[pos].key)
  {
    var i := InMerged(merged, es[pos]);
    assert Below(merged, t, es[pos]);
  }

  lemma NothingBelowFirst(merged: seq<Entry>, es: seq<Entry>)
    requires Sorted(merged)
    requires forall j :: 0 <= j < |es| ==> es[j] in merged
    ensures IsCut(merged, 0, es, 0)
  {
    forall j | 0 <= j < |es|
      ensures !Below(merged, 0, es[j])
    {
      var i := InMerged(merged, es[j]);
    }
  }

  // The first position not before `target`.
  ghost function LowerBound(merged: seq<Entry>, target: InternalKey): (t: nat)
    ensures t <= |merged|
    ensures Sorted(merged) ==> forall j :: 0 <= j < |merged| ==> (j < t <==> merged[j].key.Before(target))
  {
    if merged == [] || !merged[0].key.Before(target) then 0 else 1 + LowerBound(merged[1..], target)
  }

  lemma TargetCut(merged: seq<Entry>, t: nat, target: InternalKey, es: seq<Entry>)
    requires t <= |merged| && Sorted(merged)
    requires forall j :: 0 <= j < |merged| ==> (j < t <==> merged[j].key.Before(target))
    requires forall j :: 0 <= j < |es| ==> es[j] in merged
    ensures forall j :: 0 <= j < |es| ==> (Below(merged, t, es[j]) <==> es[j].key.Before(target))
  {
    forall j | 0 <= j < |es|
      ensures Below(merged, t, es[j]) <==> es[j].key.Before(target)
    {
      var i := InMerged(merged, es[j]);
    }
  }

  // Two sorted runs, merged entry by entry.
  ghost function Merge(a: seq<Entry>, b: seq<Entry>): (m: seq<Entry>)
    ensures forall e :: e in m <==> e in a || e in b
  {
    if a == [] then b
    else if b == [] then a
    else if a[0].key.Before(b[0].key) then
      assert a == [a[0]] + a[1..];
      [a[0]] + Merge(a[1..], b)
    else
      assert b == [b[0]] + b[1..];
      [b[0]] + Merge(a, b[1..])
  }

  lemma {:induction false} MergeSorted(a: seq<Entry>, b: seq<Entry>)
    requires Sorted(a) && Sorted(b)
    requires forall i, j :: 0 <= i < |a| && 0 <= j < |b| ==> a[i].key != b[j].key
    ensures Sorted(Merge(a, b))
  {
    if a != [] && b != [] {
      Trichotomy(a[0].key, b[0].key);
      if a[0].key.Before(b[0].key) {
        MergeSorted(a[1..], b);
        HeadPrecedes(a[0], a[1..], b, Merge(a[1..], b));
      } else {
        MergeSorted(a, b[1..]);
        HeadPrecedes(b[0], a, b[1..], Merge(a, b[1..]));
      }
    }
  }

  lemma HeadPrecedes(head: Entry, a: seq<Entry>, b: seq<Entry>, m: seq<Entry>)
    requires Sorted(m) && Sorted(a) && Sorted(b)
    requires forall e :: e in m ==> e in a || e in b
    requires a != [] ==> head.key.Before(a[0].key)
    requires b != [] ==> head.key.Before(b[0].key)
    ensures Sorted([head] + m)
  {
    forall i | 0 <= i < |m|
      ensures head.key.Before(m[i].key)
    {
      assert m[i] in m;
      assert forall j :: 0 <= j < |a| ==> head.key.Before(a[j].key);
      assert forall j :: 0 <= j < |b| ==> head.key.Before(b[j].key);
    }
  }

  // Sorted disjoint runs have a merge.
  lemma {:induction false} MergeExists(runs: seq<seq<Entry>>) returns (m: seq<Entry>)
    requires Disjoint(runs) && forall c :: 0 <= c < |runs| ==> Sorted(runs[c])
    ensures IsMerge(m, runs)
  {
    if runs == [] {
      m := [];
    } else {
      var last := |runs| - 1;
      var front := MergeExists(runs[..last]);
      forall i, j | 0 <= i < |front| && 0 <= j < |runs[last]|
        ensures front[i].key != runs[last][j].key
      {
        assert front[i] in front;
        var c :| 0 <= c < last && front[i] in runs[..last][c];
        var k := InMerged(runs[c], front[i]);
      }
      MergeSorted(front, runs[last]);
      m := Merge(front, runs[last]);
      assert forall c :: 0 <= c < last ==> runs[..last][c] == runs[c];
      forall c, j | 0 <= c < |runs| && 0 <= j < |runs[c]|
        ensures runs[c][j] in m
      {
        assert c < last ==> runs[..last][c][j] in front;
      }
    }
  }

  // ... and only one: the merged run is determined by the children.
  lemma {:induction false} SortedRunUnique(a: seq<Entry>, b: seq<Entry>)
    requires Sorted(a) && Sorted(b) && Elements(a) == Elements(b)
    ensures a == b
  {
    EmptyElements(a);
    EmptyElements(b);
    if a != [] && b != [] {
      assert a[0] in Elements(b) && b[0] in Elements(a);
      forall e
        ensures e in Elements(a[1..]) <==> e in Elements(b[1..])
      {
        DropHead(a, e);
        DropHead(b, e);
      }
      SortedRunUnique(a[1..], b[1..]);
    }
  }

  lemma EmptyElements(a: seq<Entry>)
    ensures a == [] <==> Elements(a) == {}
  {
    assert a != [] ==> a[0] in Elements(a);
  }

  lemma DropHead(a: seq<Entry>, e: Entry)
    requires Sorted(a) && a != []
    ensures e in Elements(a[1..]) <==> e in Elements(a) && e != a[0]
  {
    if e in Elements(a) && e != a[0] {
      var i :| 0 <= i < |a| && a[i] == e;
      assert a[1..][i - 1] == e;
    }
  }

  class MergingIterator {
    const children: seq<RunIterator>
    var current: int      // index of the current child, -1 when the iterator is not valid
    var direction: Direction
    ghost const merged: seq<Entry>
    ghost var at: nat     // position in merged, |merged| when the iterator is not valid

    ghost function Runs(): seq<seq<Entry>> {
      seq(|children|, c requires 0 <= c < |children| => children[c].entries)
    }

    // What never changes: the children are separate objects over disjoint sorted runs.
    ghost predicate Shape()
      reads this, children
    {
      && (forall c :: 0 <= c < |children| ==> children[c].WellFormed())
      && (forall c, d :: 0 <= c < d < |children| ==> children[c] != children[d])
      && Sorted(merged)
      && IsMerge(merged, Runs())
      && Disjoint(Runs())
    }

    ghost predicate AtCuts(t: nat)
      requires t <= |merged|
      reads this, children
    {
      forall c :: 0 <= c < |children| ==> IsCut(merged, t, children[c].entries, children[c].pos)
    }

    ghost predicate WellFormed(): (ok: bool)
      reads this, children
      ensures ok ==> at <= |merged| && Sorted(merged) && (Valid() <==> at < |merged|)
    {
      && Shape()
      && at <= |merged|
      && -1 <= current < |children|
      && (current == -1 <==> at == |merged|)
      && (current != -1 ==> children[current].Valid() && children[current].Current() == merged[at])
      && (current != -1 && direction == Forward ==> AtCuts(at))
      && (current != -1 && direction == Reverse ==>
            forall c :: 0 <= c < |children| && c != current ==> Behind(merged, at, children[c].entries, children[c].pos))
    }

    constructor (children: seq<RunIterator>)
      requires forall c :: 0 <= c < |children| ==> children[c].WellFormed()
      requires forall c, d :: 0 <= c < d < |children| ==> children[c] != children[d]
      requires Disjoint(seq(|children|, c requires 0 <= c < |children| => children[c].entries))
      ensures WellFormed() && !Valid() && this.children == children
    {
      ghost var runs := seq(|children|, c requires 0 <= c < |children| => children[c].entries);
      ghost var merged := MergeExists(runs);
      this.children := children;
      current := -1;
      direction := Forward;
      this.merged := merged;
      at := |merged|;
    }

    predicate Valid()
      reads this
    {
      current != -1
    }

    function Current(): Entry
      requires WellFormed() && Valid()
      reads this, children
      ensures Current() == merged[at]
    {
      children[current].Current()
    }

    lemma RunsInMerged()
      requires Shape()
      ensures forall c, j :: 0 <= c < |children| && 0 <= j < |children[c].entries| ==> children[c].entries[j] in merged
    {
      assert forall c :: 0 <= c < |children| ==> Runs()[c] == children[c].entries;
    }

    lemma Owner(t: nat) returns (c: nat)
      requires Shape() && t < |merged|
      ensures c < |children| && merged[t] in children[c].entries
      ensures forall d :: 0 <= d < |children| && d != c ==> merged[t] !in children[d].entries
    {
      assert merged[t] in merged;
      var o :| 0 <= o < |Runs()| && merged[t] in Runs()[o];
      c := o;
      var i := InMerged(Runs()[c], merged[t]);
      forall d, j | 0 <= d < |children| && 0 <= j < |children[d].entries| && d != c
        ensures children[d].entries[j] != merged[t]
      {
        assert Runs()[d][j].key == Runs()[c][i].key ==> d == c;
      }
    }

    method FindSmallest(ghost t: nat)
      requires Shape() && t <= |merged| && AtCuts(t)
      modifies this
      ensures Shape() && at == t
      ensures -1 <= current < |children|
      ensures current == -1 <==> t == |merged|
      ensures current != -1 ==> children[current].Valid() && children[current].Current() == merged[t]
      ensures direction == old(direction)
    {
      var smallest := -1;
      var i := 0;
      while i < |children|
        invariant 0 <= i <= |children|
        invariant -1 <= smallest < i
        invariant smallest != -1 ==> children[smallest].Valid()
        invariant forall c :: 0 <= c < i && children[c].Valid() ==>
                    smallest != -1 && !children[c].Current().key.Before(children[smallest].Current().key)
      {
        if children[i].Valid() {
          if smallest == -1 {
            smallest := i;
          } else if children[i].Current().key.Before(children[smallest].Current().key) {
            smallest := i;
          }
        }
        i := i + 1;
      }
      ghost var found := smallest;
      if t < |merged| {
        ghost var o := Owner(t);
        CutFindsEntry(merged, t, children[o].entries, children[o].pos);
        Trichotomy(children[found].Current().key, merged[t].key);
        assert !Below(merged, t, children[found].Current());
        assert Runs()[found][children[found].pos].key == Runs()[o][children[o].pos].key;
      } else {
        assert forall c :: 0 <= c < |children| && children[c].Valid() ==> Below(merged, t, children[c].Current());
      }
      current := smallest;
      at := t;
    }

    // The caller has moved every child one step behind its cut for t.
    method FindLargest(ghost t: nat)
      requires Shape() && t <= |merged|
      requires forall c :: 0 <= c < |children| ==> Behind(merged, t, children[c].entries, children[c].pos)
      modifies this
      ensures Shape() && at == if t == 0 then |merged| else t - 1
      ensures -1 <= current < |children|
      ensures current == -1 <==> t == 0
      ensures current != -1 ==> children[current].Valid() && children[current].Current() == merged[t - 1]
      ensures current != -1 ==> forall c :: 0 <= c < |children| && c != current ==>
                Behind(merged, t - 1, children[c].entries, children[c].pos)
      ensures direction == old(direction)
    {
      RunsInMerged();
      var largest := -1;
      var i := |children| - 1;
      while i >= 0
        invariant -1 <= i < |children|
        invariant largest == -1 || i < largest < |children|
        invariant largest != -1 ==> children[largest].Valid()
        invariant forall c :: i < c < |children| && children[c].Valid() ==>
                    largest != -1 && !children[largest].Current().key.Before(children[c].Current().key)
      {
        if children[i].Valid() {
          if largest == -1 {
            largest := i;
          } else if children[largest].Current().key.Before(children[i].Current().key) {
            largest := i;
          }
        }
        i := i - 1;
      }
      if t > 0 {
        LargestIsPrevious(t, largest);
        OthersStayBehind(t, largest);
      } else {
        assert forall c :: 0 <= c < |children| ==> IsCut(merged, 0, children[c].entries, 0) by {
          FirstCuts();
        }
      }
      current := largest;
      at := if t == 0 then |merged| else t - 1;
    }

    lemma FirstCuts()
      requires Shape()
      ensures forall c :: 0 <= c < |children| ==> IsCut(merged, 0, children[c].entries, 0)
    {
      RunsInMerged();
      forall c | 0 <= c < |children|
        ensures IsCut(merged, 0, children[c].entries, 0)
      {
        NothingBelowFirst(merged, children[c].entries);
      }
    }

    // The greatest of the children, each one step behind its cut for t, stands on merged[t - 1].
    lemma LargestIsPrevious(t: nat, largest: int)
      requires Shape() && 0 < t <= |merged| && -1 <= largest < |children|
      requires forall c :: 0 <= c < |children| ==> Behind(merged, t, children[c].entries, children[c].pos)
      requires largest != -1 ==> children[largest].Valid()
      requires forall c :: 0 <= c < |children| && children[c].Valid() ==>
                 largest != -1 && !children[largest].Current().key.Before(children[c].Current().key)
      ensures largest != -1 && children[largest].Current() == merged[t - 1]
    {
      RunsInMerged();
      var o := Owner(t - 1);
      BehindFindsEntry(merged, t, children[o].entries, children[o].pos);
      BehindIsBelow(merged, t, children[largest].entries, children[largest].pos);
      Trichotomy(children[largest].Current().key, merged[t - 1].key);
      assert Runs()[largest][children[largest].pos].key == Runs()[o][children[o].pos].key;
    }

    lemma OthersStayBehind(t: nat, largest: int)
      requires Shape() && 0 < t <= |merged| && 0 <= largest < |children|
      requires forall c :: 0 <= c < |children| ==> Behind(merged, t, children[c].entries, children[c].pos)
      requires children[largest].Valid() && children[largest].Current() == merged[t - 1]
      ensures forall c :: 0 <= c < |children| && c != largest ==>
                Behind(merged, t - 1, children[c].entries, children[c].pos)
    {
      RunsInMerged();
      HolderIsOwner(t - 1, largest);
      forall c | 0 <= c < |children| && c != largest
        ensures Behind(merged, t - 1, children[c].entries, children[c].pos)
      {
        var es, pos := children[c].entries, children[c].pos;
        CutStep(merged, t - 1, es, if pos == |es| then 0 else pos + 1);
      }
    }

    // A child that stands on merged[t] is the only one whose run holds that entry.
    lemma HolderIsOwner(t: nat, c: nat)
      requires Shape() && t < |merged| && c < |children|
      requires children[c].Valid() && children[c].Current() == merged[t]
      ensures forall d :: 0 <= d < |children| && d != c ==> merged[t] !in children[d].entries
    {
      forall d, j | 0 <= d < |children| && 0 <= j < |children[d].entries| && d != c
        ensures children[d].entries[j] != merged[t]
      {
        assert Runs()[d][j].key == Runs()[c][children[c].pos].key ==> d == c;
      }
    }

    method SeekToFirst()
      requires WellFormed()
      modifies this, children
      ensures WellFormed() && at == 0
    {
      for i := 0 to |children|
        invariant Shape()
        invariant forall c :: 0 <= c < i ==> children[c].pos == 0
      {
        children[i].SeekToFirst();
      }
      FirstCuts();
      FindSmallest(0);
      direction := Forward;
    }

    method SeekToLast()
      requires WellFormed()
      modifies this, children
      ensures WellFormed() && at == if |merged| == 0 then 0 else |merged| - 1
    {
      for i := 0 to |children|
        invariant Shape()
        invariant forall c :: 0 <= c < i ==>
                    children[c].pos == if |children[c].entries| == 0 then 0 else |children[c].entries| - 1
      {
        children[i].SeekToLast();
      }
      FindLargest(|merged|);
      direction := Reverse;
    }

    // Positions at the first entry of the merged run that is not before `target`.
    method Seek(target: InternalKey)
      requires WellFormed()
      modifies this, children
      ensures WellFormed()
      ensures forall j :: 0 <= j < |merged| ==> (j < at <==> merged[j].key.Before(target))
    {
      for i := 0 to |children|
        invariant Shape()
        invariant forall c, j :: 0 <= c < i && 0 <= j < |children[c].entries| ==>
                    (j < children[c].pos <==> children[c].entries[j].key.Before(target))
      {
        children[i].Seek(target);
      }
      ghost var t := LowerBound(merged, target);
      forall c | 0 <= c < |children|
        ensures IsCut(merged, t, children[c].entries, children[c].pos)
      {
        RunsInMerged();
        TargetCut(merged, t, target, children[c].entries);
      }
      FindSmallest(t);
      direction := Forward;
    }

    method Next()
      requires WellFormed() && Valid()
      modifies this, children
      ensures WellFormed() && at == old(at) + 1
    {
      if direction != Forward {
        RepositionAfterCurrent();
        direction := Forward;
      }
      CurrentCrossesCut();
      children[current].Next();
      FindSmallest(at + 1);
    }

    // Stepping the current child takes every child to its cut for the next position.
    lemma CurrentCrossesCut()
      requires Shape() && at < |merged| && AtCuts(at) && 0 <= current < |children|
      requires children[current].Valid() && children[current].Current() == merged[at]
      ensures forall c :: 0 <= c < |children| ==>
                IsCut(merged, at + 1, children[c].entries, if c == current then children[c].pos + 1 else children[c].pos)
    {
      RunsInMerged();
      HolderIsOwner(at, current);
      forall c | 0 <= c < |children|
        ensures IsCut(merged, at + 1, children[c].entries, if c == current then children[c].pos + 1 else children[c].pos)
      {
        CutStep(merged, at, children[c].entries, children[c].pos);
      }
    }

    method Prev()
      requires WellFormed() && Valid()
      modifies this, children
      ensures WellFormed() && at == if old(at) == 0 then |merged| else old(at) - 1
    {
      if direction != Reverse {
        RepositionBeforeCurrent();
        direction := Reverse;
      }
      children[current].Prev();
      FindLargest(at);
    }

    // First loop of Next: every child at its first entry not before the current key.
    method RepositionAfterCurrent()
      requires WellFormed() && Valid()
      modifies children
      ensures Shape() && children[current].pos == old(children[current].pos) && AtCuts(at)
    {
      RunsInMerged();
      var key := Current().key;
      for i := 0 to |children|
        invariant Shape()
        invariant children[current].pos == old(children[current].pos)
        invariant forall c :: 0 <= c < i && c != current ==> IsCut(merged, at, children[c].entries, children[c].pos)
      {
        if i != current {
          children[i].Seek(key);
          if children[i].Valid() && key == children[i].Current().key {
            children[i].Next();
          }
          OtherRunSkipsCurrent(i);
        }
      }
      CurrentAtCut();
    }

    // First loop of Prev: every other child at its last entry before the current key.
    method RepositionBeforeCurrent()
      requires WellFormed() && Valid()
      modifies children
      ensures Shape() && children[current].pos == old(children[current].pos)
      ensures IsCut(merged, at, children[current].entries, children[current].pos)
      ensures forall c :: 0 <= c < |children| && c != current ==> Behind(merged, at, children[c].entries, children[c].pos)
    {
      var key := Current().key;
      for i := 0 to |children|
        invariant Shape()
        invariant children[current].pos == old(children[current].pos)
        invariant forall c :: 0 <= c < i && c != current ==> Behind(merged, at, children[c].entries, children[c].pos)
      {
        if i != current {
          children[i].Seek(key);
          if children[i].Valid() {
            children[i].Prev();
          } else {
            children[i].SeekToLast();
          }
        }
      }
      CurrentAtCut();
    }

    lemma CurrentAtCut()
      requires Shape() && at < |merged| && 0 <= current < |children|
      requires children[current].Valid() && children[current].Current() == merged[at]
      ensures IsCut(merged, at, children[current].entries, children[current].pos)
    {
    }

    // The equality test in Next never fires on disjoint runs.
    lemma OtherRunSkipsCurrent(i: nat)
      requires Shape() && at < |merged| && 0 <= current < |children| && i < |children| && i != current
      requires children[current].Valid() && children[current].Current() == merged[at]
      ensures forall j :: 0 <= j < |children[i].entries| ==> children[i].entries[j].key != merged[at].key
    {
      forall j | 0 <= j < |children[i].entries|
        ensures children[i].entries[j].key != merged[at].key
      {
        assert Runs()[i][j].key == Runs()[current][children[current].pos].key ==> i == current;
      }
    }
  }
}
