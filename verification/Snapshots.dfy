/** db/snapshot.h: the circular list of live snapshots. */
module Snapshots {
  import opened InternalKeys

  class SnapshotImpl {
    const sequenceNumber: nat
    var prev: SnapshotImpl?
    var next: SnapshotImpl?

    constructor (sequenceNumber: nat)
      ensures this.sequenceNumber == sequenceNumber
    {
      this.sequenceNumber := sequenceNumber;
      prev, next := null, null;
    }
  }

  // Different snapshots, oldest first.
  ghost predicate Rising(nodes: seq<SnapshotImpl>) {
    && (forall i, j :: 0 <= i < j < |nodes| ==> nodes[i] != nodes[j])
    && (forall i, j :: 0 <= i < j < |nodes| ==> nodes[i].sequenceNumber <= nodes[j].sequenceNumber)
  }

  function Without(nodes: seq<SnapshotImpl>, k: int): seq<SnapshotImpl>
    requires 0 <= k < |nodes|
  {
    nodes[..k] + nodes[k + 1..]
  }

  lemma WithoutIs(nodes: seq<SnapshotImpl>, k: int)
    requires 0 <= k < |nodes|
    ensures |Without(nodes, k)| == |nodes| - 1
    ensures forall i :: 0 <= i < k ==> Without(nodes, k)[i] == nodes[i]
    ensures forall i :: k <= i < |nodes| - 1 ==> Without(nodes, k)[i] == nodes[i + 1]
    ensures forall n :: n in Without(nodes, k) ==> n in nodes
    ensures Rising(nodes) ==> Rising(Without(nodes, k))
  {
  }

  class SnapshotList {
    const head: SnapshotImpl          // the dummy head
    ghost var nodes: seq<SnapshotImpl>  // the snapshots, oldest first

    // The ring as it is walked from the head, at position 0, and back to it.
    ghost function At(i: int): SnapshotImpl
      reads this
    {
      if 0 < i <= |nodes| then nodes[i - 1] else head
    }

    ghost predicate Link(i: int)
      reads this, head, nodes
    {
      At(i).next == At(i + 1) && At(i + 1).prev == At(i)
    }

    ghost predicate WellFormed()
      reads this, head, nodes
    {
      && head !in nodes && Rising(nodes)
      && forall i :: 0 <= i <= |nodes| ==> Link(i)
    }

    constructor ()
      ensures WellFormed() && nodes == [] && fresh(head)
    {
      var h := new SnapshotImpl(0);
      head := h;
      nodes := [];
      new;
      head.next := head;
      head.prev := head;
    }

    predicate IsEmpty()
      requires WellFormed()
      reads this, head, nodes
      ensures IsEmpty() <==> nodes == []
    {
      assert Link(0);
      head.next == head
    }

    // oldest() bounds every live snapshot from below.
    function Oldest(): (s: SnapshotImpl)
      requires WellFormed() && nodes != []
      reads this, head, nodes
      ensures s == nodes[0]
      ensures forall n :: n in nodes ==> s.sequenceNumber <= n.sequenceNumber
    {
      assert Link(0);
      head.next
    }

    function Newest(): (s: SnapshotImpl)
      requires WellFormed() && nodes != []
      reads this, head, nodes
      ensures s == nodes[|nodes| - 1]
      ensures forall n :: n in nodes ==> n.sequenceNumber <= s.sequenceNumber
    {
      assert Link(|nodes|);
      head.prev
    }

    method New(sequenceNumber: nat) returns (snapshot: SnapshotImpl)
      requires WellFormed() && (nodes != [] ==> nodes[|nodes| - 1].sequenceNumber <= sequenceNumber)
      modifies this, head, nodes
      ensures WellFormed() && fresh(snapshot) && snapshot.sequenceNumber == sequenceNumber
      ensures nodes == old(nodes) + [snapshot]
    {
      snapshot := new SnapshotImpl(sequenceNumber);
      assert Link(|nodes|);
      snapshot.next := head;
      snapshot.prev := head.prev;
      snapshot.prev.next := snapshot;
      snapshot.next.prev := snapshot;
      nodes := nodes + [snapshot];
      forall i | 0 <= i <= |nodes|
        ensures Link(i)
      {
        if i < |nodes| - 1 {
          assert old(Link(i));
        }
      }
    }

    method Delete(snapshot: SnapshotImpl)
      requires WellFormed() && snapshot in nodes
      modifies this, head, nodes
      ensures WellFormed()
      ensures exists k :: 0 <= k < |old(nodes)| && old(nodes)[k] == snapshot && nodes == Without(old(nodes), k)
    {
      hide Without;
      ghost var k :| 0 <= k < |nodes| && nodes[k] == snapshot;
      assert Link(k) && Link(k + 1);
      snapshot.prev.next := snapshot.next;
      snapshot.next.prev := snapshot.prev;
      WithoutIs(nodes, k);
      nodes := Without(nodes, k);
      hide Rising;
      forall i | 0 <= i <= |nodes|
        ensures Link(i)
      {
        if i < k {
          assert old(Link(i));
          assert At(i) == old(At(i)) && At(i + 1) == old(At(i + 1));
        } else if i > k {
          assert old(Link(i + 1));
          assert At(i) == old(At(i + 1)) && At(i + 1) == old(At(i + 2));
        } else {
          assert At(k) == old(At(k)) && At(k + 1) == old(At(k + 2));
        }
      }
    }
  }
}
