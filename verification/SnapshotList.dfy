/** The list of live snapshots: a circular doubly linked list with a dummy head
    (`db/snapshot.h`). The store keeps only its sequence numbers. */
module SnapshotList {
  import opened Rings

  class SnapshotImpl {
    const sequenceNumber: nat
    var prev: SnapshotImpl?
    var next: SnapshotImpl?

    constructor (sequenceNumber: nat)
      ensures this.sequenceNumber == sequenceNumber
    {
      this.sequenceNumber := sequenceNumber;
      prev, next := null, null;
    }
  }

  /** Oldest first. */
  ghost predicate Ordered(nodes: seq<SnapshotImpl>) {
    forall i, j :: 0 <= i < j < |nodes| ==> nodes[i].sequenceNumber <= nodes[j].sequenceNumber
  }

  ghost function SequencesOf(nodes: seq<SnapshotImpl>): (s: seq<nat>)
    ensures |s| == |nodes| && forall i :: 0 <= i < |s| ==> s[i] == nodes[i].sequenceNumber
  {
    seq(|nodes|, i requires 0 <= i < |nodes| => nodes[i].sequenceNumber)
  }

  class SnapshotList {
    const head: SnapshotImpl
    ghost var nodes: seq<SnapshotImpl>    // oldest first

    ghost predicate Joined(i: nat)
      reads this, head, nodes
    {
      Around(head, nodes, i).next == Around(head, nodes, i + 1) && Around(head, nodes, i + 1).prev == Around(head, nodes, i)
    }

    ghost predicate Valid()
      reads this, head, nodes
    {
      Distinct(head, nodes) && Ordered(nodes) && forall i: nat :: i <= |nodes| ==> Joined(i)
    }

    /** The sequence numbers that are held, oldest first. */
    ghost function Sequences(): seq<nat>
      reads this
    {
      SequencesOf(nodes)
    }

    constructor ()
      ensures Valid() && nodes == [] && fresh(head)
    {
      var h := new SnapshotImpl(0);
      head := h;
      nodes := [];
      new;
      head.prev, head.next := head, head;
    }

    method Empty() returns (b: bool)
      requires Valid()
      ensures b <==> nodes == []
    {
      assert Joined(0);
      b := head.next == head;
    }

    /** No snapshot is older than the oldest. */
    method Oldest() returns (s: SnapshotImpl)
      requires Valid() && nodes != []
      ensures s == nodes[0] && forall x :: x in nodes ==> s.sequenceNumber <= x.sequenceNumber
    {
      assert Joined(0);
      s := head.next;
    }

    method Newest() returns (s: SnapshotImpl)
      requires Valid() && nodes != []
      ensures s == nodes[|nodes| - 1] && forall x :: x in nodes ==> x.sequenceNumber <= s.sequenceNumber
    {
      assert Joined(|nodes|);
      s := head.prev;
    }

    /** New: the snapshot goes to the end, before the head. */
    method New(sequenceNumber: nat) returns (s: SnapshotImpl)
      requires Valid() && forall x :: x in nodes ==> x.sequenceNumber <= sequenceNumber
      modifies this`nodes, head, nodes
      ensures Valid() && fresh(s) && s.sequenceNumber == sequenceNumber
      ensures nodes == old(nodes) + [s] && Sequences() == old(Sequences()) + [sequenceNumber]
    {
      hide Around, Distinct, Ordered, SequencesOf;
      s := new SnapshotImpl(sequenceNumber);
      assert Joined(|nodes|);
      ghost var was := nodes;
      AppendedRing(head, was, s);
      s.next := head;
      s.prev := head.prev;
      head.prev.next := s;
      head.prev := s;
      nodes := nodes + [s];
      forall i: nat | i <= |nodes|
        ensures Joined(i)
      {
        AppendedAt(head, was, s, i);
        AppendedAt(head, was, s, i + 1);
        if i < |was| {
          assert old(Joined(i));
          AroundApart(head, was, i, |was|);
          AroundApart(head, was, i + 1, |was| + 1);
        }
      }
    }

    /** Delete: the neighbours of the snapshot are joined. */
    method Delete(s: SnapshotImpl, ghost k: nat)
      requires Valid() && k < |nodes| && nodes[k] == s
      modifies this`nodes, head, nodes
      ensures Valid() && nodes == old(nodes[..k] + nodes[k + 1..])
      ensures Sequences() == old(Sequences()[..k] + Sequences()[k + 1..])
    {
      hide Around, Distinct, Ordered, SequencesOf;
      RemovedRing(head, nodes, k);
      assert Joined(k) && Joined(k + 1);
      ghost var was := nodes;
      s.prev.next := s.next;
      s.next.prev := s.prev;
      nodes := nodes[..k] + nodes[k + 1..];
      forall i: nat | i <= |nodes|
        ensures Joined(i)
      {
        RemovedAt(head, was, k, i);
        assert old(Joined(if i < k then i else i + 1));
      }
    }
  }

  lemma AppendedRing(head: SnapshotImpl, nodes: seq<SnapshotImpl>, s: SnapshotImpl)
    requires Distinct(head, nodes) && Ordered(nodes) && s !in nodes && s != head
    requires forall x :: x in nodes ==> x.sequenceNumber <= s.sequenceNumber
    ensures Distinct(head, nodes + [s]) && Ordered(nodes + [s])
    ensures SequencesOf(nodes + [s]) == SequencesOf(nodes) + [s.sequenceNumber]
    ensures Around(head, nodes, |nodes| + 1) == head && (Around(head, nodes, |nodes|) == head || Around(head, nodes, |nodes|) in nodes)
  {
  }

  lemma AppendedAt(head: SnapshotImpl, nodes: seq<SnapshotImpl>, s: SnapshotImpl, i: nat)
    requires i <= |nodes| + 2
    ensures Around(head, nodes + [s], i) == if i == |nodes| + 1 then s else if i <= |nodes| then Around(head, nodes, i) else head
    ensures i <= |nodes| + 1 ==> Around(head, nodes, i) == head || Around(head, nodes, i) in nodes
  {
  }

  lemma AroundApart(head: SnapshotImpl, nodes: seq<SnapshotImpl>, i: nat, j: nat)
    requires Distinct(head, nodes) && i < j <= |nodes| + 1
    ensures !(i == 0 && j == |nodes| + 1) ==> Around(head, nodes, i) != Around(head, nodes, j)
  {
    if !(i == 0 && j == |nodes| + 1) {
      AroundDiffers(head, nodes, i, j);
    }
  }

  lemma RemovedRing(head: SnapshotImpl, nodes: seq<SnapshotImpl>, k: nat)
    requires Distinct(head, nodes) && Ordered(nodes) && k < |nodes|
    ensures var left := nodes[..k] + nodes[k + 1..];
            && Distinct(head, left) && Ordered(left)
            && SequencesOf(left) == SequencesOf(nodes)[..k] + SequencesOf(nodes)[k + 1..]
    ensures Around(head, nodes, k + 1) == nodes[k] && nodes[k] !in [Around(head, nodes, k), Around(head, nodes, k + 2)]
    ensures Around(head, nodes, k) == head || Around(head, nodes, k) in nodes
    ensures Around(head, nodes, k + 2) == head || Around(head, nodes, k + 2) in nodes
  {
  }

  lemma RemovedAt(head: SnapshotImpl, nodes: seq<SnapshotImpl>, k: nat, i: nat)
    requires Distinct(head, nodes) && k < |nodes| && i < |nodes|
    ensures var left := nodes[..k] + nodes[k + 1..];
            && Around(head, left, i) == Around(head, nodes, if i <= k then i else i + 1)
            && Around(head, left, i + 1) == Around(head, nodes, if i + 1 <= k then i + 1 else i + 2)
    ensures i != k ==> Around(head, nodes, if i <= k then i else i + 1) != Around(head, nodes, k)
    ensures i != k ==> Around(head, nodes, if i + 1 <= k then i + 1 else i + 2) != Around(head, nodes, k + 2)
  {
  }
}
