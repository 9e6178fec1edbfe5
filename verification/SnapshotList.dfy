/** The circular doubly linked list of live snapshots (db/snapshot.h). */
module SnapshotList {

  class Snapshot {
    var prev: Snapshot?
    var next: Snapshot?
    const sequenceNumber: nat

    constructor (sequenceNumber: nat)
      ensures this.sequenceNumber == sequenceNumber
    {
      this.sequenceNumber := sequenceNumber;
      prev, next := null, null;
    }
  }

  ghost function Without<T>(s: seq<T>, k: nat): seq<T>
    requires k < |s|
  {
    s[..k] + s[k + 1..]
  }

  ghost function At(ring: seq<Snapshot>, i: nat): Snapshot
    requires i <= |ring| && ring != []
  {
    if i == |ring| then ring[0] else ring[i]
  }

  /** Members i and i + 1 of the ring point at each other; the last one is followed by the first. */
  ghost predicate Joined(ring: seq<Snapshot>, i: nat)
    requires i < |ring|
    reads ring
  {
    ring[i].next == At(ring, i + 1) && At(ring, i + 1).prev == ring[i]
  }

  ghost predicate NoRepeats(ring: seq<Snapshot>) {
    forall i, j :: 0 <= i < j < |ring| ==> ring[i] != ring[j]
  }

  ghost predicate Ascending(nodes: seq<Snapshot>) {
    forall i, j :: 0 <= i < j < |nodes| ==> nodes[i].sequenceNumber <= nodes[j].sequenceNumber
  }

  lemma WithoutKeepsOrder(head: Snapshot, nodes: seq<Snapshot>, k: nat)
    requires NoRepeats([head] + nodes) && Ascending(nodes) && k < |nodes|
    ensures |Without(nodes, k)| == |nodes| - 1
    ensures NoRepeats([head] + Without(nodes, k)) && Ascending(Without(nodes, k))
    ensures forall i :: 0 <= i < |nodes| ==>
              ([head] + Without(nodes, k))[i] == ([head] + nodes)[if i <= k then i else i + 1]
  {
    var ring, rest := [head] + nodes, [head] + Without(nodes, k);
    forall i, j | 0 <= i < j < |rest| ensures rest[i] != rest[j] {
      assert rest[i] == ring[if i <= k then i else i + 1];
      assert rest[j] == ring[if j <= k then j else j + 1];
    }
  }

  class SnapshotList {
    const head: Snapshot           // sentinel
    ghost var nodes: seq<Snapshot> // live snapshots, oldest first

    ghost predicate Valid()
      reads this, head, nodes
    {
      var ring := [head] + nodes;
      NoRepeats(ring) && Ascending(nodes) && forall i :: 0 <= i < |ring| ==> Joined(ring, i)
    }

    constructor ()
      ensures Valid() && fresh(head) && nodes == []
    {
      head := new Snapshot(0);
      nodes := [];
      new;
      head.prev, head.next := head, head;
    }

    predicate Empty()
      requires Valid()
      reads this, head, nodes
      ensures Empty() <==> nodes == []
    {
      assert Joined([head] + nodes, 0);
      head.next == head
    }

    /** The oldest live snapshot has the smallest sequence number of all of them. */
    method Oldest() returns (s: Snapshot)
      requires Valid() && !Empty()
      ensures s == nodes[0]
      ensures forall t :: t in nodes ==> s.sequenceNumber <= t.sequenceNumber
    {
      assert Joined([head] + nodes, 0);
      s := head.next;
    }

    method Newest() returns (s: Snapshot)
      requires Valid() && !Empty()
      ensures s == nodes[|nodes| - 1]
    {
      assert Joined([head] + nodes, |nodes|);
      s := head.prev;
    }

    /** Appends a snapshot; sequence numbers never go down along the list. */
    method New(sequenceNumber: nat) returns (s: Snapshot)
      requires Valid()
      requires nodes == [] || nodes[|nodes| - 1].sequenceNumber <= sequenceNumber
      modifies this, head, nodes
      ensures Valid() && fresh(s) && s.sequenceNumber == sequenceNumber
      ensures nodes == old(nodes) + [s]
    {
      ghost var ring := [head] + nodes;
      ghost var m := |ring| - 1;
      assert Joined(ring, m);
      s := new Snapshot(sequenceNumber);
      s.next := head;
      s.prev := head.prev;
      s.prev.next := s;
      s.next.prev := s;
      nodes := nodes + [s];
      ghost var longer := [head] + nodes;
      assert forall i :: 0 <= i <= m ==> longer[i] == ring[i];
      forall i | 0 <= i < |longer| ensures Joined(longer, i) {
        if i < m {
          assert old(Joined(ring, i));
        }
      }
    }

    /** Unlinks a snapshot made by New on this list and leaves the others in place. */
    method Delete(s: Snapshot) returns (ghost k: nat)
      requires Valid() && s in nodes
      modifies this, head, nodes
      ensures Valid()
      ensures k < |old(nodes)| && old(nodes)[k] == s && nodes == Without(old(nodes), k)
    {
      k :| k < |nodes| && nodes[k] == s;
      ghost var ring := [head] + nodes;
      assert ring[k + 1] == s && Joined(ring, k) && Joined(ring, k + 1);
      WithoutKeepsOrder(head, nodes, k);
      hide Without, Ascending;
      s.prev.next := s.next;
      s.next.prev := s.prev;
      nodes := Without(nodes, k);
      forall i | 0 <= i < |nodes| + 1 ensures Joined([head] + nodes, i) {
        if i < k {
          assert old(Joined(ring, i));
        } else if i > k {
          assert old(Joined(ring, i + 1));
        }
      }
    }
  }
}
