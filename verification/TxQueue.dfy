/** The transmit queue as the source keeps it: a singly linked list relinked in place. */
module TxQueue {
  import opened TxPacket

  class Node {
    var tx: Tx
    var next: Node?

    constructor (tx: Tx)
      ensures this.tx == tx && next == null
    {
      this.tx := tx;
      next := null;
    }
  }

  /** Following `next` from `head` passes exactly `nodes` and arrives at `end`. */
  ghost predicate Segment(head: Node?, nodes: seq<Node>, end: Node?)
    reads nodes`next
  {
    if nodes == [] then head == end else head == nodes[0] && Segment(nodes[0].next, nodes[1..], end)
  }

  /** The packets of a run of nodes. */
  ghost function Packets(nodes: seq<Node>): (r: seq<Tx>)
    reads nodes`tx
    ensures |r| == |nodes| && forall i :: 0 <= i < |nodes| ==> r[i] == nodes[i].tx
  {
    if nodes == [] then [] else [nodes[0].tx] + Packets(nodes[1..])
  }

  ghost predicate Distinct(nodes: seq<Node>) {
    forall i, j :: 0 <= i < j < |nodes| ==> nodes[i] != nodes[j]
  }

  lemma {:induction false} Join(head: Node?, a: seq<Node>, mid: Node?, b: seq<Node>, end: Node?)
    requires Segment(head, a, mid) && Segment(mid, b, end)
    ensures Segment(head, a + b, end)
  {
    if a == [] {
      assert a + b == b;
    } else {
      assert (a + b)[1..] == a[1..] + b;
      Join(a[0].next, a[1..], mid, b, end);
    }
  }

  lemma {:induction false} PacketsJoin(a: seq<Node>, b: seq<Node>)
    ensures Packets(a + b) == Packets(a) + Packets(b)
  {
    if a == [] {
      assert a + b == b;
    } else {
      assert (a + b)[1..] == a[1..] + b;
      PacketsJoin(a[1..], b);
    }
  }

  /** The three parts of a list around a node. */
  ghost predicate Around(spine: seq<Node>, a: seq<Node>, q: Node, b: seq<Node>) {
    spine == a + [q] + b && q in spine && q !in a && q !in b && Distinct(spine)
  }

  lemma Advance(spine: seq<Node>, a: seq<Node>, q: Node, b: seq<Node>)
    requires Around(spine, a, q, b) && b != []
    ensures Around(spine, a + [q], b[0], b[1..])
  {
    assert spine == (a + [q]) + [b[0]] + b[1..];
    assert forall i :: 0 <= i < |a| ==> spine[i] == a[i];
    assert spine[|a|] == q && spine[|a| + 1] == b[0];
    assert forall i :: 1 <= i < |b| ==> spine[|a| + 1 + i] == b[i];
  }

  lemma First(spine: seq<Node>)
    requires spine != [] && Distinct(spine)
    ensures Around(spine, [], spine[0], spine[1..])
  {
    assert spine == [] + [spine[0]] + spine[1..];
  }

  lemma DistinctInserted(a: seq<Node>, p: Node, b: seq<Node>)
    requires Distinct(a + b) && p !in a + b
    ensures Distinct(a + [p] + b)
  {
    var r := a + [p] + b;
    assert forall i :: 0 <= i < |a| ==> r[i] == (a + b)[i];
    assert forall i :: |a| < i < |r| ==> r[i] == (a + b)[i - 1];
  }

  lemma DistinctRemoved(a: seq<Node>, p: Node, b: seq<Node>)
    requires Distinct(a + [p] + b)
    ensures Distinct(a + b) && p !in a + b
  {
    var s, r := a + [p] + b, a + b;
    assert s[|a|] == p;
    assert forall i :: 0 <= i < |a| ==> r[i] == s[i];
    assert forall i :: |a| <= i < |r| ==> r[i] == s[i + 1];
  }

  /** The start of a list that runs to its end. */
  lemma SegmentHead(head: Node?, nodes: seq<Node>)
    requires Segment(head, nodes, null)
    ensures nodes == [] <==> head == null
    ensures nodes != [] ==> head == nodes[0] && Segment(nodes[0].next, nodes[1..], null)
  {
  }

  lemma SegmentEmpty(q: Node?)
    ensures Segment(q, [], q)
  {
  }

  lemma SegmentOne(q: Node)
    ensures Segment(q, [q], q.next)
  {
  }

  lemma Prepended(p: Node, nodes: seq<Node>)
    requires Segment(p.next, nodes, null)
    ensures Segment(p, [p] + nodes, null) && Packets([p] + nodes) == [p.tx] + Packets(nodes)
  {
    assert ([p] + nodes)[1..] == nodes;
  }

  /** One step of a walk along the list. */
  lemma Step(head: Node?, spine: seq<Node>, a: seq<Node>, q: Node, b: seq<Node>)
    requires Around(spine, a, q, b) && Segment(head, a, q) && Segment(q.next, b, null) && q.next != null
    ensures b != [] && q.next == b[0] && Around(spine, a + [q], b[0], b[1..])
    ensures Segment(head, a + [q], b[0]) && Segment(b[0].next, b[1..], null)
  {
    Advance(spine, a, q, b);
    Join(head, a, q, [q], q.next);
  }

  lemma Relinked(head: Node?, a: seq<Node>, q: Node, p: Node, b: seq<Node>)
    requires Segment(head, a, q) && q.next == p && Segment(p.next, b, null)
    ensures Segment(head, a + [q] + [p] + b, null)
  {
    Join(head, a, q, [q], p);
    Join(head, a + [q], p, [p], p.next);
    Join(head, a + [q] + [p], p.next, b, null);
  }

  lemma RelinkedPackets(a: seq<Node>, q: Node, p: Node, b: seq<Node>)
    requires forall n :: n in a + [q] ==> n.tx.sendAt <= p.tx.sendAt
    requires b != [] ==> b[0].tx.sendAt > p.tx.sendAt
    ensures Packets(a + [q] + [p] + b) == Insert(Packets(a + [q] + b), p.tx)
  {
    PacketsJoin(a + [q] + [p], b);
    PacketsJoin(a + [q], [p]);
    PacketsJoin(a + [q], b);
    assert Packets([p]) == [p.tx];
    InsertBetween(Packets(a + [q]), Packets(b), p.tx);
  }

  lemma UnlinkedPackets(a: seq<Node>, q: Node, b: seq<Node>, pcb: nat)
    requires b != [] && b[0].tx.pcb == pcb
    ensures WithoutPcb(Packets(a + [q] + b[1..]), pcb) == WithoutPcb(Packets(a + [q] + b), pcb)
  {
    PacketsJoin(a + [q], b);
    PacketsJoin(a + [q], b[1..]);
    DropOther(Packets(a + [q]), Packets(b), pcb);
  }

  lemma UnlinkedAround(spine: seq<Node>, a: seq<Node>, q: Node, b: seq<Node>)
    requires Around(spine, a, q, b) && b != []
    ensures Around(a + [q] + b[1..], a, q, b[1..])
    ensures forall n :: n in a + [q] + b[1..] ==> n in spine
  {
    Advance(spine, a, q, b);
    DistinctRemoved(a + [q], b[0], b[1..]);
    assert forall n :: n in b[1..] ==> n in b;
  }

  class Queue {
    var head: Node?
    ghost var spine: seq<Node>

    /** The list that starts at `head` is exactly `spine`: it ends, and meets no node twice. */
    ghost predicate Valid()
      reads this, spine
    {
      Segment(head, spine, null) && Distinct(spine)
    }

    constructor ()
      ensures Valid() && spine == []
    {
      head := null;
      spine := [];
    }

    /** `_mdns_schedule_tx_packet`. */
    method Schedule(packet: Node, now: nat, after: nat)
      requires Valid() && packet !in spine
      modifies this, packet, spine
      ensures Valid()
      ensures packet.tx == old(packet.tx).(sendAt := now + after)
      ensures forall n :: n in old(spine) ==> n.tx == old(n.tx)
      ensures Packets(spine) == Insert(old(Packets(spine)), packet.tx)
      ensures forall n :: n in spine <==> n in old(spine) || n == packet
    {
      hide Distinct, Packets, Segment, Insert, Around;
      packet.tx := packet.tx.(sendAt := now + after);
      packet.next := null;
      SegmentHead(head, spine);
      if head == null || head.tx.sendAt > packet.tx.sendAt {
        AddFirst(packet);
        return;
      }
      var q, a, b := FindPlace(packet);
      Relink(packet, q, a, b);
    }

    method AddFirst(packet: Node)
      requires Valid() && packet !in spine && (spine != [] ==> spine[0].tx.sendAt > packet.tx.sendAt)
      modifies this, packet`next
      ensures Valid()
      ensures Packets(spine) == Insert(old(Packets(spine)), packet.tx)
      ensures forall n :: n in spine <==> n in old(spine) || n == packet
    {
      hide Distinct, Packets, Segment, Insert;
      packet.next := head;
      head := packet;
      Prepended(packet, spine);
      InsertFront(Packets(spine), packet.tx);
      assert [] + spine == spine;
      DistinctInserted([], packet, spine);
      assert [] + [packet] + spine == [packet] + spine;
      spine := [packet] + spine;
    }

    /** The walk to the last node due no later than `packet`. */
    method FindPlace(packet: Node) returns (q: Node, ghost a: seq<Node>, ghost b: seq<Node>)
      requires Valid() && head != null && head.tx.sendAt <= packet.tx.sendAt
      ensures Around(spine, a, q, b) && q in spine && Segment(head, a, q) && Segment(q.next, b, null)
      ensures forall n :: n in a + [q] ==> n.tx.sendAt <= packet.tx.sendAt
      ensures q.next != null ==> q.next.tx.sendAt > packet.tx.sendAt
    {
      hide Distinct, Packets, Segment, Around;
      SegmentHead(head, spine);
      q := head;
      a, b := [], spine[1..];
      First(spine);
      SegmentEmpty(q);
      while q.next != null && q.next.tx.sendAt <= packet.tx.sendAt
        invariant Around(spine, a, q, b)
        invariant Segment(head, a, q) && Segment(q.next, b, null)
        invariant forall n :: n in a + [q] ==> n.tx.sendAt <= packet.tx.sendAt
        decreases |b|
      {
        Step(head, spine, a, q, b);
        a, b := a + [q], b[1..];
        q := q.next;
      }
      AroundHas(spine, a, q, b);
    }

    /** The last two assignments of `_mdns_schedule_tx_packet`. */
    method Relink(packet: Node, q: Node, ghost a: seq<Node>, ghost b: seq<Node>)
      requires Around(spine, a, q, b) && Segment(head, a, q) && Segment(q.next, b, null) && packet !in spine
      requires forall n :: n in a + [q] ==> n.tx.sendAt <= packet.tx.sendAt
      requires q.next != null ==> q.next.tx.sendAt > packet.tx.sendAt
      modifies this`spine, packet`next, q`next
      ensures Valid()
      ensures Packets(spine) == Insert(old(Packets(spine)), packet.tx)
      ensures forall n :: n in spine <==> n in old(spine) || n == packet
    {
      hide Distinct, Packets, Segment, Insert;
      SegmentHead(q.next, b);
      packet.next := q.next;
      q.next := packet;
      Relinked(head, a, q, packet, b);
      RelinkedPackets(a, q, packet, b);
      DistinctInserted(a + [q], packet, b);
      spine := a + [q] + [packet] + b;
    }

    /** `_mdns_clear_pcb_tx_queue_head`. */
    method ClearPcb(pcb: nat)
      requires Valid()
      modifies this, spine
      ensures Valid()
      ensures Packets(spine) == WithoutPcb(old(Packets(spine)), pcb)
      ensures forall n :: n in old(spine) ==> n.tx == old(n.tx)
      ensures forall n :: n in spine ==> n in old(spine)
    {
      hide Distinct, Packets, Segment, WithoutPcb;
      ghost var all := spine;
      DropLeading(pcb);
      SegmentHead(head, spine);
      if head != null {
        DropLater(pcb, all);
      }
      AllOthers(Packets(spine), pcb);
    }

    method DropLeading(pcb: nat)
      requires Valid()
      modifies this
      ensures Valid() && (spine != [] ==> spine[0].tx.pcb != pcb)
      ensures WithoutPcb(Packets(spine), pcb) == WithoutPcb(old(Packets(spine)), pcb)
      ensures forall n :: n in spine ==> n in old(spine)
    {
      hide Distinct, Packets, Segment, WithoutPcb;
      SegmentHead(head, spine);
      while head != null && head.tx.pcb == pcb
        invariant Valid() && (forall n :: n in spine ==> n in old(spine))
        invariant spine == [] <==> head == null
        invariant head != null ==> head == spine[0]
        invariant WithoutPcb(Packets(spine), pcb) == WithoutPcb(old(Packets(spine)), pcb)
        decreases |spine|
      {
        DropFirst(head, spine, pcb);
        head := head.next;
        spine := spine[1..];
        SegmentHead(head, spine);
      }
    }

    method DropLater(pcb: nat, ghost all: seq<Node>)
      requires forall n :: n in spine ==> n in all
      requires Valid() && head != null && spine != [] && spine[0].tx.pcb != pcb
      modifies this`spine, all`next
      ensures Valid()
      ensures WithoutPcb(Packets(spine), pcb) == WithoutPcb(old(Packets(spine)), pcb)
      ensures forall n :: n in spine ==> n in old(spine) && n.tx.pcb != pcb
    {
      hide Distinct, Packets, Segment, WithoutPcb, Around;
      SegmentHead(head, spine);
      var q: Node := head;
      ghost var a: seq<Node>, b := [], spine[1..];
      First(spine);
      SegmentEmpty(q);
      while q.next != null
        invariant Around(spine, a, q, b) && (forall n :: n in spine ==> n in old(spine))
        invariant Segment(head, a, q) && Segment(q.next, b, null)
        invariant forall n :: n in a + [q] ==> n.tx.pcb != pcb
        invariant WithoutPcb(Packets(spine), pcb) == WithoutPcb(old(Packets(spine)), pcb)
        decreases |b|
      {
        SegmentHead(q.next, b);
        if q.next.tx.pcb == pcb {
          AroundHas(spine, a, q, b);
          Unlink(q, pcb, a, b);
          b := b[1..];
        } else {
          Step(head, spine, a, q, b);
          a, b := a + [q], b[1..];
          q := q.next;
        }
      }
      Arrived(head, spine, a, q, b);
    }

    /** Take the node after `q` out of the list. */
    method Unlink(q: Node, ghost pcb: nat, ghost a: seq<Node>, ghost b: seq<Node>)
      requires Around(spine, a, q, b) && Segment(head, a, q) && Segment(q.next, b, null) && b != []
      requires b[0].tx.pcb == pcb
      modifies this`spine, q`next
      ensures Around(spine, a, q, b[1..]) && Segment(head, a, q) && Segment(q.next, b[1..], null)
      ensures forall n :: n in spine ==> n in old(spine)
      ensures WithoutPcb(Packets(spine), pcb) == WithoutPcb(old(Packets(spine)), pcb)
    {
      hide Distinct, Packets, Segment, WithoutPcb;
      UnlinkedPackets(a, q, b, pcb);
      UnlinkedAround(spine, a, q, b);
      SegmentHead(q.next, b);
      var p := q.next;
      q.next := p.next;
      spine := a + [q] + b[1..];
    }

    /** The walk to the node in front of `item`, or to the last one. */
    method FindBefore(item: Node) returns (q: Node, ghost a: seq<Node>, ghost b: seq<Node>)
      requires Valid() && head != null && head != item
      ensures Around(spine, a, q, b) && q in spine && spine == a + [q] + b && item !in a + [q]
      ensures Segment(head, a, q) && Segment(q.next, b, null) && (q.next == null || q.next == item)
    {
      hide Distinct, Packets, Segment, Around;
      SegmentHead(head, spine);
      First(spine);
      q := head;
      a, b := [], spine[1..];
      SegmentEmpty(q);
      while q.next != null && q.next != item
        invariant Around(spine, a, q, b) && item !in a + [q]
        invariant Segment(head, a, q) && Segment(q.next, b, null)
        decreases |b|
      {
        Step(head, spine, a, q, b);
        a, b := a + [q], b[1..];
        q := q.next;
      }
      AroundHas(spine, a, q, b);
    }

    /** `queueDetach`: does nothing if the packet is not in the queue. */
    method Detach(item: Node)
      requires Valid()
      modifies this, spine
      ensures Valid() && spine == Unlinked(old(spine), item)
      ensures forall n :: n in old(spine) ==> n.tx == old(n.tx)
    {
      hide Distinct, Packets, Segment, Around, Unlinked;
      SegmentHead(head, spine);
      if head == null {
        UnlinkedAbsent(spine, item);
        return;
      }
      First(spine);
      if head == item {
        UnlinkedAt(spine, [], item, spine[1..]);
        assert [] + spine[1..] == spine[1..];
        head := head.next;
        spine := spine[1..];
        return;
      }
      var q, a, b := FindBefore(item);
      SegmentHead(q.next, b);
      if q.next == null {
        assert spine == a + [q];
        UnlinkedAbsent(spine, item);
        return;
      }
      Step(head, spine, a, q, b);
      UnlinkedAt(spine, a + [q], item, b[1..]);
      Bypass(q, item, a, b[1..]);
      spine := a + [q] + b[1..];
    }

    /** The two assignments that take `item`, the node after `q`, out. */
    method Bypass(q: Node, item: Node, ghost a: seq<Node>, ghost rest: seq<Node>)
      requires Segment(head, a, q) && q.next == item && Segment(item.next, rest, null)
      requires Distinct(a + [q] + [item] + rest)
      modifies q`next, item`next
      ensures Segment(head, a + [q] + rest, null)
    {
      hide Segment, Distinct;
      Separate(a, q, item, rest);
      q.next := item.next;
      item.next := null;
      SegmentOne(q);
      Join(head, a, q, [q], q.next);
      Join(head, a + [q], q.next, rest, null);
    }

    /** `queueToEnd`. */
    method ToEnd(item: Node)
      requires Valid() && item !in spine && item.next == null
      modifies this, spine
      ensures Valid() && spine == old(spine) + [item]
      ensures forall n :: n in old(spine) ==> n.tx == old(n.tx)
    {
      hide Distinct, Packets, Segment;
      assert spine + [] == spine && spine + [item] + [] == spine + [item];
      DistinctInserted(spine, item, []);
      SegmentHead(head, spine);
      SegmentOne(item);
      if head == null {
        head := item;
        assert spine + [item] == [item];
      } else {
        var q, a := Last();
        q.next := item;
        SegmentOne(q);
        Join(head, a, q, [q], item);
        Join(head, a + [q], item, [item], null);
      }
      spine := spine + [item];
    }

    method Last() returns (q: Node, ghost a: seq<Node>)
      requires Valid() && head != null
      ensures spine == a + [q] && q in spine && q !in a && Segment(head, a, q)
    {
      hide Distinct, Packets, Segment, Around;
      SegmentHead(head, spine);
      q := head;
      ghost var b := spine[1..];
      a := [];
      First(spine);
      SegmentEmpty(q);
      while q.next != null
        invariant Around(spine, a, q, b)
        invariant Segment(head, a, q) && Segment(q.next, b, null)
        decreases |b|
      {
        Step(head, spine, a, q, b);
        a, b := a + [q], b[1..];
        q := q.next;
      }
      SegmentHead(null, b);
      AroundHas(spine, a, q, b);
    }
  }

  lemma AroundHas(spine: seq<Node>, a: seq<Node>, q: Node, b: seq<Node>)
    requires Around(spine, a, q, b)
    ensures q in spine && spine == a + [q] + b && q !in a && q !in b
  {
  }

  /** The list without the node `item`, if it is there. */
  ghost function Unlinked(nodes: seq<Node>, item: Node): seq<Node> {
    if nodes == [] then []
    else if nodes[0] == item then nodes[1..]
    else [nodes[0]] + Unlinked(nodes[1..], item)
  }

  lemma {:induction false} UnlinkedAbsent(nodes: seq<Node>, item: Node)
    requires item !in nodes
    ensures Unlinked(nodes, item) == nodes
  {
    if nodes != [] {
      UnlinkedAbsent(nodes[1..], item);
    }
  }

  lemma {:induction false} UnlinkedBetween(a: seq<Node>, item: Node, b: seq<Node>)
    requires item !in a
    ensures Unlinked(a + [item] + b, item) == a + b
  {
    var s := a + [item] + b;
    if a == [] {
      assert s[1..] == b && a + b == b;
    } else {
      assert s[1..] == a[1..] + [item] + b;
      UnlinkedBetween(a[1..], item, b);
      assert [a[0]] + (a[1..] + b) == a + b;
    }
  }

  lemma UnlinkedAt(spine: seq<Node>, a: seq<Node>, item: Node, b: seq<Node>)
    requires Around(spine, a, item, b)
    ensures Unlinked(spine, item) == a + b && Distinct(a + b) && Distinct(a + [item] + b)
  {
    UnlinkedBetween(a, item, b);
    DistinctRemoved(a, item, b);
  }

  lemma Separate(a: seq<Node>, q: Node, item: Node, rest: seq<Node>)
    requires Distinct(a + [q] + [item] + rest)
    ensures q !in a && q !in rest && item !in a && item !in rest && q != item
  {
    var s := a + [q] + [item] + rest;
    assert s[|a|] == q && s[|a| + 1] == item;
    assert forall i :: 0 <= i < |a| ==> s[i] == a[i];
    assert forall i :: 0 <= i < |rest| ==> s[|a| + 2 + i] == rest[i];
  }

  lemma DropFirst(head: Node?, spine: seq<Node>, pcb: nat)
    requires Segment(head, spine, null) && Distinct(spine) && spine != [] && spine[0].tx.pcb == pcb
    ensures Segment(spine[0].next, spine[1..], null) && Distinct(spine[1..])
    ensures WithoutPcb(Packets(spine[1..]), pcb) == WithoutPcb(Packets(spine), pcb)
  {
    assert Packets(spine)[1..] == Packets(spine[1..]);
    assert forall i :: 0 <= i < |spine| - 1 ==> spine[1..][i] == spine[i + 1];
  }

  /** The walk is at the last node. */
  lemma Arrived(head: Node?, spine: seq<Node>, a: seq<Node>, q: Node, b: seq<Node>)
    requires Around(spine, a, q, b) && Segment(head, a, q) && Segment(q.next, b, null) && q.next == null
    ensures spine == a + [q] && Segment(head, spine, null) && Distinct(spine)
    ensures Packets(spine) == Packets(a + [q])
  {
    Join(head, a, q, [q], null);
  }

  lemma InsertFront(tx: seq<Tx>, p: Tx)
    requires tx == [] || tx[0].sendAt > p.sendAt
    ensures Insert(tx, p) == [p] + tx
  {
  }

  /** The walk of `_mdns_schedule_tx_packet` stops where the new packet belongs. */
  lemma {:induction false} InsertBetween(a: seq<Tx>, b: seq<Tx>, p: Tx)
    requires (forall q :: q in a ==> q.sendAt <= p.sendAt) && (b != [] ==> b[0].sendAt > p.sendAt)
    ensures Insert(a + b, p) == a + [p] + b
  {
    if a == [] {
      assert a + b == b;
    } else {
      assert (a + b)[1..] == a[1..] + b;
      InsertBetween(a[1..], b, p);
      assert a + [p] + b == [a[0]] + (a[1..] + [p] + b);
    }
  }

  lemma {:induction false} DropOther(a: seq<Tx>, b: seq<Tx>, pcb: nat)
    requires b != [] && b[0].pcb == pcb
    ensures WithoutPcb(a + b[1..], pcb) == WithoutPcb(a + b, pcb)
  {
    if a == [] {
      assert a + b == b && a + b[1..] == b[1..];
    } else {
      DropOther(a[1..], b, pcb);
      assert (a + b)[1..] == a[1..] + b && (a + b[1..])[1..] == a[1..] + b[1..];
    }
  }

  lemma {:induction false} AllOthers(tx: seq<Tx>, pcb: nat)
    requires forall i :: 0 <= i < |tx| ==> tx[i].pcb != pcb
    ensures WithoutPcb(tx, pcb) == tx
  {
    if tx != [] {
      AllOthers(tx[1..], pcb);
    }
  }
}
