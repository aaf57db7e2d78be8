/** With nothing new to do, the responder comes to rest. */
module Progress {
  import opened TxPacket
  import opened Responder
  import opened ResponderInvariant

  /** Packets queued on an interface plus the states still ahead of it. */
  function Measure(v: Server, i: nat): (n: nat)
    requires i < |v.pcbs|
  {
    |On(v.tx, i)| + (9 - v.pcbs[i].state.Rank())
  }

  /** Wait until the head of the queue is overdue, then handle it. */
  function HandleNext(v: Server): Server
    requires v.tx != [] && KnownPcbs(v.tx, v.pcbs)
  {
    assert v.tx[0] in v.tx;
    var head := v.tx[0];
    Handle(v.(tx := v.tx[1..], now := if v.now > head.sendAt then v.now else head.sendAt + 1), head.(queued := false))
  }

  lemma HandleNextKeeps(v: Server)
    requires v.tx != [] && Inv(v)
    ensures Inv(HandleNext(v)) && |HandleNext(v).pcbs| == |v.pcbs|
  {
    hide Handle, PcbOk, On, SinceStart, NoDuplicates, Sorted, DistinctIds;
    assert v.tx[0] in v.tx;
    var w := v.(now := if v.now > v.tx[0].sendAt then v.now else v.tx[0].sendAt + 1);
    forall i | 0 <= i < |w.pcbs|
      ensures OkAt(w, i)
    {
      assert OkAt(v, i);
    }
    HandleOk(w, w.tx[0].(queued := false));
    HandleDoes(w.(tx := w.tx[1..]), w.tx[0].(queued := false));
  }

  /** What one handling does to an interface: it uses up one packet, or one state, and no other interface notices. */
  lemma HandlingMakesProgress(v: Server, i: nat)
    requires v.tx != [] && Inv(v) && i < |v.pcbs|
    ensures var w := HandleNext(v);
            && |w.pcbs| == |v.pcbs|
            && if v.tx[0].pcb == i then Measure(w, i) < Measure(v, i) else Measure(w, i) == Measure(v, i)
  {
    hide Handle, SinceStart, NoDuplicates, Sorted, DistinctIds, Insert, On, OkAt, Successor;
    assert v.tx[0] in v.tx;
    var u := v.(tx := v.tx[1..], now := if v.now > v.tx[0].sendAt then v.now else v.tx[0].sendAt + 1);
    var p := v.tx[0].(queued := false);
    HeadGone(v);
    HandleDoes(u, p);
    var next := Successor(u, p);
    SuccessorOrState(u, p);
    if next.Some? {
      OnInsert(u.tx, next.value, i);
    }
  }

  lemma SuccessorOrState(v: Server, p: Tx)
    requires p.pcb < |v.pcbs|
    ensures var c := v.pcbs[p.pcb];
            Successor(v, p).Some? ==> StateAfter(c).state.Rank() == c.state.Rank() + 1
    ensures StateAfter(v.pcbs[p.pcb]).state.Rank() >= v.pcbs[p.pcb].state.Rank()
  {
    hide Multicast, AnnounceFrom;
  }

  // ---------------------------------------------------------------- to the end

  function Total(v: Server, k: nat): (n: nat)
    requires k <= |v.pcbs|
    decreases |v.pcbs| - k
  {
    if k == |v.pcbs| then 0 else Measure(v, k) + Total(v, k + 1)
  }

  lemma {:induction false} TotalDrops(v: Server, k: nat)
    requires v.tx != [] && Inv(v) && k <= |v.pcbs|
    ensures |HandleNext(v).pcbs| == |v.pcbs|
    ensures if v.tx[0].pcb >= k then Total(HandleNext(v), k) < Total(v, k) else Total(HandleNext(v), k) == Total(v, k)
    decreases |v.pcbs| - k
  {
    hide HandleNext, Measure, Inv;
    HandleNextKeeps(v);
    if k < |v.pcbs| {
      HandlingMakesProgress(v, k);
      TotalDrops(v, k + 1);
    } else {
      InvKnown(v);
    }
  }

  lemma InvKnown(v: Server)
    requires Inv(v) && v.tx != []
    ensures KnownPcbs(v.tx, v.pcbs) && v.tx[0].pcb < |v.pcbs|
  {
    assert v.tx[0] in v.tx;
  }

  /** Handle packets, each in its time, until none is left. */
  ghost function Drained(v: Server): (r: Server)
    requires Inv(v)
    ensures Inv(r) && r.tx == [] && |r.pcbs| == |v.pcbs|
    decreases Total(v, 0)
  {
    if v.tx == [] then v
    else
      HandleNextKeeps(v);
      TotalDrops(v, 0);
      InvKnown(v);
      Drained(HandleNext(v))
  }

  /** How many of the handlings on the way to rest are of packets of interface `i`. */
  ghost function HandledOn(v: Server, i: nat): (n: nat)
    requires Inv(v)
    decreases Total(v, 0)
  {
    if v.tx == [] then 0
    else
      HandleNextKeeps(v);
      TotalDrops(v, 0);
      InvKnown(v);
      (if v.tx[0].pcb == i then 1 else 0) + HandledOn(HandleNext(v), i)
  }

  /** An interface with one packet queued and `left` states to go before it rests. */
  predicate OnTheWay(v: Server, i: nat, left: nat) {
    i < |v.pcbs| && v.pcbs[i].state.Rank() == 9 - left && |On(v.tx, i)| == if left == 0 then 0 else 1
  }

  lemma OneStepCloser(v: Server, i: nat, left: nat)
    requires v.tx != [] && Inv(v) && OnTheWay(v, i, left) && left <= 6
    ensures OnTheWay(HandleNext(v), i, if v.tx[0].pcb == i then left - 1 else left)
    ensures v.tx[0].pcb == i ==> left > 0
  {
    hide Handle, SinceStart, NoDuplicates, Sorted, DistinctIds, Insert, On, OkAt, Successor;
    assert v.tx[0] in v.tx;
    var u := v.(tx := v.tx[1..], now := if v.now > v.tx[0].sendAt then v.now else v.tx[0].sendAt + 1);
    var p := v.tx[0].(queued := false);
    HeadGone(v);
    HandleDoes(u, p);
    if p.pcb == i {
      SuccessorUnlessLast(u, p);
    }
    var next := Successor(u, p);
    if next.Some? {
      OnInsert(u.tx, next.value, i);
    }
  }

  lemma SuccessorUnlessLast(v: Server, p: Tx)
    requires p.pcb < |v.pcbs| && 3 <= v.pcbs[p.pcb].state.Rank() <= 8
    ensures Successor(v, p).Some? <==> v.pcbs[p.pcb].state.Rank() < 8
    ensures StateAfter(v.pcbs[p.pcb]).state.Rank() == v.pcbs[p.pcb].state.Rank() + 1
  {
    hide Multicast, AnnounceFrom;
  }

  /**
   * Whatever else is queued on other interfaces: an interface with a single packet queued and `left` states to go
   * reaches PCB_RUNNING after exactly `left` handlings of its own, and with its queue empty.
   */
  lemma {:induction false} RestsAfter(v: Server, i: nat, left: nat)
    requires Inv(v) && OnTheWay(v, i, left) && left <= 6
    ensures HandledOn(v, i) == left && i < |Drained(v).pcbs| && Drained(v).pcbs[i].state == Running
    decreases Total(v, 0)
  {
    hide HandleNext, OnTheWay, Total, Inv;
    if v.tx == [] {
      EmptyAtRest(v, i, left);
    } else {
      HandleNextKeeps(v);
      TotalDrops(v, 0);
      InvKnown(v);
      OneStepCloser(v, i, left);
      RestsAfter(HandleNext(v), i, if v.tx[0].pcb == i then left - 1 else left);
    }
  }

  lemma EmptyAtRest(v: Server, i: nat, left: nat)
    requires OnTheWay(v, i, left) && v.tx == []
    ensures left == 0 && i < |v.pcbs| && v.pcbs[i].state == Running
  {
  }

  /** From the first probe: exactly six handlings, three probes and three announcements. */
  lemma SixHandlingsToRest(v: Server, i: nat)
    requires Inv(v) && i < |v.pcbs| && v.pcbs[i].state == Probe1
    ensures HandledOn(v, i) == 6 && Drained(v).tx == [] && Drained(v).pcbs[i].state == Running
  {
    hide On, SinceStart, IsProbe, OnBeat, Drained, HandledOn;
    assert OkAt(v, i);
    RestsAfter(v, i, 6);
  }
}
