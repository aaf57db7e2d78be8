/** What an undisturbed interface sends: three probes, three announcements, and when. */
module Timeline {
  import opened Options
  import opened TxPacket
  import opened Responder
  import opened ResponderInvariant
  import opened Machine
  import opened MachineInvariant
  import opened Runs
  import opened Agreement
  import opened Progress
  import opened Liveness

  /** Milliseconds that must pass between dispatch k and the next one. */
  function Gap(k: nat): nat {
    if k < 3 then 250 else 1000
  }

  /**
   * Dispatches spaced as section 8.1 of RFC 6762 (probes) and section 8.3 (announcements) ask: each is due that long
   * after the one before, and goes out once that time has passed.
   */
  predicate Spaced(sent: seq<Event>) {
    && (forall k :: 0 <= k < |sent| ==> sent[k].Sent? && sent[k].tx.sendAt < sent[k].at)
    && (forall k, l :: 0 <= k && l == k + 1 < |sent| ==> sent[l].tx.sendAt == sent[k].at + Gap(k))
  }

  /** The same packet to the receiver, but for when it goes out and how it wants to be answered. */
  predicate SameProbe(p: Tx, probe: Tx) {
    && p == probe.(questions := p.questions, sendAt := p.sendAt, queued := p.queued)
    && |p.questions| == |probe.questions|
    && forall k :: 0 <= k < |p.questions| ==> p.questions[k].about == probe.questions[k].about
  }

  /** The first three are the probe, asking for unicast answers only the first time; the others its announcement. */
  predicate InOrder(sent: seq<Event>, hosts: map<nat, Host>, probe: Tx) {
    && (forall k :: 0 <= k < |sent| ==> sent[k].Sent?)
    && (forall k :: 0 <= k < |sent| && k < 3 ==> SameProbe(sent[k].tx, probe))
    && (forall k :: 0 <= k < |sent| && k < 3 ==> if k == 0 then Unicast(sent[k].tx) else NoUnicast(sent[k].tx))
    && (forall k :: 3 <= k < |sent| ==> Announces(sent[k].tx, probe, hosts))
  }

  /** `p` is the announcement made from `probe`. */
  predicate Announces(p: Tx, probe: Tx, hosts: map<nat, Host>) {
    && p.questions == [] && p.servers == [] && p.additional == []
    && p.answers == AnnouncedAnswers([], probe.servers, hosts)
  }

  /** The packet that comes next, given what was sent. */
  predicate Due(p: Tx, sent: seq<Event>, hosts: map<nat, Host>, probe: Tx) {
    && (forall k :: 0 <= k < |sent| ==> sent[k].Sent?)
    && (sent != [] ==> p.sendAt == sent[|sent| - 1].at + Gap(|sent| - 1))
    && (if |sent| < 3 then SameProbe(p, probe) && if |sent| == 0 then Unicast(p) else NoUnicast(p)
        else Announces(p, probe, hosts))
  }

  /** Interface `i` has sent `sent` since it began to probe, and has one packet left to send if it is not at rest. */
  predicate OnTime(v: Server, i: nat, probe: Tx) {
    && i < |v.pcbs|
    && var sent := SinceStart(v.log, i);
    && v.pcbs[i].state.Rank() == 3 + |sent| <= 9
    && Spaced(sent) && InOrder(sent, v.hosts, probe)
    && (|sent| < 6 ==> |On(v.tx, i)| == 1 && Due(On(v.tx, i)[0], sent, v.hosts, probe))
    && (|sent| == 6 ==> On(v.tx, i) == [])
  }

  lemma Begins(v: Server, i: nat)
    requires Inv(v) && i < |v.pcbs| && v.pcbs[i].state == Probe1
    ensures On(v.tx, i) != [] && OnTime(v, i, On(v.tx, i)[0])
  {
    hide On, SinceStart, IsProbe;
    assert OkAt(v, i);
  }

  /** One more dispatch, of the packet that was due. */
  lemma SentNext(p: Tx, sent: seq<Event>, e: Event, hosts: map<nat, Host>, probe: Tx)
    requires Spaced(sent) && InOrder(sent, hosts, probe) && Due(p, sent, hosts, probe) && |sent| < 6
    requires e.Sent? && e.at > p.sendAt && e.tx == p.(queued := e.tx.queued)
    ensures Spaced(sent + [e]) && InOrder(sent + [e], hosts, probe)
  {
    hide AnnouncedAnswers, SameProbe;
    var r := sent + [e];
    assert forall k :: 0 <= k < |sent| ==> r[k] == sent[k];
    assert r[|sent|] == e;
    assert Unicast(e.tx) == Unicast(p) && NoUnicast(e.tx) == NoUnicast(p);
    SameMarked(p, e.tx, probe);
  }

  /** Whether it is marked as posted makes no difference. */
  lemma SameMarked(p: Tx, q: Tx, probe: Tx)
    requires q == p.(queued := q.queued)
    ensures SameProbe(p, probe) <==> SameProbe(q, probe)
  {
  }

  /** The packet scheduled after that dispatch is the one due next. */
  lemma NextDue(v: Server, p: Tx, head: Tx, sent: seq<Event>, probe: Tx)
    requires p.pcb < |v.pcbs| && v.pcbs[p.pcb].state.Rank() == 3 + |sent| && |sent| < 5
    requires InOrder(sent, v.hosts, probe) && Due(head, sent, v.hosts, probe) && p == head.(queued := false)
    ensures var e := Sent(p.pcb, v.now, p);
            Successor(v, p).Some? && Due(Successor(v, p).value, sent + [e], v.hosts, probe)
  {
    hide AnnouncedAnswers;
    var e := Sent(p.pcb, v.now, p);
    var r := sent + [e];
    assert forall k :: 0 <= k < |sent| ==> r[k] == sent[k];
    assert r[|sent|] == e;
    MulticastKeeps(p);
    assert NoUnicast(p) || |sent| == 0 || |sent| >= 3;
  }

  /** The queue without its head, at the time the head is handled. */
  function Handling(v: Server): Server
    requires v.tx != []
  {
    v.(tx := v.tx[1..], now := if v.now > v.tx[0].sendAt then v.now else v.tx[0].sendAt + 1)
  }

  lemma StaysOnTime(v: Server, i: nat, probe: Tx)
    requires Inv(v) && v.tx != [] && OnTime(v, i, probe)
    ensures OnTime(HandleNext(v), i, probe)
  {
    hide Handle, On, SinceStart, OkAt, Spaced, InOrder, Due, NoDuplicates, QueueOk;
    HeadGone(v);
    if v.tx[0].pcb == i {
      OwnHandled(v, i, probe);
    } else {
      OtherHandled(v, i, probe);
    }
  }

  /** A packet of another interface. */
  lemma OtherHandled(v: Server, i: nat, probe: Tx)
    requires QueueOk(v) && v.tx != [] && OnTime(v, i, probe) && v.tx[0].pcb != i && v.tx[0].pcb < |v.pcbs|
    ensures OnTime(Handle(Handling(v), v.tx[0].(queued := false)), i, probe)
  {
    hide Handle, Sorted, DistinctIds, Insert, On, SinceStart, Successor, Spaced, InOrder, Due;
    var u, p := Handling(v), v.tx[0].(queued := false);
    HeadGone(v);
    HandleDoes(u, p);
    HandleHosts(u, p);
    SinceStartAppend(v.log, Sent(p.pcb, u.now, p), i);
    if Successor(u, p).Some? {
      OnInsert(u.tx, Successor(u, p).value, i);
    }
  }

  /** The packet that was due. */
  lemma OwnHandled(v: Server, i: nat, probe: Tx)
    requires QueueOk(v) && v.tx != [] && OnTime(v, i, probe) && v.tx[0].pcb == i
    ensures OnTime(Handle(Handling(v), v.tx[0].(queued := false)), i, probe)
  {
    hide Handle, Sorted, DistinctIds, Insert, On, SinceStart, Successor, Spaced, InOrder, Due;
    var u, p := Handling(v), v.tx[0].(queued := false);
    HeadGone(v);
    HandleDoes(u, p);
    HandleHosts(u, p);
    var sent := SinceStart(v.log, i);
    var e := Sent(i, u.now, p);
    SinceStartAppend(v.log, e, i);
    assert On(v.tx, i) == [v.tx[0]] + On(u.tx, i);
    SentNext(v.tx[0], sent, e, v.hosts, probe);
    if |sent| < 5 {
      NextDue(u, p, v.tx[0], sent, probe);
      OnInsert(u.tx, Successor(u, p).value, i);
      OnlyOne(Successor(u, p).value);
      StateMoves(v.pcbs[i]);
    } else {
      LastHandled(u, p);
    }
  }

  lemma StateMoves(c: Pcb)
    requires 3 <= c.state.Rank() <= 8
    ensures StateAfter(c).state.Rank() == c.state.Rank() + 1
  {
  }

  lemma HandleHosts(v: Server, p: Tx)
    requires p.pcb < |v.pcbs|
    ensures Handle(v, p).hosts == v.hosts
  {
    hide Insert, Multicast, AnnounceFrom;
  }

  lemma OnlyOne(p: Tx)
    ensures Insert([], p) == [p]
  {
  }

  lemma LastHandled(v: Server, p: Tx)
    requires p.pcb < |v.pcbs| && v.pcbs[p.pcb].state.Rank() == 8
    ensures Successor(v, p) == None && StateAfter(v.pcbs[p.pcb]).state == Running
  {
  }

  lemma {:induction false} DrainedOnTime(v: Server, i: nat, probe: Tx)
    requires Inv(v) && OnTime(v, i, probe)
    ensures OnTime(Drained(v), i, probe) && Drained(v).hosts == v.hosts
    decreases Total(v, 0)
  {
    hide HandleNext, OnTime, Total, Inv;
    if v.tx != [] {
      HandleNextKeeps(v);
      TotalDrops(v, 0);
      InvKnown(v);
      StaysOnTime(v, i, probe);
      NextHosts(v);
      DrainedOnTime(HandleNext(v), i, probe);
    }
  }

  lemma NextHosts(v: Server)
    requires v.tx != [] && KnownPcbs(v.tx, v.pcbs)
    ensures HandleNext(v).hosts == v.hosts
  {
    hide Handle;
    assert v.tx[0] in v.tx;
    HandleHosts(v.(tx := v.tx[1..], now := if v.now > v.tx[0].sendAt then v.now else v.tx[0].sendAt + 1),
                v.tx[0].(queued := false));
  }

  /** A first part of what an undisturbed interface sends, in that order and at those distances. */
  predicate PartOfThreeAndThree(sent: seq<Event>, hosts: map<nat, Host>, probe: Tx) {
    |sent| <= 6 && Spaced(sent) && InOrder(sent, hosts, probe)
  }

  /** All six: the probe three times, only the first asking for unicast answers, then its announcement three times. */
  predicate ThreeAndThree(sent: seq<Event>, hosts: map<nat, Host>, probe: Tx) {
    |sent| == 6 && PartOfThreeAndThree(sent, hosts, probe)
  }

  /**
   * From its first probe, undisturbed, an interface sends exactly these six packets: 250 ms apart up to the first
   * announcement, then a second.
   */
  lemma UndisturbedTimeline(v: Server, i: nat)
    requires Inv(v) && i < |v.pcbs| && v.pcbs[i].state == Probe1
    ensures On(v.tx, i) != [] && ThreeAndThree(SinceStart(Drained(v).log, i), v.hosts, On(v.tx, i)[0])
  {
    hide On, SinceStart, Drained, HandledOn, Announces, Unicast, NoUnicast, SameProbe;
    Begins(v, i);
    DrainedOnTime(v, i, On(v.tx, i)[0]);
    SixHandlingsToRest(v, i);
  }

  // ---------------------------------------------------------------- the tasks

  /** Time passing, or a packet being posted, changes nothing about what was sent or is due. */
  lemma IdledOnTime(v: Server, w: Server, i: nat, probe: Tx)
    requires OnTime(v, i, probe) && Idled(v, w)
    ensures OnTime(w, i, probe)
  {
    hide On, SinceStart, Spaced, InOrder, AnnouncedAnswers;
    MarkedOn(v.tx, w.tx, i);
  }

  lemma {:induction false} AlwaysOnTime(y: System, steps: seq<Step>, i: nat, probe: Tx)
    requires SystemInv(y) && OnlySends(y) && OnlyTasks(steps) && OnTime(y.v, i, probe)
    ensures OnTime(After(y, steps).v, i, probe) && After(y, steps).v.hosts == y.v.hosts
    decreases |steps|
  {
    hide Inv, Agrees, Next, HandleNext, OnTime, OnlySends;
    if steps != [] {
      NextInv(y, steps[0]);
      TaskStep(y, steps[0]);
      var z := Next(y, steps[0]);
      if Idled(y.v, z.v) {
        IdledOnTime(y.v, z.v, i, probe);
      } else {
        StaysOnTime(y.v, i, probe);
        NextHosts(y.v);
      }
      AlwaysOnTime(z, steps[1..], i, probe);
    }
  }

  /**
   * However timer and service task are scheduled, as long as no operation is pending: from the first probe on, what
   * the interface sends is at every moment a first part of the three probes and three announcements, in their time.
   */
  lemma TasksNeverLeaveTheTimeline(pcbs: nat, steps: seq<Step>, more: seq<Step>, i: nat)
    requires OnlySends(Reached(pcbs, steps)) && OnlyTasks(more)
    requires i < |Reached(pcbs, steps).v.pcbs| && Reached(pcbs, steps).v.pcbs[i].state == Probe1
    ensures var y := Reached(pcbs, steps);
            && On(y.v.tx, i) != []
            && PartOfThreeAndThree(SinceStart(After(y, more).v.log, i), y.v.hosts, On(y.v.tx, i)[0])
  {
    hide After, Inv, Agrees, OnlyTasks, OnlySends, SinceStart, On, Due;
    var y := Reached(pcbs, steps);
    SystemAgrees(y);
    Begins(y.v, i);
    AlwaysOnTime(y, more, i, On(y.v.tx, i)[0]);
  }

  /** And the tasks, left alone, can always complete it: on every run, from the first probe to rest. */
  lemma TasksKeepTheTimeline(pcbs: nat, steps: seq<Step>, i: nat) returns (more: seq<Step>)
    requires OnlySends(Reached(pcbs, steps))
    requires i < |Reached(pcbs, steps).v.pcbs| && Reached(pcbs, steps).v.pcbs[i].state == Probe1
    ensures OnlyTasks(more)
    ensures var y := Reached(pcbs, steps);
            var z := After(y, more);
            && z.v.tx == [] && i < |z.v.pcbs| && z.v.pcbs[i].state == Running
            && On(y.v.tx, i) != [] && ThreeAndThree(SinceStart(z.v.log, i), y.v.hosts, On(y.v.tx, i)[0])
  {
    hide After, Idle, Drained, HandledOn, Inv, Agrees, OnlyTasks, OnlySends, ThreeAndThree, SinceStart;
    var y := Reached(pcbs, steps);
    SystemAgrees(y);
    SixHandlingsToRest(y.v, i);
    UndisturbedTimeline(y.v, i);
    more := ComesToRest(y);
  }
}
