/** Theorems about every run of the responder. */
module Runs {
  import opened Options
  import opened TxPacket
  import opened Responder
  import opened ResponderInvariant
  import opened Agreement
  import opened Machine
  import opened MachineInvariant

  // ---------------------------------------------------------------- runs

  /** The system after any sequence of steps. */
  ghost function After(y: System, steps: seq<Step>): (r: System)
    requires SystemInv(y)
    ensures SystemInv(r)
    decreases |steps|
  {
    if steps == [] then y
    else
      NextInv(y, steps[0]);
      After(Next(y, steps[0]), steps[1..])
  }

  ghost function Reached(pcbs: nat, steps: seq<Step>): (r: System)
    ensures SystemInv(r)
  {
    BootInv(pcbs);
    After(Boot(pcbs), steps)
  }

  /**
   * Probe state, on every run: an interface is marked as probing exactly in the three probe states; only then does it
   * hold services to probe; and then its one packet in the queue is the probe for them.
   */
  lemma ProbeStateOnEveryRun(pcbs: nat, steps: seq<Step>, i: nat)
    requires i < |Reached(pcbs, steps).v.pcbs|
    ensures var v := Reached(pcbs, steps).v;
            var c := v.pcbs[i];
            && (c.probeRunning <==> c.state == Probe1 || c.state == Probe2 || c.state == Probe3)
            && (c.probeServices != [] ==> c.probeRunning)
            && (c.probeRunning ==> On(v.tx, i) != [] && IsProbe(c, On(v.tx, i)[0]) && On(v.tx, i) == [On(v.tx, i)[0]])
  {
    hide On, SinceStart, IsProbe, OnBeat, NoDuplicates, After, Agrees, QueueOk, OkAt;
    var v := Reached(pcbs, steps).v;
    assert OkAt(v, i);
    FromOk(v, i);
  }

  lemma FromOk(v: Server, i: nat)
    requires i < |v.pcbs| && OkAt(v, i)
    ensures var c := v.pcbs[i];
            && (c.probeRunning <==> c.state == Probe1 || c.state == Probe2 || c.state == Probe3)
            && (c.probeServices != [] ==> c.probeRunning)
            && (c.probeRunning ==> On(v.tx, i) != [] && IsProbe(c, On(v.tx, i)[0]) && On(v.tx, i) == [On(v.tx, i)[0]])
  {
    hide On, SinceStart, IsProbe, OnBeat, NoDuplicates;
  }

  /** Timer and service task agree, on every run. */
  lemma AgreementOnEveryRun(pcbs: nat, steps: seq<Step>)
    ensures var y := Reached(pcbs, steps);
            && Live(Pending(y), y.v.tx) == QueuedIds(y.v.tx)
            && forall j, k :: 0 <= j < k < |y.v.tx| && y.v.tx[k].queued ==> y.v.tx[j].queued
  {
    hide SendIds, QueuedIds, Live, After;
    var y := Reached(pcbs, steps);
    assert Agrees(y.v, Pending(y));
    var k := PrefixLength(y.v.tx);
  }

  lemma {:induction false} PrefixLength(tx: seq<Tx>) returns (k: nat)
    requires QueuedFirst(tx)
    ensures k <= |tx| && forall j :: 0 <= j < |tx| ==> (tx[j].queued <==> j < k)
  {
    k := 0;
    if tx != [] && tx[0].queued {
      var l := PrefixLength(tx[1..]);
      k := l + 1;
      assert forall j :: 1 <= j < |tx| ==> tx[j] == tx[1..][j - 1];
    } else {
      assert forall j :: 0 <= j < |tx| ==> tx[j] in tx;
    }
  }

  /** The branch that skips an unexpected packet is only ever taken for a packet that has left the queue. */
  lemma UnexpectedPacketsAreGone(pcbs: nat, steps: seq<Step>, id: nat)
    requires var y := Reached(pcbs, steps); y.current == Some(Send(id)) && InQueue(id, y.v.tx)
    ensures var tx := Reached(pcbs, steps).v.tx; tx != [] && tx[0].id == id && tx[0].queued
  {
    hide Agrees, InQueue, SendIds, After, SystemInv;
    var y := Reached(pcbs, steps);
    PendingExecuted(y);
    OneSend(id);
    assert Agrees(y.v, Pending(y)) by {
      SystemAgrees(y);
    }
    OldestIsHead(y.v, id, Pending(y.(current := None)));
  }

  lemma SystemAgrees(y: System)
    requires SystemInv(y)
    ensures Agrees(y.v, Pending(y)) && Inv(y.v)
  {
  }

  // ---------------------------------------------------------------- the action queue

  lemma {:induction false} QueueStaysBounded(y: System, steps: seq<Step>)
    requires SystemInv(y) && |y.actions| <= 16
    ensures |After(y, steps).actions| <= 16
    decreases |steps|
  {
    hide Inv, Agrees, Apply, Handle, FirstUnposted;
    if steps != [] {
      InvServices(y.v);
      NextInv(y, steps[0]);
      QueueStaysBounded(Next(y, steps[0]), steps[1..]);
    }
  }

  /** The action queue never holds more than sixteen actions. */
  lemma QueueBoundOnEveryRun(pcbs: nat, steps: seq<Step>)
    ensures |Reached(pcbs, steps).actions| <= 16
  {
    hide SystemInv, After;
    BootInv(pcbs);
    QueueStaysBounded(Boot(pcbs), steps);
  }

  // ---------------------------------------------------------------- nothing else ends probing in an announcement

  /** An interface that was probing is still in the same state, starts over, or stops; it does not announce. */
  predicate NoneAnnounces(v: Server, w: Server) {
    && |v.pcbs| == |w.pcbs|
    && forall i :: 0 <= i < |v.pcbs| && v.pcbs[i].state.Probing() ==> Unannounced(v.pcbs[i].state, w.pcbs[i].state)
  }

  predicate Unannounced(before: PcbState, after: PcbState) {
    after == before || after == Probe1 || after == Running || after == Off
  }

  lemma {:induction false} ProbeAllStates(v: Server, k: nat, services: seq<Service>, ip: bool, clearOld: bool,
                                          randoms: seq<nat>)
    requires k <= |v.pcbs| <= |randoms|
    ensures var w := ProbeAllFrom(v, k, services, ip, clearOld, randoms);
            && |w.pcbs| == |v.pcbs|
            && (forall j :: 0 <= j < k ==> w.pcbs[j] == v.pcbs[j])
            && (forall j :: k <= j < |v.pcbs| ==> Unannounced(v.pcbs[j].state, w.pcbs[j].state))
    decreases |v.pcbs| - k
  {
    hide InitProbe;
    if k == |v.pcbs| {
    } else if !v.pcbs[k].ready {
      ProbeAllStates(v, k + 1, services, ip, clearOld, randoms);
    } else {
      var u := if clearOld then v.(pcbs := v.pcbs[k := v.pcbs[k].(probeServices := [], probeRunning := false)]) else v;
      InitProbeStates(u, k, services, ip, randoms[k]);
      ProbeAllStates(InitProbe(u, k, services, ip, randoms[k]), k + 1, services, ip, clearOld, randoms);
    }
  }

  lemma AnnounceStates(v: Server, i: nat, services: seq<Service>, ip: bool, random: nat)
    requires i < |v.pcbs|
    ensures var w := Announce(v, i, services, ip, random);
            && |w.pcbs| == |v.pcbs| && (v.pcbs[i].state.Probing() ==> Unannounced(v.pcbs[i].state, w.pcbs[i].state))
            && forall j :: 0 <= j < |v.pcbs| && j != i ==> w.pcbs[j] == v.pcbs[j]
  {
    hide InitProbe, EditFirst, Extended, Insert, On;
    InitProbeStates(v, i, services, ip, random);
  }

  lemma {:induction false} AnnounceAllStates(v: Server, k: nat, services: seq<Service>, ip: bool, randoms: seq<nat>)
    requires k <= |v.pcbs| <= |randoms|
    ensures var w := AnnounceAllFrom(v, k, services, ip, randoms);
            && |w.pcbs| == |v.pcbs|
            && (forall j :: 0 <= j < k ==> w.pcbs[j] == v.pcbs[j])
            && (forall j :: k <= j < |v.pcbs| && v.pcbs[j].state.Probing() ==> Unannounced(v.pcbs[j].state, w.pcbs[j].state))
    decreases |v.pcbs| - k
  {
    hide Announce;
    if k < |v.pcbs| {
      AnnounceStates(v, k, services, ip, randoms[k]);
      AnnounceAllStates(Announce(v, k, services, ip, randoms[k]), k + 1, services, ip, randoms);
    }
  }

  lemma {:induction false} SweepStates(pcbs: seq<Pcb>, tx: seq<Tx>, s: Service)
    requires KnownPcbs(tx, pcbs)
    ensures var r := Sweep(pcbs, tx, s);
            forall j :: 0 <= j < |pcbs| ==> r.pcbs[j].state == pcbs[j].state || r.pcbs[j].state == Running
    decreases |tx|
  {
    hide Without, DropQuestion, DropService;
    if tx != [] {
      SweepStates(pcbs[tx[0].pcb := SweepOne(pcbs[tx[0].pcb], tx[0], s).c], tx[1..], s);
    }
  }

  lemma {:induction false} RemoveServicesStates(v: Server, services: seq<Service>)
    requires KnownPcbs(v.tx, v.pcbs)
    ensures var r := RemoveServices(v, services);
            && |r.pcbs| == |v.pcbs|
            && forall j :: 0 <= j < |v.pcbs| ==> r.pcbs[j].state == v.pcbs[j].state || r.pcbs[j].state == Running
    decreases |services|
  {
    hide Sweep;
    if services != [] {
      SweepStates(v.pcbs, v.tx, services[0]);
      SweepKnown(v.pcbs, v.tx, services[0]);
      RemoveServicesStates(RemoveService(v, services[0]), services[1..]);
    }
  }

  lemma RestartsDoNotAnnounce(v: Server, randoms: seq<nat>, services: seq<Service>, unnamed: set<nat>)
    requires |v.pcbs| <= |randoms|
    ensures NoneAnnounces(v, ProbeAllFrom(v, 0, services, false, false, randoms))
    ensures NoneAnnounces(v, RestartAll(v, randoms))
    ensures NoneAnnounces(v, RestartUnnamed(v, unnamed, randoms))
  {
    hide ProbeAllFrom;
    ProbeAllStates(v, 0, services, false, false, randoms);
    ProbeAllStates(v.(tx := []), 0, v.services, true, true, randoms);
    ProbeAllStates(v, 0, Unnamed(v.services, unnamed), false, true, randoms);
  }

  lemma InitDoesNotAnnounce(v: Server, i: nat, services: seq<Service>, ip: bool, random: nat)
    requires i < |v.pcbs|
    ensures NoneAnnounces(v, InitProbe(v, i, services, ip, random))
  {
    hide InitProbe;
    InitProbeStates(v, i, services, ip, random);
  }

  /** No operation takes a probing interface to announcing. */
  lemma OperationsNeverAnnounceAProbe(v: Server, op: Op, randoms: seq<nat>)
    requires |v.pcbs| <= |randoms| && KnownPcbs(v.tx, v.pcbs)
    ensures NoneAnnounces(v, Apply(v, op, randoms))
  {
    hide ProbeAllFrom, RestartUnnamed, RestartAll, InitProbe, Announce, AnnounceAllFrom, RetractAnswer, Sweep,
      RemoveServices, WithoutPcb, Insert, DropService;
    match op
    case Enable(i, up) =>
      if i < |v.pcbs| {
        InitProbeStates(v.(pcbs := v.pcbs[i := v.pcbs[i].(ready := true)]), i, v.services, true, randoms[i]);
      }
    case AnnounceAddress(i) =>
      if i < |v.pcbs| {
        AnnounceStates(v, i, [], true, randoms[i]);
      }
    case SetHostname => RestartsDoNotAnnounce(v.(hostSet := true), randoms, [], {});
    case SetInstance(unnamed) => RestartsDoNotAnnounce(v, randoms, [], unnamed);
    case AddService(s) => RestartsDoNotAnnounce(v.(services := [s] + v.services), randoms, [s], {});
    case SetServiceInstance(s) => RestartsDoNotAnnounce(v, randoms, [s], {});
    case UpdateService(s, ip) => AnnounceAllStates(v, 0, [s], ip, randoms);
    case DeleteService(s) => SweepStates(v.pcbs, v.tx, s);
    case DeleteAllServices => RemoveServicesStates(v.(services := []), v.services);
    case SrvCollision(i, s, rename) =>
      if i < |v.pcbs| {
        InitDoesNotAnnounce(v, i, [s], false, randoms[i]);
        CollisionDoesNotAnnounce(v, i, s, rename, randoms);
      }
    case TxtCollision(i, s) =>
      if i < |v.pcbs| {
        InitDoesNotAnnounce(v, i, [s], true, randoms[i]);
      }
    case AddressCollision(i) =>
      if i < |v.pcbs| {
        InitDoesNotAnnounce(v, i, [], true, randoms[i]);
        RestartsDoNotAnnounce(CountFailure(v, i), randoms, [], {});
      }
    case _ =>
  }

  lemma CollisionDoesNotAnnounce(v: Server, i: nat, s: Service, rename: Rename, randoms: seq<nat>)
    requires i < |v.pcbs| <= |randoms|
    ensures var w := CountFailure(v, i);
            && NoneAnnounces(v, ProbeAllFrom(w, 0, [s], false, false, randoms)) && NoneAnnounces(v, RestartAll(w, randoms))
            && (rename.OfDefault? ==> NoneAnnounces(v, RestartUnnamed(w, rename.unnamed, randoms)))
  {
    hide ProbeAllFrom, RestartUnnamed, RestartAll, NoneAnnounces;
    var w := CountFailure(v, i);
    RestartsDoNotAnnounce(w, randoms, [s], if rename.OfDefault? then rename.unnamed else {});
    SameStates(v, w, ProbeAllFrom(w, 0, [s], false, false, randoms));
    SameStates(v, w, RestartAll(w, randoms));
    if rename.OfDefault? {
      SameStates(v, w, RestartUnnamed(w, rename.unnamed, randoms));
    }
  }

  /** A failure count does not matter here. */
  lemma SameStates(v: Server, w: Server, u: Server)
    requires |v.pcbs| == |w.pcbs| && forall i :: 0 <= i < |v.pcbs| ==> w.pcbs[i].state == v.pcbs[i].state
    requires NoneAnnounces(w, u)
    ensures NoneAnnounces(v, u)
  {
  }

  /** So the step that does is the handling of a packet. */
  lemma OnlyHandlingAnnounces(y: System, step: Step, i: nat)
    requires SystemInv(y) && i < |y.v.pcbs| && y.v.pcbs[i].state.Probing()
    requires |Next(y, step).v.pcbs| > i && Next(y, step).v.pcbs[i].state.Announcing()
    ensures step.Execute? && y.current.Some? && y.current.value.Send? && |step.randoms| >= |y.v.pcbs|
  {
    hide Inv, Agrees, Apply, SendPosted, FirstUnposted, KnownPcbs;
    InvServices(y.v);
    if step.Execute? && y.current.Some? && |step.randoms| >= |y.v.pcbs| && y.current.value.Do? {
      OperationsNeverAnnounceAProbe(y.v, y.current.value.op, step.randoms);
    }
  }

  lemma ThirdProbe(v: Server, id: nat, i: nat, rest: seq<nat>, y: System)
    requires Inv(v) && i < |v.pcbs| && v.pcbs[i].state == Probe3 && SendPosted(v, id).pcbs[i].state == Announce1
    requires y.v == v && y.current == Some(Send(id)) && rest == Pending(y.(current := None)) && Agrees(v, Pending(y))
    ensures var log := SinceStart(SendPosted(v, id).log, i);
            && |log| == 3
            && log[0].tx.id == log[1].tx.id == log[2].tx.id
            && Unicast(log[0].tx) && NoUnicast(log[1].tx) && NoUnicast(log[2].tx)
            && log[0].at + 250 <= log[1].at && log[1].at + 250 <= log[2].at
  {
    hide Agrees, Handle, On, SinceStart, IsProbe, Unicast, NoUnicast, SendIds, Sorted, DistinctIds, NoDuplicates;
    PendingExecuted(y);
    OneSend(id);
    var p := v.tx[0].(queued := false);
    TakeHead(v, rest);
    HeadGone(v);
    HandleDoes(v.(tx := v.tx[1..]), p);
    assert p.pcb == i;
    assert OkAt(v, i);
    var sent := SinceStart(v.log, i);
    SinceStartAppend(v.log, Sent(i, v.now, p), i);
    QueuedNoMatter(v.pcbs[i], v.tx[0], p, sent);
  }

  /**
   * Three probes, on every run: whichever step takes an interface from its third probe to announcing, exactly three
   * packets were handled on that interface since it last began to probe, all of them the same packet, the first asking
   * for unicast answers and the other two not, each at least 250 ms after the one before.
   */
  lemma ThreeProbesOnEveryRun(pcbs: nat, steps: seq<Step>, step: Step, i: nat)
    requires var y := Reached(pcbs, steps);
             && i < |y.v.pcbs| && y.v.pcbs[i].state == Probe3
             && i < |Next(y, step).v.pcbs| && Next(y, step).v.pcbs[i].state == Announce1
    ensures var log := SinceStart(Next(Reached(pcbs, steps), step).v.log, i);
            && |log| == 3
            && log[0].tx.id == log[1].tx.id == log[2].tx.id
            && Unicast(log[0].tx) && NoUnicast(log[1].tx) && NoUnicast(log[2].tx)
            && log[0].at + 250 <= log[1].at && log[1].at + 250 <= log[2].at
  {
    hide After, SystemInv, SendPosted, TimerRound, Apply, On, SinceStart, IsProbe, Unicast, NoUnicast;
    var y := Reached(pcbs, steps);
    SystemAgrees(y);
    InvServices(y.v);
    OnlyHandlingAnnounces(y, step, i);
    ThirdProbe(y.v, y.current.value.id, i, Pending(y.(current := None)), y);
  }
}
