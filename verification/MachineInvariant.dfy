/** What every interleaved step keeps: the responder invariant, and the agreement of timer and service task. */
module MachineInvariant {
  import opened Options
  import opened TxPacket
  import opened Responder
  import opened ResponderInvariant
  import opened ServiceRemoval
  import opened Agreement
  import opened Machine

  // ---------------------------------------------------------------- the invariant

  function SendId(a: Action): seq<nat> {
    if a.Send? then [a.id] else []
  }

  function SendIds(actions: seq<Action>): seq<nat> {
    if actions == [] then [] else SendId(actions[0]) + SendIds(actions[1..])
  }

  /** The packets pending actions name, the one already taken off the queue first. */
  function Pending(y: System): seq<nat> {
    SendIds((if y.current.Some? then [y.current.value] else []) + y.actions)
  }

  predicate SystemInv(y: System) {
    Inv(y.v) && Agrees(y.v, Pending(y))
  }

  lemma {:induction false} SendIdsJoin(a: seq<Action>, b: seq<Action>)
    ensures SendIds(a + b) == SendIds(a) + SendIds(b)
  {
    if a == [] {
      assert a + b == b;
    } else {
      hide SendId;
      assert (a + b)[0] == a[0] && (a + b)[1..] == a[1..] + b;
      SendIdsJoin(a[1..], b);
      var x, y, z := SendId(a[0]), SendIds(a[1..]), SendIds(b);
      assert x + (y + z) == x + y + z;
    }
  }

  lemma BootInv(pcbs: nat)
    ensures SystemInv(Boot(pcbs))
  {
    var v := Boot(pcbs).v;
    forall i | 0 <= i < |v.pcbs|
      ensures OkAt(v, i)
    {
      assert v.pcbs[i] == DOWN;
    }
    assert Pending(Boot(pcbs)) == [];
  }

  // ---------------------------------------------------------------- operations keep it

  lemma {:induction false} UnnamedDistinct(services: seq<Service>, ids: set<nat>)
    requires NoDuplicates(services)
    ensures NoDuplicates(Unnamed(services, ids))
  {
    if services != [] {
      assert forall i :: 0 <= i < |services| - 1 ==> services[1..][i] == services[i + 1];
      UnnamedDistinct(services[1..], ids);
      var r := Unnamed(services[1..], ids);
      assert services[0] !in services[1..];
      assert forall k :: 0 <= k < |r| ==> r[k] in services[1..];
    }
  }

  /** One interface's probing (re)started from a good state. */
  lemma InitProbeInv(v: Server, i: nat, services: seq<Service>, ip: bool, random: nat)
    requires i < |v.pcbs| && QueueOk(v) && NoDuplicates(v.services) && MayProbe(v, i, services, ip)
    requires forall j :: 0 <= j < |v.pcbs| && j != i ==> OkAt(v, j)
    ensures Inv(InitProbe(v, i, services, ip, random))
  {
    hide QueueOk, On, SinceStart, PcbOk, InitProbe, NoDuplicates, MayProbe;
    InitProbeOk(v, i, services, ip, random);
    var w := InitProbe(v, i, services, ip, random);
    forall j | 0 <= j < |w.pcbs| && j != i
      ensures OkAt(w, j)
    {
      assert OkAt(v, j) && Unaffected(v, w, j);
    }
  }

  lemma ReadyMayProbe(v: Server, i: nat, services: seq<Service>, ip: bool)
    requires i < |v.pcbs| && OkAt(v, i) && NoDuplicates(services) && (services != [] || ip)
    ensures var w := v.(pcbs := v.pcbs[i := v.pcbs[i].(ready := true)]); MayProbe(w, i, services, ip)
    ensures v.pcbs[i].ready ==> MayProbe(v, i, services, ip)
  {
    hide On, SinceStart, IsProbe, OnBeat;
  }

  lemma EnableOk(v: Server, i: nat, random: nat, services: seq<Service>)
    requires Inv(v) && i < |v.pcbs| && NoDuplicates(services)
    ensures Inv(InitProbe(v.(pcbs := v.pcbs[i := v.pcbs[i].(ready := true)]), i, services, true, random))
  {
    hide On, SinceStart, PcbOk, InitProbe, NoDuplicates, MayProbe, Sorted, DistinctIds;
    assert OkAt(v, i);
    var w := v.(pcbs := v.pcbs[i := v.pcbs[i].(ready := true)]);
    ReadyMayProbe(v, i, services, true);
    forall j | 0 <= j < |w.pcbs| && j != i
      ensures OkAt(w, j)
    {
      assert OkAt(v, j);
    }
    InitProbeInv(w, i, services, true, random);
  }

  lemma DisableOk(v: Server, i: nat)
    requires Inv(v) && i < |v.pcbs|
    ensures Inv(v.(tx := WithoutPcb(v.tx, i), pcbs := v.pcbs[i := DOWN]))
  {
    hide On, SinceStart, NoDuplicates, Sorted, DistinctIds, WithoutPcb, IsProbe, OnBeat;
    var w := v.(tx := WithoutPcb(v.tx, i), pcbs := v.pcbs[i := DOWN]);
    WithoutPcbKeeps(v.tx, i);
    NoServicesDistinct();
    forall j | 0 <= j < |w.pcbs|
      ensures OkAt(w, j)
    {
      assert OkAt(v, j);
      OnWithoutPcb(v.tx, i, j);
    }
  }

  lemma RestartProbeInv(v: Server, i: nat, services: seq<Service>, ip: bool, random: nat)
    requires Inv(v) && i < |v.pcbs| && v.pcbs[i].ready && NoDuplicates(services) && (services != [] || ip)
    ensures Inv(InitProbe(v, i, services, ip, random))
  {
    hide QueueOk, On, SinceStart, PcbOk, InitProbe, NoDuplicates, MayProbe;
    assert OkAt(v, i);
    ReadyMayProbe(v, i, services, ip);
    InitProbeInv(v, i, services, ip, random);
  }

  /** Fields the invariant does not look at. */
  lemma SameForInv(v: Server, w: Server)
    requires Inv(v) && w.tx == v.tx && w.log == v.log && w.nextId == v.nextId && |w.pcbs| == |v.pcbs|
    requires NoDuplicates(w.services) && (v.hostSet ==> w.hostSet)
    requires forall i :: 0 <= i < |v.pcbs| ==> w.pcbs[i] == v.pcbs[i].(failedProbes := w.pcbs[i].failedProbes)
    ensures Inv(w)
  {
    hide On, SinceStart, NoDuplicates, Sorted, DistinctIds, OnBeat, IsProbe;
    forall i | 0 <= i < |w.pcbs|
      ensures OkAt(w, i)
    {
      assert OkAt(v, i);
      if v.pcbs[i].state.Probing() {
        FailuresNoMatter(v.pcbs[i], w.pcbs[i], On(v.tx, i)[0], SinceStart(v.log, i));
      }
    }
  }

  lemma FailuresNoMatter(c: Pcb, d: Pcb, p: Tx, sent: seq<Event>)
    requires d == c.(failedProbes := d.failedProbes) && c.state.Probing()
    ensures IsProbe(c, p) == IsProbe(d, p) && OnBeat(c, p, sent) == OnBeat(d, p, sent)
  {
  }

  lemma ProbeAllInv(v: Server, services: seq<Service>, clearOld: bool, randoms: seq<nat>)
    requires Inv(v) && |v.pcbs| <= |randoms| && NoDuplicates(services) && services != []
    ensures Inv(ProbeAllFrom(v, 0, services, false, clearOld, randoms))
  {
    hide ProbeAllFrom, NoDuplicates, QueueOk, PcbOk;
    forall i | 0 <= i < |v.pcbs|
      ensures Startable(v, i, clearOld, false)
    {
      assert OkAt(v, i);
    }
    ProbeAllOk(v, 0, services, false, clearOld, randoms);
  }

  lemma RestartUnnamedInv(v: Server, unnamed: set<nat>, randoms: seq<nat>)
    requires Inv(v) && |v.pcbs| <= |randoms|
    ensures Inv(RestartUnnamed(v, unnamed, randoms))
  {
    hide Inv, ProbeAllFrom, Unnamed;
    assert NoDuplicates(v.services) by {
      InvServices(v);
    }
    UnnamedDistinct(v.services, unnamed);
    if Unnamed(v.services, unnamed) != [] {
      ProbeAllInv(v, Unnamed(v.services, unnamed), true, randoms);
    }
  }

  lemma InvServices(v: Server)
    requires Inv(v)
    ensures NoDuplicates(v.services) && QueueOk(v)
  {
  }

  lemma OneServiceDistinct(s: Service)
    ensures NoDuplicates([s]) && NoDuplicates<Service>([])
  {
  }

  lemma PrependDistinct(s: Service, services: seq<Service>)
    requires NoDuplicates(services) && s !in services
    ensures NoDuplicates([s] + services)
  {
  }

  lemma CollisionInv(v: Server, i: nat, s: Service, rename: Rename, randoms: seq<nat>)
    requires Inv(v) && |v.pcbs| <= |randoms| && i < |v.pcbs| && v.pcbs[i].ready
    ensures Inv(Apply(v, SrvCollision(i, s, rename), randoms))
  {
    hide Inv, ProbeAllFrom, RestartUnnamed, RestartAll, InitProbe, NoDuplicates;
    OneServiceDistinct(s);
    InvServices(v);
    if !v.pcbs[i].probeRunning {
      RestartProbeInv(v, i, [s], false, randoms[i]);
    } else {
      var w := CountFailure(v, i);
      SameForInv(v, w);
      match rename
      case OfInstance => ProbeAllInv(w, [s], false, randoms);
      case OfDefault(unnamed) => RestartUnnamedInv(w, unnamed, randoms);
      case OfHost => RestartAllOk(w, randoms);
    }
  }

  lemma DeleteInv(v: Server, op: Op, randoms: seq<nat>)
    requires Inv(v) && |v.pcbs| <= |randoms| && (op.DeleteService? || op.DeleteAllServices?)
    ensures Inv(Apply(v, op, randoms))
  {
    hide Inv, RemoveService, RemoveServices, NoDuplicates;
    InvServices(v);
    match op {
      case DeleteService(s) =>
        DropServiceRest(v.services, s);
        SameForInv(v, v.(services := DropService(v.services, s)));
        RemoveServiceOk(v.(services := DropService(v.services, s)), s);
      case DeleteAllServices =>
        NoServicesDistinct();
        SameForInv(v, v.(services := []));
        RemoveServicesOk(v.(services := []), v.services);
    }
  }

  /** Every operation keeps the invariant. */
  lemma ApplyInv(v: Server, op: Op, randoms: seq<nat>)
    requires Inv(v) && |v.pcbs| <= |randoms|
    ensures Inv(Apply(v, op, randoms))
  {
    hide Inv, ProbeAllFrom, RestartUnnamed, RestartAll, InitProbe, NoDuplicates, Announce, AnnounceAllFrom, Answers,
      RetractAnswer, RemoveService, RemoveServices, WithoutPcb;
    InvServices(v);
    match op
    case Enable(i, up) =>
      if i < |v.pcbs| {
        EnableOk(v, i, randoms[i], v.services);
      }
    case Disable(i) =>
      if i < |v.pcbs| {
        DisableOk(v, i);
      }
    case AnnounceAddress(i) =>
      if i < |v.pcbs| {
        NoServicesDistinct();
        AnnounceOk(v, i, [], true, randoms[i]);
      }
    case SetHostname =>
      SameForInv(v, v.(hostSet := true));
      RestartAllOk(v.(hostSet := true), randoms);
    case SetHosts(hosts) =>
      SameForInv(v, v.(hosts := hosts));
    case SetInstance(unnamed) =>
      RestartUnnamedInv(v, unnamed, randoms);
    case AddService(s) =>
      if s !in v.services {
        OneServiceDistinct(s);
        PrependDistinct(s, v.services);
        SameForInv(v, v.(services := [s] + v.services));
        ProbeAllInv(v.(services := [s] + v.services), [s], false, randoms);
      }
    case SetServiceInstance(s) =>
      OneServiceDistinct(s);
      ProbeAllInv(v, [s], false, randoms);
    case UpdateService(s, ip) =>
      OneServiceDistinct(s);
      AnnounceAllOk(v, 0, [s], ip, randoms);
    case DeleteService(s) => DeleteInv(v, op, randoms);
    case DeleteAllServices => DeleteInv(v, op, randoms);
    case SrvCollision(i, s, rename) =>
      if i < |v.pcbs| && v.pcbs[i].ready {
        CollisionInv(v, i, s, rename, randoms);
      }
    case TxtCollision(i, s) =>
      if i < |v.pcbs| && v.pcbs[i].ready {
        OneServiceDistinct(s);
        RestartProbeInv(v, i, [s], true, randoms[i]);
      }
    case AddressCollision(i) =>
      if i < |v.pcbs| && v.pcbs[i].ready {
        NoServicesDistinct();
        SameForInv(v, CountFailure(v, i));
        RestartAllOk(CountFailure(v, i), randoms);
        RestartProbeInv(v, i, [], true, randoms[i]);
      }
    case Asked(i, distributed, echoes, answers, additional, after) =>
      if i < |v.pcbs| {
        AnswersOk(v, i, distributed, echoes, answers, additional, after);
      }
    case AnsweredByOther(i, what, service) =>
      RetractOk(v, i, what, service);
  }

  lemma RestartUnnamedAgrees(v: Server, unnamed: set<nat>, randoms: seq<nat>, pending: seq<nat>)
    requires |v.pcbs| <= |randoms| && QueueAgrees(v, pending)
    ensures QueueAgrees(RestartUnnamed(v, unnamed, randoms), pending)
  {
    hide QueueAgrees, ProbeAllFrom, Unnamed;
    ProbeAllAgrees(v, 0, Unnamed(v.services, unnamed), false, true, randoms, pending);
  }

  lemma DisableAgrees(v: Server, i: nat, pending: seq<nat>)
    requires i < |v.pcbs| && QueueAgrees(v, pending)
    ensures QueueAgrees(v.(tx := WithoutPcb(v.tx, i), pcbs := v.pcbs[i := DOWN]), pending)
  {
    hide QueuedFirst, QueuedIds, Live, Thinned, WithoutPcb, Sorted, DistinctIds;
    WithoutPcbThins(v.tx, i);
    WithoutPcbKeeps(v.tx, i);
    ThinAgrees(v, v.(tx := WithoutPcb(v.tx, i), pcbs := v.pcbs[i := DOWN]), pending);
  }

  lemma RetractAgrees(v: Server, i: nat, what: AnswerType, service: Option<Service>, pending: seq<nat>)
    requires QueueAgrees(v, pending)
    ensures QueueAgrees(v.(tx := RetractAnswer(v.tx, i, what, service)), pending)
  {
    hide QueueAgrees, RetractAnswer;
    RetractEdits(v.tx, i, what, service);
    EditAgrees(v, v.(tx := RetractAnswer(v.tx, i, what, service)), pending);
  }

  lemma CollisionAgrees(v: Server, i: nat, s: Service, rename: Rename, randoms: seq<nat>, pending: seq<nat>)
    requires |v.pcbs| <= |randoms| && KnownPcbs(v.tx, v.pcbs) && i < |v.pcbs| && QueueAgrees(v, pending)
    ensures QueueAgrees(Apply(v, SrvCollision(i, s, rename), randoms), pending)
  {
    hide QueueAgrees, ProbeAllFrom, RestartUnnamed, RestartAll, InitProbe;
    var w := CountFailure(v, i);
    SameQueueAgrees(v, w, pending);
    InitProbeAgrees(v, i, [s], false, randoms[i], pending);
    match rename
    case OfInstance => ProbeAllAgrees(w, 0, [s], false, false, randoms, pending);
    case OfDefault(unnamed) => RestartUnnamedAgrees(w, unnamed, randoms, pending);
    case OfHost => RestartAllAgrees(w, randoms, pending);
  }

  lemma AddressCollisionAgrees(v: Server, i: nat, randoms: seq<nat>, pending: seq<nat>)
    requires |v.pcbs| <= |randoms| && KnownPcbs(v.tx, v.pcbs) && i < |v.pcbs| && QueueAgrees(v, pending)
    ensures QueueAgrees(Apply(v, AddressCollision(i), randoms), pending)
  {
    hide QueueAgrees, RestartAll, InitProbe;
    SameQueueAgrees(v, CountFailure(v, i), pending);
    RestartAllAgrees(CountFailure(v, i), randoms, pending);
    InitProbeAgrees(v, i, [], true, randoms[i], pending);
  }

  lemma AddServiceAgrees(v: Server, s: Service, randoms: seq<nat>, pending: seq<nat>)
    requires |v.pcbs| <= |randoms| && KnownPcbs(v.tx, v.pcbs) && QueueAgrees(v, pending)
    ensures QueueAgrees(Apply(v, AddService(s), randoms), pending)
  {
    hide QueueAgrees, ProbeAllFrom;
    var w := v.(services := [s] + v.services);
    SameQueueAgrees(v, w, pending);
    ProbeAllAgrees(w, 0, [s], false, false, randoms, pending);
  }

  lemma DeleteAgrees(v: Server, op: Op, randoms: seq<nat>, pending: seq<nat>)
    requires |v.pcbs| <= |randoms| && KnownPcbs(v.tx, v.pcbs) && QueueAgrees(v, pending)
    requires op.DeleteService? || op.DeleteAllServices?
    ensures QueueAgrees(Apply(v, op, randoms), pending)
  {
    hide QueueAgrees, RemoveService, RemoveServices, DropService;
    match op {
      case DeleteService(s) =>
        SameQueueAgrees(v, v.(services := DropService(v.services, s)), pending);
        RemoveServiceAgrees(v.(services := DropService(v.services, s)), s, pending);
      case DeleteAllServices =>
        SameQueueAgrees(v, v.(services := []), pending);
        RemoveServicesAgrees(v.(services := []), v.services, pending);
    }
  }

  /** Every operation keeps the agreement. */
  lemma ApplyAgrees(v: Server, op: Op, randoms: seq<nat>, pending: seq<nat>)
    requires |v.pcbs| <= |randoms| && KnownPcbs(v.tx, v.pcbs) && QueueAgrees(v, pending)
    ensures QueueAgrees(Apply(v, op, randoms), pending)
  {
    hide QueueAgrees, ProbeAllFrom, RestartUnnamed, RestartAll, InitProbe, Announce, AnnounceAllFrom, Answers,
      RetractAnswer, RemoveService, RemoveServices, WithoutPcb;
    match op
    case Enable(i, up) =>
      if i < |v.pcbs| {
        var w := v.(pcbs := v.pcbs[i := v.pcbs[i].(ready := true)]);
        SameQueueAgrees(v, w, pending);
        InitProbeAgrees(w, i, v.services, true, randoms[i], pending);
      }
    case Disable(i) =>
      if i < |v.pcbs| {
        DisableAgrees(v, i, pending);
      }
    case AnnounceAddress(i) =>
      if i < |v.pcbs| {
        AnnounceAgrees(v, i, [], true, randoms[i], pending);
      }
    case SetHostname =>
      SameQueueAgrees(v, v.(hostSet := true), pending);
      RestartAllAgrees(v.(hostSet := true), randoms, pending);
    case SetHosts(hosts) => SameQueueAgrees(v, v.(hosts := hosts), pending);
    case SetInstance(unnamed) => RestartUnnamedAgrees(v, unnamed, randoms, pending);
    case AddService(s) => AddServiceAgrees(v, s, randoms, pending);
    case SetServiceInstance(s) => ProbeAllAgrees(v, 0, [s], false, false, randoms, pending);
    case UpdateService(s, ip) => AnnounceAllAgrees(v, 0, [s], ip, randoms, pending);
    case DeleteService(s) => DeleteAgrees(v, op, randoms, pending);
    case DeleteAllServices => DeleteAgrees(v, op, randoms, pending);
    case SrvCollision(i, s, rename) =>
      if i < |v.pcbs| {
        CollisionAgrees(v, i, s, rename, randoms, pending);
      }
    case TxtCollision(i, s) =>
      if i < |v.pcbs| {
        InitProbeAgrees(v, i, [s], true, randoms[i], pending);
      }
    case AddressCollision(i) =>
      if i < |v.pcbs| {
        AddressCollisionAgrees(v, i, randoms, pending);
      }
    case Asked(i, distributed, echoes, answers, additional, after) =>
      if i < |v.pcbs| {
        AnswersAgrees(v, i, distributed, echoes, answers, additional, after, pending);
      }
    case AnsweredByOther(i, what, about) => RetractAgrees(v, i, what, about, pending);
  }

  // ---------------------------------------------------------------- steps keep it

  /** Marking the first unposted packet extends the posted prefix by it. */
  lemma {:induction false} Posted(tx: seq<Tx>)
    requires QueuedFirst(tx) && FirstUnposted(tx) < |tx|
    ensures var k := FirstUnposted(tx);
            var w := tx[k := tx[k].(queued := true)];
            QueuedFirst(w) && QueuedIds(w) == QueuedIds(tx) + [tx[k].id]
  {
    var k := FirstUnposted(tx);
    var w := tx[k := tx[k].(queued := true)];
    if tx[0].queued {
      Posted(tx[1..]);
      assert w[1..] == tx[1..][k - 1 := tx[k].(queued := true)];
    } else {
      assert w[1..] == tx[1..];
      assert NoneQueued(tx[1..]);
      NoneQueuedIds(tx);
      NoneQueuedIds(tx[1..]);
    }
  }

  /** The same packets, some of them marked. */
  predicate Marked(a: seq<Tx>, b: seq<Tx>) {
    |a| == |b| && forall i :: 0 <= i < |a| ==> b[i] == a[i].(queued := b[i].queued)
  }

  lemma {:induction false} MarkedOn(a: seq<Tx>, b: seq<Tx>, j: nat)
    requires Marked(a, b)
    ensures Marked(On(a, j), On(b, j))
  {
    if a != [] {
      hide Marked;
      MarkedOn(a[1..], b[1..], j);
    } else {
      assert b == [];
    }
  }

  lemma MarkedInv(v: Server, w: Server)
    requires Inv(v) && Marked(v.tx, w.tx) && w == v.(tx := w.tx)
    ensures Inv(w)
  {
    hide On, SinceStart, OnBeat, IsProbe, NoDuplicates;
    forall q | q in w.tx
      ensures q.pcb < |w.pcbs| && q.id < w.nextId
    {
      var i :| 0 <= i < |w.tx| && w.tx[i] == q;
      assert v.tx[i] in v.tx;
    }
    forall j | 0 <= j < |w.pcbs|
      ensures OkAt(w, j)
    {
      assert OkAt(v, j);
      MarkedOn(v.tx, w.tx, j);
      if v.pcbs[j].state.Probing() {
        QueuedNoMatter(v.pcbs[j], On(v.tx, j)[0], On(w.tx, j)[0], SinceStart(v.log, j));
      }
    }
  }

  lemma {:induction false} LiveJoin(a: seq<nat>, b: seq<nat>, tx: seq<Tx>)
    ensures Live(a + b, tx) == Live(a, tx) + Live(b, tx)
  {
    if a == [] {
      assert a + b == b;
    } else {
      assert (a + b)[1..] == a[1..] + b;
      LiveJoin(a[1..], b, tx);
    }
  }

  lemma MarkedAgrees(v: Server, k: nat, pending: seq<nat>)
    requires Agrees(v, pending) && k == FirstUnposted(v.tx) < |v.tx| && v.tx[k].sendAt < v.now && v.tx[k].id < v.nextId
    ensures Agrees(v.(tx := v.tx[k := v.tx[k].(queued := true)]), pending + [v.tx[k].id])
  {
    hide QueuedFirst, FirstUnposted;
    hide Live, QueuedIds, InQueue;
    var w, id := v.tx[k := v.tx[k].(queued := true)], v.tx[k].id;
    Posted(v.tx);
    MarkedQueue(v.tx, w, k);
    LiveJoin(pending, [id], w);
    SameLive(pending, w, v.tx, v.nextId);
    OneLive(id, w);
    assert forall q :: q in w && q.queued ==> q == w[k] || q in v.tx;
  }

  lemma OneLive(id: nat, tx: seq<Tx>)
    requires InQueue(id, tx)
    ensures Live([id], tx) == [id]
  {
  }

  lemma MarkedQueue(a: seq<Tx>, b: seq<Tx>, k: nat)
    requires k < |a| && b == a[k := a[k].(queued := true)]
    ensures forall id :: InQueue(id, b) == InQueue(id, a)
    ensures InQueue(a[k].id, b)
    ensures forall q :: q in b ==> q == b[k] || q in a
  {
    assert b[k] in b && a[k] in a;
    forall id
      ensures InQueue(id, b) == InQueue(id, a)
    {
      if InQueue(id, a) {
        var i :| 0 <= i < |a| && a[i].id == id;
        assert b[i] in b;
      }
      if InQueue(id, b) {
        var i :| 0 <= i < |b| && b[i].id == id;
        assert a[i] in a;
      }
    }
  }

  lemma TimerInv(y: System, memory: bool)
    requires SystemInv(y)
    ensures SystemInv(TimerRound(y, memory))
  {
    hide Inv, Agrees, FirstUnposted, SendIds;
    var k := FirstUnposted(y.v.tx);
    var z := TimerRound(y, memory);
    if z != y {
      InvIds(y.v, k);
      assert Marked(y.v.tx, z.v.tx);
      MarkedInv(y.v, z.v);
      MarkedAgrees(y.v, k, Pending(y));
      PendingPosted(y, Send(y.v.tx[k].id));
      assert SendIds([Send(y.v.tx[k].id)]) == [y.v.tx[k].id] by {
        OneSend(y.v.tx[k].id);
      }
    }
  }

  /**
   * A timer round, exactly: if the first packet not yet marked is overdue, and there is memory and room for an action,
   * it is marked and its sending posted; otherwise nothing happens.
   */
  lemma TimerDoes(y: System, memory: bool, k: nat)
    requires k <= |y.v.tx| && (forall j :: 0 <= j < k ==> y.v.tx[j].queued) && (k < |y.v.tx| ==> !y.v.tx[k].queued)
    ensures TimerRound(y, memory) ==
            if k < |y.v.tx| && y.v.tx[k].sendAt < y.v.now && memory && |y.actions| < 16 then
              y.(v := y.v.(tx := y.v.tx[..k] + [y.v.tx[k].(queued := true)] + y.v.tx[k + 1..]),
                 actions := y.actions + [Send(y.v.tx[k].id)])
            else y
  {
    hide FirstUnposted;
    var l := FirstUnposted(y.v.tx);
    assert l == k;
    if k < |y.v.tx| {
      assert y.v.tx[k := y.v.tx[k].(queued := true)] == y.v.tx[..k] + [y.v.tx[k].(queued := true)] + y.v.tx[k + 1..];
    }
  }

  lemma OneSend(id: nat)
    ensures SendIds([Send(id)]) == [id]
  {
  }

  lemma InvIds(v: Server, k: nat)
    requires Inv(v) && k < |v.tx|
    ensures v.tx[k].id < v.nextId
  {
    assert v.tx[k] in v.tx;
  }

  lemma PendingPosted(y: System, a: Action)
    ensures Pending(y.(actions := y.actions + [a])) == Pending(y) + SendIds([a])
  {
    var current := if y.current.Some? then [y.current.value] else [];
    assert current + (y.actions + [a]) == current + y.actions + [a];
    SendIdsJoin(current + y.actions, [a]);
  }

  lemma PendingExecuted(y: System)
    requires y.current.Some?
    ensures Pending(y) == SendIds([y.current.value]) + Pending(y.(current := None))
  {
    SendIdsJoin([y.current.value], y.actions);
    assert [] + y.actions == y.actions;
  }

  lemma PendingTaken(y: System)
    requires y.current.None? && y.actions != []
    ensures Pending(y.(actions := y.actions[1..], current := Some(y.actions[0]))) == Pending(y)
  {
    assert [] + y.actions == [y.actions[0]] + y.actions[1..];
  }

  lemma TickInv(v: Server, ms: nat, pending: seq<nat>)
    requires Inv(v) && Agrees(v, pending)
    ensures Inv(v.(now := v.now + ms)) && Agrees(v.(now := v.now + ms), pending)
  {
    hide PcbOk, On, SinceStart, Sorted, DistinctIds, QueuedFirst, QueuedIds, Live, NoDuplicates;
    var w := v.(now := v.now + ms);
    forall i | 0 <= i < |w.pcbs|
      ensures OkAt(w, i)
    {
      assert OkAt(v, i);
    }
  }

  lemma SendInv(v: Server, id: nat, rest: seq<nat>)
    requires Inv(v) && Agrees(v, [id] + rest)
    ensures Inv(SendPosted(v, id)) && Agrees(SendPosted(v, id), rest)
  {
    hide Inv, Agrees, Handle, InQueue;
    InvServices(v);
    if InQueue(id, v.tx) {
      OldestIsHead(v, id, rest);
      TakeHead(v, rest);
      HandleOk(v, v.tx[0].(queued := false));
      SendAgrees(v, rest);
    } else {
      HeadInQueue(v.tx, id);
      DroppedAgrees(v, id, rest);
    }
  }

  lemma HeadInQueue(tx: seq<Tx>, id: nat)
    ensures tx != [] && tx[0].id == id ==> InQueue(id, tx)
  {
    if tx != [] {
      assert tx[0] in tx;
    }
  }

  lemma DroppedAgrees(v: Server, id: nat, rest: seq<nat>)
    requires Agrees(v, [id] + rest) && !InQueue(id, v.tx)
    ensures Agrees(v, rest)
  {
    hide InQueue, QueuedIds, QueuedFirst;
    LiveCons(id, rest, v.tx);
    assert forall other :: other in rest ==> other in [id] + rest;
  }

  /** Every step keeps the invariant and the agreement. */
  lemma NextInv(y: System, step: Step)
    requires SystemInv(y)
    ensures SystemInv(Next(y, step))
  {
    hide Inv, Agrees, TimerRound, SendIds, Apply, SendPosted, KnownPcbs, Pending;
    InvServices(y.v);
    match step
    case Tick(ms) =>
      SamePending(y, Next(y, step));
      TickInv(y.v, ms, Pending(y));
    case Timer(memory) => TimerInv(y, memory);
    case Post(op) =>
      PendingPosted(y, Do(op));
      OneDo(op, Pending(y));
    case Take =>
      if y.current.None? && y.actions != [] {
        PendingTaken(y);
      }
    case Execute(randoms) =>
      if y.current.Some? && |randoms| >= |y.v.pcbs| {
        ExecuteInv(y, randoms);
      }
  }

  lemma OneDo(op: Op, pending: seq<nat>)
    ensures SendIds([Do(op)]) == [] && pending + [] == pending && [] + pending == pending
  {
  }

  lemma SamePending(y: System, z: System)
    requires y.actions == z.actions && y.current == z.current
    ensures Pending(y) == Pending(z)
  {
  }

  lemma ExecuteInv(y: System, randoms: seq<nat>)
    requires SystemInv(y) && y.current.Some? && |randoms| >= |y.v.pcbs|
    ensures SystemInv(Next(y, Execute(randoms)))
  {
    hide Inv, Agrees, SendIds, Apply, SendPosted, KnownPcbs, Pending;
    InvServices(y.v);
    PendingExecuted(y);
    var z := Next(y, Execute(randoms));
    SamePending(y.(current := None), z);
    match y.current.value
    case Send(id) =>
      OneSend(id);
      SendInv(y.v, id, Pending(z));
    case Do(op) =>
      OneDo(op, Pending(z));
      ApplyInv(y.v, op, randoms);
      ApplyAgrees(y.v, op, randoms, Pending(y));
  }
}
