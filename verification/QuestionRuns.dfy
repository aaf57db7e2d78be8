/** On every run: which services the probes ask about. */
module QuestionRuns {
  import opened Options
  import opened TxPacket
  import opened Responder
  import opened ResponderInvariant
  import opened ServiceRemoval
  import opened Agreement
  import opened Machine
  import opened MachineInvariant
  import opened Runs
  import opened Questions

  /** If interface `i` is probing, its probe asks about exactly the services it is probing. */
  ghost predicate ExactAt(v: Server, i: nat)
    requires i < |v.pcbs|
  {
    v.pcbs[i].state.Probing() ==> AsksExactly(QuestionsOn(v.tx, i), v.pcbs[i].probeServices)
  }

  ghost predicate AllExact(v: Server) {
    forall i :: 0 <= i < |v.pcbs| ==> ExactAt(v, i)
  }

  // ---------------------------------------------------------------- probing starts exact

  /** Probing (re)starts on interface `i` with exact questions, and elsewhere nothing changes. */
  lemma InitProbeExact(v: Server, i: nat, services: seq<Service>, ip: bool, random: nat)
    requires i < |v.pcbs| && Sorted(v.tx)
    ensures var w := InitProbe(v, i, services, ip, random);
            && |w.pcbs| == |v.pcbs| && Sorted(w.tx) && ExactAt(w, i)
            && forall j :: 0 <= j < |v.pcbs| && j != i ==> w.pcbs[j] == v.pcbs[j] && On(w.tx, j) == On(v.tx, j)
  {
    hide Sorted, WithoutPcb, StartProbe, AsksExactly;
    var u := v.(tx := WithoutPcb(v.tx, i));
    WithoutPcbKeeps(v.tx, i);
    forall j: nat
      ensures On(u.tx, j) == if j == i then [] else On(v.tx, j)
    {
      OnWithoutPcb(v.tx, i, j);
    }
    if v.hostSet {
      StartProbeExact(u, i, if v.pcbs[i].state.Probing() then NotIn(services, v.pcbs[i].probeServices) else services, ip,
                      random);
    }
  }

  lemma StartProbeExact(v: Server, i: nat, services: seq<Service>, ip: bool, random: nat)
    requires i < |v.pcbs| && Sorted(v.tx) && On(v.tx, i) == []
    ensures var w := StartProbe(v, i, services, ip, random);
            && |w.pcbs| == |v.pcbs| && Sorted(w.tx) && ExactAt(w, i)
            && forall j :: 0 <= j < |v.pcbs| && j != i ==> w.pcbs[j] == v.pcbs[j] && On(w.tx, j) == On(v.tx, j)
  {
    hide Sorted, Insert, ProbePacket, AsksExactly, Merged, On;
    var c := v.pcbs[i];
    var all := Merged(c, services);
    var p := ProbePacket(v.nextId, i, all, true, c.probeIp || ip, v.hosts);
    var q := p.(sendAt := v.now + ProbeDelay(c.failedProbes, random));
    ProbeAsksExactly(v.nextId, i, all, true, c.probeIp || ip, v.hosts);
    ProbePcb(v.nextId, i, all, true, c.probeIp || ip, v.hosts);
    InsertKeeps(v.tx, q);
    forall j: nat
      ensures On(Insert(v.tx, q), j) == if j == i then Insert([], q) else On(v.tx, j)
    {
      OnInsert(v.tx, q, j);
    }
    InsertAlone(q);
  }

  lemma ProbePcb(id: nat, i: nat, services: seq<Service>, unicast: bool, ip: bool, hosts: map<nat, Host>)
    ensures ProbePacket(id, i, services, unicast, ip, hosts).pcb == i
  {
    hide ProbeDraft;
  }

  lemma InsertAlone(p: Tx)
    ensures Insert([], p) == [p]
  {
  }

  /** An interface that keeps its list and its questions, or stops probing, stays exact. */
  lemma SameExact(v: Server, w: Server, i: nat)
    requires i < |v.pcbs| && i < |w.pcbs| && ExactAt(v, i)
    requires w.pcbs[i].state.Probing() ==>
               && v.pcbs[i].state.Probing() && w.pcbs[i].probeServices == v.pcbs[i].probeServices
               && QuestionsOn(w.tx, i) == QuestionsOn(v.tx, i)
    ensures ExactAt(w, i)
  {
  }

  lemma {:induction false} ProbeAllExact(v: Server, k: nat, services: seq<Service>, ip: bool, clearOld: bool,
                                         randoms: seq<nat>)
    requires k <= |v.pcbs| <= |randoms| && Sorted(v.tx)
    requires forall i :: 0 <= i < |v.pcbs| && (i < k || !v.pcbs[i].ready) ==> ExactAt(v, i)
    ensures AllExact(ProbeAllFrom(v, k, services, ip, clearOld, randoms))
    decreases |v.pcbs| - k
  {
    hide InitProbe, Sorted, On, AsksExactly;
    if k == |v.pcbs| {
    } else if !v.pcbs[k].ready {
      ProbeAllExact(v, k + 1, services, ip, clearOld, randoms);
    } else {
      var w := if clearOld then v.(pcbs := v.pcbs[k := v.pcbs[k].(probeServices := [], probeRunning := false)]) else v;
      InitProbeExact(w, k, services, ip, randoms[k]);
      ProbeAllExact(InitProbe(w, k, services, ip, randoms[k]), k + 1, services, ip, clearOld, randoms);
    }
  }

  /** An interface that is down is not probing. */
  lemma DownIsExact(v: Server, w: Server, i: nat)
    requires Inv(v) && i < |v.pcbs| == |w.pcbs| && !v.pcbs[i].ready && w.pcbs[i].state == v.pcbs[i].state
    ensures ExactAt(w, i)
  {
    hide On, SinceStart, IsProbe, OnBeat;
    assert OkAt(v, i);
  }

  lemma RestartsExact(v: Server, w: Server, services: seq<Service>, ip: bool, clearOld: bool, randoms: seq<nat>)
    requires Inv(v) && |w.pcbs| == |v.pcbs| <= |randoms| && Sorted(w.tx)
    requires forall i :: 0 <= i < |v.pcbs| ==> w.pcbs[i].ready == v.pcbs[i].ready && w.pcbs[i].state == v.pcbs[i].state
    ensures AllExact(ProbeAllFrom(w, 0, services, ip, clearOld, randoms))
  {
    hide Inv, ProbeAllFrom, ExactAt, Sorted;
    forall i | 0 <= i < |w.pcbs| && !w.pcbs[i].ready
      ensures ExactAt(w, i)
    {
      DownIsExact(v, w, i);
    }
    ProbeAllExact(w, 0, services, ip, clearOld, randoms);
  }

  lemma RestartAllExact(v: Server, w: Server, randoms: seq<nat>)
    requires Inv(v) && |w.pcbs| == |v.pcbs| <= |randoms|
    requires forall i :: 0 <= i < |v.pcbs| ==> w.pcbs[i].ready == v.pcbs[i].ready && w.pcbs[i].state == v.pcbs[i].state
    ensures AllExact(RestartAll(w, randoms))
  {
    hide Inv, ProbeAllFrom;
    RestartsExact(v, w.(tx := []), w.services, true, true, randoms);
  }

  lemma InitProbeAllExact(v: Server, i: nat, services: seq<Service>, ip: bool, random: nat)
    requires i < |v.pcbs| && Sorted(v.tx) && forall j :: 0 <= j < |v.pcbs| && j != i ==> ExactAt(v, j)
    ensures AllExact(InitProbe(v, i, services, ip, random))
  {
    hide InitProbe, On, AsksExactly, Sorted;
    InitProbeExact(v, i, services, ip, random);
    var w := InitProbe(v, i, services, ip, random);
    forall j | 0 <= j < |w.pcbs| && j != i
      ensures ExactAt(w, j)
    {
      SameExact(v, w, j);
    }
  }

  // ---------------------------------------------------------------- the other operations

  lemma AnnounceExact(v: Server, i: nat, services: seq<Service>, ip: bool, random: nat)
    requires i < |v.pcbs| && Sorted(v.tx) && AllExact(v)
    ensures var w := Announce(v, i, services, ip, random);
            |w.pcbs| == |v.pcbs| && Sorted(w.tx) && AllExact(w)
  {
    hide InitProbe, EditFirst, Extended, Insert, On, AsksExactly, AnnouncePacket;
    var c, w := v.pcbs[i], Announce(v, i, services, ip, random);
    if c.ready && c.state.Probing() {
      InitProbeAllExact(v, i, services, ip, random);
      InitProbeExact(v, i, services, ip, random);
    } else if c.ready && c.state.Announcing() && On(v.tx, i) != [] {
      EditedExact(v, i, services, ip);
    } else if c.ready && c.state == Running && v.hostSet {
      var p := AnnouncePacket(v.nextId, i, services, ip, v.hosts);
      assert p.pcb == i by {
        AnnouncePcb(v.nextId, i, services, ip, v.hosts);
      }
      OtherFieldsExact(v, v.(nextId := v.nextId + 1));
      ScheduledExact(v.(nextId := v.nextId + 1), v.pcbs[i := c.(state := Announce1)], p, i, 0);
    }
  }

  lemma AnnouncePcb(id: nat, i: nat, services: seq<Service>, ip: bool, hosts: map<nat, Host>)
    ensures AnnouncePacket(id, i, services, ip, hosts).pcb == i
  {
    hide AddServices, AddHosts;
  }

  lemma EditedExact(v: Server, i: nat, services: seq<Service>, ip: bool)
    requires i < |v.pcbs| && Sorted(v.tx) && AllExact(v)
    ensures var w := v.(tx := EditFirst(v.tx, i, (p: Tx) => Extended(p, services, ip, v.hosts)),
                        pcbs := v.pcbs[i := v.pcbs[i].(state := Announce1)]);
            Sorted(w.tx) && AllExact(w)
  {
    hide AddServices, AddHosts, DropAnswer, On, EditFirst, AsksExactly;
    var edit := (p: Tx) => Extended(p, services, ip, v.hosts);
    EditFirstEdits(v.tx, i, edit);
    var w := v.(tx := EditFirst(v.tx, i, edit), pcbs := v.pcbs[i := v.pcbs[i].(state := Announce1)]);
    assert forall a, b :: 0 <= a < b < |w.tx| ==> SameSlot(v.tx[a], w.tx[a]) && SameSlot(v.tx[b], w.tx[b]);
    forall j | 0 <= j < |w.pcbs|
      ensures ExactAt(w, j)
    {
      SameExact(v, w, j);
    }
  }

  /** A packet scheduled on an interface that is not probing afterwards. */
  lemma ScheduledExact(v: Server, pcbs: seq<Pcb>, p: Tx, i: nat, after: nat)
    requires i < |v.pcbs| == |pcbs| && Sorted(v.tx) && AllExact(v) && p.pcb == i && !pcbs[i].state.Probing()
    requires forall j :: 0 <= j < |pcbs| && j != i ==> pcbs[j] == v.pcbs[j]
    ensures var w := Schedule(v.(pcbs := pcbs), p, after); Sorted(w.tx) && AllExact(w)
  {
    hide Sorted, Insert, On, AsksExactly;
    var w, q := Schedule(v.(pcbs := pcbs), p, after), p.(sendAt := v.now + after);
    InsertKeeps(v.tx, q);
    forall j | 0 <= j < |w.pcbs|
      ensures ExactAt(w, j)
    {
      OnInsert(v.tx, q, j);
      SameExact(v, w, j);
    }
  }

  lemma {:induction false} AnnounceAllExact(v: Server, k: nat, services: seq<Service>, ip: bool, randoms: seq<nat>)
    requires k <= |v.pcbs| <= |randoms| && Sorted(v.tx) && AllExact(v)
    ensures AllExact(AnnounceAllFrom(v, k, services, ip, randoms))
    decreases |v.pcbs| - k
  {
    hide Announce, AllExact, Sorted;
    if k < |v.pcbs| {
      AnnounceExact(v, k, services, ip, randoms[k]);
      AnnounceAllExact(Announce(v, k, services, ip, randoms[k]), k + 1, services, ip, randoms);
    }
  }

  lemma AnswersExact(v: Server, i: nat, distributed: bool, echoes: seq<Option<nat>>, answers: seq<Answer>,
                     additional: seq<Answer>, after: nat)
    requires i < |v.pcbs| && Sorted(v.tx) && AllExact(v)
    ensures AllExact(Answers(v, i, distributed, echoes, answers, additional, after))
  {
    hide Insert, On, AsksExactly, Sorted;
    if v.pcbs[i].state.Rank() > 5 {
      var p := Tx(v.nextId, i, 0, false, distributed,
                  seq(|echoes|, k requires 0 <= k < |echoes| => Question(Echo(echoes[k]), false)), answers, [], additional);
      OtherFieldsExact(v, v.(nextId := v.nextId + 1));
      ScheduledExact(v.(nextId := v.nextId + 1), v.pcbs, p, i, after);
    }
  }

  lemma RetractExact(v: Server, i: nat, what: AnswerType, service: Option<Service>)
    requires Inv(v) && AllExact(v)
    ensures AllExact(v.(tx := RetractAnswer(v.tx, i, what, service)))
  {
    hide On, SinceStart, OnBeat, DropAnswer, AsksExactly;
    var w := v.(tx := RetractAnswer(v.tx, i, what, service));
    RetractEdits(v.tx, i, what, service);
    forall j | 0 <= j < |w.pcbs|
      ensures ExactAt(w, j)
    {
      assert OkAt(v, j);
      if v.pcbs[j].state.Probing() {
        ProbeNotRetracted(On(v.tx, j), i, what, service);
      }
      SameExact(v, w, j);
    }
  }

  lemma DisableExact(v: Server, i: nat)
    requires i < |v.pcbs| && AllExact(v)
    ensures AllExact(v.(tx := WithoutPcb(v.tx, i), pcbs := v.pcbs[i := DOWN]))
  {
    hide On, WithoutPcb, AsksExactly;
    var w := v.(tx := WithoutPcb(v.tx, i), pcbs := v.pcbs[i := DOWN]);
    forall j | 0 <= j < |w.pcbs|
      ensures ExactAt(w, j)
    {
      OnWithoutPcb(v.tx, i, j);
      SameExact(v, w, j);
    }
  }

  // ---------------------------------------------------------------- removals

  /** Wherever the service is being probed, it is the first of its kind asked about. */
  predicate OwnQuestionGoes(v: Server, s: Service) {
    forall i :: 0 <= i < |v.pcbs| && v.pcbs[i].state.Probing() && s in v.pcbs[i].probeServices ==>
                  OwnFirst(QuestionsOn(v.tx, i), s)
  }

  predicate OwnQuestionsGo(v: Server, services: seq<Service>)
    requires KnownPcbs(v.tx, v.pcbs)
    decreases |services|
  {
    if services == [] then true
    else
      SweepKnown(v.pcbs, v.tx, services[0]);
      OwnQuestionGoes(v, services[0]) && OwnQuestionsGo(RemoveService(v, services[0]), services[1..])
  }

  /** A removal keeps every probe exact if and only if the question it takes from each is the service's own. */
  lemma RemovalExactIffOwnQuestionGoes(v: Server, s: Service)
    requires Inv(v) && AllExact(v)
    ensures KnownPcbs(v.tx, v.pcbs)
    ensures AllExact(RemoveService(v, s)) <==> OwnQuestionGoes(v, s)
  {
    hide Inv, RemoveService, AsksExactly, OwnFirst, QuestionsOn;
    InvServices(v);
    RemoveServiceOk(v, s);
    var w := RemoveService(v, s);
    forall i | 0 <= i < |v.pcbs|
      ensures ExactAt(w, i)
         <==> (v.pcbs[i].state.Probing() && s in v.pcbs[i].probeServices ==> OwnFirst(QuestionsOn(v.tx, i), s))
    {
      ProbingBefore(v, s, i);
      assert ExactAt(v, i);
      if v.pcbs[i].state.Probing() {
        if s in v.pcbs[i].probeServices {
          RemovalKeepsExactness(v, s, i);
          if !w.pcbs[i].state.Probing() {
            LastServiceIsOwn(v, s, i);
          }
        } else {
          NotProbedNotTouched(v, s, i);
        }
      }
    }
  }

  /** A removal that ends probing was of the only service probed, whose question is then its own. */
  lemma LastServiceIsOwn(v: Server, s: Service, i: nat)
    requires Inv(v) && i < |v.pcbs| && v.pcbs[i].state.Probing() && s in v.pcbs[i].probeServices && ExactAt(v, i)
    requires KnownPcbs(v.tx, v.pcbs) && i < |RemoveService(v, s).pcbs| && !RemoveService(v, s).pcbs[i].state.Probing()
    ensures OwnFirst(QuestionsOn(v.tx, i), s)
  {
    hide RemoveService, AsksExactly, OwnFirst, QuestionsOn, On, SinceStart, IsProbe, OnBeat;
    assert OkAt(v, i);
    RemoveServiceOk(v, s);
    RemovedServices(v, s, i);
    assert OkAt(RemoveService(v, s), i);
    DifferentKindsAreOwn(QuestionsOn(v.tx, i), v.pcbs[i].probeServices, s);
  }

  lemma ProbingBefore(v: Server, s: Service, i: nat)
    requires Inv(v) && i < |v.pcbs|
    ensures i < |RemoveService(v, s).pcbs|
    ensures RemoveService(v, s).pcbs[i].state.Probing() ==> v.pcbs[i].state.Probing()
  {
    hide Sweep;
    SweepStates(v.pcbs, v.tx, s);
  }

  lemma NotProbedNotTouched(v: Server, s: Service, i: nat)
    requires Inv(v) && i < |v.pcbs| && v.pcbs[i].state.Probing() && s !in v.pcbs[i].probeServices
    ensures i < |RemoveService(v, s).pcbs| && RemoveService(v, s).pcbs[i].probeServices == v.pcbs[i].probeServices
    ensures QuestionsOn(RemoveService(v, s).tx, i) == QuestionsOn(v.tx, i)
  {
    hide RemoveService, On, Inv;
    RemoveServiceOk(v, s);
    RemovalIsCompleteAndLocal(v, s);
    RemovedQuestion(v, s, i);
    DropOnly(v.pcbs[i].probeServices, s);
  }

  lemma {:induction false} RemovalsExact(v: Server, services: seq<Service>)
    requires Inv(v) && AllExact(v) && OwnQuestionsGo(v, services)
    ensures AllExact(RemoveServices(v, services))
    decreases |services|
  {
    hide RemoveService, OkAt, AllExact, OwnQuestionGoes;
    if services != [] {
      RemovalExactIffOwnQuestionGoes(v, services[0]);
      RemoveServiceOk(v, services[0]);
      SweepKnown(v.pcbs, v.tx, services[0]);
      RemovalsExact(RemoveService(v, services[0]), services[1..]);
    }
  }

  // ---------------------------------------------------------------- operations and steps

  /** The removals an operation makes, if any, take the services' own questions. */
  predicate RemovesOwnQuestions(v: Server, op: Op)
    requires KnownPcbs(v.tx, v.pcbs)
  {
    match op
    case DeleteService(s) => s in v.services ==> OwnQuestionGoes(v, s)
    case DeleteAllServices => OwnQuestionsGo(v.(services := []), v.services)
    case _ => true
  }

  lemma CollisionExact(v: Server, i: nat, s: Service, rename: Rename, randoms: seq<nat>)
    requires Inv(v) && AllExact(v) && |v.pcbs| <= |randoms| && i < |v.pcbs|
    ensures AllExact(Apply(v, SrvCollision(i, s, rename), randoms))
  {
    hide Inv, ProbeAllFrom, RestartAll, InitProbe, ExactAt, Unnamed, Sorted;
    InvServices(v);
    InitProbeAllExact(v, i, [s], false, randoms[i]);
    var w := CountFailure(v, i);
    CountedExact(v, i);
    match rename
    case OfInstance => RestartsExact(v, w, [s], false, false, randoms);
    case OfDefault(unnamed) => RestartsExact(v, w, Unnamed(w.services, unnamed), false, true, randoms);
    case OfHost => RestartAllExact(v, w, randoms);
  }

  lemma CountedExact(v: Server, i: nat)
    requires AllExact(v) && i < |v.pcbs|
    ensures AllExact(CountFailure(v, i))
  {
    hide On, AsksExactly;
    forall j | 0 <= j < |v.pcbs|
      ensures ExactAt(CountFailure(v, i), j)
    {
      SameExact(v, CountFailure(v, i), j);
    }
  }

  lemma OtherFieldsExact(v: Server, w: Server)
    requires AllExact(v) && w.tx == v.tx && w.pcbs == v.pcbs
    ensures AllExact(w)
  {
    hide On, AsksExactly;
    assert forall i :: 0 <= i < |v.pcbs| ==> ExactAt(v, i) == ExactAt(w, i);
  }

  lemma DeleteExact(v: Server, op: Op, randoms: seq<nat>)
    requires Inv(v) && AllExact(v) && |v.pcbs| <= |randoms| && (op.DeleteService? || op.DeleteAllServices?)
    requires RemovesOwnQuestions(v, op)
    ensures AllExact(Apply(v, op, randoms))
  {
    hide Inv, RemoveService, RemoveServices, ExactAt, OwnFirst, QuestionsOn;
    InvServices(v);
    match op {
      case DeleteService(s) =>
        if s in v.services {
          var w := v.(services := DropService(v.services, s));
          DropServiceRest(v.services, s);
          SameForInv(v, w);
          OtherFieldsExact(v, w);
          RemovalExactIffOwnQuestionGoes(w, s);
        }
      case DeleteAllServices =>
        NoServicesDistinct();
        SameForInv(v, v.(services := []));
        OtherFieldsExact(v, v.(services := []));
        RemovalsExact(v.(services := []), v.services);
    }
  }

  lemma EnableExact(v: Server, i: nat, random: nat)
    requires Sorted(v.tx) && AllExact(v) && i < |v.pcbs|
    ensures AllExact(InitProbe(v.(pcbs := v.pcbs[i := v.pcbs[i].(ready := true)]), i, v.services, true, random))
  {
    hide InitProbe, On, AsksExactly, Sorted;
    var w := v.(pcbs := v.pcbs[i := v.pcbs[i].(ready := true)]);
    forall j | 0 <= j < |w.pcbs| && j != i
      ensures ExactAt(w, j)
    {
      SameExact(v, w, j);
    }
    InitProbeAllExact(w, i, v.services, true, random);
  }

  /** Every operation keeps probes exact, if the removals it makes take the services' own questions. */
  lemma ApplyExact(v: Server, op: Op, randoms: seq<nat>)
    requires Inv(v) && AllExact(v) && |v.pcbs| <= |randoms| && KnownPcbs(v.tx, v.pcbs) && RemovesOwnQuestions(v, op)
    ensures AllExact(Apply(v, op, randoms))
  {
    hide Inv, AllExact, ProbeAllFrom, RestartAll, InitProbe, Announce, AnnounceAllFrom, Answers, RetractAnswer,
      RemoveService, RemoveServices, WithoutPcb, Sorted, OwnQuestionGoes, OwnQuestionsGo, Unnamed;
    InvServices(v);
    match op
    case Enable(i, up) =>
      if i < |v.pcbs| {
        EnableExact(v, i, randoms[i]);
      }
    case Disable(i) =>
      if i < |v.pcbs| {
        DisableExact(v, i);
      }
    case AnnounceAddress(i) =>
      if i < |v.pcbs| {
        AnnounceExact(v, i, [], true, randoms[i]);
      }
    case SetHostname => RestartAllExact(v, v.(hostSet := true), randoms);
    case SetHosts(hosts) => OtherFieldsExact(v, v.(hosts := hosts));
    case SetInstance(unnamed) => RestartsExact(v, v, Unnamed(v.services, unnamed), false, true, randoms);
    case AddService(s) => RestartsExact(v, v.(services := [s] + v.services), [s], false, false, randoms);
    case SetServiceInstance(s) => RestartsExact(v, v, [s], false, false, randoms);
    case UpdateService(s, ip) => AnnounceAllExact(v, 0, [s], ip, randoms);
    case DeleteService(s) => DeleteExact(v, op, randoms);
    case DeleteAllServices => DeleteExact(v, op, randoms);
    case SrvCollision(i, s, rename) =>
      if i < |v.pcbs| {
        CollisionExact(v, i, s, rename, randoms);
      }
    case TxtCollision(i, s) =>
      if i < |v.pcbs| {
        EveryExact(v);
        InitProbeAllExact(v, i, [s], true, randoms[i]);
      }
    case AddressCollision(i) =>
      if i < |v.pcbs| {
        EveryExact(v);
        RestartAllExact(v, CountFailure(v, i), randoms);
        InitProbeAllExact(v, i, [], true, randoms[i]);
      }
    case Asked(i, distributed, echoes, answers, additional, after) =>
      if i < |v.pcbs| {
        AnswersExact(v, i, distributed, echoes, answers, additional, after);
      }
    case AnsweredByOther(i, what, service) =>
      RetractExact(v, i, what, service);
  }

  lemma EveryExact(v: Server)
    requires AllExact(v)
    ensures forall i :: 0 <= i < |v.pcbs| ==> ExactAt(v, i)
  {
  }

  lemma MulticastExact(questions: seq<Question>, services: seq<Service>)
    requires AsksExactly(questions, services)
    ensures AsksExactly(AllMulticast(questions), services)
  {
    hide AllMulticast;
    var r := AllMulticast(questions);
    forall t: Service
      ensures Asks(r, Instance(t)) <==> Asks(questions, Instance(t))
    {
      if Asks(questions, Instance(t)) {
        var i :| 0 <= i < |questions| && questions[i].about == Instance(t);
        assert r[i].about == Instance(t);
      }
      if Asks(r, Instance(t)) {
        var i :| 0 <= i < |r| && r[i].about == Instance(t);
        assert questions[i].about == Instance(t);
      }
    }
  }

  lemma HandleExact(v: Server)
    requires Inv(v) && AllExact(v) && v.tx != [] && v.tx[0].pcb < |v.pcbs|
    ensures AllExact(Handle(v.(tx := v.tx[1..]), v.tx[0].(queued := false)))
  {
    hide Handle, On, SinceStart, Sorted, DistinctIds, NoDuplicates, Insert, AsksExactly, IsProbe, OnBeat, Multicast,
      AnnounceFrom;
    var u, p := v.(tx := v.tx[1..]), v.tx[0].(queued := false);
    HeadGone(v);
    HandleDoes(u, p);
    var w, next := Handle(u, p), Successor(u, p);
    forall j | 0 <= j < |w.pcbs|
      ensures ExactAt(w, j)
    {
      if next.Some? {
        OnInsert(u.tx, next.value, j);
      }
      if j != p.pcb {
        SameExact(v, w, j);
      } else if w.pcbs[j].state.Probing() {
        assert OkAt(v, j) && ExactAt(v, j);
        assert On(v.tx, j) == [v.tx[0]];
        InsertAlone(next.value);
        SuccessorExact(u, p, v.pcbs[j].probeServices);
      }
    }
  }

  lemma SuccessorExact(v: Server, p: Tx, services: seq<Service>)
    requires p.pcb < |v.pcbs| && AsksExactly(p.questions, services)
    requires v.pcbs[p.pcb].state == Probe1 || v.pcbs[p.pcb].state == Probe2
    ensures AsksExactly(Successor(v, p).value.questions, services)
  {
    hide AllMulticast, AsksExactly;
    MulticastExact(p.questions, services);
  }

  lemma TimerExact(y: System, memory: bool)
    requires SystemInv(y) && AllExact(y.v)
    ensures AllExact(TimerRound(y, memory).v)
  {
    hide Inv, Agrees, On, AsksExactly, FirstUnposted;
    var z := TimerRound(y, memory);
    if z != y {
      assert Marked(y.v.tx, z.v.tx);
      forall j | 0 <= j < |z.v.pcbs|
        ensures ExactAt(z.v, j)
      {
        MarkedOn(y.v.tx, z.v.tx, j);
        SameExact(y.v, z.v, j);
      }
    }
  }

  /** If the step removes services, it takes their own questions. */
  predicate StepRemovesOwnQuestions(y: System, step: Step)
    requires KnownPcbs(y.v.tx, y.v.pcbs)
  {
    step.Execute? && y.current.Some? && y.current.value.Do? ==> RemovesOwnQuestions(y.v, y.current.value.op)
  }

  lemma NextExact(y: System, step: Step)
    requires SystemInv(y) && AllExact(y.v) && KnownPcbs(y.v.tx, y.v.pcbs) && StepRemovesOwnQuestions(y, step)
    ensures AllExact(Next(y, step).v)
  {
    hide Inv, Agrees, Apply, Handle, TimerRound, ExactAt, RemovesOwnQuestions;
    match step
    case Tick(ms) => OtherFieldsExact(y.v, Next(y, step).v);
    case Timer(memory) => TimerExact(y, memory);
    case Post(op) =>
    case Take =>
    case Execute(randoms) =>
      if y.current.Some? && |randoms| >= |y.v.pcbs| {
        match y.current.value
        case Send(id) =>
          if y.v.tx != [] && y.v.tx[0].id == id && y.v.tx[0].queued {
            assert y.v.tx[0] in y.v.tx;
            HandleExact(y.v);
          }
        case Do(op) => ApplyExact(y.v, op, randoms);
      }
  }

  // ---------------------------------------------------------------- runs

  /** A run all of whose removals take the services' own questions. */
  ghost predicate RunRemovesOwnQuestions(y: System, steps: seq<Step>)
    requires SystemInv(y)
    decreases |steps|
  {
    if steps == [] then true
    else
      NextInv(y, steps[0]);
      StepRemovesOwnQuestions(y, steps[0]) && RunRemovesOwnQuestions(Next(y, steps[0]), steps[1..])
  }

  lemma {:induction false} AfterExact(y: System, steps: seq<Step>)
    requires SystemInv(y) && AllExact(y.v) && RunRemovesOwnQuestions(y, steps)
    ensures AllExact(After(y, steps).v)
    decreases |steps|
  {
    hide Inv, Agrees, Next, AllExact, StepRemovesOwnQuestions;
    if steps != [] {
      InvServices(y.v);
      NextExact(y, steps[0]);
      NextInv(y, steps[0]);
      AfterExact(Next(y, steps[0]), steps[1..]);
    }
  }

  /**
   * On every run whose removals each find the removed service first of its kind in the probes, every probe asks about
   * exactly the services being probed, each once.
   */
  lemma ProbesAskExactlyOnEveryRun(pcbs: nat, steps: seq<Step>, i: nat)
    requires (BootInv(pcbs); RunRemovesOwnQuestions(Boot(pcbs), steps))
    requires i < |Reached(pcbs, steps).v.pcbs| && Reached(pcbs, steps).v.pcbs[i].state.Probing()
    ensures var v := Reached(pcbs, steps).v; AsksExactly(QuestionsOn(v.tx, i), v.pcbs[i].probeServices)
  {
    hide SystemInv, After, RunRemovesOwnQuestions, AsksExactly, QuestionsOn;
    var y := Boot(pcbs);
    BootInv(pcbs);
    assert AllExact(y.v) by {
      assert forall j :: 0 <= j < |y.v.pcbs| ==> y.v.pcbs[j] == DOWN;
    }
    AfterExact(y, steps);
    assert ExactAt(Reached(pcbs, steps).v, i);
  }
}
