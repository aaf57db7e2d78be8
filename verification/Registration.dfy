/** On every run: packets and probe lists refer to registered services only. */
module Registration {
  import opened Options
  import opened TxPacket
  import opened Responder
  import opened ResponderInvariant
  import opened ServiceRemoval
  import opened Agreement
  import opened Machine
  import opened MachineInvariant
  import opened Runs
  import opened Questions
  import opened QuestionRuns
  import opened References

  /** The operation names registered services only. */
  predicate Names(v: Server, op: Op) {
    match op
    case SetServiceInstance(s) => s in v.services
    case UpdateService(s, _) => s in v.services
    case SrvCollision(_, s, _) => s in v.services
    case TxtCollision(_, s) => s in v.services
    case Asked(_, _, _, answers, additional, _) => Within(answers, v.services) && Within(additional, v.services)
    case _ => true
  }

  lemma RefersMore(v: Server, w: Server, services: seq<Service>, more: seq<Service>)
    requires Refers(v, services) && Among(services, more)
    requires (w.tx == v.tx || w.tx == []) && |w.pcbs| == |v.pcbs|
    requires forall i :: 0 <= i < |v.pcbs| ==> w.pcbs[i].probeServices == v.pcbs[i].probeServices
    ensures Refers(w, more)
  {
    forall p | p in w.tx
      ensures PacketWithin(p, more)
    {
      assert PacketWithin(p, services);
    }
    forall i | 0 <= i < |w.pcbs|
      ensures Among(w.pcbs[i].probeServices, more)
    {
      assert Among(v.pcbs[i].probeServices, services);
    }
  }

  lemma RestartsRegistered(v: Server, w: Server, randoms: seq<nat>, unnamed: set<nat>)
    requires Registered(v) && |w.pcbs| == |v.pcbs| <= |randoms| && w.services == v.services && w.tx == v.tx
    requires forall i :: 0 <= i < |v.pcbs| ==> w.pcbs[i].probeServices == v.pcbs[i].probeServices
    ensures Registered(RestartAll(w, randoms)) && Registered(RestartUnnamed(w, unnamed, randoms))
  {
    hide Refers, ProbeAllFrom, Unnamed;
    RefersMore(v, w, v.services, v.services);
    RefersMore(v, w.(tx := []), v.services, v.services);
    ProbeAllRefers(w.(tx := []), 0, w.services, true, true, randoms, w.services);
    ProbeAllRefers(w, 0, Unnamed(w.services, unnamed), false, true, randoms, w.services);
  }

  lemma CollisionRegistered(v: Server, i: nat, s: Service, rename: Rename, randoms: seq<nat>)
    requires Registered(v) && |v.pcbs| <= |randoms| && KnownPcbs(v.tx, v.pcbs) && s in v.services
    ensures Registered(Apply(v, SrvCollision(i, s, rename), randoms))
  {
    hide Refers, ProbeAllFrom, InitProbe, RestartAll, RestartUnnamed;
    if i < |v.pcbs| {
      var w := CountFailure(v, i);
      RefersMore(v, w, v.services, v.services);
      InitProbeRefers(v, i, [s], false, randoms[i], v.services);
      ProbeAllRefers(w, 0, [s], false, false, randoms, v.services);
      RestartsRegistered(v, w, randoms, if rename.OfDefault? then rename.unnamed else {});
    }
  }

  lemma DeleteRegistered(v: Server, op: Op, randoms: seq<nat>)
    requires Inv(v) && Registered(v) && |v.pcbs| <= |randoms| && KnownPcbs(v.tx, v.pcbs)
    requires op.DeleteService? || op.DeleteAllServices?
    ensures Registered(Apply(v, op, randoms))
  {
    hide Inv, Refers, RemoveServices;
    hide Sweep;
    InvServices(v);
    match op {
      case DeleteService(s) =>
        if s in v.services {
          var w := v.(services := DropService(v.services, s));
          DropServiceRest(v.services, s);
          SameForInv(v, w);
          RefersMore(v, w, v.services, v.services);
          RemovalRefers(w, s, v.services, w.services);
        }
      case DeleteAllServices =>
        var w := v.(services := []);
        NoServicesDistinct();
        SameForInv(v, w);
        RefersMore(v, w, v.services, v.services);
        RemovalsRefer(w, v.services);
        RemovalsList(w, v.services);
    }
  }

  lemma DisableRegistered(v: Server, i: nat)
    requires i < |v.pcbs| && Registered(v)
    ensures Registered(v.(tx := WithoutPcb(v.tx, i), pcbs := v.pcbs[i := DOWN]))
  {
    hide WithoutPcb, PacketWithin;
  }

  lemma AnswersRegistered(v: Server, op: Op)
    requires op.Asked? && op.pcb < |v.pcbs| && Registered(v) && Names(v, op)
    ensures Registered(Answers(v, op.pcb, op.distributed, op.echoes, op.answers, op.additional, op.after))
  {
    hide Insert, Within;
    if v.pcbs[op.pcb].state.Rank() > 5 {
      assert Within([], v.services) by {
        NothingWithin(v.services);
      }
      var p := Tx(v.nextId, op.pcb, 0, false, op.distributed,
                  seq(|op.echoes|, k requires 0 <= k < |op.echoes| => Question(Echo(op.echoes[k]), false)),
                  op.answers, [], op.additional);
      ScheduledRefers(v.(nextId := v.nextId + 1), p, op.after, v.services);
    }
  }

  lemma NothingWithin(services: seq<Service>)
    ensures Within([], services)
  {
  }

  /** Every operation that names registered services keeps what is queued and probed registered. */
  lemma ApplyRegistered(v: Server, op: Op, randoms: seq<nat>)
    requires Inv(v) && Registered(v) && |v.pcbs| <= |randoms| && KnownPcbs(v.tx, v.pcbs) && Names(v, op)
    ensures Registered(Apply(v, op, randoms))
  {
    hide Inv, Refers, ProbeAllFrom, RestartAll, RestartUnnamed, InitProbe, Announce, AnnounceAllFrom, Answers,
      RetractAnswer, RemoveService, RemoveServices, WithoutPcb, Within;
    match op
    case Enable(i, up) =>
      if i < |v.pcbs| {
        var w := v.(pcbs := v.pcbs[i := v.pcbs[i].(ready := true)]);
        RefersMore(v, w, v.services, v.services);
        InitProbeRefers(w, i, v.services, true, randoms[i], v.services);
      }
    case Disable(i) =>
      if i < |v.pcbs| {
        DisableRegistered(v, i);
      }
    case AnnounceAddress(i) =>
      if i < |v.pcbs| {
        AnnounceRefers(v, i, [], true, randoms[i], v.services);
      }
    case SetHostname => RestartsRegistered(v, v.(hostSet := true), randoms, {});
    case SetHosts(hosts) => RefersMore(v, v.(hosts := hosts), v.services, v.services);
    case SetInstance(unnamed) => RestartsRegistered(v, v, randoms, unnamed);
    case AddService(s) =>
      var more := [s] + v.services;
      RefersMore(v, v.(services := more), v.services, more);
      ProbeAllRefers(v.(services := more), 0, [s], false, false, randoms, more);
    case SetServiceInstance(s) => ProbeAllRefers(v, 0, [s], false, false, randoms, v.services);
    case UpdateService(s, ip) => AnnounceAllRefers(v, 0, [s], ip, randoms, v.services);
    case DeleteService(s) => DeleteRegistered(v, op, randoms);
    case DeleteAllServices => DeleteRegistered(v, op, randoms);
    case SrvCollision(i, s, rename) => CollisionRegistered(v, i, s, rename, randoms);
    case TxtCollision(i, s) =>
      if i < |v.pcbs| {
        InitProbeRefers(v, i, [s], true, randoms[i], v.services);
      }
    case AddressCollision(i) =>
      if i < |v.pcbs| {
        RestartsRegistered(v, CountFailure(v, i), randoms, {});
        InitProbeRefers(v, i, [], true, randoms[i], v.services);
      }
    case Asked(i, distributed, echoes, answers, additional, after) =>
      if i < |v.pcbs| {
        AnswersRegistered(v, op);
      }
    case AnsweredByOther(i, what, service) =>
      RetractRegistered(v, i, what, service);
  }

  lemma RetractRegistered(v: Server, i: nat, what: AnswerType, service: Option<Service>)
    requires Registered(v)
    ensures Registered(v.(tx := RetractAnswer(v.tx, i, what, service)))
  {
    hide RetractAnswer, PacketWithin;
    RetractWithin(v.tx, i, what, service, v.services);
  }

  lemma SentRegistered(v: Server)
    requires v.tx != [] && v.tx[0].pcb < |v.pcbs| && Registered(v)
    ensures Registered(Handle(v.(tx := v.tx[1..]), v.tx[0].(queued := false)))
  {
    hide Handle, Insert, AnnouncedAnswers, Within;
    var u, p := v.(tx := v.tx[1..]), v.tx[0].(queued := false);
    HandleDoes(u, p);
    assert v.tx[0] in v.tx && PacketWithin(p, v.services);
    AnnouncedFromWithin(v, p);
    var w := Handle(u, p);
    forall i | 0 <= i < |w.pcbs|
      ensures Among(w.pcbs[i].probeServices, v.services)
    {
      assert Among(v.pcbs[i].probeServices, v.services);
    }
  }

  lemma AnnouncedFromWithin(v: Server, p: Tx)
    requires PacketWithin(p, v.services)
    ensures PacketWithin(AnnounceFrom(v.nextId, p, v.hosts), v.services)
  {
    hide AnnouncedAnswers;
    AnnouncedWithin([], p.servers, v.hosts, v.services);
  }

  lemma MarkedRegistered(v: Server, w: Server)
    requires Registered(v) && Marked(v.tx, w.tx) && w == v.(tx := w.tx)
    ensures Registered(w)
  {
    hide Within;
    forall q | q in w.tx
      ensures PacketWithin(q, w.services)
    {
      var i :| 0 <= i < |w.tx| && w.tx[i] == q;
      assert v.tx[i] in v.tx;
    }
  }

  /** The step, if it executes an operation, executes one that names registered services. */
  predicate NamingStep(y: System, step: Step) {
    step.Execute? && y.current.Some? && y.current.value.Do? ==> Names(y.v, y.current.value.op)
  }

  lemma NextRegistered(y: System, step: Step)
    requires SystemInv(y) && Registered(y.v) && KnownPcbs(y.v.tx, y.v.pcbs) && NamingStep(y, step)
    ensures Registered(Next(y, step).v)
  {
    hide Inv, Agrees, Apply, Handle, Names, FirstUnposted, PacketWithin;
    match step
    case Tick(ms) =>
    case Timer(memory) =>
      var z := TimerRound(y, memory);
      if z != y {
        assert Marked(y.v.tx, z.v.tx);
        MarkedRegistered(y.v, z.v);
      }
    case Post(op) =>
    case Take =>
    case Execute(randoms) =>
      if y.current.Some? && |randoms| >= |y.v.pcbs| {
        match y.current.value
        case Send(id) =>
          if y.v.tx != [] && y.v.tx[0].id == id && y.v.tx[0].queued {
            assert y.v.tx[0] in y.v.tx;
            SentRegistered(y.v);
          }
        case Do(op) => ApplyRegistered(y.v, op, randoms);
      }
  }

  // ---------------------------------------------------------------- runs

  /** A run whose operations, when executed, name registered services only. */
  ghost predicate NamingRun(y: System, steps: seq<Step>)
    requires SystemInv(y)
    decreases |steps|
  {
    if steps == [] then true
    else
      NextInv(y, steps[0]);
      NamingStep(y, steps[0]) && NamingRun(Next(y, steps[0]), steps[1..])
  }

  lemma {:induction false} AfterRegistered(y: System, steps: seq<Step>)
    requires SystemInv(y) && Registered(y.v) && NamingRun(y, steps)
    ensures Registered(After(y, steps).v)
    decreases |steps|
  {
    hide Inv, Agrees, Next, Refers, NamingStep;
    if steps != [] {
      InvServices(y.v);
      NextRegistered(y, steps[0]);
      NextInv(y, steps[0]);
      AfterRegistered(Next(y, steps[0]), steps[1..]);
    }
  }

  lemma BootRegistered(pcbs: nat)
    ensures Registered(Boot(pcbs).v) && AllExact(Boot(pcbs).v)
  {
    var v := Boot(pcbs).v;
    assert forall j :: 0 <= j < |v.pcbs| ==> v.pcbs[j] == DOWN;
  }

  /**
   * On every run whose operations name registered services: every service on a probe list and every service that a
   * queued packet has an answer about is registered.
   */
  lemma ServicesAreRegisteredOnEveryRun(pcbs: nat, steps: seq<Step>)
    requires (BootInv(pcbs); NamingRun(Boot(pcbs), steps))
    ensures Registered(Reached(pcbs, steps).v)
  {
    hide SystemInv, After, NamingRun, Refers;
    BootInv(pcbs);
    BootRegistered(pcbs);
    AfterRegistered(Boot(pcbs), steps);
  }

  // ---------------------------------------------------------------- services of different kinds

  predicate KindsDiffer(services: seq<Service>) {
    forall s, t :: s in services && t in services && s != t ==> s.kind != t.kind
  }

  lemma DifferentKindsGo(v: Server, s: Service, services: seq<Service>)
    requires Refers(v, services) && KindsDiffer(services) && AllExact(v)
    ensures OwnQuestionGoes(v, s)
  {
    hide AsksExactly, QuestionsOn, OwnFirst, PacketWithin;
    forall i | 0 <= i < |v.pcbs| && v.pcbs[i].state.Probing() && s in v.pcbs[i].probeServices
      ensures OwnFirst(QuestionsOn(v.tx, i), s)
    {
      assert ExactAt(v, i) && Among(v.pcbs[i].probeServices, services);
      DifferentKindsAreOwn(QuestionsOn(v.tx, i), v.pcbs[i].probeServices, s);
    }
  }

  lemma {:induction false} DifferentKindsAllGo(v: Server, gone: seq<Service>, services: seq<Service>)
    requires Inv(v) && Refers(v, services) && KindsDiffer(services) && AllExact(v)
    ensures KnownPcbs(v.tx, v.pcbs) && OwnQuestionsGo(v, gone)
    decreases |gone|
  {
    hide Inv, RemoveService, Refers, AllExact, OwnQuestionGoes, KindsDiffer;
    InvServices(v);
    if gone != [] {
      DifferentKindsGo(v, gone[0], services);
      RemovalExactIffOwnQuestionGoes(v, gone[0]);
      RemoveServiceOk(v, gone[0]);
      RemovalRefers(v, gone[0], services, services);
      SweepKnown(v.pcbs, v.tx, gone[0]);
      DifferentKindsAllGo(RemoveService(v, gone[0]), gone[1..], services);
    }
  }

  /** Before each step no two registered services are of one kind. */
  ghost predicate KindsDifferRun(y: System, steps: seq<Step>)
    requires SystemInv(y)
    decreases |steps|
  {
    if steps == [] then true
    else
      NextInv(y, steps[0]);
      KindsDiffer(y.v.services) && KindsDifferRun(Next(y, steps[0]), steps[1..])
  }

  lemma DifferentKindsStep(y: System, step: Step)
    requires SystemInv(y) && Registered(y.v) && AllExact(y.v) && KindsDiffer(y.v.services)
    ensures KnownPcbs(y.v.tx, y.v.pcbs) && StepRemovesOwnQuestions(y, step)
  {
    hide Inv, Agrees, Refers, AllExact, OwnQuestionGoes, OwnQuestionsGo, KindsDiffer;
    InvServices(y.v);
    if step.Execute? && y.current.Some? && y.current.value.Do? {
      match y.current.value.op
      case DeleteService(s) => DifferentKindsGo(y.v, s, y.v.services);
      case DeleteAllServices =>
        var w := y.v.(services := []);
        NoServicesDistinct();
        SameForInv(y.v, w);
        OtherFieldsExact(y.v, w);
        RefersMore(y.v, w, y.v.services, y.v.services);
        DifferentKindsAllGo(w, y.v.services, y.v.services);
      case _ =>
    }
  }

  lemma {:induction false} DifferentKindsRun(y: System, steps: seq<Step>)
    requires SystemInv(y) && Registered(y.v) && AllExact(y.v) && NamingRun(y, steps) && KindsDifferRun(y, steps)
    ensures RunRemovesOwnQuestions(y, steps)
    decreases |steps|
  {
    hide Inv, Agrees, Next, Refers, AllExact, NamingStep, StepRemovesOwnQuestions, KindsDiffer;
    if steps != [] {
      DifferentKindsStep(y, steps[0]);
      NextRegistered(y, steps[0]);
      NextExact(y, steps[0]);
      NextInv(y, steps[0]);
      DifferentKindsRun(Next(y, steps[0]), steps[1..]);
    }
  }

  /**
   * So as long as no two services of one kind are registered at the same time, every probe asks about exactly the
   * services being probed, on every run whose operations name registered services.
   */
  lemma DifferentKindsAskExactly(pcbs: nat, steps: seq<Step>, i: nat)
    requires (BootInv(pcbs); NamingRun(Boot(pcbs), steps) && KindsDifferRun(Boot(pcbs), steps))
    requires i < |Reached(pcbs, steps).v.pcbs| && Reached(pcbs, steps).v.pcbs[i].state.Probing()
    ensures var v := Reached(pcbs, steps).v; AsksExactly(QuestionsOn(v.tx, i), v.pcbs[i].probeServices)
  {
    hide SystemInv, After, RunRemovesOwnQuestions, NamingRun, KindsDifferRun, AsksExactly, QuestionsOn, Refers,
      AllExact;
    BootInv(pcbs);
    BootRegistered(pcbs);
    DifferentKindsRun(Boot(pcbs), steps);
    ProbesAskExactlyOnEveryRun(pcbs, steps, i);
  }
}
