/** Which services a probe asks about: exactly those being probed, unless a removal took another service's question. */
module Questions {
  import opened TxPacket
  import opened Responder
  import opened ResponderInvariant
  import opened ServiceRemoval

  /** The questions of the first packet of an interface, if there is one. */
  function QuestionsOn(tx: seq<Tx>, i: nat): seq<Question> {
    if On(tx, i) == [] then [] else On(tx, i)[0].questions
  }

  // ---------------------------------------------------------------- one removal

  lemma SweptQuestions(c: Pcb, p: Tx, s: Service)
    requires c.ready && c.state.Probing()
    ensures SweepOne(c, p, s).p.questions
         == if s in c.probeServices then DropQuestion(p.questions, s.kind) else p.questions
  {
    hide Without, DropQuestion, DropService;
  }

  /** A service being probed is removed: one question goes, the first about its kind. */
  lemma RemovedQuestion(v: Server, s: Service, i: nat)
    requires Inv(v) && i < |v.pcbs| && v.pcbs[i].state.Probing()
    ensures On(v.tx, i) != [] && IsProbe(v.pcbs[i], On(v.tx, i)[0])
    ensures QuestionsOn(RemoveService(v, s).tx, i)
         == if s in v.pcbs[i].probeServices then DropQuestion(QuestionsOn(v.tx, i), s.kind) else QuestionsOn(v.tx, i)
  {
    hide Sweep, SweepMine, On, SinceStart, SweepOne, DropQuestion, NoDuplicates, OnBeat, IsProbe;
    assert OkAt(v, i);
    SweepIsLocal(v.pcbs, v.tx, s, i);
    var c, mine := v.pcbs[i], On(v.tx, i);
    assert mine == [mine[0]];
    SweptQuestions(c, mine[0], s);
    OnlyPacketSwept(c, mine[0], s);
  }

  lemma OnlyPacketSwept(c: Pcb, p: Tx, s: Service)
    ensures SweepMine(c, [p], s).1 == if Blank(SweepOne(c, p, s).p) then [] else [SweepOne(c, p, s).p]
  {
    hide SweepOne, Blank;
    assert [p][1..] == [];
  }

  /**
   * Removing a service that an interface is probing leaves every other question of the probe exactly when the first
   * question about a service of its kind is its own; otherwise another one goes, and its own, if any, stays.
   */
  lemma RemovalTakesOwnQuestion(v: Server, s: Service, i: nat)
    requires Inv(v) && i < |v.pcbs| && v.pcbs[i].state.Probing() && s in v.pcbs[i].probeServices
    ensures var before, after := QuestionsOn(v.tx, i), QuestionsOn(RemoveService(v, s).tx, i);
            && ((forall t: Service :: t != s && Asks(before, Instance(t)) ==> Asks(after, Instance(t)))
                <==> OwnFirst(before, s))
            && (Asks(before, Instance(s)) ==> (Asks(after, Instance(s)) <==> !OwnFirst(before, s)))
  {
    hide RemoveService, On, OwnFirst, Inv, DropQuestion, Asks;
    RemovedQuestion(v, s, i);
    OthersStayAsked(QuestionsOn(v.tx, i), s);
  }

  /** So a probe that asks about exactly the services probed goes on doing so exactly under that condition. */
  lemma RemovalKeepsExactness(v: Server, s: Service, i: nat)
    requires Inv(v) && i < |v.pcbs| && v.pcbs[i].state.Probing() && s in v.pcbs[i].probeServices
    requires AsksExactly(QuestionsOn(v.tx, i), v.pcbs[i].probeServices)
    ensures i < |RemoveService(v, s).pcbs|
    ensures AsksExactly(QuestionsOn(RemoveService(v, s).tx, i), RemoveService(v, s).pcbs[i].probeServices)
       <==> OwnFirst(QuestionsOn(v.tx, i), s)
  {
    hide RemoveService, On, OwnFirst, Inv, DropQuestion, Asks, Plain;
    RemovalIsCompleteAndLocal(v, s);
    RemovedQuestion(v, s, i);
    RemovalTakesOwnQuestion(v, s, i);
    FirstOfKindGoes(QuestionsOn(v.tx, i), s.kind);
    RemovedServices(v, s, i);
  }

  lemma RemovedServices(v: Server, s: Service, i: nat)
    requires Inv(v) && i < |v.pcbs|
    ensures i < |RemoveService(v, s).pcbs|
    ensures forall t :: t in RemoveService(v, s).pcbs[i].probeServices <==> t in v.pcbs[i].probeServices && t != s
  {
    hide RemoveService, On, SinceStart, IsProbe, OnBeat;
    RemoveServiceOk(v, s);
    RemovalIsCompleteAndLocal(v, s);
    assert OkAt(v, i);
    DropServiceRest(v.pcbs[i].probeServices, s);
  }

  /** The condition always holds of probes for services of different kinds. */
  lemma DifferentKindsAreOwn(questions: seq<Question>, services: seq<Service>, s: Service)
    requires AsksExactly(questions, services) && s in services
    requires forall t :: t in services && t != s ==> t.kind != s.kind
    ensures OwnFirst(questions, s)
  {
    hide Asks;
    FirstOfKindIs(questions, s.kind);
    var b := FirstOfKind(questions, s.kind);
    if b.Some? {
      NoEchoAsked(questions, b.value);
    }
  }

  lemma NoEchoAsked(questions: seq<Question>, b: Subject)
    requires Plain(questions) && Asks(questions, b)
    ensures !b.Echo?
  {
  }

  // ---------------------------------------------------------------- a question that strays

  const ONE: Service := Service(1, 7)
  const TWO: Service := Service(2, 7)

  /** One interface probing two services of one kind for the first time. */
  function TwoAlike(): Server {
    var c := Pcb(true, Probe1, [ONE, TWO], false, true, 0);
    Server(0, 1, true, map[], [ONE, TWO], [c], [ProbePacket(0, 0, [ONE, TWO], true, false, map[]).(sendAt := 120)],
           [Started(0, 0)])
  }

  lemma TwoAlikeOk()
    ensures Inv(TwoAlike())
    ensures QuestionsOn(TwoAlike().tx, 0) == [Question(Instance(ONE), true), Question(Instance(TWO), true)]
  {
    hide IsProbe, Unicast;
    var v := TwoAlike();
    var c, p := v.pcbs[0], v.tx[0];
    ProbePacketIsProbe(0, 0, c, true, map[]);
    RescheduledProbe(c, ProbePacket(0, 0, [ONE, TWO], true, false, map[]), p);
    assert On(v.tx, 0) == [p];
    SinceStartAppend([], Started(0, 0), 0);
    assert [] + [Started(0, 0)] == v.log;
    assert OkAt(v, 0);
    TwoQuestions();
  }

  lemma TwoQuestions()
    ensures AddProbed(Draft([], []), [ONE, TWO], true).questions
         == [Question(Instance(ONE), true), Question(Instance(TWO), true)]
  {
    hide AddAnswer;
    var one := Draft([] + [Question(Instance(ONE), true)], AddAnswer([], SrvAnswer(ONE, false)));
    assert !Asks([], Instance(ONE)) && !Asks(one.questions, Instance(TWO));
    assert [ONE, TWO][1..] == [TWO] && [TWO][1..] == [];
    var two := Draft(one.questions + [Question(Instance(TWO), true)], AddAnswer(one.servers, SrvAnswer(TWO, false)));
    assert AddProbed(one, [TWO], true) == AddProbed(two, [], true) == two;
    assert AddProbed(Draft([], []), [ONE, TWO], true) == AddProbed(one, [TWO], true);
  }

  /** Removing the second leaves the first to be probed with a question about the one removed. */
  lemma QuestionStrays()
    ensures Inv(TwoAlike())
    ensures var w := RemoveService(TwoAlike(), TWO);
            && |w.pcbs| == 1 && w.pcbs[0].state == Probe1 && w.pcbs[0].probeServices == [ONE]
            && QuestionsOn(w.tx, 0) == [Question(Instance(TWO), true)]
  {
    hide RemoveService, On, ProbePacket;
    var v := TwoAlike();
    TwoAlikeOk();
    RemoveServiceOk(v, TWO);
    RemovalIsCompleteAndLocal(v, TWO);
    RemovedQuestion(v, TWO, 0);
    assert [ONE, TWO][1..] == [TWO] && [TWO][1..] == [];
    assert DropService([TWO], TWO) == [] && DropService([ONE, TWO], TWO) == [ONE];
    assert QuestionsOn(v.tx, 0)[1..] == [Question(Instance(TWO), true)];
    StillProbing(v, TWO, 0);
  }

  lemma StillProbing(v: Server, s: Service, i: nat)
    requires Inv(v) && i < |v.pcbs| && v.pcbs[i].state.Probing() && |v.pcbs[i].probeServices| > 1
    ensures i < |RemoveService(v, s).pcbs| && RemoveService(v, s).pcbs[i].state == v.pcbs[i].state
  {
    hide Sweep, On, SinceStart, IsProbe, OnBeat, NoDuplicates, Without, DropQuestion, DropService;
    assert OkAt(v, i);
    SweepIsLocal(v.pcbs, v.tx, s, i);
    var mine := On(v.tx, i);
    assert mine == [mine[0]] + [];
  }
}
