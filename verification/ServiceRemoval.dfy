/** `_mdns_remove_scheduled_service_packets`: removing a service is complete, local, and keeps the invariant. */
module ServiceRemoval {
  import opened Options
  import opened TxPacket
  import opened Responder
  import opened ResponderInvariant

  // ---------------------------------------------------------------- removing a service

  /** The sweep as one interface sees it. */
  function SweepMine(c: Pcb, mine: seq<Tx>, s: Service): (r: (Pcb, seq<Tx>))
    decreases |mine|
  {
    if mine == [] then (c, [])
    else
      var o := SweepOne(c, mine[0], s);
      var rest := SweepMine(o.c, mine[1..], s);
      (rest.0, (if Blank(o.p) then [] else [o.p]) + rest.1)
  }

  /** Interfaces do not mix. */
  lemma {:induction false} SweepIsLocal(pcbs: seq<Pcb>, tx: seq<Tx>, s: Service, j: nat)
    requires KnownPcbs(tx, pcbs) && j < |pcbs|
    ensures Sweep(pcbs, tx, s).pcbs[j] == SweepMine(pcbs[j], On(tx, j), s).0
    ensures On(Sweep(pcbs, tx, s).tx, j) == SweepMine(pcbs[j], On(tx, j), s).1
    decreases |tx|
  {
    hide SweepOne, Blank;
    if tx != [] {
      var i, o := tx[0].pcb, SweepOne(pcbs[tx[0].pcb], tx[0], s);
      SweptSlot(pcbs[i], tx[0], s);
      SweepIsLocal(pcbs[i := o.c], tx[1..], s, j);
      OnPrepended(o.p, Blank(o.p), Sweep(pcbs[i := o.c], tx[1..], s).tx, j);
      if i == j {
        assert On(tx, j) == [tx[0]] + On(tx[1..], j);
      }
    }
  }

  lemma OnPrepended(p: Tx, dropped: bool, rest: seq<Tx>, j: nat)
    ensures On((if dropped then [] else [p]) + rest, j)
         == (if dropped || p.pcb != j then [] else [p]) + On(rest, j)
  {
    if dropped {
      assert [] + rest == rest;
    } else {
      assert ([p] + rest)[1..] == rest;
    }
  }

  lemma SweptSlot(c: Pcb, p: Tx, s: Service)
    ensures SameSlot(p, SweepOne(c, p, s).p)
  {
    hide Without, DropQuestion, DropService;
  }

  /** Every packet left was there before, under the same identity and for the same time. */
  lemma {:induction false} SweepOrigin(pcbs: seq<Pcb>, tx: seq<Tx>, s: Service, q: Tx) returns (p: Tx)
    requires KnownPcbs(tx, pcbs) && q in Sweep(pcbs, tx, s).tx
    ensures p in tx && SameSlot(p, q)
    decreases |tx|
  {
    var o := SweepOne(pcbs[tx[0].pcb], tx[0], s);
    SweptSlot(pcbs[tx[0].pcb], tx[0], s);
    if q == o.p {
      p := tx[0];
    } else {
      p := SweepOrigin(pcbs[tx[0].pcb := o.c], tx[1..], s, q);
    }
  }

  lemma {:induction false} SweepQueue(pcbs: seq<Pcb>, tx: seq<Tx>, s: Service)
    requires KnownPcbs(tx, pcbs) && Sorted(tx) && DistinctIds(tx)
    ensures var r := Sweep(pcbs, tx, s); Sorted(r.tx) && DistinctIds(r.tx)
    decreases |tx|
  {
    hide Sorted, DistinctIds, SweepOne, Blank;
    if tx == [] {
    } else {
      var o := SweepOne(pcbs[tx[0].pcb], tx[0], s);
      SweptSlot(pcbs[tx[0].pcb], tx[0], s);
      var next := pcbs[tx[0].pcb := o.c];
      Tail(tx);
      SweepQueue(next, tx[1..], s);
      var rest := Sweep(next, tx[1..], s).tx;
      forall q | q in rest
        ensures o.p.sendAt <= q.sendAt && o.p.id != q.id
      {
        var p := SweepOrigin(next, tx[1..], s, q);
      }
      Cons(o.p, rest);
      assert [] + rest == rest;
    }
  }

  // ---------------------------------------------------------------- which question goes

  /** What the first question about a kind of service asks about. */
  function FirstOfKind(questions: seq<Question>, kind: nat): (b: Option<Subject>) {
    if questions == [] then None
    else if AsksKind(questions[0], kind) then Some(questions[0].about)
    else FirstOfKind(questions[1..], kind)
  }

  lemma {:induction false} FirstOfKindIs(questions: seq<Question>, kind: nat)
    ensures var b := FirstOfKind(questions, kind);
            && (b.Some? ==> Asks(questions, b.value) && AsksKind(Question(b.value, true), kind))
            && (b.None? ==> forall i :: 0 <= i < |questions| ==> !AsksKind(questions[i], kind))
  {
    if questions != [] && !AsksKind(questions[0], kind) {
      FirstOfKindIs(questions[1..], kind);
      var b := FirstOfKind(questions, kind);
      if b.Some? {
        AskedByParts(questions, b.value);
      } else {
        assert forall i :: 1 <= i < |questions| ==> questions[i] == questions[1..][i - 1];
      }
    }
  }

  /** The first question about the service's kind, if there is one, is about the service itself. */
  predicate OwnFirst(questions: seq<Question>, s: Service) {
    var b := FirstOfKind(questions, s.kind);
    b == None || b == Some(Instance(s))
  }

  lemma AskedByParts(questions: seq<Question>, b: Subject)
    requires questions != []
    ensures Asks(questions, b) <==> questions[0].about == b || Asks(questions[1..], b)
    ensures Plain(questions) ==> Plain(questions[1..]) && !Asks(questions[1..], questions[0].about)
  {
    if Asks(questions[1..], b) {
      var i :| 0 <= i < |questions| - 1 && questions[1..][i].about == b;
      assert questions[i + 1].about == b;
    }
    if Asks(questions, b) {
      var i :| 0 <= i < |questions| && questions[i].about == b;
      assert i > 0 ==> questions[1..][i - 1].about == b;
    }
  }

  lemma PlainCons(q: Question, rest: seq<Question>)
    requires Plain(rest) && !Asks(rest, q.about) && !q.about.Echo?
    ensures Plain([q] + rest)
  {
  }

  /** What is asked about afterwards is what was asked about before, less the first question of that kind. */
  lemma {:induction false} FirstOfKindGoes(questions: seq<Question>, kind: nat)
    requires Plain(questions)
    ensures Plain(DropQuestion(questions, kind))
    ensures forall b :: Asks(DropQuestion(questions, kind), b)
                   <==> Asks(questions, b) && FirstOfKind(questions, kind) != Some(b)
    decreases |questions|
  {
    if questions != [] {
      var r := DropQuestion(questions, kind);
      AskedByParts(questions, questions[0].about);
      if !AsksKind(questions[0], kind) {
        FirstOfKindGoes(questions[1..], kind);
        FirstOfKindIs(questions[1..], kind);
        PlainCons(questions[0], DropQuestion(questions[1..], kind));
        assert r[1..] == DropQuestion(questions[1..], kind);
      }
      forall b
        ensures Asks(r, b) <==> Asks(questions, b) && FirstOfKind(questions, kind) != Some(b)
      {
        AskedByParts(questions, b);
        if !AsksKind(questions[0], kind) {
          AskedByParts(r, b);
        }
      }
    }
  }

  /**
   * Removing a service takes its own question, and leaves the others, exactly when no other service of its kind is
   * asked about first.
   */
  lemma OthersStayAsked(questions: seq<Question>, s: Service)
    requires Plain(questions)
    ensures var r := DropQuestion(questions, s.kind);
            && ((forall t: Service :: t != s && Asks(questions, Instance(t)) ==> Asks(r, Instance(t)))
                <==> OwnFirst(questions, s))
            && (Asks(questions, Instance(s)) ==> (Asks(r, Instance(s)) <==> !OwnFirst(questions, s)))
  {
    hide DropQuestion, FirstOfKind;
    FirstOfKindGoes(questions, s.kind);
    FirstOfKindIs(questions, s.kind);
    var b := FirstOfKind(questions, s.kind);
    if b.Some? && b.value != Instance(s) {
      var i :| 0 <= i < |questions| && questions[i].about == b.value;
      assert b.value.Instance? && !Asks(DropQuestion(questions, s.kind), Instance(b.value.service));
    }
    if Asks(questions, Instance(s)) {
      var i :| 0 <= i < |questions| && questions[i].about == Instance(s);
      assert AsksKind(questions[i], s.kind);
    }
  }

  lemma WithoutKeepsOthers(servers: seq<Answer>, s: Service)
    ensures ProposesHost(servers) ==> ProposesHost(Without(servers, s))
    ensures forall t :: t != s && Proposes(servers, t) ==> Proposes(Without(servers, s), t)
  {
    var r := Without(servers, s);
    if ProposesHost(servers) {
      var k :| 0 <= k < |servers| && servers[k].service == None;
      assert servers[k] in servers && servers[k] in r;
    }
    forall t | t != s && Proposes(servers, t)
      ensures Proposes(r, t)
    {
      var k :| 0 <= k < |servers| && servers[k].what == Srv && servers[k].service == Some(t);
      assert servers[k] in servers && servers[k] in r;
    }
  }

  lemma {:induction false} DropServiceRest(services: seq<Service>, s: Service)
    requires NoDuplicates(services)
    ensures NoDuplicates(DropService(services, s))
    ensures forall x :: x in DropService(services, s) <==> x in services && x != s
    ensures s in services ==> |DropService(services, s)| == |services| - 1
  {
    if services != [] {
      assert forall i :: 0 <= i < |services| - 1 ==> services[1..][i] == services[i + 1];
      DropServiceRest(services[1..], s);
      var r := DropService(services[1..], s);
      assert forall k :: 0 <= k < |r| ==> r[k] in services[1..];
    }
  }

  /** The probe of an interface that goes on probing after a sweep. */
  lemma SweptProbe(c: Pcb, p: Tx, sent: seq<Event>, s: Service)
    requires c.state.Probing() && FieldsOk(c) && IsProbe(c, p) && OnBeat(c, p, sent)
    ensures var o := SweepOne(c, p, s);
            && FieldsOk(o.c) && s !in o.c.probeServices
            && (o.c.state.Probing() ==>
                  && o.c.state == c.state && IsProbe(o.c, o.p) && OnBeat(o.c, o.p, sent) && !Blank(o.p))
  {
    hide Without, DropQuestion, DropService;
    WithoutKeepsOthers(p.servers, s);
    DropServiceRest(c.probeServices, s);
    var o := SweepOne(c, p, s);
    assert Without([], s) == [] by {
      WithoutNothing(s);
    }
    SweptServices(c, p, s);
    if o.c.state.Probing() {
      SweptIsProbe(c, p, s);
      ProbeNotBlank(o.c, o.p);
    }
  }

  lemma WithoutNothing(s: Service)
    ensures Without([], s) == []
  {
  }

  lemma SweptServices(c: Pcb, p: Tx, s: Service)
    requires c.state.Probing() && FieldsOk(c)
    ensures var d := SweepOne(c, p, s).c;
            && FieldsOk(d) && s !in d.probeServices && d.probeIp == c.probeIp && d.ready == c.ready
            && (forall x :: x in d.probeServices <==> x in c.probeServices && x != s)
            && (d.state == c.state || (d.state == Running && d.probeServices == [] && !d.probeIp))
  {
    hide Without, DropQuestion, DropService;
    DropServiceRest(c.probeServices, s);
    if s in c.probeServices && |c.probeServices| <= 1 {
      assert c.probeServices == [s];
    }
  }

  lemma SweptIsProbe(c: Pcb, p: Tx, s: Service)
    requires c.state.Probing() && FieldsOk(c) && IsProbe(c, p) && SweepOne(c, p, s).c.state.Probing()
    ensures IsProbe(SweepOne(c, p, s).c, SweepOne(c, p, s).p)
  {
    hide DropQuestion, DropService, Proposes, ProposesHost, Plain;
    FirstOfKindGoes(p.questions, s.kind);
    SweptServices(c, p, s);
    WithoutKeepsOthers(p.servers, s);
    var o := SweepOne(c, p, s);
    assert o.p.servers == Without(p.servers, s);
  }

  lemma ProbeNotBlank(c: Pcb, p: Tx)
    requires FieldsOk(c) && c.state.Probing() && IsProbe(c, p)
    ensures !Blank(p)
  {
    if c.probeServices != [] {
      assert c.probeServices[0] in c.probeServices;
    }
  }

  /** An interface that is not probing only ever falls back to running. */
  lemma {:induction false} SweepNotProbing(c: Pcb, mine: seq<Tx>, s: Service)
    requires FieldsOk(c) && !c.state.Probing()
    ensures var r := SweepMine(c, mine, s).0; FieldsOk(r) && !r.state.Probing() && r.probeServices == []
    decreases |mine|
  {
    hide Without, DropQuestion, DropService;
    if mine != [] {
      SweepNotProbing(SweepOne(c, mine[0], s).c, mine[1..], s);
    }
  }

  lemma SweepMineOk(c: Pcb, mine: seq<Tx>, sent: seq<Event>, hostSet: bool, s: Service)
    requires PcbOk(c, mine, sent, hostSet)
    ensures var r := SweepMine(c, mine, s); PcbOk(r.0, r.1, sent, hostSet) && s !in r.0.probeServices
  {
    hide SweepOne, FieldsOk, OnBeat, IsProbe, Blank;
    if c.state.Probing() {
      SweptProbe(c, mine[0], sent, s);
      assert mine == [mine[0]] + [];
    } else {
      SweepNotProbing(c, mine, s);
    }
  }

  lemma RemoveServiceOk(v: Server, s: Service)
    requires Inv(v)
    ensures var w := RemoveService(v, s);
            Inv(w) && |w.pcbs| == |v.pcbs| && w.services == v.services
            && forall i :: 0 <= i < |w.pcbs| ==> s !in w.pcbs[i].probeServices
  {
    hide Sweep, SweepMine, On, SinceStart, PcbOk, Sorted, DistinctIds, NoDuplicates;
    var w := RemoveService(v, s);
    SweepQueue(v.pcbs, v.tx, s);
    SweepKnown(v.pcbs, v.tx, s);
    forall q | q in w.tx
      ensures q.id < w.nextId
    {
      var p := SweepOrigin(v.pcbs, v.tx, s, q);
    }
    forall i | 0 <= i < |w.pcbs|
      ensures OkAt(w, i) && s !in w.pcbs[i].probeServices
    {
      assert OkAt(v, i);
      SweepIsLocal(v.pcbs, v.tx, s, i);
      SweepMineOk(v.pcbs[i], On(v.tx, i), SinceStart(v.log, i), v.hostSet, s);
    }
  }

  // ---------------------------------------------------------------- removal is complete and local

  predicate Mentions(list: seq<Answer>, s: Service) {
    exists k :: 0 <= k < |list| && list[k].service == Some(s)
  }

  predicate MentionedIn(p: Tx, s: Service) {
    Mentions(p.answers, s) || Mentions(p.servers, s) || Mentions(p.additional, s)
  }

  /** `q` is `p` without its answers about `s` and at most one question; whatever else it says is said in the same order. */
  predicate Trimmed(p: Tx, q: Tx, s: Service) {
    && SameSlot(p, q) && p.distributed == q.distributed
    && q.answers == Without(p.answers, s) && q.servers == Without(p.servers, s) && q.additional == Without(p.additional, s)
    && (q.questions == p.questions || q.questions == DropQuestion(p.questions, s.kind))
  }

  /** `r` is `tx` with every packet trimmed and those with nothing left to say taken out. */
  predicate Survivors(tx: seq<Tx>, r: seq<Tx>, s: Service)
    decreases |tx|
  {
    if tx == [] then r == []
    else
      || (r != [] && Trimmed(tx[0], r[0], s) && !Blank(r[0]) && Survivors(tx[1..], r[1..], s))
      || (Vanishes(tx[0], s) && Survivors(tx[1..], r, s))
  }

  /** Apart from one question about its kind, the packet was only about `s`. */
  predicate Vanishes(p: Tx, s: Service) {
    && Without(p.answers, s) == [] && Without(p.servers, s) == [] && Without(p.additional, s) == []
    && (p.questions == [] || DropQuestion(p.questions, s.kind) == [])
  }

  /** The answers left keep their order: what is left of two lists in a row is what is left of each. */
  lemma {:induction false} WithoutJoin(a: seq<Answer>, b: seq<Answer>, s: Service)
    ensures Without(a + b, s) == Without(a, s) + Without(b, s)
    decreases |a|
  {
    if a == [] {
      assert a + b == b;
    } else {
      assert (a + b)[1..] == a[1..] + b;
      WithoutJoin(a[1..], b, s);
    }
  }

  lemma SweptIsTrimmed(c: Pcb, p: Tx, s: Service)
    ensures Trimmed(p, SweepOne(c, p, s).p, s)
    ensures Blank(SweepOne(c, p, s).p) ==> Vanishes(p, s)
    ensures !MentionedIn(SweepOne(c, p, s).p, s)
  {
    hide DropService, DropQuestion;
    var q := SweepOne(c, p, s).p;
    forall list: seq<Answer> | list == q.answers || list == q.servers || list == q.additional
      ensures !Mentions(list, s)
    {
      forall k | 0 <= k < |list|
        ensures list[k].service != Some(s)
      {
        assert list[k] in list;
      }
    }
  }

  /**
   * Service removal, complete and local: afterwards no answer, server or additional list of a queued packet and no
   * probe list refers to the service; the packets left are the old ones in their old order, each saying what it said
   * before, less the answers about the service and at most one question.  Which question is the subject of `Questions`.
   */
  lemma RemovalIsCompleteAndLocal(v: Server, s: Service)
    requires Inv(v)
    ensures var w := RemoveService(v, s);
            && (forall p :: p in w.tx ==> !MentionedIn(p, s))
            && (forall i :: 0 <= i < |w.pcbs| ==> s !in w.pcbs[i].probeServices)
            && Survivors(v.tx, w.tx, s)
            && (forall i :: 0 <= i < |w.pcbs| ==> w.pcbs[i].probeServices == DropService(v.pcbs[i].probeServices, s))
            && (forall i :: 0 <= i < |w.pcbs| ==> w.pcbs[i].probeIp == v.pcbs[i].probeIp)
  {
    hide Sweep, SweepMine, On, SinceStart, Survivors, MentionedIn, FieldsOk, IsProbe, OnBeat;
    RemoveServiceOk(v, s);
    SweepSurvivors(v.pcbs, v.tx, s);
    var w := RemoveService(v, s);
    forall i | 0 <= i < |w.pcbs|
      ensures w.pcbs[i].probeServices == DropService(v.pcbs[i].probeServices, s)
      ensures w.pcbs[i].probeIp == v.pcbs[i].probeIp
    {
      assert OkAt(v, i);
      SweepIsLocal(v.pcbs, v.tx, s, i);
      SweepLists(v.pcbs[i], On(v.tx, i), s);
    }
  }

  lemma {:induction false} SweepSurvivors(pcbs: seq<Pcb>, tx: seq<Tx>, s: Service)
    requires KnownPcbs(tx, pcbs)
    ensures Survivors(tx, Sweep(pcbs, tx, s).tx, s)
    ensures forall p :: p in Sweep(pcbs, tx, s).tx ==> !MentionedIn(p, s)
    decreases |tx|
  {
    hide SweepOne, Trimmed, Vanishes, MentionedIn, Blank;
    if tx != [] {
      var o := SweepOne(pcbs[tx[0].pcb], tx[0], s);
      SweptIsTrimmed(pcbs[tx[0].pcb], tx[0], s);
      var next := pcbs[tx[0].pcb := o.c];
      SweepSurvivors(next, tx[1..], s);
      var rest := Sweep(next, tx[1..], s).tx;
      if Blank(o.p) {
        assert [] + rest == rest;
      } else {
        assert ([o.p] + rest)[1..] == rest;
      }
    }
  }

  /** What a sweep does to the probe list of one interface. */
  lemma SweepLists(c: Pcb, mine: seq<Tx>, s: Service)
    requires FieldsOk(c) && (c.state.Probing() ==> |mine| == 1)
    ensures var r := SweepMine(c, mine, s).0;
            && r.probeServices == DropService(c.probeServices, s)
            && r.probeIp == c.probeIp
  {
    hide Without, DropQuestion;
    if c.state.Probing() {
      assert mine == [mine[0]] + [];
      DropOnly(c.probeServices, s);
    } else {
      SweepNotProbing(c, mine, s);
      SweepKeepsIp(c, mine, s);
    }
  }

  lemma {:induction false} DropOnly(services: seq<Service>, s: Service)
    ensures s !in services ==> DropService(services, s) == services
    ensures s in services && |services| <= 1 ==> DropService(services, s) == []
  {
    if services != [] {
      DropOnly(services[1..], s);
    }
  }

  lemma {:induction false} SweepKeepsIp(c: Pcb, mine: seq<Tx>, s: Service)
    ensures SweepMine(c, mine, s).0.probeIp == c.probeIp
    decreases |mine|
  {
    hide Without, DropQuestion, DropService;
    if mine != [] {
      SweepKeepsIp(SweepOne(c, mine[0], s).c, mine[1..], s);
    }
  }

  lemma {:induction false} RemoveServicesOk(v: Server, services: seq<Service>)
    requires Inv(v)
    ensures Inv(RemoveServices(v, services))
    decreases |services|
  {
    hide RemoveService, OkAt;
    if services != [] {
      RemoveServiceOk(v, services[0]);
      SweepKnown(v.pcbs, v.tx, services[0]);
      RemoveServicesOk(RemoveService(v, services[0]), services[1..]);
    }
  }
}
