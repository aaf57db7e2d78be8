/** From an operation that starts a probe to the last announcement: what an interface left alone says, on every run. */
module ServiceLife {
  import opened Options
  import opened TxPacket
  import opened Responder
  import opened ResponderInvariant
  import opened Agreement
  import opened Machine
  import opened MachineInvariant
  import opened Runs
  import opened Liveness
  import opened Timeline
  import opened Announcement
  import opened Contents
  import opened Operations

  /** An announcement made from a probe for `services`. */
  ghost predicate SaysInFull(p: Tx, services: seq<Service>, ip: bool, hosts: map<nat, Host>) {
    && p.questions == [] && p.servers == [] && p.additional == []
    && DistinctAnswers(p.answers) && AllSuit(p.answers, true)
    && forall a :: Contains(p.answers, a) <==> ToAnnounce(a, services, ip, hosts)
  }

  /** A first part of: the probe three times, then its announcement three times, at their distances. */
  ghost predicate OnCourse(sent: seq<Event>, services: seq<Service>, ip: bool, hosts: map<nat, Host>) {
    && |sent| <= 6 && Spaced(sent)
    && (forall k :: 0 <= k < |sent| && k < 3 ==> SaysProbe(sent[k].tx, services, ip, hosts, k == 0))
    && (forall k :: 3 <= k < |sent| ==> SaysInFull(sent[k].tx, services, ip, hosts))
  }

  /** The probe as it is sent the first time, and the other times. */
  lemma SameSays(p: Tx, probe: Tx, services: seq<Service>, ip: bool, hosts: map<nat, Host>, unicast: bool)
    requires SaysProbe(probe, services, ip, hosts, true) && SameProbe(p, probe)
    requires if unicast then Unicast(p) else NoUnicast(p)
    ensures SaysProbe(p, services, ip, hosts, unicast)
  {
    hide ToProbe, ToPropose, DistinctAnswers, AllSuit, Contains;
    forall b
      ensures Asks(p.questions, b) <==> ToProbe(b, services, ip)
    {
      if Asks(p.questions, b) {
        var k :| 0 <= k < |p.questions| && p.questions[k].about == b;
        assert probe.questions[k].about == b;
      }
      if Asks(probe.questions, b) {
        var k :| 0 <= k < |probe.questions| && probe.questions[k].about == b;
        assert p.questions[k].about == b;
      }
    }
  }

  lemma AnnouncedInFull(p: Tx, probe: Tx, services: seq<Service>, ip: bool, hosts: map<nat, Host>)
    requires SaysProbe(probe, services, ip, hosts, true) && Announces(p, probe, hosts)
    ensures SaysInFull(p, services, ip, hosts)
  {
    hide SaysProbe, DistinctAnswers, AllSuit, Contains, AnnouncedAnswers, ToAnnounce;
    AnnounceFromSays(0, probe, services, ip, hosts, true);
  }

  lemma StaysOnCourse(sent: seq<Event>, probe: Tx, services: seq<Service>, ip: bool, hosts: map<nat, Host>)
    requires PartOfThreeAndThree(sent, hosts, probe) && SaysProbe(probe, services, ip, hosts, true)
    ensures OnCourse(sent, services, ip, hosts)
  {
    hide SaysProbe, SaysInFull, SameProbe, Announces, Unicast, NoUnicast;
    forall k | 0 <= k < |sent| && k < 3
      ensures SaysProbe(sent[k].tx, services, ip, hosts, k == 0)
    {
      SameSays(sent[k].tx, probe, services, ip, hosts, k == 0);
    }
    forall k | 3 <= k < |sent|
      ensures SaysInFull(sent[k].tx, services, ip, hosts)
    {
      AnnouncedInFull(sent[k].tx, probe, services, ip, hosts);
    }
  }

  /** After `steps`, nothing but sends is pending, and interface `i` has just begun to probe for `services`. */
  ghost predicate JustBegan(y: System, i: nat, services: seq<Service>, ip: bool) {
    && OnlySends(y) && i < |y.v.pcbs| && y.v.pcbs[i].state == Probe1 && On(y.v.tx, i) != []
    && SaysProbe(On(y.v.tx, i)[0], services, ip, y.v.hosts, true)
  }

  /** However the tasks are scheduled, the interface is on course, from then on and to rest. */
  lemma CourseIsKept(pcbs: nat, steps: seq<Step>, more: seq<Step>, i: nat, services: seq<Service>, ip: bool)
    requires JustBegan(Reached(pcbs, steps), i, services, ip) && OnlyTasks(more)
    ensures var y := Reached(pcbs, steps);
            OnCourse(SinceStart(After(y, more).v.log, i), services, ip, y.v.hosts)
  {
    hide After, OnlyTasks, OnlySends, SinceStart, On, SaysProbe, OnCourse, PartOfThreeAndThree, SystemInv;
    var y := Reached(pcbs, steps);
    TasksNeverLeaveTheTimeline(pcbs, steps, more, i);
    StaysOnCourse(SinceStart(After(y, more).v.log, i), On(y.v.tx, i)[0], services, ip, y.v.hosts);
  }

  /** And the tasks can always take it to the end. */
  lemma CourseEnds(pcbs: nat, steps: seq<Step>, i: nat, services: seq<Service>, ip: bool) returns (more: seq<Step>)
    requires JustBegan(Reached(pcbs, steps), i, services, ip)
    ensures OnlyTasks(more)
    ensures var y := Reached(pcbs, steps);
            var z := After(y, more);
            && z.v.tx == [] && i < |z.v.pcbs| && z.v.pcbs[i].state == Running
            && |SinceStart(z.v.log, i)| == 6 && OnCourse(SinceStart(z.v.log, i), services, ip, y.v.hosts)
  {
    hide After, OnlyTasks, OnlySends, SinceStart, On, SaysProbe, OnCourse, PartOfThreeAndThree, SystemInv;
    var y := Reached(pcbs, steps);
    more := TasksKeepTheTimeline(pcbs, steps, i);
    StaysOnCourse(SinceStart(After(y, more).v.log, i), On(y.v.tx, i)[0], services, ip, y.v.hosts);
  }

  // ---------------------------------------------------------------- a service is added

  /** The service task is about to add `s`, and nothing else is asked of it. */
  predicate AboutToAdd(y: System, s: Service, i: nat) {
    && y.current == Some(Do(AddService(s))) && (forall a :: a in y.actions ==> a.Send?)
    && s !in y.v.services && y.v.hostSet && i < |y.v.pcbs| && y.v.pcbs[i].ready
  }

  /** Such runs exist: the interface of the shortest run to a first probe, with a service to be added. */
  lemma AServiceIsBeingAdded(s: Service)
    ensures AboutToAdd(Reached(1, FirstProbe() + [Post(AddService(s))] + [Take]), s, 0)
  {
    hide SystemInv, After, Next, Idle, AboutToAdd, FirstProbe, KnownPcbs;
    AProbeBegins();
    OneStep(1, FirstProbe(), Post(AddService(s)));
    OneStep(1, FirstProbe() + [Post(AddService(s))], Take);
    var y := Reached(1, FirstProbe());
    SystemAgrees(y);
    ProbingIsUp(y.v, 0);
    PostedAndTaken(y, s);
  }

  lemma ProbingIsUp(v: Server, i: nat)
    requires Inv(v) && i < |v.pcbs| && v.pcbs[i].state == Probe1
    ensures v.hostSet && v.pcbs[i].ready
  {
    hide On, SinceStart, IsProbe, OnBeat;
    assert OkAt(v, i);
  }

  lemma PostedAndTaken(y: System, s: Service)
    requires KnownPcbs(y.v.tx, y.v.pcbs) && Idle(y) && s !in y.v.services
    requires |y.v.pcbs| == 1 && y.v.hostSet && y.v.pcbs[0].ready
    ensures var y1 := Next(y, Post(AddService(s)));
            KnownPcbs(y1.v.tx, y1.v.pcbs) && AboutToAdd(Next(y1, Take), s, 0)
  {
    hide Apply, KnownPcbs;
  }

  lemma AddingBegins(y: System, s: Service, i: nat, randoms: seq<nat>)
    requires SystemInv(y) && AboutToAdd(y, s, i) && |y.v.pcbs| <= |randoms|
    ensures KnownPcbs(y.v.tx, y.v.pcbs)
    ensures var z := Next(y, Execute(randoms));
            && i < |z.v.pcbs| && s in z.v.services && s in z.v.pcbs[i].probeServices && z.v.hosts == y.v.hosts
            && JustBegan(z, i, z.v.pcbs[i].probeServices, z.v.pcbs[i].probeIp)
            && SinceStart(z.v.log, i) == []
  {
    hide Inv, Agrees, Apply, On, SinceStart, SaysProbe;
    InvSorted(y.v);
    AddServiceDoes(y.v, s, randoms);
    assert Probes(y.v.pcbs[i], Apply(y.v, AddService(s), randoms), i, [s], false);
  }

  lemma OneStep(pcbs: nat, steps: seq<Step>, step: Step)
    ensures var y := Reached(pcbs, steps);
            KnownPcbs(y.v.tx, y.v.pcbs) && Reached(pcbs, steps + [step]) == Next(y, step)
  {
    hide Inv, Agrees, Next, After;
    BootInv(pcbs);
    var y := Reached(pcbs, steps);
    AfterJoin(Boot(pcbs), steps, [step]);
    assert [step] == [step] + [];
    AfterCons(y, step, []);
    AfterNothing(Next(y, step));
  }

  /** What goes out for the service `s`: its question and proposal three times, then all its records three times. */
  ghost predicate SaysAllOf(sent: seq<Event>, s: Service, hosts: map<nat, Host>) {
    && |sent| == 6 && Spaced(sent)
    && (forall k :: 0 <= k < 3 ==> Asks(sent[k].tx.questions, Instance(s))
                                   && Contains(sent[k].tx.servers, SrvAnswer(s, false)))
    && (forall k, a :: 3 <= k < 6 && (ServiceRecord(a, s) || HostRecord(a, HostItem(hosts, s))) ==>
                         Contains(sent[k].tx.answers, a))
  }

  lemma CourseSaysAll(sent: seq<Event>, services: seq<Service>, ip: bool, hosts: map<nat, Host>, s: Service)
    requires |sent| == 6 && OnCourse(sent, services, ip, hosts) && s in services
    ensures SaysAllOf(sent, s, hosts)
  {
    hide Asks, Contains, DistinctAnswers, AllSuit, Plain, HostItem, OfHosts;
    forall k | 0 <= k < 3
      ensures Asks(sent[k].tx.questions, Instance(s)) && Contains(sent[k].tx.servers, SrvAnswer(s, false))
    {
      assert SaysProbe(sent[k].tx, services, ip, hosts, k == 0);
      assert ToProbe(Instance(s), services, ip) && ToPropose(SrvAnswer(s, false), services, ip, hosts);
    }
    var j :| 0 <= j < |services| && services[j] == s;
    forall k, a | 3 <= k < 6 && (ServiceRecord(a, s) || HostRecord(a, HostItem(hosts, s)))
      ensures Contains(sent[k].tx.answers, a)
    {
      assert SaysInFull(sent[k].tx, services, ip, hosts);
      assert HostRecord(a, HostItem(hosts, services[j])) ==> OfAny(a, services, hosts);
      assert ToAnnounce(a, services, ip, hosts);
    }
  }

  /**
   * An added service is announced: on every run, once the service task adds a service on an interface that is up, with
   * a host name set and nothing else pending, it is registered, and left alone the tasks can bring the interface to
   * rest having sent the service's question and proposal three times and then all its records three times.
   */
  lemma AddedServiceIsAnnounced(pcbs: nat, steps: seq<Step>, s: Service, i: nat, randoms: seq<nat>)
    returns (more: seq<Step>)
    requires AboutToAdd(Reached(pcbs, steps), s, i) && |Reached(pcbs, steps).v.pcbs| <= |randoms|
    ensures OnlyTasks(more)
    ensures var y := Reached(pcbs, steps + [Execute(randoms)]);
            var z := After(y, more);
            && s in y.v.services
            && z.v.tx == [] && i < |z.v.pcbs| && z.v.pcbs[i].state == Running
            && SaysAllOf(SinceStart(z.v.log, i), s, y.v.hosts)
  {
    hide After, OnlyTasks, SinceStart, On, SaysProbe, OnCourse, SystemInv, SaysAllOf, JustBegan, Next, KnownPcbs;
    var y, all := Reached(pcbs, steps), steps + [Execute(randoms)];
    OneStep(pcbs, steps, Execute(randoms));
    AddingBegins(y, s, i, randoms);
    var z := Reached(pcbs, all);
    var services, ip := z.v.pcbs[i].probeServices, z.v.pcbs[i].probeIp;
    more := CourseEnds(pcbs, all, i, services, ip);
    CourseSaysAll(SinceStart(After(z, more).v.log, i), services, ip, z.v.hosts, s);
  }

  /** And however the tasks are scheduled meanwhile, whatever the interface sends is on that course. */
  lemma AddedServiceKeepsItsCourse(pcbs: nat, steps: seq<Step>, s: Service, i: nat, randoms: seq<nat>,
                                   more: seq<Step>)
    requires AboutToAdd(Reached(pcbs, steps), s, i) && |Reached(pcbs, steps).v.pcbs| <= |randoms| && OnlyTasks(more)
    ensures var y := Reached(pcbs, steps + [Execute(randoms)]);
            && i < |y.v.pcbs| && s in y.v.pcbs[i].probeServices
            && OnCourse(SinceStart(After(y, more).v.log, i), y.v.pcbs[i].probeServices, y.v.pcbs[i].probeIp, y.v.hosts)
  {
    hide After, OnlyTasks, SinceStart, On, SaysProbe, OnCourse, SystemInv, JustBegan, Next, KnownPcbs;
    var y, all := Reached(pcbs, steps), steps + [Execute(randoms)];
    OneStep(pcbs, steps, Execute(randoms));
    AddingBegins(y, s, i, randoms);
    var z := Reached(pcbs, all);
    CourseIsKept(pcbs, all, more, i, z.v.pcbs[i].probeServices, z.v.pcbs[i].probeIp);
  }
}
