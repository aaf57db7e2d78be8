/** Which services the packets and probe lists refer to, operation by operation. */
module References {
  import opened Options
  import opened TxPacket
  import opened Responder
  import opened ResponderInvariant
  import opened ServiceRemoval
  import opened MachineInvariant
  import opened Questions

  predicate Within(list: seq<Answer>, services: seq<Service>) {
    forall a :: a in list && a.service.Some? ==> a.service.value in services
  }

  predicate PacketWithin(p: Tx, services: seq<Service>) {
    Within(p.answers, services) && Within(p.servers, services) && Within(p.additional, services)
  }

  predicate Among(some: seq<Service>, services: seq<Service>) {
    forall s :: s in some ==> s in services
  }

  /** Whatever is queued or probed concerns one of `services`. */
  predicate Refers(v: Server, services: seq<Service>) {
    && (forall p :: p in v.tx ==> PacketWithin(p, services))
    && (forall i :: 0 <= i < |v.pcbs| ==> Among(v.pcbs[i].probeServices, services))
  }

  predicate Registered(v: Server) {
    Refers(v, v.services)
  }

  // ---------------------------------------------------------------- packets

  lemma AddAnswerWithin(list: seq<Answer>, a: Answer, services: seq<Service>)
    requires Within(list, services) && (a.service.Some? ==> a.service.value in services)
    ensures Within(AddAnswer(list, a), services)
  {
  }

  lemma AddHostWithin(list: seq<Answer>, host: Option<Host>, flush: bool, services: seq<Service>)
    requires Within(list, services)
    ensures Within(AddHost(list, host, flush), services)
  {
    hide AddAnswer;
    AddAnswerWithin(list, Answer(A, None, host, flush, false), services);
    AddAnswerWithin(AddAnswer(list, Answer(A, None, host, flush, false)), Answer(Aaaa, None, host, flush, false), services);
  }

  lemma {:induction false} AddHostsOfWithin(list: seq<Answer>, some: seq<Service>, hosts: map<nat, Host>, flush: bool,
                                            services: seq<Service>)
    requires Within(list, services)
    ensures Within(AddHostsOf(list, some, hosts, flush), services)
    decreases |some|
  {
    hide Within, AddHost;
    if some != [] {
      AddHostWithin(list, HostItem(hosts, some[0]), flush, services);
      AddHostsOfWithin(AddHost(list, HostItem(hosts, some[0]), flush), some[1..], hosts, flush, services);
    }
  }

  lemma AddHostsWithin(list: seq<Answer>, some: seq<Service>, hosts: map<nat, Host>, flush: bool,
                       services: seq<Service>)
    requires Within(list, services)
    ensures Within(AddHosts(list, some, hosts, flush), services)
  {
    hide Within, AddHost, AddHostsOf;
    AddHostWithin(list, Some(SELF), flush, services);
    AddHostsOfWithin(list, some, hosts, flush, services);
  }

  lemma {:induction false} AddProbedWithin(d: Draft, some: seq<Service>, unicast: bool, services: seq<Service>)
    requires Within(d.servers, services) && Among(some, services)
    ensures Within(AddProbed(d, some, unicast).servers, services)
    decreases |some|
  {
    hide Within, AddAnswer, Asks;
    if some != [] {
      var s := some[0];
      AddAnswerWithin(d.servers, SrvAnswer(s, false), services);
      var next := if Asks(d.questions, Instance(s)) then d
                  else Draft(d.questions + [Question(Instance(s), unicast)], AddAnswer(d.servers, SrvAnswer(s, false)));
      AddProbedWithin(next, some[1..], unicast, services);
    }
  }

  lemma ProbeWithin(id: nat, i: nat, some: seq<Service>, unicast: bool, ip: bool, hosts: map<nat, Host>,
                    services: seq<Service>)
    requires Among(some, services)
    ensures PacketWithin(ProbePacket(id, i, some, unicast, ip, hosts), services)
  {
    hide AddProbed, AddHosts, AddHostQuestions, AddQuestion;
    AddProbedWithin(Draft([], []), some, unicast, services);
    AddHostsWithin(AddProbed(Draft([], []), some, unicast).servers, some, hosts, false, services);
  }

  lemma AddServiceWithin(list: seq<Answer>, s: Service, services: seq<Service>)
    requires Within(list, services) && s in services
    ensures Within(AddService(list, s), services)
  {
    hide Within, AddAnswer;
    var a := AddAnswer(list, Answer(Sdptr, Some(s), None, false, false));
    var b := AddAnswer(a, Answer(Ptr, Some(s), None, false, false));
    var c := AddAnswer(b, SrvAnswer(s, true));
    AddAnswerWithin(list, Answer(Sdptr, Some(s), None, false, false), services);
    AddAnswerWithin(a, Answer(Ptr, Some(s), None, false, false), services);
    AddAnswerWithin(b, SrvAnswer(s, true), services);
    AddAnswerWithin(c, Answer(Txt, Some(s), None, true, false), services);
  }

  lemma {:induction false} AddServicesWithin(list: seq<Answer>, some: seq<Service>, services: seq<Service>)
    requires Within(list, services) && Among(some, services)
    ensures Within(AddServices(list, some), services)
    decreases |some|
  {
    hide Within, AddService;
    if some != [] {
      AddServiceWithin(list, some[0], services);
      AddServicesWithin(AddService(list, some[0]), some[1..], services);
    }
  }

  lemma AnnouncedOneWithin(list: seq<Answer>, a: Answer, hosts: map<nat, Host>, services: seq<Service>)
    requires Within(list, services) && (a.service.Some? ==> a.service.value in services)
    ensures Within(AddAnnounced(list, a, hosts), services)
  {
    hide Within, AddService, AddHost, AddAnswer;
    if a.what == Srv && a.service.Some? {
      AddServiceWithin(list, a.service.value, services);
      AddHostWithin(AddService(list, a.service.value), HostItem(hosts, a.service.value), true, services);
    } else {
      AddAnswerWithin(list, Answer(a.what, None, a.host, true, false), services);
    }
  }

  lemma {:induction false} AnnouncedWithin(list: seq<Answer>, servers: seq<Answer>, hosts: map<nat, Host>,
                                           services: seq<Service>)
    requires Within(list, services) && Within(servers, services)
    ensures Within(AnnouncedAnswers(list, servers, hosts), services)
    decreases |servers|
  {
    hide AddAnnounced;
    if servers != [] {
      assert servers[0] in servers;
      AnnouncedOneWithin(list, servers[0], hosts, services);
      AnnouncedWithin(AddAnnounced(list, servers[0], hosts), servers[1..], hosts, services);
    }
  }

  lemma {:induction false} DropAnswerFrom(list: seq<Answer>, what: AnswerType, service: Option<Service>)
    ensures forall a :: a in DropAnswer(list, what, service) ==> a in list
  {
    if list != [] {
      DropAnswerFrom(list[1..], what, service);
    }
  }

  lemma ExtendedWithin(p: Tx, some: seq<Service>, ip: bool, hosts: map<nat, Host>, services: seq<Service>)
    requires PacketWithin(p, services) && Among(some, services)
    ensures PacketWithin(Extended(p, some, ip, hosts), services)
  {
    hide AddServices, AddHosts, DropAnswer;
    AddServicesWithin(p.answers, some, services);
    AddHostsWithin(AddServices(p.answers, some), some, hosts, true, services);
    DropAnswerFrom(p.additional, A, None);
    DropAnswerFrom(DropAnswer(p.additional, A, None), Aaaa, None);
  }

  lemma AnnouncementWithin(id: nat, i: nat, some: seq<Service>, ip: bool, hosts: map<nat, Host>, services: seq<Service>)
    requires Among(some, services)
    ensures PacketWithin(AnnouncePacket(id, i, some, ip, hosts), services)
  {
    hide AddServices, AddHosts;
    AddServicesWithin([], some, services);
    AddHostsWithin([], some, hosts, true, services);
  }

  // ---------------------------------------------------------------- operations

  lemma ScheduledRefers(v: Server, p: Tx, after: nat, services: seq<Service>)
    requires Refers(v, services) && PacketWithin(p, services)
    ensures Refers(Schedule(v, p, after), services)
  {
    hide Insert, Within;
  }

  lemma InitProbeRefers(v: Server, i: nat, some: seq<Service>, ip: bool, random: nat, services: seq<Service>)
    requires i < |v.pcbs| && Refers(v, services) && Among(some, services)
    ensures var w := InitProbe(v, i, some, ip, random);
            |w.pcbs| == |v.pcbs| && w.services == v.services && Refers(w, services)
  {
    hide WithoutPcb, Insert, ProbePacket, Within, PacketWithin;
    var c := v.pcbs[i];
    if v.hostSet {
      var all := Merged(c, if c.state.Probing() then NotIn(some, c.probeServices) else some);
      assert Among(c.probeServices, services);
      assert Among(all, services);
      var d := c.(probeServices := all, probeIp := c.probeIp || ip, probeRunning := true, state := Probe1);
      var u := v.(tx := WithoutPcb(v.tx, i), pcbs := v.pcbs[i := d], nextId := v.nextId + 1,
                  log := v.log + [Started(i, v.nextId)]);
      ProbeWithin(v.nextId, i, all, true, d.probeIp, v.hosts, services);
      ScheduledRefers(u, ProbePacket(v.nextId, i, all, true, d.probeIp, v.hosts), ProbeDelay(c.failedProbes, random),
                      services);
    }
  }

  lemma {:induction false} ProbeAllRefers(v: Server, k: nat, some: seq<Service>, ip: bool, clearOld: bool,
                                          randoms: seq<nat>, services: seq<Service>)
    requires k <= |v.pcbs| <= |randoms| && Refers(v, services) && Among(some, services)
    ensures var w := ProbeAllFrom(v, k, some, ip, clearOld, randoms); w.services == v.services && Refers(w, services)
    decreases |v.pcbs| - k
  {
    hide InitProbe, PacketWithin;
    if k == |v.pcbs| {
    } else if !v.pcbs[k].ready {
      ProbeAllRefers(v, k + 1, some, ip, clearOld, randoms, services);
    } else {
      var w := if clearOld then v.(pcbs := v.pcbs[k := v.pcbs[k].(probeServices := [], probeRunning := false)]) else v;
      InitProbeRefers(w, k, some, ip, randoms[k], services);
      ProbeAllRefers(InitProbe(w, k, some, ip, randoms[k]), k + 1, some, ip, clearOld, randoms, services);
    }
  }

  lemma {:induction false} EditFirstRefers(tx: seq<Tx>, i: nat, edit: Tx -> Tx, services: seq<Service>)
    requires forall p :: p in tx ==> PacketWithin(p, services)
    requires forall p :: PacketWithin(p, services) ==> PacketWithin(edit(p), services)
    ensures forall p :: p in EditFirst(tx, i, edit) ==> PacketWithin(p, services)
  {
    hide PacketWithin;
    if tx != [] && tx[0].pcb != i {
      EditFirstRefers(tx[1..], i, edit, services);
    }
  }

  lemma AnnounceRefers(v: Server, i: nat, some: seq<Service>, ip: bool, random: nat, services: seq<Service>)
    requires i < |v.pcbs| && Refers(v, services) && Among(some, services)
    ensures var w := Announce(v, i, some, ip, random);
            |w.pcbs| == |v.pcbs| && w.services == v.services && Refers(w, services)
  {
    hide InitProbe, EditFirst, Extended, Insert, On, AnnouncePacket, PacketWithin;
    var c := v.pcbs[i];
    InitProbeRefers(v, i, some, ip, random, services);
    if c.ready && c.state.Announcing() {
      var edit := (p: Tx) => Extended(p, some, ip, v.hosts);
      forall p | PacketWithin(p, services)
        ensures PacketWithin(edit(p), services)
      {
        ExtendedWithin(p, some, ip, v.hosts, services);
      }
      EditFirstRefers(v.tx, i, edit, services);
    } else if c.ready && c.state == Running && v.hostSet {
      AnnouncementWithin(v.nextId, i, some, ip, v.hosts, services);
      ScheduledRefers(v.(nextId := v.nextId + 1, pcbs := v.pcbs[i := c.(state := Announce1)]),
                      AnnouncePacket(v.nextId, i, some, ip, v.hosts), 0, services);
    }
  }

  lemma {:induction false} AnnounceAllRefers(v: Server, k: nat, some: seq<Service>, ip: bool, randoms: seq<nat>,
                                             services: seq<Service>)
    requires k <= |v.pcbs| <= |randoms| && Refers(v, services) && Among(some, services)
    ensures var w := AnnounceAllFrom(v, k, some, ip, randoms); w.services == v.services && Refers(w, services)
    decreases |v.pcbs| - k
  {
    hide Announce, Refers;
    if k < |v.pcbs| {
      AnnounceRefers(v, k, some, ip, randoms[k], services);
      AnnounceAllRefers(Announce(v, k, some, ip, randoms[k]), k + 1, some, ip, randoms, services);
    }
  }

  lemma {:induction false} RetractWithin(tx: seq<Tx>, i: nat, what: AnswerType, service: Option<Service>,
                                         services: seq<Service>)
    requires forall p :: p in tx ==> PacketWithin(p, services)
    ensures forall p :: p in RetractAnswer(tx, i, what, service) ==> PacketWithin(p, services)
  {
    if tx != [] {
      assert PacketWithin(tx[0], services);
      DropAnswerFrom(tx[0].answers, what, service);
      RetractWithin(tx[1..], i, what, service, services);
    }
  }

  lemma {:induction false} SweepWithin(pcbs: seq<Pcb>, tx: seq<Tx>, s: Service, services: seq<Service>)
    requires KnownPcbs(tx, pcbs) && forall p :: p in tx ==> PacketWithin(p, services)
    ensures forall p :: p in Sweep(pcbs, tx, s).tx ==> PacketWithin(p, services)
    decreases |tx|
  {
    hide SweepOne, Blank, PacketWithin;
    if tx != [] {
      var o := SweepOne(pcbs[tx[0].pcb], tx[0], s);
      SweptWithin(pcbs[tx[0].pcb], tx[0], s, services);
      SweepWithin(pcbs[tx[0].pcb := o.c], tx[1..], s, services);
    }
  }

  lemma SweptWithin(c: Pcb, p: Tx, s: Service, services: seq<Service>)
    requires PacketWithin(p, services)
    ensures PacketWithin(SweepOne(c, p, s).p, services)
  {
    hide DropQuestion, DropService;
  }

  /** After the removal of `s` what is left refers to the other services. */
  lemma RemovalRefers(v: Server, s: Service, services: seq<Service>, rest: seq<Service>)
    requires Inv(v) && Refers(v, services) && forall t :: t in services && t != s ==> t in rest
    ensures KnownPcbs(v.tx, v.pcbs) && Refers(RemoveService(v, s), rest)
  {
    hide Inv, Sweep;
    InvServices(v);
    RemoveServiceOk(v, s);
    RemovalIsCompleteAndLocal(v, s);
    SweepWithin(v.pcbs, v.tx, s, services);
    var w := RemoveService(v, s);
    forall p | p in w.tx
      ensures PacketWithin(p, rest)
    {
      Unmentioned(p, s, services, rest);
    }
    forall i | 0 <= i < |w.pcbs|
      ensures Among(w.pcbs[i].probeServices, rest)
    {
      RemovedServices(v, s, i);
      assert Among(v.pcbs[i].probeServices, services);
    }
  }

  lemma Unmentioned(p: Tx, s: Service, services: seq<Service>, rest: seq<Service>)
    requires PacketWithin(p, services) && !MentionedIn(p, s) && forall t :: t in services && t != s ==> t in rest
    ensures PacketWithin(p, rest)
  {
    forall list: seq<Answer> | list == p.answers || list == p.servers || list == p.additional
      ensures Within(list, rest)
    {
      forall a | a in list && a.service.Some?
        ensures a.service.value in rest
      {
        var k :| 0 <= k < |list| && list[k] == a;
        assert list[k].service != Some(s);
      }
    }
  }

  lemma {:induction false} RemovalsRefer(v: Server, services: seq<Service>)
    requires Inv(v) && Refers(v, services)
    ensures KnownPcbs(v.tx, v.pcbs) && Refers(RemoveServices(v, services), [])
    decreases |services|
  {
    hide Inv, RemoveService, Refers;
    InvServices(v);
    if services != [] {
      RemoveServiceOk(v, services[0]);
      RemovalRefers(v, services[0], services, services[1..]);
      RemovalsRefer(RemoveService(v, services[0]), services[1..]);
    }
  }

  lemma {:induction false} RemovalsList(v: Server, services: seq<Service>)
    requires KnownPcbs(v.tx, v.pcbs)
    ensures RemoveServices(v, services).services == v.services
    decreases |services|
  {
    hide Sweep;
    if services != [] {
      SweepKnown(v.pcbs, v.tx, services[0]);
      RemovalsList(RemoveService(v, services[0]), services[1..]);
    }
  }
}
