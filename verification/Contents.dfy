/** What the packets of the responder say, exactly: probes, announcements, extended announcements. */
module Contents {
  import opened Options
  import opened TxPacket
  import opened Responder
  import opened ResponderInvariant
  import opened Announcement

  // ---------------------------------------------------------------- records for services and hosts

  predicate OfServices(a: Answer, services: seq<Service>) {
    a.service.Some? && a.service.value in services && ServiceRecord(a, a.service.value)
  }

  /** The address records of the services' hosts; without services, of this host. */
  predicate OfHosts(a: Answer, services: seq<Service>, hosts: map<nat, Host>) {
    if services == [] then HostRecord(a, Some(SELF))
    else exists k :: 0 <= k < |services| && HostRecord(a, HostItem(hosts, services[k]))
  }

  predicate OfAny(a: Answer, services: seq<Service>, hosts: map<nat, Host>) {
    exists k :: 0 <= k < |services| && HostRecord(a, HostItem(hosts, services[k]))
  }

  lemma {:induction false} HostsOfAdded(list: seq<Answer>, services: seq<Service>, hosts: map<nat, Host>, flush: bool,
                                        b: Answer)
    ensures var r := AddHostsOf(list, services, hosts, flush);
            Added(list, r, flush) && (Contains(r, b) <==> Contains(list, b) || OfAny(b, services, hosts))
    decreases |services|
  {
    hide AddHost, Contains, Added, HostRecord, HostItem;
    if services == [] {
      AddedNothing(list, flush);
    } else {
      var next := AddHost(list, HostItem(hosts, services[0]), flush);
      HostAdded(list, HostItem(hosts, services[0]), flush, b);
      HostsOfAdded(next, services[1..], hosts, flush, b);
      AddedTrans(list, next, AddHostsOf(list, services, hosts, flush), flush);
      if OfAny(b, services[1..], hosts) {
        var k :| 0 <= k < |services| - 1 && HostRecord(b, HostItem(hosts, services[1..][k]));
        assert services[1..][k] == services[k + 1];
      }
      if OfAny(b, services, hosts) && !HostRecord(b, HostItem(hosts, services[0])) {
        var k :| 0 <= k < |services| && HostRecord(b, HostItem(hosts, services[k]));
        assert services[1..][k - 1] == services[k];
      }
    }
  }

  lemma HostsAdded(list: seq<Answer>, services: seq<Service>, hosts: map<nat, Host>, flush: bool, b: Answer)
    ensures var r := AddHosts(list, services, hosts, flush);
            Added(list, r, flush) && (Contains(r, b) <==> Contains(list, b) || OfHosts(b, services, hosts))
  {
    hide AddHost, Contains, Added, HostRecord, HostItem, AddHostsOf;
    if services == [] {
      HostAdded(list, Some(SELF), flush, b);
    } else {
      HostsOfAdded(list, services, hosts, flush, b);
    }
  }

  lemma {:induction false} ServicesAdded(list: seq<Answer>, services: seq<Service>, b: Answer)
    ensures var r := AddServices(list, services);
            Added(list, r, true) && (Contains(r, b) <==> Contains(list, b) || OfServices(b, services))
    decreases |services|
  {
    hide AddService, Contains, Added;
    if services == [] {
      AddedNothing(list, true);
    } else {
      var next := AddService(list, services[0]);
      ServiceAdded(list, services[0], b);
      ServicesAdded(next, services[1..], b);
      AddedTrans(list, next, AddServices(list, services), true);
      assert forall t :: t in services <==> t == services[0] || t in services[1..];
    }
  }

  // ---------------------------------------------------------------- probes

  predicate SrvOf(a: Answer, services: seq<Service>) {
    a.what == Srv && a.host == None && a.service.Some? && a.service.value in services
  }

  /** What a probe has to propose: an SRV record for each service and, if addresses are probed, those of their hosts. */
  predicate ToPropose(a: Answer, services: seq<Service>, ip: bool, hosts: map<nat, Host>) {
    SrvOf(a, services) || (ip && OfHosts(a, services, hosts))
  }

  /** Services asked about are proposed already. */
  ghost predicate Supported(d: Draft) {
    forall s: Service :: Asks(d.questions, Instance(s)) ==> Contains(d.servers, SrvAnswer(s, false))
  }

  lemma OneSupported(d: Draft, s: Service, unicast: bool)
    requires Supported(d) && Plain(d.questions)
    ensures var qs, list := AddQuestion(d.questions, Instance(s), unicast), AddAnswer(d.servers, SrvAnswer(s, false));
            Supported(Draft(qs, list))
  {
    hide Asks, Contains, AddAnswer, AddQuestion, Plain;
    AskedAfter(d.questions, Instance(s), unicast);
    forall t: Service
      ensures Contains(AddAnswer(d.servers, SrvAnswer(s, false)), SrvAnswer(t, false))
         <==> Contains(d.servers, SrvAnswer(t, false)) || SameAnswer(SrvAnswer(s, false), SrvAnswer(t, false))
    {
      AddOne(d.servers, SrvAnswer(s, false), SrvAnswer(t, false), false);
    }
  }

  lemma {:induction false} ProbedAdded(d: Draft, services: seq<Service>, unicast: bool, b: Answer)
    requires Supported(d) && Plain(d.questions)
    ensures var r := AddProbed(d, services, unicast).servers;
            Added(d.servers, r, false) && (Contains(r, b) <==> Contains(d.servers, b) || SrvOf(b, services))
    decreases |services|
  {
    hide Asks, Contains, Added, AddAnswer, Plain, Supported;
    if services == [] {
      AddedNothing(d.servers, false);
    } else {
      var s := services[0];
      var next := if Asks(d.questions, Instance(s)) then d
                  else Draft(d.questions + [Question(Instance(s), unicast)], AddAnswer(d.servers, SrvAnswer(s, false)));
      AskedAfter(d.questions, Instance(s), unicast);
      assert next.questions == AddQuestion(d.questions, Instance(s), unicast);
      AddOne(d.servers, SrvAnswer(s, false), b, false);
      if Asks(d.questions, Instance(s)) {
        AddedNothing(d.servers, false);
        SupportedAt(d, s, b);
      } else {
        OneSupported(d, s, unicast);
      }
      ProbedAdded(next, services[1..], unicast, b);
      AddedTrans(d.servers, next.servers, AddProbed(d, services, unicast).servers, false);
      assert forall t :: t in services <==> t == s || t in services[1..];
    }
  }

  lemma SupportedAt(d: Draft, s: Service, b: Answer)
    requires Supported(d) && Asks(d.questions, Instance(s))
    ensures SameAnswer(SrvAnswer(s, false), b) ==> Contains(d.servers, b)
  {
    if SameAnswer(SrvAnswer(s, false), b) {
      var k :| 0 <= k < |d.servers| && SameAnswer(d.servers[k], SrvAnswer(s, false));
      assert SameAnswer(d.servers[k], b);
    }
  }

  /** A probe for `services`: what it asks, how, and what it proposes; nothing else. */
  ghost predicate SaysProbe(p: Tx, services: seq<Service>, ip: bool, hosts: map<nat, Host>, unicast: bool) {
    && Plain(p.questions) && (forall b :: Asks(p.questions, b) <==> ToProbe(b, services, ip))
    && (forall q :: q in p.questions ==> q.unicast == unicast)
    && DistinctAnswers(p.servers) && AllSuit(p.servers, false)
    && (forall a :: Contains(p.servers, a) <==> ToPropose(a, services, ip, hosts))
    && p.answers == [] && p.additional == [] && !p.distributed
  }

  lemma ProbePacketSays(id: nat, i: nat, services: seq<Service>, unicast: bool, ip: bool, hosts: map<nat, Host>)
    ensures var p := ProbePacket(id, i, services, unicast, ip, hosts);
            SaysProbe(p, services, ip, hosts, unicast) && p.id == id && p.pcb == i && !p.queued
  {
    hide Plain, Asks, Contains, AddProbed, AddHosts, AddHostQuestions, AddQuestion, Added, DistinctAnswers, AllSuit,
      SrvOf, OfHosts;
    ProbeAsksExactly(id, i, services, unicast, ip, hosts);
    ProbeUnicast(services, unicast, ip, hosts);
    var d := AddProbed(Draft([], []), services, unicast);
    var r := ProbeDraft(services, unicast, ip, hosts).servers;
    NothingSupported();
    forall a: Answer
      ensures Added([], r, false) && (Contains(r, a) <==> ToPropose(a, services, ip, hosts))
    {
      ProbedAdded(Draft([], []), services, unicast, a);
      if ip {
        HostsAdded(d.servers, services, hosts, false, a);
        AddedTrans([], d.servers, r, false);
      }
    }
    var any := SrvAnswer(Service(0, 0), false);
    assert Contains(r, any) <==> ToPropose(any, services, ip, hosts);
    AddedAll(r, false);
  }

  lemma NothingSupported()
    ensures Supported(Draft([], [])) && Plain([]) && forall a :: !Contains([], a)
  {
  }

  lemma ProbeUnicast(services: seq<Service>, unicast: bool, ip: bool, hosts: map<nat, Host>)
    ensures OnlyUnicast(ProbeDraft(services, unicast, ip, hosts).questions, unicast)
  {
    hide AddProbed, AddHosts, OnlyUnicast, AddHostQuestions, AddQuestion, Backed;
    NothingBacked(unicast);
    AddProbedBacked(Draft([], []), services, unicast);
    var d := AddProbed(Draft([], []), services, unicast);
    if ip {
      OneQuestion(d.questions, SelfHost, unicast);
      HostQuestionsUnicast(AddQuestion(d.questions, SelfHost, unicast), services, unicast);
    }
  }

  // ---------------------------------------------------------------- announcements

  /** An announcement of `services` without a probe: their records as answers, addresses in the authority section. */
  ghost predicate SaysAnnouncement(p: Tx, services: seq<Service>, ip: bool, hosts: map<nat, Host>) {
    && p.questions == [] && p.additional == [] && !p.distributed
    && DistinctAnswers(p.answers) && AllSuit(p.answers, true) && DistinctAnswers(p.servers) && AllSuit(p.servers, true)
    && (forall a :: Contains(p.answers, a) <==> OfServices(a, services))
    && (forall a :: Contains(p.servers, a) <==> ip && OfHosts(a, services, hosts))
  }

  lemma AnnouncePacketSays(id: nat, i: nat, services: seq<Service>, ip: bool, hosts: map<nat, Host>)
    ensures var p := AnnouncePacket(id, i, services, ip, hosts);
            SaysAnnouncement(p, services, ip, hosts) && p.id == id && p.pcb == i && !p.queued
  {
    hide Contains, AddServices, AddHosts, Added, DistinctAnswers, AllSuit, OfServices, OfHosts;
    var answers := AddServices([], services);
    var servers := if ip then AddHosts([], services, hosts, true) else [];
    NothingSupported();
    AddedNothing([], true);
    forall a: Answer
      ensures Added([], answers, true) && (Contains(answers, a) <==> OfServices(a, services))
      ensures Added([], servers, true) && (Contains(servers, a) <==> ip && OfHosts(a, services, hosts))
    {
      ServicesAdded([], services, a);
      HostsAdded([], services, hosts, true, a);
    }
    var any := SrvAnswer(Service(0, 0), false);
    assert Contains(answers, any) <==> OfServices(any, services);
    assert Contains(servers, any) <==> ip && OfHosts(any, services, hosts);
    AddedAll(answers, true);
    AddedAll(servers, true);
  }

  predicate IsOne(a: Answer, what: AnswerType, service: Option<Service>) {
    a.what == what && a.service == service
  }

  /** The first answer of that type and service, if there is one, stands at `k`. */
  predicate FirstOne(list: seq<Answer>, k: nat, what: AnswerType, service: Option<Service>) {
    && k <= |list| && (forall j :: 0 <= j < k ==> !IsOne(list[j], what, service))
    && (k < |list| ==> IsOne(list[k], what, service))
  }

  /** It is gone; the others stay in their order. */
  ghost predicate FirstGone(list: seq<Answer>, r: seq<Answer>, what: AnswerType, service: Option<Service>) {
    exists k: nat :: FirstOne(list, k, what, service)
                     && r == if k == |list| then list else list[..k] + list[k + 1..]
  }

  lemma {:induction false} DropAnswerIs(list: seq<Answer>, what: AnswerType, service: Option<Service>)
    ensures FirstGone(list, DropAnswer(list, what, service), what, service)
  {
    hide IsOne, FirstOne;
    var k := DroppedAt(list, what, service);
  }

  lemma {:induction false} DroppedAt(list: seq<Answer>, what: AnswerType, service: Option<Service>) returns (k: nat)
    ensures FirstOne(list, k, what, service) && k <= |list|
    ensures DropAnswer(list, what, service) == if k == |list| then list else list[..k] + list[k + 1..]
  {
    hide IsOne, FirstOne;
    k := 0;
    if list == [] {
      FirstHere(list, what, service);
    } else {
      OneIs(list[0], what, service);
      if IsOne(list[0], what, service) {
        FirstHere(list, what, service);
      } else {
        var l := DroppedAt(list[1..], what, service);
        k := l + 1;
        FirstBehind(list, l, what, service);
        CutBehind(list, l);
      }
    }
  }

  lemma FirstHere(list: seq<Answer>, what: AnswerType, service: Option<Service>)
    requires list == [] || IsOne(list[0], what, service)
    ensures FirstOne(list, 0, what, service) && (list != [] ==> list[..0] + list[1..] == list[1..])
  {
    hide IsOne;
  }

  lemma OneIs(a: Answer, what: AnswerType, service: Option<Service>)
    ensures IsOne(a, what, service) <==> a.what == what && a.service == service
  {
  }

  lemma FirstBehind(list: seq<Answer>, l: nat, what: AnswerType, service: Option<Service>)
    requires list != [] && !IsOne(list[0], what, service) && FirstOne(list[1..], l, what, service)
    ensures l < |list| && FirstOne(list, l + 1, what, service)
  {
    hide IsOne;
    assert forall j :: 1 <= j < |list| ==> list[j] == list[1..][j - 1];
  }

  lemma CutBehind(list: seq<Answer>, l: nat)
    requires list != [] && l <= |list| - 1
    ensures l < |list| - 1 ==> [list[0]] + (list[1..][..l] + list[1..][l + 1..]) == list[..l + 1] + list[l + 2..]
    ensures [list[0]] + list[1..] == list
  {
  }

  /**
   * An announcement on its way, extended by `services`: their records join the answers; with addresses, the hosts'
   * records do too, and this host's leave the additional section.
   */
  ghost predicate SaysMore(p: Tx, q: Tx, services: seq<Service>, ip: bool, hosts: map<nat, Host>) {
    && q == p.(answers := q.answers, additional := q.additional) && Added(p.answers, q.answers, true)
    && (forall a :: Contains(q.answers, a)
               <==> Contains(p.answers, a) || OfServices(a, services) || (ip && OfHosts(a, services, hosts)))
    && if ip then exists mid :: FirstGone(p.additional, mid, A, None) && FirstGone(mid, q.additional, Aaaa, None)
       else q.additional == p.additional
  }

  lemma ExtendedSays(p: Tx, services: seq<Service>, ip: bool, hosts: map<nat, Host>)
    ensures SaysMore(p, Extended(p, services, ip, hosts), services, ip, hosts)
  {
    hide Contains, AddServices, AddHosts, Added, OfServices, OfHosts, DropAnswer, FirstGone;
    var q := Extended(p, services, ip, hosts);
    var more := AddServices(p.answers, services);
    DropAnswerIs(p.additional, A, None);
    DropAnswerIs(DropAnswer(p.additional, A, None), Aaaa, None);
    forall a: Answer
      ensures Added(p.answers, q.answers, true)
      ensures Contains(q.answers, a)
         <==> Contains(p.answers, a) || OfServices(a, services) || (ip && OfHosts(a, services, hosts))
    {
      ServicesAdded(p.answers, services, a);
      if ip {
        HostsAdded(more, services, hosts, true, a);
        AddedTrans(p.answers, more, q.answers, true);
      }
    }
    var any := SrvAnswer(Service(0, 0), false);
    assert Contains(q.answers, any)
      <==> Contains(p.answers, any) || OfServices(any, services) || (ip && OfHosts(any, services, hosts));
  }

  // ---------------------------------------------------------------- from the proposals of a probe to its announcement

  /** What the announcement made from a probe says: the services in full, their hosts, this host if it was proposed. */
  predicate ToAnnounce(a: Answer, services: seq<Service>, ip: bool, hosts: map<nat, Host>) {
    OfServices(a, services) || OfAny(a, services, hosts) || (ip && OfHosts(a, services, hosts))
  }

  lemma AnnounceFromSays(id: nat, p: Tx, services: seq<Service>, ip: bool, hosts: map<nat, Host>, unicast: bool)
    requires SaysProbe(p, services, ip, hosts, unicast)
    ensures var q := AnnounceFrom(id, p, hosts);
            && q.questions == [] && q.servers == [] && q.additional == [] && !q.distributed
            && DistinctAnswers(q.answers) && AllSuit(q.answers, true)
            && (forall a :: Contains(q.answers, a) <==> ToAnnounce(a, services, ip, hosts))
  {
    hide SaysProbe, Contains, DistinctAnswers, AllSuit, AnnouncedAnswers, CalledFor, ToAnnounce;
    var q := AnnounceFrom(id, p, hosts);
    AnnouncementIsExact(id, p, hosts, SrvAnswer(Service(0, 0), false));
    forall a: Answer
      ensures Contains(q.answers, a) <==> ToAnnounce(a, services, ip, hosts)
    {
      AnnouncementIsExact(id, p, hosts, a);
      CalledForIs(p, services, ip, hosts, unicast, a);
    }
  }

  lemma CalledForIs(p: Tx, services: seq<Service>, ip: bool, hosts: map<nat, Host>, unicast: bool, a: Answer)
    requires SaysProbe(p, services, ip, hosts, unicast)
    ensures CalledFor(a, p.servers, hosts) <==> ToAnnounce(a, services, ip, hosts)
  {
    hide Plain, Asks, DistinctAnswers, AllSuit, HostItem;
    if CalledFor(a, p.servers, hosts) {
      var k :| 0 <= k < |p.servers| && CalledForBy(a, p.servers[k], hosts);
      var s := p.servers[k];
      assert SameAnswer(s, s) && Contains(p.servers, s);
      assert ToPropose(s, services, ip, hosts);
      if s.what == Srv {
        var j :| 0 <= j < |services| && services[j] == s.service.value;
        assert HostRecord(a, HostItem(hosts, services[j])) ==> OfAny(a, services, hosts);
      } else {
        assert OfHosts(s, services, hosts);
        SameHosts(s, a, services, hosts);
      }
    }
    if OfServices(a, services) {
      Proposed(p, services, ip, hosts, unicast, SrvAnswer(a.service.value, false), a);
    } else if OfAny(a, services, hosts) {
      var j :| 0 <= j < |services| && HostRecord(a, HostItem(hosts, services[j]));
      Proposed(p, services, ip, hosts, unicast, SrvAnswer(services[j], false), a);
    } else if ip && OfHosts(a, services, hosts) {
      Proposed(p, services, ip, hosts, unicast, a, a);
    }
  }

  lemma SameHosts(s: Answer, a: Answer, services: seq<Service>, hosts: map<nat, Host>)
    requires OfHosts(s, services, hosts) && a.what == s.what && a.service == None && a.host == s.host
    ensures OfHosts(a, services, hosts)
  {
    hide HostItem;
    if services != [] {
      var k :| 0 <= k < |services| && HostRecord(s, HostItem(hosts, services[k]));
      assert HostRecord(a, HostItem(hosts, services[k]));
    }
  }

  /** What is proposed calls for what goes with it. */
  lemma Proposed(p: Tx, services: seq<Service>, ip: bool, hosts: map<nat, Host>, unicast: bool, s: Answer, a: Answer)
    requires SaysProbe(p, services, ip, hosts, unicast) && ToPropose(s, services, ip, hosts)
    requires CalledForBy(a, s, hosts)
    ensures CalledFor(a, p.servers, hosts)
  {
    hide Plain, Asks, DistinctAnswers, AllSuit, OfHosts, HostItem;
    assert Contains(p.servers, s);
    var k :| 0 <= k < |p.servers| && SameAnswer(p.servers[k], s);
    assert CalledForBy(a, p.servers[k], hosts);
  }
}
