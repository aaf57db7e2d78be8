/** From probe to announcement. */
module Announcement {
  import opened Options
  import opened TxPacket
  import opened Responder
  import opened ResponderInvariant

  /** No two answers agree on type, service and host. */
  predicate DistinctAnswers(list: seq<Answer>) {
    forall i, j :: 0 <= i < j < |list| ==> !SameAnswer(list[i], list[j])
  }

  /** What the entry `s` of a probe's server list calls for. */
  predicate CalledForBy(a: Answer, s: Answer, hosts: map<nat, Host>) {
    if s.what == Srv && s.service.Some? then
      ServiceRecord(a, s.service.value) || HostRecord(a, HostItem(hosts, s.service.value))
    else
      (s.what == A || s.what == Aaaa) && a.what == s.what && a.service == None && a.host == s.host
  }

  predicate CalledFor(a: Answer, servers: seq<Answer>, hosts: map<nat, Host>) {
    exists k :: 0 <= k < |servers| && CalledForBy(a, servers[k], hosts)
  }

  /**
   * In an announcement (`final`) unique records carry the cache-flush bit and shared ones do not; in a probe's
   * proposals none does.  Nothing is a goodbye.
   */
  predicate Suits(a: Answer, final: bool) {
    !a.bye && (a.flush <==> final && a.what != Sdptr && a.what != Ptr)
  }

  predicate AllSuit(list: seq<Answer>, final: bool) {
    forall k :: 0 <= k < |list| ==> Suits(list[k], final)
  }

  /** One of the four records that announce a service. */
  predicate ServiceRecord(a: Answer, s: Service) {
    a.service == Some(s) && a.host == None && (a.what == Sdptr || a.what == Ptr || a.what == Srv || a.what == Txt)
  }

  /** One of the two address records of a host. */
  predicate HostRecord(a: Answer, host: Option<Host>) {
    a.service == None && a.host == host && (a.what == A || a.what == Aaaa)
  }

  /** Answers were only added, none twice, and each as it should be. */
  predicate Added(list: seq<Answer>, r: seq<Answer>, final: bool) {
    && list <= r && (DistinctAnswers(list) ==> DistinctAnswers(r))
    && forall k :: |list| <= k < |r| ==> Suits(r[k], final)
  }

  lemma AddedTrans(a: seq<Answer>, b: seq<Answer>, c: seq<Answer>, final: bool)
    requires Added(a, b, final) && Added(b, c, final)
    ensures Added(a, c, final)
  {
    hide DistinctAnswers, Suits;
    forall k | |a| <= k < |c|
      ensures Suits(c[k], final)
    {
      if k < |b| {
        assert c[k] == b[k];
      }
    }
  }

  lemma AddedNothing(list: seq<Answer>, final: bool)
    ensures Added(list, list, final)
  {
  }

  /** A list that began empty. */
  lemma AddedAll(r: seq<Answer>, final: bool)
    requires Added([], r, final)
    ensures DistinctAnswers(r) && AllSuit(r, final)
  {
  }

  /** Adding one answer: nothing else appears, nothing is lost, nothing is doubled. */
  lemma AddOne(list: seq<Answer>, a: Answer, b: Answer, final: bool)
    requires Suits(a, final)
    ensures Added(list, AddAnswer(list, a), final)
    ensures Contains(AddAnswer(list, a), b) <==> Contains(list, b) || SameAnswer(a, b)
  {
    var r := AddAnswer(list, a);
    if Contains(list, a) {
      if SameAnswer(a, b) {
        var k :| 0 <= k < |list| && SameAnswer(list[k], a);
        assert SameAnswer(list[k], b);
      }
    } else {
      assert r[|list|] == a;
      if Contains(list, b) {
        var k :| 0 <= k < |list| && SameAnswer(list[k], b);
        assert SameAnswer(r[k], b);
      }
      if Contains(r, b) {
        var k :| 0 <= k < |r| && SameAnswer(r[k], b);
        assert k < |list| ==> SameAnswer(list[k], b);
      }
    }
  }

  lemma ServiceAdded(list: seq<Answer>, s: Service, b: Answer)
    ensures Added(list, AddService(list, s), true)
    ensures Contains(AddService(list, s), b) <==> Contains(list, b) || ServiceRecord(b, s)
  {
    hide AddAnswer, Contains, Added;
    var sdptr, ptr, txt := Answer(Sdptr, Some(s), None, false, false), Answer(Ptr, Some(s), None, false, false),
                           Answer(Txt, Some(s), None, true, false);
    AddOne(list, sdptr, b, true);
    var l1 := AddAnswer(list, sdptr);
    AddOne(l1, ptr, b, true);
    var l2 := AddAnswer(l1, ptr);
    AddOne(l2, SrvAnswer(s, true), b, true);
    var l3 := AddAnswer(l2, SrvAnswer(s, true));
    AddOne(l3, txt, b, true);
    AddedTrans(list, l1, l2, true);
    AddedTrans(list, l2, l3, true);
    AddedTrans(list, l3, AddAnswer(l3, txt), true);
  }

  lemma HostAdded(list: seq<Answer>, host: Option<Host>, flush: bool, b: Answer)
    ensures Added(list, AddHost(list, host, flush), flush)
    ensures Contains(AddHost(list, host, flush), b) <==> Contains(list, b) || HostRecord(b, host)
  {
    hide AddAnswer, Contains, Added;
    var a4, a6 := Answer(A, None, host, flush, false), Answer(Aaaa, None, host, flush, false);
    AddOne(list, a4, b, flush);
    AddOne(AddAnswer(list, a4), a6, b, flush);
    AddedTrans(list, AddAnswer(list, a4), AddAnswer(AddAnswer(list, a4), a6), flush);
  }

  lemma EntryAdded(list: seq<Answer>, s: Answer, hosts: map<nat, Host>, b: Answer)
    ensures Added(list, AddAnnounced(list, s, hosts), true)
    ensures Contains(AddAnnounced(list, s, hosts), b) <==> Contains(list, b) || CalledForBy(b, s, hosts)
  {
    hide AddAnswer, Contains, Added, AddService, AddHost;
    if s.what == Srv && s.service.Some? {
      var l1 := AddService(list, s.service.value);
      ServiceAdded(list, s.service.value, b);
      HostAdded(l1, HostItem(hosts, s.service.value), true, b);
      AddedTrans(list, l1, AddHost(l1, HostItem(hosts, s.service.value), true), true);
    } else if s.what == A || s.what == Aaaa {
      AddOne(list, Answer(s.what, None, s.host, true, false), b, true);
    } else {
      AddedNothing(list, true);
    }
  }

  lemma {:induction false} EntriesAdded(list: seq<Answer>, servers: seq<Answer>, hosts: map<nat, Host>, b: Answer)
    ensures Added(list, AnnouncedAnswers(list, servers, hosts), true)
    ensures Contains(AnnouncedAnswers(list, servers, hosts), b) <==> Contains(list, b) || CalledFor(b, servers, hosts)
    decreases |servers|
  {
    hide AddAnnounced, Contains, Added, CalledForBy;
    if servers == [] {
      AddedNothing(list, true);
    } else {
      EntryAdded(list, servers[0], hosts, b);
      EntriesAdded(AddAnnounced(list, servers[0], hosts), servers[1..], hosts, b);
      AddedTrans(list, AddAnnounced(list, servers[0], hosts), AnnouncedAnswers(list, servers, hosts), true);
    }
  }

  /**
   * Probe to announcement: the announcement holds exactly the records the probe's proposals call for (for every SRV
   * the four records of the service and both address types of its host, and every address proposed by itself), each
   * once.
   */
  lemma AnnouncementIsExact(id: nat, probe: Tx, hosts: map<nat, Host>, a: Answer)
    ensures var p := AnnounceFrom(id, probe, hosts);
            && (Contains(p.answers, a) <==> CalledFor(a, probe.servers, hosts))
            && DistinctAnswers(p.answers) && AllSuit(p.answers, true)
            && p.questions == [] && p.servers == [] && p.additional == [] && p.pcb == probe.pcb
  {
    EntriesAdded([], probe.servers, hosts, a);
    AddedAll(AnnouncedAnswers([], probe.servers, hosts), true);
  }

  /** In particular every service being probed is announced in full. */
  lemma ProbedServicesAreAnnounced(c: Pcb, id: nat, probe: Tx, hosts: map<nat, Host>, s: Service, what: AnswerType)
    requires IsProbe(c, probe) && s in c.probeServices && (what == Sdptr || what == Ptr || what == Srv || what == Txt)
    ensures Contains(AnnounceFrom(id, probe, hosts).answers, Answer(what, Some(s), None, what == Srv || what == Txt, false))
  {
    hide AnnouncedAnswers, Contains;
    var a := Answer(what, Some(s), None, what == Srv || what == Txt, false);
    var k :| 0 <= k < |probe.servers| && probe.servers[k].what == Srv && probe.servers[k].service == Some(s);
    assert CalledForBy(a, probe.servers[k], hosts);
    AnnouncementIsExact(id, probe, hosts, a);
  }
}
