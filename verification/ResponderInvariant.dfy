/** What every operation of the responder keeps. */
module ResponderInvariant {
  import opened Options
  import opened TxPacket
  import opened Responder

  // ---------------------------------------------------------------- the invariant

  predicate Unicast(p: Tx) {
    forall q :: q in p.questions ==> q.unicast
  }

  predicate NoUnicast(p: Tx) {
    forall q :: q in p.questions ==> !q.unicast
  }

  /** The probe proposes an SRV record for the service. */
  predicate Proposes(servers: seq<Answer>, s: Service) {
    exists k :: 0 <= k < |servers| && servers[k].what == Srv && servers[k].service == Some(s)
  }

  predicate ProposesHost(servers: seq<Answer>) {
    exists k :: 0 <= k < |servers| && servers[k].service == None
  }

  /** Every name is asked about once, and no question is another host's. */
  predicate Plain(questions: seq<Question>) {
    && (forall i, j :: 0 <= i < j < |questions| ==> questions[i].about != questions[j].about)
    && (forall i :: 0 <= i < |questions| ==> !questions[i].about.Echo?)
  }

  /** `p` is the probe for what `c` is probing. */
  predicate IsProbe(c: Pcb, p: Tx) {
    && p.answers == [] && p.additional == [] && !p.distributed && Plain(p.questions)
    && (forall s :: s in c.probeServices ==> Proposes(p.servers, s))
    && (c.probeIp ==> ProposesHost(p.servers))
  }

  /** The packets the handler sent on interface `i` since its latest probing phase began. */
  function SinceStart(log: seq<Event>, i: nat): (r: seq<Event>)
    ensures forall e :: e in r ==> e.Sent? && e.pcb == i
  {
    if log == [] then []
    else
      var e, before := log[|log| - 1], SinceStart(log[..|log| - 1], i);
      if e.pcb != i then before
      else if e.Started? then []
      else before + [e]
  }

  /** Each of the dispatches in `sent` was of packet `id`, the first asking for unicast answers and no other, 250 ms apart. */
  predicate Cadence(sent: seq<Event>, id: nat) {
    && (forall k :: 0 <= k < |sent| ==> sent[k].Sent? && sent[k].tx.id == id)
    && (forall k :: 0 <= k < |sent| ==> if k == 0 then Unicast(sent[k].tx) else NoUnicast(sent[k].tx))
    && (forall k, l :: 0 <= k && l == k + 1 < |sent| ==> sent[k].at + 250 <= sent[l].at)
  }

  /** Where the probe `p` of `c` stands: one dispatch per state passed, and the next one not before its time. */
  predicate OnBeat(c: Pcb, p: Tx, sent: seq<Event>)
    requires c.state.Probing()
  {
    && 3 + |sent| == c.state.Rank()
    && Cadence(sent, p.id)
    && (sent != [] ==> sent[|sent| - 1].at + 250 <= p.sendAt)
    && (if c.state == Probe1 then Unicast(p) else NoUnicast(p))
  }

  /** The fields of one interface agree with each other. */
  predicate FieldsOk(c: Pcb) {
    && (c.ready <==> c.state != Off) && c.state != Dup && c.state != Init
    && (c.probeRunning <==> c.state.Probing())
    && (c.probeServices != [] || c.probeIp <==> c.state.Probing())
    && NoDuplicates(c.probeServices)
  }

  /** An interface, its packets, and what it sent since it last started probing. */
  predicate PcbOk(c: Pcb, mine: seq<Tx>, sent: seq<Event>, hostSet: bool) {
    && FieldsOk(c)
    && (c.state.Probing() ==> hostSet && |mine| == 1 && IsProbe(c, mine[0]) && OnBeat(c, mine[0], sent))
  }

  predicate OkAt(v: Server, i: nat)
    requires i < |v.pcbs|
  {
    PcbOk(v.pcbs[i], On(v.tx, i), SinceStart(v.log, i), v.hostSet)
  }

  /** The queue is ordered, identities are distinct and not yet given out again. */
  predicate QueueOk(v: Server) {
    && Sorted(v.tx) && DistinctIds(v.tx) && KnownPcbs(v.tx, v.pcbs)
    && (forall p :: p in v.tx ==> p.id < v.nextId)
  }

  predicate Inv(v: Server) {
    QueueOk(v) && NoDuplicates(v.services) && forall i :: 0 <= i < |v.pcbs| ==> OkAt(v, i)
  }

  /** Interface `j` does not notice the step from `v` to `w`. */
  predicate Unaffected(v: Server, w: Server, j: nat) {
    && |v.pcbs| == |w.pcbs| && v.hostSet == w.hostSet
    && (j < |v.pcbs| ==> v.pcbs[j] == w.pcbs[j])
    && On(v.tx, j) == On(w.tx, j) && SinceStart(v.log, j) == SinceStart(w.log, j)
  }

  // ---------------------------------------------------------------- packets are built right

  lemma AddAnswerKeeps(list: seq<Answer>, a: Answer)
    ensures var r := AddAnswer(list, a); list <= r && Contains(r, a)
  {
    if !Contains(list, a) {
      assert (list + [a])[|list|] == a;
    }
  }

  lemma AddHostKeeps(list: seq<Answer>, host: Option<Host>, flush: bool)
    ensures var r := AddHost(list, host, flush); list <= r && ProposesHost(r)
  {
    var a, b := Answer(A, None, host, flush, false), Answer(Aaaa, None, host, flush, false);
    AddAnswerKeeps(list, a);
    AddAnswerKeeps(AddAnswer(list, a), b);
    var r := AddHost(list, host, flush);
    var k :| 0 <= k < |r| && SameAnswer(r[k], b);
    assert r[k].service == None;
  }

  lemma {:induction false} AddHostsOfKeeps(list: seq<Answer>, services: seq<Service>, hosts: map<nat, Host>,
                                           flush: bool)
    ensures var r := AddHostsOf(list, services, hosts, flush); list <= r && (services != [] ==> ProposesHost(r))
    decreases |services|
  {
    if services != [] {
      var next := AddHost(list, HostItem(hosts, services[0]), flush);
      AddHostKeeps(list, HostItem(hosts, services[0]), flush);
      AddHostsOfKeeps(next, services[1..], hosts, flush);
      PrefixProposes(next, AddHostsOf(next, services[1..], hosts, flush));
    }
  }

  lemma PrefixProposes(a: seq<Answer>, b: seq<Answer>)
    requires a <= b
    ensures ProposesHost(a) ==> ProposesHost(b)
    ensures forall s :: Proposes(a, s) ==> Proposes(b, s)
  {
    assert forall k :: 0 <= k < |a| ==> a[k] == b[k];
  }

  /** Whatever instance is asked about is also proposed. */
  ghost predicate Backed(d: Draft) {
    forall s: Service :: Asks(d.questions, Instance(s)) ==> Proposes(d.servers, s)
  }

  predicate OnlyUnicast(questions: seq<Question>, unicast: bool) {
    forall q :: q in questions ==> q.unicast == unicast
  }

  /** One service added to a draft. */
  lemma ProbedOne(d: Draft, s: Service, unicast: bool)
    requires Backed(d) && OnlyUnicast(d.questions, unicast) && !Asks(d.questions, Instance(s))
    ensures var e := Draft(d.questions + [Question(Instance(s), unicast)], AddAnswer(d.servers, SrvAnswer(s, false)));
            Backed(e) && OnlyUnicast(e.questions, unicast) && Proposes(e.servers, s)
            && forall t: Service :: Asks(d.questions, Instance(t)) ==> Asks(e.questions, Instance(t))
  {
    var e := Draft(d.questions + [Question(Instance(s), unicast)], AddAnswer(d.servers, SrvAnswer(s, false)));
    AddAnswerKeeps(d.servers, SrvAnswer(s, false));
    PrefixProposes(d.servers, e.servers);
    var k :| 0 <= k < |e.servers| && SameAnswer(e.servers[k], SrvAnswer(s, false));
    assert e.servers[k].what == Srv && e.servers[k].service == Some(s);
    forall t: Service | Asks(e.questions, Instance(t))
      ensures Proposes(e.servers, t)
    {
      var i :| 0 <= i < |e.questions| && e.questions[i].about == Instance(t);
      if i < |d.questions| {
        assert d.questions[i].about == Instance(t);
      }
    }
    forall t: Service | Asks(d.questions, Instance(t))
      ensures Asks(e.questions, Instance(t))
    {
      var i :| 0 <= i < |d.questions| && d.questions[i].about == Instance(t);
      assert e.questions[i].about == Instance(t);
    }
  }

  lemma {:induction false} AddProbedBacked(d: Draft, services: seq<Service>, unicast: bool)
    requires Backed(d) && OnlyUnicast(d.questions, unicast)
    ensures var r := AddProbed(d, services, unicast);
            && Backed(r) && OnlyUnicast(r.questions, unicast)
            && (forall s :: s in services ==> Proposes(r.servers, s))
            && (forall t: Service :: Asks(d.questions, Instance(t)) ==> Asks(r.questions, Instance(t)))
    decreases |services|
  {
    hide Asks, Proposes, AddAnswer, OnlyUnicast, Backed;
    if services != [] {
      var s := services[0];
      if Asks(d.questions, Instance(s)) {
        AddProbedBacked(d, services[1..], unicast);
      } else {
        var next := Draft(d.questions + [Question(Instance(s), unicast)], AddAnswer(d.servers, SrvAnswer(s, false)));
        ProbedOne(d, s, unicast);
        NowAsked(d.questions, s, unicast);
        AddProbedBacked(next, services[1..], unicast);
      }
      var r := AddProbed(d, services, unicast);
      BackedAt(r, s);
      assert forall t :: t in services ==> t == s || t in services[1..];
    }
  }

  lemma NowAsked(questions: seq<Question>, s: Service, unicast: bool)
    ensures Asks(questions + [Question(Instance(s), unicast)], Instance(s))
  {
    assert (questions + [Question(Instance(s), unicast)])[|questions|].about == Instance(s);
  }

  lemma BackedAt(d: Draft, s: Service)
    requires Backed(d) && Asks(d.questions, Instance(s))
    ensures Proposes(d.servers, s)
  {
  }

  lemma {:induction false} HostQuestionsUnicast(questions: seq<Question>, services: seq<Service>, unicast: bool)
    requires OnlyUnicast(questions, unicast)
    ensures OnlyUnicast(AddHostQuestions(questions, services, unicast), unicast)
    decreases |services|
  {
    if services != [] {
      HostQuestionsUnicast(AddQuestion(questions, HostOf(services[0]), unicast), services[1..], unicast);
    }
  }

  /** The instances asked about are exactly `services`. */
  ghost predicate AsksExactly(questions: seq<Question>, services: seq<Service>) {
    Plain(questions) && forall t: Service :: Asks(questions, Instance(t)) <==> t in services
  }

  lemma AskedAfter(questions: seq<Question>, about: Subject, unicast: bool)
    requires Plain(questions) && !about.Echo?
    ensures var r := AddQuestion(questions, about, unicast);
            Plain(r) && forall b :: Asks(r, b) <==> Asks(questions, b) || b == about
  {
    var r := AddQuestion(questions, about, unicast);
    forall b
      ensures Asks(r, b) <==> Asks(questions, b) || b == about
    {
      if Asks(questions, b) {
        var i :| 0 <= i < |questions| && questions[i].about == b;
        assert r[i].about == b;
      }
      if b == about && !Asks(questions, about) {
        assert r[|questions|].about == b;
      }
    }
  }

  lemma {:induction false} ProbedAsked(d: Draft, services: seq<Service>, unicast: bool)
    requires Plain(d.questions)
    ensures var r := AddProbed(d, services, unicast).questions;
            && Plain(r)
            && forall b :: Asks(r, b) <==> Asks(d.questions, b) || (b.Instance? && b.service in services)
    decreases |services|
  {
    hide Asks, Plain, AddAnswer;
    if services != [] {
      var s := services[0];
      AskedAfter(d.questions, Instance(s), unicast);
      var next := if Asks(d.questions, Instance(s)) then d
                  else Draft(d.questions + [Question(Instance(s), unicast)], AddAnswer(d.servers, SrvAnswer(s, false)));
      assert next.questions == AddQuestion(d.questions, Instance(s), unicast);
      ProbedAsked(next, services[1..], unicast);
      assert forall t :: t in services <==> t == s || t in services[1..];
    }
  }

  lemma {:induction false} HostsAsked(questions: seq<Question>, services: seq<Service>, unicast: bool)
    requires Plain(questions)
    ensures var r := AddHostQuestions(questions, services, unicast);
            Plain(r) && forall b :: Asks(r, b) <==> Asks(questions, b) || (b.HostOf? && b.service in services)
    decreases |services|
  {
    hide Asks, Plain;
    if services != [] {
      AskedAfter(questions, HostOf(services[0]), unicast);
      HostsAsked(AddQuestion(questions, HostOf(services[0]), unicast), services[1..], unicast);
      assert forall t :: t in services <==> t == services[0] || t in services[1..];
    }
  }

  /** What a probe for `services` has to ask about: each of them and, if addresses are probed, this host and theirs. */
  predicate ToProbe(b: Subject, services: seq<Service>, ip: bool) {
    || (b.Instance? && b.service in services)
    || (ip && (b == SelfHost || (b.HostOf? && b.service in services)))
  }

  /** It asks about exactly that, each once. */
  lemma ProbeAsksExactly(id: nat, i: nat, services: seq<Service>, unicast: bool, ip: bool, hosts: map<nat, Host>)
    ensures var qs := ProbePacket(id, i, services, unicast, ip, hosts).questions;
            AsksExactly(qs, services) && forall b :: Asks(qs, b) <==> ToProbe(b, services, ip)
  {
    hide AddProbed, AddHosts, AddHostQuestions, AddQuestion;
    assert Plain([]) && forall b :: !Asks([], b);
    ProbedAsked(Draft([], []), services, unicast);
    var d := AddProbed(Draft([], []), services, unicast);
    if ip {
      AskedAfter(d.questions, SelfHost, unicast);
      HostsAsked(AddQuestion(d.questions, SelfHost, unicast), services, unicast);
    }
  }

  /** A fresh probe packet is the probe for what it was made for. */
  lemma ProbePacketIsProbe(id: nat, i: nat, c: Pcb, unicast: bool, hosts: map<nat, Host>)
    ensures var p := ProbePacket(id, i, c.probeServices, unicast, c.probeIp, hosts);
            && IsProbe(c, p) && OnlyUnicast(p.questions, unicast) && p.id == id && p.pcb == i && !p.queued
            && AsksExactly(p.questions, c.probeServices)
  {
    ProbeAsksExactly(id, i, c.probeServices, unicast, c.probeIp, hosts);
    hide Plain, Asks, Proposes, ProposesHost, AddProbed, AddHosts, OnlyUnicast, AddHostQuestions, AddQuestion, Backed;
    NothingBacked(unicast);
    AddProbedBacked(Draft([], []), c.probeServices, unicast);
    var d := AddProbed(Draft([], []), c.probeServices, unicast);
    if c.probeIp {
      AddHostsKeeps(d.servers, c.probeServices, hosts, false);
      PrefixProposes(d.servers, AddHosts(d.servers, c.probeServices, hosts, false));
      OneQuestion(d.questions, SelfHost, unicast);
      HostQuestionsUnicast(AddQuestion(d.questions, SelfHost, unicast), c.probeServices, unicast);
    }
  }

  lemma NothingBacked(unicast: bool)
    ensures Backed(Draft([], [])) && OnlyUnicast([], unicast)
  {
  }

  lemma OneQuestion(questions: seq<Question>, about: Subject, unicast: bool)
    requires OnlyUnicast(questions, unicast)
    ensures OnlyUnicast(AddQuestion(questions, about, unicast), unicast)
  {
  }

  lemma AddHostsKeeps(list: seq<Answer>, services: seq<Service>, hosts: map<nat, Host>, flush: bool)
    ensures var r := AddHosts(list, services, hosts, flush); list <= r && ProposesHost(r)
  {
    if services == [] {
      AddHostKeeps(list, Some(SELF), flush);
    } else {
      AddHostsOfKeeps(list, services, hosts, flush);
    }
  }

  // ---------------------------------------------------------------- the log

  lemma SinceStartAppend(log: seq<Event>, e: Event, i: nat)
    ensures SinceStart(log + [e], i) ==
            if e.pcb != i then SinceStart(log, i) else if e.Started? then [] else SinceStart(log, i) + [e]
  {
    assert (log + [e])[..|log|] == log;
  }

  // ---------------------------------------------------------------- probing

  /** Enough for a probing phase to start on an interface; weaker than the invariant, as old probes may be cleared first. */
  predicate MayProbe(v: Server, i: nat, services: seq<Service>, ip: bool)
    requires i < |v.pcbs|
  {
    var c := v.pcbs[i];
    && c.ready && c.state != Dup && c.state != Init
    && NoDuplicates(c.probeServices) && NoDuplicates(services)
    && (!c.state.Probing() ==> !c.probeRunning && c.probeServices == [] && !c.probeIp)
    && (c.state.Probing() ==> v.hostSet)
    && (services != [] || ip)
  }

  lemma NotInDistinct(services: seq<Service>, known: seq<Service>)
    requires NoDuplicates(services)
    ensures NoDuplicates(NotIn(services, known))
  {
    if services != [] {
      assert forall i :: 0 <= i < |services| - 1 ==> services[1..][i] == services[i + 1];
      NotInDistinct(services[1..], known);
      var r := NotIn(services[1..], known);
      assert services[0] !in services[1..];
      assert forall k :: 0 <= k < |r| ==> r[k] in services[1..] && r[k] != services[0];
    }
  }

  /**
   * Probe merge: the services probed afterwards are those requested together with those already being probed, each
   * once, and address probing is wanted if it was or is wanted.
   */
  lemma MergeIsUnion(c: Pcb, services: seq<Service>)
    requires NoDuplicates(services) && NoDuplicates(c.probeServices) && c.state.Probing()
    ensures var r := Merged(c, NotIn(services, c.probeServices));
            && NoDuplicates(r)
            && forall s :: s in r <==> s in services || s in c.probeServices
  {
    var added := NotIn(services, c.probeServices);
    NotInDistinct(services, c.probeServices);
    var r := added + c.probeServices;
    assert forall k :: 0 <= k < |added| ==> r[k] == added[k] && r[k] in added;
    assert forall k :: |added| <= k < |r| ==> r[k] == c.probeServices[k - |added|] && r[k] in c.probeServices;
  }

  /** The same through the whole operation, whatever the interface was doing. */
  lemma ProbeMerge(v: Server, i: nat, services: seq<Service>, ip: bool, random: nat)
    requires i < |v.pcbs| && v.hostSet && MayProbe(v, i, services, ip)
    ensures var c, d := v.pcbs[i], InitProbe(v, i, services, ip, random).pcbs[i];
            && NoDuplicates(d.probeServices)
            && (forall s :: s in d.probeServices <==> s in services || s in c.probeServices)
            && (exists added :: d.probeServices == added + c.probeServices && forall s :: s in added ==> s in services)
            && d.probeIp == (c.probeIp || ip) && d.probeRunning && d.state == Probe1
  {
    hide WithoutPcb, Insert, ProbePacket;
    var c := v.pcbs[i];
    var d := InitProbe(v, i, services, ip, random).pcbs[i];
    if c.state.Probing() {
      MergeIsUnion(c, services);
      assert d.probeServices == NotIn(services, c.probeServices) + c.probeServices;
    } else {
      assert services + [] == services;
      assert d.probeServices == services + c.probeServices;
    }
  }

  lemma InsertFresh(v: Server, p: Tx, after: nat)
    requires Sorted(v.tx) && DistinctIds(v.tx) && KnownPcbs(v.tx, v.pcbs) && p.pcb < |v.pcbs|
    requires (forall q :: q in v.tx ==> q.id < v.nextId && q.id != p.id) && p.id < v.nextId
    ensures var w := Schedule(v, p, after);
            && QueueOk(w)
            && (forall j :: j != p.pcb ==> On(w.tx, j) == On(v.tx, j))
            && On(w.tx, p.pcb) == Insert(On(v.tx, p.pcb), p.(sendAt := v.now + after))
  {
    var q := p.(sendAt := v.now + after);
    InsertKeeps(v.tx, q);
    forall j: nat
      ensures On(Insert(v.tx, q), j) == if q.pcb == j then Insert(On(v.tx, j), q) else On(v.tx, j)
    {
      OnInsert(v.tx, q, j);
    }
  }

  /** Starting to probe on one interface: it is then as the invariant wants it, and no other interface notices. */
  lemma StartProbeOk(v: Server, i: nat, services: seq<Service>, ip: bool, random: nat)
    requires i < |v.pcbs| && QueueOk(v) && On(v.tx, i) == [] && v.hostSet
    requires var c := v.pcbs[i];
             && c.ready && NoDuplicates(Merged(c, services)) && (Merged(c, services) != [] || c.probeIp || ip)
    ensures var w := StartProbe(v, i, services, ip, random);
            && |w.pcbs| == |v.pcbs| && QueueOk(w) && OkAt(w, i) && w.services == v.services && w.now == v.now
            && forall j :: j != i ==> Unaffected(v, w, j)
  {
    hide Sorted, DistinctIds, Insert, ProbePacket, IsProbe, KnownPcbs, Merged, Unicast, On;
    var c := v.pcbs[i];
    var d := c.(probeServices := Merged(c, services), probeIp := c.probeIp || ip, probeRunning := true, state := Probe1);
    var p := ProbePacket(v.nextId, i, d.probeServices, true, d.probeIp, v.hosts);
    ProbePacketIsProbe(v.nextId, i, d, true, v.hosts);
    var u := v.(pcbs := v.pcbs[i := d], nextId := v.nextId + 1, log := v.log + [Started(i, v.nextId)]);
    KnownSame(v.tx, v.pcbs, u.pcbs);
    InsertFresh(u, p, ProbeDelay(c.failedProbes, random));
    var q := p.(sendAt := v.now + ProbeDelay(c.failedProbes, random));
    RescheduledProbe(d, p, q);
    forall j: nat
      ensures SinceStart(u.log, j) == if j == i then [] else SinceStart(v.log, j)
    {
      SinceStartAppend(v.log, Started(i, v.nextId), j);
    }
  }

  lemma KnownSame(tx: seq<Tx>, a: seq<Pcb>, b: seq<Pcb>)
    requires KnownPcbs(tx, a) && |a| == |b|
    ensures KnownPcbs(tx, b)
  {
  }

  /** The time a probe is due says nothing about what it asks. */
  lemma RescheduledProbe(c: Pcb, p: Tx, q: Tx)
    requires q == p.(sendAt := q.sendAt) && IsProbe(c, p) && OnlyUnicast(p.questions, true)
    ensures IsProbe(c, q) && Unicast(q)
  {
  }

  lemma InitProbeOk(v: Server, i: nat, services: seq<Service>, ip: bool, random: nat)
    requires i < |v.pcbs| && QueueOk(v) && MayProbe(v, i, services, ip)
    ensures var w := InitProbe(v, i, services, ip, random);
            && |w.pcbs| == |v.pcbs| && QueueOk(w) && OkAt(w, i) && w.services == v.services && w.now == v.now
            && forall j :: j != i ==> Unaffected(v, w, j)
  {
    hide Sorted, DistinctIds, WithoutPcb, StartProbe, NoDuplicates;
    var c := v.pcbs[i];
    var u := v.(tx := WithoutPcb(v.tx, i));
    WithoutPcbKeeps(v.tx, i);
    forall j: nat
      ensures On(u.tx, j) == if j == i then [] else On(v.tx, j)
    {
      OnWithoutPcb(v.tx, i, j);
    }
    if v.hostSet {
      if c.state.Probing() {
        MergeIsUnion(c, services);
        if services != [] {
        }
        StartProbeOk(u, i, NotIn(services, c.probeServices), ip, random);
      } else {
        assert services + [] == services;
        StartProbeOk(u, i, services, ip, random);
        assert InitProbe(v, i, services, ip, random) == StartProbe(u, i, services, ip, random);
      }
      var w := InitProbe(v, i, services, ip, random);
      forall j: nat | j != i
        ensures Unaffected(v, w, j)
      {
        assert Unaffected(u, w, j);
      }
    } else {
      NoServicesDistinct();
    }
  }

  lemma NoServicesDistinct()
    ensures NoDuplicates<Service>([])
  {
  }

  // ---------------------------------------------------------------- sending

  /** The queue without its head, which is about to be handled. */
  lemma HeadGone(v: Server)
    requires QueueOk(v) && v.tx != []
    ensures var w := v.(tx := v.tx[1..]);
            && Sorted(w.tx) && DistinctIds(w.tx) && KnownPcbs(w.tx, w.pcbs)
            && (forall q :: q in w.tx ==> q.id < w.nextId && q.id != v.tx[0].id)
            && v.tx[0].id < v.nextId && v.tx[0].pcb < |v.pcbs|
            && forall j :: On(v.tx, j) == if v.tx[0].pcb == j then [v.tx[0]] + On(w.tx, j) else On(w.tx, j)
  {
    Tail(v.tx);
    assert forall q :: q in v.tx[1..] ==> q in v.tx;
    assert v.tx[0] in v.tx;
  }

  /** The next packet of an interface whose probe was just handled. */
  lemma ProbeGoesOn(c: Pcb, d: Pcb, p: Tx, q: Tx, sent: seq<Event>, e: Event)
    requires (c.state == Probe1 || c.state == Probe2) && FieldsOk(c) && OnBeat(c, p, sent) && IsProbe(c, p)
    requires d == c.(state := c.state.Next())
    requires e.Sent? && e.tx.questions == p.questions && e.tx.id == p.id && e.at > p.sendAt
    requires q == (if c.state == Probe1 then Multicast(p) else p).(sendAt := e.at + 250, queued := q.queued)
    ensures FieldsOk(d) && IsProbe(d, q) && OnBeat(d, q, sent + [e])
  {
    assert q.id == p.id && q.servers == p.servers;
    assert NoUnicast(q);
  }

  /** The packet a handled packet leaves in the queue, if any: itself, or the announcement made from it. */
  function Successor(v: Server, p: Tx): Option<Tx>
    requires p.pcb < |v.pcbs|
  {
    match v.pcbs[p.pcb].state
    case Probe1 => Some(Multicast(p).(sendAt := v.now + 250))
    case Probe2 => Some(p.(sendAt := v.now + 250))
    case Probe3 => Some(AnnounceFrom(v.nextId, p, v.hosts).(sendAt := v.now + 250))
    case Announce1 => Some(p.(sendAt := v.now + 1000))
    case Announce2 => Some(p.(sendAt := v.now + 1000))
    case _ => None
  }

  function StateAfter(c: Pcb): Pcb {
    match c.state
    case Probe1 => c.(state := Probe2)
    case Probe2 => c.(state := Probe3)
    case Probe3 => c.(state := Announce1, probeRunning := false, probeIp := false, probeServices := [], failedProbes := 0)
    case Announce1 => c.(state := Announce2)
    case Announce2 => c.(state := Announce3)
    case Announce3 => c.(state := Running)
    case _ => c
  }

  /** Everything a handling does. */
  lemma HandleDoes(v: Server, p: Tx)
    requires p.pcb < |v.pcbs|
    ensures var w, c, next := Handle(v, p), v.pcbs[p.pcb], Successor(v, p);
            && w.pcbs == v.pcbs[p.pcb := StateAfter(c)]
            && w.log == (if c.state == Off then v.log else v.log + [Sent(p.pcb, v.now, p)])
            && w.tx == (if next.Some? then Insert(v.tx, next.value) else v.tx)
            && w.nextId == (if c.state == Probe3 then v.nextId + 1 else v.nextId)
            && w.now == v.now && w.hostSet == v.hostSet && w.services == v.services
            && (next.Some? ==> next.value.pcb == p.pcb)
            && (next.Some? ==> next.value.id == (if c.state == Probe3 then v.nextId else p.id))
  {
    hide Multicast, Insert, AnnouncedAnswers;
    MulticastKeeps(p);
    assert v.pcbs[p.pcb := v.pcbs[p.pcb]] == v.pcbs;
  }

  /** A probe that was not contested: the interface has nothing left to probe, and earlier failures are forgiven. */
  lemma ProbeIsWon(v: Server, p: Tx)
    requires p.pcb < |v.pcbs| && v.pcbs[p.pcb].state == Probe3
    ensures Handle(v, p).pcbs[p.pcb] == Pcb(v.pcbs[p.pcb].ready, Announce1, [], false, false, 0)
  {
    hide Insert, AnnouncedAnswers;
  }

  lemma MulticastKeeps(p: Tx)
    ensures Multicast(p) == p.(questions := Multicast(p).questions) && NoUnicast(Multicast(p))
  {
  }

  /** Handling a packet of one interface is not noticed by the others. */
  lemma HandleEffect(v: Server, p: Tx)
    requires QueueOk(v) && v.tx != [] && p == v.tx[0].(queued := false)
    ensures var w := Handle(v.(tx := v.tx[1..]), p);
            QueueOk(w) && forall j :: j != p.pcb ==> Unaffected(v, w, j)
  {
    hide Sorted, DistinctIds, Insert, Handle, Successor, On, SinceStart, StateAfter;
    var u := v.(tx := v.tx[1..]);
    HeadGone(v);
    HandleDoes(u, p);
    var w, next := Handle(u, p), Successor(u, p);
    if next.Some? {
      var base := u.(pcbs := w.pcbs, nextId := w.nextId, now := 0);
      InsertFresh(base, next.value, next.value.sendAt);
    }
    forall j: nat | j != p.pcb
      ensures SinceStart(w.log, j) == SinceStart(v.log, j)
    {
      SinceStartAppend(v.log, Sent(p.pcb, v.now, p), j);
    }
  }

  lemma HandleAt(v: Server, p: Tx)
    requires QueueOk(v) && v.tx != [] && p == v.tx[0].(queued := false) && p.pcb < |v.pcbs|
    requires OkAt(v, p.pcb) && v.now > p.sendAt
    ensures OkAt(Handle(v.(tx := v.tx[1..]), p), p.pcb)
  {
    hide Sorted, DistinctIds, Handle, On, SinceStart, IsProbe, OnBeat, Successor, KnownPcbs;
    if v.pcbs[p.pcb].state == Probe1 || v.pcbs[p.pcb].state == Probe2 {
      HandleProbeAt(v, p);
    } else {
      HandleDoes(v.(tx := v.tx[1..]), p);
      NoServicesDistinct();
    }
  }

  lemma HandleProbeAt(v: Server, p: Tx)
    requires QueueOk(v) && v.tx != [] && p == v.tx[0].(queued := false) && p.pcb < |v.pcbs|
    requires OkAt(v, p.pcb) && v.now > p.sendAt && (v.pcbs[p.pcb].state == Probe1 || v.pcbs[p.pcb].state == Probe2)
    ensures OkAt(Handle(v.(tx := v.tx[1..]), p), p.pcb)
  {
    hide Sorted, DistinctIds, Handle, On, SinceStart, IsProbe, OnBeat, Multicast, Successor, KnownPcbs, FieldsOk,
      Insert,
      StateAfter;
    var u := v.(tx := v.tx[1..]);
    HeadGone(v);
    HandleDoes(u, p);
    assert On(u.tx, p.pcb) == [];
    ProbeHandled(v.pcbs[p.pcb], v.tx[0], p, SinceStart(v.log, p.pcb), v.now, v.log);
    SuccessorOfProbe(u, p);
    var q := Successor(u, p).value;
    OnInsert(u.tx, q, p.pcb);
  }

  lemma SuccessorOfProbe(v: Server, p: Tx)
    requires p.pcb < |v.pcbs| && (v.pcbs[p.pcb].state == Probe1 || v.pcbs[p.pcb].state == Probe2)
    ensures Successor(v, p) == Some((if v.pcbs[p.pcb].state == Probe1 then Multicast(p) else p).(sendAt := v.now + 250))
    ensures Successor(v, p).value.pcb == p.pcb
  {
  }

  /** A probe handled for the first or the second time. */
  lemma ProbeHandled(c: Pcb, head: Tx, p: Tx, sent: seq<Event>, now: nat, log: seq<Event>)
    requires (c.state == Probe1 || c.state == Probe2) && FieldsOk(c) && IsProbe(c, head) && OnBeat(c, head, sent)
    requires p == head.(queued := p.queued) && now > p.sendAt && sent == SinceStart(log, p.pcb)
    ensures var e, q := Sent(p.pcb, now, p), (if c.state == Probe1 then Multicast(p) else p).(sendAt := now + 250);
            && FieldsOk(StateAfter(c)) && IsProbe(StateAfter(c), q)
            && OnBeat(StateAfter(c), q, SinceStart(log + [e], p.pcb))
  {
    hide IsProbe, OnBeat, Multicast, SinceStart;
    var e, q := Sent(p.pcb, now, p), (if c.state == Probe1 then Multicast(p) else p).(sendAt := now + 250);
    SinceStartAppend(log, e, p.pcb);
    QueuedNoMatter(c, head, p, sent);
    MulticastKeeps(p);
    ProbeGoesOn(c, StateAfter(c), p, q, sent, e);
  }

  /** Whether a probe is marked as posted makes no difference to it. */
  lemma QueuedNoMatter(c: Pcb, p: Tx, q: Tx, sent: seq<Event>)
    requires q == p.(queued := q.queued) && c.state.Probing()
    ensures IsProbe(c, p) == IsProbe(c, q) && OnBeat(c, p, sent) == OnBeat(c, q, sent)
  {
  }

  /** Handling the head of the queue, once its time has come. */
  lemma HandleOk(v: Server, p: Tx)
    requires Inv(v) && v.tx != [] && p == v.tx[0].(queued := false) && v.now > p.sendAt
    ensures var u := v.(tx := v.tx[1..]);
            p.pcb < |v.pcbs| && Inv(Handle(u, p))
  {
    hide Handle, On, SinceStart, NoDuplicates, PcbOk, Sorted, DistinctIds;
    var u := v.(tx := v.tx[1..]);
    HeadGone(v);
    HandleDoes(u, p);
    HandleEffect(v, p);
    var w := Handle(u, p);
    assert OkAt(v, p.pcb);
    HandleAt(v, p);
    forall j | 0 <= j < |w.pcbs| && j != p.pcb
      ensures OkAt(w, j)
    {
      assert OkAt(v, j) && Unaffected(v, w, j);
    }
  }

  // ---------------------------------------------------------------- edits that move nothing

  /** The same packets in the same places, with other contents. */
  predicate Edited(a: seq<Tx>, b: seq<Tx>) {
    |a| == |b| && forall i :: 0 <= i < |a| ==> SameSlot(a[i], b[i])
  }

  predicate SameSlot(p: Tx, q: Tx) {
    p.id == q.id && p.pcb == q.pcb && p.sendAt == q.sendAt && p.queued == q.queued
  }

  lemma EditedQueue(v: Server, w: Server)
    requires QueueOk(v) && Edited(v.tx, w.tx) && |v.pcbs| == |w.pcbs| && v.nextId == w.nextId
    ensures QueueOk(w)
  {
    forall q | q in w.tx
      ensures q.pcb < |w.pcbs| && q.id < w.nextId
    {
      var i :| 0 <= i < |w.tx| && w.tx[i] == q;
      assert v.tx[i] in v.tx;
    }
  }

  // ---------------------------------------------------------------- announcing

  lemma {:induction false} EditFirstEdits(tx: seq<Tx>, i: nat, edit: Tx -> Tx)
    requires forall p :: SameSlot(p, edit(p))
    ensures Edited(tx, EditFirst(tx, i, edit))
    ensures forall j :: j != i ==> On(EditFirst(tx, i, edit), j) == On(tx, j)
  {
    if tx != [] {
      if tx[0].pcb == i {
        assert SameSlot(tx[0], edit(tx[0]));
        assert EditFirst(tx, i, edit)[1..] == tx[1..];
      } else {
        EditFirstEdits(tx[1..], i, edit);
        assert EditFirst(tx, i, edit)[1..] == EditFirst(tx[1..], i, edit);
      }
    }
  }

  lemma AnnounceOk(v: Server, i: nat, services: seq<Service>, ip: bool, random: nat)
    requires i < |v.pcbs| && Inv(v) && NoDuplicates(services) && (services != [] || ip)
    ensures Inv(Announce(v, i, services, ip, random))
    ensures |Announce(v, i, services, ip, random).pcbs| == |v.pcbs|
    ensures Announce(v, i, services, ip, random).services == v.services
  {
    hide On, SinceStart, IsProbe, OnBeat, InitProbe, EditFirst, Extended, NoDuplicates, QueueOk, PcbOk, Unaffected,
      AnnouncePacket, Insert;
    assert OkAt(v, i);
    var c := v.pcbs[i];
    var w := Announce(v, i, services, ip, random);
    AnnounceMayProbe(v, i, services, ip);
    if c.ready {
      if c.state.Probing() {
        InitProbeOk(v, i, services, ip, random);
      } else if c.state.Announcing() {
        if On(v.tx, i) != [] {
          ExtendOk(v, i, services, ip);
        }
      } else if c.state == Running && v.hostSet {
        AnnounceNewOk(v, i, services, ip);
      }
    }
    OthersOk(v, w, i);
  }

  lemma AnnounceMayProbe(v: Server, i: nat, services: seq<Service>, ip: bool)
    requires i < |v.pcbs| && OkAt(v, i) && NoDuplicates(services) && (services != [] || ip)
    ensures v.pcbs[i].ready ==> MayProbe(v, i, services, ip)
  {
    hide On, SinceStart, IsProbe, OnBeat;
  }

  /** If interface `i` is fine and no other noticed anything, all are fine. */
  lemma OthersOk(v: Server, w: Server, i: nat)
    requires i < |v.pcbs| == |w.pcbs| && Inv(v) && OkAt(w, i)
    requires w == v || forall j :: j != i ==> Unaffected(v, w, j)
    ensures forall j :: 0 <= j < |w.pcbs| ==> OkAt(w, j)
  {
    forall j | 0 <= j < |w.pcbs| && j != i
      ensures OkAt(w, j)
    {
      assert OkAt(v, j) && (w == v || Unaffected(v, w, j));
    }
  }

  lemma ExtendOk(v: Server, i: nat, services: seq<Service>, ip: bool)
    requires i < |v.pcbs| && Inv(v) && v.pcbs[i].state.Announcing()
    ensures var w := v.(tx := EditFirst(v.tx, i, (p: Tx) => Extended(p, services, ip, v.hosts)),
                        pcbs := v.pcbs[i := v.pcbs[i].(state := Announce1)]);
            QueueOk(w) && OkAt(w, i) && forall j :: j != i ==> Unaffected(v, w, j)
  {
    hide AddServices, AddHosts, DropAnswer, On, SinceStart, EditFirst, QueueOk, NoDuplicates;
    assert OkAt(v, i) && QueueOk(v);
    var edit := (p: Tx) => Extended(p, services, ip, v.hosts);
    EditFirstEdits(v.tx, i, edit);
    var w := v.(tx := EditFirst(v.tx, i, edit), pcbs := v.pcbs[i := v.pcbs[i].(state := Announce1)]);
    EditedQueue(v, w);
  }

  lemma AnnounceNewOk(v: Server, i: nat, services: seq<Service>, ip: bool)
    requires i < |v.pcbs| && Inv(v) && v.pcbs[i].state == Running
    ensures var w := Schedule(v.(nextId := v.nextId + 1, pcbs := v.pcbs[i := v.pcbs[i].(state := Announce1)]),
                              AnnouncePacket(v.nextId, i, services, ip, v.hosts), 0);
            QueueOk(w) && OkAt(w, i) && forall j :: j != i ==> Unaffected(v, w, j)
  {
    hide AddServices, AddHosts, On, SinceStart, Insert, Sorted, DistinctIds, NoDuplicates;
    assert OkAt(v, i);
    var u := v.(nextId := v.nextId + 1, pcbs := v.pcbs[i := v.pcbs[i].(state := Announce1)]);
    KnownSame(v.tx, v.pcbs, u.pcbs);
    InsertFresh(u, AnnouncePacket(v.nextId, i, services, ip, v.hosts), 0);
  }

  // ---------------------------------------------------------------- answering

  lemma AnswersOk(v: Server, i: nat, distributed: bool, echoes: seq<Option<nat>>, answers: seq<Answer>,
                  additional: seq<Answer>, after: nat)
    requires i < |v.pcbs| && Inv(v)
    ensures Inv(Answers(v, i, distributed, echoes, answers, additional, after))
  {
    hide On, SinceStart, Insert, Sorted, DistinctIds, NoDuplicates, IsProbe, OnBeat;
    assert OkAt(v, i);
    var w := Answers(v, i, distributed, echoes, answers, additional, after);
    if v.pcbs[i].state.Rank() > 5 {
      var p := Tx(v.nextId, i, 0, false, distributed,
                  seq(|echoes|, k requires 0 <= k < |echoes| => Question(Echo(echoes[k]), false)), answers, [], additional);
      InsertFresh(v.(nextId := v.nextId + 1), p, after);
    }
    OthersOk(v, w, i);
  }

  lemma {:induction false} RetractEdits(tx: seq<Tx>, i: nat, what: AnswerType, service: Option<Service>)
    ensures Edited(tx, RetractAnswer(tx, i, what, service))
    ensures forall j :: On(RetractAnswer(tx, i, what, service), j) == RetractAnswer(On(tx, j), i, what, service)
  {
    if tx != [] {
      RetractEdits(tx[1..], i, what, service);
      var r := RetractAnswer(tx, i, what, service);
      assert r[1..] == RetractAnswer(tx[1..], i, what, service);
      assert SameSlot(tx[0], r[0]);
      forall j: nat
        ensures On(r, j) == RetractAnswer(On(tx, j), i, what, service)
      {
        if tx[0].pcb == j {
          assert On(tx, j)[1..] == On(tx[1..], j);
        }
      }
    }
  }

  lemma RetractOk(v: Server, i: nat, what: AnswerType, service: Option<Service>)
    requires Inv(v)
    ensures Inv(v.(tx := RetractAnswer(v.tx, i, what, service)))
  {
    hide On, SinceStart, QueueOk, NoDuplicates, OnBeat, DropAnswer;
    var w := v.(tx := RetractAnswer(v.tx, i, what, service));
    RetractEdits(v.tx, i, what, service);
    EditedQueue(v, w);
    forall j | 0 <= j < |w.pcbs|
      ensures OkAt(w, j)
    {
      assert OkAt(v, j);
      if v.pcbs[j].state.Probing() {
        ProbeNotRetracted(On(v.tx, j), i, what, service);
      }
    }
  }

  lemma ProbeNotRetracted(mine: seq<Tx>, i: nat, what: AnswerType, service: Option<Service>)
    requires |mine| == 1 && !mine[0].distributed
    ensures RetractAnswer(mine, i, what, service) == mine
  {
    assert RetractAnswer(mine[1..], i, what, service) == [];
  }

  // ---------------------------------------------------------------- every interface

  lemma {:induction false} ProbeAllOk(v: Server, k: nat, services: seq<Service>, ip: bool, clearOld: bool,
                                      randoms: seq<nat>)
    requires k <= |v.pcbs| <= |randoms| && QueueOk(v) && NoDuplicates(v.services)
    requires NoDuplicates(services) && (services != [] || ip)
    requires forall i :: 0 <= i < k ==> OkAt(v, i)
    requires forall i :: k <= i < |v.pcbs| ==> Startable(v, i, clearOld, ip)
    ensures Inv(ProbeAllFrom(v, k, services, ip, clearOld, randoms))
    decreases |v.pcbs| - k
  {
    hide On, SinceStart, PcbOk, InitProbe, NoDuplicates, QueueOk, MayProbe, Startable;
    if k == |v.pcbs| {
    } else if !v.pcbs[k].ready {
      NotReadyOk(v, k, clearOld, ip);
      ProbeAllOk(v, k + 1, services, ip, clearOld, randoms);
    } else {
      var w := if clearOld then v.(pcbs := v.pcbs[k := v.pcbs[k].(probeServices := [], probeRunning := false)]) else v;
      StartableMayProbe(v, k, services, ip, clearOld);
      ClearedQueue(v, w);
      InitProbeOk(w, k, services, ip, randoms[k]);
      var u := InitProbe(w, k, services, ip, randoms[k]);
      forall i | 0 <= i < |u.pcbs| && i != k
        ensures OkAt(u, i) == OkAt(v, i) && Startable(u, i, clearOld, ip) == Startable(v, i, clearOld, ip)
      {
        assert Unaffected(w, u, i);
        StartableSame(v, u, i, clearOld, ip);
      }
      ProbeAllOk(u, k + 1, services, ip, clearOld, randoms);
    }
  }

  /** Before its turn in a restart an interface may have lost its packets; otherwise it is as the invariant says. */
  predicate Startable(v: Server, i: nat, clearOld: bool, ip: bool)
    requires i < |v.pcbs|
  {
    if clearOld && ip then FieldsOk(v.pcbs[i]) && (v.pcbs[i].state.Probing() ==> v.hostSet) else OkAt(v, i)
  }

  lemma NotReadyOk(v: Server, i: nat, clearOld: bool, ip: bool)
    requires i < |v.pcbs| && !v.pcbs[i].ready && Startable(v, i, clearOld, ip)
    ensures OkAt(v, i)
  {
    hide On, SinceStart, IsProbe, OnBeat;
  }

  lemma StartableMayProbe(v: Server, k: nat, services: seq<Service>, ip: bool, clearOld: bool)
    requires k < |v.pcbs| && v.pcbs[k].ready && Startable(v, k, clearOld, ip)
    requires NoDuplicates(services) && (services != [] || ip)
    ensures var w := if clearOld then v.(pcbs := v.pcbs[k := v.pcbs[k].(probeServices := [], probeRunning := false)]) else v;
            MayProbe(w, k, services, ip)
  {
    hide On, SinceStart, IsProbe, OnBeat;
    NoServicesDistinct();
  }

  lemma ClearedQueue(v: Server, w: Server)
    requires QueueOk(v) && w == v.(pcbs := w.pcbs) && |w.pcbs| == |v.pcbs|
    ensures QueueOk(w)
  {
  }

  lemma StartableSame(v: Server, w: Server, i: nat, clearOld: bool, ip: bool)
    requires i < |v.pcbs| == |w.pcbs| && v.pcbs[i] == w.pcbs[i] && v.hostSet == w.hostSet
    requires On(v.tx, i) == On(w.tx, i) && SinceStart(v.log, i) == SinceStart(w.log, i)
    ensures Startable(v, i, clearOld, ip) == Startable(w, i, clearOld, ip) && OkAt(v, i) == OkAt(w, i)
  {
  }

  lemma RestartAllOk(v: Server, randoms: seq<nat>)
    requires Inv(v) && |v.pcbs| <= |randoms|
    ensures Inv(RestartAll(v, randoms))
  {
    hide On, SinceStart, IsProbe, OnBeat, NoDuplicates, ProbeAllFrom, FieldsOk;
    var w := v.(tx := []);
    forall i | 0 <= i < |w.pcbs|
      ensures Startable(w, i, true, true)
    {
      assert OkAt(v, i);
    }
    ProbeAllOk(w, 0, v.services, true, true, randoms);
  }

  lemma {:induction false} AnnounceAllOk(v: Server, k: nat, services: seq<Service>, ip: bool, randoms: seq<nat>)
    requires k <= |v.pcbs| <= |randoms| && Inv(v) && NoDuplicates(services) && (services != [] || ip)
    ensures Inv(AnnounceAllFrom(v, k, services, ip, randoms))
    decreases |v.pcbs| - k
  {
    hide Inv, Announce, NoDuplicates;
    if k < |v.pcbs| {
      AnnounceOk(v, k, services, ip, randoms[k]);
      AnnounceAllOk(Announce(v, k, services, ip, randoms[k]), k + 1, services, ip, randoms);
    }
  }

  /** The state an interface is in after (re)starting its probe. */
  lemma InitProbeStates(v: Server, i: nat, services: seq<Service>, ip: bool, random: nat)
    requires i < |v.pcbs|
    ensures var w := InitProbe(v, i, services, ip, random);
            && |w.pcbs| == |v.pcbs| && (w.pcbs[i].state == Probe1 || w.pcbs[i].state == Running)
            && forall j :: 0 <= j < |v.pcbs| && j != i ==> w.pcbs[j] == v.pcbs[j]
  {
    hide WithoutPcb, Insert, ProbePacket, Merged, NotIn;
  }

  /** A probe is never sent at once: it waits at least 120 ms, a second once more than five probes have failed. */
  lemma FirstProbeWaits(v: Server, i: nat, services: seq<Service>, ip: bool, random: nat)
    requires i < |v.pcbs| && v.hostSet
    requires Sorted(v.tx)
    ensures var w := InitProbe(v, i, services, ip, random);
            && |On(w.tx, i)| == 1
            && var due := On(w.tx, i)[0].sendAt - v.now;
            if v.pcbs[i].failedProbes > 5 then 1000 <= due <= 1127 else 120 <= due <= 247
  {
    hide ProbeDraft, Merged, WithoutPcb, NotIn, Sorted;
    OnWithoutPcb(v.tx, i, i);
    WithoutPcbKeeps(v.tx, i);
    var w := InitProbe(v, i, services, ip, random);
    var c := v.pcbs[i];
    var all := Merged(c, if c.state.Probing() then NotIn(services, c.probeServices) else services);
    var p := ProbePacket(v.nextId, i, all, true, c.probeIp || ip, v.hosts);
    OnInsert(WithoutPcb(v.tx, i), p.(sendAt := v.now + ProbeDelay(c.failedProbes, random)), i);
  }
}
