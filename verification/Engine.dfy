/** The server structure and the functions that update it in place, each proved against its specification function. */
module Engine {
  import opened Options
  import opened TxPacket
  import opened Responder
  import opened ResponderInvariant
  import opened Machine

  // ---------------------------------------------------------------- lists

  /** `_mdns_alloc_answer`: walk the list for a duplicate, else add at the end. */
  method AllocAnswer(list: seq<Answer>, a: Answer) returns (r: seq<Answer>)
    ensures r == AddAnswer(list, a)
  {
    for i := 0 to |list|
      invariant forall k :: 0 <= k < i ==> !SameAnswer(list[k], a)
    {
      if list[i].what == a.what && list[i].service == a.service && list[i].host == a.host {
        return list;
      }
    }
    r := list + [a];
  }

  /** `_mdns_question_exists`. */
  method QuestionExists(questions: seq<Question>, about: Subject) returns (found: bool)
    ensures found == Asks(questions, about)
  {
    for i := 0 to |questions|
      invariant forall k :: 0 <= k < i ==> questions[k].about != about
    {
      if questions[i].about == about {
        return true;
      }
    }
    found := false;
  }

  /** `_mdns_create_probe_packet`. */
  method CreateProbePacket(id: nat, pcb: nat, services: seq<Service>, first: bool, ip: bool, hosts: map<nat, Host>)
    returns (p: Tx)
    ensures p == ProbePacket(id, pcb, services, first, ip, hosts)
  {
    var questions: seq<Question>, servers: seq<Answer> := [], [];
    for i := 0 to |services|
      invariant AddProbed(Draft([], []), services, first) == AddProbed(Draft(questions, servers), services[i..], first)
    {
      assert services[i..][0] == services[i] && services[i..][1..] == services[i + 1..];
      var found := QuestionExists(questions, Instance(services[i]));
      if !found {
        questions := questions + [Question(Instance(services[i]), first)];
        servers := AllocAnswer(servers, SrvAnswer(services[i], false));
      }
    }
    if ip {
      questions := AppendHostQuestions(questions, services, first);
      servers := AppendHostList(servers, services, hosts, false);
    }
    p := Tx(id, pcb, 0, false, false, questions, [], servers, []);
  }

  /** `_mdns_append_host_questions_for_services`. */
  method AppendHostQuestions(questions: seq<Question>, services: seq<Service>, unicast: bool) returns (r: seq<Question>)
    ensures r == AddHostQuestions(AddQuestion(questions, SelfHost, unicast), services, unicast)
  {
    r := AppendHostQuestion(questions, SelfHost, unicast);
    ghost var all := AddHostQuestions(r, services, unicast);
    for i := 0 to |services|
      invariant all == AddHostQuestions(r, services[i..], unicast)
    {
      assert services[i..][0] == services[i] && services[i..][1..] == services[i + 1..];
      r := AppendHostQuestion(r, HostOf(services[i]), unicast);
    }
  }

  method AppendHostQuestion(questions: seq<Question>, about: Subject, unicast: bool) returns (r: seq<Question>)
    ensures r == AddQuestion(questions, about, unicast)
  {
    var found := QuestionExists(questions, about);
    r := if found then questions else questions + [Question(about, unicast)];
  }

  /** `_mdns_append_host_list_in_services`. */
  method AppendHostList(list: seq<Answer>, services: seq<Service>, hosts: map<nat, Host>, flush: bool)
    returns (r: seq<Answer>)
    ensures r == AddHosts(list, services, hosts, flush)
  {
    if services == [] {
      r := AppendHost(list, Some(SELF), flush);
      return;
    }
    r := list;
    for i := 0 to |services|
      invariant AddHostsOf(list, services, hosts, flush) == AddHostsOf(r, services[i..], hosts, flush)
    {
      assert services[i..][0] == services[i] && services[i..][1..] == services[i + 1..];
      r := AppendHost(r, HostItem(hosts, services[i]), flush);
    }
  }

  /** `_mdns_append_host`. */
  method AppendHost(list: seq<Answer>, host: Option<Host>, flush: bool) returns (r: seq<Answer>)
    ensures r == AddHost(list, host, flush)
  {
    r := AllocAnswer(list, Answer(A, None, host, flush, false));
    r := AllocAnswer(r, Answer(Aaaa, None, host, flush, false));
  }

  /** `_mdns_create_announce_from_probe`. */
  method CreateAnnounce(id: nat, probe: Tx, hosts: map<nat, Host>) returns (p: Tx)
    ensures p == AnnounceFrom(id, probe, hosts)
  {
    var answers: seq<Answer> := [];
    for i := 0 to |probe.servers|
      invariant AnnouncedAnswers([], probe.servers, hosts) == AnnouncedAnswers(answers, probe.servers[i..], hosts)
    {
      assert probe.servers[i..][0] == probe.servers[i] && probe.servers[i..][1..] == probe.servers[i + 1..];
      var s := probe.servers[i];
      if s.what == Srv && s.service.Some? {
        answers := AllocAnswer(answers, Answer(Sdptr, s.service, None, false, false));
        answers := AllocAnswer(answers, Answer(Ptr, s.service, None, false, false));
        answers := AllocAnswer(answers, Answer(Srv, s.service, None, true, false));
        answers := AllocAnswer(answers, Answer(Txt, s.service, None, true, false));
        var host := HostItem(hosts, s.service.value);
        answers := AllocAnswer(answers, Answer(A, None, host, true, false));
        answers := AllocAnswer(answers, Answer(Aaaa, None, host, true, false));
      } else if s.what == A || s.what == Aaaa {
        answers := AllocAnswer(answers, Answer(s.what, None, s.host, true, false));
      }
    }
    p := Tx(id, probe.pcb, 0, false, false, [], answers, [], []);
  }

  /** The services of `requested` that are not being probed yet. */
  method NewServices(requested: seq<Service>, known: seq<Service>) returns (added: seq<Service>)
    ensures added == NotIn(requested, known)
  {
    added := [];
    for j := 0 to |requested|
      invariant NotIn(requested, known) == added + NotIn(requested[j..], known)
    {
      assert requested[j..][0] == requested[j] && requested[j..][1..] == requested[j + 1..];
      var found := false;
      for k := 0 to |known|
        invariant !found && requested[j] !in known[..k]
      {
        assert known[..k + 1] == known[..k] + [known[k]];
        if known[k] == requested[j] {
          found := true;
          break;
        }
      }
      assert known[..|known|] == known;
      if !found {
        added := added + [requested[j]];
      }
    }
    assert requested[|requested|..] == [];
  }

  /**
   * The copies of `_mdns_init_pcb_probe_new_service`.  Room is made for the old list only while probing; that is
   * enough because only then is there one.
   */
  method MergeServices(c: Pcb, requested: seq<Service>) returns (merged: seq<Service>)
    requires c.probeServices != [] ==> c.state.Probing()
    ensures merged == Merged(c, requested)
  {
    var room := |requested| + if c.state.Probing() then |c.probeServices| else 0;
    var all := new Service[room](_ => Service(0, 0));
    for j := 0 to |requested|
      invariant forall k :: 0 <= k < j ==> all[k] == requested[k]
    {
      all[j] := requested[j];
    }
    for j := 0 to |c.probeServices|
      invariant forall k :: 0 <= k < |requested| ==> all[k] == requested[k]
      invariant forall k :: |requested| <= k < |requested| + j ==> all[k] == c.probeServices[k - |requested|]
    {
      all[|requested| + j] := c.probeServices[j];
    }
    merged := all[..];
  }

  // ---------------------------------------------------------------- removing a service from a packet

  /** `_mdns_dealloc_scheduled_service_answers`: at the head of the list as long as it goes, then behind it. */
  method DeallocAnswers(list: seq<Answer>, s: Service) returns (kept: seq<Answer>)
    ensures kept == Without(list, s)
  {
    var rest := list;
    while rest != [] && rest[0].service == Some(s)
      invariant Without(list, s) == Without(rest, s)
      decreases |rest|
    {
      rest := rest[1..];
    }
    kept := [];
    while rest != []
      invariant Without(list, s) == kept + Without(rest, s)
      decreases |rest|
    {
      var a := rest[0];
      rest := rest[1..];
      if a.service != Some(s) {
        assert kept + ([a] + Without(rest, s)) == kept + [a] + Without(rest, s);
        kept := kept + [a];
      }
    }
  }

  /** The index of a service on a probe list, or its length. */
  method FindProbed(services: seq<Service>, s: Service) returns (i: nat)
    ensures i <= |services| && s !in services[..i] && (i < |services| ==> services[i] == s)
  {
    i := 0;
    while i < |services| && services[i] != s
      invariant i <= |services| && s !in services[..i]
    {
      i := i + 1;
    }
  }

  /** Shift the entries behind index `i` one to the front. */
  method ShiftOut(services: seq<Service>, i: nat) returns (r: seq<Service>)
    requires i < |services|
    ensures r == services[..i] + services[i + 1..]
  {
    var all := new Service[|services|](k requires 0 <= k < |services| => services[k]);
    for n := i + 1 to all.Length
      invariant forall k :: 0 <= k < i ==> all[k] == services[k]
      invariant forall k :: i <= k < n - 1 ==> all[k] == services[k + 1]
      invariant forall k :: n <= k < |services| ==> all[k] == services[k]
    {
      all[n - 1] := all[n];
    }
    r := all[..all.Length - 1];
  }

  lemma {:induction false} DropAt(services: seq<Service>, s: Service, i: nat)
    requires i < |services| && services[i] == s && s !in services[..i]
    ensures DropService(services, s) == services[..i] + services[i + 1..]
  {
    if i > 0 {
      assert services[..i][0] == services[0];
      assert services[1..][..i - 1] == services[1..i];
      assert forall x :: x in services[1..i] ==> x in services[..i];
      DropAt(services[1..], s, i - 1);
      assert [services[0]] + (services[1..][..i - 1] + services[1..][i..]) == services[..i] + services[i + 1..];
    }
  }

  /** Unlink the first question about a kind of service, at the head or behind it. */
  method UnlinkQuestion(questions: seq<Question>, kind: nat) returns (r: seq<Question>)
    ensures r == DropQuestion(questions, kind)
  {
    if questions == [] {
      return [];
    } else if AsksKind(questions[0], kind) {
      return questions[1..];
    }
    var k := 0;
    while k + 1 < |questions|
      invariant k < |questions| && !AsksKind(questions[k], kind)
      invariant DropQuestion(questions, kind) == questions[..k] + DropQuestion(questions[k..], kind)
      decreases |questions| - k
    {
      DropSteps(questions, k, kind);
      if AsksKind(questions[k + 1], kind) {
        return questions[..k + 1] + questions[k + 2..];
      }
      k := k + 1;
    }
    DropSteps(questions, k, kind);
    r := questions;
  }

  /** Past one question of another kind, and what becomes of the next. */
  lemma DropSteps(questions: seq<Question>, k: nat, kind: nat)
    requires k < |questions| && !AsksKind(questions[k], kind)
    requires DropQuestion(questions, kind) == questions[..k] + DropQuestion(questions[k..], kind)
    ensures DropQuestion(questions, kind) == questions[..k + 1] + DropQuestion(questions[k + 1..], kind)
    ensures k + 1 < |questions| && AsksKind(questions[k + 1], kind) ==>
              DropQuestion(questions, kind) == questions[..k + 1] + questions[k + 2..]
    ensures k + 1 == |questions| ==> DropQuestion(questions, kind) == questions
  {
    var here, rest := questions[k..], questions[k + 1..];
    assert here[0] == questions[k] && here[1..] == rest;
    assert questions[..k] + ([questions[k]] + DropQuestion(rest, kind)) == questions[..k + 1] + DropQuestion(rest, kind);
    if k + 1 < |questions| {
      assert rest[0] == questions[k + 1] && rest[1..] == questions[k + 2..];
    } else {
      assert rest == [] && questions[..k + 1] + [] == questions;
    }
  }

  /** One round of `_mdns_remove_scheduled_service_packets`. */
  method SweepPacket(c: Pcb, p: Tx, s: Service) returns (d: Pcb, q: Tx)
    ensures Swept(d, q) == SweepOne(c, p, s)
  {
    hide Without, DropQuestion, DropService;
    var answers := DeallocAnswers(p.answers, s);
    var additional := DeallocAnswers(p.additional, s);
    var servers := DeallocAnswers(p.servers, s);
    d, q := c, p.(answers := answers, additional := additional, servers := servers);
    if !c.ready {
      return;
    }
    if c.state.Probing() {
      var i := FindProbed(c.probeServices, s);
      assert i == |c.probeServices| ==> c.probeServices[..i] == c.probeServices;
      if i < |c.probeServices| {
        DropAt(c.probeServices, s, i);
        if |c.probeServices| > 1 {
          var rest := ShiftOut(c.probeServices, i);
          d := d.(probeServices := rest);
        } else {
          d := d.(probeServices := []);
          if !c.probeIp {
            d := d.(probeRunning := false, state := Running);
          }
        }
        var questions := UnlinkQuestion(p.questions, s.kind);
        q := q.(questions := questions);
      }
    } else if c.state.Announcing() {
      if p.answers != [] && answers == [] {
        d := d.(state := Running);
      }
    }
  }

  // ---------------------------------------------------------------- other walks

  /** Ask for multicast answers from now on. */
  method ClearUnicast(questions: seq<Question>) returns (r: seq<Question>)
    ensures r == AllMulticast(questions)
  {
    r := [];
    for i := 0 to |questions|
      invariant AllMulticast(questions) == r + AllMulticast(questions[i..])
    {
      assert questions[i..][0] == questions[i] && questions[i..][1..] == questions[i + 1..];
      r := r + [questions[i].(unicast := false)];
    }
    assert questions[|questions|..] == [];
  }

  /** `_mdns_clear_pcb_tx_queue_head`, on the queue as a list of packets. */
  method ClearPcb(tx: seq<Tx>, pcb: nat) returns (kept: seq<Tx>)
    ensures kept == WithoutPcb(tx, pcb)
  {
    var rest := tx;
    while rest != [] && rest[0].pcb == pcb
      invariant WithoutPcb(tx, pcb) == WithoutPcb(rest, pcb)
      decreases |rest|
    {
      rest := rest[1..];
    }
    kept := [];
    while rest != []
      invariant WithoutPcb(tx, pcb) == kept + WithoutPcb(rest, pcb)
      decreases |rest|
    {
      var p := rest[0];
      rest := rest[1..];
      if p.pcb != pcb {
        assert kept + ([p] + WithoutPcb(rest, pcb)) == kept + [p] + WithoutPcb(rest, pcb);
        kept := kept + [p];
      }
    }
  }

  // ---------------------------------------------------------------- the server

  class Responding {
    var now: nat
    var nextId: nat
    var hostSet: bool
    var hosts: map<nat, Host>
    var services: seq<Service>
    var pcbs: seq<Pcb>
    var tx: seq<Tx>
    ghost var log: seq<Event>

    /** The structure as a value. */
    ghost function Value(): Server
      reads this
    {
      Server(now, nextId, hostSet, hosts, services, pcbs, tx, log)
    }

    constructor (count: nat)
      ensures Value() == Boot(count).v
    {
      now, nextId, hostSet, hosts, services := 0, 0, false, map[], [];
      pcbs, tx, log := seq(count, _ => DOWN), [], [];
    }

    /** `_mdns_schedule_tx_packet`, on the queue as a list of packets; the pointers are those of `TxQueue`. */
    method SchedulePacket(p: Tx, after: nat)
      modifies this`tx
      ensures Value() == Schedule(old(Value()), p, after)
    {
      hide Insert;
      var q := p.(sendAt := now + after);
      var k := 0;
      assert tx[..0] == [] && tx[0..] == tx;
      while k < |tx| && tx[k].sendAt <= q.sendAt
        invariant k <= |tx|
        invariant Insert(tx, q) == tx[..k] + Insert(tx[k..], q)
        modifies {}
      {
        InsertSteps(tx, q, k);
        k := k + 1;
      }
      InsertStops(tx, q, k);
      tx := tx[..k] + [q] + tx[k..];
    }

    /** `_mdns_init_pcb_probe_new_service`. */
    method InitProbeNewService(i: nat, requested: seq<Service>, ip: bool, random: nat)
      requires i < |pcbs| && (pcbs[i].probeServices != [] ==> pcbs[i].state.Probing())
      modifies this
      ensures Value() == StartProbe(old(Value()), i, requested, ip, random)
    {
      hide Insert, Merged, ProbePacket, InitProbe;
      var c := pcbs[i];
      var merged := MergeServices(c, requested);
      var probeIp := c.probeIp || ip;
      pcbs := pcbs[i := c.(probeIp := false, probeServices := [], probeRunning := false)];
      var packet := NewProbe(i, merged, probeIp);
      pcbs := pcbs[i := c.(probeIp := probeIp, probeServices := merged, probeRunning := true, state := Probe1)];
      SchedulePacket(packet, (if c.failedProbes > 5 then 1000 else 120) + random % 128);
    }

    /** Make the probe packet, and note that a probing phase begins with it. */
    method NewProbe(i: nat, probed: seq<Service>, ip: bool) returns (packet: Tx)
      modifies this`nextId, this`log
      ensures packet == ProbePacket(old(nextId), i, probed, true, ip, hosts)
      ensures nextId == old(nextId) + 1 && log == old(log) + [Started(i, old(nextId))]
    {
      packet := CreateProbePacket(nextId, i, probed, true, ip, hosts);
      log := log + [Started(i, nextId)];
      nextId := nextId + 1;
    }

    /** `_mdns_init_pcb_probe`. */
    method InitPcbProbe(i: nat, requested: seq<Service>, ip: bool, random: nat)
      requires i < |pcbs| && (pcbs[i].probeServices != [] ==> pcbs[i].state.Probing())
      modifies this
      ensures Value() == InitProbe(old(Value()), i, requested, ip, random)
    {
      hide StartProbe, WithoutPcb, NotIn;
      tx := ClearPcb(tx, i);
      if !hostSet {
        pcbs := pcbs[i := pcbs[i].(state := Running)];
      } else if pcbs[i].state.Probing() {
        var added := NewServices(requested, pcbs[i].probeServices);
        InitProbeNewService(i, added, ip, random);
      } else {
        InitProbeNewService(i, requested, ip, random);
      }
    }

    /** `_mdns_probe_all_pcbs`. */
    method ProbeAllPcbs(requested: seq<Service>, ip: bool, clearOld: bool, randoms: seq<nat>)
      requires |pcbs| <= |randoms|
      requires forall i :: 0 <= i < |pcbs| ==> (pcbs[i].probeServices != [] ==> pcbs[i].state.Probing())
      modifies this
      ensures Value() == ProbeAllFrom(old(Value()), 0, requested, ip, clearOld, randoms)
    {
      hide InitProbe;
      var i := 0;
      while i < |pcbs|
        invariant i <= |pcbs| == |old(pcbs)|
        invariant forall j :: i <= j < |pcbs| ==> pcbs[j] == old(pcbs)[j]
        invariant ProbeAllFrom(old(Value()), 0, requested, ip, clearOld, randoms)
               == ProbeAllFrom(Value(), i, requested, ip, clearOld, randoms)
      {
        if pcbs[i].ready {
          if clearOld {
            pcbs := pcbs[i := pcbs[i].(probeServices := [], probeRunning := false)];
          }
          ghost var w := Value();
          InitPcbProbe(i, requested, ip, randoms[i]);
          InitProbeStates(w, i, requested, ip, randoms[i]);
        }
        i := i + 1;
      }
    }

    /** `_mdns_tx_handle_packet`; the cases fall through as in the source. */
    method HandlePacket(p: Tx)
      requires p.pcb < |pcbs|
      modifies this
      ensures Value() == Handle(old(Value()), p)
    {
      hide Insert, AnnouncedAnswers, AllMulticast;
      var i, q, after, state := p.pcb, p, 1000, pcbs[p.pcb].state;
      if state == Off {
        return;
      }
      log := log + [Sent(i, now, p)];
      if state == Probe1 || state == Probe2 {
        if state == Probe1 {
          var questions := ClearUnicast(q.questions);
          q := q.(questions := questions);
        }
        pcbs := pcbs[i := pcbs[i].(state := state.Next())];
        SchedulePacket(q, 250);
      } else if state == Probe3 || state == Announce1 || state == Announce2 {
        if state == Probe3 {
          q := CreateAnnounce(nextId, p, hosts);
          nextId := nextId + 1;
          pcbs := pcbs[i := pcbs[i].(probeRunning := false, probeIp := false, failedProbes := 0, probeServices := [])];
          after := 250;
        }
        pcbs := pcbs[i := pcbs[i].(state := state.Next())];
        SchedulePacket(q, after);
      } else if state == Announce3 {
        pcbs := pcbs[i := pcbs[i].(state := Running)];
      }
    }

    /** ACTION_TX_HANDLE. */
    method SendPostedPacket(id: nat)
      requires KnownPcbs(tx, pcbs)
      modifies this
      ensures Value() == SendPosted(old(Value()), id)
    {
      if tx != [] && tx[0].id == id && tx[0].queued {
        assert tx[0] in tx;
        var p := tx[0].(queued := false);
        tx := tx[1..];
        HandlePacket(p);
      }
    }

    /** `_mdns_remove_scheduled_service_packets`. */
    method RemoveScheduledServicePackets(s: Service)
      requires KnownPcbs(tx, pcbs)
      modifies this`tx, this`pcbs
      ensures Value() == RemoveService(old(Value()), s)
    {
      hide SweepOne;
      hide Sweep, KnownPcbs;
      var queue := tx;
      var kept: seq<Tx>, k := [], 0;
      while k < |queue|
        invariant k <= |queue| && KnownPcbs(queue[k..], pcbs)
        invariant Sweep(old(pcbs), queue, s) == Kept(kept, Sweep(pcbs, queue[k..], s))
        modifies this`pcbs
      {
        SweepStep(pcbs, queue, k, kept, s);
        var q := queue[k];
        var d, p := SweepPacket(pcbs[q.pcb], q, s);
        pcbs := pcbs[q.pcb := d];
        if p.questions != [] || p.answers != [] || p.additional != [] || p.servers != [] {
          kept := kept + [p];
        }
        k := k + 1;
      }
      SweepEnds(pcbs, queue, kept, s);
      tx := kept;
    }

    /** `_mdns_scheduler_run`; true if the packet was posted, with the identity to post. */
    method SchedulerRun(memory: bool, room: bool) returns (posted: Option<nat>)
      modifies this`tx
      ensures var k := FirstUnposted(old(tx));
              && (posted.Some? <==> k < |old(tx)| && old(tx)[k].sendAt < now && memory && room)
              && (posted.Some? ==> posted.value == old(tx)[k].id && tx == old(tx)[k := old(tx)[k].(queued := true)])
              && (posted.None? ==> tx == old(tx))
    {
      var k := 0;
      while k < |tx| && tx[k].queued
        invariant k <= |tx| && tx == old(tx) && forall j :: 0 <= j < k ==> tx[j].queued
      {
        k := k + 1;
      }
      assert k == FirstUnposted(tx);
      posted := None;
      if k < |tx| && tx[k].sendAt < now && memory {
        tx := tx[k := tx[k].(queued := true)];
        if room {
          posted := Some(tx[k].id);
        } else {
          tx := tx[k := tx[k].(queued := false)];
        }
      }
    }
  }

  // ---------------------------------------------------------------- loop steps

  /** Packets already kept, then what the rest of the sweep gives. */
  ghost function Kept(kept: seq<Tx>, rest: Sweeping): Sweeping {
    Sweeping(rest.pcbs, kept + rest.tx)
  }

  lemma SweepStep(pcbs: seq<Pcb>, queue: seq<Tx>, k: nat, kept: seq<Tx>, s: Service)
    requires k < |queue| && KnownPcbs(queue[k..], pcbs)
    ensures queue[k].pcb < |pcbs|
    ensures var o := SweepOne(pcbs[queue[k].pcb], queue[k], s);
            var next := pcbs[queue[k].pcb := o.c];
            && KnownPcbs(queue[k + 1..], next)
            && Kept(kept, Sweep(pcbs, queue[k..], s))
               == Kept(if Blank(o.p) then kept else kept + [o.p], Sweep(next, queue[k + 1..], s))
  {
    hide SweepOne, Blank;
    var here := queue[k..];
    assert here[0] == queue[k] && here[1..] == queue[k + 1..] && here[0] in here;
    assert forall p :: p in here[1..] ==> p in here;
    var o := SweepOne(pcbs[queue[k].pcb], queue[k], s);
    var rest := Sweep(pcbs[queue[k].pcb := o.c], queue[k + 1..], s);
    assert kept + ([o.p] + rest.tx) == kept + [o.p] + rest.tx && kept + ([] + rest.tx) == kept + rest.tx;
  }

  lemma SweepEnds(pcbs: seq<Pcb>, queue: seq<Tx>, kept: seq<Tx>, s: Service)
    requires KnownPcbs(queue[|queue|..], pcbs)
    ensures Kept(kept, Sweep(pcbs, queue[|queue|..], s)) == Sweeping(pcbs, kept)
  {
    assert queue[|queue|..] == [];
  }

  lemma InsertSteps(tx: seq<Tx>, q: Tx, k: nat)
    requires k < |tx| && tx[k].sendAt <= q.sendAt && Insert(tx, q) == tx[..k] + Insert(tx[k..], q)
    ensures Insert(tx, q) == tx[..k + 1] + Insert(tx[k + 1..], q)
  {
    hide Insert;
    var x, before, rest := tx[k], tx[..k], Insert(tx[k + 1..], q);
    assert tx[k..][0] == x && tx[k..][1..] == tx[k + 1..];
    InsertPast(tx[k..], q);
    assert before + ([x] + rest) == before + [x] + rest;
    assert tx[..k + 1] == before + [x];
  }

  lemma InsertPast(tx: seq<Tx>, q: Tx)
    requires tx != [] && tx[0].sendAt <= q.sendAt
    ensures Insert(tx, q) == [tx[0]] + Insert(tx[1..], q)
  {
  }

  lemma InsertStops(tx: seq<Tx>, q: Tx, k: nat)
    requires k <= |tx| && (k < |tx| ==> tx[k].sendAt > q.sendAt) && Insert(tx, q) == tx[..k] + Insert(tx[k..], q)
    ensures Insert(tx, q) == tx[..k] + [q] + tx[k..]
  {
    if k < |tx| {
      assert tx[k..][0] == tx[k];
    }
    assert Insert(tx[k..], q) == [q] + tx[k..];
    assert tx[..k] + [q] + tx[k..] == tx[..k] + ([q] + tx[k..]);
  }
}
