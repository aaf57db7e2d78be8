/** The per-interface responder: probing, announcing, answering, and the packets each of them keeps in the queue. */
module Responder {
  import opened Options
  import opened TxPacket

  /** `mdns_pcb_state_t`, in order. */
  datatype PcbState =
    | Off | Dup | Init
    | Probe1 | Probe2 | Probe3
    | Announce1 | Announce2 | Announce3
    | Running
  {
    function Rank(): nat {
      match this
      case Off => 0 case Dup => 1 case Init => 2
      case Probe1 => 3 case Probe2 => 4 case Probe3 => 5
      case Announce1 => 6 case Announce2 => 7 case Announce3 => 8
      case Running => 9
    }

    /** PCB_STATE_IS_PROBING, which also holds in the two states before the first probe. */
    predicate Probing() {
      0 < Rank() < 6
    }

    predicate Announcing() {
      5 < Rank() < 9
    }

    function Next(): PcbState {
      match this
      case Probe1 => Probe2 case Probe2 => Probe3 case Probe3 => Announce1
      case Announce1 => Announce2 case Announce2 => Announce3
      case _ => Running
    }
  }

  /** `mdns_pcb_t`, and whether its network interface is up. */
  datatype Pcb = Pcb(ready: bool, state: PcbState, probeServices: seq<Service>, probeIp: bool, probeRunning: bool,
                     failedProbes: nat)

  const DOWN: Pcb := Pcb(false, Off, [], false, false, 0)

  /** What is recorded of the traffic: the start of a probing phase, and each packet the transmit handler sends. */
  datatype Event = Started(pcb: nat, id: nat) | Sent(pcb: nat, at: nat, tx: Tx)

  /** `mdns_server_t`, with the clock, the identity the next packet gets, and the log of what was sent. */
  datatype Server = Server(now: nat, nextId: nat, hostSet: bool, hosts: map<nat, Host>, services: seq<Service>,
                           pcbs: seq<Pcb>, tx: seq<Tx>, log: seq<Event>)

  const SELF: Host := 0

  /** `mdns_get_host_item` for the host name of a service. */
  function HostItem(hosts: map<nat, Host>, s: Service): Option<Host> {
    if s.id in hosts then Some(hosts[s.id]) else None
  }

  // ---------------------------------------------------------------- packet contents

  predicate SameAnswer(a: Answer, b: Answer) {
    a.what == b.what && a.service == b.service && a.host == b.host
  }

  predicate Contains(list: seq<Answer>, a: Answer) {
    exists i :: 0 <= i < |list| && SameAnswer(list[i], a)
  }

  /** `_mdns_alloc_answer`. */
  function AddAnswer(list: seq<Answer>, a: Answer): seq<Answer> {
    if Contains(list, a) then list else list + [a]
  }

  function AddHost(list: seq<Answer>, host: Option<Host>, flush: bool): seq<Answer> {
    AddAnswer(AddAnswer(list, Answer(A, None, host, flush, false)), Answer(Aaaa, None, host, flush, false))
  }

  function AddHostsOf(list: seq<Answer>, services: seq<Service>, hosts: map<nat, Host>, flush: bool): seq<Answer>
    decreases |services|
  {
    if services == [] then list
    else AddHostsOf(AddHost(list, HostItem(hosts, services[0]), flush), services[1..], hosts, flush)
  }

  /** `_mdns_append_host_list_in_services`. */
  function AddHosts(list: seq<Answer>, services: seq<Service>, hosts: map<nat, Host>, flush: bool): seq<Answer> {
    if services == [] then AddHost(list, Some(SELF), flush) else AddHostsOf(list, services, hosts, flush)
  }

  predicate Asks(questions: seq<Question>, about: Subject) {
    exists i :: 0 <= i < |questions| && questions[i].about == about
  }

  function AddQuestion(questions: seq<Question>, about: Subject, unicast: bool): seq<Question> {
    if Asks(questions, about) then questions else questions + [Question(about, unicast)]
  }

  function AddHostQuestions(questions: seq<Question>, services: seq<Service>, unicast: bool): seq<Question>
    decreases |services|
  {
    if services == [] then questions
    else AddHostQuestions(AddQuestion(questions, HostOf(services[0]), unicast), services[1..], unicast)
  }

  function SrvAnswer(s: Service, flush: bool): Answer {
    Answer(Srv, Some(s), None, flush, false)
  }

  /** The questions and the proposed records of a probe. */
  datatype Draft = Draft(questions: seq<Question>, servers: seq<Answer>)

  function AddProbed(d: Draft, services: seq<Service>, unicast: bool): Draft
    decreases |services|
  {
    if services == [] then d
    else
      var s := services[0];
      var next := if Asks(d.questions, Instance(s)) then d
                  else Draft(d.questions + [Question(Instance(s), unicast)], AddAnswer(d.servers, SrvAnswer(s, false)));
      AddProbed(next, services[1..], unicast)
  }

  function ProbeDraft(services: seq<Service>, unicast: bool, ip: bool, hosts: map<nat, Host>): Draft {
    var d := AddProbed(Draft([], []), services, unicast);
    if !ip then d
    else Draft(AddHostQuestions(AddQuestion(d.questions, SelfHost, unicast), services, unicast),
               AddHosts(d.servers, services, hosts, false))
  }

  /** `_mdns_create_probe_packet`. */
  function ProbePacket(id: nat, pcb: nat, services: seq<Service>, unicast: bool, ip: bool, hosts: map<nat, Host>): Tx {
    var d := ProbeDraft(services, unicast, ip, hosts);
    Tx(id, pcb, 0, false, false, d.questions, [], d.servers, [])
  }

  /** The four records that announce a service. */
  function AddService(list: seq<Answer>, s: Service): seq<Answer> {
    AddAnswer(AddAnswer(AddAnswer(AddAnswer(list,
      Answer(Sdptr, Some(s), None, false, false)),
      Answer(Ptr, Some(s), None, false, false)),
      SrvAnswer(s, true)),
      Answer(Txt, Some(s), None, true, false))
  }

  function AddServices(list: seq<Answer>, services: seq<Service>): seq<Answer>
    decreases |services|
  {
    if services == [] then list else AddServices(AddService(list, services[0]), services[1..])
  }

  /** What one entry of a probe's server list contributes to the announcement. */
  function AddAnnounced(list: seq<Answer>, s: Answer, hosts: map<nat, Host>): seq<Answer> {
    if s.what == Srv && s.service.Some? then
      AddHost(AddService(list, s.service.value), HostItem(hosts, s.service.value), true)
    else if s.what == A || s.what == Aaaa then
      AddAnswer(list, Answer(s.what, None, s.host, true, false))
    else list
  }

  function AnnouncedAnswers(list: seq<Answer>, servers: seq<Answer>, hosts: map<nat, Host>): seq<Answer>
    decreases |servers|
  {
    if servers == [] then list else AnnouncedAnswers(AddAnnounced(list, servers[0], hosts), servers[1..], hosts)
  }

  /** `_mdns_create_announce_from_probe`. */
  function AnnounceFrom(id: nat, probe: Tx, hosts: map<nat, Host>): Tx {
    Tx(id, probe.pcb, 0, false, false, [], AnnouncedAnswers([], probe.servers, hosts), [], [])
  }

  // ---------------------------------------------------------------- scheduling and probing

  function Schedule(v: Server, p: Tx, after: nat): Server {
    v.(tx := Insert(v.tx, p.(sendAt := v.now + after)))
  }

  /** The services of `services` that are not already being probed. */
  function NotIn(services: seq<Service>, known: seq<Service>): (r: seq<Service>)
    ensures forall s :: s in r <==> s in services && s !in known
  {
    if services == [] then []
    else if services[0] in known then NotIn(services[1..], known)
    else [services[0]] + NotIn(services[1..], known)
  }

  /** Milliseconds before the first probe; `random` stands for `esp_random`. */
  function ProbeDelay(failedProbes: nat, random: nat): nat {
    (if failedProbes > 5 then 1000 else 120) + random % 128
  }

  /** The services probed once `services` join. */
  function Merged(c: Pcb, services: seq<Service>): seq<Service> {
    services + if c.state.Probing() then c.probeServices else []
  }

  /** `_mdns_init_pcb_probe_new_service`. */
  function StartProbe(v: Server, i: nat, services: seq<Service>, ip: bool, random: nat): Server
    requires i < |v.pcbs|
  {
    var c := v.pcbs[i];
    var d := c.(probeServices := Merged(c, services), probeIp := c.probeIp || ip, probeRunning := true, state := Probe1);
    var p := ProbePacket(v.nextId, i, d.probeServices, true, d.probeIp, v.hosts);
    Schedule(v.(pcbs := v.pcbs[i := d], nextId := v.nextId + 1, log := v.log + [Started(i, v.nextId)]), p,
             ProbeDelay(c.failedProbes, random))
  }

  /** `_mdns_init_pcb_probe`. */
  function InitProbe(v: Server, i: nat, services: seq<Service>, ip: bool, random: nat): Server
    requires i < |v.pcbs|
  {
    var c := v.pcbs[i];
    var w := v.(tx := WithoutPcb(v.tx, i));
    if !v.hostSet then w.(pcbs := w.pcbs[i := c.(state := Running)])
    else StartProbe(w, i, if c.state.Probing() then NotIn(services, c.probeServices) else services, ip, random)
  }

  // ---------------------------------------------------------------- announcing

  /** The first packet of interface `i` in the queue, edited by `edit`. */
  function EditFirst(tx: seq<Tx>, i: nat, edit: Tx -> Tx): seq<Tx> {
    if tx == [] then []
    else if tx[0].pcb == i then [edit(tx[0])] + tx[1..]
    else [tx[0]] + EditFirst(tx[1..], i, edit)
  }

  /** Remove the first answer of a type and service (`_mdns_dealloc_answer`). */
  function DropAnswer(list: seq<Answer>, what: AnswerType, service: Option<Service>): seq<Answer> {
    if list == [] then []
    else if list[0].what == what && list[0].service == service then list[1..]
    else [list[0]] + DropAnswer(list[1..], what, service)
  }

  function Extended(p: Tx, services: seq<Service>, ip: bool, hosts: map<nat, Host>): Tx {
    var q := p.(answers := AddServices(p.answers, services));
    if !ip then q
    else q.(additional := DropAnswer(DropAnswer(q.additional, A, None), Aaaa, None),
            answers := AddHosts(q.answers, services, hosts, true))
  }

  function AnnouncePacket(id: nat, pcb: nat, services: seq<Service>, ip: bool, hosts: map<nat, Host>): Tx {
    Tx(id, pcb, 0, false, false, [], AddServices([], services), if ip then AddHosts([], services, hosts, true) else [], [])
  }

  /** `_mdns_announce_pcb`. */
  function Announce(v: Server, i: nat, services: seq<Service>, ip: bool, random: nat): Server
    requires i < |v.pcbs|
  {
    var c := v.pcbs[i];
    if !c.ready then v
    else if c.state.Probing() then InitProbe(v, i, services, ip, random)
    else if c.state.Announcing() then
      if On(v.tx, i) == [] then v
      else v.(tx := EditFirst(v.tx, i, (p: Tx) => Extended(p, services, ip, v.hosts)),
              pcbs := v.pcbs[i := c.(state := Announce1)])
    else if c.state == Running && v.hostSet then
      Schedule(v.(nextId := v.nextId + 1, pcbs := v.pcbs[i := c.(state := Announce1)]),
               AnnouncePacket(v.nextId, i, services, ip, v.hosts), 0)
    else v
  }

  // ---------------------------------------------------------------- sending

  function Multicast(p: Tx): Tx {
    p.(questions := AllMulticast(p.questions))
  }

  function AllMulticast(questions: seq<Question>): (r: seq<Question>)
    ensures |r| == |questions|
    ensures forall i :: 0 <= i < |r| ==> r[i] == questions[i].(unicast := false)
  {
    if questions == [] then [] else [questions[0].(unicast := false)] + AllMulticast(questions[1..])
  }

  /** `_mdns_tx_handle_packet`, for a packet already taken off the queue. */
  function Handle(v: Server, p: Tx): Server
    requires p.pcb < |v.pcbs|
  {
    var i, c := p.pcb, v.pcbs[p.pcb];
    if c.state == Off then v
    else
      var w := v.(log := v.log + [Sent(i, v.now, p)]);
      match c.state
      case Probe1 => Schedule(w.(pcbs := w.pcbs[i := c.(state := Probe2)]), Multicast(p), 250)
      case Probe2 => Schedule(w.(pcbs := w.pcbs[i := c.(state := Probe3)]), p, 250)
      case Probe3 =>
        var d := c.(state := Announce1, probeRunning := false, probeIp := false, probeServices := [], failedProbes := 0);
        Schedule(w.(pcbs := w.pcbs[i := d], nextId := w.nextId + 1), AnnounceFrom(w.nextId, p, w.hosts), 250)
      case Announce1 => Schedule(w.(pcbs := w.pcbs[i := c.(state := Announce2)]), p, 1000)
      case Announce2 => Schedule(w.(pcbs := w.pcbs[i := c.(state := Announce3)]), p, 1000)
      case Announce3 => w.(pcbs := w.pcbs[i := c.(state := Running)])
      case _ => w
  }

  // ---------------------------------------------------------------- removing a service

  /** `_mdns_dealloc_scheduled_service_answers`. */
  function Without(list: seq<Answer>, s: Service): (r: seq<Answer>)
    ensures forall a :: a in r <==> a in list && a.service != Some(s)
  {
    if list == [] then []
    else if list[0].service == Some(s) then Without(list[1..], s)
    else [list[0]] + Without(list[1..], s)
  }

  /** A question of type ANY that names this kind of service. */
  predicate AsksKind(q: Question, kind: nat) {
    match q.about
    case Instance(s) => s.kind == kind
    case Echo(k) => k == Some(kind)
    case _ => false
  }

  /** Only the first such question goes; it is found by service and proto, not by instance. */
  function DropQuestion(questions: seq<Question>, kind: nat): (r: seq<Question>)
    ensures forall q :: q in r ==> q in questions
  {
    if questions == [] then []
    else if AsksKind(questions[0], kind) then questions[1..]
    else [questions[0]] + DropQuestion(questions[1..], kind)
  }

  /** The list without the first occurrence of `s`. */
  function DropService(services: seq<Service>, s: Service): (r: seq<Service>)
    ensures forall x :: x in r ==> x in services
  {
    if services == [] then []
    else if services[0] == s then services[1..]
    else [services[0]] + DropService(services[1..], s)
  }

  datatype Swept = Swept(c: Pcb, p: Tx)

  /** One round of `_mdns_remove_scheduled_service_packets`: what becomes of one packet and its interface. */
  function SweepOne(c: Pcb, p: Tx, s: Service): Swept {
    var q := p.(answers := Without(p.answers, s), additional := Without(p.additional, s), servers := Without(p.servers, s));
    if !c.ready then Swept(c, q)
    else if c.state.Probing() then
      if s !in c.probeServices then Swept(c, q)
      else
        var rest := if |c.probeServices| > 1 then DropService(c.probeServices, s) else [];
        var d := c.(probeServices := rest);
        Swept(if |c.probeServices| <= 1 && !c.probeIp then d.(probeRunning := false, state := Running) else d,
              q.(questions := DropQuestion(q.questions, s.kind)))
    else if c.state.Announcing() && p.answers != [] && q.answers == [] then Swept(c.(state := Running), q)
    else Swept(c, q)
  }

  predicate Blank(p: Tx) {
    p.questions == [] && p.answers == [] && p.additional == [] && p.servers == []
  }

  datatype Sweeping = Sweeping(pcbs: seq<Pcb>, tx: seq<Tx>)

  predicate KnownPcbs(tx: seq<Tx>, pcbs: seq<Pcb>) {
    forall p :: p in tx ==> p.pcb < |pcbs|
  }

  /** The loop of `_mdns_remove_scheduled_service_packets`: packets left with nothing to say are detached. */
  function Sweep(pcbs: seq<Pcb>, tx: seq<Tx>, s: Service): (r: Sweeping)
    requires KnownPcbs(tx, pcbs)
    ensures |r.pcbs| == |pcbs|
    decreases |tx|
  {
    if tx == [] then Sweeping(pcbs, [])
    else
      var o := SweepOne(pcbs[tx[0].pcb], tx[0], s);
      var rest := Sweep(pcbs[tx[0].pcb := o.c], tx[1..], s);
      Sweeping(rest.pcbs, (if Blank(o.p) then [] else [o.p]) + rest.tx)
  }

  function RemoveService(v: Server, s: Service): Server
    requires KnownPcbs(v.tx, v.pcbs)
  {
    var r := Sweep(v.pcbs, v.tx, s);
    v.(pcbs := r.pcbs, tx := r.tx)
  }

  // ---------------------------------------------------------------- answers to others

  /** The answers this responder no longer needs to give (`_mdns_remove_scheduled_answer`). */
  function RetractAnswer(tx: seq<Tx>, i: nat, what: AnswerType, service: Option<Service>): seq<Tx> {
    if tx == [] then []
    else
      var p := tx[0];
      [if p.pcb == i && p.distributed then p.(answers := DropAnswer(p.answers, what, service)) else p]
      + RetractAnswer(tx[1..], i, what, service)
  }

  /** A delayed answer to a question; given only once probing is over. */
  function Answers(v: Server, i: nat, distributed: bool, echoes: seq<Option<nat>>, answers: seq<Answer>,
                   additional: seq<Answer>, after: nat): Server
    requires i < |v.pcbs|
  {
    if v.pcbs[i].state.Rank() <= 5 then v
    else
      Schedule(v.(nextId := v.nextId + 1),
               Tx(v.nextId, i, 0, false, distributed,
                  seq(|echoes|, k requires 0 <= k < |echoes| => Question(Echo(echoes[k]), false)),
                  answers, [], additional), after)
  }

  // ---------------------------------------------------------------- every interface

  /** `_mdns_probe_all_pcbs`, from interface `k` on. */
  function ProbeAllFrom(v: Server, k: nat, services: seq<Service>, ip: bool, clearOld: bool,
                        randoms: seq<nat>): (r: Server)
    requires k <= |v.pcbs| <= |randoms|
    ensures |r.pcbs| == |v.pcbs|
    decreases |v.pcbs| - k
  {
    if k == |v.pcbs| then v
    else if !v.pcbs[k].ready then ProbeAllFrom(v, k + 1, services, ip, clearOld, randoms)
    else
      var w := if clearOld then v.(pcbs := v.pcbs[k := v.pcbs[k].(probeServices := [], probeRunning := false)]) else v;
      ProbeAllFrom(InitProbe(w, k, services, ip, randoms[k]), k + 1, services, ip, clearOld, randoms)
  }

  function AnnounceAllFrom(v: Server, k: nat, services: seq<Service>, ip: bool, randoms: seq<nat>): (r: Server)
    requires k <= |v.pcbs| <= |randoms|
    ensures |r.pcbs| == |v.pcbs|
    decreases |v.pcbs| - k
  {
    if k == |v.pcbs| then v
    else AnnounceAllFrom(Announce(v, k, services, ip, randoms[k]), k + 1, services, ip, randoms)
  }

  /** `_mdns_restart_all_pcbs`. */
  function RestartAll(v: Server, randoms: seq<nat>): (r: Server)
    requires |v.pcbs| <= |randoms|
  {
    ProbeAllFrom(v.(tx := []), 0, v.services, true, true, randoms)
  }

  function RemoveServices(v: Server, services: seq<Service>): Server
    requires KnownPcbs(v.tx, v.pcbs)
    decreases |services|
  {
    if services == [] then v
    else
      var w := RemoveService(v, services[0]);
      SweepKnown(v.pcbs, v.tx, services[0]);
      RemoveServices(w, services[1..])
  }

  lemma {:induction false} SweepKnown(pcbs: seq<Pcb>, tx: seq<Tx>, s: Service)
    requires KnownPcbs(tx, pcbs)
    ensures KnownPcbs(Sweep(pcbs, tx, s).tx, Sweep(pcbs, tx, s).pcbs)
    decreases |tx|
  {
    if tx != [] {
      SweepKnown(pcbs[tx[0].pcb := SweepOne(pcbs[tx[0].pcb], tx[0], s).c], tx[1..], s);
    }
  }
}
