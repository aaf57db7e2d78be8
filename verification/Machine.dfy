/**
 * The whole responder: API tasks that post actions, the timer task, and the service task, interleaved in atomic steps.
 * The lock makes each timer round and each executed action one step; taking an action off the queue is another.
 */
module Machine {
  import opened Options
  import opened TxPacket
  import opened Responder

  /** CONFIG_MDNS_ACTION_QUEUE_LEN. */
  const ACTION_QUEUE: nat := 16

  /** Which name gives way when an SRV record collides while probing. */
  datatype Rename = OfInstance | OfDefault(unnamed: set<nat>) | OfHost

  /** What the service task can be asked to do; received packets appear as the effects they can have. */
  datatype Op =
    | Enable(pcb: nat, up: bool)
    | Disable(pcb: nat)
    | AnnounceAddress(pcb: nat)
    | SetHostname
    | SetHosts(hosts: map<nat, Host>)
    | SetInstance(unnamed: set<nat>)
    | AddService(service: Service)
    | SetServiceInstance(service: Service)
    | UpdateService(service: Service, ip: bool)
    | DeleteService(service: Service)
    | DeleteAllServices
    | SrvCollision(pcb: nat, service: Service, rename: Rename)
    | TxtCollision(pcb: nat, service: Service)
    | AddressCollision(pcb: nat)
    | Asked(pcb: nat, distributed: bool, echoes: seq<Option<nat>>, answers: seq<Answer>, additional: seq<Answer>, after: nat)
    | AnsweredByOther(pcb: nat, what: AnswerType, about: Option<Service>)

  datatype Action = Send(id: nat) | Do(op: Op)

  datatype System = System(v: Server, actions: seq<Action>, current: Option<Action>)

  // ---------------------------------------------------------------- operations

  /** The services without a name of their own, in list order. */
  function Unnamed(services: seq<Service>, ids: set<nat>): (r: seq<Service>)
    ensures forall s :: s in r ==> s in services
  {
    if services == [] then []
    else (if services[0].id in ids then [services[0]] else []) + Unnamed(services[1..], ids)
  }

  /** `_mdns_restart_all_pcbs_no_instance`. */
  function RestartUnnamed(v: Server, unnamed: set<nat>, randoms: seq<nat>): Server
    requires |v.pcbs| <= |randoms|
  {
    var chosen := Unnamed(v.services, unnamed);
    if chosen == [] then v else ProbeAllFrom(v, 0, chosen, false, true, randoms)
  }

  function CountFailure(v: Server, i: nat): Server
    requires i < |v.pcbs|
  {
    v.(pcbs := v.pcbs[i := v.pcbs[i].(failedProbes := v.pcbs[i].failedProbes + 1)])
  }

  /** The effect of one action on the server.  Operations on an interface that is down, other than enabling it, do nothing. */
  function Apply(v: Server, op: Op, randoms: seq<nat>): Server
    requires |v.pcbs| <= |randoms| && KnownPcbs(v.tx, v.pcbs)
  {
    match op
    case Enable(i, up) =>
      if i >= |v.pcbs| || (!v.pcbs[i].ready && !up) then v
      else InitProbe(v.(pcbs := v.pcbs[i := v.pcbs[i].(ready := true)]), i, v.services, true, randoms[i])
    case Disable(i) =>
      if i >= |v.pcbs| || !v.pcbs[i].ready then v
      else v.(tx := WithoutPcb(v.tx, i), pcbs := v.pcbs[i := DOWN])
    case AnnounceAddress(i) =>
      if i >= |v.pcbs| then v else Announce(v, i, [], true, randoms[i])
    case SetHostname => RestartAll(v.(hostSet := true), randoms)
    case SetHosts(hosts) => v.(hosts := hosts)
    case SetInstance(unnamed) => RestartUnnamed(v, unnamed, randoms)
    case AddService(s) =>
      if s in v.services then v else ProbeAllFrom(v.(services := [s] + v.services), 0, [s], false, false, randoms)
    case SetServiceInstance(s) => ProbeAllFrom(v, 0, [s], false, false, randoms)
    case UpdateService(s, ip) => AnnounceAllFrom(v, 0, [s], ip, randoms)
    case DeleteService(s) =>
      if s !in v.services then v else RemoveService(v.(services := DropService(v.services, s)), s)
    case DeleteAllServices => RemoveServices(v.(services := []), v.services)
    case SrvCollision(i, s, rename) =>
      if i >= |v.pcbs| || !v.pcbs[i].ready then v
      else if !v.pcbs[i].probeRunning then InitProbe(v, i, [s], false, randoms[i])
      else
        (match rename
         case OfInstance => ProbeAllFrom(CountFailure(v, i), 0, [s], false, false, randoms)
         case OfDefault(unnamed) => RestartUnnamed(CountFailure(v, i), unnamed, randoms)
         case OfHost => RestartAll(CountFailure(v, i), randoms))
    case TxtCollision(i, s) =>
      if i >= |v.pcbs| || !v.pcbs[i].ready || v.pcbs[i].probeRunning then v
      else InitProbe(v, i, [s], true, randoms[i])
    case AddressCollision(i) =>
      if i >= |v.pcbs| || !v.pcbs[i].ready then v
      else if v.pcbs[i].probeRunning then RestartAll(CountFailure(v, i), randoms)
      else InitProbe(v, i, [], true, randoms[i])
    case Asked(i, distributed, echoes, answers, additional, after) =>
      if i >= |v.pcbs| then v else Answers(v, i, distributed, echoes, answers, additional, after)
    case AnsweredByOther(i, what, service) => v.(tx := RetractAnswer(v.tx, i, what, service))
  }

  // ---------------------------------------------------------------- steps

  datatype Step =
    | Tick(ms: nat)
    | Timer(memory: bool)
    | Post(op: Op)
    | Take
    | Execute(randoms: seq<nat>)

  /** Where the first packet not yet posted stands. */
  function FirstUnposted(tx: seq<Tx>): (k: nat)
    ensures k <= |tx| && (k < |tx| ==> !tx[k].queued) && forall j :: 0 <= j < k ==> tx[j].queued
  {
    if tx == [] || !tx[0].queued then 0 else 1 + FirstUnposted(tx[1..])
  }

  /** `_mdns_scheduler_run`. */
  function TimerRound(y: System, memory: bool): System {
    var k := FirstUnposted(y.v.tx);
    if k == |y.v.tx| || y.v.tx[k].sendAt >= y.v.now || !memory || |y.actions| >= ACTION_QUEUE then y
    else
      y.(v := y.v.(tx := y.v.tx[k := y.v.tx[k].(queued := true)]), actions := y.actions + [Send(y.v.tx[k].id)])
  }

  /** The ACTION_TX_HANDLE case: the head is sent if it is the packet that was posted. */
  function SendPosted(v: Server, id: nat): Server
    requires KnownPcbs(v.tx, v.pcbs)
  {
    if v.tx == [] || v.tx[0].id != id || !v.tx[0].queued then v
    else
      assert v.tx[0] in v.tx;
      Handle(v.(tx := v.tx[1..]), v.tx[0].(queued := false))
  }

  function Next(y: System, step: Step): System
    requires KnownPcbs(y.v.tx, y.v.pcbs)
  {
    match step
    case Tick(ms) => y.(v := y.v.(now := y.v.now + ms))
    case Timer(memory) => TimerRound(y, memory)
    case Post(op) => if |y.actions| >= ACTION_QUEUE then y else y.(actions := y.actions + [Do(op)])
    case Take =>
      if y.current.Some? || y.actions == [] then y
      else y.(actions := y.actions[1..], current := Some(y.actions[0]))
    case Execute(randoms) =>
      if y.current.None? || |randoms| < |y.v.pcbs| then y
      else
        (match y.current.value
         case Send(id) => y.(v := SendPosted(y.v, id), current := None)
         case Do(op) => y.(v := Apply(y.v, op, randoms), current := None))
  }

  /** `pcbs` interfaces, all down, nothing queued. */
  function Boot(pcbs: nat): System {
    System(Server(0, 0, false, map[], [], seq(pcbs, _ => DOWN), [], []), [], None)
  }
}
