/** The two tasks on their own: with no new actions, timer and service task bring every interface to rest. */
module Liveness {
  import opened Options
  import opened TxPacket
  import opened Responder
  import opened ResponderInvariant
  import opened Agreement
  import opened Machine
  import opened MachineInvariant
  import opened Runs
  import opened Progress

  /** Wait for the head of the queue to be overdue, let the timer post it, take the action and execute it. */
  function Round(v: Server): seq<Step>
    requires v.tx != []
  {
    [Tick(if v.now > v.tx[0].sendAt then 0 else v.tx[0].sendAt + 1 - v.now), Timer(true), Take,
     Execute(seq(|v.pcbs|, _ => 0))]
  }

  /** Nothing is pending: no action in the queue and none taken. */
  predicate Idle(y: System) {
    y.actions == [] && y.current == None
  }

  /** Only the two tasks move, and time. */
  predicate OnlyTasks(steps: seq<Step>) {
    forall s :: s in steps ==> !s.Post?
  }

  lemma IdleNoneQueued(y: System)
    requires SystemInv(y) && Idle(y) && y.v.tx != []
    ensures !y.v.tx[0].queued
  {
    assert Pending(y) == [];
    assert QueuedIds(y.v.tx) == [];
  }

  lemma SystemKnown(y: System)
    requires SystemInv(y)
    ensures KnownPcbs(y.v.tx, y.v.pcbs)
  {
  }

  lemma AfterJoin(y: System, a: seq<Step>, b: seq<Step>)
    requires SystemInv(y)
    ensures After(y, a + b) == After(After(y, a), b)
    decreases |a|
  {
    if a == [] {
      assert a + b == b;
    } else {
      NextInv(y, a[0]);
      assert (a + b)[1..] == a[1..] + b;
      AfterJoin(Next(y, a[0]), a[1..], b);
    }
  }

  /** What the four steps of a round do. */
  lemma RoundSteps(y: System)
    requires KnownPcbs(y.v.tx, y.v.pcbs) && Idle(y) && y.v.tx != [] && !y.v.tx[0].queued
    ensures var r := Round(y.v);
            var y1 := Next(y, r[0]);
            var y2 := Next(y1, r[1]);
            && KnownPcbs(y2.v.tx, y2.v.pcbs)
            && var y3 := Next(y2, r[2]);
            var y4 := Next(y3, r[3]);
            Idle(y4) && y4.v == HandleNext(y.v)
  {
    hide Handle, Apply;
    var r, v := Round(y.v), y.v;
    var head := v.tx[0];
    var y1 := Next(y, r[0]);
    assert FirstUnposted(y1.v.tx) == 0;
    var y2 := Next(y1, r[1]);
    var marked := v.tx[0 := head.(queued := true)];
    assert y2.v.tx == marked && marked[1..] == v.tx[1..] && marked[0].(queued := false) == head.(queued := false);
    forall p | p in marked
      ensures p.pcb < |v.pcbs|
    {
      assert head in v.tx;
    }
    var y3 := Next(y2, r[2]);
    assert y3.current == Some(Send(head.id)) && y3.actions == [];
  }

  /** A round handles the head of the queue and leaves nothing pending. */
  lemma RoundHandlesHead(y: System)
    requires SystemInv(y) && Idle(y) && y.v.tx != []
    ensures KnownPcbs(y.v.tx, y.v.pcbs)
    ensures var z := After(y, Round(y.v)); Idle(z) && z.v == HandleNext(y.v)
  {
    hide Inv, Agrees, HandleNext, Next, KnownPcbs, After;
    SystemKnown(y);
    IdleNoneQueued(y);
    RoundSteps(y);
    var r := Round(y.v);
    assert r == [r[0]] + ([r[1]] + ([r[2]] + ([r[3]] + [])));
    AfterCons(y, r[0], [r[1]] + ([r[2]] + ([r[3]] + [])));
    var y1 := Next(y, r[0]);
    AfterCons(y1, r[1], [r[2]] + ([r[3]] + []));
    var y2 := Next(y1, r[1]);
    AfterCons(y2, r[2], [r[3]] + []);
    var y3 := Next(y2, r[2]);
    AfterCons(y3, r[3], []);
    AfterNothing(Next(y3, r[3]));
  }

  lemma AfterNothing(y: System)
    requires SystemInv(y)
    ensures After(y, []) == y
  {
  }

  lemma AfterCons(y: System, a: Step, rest: seq<Step>)
    requires SystemInv(y)
    ensures KnownPcbs(y.v.tx, y.v.pcbs) && SystemInv(Next(y, a))
    ensures After(y, [a] + rest) == After(Next(y, a), rest)
  {
    hide Inv, Agrees, Next;
    SystemKnown(y);
    NextInv(y, a);
    assert ([a] + rest)[1..] == rest;
  }

  function Posts(ops: seq<Op>): seq<Step> {
    if ops == [] then [] else [Post(ops[0])] + Posts(ops[1..])
  }

  function Dos(ops: seq<Op>): seq<Action> {
    if ops == [] then [] else [Do(ops[0])] + Dos(ops[1..])
  }

  lemma PostOne(y: System, op: Op)
    requires KnownPcbs(y.v.tx, y.v.pcbs) && |y.actions| < 16
    ensures Next(y, Post(op)) == y.(actions := y.actions + [Do(op)])
  {
    hide KnownPcbs;
  }

  /** What tasks post is kept, in order, as long as it fits. */
  lemma {:induction false} PostsFit(y: System, ops: seq<Op>)
    requires SystemInv(y) && |y.actions| + |ops| <= 16
    ensures After(y, Posts(ops)) == y.(actions := y.actions + Dos(ops))
    decreases |ops|
  {
    hide SystemInv, Next, KnownPcbs, After;
    if ops == [] {
      AfterNothing(y);
      assert y.actions + [] == y.actions;
    } else {
      AfterCons(y, Post(ops[0]), Posts(ops[1..]));
      PostOne(y, ops[0]);
      PostsFit(Next(y, Post(ops[0])), ops[1..]);
      assert y.actions + [Do(ops[0])] + Dos(ops[1..]) == y.actions + Dos(ops);
    }
  }

  /** No operation is pending, only packets that the timer task posted. */
  predicate OnlySends(y: System) {
    (forall a :: a in y.actions ==> a.Send?) && (y.current.Some? ==> y.current.value.Send?)
  }

  /** The same packets and interfaces, though time may have passed and packets may have been posted. */
  predicate Idled(v: Server, w: Server) {
    Marked(v.tx, w.tx) && v.now <= w.now && w == v.(now := w.now, tx := w.tx)
  }

  /** A posted packet that is still queued is the overdue head; any other post is skipped. */
  lemma SendHandlesHead(y: System, id: nat)
    requires SystemInv(y) && y.current == Some(Send(id))
    ensures KnownPcbs(y.v.tx, y.v.pcbs)
    ensures SendPosted(y.v, id) == y.v || (y.v.tx != [] && SendPosted(y.v, id) == HandleNext(y.v))
  {
    hide Handle, Inv;
    InvServices(y.v);
    if y.v.tx != [] && y.v.tx[0].id == id && y.v.tx[0].queued {
      assert y.v.tx[0] in y.v.tx && y.v.tx[0].sendAt < y.v.now;
    }
  }

  /** Time passes, or the timer task marks and posts a packet. */
  lemma TimerIdles(y: System, step: Step)
    requires KnownPcbs(y.v.tx, y.v.pcbs) && OnlySends(y) && (step.Tick? || step.Timer?)
    ensures OnlySends(Next(y, step)) && Idled(y.v, Next(y, step).v)
  {
    hide KnownPcbs;
    if step.Timer? {
      var k := FirstUnposted(y.v.tx);
      TimerDoes(y, step.memory, k);
    }
  }

  lemma TakeIdles(y: System)
    requires KnownPcbs(y.v.tx, y.v.pcbs) && OnlySends(y)
    ensures OnlySends(Next(y, Take)) && Next(y, Take).v == y.v
  {
    hide KnownPcbs;
  }

  lemma ExecuteSends(y: System, randoms: seq<nat>)
    requires SystemInv(y) && KnownPcbs(y.v.tx, y.v.pcbs) && OnlySends(y)
    ensures var z := Next(y, Execute(randoms));
            OnlySends(z) && (z.v == y.v || (y.v.tx != [] && z.v == HandleNext(y.v)))
  {
    hide SystemInv, KnownPcbs, HandleNext, SendPosted, Apply;
    if y.current.Some? {
      SendHandlesHead(y, y.current.value.id);
    }
  }

  lemma Unmoved(v: Server)
    ensures Idled(v, v)
  {
  }

  /** One step of the tasks: it handles the head of the queue, or nothing but time and marks changes. */
  lemma TaskStep(y: System, step: Step)
    requires SystemInv(y) && OnlySends(y) && !step.Post?
    ensures KnownPcbs(y.v.tx, y.v.pcbs) && OnlySends(Next(y, step))
    ensures Idled(y.v, Next(y, step).v) || (y.v.tx != [] && Next(y, step).v == HandleNext(y.v))
    ensures step.Take? || step.Execute? ==>
              Next(y, step).v == y.v || (y.v.tx != [] && Next(y, step).v == HandleNext(y.v))
  {
    hide SystemInv, OnlySends, Next, HandleNext, Idled, KnownPcbs;
    SystemKnown(y);
    Unmoved(y.v);
    match step
    case Tick(_) => TimerIdles(y, step);
    case Timer(_) => TimerIdles(y, step);
    case Take => TakeIdles(y);
    case Execute(randoms) => ExecuteSends(y, randoms);
  }

  lemma {:induction false} IdledMeasure(v: Server, w: Server, k: nat)
    requires Idled(v, w) && k <= |v.pcbs|
    ensures Total(v, k) == Total(w, k)
    decreases |v.pcbs| - k
  {
    hide On;
    if k < |v.pcbs| {
      MarkedOn(v.tx, w.tx, k);
      IdledMeasure(v, w, k + 1);
    }
  }

  /** A handling sends one packet at most. */
  lemma OneDispatch(v: Server)
    requires v.tx != [] && Inv(v)
    ensures KnownPcbs(v.tx, v.pcbs) && |HandleNext(v).log| <= |v.log| + 1
  {
    hide Handle, Inv;
    InvKnown(v);
    HandleDoes(v.(tx := v.tx[1..], now := if v.now > v.tx[0].sendAt then v.now else v.tx[0].sendAt + 1),
               v.tx[0].(queued := false));
  }

  /**
   * However the two tasks are scheduled: with no new operations, no more packets are sent than there are packets
   * queued and states ahead.
   */
  lemma {:induction false} DispatchesAreBounded(y: System, steps: seq<Step>)
    requires SystemInv(y) && OnlySends(y) && OnlyTasks(steps)
    ensures |After(y, steps).v.log| + Total(After(y, steps).v, 0) <= |y.v.log| + Total(y.v, 0)
    decreases |steps|
  {
    hide Inv, Agrees, Next, HandleNext, Total, OnlySends;
    if steps != [] {
      NextInv(y, steps[0]);
      TaskStep(y, steps[0]);
      var z := Next(y, steps[0]);
      if Idled(y.v, z.v) {
        IdledMeasure(y.v, z.v, 0);
      } else {
        TotalDrops(y.v, 0);
        OneDispatch(y.v);
      }
      DispatchesAreBounded(z, steps[1..]);
    }
  }

  lemma PerformNext(y: System) returns (steps: seq<Step>)
    requires SystemInv(y) && !Idle(y)
    ensures OnlyTasks(steps)
    ensures var z := After(y, steps);
            && z.current == None && |z.actions| + 1 == |y.actions| + (if y.current.Some? then 1 else 0)
            && (y.current == None ==> z.actions == y.actions[1..]) && (y.current.Some? ==> z.actions == y.actions)
            && (OnlySends(y) ==> OnlySends(z)
                                 && (z.v == y.v || (KnownPcbs(y.v.tx, y.v.pcbs) && y.v.tx != [] && z.v == HandleNext(y.v))))
  {
    hide Inv, Agrees, Apply, HandleNext, SendPosted, After, KnownPcbs;
    SystemKnown(y);
    var randoms := seq(|y.v.pcbs|, _ => 0);
    if y.current.Some? {
      steps := [Execute(randoms)] + [];
      AfterCons(y, Execute(randoms), []);
      AfterNothing(Next(y, Execute(randoms)));
      if OnlySends(y) {
        TaskStep(y, Execute(randoms));
      }
    } else {
      steps := [Take] + ([Execute(randoms)] + []);
      AfterCons(y, Take, [Execute(randoms)] + []);
      var y1 := Next(y, Take);
      AfterCons(y1, Execute(randoms), []);
      AfterNothing(Next(y1, Execute(randoms)));
      if OnlySends(y) {
        TaskStep(y, Take);
        TaskStep(y1, Execute(randoms));
      }
    }
  }

  /** The service task works off what is pending. */
  lemma {:induction false} DrainPending(y: System) returns (steps: seq<Step>)
    requires SystemInv(y)
    ensures OnlyTasks(steps) && Idle(After(y, steps))
    ensures OnlySends(y) ==> Drained(After(y, steps).v) == Drained(y.v)
    decreases |y.actions| + if y.current.Some? then 1 else 0
  {
    hide Inv, Agrees, HandleNext, OnlySends, After, Drained;
    if Idle(y) {
      steps := [];
      AfterNothing(y);
    } else {
      var first := PerformNext(y);
      var z := After(y, first);
      var rest := DrainPending(z);
      AfterJoin(y, first, rest);
      steps := first + rest;
      if y.v.tx != [] {
        DrainedNext(y.v);
      }
    }
  }

  lemma DrainedNext(v: Server)
    requires Inv(v) && v.tx != []
    ensures KnownPcbs(v.tx, v.pcbs) && Inv(HandleNext(v)) && Drained(HandleNext(v)) == Drained(v)
  {
    hide Inv, HandleNext, Total;
    HandleNextKeeps(v);
    TotalDrops(v, 0);
    InvKnown(v);
  }

  /**
   * From any reachable state, timer and service task alone bring the system to rest: nothing queued, nothing pending.
   * If no operation was pending, that is where handling packets one after the other, each in its time, brings it.
   */
  lemma ComesToRest(y: System) returns (steps: seq<Step>)
    requires SystemInv(y)
    ensures OnlyTasks(steps) && Idle(After(y, steps)) && After(y, steps).v.tx == []
    ensures OnlySends(y) ==> After(y, steps).v == Drained(y.v)
  {
    hide SystemInv, Idle, After, Drained, OnlySends;
    var first := DrainPending(y);
    var z := After(y, first);
    var rest := RestFromIdle(z);
    AfterJoin(y, first, rest);
    steps := first + rest;
    assert SystemInv(y) && SystemInv(z);
    SystemInvs(y);
    SystemInvs(z);
  }

  lemma SystemInvs(y: System)
    requires SystemInv(y)
    ensures Inv(y.v)
  {
  }

  lemma {:induction false} RestFromIdle(y: System) returns (steps: seq<Step>)
    requires SystemInv(y) && Idle(y)
    ensures OnlyTasks(steps) && Idle(After(y, steps)) && After(y, steps).v == Drained(y.v)
    decreases Total(y.v, 0)
  {
    hide Inv, Agrees, Idle, Next, HandleNext, Total, Round;
    if y.v.tx == [] {
      steps := [];
    } else {
      RoundHandlesHead(y);
      HandleNextKeeps(y.v);
      TotalDrops(y.v, 0);
      var z := After(y, Round(y.v));
      var rest := RestFromIdle(z);
      steps := Round(y.v) + rest;
      AfterJoin(y, Round(y.v), rest);
      RoundTasks(y.v);
    }
  }

  lemma RoundTasks(v: Server)
    requires v.tx != []
    ensures OnlyTasks(Round(v))
  {
  }

  /** Bringing up an interface and then naming the host: the shortest run to a first probe. */
  function FirstProbe(): seq<Step> {
    [Post(Enable(0, true)), Take, Execute([0]), Post(SetHostname), Take, Execute([0])]
  }

  /** Such runs exist: after these six steps the one interface probes, with nothing pending. */
  lemma AProbeBegins()
    ensures var y := Reached(1, FirstProbe());
            Idle(y) && |y.v.pcbs| == 1 && y.v.pcbs[0].state == Probe1 && y.v.services == []
  {
    BootInv(1);
    var f := FirstProbe();
    var first, second := [Post(Enable(0, true)), Take, Execute([0])], [Post(SetHostname), Take, Execute([0])];
    assert f == first + second;
    AfterJoin(Boot(1), first, second);
    var y0 := Boot(1);
    Performed(y0, Enable(0, true), [0]);
    var y1 := After(y0, first);
    assert y1.v.pcbs[0].state == Running && y1.v.pcbs[0].ready by {
      hide On, SinceStart;
    }
    Performed(y1, SetHostname, [0]);
    Renamed(y1.v);
  }

  /** Posting one operation and executing it applies it. */
  lemma Performed(y: System, op: Op, randoms: seq<nat>)
    requires SystemInv(y) && Idle(y) && |y.v.pcbs| <= |randoms|
    ensures KnownPcbs(y.v.tx, y.v.pcbs)
    ensures var z := After(y, [Post(op), Take, Execute(randoms)]); Idle(z) && z.v == Apply(y.v, op, randoms)
  {
    hide Inv, Agrees, Apply, After, KnownPcbs;
    SystemKnown(y);
    assert [Post(op), Take, Execute(randoms)] == [Post(op)] + ([Take] + ([Execute(randoms)] + []));
    AfterCons(y, Post(op), [Take] + ([Execute(randoms)] + []));
    var y1 := Next(y, Post(op));
    AfterCons(y1, Take, [Execute(randoms)] + []);
    var y2 := Next(y1, Take);
    AfterCons(y2, Execute(randoms), []);
    AfterNothing(Next(y2, Execute(randoms)));
  }

  lemma Renamed(v: Server)
    requires |v.pcbs| == 1 && v.pcbs[0].ready && v.pcbs[0].state == Running && KnownPcbs(v.tx, v.pcbs)
    ensures var w := Apply(v, SetHostname, [0]);
            |w.pcbs| == 1 && w.pcbs[0].state == Probe1 && w.services == v.services
  {
    hide Insert, WithoutPcb, ProbePacket, Merged;
    var w := v.(hostSet := true, tx := []);
    var u := w.(pcbs := w.pcbs[0 := w.pcbs[0].(probeServices := [], probeRunning := false)]);
    assert ProbeAllFrom(w, 0, w.services, true, true, [0])
        == ProbeAllFrom(InitProbe(u, 0, w.services, true, 0), 1, w.services, true, true, [0]);
  }
}
