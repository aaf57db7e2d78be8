/** The timer task and the service task: which queued packets the pending actions stand for. */
module Agreement {
  import opened Options
  import opened TxPacket
  import opened Responder
  import opened ResponderInvariant
  import opened ServiceRemoval

  // ---------------------------------------------------------------- the agreement

  predicate NoneQueued(tx: seq<Tx>) {
    forall p :: p in tx ==> !p.queued
  }

  /** The packets posted for sending come first. */
  predicate QueuedFirst(tx: seq<Tx>) {
    tx == [] || if tx[0].queued then QueuedFirst(tx[1..]) else NoneQueued(tx)
  }

  /** Identities of the packets posted for sending, in queue order. */
  function QueuedIds(tx: seq<Tx>): (r: seq<nat>)
    ensures forall id :: id in r <==> exists p :: p in tx && p.queued && p.id == id
  {
    if tx == [] then []
    else (if tx[0].queued then [tx[0].id] else []) + QueuedIds(tx[1..])
  }

  predicate InQueue(id: nat, tx: seq<Tx>) {
    exists p :: p in tx && p.id == id
  }

  /** The pending identities whose packet is still in the queue. */
  function Live(pending: seq<nat>, tx: seq<Tx>): (r: seq<nat>)
    ensures forall id :: id in r <==> id in pending && InQueue(id, tx)
  {
    if pending == [] then []
    else (if InQueue(pending[0], tx) then [pending[0]] else []) + Live(pending[1..], tx)
  }

  /**
   * The posted packets are a prefix of the queue, each is overdue, and the pending actions whose packet still exists
   * are exactly these packets, in order, one action each.
   */
  predicate Agrees(v: Server, pending: seq<nat>) {
    && QueuedFirst(v.tx)
    && Live(pending, v.tx) == QueuedIds(v.tx)
    && (forall p :: p in v.tx && p.queued ==> p.sendAt < v.now)
    && (forall id :: id in pending ==> id < v.nextId)
  }

  // ---------------------------------------------------------------- packets that go

  /** `b` is `a` with some packets taken out and the others possibly edited. */
  predicate Thinned(a: seq<Tx>, b: seq<Tx>)
    decreases |a|
  {
    if a == [] then b == []
    else (b != [] && SameSlot(a[0], b[0]) && Thinned(a[1..], b[1..])) || Thinned(a[1..], b)
  }

  lemma {:induction false} ThinnedFrom(a: seq<Tx>, b: seq<Tx>, q: Tx) returns (p: Tx)
    requires Thinned(a, b) && q in b
    ensures p in a && SameSlot(p, q)
    decreases |a|
  {
    if b != [] && SameSlot(a[0], b[0]) && Thinned(a[1..], b[1..]) {
      if q == b[0] {
        p := a[0];
      } else {
        p := ThinnedFrom(a[1..], b[1..], q);
      }
    } else {
      p := ThinnedFrom(a[1..], b, q);
    }
  }

  lemma {:induction false} ThinnedPrefix(a: seq<Tx>, b: seq<Tx>)
    requires Thinned(a, b)
    ensures NoneQueued(a) ==> NoneQueued(b)
    ensures QueuedFirst(a) ==> QueuedFirst(b)
    decreases |a|
  {
    if NoneQueued(a) {
      forall q | q in b
        ensures !q.queued
      {
        var p := ThinnedFrom(a, b, q);
      }
    }
    if a != [] {
      assert NoneQueued(a) ==> NoneQueued(a[1..]);
      if b != [] && SameSlot(a[0], b[0]) && Thinned(a[1..], b[1..]) {
        ThinnedPrefix(a[1..], b[1..]);
      } else {
        ThinnedPrefix(a[1..], b);
      }
    }
  }

  /** The identities among `ids` that are in the queue. */
  lemma {:induction false} LiveTwice(pending: seq<nat>, a: seq<Tx>, b: seq<Tx>)
    requires forall id :: InQueue(id, b) ==> InQueue(id, a)
    ensures Live(pending, b) == Live(Live(pending, a), b)
  {
    hide InQueue;
    if pending != [] {
      LiveTwice(pending[1..], a, b);
      if InQueue(pending[0], a) {
        assert Live(pending, a)[1..] == Live(pending[1..], a);
      } else {
        assert Live(pending, a) == Live(pending[1..], a);
      }
    }
  }

  lemma {:induction false} LiveDistinct(a: seq<Tx>, b: seq<Tx>)
    requires Thinned(a, b) && DistinctIds(a)
    ensures Live(QueuedIds(a), b) == QueuedIds(b)
    decreases |a|
  {
    if a != [] {
      Tail(a);
      if b != [] && SameSlot(a[0], b[0]) && Thinned(a[1..], b[1..]) {
        LiveDistinct(a[1..], b[1..]);
        OtherIds(a, b[0], b[1..]);
        assert b == [b[0]] + b[1..] && b[0] in b;
        if a[0].queued {
          assert QueuedIds(a)[1..] == QueuedIds(a[1..]);
        } else {
          assert QueuedIds(a) == QueuedIds(a[1..]);
        }
      } else {
        LiveDistinct(a[1..], b);
        if a[0].queued {
          assert QueuedIds(a)[1..] == QueuedIds(a[1..]);
          NotThere(a, b);
        } else {
          assert QueuedIds(a) == QueuedIds(a[1..]);
        }
      }
    }
  }

  /** The first packet's identity is no other packet's. */
  lemma OtherIds(a: seq<Tx>, q: Tx, rest: seq<Tx>)
    requires a != [] && DistinctIds(a) && SameSlot(a[0], q) && Thinned(a[1..], rest)
    ensures Live(QueuedIds(a[1..]), [q] + rest) == Live(QueuedIds(a[1..]), rest)
  {
    Tail(a);
    SameLive(QueuedIds(a[1..]), [q] + rest, rest, q.id);
  }

  lemma {:induction false} SameLive(ids: seq<nat>, a: seq<Tx>, b: seq<Tx>, but: nat)
    requires but !in ids && forall id :: id != but ==> InQueue(id, a) == InQueue(id, b)
    ensures Live(ids, a) == Live(ids, b)
  {
    if ids != [] {
      assert ids[0] in ids;
      SameLive(ids[1..], a, b, but);
    }
  }

  lemma NotThere(a: seq<Tx>, b: seq<Tx>)
    requires a != [] && DistinctIds(a) && Thinned(a[1..], b)
    ensures !InQueue(a[0].id, b)
  {
    Tail(a);
    forall q | q in b
      ensures q.id != a[0].id
    {
      var p := ThinnedFrom(a[1..], b, q);
    }
  }

  /** Taking packets out, or editing what they say, keeps the agreement. */
  lemma ThinKeeps(v: Server, w: Server, pending: seq<nat>)
    requires Agrees(v, pending) && DistinctIds(v.tx) && Thinned(v.tx, w.tx) && w.now == v.now && w.nextId >= v.nextId
    ensures Agrees(w, pending)
  {
    hide DistinctIds, Live, QueuedFirst, QueuedIds, Thinned;
    ThinnedPrefix(v.tx, w.tx);
    forall id | InQueue(id, w.tx)
      ensures InQueue(id, v.tx)
    {
      var q :| q in w.tx && q.id == id;
      var p := ThinnedFrom(v.tx, w.tx, q);
    }
    LiveTwice(pending, v.tx, w.tx);
    LiveDistinct(v.tx, w.tx);
    forall q | q in w.tx && q.queued
      ensures q.sendAt < w.now
    {
      var p := ThinnedFrom(v.tx, w.tx, q);
    }
  }

  // ---------------------------------------------------------------- packets that come

  lemma {:induction false} InsertUnqueued(tx: seq<Tx>, p: Tx, now: nat)
    requires QueuedFirst(tx) && !p.queued && p.sendAt >= now && forall q :: q in tx && q.queued ==> q.sendAt < now
    ensures QueuedFirst(Insert(tx, p)) && QueuedIds(Insert(tx, p)) == QueuedIds(tx)
  {
    if tx == [] {
      assert Insert(tx, p) == [p] && [p][1..] == [];
    } else if tx[0].sendAt > p.sendAt {
      assert tx[0] in tx;
      assert Insert(tx, p)[1..] == tx;
      assert NoneQueued(Insert(tx, p));
    } else {
      assert Insert(tx, p)[1..] == Insert(tx[1..], p);
      assert NoneQueued(tx) ==> NoneQueued(tx[1..]);
      InsertUnqueued(tx[1..], p, now);
      assert NoneQueued(tx) ==> NoneQueued(Insert(tx, p));
    }
  }

  /** Scheduling an unposted packet that no pending action names keeps the agreement. */
  lemma InsertKeepsAgreement(v: Server, p: Tx, after: nat, pending: seq<nat>)
    requires Agrees(v, pending) && !p.queued && p.id !in pending
    ensures Agrees(Schedule(v, p, after), pending)
  {
    hide QueuedFirst, QueuedIds, Live, Insert;
    var q := p.(sendAt := v.now + after);
    InsertUnqueued(v.tx, q, v.now);
    forall id | id != p.id
      ensures InQueue(id, Insert(v.tx, q)) == InQueue(id, v.tx)
    {
    }
    SameLive(pending, Insert(v.tx, q), v.tx, p.id);
  }

  // ---------------------------------------------------------------- every operation keeps it

  predicate QueueAgrees(v: Server, pending: seq<nat>) {
    QueueOk(v) && Agrees(v, pending)
  }

  lemma {:induction false} WithoutPcbThins(tx: seq<Tx>, i: nat)
    ensures Thinned(tx, WithoutPcb(tx, i))
  {
    if tx != [] {
      WithoutPcbThins(tx[1..], i);
      assert tx[0].pcb != i ==> WithoutPcb(tx, i)[1..] == WithoutPcb(tx[1..], i);
    }
  }

  lemma {:induction false} EditedThins(a: seq<Tx>, b: seq<Tx>)
    requires Edited(a, b)
    ensures Thinned(a, b)
    decreases |a|
  {
    if a != [] {
      assert SameSlot(a[0], b[0]);
      assert forall k :: 0 <= k < |a| - 1 ==> a[1..][k] == a[k + 1] && b[1..][k] == b[k + 1];
      EditedThins(a[1..], b[1..]);
    }
  }

  lemma {:induction false} SweepThins(pcbs: seq<Pcb>, tx: seq<Tx>, s: Service)
    requires KnownPcbs(tx, pcbs)
    ensures Thinned(tx, Sweep(pcbs, tx, s).tx)
    decreases |tx|
  {
    hide SweepOne, Blank;
    if tx != [] {
      var o := SweepOne(pcbs[tx[0].pcb], tx[0], s);
      SweptSlot(pcbs[tx[0].pcb], tx[0], s);
      SweepThins(pcbs[tx[0].pcb := o.c], tx[1..], s);
      var rest := Sweep(pcbs[tx[0].pcb := o.c], tx[1..], s).tx;
      assert ([o.p] + rest)[1..] == rest && [] + rest == rest;
    }
  }

  lemma {:induction false} NothingThins(tx: seq<Tx>)
    ensures Thinned(tx, [])
  {
    if tx != [] {
      NothingThins(tx[1..]);
    }
  }

  /** A packet made now can be scheduled. */
  lemma FreshKeeps(v: Server, w: Server, p: Tx, after: nat, pending: seq<nat>)
    requires QueueAgrees(v, pending) && p.id == v.nextId && !p.queued && p.pcb < |v.pcbs|
    requires w.tx == v.tx && w.now == v.now && w.nextId == v.nextId + 1 && |w.pcbs| == |v.pcbs|
    ensures QueueAgrees(Schedule(w, p, after), pending)
  {
    hide Sorted, DistinctIds, QueuedFirst, QueuedIds, Live, Insert;
    KnownSame(v.tx, v.pcbs, w.pcbs);
    InsertFresh(w, p, after);
    InsertKeepsAgreement(w, p, after, pending);
  }

  lemma InitProbeAgrees(v: Server, i: nat, services: seq<Service>, ip: bool, random: nat, pending: seq<nat>)
    requires i < |v.pcbs| && QueueAgrees(v, pending)
    ensures QueueAgrees(InitProbe(v, i, services, ip, random), pending)
  {
    hide Sorted, DistinctIds, QueuedFirst, QueuedIds, Live, Insert, WithoutPcb, Merged, NotIn, ProbePacket, KnownPcbs;
    var u := v.(tx := WithoutPcb(v.tx, i));
    WithoutPcbThins(v.tx, i);
    WithoutPcbKeeps(v.tx, i);
    ThinKeeps(v, u, pending);
    assert QueueOk(u) by {
      KnownFewer(v.tx, u.tx, v.pcbs);
    }
    if v.hostSet {
      var chosen := if v.pcbs[i].state.Probing() then NotIn(services, v.pcbs[i].probeServices) else services;
      StartProbeAgrees(u, i, chosen, ip, random, pending);
    } else {
      KnownSame(u.tx, u.pcbs, InitProbe(v, i, services, ip, random).pcbs);
    }
  }

  lemma KnownFewer(a: seq<Tx>, b: seq<Tx>, pcbs: seq<Pcb>)
    requires KnownPcbs(a, pcbs) && forall p :: p in b ==> p in a
    ensures KnownPcbs(b, pcbs)
  {
  }

  lemma StartProbeAgrees(v: Server, i: nat, services: seq<Service>, ip: bool, random: nat, pending: seq<nat>)
    requires i < |v.pcbs| && QueueAgrees(v, pending)
    ensures QueueAgrees(StartProbe(v, i, services, ip, random), pending)
  {
    hide QueueAgrees, Insert, Merged, ProbeDraft;
    var c := v.pcbs[i];
    var d := c.(probeServices := Merged(c, services), probeIp := c.probeIp || ip, probeRunning := true, state := Probe1);
    var w := v.(pcbs := v.pcbs[i := d], nextId := v.nextId + 1, log := v.log + [Started(i, v.nextId)]);
    FreshKeeps(v, w, ProbePacket(v.nextId, i, d.probeServices, true, d.probeIp, v.hosts), ProbeDelay(c.failedProbes, random),
               pending);
  }

  /** Any step that only takes packets out or edits them. */
  lemma ThinAgrees(v: Server, w: Server, pending: seq<nat>)
    requires QueueAgrees(v, pending) && Thinned(v.tx, w.tx) && Sorted(w.tx) && DistinctIds(w.tx)
    requires w.now == v.now && w.nextId == v.nextId && |w.pcbs| == |v.pcbs|
    ensures QueueAgrees(w, pending)
  {
    hide Sorted, DistinctIds, QueuedFirst, QueuedIds, Live, Thinned;
    ThinKeeps(v, w, pending);
    forall q | q in w.tx
      ensures q.pcb < |w.pcbs| && q.id < w.nextId
    {
      var p := ThinnedFrom(v.tx, w.tx, q);
    }
  }

  lemma EditAgrees(v: Server, w: Server, pending: seq<nat>)
    requires QueueAgrees(v, pending) && Edited(v.tx, w.tx)
    requires w.now == v.now && w.nextId == v.nextId && |w.pcbs| == |v.pcbs|
    ensures QueueAgrees(w, pending)
  {
    hide QueuedFirst, QueuedIds, Live, Thinned;
    EditedThins(v.tx, w.tx);
    EditedQueue(v, w);
    ThinAgrees(v, w, pending);
  }

  lemma AnnounceAgrees(v: Server, i: nat, services: seq<Service>, ip: bool, random: nat, pending: seq<nat>)
    requires i < |v.pcbs| && QueueAgrees(v, pending)
    ensures QueueAgrees(Announce(v, i, services, ip, random), pending)
  {
    hide QueueAgrees, InitProbe, Insert, EditFirst, Extended, On, AddServices, AddHosts;
    var c := v.pcbs[i];
    if c.ready {
      if c.state.Probing() {
        InitProbeAgrees(v, i, services, ip, random, pending);
      } else if c.state.Announcing() {
        if On(v.tx, i) != [] {
          ExtendEdits(v.tx, i, services, ip, v.hosts);
          EditAgrees(v, Announce(v, i, services, ip, random), pending);
        }
      } else if c.state == Running && v.hostSet {
        var w := v.(nextId := v.nextId + 1, pcbs := v.pcbs[i := c.(state := Announce1)]);
        FreshKeeps(v, w, AnnouncePacket(v.nextId, i, services, ip, v.hosts), 0, pending);
      }
    }
  }

  lemma ExtendEdits(tx: seq<Tx>, i: nat, services: seq<Service>, ip: bool, hosts: map<nat, Host>)
    ensures Edited(tx, EditFirst(tx, i, (p: Tx) => Extended(p, services, ip, hosts)))
  {
    hide EditFirst, AddServices, AddHosts, DropAnswer;
    EditFirstEdits(tx, i, (p: Tx) => Extended(p, services, ip, hosts));
  }

  lemma AnswersAgrees(v: Server, i: nat, distributed: bool, echoes: seq<Option<nat>>, answers: seq<Answer>,
                      additional: seq<Answer>, after: nat, pending: seq<nat>)
    requires i < |v.pcbs| && QueueAgrees(v, pending)
    ensures QueueAgrees(Answers(v, i, distributed, echoes, answers, additional, after), pending)
  {
    hide QueueAgrees, Insert;
    if v.pcbs[i].state.Rank() > 5 {
      var p := Tx(v.nextId, i, 0, false, distributed,
                  seq(|echoes|, k requires 0 <= k < |echoes| => Question(Echo(echoes[k]), false)), answers, [], additional);
      FreshKeeps(v, v.(nextId := v.nextId + 1), p, after, pending);
    }
  }

  lemma RemoveServiceAgrees(v: Server, s: Service, pending: seq<nat>)
    requires QueueAgrees(v, pending)
    ensures QueueAgrees(RemoveService(v, s), pending)
  {
    hide Sorted, DistinctIds, QueuedFirst, QueuedIds, Live, Thinned, Sweep;
    SweepThins(v.pcbs, v.tx, s);
    SweepQueue(v.pcbs, v.tx, s);
    ThinAgrees(v, RemoveService(v, s), pending);
  }

  lemma {:induction false} RemoveServicesAgrees(v: Server, services: seq<Service>, pending: seq<nat>)
    requires QueueAgrees(v, pending)
    ensures QueueAgrees(RemoveServices(v, services), pending)
    decreases |services|
  {
    hide Sorted, DistinctIds, QueuedFirst, QueuedIds, Live, RemoveService;
    if services != [] {
      RemoveServiceAgrees(v, services[0], pending);
      RemoveServicesAgrees(RemoveService(v, services[0]), services[1..], pending);
    }
  }

  lemma {:induction false} ProbeAllAgrees(v: Server, k: nat, services: seq<Service>, ip: bool, clearOld: bool,
                                          randoms: seq<nat>, pending: seq<nat>)
    requires k <= |v.pcbs| <= |randoms| && QueueAgrees(v, pending)
    ensures QueueAgrees(ProbeAllFrom(v, k, services, ip, clearOld, randoms), pending)
    decreases |v.pcbs| - k
  {
    hide QueueAgrees, InitProbe;
    if k == |v.pcbs| {
    } else if !v.pcbs[k].ready {
      ProbeAllAgrees(v, k + 1, services, ip, clearOld, randoms, pending);
    } else {
      var w := if clearOld then v.(pcbs := v.pcbs[k := v.pcbs[k].(probeServices := [], probeRunning := false)]) else v;
      SameQueueAgrees(v, w, pending);
      InitProbeAgrees(w, k, services, ip, randoms[k], pending);
      InitProbeCount(w, k, services, ip, randoms[k]);
      ProbeAllAgrees(InitProbe(w, k, services, ip, randoms[k]), k + 1, services, ip, clearOld, randoms, pending);
    }
  }

  lemma InitProbeCount(v: Server, i: nat, services: seq<Service>, ip: bool, random: nat)
    requires i < |v.pcbs|
    ensures |InitProbe(v, i, services, ip, random).pcbs| == |v.pcbs|
  {
    hide WithoutPcb, Insert, ProbePacket, Merged;
  }

  lemma SameQueueAgrees(v: Server, w: Server, pending: seq<nat>)
    requires QueueAgrees(v, pending) && w.tx == v.tx && w.now == v.now && w.nextId == v.nextId && |w.pcbs| == |v.pcbs|
    ensures QueueAgrees(w, pending)
  {
    hide Sorted, DistinctIds, QueuedFirst, QueuedIds, Live;
  }

  lemma {:induction false} AnnounceAllAgrees(v: Server, k: nat, services: seq<Service>, ip: bool, randoms: seq<nat>,
                                             pending: seq<nat>)
    requires k <= |v.pcbs| <= |randoms| && QueueAgrees(v, pending)
    ensures QueueAgrees(AnnounceAllFrom(v, k, services, ip, randoms), pending)
    decreases |v.pcbs| - k
  {
    hide QueueAgrees, Announce;
    if k < |v.pcbs| {
      AnnounceAgrees(v, k, services, ip, randoms[k], pending);
      AnnounceCount(v, k, services, ip, randoms[k]);
      AnnounceAllAgrees(Announce(v, k, services, ip, randoms[k]), k + 1, services, ip, randoms, pending);
    }
  }

  lemma AnnounceCount(v: Server, i: nat, services: seq<Service>, ip: bool, random: nat)
    requires i < |v.pcbs|
    ensures |Announce(v, i, services, ip, random).pcbs| == |v.pcbs|
  {
    hide InitProbe, Insert, EditFirst, Extended;
    InitProbeCount(v, i, services, ip, random);
  }

  lemma RestartAllAgrees(v: Server, randoms: seq<nat>, pending: seq<nat>)
    requires |v.pcbs| <= |randoms| && QueueAgrees(v, pending)
    ensures QueueAgrees(RestartAll(v, randoms), pending)
  {
    hide QueuedFirst, QueuedIds, Live, ProbeAllFrom, Thinned;
    NothingThins(v.tx);
    ThinAgrees(v, v.(tx := []), pending);
    ProbeAllAgrees(v.(tx := []), 0, v.services, true, true, randoms, pending);
  }

  // ---------------------------------------------------------------- sending

  /** If the oldest pending action names a packet still in the queue, that packet is the head and is posted. */
  lemma OldestIsHead(v: Server, id: nat, rest: seq<nat>)
    requires Agrees(v, [id] + rest) && InQueue(id, v.tx)
    ensures v.tx != [] && v.tx[0].id == id && v.tx[0].queued
  {
    hide Agrees, InQueue, QueuedFirst, Live, QueuedIds;
    assert Live([id] + rest, v.tx) == QueuedIds(v.tx) && QueuedFirst(v.tx) by {
      AgreesParts(v, [id] + rest);
    }
    assert QueuedIds(v.tx) == [id] + Live(rest, v.tx) by {
      LiveCons(id, rest, v.tx);
    }
    FirstQueued(v.tx);
  }

  lemma AgreesParts(v: Server, pending: seq<nat>)
    requires Agrees(v, pending)
    ensures Live(pending, v.tx) == QueuedIds(v.tx) && QueuedFirst(v.tx)
  {
  }

  lemma LiveCons(id: nat, rest: seq<nat>, tx: seq<Tx>)
    ensures Live([id] + rest, tx) == (if InQueue(id, tx) then [id] else []) + Live(rest, tx)
  {
    assert ([id] + rest)[1..] == rest;
  }

  lemma FirstQueued(tx: seq<Tx>)
    requires QueuedFirst(tx) && QueuedIds(tx) != []
    ensures tx != [] && tx[0].queued && QueuedIds(tx)[0] == tx[0].id && QueuedIds(tx) == [tx[0].id] + QueuedIds(tx[1..])
  {
    if !tx[0].queued {
      NoneQueuedIds(tx);
      assert false;
    }
  }

  lemma {:induction false} NoneQueuedIds(tx: seq<Tx>)
    requires NoneQueued(tx)
    ensures QueuedIds(tx) == []
  {
    if tx != [] {
      NoneQueuedIds(tx[1..]);
    }
  }

  /** Taking the posted head off the queue, and its action off the pending ones; no other action names it. */
  lemma TakeHead(v: Server, rest: seq<nat>)
    requires v.tx != [] && QueueAgrees(v, [v.tx[0].id] + rest) && v.tx[0].queued
    ensures var u := v.(tx := v.tx[1..]);
            && Agrees(u, rest) && v.tx[0].id !in rest && v.tx[0].sendAt < v.now
  {
    hide Sorted;
    var id, u := v.tx[0].id, v.(tx := v.tx[1..]);
    assert v.tx[0] in v.tx;
    AgreesParts(v, [id] + rest);
    LiveCons(id, rest, v.tx);
    Tail(v.tx);
    assert Live([id] + rest, v.tx)[1..] == Live(rest, v.tx);
    assert QueuedIds(v.tx)[1..] == QueuedIds(v.tx[1..]);
    assert id !in QueuedIds(v.tx[1..]);
    assert id !in rest;
    forall other | other != id
      ensures InQueue(other, v.tx) == InQueue(other, u.tx)
    {
    }
    SameLive(rest, v.tx, u.tx, id);
    assert forall q :: q in u.tx ==> q in v.tx;
    assert forall other :: other in rest ==> other in [id] + rest;
  }

  lemma SendAgrees(v: Server, rest: seq<nat>)
    requires v.tx != [] && QueueAgrees(v, [v.tx[0].id] + rest) && v.tx[0].queued
    ensures QueueAgrees(Handle(v.(tx := v.tx[1..]), v.tx[0].(queued := false)), rest)
  {
    hide Sorted, DistinctIds, QueuedFirst, QueuedIds, Live, Insert, Handle, Successor, StateAfter;
    var u, p := v.(tx := v.tx[1..]), v.tx[0].(queued := false);
    TakeHead(v, rest);
    HandleEffect(v, p);
    HeadGone(v);
    HandleDoes(u, p);
    var w, next := Handle(u, p), Successor(u, p);
    if next.Some? {
      SuccessorUnqueued(u, p);
      InsertKeepsAgreement(u.(nextId := w.nextId), next.value, next.value.sendAt - v.now, rest);
    }
  }

  lemma SuccessorUnqueued(v: Server, p: Tx)
    requires p.pcb < |v.pcbs| && !p.queued && Successor(v, p).Some?
    ensures !Successor(v, p).value.queued && Successor(v, p).value.sendAt >= v.now
  {
    hide AnnouncedAnswers, AllMulticast;
  }
}
