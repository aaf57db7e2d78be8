/** What each operation does, interface by interface, in terms of what is probed, queued and said. */
module Operations {
  import opened Options
  import opened TxPacket
  import opened Responder
  import opened ResponderInvariant
  import opened ServiceRemoval
  import opened Machine
  import opened MachineInvariant
  import opened Contents

  // ---------------------------------------------------------------- outcomes on one interface

  /** Interface `i` has just begun to probe; `c` is what it was before. */
  ghost predicate Began(c: Pcb, w: Server, i: nat, services: seq<Service>, ip: bool)
    requires i < |w.pcbs|
  {
    var d := w.pcbs[i];
    && d == c.(probeServices := d.probeServices, probeIp := c.probeIp || ip, probeRunning := true, state := Probe1)
    && (forall s :: s in d.probeServices <==> s in services || (c.state.Probing() && s in c.probeServices))
    && |On(w.tx, i)| == 1 && SinceStart(w.log, i) == []
    && var p := On(w.tx, i)[0];
      && SaysProbe(p, d.probeServices, d.probeIp, w.hosts, true) && !p.queued
      && if c.failedProbes > 5 then w.now + 1000 <= p.sendAt <= w.now + 1127
         else w.now + 120 <= p.sendAt <= w.now + 247
  }

  /** It begins to probe; without a host name it only stops what it was doing. */
  ghost predicate Probes(c: Pcb, w: Server, i: nat, services: seq<Service>, ip: bool)
    requires i < |w.pcbs|
  {
    if w.hostSet then Began(c, w, i, services, ip) else w.pcbs[i] == c.(state := Running) && On(w.tx, i) == []
  }

  predicate Untouched(v: Server, w: Server, i: nat) {
    && i < |v.pcbs| && i < |w.pcbs| && v.pcbs[i] == w.pcbs[i]
    && On(v.tx, i) == On(w.tx, i) && SinceStart(v.log, i) == SinceStart(w.log, i)
  }

  /** Nothing changed but interfaces, queue and log. */
  predicate SameRest(v: Server, w: Server) {
    && |w.pcbs| == |v.pcbs| && Sorted(w.tx)
    && w.services == v.services && w.hosts == v.hosts && w.hostSet == v.hostSet && w.now == v.now
  }

  lemma StartProbeDoes(v: Server, i: nat, services: seq<Service>, ip: bool, random: nat)
    requires i < |v.pcbs| && Sorted(v.tx) && On(v.tx, i) == [] && v.hostSet
    ensures var w := StartProbe(v, i, services, ip, random);
            var c, d := v.pcbs[i], w.pcbs[i];
            && SameRest(v, w) && (forall j :: 0 <= j < |v.pcbs| && j != i ==> Untouched(v, w, j))
            && d == c.(probeServices := Merged(c, services), probeIp := c.probeIp || ip, probeRunning := true,
                       state := Probe1)
            && |On(w.tx, i)| == 1 && SinceStart(w.log, i) == []
            && var p := On(w.tx, i)[0];
              && SaysProbe(p, d.probeServices, d.probeIp, w.hosts, true) && !p.queued
              && p.sendAt == v.now + ProbeDelay(c.failedProbes, random)
  {
    hide Sorted, Insert, ProbePacket, Merged, On, SinceStart, ProbeDelay, SaysProbe;
    var c := v.pcbs[i];
    var all := Merged(c, services);
    var p := ProbePacket(v.nextId, i, all, true, c.probeIp || ip, v.hosts);
    var q := p.(sendAt := v.now + ProbeDelay(c.failedProbes, random));
    ProbePacketSays(v.nextId, i, all, true, c.probeIp || ip, v.hosts);
    SaysLater(p, q, all, c.probeIp || ip, v.hosts, true);
    InsertKeeps(v.tx, q);
    var w := StartProbe(v, i, services, ip, random);
    forall j: nat
      ensures On(w.tx, j) == if j == i then [q] else On(v.tx, j)
      ensures SinceStart(w.log, j) == if j == i then [] else SinceStart(v.log, j)
    {
      OnInsert(v.tx, q, j);
      InsertedAlone(q);
      SinceStartAppend(v.log, Started(i, v.nextId), j);
    }
  }

  lemma InsertedAlone(p: Tx)
    ensures Insert([], p) == [p]
  {
  }

  /** When a packet is due says nothing about what it says. */
  lemma SaysLater(p: Tx, q: Tx, services: seq<Service>, ip: bool, hosts: map<nat, Host>, unicast: bool)
    requires SaysProbe(p, services, ip, hosts, unicast) && q == p.(sendAt := q.sendAt)
    ensures SaysProbe(q, services, ip, hosts, unicast)
  {
  }

  lemma InitProbeDoes(v: Server, i: nat, services: seq<Service>, ip: bool, random: nat)
    requires i < |v.pcbs| && Sorted(v.tx)
    ensures var w := InitProbe(v, i, services, ip, random);
            && SameRest(v, w) && Probes(v.pcbs[i], w, i, services, ip)
            && forall j :: 0 <= j < |v.pcbs| && j != i ==> Untouched(v, w, j)
  {
    hide Sorted, WithoutPcb, StartProbe, On, SinceStart, SaysProbe;
    var c, u := v.pcbs[i], v.(tx := WithoutPcb(v.tx, i));
    WithoutPcbKeeps(v.tx, i);
    forall j: nat
      ensures On(u.tx, j) == if j == i then [] else On(v.tx, j)
    {
      OnWithoutPcb(v.tx, i, j);
    }
    if v.hostSet {
      StartProbeDoes(u, i, if c.state.Probing() then NotIn(services, c.probeServices) else services, ip, random);
      var w := InitProbe(v, i, services, ip, random);
      forall j | 0 <= j < |v.pcbs| && j != i
        ensures Untouched(v, w, j)
      {
        assert Untouched(u, w, j);
      }
    }
  }

  /** A later change that does not touch the interface. */
  lemma StillProbes(c: Pcb, u: Server, w: Server, i: nat, services: seq<Service>, ip: bool)
    requires i < |u.pcbs| && Probes(c, u, i, services, ip) && Untouched(u, w, i)
    requires w.hosts == u.hosts && w.hostSet == u.hostSet && w.now == u.now
    ensures Probes(c, w, i, services, ip)
  {
    hide On, SinceStart, SaysProbe;
  }

  // ---------------------------------------------------------------- probing on every interface

  /** What an interface was probing is forgotten, but for addresses. */
  function Cleared(c: Pcb): Pcb {
    c.(probeServices := [], probeRunning := false)
  }

  /** Every interface that is up begins to probe `services`, besides what it was probing unless that is cleared. */
  ghost predicate EachProbes(v: Server, w: Server, services: seq<Service>, ip: bool, clear: bool) {
    && |w.pcbs| == |v.pcbs| && w.hosts == v.hosts && w.now == v.now
    && forall i :: 0 <= i < |v.pcbs| ==>
                     if v.pcbs[i].ready then Probes(if clear then Cleared(v.pcbs[i]) else v.pcbs[i], w, i, services, ip)
                     else Untouched(v, w, i)
  }

  lemma UntouchedTrans(u: Server, v: Server, w: Server, i: nat)
    requires Untouched(u, v, i) && Untouched(v, w, i)
    ensures Untouched(u, w, i)
  {
  }

  lemma {:induction false} ProbeAllDoes(v: Server, k: nat, services: seq<Service>, ip: bool, clear: bool,
                                        randoms: seq<nat>)
    requires k <= |v.pcbs| <= |randoms| && Sorted(v.tx)
    ensures var w := ProbeAllFrom(v, k, services, ip, clear, randoms);
            && SameRest(v, w)
            && (forall i :: 0 <= i < |v.pcbs| && (i < k || !v.pcbs[i].ready) ==> Untouched(v, w, i))
            && (forall i :: k <= i < |v.pcbs| && v.pcbs[i].ready ==>
                              Probes(if clear then Cleared(v.pcbs[i]) else v.pcbs[i], w, i, services, ip))
    decreases |v.pcbs| - k
  {
    hide InitProbe, Sorted, Probes, On, SinceStart;
    if k == |v.pcbs| {
    } else if !v.pcbs[k].ready {
      ProbeAllDoes(v, k + 1, services, ip, clear, randoms);
    } else {
      var u := if clear then v.(pcbs := v.pcbs[k := Cleared(v.pcbs[k])]) else v;
      InitProbeDoes(u, k, services, ip, randoms[k]);
      var x := InitProbe(u, k, services, ip, randoms[k]);
      ProbeAllDoes(x, k + 1, services, ip, clear, randoms);
      var w := ProbeAllFrom(v, k, services, ip, clear, randoms);
      forall i | 0 <= i < |v.pcbs| && i != k
        ensures v.pcbs[i] == x.pcbs[i] && (Untouched(x, w, i) ==> Untouched(v, w, i))
      {
        assert Untouched(u, x, i);
      }
      StillProbes(u.pcbs[k], x, w, k, services, ip);
    }
  }

  lemma RestartsDo(v: Server, services: seq<Service>, ip: bool, clear: bool, randoms: seq<nat>)
    requires |v.pcbs| <= |randoms| && Sorted(v.tx)
    ensures var w := ProbeAllFrom(v, 0, services, ip, clear, randoms);
            SameRest(v, w) && EachProbes(v, w, services, ip, clear)
  {
    hide Probes, Untouched, Sorted, ProbeAllFrom;
    ProbeAllDoes(v, 0, services, ip, clear, randoms);
  }

  // ---------------------------------------------------------------- announcing

  /** The packets `mine` of an interface, with the new packet `more[k]` in its place by time. */
  predicate JoinedAt(mine: seq<Tx>, more: seq<Tx>, k: nat) {
    && |more| == |mine| + 1 && k <= |mine| && more[..k] == mine[..k] && more[k + 1..] == mine[k..]
    && (forall j :: 0 <= j < k ==> mine[j].sendAt <= more[k].sendAt)
    && (forall j :: k <= j < |mine| ==> mine[j].sendAt > more[k].sendAt)
  }

  /** What announcing `services` does to interface `i`. */
  ghost predicate Announced(v: Server, w: Server, i: nat, services: seq<Service>, ip: bool) {
    && i < |v.pcbs| && i < |w.pcbs|
    && var c, mine, more := v.pcbs[i], On(v.tx, i), On(w.tx, i);
      if c.ready && c.state.Probing() then Probes(c, w, i, services, ip)
      else if c.ready && c.state.Announcing() && mine != [] then
        && w.pcbs[i] == c.(state := Announce1) && SinceStart(w.log, i) == SinceStart(v.log, i)
        && |more| == |mine| && more[1..] == mine[1..] && SaysMore(mine[0], more[0], services, ip, w.hosts)
      else if c.ready && c.state == Running && v.hostSet then
        && w.pcbs[i] == c.(state := Announce1) && SinceStart(w.log, i) == SinceStart(v.log, i)
        && exists k: nat :: && JoinedAt(mine, more, k) && SaysAnnouncement(more[k], services, ip, w.hosts)
                            && more[k].sendAt == w.now && !more[k].queued
      else Untouched(v, w, i)
  }

  lemma {:induction false} FirstEdited(tx: seq<Tx>, i: nat, edit: Tx -> Tx)
    requires On(tx, i) != [] && forall p :: SameSlot(p, edit(p))
    ensures On(EditFirst(tx, i, edit), i) == [edit(On(tx, i)[0])] + On(tx, i)[1..]
  {
    if tx[0].pcb == i {
      assert SameSlot(tx[0], edit(tx[0]));
      assert EditFirst(tx, i, edit)[1..] == tx[1..];
    } else {
      FirstEdited(tx[1..], i, edit);
      assert EditFirst(tx, i, edit)[1..] == EditFirst(tx[1..], i, edit);
    }
  }

  lemma EditedSorted(a: seq<Tx>, b: seq<Tx>)
    requires Sorted(a) && Edited(a, b)
    ensures Sorted(b)
  {
    assert forall j :: 0 <= j < |a| ==> SameSlot(a[j], b[j]);
  }

  lemma ExtendDoes(v: Server, i: nat, services: seq<Service>, ip: bool)
    requires i < |v.pcbs| && Sorted(v.tx) && On(v.tx, i) != []
    requires v.pcbs[i].ready && v.pcbs[i].state.Announcing()
    ensures var w := v.(tx := EditFirst(v.tx, i, (p: Tx) => Extended(p, services, ip, v.hosts)),
                        pcbs := v.pcbs[i := v.pcbs[i].(state := Announce1)]);
            SameRest(v, w) && Announced(v, w, i, services, ip)
            && forall j :: 0 <= j < |v.pcbs| && j != i ==> Untouched(v, w, j)
  {
    hide Sorted, On, SinceStart, SaysMore, EditFirst, Extended, Probes;
    var edit := (p: Tx) => Extended(p, services, ip, v.hosts);
    forall p: Tx
      ensures SameSlot(p, edit(p)) && SaysMore(p, edit(p), services, ip, v.hosts)
    {
      ExtendedSays(p, services, ip, v.hosts);
      MoreSameSlot(p, edit(p), services, ip, v.hosts);
    }
    EditFirstEdits(v.tx, i, edit);
    FirstEdited(v.tx, i, edit);
    EditedSorted(v.tx, EditFirst(v.tx, i, edit));
  }

  lemma MoreSameSlot(p: Tx, q: Tx, services: seq<Service>, ip: bool, hosts: map<nat, Host>)
    requires SaysMore(p, q, services, ip, hosts)
    ensures SameSlot(p, q)
  {
  }

  /** The new packet among those of its interface. */
  lemma JoinsAt(v: Server, p: Tx, after: nat) returns (k: nat)
    requires Sorted(v.tx)
    ensures var w, q := Schedule(v, p, after), p.(sendAt := v.now + after);
            && Sorted(w.tx) && JoinedAt(On(v.tx, p.pcb), On(w.tx, p.pcb), k) && On(w.tx, p.pcb)[k] == q
            && forall j :: j != p.pcb ==> On(w.tx, j) == On(v.tx, j)
  {
    hide Sorted, Insert, On;
    var q := p.(sendAt := v.now + after);
    InsertKeeps(v.tx, q);
    forall j: nat
      ensures On(Insert(v.tx, q), j) == if q.pcb == j then Insert(On(v.tx, j), q) else On(v.tx, j)
    {
      OnInsert(v.tx, q, j);
    }
    OnSorted(v.tx, p.pcb);
    k := InsertPlace(On(v.tx, p.pcb), q);
  }

  lemma {:induction false} OnSorted(tx: seq<Tx>, i: nat)
    requires Sorted(tx)
    ensures Sorted(On(tx, i))
  {
    hide Sorted;
    if tx != [] {
      Tail(tx);
      OnSorted(tx[1..], i);
      Cons(tx[0], On(tx[1..], i));
    } else {
      assert On(tx, i) == tx;
    }
  }

  lemma AnnounceNewDoes(v: Server, i: nat, services: seq<Service>, ip: bool)
    requires i < |v.pcbs| && Sorted(v.tx) && v.pcbs[i].ready && v.pcbs[i].state == Running && v.hostSet
    ensures var w := Schedule(v.(nextId := v.nextId + 1, pcbs := v.pcbs[i := v.pcbs[i].(state := Announce1)]),
                              AnnouncePacket(v.nextId, i, services, ip, v.hosts), 0);
            SameRest(v, w) && Announced(v, w, i, services, ip)
            && forall j :: 0 <= j < |v.pcbs| && j != i ==> Untouched(v, w, j)
  {
    hide Sorted, On, SinceStart, SaysAnnouncement, Insert, AnnouncePacket, JoinedAt, Probes;
    var u := v.(nextId := v.nextId + 1, pcbs := v.pcbs[i := v.pcbs[i].(state := Announce1)]);
    var p := AnnouncePacket(v.nextId, i, services, ip, v.hosts);
    AnnouncePacketSays(v.nextId, i, services, ip, v.hosts);
    var k := JoinsAt(u, p, 0);
    AnnouncementLater(p, p.(sendAt := v.now + 0), services, ip, v.hosts);
  }

  lemma AnnouncementLater(p: Tx, q: Tx, services: seq<Service>, ip: bool, hosts: map<nat, Host>)
    requires SaysAnnouncement(p, services, ip, hosts) && q == p.(sendAt := q.sendAt)
    ensures SaysAnnouncement(q, services, ip, hosts)
  {
  }

  lemma AnnounceDoes(v: Server, i: nat, services: seq<Service>, ip: bool, random: nat)
    requires i < |v.pcbs| && Sorted(v.tx)
    ensures var w := Announce(v, i, services, ip, random);
            && SameRest(v, w) && Announced(v, w, i, services, ip)
            && forall j :: 0 <= j < |v.pcbs| && j != i ==> Untouched(v, w, j)
  {
    hide InitProbe, EditFirst, Extended, Insert, On, SinceStart, AnnouncePacket, Sorted, SaysMore, SaysAnnouncement,
      Probes, JoinedAt;
    var c := v.pcbs[i];
    if c.ready && c.state.Probing() {
      InitProbeDoes(v, i, services, ip, random);
    } else if c.ready && c.state.Announcing() && On(v.tx, i) != [] {
      ExtendDoes(v, i, services, ip);
    } else if c.ready && c.state == Running && v.hostSet {
      AnnounceNewDoes(v, i, services, ip);
    }
  }

  /** An interface that is untouched before and after. */
  lemma StillAnnounced(v: Server, u: Server, x: Server, w: Server, i: nat, services: seq<Service>, ip: bool)
    requires Untouched(v, u, i) && Announced(u, x, i, services, ip) && Untouched(x, w, i)
    requires v.hosts == u.hosts == x.hosts == w.hosts && v.hostSet == u.hostSet == x.hostSet == w.hostSet
    requires v.now == u.now == x.now == w.now
    ensures Announced(v, w, i, services, ip)
  {
    hide On, SinceStart, SaysMore, SaysAnnouncement, SaysProbe, JoinedAt;
  }

  lemma {:induction false} AnnounceAllDoes(v: Server, k: nat, services: seq<Service>, ip: bool, randoms: seq<nat>)
    requires k <= |v.pcbs| <= |randoms| && Sorted(v.tx)
    ensures var w := AnnounceAllFrom(v, k, services, ip, randoms);
            && SameRest(v, w) && (forall i :: 0 <= i < k ==> Untouched(v, w, i))
            && (forall i :: k <= i < |v.pcbs| ==> Announced(v, w, i, services, ip))
    decreases |v.pcbs| - k
  {
    hide Announce, Sorted, Announced, On, SinceStart;
    if k < |v.pcbs| {
      AnnounceDoes(v, k, services, ip, randoms[k]);
      var x := Announce(v, k, services, ip, randoms[k]);
      AnnounceAllDoes(x, k + 1, services, ip, randoms);
      var w := AnnounceAllFrom(v, k, services, ip, randoms);
      forall i | 0 <= i < k
        ensures Untouched(v, w, i)
      {
        UntouchedTrans(v, x, w, i);
      }
      forall i | k <= i < |v.pcbs|
        ensures Announced(v, w, i, services, ip)
      {
        if i == k {
          StillAnnounced(v, v, x, w, k, services, ip);
        } else {
          AnnouncedAfter(v, x, w, i, services, ip);
        }
      }
    }
  }

  lemma AnnouncedAfter(v: Server, x: Server, w: Server, i: nat, services: seq<Service>, ip: bool)
    requires Untouched(v, x, i) && Announced(x, w, i, services, ip)
    requires v.hosts == x.hosts == w.hosts && v.hostSet == x.hostSet == w.hostSet && v.now == x.now == w.now
    ensures Announced(v, w, i, services, ip)
  {
    hide On, SinceStart, Probes, SaysMore, SaysAnnouncement, JoinedAt;
    StillAnnounced(v, x, w, w, i, services, ip);
  }

  // ---------------------------------------------------------------- the operations that probe

  lemma InvSorted(v: Server)
    requires Inv(v)
    ensures Sorted(v.tx) && KnownPcbs(v.tx, v.pcbs)
  {
  }

  /** A probing interface that was up still probes what it probed, and the new services too. */
  lemma StillProbed(v: Server, w: Server, services: seq<Service>, ip: bool)
    requires Inv(v) && EachProbes(v, w, services, ip, false) && w.hostSet
    ensures forall i :: 0 <= i < |v.pcbs| && v.pcbs[i].ready ==>
                          && w.pcbs[i].state == Probe1
                          && forall t :: t in services || t in v.pcbs[i].probeServices ==> t in w.pcbs[i].probeServices
  {
    hide On, SinceStart, SaysProbe, IsProbe, OnBeat;
    forall i | 0 <= i < |v.pcbs| && v.pcbs[i].ready
      ensures && w.pcbs[i].state == Probe1
              && forall t :: t in services || t in v.pcbs[i].probeServices ==> t in w.pcbs[i].probeServices
    {
      assert OkAt(v, i) && Probes(v.pcbs[i], w, i, services, ip);
    }
  }

  /** A new service is registered, and probed for on every interface that is up. */
  lemma AddServiceDoes(v: Server, s: Service, randoms: seq<nat>)
    requires Inv(v) && |v.pcbs| <= |randoms| && KnownPcbs(v.tx, v.pcbs) && s !in v.services
    ensures var w := Apply(v, AddService(s), randoms);
            && w.services == [s] + v.services && w.hostSet == v.hostSet && EachProbes(v, w, [s], false, false)
            && (v.hostSet ==> forall i :: 0 <= i < |v.pcbs| && v.pcbs[i].ready ==>
                                w.pcbs[i].state == Probe1 && s in w.pcbs[i].probeServices
                                && forall t :: t in v.pcbs[i].probeServices ==> t in w.pcbs[i].probeServices)
  {
    hide Inv, ProbeAllFrom, Probes, On, SinceStart;
    InvSorted(v);
    var u := v.(services := [s] + v.services);
    RestartsDo(u, [s], false, false, randoms);
    var w := Apply(v, AddService(s), randoms);
    SameEach(v, u, w, [s], false, false);
    if v.hostSet {
      StillProbed(v, w, [s], false);
    }
  }

  lemma SameEach(v: Server, u: Server, w: Server, services: seq<Service>, ip: bool, clear: bool)
    requires EachProbes(u, w, services, ip, clear) && v.pcbs == u.pcbs && v.tx == u.tx && v.log == u.log
    requires v.hosts == u.hosts && v.now == u.now
    ensures EachProbes(v, w, services, ip, clear)
  {
    hide Probes, On, SinceStart;
    assert forall i :: 0 <= i < |v.pcbs| ==> Untouched(u, w, i) == Untouched(v, w, i);
  }

  /** Hosts may be delegated at any time; what is probed from then on proposes the addresses of the new ones. */
  lemma HostsTakeEffect(v: Server, hosts: map<nat, Host>, s: Service, randoms: seq<nat>)
    requires Inv(v) && |v.pcbs| <= |randoms| && KnownPcbs(v.tx, v.pcbs) && s !in v.services
    ensures var u := Apply(v, SetHosts(hosts), randoms);
            && KnownPcbs(u.tx, u.pcbs)
            && var w := Apply(u, AddService(s), randoms);
              && u.pcbs == v.pcbs && u.tx == v.tx && u.services == v.services && u.hostSet == v.hostSet
              && w.hosts == hosts && EachProbes(u, w, [s], false, false)
  {
    hide Inv, Probes, Untouched, KnownPcbs;
    ApplyInv(v, SetHosts(hosts), randoms);
    AddServiceDoes(v.(hosts := hosts), s, randoms);
  }

  /** A service whose instance name changed is probed for again. */
  lemma SetServiceInstanceDoes(v: Server, s: Service, randoms: seq<nat>)
    requires Inv(v) && |v.pcbs| <= |randoms| && KnownPcbs(v.tx, v.pcbs)
    ensures var w := Apply(v, SetServiceInstance(s), randoms);
            && w.services == v.services && w.hostSet == v.hostSet && EachProbes(v, w, [s], false, false)
            && (v.hostSet ==> forall i :: 0 <= i < |v.pcbs| && v.pcbs[i].ready ==>
                                w.pcbs[i].state == Probe1 && s in w.pcbs[i].probeServices
                                && forall t :: t in v.pcbs[i].probeServices ==> t in w.pcbs[i].probeServices)
  {
    hide Inv, ProbeAllFrom, Probes, On, SinceStart;
    InvSorted(v);
    RestartsDo(v, [s], false, false, randoms);
    if v.hostSet {
      StillProbed(v, Apply(v, SetServiceInstance(s), randoms), [s], false);
    }
  }

  /** Everything starts over: nothing queued is kept, and whoever is up probes all services and its addresses. */
  ghost predicate StartsOver(v: Server, w: Server) {
    && |w.pcbs| == |v.pcbs| && w.services == v.services && w.hosts == v.hosts && w.now == v.now
    && forall i :: 0 <= i < |v.pcbs| ==>
                     if v.pcbs[i].ready then Probes(Cleared(v.pcbs[i]), w, i, v.services, true)
                     else w.pcbs[i] == v.pcbs[i] && On(w.tx, i) == []
  }

  lemma RestartAllDoes(v: Server, randoms: seq<nat>)
    requires |v.pcbs| <= |randoms|
    ensures var w := RestartAll(v, randoms); StartsOver(v, w) && w.hostSet == v.hostSet
  {
    hide ProbeAllFrom, Probes, SinceStart;
    var u := v.(tx := []);
    RestartsDo(u, v.services, true, true, randoms);
    var w := RestartAll(v, randoms);
    forall i | 0 <= i < |v.pcbs| && !v.pcbs[i].ready
      ensures w.pcbs[i] == v.pcbs[i] && On(w.tx, i) == []
    {
      assert Untouched(u, w, i);
    }
  }

  /** What is probed after a restart: the registered services, exactly, and addresses. */
  lemma StartedOver(v: Server, w: Server, i: nat)
    requires StartsOver(v, w) && w.hostSet && i < |v.pcbs| && v.pcbs[i].ready
    ensures w.pcbs[i].state == Probe1 && w.pcbs[i].probeIp && w.pcbs[i].failedProbes == v.pcbs[i].failedProbes
    ensures forall t :: t in w.pcbs[i].probeServices <==> t in v.services
  {
    hide On, SinceStart, SaysProbe;
  }

  lemma SetHostnameDoes(v: Server, randoms: seq<nat>)
    requires Inv(v) && |v.pcbs| <= |randoms| && KnownPcbs(v.tx, v.pcbs)
    ensures var w := Apply(v, SetHostname, randoms);
            && w.hostSet && StartsOver(v, w)
            && forall i :: 0 <= i < |v.pcbs| && v.pcbs[i].ready ==>
                             w.pcbs[i].state == Probe1 && w.pcbs[i].probeIp
                             && forall t :: t in w.pcbs[i].probeServices <==> t in v.services
  {
    hide Inv, RestartAll, Probes, On;
    var u := v.(hostSet := true);
    RestartAllDoes(u, randoms);
    var w := Apply(v, SetHostname, randoms);
    forall i | 0 <= i < |v.pcbs| && v.pcbs[i].ready
      ensures w.pcbs[i].state == Probe1 && w.pcbs[i].probeIp
      ensures forall t :: t in w.pcbs[i].probeServices <==> t in v.services
    {
      StartedOver(u, w, i);
    }
  }

  lemma {:induction false} UnnamedAre(services: seq<Service>, ids: set<nat>)
    ensures forall s :: s in Unnamed(services, ids) <==> s in services && s.id in ids
  {
    if services != [] {
      UnnamedAre(services[1..], ids);
      assert forall s :: s in services <==> s == services[0] || s in services[1..];
    }
  }

  /**
   * The default instance name changed: the services without a name of their own are probed for again.  They are all
   * that is probed then: services with names of their own that were being probed drop out.
   */
  ghost predicate UnnamedStartOver(v: Server, w: Server, unnamed: set<nat>) {
    && w.services == v.services && w.hostSet == v.hostSet
    && if forall s :: s in v.services ==> s.id !in unnamed then w == v
       else exists chosen :: && (forall s :: s in chosen <==> s in v.services && s.id in unnamed)
                             && EachProbes(v, w, chosen, false, true)
  }

  lemma RestartUnnamedDoes(v: Server, unnamed: set<nat>, randoms: seq<nat>)
    requires Sorted(v.tx) && |v.pcbs| <= |randoms|
    ensures UnnamedStartOver(v, RestartUnnamed(v, unnamed, randoms), unnamed)
  {
    hide ProbeAllFrom, EachProbes, Unnamed, Sorted;
    var chosen := Unnamed(v.services, unnamed);
    UnnamedAre(v.services, unnamed);
    if chosen != [] {
      assert chosen[0] in chosen;
      RestartsDo(v, chosen, false, true, randoms);
    }
  }

  lemma SetInstanceDoes(v: Server, unnamed: set<nat>, randoms: seq<nat>)
    requires Inv(v) && |v.pcbs| <= |randoms| && KnownPcbs(v.tx, v.pcbs)
    ensures UnnamedStartOver(v, Apply(v, SetInstance(unnamed), randoms), unnamed)
  {
    hide Inv, RestartUnnamed, UnnamedStartOver;
    InvSorted(v);
    RestartUnnamedDoes(v, unnamed, randoms);
  }

  /** An interface on which the chosen services start over probes exactly them. */
  lemma UnnamedProbed(v: Server, w: Server, unnamed: set<nat>, i: nat)
    requires UnnamedStartOver(v, w, unnamed) && w.hostSet && i < |v.pcbs| && v.pcbs[i].ready
    requires exists s :: s in v.services && s.id in unnamed
    ensures i < |w.pcbs| && w.pcbs[i].state == Probe1 && w.pcbs[i].failedProbes == v.pcbs[i].failedProbes
    ensures forall t :: t in w.pcbs[i].probeServices <==> t in v.services && t.id in unnamed
  {
    hide On, SinceStart, SaysProbe;
    var chosen :| && (forall s :: s in chosen <==> s in v.services && s.id in unnamed)
                  && EachProbes(v, w, chosen, false, true);
    assert Probes(Cleared(v.pcbs[i]), w, i, chosen, false);
  }

  /** An interface comes up, or comes up again: it probes all services and its addresses. */
  lemma EnableDoes(v: Server, i: nat, up: bool, randoms: seq<nat>)
    requires Inv(v) && |v.pcbs| <= |randoms| && KnownPcbs(v.tx, v.pcbs) && i < |v.pcbs|
    ensures var w := Apply(v, Enable(i, up), randoms);
            if v.pcbs[i].ready || up then
              && SameRest(v, w) && Probes(v.pcbs[i].(ready := true), w, i, v.services, true)
              && (forall j :: 0 <= j < |v.pcbs| && j != i ==> Untouched(v, w, j))
              && (v.hostSet ==> w.pcbs[i].ready && w.pcbs[i].state == Probe1 && w.pcbs[i].probeIp
                                && forall t :: t in w.pcbs[i].probeServices
                                          <==> t in v.services || t in v.pcbs[i].probeServices)
            else w == v
  {
    hide InitProbe, On, SinceStart, SaysProbe, IsProbe, OnBeat, Sorted;
    InvSorted(v);
    assert OkAt(v, i);
    if v.pcbs[i].ready || up {
      var u := v.(pcbs := v.pcbs[i := v.pcbs[i].(ready := true)]);
      InitProbeDoes(u, i, v.services, true, randoms[i]);
      var w := InitProbe(u, i, v.services, true, randoms[i]);
      forall j | 0 <= j < |v.pcbs| && j != i
        ensures Untouched(v, w, j)
      {
        assert Untouched(u, w, j);
      }
    }
  }

  /** An interface goes down: nothing of it is left. */
  lemma DisableDoes(v: Server, i: nat, randoms: seq<nat>)
    requires Inv(v) && |v.pcbs| <= |randoms| && KnownPcbs(v.tx, v.pcbs) && i < |v.pcbs| && v.pcbs[i].ready
    ensures var w := Apply(v, Disable(i), randoms);
            && SameRest(v, w) && On(w.tx, i) == []
            && w.pcbs[i] == Pcb(false, Off, [], false, false, 0)
            && forall j :: 0 <= j < |v.pcbs| && j != i ==> Untouched(v, w, j)
  {
    hide WithoutPcb, On, SinceStart;
    WithoutPcbKeeps(v.tx, i);
    forall j: nat
      ensures On(WithoutPcb(v.tx, i), j) == if j == i then [] else On(v.tx, j)
    {
      OnWithoutPcb(v.tx, i, j);
    }
  }

  // ---------------------------------------------------------------- the operations that announce

  /** Port or attributes changed: the service's records are announced wherever possible. */
  lemma UpdateServiceDoes(v: Server, s: Service, ip: bool, randoms: seq<nat>)
    requires Inv(v) && |v.pcbs| <= |randoms| && KnownPcbs(v.tx, v.pcbs)
    ensures var w := Apply(v, UpdateService(s, ip), randoms);
            SameRest(v, w) && forall i :: 0 <= i < |v.pcbs| ==> Announced(v, w, i, [s], ip)
  {
    hide Inv, AnnounceAllFrom, Announced, Untouched;
    InvSorted(v);
    AnnounceAllDoes(v, 0, [s], ip, randoms);
  }

  lemma AnnounceAddressDoes(v: Server, i: nat, randoms: seq<nat>)
    requires Inv(v) && |v.pcbs| <= |randoms| && KnownPcbs(v.tx, v.pcbs) && i < |v.pcbs|
    ensures var w := Apply(v, AnnounceAddress(i), randoms);
            SameRest(v, w) && Announced(v, w, i, [], true)
            && forall j :: 0 <= j < |v.pcbs| && j != i ==> Untouched(v, w, j)
  {
    hide Inv, Announce, Announced, Untouched;
    InvSorted(v);
    AnnounceDoes(v, i, [], true, randoms[i]);
  }

  // ---------------------------------------------------------------- collisions

  /** One more failed probe on interface `i`. */
  predicate OneMoreFailed(v: Server, u: Server, i: nat) {
    && i < |v.pcbs| && u == v.(pcbs := u.pcbs) && |u.pcbs| == |v.pcbs|
    && u.pcbs[i] == v.pcbs[i].(failedProbes := v.pcbs[i].failedProbes + 1)
    && forall j :: 0 <= j < |v.pcbs| && j != i ==> u.pcbs[j] == v.pcbs[j]
  }

  /**
   * An SRV record of another host that prevails.  While probing, a failure is counted and whoever gives way is probed
   * for under its new name: the service, the services without a name of their own, or the host with everything.
   * Otherwise the service is probed for again on this interface.
   */
  lemma SrvCollisionDoes(v: Server, i: nat, s: Service, rename: Rename, randoms: seq<nat>)
    requires Inv(v) && |v.pcbs| <= |randoms| && KnownPcbs(v.tx, v.pcbs) && i < |v.pcbs|
    ensures var w := Apply(v, SrvCollision(i, s, rename), randoms);
            if !v.pcbs[i].ready then w == v
            else if !v.pcbs[i].state.Probing() then
              && SameRest(v, w) && Probes(v.pcbs[i], w, i, [s], false)
              && forall j :: 0 <= j < |v.pcbs| && j != i ==> Untouched(v, w, j)
            else
              exists u :: OneMoreFailed(v, u, i)
                          && match rename
                             case OfInstance => w.services == v.services && EachProbes(u, w, [s], false, false)
                             case OfDefault(unnamed) => UnnamedStartOver(u, w, unnamed)
                             case OfHost => StartsOver(u, w)
  {
    hide On, SinceStart, InitProbe, ProbeAllFrom, RestartAll, RestartUnnamed, IsProbe, OnBeat, SaysProbe, Sorted,
      EachProbes, StartsOver, UnnamedStartOver;
    InvSorted(v);
    assert OkAt(v, i);
    if v.pcbs[i].ready {
      if v.pcbs[i].state.Probing() {
        var u := CountFailure(v, i);
        assert OneMoreFailed(v, u, i);
        if rename.OfDefault? {
          RestartUnnamedDoes(u, rename.unnamed, randoms);
        }
        RestartsDo(u, [s], false, false, randoms);
        RestartAllDoes(u, randoms);
      } else {
        InitProbeDoes(v, i, [s], false, randoms[i]);
      }
    }
  }

  /** A lost collision while probing: one more failure, and whoever got a new name is on the probe list again. */
  lemma LosersProbeAgain(v: Server, i: nat, s: Service, rename: Rename, randoms: seq<nat>)
    requires Inv(v) && |v.pcbs| <= |randoms| && KnownPcbs(v.tx, v.pcbs) && i < |v.pcbs|
    requires v.pcbs[i].ready && v.pcbs[i].state.Probing() && s in v.services
    requires rename.OfDefault? ==> s.id in rename.unnamed
    ensures i < |Apply(v, SrvCollision(i, s, rename), randoms).pcbs|
    ensures var d := Apply(v, SrvCollision(i, s, rename), randoms).pcbs[i];
            && d.state == Probe1 && d.failedProbes == v.pcbs[i].failedProbes + 1 && s in d.probeServices
            && match rename
               case OfInstance => forall t :: t in v.pcbs[i].probeServices ==> t in d.probeServices
               case OfDefault(unnamed) => forall t :: t in d.probeServices <==> t in v.services && t.id in unnamed
               case OfHost => d.probeIp && forall t :: t in d.probeServices <==> t in v.services
  {
    hide On, SinceStart, IsProbe, OnBeat, SaysProbe, Apply, UnnamedStartOver;
    assert OkAt(v, i);
    SrvCollisionDoes(v, i, s, rename, randoms);
    var w := Apply(v, SrvCollision(i, s, rename), randoms);
    var u :| OneMoreFailed(v, u, i) && (rename.OfInstance? ==> EachProbes(u, w, [s], false, false))
             && (rename.OfDefault? ==> UnnamedStartOver(u, w, rename.unnamed)) && (rename.OfHost? ==> StartsOver(u, w));
    CollisionKeepsHost(v, i, s, rename, randoms);
    match rename
    case OfInstance =>
    case OfDefault(unnamed) => UnnamedProbed(u, w, unnamed, i);
    case OfHost => StartedOver(u, w, i);
  }

  lemma CollisionKeepsHost(v: Server, i: nat, s: Service, rename: Rename, randoms: seq<nat>)
    requires Inv(v) && |v.pcbs| <= |randoms| && KnownPcbs(v.tx, v.pcbs) && i < |v.pcbs|
    requires v.pcbs[i].ready && v.pcbs[i].state.Probing()
    ensures v.hostSet && Apply(v, SrvCollision(i, s, rename), randoms).hostSet
  {
    hide On, SinceStart, IsProbe, OnBeat, SaysProbe, ProbeAllFrom, RestartAll, Sorted, EachProbes, StartsOver, Unnamed;
    InvSorted(v);
    assert OkAt(v, i);
    var u := CountFailure(v, i);
    RestartsDo(u, [s], false, false, randoms);
    RestartAllDoes(u, randoms);
    if rename.OfDefault? {
      RestartUnnamedDoes(u, rename.unnamed, randoms);
    }
  }

  /** A TXT record of another host that prevails counts only when not probing. */
  lemma TxtCollisionDoes(v: Server, i: nat, s: Service, randoms: seq<nat>)
    requires Inv(v) && |v.pcbs| <= |randoms| && KnownPcbs(v.tx, v.pcbs) && i < |v.pcbs|
    ensures var w := Apply(v, TxtCollision(i, s), randoms);
            if !v.pcbs[i].ready || v.pcbs[i].state.Probing() then w == v
            else && SameRest(v, w) && Probes(v.pcbs[i], w, i, [s], true)
                 && forall j :: 0 <= j < |v.pcbs| && j != i ==> Untouched(v, w, j)
  {
    hide On, SinceStart, InitProbe, IsProbe, OnBeat, SaysProbe, Sorted;
    InvSorted(v);
    assert OkAt(v, i);
    InitProbeDoes(v, i, [s], true, randoms[i]);
  }

  /** Another host has this host's name: while probing everything starts over under a new one. */
  lemma AddressCollisionDoes(v: Server, i: nat, randoms: seq<nat>)
    requires Inv(v) && |v.pcbs| <= |randoms| && KnownPcbs(v.tx, v.pcbs) && i < |v.pcbs|
    ensures var w := Apply(v, AddressCollision(i), randoms);
            if !v.pcbs[i].ready then w == v
            else if v.pcbs[i].state.Probing() then
              exists u :: OneMoreFailed(v, u, i) && StartsOver(u, w) && w.hostSet
            else && SameRest(v, w) && Probes(v.pcbs[i], w, i, [], true)
                 && forall j :: 0 <= j < |v.pcbs| && j != i ==> Untouched(v, w, j)
  {
    hide On, SinceStart, InitProbe, RestartAll, IsProbe, OnBeat, SaysProbe, Sorted, StartsOver;
    InvSorted(v);
    assert OkAt(v, i);
    if v.pcbs[i].ready {
      if v.pcbs[i].state.Probing() {
        var u := CountFailure(v, i);
        assert OneMoreFailed(v, u, i);
        RestartAllDoes(u, randoms);
      } else {
        InitProbeDoes(v, i, [], true, randoms[i]);
      }
    }
  }

  // ---------------------------------------------------------------- removals

  /** What an interface was announcing is all about `s`. */
  predicate OnlyAbout(p: Tx, s: Service) {
    p.answers != [] && forall a :: a in p.answers ==> a.service == Some(s)
  }

  /**
   * What removing `s` makes of an interface: it leaves the probe list, and probing ends if nothing is left to probe;
   * announcing ends if some packet had no answers but about `s`.
   */
  ghost predicate RemovedFrom(c: Pcb, d: Pcb, mine: seq<Tx>, s: Service) {
    && d == c.(state := d.state, probeServices := d.probeServices, probeRunning := d.probeRunning)
    && (forall t :: t in d.probeServices <==> t in c.probeServices && t != s)
    && (if c.state.Probing() && c.probeServices == [s] && !c.probeIp then d.state == Running && !d.probeRunning
        else if c.state.Announcing() && exists k :: 0 <= k < |mine| && OnlyAbout(mine[k], s) then
          d.state == Running && d.probeRunning == c.probeRunning
        else d.state == c.state && d.probeRunning == c.probeRunning)
  }

  lemma EmptiedIs(p: Tx, s: Service)
    ensures p.answers != [] && Without(p.answers, s) == [] <==> OnlyAbout(p, s)
  {
    var r := Without(p.answers, s);
    if r != [] {
      assert r[0] in r;
    }
    if p.answers != [] && r == [] {
      forall a | a in p.answers
        ensures a.service == Some(s)
      {
        assert a !in r;
      }
    }
  }

  lemma {:induction false} AnnouncingSwept(c: Pcb, mine: seq<Tx>, s: Service)
    requires c.ready && !c.state.Probing()
    ensures SweepMine(c, mine, s).0 ==
            if c.state.Announcing() && exists k :: 0 <= k < |mine| && OnlyAbout(mine[k], s) then c.(state := Running)
            else c
    decreases |mine|
  {
    hide Without, DropQuestion, DropService, OnlyAbout, Blank;
    if mine != [] {
      EmptiedIs(mine[0], s);
      var d := SweepOne(c, mine[0], s).c;
      AnnouncingSwept(d, mine[1..], s);
      assert forall k :: 1 <= k < |mine| ==> mine[k] == mine[1..][k - 1];
      if k :| 0 <= k < |mine| && OnlyAbout(mine[k], s) {
        if k > 0 {
          assert OnlyAbout(mine[1..][k - 1], s);
        }
      }
    }
  }

  lemma {:induction false} DownSwept(c: Pcb, mine: seq<Tx>, s: Service)
    requires !c.ready
    ensures SweepMine(c, mine, s).0 == c
    decreases |mine|
  {
    hide Without, DropQuestion, DropService, Blank;
    if mine != [] {
      DownSwept(c, mine[1..], s);
    }
  }

  lemma RemovalDoes(v: Server, s: Service)
    requires Inv(v)
    ensures var w := RemoveService(v, s);
            && |w.pcbs| == |v.pcbs| && w == v.(pcbs := w.pcbs, tx := w.tx)
            && (forall p :: p in w.tx ==> !MentionedIn(p, s)) && Survivors(v.tx, w.tx, s)
            && (forall i :: 0 <= i < |v.pcbs| ==> RemovedFrom(v.pcbs[i], w.pcbs[i], On(v.tx, i), s))
  {
    hide Sweep, SweepMine, On, SinceStart, Survivors, MentionedIn, IsProbe, OnBeat, RemovedFrom;
    RemoveServiceOk(v, s);
    RemovalIsCompleteAndLocal(v, s);
    var w := RemoveService(v, s);
    forall i | 0 <= i < |v.pcbs|
      ensures RemovedFrom(v.pcbs[i], w.pcbs[i], On(v.tx, i), s)
    {
      assert OkAt(v, i);
      SweepIsLocal(v.pcbs, v.tx, s, i);
      RemovedHere(v.pcbs[i], On(v.tx, i), s);
    }
  }

  lemma RemovedHere(c: Pcb, mine: seq<Tx>, s: Service)
    requires FieldsOk(c) && (c.state.Probing() ==> |mine| == 1)
    ensures RemovedFrom(c, SweepMine(c, mine, s).0, mine, s)
  {
    hide OnlyAbout, Without, DropQuestion, DropService, Blank;
    if !c.ready {
      DownSwept(c, mine, s);
    } else if c.state.Probing() {
      assert mine == [mine[0]] + [];
      DropServiceRest(c.probeServices, s);
    } else {
      AnnouncingSwept(c, mine, s);
    }
  }

  lemma {:induction false} DroppedFrom(services: seq<Service>, s: Service) returns (k: nat)
    requires s in services
    ensures k < |services| && services[k] == s && DropService(services, s) == services[..k] + services[k + 1..]
  {
    k := 0;
    if services[0] != s {
      var l := DroppedFrom(services[1..], s);
      k := l + 1;
      assert [services[0]] + (services[1..][..l] + services[1..][l + 1..]) == services[..k] + services[k + 1..];
    }
  }

  /** The service is no longer registered, and no packet or probe list speaks of it. */
  lemma DeleteServiceDoes(v: Server, s: Service, randoms: seq<nat>)
    requires Inv(v) && |v.pcbs| <= |randoms| && KnownPcbs(v.tx, v.pcbs)
    ensures var w := Apply(v, DeleteService(s), randoms);
            if s !in v.services then w == v
            else
              && |w.pcbs| == |v.pcbs| && w == v.(services := w.services, pcbs := w.pcbs, tx := w.tx)
              && (forall t :: t in w.services <==> t in v.services && t != s)
              && (exists k :: 0 <= k < |v.services| && v.services[k] == s
                              && w.services == v.services[..k] + v.services[k + 1..])
              && (forall p :: p in w.tx ==> !MentionedIn(p, s)) && Survivors(v.tx, w.tx, s)
              && (forall i :: 0 <= i < |v.pcbs| ==> RemovedFrom(v.pcbs[i], w.pcbs[i], On(v.tx, i), s))
  {
    hide RemoveService, On, Survivors, MentionedIn, RemovedFrom, OkAt, QueueOk;
    DropServiceRest(v.services, s);
    var u := v.(services := DropService(v.services, s));
    SameForInv(v, u);
    RemovalDoes(u, s);
    if s in v.services {
      var k := DroppedFrom(v.services, s);
    }
  }

  /** After the removal of all services nothing speaks of any of them. */
  lemma DeleteAllDoes(v: Server, randoms: seq<nat>)
    requires Inv(v) && |v.pcbs| <= |randoms| && KnownPcbs(v.tx, v.pcbs)
    ensures var w := Apply(v, DeleteAllServices, randoms);
            && w.services == [] && |w.pcbs| == |v.pcbs| && w == v.(services := [], pcbs := w.pcbs, tx := w.tx)
            && forall s :: s in v.services ==>
                             Silent(w.tx, s) && forall i :: 0 <= i < |w.pcbs| ==> s !in w.pcbs[i].probeServices
  {
    hide RemoveServices, Silent, OkAt, QueueOk;
    NoServicesDistinct();
    var u := v.(services := []);
    SameForInv(v, u);
    var w := Apply(v, DeleteAllServices, randoms);
    RemovalsLeave(u, v.services);
    forall s | s in v.services
      ensures Silent(w.tx, s) && forall i :: 0 <= i < |w.pcbs| ==> s !in w.pcbs[i].probeServices
    {
      RemovalsDo(u, v.services, s);
    }
  }

  /** No packet has an answer about the service. */
  predicate Silent(tx: seq<Tx>, s: Service) {
    forall p :: p in tx ==> !MentionedIn(p, s)
  }

  lemma {:induction false} RemovalsLeave(v: Server, services: seq<Service>)
    requires Inv(v)
    ensures KnownPcbs(v.tx, v.pcbs)
    ensures var w := RemoveServices(v, services); |w.pcbs| == |v.pcbs| && w == v.(pcbs := w.pcbs, tx := w.tx)
    decreases |services|
  {
    hide RemoveService, OkAt, QueueOk, Inv, Survivors;
    InvSorted(v);
    if services != [] {
      RemovalDoes(v, services[0]);
      RemoveServiceOk(v, services[0]);
      SweepKnown(v.pcbs, v.tx, services[0]);
      RemovalsLeave(RemoveService(v, services[0]), services[1..]);
    }
  }

  lemma {:induction false} RemovalsDo(v: Server, services: seq<Service>, t: Service)
    requires Inv(v)
    ensures KnownPcbs(v.tx, v.pcbs) && |RemoveServices(v, services).pcbs| == |v.pcbs|
    ensures var w := RemoveServices(v, services);
            && (Silent(v.tx, t) || t in services ==> Silent(w.tx, t))
            && forall i :: 0 <= i < |v.pcbs| ==>
                             (t in w.pcbs[i].probeServices <==> t in v.pcbs[i].probeServices && t !in services)
    decreases |services|
  {
    hide RemoveService, MentionedIn, OkAt, QueueOk, Inv, Survivors, On;
    InvSorted(v);
    if services != [] {
      var s := services[0];
      RemovalDoes(v, s);
      RemoveServiceOk(v, s);
      var u := RemoveService(v, s);
      SweepKnown(v.pcbs, v.tx, s);
      RemovalsDo(u, services[1..], t);
      var w := RemoveServices(v, services);
      assert t in services <==> t == s || t in services[1..];
      if Silent(v.tx, t) {
        StaysUnmentioned(v.tx, u.tx, s, t);
      }
      forall i | 0 <= i < |v.pcbs|
        ensures t in w.pcbs[i].probeServices <==> t in v.pcbs[i].probeServices && t !in services
      {
        assert RemovedFrom(v.pcbs[i], u.pcbs[i], On(v.tx, i), s);
      }
    }
  }

  /** A removal brings up no other service. */
  lemma {:induction false} StaysUnmentioned(tx: seq<Tx>, r: seq<Tx>, s: Service, t: Service)
    requires Survivors(tx, r, s) && forall p :: p in tx ==> !MentionedIn(p, t)
    ensures forall p :: p in r ==> !MentionedIn(p, t)
    decreases |tx|
  {
    hide MentionedIn, Trimmed, Vanishes, Blank;
    if tx != [] {
      assert tx[0] in tx;
      if r != [] && Trimmed(tx[0], r[0], s) && Survivors(tx[1..], r[1..], s) {
        StaysUnmentioned(tx[1..], r[1..], s, t);
        TrimmedMentions(tx[0], r[0], s, t);
        assert forall p :: p in r ==> p == r[0] || p in r[1..];
      } else {
        StaysUnmentioned(tx[1..], r, s, t);
      }
    }
  }

  lemma TrimmedMentions(p: Tx, q: Tx, s: Service, t: Service)
    requires Trimmed(p, q, s) && !MentionedIn(p, t)
    ensures !MentionedIn(q, t)
  {
    hide DropQuestion;
    LessMentions(p.answers, s, t);
    LessMentions(p.servers, s, t);
    LessMentions(p.additional, s, t);
  }

  lemma LessMentions(list: seq<Answer>, s: Service, t: Service)
    ensures Mentions(Without(list, s), t) ==> Mentions(list, t)
  {
    var r := Without(list, s);
    if k :| 0 <= k < |r| && r[k].service == Some(t) {
      assert r[k] in list;
      var j :| 0 <= j < |list| && list[j] == r[k];
    }
  }

  // ---------------------------------------------------------------- answers to others

  /** A question of another host is answered, later, unless the interface is not yet announcing. */
  lemma AskedDoes(v: Server, i: nat, distributed: bool, echoes: seq<Option<nat>>, answers: seq<Answer>,
                  additional: seq<Answer>, after: nat, randoms: seq<nat>)
    requires Inv(v) && |v.pcbs| <= |randoms| && KnownPcbs(v.tx, v.pcbs) && i < |v.pcbs|
    ensures var w := Apply(v, Asked(i, distributed, echoes, answers, additional, after), randoms);
            if !v.pcbs[i].ready || v.pcbs[i].state.Probing() then w == v
            else
              && SameRest(v, w) && w.pcbs == v.pcbs && w.log == v.log
              && (forall j :: j != i ==> On(w.tx, j) == On(v.tx, j))
              && exists k: nat :: && JoinedAt(On(v.tx, i), On(w.tx, i), k)
                                  && var p := On(w.tx, i)[k];
                                    && p == Tx(p.id, i, v.now + after, false, distributed, p.questions, answers, [],
                                               additional)
                                    && |p.questions| == |echoes|
                                    && forall j :: 0 <= j < |echoes| ==>
                                                     p.questions[j] == Question(Echo(echoes[j]), false)
  {
    hide On, SinceStart, Insert, Sorted, IsProbe, OnBeat, JoinedAt;
    InvSorted(v);
    assert OkAt(v, i);
    if v.pcbs[i].ready && !v.pcbs[i].state.Probing() {
      var p := Tx(v.nextId, i, 0, false, distributed,
                  seq(|echoes|, k requires 0 <= k < |echoes| => Question(Echo(echoes[k]), false)), answers, [],
                  additional);
      var k := JoinsAt(v.(nextId := v.nextId + 1), p, after);
    }
  }

  /** Another host gave an answer: it is taken out, once, of each shared packet of the interface. */
  lemma {:induction false} RetractIs(tx: seq<Tx>, i: nat, what: AnswerType, service: Option<Service>)
    ensures var r := RetractAnswer(tx, i, what, service);
            && |r| == |tx|
            && forall k :: 0 <= k < |tx| ==>
                 && r[k] == tx[k].(answers := r[k].answers)
                 && if tx[k].pcb == i && tx[k].distributed then FirstGone(tx[k].answers, r[k].answers, what, service)
                    else r[k].answers == tx[k].answers
  {
    hide DropAnswer, FirstGone;
    if tx != [] {
      DropAnswerIs(tx[0].answers, what, service);
      RetractIs(tx[1..], i, what, service);
      var r := RetractAnswer(tx, i, what, service);
      assert r[1..] == RetractAnswer(tx[1..], i, what, service);
      assert forall k :: 1 <= k < |tx| ==> tx[k] == tx[1..][k - 1] && r[k] == r[1..][k - 1];
    }
  }

  lemma AnsweredByOtherDoes(v: Server, i: nat, what: AnswerType, service: Option<Service>, randoms: seq<nat>)
    requires |v.pcbs| <= |randoms| && KnownPcbs(v.tx, v.pcbs)
    ensures var w := Apply(v, AnsweredByOther(i, what, service), randoms);
            && w == v.(tx := w.tx) && |w.tx| == |v.tx|
            && forall k :: 0 <= k < |v.tx| ==>
                 && w.tx[k] == v.tx[k].(answers := w.tx[k].answers)
                 && if v.tx[k].pcb == i && v.tx[k].distributed then
                      FirstGone(v.tx[k].answers, w.tx[k].answers, what, service)
                    else w.tx[k].answers == v.tx[k].answers
  {
    hide RetractAnswer, FirstGone;
    RetractIs(v.tx, i, what, service);
  }
}
