/** Packets waiting to be sent, and the operations on the queue that holds them, as values. */
module TxPacket {
  import opened Options

  /** A service is identified by its address, never reused; `kind` stands for its service and proto strings. */
  datatype Service = Service(id: nat, kind: nat)

  /** A host item: this host, or one it answers for. */
  type Host = nat

  datatype AnswerType = Sdptr | Ptr | Srv | Txt | A | Aaaa | Other(code: nat)

  /** `mdns_out_answer_t`. */
  datatype Answer = Answer(what: AnswerType, service: Option<Service>, host: Option<Host>, flush: bool, bye: bool)

  /** What an outgoing question names: a service instance, this host, a service's host, or a question echoed to a client. */
  datatype Subject = Instance(service: Service) | SelfHost | HostOf(service: Service) | Echo(kind: Option<nat>)

  datatype Question = Question(about: Subject, unicast: bool)

  /** `mdns_tx_packet_t`; `pcb` is the interface and protocol it goes out on. */
  datatype Tx = Tx(id: nat, pcb: nat, sendAt: nat, queued: bool, distributed: bool,
                   questions: seq<Question>, answers: seq<Answer>, servers: seq<Answer>, additional: seq<Answer>)

  predicate NoDuplicates<T(==)>(xs: seq<T>) {
    forall i, j :: 0 <= i < j < |xs| ==> xs[i] != xs[j]
  }

  // ---------------------------------------------------------------- the queue

  predicate Sorted(tx: seq<Tx>) {
    forall i, j :: 0 <= i < j < |tx| ==> tx[i].sendAt <= tx[j].sendAt
  }

  predicate DistinctIds(tx: seq<Tx>) {
    forall i, j :: 0 <= i < j < |tx| ==> tx[i].id != tx[j].id
  }

  /** Where `_mdns_schedule_tx_packet` puts a packet: before the first one due strictly later. */
  function Insert(tx: seq<Tx>, p: Tx): (r: seq<Tx>)
    ensures |r| == |tx| + 1
    ensures forall x :: x in r <==> x in tx || x == p
  {
    if tx == [] || tx[0].sendAt > p.sendAt then [p] + tx else [tx[0]] + Insert(tx[1..], p)
  }

  /** `_mdns_clear_pcb_tx_queue_head`. */
  function WithoutPcb(tx: seq<Tx>, pcb: nat): (r: seq<Tx>)
    ensures forall x :: x in r <==> x in tx && x.pcb != pcb
  {
    if tx == [] then []
    else if tx[0].pcb == pcb then WithoutPcb(tx[1..], pcb)
    else [tx[0]] + WithoutPcb(tx[1..], pcb)
  }

  /** The packets of one interface and protocol, in order. */
  function On(tx: seq<Tx>, pcb: nat): (r: seq<Tx>)
    ensures forall x :: x in r <==> x in tx && x.pcb == pcb
  {
    if tx == [] then []
    else if tx[0].pcb == pcb then [tx[0]] + On(tx[1..], pcb)
    else On(tx[1..], pcb)
  }

  /** The packets due at time `t`, in order. */
  function DueAt(tx: seq<Tx>, t: nat): (r: seq<Tx>)
    ensures forall x :: x in r <==> x in tx && x.sendAt == t
  {
    if tx == [] then []
    else if tx[0].sendAt == t then [tx[0]] + DueAt(tx[1..], t)
    else DueAt(tx[1..], t)
  }

  lemma Tail(tx: seq<Tx>)
    requires tx != []
    ensures Sorted(tx) ==> Sorted(tx[1..]) && forall q :: q in tx[1..] ==> tx[0].sendAt <= q.sendAt
    ensures DistinctIds(tx) ==> DistinctIds(tx[1..]) && forall q :: q in tx[1..] ==> tx[0].id != q.id
  {
    assert forall i :: 0 <= i < |tx| - 1 ==> tx[1..][i] == tx[i + 1];
  }

  lemma Cons(p: Tx, tx: seq<Tx>)
    ensures Sorted(tx) && (forall q :: q in tx ==> p.sendAt <= q.sendAt) ==> Sorted([p] + tx)
    ensures DistinctIds(tx) && (forall q :: q in tx ==> p.id != q.id) ==> DistinctIds([p] + tx)
  {
  }

  /** Scheduling keeps the list ordered and identities distinct. */
  lemma {:induction false} InsertKeeps(tx: seq<Tx>, p: Tx)
    ensures Sorted(tx) ==> Sorted(Insert(tx, p))
    ensures DistinctIds(tx) && (forall q :: q in tx ==> q.id != p.id) ==> DistinctIds(Insert(tx, p))
  {
    hide Sorted, DistinctIds;
    if tx == [] || tx[0].sendAt > p.sendAt {
      Cons(p, tx);
      if tx != [] {
        Tail(tx);
      } else {
        assert Insert(tx, p) == [p];
      }
    } else {
      Tail(tx);
      InsertKeeps(tx[1..], p);
      Cons(tx[0], Insert(tx[1..], p));
    }
  }

  /** The new packet goes after everything due no later and before everything due later; nothing else moves. */
  lemma {:induction false} InsertPlace(tx: seq<Tx>, p: Tx) returns (k: nat)
    requires Sorted(tx)
    ensures k <= |tx| && Insert(tx, p) == tx[..k] + [p] + tx[k..]
    ensures forall i :: 0 <= i < k ==> tx[i].sendAt <= p.sendAt
    ensures forall i :: k <= i < |tx| ==> tx[i].sendAt > p.sendAt
  {
    k := 0;
    if tx != [] && tx[0].sendAt <= p.sendAt {
      Tail(tx);
      var j := InsertPlace(tx[1..], p);
      k := j + 1;
      Rotate(tx, p, j);
    }
  }

  lemma Rotate(tx: seq<Tx>, p: Tx, j: nat)
    requires j < |tx|
    ensures [tx[0]] + (tx[1..][..j] + [p] + tx[1..][j..]) == tx[..j + 1] + [p] + tx[j + 1..]
  {
  }

  /** First in, first out among packets due at the same time; packets due at other times are not disturbed. */
  lemma {:induction false} EqualTimesAreFifo(tx: seq<Tx>, p: Tx, t: nat)
    requires Sorted(tx)
    ensures DueAt(Insert(tx, p), t) == DueAt(tx, t) + if t == p.sendAt then [p] else []
  {
    if tx == [] {
      assert Insert(tx, p) == [p];
    } else if tx[0].sendAt > p.sendAt {
      Tail(tx);
      assert Insert(tx, p)[1..] == tx;
      if t == p.sendAt {
        NoneDue(tx, t);
      }
    } else {
      Tail(tx);
      assert Insert(tx, p)[1..] == Insert(tx[1..], p);
      EqualTimesAreFifo(tx[1..], p, t);
    }
  }

  lemma {:induction false} NoneDue(tx: seq<Tx>, t: nat)
    requires forall q :: q in tx ==> q.sendAt > t
    ensures DueAt(tx, t) == []
  {
    if tx != [] {
      NoneDue(tx[1..], t);
    }
  }

  lemma {:induction false} OnInsert(tx: seq<Tx>, p: Tx, pcb: nat)
    requires Sorted(tx)
    ensures On(Insert(tx, p), pcb) == if p.pcb == pcb then Insert(On(tx, pcb), p) else On(tx, pcb)
  {
    hide Sorted;
    if tx == [] {
      assert Insert(tx, p) == [p];
    } else {
      Tail(tx);
      if tx[0].sendAt > p.sendAt {
        assert Insert(tx, p)[1..] == tx;
      } else {
        assert Insert(tx, p)[1..] == Insert(tx[1..], p);
        OnInsert(tx[1..], p, pcb);
        assert tx[0].pcb == pcb ==> On(tx, pcb)[1..] == On(tx[1..], pcb);
      }
    }
  }

  /** Clearing one interface leaves nothing of it and every other packet where it was, relative to the rest. */
  lemma {:induction false} OnWithoutPcb(tx: seq<Tx>, cleared: nat, pcb: nat)
    ensures On(WithoutPcb(tx, cleared), pcb) == if pcb == cleared then [] else On(tx, pcb)
  {
    if tx != [] {
      OnWithoutPcb(tx[1..], cleared, pcb);
    }
  }

  lemma {:induction false} WithoutPcbKeeps(tx: seq<Tx>, pcb: nat)
    ensures Sorted(tx) ==> Sorted(WithoutPcb(tx, pcb))
    ensures DistinctIds(tx) ==> DistinctIds(WithoutPcb(tx, pcb))
  {
    hide Sorted, DistinctIds;
    if tx != [] {
      Tail(tx);
      WithoutPcbKeeps(tx[1..], pcb);
      Cons(tx[0], WithoutPcb(tx[1..], pcb));
    } else {
    }
  }

}
