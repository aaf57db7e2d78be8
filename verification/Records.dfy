/** Resource records: the `_mdns_append_*_record` writers and the record walk of `mdns_parse_packet`. */
module Records {
  import opened Bytes
  import opened NameWriter
  import opened Txt

  // MDNS_TYPE_A, PTR, TXT, AAAA, SRV and the TTLs this responder uses.
  const TYPE_A: nat := 0x0001
  const TYPE_PTR: nat := 0x000C
  const TYPE_TXT: nat := 0x0010
  const TYPE_AAAA: nat := 0x001C
  const TYPE_SRV: nat := 0x0021
  const PTR_TTL: nat := 4500
  const TXT_TTL: nat := 4500
  const SRV_TTL: nat := 120
  const ADDRESS_TTL: nat := 120

  const CLASS_IN: nat := 0x0001
  const CLASS_IN_FLUSH: nat := 0x8001

  datatype Rdata =
    | NameData(labels: seq<Text>)
    | SrvData(priority: nat, weight: nat, port: nat, host: Text)
    | TxtData(entries: seq<Entry>)
    | AddressData(octets: seq<byte>)

  /** One record as the writers are asked for it. */
  datatype Record = Record(owner: seq<Text>, rtype: nat, flush: bool, ttl: nat, rdata: Rdata) {
    predicate Valid() {
      && owner != [] && rtype < 0x1_0000 && ttl < 0x1_0000_0000
      && match rdata
        case SrvData(p, w, q, _) => p < 0x1_0000 && w < 0x1_0000 && q < 0x1_0000
        case AddressData(octets) => |octets| == 4 || |octets| == 16
        case _ => true
    }
  }

  // ---------------------------------------------------------------- the records this responder makes

  function PtrRecord(instance: Text, service: Text, proto: Text, bye: bool): Record {
    Record([service, proto, LOCAL], TYPE_PTR, false, if bye then 0 else PTR_TTL,
           NameData([instance, service, proto, LOCAL]))
  }

  const SERVICES: Text := [95, 115, 101, 114, 118, 105, 99, 101, 115]
  const DNS_SD: Text := [95, 100, 110, 115, 45, 115, 100]
  const UDP: Text := [95, 117, 100, 112]

  function SdptrRecord(service: Text, proto: Text, flush: bool): Record {
    Record([SERVICES, DNS_SD, UDP, LOCAL], TYPE_PTR, flush, PTR_TTL, NameData([service, proto, LOCAL]))
  }

  /** The name that service types are enumerated under (section 9 of RFC 6763). */
  lemma EnumerationSpelled()
    ensures Spelling(SERVICES) + "." + Spelling(DNS_SD) + "." + Spelling(UDP) == "_services._dns-sd._udp"
  {
    assert Spelling(SERVICES) == "_services" && Spelling(DNS_SD) == "_dns-sd" && Spelling(UDP) == "_udp";
  }

  function SrvRecord(instance: Text, service: Text, proto: Text, priority: nat, weight: nat, port: nat, host: Text,
                     flush: bool, bye: bool): Record
  {
    Record([instance, service, proto, LOCAL], TYPE_SRV, flush, if bye then 0 else SRV_TTL,
           SrvData(priority, weight, port, host))
  }

  function TxtRecord(instance: Text, service: Text, proto: Text, entries: seq<Entry>, flush: bool, bye: bool): Record {
    Record([instance, service, proto, LOCAL], TYPE_TXT, flush, if bye then 0 else TXT_TTL, TxtData(entries))
  }

  /** A for four octets, AAAA for sixteen. */
  function AddressRecord(host: Text, octets: seq<byte>, flush: bool, bye: bool): Record {
    Record([host, LOCAL], if |octets| == 4 then TYPE_A else TYPE_AAAA, flush, if bye then 0 else ADDRESS_TTL,
           AddressData(octets))
  }

  // ---------------------------------------------------------------- the writers

  function TypeBytes(rtype: nat, flush: bool, ttl: nat): (s: seq<byte>)
    ensures |s| == 10
  {
    U16Bytes(rtype) + U16Bytes(if flush then CLASS_IN_FLUSH else CLASS_IN) + U32Bytes(ttl) + U16Bytes(0)
  }

  /** Type PTR, class IN, 4500 seconds, and room for RDLENGTH; type SRV, class IN with cache flush, 120 seconds. */
  lemma FixedPartOctets()
    ensures TypeBytes(TYPE_PTR, false, PTR_TTL) == [0, 12, 0, 1, 0, 0, 0x11, 0x94, 0, 0]
    ensures TypeBytes(TYPE_SRV, true, SRV_TTL) == [0, 33, 0x80, 1, 0, 0, 0, 120, 0, 0]
  {
  }

  /** The record types there are writers for. */
  predicate Writable(rtype: nat) {
    rtype == TYPE_PTR || rtype == TYPE_TXT || rtype == TYPE_SRV || rtype == TYPE_A || rtype == TYPE_AAAA
  }

  /** `_mdns_append_type`. */
  function AppendType(w: Writer, rtype: nat, flush: bool, ttl: nat): (e: Emit)
    requires w.Valid()
    ensures e.w.Valid()
  {
    Put(w, TypeBytes(rtype, flush, ttl), w.index + 10 < SIZE && Writable(rtype))
  }

  /** A name's length goes through a `uint8_t` in every record writer. */
  function AppendName(w: Writer, labels: seq<Text>): (e: Emit)
    requires w.Valid()
    ensures e.w.Valid()
  {
    var e := AppendFqdn(w, labels);
    Emit(e.w, e.ret % 256, e.whole && e.ret < 256)
  }

  /** The three integers of an SRV record; each may fail on its own. */
  function AppendSrvInts(w: Writer, priority: nat, weight: nat, port: nat): (e: Emit)
    requires w.Valid()
    ensures e.w.Valid()
  {
    var a := AppendU16(w, priority);
    var b := AppendU16(a.w, weight);
    var c := AppendU16(b.w, port);
    Emit(c.w, a.ret + b.ret + c.ret, a.whole && b.whole && c.whole)
  }

  /** The RDATA of a record.  A return of 0 abandons the record where it stands. */
  function AppendRdata(w: Writer, rdata: Rdata): (e: Emit)
    requires w.Valid() && w.index < SIZE
    ensures e.w.Valid()
  {
    match rdata
    case NameData(labels) => AppendName(w, labels)
    case SrvData(priority, weight, port, host) =>
      var ints := AppendSrvInts(w, priority, weight, port);
      if ints.ret != 6 || host == [] then Emit(ints.w, 0, false)
      else
        var e := AppendName(ints.w, [host, LOCAL]);
        Emit(e.w, if e.ret == 0 then 0 else e.ret + 6, e.whole)
    case TxtData(entries) => AppendTxtData(w, entries)
    case AddressData(octets) =>
      Put(w, octets, w.index + |octets| <= SIZE)
  }

  /**
   * The shape all five record writers share: owner name, fixed part, RDATA, and RDLENGTH stored last.  A failure
   * leaves the bytes written so far in place.
   */
  function AppendRecord(w: Writer, rec: Record): (e: Emit)
    requires w.Valid() && rec.Valid()
    ensures e.w.Valid()
  {
    if rec.rdata.AddressData? && rec.owner[0] == [] then Emit(w, 0, false)
    else
      var o := AppendName(w, rec.owner);
      if o.ret == 0 then Emit(o.w, 0, false)
      else
        var t := AppendType(o.w, rec.rtype, rec.flush, rec.ttl);
        if t.ret == 0 then Emit(t.w, 0, false)
        else
          var d := AppendRdata(t.w, rec.rdata);
          if d.ret == 0 then Emit(d.w, 0, false)
          else
            Emit(Writer(Splice(d.w.mem, t.w.index - 2, U16Bytes(d.ret)), d.w.index),
                 o.ret + 10 + d.ret, o.whole && d.whole)
  }

  /** A host without a name has no address record: nothing is written, nothing is counted. */
  lemma NamelessHostHasNoAddress(w: Writer, octets: seq<byte>, flush: bool, bye: bool)
    requires w.Valid() && (|octets| == 4 || |octets| == 16)
    ensures AppendRecord(w, AddressRecord([], octets, flush, bye)) == Emit(w, 0, false)
  {
    hide AppendFqdn;
    assert AddressRecord([], octets, flush, bye).Valid();
  }

  // ---------------------------------------------------------------- what a record writer does to the buffer

  /** Nothing outside [w.index, e.w.index) changed, and the write position did not go back. */
  predicate Appended(w: Writer, e: Writer) {
    && w.Valid() && e.Valid() && w.index <= e.index
    && (forall i :: 0 <= i < |w.mem| && !(w.index <= i < e.index) ==> e.mem[i] == w.mem[i])
  }

  lemma AppendedTrans(a: Writer, b: Writer, c: Writer)
    requires Appended(a, b) && Appended(b, c)
    ensures Appended(a, c)
  {
  }

  predicate AllLabels(labels: seq<Text>) {
    forall s :: s in labels ==> IsLabel(s)
  }

  predicate RdataLabels(rdata: Rdata) {
    match rdata
    case NameData(labels) => AllLabels(labels)
    case SrvData(_, _, _, host) => host == [] || IsLabel(host)
    case _ => true
  }

  /** Octets of the name inside the RDATA, before they are squeezed into a `uint8_t`. */
  function RdataNameOctets(w: Writer, rdata: Rdata): nat
    requires w.Valid()
  {
    match rdata
    case NameData(labels) => AppendFqdn(w, labels).ret
    case SrvData(p, v, q, host) => AppendFqdn(AppendSrvInts(w, p, v, q).w, [host, LOCAL]).ret
    case _ => 0
  }

  lemma SrvIntsWrite(w: Writer, priority: nat, weight: nat, port: nat)
    requires w.Valid()
    ensures var e := AppendSrvInts(w, priority, weight, port);
            && Appended(w, e.w) && e.w.index == w.index + e.ret && e.ret <= 6
            && (e.ret == 6 ==> && e.w.mem[w.index..w.index + 6] == U16Bytes(priority) + U16Bytes(weight) + U16Bytes(port)
                               && e.whole)
  {
    var a := AppendU16(w, priority);
    var b := AppendU16(a.w, weight);
    var c := AppendU16(b.w, port);
    if c.ret == 2 && b.ret == 2 && a.ret == 2 {
      assert c.w.mem[w.index..w.index + 2] == a.w.mem[w.index..w.index + 2];
      assert c.w.mem[w.index + 2..w.index + 4] == b.w.mem[w.index + 2..w.index + 4];
      assert c.w.mem[w.index..w.index + 6]
          == c.w.mem[w.index..w.index + 2] + c.w.mem[w.index + 2..w.index + 4] + c.w.mem[w.index + 4..w.index + 6];
    }
  }

  lemma NameAccounts(w: Writer, labels: seq<Text>)
    requires w.Valid() && AllLabels(labels)
    ensures var e := AppendName(w, labels);
            && Appended(w, e.w) && e.w.index == w.index + AppendFqdn(w, labels).ret
            && (e.whole ==> e.ret > 0)
            && e.ret <= AppendFqdn(w, labels).ret && (e.ret == AppendFqdn(w, labels).ret <==> AppendFqdn(w, labels).ret < 256)
  {
    hide AppendFqdn;
    AppendFqdnAccounts(w, labels);
  }

  lemma TxtAccounts(w: Writer, es: seq<Entry>)
    requires w.Valid() && w.index < SIZE
    ensures var e := AppendTxtData(w, es); Appended(w, e.w) && (e.ret > 0 ==> e.w.index == w.index + e.ret)
  {
    AppendTxtDataWrites(w, es);
  }

  lemma PutAccounts(w: Writer, bytes: seq<byte>, room: bool)
    requires w.Valid() && (room ==> w.index + |bytes| <= SIZE)
    ensures var e := Put(w, bytes, room); Appended(w, e.w) && e.w.index == w.index + e.ret
  {
  }

  /** RDATA accounting: the returned length is right exactly when the name in it stays under 256 octets. */
  lemma RdataAccounts(w: Writer, rdata: Rdata)
    requires w.Valid() && w.index < SIZE && RdataLabels(rdata)
    ensures var e := AppendRdata(w, rdata);
            && Appended(w, e.w)
            && (e.ret > 0 ==> && (e.w.index == w.index + e.ret <==> RdataNameOctets(w, rdata) < 256)
                              && w.index + e.ret <= e.w.index)
  {
    hide Appended, AppendFqdn, AppendName, AppendTxtData, AppendSrvInts, Put;
    match rdata
    case NameData(labels) =>
      NameAccounts(w, labels);
    case SrvData(p, v, q, host) =>
      SrvIntsWrite(w, p, v, q);
      var ints := AppendSrvInts(w, p, v, q);
      if ints.ret == 6 && host != [] {
        NameAccounts(ints.w, [host, LOCAL]);
        AppendedTrans(w, ints.w, AppendName(ints.w, [host, LOCAL]).w);
      }
    case TxtData(entries) =>
      TxtAccounts(w, entries);
    case AddressData(octets) =>
      PutAccounts(w, octets, w.index + |octets| <= SIZE);
  }

  /** The buffer once the fixed part of the record is written: RDATA starts here, RDLENGTH is the two bytes before. */
  function AfterType(w: Writer, rec: Record): (t: Writer)
    requires w.Valid() && rec.Valid()
    ensures t.Valid()
  {
    AppendType(AppendName(w, rec.owner).w, rec.rtype, rec.flush, rec.ttl).w
  }

  /** What holds of the buffer once `rec` has been appended with a non-zero return. */
  lemma RecordSteps(w: Writer, rec: Record)
    requires w.Valid() && rec.Valid() && AllLabels(rec.owner) && RdataLabels(rec.rdata)
    requires AppendRecord(w, rec).ret > 0
    ensures var o, t, e := AppendName(w, rec.owner), AfterType(w, rec), AppendRecord(w, rec).w;
            && t.index < SIZE && t.index == o.w.index + 10
            && Appended(w, o.w) && Appended(o.w, t)
            && t.mem[o.w.index..t.index] == TypeBytes(rec.rtype, rec.flush, rec.ttl)
            && var d := AppendRdata(t, rec.rdata);
            && Appended(t, d.w) && d.ret > 0 && e.index == d.w.index
            && e.mem == Splice(d.w.mem, t.index - 2, U16Bytes(d.ret))
            && AppendRecord(w, rec).ret == o.ret + 10 + d.ret
            && w.index <= o.w.index && t.index <= e.index
            && AppendRecord(w, rec).whole == (o.whole && d.whole)
  {
    hide AppendFqdn, AppendRdata, Splice;
    NameAccounts(w, rec.owner);
    var o := AppendName(w, rec.owner);
    PutAccounts(o.w, TypeBytes(rec.rtype, rec.flush, rec.ttl), o.w.index + 10 < SIZE && Writable(rec.rtype));
    RdataAccounts(AfterType(w, rec), rec.rdata);
  }

  /** A record writer never touches anything before the record, nor past the write position it leaves. */
  lemma RecordAppends(w: Writer, rec: Record)
    requires w.Valid() && rec.Valid() && AllLabels(rec.owner) && RdataLabels(rec.rdata)
    ensures Appended(w, AppendRecord(w, rec).w)
  {
    hide AppendFqdn, AppendRdata, Splice;
    NameAccounts(w, rec.owner);
    var o := AppendName(w, rec.owner);
    PutAccounts(o.w, TypeBytes(rec.rtype, rec.flush, rec.ttl), o.w.index + 10 < SIZE && Writable(rec.rtype));
    var t := AfterType(w, rec);
    AppendedTrans(w, o.w, t);
    if t.index == o.w.index + 10 {
      RdataAccounts(t, rec.rdata);
      AppendedTrans(w, t, AppendRdata(t, rec.rdata).w);
    }
  }

  /**
   * Length accounting: a record writer that returns r > 0 advanced by r and stored the number of RDATA bytes written
   * as RDLENGTH, if and only if neither name it wrote reached 256 octets.
   */
  lemma RecordAccounting(w: Writer, rec: Record)
    requires w.Valid() && rec.Valid() && AllLabels(rec.owner) && RdataLabels(rec.rdata)
    requires AppendRecord(w, rec).ret > 0
    ensures var t, e := AfterType(w, rec), AppendRecord(w, rec);
            && 10 <= t.index <= e.w.index
            && (e.w.index == w.index + e.ret && U16At(e.w.mem, t.index - 2) == e.w.index - t.index
                <==> AppendFqdn(w, rec.owner).ret < 256 && RdataNameOctets(t, rec.rdata) < 256)
  {
    hide AppendFqdn, AppendRdata, RdataNameOctets, Splice, Appended, AppendRecord, AppendType, AppendName, AfterType,
      U16At, U16Bytes, TypeBytes, AllLabels, RdataLabels;
    RecordSteps(w, rec);
    NameAccounts(w, rec.owner);
    var t, e := AfterType(w, rec), AppendRecord(w, rec);
    var d := AppendRdata(t, rec.rdata);
    RdataAccounts(t, rec.rdata);
    AppendRdataBound(t, rec.rdata);
    U16Stored(d.w.mem, t.index - 2, d.ret);
    assert U16At(e.w.mem, t.index - 2) == d.ret;
  }

  lemma AppendRdataBound(w: Writer, rdata: Rdata)
    requires w.Valid() && w.index < SIZE && RdataLabels(rdata)
    ensures AppendRdata(w, rdata).ret <= SIZE
  {
    RdataAccounts(w, rdata);
  }

  lemma U16Stored(mem: seq<byte>, at: nat, v: nat)
    requires at + 2 <= |mem| && v < 0x1_0000
    ensures U16At(Splice(mem, at, U16Bytes(v)), at) == v
  {
    var m := Splice(mem, at, U16Bytes(v));
    assert m[at..at + 2] == U16Bytes(v);
    assert m[at] == m[at..at + 2][0] && m[at + 1] == m[at..at + 2][1];
  }

  // ---------------------------------------------------------------- when a record fits

  /** Names short enough for a `uint8_t` length, none of them empty where the writers refuse that. */
  predicate Compact(rec: Record) {
    && AllLabels(rec.owner) && Octets(rec.owner) < 256 && Writable(rec.rtype)
    && match rec.rdata
       case NameData(labels) => AllLabels(labels) && Octets(labels) < 256
       case SrvData(_, _, _, host) => IsLabel(host)
       case _ => true
  }

  /** Octets the RDATA takes; with attributes, one more must be free than they fill. */
  function RdataNeeded(t: Writer, rdata: Rdata): (n: nat)
    requires t.Valid()
  {
    match rdata
    case NameData(labels) => Needed(t, labels)
    case SrvData(p, v, q, host) => 6 + Needed(AppendSrvInts(t, p, v, q).w, [host, LOCAL])
    case TxtData(entries) => if entries == [] then 1 else |Wire(entries)| + 1
    case AddressData(octets) => |octets|
  }

  /** There is room for the owner name, the fixed part and the RDATA. */
  predicate Fits(w: Writer, rec: Record)
    requires w.Valid() && rec.Valid()
  {
    w.index + Needed(w, rec.owner) + 10 + RdataNeeded(AfterType(w, rec), rec.rdata) <= SIZE
  }

  lemma LabelsDoNotWrap(labels: seq<Text>)
    requires AllLabels(labels)
    ensures NoneWraps(labels)
  {
    assert forall s :: s in labels ==> IsLabel(s);
  }

  lemma NameFits(w: Writer, labels: seq<Text>)
    requires w.Valid() && AllLabels(labels) && Octets(labels) < 256
    ensures var e := AppendName(w, labels);
            && (e.whole <==> w.index + Needed(w, labels) <= SIZE) && (e.whole ==> e.ret > 0)
            && (e.whole ==> e.w.index == w.index + Needed(w, labels))
  {
    hide AppendFqdn, Needed, Octets;
    LabelsDoNotWrap(labels);
    WholeIffRoom(w, labels);
    AppendFqdnAccounts(w, labels);
  }

  lemma {:induction false} EntriesFit(w: Writer, es: seq<Entry>)
    requires w.Valid()
    ensures AppendEntries(w, es).whole <==> es == [] || w.index + |Wire(es)| < SIZE
    ensures AppendEntries(w, es).whole ==> AppendEntries(w, es).ret == |Wire(es)|
    decreases |es|
  {
    hide Body, Splice, EntryBytes;
    if es != [] {
      var head := Put(w, EntryBytes(es[0]), w.index + |Body(es[0])| + 1 < SIZE);
      if head.whole {
        EntriesFit(head.w, es[1..]);
      }
    }
  }

  lemma RdataFits(t: Writer, rec: Record)
    requires t.Valid() && t.index < SIZE && rec.Valid() && Compact(rec)
    ensures var d := AppendRdata(t, rec.rdata);
            d.ret > 0 && d.whole <==> t.index + RdataNeeded(t, rec.rdata) <= SIZE
  {
    hide AppendFqdn, Needed, Splice, AppendName, AppendEntries;
    match rec.rdata
    case NameData(labels) =>
      NameFits(t, labels);
    case SrvData(p, v, q, host) =>
      SrvIntsWrite(t, p, v, q);
      SrvIntsFit(t, p, v, q);
      HostNameOctets(host);
      NameFits(AppendSrvInts(t, p, v, q).w, [host, LOCAL]);
    case TxtData(entries) =>
      EntriesFit(t, entries);
      assert entries != [] ==> |Wire(entries)| >= |EntryBytes(entries[0])|;
    case AddressData(octets) =>
  }

  lemma SrvIntsFit(t: Writer, priority: nat, weight: nat, port: nat)
    requires t.Valid()
    ensures AppendSrvInts(t, priority, weight, port).ret == 6 <==> t.index + 6 <= SIZE
  {
  }

  lemma HostNameOctets(host: Text)
    requires IsLabel(host)
    ensures AllLabels([host, LOCAL]) && Octets([host, LOCAL]) <= 71
  {
    assert [host, LOCAL][1..] == [LOCAL] && Octets([LOCAL]) == 7 by {
      assert Octets([]) == 1;
    }
  }

  /**
   * A record is written in full exactly when it fits.  In particular one that is counted, because its writer returned
   * a length, is complete exactly then.
   */
  lemma RecordWholeIffFits(w: Writer, rec: Record)
    requires w.Valid() && rec.Valid() && Compact(rec)
    ensures var e := AppendRecord(w, rec); e.ret > 0 && e.whole <==> Fits(w, rec)
  {
    hide AppendFqdn, Needed, Splice, AppendRdata, RdataNeeded, Octets, AppendName;
    assert rec.owner[0] in rec.owner;
    NameFits(w, rec.owner);
    var o := AppendName(w, rec.owner);
    if o.whole {
      var t := AppendType(o.w, rec.rtype, rec.flush, rec.ttl);
      if t.ret == 0 {
        RdataNeedsSome(t.w, rec);
      } else {
        RdataFits(t.w, rec);
      }
    }
  }

  lemma RdataNeedsSome(t: Writer, rec: Record)
    requires t.Valid() && rec.Valid()
    ensures RdataNeeded(t, rec.rdata) >= 1
  {
    hide Needed;
  }

  /** What the RDATA takes at most. */
  function RdataOctets(rdata: Rdata): (n: nat) {
    match rdata
    case NameData(labels) => Octets(labels)
    case SrvData(_, _, _, host) => 6 + Octets([host, LOCAL])
    case TxtData(entries) => if entries == [] then 1 else |Wire(entries)| + 1
    case AddressData(octets) => |octets|
  }

  /** What a record takes at most: as if no name in it could be shortened. */
  function RecordOctets(rec: Record): (n: nat) {
    Octets(rec.owner) + 10 + RdataOctets(rec.rdata)
  }

  lemma RoomIsEnough(w: Writer, rec: Record)
    requires w.Valid() && rec.Valid() && Compact(rec) && w.index + RecordOctets(rec) <= SIZE
    ensures Fits(w, rec)
    ensures AppendRecord(w, rec).w.index <= w.index + RecordOctets(rec)
  {
    hide AppendFqdn, Needed, Splice, AppendRecord, Octets, AppendRdata, AppendName, AfterType;
    LabelsDoNotWrap(rec.owner);
    WholeIffRoom(w, rec.owner);
    var t := AfterType(w, rec);
    match rec.rdata {
      case NameData(labels) =>
        LabelsDoNotWrap(labels);
        WholeIffRoom(t, labels);
      case SrvData(p, v, q, host) =>
        HostNameOctets(host);
        LabelsDoNotWrap([host, LOCAL]);
        WholeIffRoom(AppendSrvInts(t, p, v, q).w, [host, LOCAL]);
      case _ =>
    }
    RecordAdvancesByNeed(w, rec);
  }

  lemma RecordAdvancesByNeed(w: Writer, rec: Record)
    requires w.Valid() && rec.Valid() && Compact(rec) && Fits(w, rec)
    ensures AppendRecord(w, rec).w.index
         <= w.index + Needed(w, rec.owner) + 10 + RdataNeeded(AfterType(w, rec), rec.rdata)
  {
    hide AppendFqdn, Needed, Splice, AppendRdata, Octets, AppendName, AfterType, TypeBytes, AppendRecord;
    RecordWholeIffFits(w, rec);
    RecordSteps(w, rec);
    NameFits(w, rec.owner);
    RdataAdvancesByNeed(AfterType(w, rec), rec);
  }

  lemma RdataAdvancesByNeed(t: Writer, rec: Record)
    requires t.Valid() && t.index < SIZE && rec.Valid() && Compact(rec)
    requires AppendRdata(t, rec.rdata).ret > 0 && AppendRdata(t, rec.rdata).whole
    ensures AppendRdata(t, rec.rdata).w.index <= t.index + RdataNeeded(t, rec.rdata)
  {
    hide AppendFqdn, Needed, Splice, AppendName, AppendEntries;
    match rec.rdata
    case NameData(labels) =>
      NameFits(t, labels);
    case SrvData(p, v, q, host) =>
      SrvIntsWrite(t, p, v, q);
      HostNameOctets(host);
      NameFits(AppendSrvInts(t, p, v, q).w, [host, LOCAL]);
    case TxtData(entries) =>
      AppendTxtDataWrites(t, entries);
    case AddressData(octets) =>
  }

  /**
   * A record can be counted although its owner name is cut off: sixteen bytes before the end of the buffer the name
   * loses its last three labels, and the record still returns 13.
   */
  lemma CutRecordIsCounted(mem: seq<byte>, proto: Text)
    requires |mem| == SIZE + SLACK && forall i :: 0 <= i < |mem| ==> mem[i] == 0
    ensures var e := AppendRecord(Writer(mem, 1442), TxtRecord(A_LABEL, LONG_LABEL, proto, [], true, false));
            e.ret == 13 && !e.whole
  {
    hide AppendFqdn, Splice, TypeBytes;
    CutNameIsReported(mem, [proto, LOCAL]);
    var rec := TxtRecord(A_LABEL, LONG_LABEL, proto, [], true, false);
    assert rec.owner == [A_LABEL, LONG_LABEL] + [proto, LOCAL];
  }
}
