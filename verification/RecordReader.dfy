/** The record walk of `mdns_parse_packet`, and the proof that it reads back what the record writers wrote. */
module RecordReader {
  import opened Options
  import opened Bytes
  import opened NameReader
  import opened NameRoundTrip
  import opened NameWriter
  import opened Records
  import opened Txt

  // ---------------------------------------------------------------- the walk

  /** The fixed part of one record, with its name already arranged. */
  datatype Parsed = Parsed(name: Name, rtype: nat, rclass: nat, ttl: nat, dataAt: nat, dataLen: nat, next: nat)

  /** One round of the walk, up to the point where it branches on the record type. */
  function ParseRecord(mem: seq<byte>, plen: nat, at: nat): (r: Option<Parsed>)
    requires plen < |mem|
    ensures r.Some? ==> r.value.next == r.value.dataAt + r.value.dataLen <= plen && at + 10 < r.value.dataAt
  {
    match ParseFqdn(mem, plen, at)
    case Bad => None
    case Good(content, name) =>
      if content + 9 >= plen then None
      else
        var dataLen := U16At(mem, content + 8);
        var next := content + 10 + dataLen;
        if next > plen then None
        else
          Some(Parsed(name, U16At(mem, content), U16At(mem, content + 2) % 0x8000, U32At(mem, content + 4),
                      content + 10, dataLen, next))
  }

  /** The fixed part of an accepted record stands in front of its data; the class loses its top bit. */
  lemma ParsedFields(mem: seq<byte>, plen: nat, at: nat)
    requires plen < |mem| && ParseRecord(mem, plen, at).Some?
    ensures var p := ParseRecord(mem, plen, at).value;
            && p.rtype == U16At(mem, p.dataAt - 10) && p.ttl == U32At(mem, p.dataAt - 6)
            && p.dataLen == U16At(mem, p.dataAt - 2)
            && p.rclass < 0x8000 && (U16At(mem, p.dataAt - 8) == p.rclass || U16At(mem, p.dataAt - 8) == p.rclass + 0x8000)
  {
    hide ParseFqdn;
  }

  datatype Srv = Srv(priority: nat, weight: nat, port: nat, target: Name)

  /** The SRV branch: the target is read first, the integers after a bounds check. */
  function ParseSrv(mem: seq<byte>, plen: nat, dataAt: nat): (r: Option<Srv>)
    requires plen < |mem|
  {
    match ParseFqdn(mem, plen, dataAt + 6)
    case Bad => None
    case Good(_, name) =>
      if dataAt + 5 >= plen then None
      else Some(Srv(U16At(mem, dataAt), U16At(mem, dataAt + 2), U16At(mem, dataAt + 4), name))
  }

  // ---------------------------------------------------------------- what the reader must deliver

  /** A name of two to four parts in domain `local`. */
  predicate RecordName(strings: seq<Text>) {
    NameShape(strings) && |strings| >= 2 && strings[|strings| - 1] == LOCAL
  }

  /** With labels of at most 63 octets such a name never reaches 200 octets, so its length always fits a `uint8_t`. */
  lemma RecordNameOctets(w: Writer, strings: seq<Text>)
    requires w.Valid() && RecordName(strings)
    ensures AppendFqdn(w, strings).ret <= 199 && AppendName(w, strings).ret == AppendFqdn(w, strings).ret
  {
    hide AppendFqdn, Octets;
    AppendFqdnAccounts(w, strings);
    RecordNameShort(strings);
  }

  lemma RecordNameShort(strings: seq<Text>)
    requires RecordName(strings)
    ensures Octets(strings) <= 199
  {
    var n := |strings|;
    assert IsLabel(strings[0]) && IsLabel(strings[n - 2]) && (n > 3 ==> IsLabel(strings[1]));
    assert Octets([LOCAL]) == 7 by {
      assert Octets([]) == 1;
    }
    assert strings[n - 1..] == [LOCAL];
    assert Octets(strings[n - 2..]) <= 71 by {
      assert strings[n - 2..][1..] == strings[n - 1..];
    }
    if n >= 3 {
      assert strings[n - 3..][1..] == strings[n - 2..];
      assert IsLabel(strings[n - 3]);
    }
    if n == 4 {
      assert strings[n - 4..][1..] == strings[n - 3..];
    }
    assert strings[0..] == strings;
  }

  /** Where the parser puts two, three or four parts: host, service, proto, domain. */
  function Layout(strings: seq<Text>): (r: seq<seq<byte>>)
    requires 2 <= |strings| <= 4
    ensures |r| == 4
  {
    if |strings| == 4 then [strings[0], strings[1], strings[2], strings[3]]
    else if |strings| == 3 then [[], strings[0], strings[1], strings[2]]
    else [strings[0], [], [], strings[1]]
  }

  predicate Delivers(n: Name, strings: seq<Text>, clear: bool)
    requires 2 <= |strings| <= 4
  {
    n.Valid() && n.parts == |strings| && !n.sub && Similar(n.fields, Layout(strings))
    && (n.invalid ==> n.parts == 4 && !clear)
  }

  /** The RDATA stored in [at, next) is `rdata`, read the way the branch for its type reads it. */
  predicate RdataReads(mem: seq<byte>, plen: nat, at: nat, next: nat, rdata: Rdata, clear: bool)
    requires plen < |mem| && at <= next <= plen
  {
    match rdata
    case NameData(labels) =>
      && 2 <= |labels| <= 4
      && var p := ParseFqdn(mem, plen, at);
        p.Good? && p.next == next && Delivers(p.name, labels, clear)
    case SrvData(priority, weight, port, host) =>
      var s := ParseSrv(mem, plen, at);
      && s.Some? && s.value.priority == priority && s.value.weight == weight && s.value.port == port
      && Delivers(s.value.target, [host, LOCAL], clear)
    case TxtData(entries) => mem[at..next] == Data(entries)
    case AddressData(octets) => mem[at..next] == octets
  }

  /** The class field on the wire: the Internet class, its top bit set if caches are to be flushed. */
  function ClassOf(flush: bool): nat {
    if flush then 0x8001 else 0x0001
  }

  /** The record at `at` is `rec`, and `next` is where the walk goes on. */
  predicate Reads(mem: seq<byte>, plen: nat, at: nat, next: nat, rec: Record, clear: bool)
    requires plen < |mem| && rec.Valid()
  {
    var r := ParseRecord(mem, plen, at);
    && r.Some?
    && 2 <= |rec.owner| <= 4 && Delivers(r.value.name, rec.owner, clear)
    && r.value.rtype == rec.rtype && r.value.rclass == CLASS_IN && r.value.ttl == rec.ttl
    && U16At(mem, r.value.dataAt - 8) == ClassOf(rec.flush)
    && r.value.next == next
    && RdataReads(mem, plen, r.value.dataAt, next, rec.rdata, clear)
  }

  // ---------------------------------------------------------------- hypotheses

  predicate RdataNames(rdata: Rdata) {
    match rdata
    case NameData(labels) => RecordName(labels)
    case SrvData(_, _, _, host) => RecordName([host, LOCAL])
    case _ => true
  }

  /** Every name of the record is settled in [lo, ...): the owner before the record, the RDATA name before RDLENGTH. */
  predicate SettledRecord(w: Writer, rec: Record, lo: nat, clear: bool)
    requires w.Valid() && rec.Valid()
  {
    && SettledRun(w, rec.owner, lo, w.index, clear)
    && var t := AfterType(w, rec);
      && t.index >= 2
      && match rec.rdata
         case NameData(labels) => SettledRun(t, labels, lo, t.index - 2, clear)
         case SrvData(p, v, q, host) => SettledRun(AppendSrvInts(t, p, v, q).w, [host, LOCAL], lo, t.index - 2, clear)
         case _ => true
  }

  // ---------------------------------------------------------------- names

  /** Reading a written name through the parser delivers its parts in place. */
  lemma ParseDelivers(mem: seq<byte>, plen: nat, at: nat, strings: seq<Text>, clear: bool)
    requires plen < |mem| && RecordName(strings)
    requires var r := Read(mem, plen, at, at, EMPTY);
             r.Good? && Holds(r.name, strings) && (r.name.invalid ==> r.name.parts == 4 && !clear)
    ensures var p := ParseFqdn(mem, plen, at);
            && p.Good? && p.next == Read(mem, plen, at, at, EMPTY).next && Delivers(p.name, strings, clear)
  {
    hide Read, NoCase;
    var n := Read(mem, plen, at, at, EMPTY).name;
    var f := n.fields;
    assert forall i :: 0 <= i < n.parts ==> NoCase(f[i], strings[i]) by {
      assert forall i :: 0 <= i < n.parts ==> f[..n.parts][i] == f[i];
    }
    EmptyNoCase();
  }

  lemma EmptyNoCase()
    ensures NoCase([], [])
  {
  }

  /** A name written by `AppendName` and kept, with the stretch it points into, is delivered. */
  lemma WrittenNameDelivered(w: Writer, strings: seq<Text>, lo: nat, hi: nat, mem: seq<byte>, plen: nat, clear: bool)
    requires w.Valid() && RecordName(strings) && hi <= w.index
    requires AppendName(w, strings).whole && SettledRun(w, strings, lo, hi, clear)
    requires AppendName(w, strings).w.index <= plen < |mem|
    requires SameOn(AppendName(w, strings).w.mem, mem, Zone(lo, hi, w.index, AppendName(w, strings).w.index))
    ensures var p := ParseFqdn(mem, plen, w.index);
            p.Good? && p.next == AppendName(w, strings).w.index && Delivers(p.name, strings, clear)
  {
    hide Read, ParseFqdn, AppendFqdn, Delivers, SettledRun, SameOn, NameShape;
    CompressionRoundTrip(w, strings, lo, hi, mem, plen, clear);
    ParseDelivers(mem, plen, w.index, strings, clear);
  }

  // ---------------------------------------------------------------- the fixed part

  /** `mem` holds, at `at`, the ten bytes every record has between its name and its RDATA. */
  lemma FixedPartReads(mem: seq<byte>, at: nat, rtype: nat, flush: bool, ttl: nat, rdlen: nat)
    requires at + 10 <= |mem| && rtype < 0x1_0000 && ttl < 0x1_0000_0000 && rdlen < 0x1_0000
    requires mem[at..at + 8] == TypeBytes(rtype, flush, ttl)[..8] && mem[at + 8..at + 10] == U16Bytes(rdlen)
    ensures U16At(mem, at) == rtype && U16At(mem, at + 2) == ClassOf(flush)
    ensures U32At(mem, at + 4) == ttl && U16At(mem, at + 8) == rdlen
  {
    var s := TypeBytes(rtype, flush, ttl);
    forall i | 0 <= i < 8
      ensures mem[at + i] == s[i]
    {
      assert mem[at..at + 8][i] == s[..8][i];
    }
    assert mem[at + 8] == mem[at + 8..at + 10][0] && mem[at + 9] == mem[at + 8..at + 10][1];
    U32Value(ttl);
  }

  lemma U32Value(v: nat)
    requires v < 0x1_0000_0000
    ensures ((v / 0x100_0000 % 256 * 256 + v / 0x1_0000 % 256) * 256 + v / 256 % 256) * 256 + v % 256 == v
  {
    assert v / 0x1_0000 == v / 256 / 256 && v / 0x100_0000 == v / 256 / 256 / 256;
  }

  // ---------------------------------------------------------------- round trip

  /** `mem` keeps everything from `lo` up to the end of the record. */
  predicate Keeps(w: Writer, rec: Record, lo: nat, mem: seq<byte>, plen: nat)
    requires w.Valid() && rec.Valid()
  {
    var e := AppendRecord(w, rec).w;
    lo <= w.index && e.index <= plen < |mem| && SameOn(e.mem, mem, Zone(lo, e.index, 0, 0))
  }

  /** A record of a type and with names this responder writes. */
  predicate Sound(rec: Record) {
    RecordName(rec.owner) && RdataNames(rec.rdata) && Writable(rec.rtype)
  }

  /** There is room for `rec`, and every match made while writing it is settled. */
  predicate Clean(w: Writer, rec: Record, lo: nat, clear: bool)
    requires w.Valid() && rec.Valid()
  {
    Sound(rec) && Fits(w, rec) && SettledRecord(w, rec, lo, clear)
  }

  lemma SoundIsCompact(rec: Record)
    requires Sound(rec)
    ensures Compact(rec)
  {
    hide Octets;
    ShapeLabels(rec.owner);
    RecordNameShort(rec.owner);
    match rec.rdata
    case NameData(labels) =>
      ShapeLabels(labels);
      RecordNameShort(labels);
    case SrvData(_, _, _, host) =>
      assert host == [host, LOCAL][0];
    case _ =>
  }

  /** Room is all it takes for a record to be written in full. */
  lemma SoundAppends(w: Writer, rec: Record)
    requires w.Valid() && rec.Valid() && Sound(rec) && Fits(w, rec)
    ensures AppendRecord(w, rec).ret > 0 && AppendRecord(w, rec).whole
  {
    hide AppendRecord, Fits, Compact;
    SoundIsCompact(rec);
    RecordWholeIffFits(w, rec);
  }

  lemma SoundRecordLabels(rec: Record)
    requires Sound(rec)
    ensures AllLabels(rec.owner) && RdataLabels(rec.rdata)
  {
    if rec.rdata.SrvData? {
      assert rec.rdata.host == [rec.rdata.host, LOCAL][0];
    }
  }

  /** The three stretches of a written record, in a memory that keeps it. */
  lemma KeptParts(w: Writer, rec: Record, lo: nat, mem: seq<byte>, plen: nat)
    requires w.Valid() && rec.Valid() && AllLabels(rec.owner) && RdataLabels(rec.rdata)
    requires AppendRecord(w, rec).ret > 0 && Keeps(w, rec, lo, mem, plen)
    ensures var o, t := AppendName(w, rec.owner).w, AfterType(w, rec);
            && w.index <= o.index && t.index == o.index + 10 <= plen && t.Valid() && t.index < SIZE
            && SameOn(o.mem, mem, Zone(lo, w.index, w.index, o.index))
            && mem[o.index..o.index + 8] == TypeBytes(rec.rtype, rec.flush, rec.ttl)[..8]
            && var d := AppendRdata(t, rec.rdata);
            && mem[t.index - 2..t.index] == U16Bytes(d.ret)
            && t.index <= d.w.index <= plen && d.w.index == AppendRecord(w, rec).w.index
            && SameOn(d.w.mem, mem, Zone(lo, t.index - 2, t.index, d.w.index))
  {
    hide AppendFqdn, AppendRdata, Splice, AppendRecord, AfterType, AppendName, TypeBytes, U16Bytes;
    RecordSteps(w, rec);
    var o, t, e := AppendName(w, rec.owner).w, AfterType(w, rec), AppendRecord(w, rec).w;
    var d := AppendRdata(t, rec.rdata);
    assert forall i :: lo <= i < e.index ==> mem[i] == e.mem[i];
    assert forall i :: 0 <= i < t.index - 2 ==> e.mem[i] == d.w.mem[i] == t.mem[i];
    assert forall i :: 0 <= i < o.index ==> t.mem[i] == o.mem[i];
    assert mem[t.index - 2..t.index] == e.mem[t.index - 2..t.index];
  }

  /** The name, type, class, TTL and RDLENGTH of a written record are read back. */
  lemma HeadReads(w: Writer, rec: Record, lo: nat, mem: seq<byte>, plen: nat, clear: bool)
    requires w.Valid() && rec.Valid() && Sound(rec) && Fits(w, rec) && Keeps(w, rec, lo, mem, plen)
    requires SettledRun(w, rec.owner, lo, w.index, clear)
    ensures var r := ParseRecord(mem, plen, w.index);
            && r.Some? && Delivers(r.value.name, rec.owner, clear)
            && r.value.rtype == rec.rtype && r.value.rclass == CLASS_IN && r.value.ttl == rec.ttl
            && U16At(mem, r.value.dataAt - 8) == ClassOf(rec.flush)
            && r.value.dataAt == AfterType(w, rec).index
            && r.value.next == AppendRecord(w, rec).w.index
  {
    hide AppendFqdn, AppendRdata, Splice, AfterType, ParseFqdn, TypeBytes, U16Bytes, U16At, U32At,
      Delivers, SettledRun, SameOn, Appended, RdataNameOctets, NameShape, Needed, RdataNeeded;
    SoundAppends(w, rec);
    SoundRecordLabels(rec);
    KeptParts(w, rec, lo, mem, plen);
    RecordSteps(w, rec);
    WrittenNameDelivered(w, rec.owner, lo, w.index, mem, plen, clear);
    var o, t := AppendName(w, rec.owner).w, AfterType(w, rec);
    var d := AppendRdata(t, rec.rdata);
    RdataAccounts(t, rec.rdata);
    RdataWhole(t, rec.rdata);
    AppendRdataBound(t, rec.rdata);
    FixedPartReads(mem, o.index, rec.rtype, rec.flush, rec.ttl, d.ret);
  }

  lemma RdataWhole(w: Writer, rdata: Rdata)
    requires w.Valid() && w.index < SIZE
    requires AppendRdata(w, rdata).whole && AppendRdata(w, rdata).ret > 0
    ensures RdataNameOctets(w, rdata) < 256
  {
    hide AppendFqdn, AppendSrvInts;
  }

  lemma SrvReads(t: Writer, priority: nat, weight: nat, port: nat, host: Text, lo: nat, hi: nat, mem: seq<byte>,
                 plen: nat, clear: bool)
    requires t.Valid() && t.index < SIZE && hi <= t.index && RecordName([host, LOCAL])
    requires priority < 0x1_0000 && weight < 0x1_0000 && port < 0x1_0000
    requires var d := AppendRdata(t, SrvData(priority, weight, port, host));
             && d.ret > 0 && d.whole && d.w.index <= plen < |mem|
             && SameOn(d.w.mem, mem, Zone(lo, hi, t.index, d.w.index))
    requires SettledRun(AppendSrvInts(t, priority, weight, port).w, [host, LOCAL], lo, hi, clear)
    ensures var d := AppendRdata(t, SrvData(priority, weight, port, host));
            && t.index <= d.w.index
            && RdataReads(mem, plen, t.index, d.w.index, SrvData(priority, weight, port, host), clear)
  {
    hide AppendFqdn, AppendSrvInts, ParseFqdn, Delivers, SettledRun, U16Bytes, AppendName, NameShape;
    var ints := AppendSrvInts(t, priority, weight, port);
    SrvIntsWrite(t, priority, weight, port);
    assert host == [host, LOCAL][0];
    assert AllLabels([host, LOCAL]) by {
      ShapeLabels([host, LOCAL]);
    }
    NameAccounts(ints.w, [host, LOCAL]);
    WrittenNameDelivered(ints.w, [host, LOCAL], lo, hi, mem, plen, clear);
    assert mem[t.index..t.index + 6] == ints.w.mem[t.index..t.index + 6];
    ThreeU16s(mem, t.index, priority, weight, port);
  }

  lemma ShapeLabels(labels: seq<Text>)
    requires NameShape(labels)
    ensures AllLabels(labels) && |labels| <= 4
  {
  }

  lemma ThreeU16s(mem: seq<byte>, at: nat, a: nat, b: nat, c: nat)
    requires at + 6 <= |mem| && a < 0x1_0000 && b < 0x1_0000 && c < 0x1_0000
    requires mem[at..at + 6] == U16Bytes(a) + U16Bytes(b) + U16Bytes(c)
    ensures U16At(mem, at) == a && U16At(mem, at + 2) == b && U16At(mem, at + 4) == c
  {
    var s := U16Bytes(a) + U16Bytes(b) + U16Bytes(c);
    assert forall i :: 0 <= i < 6 ==> mem[at + i] == mem[at..at + 6][i] == s[i];
    assert mem[at] == s[0] && mem[at + 1] == s[1] && mem[at + 2] == s[2];
    assert mem[at + 3] == s[3] && mem[at + 4] == s[4] && mem[at + 5] == s[5];
  }

  lemma WrittenRdataReads(w: Writer, rec: Record, lo: nat, mem: seq<byte>, plen: nat, clear: bool)
    requires w.Valid() && rec.Valid() && Clean(w, rec, lo, clear) && Keeps(w, rec, lo, mem, plen)
    ensures var t, e := AfterType(w, rec), AppendRecord(w, rec).w;
            t.index <= e.index <= plen && RdataReads(mem, plen, t.index, e.index, rec.rdata, clear)
  {
    hide AppendFqdn, AfterType, ParseFqdn, ParseSrv, Delivers, SettledRun, NameShape, U16Bytes, TypeBytes,
      AppendSrvInts, Splice, AppendRecord, AppendTxtData, Data, Needed, RdataNeeded;
    SoundAppends(w, rec);
    SoundRecordLabels(rec);
    KeptParts(w, rec, lo, mem, plen);
    RecordSteps(w, rec);
    var t := AfterType(w, rec);
    var d := AppendRdata(t, rec.rdata);
    match rec.rdata
    case NameData(labels) =>
      ShapeLabels(labels);
      WrittenNameDelivered(t, labels, lo, t.index - 2, mem, plen, clear);
    case SrvData(p, v, q, host) =>
      SrvReads(t, p, v, q, host, lo, t.index - 2, mem, plen, clear);
    case TxtData(entries) =>
      AppendTxtDataWrites(t, entries);
      assert mem[t.index..d.w.index] == d.w.mem[t.index..d.w.index];
    case AddressData(octets) =>
      assert mem[t.index..d.w.index] == d.w.mem[t.index..d.w.index];
  }

  /**
   * Record round trip: a record appended cleanly is read back by the parser's walk, field by field, and the walk
   * moves to the end of the record; in every memory and packet length that keep the bytes from `lo` to that end.
   */
  lemma RecordRoundTrip(w: Writer, rec: Record, lo: nat, mem: seq<byte>, plen: nat, clear: bool)
    requires w.Valid() && rec.Valid() && Clean(w, rec, lo, clear) && Keeps(w, rec, lo, mem, plen)
    ensures Reads(mem, plen, w.index, AppendRecord(w, rec).w.index, rec, clear)
  {
    hide AppendRecord, AfterType, ParseRecord, Clean, Keeps, ParseFqdn, ParseSrv, Delivers, Sound, Fits, SettledRun;
    CleanShape(w, rec, lo, mem, plen, clear);
    HeadReads(w, rec, lo, mem, plen, clear);
    WrittenRdataReads(w, rec, lo, mem, plen, clear);
  }

  lemma CleanShape(w: Writer, rec: Record, lo: nat, mem: seq<byte>, plen: nat, clear: bool)
    requires w.Valid() && rec.Valid() && Clean(w, rec, lo, clear) && Keeps(w, rec, lo, mem, plen)
    ensures plen < |mem| && 2 <= |rec.owner| <= 4
    ensures Sound(rec) && Fits(w, rec) && SettledRun(w, rec.owner, lo, w.index, clear)
  {
  }

  // ---------------------------------------------------------------- the records this responder makes

  /** PTR: the service type, the TTL (0 for a goodbye) and the instance it points to are read back, unflagged if clear. */
  lemma PtrRoundTrip(w: Writer, instance: Text, service: Text, proto: Text, bye: bool, lo: nat, mem: seq<byte>,
                     plen: nat, clear: bool)
    requires w.Valid()
    requires var rec := PtrRecord(instance, service, proto, bye);
             rec.Valid() && Clean(w, rec, lo, clear) && Keeps(w, rec, lo, mem, plen)
    ensures var r := ParseRecord(mem, plen, w.index);
            && r.Some? && r.value.rtype == 12 && r.value.ttl == (if bye then 0 else 4500)
            && U16At(mem, r.value.dataAt - 8) == 0x0001
            && Similar(r.value.name.fields, [[], service, proto, LOCAL])
            && var p := ParseFqdn(mem, plen, r.value.dataAt);
            && p.Good? && Similar(p.name.fields, [instance, service, proto, LOCAL])
            && (clear ==> !r.value.name.invalid && !p.name.invalid)
            && p.next == r.value.next == AppendRecord(w, PtrRecord(instance, service, proto, bye)).w.index
  {
    hide AppendRecord, ParseRecord, ParseFqdn, Clean, Keeps, Similar;
    RecordRoundTrip(w, PtrRecord(instance, service, proto, bye), lo, mem, plen, clear);
  }

  /** SRV: the instance, the TTL, priority, weight, port and the host it points to are read back. */
  lemma SrvRoundTrip(w: Writer, instance: Text, service: Text, proto: Text, priority: nat, weight: nat, port: nat,
                     host: Text, flush: bool, bye: bool, lo: nat, mem: seq<byte>, plen: nat, clear: bool)
    requires w.Valid()
    requires var rec := SrvRecord(instance, service, proto, priority, weight, port, host, flush, bye);
             rec.Valid() && Clean(w, rec, lo, clear) && Keeps(w, rec, lo, mem, plen)
    ensures var r := ParseRecord(mem, plen, w.index);
            && r.Some? && r.value.rtype == 33 && r.value.ttl == (if bye then 0 else 120)
            && U16At(mem, r.value.dataAt - 8) == (if flush then 0x8001 else 0x0001)
            && Similar(r.value.name.fields, [instance, service, proto, LOCAL])
            && var s := ParseSrv(mem, plen, r.value.dataAt);
            && s.Some? && s.value.priority == priority && s.value.weight == weight && s.value.port == port
            && r.value.dataAt + 5 < plen
            && U16At(mem, r.value.dataAt) == priority && U16At(mem, r.value.dataAt + 2) == weight
            && U16At(mem, r.value.dataAt + 4) == port
            && Similar(s.value.target.fields, [host, [], [], LOCAL])
            && (clear ==> !r.value.name.invalid && !s.value.target.invalid)
  {
    hide AppendRecord, ParseRecord, ParseFqdn, ParseSrv, Clean, Keeps, Similar, U16At;
    var rec := SrvRecord(instance, service, proto, priority, weight, port, host, flush, bye);
    RecordRoundTrip(w, rec, lo, mem, plen, clear);
    KeptLength(w, rec, lo, mem, plen);
    SrvIntsInPlace(mem, plen, ParseRecord(mem, plen, w.index).value.dataAt);
  }

  lemma KeptLength(w: Writer, rec: Record, lo: nat, mem: seq<byte>, plen: nat)
    requires w.Valid() && rec.Valid() && Keeps(w, rec, lo, mem, plen)
    ensures plen < |mem|
  {
    hide AppendRecord;
  }

  /** Priority, weight and port come first in the RDATA, in that order. */
  lemma SrvIntsInPlace(mem: seq<byte>, plen: nat, at: nat)
    requires plen < |mem| && ParseSrv(mem, plen, at).Some?
    ensures at + 5 < plen
    ensures var s := ParseSrv(mem, plen, at).value;
            s.priority == U16At(mem, at) && s.weight == U16At(mem, at + 2) && s.port == U16At(mem, at + 4)
  {
    hide ParseFqdn;
  }

  /** DNS-SD PTR: the enumeration name and the service type it points to are read back. */
  lemma SdptrRoundTrip(w: Writer, service: Text, proto: Text, flush: bool, lo: nat, mem: seq<byte>, plen: nat,
                       clear: bool)
    requires w.Valid()
    requires var rec := SdptrRecord(service, proto, flush);
             rec.Valid() && Clean(w, rec, lo, clear) && Keeps(w, rec, lo, mem, plen)
    ensures var r := ParseRecord(mem, plen, w.index);
            && r.Some? && r.value.rtype == 12 && r.value.ttl == 4500
            && U16At(mem, r.value.dataAt - 8) == (if flush then 0x8001 else 0x0001)
            && Similar(r.value.name.fields, [SERVICES, DNS_SD, UDP, LOCAL])
            && var p := ParseFqdn(mem, plen, r.value.dataAt);
            && p.Good? && Similar(p.name.fields, [[], service, proto, LOCAL])
  {
    hide AppendRecord, ParseRecord, ParseFqdn, Clean, Keeps, Similar;
    RecordRoundTrip(w, SdptrRecord(service, proto, flush), lo, mem, plen, clear);
  }

  /** TXT: the instance is read back, and the decoder gets the attributes exactly if only the last may lack a value. */
  lemma TxtRecordRoundTrip(w: Writer, instance: Text, service: Text, proto: Text, entries: seq<Entry>, flush: bool,
                           bye: bool, lo: nat, mem: seq<byte>, plen: nat, clear: bool)
    requires w.Valid() && forall e :: e in entries ==> Encodable(e)
    requires var rec := TxtRecord(instance, service, proto, entries, flush, bye);
             rec.Valid() && Clean(w, rec, lo, clear) && Keeps(w, rec, lo, mem, plen)
    ensures plen < |mem|
    ensures var r := ParseRecord(mem, plen, w.index);
            && r.Some? && r.value.rtype == 16 && r.value.ttl == (if bye then 0 else 4500)
            && U16At(mem, r.value.dataAt - 8) == (if flush then 0x8001 else 0x0001)
            && Similar(r.value.name.fields, [instance, service, proto, LOCAL])
            && (Decode(mem[r.value.dataAt..r.value.next]) == Items(ToItems(entries)) <==> OnlyLastBare(entries))
  {
    hide AppendRecord, ParseRecord, Clean, Similar, Decode, Data;
    RecordRoundTrip(w, TxtRecord(instance, service, proto, entries, flush, bye), lo, mem, plen, clear);
    TxtRoundTrip(entries);
  }

  /** A and AAAA: the host, the TTL and the address are read back. */
  lemma AddressRoundTrip(w: Writer, host: Text, octets: seq<byte>, flush: bool, bye: bool, lo: nat, mem: seq<byte>,
                         plen: nat, clear: bool)
    requires w.Valid()
    requires var rec := AddressRecord(host, octets, flush, bye);
             rec.Valid() && Clean(w, rec, lo, clear) && Keeps(w, rec, lo, mem, plen)
    ensures plen < |mem|
    ensures var r := ParseRecord(mem, plen, w.index);
            && r.Some? && r.value.rtype == (if |octets| == 4 then 1 else 28)
            && r.value.ttl == (if bye then 0 else 120)
            && U16At(mem, r.value.dataAt - 8) == (if flush then 0x8001 else 0x0001)
            && Similar(r.value.name.fields, [host, [], [], LOCAL])
            && mem[r.value.dataAt..r.value.next] == octets
  {
    hide AppendRecord, ParseRecord, Clean, Similar;
    RecordRoundTrip(w, AddressRecord(host, octets, flush, bye), lo, mem, plen, clear);
  }
}
