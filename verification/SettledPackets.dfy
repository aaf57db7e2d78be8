/** Packets whose matches are all settled: what `Settling` says of names, carried to questions, records and messages. */
module SettledPackets {
  import opened Bytes
  import opened NameReader
  import opened NameRoundTrip
  import opened NameWriter
  import opened Settling
  import opened Txt
  import opened Records
  import opened RecordReader
  import opened Packet
  import opened PacketRoundTrip

  /** The packet so far: whatever in it looks like a label is the start of a plain name of its body. */
  predicate UnambiguousPacket(w: Writer) {
    w.Valid() && HEAD <= w.index && Unambiguous(w.mem, w.index, Zone(HEAD, w.index, 0, 0))
  }

  // ---------------------------------------------------------------- bytes that are no names

  /** No byte is the length of an ordinary label made of the bytes after it. */
  predicate NoLabelInside(bytes: seq<byte>) {
    forall i :: 0 <= i < |bytes| && 1 <= bytes[i] <= 31 ==>
                  i + bytes[i] >= |bytes| || exists j :: i < j <= i + bytes[i] && !LabelByte(bytes[j])
  }

  lemma NoLabelInJoin(a: seq<byte>, b: seq<byte>)
    requires NoLabelInside(a) && NoLabelInside(b) && a != [] && a[|a| - 1] == 0
    ensures NoLabelInside(a + b)
  {
    var c := a + b;
    forall i | 0 <= i < |c| && 1 <= c[i] <= 31 && i + c[i] < |c|
      ensures exists j :: i < j <= i + c[i] && !LabelByte(c[j])
    {
      if i < |a| {
        if i + a[i] >= |a| {
          assert !LabelByte(c[|a| - 1]);
        } else {
          var j :| i < j <= i + a[i] && !LabelByte(a[j]);
          assert c[j] == a[j];
        }
      } else {
        var k := i - |a|;
        assert c[i] == b[k];
        var j :| k < j <= k + b[k] && !LabelByte(b[j]);
        assert c[|a| + j] == b[j];
      }
    }
  }

  /** Appending such bytes brings nothing that looks like a label. */
  lemma BytesKeep(w: Writer, e: Writer, bytes: seq<byte>, z: Zone)
    requires Appended(w, e) && e.mem[w.index..e.index] == bytes && NoLabelInside(bytes)
    requires bytes != [] ==> !LabelByte(bytes[0])
    requires Unambiguous(w.mem, w.index, z) && z.hi <= w.index && z.to <= w.index
    ensures Unambiguous(e.mem, e.index, z)
  {
    hide Unambiguous, Source, LooksLikeLabel, NoLabelInside;
    assert bytes != [] ==> e.mem[w.index] == bytes[0];
    UnambiguousFrame(w.mem, e.mem, w.index, z);
    forall loc | 0 <= loc < e.index && LooksLikeLabel(e.mem, loc, e.index)
      ensures Source(e.mem, loc, z)
    {
      if loc < w.index {
        if bytes != [] {
          LooksStopsAt(e.mem, loc, w.index, e.index);
        }
        SourceAt(e.mem, w.index, z, loc);
      } else {
        NoLabelInBytes(e.mem, w.index, e.index, loc);
        assert false;
      }
    }
    UnambiguousFrom(e.mem, e.index, z);
  }

  lemma NoLabelInBytes(mem: seq<byte>, from: nat, to: nat, loc: nat)
    requires |mem| == SIZE + SLACK && from <= loc < to <= SIZE && NoLabelInside(mem[from..to])
    ensures !LooksLikeLabel(mem, loc, to)
  {
    var b, i := mem[from..to], loc - from;
    assert mem[loc] == b[i];
    if 1 <= b[i] <= 31 && i + b[i] < |b| {
      var j :| i < j <= i + b[i] && !LabelByte(b[j]);
      assert mem[from + j] == b[j];
    }
  }

  /** Storing a small number over two bytes outside the zone brings nothing either, if it is no length itself. */
  lemma PatchKeeps(mem: seq<byte>, at: nat, v: nat, index: nat, z: Zone)
    requires |mem| == SIZE + SLACK && at + 2 <= index <= SIZE && v < 256 && Unambiguous(mem, index, z)
    requires InBuffer(z) && SameOn(mem, Splice(mem, at, U16Bytes(v)), z)
    requires !LooksLikeLabel(Splice(mem, at, U16Bytes(v)), at + 1, index)
    ensures Unambiguous(Splice(mem, at, U16Bytes(v)), index, z)
  {
    hide Unambiguous, Source, LooksLikeLabel, SameOn;
    var m := Splice(mem, at, U16Bytes(v));
    SmallNumber(mem, at, v);
    forall loc | 0 <= loc < index && LooksLikeLabel(m, loc, index)
      ensures Source(m, loc, z)
    {
      if loc < at {
        LooksStopsAt(m, loc, at, index);
        LooksSame(m, mem, loc, at);
        LooksFurther(mem, loc, at, index);
      } else if loc > at + 1 {
        LooksSame(m, mem, loc, index);
      } else {
        NoLabelAt(m, at, index);
      }
      SourceAt(mem, index, z, loc);
      SourceFrame(mem, m, loc, z);
    }
    UnambiguousFrom(m, index, z);
  }

  lemma LooksFurther(mem: seq<byte>, loc: nat, end: nat, further: nat)
    requires |mem| == SIZE + SLACK && loc < SIZE && LooksLikeLabel(mem, loc, end) && end <= further
    ensures LooksLikeLabel(mem, loc, further)
  {
  }

  lemma SmallNumber(mem: seq<byte>, at: nat, v: nat)
    requires at + 2 <= |mem| && v < 256
    ensures var m := Splice(mem, at, U16Bytes(v)); m[at] == 0 && m[at + 1] == v
  {
    var m := Splice(mem, at, U16Bytes(v));
    assert m[at + 0] == U16Bytes(v)[0] && m[at + 1] == U16Bytes(v)[1];
  }

  // ---------------------------------------------------------------- names that stand apart

  /** The bytes around the name cannot complete its first label; if `alone`, neither is it matched against itself. */
  predicate StandsApart(w: Writer, labels: seq<Text>, alone: bool)
    requires w.Valid()
  {
    labels != [] && Separated(w, labels[0]) && (alone ==> !SelfMatched(w, labels, w.index))
  }

  predicate RecordStandsApart(w: Writer, rec: Record, alone: bool)
    requires w.Valid() && rec.Valid()
  {
    && StandsApart(w, rec.owner, alone)
    && var t := AfterType(w, rec);
      match rec.rdata
      case NameData(labels) => StandsApart(t, labels, alone)
      case SrvData(p, v, q, host) => StandsApart(AppendSrvInts(t, p, v, q).w, [host, LOCAL], alone)
      case _ => true
  }

  predicate QuestionsStandApart(w: Writer, qs: seq<Question>, alone: bool)
    requires w.Valid()
    decreases |qs|
  {
    || qs == []
    || (StandsApart(w, qs[0].labels, alone) && QuestionsStandApart(AppendQuestion(w, qs[0]).w, qs[1..], alone))
  }

  predicate RecordsStandApart(w: Writer, recs: seq<Record>, alone: bool)
    requires w.Valid() && ValidRecords(recs)
    decreases |recs|
  {
    || recs == []
    || (RecordStandsApart(w, recs[0], alone) && RecordsStandApart(AppendRecord(w, recs[0]).w, recs[1..], alone))
  }

  /** Every name of the message stands apart when its turn comes. */
  predicate MessageStandsApart(mem: seq<byte>, m: Message, alone: bool)
    requires |mem| == SIZE + SLACK && ValidMessage(m)
  {
    var a := AfterQuestions(mem, m);
    var b := Section(a, m.answers, 6);
    var c := Section(b, m.servers, 8);
    && QuestionsStandApart(Start(mem, m), m.questions, alone) && RecordsStandApart(a, m.answers, alone)
    && RecordsStandApart(b, m.servers, alone) && RecordsStandApart(c, m.additional, alone)
  }

  // ---------------------------------------------------------------- questions

  function KindBytes(q: Question): (s: seq<byte>)
    ensures |s| == 4
  {
    U16Bytes(q.qtype) + U16Bytes(QuestionClass(q.unicast))
  }

  /** An ordinary name, and a type and class that cannot be taken for one. */
  predicate UnambiguousQuestion(q: Question) {
    OrdinaryName(q.labels) && NoLabelInside(KindBytes(q)) && !LabelByte(KindBytes(q)[0])
  }

  lemma NameIsWhole(w: Writer, labels: seq<Text>, more: nat)
    requires w.Valid() && OrdinaryName(labels) && w.index + Needed(w, labels) + more <= SIZE
    ensures AppendFqdn(w, labels).whole
  {
    hide Needed, AppendFqdn, Octets;
    assert forall s :: s in labels ==> IsLabel(s);
    WholeIffRoom(w, labels);
  }

  lemma ApartNameKeeps(w: Writer, labels: seq<Text>, lo: nat, hi: nat)
    requires w.Valid() && OrdinaryName(labels) && hi <= w.index && Unambiguous(w.mem, w.index, Zone(lo, hi, 0, 0))
    requires StandsApart(w, labels, true) && AppendFqdn(w, labels).whole
    ensures SettledRun(w, labels, lo, hi, true)
    ensures var e := AppendFqdn(w, labels).w;
            && e.Valid() && w.index < e.index && !LabelByte(e.mem[w.index])
            && (forall i :: 0 <= i < |w.mem| && !(w.index <= i < e.index) ==> e.mem[i] == w.mem[i])
            && Unambiguous(e.mem, e.index, Zone(lo, hi, w.index, e.index))
  {
    hide Unambiguous, Separated, SelfMatched, AppendFqdn, OrdinaryName, SettledRun;
    NameKeeps(w, labels, lo, hi);
  }

  lemma QuestionKeeps(w: Writer, q: Question)
    requires UnambiguousPacket(w) && SoundQuestion(q) && UnambiguousQuestion(q) && QuestionFits(w, q)
    requires StandsApart(w, q.labels, true)
    ensures SettledRun(w, q.labels, HEAD, w.index, true) && UnambiguousPacket(AppendQuestion(w, q).w)
  {
    hide StandsApart, Unambiguous, AppendFqdn, SettledRun, OrdinaryName, Needed, Octets, NoLabelInside, RecordName,
      U16Bytes, Splice;
    NameIsWhole(w, q.labels, 4);
    ApartNameKeeps(w, q.labels, HEAD, w.index);
    var n := AppendFqdn(w, q.labels).w;
    UnambiguousWider(n.mem, n.index, Zone(HEAD, w.index, w.index, n.index), Zone(HEAD, n.index, 0, 0));
    RoomAfterName(w, q.labels);
    var e := AppendQuestion(w, q).w;
    QuestionBytes(w, q);
    BytesKeep(n, e, KindBytes(q), Zone(HEAD, n.index, 0, 0));
    UnambiguousWider(e.mem, e.index, Zone(HEAD, n.index, 0, 0), Zone(HEAD, e.index, 0, 0));
  }

  lemma RoomAfterName(w: Writer, labels: seq<Text>)
    requires w.Valid() && OrdinaryName(labels) && AppendFqdn(w, labels).whole
    ensures AppendFqdn(w, labels).w.index == w.index + Needed(w, labels)
  {
    hide Needed, AppendFqdn, Octets;
    assert forall s :: s in labels ==> IsLabel(s);
    WholeIffRoom(w, labels);
    AppendFqdnAccounts(w, labels);
  }

  lemma QuestionBytes(w: Writer, q: Question)
    requires w.Valid() && RecordName(q.labels) && AppendFqdn(w, q.labels).whole
    requires AppendFqdn(w, q.labels).w.index + 4 <= SIZE
    ensures var n, e := AppendFqdn(w, q.labels).w, AppendQuestion(w, q).w;
            Appended(n, e) && e.mem[n.index..e.index] == KindBytes(q)
  {
    hide AppendFqdn, U16Bytes;
    RecordNameOctets(w, q.labels);
    WholeNameReturns(w, q.labels);
    var n := AppendFqdn(w, q.labels).w;
    var a := AppendU16(n, q.qtype).w;
    var e := AppendU16(a, QuestionClass(q.unicast)).w;
    assert AppendQuestion(w, q).w == e;
    assert e.mem[n.index..n.index + 2] == a.mem[n.index..n.index + 2];
    assert e.mem[n.index..e.index] == e.mem[n.index..n.index + 2] + e.mem[a.index..e.index];
  }

  lemma WholeNameReturns(w: Writer, labels: seq<Text>)
    requires w.Valid() && RecordName(labels) && AppendFqdn(w, labels).whole
    ensures AppendFqdn(w, labels).ret > 0
  {
    hide AppendFqdn;
    AppendFqdnAccounts(w, labels);
  }

  lemma {:induction false} QuestionsKeep(w: Writer, qs: seq<Question>)
    requires UnambiguousPacket(w) && (forall q :: q in qs ==> SoundQuestion(q) && UnambiguousQuestion(q))
    requires QuestionsFit(w, qs)
    requires QuestionsStandApart(w, qs, true)
    ensures SettledQuestions(w, qs, true) && UnambiguousPacket(AppendQuestions(w, qs).w)
    decreases |qs|
  {
    hide UnambiguousPacket, SoundQuestion, UnambiguousQuestion, QuestionFits, AppendQuestion, SettledRun, StandsApart;
    if qs != [] {
      PacketIsValid(w);
      QuestionKeeps(w, qs[0]);
      QuestionsKeep(AppendQuestion(w, qs[0]).w, qs[1..]);
    }
  }

  lemma PacketIsValid(w: Writer)
    requires UnambiguousPacket(w)
    ensures w.Valid() && HEAD <= w.index
  {
  }

  // ---------------------------------------------------------------- records

  /** RDATA that cannot be taken for a name, not even with its length in front. */
  predicate NoLabelInRdata(bytes: seq<byte>) {
    1 <= |bytes| < 256 && NoLabelInside(bytes) && NoLabelInside([|bytes|] + bytes)
  }

  function IntBytes(priority: nat, weight: nat, port: nat): (s: seq<byte>)
    ensures |s| == 6
  {
    U16Bytes(priority) + U16Bytes(weight) + U16Bytes(port)
  }

  /** Ordinary names, and nothing else in the record that could be taken for one. */
  predicate UnambiguousRecord(rec: Record) {
    && OrdinaryName(rec.owner) && NoLabelInside(TypeBytes(rec.rtype, rec.flush, rec.ttl))
    && !LabelByte(TypeBytes(rec.rtype, rec.flush, rec.ttl)[0])
    && match rec.rdata
       case NameData(labels) => OrdinaryName(labels)
       case SrvData(p, v, q, host) =>
         OrdinaryName([host, LOCAL]) && NoLabelInside(IntBytes(p, v, q)) && !LabelByte(IntBytes(p, v, q)[0])
       case TxtData(entries) => NoLabelInRdata(Data(entries))
       case AddressData(octets) => NoLabelInRdata(octets)
  }

  /** The owner name of a record. */
  lemma OwnerKeeps(w: Writer, rec: Record)
    requires UnambiguousPacket(w) && rec.Valid() && Sound(rec) && UnambiguousRecord(rec) && Fits(w, rec)
    requires StandsApart(w, rec.owner, true)
    ensures var o, t := AppendName(w, rec.owner).w, AfterType(w, rec);
            && SettledRun(w, rec.owner, HEAD, w.index, true)
            && o.Valid() && HEAD <= o.index && Unambiguous(o.mem, o.index, Zone(HEAD, o.index, 0, 0))
            && Appended(o, t) && t.index == o.index + 10
            && t.mem[o.index..t.index] == TypeBytes(rec.rtype, rec.flush, rec.ttl)
  {
    hide StandsApart, Unambiguous, AppendFqdn, SettledRun, OrdinaryName, Needed, Octets, NoLabelInside, RecordName,
      Splice, TypeBytes, RdataNeeded, AppendRecord;
    assert OrdinaryName(rec.owner);
    NameIsWhole(w, rec.owner, 10);
    ApartNameKeeps(w, rec.owner, HEAD, w.index);
    var o := AppendFqdn(w, rec.owner).w;
    UnambiguousWider(o.mem, o.index, Zone(HEAD, w.index, w.index, o.index), Zone(HEAD, o.index, 0, 0));
    RecordStepsOf(w, rec);
  }

  lemma RecordStepsOf(w: Writer, rec: Record)
    requires w.Valid() && rec.Valid() && Sound(rec) && Fits(w, rec)
    ensures AppendRecord(w, rec).ret > 0 && AppendRecord(w, rec).whole
    ensures var o, t, e := AppendName(w, rec.owner), AfterType(w, rec), AppendRecord(w, rec).w;
            && t.index < SIZE && t.index == o.w.index + 10 && Appended(o.w, t)
            && t.mem[o.w.index..t.index] == TypeBytes(rec.rtype, rec.flush, rec.ttl)
            && var d := AppendRdata(t, rec.rdata);
            && Appended(t, d.w) && d.ret > 0 && d.whole && o.whole && e.index == d.w.index
            && e.mem == Splice(d.w.mem, t.index - 2, U16Bytes(d.ret))
  {
    hide AppendRecord, AppendName, AfterType, AppendRdata, Fits, TypeBytes, Splice, Compact, RecordName, U16Bytes;
    SoundIsCompact(rec);
    RecordWholeIffFits(w, rec);
    CompactParts(rec);
    RecordSteps(w, rec);
  }

  lemma CompactParts(rec: Record)
    requires rec.Valid() && Compact(rec)
    ensures AllLabels(rec.owner) && RdataLabels(rec.rdata)
  {
  }

  /** RDLENGTH stored, the record is complete. */
  lemma PatchedIsUnambiguous(w: Writer, rec: Record, z: Zone)
    requires w.Valid() && rec.Valid() && Sound(rec) && Fits(w, rec) && HEAD <= AfterType(w, rec).index - 2 < SIZE - 2
    requires var t := AfterType(w, rec);
             var d := AppendRdata(t, rec.rdata);
             && d.ret < 256 && Unambiguous(d.w.mem, d.w.index, z)
             && z.lo == HEAD && z.hi <= t.index - 2 && (z.from == z.to == 0 || (t.index <= z.from && z.to <= d.w.index))
             && !LooksLikeLabel(AppendRecord(w, rec).w.mem, t.index - 1, d.w.index)
    ensures UnambiguousPacket(AppendRecord(w, rec).w)
  {
    hide Unambiguous, LooksLikeLabel, AppendRecord, AfterType, AppendRdata, Fits, Sound, TypeBytes, AppendName,
      Splice, U16Bytes;
    RecordStepsOf(w, rec);
    var t, e := AfterType(w, rec), AppendRecord(w, rec).w;
    var d := AppendRdata(t, rec.rdata);
    PatchKeeps(d.w.mem, t.index - 2, d.ret, d.w.index, z);
    UnambiguousWider(e.mem, e.index, z, Zone(HEAD, e.index, 0, 0));
  }

  /** RDATA that is a name. */
  lemma NameRecordKeeps(w: Writer, rec: Record)
    requires UnambiguousPacket(w) && rec.Valid() && Sound(rec) && UnambiguousRecord(rec) && Fits(w, rec)
    requires rec.rdata.NameData?
    requires RecordStandsApart(w, rec, true)
    ensures SettledRecord(w, rec, HEAD, true) && UnambiguousPacket(AppendRecord(w, rec).w)
  {
    hide StandsApart, Unambiguous, LooksLikeLabel, AppendFqdn, SettledRun, OrdinaryName, Needed, Octets,
      NoLabelInside, RecordName, TypeBytes, RdataNeeded, AppendRecord, AfterType, Splice, U16Bytes;
    OwnerKeeps(w, rec);
    RecordStepsOf(w, rec);
    var labels, o, t := rec.rdata.labels, AppendName(w, rec.owner).w, AfterType(w, rec);
    TypeStarts(o, t, rec);
    BytesKeep(o, t, TypeBytes(rec.rtype, rec.flush, rec.ttl), Zone(HEAD, o.index, 0, 0));
    UnambiguousWider(t.mem, t.index, Zone(HEAD, o.index, 0, 0), Zone(HEAD, t.index - 2, 0, 0));
    RecordNameOctets(t, labels);
    ApartNameKeeps(t, labels, HEAD, t.index - 2);
    var d := AppendRdata(t, rec.rdata).w;
    LengthIsNoLabel(d.mem, t.index - 2, AppendRdata(t, rec.rdata).ret, d.index);
    PatchedIsUnambiguous(w, rec, Zone(HEAD, t.index - 2, t.index, d.index));
  }

  lemma TypeStarts(o: Writer, t: Writer, rec: Record)
    requires Appended(o, t) && t.mem[o.index..t.index] == TypeBytes(rec.rtype, rec.flush, rec.ttl)
    requires UnambiguousRecord(rec)
    ensures NoLabelInside(TypeBytes(rec.rtype, rec.flush, rec.ttl))
    ensures !LabelByte(TypeBytes(rec.rtype, rec.flush, rec.ttl)[0])
  {
  }

  /** A length stored in front of a byte that is no label byte is no place for a match. */
  lemma LengthIsNoLabel(mem: seq<byte>, at: nat, v: nat, end: nat)
    requires |mem| == SIZE + SLACK && at + 2 <= SIZE && v < 256 && !LabelByte(mem[at + 2])
    ensures !LooksLikeLabel(Splice(mem, at, U16Bytes(v)), at + 1, end)
  {
    SmallNumber(mem, at, v);
    hide Splice;
    NoLabelAt(Splice(mem, at, U16Bytes(v)), at + 1, end);
  }

  /** RDATA that is three integers and a name. */
  lemma SrvRecordKeeps(w: Writer, rec: Record)
    requires UnambiguousPacket(w) && rec.Valid() && Sound(rec) && UnambiguousRecord(rec) && Fits(w, rec)
    requires rec.rdata.SrvData?
    requires RecordStandsApart(w, rec, true)
    ensures SettledRecord(w, rec, HEAD, true) && UnambiguousPacket(AppendRecord(w, rec).w)
  {
    hide StandsApart, Unambiguous, LooksLikeLabel, AppendFqdn, SettledRun, OrdinaryName, Needed, Octets,
      NoLabelInside, RecordName, TypeBytes, RdataNeeded, AppendRecord, AfterType, Splice, U16Bytes, AppendSrvInts;
    OwnerKeeps(w, rec);
    RecordStepsOf(w, rec);
    var host, o, t := [rec.rdata.host, LOCAL], AppendName(w, rec.owner).w, AfterType(w, rec);
    var ints := AppendSrvInts(t, rec.rdata.priority, rec.rdata.weight, rec.rdata.port).w;
    var d := AppendRdata(t, rec.rdata);
    SrvIntsWrite(t, rec.rdata.priority, rec.rdata.weight, rec.rdata.port);
    IntsKeep(o, t, ints, rec);
    UnambiguousWider(ints.mem, ints.index, Zone(HEAD, o.index, 0, 0), Zone(HEAD, t.index - 2, 0, 0));
    RecordNameOctets(ints, host);
    ApartNameKeeps(ints, host, HEAD, t.index - 2);
    FirstIntStays(t, ints, d.w, rec);
    LengthIsNoLabel(d.w.mem, t.index - 2, d.ret, d.w.index);
    PatchedIsUnambiguous(w, rec, Zone(HEAD, t.index - 2, ints.index, d.w.index));
  }

  lemma IntsKeep(o: Writer, t: Writer, ints: Writer, rec: Record)
    requires o.Valid() && HEAD <= o.index && Unambiguous(o.mem, o.index, Zone(HEAD, o.index, 0, 0))
    requires Appended(o, t) && t.index == o.index + 10 && Appended(t, ints) && ints.index == t.index + 6
    requires t.mem[o.index..t.index] == TypeBytes(rec.rtype, rec.flush, rec.ttl)
    requires rec.rdata.SrvData? && UnambiguousRecord(rec)
    requires ints.mem[t.index..t.index + 6] == IntBytes(rec.rdata.priority, rec.rdata.weight, rec.rdata.port)
    ensures Unambiguous(ints.mem, ints.index, Zone(HEAD, o.index, 0, 0))
  {
    hide Unambiguous, NoLabelInside, TypeBytes, IntBytes, OrdinaryName;
    var f := TypeBytes(rec.rtype, rec.flush, rec.ttl);
    var b := IntBytes(rec.rdata.priority, rec.rdata.weight, rec.rdata.port);
    AppendedTrans(o, t, ints);
    assert ints.mem[o.index..t.index] == t.mem[o.index..t.index];
    assert ints.mem[o.index..ints.index] == f + b;
    TypeEndsInZero(rec.rtype, rec.flush, rec.ttl);
    NoLabelInJoin(f, b);
    BytesKeep(o, ints, f + b, Zone(HEAD, o.index, 0, 0));
  }

  lemma TypeEndsInZero(rtype: nat, flush: bool, ttl: nat)
    ensures TypeBytes(rtype, flush, ttl)[9] == 0
  {
  }

  lemma FirstIntStays(t: Writer, ints: Writer, d: Writer, rec: Record)
    requires rec.rdata.SrvData? && UnambiguousRecord(rec) && Appended(t, ints) && ints.index == t.index + 6
    requires ints.mem[t.index..t.index + 6] == IntBytes(rec.rdata.priority, rec.rdata.weight, rec.rdata.port)
    requires d.Valid() && forall i :: 0 <= i < ints.index ==> d.mem[i] == ints.mem[i]
    ensures !LabelByte(d.mem[t.index])
  {
    hide IntBytes, TypeBytes, NoLabelInside, OrdinaryName;
    assert d.mem[t.index] == ints.mem[t.index..t.index + 6][0];
  }

  /** RDATA without a name. */
  lemma BytesRecordKeeps(w: Writer, rec: Record, bytes: seq<byte>)
    requires UnambiguousPacket(w) && rec.Valid() && Sound(rec) && UnambiguousRecord(rec) && Fits(w, rec)
    requires NoLabelInRdata(bytes)
    requires StandsApart(w, rec.owner, true)
    requires AfterType(w, rec).index < SIZE
    requires var t := AfterType(w, rec);
             var d := AppendRdata(t, rec.rdata);
             d.ret == |bytes| && t.index <= d.w.index && d.w.mem[t.index..d.w.index] == bytes
    ensures SettledRun(w, rec.owner, HEAD, w.index, true) && UnambiguousPacket(AppendRecord(w, rec).w)
  {
    hide StandsApart, Unambiguous, LooksLikeLabel, AppendFqdn, SettledRun, OrdinaryName, Needed, Octets,
      NoLabelInside, RecordName, TypeBytes, RdataNeeded, AppendRecord, AfterType, Splice, U16Bytes, AppendRdata;
    OwnerKeeps(w, rec);
    RecordStepsOf(w, rec);
    var o, t := AppendName(w, rec.owner).w, AfterType(w, rec);
    var d := AppendRdata(t, rec.rdata).w;
    var f := TypeBytes(rec.rtype, rec.flush, rec.ttl);
    AppendedTrans(o, t, d);
    assert d.mem[o.index..t.index] == t.mem[o.index..t.index];
    assert d.mem[o.index..d.index] == f + bytes;
    TypeStarts(o, t, rec);
    TypeEndsInZero(rec.rtype, rec.flush, rec.ttl);
    NoLabelInJoin(f, bytes);
    BytesKeep(o, d, f + bytes, Zone(HEAD, o.index, 0, 0));
    LengthOfRdata(d.mem, t.index - 2, bytes, d.index);
    PatchedIsUnambiguous(w, rec, Zone(HEAD, o.index, 0, 0));
  }

  lemma LengthOfRdata(mem: seq<byte>, at: nat, bytes: seq<byte>, end: nat)
    requires |mem| == SIZE + SLACK && at + 2 + |bytes| <= SIZE && mem[at + 2..at + 2 + |bytes|] == bytes
    requires NoLabelInRdata(bytes)
    ensures !LooksLikeLabel(Splice(mem, at, U16Bytes(|bytes|)), at + 1, end)
  {
    hide U16Bytes;
    SmallNumber(mem, at, |bytes|);
    var m := Splice(mem, at, U16Bytes(|bytes|));
    var c := [|bytes|] + bytes;
    if |bytes| <= 31 {
      assert c[0] == |bytes|;
      var j :| 0 < j <= |bytes| && !LabelByte(c[j]);
      assert c[j] == mem[at + 2..at + 2 + |bytes|][j - 1] == mem[at + 1 + j] == m[at + 1 + j];
    }
  }

  /** A record of ordinary names that stand apart is written with settled matches; the packet stays unambiguous. */
  lemma RecordKeeps(w: Writer, rec: Record)
    requires UnambiguousPacket(w) && rec.Valid() && Sound(rec) && UnambiguousRecord(rec) && Fits(w, rec)
    requires RecordStandsApart(w, rec, true)
    ensures SettledRecord(w, rec, HEAD, true) && UnambiguousPacket(AppendRecord(w, rec).w)
  {
    hide StandsApart, UnambiguousPacket, AppendRecord, AppendFqdn, SettledRun, OrdinaryName, Needed, Octets,
      NoLabelInside, RecordName, TypeBytes, AfterType, Splice, AppendEntries, Data;
    match rec.rdata
    case NameData(_) => NameRecordKeeps(w, rec);
    case SrvData(_, _, _, _) => SrvRecordKeeps(w, rec);
    case TxtData(entries) =>
      PacketIsValid(w);
      RecordStepsOf(w, rec);
      var t := AfterType(w, rec);
      AppendTxtDataWrites(t, entries);
      BytesRecordKeeps(w, rec, Data(entries));
    case AddressData(octets) =>
      PacketIsValid(w);
      RecordStepsOf(w, rec);
      var t := AfterType(w, rec);
      BytesRecordKeeps(w, rec, octets);
  }

  lemma {:induction false} RecordsKeep(w: Writer, recs: seq<Record>)
    requires UnambiguousPacket(w) && ValidRecords(recs) && (forall r :: r in recs ==> Sound(r) && UnambiguousRecord(r))
    requires RecordsFit(w, recs)
    requires RecordsStandApart(w, recs, true)
    ensures SettledRecords(w, recs, true) && UnambiguousPacket(AppendRecords(w, recs).w)
    decreases |recs|
  {
    hide UnambiguousPacket, Sound, UnambiguousRecord, Fits, AppendRecord, SettledRecord, RecordStandsApart;
    if recs != [] {
      PacketIsValid(w);
      RecordKeeps(w, recs[0]);
      RecordsKeep(AppendRecord(w, recs[0]).w, recs[1..]);
    }
  }

  // ---------------------------------------------------------------- messages

  predicate HeaderBlank(w: Writer, from: nat) {
    w.Valid() && forall i :: from <= i < HEAD ==> w.mem[i] == 0
  }

  /** Storing a counter in a header that is blank behind it. */
  lemma HeaderKeeps(w: Writer, at: nat, v: nat)
    requires UnambiguousPacket(w) && at + 2 < HEAD && v < 256 && HeaderBlank(w, at + 2)
    ensures UnambiguousPacket(SetHeader(w, at, v)) && HeaderBlank(SetHeader(w, at, v), at + 2)
  {
    hide Unambiguous, LooksLikeLabel, Splice, U16Bytes;
    var e := SetHeader(w, at, v);
    assert w.mem[at + 2] == 0;
    LengthIsNoLabel(w.mem, at, v, w.index);
    PatchKeeps(w.mem, at, v, w.index, Zone(HEAD, w.index, 0, 0));
  }

  /** Id and flags cannot be taken for a name. */
  predicate UnambiguousHeader(m: Message) {
    NoLabelInside(U16Bytes(m.id) + U16Bytes(m.flags))
  }

  lemma StartIsUnambiguous(mem: seq<byte>, m: Message)
    requires |mem| == SIZE + SLACK && UnambiguousHeader(m)
    ensures UnambiguousPacket(Start(mem, m)) && HeaderBlank(Start(mem, m), 4)
  {
    hide Source, NoLabelInside, U16Bytes, LooksLikeLabel;
    var w := Start(mem, m);
    var ids := U16Bytes(m.id) + U16Bytes(m.flags);
    StartBytes(mem, m);
    forall loc | 0 <= loc < w.index
      ensures !LooksLikeLabel(w.mem, loc, w.index)
    {
      if loc >= 4 {
        NoLabelAt(w.mem, loc, w.index);
      } else if LooksLikeLabel(w.mem, loc, w.index) {
        LooksStopsAt(w.mem, loc, 4, w.index);
        NoLabelInBytes(w.mem, 0, 4, loc);
      }
    }
  }

  lemma StartBytes(mem: seq<byte>, m: Message)
    requires |mem| == SIZE + SLACK
    ensures var w := Start(mem, m);
            && w.mem[0..4] == U16Bytes(m.id) + U16Bytes(m.flags)
            && (forall i :: 4 <= i < HEAD ==> w.mem[i] == 0) && (forall i :: HEAD <= i < |mem| ==> w.mem[i] == mem[i])
  {
    hide U16Bytes;
    var cleared := Splice(mem, 0, [0, 0, 0, 0, 0, 0, 0, 0, 0, 0, 0, 0]);
    var f := SetHeader(Writer(cleared, HEAD), 2, m.flags).mem;
    var w := Start(mem, m);
    assert w.mem[0..2] == U16Bytes(m.id) && w.mem[2..4] == f[2..4] == U16Bytes(m.flags);
    assert w.mem[0..4] == w.mem[0..2] + w.mem[2..4];
    assert forall i :: 0 <= i < HEAD ==> cleared[i] == 0;
  }

  /** A section of records, and its counter. */
  lemma SectionKeeps(w: Writer, recs: seq<Record>, at: nat)
    requires UnambiguousPacket(w) && ValidRecords(recs) && (forall r :: r in recs ==> Sound(r) && UnambiguousRecord(r))
    requires RecordsFit(w, recs) && at + 2 < HEAD && HeaderBlank(w, at + 2) && RecordsStandApart(w, recs, true)
    ensures SettledRecords(w, recs, true) && UnambiguousPacket(Section(w, recs, at))
    ensures HeaderBlank(Section(w, recs, at), at + 2)
  {
    hide UnambiguousPacket, Sound, UnambiguousRecord, SettledRecords, AppendRecords, LabelledRecord, RecordsFit,
      RecordsStandApart;
    PacketIsValid(w);
    RecordsKeep(w, recs);
    SoundIsLabelled(recs);
    RecordsAppend(w, recs);
    var t := AppendRecords(w, recs);
    HeaderKeeps(t.w, at, t.count % 256);
  }

  lemma QuestionSectionKeeps(mem: seq<byte>, m: Message)
    requires |mem| == SIZE + SLACK && UnambiguousHeader(m)
    requires (forall q :: q in m.questions ==> SoundQuestion(q) && UnambiguousQuestion(q))
    requires QuestionsFit(Start(mem, m), m.questions) && QuestionsStandApart(Start(mem, m), m.questions, true)
    ensures SettledQuestions(Start(mem, m), m.questions, true)
    ensures UnambiguousPacket(AfterQuestions(mem, m)) && HeaderBlank(AfterQuestions(mem, m), 6)
  {
    hide UnambiguousPacket, SoundQuestion, UnambiguousQuestion, SettledQuestions, AppendQuestions, QuestionsFit,
      Start, UnambiguousHeader, QuestionsStandApart;
    StartIsUnambiguous(mem, m);
    var w := Start(mem, m);
    QuestionsKeep(w, m.questions);
    SoundLabels(m.questions);
    QuestionsAppend(w, m.questions);
    var q := AppendQuestions(w, m.questions);
    HeaderKeeps(q.w, 4, q.count % 256);
  }

  /** Ordinary names, and nothing else in the message that could be taken for one. */
  predicate UnambiguousMessage(m: Message) {
    && UnambiguousHeader(m) && (forall q :: q in m.questions ==> UnambiguousQuestion(q))
    && (forall r :: r in m.answers ==> UnambiguousRecord(r)) && (forall r :: r in m.servers ==> UnambiguousRecord(r))
    && (forall r :: r in m.additional ==> UnambiguousRecord(r))
  }

  /** Whatever match is made while such a message is built is settled, if each of its names stands apart. */
  lemma UnambiguousMessageIsSettled(mem: seq<byte>, m: Message)
    requires |mem| == SIZE + SLACK && SoundMessage(m) && UnambiguousMessage(m) && MessageFits(mem, m)
    requires MessageStandsApart(mem, m, true)
    ensures SettledMessage(mem, m, true)
  {
    hide UnambiguousPacket, Sound, UnambiguousRecord, SoundQuestion, UnambiguousQuestion, Section, AfterQuestions,
      SettledQuestions, SettledRecords, QuestionsFit, RecordsFit, Start, UnambiguousHeader, RecordsStandApart,
      QuestionsStandApart;
    var a := AfterQuestions(mem, m);
    var b := Section(a, m.answers, 6);
    var c := Section(b, m.servers, 8);
    QuestionSectionKeeps(mem, m);
    SectionKeeps(a, m.answers, 6);
    SectionKeeps(b, m.servers, 8);
    PacketIsValid(c);
    RecordsKeep(c, m.additional);
  }

  lemma SoundIsValid(m: Message)
    requires SoundMessage(m)
    ensures ValidMessage(m)
  {
  }
}
