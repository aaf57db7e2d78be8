/** When packets arrive: the first one, and the records service discovery depends on. */
module Discovery {
  import opened Bytes
  import opened NameRoundTrip
  import opened NameWriter
  import opened Settling
  import opened SelfMatch
  import opened Records
  import opened RecordReader
  import opened Packet
  import opened PacketRoundTrip
  import opened SettledPackets
  import opened Arrival

  // ---------------------------------------------------------------- a blank buffer

  lemma BlankNameApart(w: Writer, labels: seq<Text>, alone: bool)
    requires Blank(w) && OrdinaryName(labels) && (alone ==> !TailRepeats(labels))
    ensures StandsApart(w, labels, alone)
  {
    hide Separated, SelfMatched, Repeats, TailRepeats, Ordinary;
    assert Ordinary(labels[0]);
    BlankSeparates(w, labels[0]);
    if alone {
      NotRepeatedNotSelfMatched(w, labels);
    }
  }

  lemma BlankAppended(w: Writer, e: Writer)
    requires Blank(w) && Appended(w, e)
    ensures Blank(e)
  {
  }

  /** The last labels of no name of the record repeat those in front of them. */
  predicate RecordTailsDiffer(rec: Record) {
    && !TailRepeats(rec.owner)
    && match rec.rdata
       case NameData(labels) => !TailRepeats(labels)
       case SrvData(_, _, _, host) => !TailRepeats([host, LOCAL])
       case _ => true
  }

  predicate MessageTailsDiffer(m: Message) {
    && (forall q :: q in m.questions ==> !TailRepeats(q.labels))
    && (forall r :: r in m.answers ==> RecordTailsDiffer(r)) && (forall r :: r in m.servers ==> RecordTailsDiffer(r))
    && (forall r :: r in m.additional ==> RecordTailsDiffer(r))
  }

  lemma {:induction false} BlankQuestionsApart(w: Writer, qs: seq<Question>, alone: bool)
    requires Blank(w) && forall q :: q in qs ==> SoundQuestion(q) && UnambiguousQuestion(q)
    requires alone ==> forall q :: q in qs ==> !TailRepeats(q.labels)
    ensures QuestionsStandApart(w, qs, alone) && Blank(AppendQuestions(w, qs).w)
    decreases |qs|
  {
    hide Blank, AppendQuestion, StandsApart, TailRepeats, OrdinaryName, NameShape, NoLabelInside;
    BlankIsValid(w);
    if qs != [] {
      assert SoundQuestion(qs[0]);
      BlankNameApart(w, qs[0].labels, alone);
      ShapeLabels(qs[0].labels);
      QuestionAppends(w, qs[0]);
      BlankAppended(w, AppendQuestion(w, qs[0]).w);
      BlankQuestionsApart(AppendQuestion(w, qs[0]).w, qs[1..], alone);
    }
  }

  lemma BlankIsValid(w: Writer)
    requires Blank(w)
    ensures w.Valid()
  {
  }

  lemma BlankRecordApart(w: Writer, rec: Record, alone: bool)
    requires Blank(w) && rec.Valid() && Sound(rec) && UnambiguousRecord(rec) && (alone ==> RecordTailsDiffer(rec))
    ensures RecordStandsApart(w, rec, alone) && Blank(AppendRecord(w, rec).w)
  {
    hide Blank, StandsApart, TailRepeats, OrdinaryName, AppendName, AppendRecord, TypeBytes, Appended, AppendSrvInts,
      Sound,
      NoLabelInside, IntBytes;
    BlankIsValid(w);
    SoundRecordLabels(rec);
    BlankNameApart(w, rec.owner, alone);
    RecordAppends(w, rec);
    BlankAppended(w, AppendRecord(w, rec).w);
    NameAccounts(w, rec.owner);
    var o, t := AppendName(w, rec.owner).w, AfterType(w, rec);
    BlankAppended(w, o);
    TypeAppends(o, rec.rtype, rec.flush, rec.ttl);
    BlankAppended(o, t);
    match rec.rdata
    case NameData(labels) =>
      BlankNameApart(t, labels, alone);
    case SrvData(p, v, q, host) =>
      SrvIntsWrite(t, p, v, q);
      BlankAppended(t, AppendSrvInts(t, p, v, q).w);
      BlankNameApart(AppendSrvInts(t, p, v, q).w, [host, LOCAL], alone);
    case _ =>
  }

  lemma TypeAppends(w: Writer, rtype: nat, flush: bool, ttl: nat)
    requires w.Valid()
    ensures Appended(w, AppendType(w, rtype, flush, ttl).w)
  {
  }

  lemma {:induction false} BlankRecordsApart(w: Writer, recs: seq<Record>, alone: bool)
    requires Blank(w) && ValidRecords(recs) && forall r :: r in recs ==> Sound(r) && UnambiguousRecord(r)
    requires alone ==> forall r :: r in recs ==> RecordTailsDiffer(r)
    ensures RecordsStandApart(w, recs, alone) && Blank(AppendRecords(w, recs).w)
    decreases |recs|
  {
    hide Blank, AppendRecord, RecordStandsApart, RecordTailsDiffer, Sound, UnambiguousRecord;
    BlankIsValid(w);
    if recs != [] {
      BlankRecordApart(w, recs[0], alone);
      BlankRecordsApart(AppendRecord(w, recs[0]).w, recs[1..], alone);
    }
  }

  lemma BlankHeader(w: Writer, at: nat, v: nat)
    requires Blank(w) && HEAD <= w.index && at + 2 <= HEAD
    ensures Blank(SetHeader(w, at, v))
  {
  }

  lemma BlankSectionApart(w: Writer, recs: seq<Record>, at: nat, alone: bool)
    requires Blank(w) && HEAD <= w.index && at + 2 <= HEAD && ValidRecords(recs)
    requires forall r :: r in recs ==> Sound(r) && UnambiguousRecord(r)
    requires alone ==> forall r :: r in recs ==> RecordTailsDiffer(r)
    ensures RecordsStandApart(w, recs, alone) && Blank(Section(w, recs, at)) && HEAD <= Section(w, recs, at).index
  {
    hide Blank, AppendRecords, RecordsStandApart, RecordTailsDiffer, Sound, UnambiguousRecord, SetHeader,
      LabelledRecord;
    BlankIsValid(w);
    BlankRecordsApart(w, recs, alone);
    SoundIsLabelled(recs);
    RecordsAppend(w, recs);
    BlankHeader(AppendRecords(w, recs).w, at, AppendRecords(w, recs).count % 256);
  }

  /**
   * In a buffer that is blank beyond its header the bytes around a name complete nothing, and no name is matched
   * against itself unless its last labels repeat those in front of them.
   */
  lemma BlankMessageApart(start: seq<byte>, m: Message, alone: bool)
    requires |start| == SIZE + SLACK && (forall i :: HEAD <= i < |start| ==> start[i] == 0)
    requires SoundMessage(m) && UnambiguousMessage(m) && (alone ==> MessageTailsDiffer(m))
    ensures MessageStandsApart(start, m, alone)
  {
    hide AppendQuestions, Section, QuestionsStandApart, RecordsStandApart, RecordTailsDiffer, Sound, UnambiguousRecord,
      SoundQuestion, UnambiguousQuestion, Start, SetHeader, TailRepeats;
    var w := Start(start, m);
    StartBytes(start, m);
    BlankQuestionsApart(w, m.questions, alone);
    SoundLabels(m.questions);
    QuestionsAppend(w, m.questions);
    var q := AppendQuestions(w, m.questions);
    BlankHeader(q.w, 4, q.count % 256);
    var a := AfterQuestions(start, m);
    var b := Section(a, m.answers, 6);
    var c := Section(b, m.servers, 8);
    BlankSectionApart(a, m.answers, 6, alone);
    BlankSectionApart(b, m.servers, 8, alone);
    BlankSectionApart(c, m.additional, 10, alone);
  }

  /** So a message of such names whose uncompressed form fits the buffer arrives, with no name flagged. */
  lemma BlankMessageArrives(start: seq<byte>, m: Message, mem: seq<byte>)
    requires |start| == SIZE + SLACK && (forall i :: HEAD <= i < |start| ==> start[i] == 0)
    requires SoundMessage(m) && UnambiguousMessage(m) && MessageTailsDiffer(m) && MessageOctets(m) <= SIZE
    requires var e := Dispatch(start, m); e.index < |mem| && mem[..e.index] == e.mem[..e.index]
    ensures HEAD <= Dispatch(start, m).index <= MessageOctets(m) && Carries(mem, Dispatch(start, m).index, m, true)
  {
    hide Dispatch, MessageFits, SettledMessage, MessageOctets, Carries, UnambiguousMessage, SoundMessage,
      MessageStandsApart, MessageTailsDiffer;
    SoundIsCompactMessage(m);
    ShortMessageFits(start, m);
    BlankMessageApart(start, m, true);
    UnambiguousMessageIsSettled(start, m);
    SoundIsValid(m);
    ShortMessageArrives(start, m, mem, true);
  }

  // ---------------------------------------------------------------- the records discovery depends on

  lemma NoLabelInTypes(rtype: nat, flush: bool, ttl: nat)
    requires Writable(rtype) && (ttl == 0 || ttl == 120 || ttl == 4500)
    ensures NoLabelInside(TypeBytes(rtype, flush, ttl)) && !LabelByte(TypeBytes(rtype, flush, ttl)[0])
  {
    var b := TypeBytes(rtype, flush, ttl);
    assert b[0] == 0 && (b[2] >= 128 || b[2] == 0);
    assert b[3] == 1 && b[4] == 0 && b[5] == 0 && b[8] == 0 && b[9] == 0;
    assert !LabelByte(b[2]) && !LabelByte(b[4]) && (ttl == 4500 ==> b[6] == 17 && !LabelByte(b[7]));
    assert ttl != 4500 ==> b[6] == 0 && (b[7] == 0 || b[7] == 120);
  }

  /** PTR records of ordinary names are quiet. */
  lemma PtrIsUnambiguous(instance: Text, service: Text, proto: Text, bye: bool)
    requires OrdinaryName([service, proto, LOCAL]) && OrdinaryName([instance, service, proto, LOCAL])
    ensures var rec := PtrRecord(instance, service, proto, bye); Sound(rec) && UnambiguousRecord(rec) && rec.Valid()
  {
    hide OrdinaryName, NoLabelInside, TypeBytes;
    NoLabelInTypes(TYPE_PTR, false, if bye then 0 else PTR_TTL);
    OrdinaryIsRecordName([service, proto, LOCAL]);
    OrdinaryIsRecordName([instance, service, proto, LOCAL]);
  }

  lemma OrdinaryIsRecordName(labels: seq<Text>)
    requires OrdinaryName(labels) && |labels| >= 2 && labels[|labels| - 1] == LOCAL
    ensures RecordName(labels)
  {
  }

  /** So are SRV records with priority and weight 0, unless the port reads as a label of one letter. */
  lemma SrvIsUnambiguous(instance: Text, service: Text, proto: Text, port: nat, host: Text, flush: bool, bye: bool)
    requires OrdinaryName([host, LOCAL]) && OrdinaryName([instance, service, proto, LOCAL]) && port < 0x1_0000
    requires port / 256 == 1 ==> !LabelByte(port % 256)
    ensures var rec := SrvRecord(instance, service, proto, 0, 0, port, host, flush, bye);
            Sound(rec) && UnambiguousRecord(rec) && rec.Valid()
  {
    hide OrdinaryName, TypeBytes;
    NoLabelInTypes(TYPE_SRV, flush, if bye then 0 else SRV_TTL);
    OrdinaryIsRecordName([host, LOCAL]);
    OrdinaryIsRecordName([instance, service, proto, LOCAL]);
    NoLabelInInts(port);
  }

  lemma NoLabelInInts(port: nat)
    requires port < 0x1_0000 && (port / 256 == 1 ==> !LabelByte(port % 256))
    ensures NoLabelInside(IntBytes(0, 0, port)) && !LabelByte(IntBytes(0, 0, port)[0])
  {
    var b := IntBytes(0, 0, port);
    assert b[0] == 0 && b[1] == 0 && b[2] == 0 && b[3] == 0 && b[4] == port / 256 && b[5] == port % 256;
  }

  /** The name follows a byte that is no label byte and not the length of its first label. */
  predicate AfterPlainByte(w: Writer, labels: seq<Text>)
    requires w.Valid()
  {
    labels != [] && w.index > 0 && !LabelByte(w.mem[w.index - 1]) && w.mem[w.index - 1] != |labels[0]|
  }

  lemma NameAfterPlainByte(w: Writer, labels: seq<Text>, alone: bool)
    requires w.Valid() && OrdinaryName(labels) && AfterPlainByte(w, labels) && (alone ==> !Repeats(labels))
    ensures StandsApart(w, labels, alone)
  {
    hide Separated, SelfMatched, Repeats, Ordinary;
    assert Ordinary(labels[0]);
    ByteSeparates(w, labels[0]);
    if alone {
      NotRepeatedNotSelfMatched(w, labels);
    }
  }

  /** The RDATA name of a PTR record follows RDLENGTH, which is still 0 when it is written. */
  lemma PtrAfterPlainByte(w: Writer, rec: Record, alone: bool)
    requires w.Valid() && rec.Valid() && Sound(rec) && UnambiguousRecord(rec) && Fits(w, rec) && rec.rdata.NameData?
    requires AfterPlainByte(w, rec.owner) && (alone ==> !Repeats(rec.owner) && !Repeats(rec.rdata.labels))
    ensures RecordStandsApart(w, rec, alone)
  {
    hide StandsApart, Repeats, OrdinaryName, Fits, AfterType, AppendName, AppendRdata, TypeBytes, NoLabelInside,
      AppendRecord,
      Splice, Sound;
    NameAfterPlainByte(w, rec.owner, alone);
    RecordStepsOf(w, rec);
    var o, t := AppendName(w, rec.owner).w, AfterType(w, rec);
    assert t.mem[t.index - 1] == t.mem[o.index..t.index][9];
    TypeEndsInZero(rec.rtype, rec.flush, rec.ttl);
    LengthIsPositive(rec.rdata.labels);
    NameAfterPlainByte(t, rec.rdata.labels, alone);
  }

  lemma LengthIsPositive(labels: seq<Text>)
    requires OrdinaryName(labels)
    ensures labels != [] && |labels[0]| > 0
  {
    assert Ordinary(labels[0]);
  }

  function PtrMessage(instance: Text, service: Text, proto: Text, bye: bool): Message {
    Message(0, 0x8400, [], [PtrRecord(instance, service, proto, bye)], [], [])
  }

  /**
   * The smallest announcement, one PTR record of ordinary names, whatever earlier packets left in the buffer: it
   * arrives if and only if neither name was matched against itself, so always when no label of a name comes twice.
   */
  lemma PtrArrives(start: seq<byte>, instance: Text, service: Text, proto: Text, bye: bool, mem: seq<byte>)
    requires |start| == SIZE + SLACK
    requires OrdinaryName([service, proto, LOCAL]) && OrdinaryName([instance, service, proto, LOCAL])
    requires var m := PtrMessage(instance, service, proto, bye);
             && ValidMessage(m)
             && var e := Dispatch(start, m); e.index < |mem| && mem[..e.index] == e.mem[..e.index]
    ensures var m := PtrMessage(instance, service, proto, bye);
            && HEAD <= Dispatch(start, m).index
            && (Carries(mem, Dispatch(start, m).index, m, true) <==> MessageStandsApart(start, m, true))
            && (instance != service && instance != proto && service != proto && LOCAL !in [instance, service, proto] ==>
                  Carries(mem, Dispatch(start, m).index, m, true))
  {
    hide Dispatch, Carries, UnambiguousRecord, OrdinaryName, Sound, Octets, MessageStandsApart, Repeats, MessageFits;
    var rec, m := PtrRecord(instance, service, proto, bye), PtrMessage(instance, service, proto, bye);
    PtrIsUnambiguous(instance, service, proto, bye);
    HeaderIsUnambiguous(m);
    PtrOctets(instance, service, proto, bye);
    assert [rec][1..] == [];
    assert MessageOctets(m) <= SIZE;
    assert SoundMessage(m) && UnambiguousMessage(m);
    SoundIsCompactMessage(m);
    ShortMessageFits(start, m);
    PtrStandsApart(start, instance, service, proto, bye, false);
    ArrivesIffAlone(start, m, mem);
    if instance != service && instance != proto && service != proto && LOCAL !in [instance, service, proto] {
      DistinctNeverRepeat([service, proto, LOCAL]);
      DistinctNeverRepeat([instance, service, proto, LOCAL]);
      PtrStandsApart(start, instance, service, proto, bye, true);
    }
  }

  lemma PtrStandsApart(start: seq<byte>, instance: Text, service: Text, proto: Text, bye: bool, alone: bool)
    requires |start| == SIZE + SLACK
    requires OrdinaryName([service, proto, LOCAL]) && OrdinaryName([instance, service, proto, LOCAL])
    requires alone ==> !Repeats([service, proto, LOCAL]) && !Repeats([instance, service, proto, LOCAL])
    requires ValidMessage(PtrMessage(instance, service, proto, bye))
    requires MessageFits(start, PtrMessage(instance, service, proto, bye))
    ensures MessageStandsApart(start, PtrMessage(instance, service, proto, bye), alone)
  {
    hide OrdinaryName, Repeats, RecordStandsApart, Fits, UnambiguousRecord, AppendRecord, Sound, Start, U16Bytes;
    var rec, m := PtrRecord(instance, service, proto, bye), PtrMessage(instance, service, proto, bye);
    PtrIsUnambiguous(instance, service, proto, bye);
    var a := AfterQuestions(start, m);
    StartBytes(start, m);
    LengthIsPositive([service, proto, LOCAL]);
    assert a.index == HEAD && a.mem[HEAD - 1] == 0;
    assert [rec][0] == rec && [rec][1..] == [];
    assert RecordsFit(a, [rec]);
    PtrAfterPlainByte(a, rec, alone);
    assert RecordsStandApart(AppendRecord(a, rec).w, [], alone);
    assert RecordsStandApart(a, [rec], alone);
  }

  lemma DistinctNeverRepeat(labels: seq<Text>)
    requires forall i, j :: 0 <= i < j < |labels| ==> labels[i] != labels[j]
    ensures !Repeats(labels)
  {
    hide NoCase;
    forall j, k | 0 <= j < k < |labels|
      ensures !Begins(labels[j..k], labels[k..])
    {
      assert labels[j..k][0] == labels[j] && labels[k..][0] == labels[k];
    }
  }

  lemma HeaderIsUnambiguous(m: Message)
    requires m.id == 0 && m.flags == 0x8400
    ensures UnambiguousHeader(m)
  {
    assert U16Bytes(0) + U16Bytes(0x8400) == [0, 0, 132, 0];
  }

  lemma PtrOctets(instance: Text, service: Text, proto: Text, bye: bool)
    requires Sound(PtrRecord(instance, service, proto, bye))
    ensures RecordOctets(PtrRecord(instance, service, proto, bye)) <= 408
  {
    hide Octets;
    var rec := PtrRecord(instance, service, proto, bye);
    RecordNameShort(rec.owner);
    RecordNameShort(rec.rdata.labels);
  }
}
