/** When a message arrives, exactly: unless one of its names was matched against itself. */
module Arrival {
  import opened Options
  import opened Bytes
  import opened NameReader
  import opened NameRoundTrip
  import opened NameWriter
  import opened Settling
  import opened Records
  import opened RecordReader
  import opened Packet
  import opened PacketRoundTrip
  import opened SettledPackets

  // ---------------------------------------------------------------- a name matched against itself is not read

  /** The receiver's parser gives up at such a name. */
  lemma NameUnread(w: Writer, labels: seq<Text>, mem: seq<byte>, plen: nat)
    requires w.Valid() && NameShape(labels) && AppendFqdn(w, labels).whole && SelfMatched(w, labels, w.index)
    requires HasName(w, labels, mem, plen)
    ensures plen < |mem| && ParseFqdn(mem, plen, w.index) == Bad
  {
    hide AppendFqdn, SelfMatched, Read, HasName;
    SelfMatchNeverReads(w, labels, w.index, mem, plen, EMPTY);
  }

  lemma NotAlone(w: Writer, labels: seq<Text>)
    requires w.Valid() && StandsApart(w, labels, false) && !StandsApart(w, labels, true)
    ensures SelfMatched(w, labels, w.index)
  {
    hide Separated, SelfMatched;
  }

  lemma QuestionUnread(w: Writer, q: Question, mem: seq<byte>, plen: nat)
    requires w.Valid() && HEAD <= w.index && SoundQuestion(q) && OrdinaryName(q.labels) && QuestionFits(w, q)
    requires SelfMatched(w, q.labels, w.index) && Copies(AppendQuestion(w, q).w, mem, plen)
    ensures plen < |mem| && ParseFqdn(mem, plen, w.index) == Bad
  {
    hide AppendFqdn, SelfMatched, OrdinaryName, Needed, Octets, AppendQuestion, ParseFqdn, U16Bytes, NameShape;
    NameIsWhole(w, q.labels, 4);
    RoomAfterName(w, q.labels);
    QuestionBytes(w, q);
    NameUnread(w, q.labels, mem, plen);
  }

  /** Nor are the questions, from the first such name on. */
  lemma {:induction false} QuestionsUnread(w: Writer, qs: seq<Question>, mem: seq<byte>, plen: nat, end: nat,
                                           clear: bool)
    requires UnambiguousPacket(w) && (forall q :: q in qs ==> SoundQuestion(q) && UnambiguousQuestion(q))
    requires QuestionsFit(w, qs) && QuestionsStandApart(w, qs, false) && !QuestionsStandApart(w, qs, true)
    requires Copies(AppendQuestions(w, qs).w, mem, plen)
    ensures plen < |mem| && !QuestionsRead(mem, plen, w.index, end, qs, clear)
    decreases |qs|
  {
    hide UnambiguousPacket, SoundQuestion, QuestionFits, AppendQuestion, StandsApart, Copies, ParseFqdn, QuestionReads,
      OrdinaryName, NoLabelInside, SettledRun, BodyAppended;
    PacketIsValid(w);
    var q, e := qs[0], AppendQuestion(w, qs[0]).w;
    QuestionAdvancesTo(w, q);
    QuestionsCopied(e, qs[1..], mem, plen);
    if StandsApart(w, q.labels, true) {
      QuestionKeeps(w, q);
      QuestionRoundTrip(w, q, mem, plen, true);
      QuestionsUnread(e, qs[1..], mem, plen, end, clear);
    } else {
      NotAlone(w, q.labels);
      QuestionUnread(w, q, mem, plen);
    }
  }

  lemma QuestionAdvancesTo(w: Writer, q: Question)
    requires w.Valid() && HEAD <= w.index && SoundQuestion(q)
    ensures HEAD <= AppendQuestion(w, q).w.index
  {
    hide AppendQuestion;
    ShapeLabels(q.labels);
    QuestionAppends(w, q);
  }

  /** The walk stops at a record that has such a name, as owner or as RDATA. */
  lemma RecordUnread(w: Writer, rec: Record, mem: seq<byte>, plen: nat, next: nat, clear: bool)
    requires UnambiguousPacket(w) && rec.Valid() && Sound(rec) && UnambiguousRecord(rec) && Fits(w, rec)
    requires RecordStandsApart(w, rec, false) && !RecordStandsApart(w, rec, true)
    requires Copies(AppendRecord(w, rec).w, mem, plen)
    ensures plen < |mem| && !Reads(mem, plen, w.index, next, rec, clear)
  {
    hide UnambiguousPacket, UnambiguousRecord, Fits, AppendRecord, StandsApart, ParseFqdn, Keeps, SelfMatched,
      AppendFqdn,
      AfterType, Delivers, Sound, AppendRdata, AppendSrvInts, TypeBytes, Splice, SameOn, U16Bytes;
    PacketIsValid(w);
    CopiesKeeps(w, rec, mem, plen);
    SoundRecordLabels(rec);
    RecordStepsOf(w, rec);
    KeptParts(w, rec, HEAD, mem, plen);
    if StandsApart(w, rec.owner, true) {
      RdataUnread(w, rec, mem, plen, next, clear);
    } else {
      NotAlone(w, rec.owner);
      OwnerUnread(w, rec, mem, plen);
    }
  }

  lemma OwnerUnread(w: Writer, rec: Record, mem: seq<byte>, plen: nat)
    requires w.Valid() && rec.Valid() && Sound(rec) && AppendName(w, rec.owner).whole
    requires SelfMatched(w, rec.owner, w.index) && w.index <= AppendName(w, rec.owner).w.index <= plen < |mem|
    requires var o := AppendName(w, rec.owner).w; SameOn(o.mem, mem, Zone(HEAD, w.index, w.index, o.index))
    ensures ParseRecord(mem, plen, w.index) == None
  {
    hide AppendFqdn, SelfMatched, ParseFqdn;
    NameUnread(w, rec.owner, mem, plen);
  }

  lemma RdataUnread(w: Writer, rec: Record, mem: seq<byte>, plen: nat, next: nat, clear: bool)
    requires UnambiguousPacket(w) && rec.Valid() && Sound(rec) && UnambiguousRecord(rec) && Fits(w, rec)
    requires RecordStandsApart(w, rec, false) && !RecordStandsApart(w, rec, true) && StandsApart(w, rec.owner, true)
    requires Keeps(w, rec, HEAD, mem, plen)
    ensures plen < |mem| && !Reads(mem, plen, w.index, next, rec, clear)
  {
    hide UnambiguousPacket, UnambiguousRecord, Fits, AppendRecord, StandsApart, ParseFqdn, SelfMatched, AppendFqdn,
      AfterType,
      Delivers, Sound, AppendRdata, AppendSrvInts, TypeBytes, Splice, SameOn, U16Bytes, ParseRecord, SettledRun,
      Unambiguous;
    PacketIsValid(w);
    OwnerKeeps(w, rec);
    HeadReads(w, rec, HEAD, mem, plen, true);
    SoundRecordLabels(rec);
    RecordStepsOf(w, rec);
    KeptParts(w, rec, HEAD, mem, plen);
    var t := AfterType(w, rec);
    match rec.rdata
    case NameData(labels) =>
      NotAlone(t, labels);
      TargetUnread(t, labels, mem, plen, rec);
    case SrvData(p, v, q, host) =>
      NotAlone(AppendSrvInts(t, p, v, q).w, [host, LOCAL]);
      HostUnread(t, mem, plen, rec);
    case _ =>
  }

  lemma TargetUnread(t: Writer, labels: seq<Text>, mem: seq<byte>, plen: nat, rec: Record)
    requires t.Valid() && 2 <= t.index < SIZE && Sound(rec) && rec.rdata == NameData(labels)
    requires SelfMatched(t, labels, t.index)
    requires var d := AppendRdata(t, rec.rdata);
             && d.whole && t.index <= d.w.index <= plen < |mem|
             && SameOn(d.w.mem, mem, Zone(HEAD, t.index - 2, t.index, d.w.index))
    ensures ParseFqdn(mem, plen, t.index) == Bad
  {
    hide AppendFqdn, SelfMatched, ParseFqdn;
    NameUnread(t, labels, mem, plen);
  }

  lemma HostUnread(t: Writer, mem: seq<byte>, plen: nat, rec: Record)
    requires t.Valid() && 2 <= t.index < SIZE && Sound(rec) && rec.rdata.SrvData?
    requires var ints := AppendSrvInts(t, rec.rdata.priority, rec.rdata.weight, rec.rdata.port).w;
             SelfMatched(ints, [rec.rdata.host, LOCAL], ints.index)
    requires var d := AppendRdata(t, rec.rdata);
             && d.ret > 0 && d.whole && t.index <= d.w.index <= plen < |mem|
             && SameOn(d.w.mem, mem, Zone(HEAD, t.index - 2, t.index, d.w.index))
    ensures ParseSrv(mem, plen, t.index) == None
  {
    hide AppendFqdn, SelfMatched, ParseFqdn, AppendSrvInts;
    var ints := AppendSrvInts(t, rec.rdata.priority, rec.rdata.weight, rec.rdata.port);
    SrvIntsWrite(t, rec.rdata.priority, rec.rdata.weight, rec.rdata.port);
    NameUnread(ints.w, [rec.rdata.host, LOCAL], mem, plen);
  }

  /** Nor is anything read from that record on, whatever follows. */
  lemma {:induction false} RecordsUnread(w: Writer, recs: seq<Record>, more: seq<Record>, mem: seq<byte>, plen: nat,
                                         end: nat, clear: bool)
    requires UnambiguousPacket(w) && ValidRecords(recs) && (forall r :: r in recs ==> Sound(r) && UnambiguousRecord(r))
    requires RecordsFit(w, recs) && RecordsStandApart(w, recs, false) && !RecordsStandApart(w, recs, true)
    requires Copies(AppendRecords(w, recs).w, mem, plen) && ValidRecords(more)
    ensures plen < |mem| && !RecordsRead(mem, plen, w.index, end, recs + more, clear)
    decreases |recs|
  {
    hide UnambiguousPacket, Sound, Fits, AppendRecord, RecordStandsApart, Copies, ParseRecord, Reads, UnambiguousRecord,
      SettledRecord, BodyAppended;
    PacketIsValid(w);
    var r, e := recs[0], AppendRecord(w, recs[0]).w;
    assert (recs + more)[0] == r && (recs + more)[1..] == recs[1..] + more;
    RecordAdvancesTo(w, r);
    RecordsCopied(e, recs[1..], mem, plen);
    if RecordStandsApart(w, r, true) {
      RecordKeeps(w, r);
      OneRecordReads(w, r, mem, plen, true);
      RecordsUnread(e, recs[1..], more, mem, plen, end, clear);
    } else {
      CopiesBound(e, mem, plen);
      var at := ParseRecord(mem, plen, w.index);
      if at.Some? {
        RecordUnread(w, r, mem, plen, at.value.next, clear);
      }
    }
  }

  lemma RecordAdvancesTo(w: Writer, rec: Record)
    requires w.Valid() && HEAD <= w.index && rec.Valid() && Sound(rec)
    ensures HEAD <= AppendRecord(w, rec).w.index
  {
    hide AppendRecord, Sound;
    SoundRecordLabels(rec);
    RecordAppends(w, rec);
  }

  // ---------------------------------------------------------------- messages

  /** Where the questions end does not depend on what is expected of them. */
  lemma {:induction false} QuestionsEnd(mem: seq<byte>, plen: nat, at: nat, end: nat, end2: nat, qs: seq<Question>,
                                        clear: bool, clear2: bool)
    requires plen < |mem| && QuestionsRead(mem, plen, at, end, qs, clear)
    requires QuestionsRead(mem, plen, at, end2, qs, clear2)
    ensures end == end2
    decreases |qs|
  {
    hide QuestionReads, ParseFqdn;
    if qs != [] {
      QuestionsEnd(mem, plen, ParseFqdn(mem, plen, at).next + 4, end, end2, qs[1..], clear, clear2);
    }
  }

  /** After some records, the rest is read from where they end. */
  lemma {:induction false} RecordsRest(mem: seq<byte>, plen: nat, at: nat, mid: nat, end: nat, a: seq<Record>,
                                       b: seq<Record>, clear: bool, clear2: bool)
    requires plen < |mem| && ValidRecords(a) && ValidRecords(b)
    requires RecordsRead(mem, plen, at, mid, a, clear) && RecordsRead(mem, plen, at, end, a + b, clear2)
    ensures RecordsRead(mem, plen, mid, end, b, clear2)
    decreases |a|
  {
    hide Reads, ParseRecord;
    if a == [] {
      assert a + b == b;
    } else {
      assert (a + b)[0] == a[0] && (a + b)[1..] == a[1..] + b;
      RecordsRest(mem, plen, ParseRecord(mem, plen, at).value.next, mid, end, a[1..], b, clear, clear2);
    }
  }

  /** What one section of records of an unambiguous message comes to. */
  lemma SectionArrives(w: Writer, recs: seq<Record>, at: nat, more: seq<Record>, mem: seq<byte>, plen: nat, end: nat,
                       clear: bool)
    requires UnambiguousPacket(w) && ValidRecords(recs) && (forall r :: r in recs ==> Sound(r) && UnambiguousRecord(r))
    requires RecordsFit(w, recs) && at + 2 <= HEAD && ValidRecords(more) && (at + 2 < HEAD ==> HeaderBlank(w, at + 2))
    requires RecordsStandApart(w, recs, false) && Copies(Section(w, recs, at), mem, plen)
    requires plen < |mem| && RecordsRead(mem, plen, w.index, end, recs + more, clear)
    ensures RecordsStandApart(w, recs, true) && RecordsRead(mem, plen, Section(w, recs, at).index, end, more, clear)
    ensures at + 2 < HEAD ==> UnambiguousPacket(Section(w, recs, at)) && HeaderBlank(Section(w, recs, at), at + 2)
  {
    hide UnambiguousPacket, Sound, UnambiguousRecord, RecordsFit, RecordsStandApart, RecordsRead, AppendRecords,
      SettledRecords,
      Copies, BodyAppended, SetHeader, ValidRecords, HeaderBlank;
    PacketIsValid(w);
    var t := AppendRecords(w, recs);
    HeaderOnly(t.w, at, t.count % 256, mem, plen);
    if !RecordsStandApart(w, recs, true) {
      RecordsUnread(w, recs, more, mem, plen, end, clear);
    }
    RecordsKeep(w, recs);
    RecordsRoundTrip(w, recs, mem, plen, true);
    RecordsRest(mem, plen, w.index, t.w.index, end, recs, more, true, clear);
    if at + 2 < HEAD {
      SectionKeeps(w, recs, at);
    }
  }

  /** The question section. */
  lemma QuestionSectionArrives(start: seq<byte>, m: Message, mem: seq<byte>, plen: nat, end: nat, clear: bool)
    requires |start| == SIZE + SLACK && SoundMessage(m) && UnambiguousMessage(m)
    requires QuestionsFit(Start(start, m), m.questions) && QuestionsStandApart(Start(start, m), m.questions, false)
    requires Copies(AfterQuestions(start, m), mem, plen)
    requires plen < |mem| && QuestionsRead(mem, plen, HEAD, end, m.questions, clear)
    ensures QuestionsStandApart(Start(start, m), m.questions, true) && end == AfterQuestions(start, m).index
    ensures UnambiguousPacket(AfterQuestions(start, m)) && HeaderBlank(AfterQuestions(start, m), 6)
  {
    hide UnambiguousPacket, SoundQuestion, UnambiguousQuestion, QuestionsFit, QuestionsStandApart, QuestionsRead,
      AppendQuestions, SettledQuestions, Copies, BodyAppended, SetHeader, HeaderBlank, Start, UnambiguousHeader, Sound,
      UnambiguousRecord;
    var w := Start(start, m);
    var q := AppendQuestions(w, m.questions);
    HeaderOnly(q.w, 4, q.count % 256, mem, plen);
    StartIsUnambiguous(start, m);
    if !QuestionsStandApart(w, m.questions, true) {
      QuestionsUnread(w, m.questions, mem, plen, end, clear);
    }
    QuestionSectionKeeps(start, m);
    QuestionsRoundTrip(w, m.questions, mem, plen, true);
    QuestionsEnd(mem, plen, HEAD, end, q.w.index, m.questions, clear, true);
  }

  /** A message that arrives had no name matched against itself. */
  lemma ArrivedStoodApart(start: seq<byte>, m: Message, mem: seq<byte>, clear: bool)
    requires |start| == SIZE + SLACK && SoundMessage(m) && UnambiguousMessage(m) && MessageFits(start, m)
    requires MessageStandsApart(start, m, false)
    requires var e := Dispatch(start, m); HEAD <= e.index < |mem| && mem[..e.index] == e.mem[..e.index]
    requires Carries(mem, Dispatch(start, m).index, m, clear)
    ensures MessageStandsApart(start, m, true)
  {
    hide UnambiguousPacket, Sound, UnambiguousRecord, SoundQuestion, UnambiguousQuestion, Section, AfterQuestions,
      QuestionsFit,
      RecordsFit, QuestionsStandApart, RecordsStandApart, QuestionsRead, RecordsRead, Start, UnambiguousHeader, Copies,
      U16At;
    var a := AfterQuestions(start, m);
    var b := Section(a, m.answers, 6);
    var c := Section(b, m.servers, 8);
    var d := Section(c, m.additional, 10);
    var plen := d.index;
    SectionsCopied(start, m, mem);
    var at: nat :| && QuestionsRead(mem, plen, HEAD, at, m.questions, clear)
                   && RecordsRead(mem, plen, at, plen, m.answers + m.servers + m.additional, clear);
    QuestionSectionArrives(start, m, mem, plen, at, clear);
    assert m.answers + m.servers + m.additional == m.answers + (m.servers + m.additional);
    SectionArrives(a, m.answers, 6, m.servers + m.additional, mem, plen, plen, clear);
    SectionArrives(b, m.servers, 8, m.additional, mem, plen, plen, clear);
    assert m.additional == m.additional + [];
    SectionArrives(c, m.additional, 10, [], mem, plen, plen, clear);
  }

  /**
   * When a message arrives, exactly: a message of ordinary names with nothing else in it that looks like a label,
   * whose names the bytes around them do not complete, is read back if and only if no name was matched against itself.
   */
  lemma ArrivesIffAlone(start: seq<byte>, m: Message, mem: seq<byte>)
    requires |start| == SIZE + SLACK && SoundMessage(m) && UnambiguousMessage(m) && MessageFits(start, m)
    requires MessageStandsApart(start, m, false)
    requires var e := Dispatch(start, m); e.index < |mem| && mem[..e.index] == e.mem[..e.index]
    ensures HEAD <= Dispatch(start, m).index <= SIZE
    ensures var n := Dispatch(start, m).index;
            && (Carries(mem, n, m, true) <==> MessageStandsApart(start, m, true))
            && (Carries(mem, n, m, false) ==> MessageStandsApart(start, m, true))
  {
    hide Dispatch, MessageFits, SettledMessage, Carries, UnambiguousMessage, SoundMessage, MessageStandsApart;
    SoundIsValid(m);
    DispatchIndex(start, m);
    if MessageStandsApart(start, m, true) {
      UnambiguousMessageIsSettled(start, m);
      DispatchRoundTrip(start, m, mem, true);
    } else if Carries(mem, Dispatch(start, m).index, m, true) {
      ArrivedStoodApart(start, m, mem, true);
    } else if Carries(mem, Dispatch(start, m).index, m, false) {
      ArrivedStoodApart(start, m, mem, false);
    }
  }

  lemma DispatchIndex(start: seq<byte>, m: Message)
    requires |start| == SIZE + SLACK && SoundMessage(m)
    ensures HEAD <= Dispatch(start, m).index <= SIZE
  {
    hide Dispatch, SoundQuestion, LabelledRecord, Sound;
    SoundLabels(m.questions);
    SoundIsLabelled(m.answers);
    SoundIsLabelled(m.servers);
    SoundIsLabelled(m.additional);
    DispatchStaysInside(start, m);
  }
}
