/** A packet built by `_mdns_dispatch_tx_packet` is read back as the message it was built from. */
module PacketRoundTrip {
  import opened Bytes
  import opened NameReader
  import opened NameRoundTrip
  import opened NameWriter
  import opened Packet
  import opened Records
  import opened RecordReader

  // ---------------------------------------------------------------- reading a packet

  /** One round of the parser's question loop: name, type, class, and where the next question starts. */
  predicate QuestionReads(mem: seq<byte>, plen: nat, at: nat, next: nat, q: Question, clear: bool)
    requires plen < |mem|
  {
    var p := ParseFqdn(mem, plen, at);
    && p.Good?
    && p.next + 3 < plen && next == p.next + 4
    && 2 <= |q.labels| <= 4 && Delivers(p.name, q.labels, clear)
    && U16At(mem, p.next) == q.qtype
    && (U16At(mem, p.next + 2) >= 0x8000 <==> q.unicast)
    && U16At(mem, p.next + 2) % 0x8000 == CLASS_IN
  }

  /** The questions at `at` are `qs`, and they end at `end`. */
  predicate QuestionsRead(mem: seq<byte>, plen: nat, at: nat, end: nat, qs: seq<Question>, clear: bool)
    requires plen < |mem|
    decreases |qs|
  {
    if qs == [] then at == end
    else
      var p := ParseFqdn(mem, plen, at);
      && p.Good?
      && QuestionReads(mem, plen, at, p.next + 4, qs[0], clear)
      && QuestionsRead(mem, plen, p.next + 4, end, qs[1..], clear)
  }

  /** The parser's walk from `at` meets exactly the records `recs`, and then stands at `end`. */
  predicate RecordsRead(mem: seq<byte>, plen: nat, at: nat, end: nat, recs: seq<Record>, clear: bool)
    requires plen < |mem| && ValidRecords(recs)
    decreases |recs|
  {
    if recs == [] then at == end
    else
      var r := ParseRecord(mem, plen, at);
      && r.Some?
      && Reads(mem, plen, at, r.value.next, recs[0], clear)
      && RecordsRead(mem, plen, r.value.next, end, recs[1..], clear)
  }

  // ---------------------------------------------------------------- clean messages

  predicate SoundQuestion(q: Question) {
    q.qtype < 0x1_0000 && RecordName(q.labels)
  }

  /** There is room, and the matches made lie inside the packet body before the question. */
  predicate CleanQuestion(w: Writer, q: Question, clear: bool)
    requires w.Valid()
  {
    SoundQuestion(q) && QuestionFits(w, q) && SettledRun(w, q.labels, HEAD, w.index, clear)
  }

  predicate SettledQuestions(w: Writer, qs: seq<Question>, clear: bool)
    requires w.Valid()
    decreases |qs|
  {
    || qs == []
    || (&& SettledRun(w, qs[0].labels, HEAD, w.index, clear)
        && SettledQuestions(AppendQuestion(w, qs[0]).w, qs[1..], clear))
  }

  predicate SettledRecords(w: Writer, recs: seq<Record>, clear: bool)
    requires w.Valid() && ValidRecords(recs)
    decreases |recs|
  {
    || recs == []
    || (SettledRecord(w, recs[0], HEAD, clear) && SettledRecords(AppendRecord(w, recs[0]).w, recs[1..], clear))
  }

  predicate CleanQuestions(w: Writer, qs: seq<Question>, clear: bool)
    requires w.Valid()
  {
    (forall q :: q in qs ==> SoundQuestion(q)) && QuestionsFit(w, qs) && SettledQuestions(w, qs, clear)
  }

  predicate CleanRecords(w: Writer, recs: seq<Record>, clear: bool)
    requires w.Valid() && ValidRecords(recs)
  {
    (forall r :: r in recs ==> Sound(r)) && RecordsFit(w, recs) && SettledRecords(w, recs, clear)
  }

  lemma CleanQuestionsCons(w: Writer, qs: seq<Question>, clear: bool)
    requires w.Valid() && CleanQuestions(w, qs, clear) && qs != []
    ensures CleanQuestion(w, qs[0], clear) && CleanQuestions(AppendQuestion(w, qs[0]).w, qs[1..], clear)
    ensures forall q :: q in qs[1..] ==> SoundQuestion(q)
  {
    hide SettledRun, AppendQuestion, QuestionFits;
  }

  lemma CleanRecordsCons(w: Writer, recs: seq<Record>, clear: bool)
    requires w.Valid() && ValidRecords(recs) && CleanRecords(w, recs, clear) && recs != []
    ensures Clean(w, recs[0], HEAD, clear) && CleanRecords(AppendRecord(w, recs[0]).w, recs[1..], clear)
    ensures forall r :: r in recs[1..] ==> Sound(r)
  {
    hide SettledRecord, AppendRecord, Fits;
  }

  predicate SoundMessage(m: Message) {
    && ValidMessage(m) && (forall q :: q in m.questions ==> SoundQuestion(q))
    && (forall r :: r in m.answers ==> Sound(r)) && (forall r :: r in m.servers ==> Sound(r))
    && (forall r :: r in m.additional ==> Sound(r))
  }

  /** Every match made while building the packet is settled in its body. */
  predicate SettledMessage(mem: seq<byte>, m: Message, clear: bool)
    requires |mem| == SIZE + SLACK && ValidMessage(m)
  {
    var a := AfterQuestions(mem, m);
    var b := Section(a, m.answers, 6);
    var c := Section(b, m.servers, 8);
    && SettledQuestions(Start(mem, m), m.questions, clear)
    && SettledRecords(a, m.answers, clear) && SettledRecords(b, m.servers, clear)
    && SettledRecords(c, m.additional, clear)
  }

  predicate CleanMessage(mem: seq<byte>, m: Message, clear: bool)
    requires |mem| == SIZE + SLACK && ValidMessage(m)
  {
    SoundMessage(m) && MessageFits(mem, m) && SettledMessage(mem, m, clear)
  }

  /** `mem` is a copy of the packet body up to `end`. */
  predicate Copies(e: Writer, mem: seq<byte>, plen: nat) {
    e.index <= plen < |mem| && SameOn(e.mem, mem, Zone(HEAD, e.index, 0, 0))
  }

  lemma CopiesEarlier(w: Writer, e: Writer, mem: seq<byte>, plen: nat)
    requires BodyAppended(w, e) && Copies(e, mem, plen)
    ensures Copies(w, mem, plen)
  {
  }

  lemma AppendedBody(w: Writer, e: Writer)
    requires Appended(w, e) && HEAD <= w.index
    ensures BodyAppended(w, e)
  {
  }

  lemma QuestionRoundTrip(w: Writer, q: Question, mem: seq<byte>, plen: nat, clear: bool)
    requires w.Valid() && HEAD <= w.index && CleanQuestion(w, q, clear) && Copies(AppendQuestion(w, q).w, mem, plen)
    ensures BodyAppended(w, AppendQuestion(w, q).w)
    ensures var p := ParseFqdn(mem, plen, w.index);
            && p.Good? && p.next + 4 == AppendQuestion(w, q).w.index
            && QuestionReads(mem, plen, w.index, p.next + 4, q, clear)
  {
    hide AppendFqdn, ParseFqdn, Delivers, SettledRun, NameShape, U16Bytes, Splice, AppendName, U16At, Needed, Octets;
    CleanQuestionWhole(w, q, clear);
    ShapeLabels(q.labels);
    QuestionAppends(w, q);
    NameAccounts(w, q.labels);
    var n := AppendName(w, q.labels);
    var e := AppendQuestion(w, q).w;
    WrittenNameDelivered(w, q.labels, HEAD, w.index, mem, plen, clear);
    TwoU16s(n.w, q.qtype, QuestionClass(q.unicast), mem);
  }

  lemma TwoU16s(w: Writer, a: nat, b: nat, mem: seq<byte>)
    requires w.Valid() && w.index + 3 < SIZE && w.index + 4 <= |mem| && a < 0x1_0000 && b < 0x1_0000
    requires var e := AppendU16(AppendU16(w, a).w, b).w; forall i :: w.index <= i < w.index + 4 ==> mem[i] == e.mem[i]
    ensures U16At(mem, w.index) == a && U16At(mem, w.index + 2) == b
  {
    var f := AppendU16(w, a).w;
    var e := AppendU16(f, b).w;
    assert f.mem[w.index..w.index + 2] == U16Bytes(a) && e.mem[f.index..f.index + 2] == U16Bytes(b);
    assert mem[w.index] == f.mem[w.index..w.index + 2][0] && mem[w.index + 1] == f.mem[w.index..w.index + 2][1];
    assert mem[w.index + 2] == e.mem[f.index..f.index + 2][0] && mem[w.index + 3] == e.mem[f.index..f.index + 2][1];
  }

  lemma CleanQuestionWhole(w: Writer, q: Question, clear: bool)
    requires w.Valid() && CleanQuestion(w, q, clear)
    ensures AppendQuestion(w, q).whole
  {
    hide AppendQuestion, QuestionFits, Octets;
    SoundIsCompactQuestion(q);
    QuestionWholeIffFits(w, q);
  }

  lemma SoundIsCompactQuestion(q: Question)
    requires SoundQuestion(q)
    ensures CompactQuestion(q)
  {
    hide Octets;
    ShapeLabels(q.labels);
    RecordNameShort(q.labels);
  }

  lemma {:induction false} QuestionsRoundTrip(w: Writer, qs: seq<Question>, mem: seq<byte>, plen: nat, clear: bool)
    requires w.Valid() && HEAD <= w.index && CleanQuestions(w, qs, clear) && Copies(AppendQuestions(w, qs).w, mem, plen)
    ensures BodyAppended(w, AppendQuestions(w, qs).w)
    ensures QuestionsRead(mem, plen, w.index, AppendQuestions(w, qs).w.index, qs, clear)
    ensures AppendQuestions(w, qs).count == |qs|
    ensures w.index + 6 * |qs| <= AppendQuestions(w, qs).w.index
    decreases |qs|
  {
    hide AppendQuestion, QuestionReads, ParseFqdn, Copies, BodyAppended, CleanQuestion, CleanQuestions;
    if qs == [] {
      AppendedRefl(w);
      AppendedBody(w, w);
    } else {
      var e := AppendQuestion(w, qs[0]).w;
      CleanQuestionsCons(w, qs, clear);
      QuestionAdvances(w, qs[0], clear);
      BodyIndex(w, e);
      QuestionsCopied(e, qs[1..], mem, plen);
      QuestionRoundTrip(w, qs[0], mem, plen, clear);
      QuestionsRoundTrip(e, qs[1..], mem, plen, clear);
      BodyTrans(w, e, AppendQuestions(e, qs[1..]).w);
    }
  }

  /** A copy of the packet after some questions is a copy of it before them. */
  lemma QuestionsCopied(w: Writer, qs: seq<Question>, mem: seq<byte>, plen: nat)
    requires w.Valid() && HEAD <= w.index && (forall q :: q in qs ==> SoundQuestion(q))
    requires Copies(AppendQuestions(w, qs).w, mem, plen)
    ensures Copies(w, mem, plen)
  {
    hide AppendQuestions, Copies, BodyAppended, Appended, SoundQuestion;
    SoundLabels(qs);
    QuestionsAppend(w, qs);
    AppendedBody(w, AppendQuestions(w, qs).w);
    CopiesEarlier(w, AppendQuestions(w, qs).w, mem, plen);
  }

  lemma SoundLabels(qs: seq<Question>)
    requires forall q :: q in qs ==> SoundQuestion(q)
    ensures forall q :: q in qs ==> AllLabels(q.labels)
  {
    forall q | q in qs
      ensures AllLabels(q.labels)
    {
      assert SoundQuestion(q);
      ShapeLabels(q.labels);
    }
  }

  lemma QuestionAdvances(w: Writer, q: Question, clear: bool)
    requires w.Valid() && HEAD <= w.index && CleanQuestion(w, q, clear)
    ensures w.index + 6 <= AppendQuestion(w, q).w.index && AppendQuestion(w, q).ret > 0
    ensures BodyAppended(w, AppendQuestion(w, q).w)
  {
    hide AppendFqdn, SettledRun, AppendQuestion, Octets, Needed;
    ShapeLabels(q.labels);
    SoundIsCompactQuestion(q);
    QuestionWholeIffFits(w, q);
    QuestionAppends(w, q);
    NameNeedsTwo(w, q.labels);
  }

  lemma NameNeedsTwo(w: Writer, labels: seq<Text>)
    requires w.Valid() && labels != [] && AllLabels(labels)
    ensures Needed(w, labels) >= 2
  {
    hide FirstMatch, AppendString;
    assert IsLabel(labels[0]);
  }

  // ---------------------------------------------------------------- records and whole packets

  lemma SoundIsLabelled(recs: seq<Record>)
    requires ValidRecords(recs) && forall r :: r in recs ==> Sound(r)
    ensures forall r :: r in recs ==> LabelledRecord(r)
  {
    hide Sound, Compact, LabelledRecord;
    forall r | r in recs
      ensures LabelledRecord(r)
    {
      SoundIsCompact(r);
      CompactIsLabelled(r);
    }
  }

  lemma CompactIsLabelled(rec: Record)
    requires rec.Valid() && Compact(rec)
    ensures LabelledRecord(rec)
  {
  }

  lemma RecordAdvances(w: Writer, rec: Record, clear: bool)
    requires w.Valid() && HEAD <= w.index && rec.Valid() && Clean(w, rec, HEAD, clear)
    ensures w.index + 10 <= AppendRecord(w, rec).w.index && AppendRecord(w, rec).ret > 0
    ensures BodyAppended(w, AppendRecord(w, rec).w)
  {
    hide AppendRecord, SettledRecord, AppendName, AfterType, AppendRdata, Splice, TypeBytes, U16Bytes, Fits;
    SoundAppends(w, rec);
    SoundRecordLabels(rec);
    RecordSteps(w, rec);
    RecordAppends(w, rec);
    AppendedBody(w, AppendRecord(w, rec).w);
  }

  lemma CopiesKeeps(w: Writer, rec: Record, mem: seq<byte>, plen: nat)
    requires w.Valid() && HEAD <= w.index && rec.Valid() && Copies(AppendRecord(w, rec).w, mem, plen)
    ensures Keeps(w, rec, HEAD, mem, plen)
  {
    hide AppendRecord;
  }

  lemma OneRecordReads(w: Writer, rec: Record, mem: seq<byte>, plen: nat, clear: bool)
    requires w.Valid() && HEAD <= w.index && rec.Valid() && Clean(w, rec, HEAD, clear)
    requires Copies(AppendRecord(w, rec).w, mem, plen)
    ensures plen < |mem|
    ensures var r := ParseRecord(mem, plen, w.index);
            && r.Some? && r.value.next == AppendRecord(w, rec).w.index
            && Reads(mem, plen, w.index, r.value.next, rec, clear)
  {
    hide AppendRecord, Clean, ParseRecord, Delivers, RdataReads, Keeps;
    CopiesKeeps(w, rec, mem, plen);
    RecordRoundTrip(w, rec, HEAD, mem, plen, clear);
  }

  /** A section written without failure is walked record by record, and every record counts. */
  lemma {:induction false} RecordsRoundTrip(w: Writer, recs: seq<Record>, mem: seq<byte>, plen: nat, clear: bool)
    requires w.Valid() && HEAD <= w.index && ValidRecords(recs) && CleanRecords(w, recs, clear)
    requires Copies(AppendRecords(w, recs).w, mem, plen)
    ensures BodyAppended(w, AppendRecords(w, recs).w)
    ensures plen < |mem| && RecordsRead(mem, plen, w.index, AppendRecords(w, recs).w.index, recs, clear)
    ensures AppendRecords(w, recs).count == |recs|
    ensures w.index + 10 * |recs| <= AppendRecords(w, recs).w.index
    decreases |recs|
  {
    hide AppendRecord, Clean, Reads, ParseRecord, Copies, BodyAppended, CleanRecords;
    if recs == [] {
      AppendedRefl(w);
      AppendedBody(w, w);
      CopiesBound(w, mem, plen);
    } else {
      var e := AppendRecord(w, recs[0]).w;
      CleanRecordsCons(w, recs, clear);
      RecordAdvances(w, recs[0], clear);
      BodyIndex(w, e);
      RecordsCopied(e, recs[1..], mem, plen);
      OneRecordReads(w, recs[0], mem, plen, clear);
      RecordsRoundTrip(e, recs[1..], mem, plen, clear);
      BodyTrans(w, e, AppendRecords(e, recs[1..]).w);
    }
  }

  lemma RecordsCopied(w: Writer, recs: seq<Record>, mem: seq<byte>, plen: nat)
    requires w.Valid() && HEAD <= w.index && ValidRecords(recs) && (forall r :: r in recs ==> Sound(r))
    requires Copies(AppendRecords(w, recs).w, mem, plen)
    ensures Copies(w, mem, plen)
  {
    hide AppendRecords, Copies, BodyAppended, Appended, LabelledRecord, Sound;
    SoundIsLabelled(recs);
    RecordsAppend(w, recs);
    AppendedBody(w, AppendRecords(w, recs).w);
    CopiesEarlier(w, AppendRecords(w, recs).w, mem, plen);
  }

  lemma CopiesBound(w: Writer, mem: seq<byte>, plen: nat)
    requires Copies(w, mem, plen)
    ensures plen < |mem|
  {
  }

  lemma BodyIndex(w: Writer, e: Writer)
    requires BodyAppended(w, e)
    ensures HEAD <= w.index <= e.index <= SIZE
  {
  }

  /** Two stretches of records, one after the other. */
  lemma {:induction false} RecordsReadJoin(mem: seq<byte>, plen: nat, at: nat, mid: nat, end: nat,
                                           a: seq<Record>, b: seq<Record>, clear: bool)
    requires plen < |mem| && ValidRecords(a) && ValidRecords(b)
    requires RecordsRead(mem, plen, at, mid, a, clear) && RecordsRead(mem, plen, mid, end, b, clear)
    ensures RecordsRead(mem, plen, at, end, a + b, clear)
    decreases |a|
  {
    hide Reads, ParseRecord;
    if a == [] {
      assert a + b == b;
    } else {
      assert (a + b)[1..] == a[1..] + b;
      RecordsReadJoin(mem, plen, ParseRecord(mem, plen, at).value.next, mid, end, a[1..], b, clear);
    }
  }

  /** The counter of a section, and the rest of the header. */
  lemma SectionHeader(w: Writer, recs: seq<Record>, at: nat)
    requires w.Valid() && HEAD <= w.index && ValidRecords(recs) && at + 2 <= HEAD
    requires Appended(w, AppendRecords(w, recs).w) && AppendRecords(w, recs).count == |recs|
    requires w.index + 10 * |recs| <= AppendRecords(w, recs).w.index
    ensures |recs| < 256 && U16At(Section(w, recs, at).mem, at) == |recs|
    ensures forall i :: 0 <= i < HEAD && i != at && i != at + 1 ==> Section(w, recs, at).mem[i] == w.mem[i]
    ensures BodyAppended(w, Section(w, recs, at))
  {
    hide AppendRecords, U16At, U16Bytes, Splice, ValidRecords;
    var t := AppendRecords(w, recs);
    assert 10 * |recs| < 2560;
    U16Stored(t.w.mem, at, t.count % 256);
  }

  /** A section of records, header counter included. */
  lemma SectionRoundTrip(w: Writer, recs: seq<Record>, at: nat, mem: seq<byte>, plen: nat, clear: bool)
    requires w.Valid() && HEAD <= w.index && ValidRecords(recs) && CleanRecords(w, recs, clear) && at + 2 <= HEAD
    requires Copies(Section(w, recs, at), mem, plen)
    ensures BodyAppended(w, Section(w, recs, at))
    ensures plen < |mem| && RecordsRead(mem, plen, w.index, Section(w, recs, at).index, recs, clear)
    ensures |recs| < 256 && U16At(Section(w, recs, at).mem, at) == |recs|
    ensures forall i :: 0 <= i < HEAD && i != at && i != at + 1 ==> Section(w, recs, at).mem[i] == w.mem[i]
  {
    hide RecordsFit, SettledRecords, Sound, RecordsRead, AppendRecords, SetHeader, Appended, BodyAppended, Copies,
      U16At,
      ValidRecords, LabelledRecord;
    var t := AppendRecords(w, recs);
    HeaderOnly(t.w, at, t.count % 256, mem, plen);
    RecordsRoundTrip(w, recs, mem, plen, clear);
    SoundIsLabelled(recs);
    RecordsAppend(w, recs);
    SectionHeader(w, recs, at);
  }

  lemma HeaderOnly(w: Writer, at: nat, v: nat, mem: seq<byte>, plen: nat)
    requires w.Valid() && at + 2 <= HEAD && Copies(SetHeader(w, at, v), mem, plen)
    ensures Copies(w, mem, plen)
  {
  }

  lemma QuestionSectionRoundTrip(start: seq<byte>, m: Message, mem: seq<byte>, plen: nat, clear: bool)
    requires |start| == SIZE + SLACK && ValidMessage(m) && CleanQuestions(Start(start, m), m.questions, clear)
    requires Copies(AfterQuestions(start, m), mem, plen)
    ensures BodyAppended(Start(start, m), AfterQuestions(start, m))
    ensures QuestionsRead(mem, plen, HEAD, AfterQuestions(start, m).index, m.questions, clear)
    ensures var a := AfterQuestions(start, m).mem;
            U16At(a, 0) == m.id && U16At(a, 2) == m.flags && |m.questions| < 256 && U16At(a, 4) == |m.questions|
  {
    hide CleanQuestions, QuestionsRead, U16Bytes, U16At, Start, BodyAppended, Splice;
    var w := Start(start, m);
    var q := AppendQuestions(w, m.questions);
    HeaderOnly(q.w, 4, q.count % 256, mem, plen);
    CopiesBound(q.w, mem, plen);
    QuestionsRoundTrip(w, m.questions, mem, plen, clear);
    QuestionSectionHeader(start, m, clear);
  }

  /** The id and flags stay where `Start` put them, and the question counter joins them. */
  lemma QuestionSectionHeader(start: seq<byte>, m: Message, clear: bool)
    requires |start| == SIZE + SLACK && ValidMessage(m) && CleanQuestions(Start(start, m), m.questions, clear)
    requires var q := AppendQuestions(Start(start, m), m.questions);
             q.count == |m.questions| && q.w.index <= SIZE && HEAD + 6 * |m.questions| <= q.w.index
    ensures BodyAppended(Start(start, m), AfterQuestions(start, m))
    ensures var a := AfterQuestions(start, m).mem;
            U16At(a, 0) == m.id && U16At(a, 2) == m.flags && |m.questions| < 256 && U16At(a, 4) == |m.questions|
  {
    hide QuestionsFit, SettledQuestions, U16Bytes, U16At, AppendQuestions;
    var w := Start(start, m);
    var q := AppendQuestions(w, m.questions);
    SoundLabels(m.questions);
    QuestionsAppend(w, m.questions);
    StartHeader(start, m);
    U16Stored(q.w.mem, 4, q.count % 256);
    U16Same(w.mem, AfterQuestions(start, m).mem, 0);
    U16Same(w.mem, AfterQuestions(start, m).mem, 2);
  }

  lemma StartHeader(start: seq<byte>, m: Message)
    requires |start| == SIZE + SLACK && m.id < 0x1_0000 && m.flags < 0x1_0000
    ensures U16At(Start(start, m).mem, 0) == m.id && U16At(Start(start, m).mem, 2) == m.flags
  {
    hide U16Bytes, U16At;
    var cleared := Splice(start, 0, [0, 0, 0, 0, 0, 0, 0, 0, 0, 0, 0, 0]);
    var f := SetHeader(Writer(cleared, HEAD), 2, m.flags);
    U16Stored(cleared, 2, m.flags);
    U16Stored(f.mem, 0, m.id);
    U16Same(f.mem, Start(start, m).mem, 2);
  }

  lemma U16Same(a: seq<byte>, b: seq<byte>, at: nat)
    requires at + 1 < |a| && at + 1 < |b| && a[at] == b[at] && a[at + 1] == b[at + 1]
    ensures U16At(a, at) == U16At(b, at)
  {
  }

  /** What a receiver finds in `plen` bytes that carry `m`: the header, the questions, and every record in order. */
  ghost predicate Carries(mem: seq<byte>, plen: nat, m: Message, clear: bool)
    requires plen < |mem| && HEAD <= plen && ValidMessage(m)
  {
    && U16At(mem, 0) == m.id && U16At(mem, 2) == m.flags
    && U16At(mem, 4) == |m.questions| && U16At(mem, 6) == |m.answers|
    && U16At(mem, 8) == |m.servers| && U16At(mem, 10) == |m.additional|
    && exists recordsAt: nat :: && QuestionsRead(mem, plen, HEAD, recordsAt, m.questions, clear)
                                && RecordsRead(mem, plen, recordsAt, plen, m.answers + m.servers + m.additional, clear)
  }

  /**
   * Packet round trip: a packet built without failure carries exactly the message it was built from.  The receiver
   * has the sent bytes and nothing else in common with the sender.
   */
  lemma DispatchRoundTrip(start: seq<byte>, m: Message, mem: seq<byte>, clear: bool)
    requires |start| == SIZE + SLACK && ValidMessage(m) && CleanMessage(start, m, clear)
    requires var e := Dispatch(start, m); e.index < |mem| && mem[..e.index] == e.mem[..e.index]
    ensures HEAD <= Dispatch(start, m).index <= SIZE && Carries(mem, Dispatch(start, m).index, m, clear)
  {
    hide Section, AfterQuestions, CleanQuestions, CleanRecords, QuestionsRead, RecordsRead, U16At, BodyAppended, Copies,
      Start, ValidRecords, CleanMessage, SoundMessage;
    var a := AfterQuestions(start, m);
    var b := Section(a, m.answers, 6);
    var c := Section(b, m.servers, 8);
    var d := Section(c, m.additional, 10);
    var plen := d.index;
    CleanSections(start, m, clear);
    SectionsCopied(start, m, mem);
    QuestionSectionRoundTrip(start, m, mem, plen, clear);
    BodyIndex(Start(start, m), a);
    SectionRoundTrip(a, m.answers, 6, mem, plen, clear);
    BodyIndex(a, b);
    SectionRoundTrip(b, m.servers, 8, mem, plen, clear);
    BodyIndex(b, c);
    SectionRoundTrip(c, m.additional, 10, mem, plen, clear);
    BodyIndex(c, d);
    JoinThree(mem, plen, a.index, b.index, c.index, m, clear);
    SentHeader(d, mem);
    U16Same(a.mem, d.mem, 0);
    U16Same(a.mem, d.mem, 2);
    U16Same(a.mem, d.mem, 4);
    U16Same(b.mem, d.mem, 6);
    U16Same(c.mem, d.mem, 8);
  }

  lemma CleanSections(start: seq<byte>, m: Message, clear: bool)
    requires |start| == SIZE + SLACK && ValidMessage(m) && CleanMessage(start, m, clear)
    ensures SoundMessage(m)
    ensures CleanQuestions(Start(start, m), m.questions, clear)
    ensures var a := AfterQuestions(start, m);
            var b := Section(a, m.answers, 6);
            var c := Section(b, m.servers, 8);
            && CleanRecords(a, m.answers, clear) && CleanRecords(b, m.servers, clear)
            && CleanRecords(c, m.additional, clear)
  {
    hide Section, AfterQuestions, Start, QuestionsFit, RecordsFit, SettledQuestions, SettledRecords;
  }

  /** So a message whose uncompressed form fits the buffer always arrives, if the matches made are settled. */
  lemma ShortMessageArrives(start: seq<byte>, m: Message, mem: seq<byte>, clear: bool)
    requires |start| == SIZE + SLACK && SoundMessage(m) && SettledMessage(start, m, clear) && MessageOctets(m) <= SIZE
    requires var e := Dispatch(start, m); e.index < |mem| && mem[..e.index] == e.mem[..e.index]
    ensures HEAD <= Dispatch(start, m).index <= MessageOctets(m) && Carries(mem, Dispatch(start, m).index, m, clear)
  {
    hide Dispatch, MessageFits, SettledMessage, MessageOctets, Carries;
    SoundIsCompactMessage(m);
    ShortMessageFits(start, m);
    DispatchRoundTrip(start, m, mem, clear);
  }

  lemma SoundIsCompactMessage(m: Message)
    requires SoundMessage(m)
    ensures CompactMessage(m)
  {
    hide Sound, SoundQuestion, Compact, CompactQuestion;
    forall q | q in m.questions
      ensures CompactQuestion(q)
    {
      SoundIsCompactQuestion(q);
    }
    forall r | r in m.answers || r in m.servers || r in m.additional
      ensures Compact(r)
    {
      SoundIsCompact(r);
    }
  }

  lemma SentHeader(d: Writer, mem: seq<byte>)
    requires d.Valid() && HEAD <= d.index < |mem| && mem[..d.index] == d.mem[..d.index]
    ensures forall i :: 0 <= i < HEAD - 1 ==> U16At(mem, i) == U16At(d.mem, i)
  {
    assert forall i :: 0 <= i < HEAD ==> mem[i] == mem[..d.index][i] == d.mem[i];
  }

  lemma JoinThree(mem: seq<byte>, plen: nat, a: nat, b: nat, c: nat, m: Message, clear: bool)
    requires plen < |mem| && ValidMessage(m)
    requires RecordsRead(mem, plen, a, b, m.answers, clear) && RecordsRead(mem, plen, b, c, m.servers, clear)
    requires RecordsRead(mem, plen, c, plen, m.additional, clear)
    ensures RecordsRead(mem, plen, a, plen, m.answers + m.servers + m.additional, clear)
  {
    RecordsReadJoin(mem, plen, a, b, c, m.answers, m.servers, clear);
    RecordsReadJoin(mem, plen, a, c, plen, m.answers + m.servers, m.additional, clear);
  }

  /** The sent bytes copy the packet body as it stood after each section. */
  lemma SectionsCopied(start: seq<byte>, m: Message, mem: seq<byte>)
    requires |start| == SIZE + SLACK && SoundMessage(m)
    requires var e := Dispatch(start, m); e.index < |mem| && mem[..e.index] == e.mem[..e.index]
    ensures var a := AfterQuestions(start, m);
            var b := Section(a, m.answers, 6);
            var c := Section(b, m.servers, 8);
            var d := Section(c, m.additional, 10);
            Copies(a, mem, d.index) && Copies(b, mem, d.index) && Copies(c, mem, d.index) && Copies(d, mem, d.index)
  {
    hide Section, AfterQuestions, BodyAppended, LabelledRecord, Sound, SoundQuestion;
    var a := AfterQuestions(start, m);
    var b := Section(a, m.answers, 6);
    var c := Section(b, m.servers, 8);
    var d := Section(c, m.additional, 10);
    SoundLabels(m.questions);
    QuestionSectionAppends(start, m);
    BodyIndex(Start(start, m), a);
    SoundIsLabelled(m.answers);
    SectionAppends(a, m.answers, 6);
    BodyIndex(a, b);
    SoundIsLabelled(m.servers);
    SectionAppends(b, m.servers, 8);
    BodyIndex(b, c);
    SoundIsLabelled(m.additional);
    SectionAppends(c, m.additional, 10);
    assert Copies(d, mem, d.index) by {
      assert forall i :: 0 <= i < d.index ==> mem[i] == mem[..d.index][i] == d.mem[i];
    }
    CopiesEarlier(c, d, mem, d.index);
    CopiesEarlier(b, c, mem, d.index);
    CopiesEarlier(a, b, mem, d.index);
  }
}
