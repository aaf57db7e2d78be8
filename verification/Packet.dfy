/** Whole packets: `_mdns_dispatch_tx_packet`, the buffer bound, and when all of a message fits. */
module Packet {
  import opened Bytes
  import opened NameWriter
  import opened Records

  datatype Question = Question(labels: seq<Text>, qtype: nat, unicast: bool)

  /** What is dispatched: the header fields and the four sections, answers already expanded into records. */
  datatype Message = Message(id: nat, flags: nat, questions: seq<Question>,
                             answers: seq<Record>, servers: seq<Record>, additional: seq<Record>)

  /** The buffer after a section, how many appends returned non-zero, and whether all of them succeeded. */
  datatype Tally = Tally(w: Writer, count: nat, whole: bool)

  // ---------------------------------------------------------------- writers

  function QuestionClass(unicast: bool): nat {
    if unicast then 0x8001 else 0x0001
  }

  /** `_mdns_append_question`; the sum of the three lengths is kept in a `uint8_t`. */
  function AppendQuestion(w: Writer, q: Question): (e: Emit)
    requires w.Valid()
    ensures e.w.Valid()
  {
    var n := AppendName(w, q.labels);
    if n.ret == 0 then n
    else
      var a := AppendU16(n.w, q.qtype);
      var b := AppendU16(a.w, QuestionClass(q.unicast));
      Emit(b.w, (n.ret + a.ret + b.ret) % 256, n.whole && a.whole && b.whole)
  }

  function AppendQuestions(w: Writer, qs: seq<Question>): (t: Tally)
    requires w.Valid()
    ensures t.w.Valid()
    decreases |qs|
  {
    if qs == [] then Tally(w, 0, true)
    else
      var e := AppendQuestion(w, qs[0]);
      var t := AppendQuestions(e.w, qs[1..]);
      Tally(t.w, (if e.ret > 0 then 1 else 0) + t.count, e.whole && t.whole)
  }

  predicate ValidRecords(recs: seq<Record>) {
    forall r :: r in recs ==> r.Valid()
  }

  function AppendRecords(w: Writer, recs: seq<Record>): (t: Tally)
    requires w.Valid() && ValidRecords(recs)
    ensures t.w.Valid()
    decreases |recs|
  {
    if recs == [] then Tally(w, 0, true)
    else
      var e := AppendRecord(w, recs[0]);
      var t := AppendRecords(e.w, recs[1..]);
      Tally(t.w, (if e.ret > 0 then 1 else 0) + t.count, e.whole && t.whole)
  }

  /** `_mdns_set_u16` into the header. */
  function SetHeader(w: Writer, at: nat, v: nat): (r: Writer)
    requires w.Valid() && at + 2 <= HEAD
    ensures r.Valid() && r.index == w.index
  {
    Writer(Splice(w.mem, at, U16Bytes(v)), w.index)
  }

  /** The header, cleared, with flags and id. */
  function Start(mem: seq<byte>, m: Message): (w: Writer)
    requires |mem| == SIZE + SLACK
    ensures w.Valid() && w.index == HEAD
  {
    var cleared := Splice(mem, 0, [0, 0, 0, 0, 0, 0, 0, 0, 0, 0, 0, 0]);
    SetHeader(SetHeader(Writer(cleared, HEAD), 2, m.flags), 0, m.id)
  }

  /** One section of records and its counter, which is a `uint8_t`. */
  function Section(w: Writer, recs: seq<Record>, at: nat): (r: Writer)
    requires w.Valid() && ValidRecords(recs) && at + 2 <= HEAD
    ensures r.Valid()
  {
    var t := AppendRecords(w, recs);
    SetHeader(t.w, at, t.count % 256)
  }

  function AfterQuestions(mem: seq<byte>, m: Message): (w: Writer)
    requires |mem| == SIZE + SLACK
    ensures w.Valid()
  {
    var q := AppendQuestions(Start(mem, m), m.questions);
    SetHeader(q.w, 4, q.count % 256)
  }

  predicate ValidMessage(m: Message) {
    && ValidRecords(m.answers) && ValidRecords(m.servers) && ValidRecords(m.additional)
    && m.id < 0x1_0000 && m.flags < 0x1_0000
  }

  /** `_mdns_dispatch_tx_packet`: the first `index` bytes of the result are sent. */
  function Dispatch(mem: seq<byte>, m: Message): (w: Writer)
    requires |mem| == SIZE + SLACK && ValidMessage(m)
    ensures w.Valid()
  {
    Section(Section(Section(AfterQuestions(mem, m), m.answers, 6), m.servers, 8), m.additional, 10)
  }

  // ---------------------------------------------------------------- the buffer bound

  predicate LabelledRecord(r: Record) {
    r.Valid() && AllLabels(r.owner) && RdataLabels(r.rdata)
  }

  predicate LabelledMessage(m: Message) {
    && ValidMessage(m)
    && (forall q :: q in m.questions ==> AllLabels(q.labels))
    && (forall r :: r in m.answers ==> LabelledRecord(r))
    && (forall r :: r in m.servers ==> LabelledRecord(r))
    && (forall r :: r in m.additional ==> LabelledRecord(r))
  }

  lemma QuestionAppends(w: Writer, q: Question)
    requires w.Valid() && AllLabels(q.labels)
    ensures Appended(w, AppendQuestion(w, q).w)
  {
    hide AppendFqdn, Splice;
    NameAccounts(w, q.labels);
  }

  lemma {:induction false} QuestionsAppend(w: Writer, qs: seq<Question>)
    requires w.Valid() && forall q :: q in qs ==> AllLabels(q.labels)
    ensures Appended(w, AppendQuestions(w, qs).w)
    decreases |qs|
  {
    hide AppendQuestion, Appended;
    if qs == [] {
      AppendedRefl(w);
    } else {
      var e := AppendQuestion(w, qs[0]);
      assert AllLabels(qs[0].labels);
      QuestionAppends(w, qs[0]);
      QuestionsAppend(e.w, qs[1..]);
      AppendedTrans(w, e.w, AppendQuestions(e.w, qs[1..]).w);
    }
  }

  lemma AppendedRefl(w: Writer)
    requires w.Valid()
    ensures Appended(w, w)
  {
  }

  lemma {:induction false} RecordsAppend(w: Writer, recs: seq<Record>)
    requires w.Valid() && ValidRecords(recs) && forall r :: r in recs ==> LabelledRecord(r)
    ensures Appended(w, AppendRecords(w, recs).w)
    decreases |recs|
  {
    hide AppendRecord, Appended;
    if recs == [] {
      AppendedRefl(w);
    } else {
      var e := AppendRecord(w, recs[0]);
      assert LabelledRecord(recs[0]);
      RecordAppends(w, recs[0]);
      RecordsAppend(e.w, recs[1..]);
      AppendedTrans(w, e.w, AppendRecords(e.w, recs[1..]).w);
    }
  }

  /** Between two writers only the header and the bytes appended differ. */
  predicate BodyAppended(w: Writer, e: Writer) {
    && w.Valid() && e.Valid() && HEAD <= w.index <= e.index
    && (forall i :: HEAD <= i < |w.mem| && !(w.index <= i < e.index) ==> e.mem[i] == w.mem[i])
  }

  lemma SectionAppends(w: Writer, recs: seq<Record>, at: nat)
    requires w.Valid() && HEAD <= w.index && at + 2 <= HEAD && ValidRecords(recs)
    requires forall r :: r in recs ==> LabelledRecord(r)
    ensures BodyAppended(w, Section(w, recs, at))
  {
    RecordsAppend(w, recs);
  }

  lemma QuestionSectionAppends(mem: seq<byte>, m: Message)
    requires |mem| == SIZE + SLACK && forall q :: q in m.questions ==> AllLabels(q.labels)
    ensures BodyAppended(Start(mem, m), AfterQuestions(mem, m))
  {
    QuestionsAppend(Start(mem, m), m.questions);
  }

  lemma BodyTrans(a: Writer, b: Writer, c: Writer)
    requires BodyAppended(a, b) && BodyAppended(b, c)
    ensures BodyAppended(a, c)
  {
  }

  /**
   * Buffer bound: whatever the lists, what is sent has between 12 and 1460 bytes and nothing past the last byte sent
   * was written.
   */
  lemma DispatchStaysInside(mem: seq<byte>, m: Message)
    requires |mem| == SIZE + SLACK && LabelledMessage(m)
    ensures var e := Dispatch(mem, m);
            && HEAD <= e.index <= SIZE && |e.mem| == |mem|
            && forall i :: e.index <= i < |mem| ==> e.mem[i] == mem[i]
  {
    hide Section, AfterQuestions;
    var a := AfterQuestions(mem, m);
    var b := Section(a, m.answers, 6);
    var c := Section(b, m.servers, 8);
    QuestionSectionAppends(mem, m);
    SectionAppends(a, m.answers, 6);
    SectionAppends(b, m.servers, 8);
    SectionAppends(c, m.additional, 10);
  }

  // ---------------------------------------------------------------- what fits

  /** There is room for the name, the type and the class. */
  predicate QuestionFits(w: Writer, q: Question)
    requires w.Valid()
  {
    w.index + Needed(w, q.labels) + 4 <= SIZE
  }

  predicate QuestionsFit(w: Writer, qs: seq<Question>)
    requires w.Valid()
    decreases |qs|
  {
    qs == [] || (QuestionFits(w, qs[0]) && QuestionsFit(AppendQuestion(w, qs[0]).w, qs[1..]))
  }

  predicate RecordsFit(w: Writer, recs: seq<Record>)
    requires w.Valid() && ValidRecords(recs)
    decreases |recs|
  {
    recs == [] || (Fits(w, recs[0]) && RecordsFit(AppendRecord(w, recs[0]).w, recs[1..]))
  }

  /** Every question and record finds room when its turn comes. */
  predicate MessageFits(mem: seq<byte>, m: Message)
    requires |mem| == SIZE + SLACK && ValidMessage(m)
  {
    var a := AfterQuestions(mem, m);
    var b := Section(a, m.answers, 6);
    var c := Section(b, m.servers, 8);
    && QuestionsFit(Start(mem, m), m.questions)
    && RecordsFit(a, m.answers) && RecordsFit(b, m.servers) && RecordsFit(c, m.additional)
  }

  /** Every append of every section succeeded. */
  predicate DispatchWhole(mem: seq<byte>, m: Message)
    requires |mem| == SIZE + SLACK && ValidMessage(m)
  {
    var a := AfterQuestions(mem, m);
    var b := Section(a, m.answers, 6);
    var c := Section(b, m.servers, 8);
    && AppendQuestions(Start(mem, m), m.questions).whole
    && AppendRecords(a, m.answers).whole && AppendRecords(b, m.servers).whole && AppendRecords(c, m.additional).whole
  }

  predicate CompactRecords(recs: seq<Record>) {
    ValidRecords(recs) && forall r :: r in recs ==> Compact(r)
  }

  predicate CompactQuestion(q: Question) {
    AllLabels(q.labels) && Octets(q.labels) < 252
  }

  predicate CompactMessage(m: Message) {
    && ValidMessage(m) && (forall q :: q in m.questions ==> CompactQuestion(q))
    && CompactRecords(m.answers) && CompactRecords(m.servers) && CompactRecords(m.additional)
  }

  lemma QuestionWholeIffFits(w: Writer, q: Question)
    requires w.Valid() && CompactQuestion(q)
    ensures var e := AppendQuestion(w, q);
            && (e.whole <==> QuestionFits(w, q)) && (e.whole ==> e.ret > 0)
            && (e.whole ==> e.w.index == w.index + Needed(w, q.labels) + 4)
  {
    hide AppendFqdn, Needed, Octets, AppendName, U16Bytes, Splice;
    NameFits(w, q.labels);
    NameLength(w, q.labels);
  }

  lemma NameLength(w: Writer, labels: seq<Text>)
    requires w.Valid() && AllLabels(labels) && Octets(labels) < 252
    ensures AppendName(w, labels).ret < 252
  {
    hide AppendFqdn, Octets;
    AppendFqdnAccounts(w, labels);
  }

  lemma {:induction false} QuestionsWholeIffFit(w: Writer, qs: seq<Question>)
    requires w.Valid() && forall q :: q in qs ==> CompactQuestion(q)
    ensures var t := AppendQuestions(w, qs);
            (t.whole <==> QuestionsFit(w, qs)) && (t.whole ==> t.count == |qs|)
    decreases |qs|
  {
    hide AppendQuestion, QuestionFits, CompactQuestion;
    if qs != [] {
      QuestionWholeIffFits(w, qs[0]);
      QuestionsWholeIffFit(AppendQuestion(w, qs[0]).w, qs[1..]);
    }
  }

  lemma {:induction false} RecordsWholeIffFit(w: Writer, recs: seq<Record>)
    requires w.Valid() && CompactRecords(recs)
    ensures var t := AppendRecords(w, recs);
            (t.whole <==> RecordsFit(w, recs)) && (t.whole ==> t.count == |recs|)
    decreases |recs|
  {
    hide AppendRecord, Fits, Compact;
    if recs != [] {
      RecordWholeIffFits(w, recs[0]);
      WholeReturns(w, recs[0]);
      RecordsWholeIffFit(AppendRecord(w, recs[0]).w, recs[1..]);
    }
  }

  lemma WholeReturns(w: Writer, rec: Record)
    requires w.Valid() && rec.Valid()
    ensures AppendRecord(w, rec).whole ==> AppendRecord(w, rec).ret > 0
  {
    hide AppendName, AppendRdata, Splice, AppendType;
  }

  /**
   * A packet is built whole exactly when every question and record finds room in its turn, whatever was in the buffer
   * before; then each of them is counted.
   */
  lemma PacketWholeIffFits(mem: seq<byte>, m: Message)
    requires |mem| == SIZE + SLACK && CompactMessage(m)
    ensures DispatchWhole(mem, m) <==> MessageFits(mem, m)
  {
    hide AppendQuestions, AppendRecords, QuestionsFit, RecordsFit, Section, AfterQuestions;
    var a := AfterQuestions(mem, m);
    var b := Section(a, m.answers, 6);
    var c := Section(b, m.servers, 8);
    QuestionsWholeIffFit(Start(mem, m), m.questions);
    RecordsWholeIffFit(a, m.answers);
    RecordsWholeIffFit(b, m.servers);
    RecordsWholeIffFit(c, m.additional);
  }

  // What questions and records take at most.

  function QuestionsOctets(qs: seq<Question>): nat {
    if qs == [] then 0 else Octets(qs[0].labels) + 4 + QuestionsOctets(qs[1..])
  }

  function RecordsOctets(recs: seq<Record>): nat {
    if recs == [] then 0 else RecordOctets(recs[0]) + RecordsOctets(recs[1..])
  }

  function MessageOctets(m: Message): nat {
    HEAD + QuestionsOctets(m.questions) + RecordsOctets(m.answers) + RecordsOctets(m.servers)
    + RecordsOctets(m.additional)
  }

  lemma {:induction false} QuestionsRoom(w: Writer, qs: seq<Question>)
    requires w.Valid() && (forall q :: q in qs ==> CompactQuestion(q)) && w.index + QuestionsOctets(qs) <= SIZE
    ensures QuestionsFit(w, qs) && AppendQuestions(w, qs).w.index <= w.index + QuestionsOctets(qs)
    decreases |qs|
  {
    hide AppendQuestion, Octets, Needed;
    if qs != [] {
      assert CompactQuestion(qs[0]);
      LabelsDoNotWrap(qs[0].labels);
      WholeIffRoom(w, qs[0].labels);
      QuestionWholeIffFits(w, qs[0]);
      QuestionsRoom(AppendQuestion(w, qs[0]).w, qs[1..]);
    }
  }

  lemma {:induction false} RecordsRoom(w: Writer, recs: seq<Record>)
    requires w.Valid() && CompactRecords(recs) && w.index + RecordsOctets(recs) <= SIZE
    ensures RecordsFit(w, recs) && AppendRecords(w, recs).w.index <= w.index + RecordsOctets(recs)
    decreases |recs|
  {
    hide AppendRecord, RecordOctets, Fits, Compact;
    if recs != [] {
      RoomIsEnough(w, recs[0]);
      RecordsRoom(AppendRecord(w, recs[0]).w, recs[1..]);
    }
  }

  /** A message whose uncompressed form fits the buffer is always sent whole. */
  lemma ShortMessageFits(mem: seq<byte>, m: Message)
    requires |mem| == SIZE + SLACK && CompactMessage(m) && MessageOctets(m) <= SIZE
    ensures MessageFits(mem, m) && Dispatch(mem, m).index <= MessageOctets(m)
  {
    hide AppendQuestions, AppendRecords, QuestionsFit, RecordsFit, Start, Splice;
    var w := Start(mem, m);
    QuestionsRoom(w, m.questions);
    var a := AfterQuestions(mem, m);
    RecordsRoom(a, m.answers);
    var b := Section(a, m.answers, 6);
    RecordsRoom(b, m.servers);
    var c := Section(b, m.servers, 8);
    RecordsRoom(c, m.additional);
  }
}
