/** The outgoing packet as the writers update it: a fixed byte array and a write position. */
module PacketBuffer {
  import opened Options
  import opened Bytes
  import opened NameBuffer
  import opened NameWriter
  import opened Txt
  import opened Records
  import opened Packet

  class Buffer {
    const mem: array<byte>
    var index: nat

    ghost predicate Valid()
      reads this, mem
    {
      mem.Length == SIZE + SLACK && index <= SIZE
    }

    /** The buffer as a value. */
    ghost function Value(): (w: Writer)
      requires Valid()
      reads this, mem
      ensures w.Valid()
    {
      Writer(mem[..], index)
    }

    constructor ()
      ensures Valid() && fresh(mem) && index == 0
    {
      mem := new byte[SIZE + SLACK](_ => 0);
      index := 0;
    }

    // -------------------------------------------------------------- integers and strings

    method AddU8(v: byte) returns (ret: nat)
      requires Valid()
      modifies this`index, mem
      ensures Valid() && var e := AppendU8(old(Value()), v); Value() == e.w && ret == e.ret
    {
      if index >= SIZE {
        return 0;
      }
      mem[index] := v;
      index := index + 1;
      ret := 1;
    }

    /** `memcpy` to the write position, which moves past it. */
    method Copy(bytes: seq<byte>)
      requires Valid() && index + |bytes| <= SIZE
      modifies this`index, mem
      ensures Valid() && Value() == Writer(Splice(old(Value()).mem, old(index), bytes), old(index) + |bytes|)
    {
      ghost var before := mem[..];
      for i := 0 to |bytes|
        invariant forall k :: 0 <= k < mem.Length ==>
                    mem[k] == if index <= k < index + i then bytes[k - index] else before[k]
        invariant index == old(index)
      {
        mem[index + i] := bytes[i];
      }
      assert mem[..] == Splice(before, index, bytes);
      index := index + |bytes|;
    }

    method AddU16(v: nat) returns (ret: nat)
      requires Valid()
      modifies this`index, mem
      ensures Valid() && var e := AppendU16(old(Value()), v); Value() == e.w && ret == e.ret
    {
      if index + 1 >= SIZE {
        return 0;
      }
      ghost var before := Value();
      var _ := AddU8(v / 256 % 256);
      var _ := AddU8(v % 256);
      ret := 2;
    }

    method AddU32(v: nat) returns (ret: nat)
      requires Valid()
      modifies this`index, mem
      ensures Valid() && var e := AppendU32(old(Value()), v); Value() == e.w && ret == e.ret
    {
      if index + 3 >= SIZE {
        return 0;
      }
      hide Splice;
      ghost var before := Value();
      var bytes := U32Bytes(v);
      var _ := AddU8(bytes[0]);
      var _ := AddU8(bytes[1]);
      var _ := AddU8(bytes[2]);
      var _ := AddU8(bytes[3]);
      ret := 4;
    }

    /** `_mdns_set_u16`, which does nothing past the end. */
    method SetU16(at: nat, v: nat)
      requires Valid()
      modifies mem
      ensures Valid() && index == old(index)
      ensures mem[..] == if at + 2 <= SIZE then Splice(old(mem[..]), at, U16Bytes(v)) else old(mem[..])
    {
      if at + 1 >= SIZE {
        return;
      }
      mem[at] := v / 256 % 256;
      mem[at + 1] := v % 256;
      assert mem[..] == Splice(old(mem[..]), at, U16Bytes(v));
    }

    method AddString(s: Text) returns (ret: nat)
      requires Valid()
      modifies this`index, mem
      ensures Valid() && var e := AppendString(old(Value()), s); Value() == e.w && ret == e.ret
    {
      if index + |s| + 1 >= SIZE {
        return 0;
      }
      ghost var before := Value();
      var _ := AddU8(|s| as byte);
      Copy(s);
      ret := (|s| + 1) % 256;
    }

    // -------------------------------------------------------------- names

    /** Does the name at `loc` read as the wanted one?  Reads over the whole buffer, not just up to the write position. */
    method Matches(loc: nat, strings: seq<Text>) returns (ok: bool)
      requires Valid() && loc < SIZE && strings != []
      ensures ok == Accepts(mem[..], loc, strings)
    {
      var len := |strings[0]|;
      if mem[loc] as int != len || mem[loc + 1..loc + 1 + len] != strings[0] {
        return false;
      }
      var name := new NameRecord();
      var content := name.ReadFqdn(mem, SIZE, loc);
      if content.None? || name.parts != |strings| {
        return false;
      }
      for i := 0 to |strings|
        invariant forall k :: 0 <= k < i ==> NoCase(strings[k], name.fields[k])
      {
        if !NoCase(strings[i], name.fields[i]) {
          return false;
        }
      }
      ok := true;
    }

    /** The search loop of `_mdns_append_fqdn`. */
    method FindName(strings: seq<Text>) returns (loc: Option<nat>)
      requires Valid() && strings != []
      ensures loc == FirstMatch(mem[..], index, strings, 0)
    {
      var at := 0;
      while at < index
        invariant at <= index
        invariant FirstMatch(mem[..], index, strings, 0) == FirstMatch(mem[..], index, strings, at)
      {
        var ok := Matches(at, strings);
        if ok {
          return Some(at);
        }
        at := at + 1;
      }
      loc := None;
    }

    method AddFqdn(strings: seq<Text>) returns (ret: nat)
      requires Valid()
      modifies this`index, mem
      ensures Valid() && var e := AppendFqdn(old(Value()), strings); Value() == e.w && ret == e.ret
      decreases |strings|
    {
      hide FirstMatch, Splice;
      if strings == [] {
        ret := AddU8(0);
        return;
      }
      var loc := FindName(strings);
      if loc.None? {
        var written := AddString(strings[0]);
        if written == 0 {
          return 0;
        }
        var tail := AddFqdn(strings[1..]);
        ret := written + tail;
      } else {
        ret := AddU16(0xC000 + loc.value);
      }
    }

    // -------------------------------------------------------------- records

    /** A name whose length the caller keeps in a `uint8_t`. */
    method AddName(labels: seq<Text>) returns (ret: nat)
      requires Valid()
      modifies this`index, mem
      ensures Valid() && var e := AppendName(old(Value()), labels); Value() == e.w && ret == e.ret
    {
      hide AppendFqdn;
      var n := AddFqdn(labels);
      ret := n % 256;
    }

    method AddType(rtype: nat, flush: bool, ttl: nat) returns (ret: nat)
      requires Valid()
      modifies this`index, mem
      ensures Valid() && var e := AppendType(old(Value()), rtype, flush, ttl); Value() == e.w && ret == e.ret
    {
      hide AppendU16, AppendU32, TypeBytes, Splice;
      if index + 10 >= SIZE {
        return 0;
      }
      if rtype != TYPE_PTR && rtype != TYPE_TXT && rtype != TYPE_SRV && rtype != TYPE_A && rtype != TYPE_AAAA {
        return 0;
      }
      ghost var before := Value();
      var class_ := if flush then CLASS_IN_FLUSH else CLASS_IN;
      var _ := AddU16(rtype);
      var _ := AddU16(class_);
      var _ := AddU32(ttl);
      var _ := AddU16(0);
      TypeWrote(before, rtype, flush, ttl);
      ret := 10;
    }

    /** `append_one_txt_record_entry`. */
    method AddEntry(entry: Entry) returns (ret: nat)
      requires Valid()
      modifies this`index, mem
      ensures Valid()
      ensures var e := Put(old(Value()), EntryBytes(entry), old(index) + |Body(entry)| + 1 < SIZE);
              Value() == e.w && ret == e.ret
    {
      var len := |entry.key| + if entry.value.Some? then |entry.value.value| + 1 else 0;
      if index + len + 1 >= SIZE {
        return 0;
      }
      hide Splice, EntryBytes, Wrote;
      ghost var before := Value();
      var lenByte := (len % 256) as byte;
      AddKey(lenByte, entry.key);
      ghost var middle := Value();
      if entry.value.Some? {
        AddValue(entry.value.value);
        WroteMore(before, [lenByte] + entry.key, middle, [EQUALS] + entry.value.value, Value());
      }
      EntryIs(entry, lenByte);
      WroteIsPut(before, EntryBytes(entry), Value());
      ret := len + 1;
    }

    method AddKey(len: byte, key: Text)
      requires Valid() && index + 1 + |key| <= SIZE
      modifies this`index, mem
      ensures Valid() && Wrote(old(Value()), [len] + key, Value()) && index == old(index) + 1 + |key|
    {
      hide Splice, AppendU8;
      ghost var before := Value();
      var _ := AddU8(len);
      U8Wrote(before, len);
      ghost var middle := Value();
      Copy(key);
      WroteMore(before, [len], middle, key, Value());
    }

    method AddValue(value: seq<byte>)
      requires Valid() && index + 1 + |value| <= SIZE
      modifies this`index, mem
      ensures Valid() && Wrote(old(Value()), [EQUALS] + value, Value()) && index == old(index) + 1 + |value|
    {
      hide Splice;
      ghost var before := Value();
      Copy([EQUALS]);
      ghost var middle := Value();
      Copy(value);
      WroteMore(before, [EQUALS], middle, value, Value());
    }

    /** The loop over the attributes of a service, and the zero byte that stands for none. */
    method AddTxtData(entries: seq<Entry>) returns (dataLen: nat)
      requires Valid() && index < SIZE
      modifies this`index, mem
      ensures Valid() && var e := AppendTxtData(old(Value()), entries); Value() == e.w && dataLen == e.ret
    {
      hide EntryBytes, Splice;
      ghost var before := Value();
      dataLen := 0;
      for i := 0 to |entries|
        invariant Valid()
        invariant i > 0 ==> dataLen > 0
        invariant i == 0 ==> dataLen == 0 && Value() == before
        invariant var e, t := AppendEntries(before, entries), AppendEntries(Value(), entries[i..]);
                  e.w == t.w && e.whole == t.whole && (e.whole ==> e.ret == dataLen + t.ret)
      {
        assert entries[i..][0] == entries[i] && entries[i..][1..] == entries[i + 1..];
        var l := AddEntry(entries[i]);
        if l == 0 {
          return 0;
        }
        dataLen := dataLen + l;
      }
      assert entries[|entries|..] == [];
      if dataLen == 0 {
        Copy([0]);
        dataLen := 1;
      }
    }

    method AddSrvData(priority: nat, weight: nat, port: nat, host: Text) returns (dataLen: nat)
      requires Valid() && index < SIZE
      modifies this`index, mem
      ensures Valid()
      ensures var e := AppendRdata(old(Value()), SrvData(priority, weight, port, host));
              && Value() == e.w
              && dataLen == e.ret
    {
      hide AppendFqdn, AppendU16, AppendName;
      var a := AddU16(priority);
      var b := AddU16(weight);
      var c := AddU16(port);
      if a + b + c != 6 || host == [] {
        return 0;
      }
      var n := AddName([host, LOCAL]);
      dataLen := if n == 0 then 0 else n + 6;
    }

    method AddAddressData(octets: seq<byte>) returns (dataLen: nat)
      requires Valid()
      modifies this`index, mem
      ensures Valid()
      ensures var e := Put(old(Value()), octets, old(index) + |octets| <= SIZE); Value() == e.w && dataLen == e.ret
    {
      if index + |octets| > SIZE {
        return 0;
      }
      Copy(octets);
      dataLen := |octets|;
    }

    /** The record writers: owner, fixed part, RDATA by type, and RDLENGTH patched in at the end. */
    method AddRecord(rec: Record) returns (ret: nat)
      requires Valid() && rec.Valid()
      modifies this`index, mem
      ensures Valid() && var e := AppendRecord(old(Value()), rec); Value() == e.w && ret == e.ret
    {
      hide AppendFqdn, AppendName, AppendTxtData, Splice, Put, TypeBytes, AppendSrvInts;
      if rec.rdata.AddressData? && rec.owner[0] == [] {
        return 0;
      }
      var owner := AddName(rec.owner);
      if owner == 0 {
        return 0;
      }
      var fixed := AddType(rec.rtype, rec.flush, rec.ttl);
      if fixed == 0 {
        return 0;
      }
      TypeAdvances(old(Value()), rec, Value());
      var dataLenLocation := index - 2;
      var dataLen := AddRdata(rec.rdata);
      if dataLen == 0 {
        return 0;
      }
      SetU16(dataLenLocation, dataLen);
      ret := owner + 10 + dataLen;
    }

    method AddRdata(rdata: Rdata) returns (dataLen: nat)
      requires Valid() && index < SIZE
      modifies this`index, mem
      ensures Valid() && var e := AppendRdata(old(Value()), rdata); Value() == e.w && dataLen == e.ret
    {
      hide AppendFqdn, AppendName, AppendTxtData, Splice, Put, AppendSrvInts;
      match rdata
      case NameData(labels) => dataLen := AddName(labels);
      case SrvData(priority, weight, port, host) => dataLen := AddSrvData(priority, weight, port, host);
      case TxtData(entries) => dataLen := AddTxtData(entries);
      case AddressData(octets) => dataLen := AddAddressData(octets);
    }

    // -------------------------------------------------------------- packets

    method AddQuestion(q: Question) returns (ret: nat)
      requires Valid()
      modifies this`index, mem
      ensures Valid() && var e := AppendQuestion(old(Value()), q); Value() == e.w && ret == e.ret
    {
      hide AppendName, AppendU16;
      var n := AddName(q.labels);
      if n == 0 {
        return 0;
      }
      var a := AddU16(q.qtype);
      var b := AddU16(QuestionClass(q.unicast));
      ret := (n + a + b) % 256;
    }

    method AddQuestions(qs: seq<Question>) returns (count: nat)
      requires Valid()
      modifies this`index, mem
      ensures Valid() && var t := AppendQuestions(old(Value()), qs); Value() == t.w && count == t.count
    {
      hide AppendQuestion;
      count := 0;
      ghost var before := Value();
      for i := 0 to |qs|
        invariant Valid()
        invariant var t := AppendQuestions(Value(), qs[i..]);
                  AppendQuestions(before, qs).w == t.w && AppendQuestions(before, qs).count == count + t.count
      {
        assert qs[i..][0] == qs[i] && qs[i..][1..] == qs[i + 1..];
        var n := AddQuestion(qs[i]);
        if n > 0 {
          count := count + 1;
        }
      }
      assert qs[|qs|..] == [];
    }

    method AddRecords(recs: seq<Record>) returns (count: nat)
      requires Valid() && ValidRecords(recs)
      modifies this`index, mem
      ensures Valid() && var t := AppendRecords(old(Value()), recs); Value() == t.w && count == t.count
    {
      hide AppendRecord;
      count := 0;
      ghost var before := Value();
      for i := 0 to |recs|
        invariant Valid()
        invariant var t := AppendRecords(Value(), recs[i..]);
                  AppendRecords(before, recs).w == t.w && AppendRecords(before, recs).count == count + t.count
      {
        assert recs[i..][0] == recs[i] && recs[i..][1..] == recs[i + 1..];
        var n := AddRecord(recs[i]);
        if n > 0 {
          count := count + 1;
        }
      }
      assert recs[|recs|..] == [];
    }

    /** `_mdns_dispatch_tx_packet`: builds the packet over whatever the static buffer held before. */
    method Build(m: Message)
      requires Valid() && ValidMessage(m)
      modifies this`index, mem
      ensures Valid() && Value() == Dispatch(old(mem[..]), m)
    {
      hide AppendQuestions, AppendRecords, Splice, U16Bytes;
      index := 0;
      Copy([0, 0, 0, 0, 0, 0, 0, 0, 0, 0, 0, 0]);
      SetU16(2, m.flags);
      SetU16(0, m.id);
      assert Value() == Start(old(mem[..]), m);
      var count := AddQuestions(m.questions);
      SetU16(4, count % 256);
      assert Value() == AfterQuestions(old(mem[..]), m);
      AddSection(m.answers, 6);
      AddSection(m.servers, 8);
      AddSection(m.additional, 10);
    }

    method AddSection(recs: seq<Record>, at: nat)
      requires Valid() && ValidRecords(recs) && at + 2 <= HEAD
      modifies this`index, mem
      ensures Valid() && Value() == Section(old(Value()), recs, at)
    {
      hide AppendRecords, Splice, U16Bytes;
      var count := AddRecords(recs);
      SetU16(at, count % 256);
    }
  }

  // ---------------------------------------------------------------- stores in sequence

  /** `e` is `w` with `bytes` appended. */
  ghost predicate Wrote(w: Writer, bytes: seq<byte>, e: Writer) {
    w.Valid() && w.index + |bytes| <= SIZE && e == Writer(Splice(w.mem, w.index, bytes), w.index + |bytes|)
  }

  lemma WroteMore(w: Writer, a: seq<byte>, m: Writer, b: seq<byte>, e: Writer)
    requires Wrote(w, a, m) && Wrote(m, b, e)
    ensures Wrote(w, a + b, e)
  {
    hide Splice;
  }

  lemma U8Wrote(w: Writer, a: byte)
    requires w.Valid() && w.index < SIZE
    ensures Wrote(w, [a], AppendU8(w, a).w)
  {
  }

  lemma CopyWrote(w: Writer, bytes: seq<byte>, e: Writer)
    requires w.Valid() && w.index + |bytes| <= SIZE && e == Writer(Splice(w.mem, w.index, bytes), w.index + |bytes|)
    ensures Wrote(w, bytes, e)
  {
  }

  lemma WroteIsPut(w: Writer, bytes: seq<byte>, e: Writer)
    requires Wrote(w, bytes, e)
    ensures Put(w, bytes, true) == Emit(e, |bytes|, true)
  {
  }

  lemma TypeWrote(w: Writer, rtype: nat, flush: bool, ttl: nat)
    requires w.Valid() && w.index + 10 < SIZE && Writable(rtype)
    ensures AppendU16(AppendU32(AppendU16(AppendU16(w, rtype).w, if flush then CLASS_IN_FLUSH else CLASS_IN).w, ttl).w, 0).w
         == AppendType(w, rtype, flush, ttl).w
  {
    hide Splice, U16Bytes, U32Bytes, Wrote;
    var class_ := if flush then CLASS_IN_FLUSH else CLASS_IN;
    var a := AppendU16(w, rtype).w;
    var b := AppendU16(a, class_).w;
    var c := AppendU32(b, ttl).w;
    var d := AppendU16(c, 0).w;
    CopyWrote(w, U16Bytes(rtype), a);
    CopyWrote(a, U16Bytes(class_), b);
    CopyWrote(b, U32Bytes(ttl), c);
    CopyWrote(c, U16Bytes(0), d);
    WroteMore(w, U16Bytes(rtype), a, U16Bytes(class_), b);
    WroteMore(w, U16Bytes(rtype) + U16Bytes(class_), b, U32Bytes(ttl), c);
    WroteMore(w, U16Bytes(rtype) + U16Bytes(class_) + U32Bytes(ttl), c, U16Bytes(0), d);
    WroteIsPut(w, TypeBytes(rtype, flush, ttl), d);
  }

  lemma TypeAdvances(w: Writer, rec: Record, t: Writer)
    requires w.Valid() && rec.Valid() && t == AppendType(AppendName(w, rec.owner).w, rec.rtype, rec.flush, rec.ttl).w
    requires AppendType(AppendName(w, rec.owner).w, rec.rtype, rec.flush, rec.ttl).ret > 0
    ensures 10 <= t.index < SIZE
  {
    hide AppendName;
  }

}
