/** TXT record data: `append_one_txt_record_entry` and the decoder `_mdns_result_txt_create`. */
module Txt {
  import opened Options
  import opened Bytes
  import opened NameWriter

  /** One attribute of a service; a key without a value is legal (section 6.4 of RFC 6763). */
  datatype Entry = Entry(key: Text, value: Option<seq<byte>>)

  /** One attribute as the decoder hands it out; the decoder has no empty values. */
  datatype Item = Item(key: seq<byte>, value: Option<seq<byte>>)

  // ---------------------------------------------------------------- encoder

  function Body(e: Entry): (s: seq<byte>) {
    if e.value.Some? then e.key + [EQUALS] + e.value.value else e.key
  }

  /** The length byte is a truncating `uint8_t`. */
  function EntryBytes(e: Entry): (s: seq<byte>)
    ensures |s| == 1 + |Body(e)|
  {
    [(|Body(e)| % 256) as byte] + Body(e)
  }

  /** The bytes of an entry, piece by piece. */
  lemma EntryIs(e: Entry, lenByte: byte)
    requires lenByte as int == |Body(e)| % 256
    ensures EntryBytes(e) == if e.value.Some? then [lenByte] + e.key + ([EQUALS] + e.value.value) else [lenByte] + e.key
  {
  }

  function Wire(es: seq<Entry>): (s: seq<byte>) {
    if es == [] then [] else EntryBytes(es[0]) + Wire(es[1..])
  }

  /** "a=b", and "a" without a value, as they go out. */
  lemma EntryOctets()
    ensures EntryBytes(Entry([97], Some([98]))) == [3, 97, 61, 98] && EntryBytes(Entry([97], None)) == [1, 97]
  {
    assert Body(Entry([97], Some([98]))) == [97] + [EQUALS] + [98] == [97, 61, 98];
  }

  /** The RDATA of a TXT record: a record without attributes holds one zero byte. */
  function Data(es: seq<Entry>): (s: seq<byte>) {
    if es == [] then [0] else Wire(es)
  }

  function AppendEntries(w: Writer, es: seq<Entry>): (e: Emit)
    requires w.Valid()
    ensures e.w.Valid()
    decreases |es|
  {
    if es == [] then Emit(w, 0, true)
    else
      var head := Put(w, EntryBytes(es[0]), w.index + |Body(es[0])| + 1 < SIZE);
      if !head.whole then head
      else
        var tail := AppendEntries(head.w, es[1..]);
        Emit(tail.w, head.ret + tail.ret, tail.whole)
  }

  /** The loop of `_mdns_append_txt_record`; an entry that does not fit abandons the record. */
  function AppendTxtData(w: Writer, es: seq<Entry>): (e: Emit)
    requires w.Valid() && w.index < SIZE
    ensures e.w.Valid()
  {
    var e := AppendEntries(w, es);
    if !e.whole then Emit(e.w, 0, false)
    else if e.ret == 0 then Put(e.w, [0], true)
    else e
  }

  /** Either every entry is stored, one after the other, or the append says so. */
  lemma {:induction false} AppendEntriesWrites(w: Writer, es: seq<Entry>)
    requires w.Valid()
    ensures var e := AppendEntries(w, es);
            && w.index <= e.w.index
            && (forall i :: 0 <= i < |w.mem| && !(w.index <= i < e.w.index) ==> e.w.mem[i] == w.mem[i])
            && (e.whole ==> && e.ret == |Wire(es)| && e.w.index == w.index + |Wire(es)|
                            && e.w.mem[w.index..e.w.index] == Wire(es))
    decreases |es|
  {
    hide Body, Splice;
    if es != [] {
      var head := Put(w, EntryBytes(es[0]), w.index + |Body(es[0])| + 1 < SIZE);
      if head.whole {
        hide EntryBytes;
        AppendEntriesWrites(head.w, es[1..]);
        var e := AppendEntries(w, es);
        if e.whole {
          assert e.w.mem[w.index..head.w.index] == head.w.mem[w.index..head.w.index] == EntryBytes(es[0]);
          SlicesJoin(e.w.mem, w.index, head.w.index, e.w.index);
        }
      }
    }
  }

  lemma SlicesJoin(mem: seq<byte>, a: nat, b: nat, c: nat)
    requires a <= b <= c <= |mem|
    ensures mem[a..c] == mem[a..b] + mem[b..c]
  {
  }

  lemma AppendTxtDataWrites(w: Writer, es: seq<Entry>)
    requires w.Valid() && w.index < SIZE
    ensures var e := AppendTxtData(w, es);
            && w.index <= e.w.index && (e.whole <==> e.ret > 0)
            && (forall i :: 0 <= i < |w.mem| && !(w.index <= i < e.w.index) ==> e.w.mem[i] == w.mem[i])
            && (e.whole ==> && e.ret == |Data(es)| && e.w.index == w.index + |Data(es)|
                            && e.w.mem[w.index..e.w.index] == Data(es))
  {
    AppendEntriesWrites(w, es);
  }

  // ---------------------------------------------------------------- decoder

  /** The loop of `_mdns_txt_items_count_get`; -1 when an item runs past the end. */
  function CountFrom(data: seq<byte>, i: nat): (n: int)
    ensures n >= -1
    decreases |data| - i
  {
    if i >= |data| || data[i] == 0 then 0
    else if i + 1 + data[i] > |data| then -1
    else
      var rest := CountFrom(data, i + 1 + data[i]);
      if rest < 0 then -1 else 1 + rest
  }

  function Count(data: seq<byte>): int {
    if |data| == 1 then 0 else CountFrom(data, 0)
  }

  /** Position of the first `=`, or the whole length. */
  function NameLen(body: seq<byte>): (n: nat)
    ensures n <= |body|
  {
    if body == [] || body[0] == EQUALS then 0 else 1 + NameLen(body[1..])
  }

  /** How far the decoder moves past an item with a key: one byte too far when there is no `=`. */
  function Stride(body: seq<byte>): (n: nat)
    ensures n > |body|
  {
    if NameLen(body) < |body| then 1 + |body| else 2 + |body|
  }

  function ItemOf(body: seq<byte>): Item {
    var k := NameLen(body);
    Item(body[..k], if k + 1 < |body| then Some(body[k + 1..]) else None)
  }

  /** The bytes of the item whose length byte is at `i`. */
  function BodyAt(data: seq<byte>, i: nat): (s: seq<byte>)
    requires i < |data| && i + 1 + data[i] <= |data|
    ensures |s| == data[i]
  {
    data[i + 1..i + 1 + data[i]]
  }

  /** One round of the decoder's loop. */
  datatype Chunk = Stop | Overrun | Skip(next: nat) | Keep(item: Item, next: nat)

  function ChunkAt(data: seq<byte>, i: nat): (c: Chunk)
    ensures c.Skip? || c.Keep? ==> i < |data| && i < c.next
  {
    if i >= |data| || data[i] == 0 then Stop
    else if i + 1 + data[i] > |data| then Overrun
    else if data[i + 1] == EQUALS then Skip(i + 1 + data[i])
    else Keep(ItemOf(BodyAt(data, i)), i + Stride(BodyAt(data, i)))
  }

  /** The loop of `_mdns_result_txt_create`. */
  function ParseFrom(data: seq<byte>, i: nat): (r: Option<seq<Item>>)
    decreases |data| - i
  {
    match ChunkAt(data, i)
    case Stop => Some([])
    case Overrun => None
    case Skip(next) => ParseFrom(data, next)
    case Keep(item, next) => Prepend([item], ParseFrom(data, next))
  }

  function Prepend(items: seq<Item>, rest: Option<seq<Item>>): Option<seq<Item>> {
    if rest.Some? then Some(items + rest.value) else None
  }

  /** How the loop ends: with its items, on an item that runs past the end, or with a store past its arrays. */
  datatype Parse = Done(items: seq<Item>) | Failed | OutOfBounds

  /** The loop of `_mdns_result_txt_create`, with arrays for `room` more items. */
  function ParseInto(data: seq<byte>, i: nat, room: nat): (r: Parse)
    decreases |data| - i
  {
    match ChunkAt(data, i)
    case Stop => Done([])
    case Overrun => Failed
    case Skip(next) => ParseInto(data, next, room)
    case Keep(item, next) => if room == 0 then OutOfBounds else Pushed([item], ParseInto(data, next, room - 1))
  }

  function Pushed(items: seq<Item>, rest: Parse): Parse {
    if rest.Done? then Done(items + rest.items) else rest
  }

  lemma PushOne(items: seq<Item>, item: Item, rest: Parse)
    ensures Pushed(items + [item], rest) == Pushed(items, Pushed([item], rest))
  {
    if rest.Done? {
      assert items + [item] + rest.items == items + ([item] + rest.items);
    }
  }

  lemma PushNothing(items: seq<Item>, rest: Parse)
    ensures Pushed(items, Done([])) == Done(items) && Pushed([], rest) == rest
  {
    assert items + [] == items;
    if rest.Done? {
      assert [] + rest.items == rest.items;
    }
  }

  /** What a caller gets: items, none after a failure, or the store past the arrays. */
  datatype Outcome = Items(items: seq<Item>) | StoredOutside

  /** `_mdns_result_txt_create`: the arrays have room for as many items as the counter found. */
  function Decode(data: seq<byte>): Outcome {
    if Count(data) <= 0 then Items([])
    else
      match ParseInto(data, 0, Count(data))
      case Done(items) => Items(items)
      case Failed => Items([])
      case OutOfBounds => StoredOutside
  }

  /** The decoder as the source runs it: count, make arrays of that size, fill them. */
  method DecodeTxt(data: seq<byte>) returns (r: Outcome)
    ensures r == Decode(data)
  {
    var n := CountItems(data);
    if n <= 0 {
      return Items([]);
    }
    var parsed := ItemLoop(data, n);
    match parsed
    case Done(items) => r := Items(items);
    case Failed => r := Items([]);
    case OutOfBounds => r := StoredOutside;
  }

  /** The loop: an index that may step one past the end of the data, and items stored one after the other. */
  method ItemLoop(data: seq<byte>, room: nat) returns (r: Parse)
    ensures r == ParseInto(data, 0, room)
  {
    hide Pushed, ItemOf, Stride, BodyAt;
    var i, num := 0, 0;
    var txt := new Item[room](_ => Item([], None));
    PushNothing([], ParseInto(data, 0, room));
    assert txt[..0] == [];
    while i < |data|
      invariant 0 <= i && num <= room
      invariant ParseInto(data, 0, room) == Pushed(txt[..num], ParseInto(data, i, room - num))
      decreases |data| - i
    {
      PushNothing(txt[..num], Failed);
      PushStops(txt[..num]);
      var partLen: nat := data[i];
      if partLen == 0 {
        return Done(txt[..num]);
      } else if i + 1 + partLen > |data| {
        return Failed;
      } else if data[i + 1] == EQUALS {
        i := i + 1 + partLen;
      } else {
        var item, next := CopyItem(data, i);
        if num == room {
          return OutOfBounds;
        }
        ghost var before := txt[..num];
        txt[num] := item;
        num := num + 1;
        assert txt[..num] == before + [item];
        PushOne(before, item, ParseInto(data, next, room - num));
        i := next;
      }
    }
    PushNothing(txt[..num], Failed);
    r := Done(txt[..num]);
  }

  lemma PushStops(items: seq<Item>)
    ensures Pushed(items, Failed) == Failed && Pushed(items, OutOfBounds) == OutOfBounds
  {
  }

  /** Copy the key and the value, if any, of the item whose length byte is at `i`. */
  method CopyItem(data: seq<byte>, i: nat) returns (item: Item, next: nat)
    requires i < |data| && 0 < data[i] && i + 1 + data[i] <= |data|
    ensures item == ItemOf(BodyAt(data, i)) && i < next == i + Stride(BodyAt(data, i))
  {
    var partLen: nat := data[i];
    var body := BodyAt(data, i);
    var nameLen := KeyLength(body);
    item := Item(body[..nameLen], None);
    next := i + nameLen + 2;
    if partLen > nameLen + 1 {
      item := item.(value := Some(data[next..next + partLen - nameLen - 1]));
      next := next + partLen - nameLen - 1;
    }
  }

  method CountItems(data: seq<byte>) returns (n: int)
    ensures n == Count(data)
  {
    if |data| == 1 {
      return 0;
    }
    n := 0;
    var i := 0;
    while i < |data|
      invariant 0 <= i <= |data| && n >= 0
      invariant CountFrom(data, 0) == if CountFrom(data, i) < 0 then -1 else n + CountFrom(data, i)
    {
      var partLen: nat := data[i];
      i := i + 1;
      if partLen == 0 {
        break;
      }
      if i + partLen > |data| {
        return -1;
      }
      i := i + partLen;
      n := n + 1;
    }
  }

  method KeyLength(body: seq<byte>) returns (n: nat)
    ensures n == NameLen(body)
  {
    for i := 0 to |body|
      invariant NameLen(body) == i + NameLen(body[i..])
    {
      assert body[i..][1..] == body[i + 1..];
      if body[i] == EQUALS {
        return i;
      }
    }
    return |body|;
  }

  // ---------------------------------------------------------------- when the arrays are large enough

  /** How many items the loop stores from `i` on, before it stops or fails. */
  function Stores(data: seq<byte>, i: nat): (n: nat)
    decreases |data| - i
  {
    match ChunkAt(data, i)
    case Stop => 0
    case Overrun => 0
    case Skip(next) => Stores(data, next)
    case Keep(_, next) => 1 + Stores(data, next)
  }

  /** The loop stores outside exactly when it stores more than there is room for; otherwise room makes no difference. */
  lemma {:induction false} RoomForStores(data: seq<byte>, i: nat, room: nat)
    ensures ParseInto(data, i, room) ==
            if Stores(data, i) > room then OutOfBounds
            else if ParseFrom(data, i).Some? then Done(ParseFrom(data, i).value) else Failed
    ensures ParseFrom(data, i).Some? ==> |ParseFrom(data, i).value| == Stores(data, i)
    decreases |data| - i
  {
    hide ItemOf, Stride, BodyAt;
    match ChunkAt(data, i)
    case Stop =>
    case Overrun =>
    case Skip(next) => RoomForStores(data, next, room);
    case Keep(_, next) => RoomForStores(data, next, if room == 0 then 0 else room - 1);
  }

  /** An item without `=`, on which the loop steps a byte too far. */
  predicate Bare(data: seq<byte>, i: nat) {
    ChunkAt(data, i).Keep? && NameLen(BodyAt(data, i)) == |BodyAt(data, i)|
  }

  /** Where the counter goes on after the first bare item, and the loop one byte later. */
  function Parting(data: seq<byte>, i: nat): (q: Option<nat>)
    ensures q.Some? ==> i < q.value <= |data|
    decreases |data| - i
  {
    match ChunkAt(data, i)
    case Stop => None
    case Overrun => None
    case Skip(next) => Parting(data, next)
    case Keep(_, next) => if Bare(data, i) then Some(i + 1 + data[i]) else Parting(data, next)
  }

  /** Items before that point that are counted but not stored, as they have no key. */
  function Keyless(data: seq<byte>, i: nat): (n: nat)
    decreases |data| - i
  {
    match ChunkAt(data, i)
    case Stop => 0
    case Overrun => 0
    case Skip(next) => 1 + Keyless(data, next)
    case Keep(_, next) => if Bare(data, i) then 0 else Keyless(data, next)
  }

  /** The counter and the loop look at the same item; the loop goes one byte further after a bare one. */
  lemma StepsAhead(data: seq<byte>, i: nat)
    ensures match ChunkAt(data, i)
            case Stop => i >= |data| || data[i] == 0
            case Overrun => i < |data| && data[i] > 0 && i + 1 + data[i] > |data|
            case Skip(next) => i < |data| && data[i] > 0 && next == i + 1 + data[i] <= |data|
            case Keep(_, next) =>
              i < |data| && data[i] > 0 && i + 1 + data[i] <= |data|
              && next == i + 1 + data[i] + if Bare(data, i) then 1 else 0
  {
    hide ItemOf;
  }

  /** Up to the parting, counter and loop differ by the keyless items; after it, by what each then finds. */
  lemma {:induction false} CountAgainstStores(data: seq<byte>, i: nat)
    requires CountFrom(data, i) >= 0
    ensures var q := Parting(data, i);
            && (q.None? ==> CountFrom(data, i) == Stores(data, i) + Keyless(data, i))
            && (q.Some? ==> CountFrom(data, q.value) >= 0
                            && CountFrom(data, i) - CountFrom(data, q.value)
                               == Stores(data, i) - Stores(data, q.value + 1) + Keyless(data, i))
    decreases |data| - i
  {
    hide ItemOf, ChunkAt, Bare;
    StepsAhead(data, i);
    match ChunkAt(data, i)
    case Stop =>
    case Overrun =>
    case Skip(next) =>
      CountAgainstStores(data, next);
    case Keep(_, next) =>
      if !Bare(data, i) {
        CountAgainstStores(data, next);
      }
  }

  /**
   * The decoder stays inside its arrays, exactly: it stores outside them if and only if there is a bare key after
   * which the walk that is one byte late stores more items than the counter finds from there on, the keyless items
   * before it added.
   */
  lemma DecoderStaysInside(data: seq<byte>)
    ensures Decode(data) == StoredOutside <==>
            && Count(data) > 0 && Parting(data, 0).Some?
            && Stores(data, Parting(data, 0).value + 1) > Keyless(data, 0) + CountFrom(data, Parting(data, 0).value)
    ensures Decode(data) != StoredOutside && Count(data) > 0 && ParseFrom(data, 0).Some? ==>
              |ParseFrom(data, 0).value| <= Count(data) && Decode(data) == Items(ParseFrom(data, 0).value)
  {
    hide ParseInto, ParseFrom, Stores, CountFrom, Parting, Keyless;
    if Count(data) > 0 {
      RoomForStores(data, 0, Count(data));
      CountAgainstStores(data, 0);
    }
  }

  /** In particular when every item with a key has `=`, or only the very last one has none. */
  lemma InStepStaysInside(data: seq<byte>)
    requires Parting(data, 0) == None || Parting(data, 0) == Some(|data|)
    ensures Decode(data) != StoredOutside
  {
    hide ParseInto, CountFrom, Parting, Keyless;
    if Count(data) > 0 && Parting(data, 0).Some? {
      CountAgainstStores(data, 0);
    }
    DecoderStaysInside(data);
  }

  /** Nine bytes with two items, of which the loop makes three. */
  const LATE: seq<byte> := [1, 107, 6, 1, 120, 45, 1, 121, 45]

  lemma LateWalkStoresOutside()
    ensures Count(LATE) == 2 && Decode(LATE) == StoredOutside
  {
    assert CountFrom(LATE, 9) == 0 && CountFrom(LATE, 2) == 1 && CountFrom(LATE, 0) == 2;
    BareKey(LATE, 0);
    BareKey(LATE, 3);
    BareKey(LATE, 6);
    assert ChunkAt(LATE, 9) == Stop;
    assert Stores(LATE, 9) == 0 && Stores(LATE, 6) == 1 && Stores(LATE, 3) == 2 && Stores(LATE, 0) == 3;
    RoomForStores(LATE, 0, 2);
  }

  /** A key of one letter, on its own. */
  lemma BareKey(data: seq<byte>, i: nat)
    requires i + 1 < |data| && data[i] == 1 && data[i + 1] != EQUALS
    ensures ChunkAt(data, i) == Keep(Item([data[i + 1]], None), i + 3)
  {
    assert BodyAt(data, i) == [data[i + 1]];
    assert NameLen([data[i + 1]]) == 1 + NameLen([data[i + 1]][1..]);
  }

  // ---------------------------------------------------------------- round trip

  /** What callers may put in: a non-empty key without `=`, in an entry of at most 255 bytes. */
  predicate Encodable(e: Entry) {
    e.key != [] && EQUALS !in e.key && |Body(e)| <= 255
  }

  /** What a client should read back. */
  function ToItem(e: Entry): Item {
    Item(e.key, if e.value.Some? && e.value.value != [] then e.value else None)
  }

  function ToItems(es: seq<Entry>): (r: seq<Item>)
    ensures |r| == |es| && forall i :: 0 <= i < |es| ==> r[i] == ToItem(es[i])
  {
    seq(|es|, i requires 0 <= i < |es| => ToItem(es[i]))
  }

  /** Every entry but possibly the last has a value. */
  predicate OnlyLastBare(es: seq<Entry>) {
    forall i :: 0 <= i < |es| - 1 ==> es[i].value.Some?
  }

  lemma {:induction false} NameLenOfKey(key: seq<byte>, rest: seq<byte>)
    requires EQUALS !in key && (rest == [] || rest[0] == EQUALS)
    ensures NameLen(key + rest) == |key|
    decreases |key|
  {
    if key != [] {
      assert key[0] in key && forall x :: x in key[1..] ==> x in key;
      assert (key + rest)[1..] == key[1..] + rest;
      NameLenOfKey(key[1..], rest);
    }
  }

  /** `data` from `p` on is the encoding of `es`. */
  predicate EncodedAt(data: seq<byte>, p: nat, es: seq<Entry>) {
    p <= |data| && data[p..] == Wire(es)
  }

  /** The first entry of an encoding, and where the others start. */
  lemma FirstEntry(data: seq<byte>, p: nat, es: seq<Entry>)
    requires EncodedAt(data, p, es) && es != [] && Encodable(es[0])
    ensures p < |data| && data[p] == |Body(es[0])| > 0 && p + 1 + data[p] <= |data| && BodyAt(data, p) == Body(es[0])
    ensures EncodedAt(data, p + 1 + data[p], es[1..])
    ensures es[1..] == [] ==> |data| == p + 1 + data[p]
  {
    hide Wire, EntryBytes, Body;
    WireCons(es);
    EntryParts(es[0]);
    Front(data, p, EntryBytes(es[0]), Wire(es[1..]));
    assert es[1..] == [] ==> Wire(es[1..]) == [] by {
      WireNothing();
    }
  }

  lemma WireCons(es: seq<Entry>)
    requires es != []
    ensures Wire(es) == EntryBytes(es[0]) + Wire(es[1..])
  {
  }

  lemma WireNothing()
    ensures Wire([]) == []
  {
  }

  lemma EntryParts(e: Entry)
    requires Encodable(e)
    ensures EntryBytes(e)[0] == |Body(e)| > 0 && EntryBytes(e)[1..] == Body(e)
  {
  }

  /** A run of bytes at the front of what follows `p`. */
  lemma Front(data: seq<byte>, p: nat, e: seq<byte>, rest: seq<byte>)
    requires p <= |data| && data[p..] == e + rest && e != []
    ensures p + |e| <= |data| && |data| == p + |e| + |rest|
    ensures data[p] == e[0] && data[p + 1..p + |e|] == e[1..] && data[p + |e|..] == rest
  {
    var s := data[p..];
    assert data[p] == s[0];
    assert data[p + 1..p + |e|] == s[1..|e|];
    assert data[p + |e|..] == s[|e|..];
  }

  /** How one encoded entry reads: a bare key takes the next byte with it. */
  lemma EntryReads(e: Entry)
    requires Encodable(e)
    ensures var body := Body(e);
            && body[0] != EQUALS && ItemOf(body) == ToItem(e)
            && Stride(body) == 1 + |body| + if e.value.Some? then 0 else 1
  {
    var body := Body(e);
    var rest := body[|e.key|..];
    assert body == e.key + rest;
    NameLenOfKey(e.key, rest);
    assert e.key[0] in e.key && body[0] == e.key[0];
    assert body[..|e.key|] == e.key;
    if e.value.Some? {
      assert body[|e.key| + 1..] == e.value.value;
    }
  }

  lemma {:induction false} WireParses(data: seq<byte>, p: nat, es: seq<Entry>)
    requires EncodedAt(data, p, es)
    requires forall e :: e in es ==> Encodable(e)
    requires OnlyLastBare(es)
    ensures ParseFrom(data, p) == Some(ToItems(es))
    decreases |es|
  {
    hide Body, ItemOf, Stride, BodyAt, EncodedAt;
    if es == [] {
      NothingEncoded(data, p);
    } else {
      assert Encodable(es[0]);
      FirstEntry(data, p, es);
      EntryReads(es[0]);
      BodyStarts(data, p);
      assert ToItems(es) == [ToItem(es[0])] + ToItems(es[1..]);
      if es[1..] != [] {
        WireParses(data, p + 1 + data[p], es[1..]);
      } else {
        assert ToItems(es[1..]) == [];
      }
    }
  }

  lemma NothingEncoded(data: seq<byte>, p: nat)
    requires EncodedAt(data, p, [])
    ensures p == |data|
  {
    assert |data[p..]| == 0;
  }

  lemma BodyStarts(data: seq<byte>, i: nat)
    requires i < |data| && 0 < data[i] && i + 1 + data[i] <= |data|
    ensures data[i + 1] == BodyAt(data, i)[0]
  {
  }

  /** The item counter always agrees with the encoder. */
  lemma {:induction false} WireCounts(data: seq<byte>, p: nat, es: seq<Entry>)
    requires EncodedAt(data, p, es)
    requires forall e :: e in es ==> Encodable(e)
    ensures CountFrom(data, p) == |es|
    decreases |es|
  {
    hide EncodedAt, BodyAt, Body;
    if es == [] {
      NothingEncoded(data, p);
    } else {
      assert Encodable(es[0]);
      FirstEntry(data, p, es);
      WireCounts(data, p + 1 + data[p], es[1..]);
    }
  }

  /**
   * If parsing from `c` bytes into the encoding yields the entries encoded, then `c` is 0 and only the last entry
   * can lack a value: an overshoot is never made up for.
   */
  lemma {:induction false} OvershootIsFatal(data: seq<byte>, p: nat, es: seq<Entry>, c: nat)
    requires EncodedAt(data, p, es)
    requires forall e :: e in es ==> Encodable(e)
    requires es != [] && ParseFrom(data, p + c) == Some(ToItems(es))
    ensures c == 0 && OnlyLastBare(es)
    decreases |data| - (p + c)
  {
    hide ChunkAt, Wire, EncodedAt;
    match ChunkAt(data, p + c)
    case Stop =>
      assert false;
    case Overrun =>
      assert false;
    case Skip(next) =>
      OvershootIsFatal(data, p, es, next - p);
    case Keep(item, next) =>
      var items := ParseFrom(data, next).value;
      assert ToItems(es) == [ToItem(es[0])] + ToItems(es[1..]);
      assert item == ([item] + items)[0] == ToItem(es[0]);
      assert items == ([item] + items)[1..] == ToItems(es[1..]);
      var over := if es[0].value.Some? then 0 else 1;
      KeepMoves(data, p, es, c);
      if es[1..] != [] {
        OvershootIsFatal(data, p + 1 + data[p], es[1..], c + over);
        assert forall i :: 1 <= i < |es| ==> es[i] == es[1..][i - 1];
      }
  }

  /** Reading the first entry from `c` bytes in: the overshoot is kept, and grows by one after a bare key. */
  lemma KeepMoves(data: seq<byte>, p: nat, es: seq<Entry>, c: nat)
    requires EncodedAt(data, p, es) && es != [] && Encodable(es[0])
    requires var ch := ChunkAt(data, p + c); ch.Keep? && ch.item == ToItem(es[0])
    ensures p < |data| && EncodedAt(data, p + 1 + data[p], es[1..])
    ensures ChunkAt(data, p + c).next == p + 1 + data[p] + c + if es[0].value.Some? then 0 else 1
    ensures es[1..] == [] ==> c == 0
  {
    hide ItemOf, Stride, Body, BodyAt, EncodedAt;
    FirstEntry(data, p, es);
    var body := BodyAt(data, p + c);
    BodyStarts(data, p + c);
    ItemLength(es[0], body);
    if es[1..] == [] && es[0].value == Some([]) && |body| == |es[0].key| {
      NoEqualsInside(es[0], body);
      LastByte(data, p, es[0]);
      LastOfBody(data, p + c);
    }
  }

  lemma LastOfBody(data: seq<byte>, i: nat)
    requires i < |data| && 0 < data[i] && i + 1 + data[i] <= |data|
    ensures BodyAt(data, i)[data[i] - 1] == data[i + data[i]]
  {
  }

  lemma LastByte(data: seq<byte>, p: nat, e: Entry)
    requires p < |data| && |data| == p + 1 + data[p] && BodyAt(data, p) == Body(e) && e.value == Some([])
    ensures data[|data| - 1] == EQUALS
  {
    assert Body(e)[|Body(e)| - 1] == EQUALS;
  }

  /** A body that reads as `e` has the stride of `e`, one more when `e` is bare. */
  lemma ItemLength(e: Entry, body: seq<byte>)
    requires Encodable(e) && body != [] && ItemOf(body) == ToItem(e)
    ensures NameLen(body) == |e.key|
    ensures Stride(body) == 1 + |Body(e)| + if e.value.Some? then 0 else 1
    ensures |body| >= |Body(e)| || (e.value == Some([]) && |body| == |e.key| == |Body(e)| - 1)
  {
    assert |body[..NameLen(body)]| == |e.key|;
  }

  /** A body that is all key ends in a byte of the key. */
  lemma NoEqualsInside(e: Entry, body: seq<byte>)
    requires Encodable(e) && body != [] && ItemOf(body) == ToItem(e) && |body| == |e.key|
    ensures body[|body| - 1] != EQUALS
  {
    ItemLength(e, body);
    assert body == body[..NameLen(body)] == e.key;
    assert body[|body| - 1] in e.key;
  }

  /**
   * TXT round trip, exactly: decoding what the encoder writes gives the entries back if and only if no entry before
   * the last is a bare key.  The item count is right in every case, and what does come back was stored inside the
   * arrays.
   */
  lemma TxtRoundTrip(es: seq<Entry>)
    requires forall e :: e in es ==> Encodable(e)
    ensures Decode(Data(es)) == Items(ToItems(es)) <==> OnlyLastBare(es)
    ensures Count(Data(es)) == |es|
  {
    if es != [] {
      var data := Data(es);
      assert Encodable(es[0]);
      assert |Wire(es)| >= |EntryBytes(es[0])| >= 2;
      assert data[0..] == Wire(es);
      WireCounts(data, 0, es);
      RoomForStores(data, 0, |es|);
      if OnlyLastBare(es) {
        WireParses(data, 0, es);
      }
      if Decode(data) == Items(ToItems(es)) {
        OvershootIsFatal(data, 0, es, 0);
      }
    }
  }
}
