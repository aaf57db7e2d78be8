/** Simultaneous probes: `_mdns_check_srv_collision` and `_mdns_check_txt_collision`. */
module TieBreak {
  import opened Options
  import opened Bytes
  import opened NameWriter
  import opened Txt

  // ---------------------------------------------------------------- the order on record data

  /** Sign of `memcmp` over the common length. */
  function Memcmp(a: seq<byte>, b: seq<byte>): (r: int)
    requires |a| == |b|
    ensures -1 <= r <= 1
  {
    if a == [] then 0
    else if a[0] < b[0] then -1
    else if a[0] > b[0] then 1
    else Memcmp(a[1..], b[1..])
  }

  /** 1 if `theirs` prevails, -1 if `ours` does, 0 if they are the same: the longer one, or else the bytewise greater. */
  function Contest(ours: seq<byte>, theirs: seq<byte>): (r: int)
    ensures -1 <= r <= 1
  {
    if |theirs| > |ours| then 1
    else if |theirs| < |ours| then -1
    else -Memcmp(ours, theirs)
  }

  method CompareBytes(a: seq<byte>, b: seq<byte>) returns (r: int)
    requires |a| == |b|
    ensures r == Memcmp(a, b)
  {
    var i := 0;
    while i < |a|
      invariant i <= |a| && Memcmp(a, b) == Memcmp(a[i..], b[i..])
    {
      assert a[i..][0] == a[i] && b[i..][0] == b[i] && a[i..][1..] == a[i + 1..] && b[i..][1..] == b[i + 1..];
      if a[i] != b[i] {
        return if a[i] < b[i] then -1 else 1;
      }
      i := i + 1;
    }
    r := 0;
  }

  lemma {:induction false} MemcmpOpposite(a: seq<byte>, b: seq<byte>)
    requires |a| == |b|
    ensures Memcmp(b, a) == -Memcmp(a, b)
    ensures Memcmp(a, b) == 0 <==> a == b
  {
    if a != [] {
      MemcmpOpposite(a[1..], b[1..]);
      assert a == [a[0]] + a[1..] && b == [b[0]] + b[1..];
    }
  }

  lemma {:induction false} MemcmpTransitive(a: seq<byte>, b: seq<byte>, c: seq<byte>)
    requires |a| == |b| == |c| && Memcmp(a, b) >= 0 && Memcmp(b, c) >= 0
    ensures Memcmp(a, c) >= 0
    ensures Memcmp(a, b) > 0 || Memcmp(b, c) > 0 ==> Memcmp(a, c) > 0
  {
    if a != [] && a[0] == b[0] == c[0] {
      MemcmpTransitive(a[1..], b[1..], c[1..]);
    }
  }

  /** The contest is a total order: both sides agree who wins, a draw means equality, and winning is transitive. */
  lemma ContestIsOrder(a: seq<byte>, b: seq<byte>, c: seq<byte>)
    ensures Contest(b, a) == -Contest(a, b)
    ensures Contest(a, b) == 0 <==> a == b
    ensures Contest(a, b) == -1 && Contest(b, c) == -1 ==> Contest(a, c) == -1
  {
    if |a| == |b| {
      MemcmpOpposite(a, b);
    }
    if Contest(a, b) == -1 && Contest(b, c) == -1 && |a| == |b| == |c| {
      MemcmpTransitive(a, b, c);
    }
  }

  /** `w` prevails over every other member. */
  ghost predicate Prevails(w: seq<byte>, all: set<seq<byte>>) {
    w in all && forall x :: x in all && x != w ==> Contest(w, x) == -1
  }

  /** Any finite set of distinct contenders has exactly one winner. */
  lemma UniqueWinner(all: set<seq<byte>>) returns (w: seq<byte>)
    requires all != {}
    ensures Prevails(w, all)
    ensures forall x :: Prevails(x, all) ==> x == w
  {
    w := Winner(all);
    forall x | Prevails(x, all)
      ensures x == w
    {
      ContestIsOrder(x, w, w);
    }
  }

  lemma {:induction false} Winner(all: set<seq<byte>>) returns (w: seq<byte>)
    requires all != {}
    ensures Prevails(w, all)
    decreases |all|
  {
    var x :| x in all;
    var rest := all - {x};
    if rest == {} {
      assert all == {x};
      w := x;
    } else {
      var y := Winner(rest);
      ContestIsOrder(x, y, y);
      w := if Contest(x, y) == -1 then x else y;
      forall z | z in all && z != w
        ensures Contest(w, z) == -1
      {
        if w == x && z != y {
          assert z in rest;
          ContestIsOrder(x, y, z);
        }
      }
    }
  }

  // ---------------------------------------------------------------- SRV

  datatype SrvClaim = SrvClaim(priority: nat, weight: nat, port: nat, host: Text) {
    predicate Valid() {
      priority < 0x1_0000 && weight < 0x1_0000 && port < 0x1_0000 && host != []
    }
  }

  /** Uncompressed SRV data; our own domain is always `local`. */
  function SrvBytes(priority: nat, weight: nat, port: nat, host: Text, domain: Text): (s: seq<byte>)
    ensures |s| == 9 + |host| + |domain|
  {
    U16Bytes(priority) + U16Bytes(weight) + U16Bytes(port) + [|host|] + host + [|domain|] + domain + [0]
  }

  /** `_mdns_check_srv_collision`, seen from a host named `hostname`. */
  method CheckSrvCollision(hostname: Text, priority: nat, weight: nat, port: nat,
                           theirPriority: nat, theirWeight: nat, theirPort: nat, host: Text, domain: Text)
    returns (r: int)
    ensures hostname == [] ==> r == 0
    ensures hostname != [] ==>
              r == Contest(SrvBytes(priority, weight, port, hostname, LOCAL),
                           SrvBytes(theirPriority, theirWeight, theirPort, host, domain))
  {
    if hostname == [] {
      return 0;
    }
    var ourLen := 14 + |hostname|;
    var theirLen := 9 + |host| + |domain|;
    if theirLen > ourLen {
      return 1;
    } else if theirLen < ourLen {
      return -1;
    }
    var ours := U16Bytes(priority) + U16Bytes(weight) + U16Bytes(port) + [|hostname|] + hostname + [5] + LOCAL + [0];
    var theirs := U16Bytes(theirPriority) + U16Bytes(theirWeight) + U16Bytes(theirPort)
                  + [|host|] + host + [|domain|] + domain + [0];
    var order := CompareBytes(ours, theirs);
    r := -order;
  }

  function SrvData(c: SrvClaim): seq<byte> {
    SrvBytes(c.priority, c.weight, c.port, c.host, LOCAL)
  }

  /** What host `a` concludes when it probes for `a` and hears `b`. */
  function SrvVerdict(a: SrvClaim, b: SrvClaim): int {
    Contest(SrvData(a), SrvData(b))
  }

  lemma U16Injective(x: nat, y: nat)
    requires x < 0x1_0000 && y < 0x1_0000
    ensures U16Bytes(x) == U16Bytes(y) ==> x == y
  {
    if U16Bytes(x) == U16Bytes(y) {
      assert U16Bytes(x)[0] == U16Bytes(y)[0] && U16Bytes(x)[1] == U16Bytes(y)[1];
    }
  }

  lemma SrvDataInjective(a: SrvClaim, b: SrvClaim)
    requires a.Valid() && b.Valid() && SrvData(a) == SrvData(b)
    ensures a == b
  {
    hide U16Bytes;
    var s, t := SrvData(a), SrvData(b);
    U16Injective(a.priority, b.priority);
    U16Injective(a.weight, b.weight);
    U16Injective(a.port, b.port);
    assert s[0..2] == U16Bytes(a.priority) && t[0..2] == U16Bytes(b.priority);
    assert s[2..4] == U16Bytes(a.weight) && t[2..4] == U16Bytes(b.weight);
    assert s[4..6] == U16Bytes(a.port) && t[4..6] == U16Bytes(b.port);
    assert s[7..7 + |a.host|] == a.host && t[7..7 + |b.host|] == b.host;
  }

  /** SRV tie-breaking among hosts running this code: opposite verdicts, a draw only between equals, transitive. */
  lemma SrvTieBreak(a: SrvClaim, b: SrvClaim, c: SrvClaim)
    requires a.Valid() && b.Valid() && c.Valid()
    ensures SrvVerdict(b, a) == -SrvVerdict(a, b)
    ensures SrvVerdict(a, b) == 0 <==> a == b
    ensures SrvVerdict(a, b) == -1 && SrvVerdict(b, c) == -1 ==> SrvVerdict(a, c) == -1
  {
    ContestIsOrder(SrvData(a), SrvData(b), SrvData(c));
    if SrvVerdict(a, b) == 0 {
      SrvDataInjective(a, b);
    }
  }

  ghost predicate SrvPrevails(w: SrvClaim, all: set<SrvClaim>) {
    w in all && forall x :: x in all && x != w ==> SrvVerdict(w, x) == -1
  }

  /** However many hosts claim the same service differently, exactly one of them keeps it. */
  lemma OneSrvClaimPrevails(all: set<SrvClaim>) returns (w: SrvClaim)
    requires all != {} && forall x :: x in all ==> x.Valid()
    ensures SrvPrevails(w, all)
    ensures forall x :: SrvPrevails(x, all) ==> x == w
  {
    var datas := set x | x in all :: SrvData(x);
    var some :| some in all;
    assert SrvData(some) in datas;
    var data := UniqueWinner(datas);
    w :| w in all && SrvData(w) == data;
    forall x | x in all && x != w
      ensures SrvVerdict(w, x) == -1
    {
      SrvTieBreak(w, x, x);
      assert SrvData(x) in datas;
    }
    forall x | SrvPrevails(x, all)
      ensures x == w
    {
      SrvTieBreak(x, w, w);
    }
  }

  /** Plain bytewise order, shorter prefix first: what section 8.2 of RFC 6762 asks for. */
  predicate LexicographicallyLater(a: seq<byte>, b: seq<byte>) {
    if b == [] then a != []
    else if a == [] then false
    else a[0] > b[0] || (a[0] == b[0] && LexicographicallyLater(a[1..], b[1..]))
  }

  /** The two orders differ: port 2 on host "a" is lexicographically later than port 1 on host "aa", yet loses. */
  lemma NotTheLexicographicOrder()
    ensures var a, b := SrvClaim(0, 0, 2, [97]), SrvClaim(0, 0, 1, [97, 97]);
            LexicographicallyLater(SrvData(a), SrvData(b)) && SrvVerdict(a, b) == 1
  {
    var s, t := SrvData(SrvClaim(0, 0, 2, [97])), SrvData(SrvClaim(0, 0, 1, [97, 97]));
    assert s[..6] == [0, 0, 0, 0, 0, 2] && t[..6] == [0, 0, 0, 0, 0, 1];
    assert forall i :: 0 <= i < 6 ==> s[i] == s[..6][i] && t[i] == t[..6][i];
    LaterAt(s, t, 5);
  }

  lemma {:induction false} LaterAt(a: seq<byte>, b: seq<byte>, k: nat)
    requires k < |a| && k < |b| && (forall i :: 0 <= i < k ==> a[i] == b[i]) && a[k] > b[k]
    ensures LexicographicallyLater(a, b)
  {
    if k > 0 {
      LaterAt(a[1..], b[1..], k - 1);
    }
  }

  /** The part of the record data in front of the target: priority, weight and port. */
  function Ints(c: SrvClaim): (s: seq<byte>)
    ensures |s| == 6
  {
    U16Bytes(c.priority) + U16Bytes(c.weight) + U16Bytes(c.port)
  }

  /** The bytewise order looks at the first parts first. */
  lemma {:induction false} LaterByParts(x: seq<byte>, y: seq<byte>, a: seq<byte>, b: seq<byte>)
    requires |x| == |y|
    ensures LexicographicallyLater(x + a, y + b)
        <==> if x == y then LexicographicallyLater(a, b) else LexicographicallyLater(x, y)
    decreases |x|
  {
    if x == [] {
      assert x + a == a && y + b == b;
    } else {
      assert (x + a)[1..] == x[1..] + a && (y + b)[1..] == y[1..] + b;
      assert x == [x[0]] + x[1..] && y == [y[0]] + y[1..];
      LaterByParts(x[1..], y[1..], a, b);
    }
  }

  /** Among data of one length the two orders are the same. */
  lemma {:induction false} LaterIsMemcmp(a: seq<byte>, b: seq<byte>)
    requires |a| == |b|
    ensures LexicographicallyLater(a, b) <==> Memcmp(a, b) == 1
  {
    if a != [] {
      LaterIsMemcmp(a[1..], b[1..]);
    }
  }

  /**
   * When the code decides as section 8.2 of RFC 6762 asks: exactly when the host names are equally long, or the
   * integers in front of them are the same, or the longer host name goes with the later integers.
   */
  lemma WhenSrvOrdersAgree(a: SrvClaim, b: SrvClaim)
    requires a.Valid() && b.Valid() && a != b
    ensures (LexicographicallyLater(SrvData(a), SrvData(b)) <==> SrvVerdict(a, b) == -1)
       <==> || |a.host| == |b.host| || Ints(a) == Ints(b)
            || (|a.host| > |b.host| <==> LexicographicallyLater(Ints(a), Ints(b)))
  {
    hide U16Bytes, LexicographicallyLater;
    if |a.host| == |b.host| {
      LaterIsMemcmp(SrvData(a), SrvData(b));
    } else {
      LaterByHostLength(a, b);
    }
  }

  lemma LaterByHostLength(a: SrvClaim, b: SrvClaim)
    requires |a.host| != |b.host|
    ensures LexicographicallyLater(SrvData(a), SrvData(b))
        <==> if Ints(a) == Ints(b) then |a.host| > |b.host| else LexicographicallyLater(Ints(a), Ints(b))
  {
    hide U16Bytes;
    var x, y := [|a.host|] + a.host + [|LOCAL|] + LOCAL + [0], [|b.host|] + b.host + [|LOCAL|] + LOCAL + [0];
    assert SrvData(a) == Ints(a) + x && SrvData(b) == Ints(b) + y;
    LaterByParts(Ints(a), Ints(b), x, y);
    assert x[0] == |a.host| && y[0] == |b.host|;
  }

  // ---------------------------------------------------------------- TXT

  /**
   * `_mdns_check_txt_collision`.  `stack` is what the local array for our own data holds at first: entries that
   * would end past the capacity of a packet are not written into it.
   */
  method CheckTxtCollision(txt: seq<Entry>, data: seq<byte>, stack: seq<byte>) returns (r: int)
    requires |stack| == |data|
    ensures r == TxtVerdictOver(txt, data, stack)
  {
    hide EntryBytes, Memcmp;
    if |data| == 1 && txt != [] {
      return -1;
    } else if |data| > 1 && txt == [] {
      return 1;
    } else if |data| == 1 && txt == [] {
      return 0;
    }
    var dataLen := 0;
    for i := 0 to |txt|
      invariant |Wire(txt)| == dataLen + |Wire(txt[i..])|
    {
      assert txt[i..][0] == txt[i] && txt[i..][1..] == txt[i + 1..];
      dataLen := dataLen + 1 + |txt[i].key| + if txt[i].value.Some? then |txt[i].value.value| + 1 else 0;
    }
    assert txt[|txt|..] == [];
    if |data| > dataLen {
      return 1;
    } else if |data| < dataLen {
      return -1;
    }
    var ours := WriteEntries(txt, stack);
    var order := CompareBytes(ours, data);
    r := -order;
  }

  /** What the array holds after `txt` is written from `index` on. */
  function Filled(ours: seq<byte>, index: nat, txt: seq<Entry>): (r: seq<byte>)
    requires index + |Wire(txt)| <= |ours|
    ensures |r| == |ours|
    decreases |txt|
  {
    if txt == [] then ours
    else if index + |Body(txt[0])| + 1 >= SIZE then Filled(ours, index, txt[1..])
    else Filled(Splice(ours, index, EntryBytes(txt[0])), index + |EntryBytes(txt[0])|, txt[1..])
  }

  method WriteEntries(txt: seq<Entry>, stack: seq<byte>) returns (filled: seq<byte>)
    requires |Wire(txt)| <= |stack|
    ensures filled == Filled(stack, 0, txt)
  {
    hide EntryBytes, Body, Splice;
    var ours := new byte[|stack|](k requires 0 <= k < |stack| => stack[k]);
    assert ours[..] == stack && txt[0..] == txt;
    var index: nat := 0;
    for i := 0 to |txt|
      invariant index + |Wire(txt[i..])| <= ours.Length == |stack|
      invariant Filled(stack, 0, txt) == Filled(ours[..], index, txt[i..])
    {
      FilledStep(ours[..], index, txt, i);
      index := WriteEntry(ours, index, txt[i]);
    }
    assert txt[|txt|..] == [];
    filled := ours[..];
  }

  lemma FilledStep(ours: seq<byte>, index: nat, txt: seq<Entry>, i: nat)
    requires i < |txt| && index + |Wire(txt[i..])| <= |ours|
    ensures |Wire(txt[i..])| == |EntryBytes(txt[i])| + |Wire(txt[i + 1..])|
    ensures Filled(ours, index, txt[i..])
         == if index + |Body(txt[i])| + 1 >= SIZE then Filled(ours, index, txt[i + 1..])
            else Filled(Splice(ours, index, EntryBytes(txt[i])), index + |EntryBytes(txt[i])|, txt[i + 1..])
  {
    hide EntryBytes, Body, Splice;
    assert txt[i..][0] == txt[i] && txt[i..][1..] == txt[i + 1..];
  }

  /** `append_one_txt_record_entry` into an array of our own. */
  method WriteEntry(ours: array<byte>, index: nat, e: Entry) returns (next: nat)
    requires index + 1 + |Body(e)| <= ours.Length
    modifies ours
    ensures if index + |Body(e)| + 1 >= SIZE then next == index && ours[..] == old(ours[..])
            else next == index + |EntryBytes(e)| && ours[..] == Splice(old(ours[..]), index, EntryBytes(e))
  {
    var len := |e.key| + if e.value.Some? then |e.value.value| + 1 else 0;
    if index + len + 1 >= SIZE {
      return index;
    }
    hide Splice, Body, EntryBytes;
    ghost var before := ours[..];
    var lenByte := (len % 256) as byte;
    EntryIs(e, lenByte);
    WriteTwo(ours, index, [lenByte], e.key);
    if e.value.Some? {
      WriteTwo(ours, index + 1 + |e.key|, [EQUALS], e.value.value);
      SpliceTwice(before, index, [lenByte] + e.key, [EQUALS] + e.value.value);
    }
    next := index + 1 + len;
  }

  method WriteTwo(ours: array<byte>, at: nat, a: seq<byte>, b: seq<byte>)
    requires at + |a| + |b| <= ours.Length
    modifies ours
    ensures ours[..] == Splice(old(ours[..]), at, a + b)
  {
    hide Splice;
    SpliceTwice(ours[..], at, a, b);
    CopyInto(ours, at, a);
    CopyInto(ours, at + |a|, b);
  }

  method CopyInto(ours: array<byte>, at: nat, bytes: seq<byte>)
    requires at + |bytes| <= ours.Length
    modifies ours
    ensures ours[..] == Splice(old(ours[..]), at, bytes)
  {
    for i := 0 to |bytes|
      invariant forall k :: 0 <= k < ours.Length ==>
                  ours[k] == if at <= k < at + i then bytes[k - at] else old(ours[k])
    {
      ours[at + i] := bytes[i];
    }
  }

  lemma SpliceTwice(mem: seq<byte>, at: nat, a: seq<byte>, b: seq<byte>)
    requires at + |a| + |b| <= |mem|
    ensures Splice(Splice(mem, at, a), at + |a|, b) == Splice(mem, at, a + b)
  {
  }

  /** The verdict, with whatever was in the array before. */
  function TxtVerdictOver(txt: seq<Entry>, data: seq<byte>, stack: seq<byte>): int
    requires |stack| == |data|
  {
    if |data| == 1 || |data| != |Wire(txt)| then TxtVerdict(txt, data)
    else -Memcmp(Filled(stack, 0, txt), data)
  }

  /** If the data received or the attributes held fit a packet, what the array held before makes no difference. */
  lemma VerdictIgnoresTheStack(txt: seq<Entry>, data: seq<byte>, stack: seq<byte>)
    requires |stack| == |data| && (|data| < SIZE || |Wire(txt)| < SIZE)
    ensures TxtVerdictOver(txt, data, stack) == TxtVerdict(txt, data)
  {
    if |data| == |Wire(txt)| {
      FilledIsWire(stack, 0, txt);
      assert Splice(stack, 0, Wire(txt)) == Wire(txt);
    }
  }

  lemma {:induction false} FilledIsWire(ours: seq<byte>, index: nat, txt: seq<Entry>)
    requires index + |Wire(txt)| <= |ours| && index + |Wire(txt)| < SIZE
    ensures Filled(ours, index, txt) == Splice(ours, index, Wire(txt))
    decreases |txt|
  {
    if txt == [] {
      assert Splice(ours, index, []) == ours;
    } else {
      hide EntryBytes, Body, Splice;
      var x := EntryBytes(txt[0]);
      FilledIsWire(Splice(ours, index, x), index + |x|, txt[1..]);
      SpliceTwice(ours, index, x, Wire(txt[1..]));
    }
  }

  /** One byte of data counts as no attributes; otherwise the same contest as for SRV. */
  function TxtVerdict(txt: seq<Entry>, data: seq<byte>): int {
    if |data| == 1 && txt != [] then -1
    else if |data| == 1 then 0
    else if |data| > 1 && txt == [] then 1
    else Contest(Wire(txt), data)
  }

  /** What encoders here may hold: non-empty keys. */
  predicate Keyed(txt: seq<Entry>) {
    forall e :: e in txt ==> e.key != []
  }

  /** On data written by the same encoder the verdict is the plain contest of the two encodings. */
  lemma TxtVerdictIsContest(a: seq<Entry>, b: seq<Entry>)
    requires Keyed(a) && Keyed(b)
    ensures TxtVerdict(a, Data(b)) == Contest(Data(a), Data(b))
  {
    if a != [] {
    }
    if b != [] {
    }
    if a == [] && b == [] {
      MemcmpOpposite([0], [0]);
    }
  }

  /**
   * TXT tie-breaking: opposite verdicts, a draw only between equal encodings, transitive; and on data shorter than a
   * packet it is what the source's array comparison decides, whatever was in the array.
   */
  lemma TxtTieBreak(a: seq<Entry>, b: seq<Entry>, c: seq<Entry>)
    requires Keyed(a) && Keyed(b) && Keyed(c)
    ensures TxtVerdict(b, Data(a)) == -TxtVerdict(a, Data(b))
    ensures TxtVerdict(a, Data(b)) == 0 <==> Data(a) == Data(b)
    ensures TxtVerdict(a, Data(b)) == -1 && TxtVerdict(b, Data(c)) == -1 ==> TxtVerdict(a, Data(c)) == -1
    ensures |Data(b)| < SIZE ==>
              forall stack :: |stack| == |Data(b)| ==> TxtVerdictOver(a, Data(b), stack) == TxtVerdict(a, Data(b))
  {
    hide TxtVerdict, TxtVerdictOver, Contest, Data;
    if |Data(b)| < SIZE {
      forall stack | |stack| == |Data(b)|
        ensures TxtVerdictOver(a, Data(b), stack) == TxtVerdict(a, Data(b))
      {
        VerdictIgnoresTheStack(a, Data(b), stack);
      }
    }
    TxtVerdictIsContest(a, b);
    TxtVerdictIsContest(b, a);
    TxtVerdictIsContest(b, c);
    TxtVerdictIsContest(a, c);
    ContestIsOrder(Data(a), Data(b), Data(c));
  }

  lemma BodyInjective(a: Entry, b: Entry)
    requires Encodable(a) && Encodable(b) && Body(a) == Body(b)
    ensures a == b
  {
    EntryReads(a);
    EntryReads(b);
    KeyLengthOf(a);
    KeyLengthOf(b);
    assert Body(a)[..|a.key|] == a.key && Body(b)[..|b.key|] == b.key;
    if a.value.Some? {
      assert Body(a)[|a.key| + 1..] == a.value.value;
    }
    if b.value.Some? {
      assert Body(b)[|b.key| + 1..] == b.value.value;
    }
  }

  lemma KeyLengthOf(e: Entry)
    requires Encodable(e)
    ensures NameLen(Body(e)) == |e.key|
    ensures e.value.None? <==> |Body(e)| == |e.key|
  {
    var rest := Body(e)[|e.key|..];
    assert Body(e) == e.key + rest;
    NameLenOfKey(e.key, rest);
  }

  /** Equal encodings come from equal attributes. */
  lemma {:induction false} WireInjective(a: seq<Entry>, b: seq<Entry>)
    requires (forall e :: e in a ==> Encodable(e)) && (forall e :: e in b ==> Encodable(e))
    requires Wire(a) == Wire(b)
    ensures a == b
    decreases |a|
  {
    if a != [] && b != [] {
      assert Encodable(a[0]) && Encodable(b[0]);
      FirstEntryEqual(a, b);
      BodyInjective(a[0], b[0]);
      WireInjective(a[1..], b[1..]);
      assert a == [a[0]] + a[1..] && b == [b[0]] + b[1..];
    } else {
      assert |Wire(a)| == |Wire(b)|;
    }
  }

  lemma FirstEntryEqual(a: seq<Entry>, b: seq<Entry>)
    requires a != [] && b != [] && Encodable(a[0]) && Encodable(b[0]) && Wire(a) == Wire(b)
    ensures Body(a[0]) == Body(b[0]) && Wire(a[1..]) == Wire(b[1..])
  {
    hide Body;
    var s, x, y := Wire(a), EntryBytes(a[0]), EntryBytes(b[0]);
    assert s[0] == x[0] == |Body(a[0])| && s[0] == y[0] == |Body(b[0])|;
    assert x == s[..|x|] && y == s[..|y|] && Wire(a[1..]) == s[|x|..] && Wire(b[1..]) == s[|y|..];
    assert x[1..] == Body(a[0]) && y[1..] == Body(b[0]);
  }

  /** So two hosts see no TXT conflict exactly when they hold the same attributes in the same order. */
  lemma NoTxtConflictMeansSame(a: seq<Entry>, b: seq<Entry>)
    requires (forall e :: e in a ==> Encodable(e)) && (forall e :: e in b ==> Encodable(e))
    ensures TxtVerdict(a, Data(b)) == 0 <==> a == b
  {
    TxtTieBreak(a, b, b);
    if Data(a) == Data(b) {
      if a != [] {
      }
      if b != [] {
      }
      if a != [] && b != [] {
        WireInjective(a, b);
      }
    }
  }

  predicate AllEncodable(es: seq<Entry>) {
    forall e :: e in es ==> Encodable(e)
  }

  ghost predicate TxtPrevails(w: seq<Entry>, all: set<seq<Entry>>) {
    w in all && forall x :: x in all && x != w ==> TxtVerdict(w, Data(x)) == -1
  }

  /** However many hosts hold different attributes for the same service, exactly one of them prevails. */
  lemma OneTxtClaimPrevails(all: set<seq<Entry>>) returns (w: seq<Entry>)
    requires all != {} && forall x :: x in all ==> AllEncodable(x)
    ensures TxtPrevails(w, all)
    ensures forall x :: TxtPrevails(x, all) ==> x == w
  {
    hide Data, Contest, TxtVerdict;
    var datas := set x | x in all :: Data(x);
    var some :| some in all;
    assert Data(some) in datas;
    var data := UniqueWinner(datas);
    w :| w in all && Data(w) == data;
    forall x | x in all && x != w
      ensures TxtVerdict(w, Data(x)) == -1 && TxtVerdict(x, Data(w)) != -1
    {
      assert Data(x) in datas && AllEncodable(x) && AllEncodable(w);
      TxtVerdictIsContest(w, x);
      NoTxtConflictMeansSame(w, x);
      TxtTieBreak(w, x, x);
    }
    forall x | TxtPrevails(x, all)
      ensures x == w
    {
      assert w in all;
    }
  }

  /** How many entries two lists begin with in common. */
  function Common(a: seq<Entry>, b: seq<Entry>): (k: nat)
    ensures k <= |a| && k <= |b| && a[..k] == b[..k]
    ensures k < |a| && k < |b| ==> a[k] != b[k]
  {
    if a == [] || b == [] || a[0] != b[0] then 0 else 1 + Common(a[1..], b[1..])
  }

  /** Which of two lists is bytewise later: the one with more entries, or else the one that wins the first difference. */
  lemma {:induction false} LaterByFirstDifference(a: seq<Entry>, b: seq<Entry>)
    requires AllEncodable(a) && AllEncodable(b) && a != b
    ensures var k := Common(a, b);
            LexicographicallyLater(Wire(a), Wire(b))
            <==> if k == |a| || k == |b| then k < |a| else Contest(Body(a[k]), Body(b[k])) == -1
    ensures Common(a, b) == |a| ==> |Wire(a)| < |Wire(b)|
    ensures Common(a, b) == |b| ==> |Wire(b)| < |Wire(a)|
  {
    hide Body, Memcmp;
    if a == [] || b == [] {
    } else if a[0] != b[0] {
      LaterByEntry(a, b);
    } else {
      assert a == [a[0]] + a[1..] && b == [b[0]] + b[1..];
      LaterByParts(EntryBytes(a[0]), EntryBytes(b[0]), Wire(a[1..]), Wire(b[1..]));
      LaterByFirstDifference(a[1..], b[1..]);
    }
  }

  lemma LaterByEntry(a: seq<Entry>, b: seq<Entry>)
    requires a != [] && b != [] && a[0] != b[0] && Encodable(a[0]) && Encodable(b[0])
    ensures LexicographicallyLater(Wire(a), Wire(b)) <==> Contest(Body(a[0]), Body(b[0])) == -1
  {
    hide Body, Memcmp, LexicographicallyLater, Wire, EntryBytes;
    var x, y := Body(a[0]), Body(b[0]);
    WireStarts(a);
    WireStarts(b);
    LaterByParts([|x|], [|y|], x + Wire(a[1..]), y + Wire(b[1..]));
    OneByteLater(|x|, |y|);
    if |x| == |y| {
      LaterByParts(x, y, Wire(a[1..]), Wire(b[1..]));
      LaterIsMemcmp(x, y);
      if x == y {
        BodyInjective(a[0], b[0]);
      }
    }
  }

  lemma WireStarts(es: seq<Entry>)
    requires es != [] && Encodable(es[0])
    ensures var x := Body(es[0]); |x| <= 255 && Wire(es) == [|x|] + (x + Wire(es[1..]))
  {
    hide Body, Wire;
    WireCons(es);
    assert [|Body(es[0])|] + Body(es[0]) + Wire(es[1..]) == [|Body(es[0])|] + (Body(es[0]) + Wire(es[1..]));
  }

  lemma OneByteLater(x: byte, y: byte)
    ensures LexicographicallyLater([x], [y]) <==> x > y
  {
    assert [x][1..] == [] && [y][1..] == [];
  }

  /**
   * The same for TXT data: the orders agree exactly when the data are equally long, or one list continues the other,
   * or the longer data has, in the first entry that differs, the longer or else the bytewise greater one.
   */
  lemma WhenTxtOrdersAgree(a: seq<Entry>, b: seq<Entry>)
    requires AllEncodable(a) && AllEncodable(b) && a != b
    ensures var k := Common(a, b);
            (LexicographicallyLater(Data(a), Data(b)) <==> TxtVerdict(a, Data(b)) == -1)
            <==> || |Data(a)| == |Data(b)| || k == |a| || k == |b|
                 || (|Data(a)| > |Data(b)| <==> Contest(Body(a[k]), Body(b[k])) == -1)
  {
    hide Body, Memcmp, LexicographicallyLater, Wire, TxtVerdict;
    assert Keyed(a) && Keyed(b);
    TxtVerdictIsContest(a, b);
    LaterByFirstDifference(a, b);
    if |Data(a)| == |Data(b)| {
      LaterIsMemcmp(Data(a), Data(b));
    } else if a == [] {
      LaterThanNothing(b);
    } else if b == [] {
      LaterThanNothing(a);
    }
  }

  lemma LaterThanNothing(es: seq<Entry>)
    requires es != [] && Encodable(es[0])
    ensures LexicographicallyLater(Data(es), Data([])) && !LexicographicallyLater(Data([]), Data(es))
    ensures |Data(es)| > |Data([])|
  {
    assert Data(es)[0] == EntryBytes(es[0])[0] == |Body(es[0])| > 0;
  }

  /** One attribute "b" is bytewise later than two attributes "a", yet loses. */
  lemma TxtIsNotLexicographicEither()
    ensures var a, b := [Entry([98], None)], [Entry([97], None), Entry([97], None)];
            LexicographicallyLater(Data(a), Data(b)) && TxtVerdict(a, Data(b)) == 1
  {
    var x, y := Entry([97], None), Entry([98], None);
    assert Wire([y]) == EntryBytes(y) == [1, 98];
    assert [x, x][1..] == [x] && Wire([x]) == [1, 97];
    assert Wire([x, x]) == [1, 97, 1, 97];
    LaterAt([1, 98], [1, 97, 1, 97], 1);
  }
}
