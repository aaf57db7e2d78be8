/** Writing domain names with back-pointer compression: `_mdns_append_fqdn` and the integer appenders below it. */
module NameWriter {
  import opened Options
  import opened Bytes
  import opened NameReader

  /** The outgoing packet and the write position, as values. */
  datatype Writer = Writer(mem: seq<byte>, index: nat) {
    predicate Valid() {
      |mem| == SIZE + SLACK && index <= SIZE
    }
  }

  /** Outcome of an appender: the new buffer, the returned length, and whether every nested append succeeded. */
  datatype Emit = Emit(w: Writer, ret: nat, whole: bool)

  // ---------------------------------------------------------------- integers and strings

  function AppendU8(w: Writer, v: byte): (e: Emit)
    requires w.Valid()
    ensures e.w.Valid()
  {
    if w.index >= SIZE then Emit(w, 0, false)
    else Emit(Writer(w.mem[w.index := v], w.index + 1), 1, true)
  }

  function U16Bytes(v: nat): (s: seq<byte>)
    ensures |s| == 2
  {
    [v / 256 % 256, v % 256]
  }

  function U32Bytes(v: nat): (s: seq<byte>)
    ensures |s| == 4
  {
    [v / 0x100_0000 % 256, v / 0x1_0000 % 256, v / 256 % 256, v % 256]
  }

  /** Cutting off one octet at a time is the same as cutting off two or three. */
  lemma Cuts(v: nat)
    ensures v / 0x1_0000 == v / 256 / 256 && v / 0x100_0000 == v / 256 / 256 / 256
  {
    var a := v / 256;
    var b := a / 256;
    var c := b / 256;
    assert v == 256 * a + v % 256 && a == 256 * b + a % 256 && b == 256 * c + b % 256;
    assert v == 0x1_0000 * b + (256 * (a % 256) + v % 256);
    assert v == 0x100_0000 * c + (0x1_0000 * (b % 256) + 256 * (a % 256) + v % 256);
  }

  /** Network byte order: the most significant octet first. */
  lemma BigEndian(v: nat)
    ensures v < 0x1_0000 ==> v == U16Bytes(v)[0] as int * 256 + U16Bytes(v)[1]
    ensures v < 0x1_0000_0000 ==>
              v == U32Bytes(v)[0] as int * 0x100_0000 + U32Bytes(v)[1] as int * 0x1_0000 + U32Bytes(v)[2] as int * 256
                   + U32Bytes(v)[3]
  {
    Cuts(v);
  }

  /** Store a run of bytes at the write position if `room` (what the caller checks) says it fits. */
  function Put(w: Writer, bytes: seq<byte>, room: bool): (e: Emit)
    requires w.Valid() && (room ==> w.index + |bytes| <= SIZE)
    ensures e.w.Valid()
  {
    if !room then Emit(w, 0, false)
    else Emit(Writer(Splice(w.mem, w.index, bytes), w.index + |bytes|), |bytes|, true)
  }

  function AppendU16(w: Writer, v: nat): (e: Emit)
    requires w.Valid()
    ensures e.w.Valid()
  {
    Put(w, U16Bytes(v), w.index + 1 < SIZE)
  }

  function AppendU32(w: Writer, v: nat): (e: Emit)
    requires w.Valid()
    ensures e.w.Valid()
  {
    Put(w, U32Bytes(v), w.index + 3 < SIZE)
  }

  /** `_mdns_append_string`: one uncompressed label.  The length returned is a `uint8_t`, so 255 octets report 0. */
  function AppendString(w: Writer, s: Text): (e: Emit)
    requires w.Valid()
    ensures e.w.Valid()
  {
    var e := Put(w, [|s|] + s, w.index + |s| + 1 < SIZE);
    Emit(e.w, e.ret % 256, e.whole && |s| < 255)
  }

  /** A label of 255 octets is stored, but reported as nothing. */
  lemma LongestStringCountsAsNothing(w: Writer, s: Text)
    requires w.Valid() && |s| == 255 && w.index + 256 < SIZE
    ensures var e := AppendString(w, s);
            e.ret == 0 && !e.whole && e.w.index == w.index + 256 && e.w.mem[w.index..e.w.index] == [255] + s
  {
  }

  // ---------------------------------------------------------------- the search for an earlier occurrence

  /** The candidate at `loc` reads, over the whole buffer, as the wanted name. */
  predicate Accepts(mem: seq<byte>, loc: nat, strings: seq<Text>)
    requires |mem| == SIZE + SLACK && loc < SIZE && strings != []
  {
    && mem[loc] == |strings[0]|
    && mem[loc + 1..loc + 1 + |strings[0]|] == strings[0]
    && var r := Read(mem, SIZE, loc, loc, EMPTY);
      && r.Good?
      && r.name.parts == |strings|
      && forall i :: 0 <= i < |strings| ==> NoCase(strings[i], r.name.fields[i])
  }

  /** The first accepted candidate in [from, index). */
  function FirstMatch(mem: seq<byte>, index: nat, strings: seq<Text>, from: nat): (r: Option<nat>)
    requires |mem| == SIZE + SLACK && from <= index <= SIZE && strings != []
    ensures r.Some? ==> from <= r.value < index && Accepts(mem, r.value, strings)
    ensures forall i :: from <= i < (if r.Some? then r.value else index) ==> !Accepts(mem, i, strings)
    decreases index - from
  {
    if from == index then None
    else if Accepts(mem, from, strings) then Some(from)
    else FirstMatch(mem, index, strings, from + 1)
  }

  /**
   * `_mdns_append_fqdn`.  The returned length adds whatever the tail returned, even 0 when the tail did not fit;
   * `whole` tells the two apart.
   */
  function AppendFqdn(w: Writer, strings: seq<Text>): (e: Emit)
    requires w.Valid()
    ensures e.w.Valid()
    decreases |strings|
  {
    if strings == [] then AppendU8(w, 0)
    else
      match FirstMatch(w.mem, w.index, strings, 0)
      case Some(loc) => AppendU16(w, 0xC000 + loc)
      case None =>
        var head := AppendString(w, strings[0]);
        if head.ret == 0 then head
        else
          var tail := AppendFqdn(head.w, strings[1..]);
          Emit(tail.w, head.ret + tail.ret, tail.whole)
  }

  /** Octets of a name written without compression, terminator included. */
  function Octets(strings: seq<Text>): (n: nat)
    ensures n >= 1
    decreases |strings|
  {
    if strings == [] then 1 else 1 + |strings[0]| + Octets(strings[1..])
  }

  /** A short label is stored with its length in front, or not at all. */
  lemma StringAccounts(w: Writer, s: Text)
    requires w.Valid() && |s| < 255
    ensures var e := AppendString(w, s);
            && e.ret == (if w.index + |s| + 1 < SIZE then |s| + 1 else 0)
            && e.whole == (e.ret > 0) && e.w.index == w.index + e.ret
            && (e.ret > 0 ==> e.w.mem[w.index..e.w.index] == [|s|] + s)
            && forall i :: 0 <= i < |w.mem| && !(w.index <= i < e.w.index) ==> e.w.mem[i] == w.mem[i]
  {
  }

  /** Writing a name advances by exactly what is returned, leaves everything outside that stretch alone, and is bounded. */
  lemma {:induction false} AppendFqdnAccounts(w: Writer, strings: seq<Text>)
    requires w.Valid() && forall s :: s in strings ==> IsLabel(s)
    ensures var e := AppendFqdn(w, strings);
            && e.w.index == w.index + e.ret
            && e.ret <= Octets(strings)
            && (e.whole ==> e.ret > 0)
            && forall i :: 0 <= i < |w.mem| && !(w.index <= i < e.w.index) ==> e.w.mem[i] == w.mem[i]
    decreases |strings|
  {
    hide FirstMatch, AppendString;
    if strings != [] && FirstMatch(w.mem, w.index, strings, 0) == None {
      assert IsLabel(strings[0]);
      StringAccounts(w, strings[0]);
      AppendFqdnAccounts(AppendString(w, strings[0]).w, strings[1..]);
    }
  }

  // ---------------------------------------------------------------- when a name fits

  /** No label is so long that its length, counted with its length byte, wraps. */
  predicate NoneWraps(strings: seq<Text>) {
    forall s :: s in strings ==> |s| < 255
  }

  /** Octets that writing `strings` here takes: literal labels up to the first match, then a pointer or a terminator. */
  function Needed(w: Writer, strings: seq<Text>): (n: nat)
    requires w.Valid()
    ensures n >= 1
    decreases |strings|
  {
    if strings == [] then 1
    else if FirstMatch(w.mem, w.index, strings, 0).Some? then 2
    else
      var head := AppendString(w, strings[0]);
      1 + |strings[0]| + if head.ret == 0 then 1 else Needed(head.w, strings[1..])
  }

  /**
   * A name is written in full exactly when there is room for what it needs; then the returned length is right.  What
   * it takes without compression is always enough.
   */
  lemma {:induction false} WholeIffRoom(w: Writer, strings: seq<Text>)
    requires w.Valid() && NoneWraps(strings)
    ensures AppendFqdn(w, strings).whole <==> w.index + Needed(w, strings) <= SIZE
    ensures AppendFqdn(w, strings).whole ==> AppendFqdn(w, strings).ret == Needed(w, strings)
    ensures AppendFqdn(w, strings).ret <= Needed(w, strings) <= Octets(strings)
    decreases |strings|
  {
    hide FirstMatch, AppendString;
    if strings != [] && FirstMatch(w.mem, w.index, strings, 0) == None {
      assert |strings[0]| < 255;
      StringAccounts(w, strings[0]);
      var head := AppendString(w, strings[0]);
      if head.ret != 0 {
        WholeIffRoom(head.w, strings[1..]);
      }
    }
  }

  /** Octets of the first thing written: a terminator, a pointer, or the first label. */
  function FirstPiece(w: Writer, strings: seq<Text>): (n: nat)
    requires w.Valid()
  {
    if strings == [] then 1
    else if FirstMatch(w.mem, w.index, strings, 0).Some? then 2
    else |strings[0]| + 2
  }

  /**
   * The documented "0 on error" holds, that is, a name is cut short exactly when 0 is returned, if and only if there
   * is room for the whole name or none for the first thing written.
   */
  lemma ZeroMeansErrorIff(w: Writer, strings: seq<Text>)
    requires w.Valid() && NoneWraps(strings)
    ensures var e := AppendFqdn(w, strings);
            (e.whole <==> e.ret != 0)
            <==> w.index + Needed(w, strings) <= SIZE || w.index + FirstPiece(w, strings) > SIZE
  {
    hide FirstMatch, AppendString, Needed;
    WholeIffRoom(w, strings);
    NeededAtLeastFirst(w, strings);
    if strings != [] && FirstMatch(w.mem, w.index, strings, 0) == None {
      assert |strings[0]| < 255;
      StringAccounts(w, strings[0]);
    }
  }

  lemma NeededAtLeastFirst(w: Writer, strings: seq<Text>)
    requires w.Valid()
    ensures Needed(w, strings) >= FirstPiece(w, strings)
  {
    hide FirstMatch, AppendString;
  }

  /** "a", and a label of sixteen letters. */
  const A_LABEL: Text := [97]
  const LONG_LABEL: Text := [95, 98, 99, 100, 101, 102, 103, 104, 105, 106, 107, 108, 109, 110, 111, 112]

  /** Bytes that cannot be the length of a label of sixteen octets, nor, before the last two, of a label of one. */
  predicate NothingToMatch(w: Writer) {
    w.Valid() && forall i :: 0 <= i < w.index ==> w.mem[i] != 16 && (w.mem[i] == 1 ==> i + 2 == w.index)
  }

  lemma LongLabelUnmatched(w: Writer, strings: seq<Text>)
    requires NothingToMatch(w) && strings != [] && strings[0] == LONG_LABEL
    ensures FirstMatch(w.mem, w.index, strings, 0) == None
  {
    hide Read, NoCase;
  }

  /**
   * A name that does not fit need not return 0: sixteen bytes short of the end, "a" is written and counted, and what
   * follows is dropped without a word.
   */
  lemma CutNameIsReported(mem: seq<byte>, rest: seq<Text>)
    requires |mem| == SIZE + SLACK && forall i :: 0 <= i < |mem| ==> mem[i] == 0
    ensures var e := AppendFqdn(Writer(mem, 1442), [A_LABEL, LONG_LABEL] + rest);
            e.ret == 2 && e.w.index == 1444 && !e.whole
  {
    hide FirstMatch, AppendString;
    var w, strings := Writer(mem, 1442), [A_LABEL, LONG_LABEL] + rest;
    assert FirstMatch(mem, 1442, strings, 0) == None by {
      ZeroesUnmatched(mem, 1442, strings);
    }
    var head := AppendString(w, A_LABEL);
    StringAccounts(w, A_LABEL);
    var stored := head.w.mem[1442..1444];
    assert head.w.mem[1442] == stored[0] == 1 && head.w.mem[1443] == stored[1] == 97;
    assert strings[1..] == [LONG_LABEL] + rest;
    LongLabelUnmatched(head.w, strings[1..]);
    StringAccounts(head.w, LONG_LABEL);
  }

  lemma ZeroesUnmatched(mem: seq<byte>, index: nat, strings: seq<Text>)
    requires |mem| == SIZE + SLACK && index <= SIZE && strings != [] && strings[0] != []
    requires forall i :: 0 <= i < index ==> mem[i] == 0
    ensures FirstMatch(mem, index, strings, 0) == None
  {
    hide Read, NoCase;
  }
}
