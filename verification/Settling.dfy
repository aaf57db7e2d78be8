/** When matches are settled: names of ordinary labels only point to complete names before them, or to themselves. */
module Settling {
  import opened Options
  import opened Bytes
  import opened NameReader
  import opened NameRoundTrip
  import opened NameWriter

  // ---------------------------------------------------------------- where a match can start

  /** A byte of an ordinary label: printable, and not `=`. */
  predicate LabelByte(b: byte) {
    32 <= b < 128 && b != EQUALS
  }

  /** A label too short for its length to be taken for one of its bytes. */
  predicate Ordinary(s: Text) {
    1 <= |s| <= 31 && forall b :: b in s ==> LabelByte(b)
  }

  predicate AllOrdinary(labels: seq<Text>) {
    forall s :: s in labels ==> Ordinary(s)
  }

  lemma OrdinaryIsShort(s: Text)
    requires Ordinary(s)
    ensures |s| < 255 && IsLabel(s)
  {
  }

  lemma OrdinaryAreLabels(labels: seq<Text>)
    requires AllOrdinary(labels)
    ensures forall s :: s in labels ==> IsLabel(s)
  {
    forall s | s in labels
      ensures IsLabel(s)
    {
      assert Ordinary(s);
    }
  }

  /** At `loc` stands what looks like an ordinary label: a length and that many label bytes, all before `end`. */
  predicate LooksLikeLabel(mem: seq<byte>, loc: nat, end: nat)
    requires loc < SIZE && |mem| == SIZE + SLACK
  {
    1 <= mem[loc] <= 31 && loc + mem[loc] < end && forall i :: loc < i <= loc + mem[loc] ==> LabelByte(mem[i])
  }

  lemma LooksSame(m1: seq<byte>, m2: seq<byte>, loc: nat, end: nat)
    requires |m1| == |m2| == SIZE + SLACK && loc < end <= SIZE && LooksLikeLabel(m1, loc, end)
    requires forall i :: loc <= i < end ==> m1[i] == m2[i]
    ensures LooksLikeLabel(m2, loc, end)
  {
  }

  /** A run of label bytes stops at a byte that is none. */
  lemma LooksStopsAt(mem: seq<byte>, loc: nat, stop: nat, end: nat)
    requires |mem| == SIZE + SLACK && loc < SIZE && loc < stop < |mem|
    requires LooksLikeLabel(mem, loc, end) && !LabelByte(mem[stop])
    ensures LooksLikeLabel(mem, loc, stop)
  {
  }

  lemma NoLabelAt(mem: seq<byte>, loc: nat, end: nat)
    requires |mem| == SIZE + SLACK && loc < SIZE
    ensures mem[loc] == 0 || mem[loc] > 31 ==> !LooksLikeLabel(mem, loc, end)
    ensures mem[loc] > 0 && !LabelByte(mem[loc + 1]) ==> !LooksLikeLabel(mem, loc, end)
  {
  }

  /** At `loc` a plain name starts that lies wholly in the zone and ends in a label. */
  predicate Source(mem: seq<byte>, loc: nat, z: Zone)
    requires |mem| == SIZE + SLACK
  {
    && Confined(mem, SIZE, loc, loc, z)
    && var s := Scan(mem, SIZE, loc, loc);
      && s.Scanned? && EndsInLabel(s.tokens)
      && !AbsorbAll(EMPTY, s.tokens).sub && !AbsorbAll(EMPTY, s.tokens).invalid
  }

  predicate InBuffer(z: Zone) {
    z.hi <= SIZE && z.to <= SIZE
  }

  lemma SourceFrame(m1: seq<byte>, m2: seq<byte>, loc: nat, z: Zone)
    requires |m1| == |m2| == SIZE + SLACK && InBuffer(z) && SameOn(m1, m2, z) && Source(m1, loc, z)
    ensures Source(m2, loc, z)
  {
    ScanFrame(m1, SIZE, m2, SIZE, loc, loc, z, z);
  }

  /** The one zone holds every stretch the other holds. */
  ghost predicate Wider(z: Zone, z2: Zone) {
    forall a, b :: a < b && z.Covers(a, b) ==> z2.Covers(a, b)
  }

  lemma {:induction false} ConfinedWider(mem: seq<byte>, plen: nat, start: nat, pos: nat, z: Zone, z2: Zone)
    requires plen < |mem| && start <= pos && Confined(mem, plen, start, pos, z) && Wider(z, z2)
    ensures Confined(mem, plen, start, pos, z2)
    decreases start, plen - pos
  {
    match PieceAt(mem, plen, start, pos)
    case End =>
    case Text(_, next) => ConfinedWider(mem, plen, start, next, z, z2);
    case Pointer(address, _) => ConfinedWider(mem, plen, address, address, z, z2);
  }

  lemma SourceWider(mem: seq<byte>, loc: nat, z: Zone, z2: Zone)
    requires |mem| == SIZE + SLACK && Source(mem, loc, z) && Wider(z, z2)
    ensures Source(mem, loc, z2)
  {
    ConfinedWider(mem, SIZE, loc, loc, z, z2);
  }

  lemma SourceIsSettled(mem: seq<byte>, loc: nat, lo: nat, hi: nat)
    requires |mem| == SIZE + SLACK && Source(mem, loc, Zone(lo, hi, 0, 0))
    ensures Settled(mem, loc, lo, hi, true)
  {
    ReadIsScanThenAbsorb(mem, SIZE, loc, loc, EMPTY);
  }

  /** Whatever looks like a label before `index` is the start of a plain name in the zone. */
  predicate Unambiguous(mem: seq<byte>, index: nat, z: Zone)
    requires |mem| == SIZE + SLACK && index <= SIZE
  {
    forall loc :: 0 <= loc < index && LooksLikeLabel(mem, loc, index) ==> Source(mem, loc, z)
  }

  lemma SourceAt(mem: seq<byte>, index: nat, z: Zone, loc: nat)
    requires |mem| == SIZE + SLACK && loc < index <= SIZE && Unambiguous(mem, index, z)
    requires LooksLikeLabel(mem, loc, index)
    ensures Source(mem, loc, z)
  {
  }

  lemma UnambiguousFrom(mem: seq<byte>, index: nat, z: Zone)
    requires |mem| == SIZE + SLACK && index <= SIZE
    requires forall loc :: 0 <= loc < index && LooksLikeLabel(mem, loc, index) ==> Source(mem, loc, z)
    ensures Unambiguous(mem, index, z)
  {
  }

  /** What stands from `index` on does not matter. */
  lemma UnambiguousFrame(m1: seq<byte>, m2: seq<byte>, index: nat, z: Zone)
    requires |m1| == |m2| == SIZE + SLACK && index <= SIZE && Unambiguous(m1, index, z) && z.hi <= index
    requires z.to <= index
    requires forall i :: 0 <= i < index ==> m1[i] == m2[i]
    ensures Unambiguous(m2, index, z)
  {
    hide LooksLikeLabel, Source, Unambiguous;
    forall loc | 0 <= loc < index && LooksLikeLabel(m2, loc, index)
      ensures Source(m2, loc, z)
    {
      LooksSame(m2, m1, loc, index);
      SourceAt(m1, index, z, loc);
      SourceFrame(m1, m2, loc, z);
    }
    UnambiguousFrom(m2, index, z);
  }

  lemma UnambiguousWider(mem: seq<byte>, index: nat, z: Zone, z2: Zone)
    requires |mem| == SIZE + SLACK && index <= SIZE && Unambiguous(mem, index, z) && Wider(z, z2)
    ensures Unambiguous(mem, index, z2)
  {
    hide LooksLikeLabel, Source, Wider;
    forall loc | 0 <= loc < index && LooksLikeLabel(mem, loc, index)
      ensures Source(mem, loc, z2)
    {
      SourceWider(mem, loc, z, z2);
    }
  }

  // ---------------------------------------------------------------- a name that is not matched against itself

  /** No length byte before the write position, together with what stands beyond it, reads as the label. */
  predicate Separated(w: Writer, s: Text)
    requires w.Valid()
  {
    forall loc :: 0 <= loc < w.index && w.mem[loc] == |s| && loc + |s| >= w.index ==>
                    w.mem[loc + 1..loc + 1 + |s|] != s
  }

  /** A match before the name being written is a plain name. */
  lemma MatchIsSource(w: Writer, strings: seq<Text>, start: nat, z: Zone, loc: nat)
    requires w.Valid() && loc < start <= w.index && Unambiguous(w.mem, start, z)
    requires strings != [] && Ordinary(strings[0]) && Accepts(w.mem, loc, strings)
    requires if start == w.index then Separated(w, strings[0]) else !LabelByte(w.mem[start])
    ensures Source(w.mem, loc, z)
  {
    hide Read, Source, NoCase;
    var s := strings[0];
    forall i | loc < i <= loc + |s|
      ensures LabelByte(w.mem[i])
    {
      assert w.mem[i] == w.mem[loc + 1..loc + 1 + |s|][i - loc - 1] == s[i - loc - 1];
    }
    assert LooksLikeLabel(w.mem, loc, start);
  }

  /** Unless a name is matched against itself, its matches are settled before it. */
  lemma {:induction false} NotSelfMatchedIsSettled(w: Writer, strings: seq<Text>, start: nat, lo: nat, hi: nat)
    requires w.Valid() && hi <= start <= w.index && Unambiguous(w.mem, start, Zone(lo, hi, 0, 0))
    requires AllOrdinary(strings) && AppendFqdn(w, strings).whole && !SelfMatched(w, strings, start)
    requires if start == w.index then strings != [] && Separated(w, strings[0]) else !LabelByte(w.mem[start])
    ensures SettledRun(w, strings, lo, hi, true)
    decreases |strings|
  {
    hide Unambiguous, Source, FirstMatch, Ordinary, AppendString, Separated, Settled, Accepts;
    if strings != [] {
      assert Ordinary(strings[0]);
      match FirstMatch(w.mem, w.index, strings, 0) {
        case Some(loc) =>
          MatchIsSource(w, strings, start, Zone(lo, hi, 0, 0), loc);
          SourceIsSettled(w.mem, loc, lo, hi);
        case None =>
          var head := AppendString(w, strings[0]).w;
          OrdinaryIsShort(strings[0]);
          StringAccounts(w, strings[0]);
          if start == w.index {
            LengthStored(w, strings[0]);
          }
          UnambiguousFrame(w.mem, head.mem, start, Zone(lo, hi, 0, 0));
          NotSelfMatchedIsSettled(head, strings[1..], start, lo, hi);
      }
    }
  }

  lemma LengthStored(w: Writer, s: Text)
    requires w.Valid() && Ordinary(s) && AppendString(w, s).ret > 0
    ensures !LabelByte(AppendString(w, s).w.mem[w.index])
  {
    hide AppendString;
    StringAccounts(w, s);
    var e := AppendString(w, s).w;
    assert e.mem[w.index] == e.mem[w.index..e.index][0];
  }

  /** Ordinary labels in a name this responder writes. */
  predicate OrdinaryName(strings: seq<Text>) {
    NameShape(strings) && AllOrdinary(strings)
  }

  /**
   * When a name is read back, exactly: where everything before it that looks like a label is a plain name, a name of
   * ordinary labels is read back if and only if it was not matched against itself.
   */
  lemma ReadsBackIffNotSelfMatched(w: Writer, strings: seq<Text>, lo: nat, hi: nat)
    requires w.Valid() && OrdinaryName(strings) && hi <= w.index && Unambiguous(w.mem, w.index, Zone(lo, hi, 0, 0))
    requires Separated(w, strings[0]) && AppendFqdn(w, strings).whole
    ensures var e := AppendFqdn(w, strings).w;
            var r := Read(e.mem, e.index, w.index, w.index, EMPTY);
            && (r.Good? <==> !SelfMatched(w, strings, w.index))
            && (r.Good? ==> r.next == e.index && Holds(r.name, strings) && !r.name.invalid)
  {
    hide Unambiguous, Separated, AppendFqdn, SelfMatched, SettledRun, Read, Ordinary;
    OrdinaryAreLabels(strings);
    var e := AppendFqdn(w, strings).w;
    if SelfMatched(w, strings, w.index) {
      SelfMatchNeverReads(w, strings, w.index, e.mem, e.index, EMPTY);
    } else {
      NotSelfMatchedIsSettled(w, strings, w.index, lo, hi);
      CompressionRoundTrip(w, strings, lo, hi, e.mem, e.index, true);
    }
  }

  // ---------------------------------------------------------------- the name once written

  /** A written name is itself a plain name. */
  lemma WrittenIsSource(w: Writer, strings: seq<Text>, start: nat, lo: nat, hi: nat)
    requires w.Valid() && hi <= start <= w.index && NameShape(strings)
    requires AppendFqdn(w, strings).whole && SettledRun(w, strings, lo, hi, true)
    ensures Source(AppendFqdn(w, strings).w.mem, w.index, Zone(lo, hi, start, AppendFqdn(w, strings).w.index))
  {
    hide Scan, SettledRun, AbsorbAll, Similar, Spell, AppendFqdn;
    var mem, end := AppendFqdn(w, strings).w.mem, AppendFqdn(w, strings).w.index;
    WrittenNameScans(w, strings, w.index, lo, hi, true);
    var ts := Scan(mem, SIZE, w.index, w.index).tokens;
    SpelledName(ts, strings);
    SpelledLength(ts, strings);
    NoFlagRaised(EMPTY, ts);
    ConfinedWider(mem, SIZE, w.index, w.index, Zone(lo, hi, w.index, end), Zone(lo, hi, start, end));
  }

  lemma SpelledLength(ts: seq<Token>, strings: seq<Text>)
    requires Similar(Spell(ts), strings)
    ensures |Spell(ts)| == |strings|
  {
  }

  lemma TailShape(strings: seq<Text>)
    requires NameShape(strings) && |strings| > 1
    ensures NameShape(strings[1..])
  {
    var t := strings[1..];
    assert forall i :: 0 <= i < |t| ==> t[i] == strings[i + 1];
  }

  /** Whatever looks like a label inside a written name is the start of a plain name. */
  lemma {:induction false} InsideIsSource(w: Writer, strings: seq<Text>, start: nat, lo: nat, hi: nat, loc: nat)
    requires w.Valid() && hi <= start <= w.index && (strings == [] || NameShape(strings)) && AllOrdinary(strings)
    requires AppendFqdn(w, strings).whole && SettledRun(w, strings, lo, hi, true)
    requires var e := AppendFqdn(w, strings).w; w.index <= loc < e.index && LooksLikeLabel(e.mem, loc, e.index)
    ensures Source(AppendFqdn(w, strings).w.mem, loc, Zone(lo, hi, start, AppendFqdn(w, strings).w.index))
    decreases |strings|
  {
    hide FirstMatch, Source, AppendString, LooksLikeLabel, Ordinary, Settled;
    var e := AppendFqdn(w, strings).w;
    if strings == [] {
      NoLabelAt(e.mem, loc, e.index);
      assert false;
    } else {
      match FirstMatch(w.mem, w.index, strings, 0) {
        case Some(m) =>
          NoLabelInPointer(w, m, loc);
          assert false;
        case None =>
          assert Ordinary(strings[0]);
          OrdinaryIsShort(strings[0]);
          StringAccounts(w, strings[0]);
          var head := AppendString(w, strings[0]).w;
          if loc == w.index {
            WrittenIsSource(w, strings, start, lo, hi);
          } else if loc < head.index {
            NoLabelInText(w, strings, loc);
            assert false;
          } else {
            if |strings| > 1 {
              TailShape(strings);
            }
            InsideIsSource(head, strings[1..], start, lo, hi, loc);
          }
      }
    }
  }

  lemma NoLabelInPointer(w: Writer, m: nat, loc: nat)
    requires w.Valid() && m < SIZE && AppendU16(w, 0xC000 + m).whole
    requires w.index <= loc < AppendU16(w, 0xC000 + m).w.index
    ensures var e := AppendU16(w, 0xC000 + m).w; !LooksLikeLabel(e.mem, loc, e.index)
  {
    var mem, bytes := AppendU16(w, 0xC000 + m).w.mem, U16Bytes(0xC000 + m);
    assert mem[w.index + 0] == bytes[0] == 0xC0 + m / 256;
  }

  lemma NoLabelInText(w: Writer, strings: seq<Text>, loc: nat)
    requires w.Valid() && strings != [] && AllOrdinary(strings)
    requires FirstMatch(w.mem, w.index, strings, 0) == None && AppendString(w, strings[0]).ret > 0
    requires w.index < loc < AppendString(w, strings[0]).w.index
    ensures !LooksLikeLabel(AppendFqdn(w, strings).w.mem, loc, AppendFqdn(w, strings).w.index)
  {
    hide FirstMatch, AppendString, LooksLikeLabel, Ordinary, AppendFqdn;
    var s := strings[0];
    assert Ordinary(s);
    OrdinaryIsShort(s);
    StringAccounts(w, s);
    var head, e := AppendString(w, s).w, AppendFqdn(w, strings).w;
    AfterFirstLabel(w, strings);
    OrdinaryAreLabels(strings);
    AppendFqdnAccounts(head, strings[1..]);
    StoredByte(head.mem, w.index, s, head.index, loc);
    assert e.mem[loc] == head.mem[loc];
    NoLabelAt(e.mem, loc, e.index);
  }

  lemma AfterFirstLabel(w: Writer, strings: seq<Text>)
    requires w.Valid() && strings != [] && FirstMatch(w.mem, w.index, strings, 0) == None
    requires AppendString(w, strings[0]).ret > 0
    ensures AppendFqdn(w, strings).w == AppendFqdn(AppendString(w, strings[0]).w, strings[1..]).w
  {
    hide FirstMatch, AppendString;
  }

  lemma StoredByte(mem: seq<byte>, at: nat, s: Text, end: nat, loc: nat)
    requires Ordinary(s) && at + 1 + |s| == end <= |mem| && mem[at..end] == [|s|] + s && at < loc < end
    ensures mem[loc] >= 32
  {
    assert mem[loc] == mem[at..end][loc - at] == s[loc - at - 1];
    assert LabelByte(s[loc - at - 1]);
  }

  /**
   * An ordinary name that is not matched against itself, written where everything that looks like a label is a plain
   * name, only points to such names; and what looks like a label in it is a plain name too.
   */
  lemma NameKeeps(w: Writer, strings: seq<Text>, lo: nat, hi: nat)
    requires w.Valid() && OrdinaryName(strings) && hi <= w.index && Unambiguous(w.mem, w.index, Zone(lo, hi, 0, 0))
    requires Separated(w, strings[0]) && !SelfMatched(w, strings, w.index) && AppendFqdn(w, strings).whole
    ensures SettledRun(w, strings, lo, hi, true)
    ensures var e := AppendFqdn(w, strings).w;
            && e.Valid() && w.index < e.index && !LabelByte(e.mem[w.index])
            && (forall i :: 0 <= i < |w.mem| && !(w.index <= i < e.index) ==> e.mem[i] == w.mem[i])
            && Unambiguous(e.mem, e.index, Zone(lo, hi, w.index, e.index))
  {
    hide Unambiguous, Source, LooksLikeLabel, AppendFqdn, SettledRun, Ordinary, FirstMatch, Separated, SelfMatched;
    var z := Zone(lo, hi, 0, 0);
    OrdinaryAreLabels(strings);
    NotSelfMatchedIsSettled(w, strings, w.index, lo, hi);
    AppendFqdnAccounts(w, strings);
    NameFirstByte(w, strings);
    var e := AppendFqdn(w, strings).w;
    UnambiguousFrame(w.mem, e.mem, w.index, z);
    var z2 := Zone(lo, hi, w.index, e.index);
    UnambiguousWider(e.mem, w.index, z, z2);
    forall loc | 0 <= loc < e.index && LooksLikeLabel(e.mem, loc, e.index)
      ensures Source(e.mem, loc, z2)
    {
      if loc < w.index {
        LooksStopsAt(e.mem, loc, w.index, e.index);
        SourceAt(e.mem, w.index, z2, loc);
      } else {
        InsideIsSource(w, strings, w.index, lo, hi, loc);
      }
    }
    UnambiguousFrom(e.mem, e.index, z2);
  }

  /** A name begins with a length or with a pointer. */
  lemma NameFirstByte(w: Writer, strings: seq<Text>)
    requires w.Valid() && OrdinaryName(strings) && AppendFqdn(w, strings).whole
    ensures w.index < AppendFqdn(w, strings).w.index && !LabelByte(AppendFqdn(w, strings).w.mem[w.index])
  {
    hide FirstMatch, Ordinary, AppendString, AppendU16;
    assert |strings| >= 1;
    match FirstMatch(w.mem, w.index, strings, 0) {
      case Some(m) =>
        PointerFirstByte(w, m);
      case None =>
        LiteralFirstByte(w, strings);
    }
  }

  lemma PointerFirstByte(w: Writer, m: nat)
    requires w.Valid() && m < SIZE && AppendU16(w, 0xC000 + m).whole
    ensures var e := AppendU16(w, 0xC000 + m).w; w.index < e.index && !LabelByte(e.mem[w.index])
  {
    var mem, bytes := AppendU16(w, 0xC000 + m).w.mem, U16Bytes(0xC000 + m);
    assert mem[w.index + 0] == bytes[0] == 0xC0 + m / 256;
  }

  lemma LiteralFirstByte(w: Writer, strings: seq<Text>)
    requires w.Valid() && strings != [] && (forall s :: s in strings ==> Ordinary(s))
    requires FirstMatch(w.mem, w.index, strings, 0) == None && AppendFqdn(w, strings).whole
    ensures w.index < AppendFqdn(w, strings).w.index && !LabelByte(AppendFqdn(w, strings).w.mem[w.index])
  {
    hide FirstMatch, Ordinary, AppendString, PieceAt;
    forall s | s in strings
      ensures IsLabel(s)
    {
      OrdinaryIsShort(s);
    }
    assert Ordinary(strings[0]);
    OrdinaryIsShort(strings[0]);
    StringAccounts(w, strings[0]);
    LiteralStored(w, strings, w.index, AppendFqdn(w, strings).w.mem, SIZE);
    AppendFqdnAccounts(w, strings);
    LengthIsNoLabelByte(AppendFqdn(w, strings).w.mem, w.index, strings[0], AppendString(w, strings[0]).w.index);
  }

  lemma LengthIsNoLabelByte(mem: seq<byte>, at: nat, s: Text, next: nat)
    requires |mem| == SIZE + SLACK && Ordinary(s) && PieceAt(mem, SIZE, at, at) == Text(s, next)
    ensures !LabelByte(mem[at])
  {
  }
}
