/** Names written with compression are read back: the round trip, its hypothesis, and examples of both outcomes. */
module NameRoundTrip {
  import opened Options
  import opened Bytes
  import opened NameReader
  import opened NameWriter

  // ---------------------------------------------------------------- settled matches

  /** The name ends in a label, not in a pointer to the byte that ends another name. */
  predicate EndsInLabel(ts: seq<Token>) {
    ts != [] && ts[|ts| - 1].Label?
  }

  /**
   * The match at `loc` is complete inside [lo, hi), terminator included, and is a plain name: nothing flagged, no
   * `_sub` swallowed.  If `clear`, it also ends in a label; then no name that leads to it will be flagged either.
   */
  predicate Settled(mem: seq<byte>, loc: nat, lo: nat, hi: nat, clear: bool)
    requires |mem| == SIZE + SLACK
  {
    && lo <= loc < hi
    && Confined(mem, SIZE, loc, loc, Zone(lo, hi, 0, 0))
    && (var r := Read(mem, SIZE, loc, loc, EMPTY);
        r.Good? && !r.name.sub && !r.name.invalid)
    && (clear ==> var s := Scan(mem, SIZE, loc, loc); s.Scanned? && EndsInLabel(s.tokens))
  }

  /** Every match that writing `strings` accepts, at any of its labels, is settled in [lo, hi). */
  predicate SettledRun(w: Writer, strings: seq<Text>, lo: nat, hi: nat, clear: bool)
    requires w.Valid()
    decreases |strings|
  {
    strings == [] ||
    match FirstMatch(w.mem, w.index, strings, 0)
    case Some(loc) => Settled(w.mem, loc, lo, hi, clear)
    case None => SettledRun(AppendString(w, strings[0]).w, strings[1..], lo, hi, clear)
  }

  /** Equal labels up to letter case. */
  predicate Similar(a: seq<seq<byte>>, b: seq<seq<byte>>) {
    |a| == |b| && forall i :: 0 <= i < |a| ==> NoCase(a[i], b[i])
  }

  /** An accepted, settled match spells the wanted labels, and nothing else. */
  lemma MatchSpells(mem: seq<byte>, loc: nat, strings: seq<Text>, lo: nat, hi: nat, clear: bool)
    requires |mem| == SIZE + SLACK && loc < SIZE && strings != [] && IsLabel(strings[0])
    requires Accepts(mem, loc, strings) && Settled(mem, loc, lo, hi, clear)
    ensures var s := Scan(mem, SIZE, loc, loc);
            s.Scanned? && Similar(Spell(s.tokens), strings)
  {
    hide Confined, CStr, Read;
    ReadIsScanThenAbsorb(mem, SIZE, loc, loc, EMPTY);
    var ts := Scan(mem, SIZE, loc, loc).tokens;
    assert PieceAt(mem, SIZE, loc, loc) == Text(strings[0], loc + 1 + |strings[0]|);
    assert ts[0] == Label(strings[0]);
    CStrOfText(strings[0]);
    var first := Absorb(EMPTY, ts[0]);
    FlagsStickFromEmpty(ts);
    assert first == EMPTY.(fields := EMPTY.fields[0 := strings[0]], parts := 1);
    var r := AbsorbAll(EMPTY, ts);
    FieldsSpelled(first, ts[1..]);
    assert Spell(ts) == [strings[0]] + Spell(ts[1..]);
    forall i | 0 <= i < |strings|
      ensures NoCase(Spell(ts)[i], strings[i])
    {
      if i == 0 {
        assert Spell(ts)[0] == strings[0];
      } else {
        assert Spell(ts)[i] == Spell(ts[1..])[i - 1] == r.fields[1..r.parts][i - 1] == r.fields[i];
        assert NoCase(strings[i], r.fields[i]);
      }
    }
  }

  /** Without `_sub` in the result, the first label read became the host. */
  lemma FlagsStickFromEmpty(ts: seq<Token>)
    requires Wellformed(ts) && ts != [] && ts[0].Label? && !AbsorbAll(EMPTY, ts).sub
    ensures Absorb(EMPTY, ts[0]).parts == 1
  {
    if NoCase(CStr(ts[0].text), SUB) {
      SubSticks(Absorb(EMPTY, ts[0]), ts[1..]);
    }
  }

  lemma {:induction false} SubSticks(n: Name, ts: seq<Token>)
    requires n.Valid() && Wellformed(ts) && n.sub
    ensures AbsorbAll(n, ts).sub
    decreases |ts|
  {
    if ts != [] {
      SubSticks(Absorb(n, ts[0]), ts[1..]);
    }
  }

  // ---------------------------------------------------------------- round trip

  /** A pointer reads as the offset it was made from. */
  lemma PointerPiece(w: Writer, loc: nat, start: nat)
    requires w.Valid() && loc < start <= w.index && w.index + 1 < SIZE
    ensures PieceAt(AppendU16(w, 0xC000 + loc).w.mem, SIZE, start, w.index) == Pointer(loc, w.index + 2)
  {
    hide Splice;
    var mem, bytes := AppendU16(w, 0xC000 + loc).w.mem, U16Bytes(0xC000 + loc);
    assert mem[w.index + 0] == bytes[0] && mem[w.index + 1] == bytes[1];
    assert bytes[0] == 0xC0 + loc / 256 && bytes[1] == loc % 256;
  }

  /** A pointer to a settled match, written at `w.index`, scans as that match. */
  lemma PointerScans(w: Writer, strings: seq<Text>, loc: nat, start: nat, lo: nat, hi: nat, clear: bool)
    requires w.Valid() && hi <= start <= w.index && w.index + 1 < SIZE && strings != [] && IsLabel(strings[0])
    requires loc < SIZE && Accepts(w.mem, loc, strings) && Settled(w.mem, loc, lo, hi, clear)
    ensures var e := AppendU16(w, 0xC000 + loc);
            && var s := Scan(e.w.mem, SIZE, start, w.index);
            && s.Scanned? && s.next == e.w.index && Similar(Spell(s.tokens), strings)
            && Confined(e.w.mem, SIZE, start, w.index, Zone(lo, hi, start, e.w.index))
            && (clear ==> EndsInLabel(s.tokens))
  {
    hide Accepts, Read, Similar, NoCase, Splice, AbsorbAll, Scan, Confined, PieceAt, Spell, EndsInLabel;
    var e := AppendU16(w, 0xC000 + loc);
    PointerPiece(w, loc, start);
    MatchSpells(w.mem, loc, strings, lo, hi, clear);
    ScanFrame(w.mem, SIZE, e.w.mem, SIZE, loc, loc, Zone(lo, hi, 0, 0), Zone(lo, hi, start, e.w.index));
    JumpScans(e.w.mem, start, w.index, loc, Zone(lo, hi, start, e.w.index));
  }

  /** A pointer in front of a name that scans. */
  lemma JumpScans(mem: seq<byte>, start: nat, at: nat, loc: nat, z: Zone)
    requires SIZE < |mem| && loc < start <= at && at + 2 <= SIZE && z.from == start && at + 2 <= z.to
    requires PieceAt(mem, SIZE, start, at) == Pointer(loc, at + 2)
    requires Scan(mem, SIZE, loc, loc).Scanned? && Confined(mem, SIZE, loc, loc, z)
    ensures var ts := Scan(mem, SIZE, loc, loc).tokens;
            && var s := Scan(mem, SIZE, start, at);
            && s.Scanned? && s.next == at + 2 && Spell(s.tokens) == Spell(ts)
            && Confined(mem, SIZE, start, at, z) && (EndsInLabel(ts) ==> EndsInLabel(s.tokens))
  {
    hide PieceAt, Scan, Confined, Spell, EndsInLabel;
    JumpTokens(mem, start, at, loc);
    JumpConfined(mem, start, at, loc, z);
    JumpSpells(Scan(mem, SIZE, loc, loc).tokens);
  }

  lemma JumpTokens(mem: seq<byte>, start: nat, at: nat, loc: nat)
    requires SIZE < |mem| && loc < start <= at < SIZE && PieceAt(mem, SIZE, start, at) == Pointer(loc, at + 2)
    requires Scan(mem, SIZE, loc, loc).Scanned?
    ensures Scan(mem, SIZE, start, at) == Scanned(at + 2, [Jump] + Scan(mem, SIZE, loc, loc).tokens)
  {
    hide PieceAt;
  }

  lemma JumpConfined(mem: seq<byte>, start: nat, at: nat, loc: nat, z: Zone)
    requires SIZE < |mem| && loc < start <= at && at + 2 <= SIZE && z.from == start && at + 2 <= z.to
    requires PieceAt(mem, SIZE, start, at) == Pointer(loc, at + 2) && Confined(mem, SIZE, loc, loc, z)
    ensures Confined(mem, SIZE, start, at, z)
  {
    hide PieceAt;
  }

  lemma JumpSpells(ts: seq<Token>)
    requires Wellformed(ts)
    ensures Spell([Jump] + ts) == Spell(ts) && (EndsInLabel(ts) ==> EndsInLabel([Jump] + ts))
  {
    assert ([Jump] + ts)[1..] == ts;
    assert ts != [] ==> ([Jump] + ts)[|ts|] == ts[|ts| - 1];
  }

  lemma LiteralPiece(mem: seq<byte>, s: Text, at: nat, start: nat, plen: nat)
    requires plen < |mem| && at + 1 + |s| <= plen && IsLabel(s) && mem[at..at + 1 + |s|] == [|s|] + s
    ensures PieceAt(mem, plen, start, at) == Text(s, at + 1 + |s|)
  {
    var stored := mem[at..at + 1 + |s|];
    assert mem[at] == stored[0] == |s|;
    assert mem[at + 1..at + 1 + |s|] == stored[1..] == s;
  }

  /** A literal label in front of a name that scans. */
  lemma LiteralScans(mem: seq<byte>, s: Text, at: nat, start: nat, z: Zone)
    requires SIZE < |mem| && start <= at && at + 1 + |s| <= SIZE && IsLabel(s)
    requires mem[at..at + 1 + |s|] == [|s|] + s && z.from == start && at + 1 + |s| <= z.to
    requires Confined(mem, SIZE, start, at + 1 + |s|, z) && Scan(mem, SIZE, start, at + 1 + |s|).Scanned?
    ensures var tail := Scan(mem, SIZE, start, at + 1 + |s|);
            && var r := Scan(mem, SIZE, start, at);
            && r.Scanned? && r.next == tail.next && Spell(r.tokens) == [s] + Spell(tail.tokens)
            && Confined(mem, SIZE, start, at, z)
            && (tail.tokens == [] || EndsInLabel(tail.tokens) ==> EndsInLabel(r.tokens))
  {
    hide PieceAt, CStr;
    LiteralPiece(mem, s, at, start, SIZE);
    CStrOfText(s);
    var ts := Scan(mem, SIZE, start, at + 1 + |s|).tokens;
    assert ([Label(s)] + ts)[1..] == ts;
  }

  /**
   * The bytes just written for `strings`, scanned as part of a name that began at `start`, end at the new write
   * position and spell `strings`, whatever chain of pointers was emitted; and the scan depends only on those bytes
   * and on [lo, hi).  If the matches are clear, the name ends in a label.
   */
  lemma {:induction false} WrittenNameScans(w: Writer, strings: seq<Text>, start: nat, lo: nat, hi: nat, clear: bool)
    requires w.Valid() && hi <= start <= w.index && forall s :: s in strings ==> IsLabel(s)
    requires AppendFqdn(w, strings).whole && SettledRun(w, strings, lo, hi, clear)
    ensures var e := AppendFqdn(w, strings);
            && var s := Scan(e.w.mem, SIZE, start, w.index);
            && s.Scanned? && s.next == e.w.index && Similar(Spell(s.tokens), strings)
            && Confined(e.w.mem, SIZE, start, w.index, Zone(lo, hi, start, e.w.index))
            && (clear ==> (strings == [] && s.tokens == []) || EndsInLabel(s.tokens))
    decreases |strings|
  {
    hide Accepts, FirstMatch, Settled, Scan, Confined, Read, Splice, Similar, NoCase;
    if strings == [] {
      TerminatorScans(w, start, lo, hi);
    } else {
      assert IsLabel(strings[0]);
      match FirstMatch(w.mem, w.index, strings, 0) {
        case Some(loc) =>
          PointerScans(w, strings, loc, start, lo, hi, clear);
        case None =>
          var head := AppendString(w, strings[0]);
          WrittenNameScans(head.w, strings[1..], start, lo, hi, clear);
          LiteralStep(w, strings, start, lo, hi);
      }
    }
  }

  lemma TerminatorScans(w: Writer, start: nat, lo: nat, hi: nat)
    requires w.Valid() && start <= w.index < SIZE
    ensures var e := AppendU8(w, 0);
            && Scan(e.w.mem, SIZE, start, w.index) == Scanned(e.w.index, []) && Similar([], [])
            && Confined(e.w.mem, SIZE, start, w.index, Zone(lo, hi, start, e.w.index))
  {
  }

  /** A literal first label, given that the rest of the name scans. */
  lemma LiteralStep(w: Writer, strings: seq<Text>, start: nat, lo: nat, hi: nat)
    requires w.Valid() && start <= w.index && strings != [] && forall s :: s in strings ==> IsLabel(s)
    requires FirstMatch(w.mem, w.index, strings, 0) == None && AppendString(w, strings[0]).ret != 0
    requires var head := AppendString(w, strings[0]);
             var e := AppendFqdn(head.w, strings[1..]);
             && start <= head.w.index
             && var s := Scan(e.w.mem, SIZE, start, head.w.index);
             && s.Scanned? && s.next == e.w.index && Similar(Spell(s.tokens), strings[1..])
             && Confined(e.w.mem, SIZE, start, head.w.index, Zone(lo, hi, start, e.w.index))
    ensures var e := AppendFqdn(AppendString(w, strings[0]).w, strings[1..]);
            && start <= w.index && start <= AppendString(w, strings[0]).w.index
            && var s := Scan(e.w.mem, SIZE, start, w.index);
            && var t := Scan(e.w.mem, SIZE, start, AppendString(w, strings[0]).w.index);
            && s.Scanned? && s.next == e.w.index && Similar(Spell(s.tokens), strings)
            && Confined(e.w.mem, SIZE, start, w.index, Zone(lo, hi, start, e.w.index))
            && (t.tokens == [] || EndsInLabel(t.tokens) ==> EndsInLabel(s.tokens))
  {
    hide Scan, Confined, Read, Similar, FirstMatch, Accepts, AppendString;
    assert IsLabel(strings[0]);
    var head := AppendString(w, strings[0]);
    StringAccounts(w, strings[0]);
    var e := AppendFqdn(head.w, strings[1..]);
    AppendFqdnAccounts(head.w, strings[1..]);
    assert e.w.mem[w.index..head.w.index] == head.w.mem[w.index..head.w.index];
    LiteralScans(e.w.mem, strings[0], w.index, start, Zone(lo, hi, start, e.w.index));
    SimilarCons(strings[0], Spell(Scan(e.w.mem, SIZE, start, head.w.index).tokens), strings);
  }

  lemma SimilarCons(s: seq<byte>, rest: seq<seq<byte>>, strings: seq<Text>)
    requires strings != [] && s == strings[0] && Similar(rest, strings[1..])
    ensures Similar([s] + rest, strings)
  {
    forall i | 0 <= i < |strings|
      ensures NoCase(([s] + rest)[i], strings[i])
    {
      if i > 0 {
        assert NoCase(rest[i - 1], strings[1..][i - 1]);
      }
    }
  }

  /** The names this responder writes: labels after the first are `_service`, `_proto` or `local`; none is `_sub`. */
  predicate NameShape(strings: seq<Text>) {
    && 1 <= |strings| <= 4
    && (forall s :: s in strings ==> IsLabel(s))
    && (forall i :: 1 <= i < |strings| ==> OwnField(strings[i]))
    && !NoCase(strings[0], SUB)
  }

  /** Tokens that spell a name of that shape fill exactly its parts. */
  lemma {:induction false} SpelledName(ts: seq<Token>, strings: seq<Text>)
    requires Wellformed(ts) && NameShape(strings) && Similar(Spell(ts), strings)
    ensures var r := AbsorbAll(EMPTY, ts);
            && r.parts == |strings| && r.fields[..r.parts] == Spell(ts)
            && !r.sub && (r.invalid ==> r.parts == 4)
    decreases |ts|
  {
    if ts[0].Jump? {
      SpelledName(ts[1..], strings);
    } else {
      var s := CStr(ts[0].text);
      var rest := Spell(ts[1..]);
      assert Spell(ts) == [s] + rest && s == Spell(ts)[0];
      assert NoCase(s, strings[0]);
      var first := Absorb(EMPTY, ts[0]);
      assert first == EMPTY.(fields := EMPTY.fields[0 := s], parts := 1);
      forall i | 0 <= i < |rest|
        ensures OwnField(rest[i])
      {
        assert rest[i] == Spell(ts)[i + 1];
      }
      SpelledFields(first, ts[1..]);
      var r := AbsorbAll(EMPTY, ts);
      assert r.fields[..1] == first.fields[..1] == [s];
      assert r.fields[..r.parts] == r.fields[..1] + r.fields[1..r.parts];
    }
  }

  /** `n` holds `strings` in its first fields, up to letter case. */
  predicate Holds(n: Name, strings: seq<Text>) {
    n.Valid() && n.parts == |strings| <= 4 && !n.sub && Similar(n.fields[..n.parts], strings)
  }

  /**
   * Compression round trip: reading back at the old write position ends at the new one and returns the labels
   * written.  It stays so in any later memory `mem`, read with any packet length `plen`, that keeps the name's own
   * bytes and the stretch [lo, hi) its pointers lead into.  If the matches are clear, the name is not flagged.
   */
  lemma CompressionRoundTrip(w: Writer, strings: seq<Text>, lo: nat, hi: nat, mem: seq<byte>, plen: nat, clear: bool)
    requires w.Valid() && NameShape(strings) && hi <= w.index
    requires AppendFqdn(w, strings).whole && SettledRun(w, strings, lo, hi, clear)
    requires AppendFqdn(w, strings).w.index <= plen < |mem|
    requires SameOn(AppendFqdn(w, strings).w.mem, mem, Zone(lo, hi, w.index, AppendFqdn(w, strings).w.index))
    ensures var r := Read(mem, plen, w.index, w.index, EMPTY);
            && r.Good? && r.next == AppendFqdn(w, strings).w.index
            && Holds(r.name, strings) && (r.name.invalid ==> r.name.parts == 4 && !clear)
  {
    var e := AppendFqdn(w, strings).w;
    WrittenNameScans(w, strings, w.index, lo, hi, clear);
    var z := Zone(lo, hi, w.index, e.index);
    ScanFrame(e.mem, SIZE, mem, plen, w.index, w.index, z, z);
    ScannedNameReads(mem, plen, w.index, strings, clear);
  }

  lemma ScannedNameReads(mem: seq<byte>, plen: nat, at: nat, strings: seq<Text>, clear: bool)
    requires plen < |mem| && NameShape(strings)
    requires var s := Scan(mem, plen, at, at);
             s.Scanned? && Similar(Spell(s.tokens), strings) && (clear ==> EndsInLabel(s.tokens))
    ensures var r := Read(mem, plen, at, at, EMPTY);
            && r.Good? && r.next == Scan(mem, plen, at, at).next
            && Holds(r.name, strings) && (r.name.invalid ==> r.name.parts == 4 && !clear)
  {
    hide AbsorbAll, Holds;
    ReadIsScanThenAbsorb(mem, plen, at, at, EMPTY);
    var ts := Scan(mem, plen, at, at).tokens;
    SpelledName(ts, strings);
    HoldsSpelled(AbsorbAll(EMPTY, ts), ts, strings);
    if clear {
      NoFlagRaised(EMPTY, ts);
    }
  }

  lemma HoldsSpelled(n: Name, ts: seq<Token>, strings: seq<Text>)
    requires n.Valid() && NameShape(strings) && Similar(Spell(ts), strings)
    requires n.parts == |strings| && n.fields[..n.parts] == Spell(ts) && !n.sub
    ensures Holds(n, strings) && EMPTY.parts + |Spell(ts)| <= 4
  {
  }

  /** With room for its labels, a list that ends in a label raises no flag. */
  lemma {:induction false} NoFlagRaised(n: Name, ts: seq<Token>)
    requires n.Valid() && Wellformed(ts) && !n.invalid && n.parts + |Spell(ts)| <= 4 && EndsInLabel(ts)
    ensures !AbsorbAll(n, ts).invalid
    decreases |ts|
  {
    SpellHas(ts);
    var m := Absorb(n, ts[0]);
    assert !m.invalid;
    if |ts| > 1 {
      assert ts[1..][|ts| - 2] == ts[|ts| - 1];
      NoFlagRaised(m, ts[1..]);
    } else {
      assert ts[1..] == [];
    }
  }

  lemma {:induction false} SpellHas(ts: seq<Token>)
    requires EndsInLabel(ts)
    ensures |Spell(ts)| >= 1
  {
    if |ts| > 1 {
      assert ts[1..][|ts| - 2] == ts[|ts| - 1];
      SpellHas(ts[1..]);
    }
  }

  // ---------------------------------------------------------------- matches that are not settled

  /** The match accepted for some tail of the name lies inside the name itself, which began at `start`. */
  predicate SelfMatched(w: Writer, strings: seq<Text>, start: nat)
    requires w.Valid()
    decreases |strings|
  {
    strings != [] &&
    match FirstMatch(w.mem, w.index, strings, 0)
    case Some(loc) => loc >= start
    case None => AppendString(w, strings[0]).ret > 0 && SelfMatched(AppendString(w, strings[0]).w, strings[1..], start)
  }

  /** The bytes written for `strings`, as another memory has them. */
  predicate HasName(w: Writer, strings: seq<Text>, mem: seq<byte>, plen: nat)
    requires w.Valid()
  {
    var e := AppendFqdn(w, strings).w;
    e.index <= plen < |mem| && forall i :: w.index <= i < e.index ==> mem[i] == e.mem[i]
  }

  /** No reader gets such a name back: a pointer has to aim before the start of the name it stands in. */
  lemma {:induction false} SelfMatchNeverReads(w: Writer, strings: seq<Text>, start: nat, mem: seq<byte>, plen: nat,
                                               name: Name)
    requires w.Valid() && start <= w.index && name.Valid() && forall s :: s in strings ==> IsLabel(s)
    requires AppendFqdn(w, strings).whole && SelfMatched(w, strings, start) && HasName(w, strings, mem, plen)
    ensures w.index < plen < |mem| && Read(mem, plen, start, w.index, name) == Bad
    decreases |strings|
  {
    hide Accepts, FirstMatch, AppendString;
    match FirstMatch(w.mem, w.index, strings, 0) {
      case Some(loc) =>
        SelfPointer(w, loc, start, mem, plen);
      case None =>
        assert IsLabel(strings[0]);
        var head := AppendString(w, strings[0]);
        StringAccounts(w, strings[0]);
        LiteralStored(w, strings, start, mem, plen);
        SelfMatchNeverReads(head.w, strings[1..], start, mem, plen, Absorb(name, Label(strings[0])));
    }
  }

  lemma SelfPointer(w: Writer, loc: nat, start: nat, mem: seq<byte>, plen: nat)
    requires w.Valid() && start <= loc < SIZE && start <= w.index && AppendU16(w, 0xC000 + loc).whole
    requires var e := AppendU16(w, 0xC000 + loc).w;
             e.index <= plen < |mem| && forall i :: w.index <= i < e.index ==> mem[i] == e.mem[i]
    ensures w.index < plen && PieceAt(mem, plen, start, w.index) == Fault
  {
    var e := AppendU16(w, 0xC000 + loc).w;
    assert e.mem[w.index..w.index + 2] == U16Bytes(0xC000 + loc);
    assert e.mem[w.index] == 0xC0 + loc / 256 && e.mem[w.index + 1] == loc % 256;
  }

  lemma LiteralStored(w: Writer, strings: seq<Text>, start: nat, mem: seq<byte>, plen: nat)
    requires w.Valid() && start <= w.index && strings != [] && forall s :: s in strings ==> IsLabel(s)
    requires FirstMatch(w.mem, w.index, strings, 0) == None && AppendString(w, strings[0]).ret > 0
    requires HasName(w, strings, mem, plen)
    ensures AppendString(w, strings[0]).w.index <= plen < |mem|
    ensures PieceAt(mem, plen, start, w.index) == Text(strings[0], AppendString(w, strings[0]).w.index)
  {
    hide FirstMatch, PieceAt, AppendString;
    assert IsLabel(strings[0]);
    var s := strings[0];
    var head := AppendString(w, s);
    StringAccounts(w, s);
    var e := AppendFqdn(w, strings).w;
    assert e == AppendFqdn(head.w, strings[1..]).w;
    AppendFqdnAccounts(head.w, strings[1..]);
    hide AppendFqdn;
    assert mem[w.index..head.w.index] == head.w.mem[w.index..head.w.index];
    LiteralPiece(mem, s, w.index, start, plen);
  }

  /**
   * The settled hypothesis cannot be dropped.  In a fresh packet a host called "local" is written as "local" and a
   * pointer to itself, because the unfinished name already reads as "local" over the zero bytes that follow.
   */
  lemma HostCalledLocalIsLost(mem: seq<byte>)
    requires |mem| == SIZE + SLACK && forall i :: 0 <= i < |mem| ==> mem[i] == 0
    ensures var w, strings := Writer(mem, HEAD), [LOCAL, LOCAL];
            && NameShape(strings) && AppendFqdn(w, strings).whole && !SettledRun(w, strings, 0, HEAD, false)
            && Read(AppendFqdn(w, strings).w.mem, AppendFqdn(w, strings).w.index, HEAD, HEAD, EMPTY) == Bad
  {
    hide FirstMatch, Accepts, Read, Splice, Settled, NoCase;
    var w, strings := Writer(mem, HEAD), [LOCAL, LOCAL];
    LocalShape();
    ZeroesUnmatched(mem, HEAD, strings);
    OwnStartAccepted(w);
    var head := AppendString(w, LOCAL);
    assert strings[1..] == [LOCAL];
    var loc := OwnStartFound(head.w);
    SelfMatchNeverReads(w, strings, HEAD, AppendFqdn(w, strings).w.mem, AppendFqdn(w, strings).w.index, EMPTY);
    SettledIsBefore(head.w.mem, loc, 0, HEAD);
  }

  lemma LocalShape()
    ensures NameShape([LOCAL, LOCAL])
  {
    assert NoCase(LOCAL, LOCAL);
  }

  lemma OwnStartFound(w: Writer) returns (loc: nat)
    requires w.Valid() && w.index == HEAD + 6 && Accepts(w.mem, HEAD, [LOCAL])
    requires forall i :: 0 <= i < HEAD ==> w.mem[i] == 0
    ensures FirstMatch(w.mem, w.index, [LOCAL], 0) == Some(loc) && HEAD <= loc < w.index
  {
    hide Read, NoCase;
    var m := FirstMatch(w.mem, w.index, [LOCAL], 0);
    assert m.Some? by {
      hide Accepts;
    }
    loc := m.value;
    assert w.mem[loc] == 5;
  }

  lemma SettledIsBefore(mem: seq<byte>, loc: nat, lo: nat, hi: nat)
    requires |mem| == SIZE + SLACK
    ensures Settled(mem, loc, lo, hi, false) ==> loc < hi
  {
  }

  lemma OwnStartAccepted(w: Writer)
    requires w.Valid() && w.index == HEAD && forall i :: 0 <= i < |w.mem| ==> w.mem[i] == 0
    ensures var h := AppendString(w, LOCAL);
            && h.ret == 6 && h.w.index == HEAD + 6 && Accepts(h.w.mem, HEAD, [LOCAL])
            && forall i :: 0 <= i < HEAD ==> h.w.mem[i] == 0
  {
    var h := AppendString(w, LOCAL).w;
    assert h.mem[HEAD + 6] == 0;
  }

  // ---------------------------------------------------------------- an example of the round trip

  const TCP: Text := [95, 116, 99, 112]
  const ONE_LETTER: Text := [97]

  /** In a fresh packet: "_tcp" written first, then "a._tcp", which takes four bytes, two of them a pointer. */
  lemma SharedTailIsCompressed(mem: seq<byte>)
    requires |mem| == SIZE + SLACK && forall i :: 0 <= i < |mem| ==> mem[i] == 0
    ensures var first := AppendFqdn(Writer(mem, HEAD), [TCP]);
            var second := AppendFqdn(first.w, [ONE_LETTER, TCP]);
            && first.whole && first.w.index == HEAD + 6 && second.whole && second.ret == 4
            && first.w.mem[HEAD..HEAD + 6] == [4, 95, 116, 99, 112, 0]
            && second.w.mem[HEAD + 6..HEAD + 10] == [1, 97, 0xC0, 12]
            && SettledRun(first.w, [ONE_LETTER, TCP], HEAD, HEAD + 6, true)
            && var r := Read(second.w.mem, second.w.index, HEAD + 6, HEAD + 6, EMPTY);
              r.Good? && r.next == HEAD + 10 && Holds(r.name, [ONE_LETTER, TCP])
  {
    hide FirstMatch, Accepts, Read, Splice, Settled, NoCase, Similar, Scan, Confined;
    var w0 := Writer(mem, HEAD);
    ZeroesUnmatched(mem, HEAD, [TCP]);
    var h1 := AppendString(w0, TCP).w;
    assert [TCP][1..] == [];
    var w1 := AppendU8(h1, 0).w;
    assert AppendFqdn(w0, [TCP]) == Emit(w1, 6, true);
    NoMatchBefore(w1);
    var h2 := AppendString(w1, ONE_LETTER).w;
    assert [ONE_LETTER, TCP][1..] == [TCP];
    TailFound(h2);
    assert AppendFqdn(w1, [ONE_LETTER, TCP]) == Emit(AppendU16(h2, 0xC000 + HEAD).w, 4, true);
    FourOctets(w1);
    ExampleShape();
    CompressionRoundTrip(w1, [ONE_LETTER, TCP], HEAD, HEAD + 6, AppendU16(h2, 0xC000 + HEAD).w.mem, HEAD + 10, true);
  }

  /** "a" and a pointer to the start of the packet body. */
  lemma FourOctets(w: Writer)
    requires w.Valid() && w.index == HEAD + 6
    ensures var e := AppendU16(AppendString(w, ONE_LETTER).w, 0xC000 + HEAD).w;
            e.mem[HEAD + 6..HEAD + 10] == [1, 97, 0xC0, 12]
  {
    var h := AppendString(w, ONE_LETTER).w;
    var m := AppendU16(h, 0xC000 + HEAD).w.mem;
    assert h.mem[HEAD + 6..HEAD + 8] == [1] + ONE_LETTER;
    assert m[HEAD + 6] == h.mem[HEAD + 6..HEAD + 8][0] && m[HEAD + 7] == h.mem[HEAD + 6..HEAD + 8][1];
    assert m[HEAD + 8..HEAD + 10] == U16Bytes(0xC00C);
    assert m[HEAD + 8] == m[HEAD + 8..HEAD + 10][0] && m[HEAD + 9] == m[HEAD + 8..HEAD + 10][1];
  }

  /** The packet holds "_tcp", complete, at its start, and nothing that looks like "a". */
  predicate HoldsTcp(mem: seq<byte>) {
    && |mem| == SIZE + SLACK && (forall i :: 0 <= i < HEAD ==> mem[i] == 0)
    && mem[HEAD..HEAD + 6] == [4] + TCP + [0]
  }

  lemma TcpBytes(mem: seq<byte>)
    requires HoldsTcp(mem)
    ensures mem[HEAD] == 4 && mem[HEAD + 1] == 95 && mem[HEAD + 2] == 116 && mem[HEAD + 3] == 99
    ensures mem[HEAD + 4] == 112 && mem[HEAD + 5] == 0 && mem[HEAD + 1..HEAD + 5] == TCP
  {
    var s := mem[HEAD..HEAD + 6];
    assert s[0] == mem[HEAD] && s[1] == mem[HEAD + 1] && s[2] == mem[HEAD + 2] && s[3] == mem[HEAD + 3];
    assert s[4] == mem[HEAD + 4] && s[5] == mem[HEAD + 5];
    assert mem[HEAD + 1..HEAD + 5] == s[1..5] == TCP;
  }

  lemma NoMatchBefore(w: Writer)
    requires w.Valid() && w.index == HEAD + 6 && HoldsTcp(w.mem)
    ensures FirstMatch(w.mem, w.index, [ONE_LETTER, TCP], 0) == None
  {
    hide Read, NoCase, HoldsTcp;
    TcpBytes(w.mem);
    var m := FirstMatch(w.mem, w.index, [ONE_LETTER, TCP], 0);
    if m.Some? {
      LengthByte(w.mem, m.value);
      assert false;
    }
  }

  lemma LengthByte(mem: seq<byte>, i: nat)
    requires HoldsTcp(mem) && i < HEAD + 6
    ensures mem[i] != 1
  {
    TcpBytes(mem);
  }

  lemma TcpRead(mem: seq<byte>)
    requires HoldsTcp(mem)
    ensures Read(mem, SIZE, HEAD, HEAD, EMPTY) == Good(HEAD + 6, Name([TCP, [], [], []], 1, false, false))
    ensures Confined(mem, SIZE, HEAD, HEAD, Zone(HEAD, HEAD + 6, 0, 0))
  {
    TcpBytes(mem);
    assert PieceAt(mem, SIZE, HEAD, HEAD) == Text(TCP, HEAD + 5);
    assert PieceAt(mem, SIZE, HEAD, HEAD + 5) == End;
    CStrOfText(TCP);
    assert Absorb(EMPTY, Label(TCP)) == Name([TCP, [], [], []], 1, false, false);
  }

  /** The tail of the second name is found where the first one stands, and settled there. */
  lemma TailFound(w: Writer)
    requires w.Valid() && w.index == HEAD + 8 && HoldsTcp(w.mem)
    ensures FirstMatch(w.mem, w.index, [TCP], 0) == Some(HEAD) && Settled(w.mem, HEAD, HEAD, HEAD + 6, true)
  {
    TcpBytes(w.mem);
    TcpRead(w.mem);
    assert NoCase(TCP, TCP);
    assert Accepts(w.mem, HEAD, [TCP]);
    hide Read, Confined;
    var m := FirstMatch(w.mem, w.index, [TCP], 0);
    assert m.Some? && m.value <= HEAD;
    assert w.mem[m.value] == 4;
  }

  lemma ExampleShape()
    ensures NameShape([ONE_LETTER, TCP])
  {
    assert Lower(TCP[1]) != Lower(SUB[1]);
    assert OwnField(TCP) && |ONE_LETTER| != |SUB|;
  }
}
