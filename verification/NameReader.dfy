/** Reading domain names: `_mdns_read_fqdn` and `_mdns_parse_fqdn`. */
module NameReader {
  import opened Bytes

  /** `mdns_name_t`: `fields` are host, service, proto, domain, each seen as a C string. */
  datatype Name = Name(fields: seq<seq<byte>>, parts: nat, sub: bool, invalid: bool) {
    predicate Valid() {
      |fields| == 4 && parts <= 4 && forall i :: 0 <= i < 4 ==> |fields[i]| <= NAME_MAX
    }
  }

  const EMPTY: Name := Name([[], [], [], []], 0, false, false)

  datatype Parse = Bad | Good(next: nat, name: Name)

  // ---------------------------------------------------------------- one token

  /** What the reader meets: a label, or a compression pointer. */
  datatype Token = Label(text: seq<byte>) | Jump

  /** A second label that is part of a dotted host rather than a field of its own. */
  predicate ExtendsHost(text: seq<byte>)
    requires text != []
  {
    var s := CStr(text);
    text[0] != UNDERSCORE && !NoCase(s, LOCAL) && !NoCase(s, ARPA) && !NoCase(s, IP6) && !NoCase(s, IN_ADDR)
  }

  /** The effect of one token on the name being filled in. */
  function Absorb(n: Name, t: Token): (r: Name)
    requires n.Valid() && (t.Label? ==> 1 <= |t.text| <= 63)
    ensures r.Valid()
  {
    var n := if n.parts == 4 then n.(invalid := true) else n;
    if t.Jump? then n
    else
      var s := CStr(t.text);
      if n.parts == 1 && ExtendsHost(t.text) then
        n.(fields := n.fields[0 := StrLCat(StrLCat(n.fields[0], [46]), s)])
      else if NoCase(s, SUB) then n.(sub := true)
      else if !n.invalid then n.(fields := n.fields[n.parts := s], parts := n.parts + 1)
      else n
  }

  // ---------------------------------------------------------------- the reader

  /** What stands at one position of a name: its end, a label, a pointer, or something unreadable. */
  datatype Piece = End | Text(text: seq<byte>, next: nat) | Pointer(address: nat, next: nat) | Fault

  /**
   * One round of the loop of `_mdns_read_fqdn`, at offset `pos` of a name (or pointer target) that began at `start`.
   * Only the first `plen` bytes are the packet; a pointer's second byte is fetched without looking at `plen`.
   */
  function PieceAt(mem: seq<byte>, plen: nat, start: nat, pos: nat): (r: Piece)
    requires plen < |mem|
    ensures r.Text? ==> pos < r.next <= plen && 1 <= |r.text| <= 63
    ensures r.Pointer? ==> r.address < start && pos < r.next <= plen + 1
  {
    if pos >= plen || mem[pos] == 0 then End
    else if mem[pos] < 0xC0 then
      var next := pos + 1 + mem[pos];
      if mem[pos] > 63 || next > plen then Fault else Text(mem[pos + 1..next], next)
    else
      var address := (mem[pos] as int - 0xC0) * 256 + mem[pos + 1];
      if address >= start then Fault else Pointer(address, pos + 2)
  }

  /** `_mdns_read_fqdn` from offset `pos` on. */
  function Read(mem: seq<byte>, plen: nat, start: nat, pos: nat, name: Name): (r: Parse)
    requires plen < |mem| && start <= pos && name.Valid()
    ensures r.Good? ==> r.name.Valid() && pos < r.next
    ensures r.Good? && pos <= plen ==> r.next <= plen + 1
    decreases start, plen - pos
  {
    match PieceAt(mem, plen, start, pos)
    case End => Good(pos + 1, name)
    case Fault => Bad
    case Text(text, next) => Read(mem, plen, start, next, Absorb(name, Label(text)))
    case Pointer(address, next) =>
      match Read(mem, plen, address, address, Absorb(name, Jump))
      case Bad => Bad
      case Good(_, n) => Good(next, n)
  }

  /** `_mdns_parse_fqdn`: read into a cleared name, then move the parts to where the parser expects them. */
  function ParseFqdn(mem: seq<byte>, plen: nat, start: nat): (r: Parse)
    requires plen < |mem|
  {
    match Read(mem, plen, start, start, EMPTY)
    case Bad => Bad
    case Good(next, n) => Good(next, Arrange(n))
  }

  function Arrange(n: Name): (r: Name)
    requires n.Valid()
    ensures r.Valid()
  {
    if n.parts == 0 || n.invalid then n
    else
      var f := n.fields;
      var m := if n.parts == 3 then n.(fields := [[], f[0], f[1], f[2]])
               else if n.parts == 2 then n.(fields := [f[0], [], [], f[1]])
               else n;
      if NoCase(m.fields[3], LOCAL) || NoCase(m.fields[3], ARPA) then m else m.(invalid := true)
  }

  // ---------------------------------------------------------------- reference: scan first, interpret later

  datatype Scanning = Broken | Scanned(next: nat, tokens: seq<Token>)

  predicate Wellformed(ts: seq<Token>) {
    forall t :: t in ts && t.Label? ==> 1 <= |t.text| <= 63
  }

  /** The tokens of the name at `pos`, pointers followed; it never looks at the fields being filled. */
  function Scan(mem: seq<byte>, plen: nat, start: nat, pos: nat): (r: Scanning)
    requires plen < |mem| && start <= pos
    ensures r.Scanned? ==> Wellformed(r.tokens)
    decreases start, plen - pos
  {
    match PieceAt(mem, plen, start, pos)
    case End => Scanned(pos + 1, [])
    case Fault => Broken
    case Text(text, next) =>
      (match Scan(mem, plen, start, next)
       case Broken => Broken
       case Scanned(end, ts) => Scanned(end, [Label(text)] + ts))
    case Pointer(address, next) =>
      match Scan(mem, plen, address, address)
      case Broken => Broken
      case Scanned(_, ts) => Scanned(next, [Jump] + ts)
  }

  function AbsorbAll(n: Name, ts: seq<Token>): (r: Name)
    requires n.Valid() && Wellformed(ts)
    ensures r.Valid()
    decreases |ts|
  {
    if ts == [] then n else AbsorbAll(Absorb(n, ts[0]), ts[1..])
  }

  /** The one-pass reader is the two-pass reference: success and end depend on the bytes alone, the fields on the tokens. */
  lemma {:induction false} ReadIsScanThenAbsorb(mem: seq<byte>, plen: nat, start: nat, pos: nat, name: Name)
    requires plen < |mem| && start <= pos && name.Valid()
    ensures Read(mem, plen, start, pos, name) ==
            match Scan(mem, plen, start, pos)
            case Broken => Bad
            case Scanned(next, ts) => Good(next, AbsorbAll(name, ts))
    decreases start, plen - pos
  {
    match PieceAt(mem, plen, start, pos)
    case End =>
    case Fault =>
    case Text(text, next) =>
      ReadIsScanThenAbsorb(mem, plen, start, next, Absorb(name, Label(text)));
    case Pointer(address, next) =>
      ReadIsScanThenAbsorb(mem, plen, address, address, Absorb(name, Jump));
  }

  // ---------------------------------------------------------------- the fields, from the labels

  /** The labels of a token list as C strings, in order. */
  function Spell(ts: seq<Token>): (r: seq<seq<byte>>)
    ensures |r| <= |ts|
  {
    if ts == [] then []
    else if ts[0].Jump? then Spell(ts[1..])
    else [CStr(ts[0].text)] + Spell(ts[1..])
  }

  /** A label that keeps a field to itself wherever it stands after the first. */
  predicate OwnField(s: seq<byte>) {
    s != [] && (s[0] == UNDERSCORE || NoCase(s, LOCAL)) && !NoCase(s, SUB)
  }

  /** Bookkeeping: the field `s` filled first, then `rest`. */
  lemma JoinFields(n: Name, m: Name, s: seq<byte>, r: Name, rest: seq<seq<byte>>)
    requires n.Valid() && m.Valid() && r.Valid() && n.parts < 4 && m.parts == n.parts + 1 <= r.parts
    requires m.fields == n.fields[n.parts := s]
    requires r.fields[..m.parts] == m.fields[..m.parts] && r.fields[m.parts..r.parts] == rest
    ensures r.fields[..n.parts] == n.fields[..n.parts]
    ensures r.fields[n.parts..r.parts] == [s] + rest
  {
    assert r.fields[..n.parts] == r.fields[..m.parts][..n.parts];
    assert r.fields[n.parts] == r.fields[..m.parts][n.parts] == m.fields[..m.parts][n.parts];
    assert r.fields[n.parts..r.parts] == [r.fields[n.parts]] + r.fields[m.parts..r.parts];
  }

  /**
   * From a name with at least one part: labels that own their field land in the fields one by one.  `invalid` can
   * only be raised by a pointer that follows the fourth part.
   */
  lemma {:induction false} SpelledFields(n: Name, ts: seq<Token>)
    requires n.Valid() && Wellformed(ts) && n.parts >= 1 && !n.sub && (n.invalid ==> n.parts == 4)
    requires n.parts + |Spell(ts)| <= 4
    requires forall i :: 0 <= i < |Spell(ts)| ==> OwnField(Spell(ts)[i])
    ensures var r := AbsorbAll(n, ts);
            && r.parts == n.parts + |Spell(ts)| && !r.sub && (r.invalid ==> r.parts == 4)
            && r.fields[..n.parts] == n.fields[..n.parts]
            && r.fields[n.parts..r.parts] == Spell(ts)
    decreases |ts|
  {
    if ts != [] {
      var m := Absorb(n, ts[0]);
      if ts[0].Jump? {
        SpelledFields(m, ts[1..]);
      } else {
        var s := CStr(ts[0].text);
        assert Spell(ts) == [s] + Spell(ts[1..]) && s == Spell(ts)[0];
        assert OwnField(s);
        assert forall i :: 0 <= i < |Spell(ts[1..])| ==> Spell(ts[1..])[i] == Spell(ts)[i + 1];
        SpelledFields(m, ts[1..]);
        JoinFields(n, m, s, AbsorbAll(n, ts), Spell(ts[1..]));
      }
    }
  }

  /**
   * Conversely, if the host did not grow, no `_sub` was met and nothing was flagged, the fields filled are exactly
   * the labels read.
   */
  lemma {:induction false} FieldsSpelled(n: Name, ts: seq<Token>)
    requires n.Valid() && Wellformed(ts) && n.parts >= 1 && |n.fields[0]| <= 63
    requires var r := AbsorbAll(n, ts); !r.sub && !r.invalid && |r.fields[0]| <= |n.fields[0]|
    ensures var r := AbsorbAll(n, ts);
            && r.parts == n.parts + |Spell(ts)|
            && r.fields[n.parts..r.parts] == Spell(ts)
            && r.fields[..n.parts] == n.fields[..n.parts]
    decreases |ts|
  {
    if ts != [] {
      var m := Absorb(n, ts[0]);
      FlagsStick(m, ts[1..]);
      if ts[0].Jump? {
        FieldsSpelled(m, ts[1..]);
      } else {
        var s := CStr(ts[0].text);
        assert !(n.parts == 1 && ExtendsHost(ts[0].text));
        assert m.fields == n.fields[n.parts := s] && m.parts == n.parts + 1;
        FieldsSpelled(m, ts[1..]);
        JoinFields(n, m, s, AbsorbAll(n, ts), Spell(ts[1..]));
      }
    }
  }

  /** Flags are never cleared and, once a part is there, the host never shrinks. */
  lemma {:induction false} FlagsStick(n: Name, ts: seq<Token>)
    requires n.Valid() && Wellformed(ts) && n.parts >= 1
    ensures var r := AbsorbAll(n, ts);
            && (n.sub ==> r.sub) && (n.invalid ==> r.invalid) && r.parts >= n.parts
            && |r.fields[0]| >= |n.fields[0]|
    decreases |ts|
  {
    if ts != [] {
      FlagsStick(Absorb(n, ts[0]), ts[1..]);
    }
  }

  // ---------------------------------------------------------------- which bytes a read depends on

  /** Two stretches of the packet: [lo, hi) and [from, to). */
  datatype Zone = Zone(lo: nat, hi: nat, from: nat, to: nat) {
    predicate Covers(a: nat, b: nat) {
      (lo <= a && b <= hi) || (from <= a && b <= to)
    }
    predicate Inside(z: Zone) {
      z.lo <= lo && hi <= z.hi && (to <= from || (z.from <= from && to <= z.to))
    }
  }

  /** The name at `pos` is complete, terminator included, and every byte it is made of lies in the zone. */
  predicate Confined(mem: seq<byte>, plen: nat, start: nat, pos: nat, z: Zone)
    requires plen < |mem| && start <= pos
    decreases start, plen - pos
  {
    && pos < plen
    && match PieceAt(mem, plen, start, pos)
      case End => z.Covers(pos, pos + 1)
      case Fault => false
      case Text(_, next) => z.Covers(pos, next) && Confined(mem, plen, start, next, z)
      case Pointer(address, next) => z.Covers(pos, next) && Confined(mem, plen, address, address, z)
  }

  /** Two memories agree on a zone. */
  predicate SameOn(m1: seq<byte>, m2: seq<byte>, z: Zone) {
    && z.hi <= |m1| && z.to <= |m1| && z.hi <= |m2| && z.to <= |m2|
    && (forall i :: z.lo <= i < z.hi ==> m1[i] == m2[i])
    && (forall i :: z.from <= i < z.to ==> m1[i] == m2[i])
  }

  /** One piece of a name is the same wherever its bytes are the same. */
  lemma PieceFrame(m1: seq<byte>, p1: nat, m2: seq<byte>, p2: nat, start: nat, pos: nat, z: Zone)
    requires p1 < |m1| && p2 < |m2| && z.hi <= p2 && z.to <= p2 && SameOn(m1, m2, z)
    requires start <= pos && Confined(m1, p1, start, pos, z)
    ensures pos < p2 && PieceAt(m1, p1, start, pos) == PieceAt(m2, p2, start, pos)
  {
    match PieceAt(m1, p1, start, pos)
    case End =>
    case Text(text, next) =>
      assert m1[pos..next] == m2[pos..next];
      assert m1[pos + 1..next] == m1[pos..next][1..] && m2[pos + 1..next] == m2[pos..next][1..];
    case Pointer(address, next) =>
      assert m1[pos..next] == m2[pos..next];
      assert m1[pos] == m1[pos..next][0] && m1[pos + 1] == m1[pos..next][1];
  }

  /** A confined name reads the same in any memory, and any packet length, that keeps its zone. */
  lemma {:induction false} ScanFrame(m1: seq<byte>, p1: nat, m2: seq<byte>, p2: nat, start: nat, pos: nat, z: Zone,
                                     z2: Zone)
    requires p1 < |m1| && p2 < |m2| && start <= pos
    requires Confined(m1, p1, start, pos, z)
    requires z.hi <= p2 && z.to <= p2 && SameOn(m1, m2, z) && z.Inside(z2)
    ensures Scan(m1, p1, start, pos).Scanned?
    ensures Scan(m2, p2, start, pos) == Scan(m1, p1, start, pos)
    ensures Confined(m2, p2, start, pos, z2)
    decreases start, p1 - pos
  {
    PieceFrame(m1, p1, m2, p2, start, pos, z);
    match PieceAt(m1, p1, start, pos)
    case End =>
    case Text(_, next) => ScanFrame(m1, p1, m2, p2, start, next, z, z2);
    case Pointer(address, _) => ScanFrame(m1, p1, m2, p2, address, address, z, z2);
  }
}
