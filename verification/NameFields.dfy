/** What the parser makes of names this responder does not write: dotted hosts, and domains other than its own. */
module NameFields {
  import opened Bytes
  import opened NameReader
  import opened NameRoundTrip
  import opened SelfMatch

  // ---------------------------------------------------------------- other domains

  /** The labels of a name, the last one in any domain. */
  predicate InSomeDomain(labels: seq<Text>) {
    && 2 <= |labels| <= 4 && NameShape(labels[..|labels| - 1]) && IsLabel(labels[|labels| - 1])
    && !NoCase(labels[|labels| - 1], SUB)
    && (|labels| == 2 ==> !ExtendsHost(labels[1]))
  }

  /** The parts in their places: host, service, proto, domain. */
  function Placed(labels: seq<seq<byte>>): (r: seq<seq<byte>>)
    requires 2 <= |labels| <= 4
    ensures |r| == 4
  {
    if |labels| == 4 then labels
    else if |labels| == 3 then [[]] + labels
    else [labels[0], [], [], labels[1]]
  }

  predicate KnownDomain(domain: seq<byte>) {
    NoCase(domain, LOCAL) || NoCase(domain, ARPA)
  }

  lemma {:induction false} SpellJoin(a: seq<Token>, b: seq<Token>)
    ensures Spell(a + b) == Spell(a) + Spell(b)
    decreases |a|
  {
    if a == [] {
      assert a + b == b;
    } else {
      assert (a + b)[1..] == a[1..] + b;
      SpellJoin(a[1..], b);
    }
  }

  /** A list that ends in a label, taken apart. */
  lemma LastLabel(ts: seq<Token>, labels: seq<Text>) returns (init: seq<Token>)
    requires Wellformed(ts) && EndsInLabel(ts) && labels != [] && Spell(ts) == labels
    ensures ts == init + [ts[|ts| - 1]] && Wellformed(init) && Spell(init) == labels[..|labels| - 1]
    ensures CStr(ts[|ts| - 1].text) == labels[|labels| - 1]
  {
    init := ts[..|ts| - 1];
    var last := [ts[|ts| - 1]];
    assert ts == init + last;
    SpellJoin(init, last);
    assert last[1..] == [];
    assert Spell(last) == [CStr(last[0].text)];
    assert labels == Spell(init) + Spell(last);
  }

  lemma ExtendsSame(t: seq<byte>, s: seq<byte>)
    requires t != [] && s != [] && CStr(t) == s && 0 !in s
    ensures ExtendsHost(t) <==> ExtendsHost(s)
  {
    hide NoCase;
    CStrOfText(s);
  }

  /**
   * A name that reaches its last label by itself is put in place whatever its domain, and marked invalid exactly if
   * the domain is neither `local` nor `arpa`.
   */
  lemma InvalidIffOtherDomain(mem: seq<byte>, plen: nat, start: nat, labels: seq<Text>)
    requires plen < |mem| && InSomeDomain(labels)
    requires var s := Scan(mem, plen, start, start); s.Scanned? && EndsInLabel(s.tokens) && Spell(s.tokens) == labels
    ensures var p := ParseFqdn(mem, plen, start);
            && p.Good? && p.next == Scan(mem, plen, start, start).next
            && p.name.fields == Placed(labels) && p.name.parts == |labels| && !p.name.sub
            && (p.name.invalid <==> !KnownDomain(labels[|labels| - 1]))
  {
    hide Scan, Spell, NoCase, AbsorbAll, IsLabel, CStr, Absorb, Arrange, ExtendsHost, Wellformed, NameShape,
      EndsInLabel;
    ReadIsScanThenAbsorb(mem, plen, start, start, EMPTY);
    var ts, n := Scan(mem, plen, start, start).tokens, |labels|;
    var init := LastLabel(ts, labels);
    HeadAbsorbed(init, labels[..n - 1]);
    var r, last := AbsorbAll(EMPTY, init), ts[|ts| - 1];
    LastIsLabel(ts);
    AbsorbJoin(EMPTY, init, [last]);
    AbsorbOne(r, last);
    LastAbsorbed(r, last, labels);
    LastPlaced(r, labels);
  }

  lemma LastIsLabel(ts: seq<Token>)
    requires Wellformed(ts) && EndsInLabel(ts)
    ensures ts != [] && var last := ts[|ts| - 1]; last.Label? && 1 <= |last.text| <= 63 && Wellformed([last])
  {
  }

  lemma HeadAbsorbed(init: seq<Token>, head: seq<Text>)
    requires Wellformed(init) && NameShape(head) && |head| <= 3 && Spell(init) == head
    ensures var r := AbsorbAll(EMPTY, init);
            r.parts == |head| && r.fields[..r.parts] == head && !r.sub && !r.invalid
  {
    hide Spell, NoCase, AbsorbAll, NameShape;
    SameLabels(head);
    SpelledName(init, head);
  }

  lemma AbsorbOne(n: Name, t: Token)
    requires n.Valid() && Wellformed([t])
    ensures AbsorbAll(n, [t]) == Absorb(n, t)
  {
    assert [t][1..] == [];
  }

  lemma LastAbsorbed(r: Name, last: Token, labels: seq<Text>)
    requires r.Valid() && InSomeDomain(labels) && last.Label? && 1 <= |last.text| <= 63
    requires CStr(last.text) == labels[|labels| - 1] && r.parts == |labels| - 1 && !r.invalid
    ensures Absorb(r, last) == r.(fields := r.fields[r.parts := labels[|labels| - 1]], parts := |labels|)
  {
    hide NoCase, CStr, ExtendsHost, NameShape;
    ExtendsSame(last.text, labels[|labels| - 1]);
  }

  lemma LastPlaced(r: Name, labels: seq<Text>)
    requires r.Valid() && InSomeDomain(labels) && r.parts == |labels| - 1 && !r.sub && !r.invalid
    requires r.fields[..r.parts] == labels[..|labels| - 1]
    ensures var n := r.(fields := r.fields[r.parts := labels[|labels| - 1]], parts := |labels|);
            n.Valid() && Arrange(n) == Name(Placed(labels), |labels|, false, !KnownDomain(labels[|labels| - 1]))
  {
    hide NoCase, NameShape, ExtendsHost;
    var n := r.(fields := r.fields[r.parts := labels[|labels| - 1]], parts := |labels|);
    forall i | 0 <= i < |labels|
      ensures n.fields[i] == labels[i]
    {
      if i < r.parts {
        assert r.fields[..r.parts][i] == labels[..|labels| - 1][i];
      }
    }
    assert Placed(labels)[3] == labels[|labels| - 1];
    assert |labels| == 4 ==> n.fields == labels;
    assert |labels| == 3 ==> [[]] + labels == [[], labels[0], labels[1], labels[2]];
  }

  // ---------------------------------------------------------------- dotted hosts

  /** Labels joined by dots. */
  function Dotted(labels: seq<seq<byte>>): (r: seq<byte>)
    requires labels != []
    decreases |labels|
  {
    if |labels| == 1 then labels[0] else Dotted(labels[..|labels| - 1]) + [46] + labels[|labels| - 1]
  }

  function Cut(s: seq<byte>): (r: seq<byte>) {
    if |s| <= NAME_MAX then s else s[..NAME_MAX]
  }

  /** Appending to a field that was cut cuts in the same place. */
  lemma CutAppend(s: seq<byte>, t: seq<byte>)
    ensures StrLCat(Cut(s), t) == Cut(s + t)
  {
    if |s| > NAME_MAX {
      assert (Cut(s) + t)[..NAME_MAX] == Cut(s);
      assert (s + t)[..NAME_MAX] == s[..NAME_MAX];
    }
  }

  /** Labels that go on a host that is there already. */
  lemma {:induction false} DotsAbsorbed(n: Name, first: seq<seq<byte>>, ts: seq<Token>)
    requires n.Valid() && Wellformed(ts) && n.parts == 1 && first != [] && n.fields[0] == Cut(Dotted(first))
    requires forall i :: 0 <= i < |Spell(ts)| ==> Spell(ts)[i] != [] && ExtendsHost(Spell(ts)[i])
    ensures AbsorbAll(n, ts) == n.(fields := n.fields[0 := Cut(Dotted(first + Spell(ts)))])
    decreases |ts|
  {
    hide ExtendsHost, CStr, Dotted, Cut, Absorb;
    if ts == [] {
      assert first + [] == first && n.fields[0 := n.fields[0]] == n.fields;
    } else if ts[0].Jump? {
      JumpKeepsHost(n);
      assert Spell(ts) == Spell(ts[1..]);
      DotsAbsorbed(n, first, ts[1..]);
    } else {
      var s := CStr(ts[0].text);
      assert Spell(ts) == [s] + Spell(ts[1..]) && Spell(ts)[0] == s;
      DotAbsorbed(n, first, ts[0]);
      assert forall i :: 0 <= i < |Spell(ts[1..])| ==> Spell(ts[1..])[i] == Spell(ts)[i + 1];
      DotsAbsorbed(Absorb(n, ts[0]), first + [s], ts[1..]);
      assert first + [s] + Spell(ts[1..]) == first + Spell(ts);
    }
  }

  lemma JumpKeepsHost(n: Name)
    requires n.Valid() && n.parts == 1
    ensures Absorb(n, Jump) == n
  {
  }

  lemma DotAbsorbed(n: Name, first: seq<seq<byte>>, t: Token)
    requires n.Valid() && n.parts == 1 && first != [] && n.fields[0] == Cut(Dotted(first))
    requires t.Label? && 1 <= |t.text| <= 63 && CStr(t.text) != [] && ExtendsHost(CStr(t.text))
    ensures Absorb(n, t) == n.(fields := n.fields[0 := Cut(Dotted(first + [CStr(t.text)]))])
  {
    hide ExtendsHost, CStr, Dotted, StrLCat, Cut;
    DotExtends(t.text);
    DotAdded(first, CStr(t.text));
  }

  lemma DotExtends(t: seq<byte>)
    requires t != [] && CStr(t) != [] && ExtendsHost(CStr(t))
    ensures ExtendsHost(t)
  {
    ExtendsSame(t, CStr(t));
  }

  lemma DotAdded(first: seq<seq<byte>>, s: seq<byte>)
    requires first != []
    ensures StrLCat(StrLCat(Cut(Dotted(first)), [46]), s) == Cut(Dotted(first + [s]))
  {
    hide StrLCat, Cut;
    CutAppend(Dotted(first), [46]);
    CutAppend(Dotted(first) + [46], s);
    assert (first + [s])[..|first|] == first;
  }

  /** The first label becomes the host, the others go on it. */
  lemma {:induction false} HostAbsorbed(ts: seq<Token>, labels: seq<seq<byte>>)
    requires Wellformed(ts) && labels != [] && Spell(ts) == labels && !NoCase(labels[0], SUB) && |labels[0]| <= NAME_MAX
    requires forall i :: 1 <= i < |labels| ==> labels[i] != [] && ExtendsHost(labels[i])
    ensures AbsorbAll(EMPTY, ts) == EMPTY.(fields := EMPTY.fields[0 := Cut(Dotted(labels))], parts := 1)
    decreases |ts|
  {
    hide ExtendsHost, CStr, StrLCat, NoCase;
    if ts[0].Jump? {
      HostAbsorbed(ts[1..], labels);
    } else {
      var m := Absorb(EMPTY, ts[0]);
      var h := CStr(ts[0].text);
      assert labels == [h] + Spell(ts[1..]) && labels[0] == h;
      assert forall i :: 0 <= i < |Spell(ts[1..])| ==> Spell(ts[1..])[i] == labels[i + 1];
      assert Dotted([h]) == h;
      DotsAbsorbed(m, [h], ts[1..]);
    }
  }

  /**
   * A dotted host name: the labels between the first and the domain go on the host, joined by dots and cut at the
   * size of the field.
   */
  lemma DottedHostReads(mem: seq<byte>, plen: nat, start: nat, labels: seq<Text>)
    requires plen < |mem| && |labels| >= 2 && IsLabel(labels[0]) && !NoCase(labels[0], SUB)
    requires KnownDomain(labels[|labels| - 1])
    requires forall i :: 1 <= i < |labels| - 1 ==> labels[i] != [] && ExtendsHost(labels[i])
    requires var s := Scan(mem, plen, start, start); s.Scanned? && EndsInLabel(s.tokens) && Spell(s.tokens) == labels
    ensures ParseFqdn(mem, plen, start) ==
            Good(Scan(mem, plen, start, start).next,
                 Name([Cut(Dotted(labels[..|labels| - 1])), [], [], labels[|labels| - 1]], 2, false, false))
  {
    hide Scan, Spell, NoCase, AbsorbAll, CStr, Absorb, ExtendsHost, Wellformed, EndsInLabel, Dotted, Cut, KnownDomain;
    ReadIsScanThenAbsorb(mem, plen, start, start, EMPTY);
    var ts, n := Scan(mem, plen, start, start).tokens, |labels|;
    var init := LastLabel(ts, labels);
    var head := labels[..n - 1];
    HostAbsorbed(init, head);
    LastIsLabel(ts);
    var r, last := AbsorbAll(EMPTY, init), ts[|ts| - 1];
    AbsorbJoin(EMPTY, init, [last]);
    AbsorbOne(r, last);
    DomainAbsorbed(r, last, labels[n - 1]);
    DomainKept(r, labels[n - 1]);
  }

  lemma DomainAbsorbed(r: Name, last: Token, domain: Text)
    requires r.Valid() && r.parts == 1 && !r.invalid && last.Label? && 1 <= |last.text| <= 63
    requires CStr(last.text) == domain && KnownDomain(domain)
    ensures Absorb(r, last) == r.(fields := r.fields[1 := domain], parts := 2)
  {
    hide CStr;
    assert domain != [];
    if NoCase(domain, ARPA) {
      assert Lower(domain[0]) == 97;
    }
    ExtendsSame(last.text, domain);
  }

  lemma DomainKept(r: Name, domain: Text)
    requires r.Valid() && r.parts == 1 && !r.invalid && KnownDomain(domain)
    ensures var n := r.(fields := r.fields[1 := domain], parts := 2);
            n.Valid() && Arrange(n) == n.(fields := [r.fields[0], [], [], domain])
  {
  }
}
