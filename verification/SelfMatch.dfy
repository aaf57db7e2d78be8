/** When a name is matched against itself: a condition on its labels. */
module SelfMatch {
  import opened Bytes
  import opened NameReader
  import opened NameRoundTrip
  import opened NameWriter
  import opened Settling

  // ---------------------------------------------------------------- labels in memory

  /** From `at` to `end` stand `labels`, one after the other. */
  predicate Spells(mem: seq<byte>, at: nat, labels: seq<Text>, end: nat)
    decreases |labels|
  {
    if labels == [] then at == end
    else
      var next := at + 1 + |labels[0]|;
      && next <= end && end <= |mem| && mem[at] == |labels[0]| && mem[at + 1..next] == labels[0]
      && Spells(mem, next, labels[1..], end)
  }

  lemma {:induction false} SpellsMore(m1: seq<byte>, m2: seq<byte>, at: nat, labels: seq<Text>, end: nat, s: Text)
    requires |m1| == |m2| && Spells(m1, at, labels, end) && end + 1 + |s| <= |m2|
    requires (forall i :: at <= i < end ==> m1[i] == m2[i]) && m2[end..end + 1 + |s|] == [|s|] + s
    ensures Spells(m2, at, labels + [s], end + 1 + |s|)
    decreases |labels|
  {
    if labels == [] {
      var stored := m2[end..end + 1 + |s|];
      assert m2[end] == stored[0] && m2[end + 1..end + 1 + |s|] == stored[1..];
      assert labels + [s] == [s] && [s][1..] == [];
    } else {
      var next := at + 1 + |labels[0]|;
      SpellsEnd(m1, next, labels[1..], end);
      assert m1[at + 1..next] == m2[at + 1..next];
      SpellsMore(m1, m2, next, labels[1..], end, s);
      assert (labels + [s])[1..] == labels[1..] + [s];
    }
  }

  lemma {:induction false} SpellsEnd(mem: seq<byte>, at: nat, labels: seq<Text>, end: nat)
    requires Spells(mem, at, labels, end)
    ensures at <= end
    decreases |labels|
  {
    if labels != [] {
      SpellsEnd(mem, at + 1 + |labels[0]|, labels[1..], end);
    }
  }

  /** The labels from the `j`-th on. */
  lemma {:induction false} SpellsSuffix(mem: seq<byte>, at: nat, labels: seq<Text>, end: nat, j: nat) returns (loc: nat)
    requires j < |labels| && Spells(mem, at, labels, end)
    ensures at <= loc < end && Spells(mem, loc, labels[j..], end)
    decreases |labels|
  {
    if j == 0 {
      loc := at;
      assert labels[0..] == labels;
      SpellsEnd(mem, at + 1 + |labels[0]|, labels[1..], end);
    } else {
      loc := SpellsSuffix(mem, at + 1 + |labels[0]|, labels[1..], end, j - 1);
      assert labels[1..][j - 1..] == labels[j..];
    }
  }

  lemma ByteOfLabel(mem: seq<byte>, at: nat, s: Text, next: nat, loc: nat)
    requires Ordinary(s) && next == at + 1 + |s| <= |mem| && mem[at + 1..next] == s && at < loc < next
    ensures mem[loc] >= 32
  {
    assert mem[loc] == mem[at + 1..next][loc - at - 1] == s[loc - at - 1];
    assert LabelByte(s[loc - at - 1]);
  }

  /** Among such labels a match can only stand at the start of one, and of the same one. */
  lemma {:induction false} MatchIsAligned(mem: seq<byte>, at: nat, labels: seq<Text>, end: nat, loc: nat,
                                          strings: seq<Text>) returns (j: nat)
    requires |mem| == SIZE + SLACK && Spells(mem, at, labels, end) && at <= loc < end <= SIZE
    requires AllOrdinary(labels) && strings != [] && Ordinary(strings[0]) && Accepts(mem, loc, strings)
    ensures j < |labels| && Spells(mem, loc, labels[j..], end)
    decreases |labels|
  {
    hide Read, NoCase;
    var s, next := labels[0], at + 1 + |labels[0]|;
    assert Ordinary(s);
    if loc == at {
      j := 0;
      assert labels[0..] == labels;
    } else if loc < next {
      ByteOfLabel(mem, at, s, next, loc);
      assert false;
    } else {
      var i := MatchIsAligned(mem, next, labels[1..], end, loc, strings);
      j := i + 1;
      assert labels[1..][i..] == labels[j..];
    }
  }

  // ---------------------------------------------------------------- reading labels in memory

  function TokensOf(labels: seq<Text>): (ts: seq<Token>)
    ensures |ts| == |labels|
  {
    if labels == [] then [] else [Label(labels[0])] + TokensOf(labels[1..])
  }

  lemma {:induction false} TokensSpell(labels: seq<Text>)
    requires AllOrdinary(labels)
    ensures Wellformed(TokensOf(labels)) && Spell(TokensOf(labels)) == labels
  {
    if labels != [] {
      assert Ordinary(labels[0]);
      CStrOfText(labels[0]);
      TokensSpell(labels[1..]);
      assert TokensOf(labels)[1..] == TokensOf(labels[1..]);
    }
  }

  /** Labels, and then whatever stands behind them. */
  lemma {:induction false} SpellsScan(mem: seq<byte>, start: nat, at: nat, labels: seq<Text>, end: nat)
    requires |mem| == SIZE + SLACK && start <= at && Spells(mem, at, labels, end) && end <= SIZE && AllOrdinary(labels)
    ensures start <= end
    ensures var t := Scan(mem, SIZE, start, end);
            Scan(mem, SIZE, start, at) == if t.Broken? then Broken else Scanned(t.next, TokensOf(labels) + t.tokens)
    decreases |labels|
  {
    hide Scan, PieceAt;
    if labels == [] {
      var t := Scan(mem, SIZE, start, end);
      assert t.Scanned? ==> [] + t.tokens == t.tokens;
    } else {
      var next := at + 1 + |labels[0]|;
      SpellsEnd(mem, next, labels[1..], end);
      SpellsScan(mem, start, next, labels[1..], end);
      FirstLabelPiece(mem, start, at, labels, end);
      LabelToken(mem, start, at, labels[0], next);
      var t := Scan(mem, SIZE, start, end);
      if t.Scanned? {
        assert [Label(labels[0])] + (TokensOf(labels[1..]) + t.tokens) == TokensOf(labels) + t.tokens;
      }
    }
  }

  lemma FirstLabelPiece(mem: seq<byte>, start: nat, at: nat, labels: seq<Text>, end: nat)
    requires |mem| == SIZE + SLACK && Spells(mem, at, labels, end) && at < end <= SIZE && labels != []
    requires AllOrdinary(labels)
    ensures PieceAt(mem, SIZE, start, at) == Text(labels[0], at + 1 + |labels[0]|)
  {
    assert Ordinary(labels[0]);
  }

  lemma LabelToken(mem: seq<byte>, start: nat, at: nat, s: Text, next: nat)
    requires |mem| == SIZE + SLACK && start <= at && PieceAt(mem, SIZE, start, at) == Text(s, next)
    ensures var t := Scan(mem, SIZE, start, next);
            Scan(mem, SIZE, start, at) == if t.Broken? then Broken else Scanned(t.next, [Label(s)] + t.tokens)
  {
  }

  lemma {:induction false} AbsorbJoin(n: Name, a: seq<Token>, b: seq<Token>)
    requires n.Valid() && Wellformed(a) && Wellformed(b)
    ensures Wellformed(a + b) && AbsorbAll(n, a + b) == AbsorbAll(AbsorbAll(n, a), b)
    decreases |a|
  {
    if a == [] {
      assert a + b == b;
    } else {
      assert (a + b)[1..] == a[1..] + b;
      AbsorbJoin(Absorb(n, a[0]), a[1..], b);
    }
  }

  /** Fields after the host, once filled, stay as they are. */
  lemma {:induction false} FieldsStay(n: Name, ts: seq<Token>)
    requires n.Valid() && Wellformed(ts) && n.parts >= 1
    ensures var r := AbsorbAll(n, ts); r.parts >= n.parts && forall i :: 1 <= i < n.parts ==> r.fields[i] == n.fields[i]
    decreases |ts|
  {
    if ts != [] {
      FieldsStay(Absorb(n, ts[0]), ts[1..]);
    }
  }

  // ---------------------------------------------------------------- labels that come again

  /** The labels `b` begin like `a`: the same first label, the others up to letter case. */
  predicate Begins(a: seq<Text>, b: seq<Text>) {
    && a != [] && |a| <= |b| && a[0] == b[0] && forall i :: 0 <= i < |a| ==> NoCase(b[i], a[i])
  }

  /** A match against `labels`, with anything behind them, means that the wanted name begins like them. */
  lemma AcceptedBegins(mem: seq<byte>, at: nat, labels: seq<Text>, end: nat, strings: seq<Text>)
    requires |mem| == SIZE + SLACK && at < end <= SIZE && Spells(mem, at, labels, end) && OrdinaryName(labels)
    requires strings != [] && Accepts(mem, at, strings)
    ensures Begins(labels, strings)
  {
    hide Scan, Ordinary, AbsorbAll, NoCase, Spell;
    SpellsScan(mem, at, at, labels, end);
    TokensSpell(labels);
    var ts, t := TokensOf(labels), Scan(mem, SIZE, at, end);
    ReadIsScanThenAbsorb(mem, SIZE, at, at, EMPTY);
    SameLabels(labels);
    SpelledName(ts, labels);
    var n := AbsorbAll(EMPTY, ts);
    AbsorbJoin(EMPTY, ts, t.tokens);
    FieldsStay(n, t.tokens);
    var r := AbsorbAll(n, t.tokens);
    FirstLabelIs(mem, at, labels, end);
    forall i | 0 <= i < |labels|
      ensures NoCase(strings[i], labels[i])
    {
      if i == 0 {
        NoCaseSame(labels[0]);
      } else {
        assert n.fields[i] == n.fields[..n.parts][i] == labels[i];
      }
    }
  }

  lemma FirstLabelIs(mem: seq<byte>, at: nat, labels: seq<Text>, end: nat)
    requires labels != [] && Spells(mem, at, labels, end)
    ensures at + 1 + |labels[0]| <= |mem| && mem[at] == |labels[0]| && mem[at + 1..at + 1 + |labels[0]|] == labels[0]
  {
    SpellsEnd(mem, at + 1 + |labels[0]|, labels[1..], end);
  }

  lemma NoCaseSame(s: seq<byte>)
    ensures NoCase(s, s)
  {
  }

  lemma SameLabels(labels: seq<Text>)
    ensures Similar(labels, labels)
  {
    forall i | 0 <= i < |labels|
      ensures NoCase(labels[i], labels[i])
    {
      NoCaseSame(labels[i]);
    }
  }

  /** Where nothing stands behind them, they are a match exactly if the wanted name is those labels again. */
  lemma AcceptedIffAgain(mem: seq<byte>, at: nat, labels: seq<Text>, end: nat, strings: seq<Text>)
    requires |mem| == SIZE + SLACK && at < end <= SIZE && Spells(mem, at, labels, end) && OrdinaryName(labels)
    requires strings != [] && mem[end] == 0
    ensures Accepts(mem, at, strings) <==> |labels| == |strings| && Begins(labels, strings)
  {
    hide Scan, Ordinary, AbsorbAll, NoCase, Spell;
    SpellsScan(mem, at, at, labels, end);
    NothingBehind(mem, at, end);
    TokensSpell(labels);
    var ts := TokensOf(labels);
    assert ts + [] == ts;
    ReadIsScanThenAbsorb(mem, SIZE, at, at, EMPTY);
    SameLabels(labels);
    SpelledName(ts, labels);
    var n := AbsorbAll(EMPTY, ts);
    assert forall i :: 0 <= i < |labels| ==> n.fields[i] == n.fields[..n.parts][i] == labels[i];
    FirstLabelIs(mem, at, labels, end);
  }

  lemma NothingBehind(mem: seq<byte>, start: nat, end: nat)
    requires |mem| == SIZE + SLACK && start <= end <= SIZE && mem[end] == 0
    ensures Scan(mem, SIZE, start, end) == Scanned(end + 1, [])
  {
  }

  /** The labels from the `k`-th on repeat those in front of them. */
  predicate RepeatsAt(strings: seq<Text>, k: nat) {
    0 < k < |strings| <= 2 * k && Begins(strings[2 * k - |strings|..k], strings[k..])
  }

  /** The last labels of the name repeat those in front of them. */
  predicate TailRepeats(strings: seq<Text>) {
    exists k :: 0 <= k < |strings| && RepeatsAt(strings, k)
  }

  /** Some labels of the name are followed by the same labels. */
  predicate Repeats(strings: seq<Text>) {
    exists j, k :: 0 <= j < k < |strings| && Begins(strings[j..k], strings[k..])
  }

  /** A repeated tail of one label, or of two. */
  lemma RepeatsAtIs(strings: seq<Text>, k: nat)
    requires 0 < k < |strings| <= 2 * k && |strings| - k <= 2
    ensures var j := 2 * k - |strings|;
            RepeatsAt(strings, k) <==>
            strings[j] == strings[k] && (|strings| - k == 2 ==> NoCase(strings[k + 1], strings[j + 1]))
  {
    hide NoCase;
    var j := 2 * k - |strings|;
    var a, b := strings[j..k], strings[k..];
    NoCaseSame(strings[k]);
    assert a[0] == strings[j] && b[0] == strings[k];
    assert |a| == 2 ==> a[1] == strings[j + 1] && b[1] == strings[k + 1];
  }

  lemma TailRepeatsAt(strings: seq<Text>, k: nat)
    requires RepeatsAt(strings, k)
    ensures TailRepeats(strings)
  {
  }

  /** For the lengths there are. */
  lemma WhenTailsRepeat(strings: seq<Text>)
    requires 1 <= |strings| <= 4
    ensures |strings| == 1 ==> !TailRepeats(strings)
    ensures |strings| == 2 ==> (TailRepeats(strings) <==> strings[0] == strings[1])
    ensures |strings| == 3 ==> (TailRepeats(strings) <==> strings[1] == strings[2])
    ensures |strings| == 4 ==>
              (TailRepeats(strings) <==> || strings[2] == strings[3]
                                         || (strings[0] == strings[2] && NoCase(strings[3], strings[1])))
  {
    hide NoCase, Begins;
    var n := |strings|;
    if n >= 2 {
      RepeatsAtIs(strings, n - 1);
      if RepeatsAt(strings, n - 1) {
        TailRepeatsAt(strings, n - 1);
      }
    }
    if n == 4 {
      RepeatsAtIs(strings, 2);
      if RepeatsAt(strings, 2) {
        TailRepeatsAt(strings, 2);
      }
    }
    if TailRepeats(strings) {
      var k :| 0 <= k < n && RepeatsAt(strings, k);
      assert k == n - 1 || (n == 4 && k == 2);
    }
  }

  lemma TailIsRepeat(strings: seq<Text>)
    requires TailRepeats(strings)
    ensures Repeats(strings)
  {
    var k :| 0 <= k < |strings| && RepeatsAt(strings, k);
    assert Begins(strings[2 * k - |strings|..k], strings[k..]);
  }

  lemma PartShape(strings: seq<Text>, j: nat, k: nat)
    requires OrdinaryName(strings) && j < k <= |strings|
    ensures OrdinaryName(strings[j..k])
  {
    hide NoCase, Ordinary;
    var t := strings[j..k];
    assert forall i :: 0 <= i < |t| ==> t[i] == strings[j + i];
  }

  // ---------------------------------------------------------------- self-matches

  /** Nothing is left in the buffer from earlier packets beyond the write position. */
  predicate Blank(w: Writer) {
    w.Valid() && forall i :: w.index <= i < |w.mem| ==> w.mem[i] == 0
  }

  /**
   * A name matched against itself repeats some of its labels; if the buffer is blank behind it, its last labels.  The
   * first `k` labels are written.
   */
  lemma {:induction false} SelfMatchRepeats(w: Writer, all: seq<Text>, k: nat, start: nat)
    requires w.Valid() && OrdinaryName(all) && k <= |all| && start <= w.index && Spells(w.mem, start, all[..k], w.index)
    requires SelfMatched(w, all[k..], start)
    ensures Repeats(all) && (Blank(w) ==> TailRepeats(all))
    decreases |all| - k
  {
    hide FirstMatch, AppendString, Ordinary, Accepts, Spells, Begins, NameShape;
    var rest := all[k..];
    assert rest[0] == all[k] && Ordinary(all[k]);
    match FirstMatch(w.mem, w.index, rest, 0) {
      case Some(loc) =>
        var j := MatchIsAligned(w.mem, start, all[..k], w.index, loc, rest);
        assert all[..k][j..] == all[j..k];
        PartShape(all, j, k);
        AcceptedBegins(w.mem, loc, all[j..k], w.index, rest);
        assert Repeats(all);
        if Blank(w) {
          AcceptedIffAgain(w.mem, loc, all[j..k], w.index, rest);
          assert RepeatsAt(all, k);
        }
      case None =>
        OneMore(w, all, k, start);
        SelfMatchRepeats(AppendString(w, all[k]).w, all, k + 1, start);
    }
  }

  /** One more label written. */
  lemma OneMore(w: Writer, all: seq<Text>, k: nat, start: nat)
    requires w.Valid() && OrdinaryName(all) && k < |all| && start <= w.index && Spells(w.mem, start, all[..k], w.index)
    requires AppendString(w, all[k]).ret > 0
    ensures var head := AppendString(w, all[k]).w;
            && w.index < head.index && Spells(head.mem, start, all[..k + 1], head.index)
            && all[k..][1..] == all[k + 1..]
            && (Blank(w) ==> Blank(head))
            && forall i :: 0 <= i < w.index ==> head.mem[i] == w.mem[i]
  {
    hide AppendString, Spells, Ordinary;
    assert Ordinary(all[k]);
    OrdinaryIsShort(all[k]);
    StringAccounts(w, all[k]);
    SpellsMore(w.mem, AppendString(w, all[k]).w.mem, start, all[..k], w.index, all[k]);
    assert all[..k] + [all[k]] == all[..k + 1];
  }

  /** Nothing before `index` looks like a label. */
  predicate NothingBefore(mem: seq<byte>, index: nat)
    requires |mem| == SIZE + SLACK && index <= SIZE
  {
    forall loc :: 0 <= loc < index ==> !LooksLikeLabel(mem, loc, index)
  }

  /** Where nothing before it can be matched, a name whose last labels repeat is matched against itself. */
  lemma {:induction false} RepeatSelfMatches(w: Writer, all: seq<Text>, k: nat, start: nat, r: nat)
    requires Blank(w) && OrdinaryName(all) && k <= |all| && start <= w.index && Spells(w.mem, start, all[..k], w.index)
    requires NothingBefore(w.mem, start) && AppendFqdn(w, all[k..]).whole && k <= r && RepeatsAt(all, r)
    requires if start == w.index then Separated(w, all[k..][0]) else !LabelByte(w.mem[start])
    ensures SelfMatched(w, all[k..], start)
    decreases |all| - k
  {
    hide FirstMatch, AppendString, Ordinary, Accepts, Spells, Begins, Separated, NothingBefore, NameShape;
    var rest := all[k..];
    assert rest[0] == all[k] && Ordinary(all[k]);
    match FirstMatch(w.mem, w.index, rest, 0) {
      case Some(loc) =>
        if loc < start {
          NothingIsUnambiguous(w.mem, start);
          MatchIsSource(w, rest, start, Zone(0, 0, 0, 0), loc);
          NoSourceInNothing(w.mem, loc);
          assert false;
        }
      case None =>
        if r == k {
          var j := 2 * k - |all|;
          var loc := SpellsSuffix(w.mem, start, all[..k], w.index, j);
          assert all[..k][j..] == all[j..k];
          PartShape(all, j, k);
          AcceptedIffAgain(w.mem, loc, all[j..k], w.index, rest);
          assert false;
        } else {
          var head := AppendString(w, all[k]).w;
          OrdinaryIsShort(all[k]);
          StringAccounts(w, all[k]);
          OneMore(w, all, k, start);
          if start == w.index {
            LengthStored(w, all[k]);
          }
          NothingSame(w.mem, head.mem, start);
          RepeatSelfMatches(head, all, k + 1, start, r);
        }
    }
  }

  lemma NothingIsUnambiguous(mem: seq<byte>, index: nat)
    requires |mem| == SIZE + SLACK && index <= SIZE && NothingBefore(mem, index)
    ensures Unambiguous(mem, index, Zone(0, 0, 0, 0))
  {
  }

  lemma NoSourceInNothing(mem: seq<byte>, loc: nat)
    requires |mem| == SIZE + SLACK
    ensures !Source(mem, loc, Zone(0, 0, 0, 0))
  {
  }

  lemma NothingSame(m1: seq<byte>, m2: seq<byte>, index: nat)
    requires |m1| == |m2| == SIZE + SLACK && index <= SIZE && NothingBefore(m1, index)
    requires forall i :: 0 <= i < index ==> m1[i] == m2[i]
    ensures NothingBefore(m2, index)
  {
    hide LooksLikeLabel;
    forall loc | 0 <= loc < index
      ensures !LooksLikeLabel(m2, loc, index)
    {
      if LooksLikeLabel(m2, loc, index) {
        LooksSame(m2, m1, loc, index);
      }
    }
  }

  /** In a blank buffer nothing stands beyond the write position that could complete a label. */
  lemma BlankSeparates(w: Writer, s: Text)
    requires Blank(w) && Ordinary(s)
    ensures Separated(w, s)
  {
    forall loc | 0 <= loc < w.index && w.mem[loc] == |s| && loc + |s| >= w.index
      ensures w.mem[loc + 1..loc + 1 + |s|] != s
    {
      assert w.mem[loc + 1..loc + 1 + |s|][w.index - loc - 1] == 0;
    }
  }

  /** Behind a byte that is no label byte and not its length, a label stands separated. */
  lemma ByteSeparates(w: Writer, s: Text)
    requires w.Valid() && Ordinary(s) && w.index > 0
    requires !LabelByte(w.mem[w.index - 1]) && w.mem[w.index - 1] != |s|
    ensures Separated(w, s)
  {
    forall loc | 0 <= loc < w.index && w.mem[loc] == |s| && loc + |s| >= w.index
      ensures w.mem[loc + 1..loc + 1 + |s|] != s
    {
      assert w.mem[loc + 1..loc + 1 + |s|][w.index - 1 - loc - 1] == w.mem[w.index - 1];
    }
  }

  lemma NothingSpelled(mem: seq<byte>, at: nat, strings: seq<Text>)
    ensures Spells(mem, at, strings[..0], at) && strings[0..] == strings
  {
  }

  /** A name is matched against itself only if labels repeat, and in a blank buffer only if its last labels do. */
  lemma NotRepeatedNotSelfMatched(w: Writer, strings: seq<Text>)
    requires w.Valid() && OrdinaryName(strings) && (!Repeats(strings) || (Blank(w) && !TailRepeats(strings)))
    ensures !SelfMatched(w, strings, w.index)
  {
    hide SelfMatched, Repeats, TailRepeats, Spells;
    NothingSpelled(w.mem, w.index, strings);
    if SelfMatched(w, strings, w.index) {
      SelfMatchRepeats(w, strings, 0, w.index);
    }
  }

  /**
   * When a name is read back, by its labels: in a blank buffer with nothing before it that looks like a label, an
   * ordinary name is read back if and only if its last labels do not repeat those in front of them.
   */
  lemma ReadsBackIffTailDiffers(w: Writer, strings: seq<Text>)
    requires Blank(w) && OrdinaryName(strings) && NothingBefore(w.mem, w.index) && AppendFqdn(w, strings).whole
    ensures var e := AppendFqdn(w, strings).w;
            Read(e.mem, e.index, w.index, w.index, EMPTY).Good? <==> !TailRepeats(strings)
  {
    hide SelfMatched, RepeatsAt, Spells, AppendFqdn, Read, NothingBefore, Separated, Unambiguous, Ordinary;
    assert Ordinary(strings[0]);
    NothingSpelled(w.mem, w.index, strings);
    BlankSeparates(w, strings[0]);
    NothingIsUnambiguous(w.mem, w.index);
    ReadsBackIffNotSelfMatched(w, strings, 0, 0);
    if TailRepeats(strings) {
      var r :| 0 <= r < |strings| && RepeatsAt(strings, r);
      RepeatSelfMatches(w, strings, 0, w.index, r);
    } else {
      NotRepeatedNotSelfMatched(w, strings);
    }
  }
}
