/** Renaming after a conflict: `_mdns_mangle_name`. */
module Mangle {
  import opened Options
  import opened Bytes

  const DASH: byte := 45

  // ---------------------------------------------------------------- C library

  /** `strrchr(s, '-')`, as the part before the last dash and the part after it. */
  datatype Split = NoDash | Around(base: seq<byte>, tail: seq<byte>)

  function LastDash(s: seq<byte>): (r: Split)
    ensures r.NoDash? ==> DASH !in s
    ensures r.Around? ==> s == r.base + [DASH] + r.tail && DASH !in r.tail
  {
    if s == [] then NoDash
    else
      var before, last := s[..|s| - 1], s[|s| - 1];
      assert s == before + [last];
      if last == DASH then Around(before, [])
      else
        match LastDash(before)
        case NoDash => NoDash
        case Around(base, tail) => Around(base, tail + [last])
  }

  predicate IsSpace(b: byte) {
    b == 32 || 9 <= b <= 13
  }

  predicate IsDigit(b: byte) {
    48 <= b <= 57
  }

  function SkipSpace(s: seq<byte>): seq<byte> {
    if s != [] && IsSpace(s[0]) then SkipSpace(s[1..]) else s
  }

  /** The number a run of digits denotes. */
  function Number(digits: seq<byte>): nat
    requires forall d :: d in digits ==> IsDigit(d)
  {
    if digits == [] then 0
    else
      var last := digits[|digits| - 1];
      assert IsDigit(last);
      var before: nat := Number(digits[..|digits| - 1]);
      before * 10 + (last as int - 48)
  }

  predicate AllDigits(s: seq<byte>) {
    forall d :: d in s ==> IsDigit(d)
  }

  /** `strtol` on text without a minus sign, when it consumes everything; blanks and a plus sign may come first. */
  function WholeNumber(s: seq<byte>): (r: Option<nat>)
    requires DASH !in s
  {
    if s == [] then Some(0)
    else
      var t := SkipSpace(s);
      var u := if t != [] && t[0] == 43 then t[1..] else t;
      if u != [] && AllDigits(u) then Some(Number(u)) else None
  }

  /** `%d` for a number that is not negative. */
  function Decimal(n: nat): (s: seq<byte>)
    ensures s != [] && AllDigits(s)
  {
    if n < 10 then [(48 + n) as byte] else Decimal(n / 10) + [(48 + n % 10) as byte]
  }

  // ---------------------------------------------------------------- the function

  /** What a name is built from: the part before its numeric suffix, and that suffix; 1 if it has none. */
  datatype Parts = Parts(base: seq<byte>, suffix: nat)

  function PartsOf(name: seq<byte>): Parts {
    match LastDash(name)
    case NoDash => Parts(name, 1)
    case Around(base, tail) =>
      match WholeNumber(tail)
      case None => Parts(name, 1)
      case Some(n) => Parts(base, n)
  }

  /** `_mdns_mangle_name`, below `int` overflow of the suffix. */
  function Mangled(name: seq<byte>): seq<byte> {
    match LastDash(name)
    case NoDash => name + [DASH, 50]
    case Around(base, tail) =>
      match WholeNumber(tail)
      case None => name + [DASH, 50]
      case Some(n) => base + [DASH] + Decimal(n + 1)
  }

  /** Bytes allocated for the result, terminator included. */
  function Allocated(name: seq<byte>): nat {
    match LastDash(name)
    case NoDash => |name| + 3
    case Around(base, tail) => if WholeNumber(tail).None? then |name| + 3 else |name| + 2
  }

  function Times(name: seq<byte>, k: nat): seq<byte> {
    if k == 0 then name else Mangled(Times(name, k - 1))
  }

  // ---------------------------------------------------------------- decimals

  lemma {:induction false} NumberOfDecimal(n: nat)
    ensures Number(Decimal(n)) == n
  {
    var s := Decimal(n);
    if n >= 10 {
      NumberOfDecimal(n / 10);
      assert s[..|s| - 1] == Decimal(n / 10);
    } else {
      assert s[..0] == [];
    }
  }

  lemma {:induction false} DecimalGrows(n: nat)
    ensures |Decimal(n + 1)| <= |Decimal(n)| + 1
  {
    if n >= 10 && (n + 1) / 10 == n / 10 + 1 {
      DecimalGrows(n / 10);
    }
  }

  /** A number is never longer in decimal than a run of digits that denotes it. */
  lemma {:induction false} DecimalIsShortest(digits: seq<byte>)
    requires digits != [] && AllDigits(digits)
    ensures |Decimal(Number(digits))| <= |digits|
    decreases |digits|
  {
    var init := digits[..|digits| - 1];
    if init != [] {
      assert forall d :: d in init ==> d in digits;
      DecimalIsShortest(init);
      var last := digits[|digits| - 1] as int - 48;
      assert IsDigit(digits[|digits| - 1]);
      assert Number(digits) == Number(init) * 10 + last && Number(digits) / 10 == Number(init);
    } else {
      assert digits == [digits[0]] && Number(digits[..0]) == 0;
      assert IsDigit(digits[0]);
    }
  }

  /** Reading back a decimal. */
  lemma WholeNumberOfDecimal(n: nat)
    requires DASH !in Decimal(n)
    ensures WholeNumber(Decimal(n)) == Some(n)
  {
    var s := Decimal(n);
    assert s[0] in s && IsDigit(s[0]);
    NumberOfDecimal(n);
  }

  lemma LastDashSnoc(s: seq<byte>, last: byte)
    ensures LastDash(s + [last]) ==
            if last == DASH then Around(s, [])
            else match LastDash(s) case NoDash => NoDash case Around(base, tail) => Around(base, tail + [last])
  {
    var all := s + [last];
    assert all[..|all| - 1] == s && all[|all| - 1] == last;
  }

  lemma {:induction false} LastDashOfSuffixed(base: seq<byte>, tail: seq<byte>)
    requires DASH !in tail
    ensures LastDash(base + [DASH] + tail) == Around(base, tail)
    decreases |tail|
  {
    hide LastDash;
    if tail == [] {
      LastDashSnoc(base, DASH);
      assert base + [DASH] + tail == base + [DASH];
    } else {
      var init, last := tail[..|tail| - 1], tail[|tail| - 1];
      assert last in tail && forall x :: x in init ==> x in tail;
      assert tail == init + [last];
      LastDashOfSuffixed(base, init);
      LastDashSnoc(base + [DASH] + init, last);
      assert base + [DASH] + tail == base + [DASH] + init + [last];
    }
  }

  // ---------------------------------------------------------------- properties

  lemma MangledParts(base: seq<byte>, n: nat)
    ensures PartsOf(base + [DASH] + Decimal(n)) == Parts(base, n)
    ensures Mangled(base + [DASH] + Decimal(n)) == base + [DASH] + Decimal(n + 1)
  {
    LastDashOfSuffixed(base, Decimal(n));
    WholeNumberOfDecimal(n);
  }

  lemma MangledOnce(name: seq<byte>)
    ensures Mangled(name) == PartsOf(name).base + [DASH] + Decimal(PartsOf(name).suffix + 1)
  {
    assert Decimal(2) == [50];
    assert name + [DASH, 50] == name + [DASH] + [50];
  }

  /** k renamings give the base, a dash, and the starting suffix plus k. */
  lemma {:induction false} TimesIsSuffix(name: seq<byte>, k: nat)
    requires k > 0
    ensures Times(name, k) == PartsOf(name).base + [DASH] + Decimal(PartsOf(name).suffix + k)
  {
    MangledOnce(name);
    if k > 1 {
      TimesIsSuffix(name, k - 1);
      MangledParts(PartsOf(name).base, PartsOf(name).suffix + (k - 1));
    } else {
      assert Times(name, 0) == name;
    }
  }

  /** A name without a dash, `a` say, becomes `a-2` and then `a-3`. */
  lemma FirstTwoRenamings(name: seq<byte>)
    requires 45 !in name
    ensures Mangled(name) == name + [45, 50] && Mangled(name + [45, 50]) == name + [45, 51]
  {
    assert LastDash(name).NoDash?;
    assert Decimal(2) == [50] && Decimal(3) == [51];
    assert name + [45, 50] == name + [DASH] + Decimal(2) && name + [45, 51] == name + [DASH] + Decimal(3);
    MangledParts(name, 2);
  }

  /** No two renamings of a name coincide, and none gives a name with the same suffix back. */
  lemma RenamingsDiffer(name: seq<byte>, j: nat, k: nat)
    requires 0 < j < k
    ensures Times(name, j) != Times(name, k)
  {
    TimesIsSuffix(name, j);
    TimesIsSuffix(name, k);
    DifferentSuffix(PartsOf(name).base, PartsOf(name).suffix + j, PartsOf(name).suffix + k);
  }

  lemma DifferentSuffix(base: seq<byte>, m: nat, n: nat)
    requires m != n
    ensures base + [DASH] + Decimal(m) != base + [DASH] + Decimal(n)
  {
    NumberOfDecimal(m);
    NumberOfDecimal(n);
    hide Decimal, Number;
    SuffixOf(base, Decimal(m));
    SuffixOf(base, Decimal(n));
  }

  lemma SuffixOf(base: seq<byte>, tail: seq<byte>)
    ensures (base + [DASH] + tail)[|base| + 1..] == tail
  {
  }

  /** The result, with its terminator, fits what was allocated for it; so does the copy of the old name made first. */
  lemma FitsItsAllocation(name: seq<byte>)
    ensures |Mangled(name)| + 1 <= Allocated(name) && |name| + 1 <= Allocated(name)
  {
    match LastDash(name)
    case NoDash =>
    case Around(base, tail) =>
      match WholeNumber(tail)
      case None =>
      case Some(n) =>
        DecimalGrows(n);
        if tail != [] {
          SuffixLength(tail, n);
        }
  }

  lemma SuffixLength(tail: seq<byte>, n: nat)
    requires DASH !in tail && tail != [] && WholeNumber(tail) == Some(n)
    ensures |Decimal(n)| <= |tail|
  {
    var t := SkipSpace(tail);
    var u := if t != [] && t[0] == 43 then t[1..] else t;
    SkipSpaceShortens(tail);
    DecimalIsShortest(u);
  }

  lemma {:induction false} SkipSpaceShortens(s: seq<byte>)
    ensures |SkipSpace(s)| <= |s|
  {
    if s != [] && IsSpace(s[0]) {
      SkipSpaceShortens(s[1..]);
    }
  }

  lemma {:induction false} FreeAfter(name: seq<byte>, taken: set<seq<byte>>, from: nat) returns (k: nat)
    ensures from < k <= from + |taken| + 1 && Times(name, k) !in taken
    decreases |taken|
  {
    k := from + 1;
    var next := Times(name, k);
    if next in taken {
      k := FreeAfter(name, taken - {next}, from + 1);
      RenamingsDiffer(name, from + 1, k);
    }
  }

  /** Renaming always escapes: whatever finite set of names is taken, one of the first |taken| + 1 renamings is free. */
  lemma RenamingEscapes(name: seq<byte>, taken: set<seq<byte>>)
    ensures exists k :: 0 < k <= |taken| + 1 && Times(name, k) !in taken
  {
    var k := FreeAfter(name, taken, 0);
  }
}
