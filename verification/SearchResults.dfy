/** Results of a running search: the `_mdns_search_result_add_*` functions and the parser's use of them. */
module SearchResults {
  import opened Options
  import opened Bytes
  import opened Txt

  datatype Address = V4(word: nat) | V6(octets: seq<byte>)

  /** An interface and an IP protocol. */
  datatype Place = Place(netif: nat, protocol: nat)

  /** `mdns_result_t`; absent strings and lists are NULL in the source. */
  datatype Result = Result(place: Place, ttl: nat, instance: Option<seq<byte>>, host: Option<seq<byte>>, port: nat,
                           txt: Option<seq<Item>>, addresses: seq<Address>)

  datatype SearchType = SearchA | SearchAaaa | SearchPtr | SearchSrv | SearchTxt | SearchAny

  /** The part of `mdns_search_once_t` that results go into; both counters are `uint8_t`, no maximum is 0. */
  datatype Found = Found(kind: SearchType, instance: Option<seq<byte>>, max: byte, num: byte, results: seq<Result>)

  // ---------------------------------------------------------------- looking for a result

  /** What a result must have, besides its place. */
  datatype Key = Anything | HostIs(name: seq<byte>) | InstanceIs(name: seq<byte>) | InstanceExactly(name: seq<byte>)

  predicate NameIs(field: Option<seq<byte>>, name: seq<byte>) {
    field.Some? && field.value != [] && NoCase(name, field.value)
  }

  predicate Fits(r: Result, place: Place, key: Key) {
    && r.place == place
    && match key
       case Anything => true
       case HostIs(name) => NameIs(r.host, name)
       case InstanceIs(name) => NameIs(r.instance, name)
       case InstanceExactly(name) => r.instance == Some(name)
  }

  function FirstFit(results: seq<Result>, place: Place, key: Key): (k: nat)
    ensures k <= |results| && (k < |results| ==> Fits(results[k], place, key))
    ensures forall j :: 0 <= j < k ==> !Fits(results[j], place, key)
  {
    if results == [] || Fits(results[0], place, key) then 0 else 1 + FirstFit(results[1..], place, key)
  }

  method FindResult(results: seq<Result>, place: Place, key: Key) returns (k: nat)
    ensures k == FirstFit(results, place, key)
  {
    k := 0;
    while k < |results| && !Fits(results[k], place, key)
      invariant k <= |results| && forall j :: 0 <= j < k ==> !Fits(results[j], place, key)
    {
      k := k + 1;
    }
  }

  // ---------------------------------------------------------------- what each addition does

  predicate HasRoom(s: Found) {
    s.max == 0 || s.num < s.max
  }

  /** A new result goes to the front of the list. */
  function Push(s: Found, r: Result): Found {
    if HasRoom(s) then s.(results := [r] + s.results, num := ((s.num as int + 1) % 256) as byte) else s
  }

  function Lowered(r: Result, ttl: nat): Result {
    r.(ttl := if r.ttl < ttl then r.ttl else ttl)
  }

  function WithAddress(r: Result, ip: Address): Result {
    if ip in r.addresses then r else r.(addresses := [ip] + r.addresses)
  }

  function Replace(s: Found, k: nat, r: Result): Found
    requires k < |s.results|
  {
    s.(results := s.results[k := r])
  }

  function BlankResult(place: Place, ttl: nat): Result {
    Result(place, ttl, None, None, 0, None, [])
  }

  /** The search takes addresses for themselves. */
  predicate WantsAddress(kind: SearchType, ip: Address) {
    (kind == SearchA && ip.V4?) || (kind == SearchAaaa && ip.V6?) || kind == SearchAny
  }

  function AddIp(s: Found, host: seq<byte>, ip: Address, place: Place, ttl: nat): Found {
    if WantsAddress(s.kind, ip) then
      var k := FirstFit(s.results, place, Anything);
      if k < |s.results| then Replace(s, k, Lowered(WithAddress(s.results[k], ip), ttl))
      else Push(s, BlankResult(place, ttl).(host := Some(host), addresses := [ip]))
    else if s.kind == SearchPtr || s.kind == SearchSrv then
      var k := FirstFit(s.results, place, HostIs(host));
      if k < |s.results| then Replace(s, k, Lowered(WithAddress(s.results[k], ip), ttl)) else s
    else s
  }

  /** The search after `_mdns_search_result_add_ptr`; the result it returns, if any, is at `PtrAt`. */
  function AddPtr(s: Found, instance: seq<byte>, place: Place, ttl: nat): Found {
    var k := FirstFit(s.results, place, InstanceIs(instance));
    if k < |s.results| then Replace(s, k, Lowered(s.results[k], ttl))
    else Push(s, BlankResult(place, ttl).(instance := Some(instance)))
  }

  function PtrAt(s: Found, instance: seq<byte>, place: Place): Option<nat> {
    var k := FirstFit(s.results, place, InstanceIs(instance));
    if k < |s.results| then Some(k) else if HasRoom(s) then Some(0) else None
  }

  function AddSrv(s: Found, host: seq<byte>, port: nat, place: Place, ttl: nat): Found {
    var k := FirstFit(s.results, place, HostIs(host));
    if k < |s.results| then Replace(s, k, Lowered(s.results[k], ttl))
    else Push(s, BlankResult(place, ttl).(instance := s.instance, host := Some(host), port := port))
  }

  function AddTxt(s: Found, txt: seq<Item>, place: Place, ttl: nat): Found {
    var k := FirstFit(s.results, place, Anything);
    if k < |s.results| then
      if s.results[k].txt.Some? then s else Replace(s, k, Lowered(s.results[k].(txt := Some(txt)), ttl))
    else Push(s, BlankResult(place, ttl).(txt := Some(txt)))
  }

  /** A record the parser has matched to a search; `instance` is the first part of its name or target. */
  datatype Heard =
    | HeardPtr(instance: seq<byte>, place: Place, ttl: nat)
    | HeardSrv(instance: seq<byte>, host: seq<byte>, port: nat, place: Place, ttl: nat)
    | HeardTxt(instance: seq<byte>, txt: seq<Item>, place: Place, ttl: nat)
    | HeardIp(host: seq<byte>, ip: Address, place: Place, ttl: nat)

  /** In a PTR search: the result for an instance by its exact name, or else as a PTR record would add it. */
  function ExactOrAdded(s: Found, instance: seq<byte>, place: Place, ttl: nat): (r: (Found, Option<nat>))
    ensures r.1.Some? ==> r.1.value < |r.0.results|
  {
    var k := FirstFit(s.results, place, InstanceExactly(instance));
    if k < |s.results| then (s, Some(k)) else (AddPtr(s, instance, place, ttl), PtrAt(s, instance, place))
  }

  /** The record branches of `mdns_parse_packet` that feed a search. */
  function Hear(s: Found, h: Heard): Found {
    match h
    case HeardPtr(instance, place, ttl) =>
      if s.kind == SearchPtr then AddPtr(s, instance, place, ttl) else s
    case HeardSrv(instance, host, port, place, ttl) =>
      if s.kind == SearchPtr then
        var (t, k) := ExactOrAdded(s, instance, place, ttl);
        if k.Some? && t.results[k.value].host.None? then
          Replace(t, k.value, t.results[k.value].(host := Some(host), port := port))
        else t
      else if s.kind == SearchSrv || s.kind == SearchAny then AddSrv(s, host, port, place, ttl)
      else s
    case HeardTxt(instance, txt, place, ttl) =>
      if s.kind == SearchPtr then
        var (t, k) := ExactOrAdded(s, instance, place, ttl);
        if k.Some? && t.results[k.value].txt.None? && txt != [] then
          Replace(t, k.value, t.results[k.value].(txt := Some(txt)))
        else t
      else if (s.kind == SearchTxt || s.kind == SearchAny) && txt != [] then AddTxt(s, txt, place, ttl)
      else s
    case HeardIp(host, ip, place, ttl) => AddIp(s, host, ip, place, ttl)
  }

  // ---------------------------------------------------------------- the search object

  class Search {
    const kind: SearchType
    const instance: Option<seq<byte>>
    const max: byte
    var num: byte
    var results: seq<Result>

    ghost function Value(): Found
      reads this
    {
      Found(kind, instance, max, num, results)
    }

    constructor (kind: SearchType, instance: Option<seq<byte>>, max: byte)
      ensures Value() == Found(kind, instance, max, 0, [])
    {
      this.kind, this.instance, this.max, num, results := kind, instance, max, 0, [];
    }

    method Prepend(r: Result)
      modifies this
      ensures Value() == Push(old(Value()), r)
    {
      if max == 0 || num < max {
        results := [r] + results;
        num := ((num as int + 1) % 256) as byte;
      }
    }

    /** `_mdns_result_update_ttl` on the result at `k`. */
    method UpdateTtl(k: nat, ttl: nat)
      requires k < |results|
      modifies this`results
      ensures Value() == Replace(old(Value()), k, Lowered(old(results)[k], ttl))
    {
      if results[k].ttl >= ttl {
        results := results[k := results[k].(ttl := ttl)];
      } else {
        assert results[k := results[k]] == results;
      }
    }

    /** `_mdns_result_add_ip` on the result at `k`. */
    method AddResultIp(k: nat, ip: Address)
      requires k < |results|
      modifies this`results
      ensures Value() == Replace(old(Value()), k, WithAddress(old(results)[k], ip))
    {
      var addresses := results[k].addresses;
      for i := 0 to |addresses|
        invariant ip !in addresses[..i]
        invariant results == old(results)
      {
        if addresses[i] == ip {
          assert results[k := results[k]] == results;
          return;
        }
        assert addresses[..i + 1] == addresses[..i] + [addresses[i]];
      }
      assert addresses[..|addresses|] == addresses;
      results := results[k := results[k].(addresses := [ip] + addresses)];
    }

    method SearchAddIp(host: seq<byte>, ip: Address, place: Place, ttl: nat)
      modifies this
      ensures Value() == AddIp(old(Value()), host, ip, place, ttl)
    {
      if WantsAddress(kind, ip) {
        var k := FindResult(results, place, Anything);
        if k < |results| {
          AddResultIp(k, ip);
          UpdateTtl(k, ttl);
          return;
        }
        Prepend(Result(place, ttl, None, Some(host), 0, None, [ip]));
      } else if kind == SearchPtr || kind == SearchSrv {
        var k := FindResult(results, place, HostIs(host));
        if k < |results| {
          AddResultIp(k, ip);
          UpdateTtl(k, ttl);
        }
      }
    }

    method SearchAddPtr(name: seq<byte>, place: Place, ttl: nat) returns (at: Option<nat>)
      modifies this
      ensures Value() == AddPtr(old(Value()), name, place, ttl) && at == PtrAt(old(Value()), name, place)
    {
      var k := FindResult(results, place, InstanceIs(name));
      if k < |results| {
        UpdateTtl(k, ttl);
        return Some(k);
      }
      at := if max == 0 || num < max then Some(0) else None;
      Prepend(Result(place, ttl, Some(name), None, 0, None, []));
    }

    method SearchAddSrv(host: seq<byte>, port: nat, place: Place, ttl: nat)
      modifies this
      ensures Value() == AddSrv(old(Value()), host, port, place, ttl)
    {
      var k := FindResult(results, place, HostIs(host));
      if k < |results| {
        UpdateTtl(k, ttl);
        return;
      }
      Prepend(Result(place, ttl, instance, Some(host), port, None, []));
    }

    method SearchAddTxt(txt: seq<Item>, place: Place, ttl: nat)
      modifies this
      ensures Value() == AddTxt(old(Value()), txt, place, ttl)
    {
      var k := FindResult(results, place, Anything);
      if k < |results| {
        if results[k].txt.None? {
          results := results[k := results[k].(txt := Some(txt))];
          UpdateTtl(k, ttl);
        }
        return;
      }
      Prepend(Result(place, ttl, None, None, 0, Some(txt), []));
    }
  }

  // ---------------------------------------------------------------- what holds of the results

  /** The counter is the length of the list, and the list does not outgrow the maximum. */
  predicate Counted(s: Found) {
    s.max > 0 ==> s.num as int == |s.results| <= s.max as int
  }

  predicate Distinct<T(==)>(xs: seq<T>) {
    forall i, j :: 0 <= i < j < |xs| ==> xs[i] != xs[j]
  }

  predicate AddressesDistinct(s: Found) {
    forall k :: 0 <= k < |s.results| ==> Distinct(s.results[k].addresses)
  }

  predicate SameInstance(a: Result, b: Result) {
    a.place == b.place && a.instance.Some? && NameIs(b.instance, a.instance.value)
  }

  /** Two results of a PTR search for the same place have different instance names, whatever the letter case. */
  predicate InstancesDistinct(s: Found) {
    s.kind == SearchPtr ==>
      forall i, j :: 0 <= i < j < |s.results| ==> !SameInstance(s.results[i], s.results[j])
  }

  predicate Good(s: Found) {
    Counted(s) && AddressesDistinct(s) && InstancesDistinct(s)
  }

  lemma PushGood(s: Found, r: Result)
    requires Good(s) && Distinct(r.addresses)
    requires s.kind == SearchPtr && r.instance.Some? ==>
               FirstFit(s.results, r.place, InstanceIs(r.instance.value)) == |s.results|
    ensures Good(Push(s, r))
  {
    var t := Push(s, r);
    if HasRoom(s) {
      assert forall k :: 1 <= k < |t.results| ==> t.results[k] == s.results[k - 1];
      if s.kind == SearchPtr {
        forall j | 0 < j < |t.results|
          ensures !SameInstance(r, t.results[j])
        {
          if r.instance.Some? {
            assert !Fits(s.results[j - 1], r.place, InstanceIs(r.instance.value));
          }
        }
      }
    }
  }

  lemma ReplaceGood(s: Found, k: nat, r: Result)
    requires Good(s) && k < |s.results| && Distinct(r.addresses)
    requires r.place == s.results[k].place && r.instance == s.results[k].instance
    ensures Good(Replace(s, k, r))
  {
    var t := Replace(s, k, r);
    forall i, j | 0 <= i < j < |t.results| && s.kind == SearchPtr
      ensures !SameInstance(t.results[i], t.results[j])
    {
      assert !SameInstance(s.results[i], s.results[j]);
    }
  }

  lemma AddPtrGood(s: Found, instance: seq<byte>, place: Place, ttl: nat)
    requires Good(s)
    ensures Good(AddPtr(s, instance, place, ttl))
  {
    hide Good;
    var k := FirstFit(s.results, place, InstanceIs(instance));
    if k < |s.results| {
      assert Distinct(s.results[k].addresses) by {
        GoodAddresses(s, k);
      }
      ReplaceGood(s, k, Lowered(s.results[k], ttl));
    } else {
      PushGood(s, BlankResult(place, ttl).(instance := Some(instance)));
    }
  }

  lemma GoodAddresses(s: Found, k: nat)
    requires Good(s) && k < |s.results|
    ensures Distinct(s.results[k].addresses)
  {
  }

  lemma AddIpGood(s: Found, host: seq<byte>, ip: Address, place: Place, ttl: nat)
    requires Good(s)
    ensures Good(AddIp(s, host, ip, place, ttl))
  {
    hide Good;
    var key := if WantsAddress(s.kind, ip) then Anything else HostIs(host);
    var k := FirstFit(s.results, place, key);
    if k < |s.results| {
      GoodAddresses(s, k);
      ReplaceGood(s, k, Lowered(WithAddress(s.results[k], ip), ttl));
    } else {
      if WantsAddress(s.kind, ip) {
        PushGood(s, BlankResult(place, ttl).(host := Some(host), addresses := [ip]));
      }
    }
  }

  lemma ExactOrAddedGood(s: Found, instance: seq<byte>, place: Place, ttl: nat)
    requires Good(s)
    ensures Good(ExactOrAdded(s, instance, place, ttl).0)
  {
    AddPtrGood(s, instance, place, ttl);
  }

  /** Every record heard leaves the results good. */
  lemma HearGood(s: Found, h: Heard)
    requires Good(s)
    ensures Good(Hear(s, h))
  {
    hide Good, ExactOrAdded, AddPtr, AddIp;
    match h
    case HeardPtr(instance, place, ttl) =>
      AddPtrGood(s, instance, place, ttl);
    case HeardSrv(instance, host, port, place, ttl) =>
      if s.kind == SearchPtr {
        var (t, k) := ExactOrAdded(s, instance, place, ttl);
        ExactOrAddedGood(s, instance, place, ttl);
        if k.Some? {
          GoodAddresses(t, k.value);
          ReplaceGood(t, k.value, t.results[k.value].(host := Some(host), port := port));
        }
      } else {
        var k := FirstFit(s.results, place, HostIs(host));
        if k < |s.results| {
          GoodAddresses(s, k);
          ReplaceGood(s, k, Lowered(s.results[k], ttl));
        } else {
          PushGood(s, BlankResult(place, ttl).(instance := s.instance, host := Some(host), port := port));
        }
      }
    case HeardTxt(instance, txt, place, ttl) =>
      if s.kind == SearchPtr {
        var (t, k) := ExactOrAdded(s, instance, place, ttl);
        ExactOrAddedGood(s, instance, place, ttl);
        if k.Some? {
          GoodAddresses(t, k.value);
          ReplaceGood(t, k.value, t.results[k.value].(txt := Some(txt)));
        }
      } else {
        var k := FirstFit(s.results, place, Anything);
        if k < |s.results| {
          GoodAddresses(s, k);
          ReplaceGood(s, k, Lowered(s.results[k].(txt := Some(txt)), ttl));
        } else {
          PushGood(s, BlankResult(place, ttl).(txt := Some(txt)));
        }
      }
    case HeardIp(host, ip, place, ttl) =>
      AddIpGood(s, host, ip, place, ttl);
  }

  // ---------------------------------------------------------------- time to live

  /** Which result an addition creates or updates, by its place in the list. */
  datatype Touch = Creates | Updates(at: nat) | Leaves

  function TouchOf(s: Found, place: Place, key: Key): Touch {
    var k := FirstFit(s.results, place, key);
    if k < |s.results| then Updates(k) else if HasRoom(s) then Creates else Leaves
  }

  /** A result found by its exact name gains fields but is not updated: its time to live stays as it is. */
  function Touched(s: Found, h: Heard): Touch {
    match h
    case HeardPtr(instance, place, _) =>
      if s.kind == SearchPtr then TouchOf(s, place, InstanceIs(instance)) else Leaves
    case HeardSrv(instance, host, _, place, _) =>
      if s.kind == SearchPtr then
        if FirstFit(s.results, place, InstanceExactly(instance)) < |s.results| then Leaves
        else TouchOf(s, place, InstanceIs(instance))
      else if s.kind == SearchSrv || s.kind == SearchAny then TouchOf(s, place, HostIs(host))
      else Leaves
    case HeardTxt(instance, txt, place, _) =>
      if s.kind == SearchPtr then
        if FirstFit(s.results, place, InstanceExactly(instance)) < |s.results| then Leaves
        else TouchOf(s, place, InstanceIs(instance))
      else if (s.kind == SearchTxt || s.kind == SearchAny) && txt != [] then
        var k := FirstFit(s.results, place, Anything);
        if k < |s.results| && s.results[k].txt.Some? then Leaves else TouchOf(s, place, Anything)
      else Leaves
    case HeardIp(host, ip, place, _) =>
      if WantsAddress(s.kind, ip) then TouchOf(s, place, Anything)
      else if s.kind == SearchPtr || s.kind == SearchSrv then
        var k := FirstFit(s.results, place, HostIs(host));
        if k < |s.results| then Updates(k) else Leaves
      else Leaves
  }

  /** For each result, the times to live of the calls that created and updated it. */
  function Recorded(history: seq<seq<nat>>, t: Touch, ttl: nat): seq<seq<nat>> {
    match t
    case Creates => [[ttl]] + history
    case Updates(k) => if k < |history| then history[k := history[k] + [ttl]] else history
    case Leaves => history
  }

  function Least(xs: seq<nat>): (m: nat)
    requires xs != []
    ensures m in xs && forall x :: x in xs ==> m <= x
  {
    if |xs| == 1 then xs[0]
    else
      var rest := Least(xs[..|xs| - 1]);
      var last := xs[|xs| - 1];
      assert forall x :: x in xs ==> x in xs[..|xs| - 1] || x == last;
      if last < rest then last else rest
  }

  /** Each result's time to live is the least of those recorded for it. */
  predicate LeastTtls(s: Found, history: seq<seq<nat>>) {
    && |history| == |s.results|
    && forall k :: 0 <= k < |history| ==> history[k] != [] && s.results[k].ttl == Least(history[k])
  }

  lemma PushLeast(s: Found, history: seq<seq<nat>>, r: Result)
    requires LeastTtls(s, history) && HasRoom(s)
    ensures LeastTtls(Push(s, r), Recorded(history, Creates, r.ttl))
  {
    assert Least([r.ttl]) == r.ttl;
  }

  lemma UpdateLeast(s: Found, history: seq<seq<nat>>, k: nat, r: Result, ttl: nat)
    requires LeastTtls(s, history) && k < |s.results| && r.ttl == Lowered(s.results[k], ttl).ttl
    ensures LeastTtls(Replace(s, k, r), Recorded(history, Updates(k), ttl))
  {
  }

  lemma KeepLeast(s: Found, history: seq<seq<nat>>, k: nat, r: Result)
    requires LeastTtls(s, history) && k < |s.results| && r.ttl == s.results[k].ttl
    ensures LeastTtls(Replace(s, k, r), history)
  {
  }

  lemma AddPtrLeast(s: Found, history: seq<seq<nat>>, instance: seq<byte>, place: Place, ttl: nat)
    requires LeastTtls(s, history)
    ensures LeastTtls(AddPtr(s, instance, place, ttl), Recorded(history, TouchOf(s, place, InstanceIs(instance)), ttl))
  {
    hide LeastTtls;
    var k := FirstFit(s.results, place, InstanceIs(instance));
    if k < |s.results| {
      UpdateLeast(s, history, k, Lowered(s.results[k], ttl), ttl);
    } else if HasRoom(s) {
      PushLeast(s, history, BlankResult(place, ttl).(instance := Some(instance)));
    }
  }

  lemma ExactOrAddedLeast(s: Found, history: seq<seq<nat>>, instance: seq<byte>, place: Place, ttl: nat)
    requires LeastTtls(s, history)
    ensures var t := if FirstFit(s.results, place, InstanceExactly(instance)) < |s.results| then Leaves
                     else TouchOf(s, place, InstanceIs(instance));
            LeastTtls(ExactOrAdded(s, instance, place, ttl).0, Recorded(history, t, ttl))
  {
    hide LeastTtls, AddPtr, TouchOf;
    AddPtrLeast(s, history, instance, place, ttl);
  }

  lemma HearLeast(s: Found, history: seq<seq<nat>>, h: Heard)
    requires LeastTtls(s, history)
    ensures LeastTtls(Hear(s, h), Recorded(history, Touched(s, h), h.ttl))
  {
    hide LeastTtls, ExactOrAdded, AddPtr, Recorded;
    var next := Recorded(history, Touched(s, h), h.ttl);
    assert Recorded(history, Leaves, h.ttl) == history by {
      LeavesAlone(history, h.ttl);
    }
    match h
    case HeardPtr(instance, place, ttl) =>
      AddPtrLeast(s, history, instance, place, ttl);
    case HeardSrv(instance, host, port, place, ttl) =>
      if s.kind == SearchPtr {
        var (t, k) := ExactOrAdded(s, instance, place, ttl);
        ExactOrAddedLeast(s, history, instance, place, ttl);
        if k.Some? {
          KeepLeast(t, next, k.value, t.results[k.value].(host := Some(host), port := port));
        }
      } else {
        var k := FirstFit(s.results, place, HostIs(host));
        if k < |s.results| {
          UpdateLeast(s, history, k, Lowered(s.results[k], ttl), ttl);
        } else if HasRoom(s) {
          PushLeast(s, history, BlankResult(place, ttl).(instance := s.instance, host := Some(host), port := port));
        }
      }
    case HeardTxt(instance, txt, place, ttl) =>
      if s.kind == SearchPtr {
        var (t, k) := ExactOrAdded(s, instance, place, ttl);
        ExactOrAddedLeast(s, history, instance, place, ttl);
        if k.Some? {
          KeepLeast(t, next, k.value, t.results[k.value].(txt := Some(txt)));
        }
      } else {
        var k := FirstFit(s.results, place, Anything);
        if k < |s.results| {
          UpdateLeast(s, history, k, Lowered(s.results[k].(txt := Some(txt)), ttl), ttl);
        } else if HasRoom(s) {
          PushLeast(s, history, BlankResult(place, ttl).(txt := Some(txt)));
        }
      }
    case HeardIp(host, ip, place, ttl) =>
      HearIpLeast(s, history, host, ip, place, ttl);
  }

  lemma LeavesAlone(history: seq<seq<nat>>, ttl: nat)
    ensures Recorded(history, Leaves, ttl) == history
  {
  }

  lemma HearIpLeast(s: Found, history: seq<seq<nat>>, host: seq<byte>, ip: Address, place: Place, ttl: nat)
    requires LeastTtls(s, history)
    ensures LeastTtls(AddIp(s, host, ip, place, ttl), Recorded(history, Touched(s, HeardIp(host, ip, place, ttl)), ttl))
  {
    hide LeastTtls, Recorded;
    LeavesAlone(history, ttl);
    var key := if WantsAddress(s.kind, ip) then Anything else HostIs(host);
    var k := FirstFit(s.results, place, key);
    if k < |s.results| {
      UpdateLeast(s, history, k, Lowered(WithAddress(s.results[k], ip), ttl), ttl);
    } else if HasRoom(s) {
      PushLeast(s, history, BlankResult(place, ttl).(host := Some(host), addresses := [ip]));
    }
  }

  // ---------------------------------------------------------------- over any sequence of records

  function HearAll(s: Found, hs: seq<Heard>): Found
    decreases |hs|
  {
    if hs == [] then s else HearAll(Hear(s, hs[0]), hs[1..])
  }

  function HistoryOf(s: Found, history: seq<seq<nat>>, hs: seq<Heard>): seq<seq<nat>>
    decreases |hs|
  {
    if hs == [] then history
    else HistoryOf(Hear(s, hs[0]), Recorded(history, Touched(s, hs[0]), hs[0].ttl), hs[1..])
  }

  lemma {:induction false} HearAllKeeps(s: Found, history: seq<seq<nat>>, hs: seq<Heard>)
    requires Good(s) && LeastTtls(s, history)
    ensures Good(HearAll(s, hs)) && LeastTtls(HearAll(s, hs), HistoryOf(s, history, hs))
    decreases |hs|
  {
    hide Good, LeastTtls, Hear, Recorded, Touched;
    if hs != [] {
      HearGood(s, hs[0]);
      HearLeast(s, history, hs[0]);
      HearAllKeeps(Hear(s, hs[0]), Recorded(history, Touched(s, hs[0]), hs[0].ttl), hs[1..]);
    }
  }

  /**
   * Over any sequence of records: the counter is the number of results and never exceeds the maximum; each result's
   * time to live is the least of the call that created it and the calls that updated it; its addresses are pairwise
   * distinct; and in a PTR search no two results for one place have the same instance name.
   */
  lemma ResultsOfAnySearch(kind: SearchType, instance: Option<seq<byte>>, max: byte, hs: seq<Heard>)
    ensures var s := HearAll(Found(kind, instance, max, 0, []), hs);
            && (max > 0 ==> s.num as int == |s.results| <= max as int)
            && AddressesDistinct(s) && InstancesDistinct(s)
            && LeastTtls(s, HistoryOf(Found(kind, instance, max, 0, []), [], hs))
  {
    hide Hear, Touched;
    HearAllKeeps(Found(kind, instance, max, 0, []), [], hs);
    HearAllMax(Found(kind, instance, max, 0, []), hs);
  }

  lemma {:induction false} HearAllMax(s: Found, hs: seq<Heard>)
    ensures HearAll(s, hs).max == s.max
    decreases |hs|
  {
    if hs != [] {
      hide Hear;
      HearAllMax(Hear(s, hs[0]), hs[1..]);
    }
  }

}
