/** What the results of a search say: what each record heard does to them, and that nothing else gets in or out. */
module SearchContents {
  import opened Options
  import opened Bytes
  import opened Txt
  import opened SearchResults

  // ---------------------------------------------------------------- one record

  predicate Absent(s: Found, place: Place, key: Key) {
    forall k :: 0 <= k < |s.results| ==> !Fits(s.results[k], place, key)
  }

  /** The first result that fits stands at `k`. */
  predicate FirstAt(s: Found, k: nat, place: Place, key: Key) {
    && k < |s.results| && Fits(s.results[k], place, key)
    && forall j :: 0 <= j < k ==> !Fits(s.results[j], place, key)
  }

  lemma FoundFirst(s: Found, k: nat, place: Place, key: Key)
    requires FirstAt(s, k, place, key)
    ensures FirstFit(s.results, place, key) == k < |s.results|
  {
  }

  lemma NoneFound(s: Found, place: Place, key: Key)
    requires Absent(s, place, key)
    ensures FirstFit(s.results, place, key) == |s.results|
  {
  }

  /** The search loops find the first fitting result. */
  lemma Finds(s: Found, place: Place)
    ensures forall key: Key :: Absent(s, place, key) ==> FirstFit(s.results, place, key) == |s.results|
    ensures forall k: nat, key: Key :: FirstAt(s, k, place, key) ==> FirstFit(s.results, place, key) == k < |s.results|
  {
    hide FirstFit, FirstAt, Absent, Fits;
    forall key: Key | Absent(s, place, key)
      ensures FirstFit(s.results, place, key) == |s.results|
    {
      NoneFound(s, place, key);
    }
    forall k: nat, key: Key | FirstAt(s, k, place, key)
      ensures FirstFit(s.results, place, key) == k < |s.results|
    {
      FoundFirst(s, k, place, key);
    }
  }

  function Lesser(a: nat, b: nat): nat {
    if a < b then a else b
  }

  /** A search for services takes a host and port once; a later record for the same result changes nothing. */
  function HostOnce(r: Result, host: seq<byte>, port: nat): Result {
    if r.host.None? then r.(host := Some(host), port := port) else r
  }

  function TxtOnce(r: Result, txt: seq<Item>): Result {
    if r.txt.None? && txt != [] then r.(txt := Some(txt)) else r
  }

  /** A PTR record: a new instance goes in front, one already there only has its time to live lowered. */
  lemma PtrHeard(s: Found, instance: seq<byte>, place: Place, ttl: nat)
    ensures var t := Hear(s, HeardPtr(instance, place, ttl));
            && (s.kind != SearchPtr ==> t == s)
            && (s.kind == SearchPtr && Absent(s, place, InstanceIs(instance)) ==>
                  t.results == (if HasRoom(s) then [Result(place, ttl, Some(instance), None, 0, None, [])] else [])
                               + s.results)
            && (forall k: nat :: s.kind == SearchPtr && FirstAt(s, k, place, InstanceIs(instance)) ==>
                  t.results == s.results[k := s.results[k].(ttl := Lesser(s.results[k].ttl, ttl))])
  {
    hide FirstFit, FirstAt, Absent, Fits;
    Finds(s, place);
  }

  /** An SRV record, in a search for SRV records or for anything. */
  lemma SrvHeard(s: Found, instance: seq<byte>, host: seq<byte>, port: nat, place: Place, ttl: nat)
    requires s.kind != SearchPtr
    ensures var t := Hear(s, HeardSrv(instance, host, port, place, ttl));
            && (s.kind != SearchSrv && s.kind != SearchAny ==> t == s)
            && (s.kind == SearchSrv || s.kind == SearchAny ==>
                  && (Absent(s, place, HostIs(host)) ==>
                        t.results == (if HasRoom(s) then [Result(place, ttl, s.instance, Some(host), port, None, [])]
                                      else []) + s.results)
                  && (forall k: nat :: FirstAt(s, k, place, HostIs(host)) ==>
                        t.results == s.results[k := s.results[k].(ttl := Lesser(s.results[k].ttl, ttl))]))
  {
    hide FirstFit, FirstAt, Absent, Fits;
    Finds(s, place);
  }

  /**
   * An SRV or TXT record in a search for services: the result with exactly that instance name gets `put`; otherwise
   * one with that name in any letter case, its time to live lowered; otherwise a new one in front.
   */
  ghost predicate PutOn(s: Found, t: Found, instance: seq<byte>, place: Place, ttl: nat, put: Result -> Result) {
    && (forall k: nat :: FirstAt(s, k, place, InstanceExactly(instance)) ==>
                           t.results == s.results[k := put(s.results[k])])
    && (Absent(s, place, InstanceExactly(instance)) ==>
          && (forall k: nat :: FirstAt(s, k, place, InstanceIs(instance)) ==>
                t.results == s.results[k := put(s.results[k].(ttl := Lesser(s.results[k].ttl, ttl)))])
          && (Absent(s, place, InstanceIs(instance)) ==>
                t.results == (if HasRoom(s) then [put(Result(place, ttl, Some(instance), None, 0, None, []))] else [])
                             + s.results))
  }

  lemma SrvForInstance(s: Found, instance: seq<byte>, host: seq<byte>, port: nat, place: Place, ttl: nat)
    requires s.kind == SearchPtr
    ensures PutOn(s, Hear(s, HeardSrv(instance, host, port, place, ttl)), instance, place, ttl,
                  r => HostOnce(r, host, port))
  {
    hide FirstFit, FirstAt, Absent, Fits;
    Finds(s, place);
  }

  lemma TxtForInstance(s: Found, instance: seq<byte>, txt: seq<Item>, place: Place, ttl: nat)
    requires s.kind == SearchPtr
    ensures PutOn(s, Hear(s, HeardTxt(instance, txt, place, ttl)), instance, place, ttl, r => TxtOnce(r, txt))
  {
    hide FirstFit, FirstAt, Absent, Fits;
    Finds(s, place);
  }

  /** A TXT record, in a search for TXT records or any: the first result of the place gets it if it has none. */
  lemma TxtHeard(s: Found, instance: seq<byte>, txt: seq<Item>, place: Place, ttl: nat)
    requires s.kind != SearchPtr
    ensures var t := Hear(s, HeardTxt(instance, txt, place, ttl));
            && ((s.kind != SearchTxt && s.kind != SearchAny) || txt == [] ==> t == s)
            && ((s.kind == SearchTxt || s.kind == SearchAny) && txt != [] ==>
                  && (Absent(s, place, Anything) ==>
                        t.results == (if HasRoom(s) then [Result(place, ttl, None, None, 0, Some(txt), [])] else [])
                                     + s.results)
                  && (forall k: nat :: FirstAt(s, k, place, Anything) ==>
                        t.results == if s.results[k].txt.Some? then s.results
                                     else s.results[k := s.results[k].(txt := Some(txt),
                                                                       ttl := Lesser(s.results[k].ttl, ttl))]))
  {
    hide FirstFit, FirstAt, Absent, Fits;
    Finds(s, place);
  }

  function AddressOnce(r: Result, ip: Address, ttl: nat): Result {
    r.(addresses := if ip in r.addresses then r.addresses else [ip] + r.addresses, ttl := Lesser(r.ttl, ttl))
  }

  /**
   * An address: a search for addresses puts it on the first result of the place or makes a new one; a search for
   * services puts it on the result with that host, if there is one.
   */
  lemma AddressHeard(s: Found, host: seq<byte>, ip: Address, place: Place, ttl: nat)
    ensures var t := Hear(s, HeardIp(host, ip, place, ttl));
            var wanted := match s.kind
                          case SearchA => ip.V4? case SearchAaaa => ip.V6? case SearchAny => true case _ => false;
            && (wanted && Absent(s, place, Anything) ==>
                  t.results == (if HasRoom(s) then [Result(place, ttl, None, Some(host), 0, None, [ip])] else [])
                               + s.results)
            && (forall k: nat :: wanted && FirstAt(s, k, place, Anything) ==>
                  t.results == s.results[k := AddressOnce(s.results[k], ip, ttl)])
            && (forall k: nat :: (s.kind == SearchPtr || s.kind == SearchSrv) && FirstAt(s, k, place, HostIs(host)) ==>
                  t.results == s.results[k := AddressOnce(s.results[k], ip, ttl)])
            && ((s.kind == SearchPtr || s.kind == SearchSrv) && Absent(s, place, HostIs(host)) ==> t == s)
            && (!wanted && s.kind != SearchPtr && s.kind != SearchSrv ==> t == s)
  {
    hide FirstFit, FirstAt, Absent, Fits;
    Finds(s, place);
  }

  // ---------------------------------------------------------------- nothing else gets in

  /** The record gave the result its host and port; in a search for services, under the result's instance name. */
  predicate GivesHost(h: Heard, r: Result, kind: SearchType) {
    || (h.HeardSrv? && h.place == r.place && r.host == Some(h.host) && r.port == h.port
        && (kind == SearchPtr ==> r.instance.Some? && NoCase(h.instance, r.instance.value)))
    || (h.HeardIp? && h.place == r.place && r.host == Some(h.host) && r.port == 0)
  }

  predicate GivesInstance(h: Heard, r: Result) {
    !h.HeardIp? && h.place == r.place && r.instance == Some(h.instance)
  }

  predicate GivesTxt(h: Heard, r: Result, kind: SearchType) {
    && h.HeardTxt? && h.place == r.place && r.txt == Some(h.txt)
    && (kind == SearchPtr ==> r.instance.Some? && NoCase(h.instance, r.instance.value))
  }

  /** The record gave the result the address; in a search for services, under the result's host name. */
  predicate GivesAddress(h: Heard, r: Result, ip: Address, kind: SearchType) {
    && h.HeardIp? && h.place == r.place && h.ip == ip
    && (kind == SearchPtr || kind == SearchSrv ==> NameIs(r.host, h.host))
  }

  /** Whatever the result says was heard, or is the instance the search asks for. */
  predicate Sourced(r: Result, hs: seq<Heard>, kind: SearchType, instance: Option<seq<byte>>) {
    && (if r.host.None? then r.port == 0 else exists i :: 0 <= i < |hs| && GivesHost(hs[i], r, kind))
    && (r.instance.Some? ==> if kind == SearchPtr then exists i :: 0 <= i < |hs| && GivesInstance(hs[i], r)
                             else r.instance == instance)
    && (r.txt.Some? ==> exists i :: 0 <= i < |hs| && GivesTxt(hs[i], r, kind))
    && (forall ip :: ip in r.addresses ==> exists i :: 0 <= i < |hs| && GivesAddress(hs[i], r, ip, kind))
    && (exists i :: 0 <= i < |hs| && hs[i].place == r.place)
  }

  predicate AllSourced(s: Found, hs: seq<Heard>) {
    forall k :: 0 <= k < |s.results| ==> Sourced(s.results[k], hs, s.kind, s.instance)
  }

  lemma SourcedMore(r: Result, hs: seq<Heard>, h: Heard, kind: SearchType, instance: Option<seq<byte>>)
    requires Sourced(r, hs, kind, instance)
    ensures Sourced(r, hs + [h], kind, instance)
  {
    hide GivesHost, GivesInstance, GivesTxt, GivesAddress;
    var more := hs + [h];
    assert forall i :: 0 <= i < |hs| ==> more[i] == hs[i];
    if r.host.Some? {
      var i :| 0 <= i < |hs| && GivesHost(hs[i], r, kind);
      assert GivesHost(more[i], r, kind);
    }
    if r.instance.Some? && kind == SearchPtr {
      var i :| 0 <= i < |hs| && GivesInstance(hs[i], r);
      assert GivesInstance(more[i], r);
    }
    if r.txt.Some? {
      var i :| 0 <= i < |hs| && GivesTxt(hs[i], r, kind);
      assert GivesTxt(more[i], r, kind);
    }
    forall ip | ip in r.addresses
      ensures exists i :: 0 <= i < |more| && GivesAddress(more[i], r, ip, kind)
    {
      var i :| 0 <= i < |hs| && GivesAddress(hs[i], r, ip, kind);
      assert GivesAddress(more[i], r, ip, kind);
    }
    var i :| 0 <= i < |hs| && hs[i].place == r.place;
    assert more[i].place == r.place;
  }

  lemma OthersSourced(s: Found, t: Found, hs: seq<Heard>, h: Heard)
    requires AllSourced(s, hs) && t.kind == s.kind && t.instance == s.instance
    requires forall r :: r in t.results ==> r in s.results || Sourced(r, hs + [h], s.kind, s.instance)
    ensures AllSourced(t, hs + [h])
  {
    hide Sourced;
    forall k | 0 <= k < |s.results|
      ensures Sourced(s.results[k], hs + [h], s.kind, s.instance)
    {
      SourcedMore(s.results[k], hs, h, s.kind, s.instance);
    }
  }

  /** A new result, made of what was just heard. */
  lemma PushedSourced(s: Found, t: Found, r: Result, hs: seq<Heard>, h: Heard)
    requires AllSourced(s, hs) && t == s.(num := t.num, results := t.results) && h.place == r.place
    requires t.results == [r] + s.results
    requires if r.host.None? then r.port == 0 else GivesHost(h, r, s.kind)
    requires r.instance.Some? ==> if s.kind == SearchPtr then GivesInstance(h, r) else r.instance == s.instance
    requires r.txt.Some? ==> GivesTxt(h, r, s.kind)
    requires forall ip :: ip in r.addresses ==> GivesAddress(h, r, ip, s.kind)
    ensures AllSourced(t, hs + [h])
  {
    hide GivesHost, GivesInstance, GivesTxt, GivesAddress;
    assert (hs + [h])[|hs|] == h;
    assert Sourced(r, hs + [h], s.kind, s.instance);
    OthersSourced(s, t, hs, h);
  }

  /** A result that keeps what it says, but for what was just heard. */
  lemma ReplacedSourced(s: Found, t: Found, k: nat, r: Result, hs: seq<Heard>, h: Heard)
    requires AllSourced(s, hs) && t == s.(num := t.num, results := t.results) && k < |s.results|
    requires t.results == s.results[k := r]
    requires var q := s.results[k];
             && r.place == q.place && r.instance == q.instance
             && ((r.host == q.host && r.port == q.port) || (q.host.None? && r.host.Some? && GivesHost(h, r, s.kind)))
             && (r.txt == q.txt || (r.txt.Some? && GivesTxt(h, r, s.kind)))
             && (forall ip :: ip in r.addresses ==> ip in q.addresses || GivesAddress(h, r, ip, s.kind))
    ensures AllSourced(t, hs + [h])
  {
    var q, more := s.results[k], hs + [h];
    assert more[|hs|] == h;
    SourcedMore(q, hs, h, s.kind, s.instance);
    if r.host.Some? && r.host == q.host {
      var i :| 0 <= i < |more| && GivesHost(more[i], q, s.kind);
      assert GivesHost(more[i], r, s.kind);
    }
    if r.instance.Some? && s.kind == SearchPtr {
      var i :| 0 <= i < |more| && GivesInstance(more[i], q);
      assert GivesInstance(more[i], r);
    }
    if r.txt.Some? && r.txt == q.txt {
      var i :| 0 <= i < |more| && GivesTxt(more[i], q, s.kind);
      assert GivesTxt(more[i], r, s.kind);
    }
    forall ip | ip in r.addresses
      ensures exists i :: 0 <= i < |more| && GivesAddress(more[i], r, ip, s.kind)
    {
      if ip in q.addresses {
        var i :| 0 <= i < |more| && GivesAddress(more[i], q, ip, s.kind);
        assert GivesAddress(more[i], r, ip, s.kind);
      } else {
        assert GivesAddress(more[|hs|], r, ip, s.kind);
      }
    }
    assert Sourced(r, more, s.kind, s.instance);
    OthersSourced(s, t, hs, h);
  }

  lemma UnchangedSourced(s: Found, t: Found, hs: seq<Heard>, h: Heard)
    requires AllSourced(s, hs) && t == s.(num := t.num)
    ensures AllSourced(t, hs + [h])
  {
    hide Sourced;
    OthersSourced(s, t, hs, h);
  }

  /** Either no result fits, or a first one does. */
  lemma FirstOrAbsent(s: Found, place: Place, key: Key) returns (k: nat)
    ensures Absent(s, place, key) || FirstAt(s, k, place, key)
  {
    k := FirstFit(s.results, place, key);
  }

  /** Records change nothing but the results and their number. */
  lemma HearChanges(s: Found, h: Heard)
    ensures Hear(s, h) == s.(num := Hear(s, h).num, results := Hear(s, h).results)
  {
    hide FirstFit;
  }

  lemma SameName(name: seq<byte>)
    ensures NoCase(name, name)
  {
  }

  lemma FitsName(s: Found, k: nat, place: Place, key: Key)
    requires FirstAt(s, k, place, key)
    ensures s.results[k].place == place
    ensures key.HostIs? ==> NameIs(s.results[k].host, key.name)
    ensures key.InstanceIs? ==> s.results[k].instance.Some? && NoCase(key.name, s.results[k].instance.value)
    ensures key.InstanceExactly? ==> s.results[k].instance == Some(key.name)
  {
    hide NoCase;
  }

  lemma PtrSourced(s: Found, hs: seq<Heard>, instance: seq<byte>, place: Place, ttl: nat)
    requires AllSourced(s, hs)
    ensures var h := HeardPtr(instance, place, ttl); AllSourced(Hear(s, h), hs + [h])
  {
    hide Hear, AllSourced, FirstAt, Absent, HasRoom;
    var h := HeardPtr(instance, place, ttl);
    var t := Hear(s, h);
    HearChanges(s, h);
    PtrHeard(s, instance, place, ttl);
    var k := FirstOrAbsent(s, place, InstanceIs(instance));
    if s.kind == SearchPtr {
      if Absent(s, place, InstanceIs(instance)) {
        if HasRoom(s) {
          PushedSourced(s, t, Result(place, ttl, Some(instance), None, 0, None, []), hs, h);
        } else {
          assert [] + s.results == s.results;
          UnchangedSourced(s, t, hs, h);
        }
      } else {
        InPlace(s, k, place, InstanceIs(instance));
        ReplacedSourced(s, t, k, s.results[k].(ttl := Lesser(s.results[k].ttl, ttl)), hs, h);
      }
    } else {
      UnchangedSourced(s, t, hs, h);
    }
  }

  lemma InPlace(s: Found, k: nat, place: Place, key: Key)
    requires FirstAt(s, k, place, key)
    ensures k < |s.results|
  {
  }

  lemma SrvSourced(s: Found, hs: seq<Heard>, instance: seq<byte>, host: seq<byte>, port: nat, place: Place, ttl: nat)
    requires AllSourced(s, hs) && s.kind != SearchPtr
    ensures var h := HeardSrv(instance, host, port, place, ttl); AllSourced(Hear(s, h), hs + [h])
  {
    hide Hear, AllSourced, FirstAt, Absent, HasRoom;
    var h := HeardSrv(instance, host, port, place, ttl);
    var t := Hear(s, h);
    HearChanges(s, h);
    SrvHeard(s, instance, host, port, place, ttl);
    var k := FirstOrAbsent(s, place, HostIs(host));
    if s.kind == SearchSrv || s.kind == SearchAny {
      if Absent(s, place, HostIs(host)) {
        if HasRoom(s) {
          PushedSourced(s, t, Result(place, ttl, s.instance, Some(host), port, None, []), hs, h);
        } else {
          assert [] + s.results == s.results;
          UnchangedSourced(s, t, hs, h);
        }
      } else {
        InPlace(s, k, place, HostIs(host));
        ReplacedSourced(s, t, k, s.results[k].(ttl := Lesser(s.results[k].ttl, ttl)), hs, h);
      }
    } else {
      UnchangedSourced(s, t, hs, h);
    }
  }

  /** What an SRV or TXT record puts on a result of a search for services. */
  predicate Puts(q: Result, r: Result, h: Heard) {
    && r.place == q.place && r.instance == q.instance && r.addresses == q.addresses
    && ((r.host == q.host && r.port == q.port)
        || (q.host.None? && h.HeardSrv? && r.host == Some(h.host) && r.port == h.port))
    && (r.txt == q.txt || (h.HeardTxt? && r.txt == Some(h.txt)))
  }

  lemma InstanceSourced(s: Found, hs: seq<Heard>, h: Heard, put: Result -> Result)
    requires AllSourced(s, hs) && s.kind == SearchPtr && (h.HeardSrv? || h.HeardTxt?)
    requires PutOn(s, Hear(s, h), h.instance, h.place, h.ttl, put) && forall q :: Puts(q, put(q), h)
    ensures AllSourced(Hear(s, h), hs + [h])
  {
    hide Hear, AllSourced, FirstAt, Absent, HasRoom, NoCase;
    var t := Hear(s, h);
    HearChanges(s, h);
    var k := FirstOrAbsent(s, h.place, InstanceExactly(h.instance));
    var l := FirstOrAbsent(s, h.place, InstanceIs(h.instance));
    SameName(h.instance);
    if !Absent(s, h.place, InstanceExactly(h.instance)) {
      FitsName(s, k, h.place, InstanceExactly(h.instance));
      InPlace(s, k, h.place, InstanceExactly(h.instance));
      assert Puts(s.results[k], put(s.results[k]), h);
      ReplacedSourced(s, t, k, put(s.results[k]), hs, h);
    } else if !Absent(s, h.place, InstanceIs(h.instance)) {
      FitsName(s, l, h.place, InstanceIs(h.instance));
      InPlace(s, l, h.place, InstanceIs(h.instance));
      var q := s.results[l].(ttl := Lesser(s.results[l].ttl, h.ttl));
      assert Puts(q, put(q), h);
      ReplacedSourced(s, t, l, put(q), hs, h);
    } else if HasRoom(s) {
      var q := Result(h.place, h.ttl, Some(h.instance), None, 0, None, []);
      assert Puts(q, put(q), h);
      PushedSourced(s, t, put(q), hs, h);
    } else {
      assert [] + s.results == s.results;
      UnchangedSourced(s, t, hs, h);
    }
  }

  lemma TxtSourced(s: Found, hs: seq<Heard>, instance: seq<byte>, txt: seq<Item>, place: Place, ttl: nat)
    requires AllSourced(s, hs) && s.kind != SearchPtr
    ensures var h := HeardTxt(instance, txt, place, ttl); AllSourced(Hear(s, h), hs + [h])
  {
    hide Hear, AllSourced, FirstAt, Absent, HasRoom;
    var h := HeardTxt(instance, txt, place, ttl);
    var t := Hear(s, h);
    HearChanges(s, h);
    TxtHeard(s, instance, txt, place, ttl);
    var k := FirstOrAbsent(s, place, Anything);
    if (s.kind == SearchTxt || s.kind == SearchAny) && txt != [] {
      if Absent(s, place, Anything) {
        if HasRoom(s) {
          PushedSourced(s, t, Result(place, ttl, None, None, 0, Some(txt), []), hs, h);
        } else {
          assert [] + s.results == s.results;
          UnchangedSourced(s, t, hs, h);
        }
      } else {
        InPlace(s, k, place, Anything);
        FitsName(s, k, place, Anything);
        if s.results[k].txt.Some? {
          UnchangedSourced(s, t, hs, h);
        } else {
          ReplacedSourced(s, t, k, s.results[k].(txt := Some(txt), ttl := Lesser(s.results[k].ttl, ttl)), hs, h);
        }
      }
    } else {
      UnchangedSourced(s, t, hs, h);
    }
  }

  lemma IpSourced(s: Found, hs: seq<Heard>, host: seq<byte>, ip: Address, place: Place, ttl: nat)
    requires AllSourced(s, hs)
    ensures var h := HeardIp(host, ip, place, ttl); AllSourced(Hear(s, h), hs + [h])
  {
    hide Hear, AllSourced, FirstAt, Absent, HasRoom, NoCase;
    var h := HeardIp(host, ip, place, ttl);
    var t := Hear(s, h);
    HearChanges(s, h);
    AddressHeard(s, host, ip, place, ttl);
    var wanted := match s.kind case SearchA => ip.V4? case SearchAaaa => ip.V6? case SearchAny => true case _ => false;
    var key := if wanted then Anything else HostIs(host);
    var k := FirstOrAbsent(s, place, key);
    if wanted || s.kind == SearchPtr || s.kind == SearchSrv {
      if !Absent(s, place, key) {
        InPlace(s, k, place, key);
        FitsName(s, k, place, key);
        ReplacedSourced(s, t, k, AddressOnce(s.results[k], ip, ttl), hs, h);
      } else if wanted && HasRoom(s) {
        PushedSourced(s, t, Result(place, ttl, None, Some(host), 0, None, [ip]), hs, h);
      } else {
        assert [] + s.results == s.results;
        UnchangedSourced(s, t, hs, h);
      }
    } else {
      UnchangedSourced(s, t, hs, h);
    }
  }

  lemma HearSourced(s: Found, hs: seq<Heard>, h: Heard)
    requires AllSourced(s, hs)
    ensures AllSourced(Hear(s, h), hs + [h])
  {
    hide Hear, AllSourced, PutOn;
    match h
    case HeardPtr(instance, place, ttl) => PtrSourced(s, hs, instance, place, ttl);
    case HeardSrv(instance, host, port, place, ttl) =>
      if s.kind == SearchPtr {
        SrvForInstance(s, instance, host, port, place, ttl);
        InstanceSourced(s, hs, h, r => HostOnce(r, host, port));
      } else {
        SrvSourced(s, hs, instance, host, port, place, ttl);
      }
    case HeardTxt(instance, txt, place, ttl) =>
      if s.kind == SearchPtr {
        TxtForInstance(s, instance, txt, place, ttl);
        InstanceSourced(s, hs, h, r => TxtOnce(r, txt));
      } else {
        TxtSourced(s, hs, instance, txt, place, ttl);
      }
    case HeardIp(host, ip, place, ttl) => IpSourced(s, hs, host, ip, place, ttl);
  }

  lemma {:induction false} HearAllSourced(s: Found, before: seq<Heard>, hs: seq<Heard>)
    requires AllSourced(s, before)
    ensures AllSourced(HearAll(s, hs), before + hs)
    decreases |hs|
  {
    hide Hear, AllSourced;
    if hs == [] {
      assert before + [] == before;
    } else {
      HearSourced(s, before, hs[0]);
      HearAllSourced(Hear(s, hs[0]), before + [hs[0]], hs[1..]);
      assert before + [hs[0]] + hs[1..] == before + hs;
    }
  }

  lemma {:induction false} HearAllChanges(s: Found, hs: seq<Heard>)
    ensures var t := HearAll(s, hs); t.kind == s.kind && t.instance == s.instance && t.max == s.max
    decreases |hs|
  {
    hide Hear;
    if hs != [] {
      HearChanges(s, hs[0]);
      HearAllChanges(Hear(s, hs[0]), hs[1..]);
    }
  }

  /**
   * Over any sequence of records nothing is in a result that was not heard: its host and port come from one SRV
   * record, or the host from an address record and the port is 0; its attributes, addresses and, in a search for
   * services, its instance name come from records of the same place.
   */
  lemma NothingUnheard(kind: SearchType, instance: Option<seq<byte>>, max: byte, hs: seq<Heard>, r: Result)
    requires r in HearAll(Found(kind, instance, max, 0, []), hs).results
    ensures Sourced(r, hs, kind, instance)
  {
    hide Hear, Sourced;
    var s := Found(kind, instance, max, 0, []);
    HearAllSourced(s, [], hs);
    HearAllChanges(s, hs);
    assert [] + hs == hs;
  }

  // ---------------------------------------------------------------- nothing gets lost

  /** `r` still says what `q` said. */
  predicate StillSays(q: Result, r: Result) {
    && r.place == q.place && r.instance == q.instance && r.ttl <= q.ttl
    && (q.host.Some? ==> r.host == q.host && r.port == q.port) && (q.txt.Some? ==> r.txt == q.txt)
    && forall ip :: ip in q.addresses ==> ip in r.addresses
  }

  /** The old results are still there, in their order, behind the new ones. */
  predicate Grown(s: Found, t: Found) {
    && |s.results| <= |t.results|
    && forall k :: 0 <= k < |s.results| ==> StillSays(s.results[k], t.results[|t.results| - |s.results| + k])
  }

  lemma GrownTrans(a: Found, b: Found, c: Found)
    requires Grown(a, b) && Grown(b, c)
    ensures Grown(a, c)
  {
    hide StillSays;
    forall k | 0 <= k < |a.results|
      ensures StillSays(a.results[k], c.results[|c.results| - |a.results| + k])
    {
      var l := |b.results| - |a.results| + k;
      assert StillSays(b.results[l], c.results[|c.results| - |b.results| + l]);
      StillTrans(a.results[k], b.results[l], c.results[|c.results| - |b.results| + l]);
    }
  }

  lemma StillTrans(a: Result, b: Result, c: Result)
    requires StillSays(a, b) && StillSays(b, c)
    ensures StillSays(a, c)
  {
  }

  lemma PushGrows(s: Found, t: Found, r: Result)
    requires t.results == [r] + s.results
    ensures Grown(s, t)
  {
  }

  lemma ReplaceGrows(s: Found, t: Found, k: nat, r: Result)
    requires k < |s.results| && t.results == s.results[k := r] && StillSays(s.results[k], r)
    ensures Grown(s, t)
  {
  }

  lemma SameGrows(s: Found, t: Found)
    requires s.results == t.results
    ensures Grown(s, t)
  {
  }

  predicate HasName(field: Option<seq<byte>>, name: seq<byte>) {
    field.Some? && NoCase(name, field.value)
  }

  /** The search has a result for what was heard.  Addresses of services' hosts are only kept if the host is known. */
  predicate ResultFor(r: Result, h: Heard, kind: SearchType) {
    match h
    case HeardPtr(instance, place, _) => kind == SearchPtr ==> r.place == place && HasName(r.instance, instance)
    case HeardSrv(instance, host, _, place, _) =>
      && (kind == SearchPtr ==> r.place == place && HasName(r.instance, instance) && r.host.Some?)
      && (kind == SearchSrv || kind == SearchAny ==> r.place == place && HasName(r.host, host))
    case HeardTxt(instance, txt, place, _) =>
      txt != [] ==>
        && (kind == SearchPtr ==> r.place == place && HasName(r.instance, instance) && r.txt.Some?)
        && (kind == SearchTxt || kind == SearchAny ==> r.place == place && r.txt.Some?)
    case HeardIp(_, ip, place, _) => WantsAddress(kind, ip) ==> r.place == place && ip in r.addresses
  }

  lemma StillFor(q: Result, r: Result, h: Heard, kind: SearchType)
    requires StillSays(q, r) && ResultFor(q, h, kind)
    ensures ResultFor(r, h, kind)
  {
    hide NoCase;
  }

  /** The record calls for a result of its own, or a share in one. */
  predicate Takes(kind: SearchType, h: Heard) {
    match h
    case HeardPtr(_, _, _) => kind == SearchPtr
    case HeardSrv(_, _, _, _, _) => kind == SearchPtr || kind == SearchSrv || kind == SearchAny
    case HeardTxt(_, txt, _, _) => txt != [] && (kind == SearchPtr || kind == SearchTxt || kind == SearchAny)
    case HeardIp(_, ip, _, _) => WantsAddress(kind, ip)
  }

  /** The list grows or stays, and has a result for the record if it calls for one and there is room. */
  predicate Lands(s: Found, t: Found, k: nat, h: Heard) {
    Grown(s, t) && (s.max == 0 && Takes(s.kind, h) ==> k < |t.results| && ResultFor(t.results[k], h, s.kind))
  }

  lemma LandsInFront(s: Found, t: Found, r: Result, h: Heard)
    requires t.results == (if HasRoom(s) then [r] else []) + s.results
    requires Takes(s.kind, h) ==> ResultFor(r, h, s.kind)
    ensures Lands(s, t, 0, h)
  {
    hide ResultFor, Takes, StillSays;
    assert [] + s.results == s.results;
    SameGrows(s, s);
    if HasRoom(s) {
      PushGrows(s, t, r);
    }
  }

  lemma LandsAt(s: Found, t: Found, k: nat, r: Result, h: Heard)
    requires k < |s.results| && t.results == s.results[k := r] && StillSays(s.results[k], r)
    requires Takes(s.kind, h) ==> ResultFor(r, h, s.kind)
    ensures Lands(s, t, k, h)
  {
    hide ResultFor, Takes, StillSays;
    ReplaceGrows(s, t, k, r);
  }

  lemma LandsNowhere(s: Found, t: Found, h: Heard)
    requires t.results == s.results && !Takes(s.kind, h)
    ensures Lands(s, t, 0, h)
  {
    SameGrows(s, t);
  }

  lemma PtrLands(s: Found, h: Heard) returns (k: nat)
    requires h.HeardPtr?
    ensures Lands(s, Hear(s, h), k, h)
  {
    hide Hear, Lands, FirstAt, Absent, HasRoom, NoCase;
    PtrHeard(s, h.instance, h.place, h.ttl);
    k := FirstOrAbsent(s, h.place, InstanceIs(h.instance));
    if s.kind != SearchPtr {
      k := 0;
      LandsNowhere(s, Hear(s, h), h);
    } else if Absent(s, h.place, InstanceIs(h.instance)) {
      k := 0;
      SameName(h.instance);
      LandsInFront(s, Hear(s, h), Result(h.place, h.ttl, Some(h.instance), None, 0, None, []), h);
    } else {
      InPlace(s, k, h.place, InstanceIs(h.instance));
      FitsName(s, k, h.place, InstanceIs(h.instance));
      LandsAt(s, Hear(s, h), k, s.results[k].(ttl := Lesser(s.results[k].ttl, h.ttl)), h);
    }
  }

  lemma SrvLands(s: Found, h: Heard) returns (k: nat)
    requires h.HeardSrv? && s.kind != SearchPtr
    ensures Lands(s, Hear(s, h), k, h)
  {
    hide Hear, Lands, FirstAt, Absent, HasRoom, NoCase;
    SrvHeard(s, h.instance, h.host, h.port, h.place, h.ttl);
    k := FirstOrAbsent(s, h.place, HostIs(h.host));
    if s.kind != SearchSrv && s.kind != SearchAny {
      k := 0;
      LandsNowhere(s, Hear(s, h), h);
    } else if Absent(s, h.place, HostIs(h.host)) {
      k := 0;
      SameName(h.host);
      LandsInFront(s, Hear(s, h), Result(h.place, h.ttl, s.instance, Some(h.host), h.port, None, []), h);
    } else {
      InPlace(s, k, h.place, HostIs(h.host));
      FitsName(s, k, h.place, HostIs(h.host));
      LandsAt(s, Hear(s, h), k, s.results[k].(ttl := Lesser(s.results[k].ttl, h.ttl)), h);
    }
  }

  lemma InstanceLands(s: Found, h: Heard, put: Result -> Result) returns (k: nat)
    requires s.kind == SearchPtr && (h.HeardSrv? || h.HeardTxt?)
    requires PutOn(s, Hear(s, h), h.instance, h.place, h.ttl, put)
    requires forall q :: Puts(q, put(q), h) && StillSays(q, put(q))
    requires forall q :: h.HeardSrv? ==> put(q).host.Some?
    requires forall q :: h.HeardTxt? && h.txt != [] ==> put(q).txt.Some?
    ensures Lands(s, Hear(s, h), k, h)
  {
    hide Hear, Lands, FirstAt, Absent, HasRoom, NoCase;
    var t := Hear(s, h);
    k := FirstOrAbsent(s, h.place, InstanceExactly(h.instance));
    var l := FirstOrAbsent(s, h.place, InstanceIs(h.instance));
    SameName(h.instance);
    if !Absent(s, h.place, InstanceExactly(h.instance)) {
      FitsName(s, k, h.place, InstanceExactly(h.instance));
      InPlace(s, k, h.place, InstanceExactly(h.instance));
      assert Puts(s.results[k], put(s.results[k]), h);
      LandsAt(s, t, k, put(s.results[k]), h);
    } else if !Absent(s, h.place, InstanceIs(h.instance)) {
      FitsName(s, l, h.place, InstanceIs(h.instance));
      InPlace(s, l, h.place, InstanceIs(h.instance));
      var q := s.results[l].(ttl := Lesser(s.results[l].ttl, h.ttl));
      assert Puts(q, put(q), h) && StillSays(q, put(q));
      k := l;
      LandsAt(s, t, k, put(q), h);
    } else {
      var q := Result(h.place, h.ttl, Some(h.instance), None, 0, None, []);
      assert Puts(q, put(q), h);
      k := 0;
      LandsInFront(s, t, put(q), h);
    }
  }

  lemma TxtLands(s: Found, h: Heard) returns (k: nat)
    requires h.HeardTxt? && s.kind != SearchPtr
    ensures Lands(s, Hear(s, h), k, h)
  {
    hide Hear, Lands, FirstAt, Absent, HasRoom, NoCase;
    TxtHeard(s, h.instance, h.txt, h.place, h.ttl);
    k := FirstOrAbsent(s, h.place, Anything);
    if (s.kind != SearchTxt && s.kind != SearchAny) || h.txt == [] {
      k := 0;
      LandsNowhere(s, Hear(s, h), h);
    } else if Absent(s, h.place, Anything) {
      k := 0;
      LandsInFront(s, Hear(s, h), Result(h.place, h.ttl, None, None, 0, Some(h.txt), []), h);
    } else {
      InPlace(s, k, h.place, Anything);
      FitsName(s, k, h.place, Anything);
      var q := s.results[k];
      LandsAt(s, Hear(s, h), k, if q.txt.Some? then q else q.(txt := Some(h.txt), ttl := Lesser(q.ttl, h.ttl)), h);
    }
  }

  lemma IpLands(s: Found, h: Heard) returns (k: nat)
    requires h.HeardIp?
    ensures Lands(s, Hear(s, h), k, h)
  {
    hide Hear, Lands, FirstAt, Absent, HasRoom, NoCase;
    AddressHeard(s, h.host, h.ip, h.place, h.ttl);
    var wanted := WantsAddress(s.kind, h.ip);
    var key := if wanted then Anything else HostIs(h.host);
    k := FirstOrAbsent(s, h.place, key);
    if !wanted && s.kind != SearchPtr && s.kind != SearchSrv {
      k := 0;
      LandsNowhere(s, Hear(s, h), h);
    } else if !Absent(s, h.place, key) {
      InPlace(s, k, h.place, key);
      FitsName(s, k, h.place, key);
      LandsAt(s, Hear(s, h), k, AddressOnce(s.results[k], h.ip, h.ttl), h);
    } else if wanted {
      k := 0;
      LandsInFront(s, Hear(s, h), Result(h.place, h.ttl, None, Some(h.host), 0, None, [h.ip]), h);
    } else {
      k := 0;
      LandsNowhere(s, Hear(s, h), h);
    }
  }

  lemma HearLands(s: Found, h: Heard) returns (k: nat)
    ensures Lands(s, Hear(s, h), k, h)
  {
    hide Hear, Lands, PutOn, FirstFit;
    match h
    case HeardPtr(_, _, _) => k := PtrLands(s, h);
    case HeardSrv(instance, host, port, place, ttl) =>
      if s.kind == SearchPtr {
        SrvForInstance(s, instance, host, port, place, ttl);
        k := InstanceLands(s, h, r => HostOnce(r, host, port));
      } else {
        k := SrvLands(s, h);
      }
    case HeardTxt(instance, txt, place, ttl) =>
      if s.kind == SearchPtr {
        TxtForInstance(s, instance, txt, place, ttl);
        k := InstanceLands(s, h, r => TxtOnce(r, txt));
      } else {
        k := TxtLands(s, h);
      }
    case HeardIp(_, _, _, _) => k := IpLands(s, h);
  }

  /** Whatever is heard later, what the results say stays. */
  lemma {:induction false} ResultsOnlyGrow(s: Found, hs: seq<Heard>)
    ensures Grown(s, HearAll(s, hs))
    decreases |hs|
  {
    hide Hear, Grown, Takes, ResultFor;
    if hs == [] {
      SameGrows(s, s);
    } else {
      var k := HearLands(s, hs[0]);
      ResultsOnlyGrow(Hear(s, hs[0]), hs[1..]);
      GrownTrans(s, Hear(s, hs[0]), HearAll(s, hs));
    }
  }

  lemma {:induction false} HearAllTakes(s: Found, hs: seq<Heard>, i: nat) returns (k: nat)
    requires s.max == 0 && i < |hs| && Takes(s.kind, hs[i])
    ensures k < |HearAll(s, hs).results| && ResultFor(HearAll(s, hs).results[k], hs[i], s.kind)
    decreases |hs|
  {
    hide Hear, ResultFor, StillSays, Takes;
    var t := Hear(s, hs[0]);
    HearChanges(s, hs[0]);
    if i == 0 {
      var l := HearLands(s, hs[0]);
      ResultsOnlyGrow(t, hs[1..]);
      var all := HearAll(s, hs);
      k := |all.results| - |t.results| + l;
      StillFor(t.results[l], all.results[k], hs[0], s.kind);
    } else {
      k := HearAllTakes(t, hs[1..], i - 1);
    }
  }

  /** Without a limit on the number of results, every record the search is for ends up in one. */
  lemma WhatIsHeardIsThere(kind: SearchType, instance: Option<seq<byte>>, hs: seq<Heard>, i: nat)
    requires i < |hs| && Takes(kind, hs[i])
    ensures var results := HearAll(Found(kind, instance, 0, 0, []), hs).results;
            exists k :: 0 <= k < |results| && ResultFor(results[k], hs[i], kind)
  {
    hide Hear, ResultFor, Takes;
    var k := HearAllTakes(Found(kind, instance, 0, 0, []), hs, i);
  }
}
