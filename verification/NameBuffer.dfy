/** `mdns_name_t` and the two readers that fill it in place. */
module NameBuffer {
  import opened Options
  import opened Bytes
  import opened NameReader

  /** One round of the reader, spelled out on the bytes. */
  lemma OneRound(mem: seq<byte>, plen: nat, start: nat, pos: nat, name: Name)
    requires plen < |mem| && start <= pos && name.Valid()
    ensures Read(mem, plen, start, pos, name) ==
            if pos >= plen || mem[pos] == 0 then Good(pos + 1, name)
            else if mem[pos] < 0xC0 then
              var next := pos + 1 + mem[pos];
              if mem[pos] > 63 || next > plen then Bad
              else Read(mem, plen, start, next, Absorb(name, Label(mem[pos + 1..next])))
            else
              var address := (mem[pos] as int - 0xC0) * 256 + mem[pos + 1];
              if address >= start then Bad
              else
                match Read(mem, plen, address, address, Absorb(name, Jump))
                case Bad => Bad
                case Good(_, n) => Good(pos + 2, n)
  {
    hide Absorb;
  }

  /** Raising the flag first changes nothing. */
  lemma InvalidFirst(n: Name, t: Token)
    requires n.Valid() && (t.Label? ==> 1 <= |t.text| <= 63)
    ensures var m := if n.parts == 4 then n.(invalid := true) else n;
            Absorb(m, t) == Absorb(n, t) && (t.Jump? ==> Absorb(n, t) == m)
  {
  }

  class NameRecord {
    /** host, service, proto and domain, each as the C string its array holds */
    var fields: seq<seq<byte>>
    var parts: nat
    var sub: bool
    var invalid: bool

    constructor ()
      ensures Value() == EMPTY
    {
      fields, parts, sub, invalid := [[], [], [], []], 0, false, false;
    }

    ghost function Value(): Name
      reads this
    {
      Name(fields, parts, sub, invalid)
    }

    method Clear()
      modifies this
      ensures Value() == EMPTY
    {
      fields, parts, sub, invalid := [[], [], [], []], 0, false, false;
    }

    /** What the loop of `_mdns_read_fqdn` does with a label once it is in its buffer. */
    method TakeLabel(text: seq<byte>)
      requires Value().Valid() && 1 <= |text| <= 63
      requires parts == 4 ==> invalid
      modifies this
      ensures Value() == Absorb(old(Value()), Label(text))
    {
      var s := CStr(text);
      if parts == 1 && text[0] != UNDERSCORE && !NoCase(s, LOCAL) && !NoCase(s, ARPA) && !NoCase(s, IP6) && !NoCase(s, IN_ADDR) {
        fields := fields[0 := StrLCat(fields[0], [46])];
        fields := fields[0 := StrLCat(fields[0], s)];
      } else if NoCase(s, SUB) {
        sub := true;
      } else if !invalid {
        fields := fields[parts := s];
        parts := parts + 1;
      }
    }

    /** `_mdns_read_fqdn`: None for NULL, otherwise the offset after the name. */
    method ReadFqdn(packet: array<byte>, plen: nat, start: nat) returns (end: Option<nat>)
      requires plen < packet.Length && Value().Valid()
      modifies this
      ensures Value().Valid()
      ensures match Read(packet[..], plen, start, start, old(Value()))
              case Bad => end == None
              case Good(next, n) => end == Some(next) && Value() == n
      decreases start
    {
      hide Read, PieceAt, Absorb;
      ghost var mem := packet[..];
      var pos := start;
      while pos < plen && packet[pos] != 0
        invariant start <= pos && Value().Valid()
        invariant Read(mem, plen, start, start, old(Value())) == Read(mem, plen, start, pos, Value())
        decreases plen - pos
      {
        ghost var before := Value();
        OneRound(mem, plen, start, pos, before);
        if parts == 4 {
          invalid := true;
        }
        var len := packet[pos];
        if len < 0xC0 {
          if len > 63 {
            return None;
          }
          var text := CopyLabel(packet, plen, pos + 1, len);
          if text.None? {
            return None;
          }
          TakeLabel(text.value);
          InvalidFirst(before, Label(text.value));
          pos := pos + 1 + len as int;
        } else {
          var address := (len as int - 0xC0) * 256 + packet[pos + 1] as int;
          if address >= start {
            return None;
          }
          InvalidFirst(before, Jump);
          var target := ReadFqdn(packet, plen, address);
          if target.None? {
            return None;
          }
          return Some(pos + 2);
        }
      }
      OneRound(mem, plen, start, pos, Value());
      end := Some(pos + 1);
    }

    /** `_mdns_parse_fqdn`: clear, read, then move the parts to where the parser expects them. */
    method ParseFqdn(packet: array<byte>, plen: nat, start: nat) returns (end: Option<nat>)
      requires plen < packet.Length
      modifies this
      ensures match NameReader.ParseFqdn(packet[..], plen, start)
              case Bad => end == None
              case Good(next, n) => end == Some(next) && Value() == n
    {
      Clear();
      end := ReadFqdn(packet, plen, start);
      if end.None? || parts == 0 || invalid {
        return;
      }
      if parts == 3 {
        fields := [[], fields[0], fields[1], fields[2]];
      } else if parts == 2 {
        fields := fields[3 := fields[1]];
        fields := fields[1 := []];
        fields := fields[2 := []];
      }
      if !NoCase(fields[3], LOCAL) && !NoCase(fields[3], ARPA) {
        invalid := true;
      }
    }
  }

  /** The byte-by-byte copy of one label; None when it runs past the packet. */
  method CopyLabel(packet: array<byte>, plen: nat, from: nat, len: byte) returns (text: Option<seq<byte>>)
    requires plen < packet.Length && len > 0
    ensures text == if from + len as int <= plen then Some(packet[..][from..from + len as int]) else None
  {
    var buf: seq<byte> := [];
    for i := 0 to len as int
      invariant |buf| == i && (i > 0 ==> from + i <= plen)
      invariant forall k :: 0 <= k < i ==> buf[k] == packet[from + k]
    {
      if from + i >= plen {
        return None;
      }
      buf := buf + [packet[from + i]];
    }
    assert from + len as int <= plen;
    assert buf == packet[..][from..from + len as int];
    text := Some(buf);
  }
}
