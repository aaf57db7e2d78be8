/** Octets, C strings and the handful of constants shared by the codec. */
module Bytes {

  type byte = b: int | 0 <= b < 256

  /** Capacity of the outgoing packet buffer (MDNS_MAX_PACKET_SIZE). */
  const SIZE: nat := 1460

  /** Memory readable just past the packet: `memcmp` and the pointer reader may look there, nobody writes there. */
  const SLACK: nat := 256

  /** Length of the DNS header (MDNS_HEAD_LEN). */
  const HEAD: nat := 12

  /** Longest string a name field holds (MDNS_NAME_BUF_LEN - 1). */
  const NAME_MAX: nat := 64

  const UNDERSCORE: byte := 95
  const EQUALS: byte := 61

  const LOCAL: seq<byte> := [108, 111, 99, 97, 108]
  const ARPA: seq<byte> := [97, 114, 112, 97]
  const IP6: seq<byte> := [105, 112, 54]
  const IN_ADDR: seq<byte> := [105, 110, 45, 97, 100, 100, 114]
  const SUB: seq<byte> := [95, 115, 117, 98]

  function Spelling(s: seq<byte>): string {
    seq(|s|, i requires 0 <= i < |s| => s[i] as char)
  }

  lemma DomainsSpelled()
    ensures Spelling(LOCAL) == "local" && Spelling(ARPA) == "arpa" && Spelling(SUB) == "_sub"
    ensures Spelling(IP6) == "ip6" && Spelling(IN_ADDR) == "in-addr"
  {
  }

  /** A NUL-free string whose length fits the `uint8_t` that the writers keep it in. */
  type Text = s: seq<byte> | |s| < 256 && 0 !in s

  /** A string that is legal as one DNS label (section 2.3.4 of RFC 1035). */
  predicate IsLabel(s: Text) {
    1 <= |s| <= 63
  }

  /** What a C string function sees of a character array: the bytes before the first NUL. */
  function CStr(s: seq<byte>): (r: seq<byte>)
    ensures |r| <= |s| && r == s[..|r|] && 0 !in r
    ensures |r| < |s| ==> s[|r|] == 0
  {
    if s == [] || s[0] == 0 then [] else [s[0]] + CStr(s[1..])
  }

  /** A NUL-free string is its own C string. */
  lemma {:induction false} CStrOfText(s: seq<byte>)
    requires 0 !in s
    ensures CStr(s) == s
  {
    if s != [] {
      CStrOfText(s[1..]);
    }
  }

  function Lower(b: byte): byte {
    if 65 <= b <= 90 then b + 32 else b
  }

  /** `strcasecmp(a, b) == 0`. */
  predicate NoCase(a: seq<byte>, b: seq<byte>) {
    |a| == |b| && forall i :: 0 <= i < |a| ==> Lower(a[i]) == Lower(b[i])
  }

  /** `strlcat` into a name field. */
  function StrLCat(dst: seq<byte>, src: seq<byte>): (r: seq<byte>) {
    var all := dst + src;
    if |all| <= NAME_MAX then all else all[..NAME_MAX]
  }

  /** `mem` with `bytes` stored from offset `at` on. */
  function Splice(mem: seq<byte>, at: nat, bytes: seq<byte>): (r: seq<byte>)
    requires at + |bytes| <= |mem|
    ensures |r| == |mem|
    ensures r[at..at + |bytes|] == bytes
    ensures forall i :: 0 <= i < |mem| && !(at <= i < at + |bytes|) ==> r[i] == mem[i]
    ensures forall i :: 0 <= i < |bytes| ==> r[at + i] == bytes[i]
  {
    mem[..at] + bytes + mem[at + |bytes|..]
  }

  /** Big-endian 16-bit load (`_mdns_read_u16`). */
  function U16At(mem: seq<byte>, at: nat): nat
    requires at + 1 < |mem|
  {
    mem[at] as int * 256 + mem[at + 1]
  }

  /** Big-endian 32-bit load (`_mdns_read_u32`). */
  function U32At(mem: seq<byte>, at: nat): nat
    requires at + 3 < |mem|
  {
    ((mem[at] as int * 256 + mem[at + 1]) * 256 + mem[at + 2]) * 256 + mem[at + 3]
  }
}
