# A verified model of the mDNS responder

The model covers the heart of an mDNS / DNS-SD responder for ESP32 boards, the component
`managed_components/espressif__mdns`: the wire codec, the transmit queue, the probing and announcing of each network
interface, the timer and service tasks that share them, conflict resolution, and the results of searches.

| file | what it models |
|---|---|
| `Bytes.dfy`, `Options.dfy` | octets, C strings, constants, absent values |
| `NameReader.dfy`, `NameFields.dfy`, `NameBuffer.dfy` | reading a compressed name: specification, reference reader, which label goes to which field, and the loop that fills the name structure in place |
| `NameWriter.dfy`, `NameRoundTrip.dfy`, `PacketBuffer.dfy` | writing with back-pointer compression: specification, round trip, and the writers on the packet array |
| `Txt.dfy` | TXT data: encoder, decoder, round trip, and when the decoder stays inside its arrays |
| `Records.dfy`, `RecordReader.dfy` | record writers, when a record fits, and the parser's walk |
| `Packet.dfy`, `PacketRoundTrip.dfy` | whole packets: bounds, when a message fits, and reading it back |
| `Settling.dfy`, `SelfMatch.dfy` | when a written name is read back, exactly |
| `SettledPackets.dfy`, `Arrival.dfy`, `Discovery.dfy` | the same for questions, records and packets; the first packet, and the records discovery depends on |
| `TxPacket.dfy`, `TxQueue.dfy` | packets waiting to be sent; the queue as a linked list relinked in place |
| `Responder.dfy`, `ResponderInvariant.dfy`, `ServiceRemoval.dfy` | one interface: probing, announcing, answering, removing services; what all of it keeps |
| `Contents.dfy`, `Operations.dfy` | what packets say, exactly; what each operation does to each interface |
| `Machine.dfy`, `Agreement.dfy`, `MachineInvariant.dfy`, `Runs.dfy` | the tasks and the action queue as interleaved atomic steps; what each step keeps; theorems about every run |
| `Questions.dfy`, `QuestionRuns.dfy`, `References.dfy`, `Registration.dfy` | which services probes ask about and packets refer to: one removal, and every run |
| `Progress.dfy`, `Liveness.dfy`, `Timeline.dfy`, `Announcement.dfy`, `ServiceLife.dfy` | the engine comes to rest, the tasks bring it there, and what is sent on the way; from probe to announcement; the life of an added service |
| `Engine.dfy` | the server structure and the functions that update it in place |
| `TieBreak.dfy`, `Mangle.dfy` | simultaneous probes, renaming |
| `SearchResults.dfy`, `SearchContents.dfy` | results of searches, and what is in them |

Code that updates a buffer, a list or a structure step by step is a method proved against a function of the old state;
the properties are then proved of these functions.  Check everything with `dafny verify dfyconfig.toml`.

## How to read the main results

- **Settled matches.**  While a name is being written, the search for an earlier occurrence reads candidates over the
  whole 1460-byte buffer, not only over what has been written.  A match is *settled* in [lo, hi) if it starts there,
  is read wholly inside, terminator included, and raised neither `sub` nor `invalid`; it is *clear* if it also ends in
  a label.  Round trips assume that the matches accepted for a name are settled before it; those for a name inside
  RDATA, before the RDLENGTH field, because that field is patched after the name is written; those of a whole packet,
  after the header.  With clear matches no name read back is flagged.
- **When matches are settled.**  A packet is *unambiguous* if whatever in it looks like a label of 1 to 31 printable
  bytes without `=` starts a plain name.  In such a packet only one thing goes wrong: a name can be *matched against
  itself*, because what is written of it so far, together with what the buffer holds behind it, already reads as its
  rest.  A reader then refuses it (`SelfMatchNeverReads`).  `ReadsBackIffNotSelfMatched` says that such names, and no
  others, are lost; `ArrivesIffAlone` says it of whole messages.  In the first packet, where the buffer is blank, this
  is a condition on the labels (`ReadsBackIffTailDiffers`, `WhenTailsRepeat`); later packets are built over the bytes
  of earlier ones, and there `NotRepeatedNotSelfMatched` gives a sufficient one.
- **Success.**  An appender's `whole` says that every nested append succeeded; the returned length does not, since
  `_mdns_append_fqdn` adds whatever its tail returned (mdns.c:777).  `WholeIffRoom`, `RecordWholeIffFits` and
  `PacketWholeIffFits` turn it into a condition on room, which is what the round trips ask for.
- **Exact probes.**  A probe is *exact* when the instances it asks about are exactly the services on the probe list.
- **What packets say.**  `SaysProbe`, `SaysAnnouncement` and `SaysMore` describe a packet completely, by if-and-only-if
  over all subjects and all records.  An answer is identified by type, service and host, as the source's duplicate
  search does; `AllSuit` adds the cache-flush and goodbye flags.
- **What operations do.**  The lemmas of `Operations` say of every interface what it was and what it has become, in
  terms of `Began` (a probe has just begun, for what, when it is due, and what it says), `Probes` (the same, or a halt
  when there is no host name), `Announced` and `RemovedFrom`; interfaces not concerned are `Untouched`.
- **On course.**  `ServiceLife.OnCourse` says that what an interface has sent since its probe began is a first part of
  three probes and three announcements with exactly these contents, at the distances of section 8 of RFC 6762.
- **Runs.**  `Runs.Reached(n, steps)` is the state after any list of steps from start-up with n interfaces.  Time
  passes in `Tick`, the timer task acts in `Timer`, other tasks `Post` actions, and the service task `Take`s one off
  the queue and `Execute`s it under the lock.  Received packets appear as the effects they can have on the responder
  (a collision, a question, an answer another host gave), in any order and number.
- **Log.**  `Server.log` records the start of each probing phase and each packet the transmit handler sends.

## Code and documentation

- PCB_STATE_IS_PROBING (mdns_private.h:165) also covers two states before the first probe.  The model keeps the macro;
  the invariant shows that these states do not occur, so that it then means PROBE_1 to PROBE_3.
- Section 6.4 of RFC 6763 allows a key without a value anywhere; the decoder (mdns.c:3451) steps a byte too far after
  one.  The code is modelled as it is; `TxtRoundTrip` says exactly when the data survives.
- Section 8.2 of RFC 6762 asks for plain lexicographic order in a tie-break; the code compares lengths first
  (mdns.c:2770-2774).  `NotTheLexicographicOrder` gives a pair on which they disagree, `WhenSrvOrdersAgree` and
  `WhenTxtOrdersAgree` say exactly when they do not.
- The comment on `_mdns_append_fqdn` promises 0 on error; a failure after the first label is not propagated
  (mdns.c:777).  `CutNameIsReported` and `CutRecordIsCounted` give inputs, `ZeroMeansErrorIff` the exact condition under
  which 0 means error and nothing else does; `WholeIffRoom` and `RecordWholeIffFits` say exactly when all is written.
- A name is meant to be read back as it was written; one that is matched against itself while it is written
  (mdns.c:733-770 searches the unfinished name too) ends in a pointer that the reader refuses (mdns.c:464-468).  A
  host called `local` in a fresh packet is such a name (`HostCalledLocalIsLost`); `ReadsBackIffNotSelfMatched` and
  `ReadsBackIffTailDiffers` give the exact conditions.
- The decoder makes room for as many TXT items as it counts (mdns.c:3408-3417), but walks on a byte late after a bare
  key and may then find more.  `LateWalkStoresOutside` gives nine such bytes, `DecoderStaysInside` the exact condition.
- When the default instance name changes, services without a name of their own are probed for again; the old probe lists
  are cleared for it (mdns.c:2354-2371, called at 2464), so a service with a name of its own that was still being probed
  drops out and is never announced by that probe.  `UnnamedProbed` says exactly what is probed then.
- A removed service's question is looked for by service type and protocol only (mdns.c:2681-2700), so with two services
  of one type being probed the other's question may go instead.  `QuestionStrays` shows it, `OthersStayAsked` and
  `RemovalExactIffOwnQuestionGoes` say exactly when it does not happen.

## Model

| member | source | states |
|---|---|---|
| NameReader.PieceAt | managed_components/espressif__mdns/mdns.c:429-463 | One round of the name reader: a label has 1 to 63 bytes and ends inside the packet; a pointer aims strictly before the start of its own name. |
| NameReader.Read | managed_components/espressif__mdns/mdns.c:425-476 | The reader is total: it terminates on any bytes (start offset first, then bytes left), never fills more than four fields or 64 bytes of one, and a non-NULL result lies in (position, packet length + 1]. |
| NameReader.ReadIsScanThenAbsorb | managed_components/espressif__mdns/mdns.c:425-476 | The one-pass reader equals scanning the tokens first and interpreting them afterwards: success and end depend on the bytes alone, whatever is already in the name. |
| NameReader.SpelledFields | managed_components/espressif__mdns/mdns.c:447-460 | Labels that own a field (`_x`, `local`) land in the fields one by one, in order; `invalid` can only be raised by a pointer that follows a fourth part. |
| NameReader.FieldsSpelled | managed_components/espressif__mdns/mdns.c:447-460 | Conversely, when nothing was flagged and the host did not grow, the fields are exactly the labels read. |
| NameReader.ScanFrame | managed_components/espressif__mdns/mdns.c:429-472 | A name whose every byte, pointers followed, lies in a stretch of the packet reads the same in any memory and with any packet length that keep that stretch. |
| NameFields.InvalidIffOtherDomain | managed_components/espressif__mdns/mdns.c:3266-3282 | A name of two to four ordinary parts is put in its places (host, service, proto, domain), and flagged invalid if and only if its last label is neither `local` nor `arpa`, in any letter case. |
| NameFields.DottedHostReads | managed_components/espressif__mdns/mdns.c:447-456 | A host of several labels is read as its labels joined by dots, cut at the field size, followed by the domain. |
| NameRoundTrip.SharedTailIsCompressed | managed_components/espressif__mdns/mdns.c:733-784 | The hypotheses are met: in a fresh packet `_tcp`, then `a._tcp` as the four bytes 1, `a`, 0xC0 and the offset of the first name, read back in full. |
| NameBuffer.NameRecord.TakeLabel | managed_components/espressif__mdns/mdns.c:446-460 | The four branches for a label, on the structure in place, have the specified effect. |
| NameBuffer.NameRecord.ReadFqdn | managed_components/espressif__mdns/mdns.c:425-476 | The loop with its recursion on pointers, filling the structure in place, computes the specified result and end. |
| NameBuffer.NameRecord.ParseFqdn | managed_components/espressif__mdns/mdns.c:3250-3282 | Clearing, reading and moving the parts in place give the specified arrangement. |
| NameBuffer.CopyLabel | managed_components/espressif__mdns/mdns.c:439-445 | The byte-by-byte copy yields exactly the label, or fails if it runs past the packet. |
| NameWriter.FirstMatch | managed_components/espressif__mdns/mdns.c:733-770 | The search returns the first acceptable earlier occurrence, and none only if there is none before the write position. |
| NameWriter.BigEndian | managed_components/espressif__mdns/mdns.c:522-551 | Two- and four-byte values are stored most significant byte first and read back the same. |
| NameWriter.AppendFqdnAccounts | managed_components/espressif__mdns/mdns.c:723-784 | Writing a name advances by exactly what is returned, changes nothing outside that stretch and never takes more than the uncompressed size. |
| NameWriter.WholeIffRoom | managed_components/espressif__mdns/mdns.c:723-784 | A name is written in full if and only if there is room for its literal labels up to the first match and a pointer or terminator; then the returned length is right; room for the uncompressed name is always enough. |
| NameWriter.ZeroMeansErrorIff | managed_components/espressif__mdns/mdns.c:774-777 | When 0 is returned exactly on error: if and only if there is room for the whole name, or none for the first thing written (a terminator, a pointer, or the first label). |
| NameWriter.CutNameIsReported | managed_components/espressif__mdns/mdns.c:774-777 | The promise of 0 on error fails: sixteen bytes before the end, a name whose second label does not fit still returns 2. |
| NameRoundTrip.MatchSpells | managed_components/espressif__mdns/mdns.c:741-768 | An accepted match that is settled spells exactly the wanted labels up to letter case, and nothing after them. |
| NameRoundTrip.WrittenNameScans | managed_components/espressif__mdns/mdns.c:723-784 | Whatever chain of pointers is emitted, the bytes written scan back to the labels, end at the new write position and depend only on themselves and the settled stretch. |
| NameRoundTrip.CompressionRoundTrip | managed_components/espressif__mdns/mdns.c:723-784 | Compression round trip: reading at the old position returns the new one, with as many parts as labels, each equal up to letter case, and not flagged if the matches end in labels; also in every later memory that keeps the name and the stretch its pointers lead into. |
| NameRoundTrip.SelfMatchNeverReads | managed_components/espressif__mdns/mdns.c:464-468 | A name that was compressed against itself is rejected by every reader that has its bytes, wherever the packet ends and whatever else it holds. |
| NameRoundTrip.HostCalledLocalIsLost | managed_components/espressif__mdns/mdns.c:733-784 | The settled hypothesis is needed: in a fresh packet the host name `local` is written so that it cannot be read back. |
| Settling.ReadsBackIffNotSelfMatched | managed_components/espressif__mdns/mdns.c:733-784 | When a written name is read back, exactly: where everything before it that looks like a label is the start of a plain name and the bytes around it do not complete its first label, a name of ordinary labels (1 to 31 printable bytes, no `=`) is read back, unflagged, if and only if it was not matched against itself; whatever an earlier packet left behind. |
| SelfMatch.ReadsBackIffTailDiffers | managed_components/espressif__mdns/mdns.c:733-784 | The same by the labels alone: in a buffer blank beyond the write position, with nothing before it that looks like a label, the name is read back if and only if its last labels do not repeat those in front of them. |
| SelfMatch.WhenTailsRepeat | managed_components/espressif__mdns/mdns.c:733-784 | For the lengths there are: never with one label, with two if they are equal, with three if the last two are, with four if the last two are or the last two repeat the first two (the second up to letter case). |
| SelfMatch.NotRepeatedNotSelfMatched | managed_components/espressif__mdns/mdns.c:733-784 | Whatever the buffer holds, a name is matched against itself only if some of its labels are followed by the same labels again. |
| SelfMatch.AcceptedIffAgain | managed_components/espressif__mdns/mdns.c:741-765 | Labels with nothing behind them are accepted as a match if and only if the wanted name is those labels, the first in the same letter case. |
| Settling.NameKeeps | managed_components/espressif__mdns/mdns.c:733-784 | An ordinary name not matched against itself only points to plain names before it, and what looks like a label in it is the start of a plain name again, so that the next name can be judged in the same way. |
| PacketBuffer.Buffer.AddU8 | managed_components/espressif__mdns/mdns.c:503-511 | Stores at the write position and advances by one, or returns 0 at capacity and changes nothing. |
| PacketBuffer.Buffer.AddU16 | managed_components/espressif__mdns/mdns.c:522-530 | Big-endian store of two bytes, or nothing. |
| PacketBuffer.Buffer.AddU32 | managed_components/espressif__mdns/mdns.c:541-551 | Big-endian store of four bytes, or nothing. |
| PacketBuffer.Buffer.SetU16 | managed_components/espressif__mdns/mdns.c:485-492 | Patches two bytes and leaves the rest and the write position alone; past the end it does nothing. |
| PacketBuffer.Buffer.AddType | managed_components/espressif__mdns/mdns.c:563-593 | Type, class, TTL and a zero RDLENGTH as one ten-byte block, or nothing if it does not fit or the type has no writer. |
| PacketBuffer.Buffer.AddString | managed_components/espressif__mdns/mdns.c:615-626 | One length-prefixed label, or nothing; the returned length is a `uint8_t`, 0 for a label of 255 bytes. |
| PacketBuffer.Buffer.Matches | managed_components/espressif__mdns/mdns.c:741-765 | The check of one candidate (length byte, bytes, read back over the whole buffer, compare all parts) decides exactly the specified acceptance. |
| PacketBuffer.Buffer.FindName | managed_components/espressif__mdns/mdns.c:733-770 | The search loop finds the first acceptable candidate. |
| PacketBuffer.Buffer.AddFqdn | managed_components/espressif__mdns/mdns.c:723-784 | The recursive writer on the array in place refines the specified writer: bytes, position and returned length. |
| PacketBuffer.Buffer.AddEntry | managed_components/espressif__mdns/mdns.c:638-656 | One TXT entry with its truncating length byte, or nothing. |
| PacketBuffer.Buffer.AddTxtData | managed_components/espressif__mdns/mdns.c:971-992 | The attribute loop writes the specified data and returns its length; an entry that does not fit gives 0. |
| PacketBuffer.Buffer.AddSrvData | managed_components/espressif__mdns/mdns.c:1039-1064 | The SRV integers and target, with each failure the source checks. |
| PacketBuffer.Buffer.AddRecord | managed_components/espressif__mdns/mdns.c:796-831 | The shape of the record writers, RDLENGTH patched last, refines the specified record writer for every RDATA type. |
| PacketBuffer.Buffer.AddQuestion | managed_components/espressif__mdns/mdns.c:1174-1209 | Name, type and class of a question; the returned sum is kept in one byte. |
| PacketBuffer.Buffer.Build | managed_components/espressif__mdns/mdns.c:1449-1490 | The whole packet is built in the static buffer as specified, over whatever it held before. |
| Txt.AppendEntriesWrites | managed_components/espressif__mdns/mdns.c:638-656 | Either all entries are stored one after the other, or the append reports that one did not fit; nothing else changes. |
| Txt.AppendTxtDataWrites | managed_components/espressif__mdns/mdns.c:971-992 | A TXT record without attributes gets one zero byte; the returned length is the number of bytes written. |
| Txt.DecodeTxt | managed_components/espressif__mdns/mdns.c:3393-3482 | The decoder as the source runs it: arrays for as many items as counted, filled by the loop; it yields the specified items, nothing on an error, or a store outside the arrays. |
| Txt.ItemLoop | managed_components/espressif__mdns/mdns.c:3424-3467 | The decoding loop, with its index that may step past the end and its arrays of fixed size, computes the specified parse. |
| Txt.CopyItem | managed_components/espressif__mdns/mdns.c:3434-3466 | Key, value and the next index of one item; an item without `=` moves one byte too far. |
| Txt.CountItems | managed_components/espressif__mdns/mdns.c:3350-3372 | The counting loop computes the specified count, -1 when an item overruns. |
| Txt.KeyLength | managed_components/espressif__mdns/mdns.c:3377-3388 | The position of the first `=`. |
| Txt.WireCounts | managed_components/espressif__mdns/mdns.c:3350-3372 | The item count of an encoding is the number of entries encoded, whatever they are. |
| Txt.WireParses | managed_components/espressif__mdns/mdns.c:3393-3482 | Decoding from any point where an encoding starts returns its entries in order. |
| Txt.OvershootIsFatal | managed_components/espressif__mdns/mdns.c:3448-3451 | Once the decoder is a byte too far it can never end up with the right items. |
| Txt.DecoderStaysInside | managed_components/espressif__mdns/mdns.c:3400-3447 | When the arrays are large enough, exactly: the loop stores outside them if and only if, after a first item without `=`, the walk that is one byte late stores more items than the counter finds from there on plus the keyless items before; otherwise it keeps at most as many items as were counted. |
| Txt.InStepStaysInside | managed_components/espressif__mdns/mdns.c:3400-3447 | In particular never when every item with a key has `=`, or only the very last one has none. |
| Txt.LateWalkStoresOutside | managed_components/espressif__mdns/mdns.c:3400-3447 | Nine bytes that count as two items and store three. |
| Txt.TxtRoundTrip | managed_components/espressif__mdns/mdns.c:3393-3482 | TXT round trip, exactly: the entries come back, stored inside the arrays, if and only if no entry before the last lacks a value; the count is right in every case. |
| Records.RecordAppends | managed_components/espressif__mdns/mdns.c:796-1168 | A record writer changes nothing before the record, even when it fails half way. |
| Records.RdataAccounts | managed_components/espressif__mdns/mdns.c:796-1168 | The RDATA length returned is right exactly while the name in it stays under 256 octets. |
| Records.RecordAccounting | managed_components/espressif__mdns/mdns.c:796-1168 | Length accounting: a writer returning r > 0 advanced by r and stored the RDATA size as RDLENGTH if and only if neither name reached 256 octets (a length goes through `uint8_t`). |
| Records.RecordWholeIffFits | managed_components/espressif__mdns/mdns.c:796-1168 | A record is written in full if and only if it fits (owner as compressed, fixed part, RDATA); so a record that is counted is complete exactly then. |
| Records.RoomIsEnough | managed_components/espressif__mdns/mdns.c:796-1168 | Room for the uncompressed record is enough, and the record takes no more. |
| Records.CutRecordIsCounted | managed_components/espressif__mdns/mdns.c:941-992 | A TXT record whose owner name is cut off at the end of the buffer still returns 13 and is counted. |
| RecordReader.ParseRecord | managed_components/espressif__mdns/mdns.c:3673-3693 | A record accepted by the walk has its RDATA inside the packet, and the walk moves forward. |
| RecordReader.ParsedFields | managed_components/espressif__mdns/mdns.c:3683-3688 | Type, class, TTL and data length are taken from the ten octets in front of the data; the class without its top bit. |
| RecordReader.RecordNameOctets | managed_components/espressif__mdns/mdns.c:800-806 | The names this responder writes never reach 200 octets, so their lengths always fit the `uint8_t`. |
| RecordReader.HeadReads | managed_components/espressif__mdns/mdns.c:3675-3690 | Name, type, class, TTL and RDLENGTH of a written record are read back; the class field is 0x8001 if the record carries the cache-flush bit, else 0x0001. |
| RecordReader.RecordRoundTrip | managed_components/espressif__mdns/mdns.c:3675-3693 | Record round trip for PTR, SRV, TXT and address records: owner in the right fields for two, three and four parts, type, class field (0x8001 if and only if cache-flush), TTL, RDATA and the start of the next record. |
| RecordReader.PtrRoundTrip | managed_components/espressif__mdns/mdns.c:796-831 | A PTR record (type 12, class 0x0001) gives back service, proto, the instance it points to, and TTL 4500, or 0 for a goodbye; with clear matches neither name is flagged. |
| RecordReader.SrvRoundTrip | managed_components/espressif__mdns/mdns.c:1005-1065 | An SRV record (type 33, class with the cache-flush bit exactly if asked for) gives back instance, TTL 120, priority, weight and port at their offsets, and host; with clear matches neither name is flagged. |
| RecordReader.SdptrRoundTrip | managed_components/espressif__mdns/mdns.c:891-937 | A DNS-SD PTR record gives back the enumeration name and the service type, with its type, class and TTL. |
| RecordReader.TxtRecordRoundTrip | managed_components/espressif__mdns/mdns.c:941-994 | A TXT record (type 16) gives back instance, class field and TTL, and through the decoder its attributes if and only if none before the last lacks a value. |
| RecordReader.AddressRoundTrip | managed_components/espressif__mdns/mdns.c:1067-1168 | An A or AAAA record (type 1 or 28) gives back host, class field, TTL and address. |
| Packet.DispatchStaysInside | managed_components/espressif__mdns/mdns.c:1449-1492 | Buffer bound: for any questions and records, what is sent has 12 to 1460 bytes and nothing after it was written. |
| Packet.PacketWholeIffFits | managed_components/espressif__mdns/mdns.c:1449-1490 | A packet is built whole if and only if every question and record finds room in its turn. |
| Packet.QuestionsWholeIffFit | managed_components/espressif__mdns/mdns.c:1462-1467 | Questions: all appended if and only if each fits in its turn; then all are counted. |
| Packet.RecordsWholeIffFit | managed_components/espressif__mdns/mdns.c:1470-1475 | Records: the same. |
| Packet.ShortMessageFits | managed_components/espressif__mdns/mdns.c:1449-1490 | A message whose uncompressed form fits the buffer is always sent whole. |
| PacketRoundTrip.QuestionsRoundTrip | managed_components/espressif__mdns/mdns.c:3592-3607 | Every question that fits is read back, in order, and counted. |
| PacketRoundTrip.RecordsRoundTrip | managed_components/espressif__mdns/mdns.c:3669-3693 | A section that fits is walked record by record, each read back and counted. |
| PacketRoundTrip.DispatchRoundTrip | managed_components/espressif__mdns/mdns.c:1449-1490 | Packet round trip, for messages that fit: id, flags, the four counters, all questions and all records of the three sections, from the sent bytes alone. |
| PacketRoundTrip.ShortMessageArrives | managed_components/espressif__mdns/mdns.c:1449-1490 | The same for every message whose uncompressed form fits. |
| SettledPackets.QuestionKeeps | managed_components/espressif__mdns/mdns.c:1174-1209 | A question whose ordinary name stands apart (not completed by the bytes around it, not matched against itself) is written with settled matches and leaves a packet in which the next name can be judged. |
| SettledPackets.RecordKeeps | managed_components/espressif__mdns/mdns.c:796-1168 | So is a record of any kind, if its other bytes do not look like a label. |
| SettledPackets.UnambiguousMessageIsSettled | managed_components/espressif__mdns/mdns.c:1449-1490 | So every match made while such a message is built is settled, and ends in a label. |
| Arrival.RecordUnread | managed_components/espressif__mdns/mdns.c:3673-3693 | A record whose owner or RDATA name was matched against itself is not read, whatever the walk expects after it. |
| Arrival.ArrivesIffAlone | managed_components/espressif__mdns/mdns.c:1449-1490 | When a message arrives, exactly: a message that fits, of ordinary names that the bytes around them do not complete and nothing else that looks like a label, is read back (header, questions, records, no name flagged) if and only if none of its names was matched against itself. |
| Discovery.BlankMessageApart | managed_components/espressif__mdns/mdns.c:1449-1490 | In a buffer blank beyond its header the bytes around a name complete nothing, and names whose last labels do not repeat are not matched against themselves. |
| Discovery.BlankMessageArrives | managed_components/espressif__mdns/mdns.c:1449-1490 | So in such a buffer every message of such names whose uncompressed form fits arrives, with no assumption about matches. |
| Discovery.PtrArrives | managed_components/espressif__mdns/mdns.c:796-831 | One PTR record of ordinary names, whatever earlier packets left in the buffer, arrives if and only if neither name was matched against itself; so always when no label of a name comes twice. |
| Discovery.SrvIsUnambiguous | managed_components/espressif__mdns/mdns.c:1005-1065 | SRV records of ordinary names with priority and weight 0 hold nothing else that looks like a label, unless the port reads as a label of one letter. |
| TxPacket.InsertKeeps | managed_components/espressif__mdns/mdns.c:1542-1560 | Scheduling keeps the queue sorted by time and identities distinct. |
| TxPacket.InsertPlace | managed_components/espressif__mdns/mdns.c:1542-1560 | The new packet goes after everything due no later and before everything due later; nothing else moves. |
| TxPacket.EqualTimesAreFifo | managed_components/espressif__mdns/mdns.c:1555-1559 | Packets due at the same time stay first in, first out. |
| TxPacket.OnWithoutPcb | managed_components/espressif__mdns/mdns.c:1581-1604 | Clearing one interface removes all its packets and leaves those of every other interface in order. |
| TxPacket.WithoutPcbKeeps | managed_components/espressif__mdns/mdns.c:1581-1604 | Clearing keeps order and distinct identities. |
| TxQueue.Queue.Schedule | managed_components/espressif__mdns/mdns.c:1542-1560 | The linked list stays acyclic and ends; its packets are the old ones with the new one inserted; no other node is changed. |
| TxQueue.Queue.ClearPcb | managed_components/espressif__mdns/mdns.c:1581-1604 | The two loops remove exactly the packets of one interface from the linked list. |
| TxQueue.Queue.Detach | managed_components/espressif__mdns/private_include/mdns_private.h:147-161 | The node is taken out if it is in the list, the others keep their order. |
| TxQueue.Queue.ToEnd | managed_components/espressif__mdns/private_include/mdns_private.h:138-145 | The node is added at the end. |
| ResponderInvariant.ProbePacketIsProbe | managed_components/espressif__mdns/mdns.c:2027-2076 | A probe packet asks about exactly the services it was made for, each once, proposes an SRV record for each, and addresses if asked to; all its questions are unicast on the first round. |
| ResponderInvariant.ProbeAsksExactly | managed_components/espressif__mdns/mdns.c:2035-2071 | For every subject: a probe asks about it if and only if it is the instance of one of its services or, when addresses are probed, this host or the host of one of them. |
| Contents.ProbePacketSays | managed_components/espressif__mdns/mdns.c:2027-2076 | All a probe says: what it asks about, exactly, each once and with the given unicast bit; as proposals exactly an SRV record for each service and, when addresses are probed, A and AAAA of their hosts (of this host if there are none), each once, none with the cache-flush bit; no answers. |
| ResponderInvariant.MergeIsUnion | managed_components/espressif__mdns/mdns.c:2242-2259 | New and already probed services merge without duplicates into the union. |
| ResponderInvariant.ProbeMerge | managed_components/espressif__mdns/mdns.c:2175-2266 | Through the whole operation: probe list duplicate-free and equal to requested plus probed services, the new ones in front, address probing wanted if it was or is. |
| ResponderInvariant.InitProbeOk | managed_components/espressif__mdns/mdns.c:2231-2266 | Starting to probe leaves the interface with exactly one packet, its probe, and no other interface notices. |
| ResponderInvariant.FirstProbeWaits | managed_components/espressif__mdns/mdns.c:2220 | A first probe waits 120 to 247 ms, or 1000 to 1127 ms once more than five probes have failed. |
| ResponderInvariant.HandleDoes | managed_components/espressif__mdns/mdns.c:4782-4837 | What handling a packet does to state, queue and log, in every state. |
| ResponderInvariant.ProbeIsWon | managed_components/espressif__mdns/mdns.c:4801-4828 | Handling the third probe leaves an interface in ANNOUNCE_1 with no probe list, flags or failures, whatever it had. |
| ResponderInvariant.HandleOk | managed_components/espressif__mdns/mdns.c:4782-4837 | Handling an overdue head keeps the invariant. |
| ResponderInvariant.AnnounceOk | managed_components/espressif__mdns/mdns.c:2311-2349 | Announcing keeps the invariant, whether it restarts a probe, extends a packet or makes a new one. |
| Contents.AnnouncePacketSays | managed_components/espressif__mdns/mdns.c:2081-2107 | All an announcement without a probe says: as answers exactly SDPTR, PTR, SRV and TXT of its services, in the authority section exactly the address records of the hosts if asked for; each once, with the right cache-flush bits, no goodbyes. |
| Contents.ExtendedSays | managed_components/espressif__mdns/mdns.c:2317-2333 | Extending a packet on its way: exactly these records join its answers, nothing is lost or doubled, and with addresses the first A and AAAA answer about this host leave the additional section; nothing else changes. |
| Contents.DropAnswerIs | managed_components/espressif__mdns/mdns.c:1658-1682 | Taking out an answer: the first of that type and service is gone, the others keep their order; without one nothing changes. |
| ResponderInvariant.AnswersOk | managed_components/espressif__mdns/mdns.c:1817-1918 | Scheduling an answer keeps the invariant, as answers wait for probing to end. |
| ResponderInvariant.RetractOk | managed_components/espressif__mdns/mdns.c:1624-1653 | Retracting an answer another host gave keeps the invariant. |
| ServiceRemoval.SweepIsLocal | managed_components/espressif__mdns/mdns.c:2638-2717 | Removing a service treats each interface as if the others were not there. |
| ServiceRemoval.RemoveServiceOk | managed_components/espressif__mdns/mdns.c:2638-2717 | Removing a service keeps the invariant, also in the middle of a probe. |
| ServiceRemoval.RemovalIsCompleteAndLocal | managed_components/espressif__mdns/mdns.c:2613-2717 | Afterwards no answer, server or additional list of a queued packet and no probe list refers to the service; surviving packets keep their order and everything else they said, less at most one question; a packet vanishes only if nothing is left in it. |
| ServiceRemoval.FirstOfKindGoes | managed_components/espressif__mdns/mdns.c:2679-2702 | What is asked about after a removal is what was asked before, less the first question about a service of that type and protocol. |
| ServiceRemoval.OthersStayAsked | managed_components/espressif__mdns/mdns.c:2679-2702 | A removal leaves the questions about other services if and only if the first question of that type and protocol is the own one; otherwise its own stays. |
| Questions.RemovalTakesOwnQuestion | managed_components/espressif__mdns/mdns.c:2638-2717 | The same through the whole operation, for an interface that is probing the service. |
| Questions.RemovalKeepsExactness | managed_components/espressif__mdns/mdns.c:2638-2717 | A probe that asks about exactly the services probed goes on doing so if and only if that holds. |
| Questions.QuestionStrays | managed_components/espressif__mdns/mdns.c:2679-2702 | Two services of one type probed, the second removed: the first is still probed, with a question about the second. |
| QuestionRuns.RemovalExactIffOwnQuestionGoes | managed_components/espressif__mdns/mdns.c:2638-2717 | A removal keeps the probes of all interfaces exact if and only if the service removed is, wherever it is probed, the first of its kind asked about. |
| QuestionRuns.ApplyExact | managed_components/espressif__mdns/mdns.c:4915-5134 | Every action keeps the probes exact, if the removals it makes are of that kind. |
| QuestionRuns.ProbesAskExactlyOnEveryRun | managed_components/espressif__mdns/mdns.c:2027-2076 | On every run whose removals are of that kind, each probe asks about exactly the services being probed, each once. |
| Registration.ServicesAreRegisteredOnEveryRun | managed_components/espressif__mdns/mdns.c:2613-2717 | On every run whose operations name registered services: probe lists and the answers of queued packets refer to registered services only. |
| Registration.DifferentKindsAskExactly | managed_components/espressif__mdns/mdns.c:2613-2717 | On such runs, as long as no two services of one type are registered at a time, each probe asks about exactly the services being probed. |
| ResponderInvariant.ProbeAllOk | managed_components/espressif__mdns/mdns.c:2354-2371 | Probing on all interfaces keeps the invariant, with or without clearing old probes. |
| ResponderInvariant.RestartAllOk | managed_components/espressif__mdns/mdns.c:2470-2488 | A full restart, which empties the queue first, re-establishes the invariant everywhere. |
| Operations.AddServiceDoes | managed_components/espressif__mdns/mdns.c:4945-4949 | A new service is registered; with a host name every interface that is up is in PROBE_1 with it on the probe list besides what it was probing, its old packets gone and exactly one new probe queued that asks and proposes accordingly, 120 to 247 ms from now (1000 to 1127 after more than five failures). |
| Operations.SetServiceInstanceDoes | managed_components/espressif__mdns/mdns.c:4950-4958 | The same for a service whose instance name changed. |
| Operations.HostsTakeEffect | managed_components/espressif__mdns/mdns.c:5112-5124 | Delegating a host, or giving it other addresses, touches no interface; what is probed from then on proposes the addresses of the new hosts. |
| Operations.SetHostnameDoes | managed_components/espressif__mdns/mdns.c:4929-4937 | A new host name: nothing queued is kept, and every interface that is up probes exactly the registered services, and addresses. |
| Operations.SetInstanceDoes | managed_components/espressif__mdns/mdns.c:4938-4944 | A new default instance name: if some service has no name of its own, exactly such services are probed on every interface that is up, over what was probed before; otherwise nothing happens. |
| Operations.UnnamedProbed | managed_components/espressif__mdns/mdns.c:2442-2465 | The probe list is then exactly the services without a name of their own; others being probed drop out of it. |
| Operations.EnableDoes | managed_components/espressif__mdns/mdns.c:4052-4061 | An interface coming up probes all registered services and addresses, besides what it was probing; the others do not notice; if it cannot be opened nothing changes. |
| Operations.DisableDoes | managed_components/espressif__mdns/mdns.c:4066-4080 | An interface going down keeps no packet, probe list, flag or failure; the others do not notice. |
| Operations.UpdateServiceDoes | managed_components/espressif__mdns/mdns.c:4959-5035 | New port or attributes: on every interface the records are probed for, join the first packet being announced, or go into a new packet due now, as its state demands; what those packets say, exactly. |
| Operations.AnnounceAddressDoes | managed_components/espressif__mdns/mdns.c:4109-4114 | The same for a new address, on one interface. |
| Operations.SrvCollisionDoes | managed_components/espressif__mdns/mdns.c:3807-3839 | An SRV record that prevails: while probing, one more failure, and the service, the unnamed services, or the host with everything start over; otherwise the service is probed for on this interface; on one that is down nothing. |
| Operations.LosersProbeAgain | managed_components/espressif__mdns/mdns.c:3807-3838 | After a lost collision while probing, failures have grown by one and the loser is on the probe list again; the list is said exactly for each kind of renaming. |
| Operations.TxtCollisionDoes | managed_components/espressif__mdns/mdns.c:3899-3901 | A TXT record that prevails: ignored while probing, otherwise the service is probed for again, with addresses. |
| Operations.AddressCollisionDoes | managed_components/espressif__mdns/mdns.c:3938-3954 | Another host with this name: while probing one more failure and everything starts over, otherwise addresses are probed for again. |
| Operations.AskedDoes | managed_components/espressif__mdns/mdns.c:1817-1918 | A question of another host: its answer joins the queue in its place by time with exactly the given answers, additional records and echoed questions; nothing while probing. |
| Operations.AnsweredByOtherDoes | managed_components/espressif__mdns/mdns.c:1624-1653 | An answer another host gave leaves, once, each shared packet of that interface; every other packet and answer stays. |
| Operations.RemovalDoes | managed_components/espressif__mdns/mdns.c:2638-2717 | What a removal makes of each interface: the service leaves its probe list; probing ends if nothing is left to probe, announcing if a packet spoke of nothing else; all else stays. |
| Operations.DeleteServiceDoes | managed_components/espressif__mdns/mdns.c:5049-5073 | A deleted service is no longer registered, the others keep their order, and no packet or probe list speaks of it; a service not registered changes nothing. |
| Operations.DeleteAllDoes | managed_components/espressif__mdns/mdns.c:5074-5086 | After the removal of all services none is registered and nothing speaks of any of them. |
| Agreement.ThinKeeps | managed_components/espressif__mdns/mdns.c:5165-5195 | Taking packets out of the queue or editing them keeps timer and service task in agreement. |
| Agreement.InsertKeepsAgreement | managed_components/espressif__mdns/mdns.c:1542-1560 | Scheduling a packet no pending action names keeps the agreement. |
| Agreement.OldestIsHead | managed_components/espressif__mdns/mdns.c:5096-5107 | If the oldest pending send names a packet still queued, that packet is the head and is marked. |
| Agreement.SendAgrees | managed_components/espressif__mdns/mdns.c:5096-5107 | Sending the head keeps the agreement, even when the same packet goes back into the queue. |
| MachineInvariant.ApplyInv | managed_components/espressif__mdns/mdns.c:4915-5134 | Every action of the service task keeps the responder invariant. |
| MachineInvariant.ApplyAgrees | managed_components/espressif__mdns/mdns.c:4915-5134 | Every action keeps the agreement with the pending sends. |
| MachineInvariant.TimerInv | managed_components/espressif__mdns/mdns.c:5165-5195 | A timer round keeps both, whether or not memory and queue space are there. |
| MachineInvariant.TimerDoes | managed_components/espressif__mdns/mdns.c:5165-5195 | A timer round, exactly: if the first unmarked packet is overdue and there is memory and room, it is marked and its sending posted last in the action queue; otherwise nothing changes. |
| MachineInvariant.SendInv | managed_components/espressif__mdns/mdns.c:5096-5107 | The send action keeps both, in the expected and in the unexpected case. |
| MachineInvariant.NextInv | managed_components/espressif__mdns/mdns.c:5229-5251 | Every interleaved step (tick, timer, post, take, execute) keeps both. |
| Runs.Reached | managed_components/espressif__mdns/mdns.c:5229-5251 | So they hold after any sequence of steps from start-up, for any number of interfaces. |
| Runs.ProbeStateOnEveryRun | managed_components/espressif__mdns/mdns.c:2175-2266 | On every run: `probe_running` exactly in PROBE_1 to PROBE_3; services to probe only then; and then exactly one packet of the interface is queued, the probe for them. |
| Runs.AgreementOnEveryRun | managed_components/espressif__mdns/mdns.c:5165-5195 | On every run: marked packets form a prefix of the queue, and the pending sends whose packet still exists are exactly these, in order, one each. |
| Runs.UnexpectedPacketsAreGone | managed_components/espressif__mdns/mdns.c:5096-5107 | On every run: the skip branch is taken only for a packet that has left the queue. |
| Runs.OperationsNeverAnnounceAProbe | managed_components/espressif__mdns/mdns.c:4915-5134 | No action other than sending takes a probing interface to announcing. |
| Runs.ThreeProbesOnEveryRun | managed_components/espressif__mdns/mdns.c:4795-4828 | On every run: going from PROBE_3 to ANNOUNCE_1 means exactly three dispatches since probing began, of one packet, the first unicast and the others not, at least 250 ms apart (section 8.1 of RFC 6762). |
| Progress.HandlingMakesProgress | managed_components/espressif__mdns/mdns.c:4782-4837 | Packets queued plus states left strictly decreases for the interface handled and stays for the others. |
| Progress.Drained | managed_components/espressif__mdns/mdns.c:4782-4837 | With no new actions the queue empties. |
| Progress.RestsAfter | managed_components/espressif__mdns/mdns.c:4782-4837 | An interface with one packet and n states to go takes exactly n handlings, whatever the other interfaces do. |
| Progress.SixHandlingsToRest | managed_components/espressif__mdns/mdns.c:4782-4837 | From PROBE_1 exactly six handlings reach PCB_RUNNING with nothing queued. |
| Liveness.RoundHandlesHead | managed_components/espressif__mdns/mdns.c:5165-5195 | Tick, timer, take and execute together handle exactly the head of the queue and leave nothing pending. |
| Liveness.ComesToRest | managed_components/espressif__mdns/mdns.c:5229-5251 | From any reachable state, timer and service task alone bring the system to rest: empty queue, nothing pending; with no operation pending, in the state that handling the packets one by one leads to. |
| Liveness.TaskStep | managed_components/espressif__mdns/mdns.c:5096-5195 | With no operation pending, a step of the tasks handles the head of the queue, or changes nothing but time and marks. |
| Liveness.DispatchesAreBounded | managed_components/espressif__mdns/mdns.c:5096-5195 | However the tasks are scheduled, no more packets are sent than there are packets queued and states ahead. |
| Timeline.UndisturbedTimeline | managed_components/espressif__mdns/mdns.c:4782-4837 | Undisturbed, an interface sends exactly six packets from its first probe: the probe that was queued three times, only the first unicast, then the announcement made from it three times; each is due exactly 250 ms after the one before up to the first announcement, then 1000 ms, and goes out once that time has passed (sections 8.1 and 8.3 of RFC 6762). |
| Timeline.TasksNeverLeaveTheTimeline | managed_components/espressif__mdns/mdns.c:5165-5251 | On every run, however the tasks are scheduled while no operation is pending: what an interface sends from its first probe on is at every moment a first part of these six packets, in their time. |
| Timeline.TasksKeepTheTimeline | managed_components/espressif__mdns/mdns.c:5165-5251 | On every run: timer and service task, left alone, can take an interface from its first probe to PCB_RUNNING by exactly these six packets. |
| Liveness.AProbeBegins | managed_components/espressif__mdns/mdns.c:4052-4061 | Such runs exist: bringing up an interface and naming the host leads to a first probe. |
| Liveness.PostsFit | managed_components/espressif__mdns/private_include/mdns_private.h:104 | With at most sixteen posts the action queue takes them all, in order, and refuses none. |
| Runs.QueueBoundOnEveryRun | managed_components/espressif__mdns/private_include/mdns_private.h:104 | On every run no more than sixteen actions are waiting. |
| ServiceLife.CourseIsKept | managed_components/espressif__mdns/mdns.c:5165-5251 | On every run, from a probe that has just begun, with nothing but sends pending: however the tasks are scheduled, what the interface sends is a first part of three probes and three announcements that say exactly what that probe is for. |
| ServiceLife.CourseEnds | managed_components/espressif__mdns/mdns.c:5165-5251 | And the tasks can take it through all six of them to PCB_RUNNING. |
| ServiceLife.AddedServiceIsAnnounced | managed_components/espressif__mdns/mdns.c:4945-4949 | On every run: once the service task adds a service, on an interface that is up and with nothing else pending, it is registered, and left alone the interface sends its question and proposal three times and then all its records, SDPTR, PTR, SRV, TXT and both addresses of its host, three times, and comes to rest. |
| ServiceLife.AddedServiceKeepsItsCourse | managed_components/espressif__mdns/mdns.c:4945-4949 | And however the tasks are scheduled meanwhile, whatever the interface sends is on that course. |
| ServiceLife.AServiceIsBeingAdded | managed_components/espressif__mdns/mdns.c:4945-4949 | Runs on which the service task is about to add a service, on an interface that is up, exist. |
| Announcement.AddOne | managed_components/espressif__mdns/mdns.c:1687-1712 | Adding an answer: the list then holds exactly what it held and the new one, never twice. |
| Announcement.AnnouncementIsExact | managed_components/espressif__mdns/mdns.c:2111-2146 | The announcement holds exactly the records the proposals call for, each once, with the right cache-flush bits. |
| Contents.AnnounceFromSays | managed_components/espressif__mdns/mdns.c:2111-2146 | Made from a probe for some services, the announcement says exactly SDPTR, PTR, SRV and TXT of each, the address records of their hosts, and those of this host if addresses alone were probed. |
| Announcement.ProbedServicesAreAnnounced | managed_components/espressif__mdns/mdns.c:2111-2146 | Every probed service is announced by SDPTR, PTR, SRV and TXT. |
| Engine.AllocAnswer | managed_components/espressif__mdns/mdns.c:1687-1712 | The duplicate search and append compute the specified list. |
| Engine.QuestionExists | managed_components/espressif__mdns/mdns.c:1924-1935 | The search decides whether the question is there. |
| Engine.CreateProbePacket | managed_components/espressif__mdns/mdns.c:2027-2076 | The loop, and the walks it calls, build the specified probe. |
| Engine.AppendHostQuestions | managed_components/espressif__mdns/mdns.c:1985-2022 | The loop asks about this host and the hosts of the services, each once. |
| Engine.AppendHostList | managed_components/espressif__mdns/mdns.c:1949-1966 | The loop proposes the addresses of the hosts of the services. |
| Engine.DeallocAnswers | managed_components/espressif__mdns/mdns.c:2613-2633 | The two loops take out exactly the answers about the service. |
| Engine.ShiftOut | managed_components/espressif__mdns/mdns.c:2665-2670 | The shift in place takes one entry out of the probe list. |
| Engine.UnlinkQuestion | managed_components/espressif__mdns/mdns.c:2681-2700 | The head case and the walk take out the first question of the type and protocol. |
| Engine.SweepPacket | managed_components/espressif__mdns/mdns.c:2641-2710 | One round of the removal refines the specified one. |
| Engine.ClearPcb | managed_components/espressif__mdns/mdns.c:1581-1604 | The two loops take out exactly the packets of one interface. |
| Engine.CreateAnnounce | managed_components/espressif__mdns/mdns.c:2111-2146 | The loop builds the specified announcement. |
| Engine.NewServices | managed_components/espressif__mdns/mdns.c:2242-2257 | The nested loops keep exactly the services not yet probed. |
| Engine.MergeServices | managed_components/espressif__mdns/mdns.c:2178-2203 | The copies stay inside what was allocated and give the merged list. |
| Engine.Responding.SchedulePacket | managed_components/espressif__mdns/mdns.c:1542-1560 | The walk inserts the packet as specified. |
| Engine.Responding.InitProbeNewService | managed_components/espressif__mdns/mdns.c:2175-2222 | The structure is updated as specified. |
| Engine.Responding.InitPcbProbe | managed_components/espressif__mdns/mdns.c:2231-2266 | The three cases (no hostname, probing, not probing) update the structure as specified. |
| Engine.Responding.ProbeAllPcbs | managed_components/espressif__mdns/mdns.c:2354-2371 | The loop over interfaces updates the structure as specified. |
| Engine.Responding.HandlePacket | managed_components/espressif__mdns/mdns.c:4782-4837 | The switch with its fall-through cases refines the specified handling. |
| Engine.Responding.SendPostedPacket | managed_components/espressif__mdns/mdns.c:5096-5107 | Head, identity and mark are checked before the packet is taken. |
| Engine.Responding.RemoveScheduledServicePackets | managed_components/espressif__mdns/mdns.c:2638-2717 | The sweep over the queue updates queue and interfaces as specified. |
| Engine.Responding.SchedulerRun | managed_components/espressif__mdns/mdns.c:5165-5195 | Marks and posts exactly the first unmarked packet, if it is overdue and there is memory and room. |
| TieBreak.CompareBytes | managed_components/espressif__mdns/mdns.c:2802-2807 | The byte comparison decides by the first difference. |
| TieBreak.ContestIsOrder | managed_components/espressif__mdns/mdns.c:2767-2808 | Length first, then bytes, is a total order: verdicts are opposite, a draw means equality, winning is transitive. |
| TieBreak.UniqueWinner | managed_components/espressif__mdns/mdns.c:2767-2808 | Any finite set of distinct contenders has exactly one winner. |
| TieBreak.CheckSrvCollision | managed_components/espressif__mdns/mdns.c:2757-2809 | The function decides the contest of the two uncompressed SRV encodings. |
| TieBreak.SrvTieBreak | managed_components/espressif__mdns/mdns.c:2757-2809 | SRV verdicts of two hosts are opposite, zero exactly for identical claims, and transitive. |
| TieBreak.OneSrvClaimPrevails | managed_components/espressif__mdns/mdns.c:2757-2809 | Among any finite set of different claims exactly one prevails. |
| TieBreak.NotTheLexicographicOrder | managed_components/espressif__mdns/mdns.c:2770-2774 | The order differs from the plain lexicographic one of section 8.2 of RFC 6762: a concrete pair where it picks the other side. |
| TieBreak.WhenSrvOrdersAgree | managed_components/espressif__mdns/mdns.c:2767-2808 | The two orders agree on an SRV tie if and only if the host names are equally long, or priority, weight and port are the same, or the longer host name goes with the later integers. |
| TieBreak.CheckTxtCollision | managed_components/espressif__mdns/mdns.c:2814-2853 | The function decides as specified for all attributes; entries that would end past 1460 bytes leave what the local array held before. |
| TieBreak.VerdictIgnoresTheStack | managed_components/espressif__mdns/mdns.c:2836-2843 | If the data received or the attributes held fit a packet, what the array held before makes no difference. |
| TieBreak.TxtTieBreak | managed_components/espressif__mdns/mdns.c:2814-2853 | TXT verdicts are opposite, zero exactly for equal data, and transitive; on data shorter than a packet they are what the comparison with the local array decides, whatever was in it. |
| TieBreak.OneTxtClaimPrevails | managed_components/espressif__mdns/mdns.c:2814-2853 | Among any finite set of different attribute lists exactly one prevails. |
| TieBreak.NoTxtConflictMeansSame | managed_components/espressif__mdns/mdns.c:2814-2853 | No conflict means the same attributes in the same order. |
| TieBreak.WhenTxtOrdersAgree | managed_components/espressif__mdns/mdns.c:2825-2852 | The two orders agree on a TXT tie if and only if the data are equally long, or one list continues the other, or the longer data wins the first entry that differs. |
| TieBreak.TxtIsNotLexicographicEither | managed_components/espressif__mdns/mdns.c:2825-2852 | A concrete pair of TXT data on which they disagree. |
| Mangle.TimesIsSuffix | managed_components/espressif__mdns/mdns.c:209-246 | k renamings give the base, a dash and the starting suffix plus k. |
| Mangle.FirstTwoRenamings | managed_components/espressif__mdns/mdns.c:209-246 | A name without a dash gets `-2`, and that one becomes `-3`. |
| Mangle.RenamingsDiffer | managed_components/espressif__mdns/mdns.c:209-246 | All renamings of a name are different. |
| Mangle.FitsItsAllocation | managed_components/espressif__mdns/mdns.c:209-246 | The new name, and the copy of the old one made first, fit what was allocated. |
| Mangle.RenamingEscapes | managed_components/espressif__mdns/mdns.c:209-246 | Whatever finite set of names is taken, one of the first the number taken + 1 renamings is free. |
| SearchResults.FindResult | managed_components/espressif__mdns/mdns.c:4431-4438 | The walk finds the first result that fits. |
| SearchResults.Search.UpdateTtl | managed_components/espressif__mdns/mdns.c:4392-4395 | The time to live only goes down. |
| SearchResults.Search.AddResultIp | managed_components/espressif__mdns/mdns.c:4400-4420 | An address is added unless it is there. |
| SearchResults.Search.SearchAddIp | managed_components/espressif__mdns/mdns.c:4425-4478 | An address updates the first result of its place (or with its host name), or makes a new result if there is room. |
| SearchResults.Search.SearchAddPtr | managed_components/espressif__mdns/mdns.c:4483-4520 | An instance updates the result with its name, or makes a new one if there is room. |
| SearchResults.Search.SearchAddSrv | managed_components/espressif__mdns/mdns.c:4525-4563 | The same for a host. |
| SearchResults.Search.SearchAddTxt | managed_components/espressif__mdns/mdns.c:4567-4611 | Attributes go to the first result of their place if it has none, or make a new one if there is room. |
| SearchResults.HearGood | managed_components/espressif__mdns/mdns.c:3727-3980 | Whatever record is heard, count, distinct addresses and distinct instances are kept. |
| SearchResults.HearLeast | managed_components/espressif__mdns/mdns.c:4392-4611 | Each addition keeps every time to live at the least of the calls that created or updated the result. |
| SearchResults.ResultsOfAnySearch | managed_components/espressif__mdns/mdns.c:4392-4611 | Over any sequence of records: the counter is the list length and at most the maximum, times to live are minima, addresses are distinct, and instance names in a PTR search are distinct per place whatever the letter case. |
| SearchContents.PtrHeard | managed_components/espressif__mdns/mdns.c:4483-4520 | A PTR record, exactly: a new instance comes in front if there is room, a known one (first match in any letter case) has its time to live lowered; all else stays, and in other searches everything. |
| SearchContents.SrvHeard | managed_components/espressif__mdns/mdns.c:4525-4563 | An SRV record, exactly: a new host comes in front with host, port, place and the name searched for; a known one has its time to live lowered. |
| SearchContents.SrvForInstance | managed_components/espressif__mdns/mdns.c:3746-3782 | An SRV record in a PTR search: the result with that instance name, found or made, gets host and port if it had no host. |
| SearchContents.TxtForInstance | managed_components/espressif__mdns/mdns.c:3844-3876 | A TXT record in a PTR search: that result gets the attributes if it had none. |
| SearchContents.TxtHeard | managed_components/espressif__mdns/mdns.c:4567-4611 | A TXT record in a TXT search: the first result of the place gets the attributes if it had none, or a new one is made of them. |
| SearchContents.AddressHeard | managed_components/espressif__mdns/mdns.c:4425-4478 | An address goes, once, to the first result of its place, in a PTR or SRV search to the one with its host, or into a new result where the search is for addresses. |
| SearchContents.NothingUnheard | managed_components/espressif__mdns/mdns.c:3727-3980 | Over any sequence of records: every host with its port, instance, attribute list and address in a result was heard, for that place and under that name. |
| SearchContents.ResultsOnlyGrow | managed_components/espressif__mdns/mdns.c:3727-3980 | What a result says it goes on saying. |
| SearchContents.WhatIsHeardIsThere | managed_components/espressif__mdns/mdns.c:3727-3980 | In a search without a limit, every record the search is for ends up in a result. |

## Left out

- NameRoundTrip.CompressionRoundTrip: assumes settled matches, which the code does not check (`ReadsBackIffNotSelfMatched` does without); letter case of shared parts is that of the earlier occurrence; if a match does not end in a label, `invalid` may be raised for four-part names by a pointer that leads to the terminating byte.
- RecordReader.RecordRoundTrip: in the same way.
- PacketRoundTrip.DispatchRoundTrip: in the same way; `ArrivesIffAlone` does without for unambiguous messages.
- Arrival.ArrivesIffAlone: speaks of messages in which nothing but names looks like a label; what the parser makes of others depends on where their bytes come to stand.
- Txt.TxtRoundTrip: keys are non-empty, without `=` and NUL, and an entry has at most 255 bytes; values are the `value_len` bytes kept with the entry.
- Txt.DecodeTxt: the 16-bit wrap of the index at 65536 is not modelled; what follows a store outside the arrays is not described.
- TieBreak.TxtTieBreak: for data of 1460 bytes and more the source's verdict depends on what the local array held, as `TxtVerdictOver` says.
- Discovery.BlankMessageArrives: later packets, built over the bytes of earlier ones, need that those do not complete a label or an unfinished name; which names are safe whatever they are is said by `PtrArrives` for PTR records only.
- Mangle.TimesIsSuffix: numeric suffixes are unbounded; the source's `int` overflows at 2147483647.
- Runs.ThreeProbesOnEveryRun: says nothing of the number of announcements, since an answer queued while announcing also advances the state; `Timeline` counts them for an interface left alone.
- Strings of 256 bytes and more: lengths are kept in `uint8_t` by the writers; the model's `Text` is shorter than that.  The capacity results are for names of labels up to 63 bytes under 256 octets.
- Which records an answer to a received question holds, one-shot answers sent at once, goodbyes and search queries: they are dispatched without passing through the queue.
- A and AAAA answers take addresses from `esp_netif`, and one answer may expand to several records; the packet model takes the records as given.
- Subtype PTR records: four labels and `_sub`, which the name reader does not keep in its fields.
- Duplicate interfaces (PCB_DUP, `_mdns_dup_interface`), failing de-initialisation of an interface, and packets received for an interface that has gone down.
- Failing memory allocation, other than in the timer task.
- The 32-bit wrap of the millisecond clock; more than 255 services on one probe list.
- Reuse of freed addresses, and strings of removed services that a probe's questions still point to; objects are identified by numbers never used twice.
- Removing a delegated host is no action of its own: it appears as the deletion of its services and then a change of hosts, in separate steps.
- Names of delegated hosts: `HostOf` stands for the host name string a service holds, one per service.
- The linked lists of questions and answers inside a packet are sequences; the packets themselves are linked nodes in `TxQueue` and a sequence in `Engine`.
- Sockets, multicast membership, console commands, and code for reverse queries, which is not enabled in the configuration.
