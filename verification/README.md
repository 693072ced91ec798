# AirShow, verified

A Dafny model of the protocol cores of AirShow, a screen-mirroring receiver. Each part is modelled in the
form the program has it: objects that change step by step are classes whose methods are proved against
functions on their values, and the protocol theorems are lemmas about those functions.

- **DNS codec** (`Bytes`, `DnsName`, `DnsHops`, `WireList`, `DnsMessage`, `DnsRoundTrip`, `DnsCodec`, `DnsLimits`, `DnsWire`):
  messages of RFC 1035, written with name compression and read under a budget of 32 pointers.
- **mDNS responder** (`TieBreak`, `MdnsRecords`, `MdnsAnswer`, `MdnsQuery`, `MdnsPackets`, `MdnsProbe`, `MdnsProgress`,
  `MdnsAnnounce`, `MdnsHandlers`, `MdnsResponder`, `MdnsReachable`, `MdnsExclusion`, `MdnsDuel`, `MdnsNames`, `MdnsResolve`,
  `MdnsListing`, `MdnsSpoken`): probing, tie-breaking, conflicts, answers and packet splitting of RFC 6762 and RFC 6763,
  over whole runs of one responder and of two on a link, down to what a client learns and which names are given up.
- **Cast Streaming receiver** (`CastPacket`, `CastStream`, `CastRefinement`, `CastComplete`, `CastProgress`, `CastReceiver`,
  `CastNack`, `CastRtcp`, `CastReporter`, `CastHost`, `CastTiming`, `CastWire`): reassembly of encrypted frames from a network
  that loses, repeats and reorders, and the RTCP reports that go back.
- **Framings and buffers** (`TxtRecord`, `AirShowStream`, `AirShowHandler`, `CastGate`, `CastSession`): the TXT record
  edited in place, the AirShow media stream with its two writer threads, CASTV2 framing and the approval gate.

`dafny verify dfyconfig.toml` checks everything.

## Where the code does not keep its promise

- A message can be written so that its own reader refuses it, because following one of its names takes more than
  32 pointers or 255 octets. `DnsLimits.SurvivesExactly` gives the exact condition for every message, by counting
  pointers beside the compression table; `DnsLimits.DeepNameIsLost` is such a message, a name of 33 labels asked
  for after its suffixes. Names of at most 32 labels always survive (`DnsRoundTrip.RoundTrip`).
- A TXT value that does not fit still removes the old one, so the record loses a value that was there.
  `TxtRecord.ValueLost` gives the calls; `TxtRecord.KeepsLastFittedExactly` says when this does not happen.
- The RAOP status flags chosen for a PIN or password do not reach the record, because the default flags are set
  again later. `TxtRecord.PinFlagsAreLost` shows it for one setting; they survive exactly if no PIN or password is
  set or the default happens to be the same text (`TxtRecord.PinFlagsKeptExactly`).
- A service whose name fills its 63 bytes and ends in " (2)" is renamed to itself when that name turns out to be taken,
  and one that ends in a higher number comes back to it later. `MdnsNames.TakenInstanceName` and
  `MdnsNames.InstanceNameReturnsExactly` say exactly when; `MdnsNames.ConflictKeepsTakenName` is such a name.
- AirShow payloads of 2^31 - 16 bytes or more and CASTV2 payloads of 2^31 bytes or more do not come out as they
  went in, because lengths pass through 32-bit signed integers (`AirShowStream.WholeFrameExactly`,
  `CastGate.FrameWholeExactly`). A bare AirShow header with such a length is enough to stop the reader
  (`AirShowStream.HeaderWedgesExactly`).

## Model

| member | source | states |
|---|---|---|
| DnsName.WalkIsBounded | src/discovery/DnsMessage.cpp:41-67 | on any bytes, from any position, an accepted name has labels of 1 to 63 octets and stays within 255 |
| DnsName.EncodeNameKeepsTable | src/discovery/DnsMessage.cpp:104-119 | while a name is being written every suffix that can still be looked up spells its key; each pointer goes to an earlier literal label |
| DnsName.EncodeNameTableOk | src/discovery/DnsMessage.cpp:104-119 | between names every remembered offset is below 0x3FFF and below the end, and decodes to its key |
| DnsName.TableExtends | src/discovery/DnsMessage.cpp:98-119 | bytes appended later never disturb a registered name |
| DnsName.EndOfEncoded | src/discovery/DnsMessage.cpp:41-67 | the reader's cursor moves over exactly the bytes the writer put out for a name |
| DnsHops.WalkAt | src/discovery/DnsMessage.cpp:41-67 | from a remembered label readName succeeds exactly while pointers and octets stay within its two budgets, and then reads the name the table promises |
| DnsHops.NameDepthsOk | src/discovery/DnsMessage.cpp:104-119 | the pointer counts kept from the names alone while writing are the numbers of pointers in the bytes |
| DnsHops.NameRoundTrip | src/discovery/DnsMessage.cpp:41-119 | a name, written over any good table, reads back equal up to ASCII case if it needs at most 32 pointers and 255 octets, and is refused otherwise; table and pointer counts are good afterwards |
| DnsName.NeverLonger | src/discovery/DnsMessage.cpp:104-119 | a compressed name is never longer than the plain one |
| DnsName.KeyInjective | src/discovery/DnsMessage.cpp:144-153 | two names share a table key if and only if sameName calls what the wire carries of them equal |
| DnsRoundTrip.RecordRoundTrip | src/discovery/DnsMessage.cpp:69-141 | a record of any type whose names are readable is read back field by field from where it was written and leaves the table good; otherwise it is refused |
| DnsRoundTrip.ParsesExactly | src/discovery/DnsMessage.cpp:212-257 | parse of serialize gives a message with fitting counts and rdata back, names equal up to case, exactly when every name is readable where it is written, and fails as a whole otherwise |
| DnsRoundTrip.RoundTrip | src/discovery/DnsMessage.cpp:212-257 | so every message whose names have at most 32 labels and 255 octets and whose counts and rdata fit survives |
| DnsLimits.ParsedIsBounded | src/discovery/DnsMessage.cpp:212-238 | whatever bytes are accepted, every name is bounded, every record has only the fields of its type: target, priority, weight and port or rdata |
| DnsLimits.CompressionNeverCosts | src/discovery/DnsMessage.cpp:240-257 | a serialized message is never longer than without compression |
| DnsLimits.SurvivesExactly | src/discovery/DnsMessage.cpp:212-257 | for every message: it arrives as it was sent if and only if counts and rdata fit 16 bits and no name, as the table stands when it is written, needs more than 32 pointers or 255 octets |
| DnsLimits.LabelLimitIsTight | src/discovery/DnsMessage.cpp:50-56 | a bounded name survives a message that also names all its suffixes if and only if it has at most 32 labels |
| DnsLimits.DeepNameIsLost | src/discovery/DnsMessage.cpp:50-56 | a concrete message the writer produces and the reader refuses |
| DnsLimits.CompareNames | src/discovery/DnsMessage.cpp:182-190 | the comparison loop decides equality of the case-folded names |
| Bytes.MostSignificantFirst | src/discovery/DnsMessage.cpp:12-26 | numbers of two and four octets are written and read with the most significant octet first |
| DnsWire.HeaderOnWire | src/discovery/DnsMessage.cpp:240-247 | ID, flags and the four counts, mod 2^16, stand at octets 0, 2, 4, 6, 8 and 10 |
| DnsWire.SectionsOnWire | src/discovery/DnsMessage.cpp:240-257 | questions, answers, authorities and additionals follow in this order with nothing in between |
| DnsWire.QuestionOnWire | src/discovery/DnsMessage.cpp:248-252 | behind the name stand type and class, the top bit of the class being the wish for a unicast reply |
| DnsWire.RecordOnWire | src/discovery/DnsMessage.cpp:121-141 | behind the name stand type, class with the flush bit, TTL, the length of the rdata and that rdata, at RFC 1035's places |
| DnsWire.RdataOnWire | src/discovery/DnsMessage.cpp:128-137 | a name for PTR; priority, weight, port and a name for SRV, in RFC 2782's order; else the bytes of the record |
| DnsWire.NameOnWire | src/discovery/DnsMessage.cpp:104-119 | a name is a zero octet, a 14-bit pointer to where it is known to stand, or a length octet, that many octets and the rest of the name |
| DnsCodec.RecordKeepsTable | src/discovery/DnsMessage.cpp:121-141 | filling in RDLENGTH after the names were registered leaves every table entry true |
| DnsCodec.Writer.Name | src/discovery/DnsMessage.cpp:104-119 | the label loop appends exactly the specified encoding, updates the table accordingly and keeps the table invariant |
| DnsCodec.Writer.Record | src/discovery/DnsMessage.cpp:121-141 | the record is appended with its length patched in afterwards; output and table are those of the specification |
| DnsCodec.ReadNameAt | src/discovery/DnsMessage.cpp:41-67 | the cursor loop terminates on every input and returns what the specification reads |
| DnsCodec.ReadRecordAt | src/discovery/DnsMessage.cpp:69-96 | the record reader stays within the data and returns what the specification reads, failures included |
| DnsCodec.ParseMessage | src/discovery/DnsMessage.cpp:212-238 | the parsing loops return the specified message or fail exactly when it does |
| DnsCodec.SerializeMessage | src/discovery/DnsMessage.cpp:240-257 | the writer loops produce the specified bytes |
| TieBreak.CompareAntisymmetric | src/discovery/MdnsResponder.cpp:73-86 | swapping the two record sets negates the result, so of two probers with different data exactly one defers |
| TieBreak.CompareTransitive | src/discovery/MdnsResponder.cpp:73-86 | the comparison is transitive |
| TieBreak.CompareZero | src/discovery/MdnsResponder.cpp:73-86 | a tie means exactly the same multiset of class, type and canonical rdata |
| TieBreak.ComparePermutes | src/discovery/MdnsResponder.cpp:73-86 | the order in which either set is listed does not matter |
| TieBreak.CanonicalSurvives | src/discovery/DnsMessage.cpp:192-205 | canonical rdata is the same for a record and for what arrives of it, even when compression changed letter case |
| MdnsDuel.CanonicalOctets | src/discovery/DnsMessage.cpp:192-205 | the octets compared: SRV's three numbers in order, names as lower-case labels with their lengths, else the rdata |
| MdnsDuel.EarlierSetLoses | src/discovery/MdnsResponder.cpp:71-86 | with both sets put in any sorted order, ours loses if and only if at the first difference our record is the earlier one by class, type and octets, or we have none left |
| MdnsDuel.HostGivesWay | src/discovery/MdnsResponder.cpp:578-592 | a probing host whose set is the earlier one starts over in exactly a second; otherwise a probe changes nothing about the host |
| MdnsDuel.ServiceGivesWay | src/discovery/MdnsResponder.cpp:578-592 | the same for each service and its SRV and TXT |
| MdnsDuel.LowerAddressWaits | src/discovery/MdnsResponder.cpp:71-86 | of two hosts with one address each the one with the lower address waits |
| MdnsRecords.CurrentRecordsExact | src/discovery/MdnsResponder.cpp:291-303 | the records answered for are the announced host's and all announced services' and nothing of a group still probing |
| MdnsAnswer.AnswersExact | src/discovery/MdnsResponder.cpp:479-499 | the answers are, each once, exactly the current records some IN or ANY question wants and the querier does not know, plus the NSEC for a type the host lacks |
| MdnsAnswer.AdditionalsComplete | src/discovery/MdnsResponder.cpp:543-568 | for every PTR answer with a current SRV, that SRV, its TXT and its host's A and NSEC are among answers and additionals; no additional is an answer or repeated |
| MdnsQuery.LegacyKeepsIdentity | src/discovery/MdnsResponder.cpp:503-517 | a legacy reply echoes ID and questions and carries, with cache-flush cleared and TTL at most 10, the same records in the same order as the reply a modern querier would get |
| MdnsResolve.TypeQueryResolves | src/discovery/MdnsResponder.cpp:468-568 | asked for a type, a responder with a live service of it replies with a PTR to the instance, an SRV with its port and the host as target, a TXT that reads string by string as its entries of at most 255 bytes, and A records that read as exactly the addresses of the interface, all with the right TTL and flush bit, also to a legacy querier |
| MdnsResolve.AddedServiceResolves | src/discovery/MdnsResponder.cpp:151-568 | and port, type and entries are those given to addService, after any run that leaves the service alone |
| MdnsResolve.KnownAnswersAreLeftOut | src/discovery/MdnsResponder.cpp:570-575 | a current record that is asked for is answered if and only if the query does not list it with at least half its TTL left |
| MdnsResolve.ReplyIsRouted | src/discovery/MdnsResponder.cpp:519-539 | unicast only for a non-probe whose questions all want it or that came to us alone; at once for unique answers, 20 to 120 ms for shared ones, 400 to 500 ms if more known answers are to come |
| MdnsResolve.AddressesNamed | src/discovery/MdnsResponder.cpp:273-289 | on a known interface exactly its own addresses are named, else those of all interfaces |
| MdnsListing.MissingTypeIsAnswered | src/discovery/MdnsResponder.cpp:492-497 | a question for the host of a type nothing here has is answered with an NSEC whose bitmap has the bit of A and no other |
| MdnsListing.TypesAreListed | src/discovery/MdnsResponder.cpp:248-250 | the enumeration of types names the type of every live service |
| MdnsQuery.BuildAnswers | src/discovery/MdnsResponder.cpp:474-499 | the nested loops with their nameKnown and typeKnown flags compute the specified answers and the all-unicast flag |
| MdnsQuery.AddAdditionals | src/discovery/MdnsResponder.cpp:543-568 | the additional-record loops compute the specified list |
| MdnsQuery.AnswerQuery | src/discovery/MdnsResponder.cpp:468-539 | what is sent, to whom and within which delay is the specified reply: silence, a legacy reply or a scheduled one |
| MdnsPackets.SplitConserves | src/discovery/MdnsResponder.cpp:89-113 | the packets' answers and additionals concatenate to the original ones, answers first; each packet repeats header and questions, is non-empty and at most 1400 bytes unless it holds one record |
| MdnsPackets.PacketsAreFull | src/discovery/MdnsResponder.cpp:89-113 | no packet is closed while what the next one starts with would have fitted in 1400 bytes, and a response that fits goes out whole |
| MdnsPackets.PacketsArrive | src/discovery/MdnsResponder.cpp:89-113 | every packet of a message that fits parses again to the records put into it |
| MdnsPackets.ToPackets | src/discovery/MdnsResponder.cpp:89-113 | the loop produces the serialization of exactly those packets |
| MdnsProbe.ActKeeps | src/discovery/MdnsResponder.cpp:336-376 | one tick, API call, conflict or lost tie-break keeps the probing invariant, which ties every group's counters and its announced flag to the probes logged since it last began |
| MdnsProbe.ProbingIsSafe | src/discovery/MdnsResponder.cpp:336-376 | in every run a group is announced only with exactly three probes for its name logged since probing last began, undisturbed, 250 ms apart, and going live 250 ms after the last, a service only while the host was live; the timer runs while anything is unannounced |
| MdnsNames.HostNamesDiffer | src/discovery/MdnsResponder.cpp:228-232 | host names with different numbers are different, letter case aside |
| MdnsNames.InstanceNamesDiffer | src/discovery/MdnsResponder.cpp:238-242 | instance names with different numbers are the same if and only if one has no number, fills its label and ends in the other's text |
| MdnsNames.TakenHostName | src/discovery/MdnsResponder.cpp:596-634 | if somebody else answers for the host name it is given up while being claimed, kept but claimed anew when established; no other response touches it |
| MdnsNames.TakenInstanceName | src/discovery/MdnsResponder.cpp:596-634 | the same for each instance name, except that a name that fills its label and ends in " (2)" is replaced by itself |
| MdnsNames.HostNameNeverReturns | src/discovery/MdnsResponder.cpp:228-232 | in any run a host name once left is never taken again |
| MdnsNames.InstanceNameReturnsExactly | src/discovery/MdnsResponder.cpp:238-242 | a service that is not renamed can come back to a name it gave up if and only if the name has no number, fills its label and ends in one |
| MdnsNames.ConflictKeepsTakenName | src/discovery/MdnsResponder.cpp:238-242 | such a name, and a conflict that leaves it as it is |
| MdnsReachable.ResponseIsRun | src/discovery/MdnsResponder.cpp:596-634 | handling a response, with all clashes found before any name changes, is a run of single conflicts, one for each clashing name, with the log to match |
| MdnsReachable.QueryIsRun | src/discovery/MdnsResponder.cpp:578-592 | handling another prober's query is a run of single deferrals, one for each name that loses, with the log to match |
| MdnsReachable.RenameIsRun | src/discovery/MdnsResponder.cpp:163-170 | renaming everything is a run of single renames |
| MdnsReachable.UpdateTxtIsRun | src/discovery/MdnsResponder.cpp:172-184 | changing a TXT value is a run of single updates, each entering a new generation if announced |
| MdnsReachable.PacketsKeepProbingSafe | src/discovery/MdnsResponder.cpp:468-634 | the probing invariant, announced flags included, survives every query and every response |
| MdnsReachable.RenameKeepsProbingSafe | src/discovery/MdnsResponder.cpp:163-170 | and every renaming |
| MdnsProgress.EveryNameGoesLive | src/discovery/MdnsResponder.cpp:344-376 | from any state of any run, without conflicts and with ticks at most a fixed gap apart, every group is announced by a deadline computed from the next probe times |
| MdnsAnnounce.LoggedProbesGoOut | src/discovery/MdnsResponder.cpp:378-413 | every probe the log counts is a question for exactly that name, multicast on every interface |
| MdnsAnnounce.ProbesOnWireAreLogged | src/discovery/MdnsResponder.cpp:344-413 | every probe a tick puts on the wire is in the log; announcements ask nothing |
| MdnsAnnounce.TickAsksWhatItLogs | src/discovery/MdnsResponder.cpp:344-413 | on each interface the names asked for are the logged probes, one for one and in order |
| MdnsSpoken.ServiceProbeClaims | src/discovery/MdnsResponder.cpp:401-413 | every probe for a service asks for its name alone on every interface and carries the SRV and TXT it would have |
| MdnsSpoken.HostProbeClaims | src/discovery/MdnsResponder.cpp:382-399 | every probe for the host carries exactly the addresses of the interface it goes out on |
| MdnsSpoken.LiveServiceIsAnnounced | src/discovery/MdnsResponder.cpp:430-444 | a service going live is introduced on every interface with port, entries and that interface's addresses, and copies are scheduled for one and three seconds later |
| MdnsSpoken.LiveHostIsAnnounced | src/discovery/MdnsResponder.cpp:415-428 | the same for the host and its addresses |
| MdnsSpoken.UpdateIsAnnounced | src/discovery/MdnsResponder.cpp:172-184 | a changed value of a live service goes out at once and twice more |
| MdnsSpoken.CopyIsSilentExactly | src/discovery/MdnsResponder.cpp:430-444 | in every run a scheduled copy is silent if and only if its service has been renamed, changed, withdrawn or made to start over since |
| MdnsSpoken.HostCopyIsSilentExactly | src/discovery/MdnsResponder.cpp:415-428 | a copy for the host is silent if and only if its name has met a conflict since |
| MdnsSpoken.EveryGoodbyeGoesOut | src/discovery/MdnsResponder.cpp:447-452 | every announced service withdraws its records on every interface |
| MdnsSpoken.RenamedExact | src/discovery/MdnsResponder.cpp:163-170 | renaming keeps type, port and entries, takes the new name without a number and claims it after the delay |
| MdnsAnnounce.ServiceCopiesAreFresh | src/discovery/MdnsResponder.cpp:430-444 | in every run a repeated announcement is silent or carries, on every interface, exactly the service's name, type, port and TXT at the time it was scheduled |
| MdnsAnnounce.HostCopiesAreFresh | src/discovery/MdnsResponder.cpp:415-428 | a repeated host announcement is silent or carries, on every interface, exactly the records first announced |
| MdnsAnnounce.GoodbyeWithdraws | src/discovery/MdnsResponder.cpp:447-452 | a goodbye withdraws, with TTL 0, every announced record of the service but the shared type pointer, and nothing else |
| MdnsResponder.MdnsResponder.ProbeTick | src/discovery/MdnsResponder.cpp:344-376 | the timer's loop over host and services changes state as specified, multicasts the probes and first announcements, schedules the repeats, stops the timer when nothing was probing, and stays a run whose logged probes are, on every interface, exactly those sent over the object's life |
| MdnsResponder.MdnsResponder.HandleQuery | src/discovery/MdnsResponder.cpp:468-539 | a query from elsewhere is checked for a simultaneous probe, each lost tie restarting one group, and then answered from the new state; the object stays a run |
| MdnsResponder.MdnsResponder.HandleResponse | src/discovery/MdnsResponder.cpp:596-634 | each clashing name starts over once per packet, taking a new name only if it was still probing; the object stays a run |
| MdnsResponder.MdnsResponder.ResolveProbe | src/discovery/MdnsResponder.cpp:578-592 | every unannounced group whose records lose to the prober's defers for a second, and nothing else changes; the object stays a run |
| MdnsResponder.MdnsResponder.Add | src/discovery/MdnsResponder.cpp:151-161 | a new service under a number of its own starts probing after its random delay, the timer runs, and the object stays a run |
| MdnsResponder.MdnsResponder.RenameAll | src/discovery/MdnsResponder.cpp:163-170 | announced services say goodbye under the old name, then every service takes the new name, suffix 1, and probes anew; the object stays a run |
| MdnsResponder.MdnsResponder.UpdateTxt | src/discovery/MdnsResponder.cpp:172-184 | only services of the type change, in that key only; announced ones enter a new generation and are announced again; the object stays a run |
| MdnsHandlers.UpdateTxtExact | src/discovery/MdnsResponder.cpp:172-184 | services of the type then have the value under the key, every other entry as it was and in its place; other services are not touched |
| MdnsResponder.MdnsResponder.Shutdown | src/discovery/MdnsResponder.cpp:187-191 | every announced service says goodbye, all services are forgotten, the host stays |
| MdnsResponder.MdnsResponder.FireShot | src/discovery/MdnsResponder.cpp:415-444 | a scheduled copy that comes up is multicast if its name still stands as announced, and is dropped otherwise |
| MdnsExclusion.NoTie | src/discovery/MdnsResponder.cpp:73-86 | two probers with disjoint addresses never tie: one loses |
| MdnsExclusion.ProbeIsAnswered | src/discovery/MdnsResponder.cpp:468-539 | a live host answers a probe for its name without delay, by multicast, with a record the prober takes for a conflict |
| MdnsExclusion.StepKeeps | src/discovery/MdnsResponder.cpp:336-634 | every step of the two responders and the link, a late start included, keeps the timing invariant |
| MdnsExclusion.NeverBothHoldOneName | src/discovery/MdnsResponder.cpp:336-634 | in every run with delivery within 124 ms and timers at most 224 ms late, whenever either responder starts or starts again and with any third-party traffic, the two are never both announced under one host name |
| CastPacket.ParseBuilt | src/cast/CastStreamingReceiver.cpp:175-190 | what a sender puts into a packet, with or without reference frame and extensions, is what is read |
| CastPacket.ExpandExact | src/cast/CastStreamingReceiver.cpp:41-46 | an 8-bit frame ID expands to the true one exactly within 128 behind and 127 ahead |
| CastPacket.CryptTwice | src/cast/CastStreamingReceiver.cpp:259-275 | decryption undoes encryption, for any keystream of key and per-frame IV |
| CastWire.RtpFromWire | src/cast/CastStreamingReceiver.cpp:175-190 | key flag, frame byte and packet numbers are taken from octets 12 to 17 and the payload from behind them |
| CastWire.ExtensionFromWire | src/cast/CastStreamingReceiver.cpp:184-189 | an extension is skipped by the ten low bits of its first two octets |
| CastWire.XorIsBitwise | src/cast/CastStreamingReceiver.cpp:266 | the mask is combined bit by bit |
| CastWire.IvOctets | src/cast/CastStreamingReceiver.cpp:259-266 | the initialisation vector is the mask with the frame number, most significant octet first, combined into octets 8 to 11 |
| CastWire.CryptOctets | src/cast/CastStreamingReceiver.cpp:268-275 | octet i of a frame is combined with octet i of the keystream |
| CastStream.HandleRtpKeeps | src/cast/CastStreamingReceiver.cpp:164-212 | any datagram keeps the window: checkpoint at most newest at most checkpoint + 120, buffered frames in between, bitmaps counted right, no complete frame waiting at the front |
| CastStream.SkipKeeps | src/cast/CastStreamingReceiver.cpp:296-328 | so does every tick |
| CastComplete.PacketIsTaken | src/cast/CastStreamingReceiver.cpp:192-211 | whatever arrived before: a packet of a frame in the window that agrees on the number of packets is in the buffer afterwards or its frame delivered, and the newest frame known is updated |
| CastComplete.OutsideChangesNothing | src/cast/CastStreamingReceiver.cpp:192-193 | a packet outside the window changes nothing but the sequence numbers |
| CastComplete.CheckpointReaches | src/cast/CastStreamingReceiver.cpp:164-253 | once every packet of frames 0 to n has arrived in the window, in any order, with any repeats and losses besides, the checkpoint has reached n |
| CastComplete.ReassemblyIsComplete | src/cast/CastStreamingReceiver.cpp:164-291 | and without a skip frames 0 to n have been delivered, in order, as the sender had them |
| CastRefinement.EndToEnd | src/cast/CastStreamingReceiver.cpp:164-291 | under any loss, repetition and reordering every buffered chunk is the sender's and every delivered frame is its plaintext and key flag |
| CastRefinement.OutputIsOrdered | src/cast/CastStreamingReceiver.cpp:238-328 | for any traffic delivered IDs strictly increase up to the checkpoint, and a video frame after a gap is a key frame |
| CastRefinement.LosslessWithoutSkips | src/cast/CastStreamingReceiver.cpp:238-291 | without a skip the output is exactly the sender's frames 0 to checkpoint |
| CastRefinement.SkipDelivers | src/cast/CastStreamingReceiver.cpp:313-321 | a skip lands on the lowest buffered frame that is complete and, for video, a key frame, and delivers it |
| CastRefinement.SkipsOnlyAfterStall | src/cast/CastStreamingReceiver.cpp:296-310 | in every run frames are given up only when the checkpoint has stood still for max(targetDelayMs, 250) ms |
| CastProgress.StalledStreamMoves | src/cast/CastStreamingReceiver.cpp:296-338 | with ticks at most a gap apart, a stream that stands before an incomplete frame with one to resume at buffered moves its checkpoint within the stall limit and two gaps, for audio whatever arrives, for video under an honest sender |
| CastProgress.StallAsksExactly | src/cast/CastStreamingReceiver.cpp:296-328 | a tick asks for a key frame if and only if video stands with frames behind the next one, the stall limit has passed, and no whole key frame is held |
| CastRefinement.PliStep | src/cast/CastStreamingReceiver.cpp:238-328 | after any step a key frame request is pending exactly if one was or is made and no key frame was delivered |
| CastRefinement.PliUntilKeyFrame | src/cast/CastStreamingReceiver.cpp:238-328 | over any run a request stays pending until a key frame has been delivered |
| CastRefinement.ExtendedSeqExact | src/cast/CastStreamingReceiver.cpp:166-173 | over any run the extended sequence number reported is the largest true packet number received, mod 2^32, while arrivals stay within half the range |
| CastRefinement.BuiltIsHonest | src/cast/CastStreamingReceiver.cpp:175-192 | the datagrams a sender builds are those the refinement is about |
| CastReceiver.Receiver.HandleRtp | src/cast/CastStreamingReceiver.cpp:164-212 | the method, extension loop and in-place updates included, takes the state to the specified one and sends a report exactly when the checkpoint advanced |
| CastReceiver.Receiver.StorePacket | src/cast/CastStreamingReceiver.cpp:192-211 | one packet inside the window: new, duplicate, inconsistent or completing, with a report exactly when the checkpoint advanced |
| CastReceiver.Receiver.DeliverReadyFrames | src/cast/CastStreamingReceiver.cpp:238-253 | the loop hands over as many complete frames as follow each other and reports whether the checkpoint moved |
| CastReceiver.Receiver.DeliverFront | src/cast/CastStreamingReceiver.cpp:255-291 | one frame is concatenated, decrypted, taken out of the buffer and, unless its decryption fails, handed to the callback |
| CastReceiver.CallbackSees | src/cast/CastStreamingReceiver.cpp:255-291 | over any run the callback sees, in order of ID, exactly the frames that left the buffer and could be decrypted |
| CastReceiver.Receiver.SkipStalledFrames | src/cast/CastStreamingReceiver.cpp:296-328 | the stall clock, the skip and the picture-loss request as specified, with a report exactly when frames were given up or a request is new |
| CastHost.CastStreamingReceiver.RequestKeyFrame | src/cast/CastStreamingReceiver.cpp:121-128 | every video stream without a pending request gets one, reported at once; nothing else changes |
| CastNack.MissingExact | src/cast/CastStreamingReceiver.cpp:390-413 | the specified list of missing packets holds exactly what is missing strictly between checkpoint and newest frame, in order |
| CastNack.LossListExact | src/cast/CastStreamingReceiver.cpp:390-413 | the loss list, expanded by the sender, names only missing packets, in order and once; below 255 entries it names all of them |
| CastNack.FrameAfterExact | src/cast/CastStreamingReceiver.cpp:396-408 | an 8-bit frame ID in the list stands for exactly one frame after the checkpoint |
| CastNack.CollectLosses | src/cast/CastStreamingReceiver.cpp:390-413 | the nested loops with their cap produce that list |
| CastNack.CollectBits | src/cast/CastStreamingReceiver.cpp:405-407 | the bit vector marks which of the next eight packets are missing |
| CastNack.CollectAcks | src/cast/CastStreamingReceiver.cpp:414-418 | the two octets acknowledge exactly the complete frames among the 16 after checkpoint + 1 |
| CastRtcp.WalkCompound | src/cast/CastStreamingReceiver.cpp:217-233 | the receiver's length-field loop over a report visits exactly its 3 or 4 sub-packets and ends at the last byte |
| CastRtcp.CompoundRoundTrip | src/cast/CastStreamingReceiver.cpp:352-427 | every field of a report is read back, the report block exactly when a sender report was seen, PLI exactly when pending |
| CastRtcp.ReportTellsTheTruth | src/cast/CastStreamingReceiver.cpp:352-427 | from its bytes the sender recovers the checkpoint exactly if fewer than 256 frames it has sent are beyond it; the losses, counted on from the checkpoint, name only missing packets (all of them below the cap), and the acknowledged frames are exact |
| CastRtcp.SenderLearnsTheTruth | src/cast/CastStreamingReceiver.cpp:352-427 | within that window the checkpoint and missing packets worked out from the bytes alone are the true ones |
| CastRtcp.StampsRise | src/cast/CastStreamingReceiver.cpp:340-350 | timestamps of any run of reports increase if and only if none before the last was the largest 64-bit value, whatever the clock does |
| CastRtcp.StampReadsClock | src/cast/CastStreamingReceiver.cpp:340-350 | a stamp is seconds since 1900 and the fraction rounded down, unless that is no later than the last stamp |
| CastWire.ReportOnWire | src/cast/CastStreamingReceiver.cpp:352-427 | every octet of a report: receiver report, reference time, picture loss if wanted, and Cast feedback with its losses, at the places of RFC 3550, RFC 3611 and Cast |
| CastWire.ReportIsOn | src/cast/CastStreamingReceiver.cpp:352-427 | the fields are the state's: checkpoint byte, delay of at least 1, pending key frame, count and extended sequence number |
| CastWire.DelayIs | src/cast/CastStreamingReceiver.cpp:369-370 | the delay since the last sender report is in units of 1/65536 s |
| CastHost.CastStreamingReceiver.NextNtpTimestamp | src/cast/CastStreamingReceiver.cpp:340-350 | the clock reading, or one more than the last stamp |
| CastReporter.AppendPacket | src/cast/CastStreamingReceiver.cpp:59-63 | a length patched after the fact counts the words after the header |
| CastReporter.BuildReport | src/cast/CastStreamingReceiver.cpp:352-427 | the sub-packets appended one by one are the specified compound |
| CastReporter.FindReports | src/cast/CastStreamingReceiver.cpp:214-234 | the loop finds exactly the sender reports of the walked sub-packets and the middle 32 bits of their stamps |
| CastWire.SenderReportFromWire | src/cast/CastStreamingReceiver.cpp:221-228 | of a sender report the source and the low half of the seconds with the high half of the fraction are noted |
| CastHost.CastStreamingReceiver.SendRtcp | src/cast/CastStreamingReceiver.cpp:352-431 | nothing while the sender is not known; otherwise the specified compound goes out, feedback count and stamp advance, and the next report is due in 30 or 500 ms |
| CastHost.CastStreamingReceiver.OnTick | src/cast/CastStreamingReceiver.cpp:332-338 | stream by stream, a stall is handled with its report and a report that is due goes out |
| CastHost.CastStreamingReceiver.HandleRtcp | src/cast/CastStreamingReceiver.cpp:214-234 | every sender report found by the loop is recorded with its arrival in the stream it names, if there is one, and answered at once, in order |
| CastHost.EveryReportIsAnswered | src/cast/CastStreamingReceiver.cpp:214-234 | there is one reply for each report about a stream we have, and its bytes decode to a report block with that report's stamp |
| CastTiming.AdvanceIsReported | src/cast/CastStreamingReceiver.cpp:238-253 | at any point of any run an event that moves a stream's checkpoint sends a report at once that acknowledges it |
| CastTiming.ReportsAreRepeated | src/cast/CastStreamingReceiver.cpp:332-431 | a report that asks for packets is followed by another on the stream by the first tick 30 ms later, any other by the first tick 500 ms later |
| CastTiming.KeyFrameIsAskedFor | src/cast/CastStreamingReceiver.cpp:121-128 | a key frame newly wanted, by the application or by a stall, is asked for at once |
| CastHost.CastStreamingReceiver.OnDatagram | src/cast/CastStreamingReceiver.cpp:138-162 | a datagram from the expected sender is told apart as RTP or RTCP, led to its stream, and makes the sender known only if it names one |
| CastWire.KindsByOctets | src/cast/CastStreamingReceiver.cpp:49-56 | which octets make a datagram RTP or RTCP |
| CastWire.KindsAreApart | src/cast/CastStreamingReceiver.cpp:49-56 | no datagram is taken for both |
| CastWire.ReportLooksLikeRtcp | src/cast/CastStreamingReceiver.cpp:54-56 | every report is taken for RTCP |
| CastHost.StreamsAreIndependent | src/cast/CastStreamingReceiver.cpp:121-338 | in any run of a receiver each stream goes through exactly the run of the events that concern it, so all results on runs of one stream hold of every stream |
| CastHost.AllStampsRise | src/cast/CastStreamingReceiver.cpp:340-431 | over any run the timestamps read from all reports, of whichever stream, strictly increase until the largest value is used |
| TxtRecord.Buffer.Set | src/airplay/airshow_dnssd.c:63-89 | editing the buffer in place keeps it well formed within 1024 bytes and leaves the old entries without the key, in order, plus the new one if it fits |
| TxtRecord.Buffer.Remove | src/airplay/airshow_dnssd.c:69-78 | the deletion loop terminates and removes exactly the entries for the key |
| TxtRecord.MatchesExactly | src/airplay/airshow_dnssd.c:72-73 | what is removed for a key is the key alone or the key, "=" and anything |
| TxtRecord.SetIsUpdate | src/airplay/airshow_dnssd.c:61-89 | as a map: the key gets the value or is gone, no other key changes, the key occurs at most once |
| TxtRecord.SetKeepsOrder | src/airplay/airshow_dnssd.c:61-89 | other entries keep their order, a new value goes to the end |
| TxtRecord.SetFitsExactly | src/airplay/airshow_dnssd.c:80-82 | the key is found afterwards if and only if its entry has at most 255 bytes and all entries with their lengths at most 1024 |
| TxtRecord.EntriesOnWire | src/airplay/airshow_dnssd.c:83-88 | read by lengths, the buffer is the list of entries |
| TxtRecord.NoDuplicates | src/airplay/airshow_dnssd.c:61-89 | after any calls no key occurs twice |
| TxtRecord.KeepsLastFittedExactly | src/airplay/airshow_dnssd.c:69-82 | a reader always finds the last value that fitted if and only if no call that does not fit meets a key that is present |
| TxtRecord.ValueLost | src/airplay/airshow_dnssd.c:80-82 | two calls after which a value that fitted is gone |
| TxtRecord.RoomForAll | src/airplay/airshow_dnssd.c:97-139 | when all entries fit together the record holds each key's last value |
| TxtRecord.PinFlagsAreLost | src/airplay/airshow_dnssd.c:115-136 | with a PIN and default flags 0x4 the record reads 0x4, not the 0x8c chosen for the PIN |
| TxtRecord.PinFlagsKeptExactly | src/airplay/airshow_dnssd.c:115-136 | the chosen status flags reach the record if and only if no PIN or password is set or the default flags are the same text |
| AirShowStream.ChunkingIsIrrelevant | src/protocol/AirShowHandler.cpp:143-233 | the frames processed depend only on the concatenated bytes, handshake line included, for all inputs |
| AirShowStream.GreetingDecides | src/protocol/AirShowHandler.cpp:143-208 | however the bytes are cut, nothing is processed before the first newline, nothing ever after a bad greeting, and after a good one exactly the frames behind it |
| AirShowStream.TurnKeeps | sender/android/app/src/main/kotlin/com/airshow/airshow_sender/H264Encoder.kt:150-163 | every write of either thread, in any schedule, keeps the stream a sequence of whole frames plus at most one header, each thread's frames in order, for all payloads a thread can have |
| AirShowStream.Demultiplexes | src/protocol/AirShowHandler.cpp:123-233 | for any schedule, chunking and part of the bytes received, video and audio frames processed are prefixes of what each thread wrote, unchanged; with all bytes they are all frames before the first of 2^31 - 16 bytes or more, and if there is none they and what is still to be written are all |
| AirShowStream.WholeFrameExactly | src/protocol/AirShowHandler.cpp:211-226 | a complete frame comes out whole if and only if its payload is shorter than 2^31 - 16 |
| AirShowStream.HeaderWedgesExactly | src/protocol/AirShowHandler.cpp:211-226 | a bare header stops the reader for good if and only if its length is at least 2^31 - 16 and at most 2^32 - 16 |
| AirShowHandler.Handler.OnReadyRead | src/protocol/AirShowHandler.cpp:123-134 | the handler's buffer, state and frames after a read are the specified ones |
| AirShowHandler.Handler.HandleHandshake | src/protocol/AirShowHandler.cpp:143-208 | waits for the line, refuses a bad one and otherwise writes the acknowledgement and goes on with what followed it |
| AirShowHandler.Handler.HandleStreamingData | src/protocol/AirShowHandler.cpp:211-228 | the loop consumes every complete frame and stops where the size computation makes no progress |
| AirShowHandler.BuildFrameHeader | sender/android/app/src/main/kotlin/com/airshow/airshow_sender/H264Encoder.kt:36-44 | the sixteen bytes written field by field |
| AirShowStream.HeaderOnWire | sender/android/app/src/main/kotlin/com/airshow/airshow_sender/H264Encoder.kt:36-44 | type, flags, length, time in two's complement and two zeros at octets 0, 1, 2, 6 and 14 of sixteen |
| AirShowHandler.Encoder.OnOutputBufferAvailable | sender/android/app/src/main/kotlin/com/airshow/airshow_sender/H264Encoder.kt:128-166 | a picture becomes one frame on the stream, parameter sets are cached and sent with key frames; over the run what was written is the frames of all pictures |
| AirShowHandler.EncodedStreamArrives | sender/android/app/src/main/kotlin/com/airshow/airshow_sender/H264Encoder.kt:128-166 | encoder to receiver: for any codec output, audio, schedule of the two threads and chunking, the video frames processed are a prefix of the encoder's, in order and unchanged; with all bytes in and none too long, nothing written is missing |
| AirShowHandler.KeyFramesStandAlone | sender/android/app/src/main/kotlin/com/airshow/airshow_sender/H264Encoder.kt:137-155 | every key frame after the first parameter sets carries the latest of them in front, at its place in the order |
| AirShowHandler.EachPictureIsSent | sender/android/app/src/main/kotlin/com/airshow/airshow_sender/H264Encoder.kt:128-166 | every picture is one frame at its place in the order, marked if it is a key frame, timed in nanoseconds, its data unchanged behind the parameter sets of a key frame |
| AirShowHandler.NothingElseIsSent | sender/android/app/src/main/kotlin/com/airshow/airshow_sender/H264Encoder.kt:124-141 | empty buffers and parameter sets send nothing |
| CastGate.FramingRoundTrip | src/protocol/CastSession.cpp:89-126 | framed messages come out in order with nothing left over |
| CastGate.FrameWholeExactly | src/protocol/CastSession.cpp:107-113 | a payload, the empty one included, comes out as it went in if and only if its length is below 2^31 |
| CastGate.PayloadOnWire | src/protocol/CastSession.cpp:626-645 | a payload has its length in front, in four octets with the most significant first |
| CastGate.GatedExactly | src/protocol/CastSession.cpp:133-145 | what waits for approval is media, mirroring, a string LAUNCH to the receiver and a string CONNECT to anything but receiver-0 |
| CastGate.NothingTakesOverUnasked | src/protocol/CastSession.cpp:133-210 | in any run, until approval, no such message has been handled |
| CastGate.EachMessageMeets | src/protocol/CastSession.cpp:147-175 | at any point of any run: such a message is held and prompted for once, or handled if granted at once; any other is handled on arrival and prompts nothing; after approval all are handled, after refusal none |
| CastGate.BytesTakeOverNothing | src/protocol/CastSession.cpp:89-175 | the same of whatever bytes come in |
| CastGate.GateOverRuns | src/protocol/CastSession.cpp:147-210 | before the decision exactly the ungated messages are handled and the gated ones held; approval handles the held ones, in order, once, then everything as it comes; refusal ends all handling; one prompt at most |
| CastGate.GatedInOrder | src/protocol/CastSession.cpp:133-210 | gated messages are handled never before approval and after it exactly as received; ungated ones always, unless refused |
| CastGate.ApprovalGate | src/protocol/CastSession.cpp:89-210 | over the wire, for any chunking, any part of the bytes in and any moment of decision, a synchronous one included: handled, held and prompted are exactly as the messages complete so far and the deciding input say |
| CastGate.GateIsDetermined | src/protocol/CastSession.cpp:89-210 | after any inputs the whole gate follows from the messages complete so far and the verdict, whose moment and content are told from the inputs alone |
| CastSession.Session.OnReadyRead | src/protocol/CastSession.cpp:89-126 | the framing loop dispatches the parsed payloads in order and keeps the rest |
| CastSession.Session.DispatchMessage | src/protocol/CastSession.cpp:147-175 | drop, hold and ask, or handle |
| CastSession.Session.OnApprovalResolved | src/protocol/CastSession.cpp:193-210 | re-dispatching the held messages one by one handles them all, in order |
| CastSession.EachRequestAnsweredOnce | src/security/SecurityManager.cpp:121-217 | in any run of checks, timeouts and decisions no request is answered twice, none is both waited for and answered, and each open one has been prompted for once |
| CastSession.AnswerIsFirstWord | src/security/SecurityManager.cpp:121-217 | in any run a request is answered yes at once if approval is off or its device trusted, otherwise with the user's first decision on it, or no if its thread gave up before; until then it has no answer |
| CastSession.TrustIsGiven | src/security/SecurityManager.cpp:192-217 | a device comes to be trusted only by the user's yes to a waiting request of it, an anonymous one never |
| CastSession.LateYesStillTrusts | src/security/SecurityManager.cpp:143-217 | a thread that waited in vain stays refused, but a late approval still makes its device trusted and the next request is granted unasked |
| CastSession.SecurityManager.CheckConnectionAsync | src/security/SecurityManager.cpp:166-183 | the callback runs at once when approval is off or the device trusted, else it is stored under a new number and the user is prompted for that number |
| CastSession.SecurityManager.ResolveApproval | src/security/SecurityManager.cpp:192-217 | a decision answers the open request with that number unless its thread has given up, trusts an approved device of a waiting thread, and does nothing for a number that is not open |
| CastSession.SecurityManager.ExpireWait | src/security/SecurityManager.cpp:146-155 | a wait that runs out refuses the thread once and leaves its request open for a decision |

## Left out

- TieBreak: `std::sort` is an insertion sort; only sortedness and contents matter.
- MdnsExclusion.NeverBothHoldOneName: packets travel as messages, not bytes, each responder has one interface, and the longest delivery and lateness are constants (any shorter ones are covered). Service types have at least two labels. Services are not covered: one that waits for its host stays silent.
- MdnsProbe: random delays are parameters of the steps and interfaces are a fixed list.
- MdnsAnnounce.ServiceCopiesAreFresh: holds whenever a scheduled copy fires; that it fires one and three seconds later is recorded in the schedule, the timers themselves are not modelled.
- MdnsResolve.TypeQueryResolves: labels have 1 to 63 bytes, as on the wire; what a type with longer labels, or a base name of nothing but stray UTF-8 continuation bytes, leads to is not said.
- MdnsNames.TakenInstanceName: numbers start at 1 and do not wrap around.
- MdnsResponder: rescanning of interfaces with the announcement it may cause, sockets, timers, and the split into datagrams (that is MdnsPackets).
- DnsMessage: parseName, toString and the builders makePtr to makeNsec, except as the records they make.
- DnsCodec.Writer.Name: label copying and byte pushes are sequence appends.
- CastStream: AES itself (any keystream of key and IV).
- CastRefinement.EndToEnd: an arriving packet lies at most 128 frames behind and 127 ahead of the newest, the range in which its 8-bit ID can be expanded at all.
- CastReceiver.Receiver.SkipStalledFrames: the zero time point that means "not stalled" is an option, so time zero is an ordinary time. All times are whole microseconds.
- CastReceiver.Receiver.DeliverFront: for which frames the library refuses to decrypt is a parameter, and the checkpoint moves on as in the program.
- CastHost.CastStreamingReceiver.SendRtcp: the socket, and the sender's address beyond whether it is known. What the clocks say around a report is a parameter.
- CastHost.CastStreamingReceiver: its streams are values stepped by the functions of CastStream; one stream as an object updated in place is CastReceiver.Receiver. Starting and stopping.
- CastRtcp: what the sender does with a report beyond decoding it.
- TxtRecord.RoomForAll: the constant values of the RAOP record come from a header that is not part of this model; they are parameters. Keys are C strings without '='.
- AirShowStream: the JSON check of the HELLO line and the text of the acknowledgement are parameters; pushing buffers into the pipeline, audio caps and keepalives end at the list of frames processed.
- AirShowStream.ChunkingIsIrrelevant: the overflow of the 32-bit sum for lengths just below 2^31 has no defined result in C++; it is treated like a sum that is not positive.
- AirShowHandler.Encoder: codec configuration and the audio recording loop; audio frames enter as the audio thread's list.
- CastGate: protobuf and JSON parsing are a parameter; held messages are kept as messages, not as bytes. What the namespace handlers do.
- CastSession.Session.OnReadyRead: the buffer's size is not truncated to 32 bits, so buffers of 4 GiB and more are not described faithfully.
- CastSession.SecurityManager.CheckConnection: that a request reaches the main thread through its event queue; it is open as soon as it is made. Request numbers stand for unique identifiers.
- GStreamer pipelines, user interface, Miracast, DLNA, certificates and the discovery back ends of other systems: no hard property of their own.
