# AVB observer: model and proofs

The repository reads packet captures of AVB networks, decodes the protocol frames, puts the packets in capture order,
runs protocol observers over them (MRP registrars, MSRP, MVRP, ADP, ACMP with Milan listener sinks, MAAP, gPTP), keeps an
event log that is streamed to clients while it grows, and lets the front end replay recorded state histories up to a cursor
time. This project models that core and proves what it keeps, over every input, every run and every interleaving.

`dafny verify dfyconfig.toml` checks everything.

## Layout

- `Wrappers`, `Bytes`: results, powers of two, bytes, big-endian numbers and the bounds-checked reader.
- `MrpEncoder`, `MrpParser`, `MrpLayout`, `MrpRoundTrip`, `MrpExpand`, `MrpMeaning`: the MRP wire codec (section 10.8 of IEEE
  802.1Q), the layout the decoder accepts, the generator's encoder against the decoder, and which values a frame declares.
- `Binary64`: the nearest double of an integer (section 4.3.1 of IEEE 754-2019, ties to even).
- `JsonText`, `JsonWriting` (file `JsonWriter`), `JsonParsing` (file `JsonParser`), `JsonSpelling`, `JsonGrammar`,
  `JsonRoundTrip`: streaming printer against recursive-descent parser, and the grammar of what the parser accepts.
- `StableSort`, `Pcap`, `CaptureFile`, `PcapMerge`: classic captures in every byte order, resolution and link type, the merge
  of many, and tracing each merged packet to its source.
- `Sessions` (file `Session`), `ParallelDecode`, `StatePass`, `LiveStream`: the shared event log, partitioned decode, the
  ordered dense log, and a reader racing the analyzer.
- `History`: capped transition histories and their replay.
- `Shared` (file `SharedModel`), `Msrp`, `Mvrp`, `Adp`, `Maap`, `Connections`, `MilanSink`: the protocol observers; a class
  per module of the source, each method proved to compute a step function, each step function proved to keep the invariants.
- `Observers`: all observers that share state, composed, under arbitrary interleaving.
- `RegistrarTruth`, `MsrpMeaning`, `ConnectionMeaning`, `SinkMeaning`, `BmcaMeaning`, `PdelayMeaning`, `FlowMeaning`: what each
  machine shows after any run, read off its inputs alone, with the numbers of the wire and of the rules written out.
- `Bmca`, `Pdelay`: the gPTP observer's master clock comparison and peer delay accounting.
- `RateLimit`, `FlowGuard`, `FlowAlerts`, `Traffic`: token buckets, the sliding minute per actor and its alerts, the
  sixty-slot ring.

Times are integer nanoseconds of capture time, except in `RateLimit`, where they are real seconds. A clock that the source
reads is a parameter. Entities, streams and ports are natural numbers.

## Where a promise holds only under a condition

Each of these is proved as an equivalence, or with the counterexample beside the positive result.

- An MRP PDU decodes to what was encoded if and only if every vector has events or its LeaveAll flag, has at most 4096
  events, attribute lengths are 1 to 64, and there are at most 256 messages (`MrpRoundTrip.MsrpRoundTrip`); an empty vector
  without LeaveAll is the end mark. A three-packed byte from 216 on yields an event outside the six, and 216 to 251 yields
  the code of LeaveAll (`MrpRoundTrip.ThreePackedAlias`).
- A JSON tree of integers survives if and only if it nests at most 64 deep, its text has at most 1 MiB and every integer in
  it is a double (`JsonRoundTrip.JsonRoundTrips`): the writer prints every digit, the parser stores a double, and
  9007199254740993 comes back as 9007199254740992 (`JsonRoundTrip.IntegerRounds`).
- A text is accepted with a value if and only if it is a spelling of that value, with any white space and any escapes, at
  most 64 deep and of at most 1 MiB (`JsonGrammar.ParseExact`).
- A packet's time survives a microsecond capture if and only if it is a multiple of 1000 ns (`CaptureFile.CaptureReadsBack`).
- A merged packet's timestamp survives if and only if its seconds fit 32 bits (`PcapMerge.MergedFileReadsBack`); provenance is
  exact if and only if there are at most 65536 sources and each is ordered in time (`PcapMerge.ProvenanceExact`).
- Event times never decrease if and only if the packets of interest do not lie on both sides of the first record's timestamp
  (`StatePass.EventTimesOrdered`): earlier ones wrap around.
- After the ticks of one packet a sink agrees with ADP exactly unless the sinks ticked first and the validity its talker
  announced has run out by that packet (`Observers.RoundKnowsTalker`); the engine walks its modules in the order of an
  unordered table. A sink that settled on stream 0 is never checked against MSRP: after a tick it agrees if and only if its
  talker departed, its registration timer ran out, or MSRP happens to say the same (`MilanSink.ZeroStreamUnchecked`). Runs
  in which SETTLED_NO_RSV and SETTLED_RSV_OK are both wrong are in `Observers.ZeroStreamRuns`.
- WITHDRAWN depends on history; ESTABLISHED does not (`Msrp.WithdrawnDependsOnHistory`, `Observers.EveryRunOk`).
- A connection is CONNECTED if and only if a confirmation or a rejected disconnect stands (`Connections.ConnectedMeaning`).
  A run in which nothing ever confirmed it is in `Connections.RejectedDisconnectConnects`.
- Once the Sync sender's vector has aged out the verdict is CONVERGED if and only if the best announcer left names the
  grandmaster Sync is still attributed to (`Bmca.ConvergedOutlivesVector`); `Bmca.ConvergedRun` is a run that gets there.
- Port keys keep 48 bits of a clock identity (`Bmca.PortKeyCollides`).
- The comment at `backend/src/util/ratelimit.h:53` says pruned actors carry no state. For an owner with a rate and a burst
  that is so in every table if and only if the caller who prunes has at least that burst and the idle limit refills it
  (`RateLimit.PruneExact`). The server's three bursts share one table, and a run of 8194 calls in which a login attempt hands
  8193 users a token back is in `RateLimit.PruneForgives`.
- The delay promised to a refused call is exact only for bursts of at least one token (`RateLimit.RetryAfterExact`).
- The alert cooldown is promised per kind (`backend/src/sec/flowguard.cpp:76`) but one slot remembers the last kind only. For
  traffic in time order any two alerts of a kind are two minutes apart if and only if no other kind's alert lies between two
  of that kind that are closer (`FlowAlerts.CooldownExact`). A request keeps the promise if and only if every rule it breaks
  whose own last alert is still young is the first it breaks and the kind remembered (`FlowAlerts.RequestKeepsPromise`); one
  large upload to a climbing path, sent twice, does not (`FlowAlerts.CooldownDefeated`).
- `backend/src/sec/flowguard.h:67` calls `winStart` the bucket of the first slot; the code uses it as that of the last one,
  and the model follows the code.
- After a hit the sixty-slot ring shows the log if and only if the hit is not earlier than the last one
  (`Traffic.HitExact`); after a late one the report is strictly below the log's count (`Traffic.LateHitForgets`). The clock is
  read before the lock is taken, so this can happen.

## Model

| member | source | states |
|---|---|---|
| Bytes.PutBeRoundTrip | backend/src/util/bytes.h:48-68 | big-endian reading of a written number gives its low bytes, at every width |
| Bytes.BeReader.U16 | backend/src/util/bytes.h:42-47 | a read that does not fit fails and leaves the cursor alone; otherwise it yields the two bytes and advances |
| Bytes.BeReader.UBe | backend/src/util/bytes.h:48-68 | a 32-, 48- or 64-bit read that does not fit fails and leaves the cursor alone; otherwise it yields the big-endian number and advances |
| Bytes.BeReader.Take | backend/src/util/bytes.h:69-74 | a span that does not fit fails and leaves the cursor alone; otherwise it is the next bytes of the frame |
| MrpEncoder.ThreePacked | tools/gen_pcaps.py:194-201 | the generator's padded packing loop produces one byte per group of three events |
| MrpEncoder.FourPackedBytes | tools/gen_pcaps.py:204-211 | the same loop for listener events produces one byte per group of four |
| MrpParser.ParseMrpPdu | backend/src/decode/decode.cpp:277-321 | on any bytes the walk ends with the cursor in range, and what it accepts has packed lists and first values of the lengths expansion relies on |
| MrpParser.AcceptedPduWellFormed | backend/src/decode/decode.cpp:277-321 | the same about the specification the loops are proved against |
| MrpLayout.PduExact | backend/src/decode/decode.cpp:277-321 | on any bytes the decoder accepts a PDU and stops where it does exactly if the bytes are laid out as that PDU: words, lengths, packed lists, end marks and limits |
| MrpRoundTrip.ThreePackedInverse | backend/src/decode/decode.cpp:323-330 | unpacking event k of a packed list gives event k, for lists of any length |
| MrpRoundTrip.FourPackedInverse | backend/src/decode/decode.cpp:332-335 | unpacking listener event k of a packed list gives listener event k |
| MrpRoundTrip.PaddingZero | tools/gen_pcaps.py:194-211 | what fills up the last packed byte is zero |
| MrpRoundTrip.ThreePackedAlias | backend/src/decode/decode.cpp:323-330 | which wire bytes decode to an event outside NEW..LV, and which to LeaveAll's code |
| MrpRoundTrip.MsrpPduParsed | backend/src/decode/decode.cpp:277-321 | an encoded MSRP PDU, wherever it stands, parses to each message up to its first invisible vector |
| MrpRoundTrip.MsrpRoundTrip | tools/gen_pcaps.py:222-229 | decoding gives back every message, flag, first value and event of what was encoded if and only if it survives the limits |
| MrpRoundTrip.MvrpRoundTrip | tools/gen_pcaps.py:232-236 | the same for MVRP, where an end mark in the list is not caught by a list length |
| MrpExpand.ParseMsrpFirstValue | backend/src/decode/decode.cpp:344-377 | once the frame decoder has checked the attribute length no read of the first value can fail |
| MrpExpand.TalkerFvRoundTrip | tools/gen_pcaps.py:239-246 | every field of a talker declaration survives encoding and decoding of its first value |
| MrpExpand.ListenerFvRoundTrip | tools/gen_pcaps.py:249-250 | a stream identifier survives a listener's first value |
| MrpExpand.DomainFvRoundTrip | tools/gen_pcaps.py:253-254 | class and priority survive a domain's first value, of its VID the low twelve bits |
| MrpExpand.ValueIsNth | backend/src/decode/decode.cpp:395-432 | the k-th value of a vector is k times the next after the first: streams and addresses around 2^64, VIDs around 4096, classes upwards |
| MrpExpand.EmitMrpDecls | backend/src/decode/decode.cpp:387-508 | the loops produce the whole declaration list that ValueIsNth, VidsDeclared and StreamsDeclared are about, or reject exactly when a value declaration has 8192 declarations before it |
| MrpExpand.DeclCount | backend/src/decode/decode.cpp:434-508 | the list has one declaration per value plus one per LeaveAll flag |
| MrpExpand.DecodeMrpFrame | backend/src/decode/decode.cpp:880-911 | total on arbitrary bytes: every packed event and first value is read in bounds |
| MrpExpand.MsrpEndToEnd | backend/src/decode/decode.cpp:880-911 | encode a PDU, decode the frame: the declarations are those read straight off the encoder's input, in order |
| MrpExpand.MvrpEndToEnd | backend/src/decode/decode.cpp:880-911 | the same for MVRP: one declaration per VID and per LeaveAll, as encoded |
| MrpMeaning.RefusedExact | backend/src/decode/decode.cpp:880-911 | on any bytes a frame is refused exactly if its PDU does not parse, a message has the wrong length for its type, or there are too many declarations |
| MrpMeaning.AcceptedExact | backend/src/decode/decode.cpp:454-456 | a frame that decodes is accepted with its declarations, in order, unless some value has 8192 of them before it |
| MrpMeaning.VidsDeclared | backend/src/decode/decode.cpp:428-454 | an accepted MVRP frame declares an event for a VID exactly if some vector put that event in its place, counting from the first VID around 4096 |
| MrpMeaning.StreamsDeclared | backend/src/decode/decode.cpp:398-454 | the same for talkers, whose addresses keep step with their streams, for listeners with their four-packed state, and for domains |
| MrpMeaning.LeaveAllsDeclared | backend/src/decode/decode.cpp:444-452 | the declarations that are no values are exactly those of the LeaveAll flags, with their vectors' first values |
| JsonText.JsonEscape | backend/src/util/json.cpp:13-38 | the escaping loop yields the quoted, escaped text |
| JsonText.DigitsRoundTrip | backend/src/util/json.h:35-36 | decimal digits read back as the number |
| Binary64.RoundedExact | backend/src/util/json.cpp:208-222 | the double stored for an integer is that integer if and only if its odd part fits 53 bits and it is in range |
| Binary64.RoundedNearest | backend/src/util/json.cpp:208-222 | no double is nearer to an integer than the one stored, and of two as near the one with the even last digit is taken |
| JsonWriting.JsonWriter.Comma | backend/src/util/json.h:57-61 | the separator step of the comma and pending-key state |
| JsonWriting.JsonWriter.PutKey | backend/src/util/json.h:25-31 | a key settles its separator and leaves the next value unseparated |
| JsonWriting.JsonWriter.EndObject | backend/src/util/json.h:21-21 | closing a level marks the enclosing one |
| JsonWriting.WriterPrints | backend/src/util/json.h:18-72 | for every tree, the calls a client makes leave exactly the tree's compact text, no stray comma and a balanced stack |
| JsonWriting.JsonWriter.WriteTree | backend/src/util/json.h:18-72 | the writer's methods, called over any tree, take the steps WriterPrints is about; a fresh writer is left with the tree's text |
| JsonParsing.Parser.ParseValue | backend/src/util/json.cpp:60-79 | on any text the cursor-moving descent accepts, rejects and consumes exactly what the function that ParseExact and JsonRoundTrips are about does |
| JsonParsing.Parser.ParseObject | backend/src/util/json.cpp:98-119 | the member loop reads the same members, in order and with duplicates, or fails where that function does |
| JsonParsing.Parser.ParseArray | backend/src/util/json.cpp:120-134 | the item loop reads the same items or fails where that function does |
| JsonParsing.Parser.ParseString | backend/src/util/json.cpp:135-178 | the string loop unescapes to the same bytes, joining surrogate pairs, or fails where that function does |
| JsonParsing.Parser.ParseNumber | backend/src/util/json.cpp:208-222 | the number scan takes the same run of characters, accepts it exactly when it is a numeral, and stores the nearest double of an integer |
| JsonSpelling.Utf8Exact | backend/src/util/json.cpp:192-207 | the bytes appended for a code point are the shortest UTF-8 sequence that decodes to it |
| JsonSpelling.StringRead | backend/src/util/json.cpp:135-191 | a string written with any escapes, short ones, four digits in either case, surrogate pairs, reads as what they denote |
| JsonGrammar.SpellingParsed | backend/src/util/json.cpp:55-241 | any spelling of a value, with any white space between its tokens, parses to that value if depth and size are within limits and is refused otherwise |
| JsonGrammar.ParseExact | backend/src/util/json.cpp:55-241 | and nothing else is accepted: every accepted text is such a spelling |
| JsonRoundTrip.CharEscaped | backend/src/util/json.cpp:13-38 | every byte comes back from its escape, whatever follows |
| JsonRoundTrip.StringEscaped | backend/src/util/json.cpp:135-178 | unescaping inverts escaping with any remainder |
| JsonRoundTrip.ValueParsed | backend/src/util/json.cpp:60-79 | the text of a value at any nesting level parses back to it with its integers as doubles, or fails exactly when it nests too deep |
| JsonRoundTrip.WhiteSpaceUnnoticed | backend/src/util/json.cpp:81-83 | any text made of the tokens the writer prints for a tree with white space around them parses to the tree as stored |
| JsonRoundTrip.JsonRoundTrips | backend/src/util/json.cpp:229-241 | writing a tree and parsing the text gives the tree back, key order and duplicates included, if and only if depth and size are within limits and every integer is a double |
| JsonRoundTrip.IntegerRounds | backend/src/util/json.cpp:208-222 | an integer that is written and read as another one |
| StableSort.SortIsStable | backend/src/pcapio/pcap_reader.cpp:357-358 | the sort orders by time and keeps the order among equal times |
| StableSort.StableSortUnique | backend/src/pcapio/pcap_reader.cpp:357-358 | there is only one such order |
| Pcap.ParseClassic | backend/src/pcapio/pcap_reader.cpp:132-177 | the record loop reads what CaptureReadsBack and MergeReadsBack are about, fails on truncation, and every packet of an accepted file lies inside it |
| CaptureFile.FileLoads | backend/src/pcapio/pcap_reader.cpp:132-177 | a file of any records loads record by record, whatever fewer than sixteen bytes follow |
| CaptureFile.LoadsExact | backend/src/pcapio/pcap_reader.cpp:102-177 | on any bytes a classic file loads exactly if it is a header in one of the four magics with one of the two link types, at least one record, and less than sixteen bytes more |
| CaptureFile.CaptureReadsBack | backend/src/pcapio/pcap_reader.cpp:102-177 | packets written with any of the four magics and either link type are read back with their bytes, their lengths and their time rounded down to the resolution, exact iff a multiple of it; mPacket frames without their preamble |
| CaptureFile.StripExact | backend/src/pcapio/pcap_reader.cpp:47-67 | a preamble is stripped exactly if it is 0x55 bytes ended by 0xD5 within sixteen bytes |
| PcapMerge.MergePcaps | backend/src/pcapio/pcap_reader.cpp:322-418 | the merge fails exactly for an empty list, a source that does not load, or a capture or wanted sidecar that cannot be written, and otherwise writes the specified capture and, where wanted, sidecar |
| PcapMerge.SummaryExact | backend/src/pcapio/pcap_reader.cpp:410-416 | the summary's times are the least and the greatest of all packets, its counts those of packets and sources |
| PcapMerge.SourceInMerge | backend/src/pcapio/pcap_reader.cpp:351-358 | the merge holds each source's packets, sorted among themselves as a stable sort sorts that source |
| PcapMerge.MergedFileReadsBack | backend/src/pcapio/pcap_reader.cpp:360-389 | the reader returns the merged packets one for one, with bytes, captured length, and original length raised to it; the time is exact iff its seconds fit 32 bits |
| PcapMerge.MergeReadsBack | backend/src/pcapio/pcap_reader.cpp:343-390 | the written file reads back as the unique stable time order of all source packets |
| PcapMerge.LoadSrcMap | frontend/app.js:3144-3162 | the running counters are the occurrences of each source so far |
| PcapMerge.SidecarLoads | frontend/app.js:3144-3175 | loading the merge's sidecar gives the source and position columns of the merge |
| PcapMerge.OrderedSourceKept | backend/src/pcapio/pcap_reader.cpp:351-358 | a time-ordered source stands in the merge as it was |
| PcapMerge.UntracedFile | backend/src/pcapio/pcap_reader.cpp:399-402 | with more than 65536 sources some merged packet is attributed wrongly |
| PcapMerge.ProvenanceExact | frontend/app.js:3144-3175 | sidecar and counters identify every merged packet's origin if and only if there are at most 65536 sources, each ordered in time |
| ParallelDecode.SlicesPartition | backend/src/engine/engine.cpp:89-111 | every packet index lies in exactly one worker's slice |
| ParallelDecode.WorkersExact | backend/src/engine/engine.cpp:90-92 | as many workers as cores, at least one, none without 512 packets before it |
| ParallelDecode.EmptySlicesLast | backend/src/engine/engine.cpp:97-100 | stopping at the first empty slice skips only empty ones |
| ParallelDecode.AnyScheduleDecodesAll | backend/src/engine/engine.cpp:89-111 | whatever the interleaving, once all workers are done the buffer is the sequential decode |
| Sessions.Session.Flush | backend/src/engine/engine.cpp:125-133 | a flush appends the batch to the log |
| StatePass.RunPass | backend/src/engine/engine.cpp:121-271 | batching is invisible: at the end the log is the one LogDense and EventTimesOrdered are about, and the session is done |
| StatePass.PacketTold | backend/src/engine/engine.cpp:170-258 | each packet of interest has its own event, an error if it did not decode, then the transitions it caused under its number, then those its time caused under none, all with its time |
| StatePass.LogDense | backend/src/engine/engine.cpp:135-263 | event k of the log carries index k, across packets and flushes |
| StatePass.LogPrefix | backend/src/engine/engine.cpp:125-133 | what a reader could see stays, at the same index |
| StatePass.EventTimesOrdered | backend/src/engine/engine.cpp:113-135 | event times never decrease if and only if packets of interest are not on both sides of the first record's time |
| StatePass.FirstRecordLeast | backend/src/engine/engine.cpp:113-135 | in particular when the first record is the earliest |
| LiveStream.TakeChunk | backend/src/api/api.cpp:1579-1592 | one locked snapshot takes the next slice of at most 500 events, and less than 500 only at the end of the log |
| LiveStream.SnapshotIsTakeChunk | backend/src/api/api.cpp:1579-1592 | the state machine's snapshot step is that method, with the status read before it, which says Done only of a whole log |
| LiveStream.LockedLogStands | backend/src/api/api.cpp:1579-1592 | while the reader holds the lock no flush moves the log, and only its snapshot moves its place |
| LiveStream.ExactlyOnce | backend/src/api/api.cpp:1571-1632 | under every interleaving with the analyzer a client has a prefix of the final log in consecutive batches of 1 to 500; complete comes once, last, only after the whole log, with its length |
| LiveStream.DrainsToComplete | backend/src/api/api.cpp:1571-1632 | once the analysis is done the reader reaches complete by itself |
| History.PushNewest | backend/src/logic/acmp_logic.cpp:308-327 | appending with a cap keeps exactly the newest entries of everything recorded |
| History.LiveAtN | frontend/app.js:3870-3886 | the front end's walk returns the state at the cursor, the entries up to it and the states visited |
| History.ReplayIsState | frontend/app.js:3870-3886 | for any machine whose steps append entries that lead from state to state, replaying at a time gives the state after everything up to that time |
| History.ReplayCappedIsState | frontend/app.js:3870-3886 | the same from a capped history, at any time from its oldest retained entry on |
| Shared.SharedModel.MrpSetRegistrar | backend/src/logic/mrp_registrar.cpp:31-40 | the LV counter stays the number of registrars in LV |
| Shared.SharedModel.MrpEvent | backend/src/logic/mrp_registrar.cpp:42-84 | one declared event moves one registrar as section 10.7.8 of IEEE 802.1Q has it and keeps the model valid |
| Shared.SharedModel.MrpLeaveAll | backend/src/logic/mrp_registrar.cpp:86-99 | a LeaveAll reaches exactly the registrars of its attribute type |
| Shared.SharedModel.MrpTick | backend/src/logic/mrp_registrar.cpp:101-111 | with or without the early return the outcome is that of the full walk |
| Shared.IdleTickSkips | backend/src/logic/mrp_registrar.cpp:101-102 | with nothing leaving, the full walk changes nothing |
| Shared.NothingOverdue | backend/src/logic/mrp_registrar.cpp:101-111 | after a tick no registrar is past its leave time, and exactly the overdue ones were deregistered |
| Shared.TickTwice | backend/src/logic/avb_logic.h:116-118 | ticking is idempotent |
| Shared.RegistrarMeaning | backend/src/logic/mrp_registrar.cpp:42-111 | IN: joined with no leave since; LV: left since the last join and the leave time not seen to pass; MT: neither, read off the observations alone |
| Shared.LogMeaning | backend/src/logic/mrp_registrar.cpp:42-99 | a registrar keeps the newest 500 of the observations it took notice of, with the state each left, and counts and shows them |
| Shared.ObserveRecords | backend/src/logic/mrp_registrar.cpp:31-40 | each change of a registrar's state is recorded, with the time and number of what brought it, the newest 200 kept |
| RegistrarTruth.RegistrarRuns | backend/src/logic/msrp_logic.cpp:46-71 | after any interleaving of all observers a registrar is what the wire events that concern it made of it: a LeaveAll reaches its own attribute type only, an Ignore is a leave |
| RegistrarTruth.RegistrarTruth | backend/src/logic/mrp_registrar.cpp:42-111 | so it is IN exactly while a join of its value and source stands, and LV exactly while a leave is less than a second old |
| Msrp.MsrpLogic.OnDecode | backend/src/logic/msrp_logic.cpp:19-144 | the handler, updating the shared model in place, takes the step that DeclarationKeepsTruth, DeclarationKeepsListeners and EstablishedMeaning are about, and keeps the LV counter right |
| Msrp.MsrpLogic.Recompute | backend/src/logic/msrp_logic.cpp:228-279 | the listener loop finds whether any listener is ready or asks failed, and the shared set changes only with the state |
| Msrp.DeclarationKeepsTruth | backend/src/logic/msrp_logic.cpp:73-126 | every declaration keeps: ESTABLISHED iff Advertise with a Ready listener, the shared sets exactly those streams and the live declarations |
| Msrp.DeclarationKeepsListeners | backend/src/logic/msrp_logic.cpp:62-71 | a Listener registrar in IN belongs to a listed listener, with Ignore fed as a leave |
| Msrp.EstablishedMeaning | backend/src/logic/msrp_logic.cpp:73-126 | a stream is established exactly when its talker's last word is an Advertise and some listener's last word is Ready or ReadyFailed, read off the declarations alone |
| MsrpMeaning.FieldsMeaning | backend/src/logic/msrp_logic.cpp:73-106 | a reservation holds what its talker last offered, from where, how, and why it last failed |
| MsrpMeaning.ReservationMeaning | backend/src/logic/msrp_logic.cpp:228-279 | each of the six states is exactly what the last words of talker and listeners tell |
| Msrp.WithdrawnDependsOnHistory | backend/src/logic/msrp_logic.cpp:238-247 | the same stored declaration is WITHDRAWN or PENDING depending on whether a talker was ever seen |
| Msrp.FullRecords | backend/src/logic/msrp_logic.cpp:228-279 | a declaration appends to a reservation's history, under its own time and number, an entry that leads from state to state |
| Msrp.ReservationReplay | frontend/app.js:4229-4234 | replaying a reservation's capped history shows its state at any retained time |
| Mvrp.MvrpLogic.OnDecode | backend/src/logic/mvrp_logic.cpp:19-64 | the handler, with its LeaveAll loop, takes the step that VidEventKeeps and MemberMeaning are about, and keeps the LV counter right |
| Mvrp.VidEventKeeps | backend/src/logic/mvrp_logic.cpp:27-63 | a VLAN has members exactly when REGISTERED or LEAVING |
| Mvrp.VidEventKeepsMembers | backend/src/logic/mvrp_logic.cpp:27-63 | a VID registrar in IN belongs to a member |
| Mvrp.MemberMeaning | backend/src/logic/mvrp_logic.cpp:27-63 | a VLAN's members are exactly the sources whose last join or leave was a join |
| Mvrp.VlanMeaning | backend/src/logic/mvrp_logic.cpp:19-64 | a VLAN somebody joined is REGISTERED, or LEAVING after a LeaveAll, one nobody is in WITHDRAWN if ever left |
| Adp.AdpLogic.OnDecode | backend/src/logic/adp_logic.cpp:18-57 | the handler, updating entity and availability set by separate transitions, takes the step that MessageKeeps and AvailableMeaning are about |
| Adp.AdpLogic.OnTimeTick | backend/src/logic/adp_logic.cpp:59-68 | the loop times out exactly the expired entities |
| Adp.MessageKeeps | backend/src/logic/adp_logic.cpp:18-57 | the availability set is exactly the entities in AVAILABLE, although only transitions write it |
| Adp.TimeKeeps | backend/src/logic/adp_logic.cpp:59-68 | the same across ticks, after which no available entity is past the validity it announced |
| Adp.AvailableMeaning | backend/src/logic/adp_logic.cpp:18-68 | an entity is AVAILABLE exactly while its last word is an announcement not seen to expire, read off messages and ticks alone |
| Adp.EntityMeaning | backend/src/logic/adp_logic.cpp:18-137 | every state and field of an entity, and whether the grandmaster it names is the one observed, read off messages and ticks alone |
| Adp.StepRecords | backend/src/logic/adp_logic.cpp:26-66 | an input only appends to an entity's history, under its own time and number, entries that lead from state to state |
| Adp.EntityReplay | frontend/app.js:3870-3886 | the replayed history of any entity shows its state at any cursor time |
| Maap.MaapLogic.OnDecode | backend/src/logic/maap_logic.cpp:19-66 | the handler takes the step that ClaimantMeaning and ClaimantReplay are about |
| Maap.ClaimantMeaning | backend/src/logic/maap_logic.cpp:29-66 | for messages of any type, a claimant's range is that of its last message and its state that of its last PROBE, DEFEND or ANNOUNCE |
| Maap.CountMeaning | backend/src/logic/maap_logic.cpp:42-62 | probes and conflicts are the claimant's PROBE and DEFEND messages |
| Maap.LostMeaning | backend/src/logic/maap_logic.cpp:30-39 | LOST is recorded exactly when a holder probes for another range |
| Maap.StepRecords | backend/src/logic/maap_logic.cpp:30-66 | the same of a claimant |
| Maap.ClaimantReplay | backend/src/logic/maap_logic.cpp:92-107 | the replayed history of any claimant shows its state at any cursor time |
| Connections.ConnectionLogic.OnDecode | backend/src/logic/acmp_logic.cpp:43-124 | the handler takes the step that ConnectedMeaning and ConnectionReplay are about, commands being in flight exactly until their response, each for a known connection |
| Connections.ConnectionLogic.OnTimeTick | backend/src/logic/acmp_logic.cpp:126-147 | expiring commands one by one gives a result that does not depend on their order |
| Connections.NothingOverdue | backend/src/logic/acmp_logic.cpp:126-147 | after a tick no command is overdue and no connection waits on one that expired |
| Connections.ConnectedChanges | backend/src/logic/acmp_logic.cpp:70-147 | a connection becomes CONNECTED only by a confirmed CONNECT_RX or a rejected disconnect, and stops being so only by a failure, a disconnect command or a confirmed disconnect; no timeout does either |
| Connections.ConnectedMeaning | backend/src/logic/acmp_logic.cpp:43-147 | after any run a connection is CONNECTED exactly if some message confirmed it, or rejected its disconnect, and nothing ended it since |
| Connections.RejectedDisconnectConnects | backend/src/logic/acmp_logic.cpp:115-119 | a run without any confirmation that ends CONNECTED |
| ConnectionMeaning.InflightMeaning | backend/src/logic/acmp_logic.cpp:56-64 | the commands in flight are exactly those sent, not answered, and not more than 200 ms old at a tick since |
| ConnectionMeaning.StateMeaning | backend/src/logic/acmp_logic.cpp:70-147 | every state is entered and left exactly by the listed messages and by ticks too late for an unanswered command |
| ConnectionMeaning.ParametersMeaning | backend/src/logic/acmp_logic.cpp:54-94 | controller and stream are those of the last message and the last consent |
| ConnectionMeaning.CountMeaning | backend/src/logic/acmp_logic.cpp:87-113 | the connection count follows the listener's consents only |
| Connections.StepRecords | backend/src/logic/acmp_logic.cpp:43-147 | the same of a connection; a tick records under number 0 |
| Connections.ConnectionReplay | backend/src/logic/acmp_logic.cpp:246-268 | the replayed history of any connection shows its state at any cursor time |
| MilanSink.SinkLogic.MilanOnMessage | backend/src/logic/acmp_logic.cpp:369-509 | the handler takes the step that SinkStateMeaning, MessageKeeps and MessageShowsTruth are about, creating a sink only for BIND, UNBIND and PROBE commands |
| MilanSink.SinkLogic.MilanTick | backend/src/logic/acmp_logic.cpp:511-574 | every sink takes the step that SinkStateMeaning, TickAgrees and TickChanges are about, independently of the others |
| MilanSink.MessageKeeps | backend/src/logic/acmp_logic.cpp:369-475 | PRB_W_AVAIL implies the cached availability is false, timed states have their start time, the history is a chain of at most 200 entries ending in the state, PRB_W_RESP2, PRB_W_RETRY and SETTLED_RSV_OK being entered only from their proper predecessors |
| MilanSink.TimeKeeps | backend/src/logic/acmp_logic.cpp:511-574 | the same across ticks |
| MilanSink.TickAgrees | backend/src/logic/acmp_logic.cpp:511-574 | after a tick a sink agrees with the availability and registrations it sees and no timer is overdue |
| MilanSink.TickChanges | backend/src/logic/acmp_logic.cpp:511-574 | a tick returns a bound sink to PRB_W_AVAIL exactly when its talker departed, gives up a response wait exactly when it is overdue, and otherwise brings only the listed changes |
| MilanSink.ZeroStreamUnchecked | backend/src/logic/acmp_logic.cpp:531-546 | when exactly a sink settled on stream 0, in either settled state, agrees with MSRP after a tick |
| MilanSink.TickRecordsOnce | backend/src/logic/acmp_logic.cpp:511-574 | a tick records at most one entry, from the old state to the new |
| MilanSink.SinksTickIdempotent | backend/src/logic/acmp_logic.cpp:511-574 | ticking again at the same time with the same shared model does nothing |
| MilanSink.StepExtends | backend/src/logic/acmp_logic.cpp:308-345 | an input only appends to a sink's uncapped history, under its own time and number, 0 for a tick, entries that lead from state to state |
| MilanSink.SinkReplay | frontend/app.js:3887-3890 | replaying a sink's capped history shows its state at any time from the oldest retained entry on |
| SinkMeaning.BoundMeaning | backend/src/logic/acmp_logic.cpp:377-475 | a sink is bound exactly if a BIND command, a PROBE command or a successful PROBE response for a known sink came after its last UNBIND command and its last rejected BIND response; no tick changes that |
| SinkMeaning.BindingMeaning | backend/src/logic/acmp_logic.cpp:377-441 | its talker is the one last named by a BIND command, or by a PROBE command out of nowhere; its controller that of the last BIND command |
| SinkMeaning.StreamMeaning | backend/src/logic/acmp_logic.cpp:410-464 | its stream is that of the last successful response, its probes are the PROBE commands heard |
| SinkMeaning.ThoughtMeaning | backend/src/logic/acmp_logic.cpp:384-528 | the cached availability is that of the last look, at a BIND command or a tick; a PROBE command that names a talker does not look |
| SinkMeaning.SinkStateMeaning | backend/src/logic/acmp_logic.cpp:369-574 | after any run each of the eight states is exactly what the sink's messages and the ticks tell: waits of 1200 and 250 ms, a second probe within 500 ms, 10 s without reservation |
| Observers.Observers.Observe | backend/src/engine/engine.cpp:203-258 | any message or tick, on modules sharing one model, keeps every cross-module invariant |
| Observers.StepKeeps | backend/src/logic/avb_logic.h:57-141 | the same about the composed step function |
| Observers.EveryRunOk | backend/src/logic/avb_logic.h:57-141 | after any interleaving at all: registrar, reservation, listener, VLAN, member, entity and sink invariants hold together |
| Observers.SinkTickShowsTruth | backend/src/logic/acmp_logic.cpp:511-546 | after a run ending in a sink tick every bound sink's availability is ADP's own record, PRB_W_AVAIL means the talker is away, and a settled sink on a nonzero stream has MSRP's word |
| Observers.MessageShowsTruth | backend/src/logic/acmp_logic.cpp:369-475 | after a BIND command a sink waits for its talker exactly when ADP's own record lacks it; after a successful PROBE response it is settled as MSRP's own record says |
| Observers.ZeroStreamRuns | backend/src/logic/acmp_logic.cpp:531-546 | runs that end in a tick with a sink on stream 0 wrong in either settled state |
| Observers.RoundKnowsTalker | backend/src/engine/engine.cpp:236-258 | at the end of a packet that agreement with ADP holds exactly unless the sinks ticked first and the validity the talker announced before had run out |
| Bmca.PortKeyCollides | backend/src/logic/gptp_logic.cpp:355-357 | two ports share a key iff they share the port number and the low 48 bits of the clock identity |
| Bmca.LexTotal | backend/src/logic/gptp_logic.cpp:282-288 | the comparison leaves exactly one of equal, better, worse |
| Bmca.OrderByFields | backend/src/logic/gptp_logic.cpp:282-288 | priority 1 decides, then clock class, accuracy, variance, priority 2, grandmaster, steps, source clock and port, less being better |
| Bmca.BestExists | backend/src/logic/gptp_logic.cpp:282-288 | any announcers have exactly one that is better than all others |
| Bmca.BmcaLogic.FindBest | backend/src/logic/gptp_logic.cpp:598-600 | scanning in any order finds that one |
| Bmca.BmcaLogic.EvalBmca | backend/src/logic/gptp_logic.cpp:588-609 | in any order of the table, what is held afterwards are exactly the announcers that have not aged, with the best of them and the Sync sender's |
| Bmca.ExpectedExact | backend/src/logic/gptp_logic.cpp:588-609 | what is expected has, among the announcers that have not aged, the least priority 1, of those the least clock class, and so on through the fields |
| Bmca.BmcaLogic.OnSync | backend/src/logic/gptp_logic.cpp:547-556 | a Sync attributes the grandmaster its sender announced, or none |
| Bmca.BmcaLogic.OnAnnounce | backend/src/logic/gptp_logic.cpp:712-736 | an Announce refreshes or drops its sender's vector |
| Bmca.EveryRunOk | backend/src/logic/gptp_logic.cpp:588-609 | after any run a held vector of the Sync sender carries the attributed grandmaster and the readout is that of the announcers held |
| Bmca.VerdictExact | backend/src/logic/gptp_logic.cpp:617-624 | with the Sync sender's vector held: CONVERGED iff the best names the same grandmaster, PRIORITY_INVERSION iff another one that is better in priority 1, or at equal priority 1 in clock class, and so on to priority 2, TIEBREAK iff all five are equal and its identity is smaller |
| Bmca.DisagreementNeedsVector | backend/src/logic/gptp_logic.cpp:617-624 | neither disagreement is reported without that vector |
| Bmca.ConvergedOutlivesVector | backend/src/logic/gptp_logic.cpp:588-624 | when the Sync sender's vector has aged out, CONVERGED is reported exactly if the best announcer left names the same grandmaster |
| Bmca.ConvergedRun | backend/src/logic/gptp_logic.cpp:588-624 | three messages that end CONVERGED with the sender's vector gone |
| Bmca.NewSenderOwnGm | backend/src/logic/gptp_logic.cpp:548-554 | a new Sync sender never inherits its predecessor's grandmaster |
| Bmca.AnnouncersMeaning | backend/src/logic/gptp_logic.cpp:588-609 | a port is held as an announcer exactly when its last announcement was qualified and has not aged |
| BmcaMeaning.IntervalExact | backend/src/logic/gptp_logic.cpp:39-43 | announced intervals are 1/128 s to 32 s in powers of two, otherwise 1 s |
| BmcaMeaning.ExpectedMeaning | backend/src/logic/gptp_logic.cpp:588-736 | with time going forward, what a domain expects is the announcement that outranks all others that stand: last of their port, less than 255 steps away, no older than three of their intervals and half a second |
| BmcaMeaning.DrivingMeaning | backend/src/logic/gptp_logic.cpp:547-734 | the grandmaster Sync is attributed to, read off Sync and Announce messages alone |
| Bmca.DomainsIndependent | backend/src/logic/gptp_logic.cpp:82-105 | a domain depends only on its own messages and the ticks |
| Pdelay.PdelayLogic.OnPdelayReq | backend/src/logic/gptp_logic.cpp:740-758 | a request opens an exchange and counts an unfinished one as lost |
| Pdelay.PdelayLogic.OnPdelayResp | backend/src/logic/gptp_logic.cpp:760-781 | a matching response moves the requester to the follow-up wait |
| Pdelay.PdelayLogic.OnPdelayRespFu | backend/src/logic/gptp_logic.cpp:783-834 | a matching follow-up completes the exchange |
| Pdelay.PdelayLogic.OnTimeTick | backend/src/logic/gptp_logic.cpp:129-142 | the loop expires exactly the overdue exchanges |
| Pdelay.EveryRunConserves | backend/src/logic/gptp_logic.cpp:740-853 | for every port after any run: initiated is complete plus lost plus outstanding, resets are losses, and the displayed wait and capability are determined by the counters |
| Pdelay.NothingOverdue | backend/src/logic/gptp_logic.cpp:129-142 | after a tick no exchange is overdue and each expiry was one loss |
| Pdelay.NotCapableMeaning | backend/src/logic/gptp_logic.cpp:836-853 | NOT_AS_CAPABLE iff the last three exchanges to end, read off the messages and ticks alone, were all lost |
| PdelayMeaning.PortMeaning | backend/src/logic/gptp_logic.cpp:740-853 | every counter and every displayed state of a port, as requester and as responder, read off messages and ticks alone |
| RateLimit.RateLimiter.Allow | backend/src/util/ratelimit.h:24-45 | the call takes the step that AdmissionBound is about, pruning by the caller's own burst included |
| RateLimit.AdmissionBound | backend/src/util/ratelimit.h:24-45 | between two moments at most burst plus rate times elapsed calls of a key pass, whatever its penalties and other keys do, plus one burst per time its bucket was pruned |
| RateLimit.RetryAfterExact | backend/src/util/ratelimit.h:20-23 | the promised delay is exactly when the next call passes, for bursts of at least one token |
| RateLimit.AllowExact | backend/src/util/ratelimit.h:24-45 | without penalty, what a call finds, takes and leaves, and that it touches no other bucket |
| RateLimit.PenaltyDivides | backend/src/util/ratelimit.h:22-27 | a penalty above one divides the refill rate, a smaller one does nothing |
| RateLimit.RefillExact | backend/src/util/ratelimit.h:34-43 | tokens come back in proportion to time and rate, and the delay told brings back just what is missing |
| RateLimit.KeptExact | backend/src/util/ratelimit.h:53-62 | above 8192 buckets those go that were idle for more than 300 s or hold the caller's burst, and no other is touched |
| RateLimit.PruneExact | backend/src/util/ratelimit.h:53-62 | pruning is unnoticed in every table, by an owner of a given rate and burst, iff the pruning caller's burst is no smaller and the idle limit refills the owner's |
| RateLimit.PruneForgives | backend/src/util/ratelimit.h:53-62 | a run of admission calls, with the bursts the server uses, that gives thousands of users a token back |
| FlowGuard.Actor.Rotate | backend/src/sec/flowguard.cpp:46-71 | the in-place shift of the window and the baseline update |
| FlowGuard.Actor.Sum | backend/src/sec/flowguard.cpp:34-44 | the loop adds up the window |
| FlowGuard.Actor.Record | backend/src/sec/flowguard.cpp:120-178 | one request is counted in the turned window and judged by the six rules in their order |
| FlowGuard.FlowGuard.Record | backend/src/sec/flowguard.cpp:104-178 | the same on the table of actors, which share nothing, with pruning |
| FlowGuard.WindowExact | backend/src/sec/flowguard.cpp:46-71 | for traffic in time order, with actors pruned and coming back, every window turned to any later moment is exactly the log's last twelve buckets |
| FlowGuard.VerdictExact | backend/src/sec/flowguard.cpp:132-179 | a request is suspect iff the rules on the naive log say so or a penalty is in force |
| FlowMeaning.VerdictByLog | backend/src/sec/flowguard.cpp:120-179 | in any traffic in time order a request is suspect iff its path climbs, or the minute has 8 refused logins, 15 denials, 20 rate limits, 240 requests at over eight times the baseline, or over 512 MiB by no admin, or an alert is less than five minutes old |
| FlowMeaning.BaselineStep | backend/src/sec/flowguard.cpp:46-71 | how the baseline follows the minute's count, within a minute and after more |
| FlowMeaning.KindsByLog | backend/src/sec/flowguard.cpp:132-178 | the kinds of rules a request breaks, in their order, by the counts of the log |
| FlowMeaning.AlertsByLog | backend/src/sec/flowguard.cpp:73-83 | a request alerts once for every rule it breaks, except the first if that is the kind of the last alert, less than two minutes ago |
| FlowMeaning.OthersKept | backend/src/sec/flowguard.cpp:112-119 | an actor's record is dropped exactly if there are more than 4096 and it idled for over ten minutes, and is never changed by another's request |
| FlowAlerts.AlertSpacing | backend/src/sec/flowguard.cpp:73-83 | for any traffic in time order two alerts of one kind in a row are two minutes apart |
| FlowAlerts.CooldownExact | backend/src/sec/flowguard.cpp:73-83 | any two alerts of one kind are two minutes apart iff no other kind lies between two that are closer |
| FlowAlerts.RequestKeepsPromise | backend/src/sec/flowguard.cpp:132-179 | which requests keep that promise, read off the actor and the rules before the request |
| FlowAlerts.CooldownDefeated | backend/src/sec/flowguard.cpp:132-179 | one request sent twice whose two rules defeat the cooldown of each other |
| FlowGuard.PruneUnnoticed | backend/src/sec/flowguard.cpp:112-119 | an actor idle for ten minutes is judged next as a newcomer would be: only its baseline is forgotten |
| Traffic.DomainTraffic.Hit | backend/src/api/api.cpp:1138-1157 | the in-place slot updates keep the ring showing the log of all hits while time does not go back |
| Traffic.DomainTraffic.PerMin | backend/src/api/api.cpp:1159-1166 | the loop computes the sum RingSumExact is about, the log's count of the last sixty seconds; there is none in the first 59 seconds of the clock, where the source forms a negative index |
| Traffic.RingSumExact | backend/src/api/api.cpp:1159-1166 | at any reading the ring's sum is the log's count: of the last minute, or, for a reading before the last hit, of what that hit's minute still holds |
| Traffic.HitKeeps | backend/src/api/api.cpp:1138-1157 | every slot counts exactly the hits of the one second it stands for |
| Traffic.HitExact | backend/src/api/api.cpp:1138-1157 | after a hit the ring shows the log iff the hit is not earlier than the last one |
| Traffic.LateHitForgets | backend/src/api/api.cpp:1139-1166 | after a late hit the report is below the log's count, by exactly what was counted since the late second |

## Left out

- JsonRoundTrip.JsonRoundTrips: fractions and exponents are kept as the numeral read, not as the double it denotes, and the writer's fractions are not modelled.
- MilanSink.SinkLogic.MilanOnMessage: leaves out the talker records that the same handler updates; they feed a display.
- Bmca.AnnouncersMeaning: needs time to go forward, since ageing is only looked at when a message or tick arrives.
- FlowGuard.WindowExact: needs time to go forward, as the steady clock does for one thread; the window is looked at as of a moment, while the admin snapshot shows it as of the actor's last request.
- RateLimit.RetryAfterExact: assumes the table is not pruned between the two calls.
- MilanSink.SinkReplay: says nothing about cursor times before the oldest retained entry of a full history; what was dropped cannot be replayed.
- Floating point: times are integer nanoseconds or reals, and the 1 ns truncation when a time passes through a double is not modelled.
- Counter widths: packet, event and statistics counters are unbounded; 32-bit overflow after four thousand million events is not modelled.
- Milan talker records, the MSRP domain table, AECP, and the gPTP port roles, sync health, grandmaster lifecycle and histories: they feed displays and texts; the grandmaster that ADP compares an entity's announcement with is a parameter of the ADP steps.
- Registrar keys: the source keys registrars by text; the model by attribute values, of which the text is an injective rendering. The empty initial state text counts as MT, UNBOUND, DISCONNECTED and so on, as everywhere in the source.
- Replay of the registrar log: it omits leave timer expiries and is not the registrar's history.
- pcapng parsing: sources are packet lists that have been loaded.
- File, socket, process and clock access, compression, hashing: inputs and outputs are parameters and results.
- Texts for people: summaries, reasons, names, error messages, inspector fields, snapshot shapes and drawing.
- Update by reference: records that the source updates inside a table are read, changed and stored back, which is the same as no two tables share a record; only the flow guard's actors are modelled as objects.
- The alert ring, flow samples and security log: plain bounded queues.
- User, tenant and session administration: checks and persistence without a lasting invariant of interest.
