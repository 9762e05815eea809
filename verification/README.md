# Verified model of the PLC bridge

The bridge keeps a registry of typed tags in agreement with word-addressed PLC memory. Two drivers
(FINS/TCP and Modbus TCP) poll the memory in batches, cut the bulk data back into tags, and drain a
queue of client writes that arrive over OPC UA. This project models that behaviour in Dafny and proves
what it keeps, over every configuration, every device memory, every behaviour of the network and every
interleaving. `dafny verify dfyconfig.toml` checks all of it.

## How the model is built

| file | what it holds |
|---|---|
| `Words`, `WordOrder`, `Utf8`, `TagModel`, `Codec`, `Layouts`, `RoundTrip` | words and bytes, the four byte orders with their in-place loops, tag values, both encoders and both decoders, what their bytes are in numbers, the codec round trip |
| `Mapping`, `Planner`, `Validation` | tag mappings, runs and chunks, both planners as loops, the overlap check |
| `Coils`, `Scatter`, `GroupedReads`, `DatePanics`, `Straddling`, `CoilReads` | cutting bulk data into tags, grouped reads against direct reads, and the dates that end a cycle |
| `Ids`, `TagStore`, `Registry`, `StoreMachine` | the tag store and registry as objects, and as interleaved load and store steps |
| `FinsFrame`, `FinsCycle`, `FinsDriver`, `FinsLaws`, `FinsOutcomes`, `FinsDevice`, `FinsStreams` | frames, one poll cycle as a function of the network, the driver object that computes it, its guarantees, what each exchange leaves behind by the bytes received, a byte-level controller, a stream out of step |
| `ModbusCycle`, `ModbusDriver`, `ModbusLaws`, `ModbusOutcomes` | the same for Modbus, by the texts received |
| `WriteQueue`, `DriverRuns` | queued writes and their replies, a queue over runs, and both driver objects over runs of arrivals and cycles |
| `WriteHandler`, `WritePipeline`, `PipelineCycles`, `ConfirmedWrites` | the two ends of the write path as objects, the whole path as a step machine, the drivers' cycles as runs of it, and what a client's confirmation means in the device |
| `WriteBack`, `WriteList`, `EndToEnd` | one write and lists of writes against device memory, and grouped reads, writes and validation together, down to the bytes and back |
| `Backoff` | poll and reconnect delays |

Code that mutates state is a class or a loop proved against a specification function (`TagStore`,
`TagRegistry`, `FinsDriver`, `ModbusDriver`, `RuntimeWriteHandler`, `TagDataSource`, `RuntimeDriver`,
the byte-order loops on arrays, the planners). The properties are then proved about those functions.

The network is a parameter: for FINS a function from the number of an exchange and the bytes sent to
what happens (connection, send, bytes received), for Modbus one from the number of a call and the call
to its result. Every theorem about a cycle holds for every such function. A driver acts on the registry
through *effects*, publish a value or mark a quality, and a tag without its timestamps is a *cell*. A
FINS date that the date library cannot represent is a panic: it ends the reads, the cycle, the poll task
and every drain to come, in the cycle functions, the driver objects and the write path alike.

Assumptions the code relies on without checking all of them are preconditions: no mapping of zero
words; FINS addresses end below 2^32 and the request limit is between 1 and 65535; Modbus addresses end
at or below 65535; tag ids are distinct within a driver's mappings. Where the bytes of FINS requests
matter, addresses end at or below 2^24. Bit offsets are below 16, as `validate` demands.

The FINS controller of `FinsDevice` is this driver's peer, not a given PLC: it reads the driver's own
seven-byte address block with three address bytes and a bit byte that it ignores.

## What the proofs found in the code

- The overlap check is blind at the top address: its saturating end makes two one-word mappings of
  address 65535 (Modbus) or 2^32 - 1 (FINS) pass (`Validation.TopAddressIsNotChecked`).
- A mapping cut by a chunk boundary is decoded once per piece, each piece as if it were the whole
  value. The grouped read is right for every memory exactly when the mapping lies in one chunk, or is
  narrower than its type and so never decodes (FINS, and dates), or is a one-word value in two words
  whose order puts the second word first (`Straddling.GroupedReadIsExact`).
- Coils are packed sixteen a word but sliced one word a coil: a one-coil tag shows its own coil exactly
  when it is the first of its request and selects the first bit (`CoilReads.CoilReadIsExactAtOffsetZero`).
- FINS requests carry 24 address bits, so a group at or above 2^24 reads other words
  (`FinsDevices.GroupIsReadExactlyBelow24Bits`).
- A FINS request limit of 0, or above 65535, can keep the chunk loop from ever ending
  (`Planner.ChunkLoopProgresses`).
- Values of one word under the orders CDAB and DCBA do not survive in mappings of two words or more, and
  `validate` refuses those orders for one word; a Bool written as true comes back only at bit 0
  (`RoundTrip.RoundTripModbus`).
- FINS reads dates as unsigned and loses those before 1970; Modbus keeps them (`RoundTrip.RoundTripFins`).
- Nothing limits a written text to its mapping: a longer one overwrites the mapping behind
  (`WriteBacks.LongTextReachesNext`).
- A FINS date behind the last one of the date library makes the conversion from system time panic, which
  ends the poll task for good. A cycle answered from memory runs to its end if and only if it decodes no
  such date (`DatePanics.CycleEndsExactly`, `EndToEnd.FinsRunsToEndExactly`); some memory ends it exactly
  if some defined date tag is given four words (`DatePanics.SomeMemoryPanics`). The results on FINS reads
  are about cycles that run to their end, under that condition.
- A FINS reply 256 requests old is taken for the current one (`FinsLaws.StaleReplyConfirmsNothing`).
- Unread bytes of a FINS stream are never discarded: after one surplus frame every later exchange gets the
  answer to an earlier request. Unless 256 divides the shift, nothing is published and nothing confirmed
  over any number of cycles, and every listed tag is marked as lost, although the peer answers every
  request (`FinsStreams.SurplusFrameShifts`, `FinsStreams.OutOfStepForEver`).
- A failed Modbus read whose text the driver does not look for leaves its tags as they were, good ones
  good, for as many cycles as it lasts (`ModbusLaws.SilentFailuresShowNothing`); the text
  `ServerDeviceFailure` is one of these.
- A client can be told of a failure although its write is carried out (`WritePipelines.FailureMayHaveExecuted`).
  Once the bridge is done with a write, some continuation drains it if and only if its one-shot channel
  exists, is empty, and its driver's poll task lives (`WritePipelines.DrainsLaterExactly`); without a
  channel, or with an error on it, no continuation acknowledges it (`WritePipelines.LostIsFinal`). So the
  handler's errors before sending and a failure reported by the driver are final, and an expired or closed
  wait is not (`WriteHandlers.AnswersMeanExactly`).
- A quality change can bring an overwritten value back; an update never does
  (`StoreMachines.OnlyQualityChangesLoseUpdates`).

Where a comment and its code disagree, the model follows the code: a comment in the store's broadcast
(core-model/src/tag_store.rs:91-93) says that disconnected subscribers are pruned later, but nothing
prunes them, and the modelled list of subscribers only grows.

## Model

| member | source | states |
|---|---|---|
| WordOrders.ApplyToBytes | core-model/src/tag_value.rs:125-132 | the in-place reordering of a buffer of any length, trailing bytes included, is the order's recursive definition on four-byte chunks |
| WordOrders.SwapBytesInWords | core-model/src/tag_value.rs:135-142 | the in-place loop swaps the bytes of every complete word and leaves an odd byte |
| WordOrders.SwapWordPairsIn4ByteChunks | core-model/src/tag_value.rs:144-153 | the in-place loop exchanges the words of every complete four-byte chunk and leaves the rest |
| WordOrders.ReverseBytesIn4ByteChunks | core-model/src/tag_value.rs:155-170 | the in-place loop reverses every complete four-byte chunk, and a trailing pair as the code does |
| WordOrders.ComposedReordering | core-model/src/tag_value.rs:123-170 | applying two orders in turn is applying their product, for buffers of every length |
| WordOrders.OrdersFormAGroup | core-model/src/tag_value.rs:123-170 | the orders are a commutative group of self-inverse elements, and DCBA is BADC after CDAB |
| WordOrders.ReorderingPermutes | core-model/src/tag_value.rs:123-170 | an order moves bytes and neither loses nor invents one |
| Layouts.OrderedInBytes | core-model/src/tag_value.rs:123-170 | the place each byte of a reordered buffer comes from, for every order, length and position, trailing bytes included |
| Codec.TagValueToWordsStandard | driver/fins/src/driver.rs:404-447 | the FINS encoder computes the standard words of every value |
| Codec.TagValueToRegisters | driver/modbus/src/driver.rs:812-886 | the Modbus encoder computes the same words as the FINS one on every value |
| Codec.DecodersAgree | driver/fins/src/driver.rs:239-401 | the two decoders agree exactly when the buffer is long enough for FINS, and for dates when it is short for both or the unsigned date is not behind the last one; there FINS panics or Modbus reads a date before 1970 |
| Codec.DecodedType | driver/modbus/src/driver.rs:167-261 | a decoded value has the type asked for, in both drivers |
| Layouts.EncodedInBytes | driver/fins/src/driver.rs:404-447 | the bytes of every value in standard order: numbers big-endian and in two's complement, texts padded to words |
| Layouts.DecodedInBytes | driver/modbus/src/driver.rs:167-261 | what the Modbus decoder makes of any bytes, in numbers: missing words count as zero, a date out of range as 1970, a Bool is the bit of that weight |
| Layouts.DecodedByFins | driver/fins/src/driver.rs:239-401 | the FINS decoder's error for every buffer too short, its unsigned dates, and the same value as the Modbus decoder otherwise |
| Layouts.NumberInOrder | core-model/src/tag_value.rs:123-170 | a 32-bit number under each order is the one its four bytes stand for, read and written |
| Utf8.PublishedIsText | driver/fins/src/driver.rs:381-395 | whatever bytes the device holds, the text published for them is well-formed |
| Utf8.ValidIsEncoded | driver/fins/src/driver.rs:381-395 | the byte strings taken for text are exactly the encodings of lists of character numbers without surrogates (section 3 of RFC 3629) |
| Utf8.HexDigitsOfByte | driver/modbus/src/driver.rs:251-257 | other bytes are published as two upper-case hexadecimal digits each, the high four bits first |
| RoundTrip.RoundTripModbus | driver/modbus/src/driver.rs:167-261 | a written value comes back as itself, whatever follows it in its mapping, if and only if `Survives` holds of type, order, spare words and bit |
| RoundTrip.RoundTripFins | driver/fins/src/driver.rs:239-447 | the same for FINS, whose dates are unsigned |
| RoundTrip.FilledMapping | driver/modbus/src/driver.rs:318-345 | words that fill a mapping come back as their bytes in every order |
| Planner.PlanReadsMappedWordsOnce | driver/fins/src/driver.rs:68-115 | the planned requests are within the limit, disjoint and ascending, and read exactly the mapped words |
| Planner.PlanIsMinimal | driver/fins/src/driver.rs:68-115 | no set of requests within the limit that reads every mapped word and no other has fewer members |
| Planner.PlanTwoIndex | driver/fins/src/driver.rs:73-111 | the two-index loops in u32 compute the runs and their chunks |
| Planner.GroupFold | driver/modbus/src/driver.rs:545-562 | the fold in wrapping u16 that mutates the last group computes the same runs |
| Planner.ChunkLoop | driver/fins/src/driver.rs:95-111 | the chunk loop tiles a run in order and ends |
| Planner.ChunksTile | driver/modbus/src/driver.rs:575-583 | chunks follow each other without gap, all but the last full, and end with the run |
| Planner.ChunkLoopProgresses | driver/fins/src/driver.rs:98-111 | every run makes progress exactly for request limits from 1 to 65535 |
| Mappings.SortIsStable | driver/modbus/src/driver.rs:541-544 | the sort by address keeps every mapping, and the order of those with one address |
| Validation.CheckMapping | driver/fins/src/driver.rs:910-948 | the checks on one mapping accept exactly the mappings that no check rejects, and the error is that of the first of the five that does |
| Validation.AdjacentCheckIsExact | driver/fins/src/driver.rs:950-979 | comparing neighbours of the sorted mappings accepts exactly the lists in which no address below the top is claimed twice |
| Validation.Validate | driver/modbus/src/driver.rs:889-966 | validation accepts exactly acceptable mappings with no address of a table below the top claimed twice, in whatever order the tables are looked at; an error names the first mapping that fails on its own, or two neighbours of one table that overlap |
| Validation.TopAddressIsNotChecked | driver/modbus/src/driver.rs:947-965 | two mappings of the top address pass |
| Validation.ValidatedAreDisjoint | driver/modbus/src/driver.rs:942-965 | validated mappings of one space that end below the top share no word |
| Validation.ValidRunsHoldNoOverlap | driver/fins/src/driver.rs:950-979 | without doubly claimed addresses a run has as many words as its mappings together |
| CoilPacking.PackCoils | driver/modbus/src/driver.rs:622-634 | the packing loop computes the packed words |
| CoilPacking.PackedBit | driver/modbus/src/driver.rs:622-634 | bit b of word w is coil 16 w + b, and padding bits are 0 |
| CoilReads.CoilReadIsExactAtOffsetZero | driver/modbus/src/driver.rs:612-705 | a one-coil tag shows its own coil in every device state exactly at offset 0 of its request with the first bit selected |
| GroupedReads.GroupedReadRefinesDirect | driver/fins/src/driver.rs:740-902 | after a cycle answered from memory that runs to its end, a word-backed tag that lies in one chunk has exactly what a read of its own words decodes to |
| GroupedReads.RequestsAreFull | driver/modbus/src/driver.rs:565-583 | a request reads at most 125 registers or 2000 coils, with FINS the configured number of words, and one that reads less ends in front of an unmapped word |
| Scatter.ChunkLeaves | driver/modbus/src/driver.rs:677-754 | what the data of a group leave of a tag by the words the two share: nothing, a configuration error (FINS: a short payload), or what its piece decodes to |
| GroupedReads.CycleOrderDoesNotMatter | driver/modbus/src/driver.rs:528-540 | registry values and qualities do not depend on the order the functions are read in |
| Scatter.PiecesTileTheMapping | driver/modbus/src/driver.rs:677-705 | straddling or not, a mapping's slices in chunk order are exactly its words |
| DatePanics.CycleEndsExactly | driver/fins/src/driver.rs:348-362 | for every plan and memory, a FINS cycle answered from memory runs to its end if and only if no group gives a defined date tag words behind the last date |
| DatePanics.SomeMemoryPanics | driver/fins/src/driver.rs:348-362 | some memory ends the cycle in a panic if and only if some group gives a defined date tag four words or more |
| Straddling.StraddlingIsDecodedPiecewise | driver/modbus/src/driver.rs:677-754 | a cycle acts on a mapping's tag once a piece, in address order, each piece decoded alone |
| Straddling.GroupedReadIsExact | driver/fins/src/driver.rs:843-902 | for every type, width and order the grouped read equals the direct read in every memory over which the cycle runs to its end, if and only if the mapping lies in one chunk, never decodes, or is decided by the second of its two words |
| Ids.BinarySearch | core-model/src/tag_store.rs:138-144 | the search finds an id's place in the sorted cache, or where it belongs |
| Ids.LessAtFirstDifference | core-model/src/tag_store.rs:138-144 | the lesser of two ids has the lesser character at their first difference, or ends there |
| TagStores.TagStore.Insert | core-model/src/tag_store.rs:103-152 | an insert replaces or adds one tag, keeps every slot's number, and sends it to each connected subscriber with fewer than 128 events pending |
| TagStores.TagStore.UpdateValueWithExpected | core-model/src/tag_store.rs:183-215 | an update of matching type on a known tag replaces value, quality and both timestamps and sends the new tag to the subscribers with room; any other changes nothing |
| TagStores.TagStore.SetQuality | core-model/src/tag_store.rs:218-240 | a quality change on a known tag keeps its value and source timestamp, sets the server timestamp, and sends the new tag to the subscribers with room |
| TagStores.TagStore.BroadcastChange | core-model/src/tag_store.rs:76-97 | each connected subscriber with fewer than 128 pending events gets exactly this one behind them; every other channel, and the list, stay as they are |
| TagStores.AppendIsUpdate | core-model/src/tag_store.rs:130-148 | a new slot keeps the index a bijection and the cache strictly sorted, and adds exactly one tag |
| TagStores.SlotCount | core-model/src/tag_store.rs:243-278 | slots, index, cache and tags are equally many |
| Registries.DefinitionsFrom | core-model/src/tag_definition_store.rs:17-33 | definitions are accepted exactly if every id, name and address has a character that is not white space and no id repeats, and are then found by id; the error names the first that is not |
| Registries.FromDefinitions | core-model/src/registry.rs:25-52 | the registry starts with one tag a definition: zero, false, empty or the current time by its type, initializing, both timestamps at the current time |
| Registries.TagRegistry.UpdateTagValue | core-model/src/registry.rs:75-87 | a value is taken over exactly if the tag is defined, known and of that type, and the error tells which of these fails first |
| Registries.EffectsKeepTypes | core-model/src/registry.rs:75-93 | whatever drivers do, every tag keeps its defined type and no tag comes or goes |
| Registries.OnlyOwnEffectsMatter | core-model/src/tag_store.rs:183-240 | a tag's value and quality depend on the effects on that tag alone |
| StoreMachines.StepKeeps | core-model/src/tag_store.rs:103-240 | every load or store step of any thread keeps the invariant and renumbers no slot |
| StoreMachines.ReachableStatesAreSound | core-model/src/tag_store.rs:183-240 | in every interleaving the index is a bijection, the cache is sorted, values have their types and came with their source timestamps |
| StoreMachines.SlotsAreStable | core-model/src/tag_store.rs:103-152 | slots are never lost or renumbered between reachable states |
| StoreMachines.OnlyQualityChangesLoseUpdates | core-model/src/tag_store.rs:204-240 | an update's store step puts its own value, quality and source timestamp; a quality change's puts back value and source timestamp it loaded, and so acts as if atomic exactly if they are still the current ones |
| StoreMachines.UpdateCanBeLost | core-model/src/tag_store.rs:218-240 | a reachable state in which a finished update's value is gone |
| StoreMachines.UndisturbedIsAtOnce | core-model/src/tag_store.rs:103-240 | from every reachable state, an operation whose steps nothing disturbs ends and does to the tags exactly what the call does in one go |
| FinsFrames.DeframeInvertsWrap | driver/fins/src/driver.rs:152-158 | any list of payloads framed back to back is received as that list |
| FinsFrames.BlockParses | driver/fins/src/driver.rs:173-196 | a read or write block is read back as built, its address modulo 2^24 |
| FinsFrames.AddressSurvives | driver/fins/src/driver.rs:173-196 | an address survives the block exactly if it is below 2^24 |
| FinsFrames.ResponseParses | driver/fins/src/driver.rs:198-209 | a response in the frame layout parses to its session id, end code and data |
| FinsFrames.SidsRepeatEvery256 | driver/fins/src/driver.rs:449-451 | two requests share a session id exactly if a multiple of 256 requests lies between them |
| FinsCycles.ReadFrameInBytes | driver/fins/src/driver.rs:152-182 | the request for a group, byte by byte |
| FinsCycles.WriteFrameInBytes | driver/fins/src/driver.rs:152-196 | the request for a write, byte by byte |
| FinsDrivers.FinsDriver.constructor | driver/fins/src/driver.rs:58-127 | a new driver holds the plan of all its areas, is not connected, and starts with session id 1 |
| FinsDrivers.AreasAscend | driver/fins/src/driver.rs:58-115 | the areas are planned in ascending order of their codes |
| FinsDrivers.AreasAreMapped | driver/fins/src/driver.rs:61-65 | the areas planned are exactly those with a mapping |
| FinsDrivers.FinsDriver.DrainWrites | driver/fins/src/driver.rs:525-738 | a cycle answers the oldest 64 requests at most, in order, each with its outcome, and leaves the others queued |
| FinsDrivers.FinsDriver.ScatterChunk | driver/fins/src/driver.rs:843-902 | a chunk's data reaches its mappings in order, cut at word boundaries, up to one whose date panics |
| FinsDrivers.FinsDriver.RunReadCycle | driver/fins/src/driver.rs:503-906 | the object's cycle is the cycle function: connection, queue, replies, session counter, tags, and whether it panics |
| FinsLaws.StaleReplyConfirmsNothing | driver/fins/src/driver.rs:661-677 | a successful reply is taken for that of a request `lag` requests later exactly if 256 divides `lag` |
| FinsLaws.ConfirmedByAcceptedReply | driver/fins/src/driver.rs:661-717 | a write is answered with success exactly if its own exchange brought its session id and end code 0 |
| FinsLaws.PublishedByAcceptedReply | driver/fins/src/driver.rs:740-902 | a value the reads publish was decoded from what the run received for that very group, from the group's own station in the run, with its session id and end code 0 |
| FinsLaws.StationsFollow | driver/fins/src/driver.rs:449-451 | the k-th station of a run has made k more exchanges and carries the k-th session id |
| FinsLaws.OnlyAcceptedRepliesChangeValues | driver/fins/src/driver.rs:503-906 | over a cycle and any network, a value changes only by a confirmed write of it or by a reply that the run received for one of the tag's groups, accepted there, and that decodes to it |
| FinsLaws.StoppedReads | driver/fins/src/driver.rs:755-841 | a failed group ends the reads, and its tags end with the quality of the failure, none of them good |
| FinsLaws.LaterTagsStay | driver/fins/src/driver.rs:755-841 | wherever the reads end, by a failure or a panic, tags that no group so far lists stay exactly as they were |
| FinsLaws.PanicHasGroup | driver/fins/src/driver.rs:740-902 | on any network the reads panic exactly if the reply that the last group read accepts, from its own station of the run, holds a date behind the last |
| FinsCycles.FirstPanicCuts | driver/fins/src/driver.rs:862-902 | the data of a group reach exactly the mappings in front of the first whose date panics |
| FinsLaws.WhatEndsReads | driver/fins/src/driver.rs:755-902 | a group ends the reads with a failure exactly for no payload, no response or a refusal of this very request, and in a panic exactly for an accepted reply with a date behind the last |
| FinsOutcomes.ExchangeInBytes | driver/fins/src/driver.rs:768-810 | an exchange yields the payload its header announces and leaves the bytes behind it unread, if there is a stream and the whole frame; any failure drops the stream |
| FinsOutcomes.DrainLeaves | driver/fins/src/driver.rs:525-738 | over a whole drain on any network: each request's outcome, the quality of its tag and its value, by the payload it received; a write not confirmed leaves the value, other tags stay |
| FinsOutcomes.ShortReplyLeaves | driver/fins/src/driver.rs:843-860 | an accepted reply with too few bytes marks exactly the tags that share words with the group, and the reads go on |
| FinsDevices.GroupIsReadExactlyBelow24Bits | driver/fins/src/driver.rs:173-182 | a controller answers a group's request with its words in every memory exactly if the group starts below 2^24 |
| FinsDevices.FaithfulReads | driver/fins/src/driver.rs:740-902 | against a controller that answers frames from memory the reads panic exactly if that memory holds a date that does, and otherwise are exactly the reads of that memory |
| FinsDevices.WriteIsCarriedOut | driver/fins/src/driver.rs:184-196 | the controller stores exactly the value's words at the mapping's address, and acknowledges |
| FinsDevices.GenuineAcknowledgementIsStored | driver/fins/src/driver.rs:661-717 | if what arrives is an answer less than 256 exchanges old, an acknowledgement is the answer to this very write, which stored exactly its words |
| FinsDevices.GenuineReadIsOwnWords | driver/fins/src/driver.rs:740-902 | if what arrives for a group is an answer less than 256 exchanges old, a value the reads publish from it decodes the device's own words of that group, at its start modulo 2^24 |
| FinsDevices.WritesThenReads | driver/fins/src/driver.rs:525-902 | against a faithful controller exactly the requests with a writable mapping are confirmed, and the reads see all written words, or panic exactly if a date among them does |
| FinsStreams.SurplusFrameShifts | driver/fins/src/driver.rs:768-800 | one frame left unread puts the next exchange's answer a request behind |
| FinsStreams.StaysOutOfStep | driver/fins/src/driver.rs:768-800 | on a stream out of step an exchange gets the answer to an earlier request, of the right session id exactly if 256 divides the shift, and the shift stays |
| FinsStreams.OutOfStepForEver | driver/fins/src/driver.rs:503-906 | unless 256 divides the shift, no cycle of any run publishes a value or confirms a write, with a peer that answers every request once |
| FinsStreams.ListedTagsAreLost | driver/fins/src/driver.rs:812-822 | what those reads do: no value changes, and exactly the listed tags are marked as lost |
| ModbusDrivers.ModbusDriver.DrainWrites | driver/modbus/src/driver.rs:272-490 | requests are answered in order up to one whose failure ends the cycle, that one included; the others stay queued |
| ModbusDrivers.ModbusDriver.RawBytes | driver/modbus/src/driver.rs:585-672 | a read's data become bytes, registers directly and coils packed |
| ModbusDrivers.ModbusDriver.ReadGroupChunks | driver/modbus/src/driver.rs:565-798 | a contiguous group is read in protocol-sized chunks up to a failure that ends the cycle |
| ModbusDrivers.ModbusDriver.RunReadCycle | driver/modbus/src/driver.rs:269-808 | the object's cycle is the cycle function for some order of the functions; a cycle with requests queued answers at least one |
| ModbusLaws.SilentFailuresShowNothing | driver/modbus/src/driver.rs:756-797 | over a cycle, a tag whose groups all fail with texts the driver does not look for ends exactly as it was |
| ModbusLaws.FailedReadMarks | driver/modbus/src/driver.rs:756-786 | a failed read changes no value, and sets the failure's quality on exactly its group's tags if noticed |
| ModbusOutcomes.FailedReadLeaves | driver/modbus/src/driver.rs:756-786 | by the text of a failed read: which quality its tags get, which tags stay, and whether it ends the reads |
| ModbusOutcomes.SuccessfulReadLeaves | driver/modbus/src/driver.rs:612-754 | a listed tag ends with what its own part of the data makes of it, registers directly and coils packed, a tag not listed as it was |
| ModbusOutcomes.ReadsEndExactly | driver/modbus/src/driver.rs:565-798 | on any network the reads end exactly at the first call that brings no reply, or a text of a timeout or a failing device that names no illegal address; otherwise each group is called once |
| ModbusOutcomes.CycleCompletesExactly | driver/modbus/src/driver.rs:269-808 | a cycle completes, and keeps its connection, exactly if its drain did not end it, there is or comes a connection, and no read ends it |
| ModbusOutcomes.DrainLeaves | driver/modbus/src/driver.rs:272-490 | over a whole drain on any network: each request's outcome, its tag, the client behind it and whether it ends the cycle, by the text of its own call |
| ModbusLaws.ServerDeviceFailureIsSilent | driver/modbus/src/driver.rs:760-763 | the text `ServerDeviceFailure` is not noticed |
| ModbusLaws.ConfirmedByOwnCall | driver/modbus/src/driver.rs:386-476 | a write is answered with success exactly if its own call succeeded |
| ModbusLaws.OnlySuccessfulCallsChangeValues | driver/modbus/src/driver.rs:269-808 | over a cycle and any network, a value changes only by a confirmed write of it or by the successful call, of known number, for one of the tag's groups whose data decode to it |
| ModbusLaws.FunctionOrderDoesNotMatter | driver/modbus/src/driver.rs:528-540 | cycles with the same queued writes, whose reads all succeed over the same memory, leave the same tags for every hash-map order |
| WriteQueues.RepliedExactlyOnce | driver/fins/src/driver.rs:525-738 | every drained request that asked for a reply gets exactly one, its own outcome |
| WriteQueues.QueueConserves | driver/modbus/src/driver.rs:272-490 | over every run of a queue, requests taken in are those answered followed by those waiting, in order, and never more than 256 wait |
| WriteQueues.PositionIsAnswered | driver/modbus/src/driver.rs:272-490 | if every cycle answers at least one, the request at position p is answered within p + 1 cycles |
| WriteQueues.PositionIsAnsweredSooner | driver/fins/src/driver.rs:528-530 | if every cycle answers all it may, it is answered within p / 64 + 1 |
| DriverRuns.RunFins | driver/fins/src/driver.rs:503-738 | the FINS driver over any run of arrivals and cycles: queue and replies are those of a conserving queue run, cycles that connect answer all they may, position p is answered within p / 64 + 1 of them |
| DriverRuns.RunModbus | driver/modbus/src/driver.rs:269-490 | the Modbus driver over any run: likewise, every cycle answers one if one waits, also a cycle that ends early, and position p is answered within p + 1 cycles |
| WriteHandlers.GateChecksDefinition | runtime/src/write_handler.rs:95-143 | the gate's comparison with the current value is a check of the defined type, definedness and writability |
| WriteHandlers.GateReportsFirst | runtime/src/write_handler.rs:95-143 | which of its four errors the gate gives, each with its exact condition |
| WriteHandlers.AnswerTellsCause | runtime/src/write_handler.rs:145-219 | each answer of the handler has exactly one cause on its way |
| WriteHandlers.RuntimeWriteHandler.HandleWrite | runtime/src/write_handler.rs:80-222 | a write succeeds exactly if it passes the gate, is enqueued in time and its driver reports success; it enqueues one request or none, and the error tells which |
| WriteHandlers.TagDataSource.Write | opcua-server/src/native.rs:243-312 | the status is good exactly for an accepted write in queued mode and a confirmed one in confirmed mode |
| WriteHandlers.HandlerIsBridge | runtime/src/write_handler.rs:80-222 | on the same way the handler and the machine's bridge go through the same phases, enqueue the same request and let go of it with the same answer |
| WriteHandlers.ClientHearsTheAnswer | opcua-server/src/native.rs:463-472 | whenever the bridge lets go of a write, a client that waits for it gets exactly one message, a confirmation if and only if the handler's answer is success |
| WriteHandlers.SourceIsClient | opcua-server/src/native.rs:243-312 | a client's write puts on the bridge channel what the machine's submission does, with a waiting client exactly in confirmed mode |
| WriteHandlers.AnswersMeanExactly | runtime/src/write_handler.rs:95-222 | in every reachable state: success is an acknowledgement; an error before sending, or a failure the driver reports, rules out every drain and acknowledgement to come; after an expired or closed wait some continuation drains the write exactly if its channel is empty and the poll task lives |
| WritePipelines.StepKeeps | opcua-server/src/native.rs:454-480 | every event of the write path keeps the pairing of writes, one-shot channels, queue positions and clients |
| WritePipelines.QueuesHold256 | driver/fins/src/driver.rs:58-60 | in every reachable state a driver's queue holds at most 256 requests, and the bridge can enqueue exactly while fewer wait |
| WritePipelines.ConfirmedMeansAcknowledged | opcua-server/src/native.rs:263-312 | in every reachable state a client that saw its write confirmed made a write that its driver drained with that tag and value, and that was acknowledged to the driver's own cycle step from its state in the run |
| WritePipelines.ConfirmationIsReached | opcua-server/src/native.rs:263-312 | a run in which the client of an acknowledged write sees it confirmed |
| PipelineCycles.FinsCycleIsRun | driver/fins/src/driver.rs:503-906 | from every reachable state a cycle of the FINS driver is a run of the machine, with the same outcomes and the same station behind it |
| PipelineCycles.ModbusCycleIsRun | driver/modbus/src/driver.rs:269-808 | the same for Modbus, up to the write that ends the drain |
| ConfirmedWrites.ConfirmedFinsWriteIsStored | driver/fins/src/driver.rs:556-717 | on a network whose answers are less than 256 exchanges old, a write a client saw confirmed is stored in the FINS device, exactly its words at the tag's address modulo 2^24 |
| ConfirmedWrites.ConfirmedModbusWriteIsStored | driver/modbus/src/driver.rs:318-402 | with a server that stores what it acknowledges, a write a client saw confirmed is in the registers |
| WritePipelines.NoWriteExecutesTwice | runtime/src/write_handler.rs:158-219 | no write is drained twice, in any driver, over every run |
| WritePipelines.ExecutionFollowsBridgeOrder | opcua-server/src/native.rs:454-472 | what a driver drains later came later on the bridge channel, whatever timed out in between |
| WritePipelines.OneAnswerForEver | opcua-server/src/native.rs:286-312 | a client gets at most one answer, and nothing changes what it saw once its wait ended |
| WritePipelines.DrainsLaterExactly | runtime/src/write_handler.rs:156-219 | in every reachable state, a write the bridge is done with is drained in some continuation if and only if its channel has no outcome yet and its driver's poll task lives; otherwise it is acknowledged now or never |
| WritePipelines.LostIsFinal | runtime/src/write_handler.rs:95-219 | a write without a channel, or with an error on it, is drained and acknowledged in no continuation |
| WritePipelines.FailureMayHaveExecuted | runtime/src/write_handler.rs:205-219 | a run in which the client is told of a failure and the driver then carries the write out with success |
| WriteBacks.ReadYourWrites | driver/modbus/src/driver.rs:318-402 | a fitting value is read back as itself from every memory if and only if it survives its encoding, for both drivers |
| WriteBacks.WriteLeavesOthersAlone | driver/fins/src/driver.rs:556-594 | a write leaves another mapping's words alone in every memory if and only if its words do not reach into it |
| WriteBacks.LongTextReachesNext | driver/fins/src/driver.rs:556-594 | a text reaches into the mapping directly behind exactly if it is longer than its own mapping |
| WriteLists.LastWriteIsRead | driver/fins/src/driver.rs:528-717 | after any list of fitting writes to validated mappings, a mapping reads as the value last written to it, if that survives its encoding |
| EndToEnd.FinsRunsToEndExactly | driver/fins/src/driver.rs:348-362 | a configuration's reads of a memory run to their end if and only if no date that a planned group gives a defined tag lies behind the last |
| EndToEnd.FinsCycleRefinesDirectReads | driver/fins/src/driver.rs:503-906 | byte by byte through frames and controller, a cycle panics exactly if its reads do not run to their end, and otherwise every tag in one chunk gets what a direct read gives |
| EndToEnd.FinsReadsItsWrites | driver/fins/src/driver.rs:503-906 | for any drain of fitting writes to validated mappings, exactly the requests with a target are confirmed; the cycle panics exactly if its reads do not run to their end, and otherwise each tag shows the value last written to it, and tags not named keep what their words say |
| EndToEnd.ModbusReadsItsWrites | driver/modbus/src/driver.rs:269-808 | the same for Modbus and every function order |
| Backoffs.RuntimeDriver.PollLoop | runtime/src/runtime_driver.rs:102-187 | the first cycle waits 0 seconds, one after a success 0, one after a failure 1 second or twice the last delay but at most 30: min(2^(n-1), 30) after n failures in a row; a cycle that panics is its last |
| Backoffs.LastCycleRun | runtime/src/runtime_driver.rs:102-187 | the cycles a poll task runs are all of them, or those up to the first that panics |
| Backoffs.PollDelaysOverRuns | runtime/src/runtime_driver.rs:124-183 | the delay is 0 exactly after a success, grows with every failure and stays at 30 |
| Backoffs.ConnectWithBackoff | driver/fins/src/driver.rs:134-150 | the first delay is 1 second and each later one twice the last up to the maximum, saturation notwithstanding |
| Backoffs.MaximumIsKept | driver/modbus/src/driver.rs:132-151 | the first delay alone can exceed the maximum, only for a maximum of 0, and then later delays are 0 |

## Left out

- Straddling.GroupedReadIsExact: for FINS, no other date tag shares words with the mapping; validated mappings below the top address never do.
- FinsStreams.OutOfStepForEver: writes are texts and byte strings below 2^31 bytes, so that a command fits the length field of its frame.
- Codec.DecodeModbus: the RFC 3339 fallback of both decoders is an error, since fewer than eight bytes cannot hold such a date.
- ModbusDrivers.ModbusDriver.ReadGroupChunks: the break on an address beyond 65535 is left out, because no group reaches there under the stated address bound.
- FinsDrivers.FinsDriver.ExecuteWrite: the conversion error and the odd-length check are left out, because neither can happen; an encoder never fails and its bytes come in pairs.
- FinsDrivers.FinsDriver.Transact: connecting, sending and the two reads are one exchange with a given outcome; waiting for bytes that never come is a stream that ends.
- WritePipelines.Step: a driver that stops and drops its queue is covered only as a confirmation that fails; requests in a dropped queue simply are never drained. Drains, connections and reads of a driver come in any order; every real cycle is among the runs (`PipelineCycles`).
- StoreMachines.Step: a slot's identity is its number, where the code shares a handle; the events to subscribers, and the one a racing insert does not send, are not part of the machine.
- TagStores.TagStore.Insert: the object's methods are undisturbed runs, apart from which `StoreMachines` takes the steps singly.
- FinsDevices.React: bit addressing, routing (the controller asks for the header this driver sends) and other commands than memory read and write are not part of the controller.
- Requests that arrive while a cycle drains are treated as arriving before the drain, if it reaches them, or after the cycle.
- Floats are bit patterns; arithmetic on them, and NaN payloads, play no part.
- Texts are their UTF-8 bytes with a validity predicate; other string operations of the platform are not part of this model.
- `try_update_with` of the store, whose closure can break type and timestamp pairing, and inserts after start-up.
- Staleness marking, health events, logging, TOML and YAML configuration, security and certificates, the OPC UA address space, variant and status conversion.
- Coil tags other than single coils; discrete inputs behave alike.
- Overflow checks of debug builds: a log message on a short Modbus payload subtracts an offset from a length that may be smaller; logging is not part of this model.
- Timers and the task scheduler: every timeout is an outcome that may happen.
