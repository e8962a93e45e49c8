# Models of the protocol code in the Bluetooth and MQTT firmware

This project models the three protocol layers of the firmware and proves what they are for.

* **Bluetooth HCI transport.** ACL packets are cut into fragments in place, the fragments of many
  connections are put together again through a table of partial packets, and commands go out under the
  controller's credits (Bluetooth Core, Vol 2 Part E, sections 4.4 and 5.4.2). `AclFraming` is the byte
  level: fragmentation, quotas, reassembly, and the round trip under every interleaving.
  `PacketFragmenter` and `PacketReassembler` are the code itself on `BT_HDR` buffers. `HciHost` is the host
  task and the event filter as one machine over atomic steps, with laws for every run; `HciProgress` what
  its steps achieve, from the bytes of an event or a packet to the wire; `HciLayer` is the code, each
  method being one step of that machine.
* **OSI containers and configuration.** `LinkedList`, `HashMap` and `BufferRefs` are heap models with
  their representation invariants. `FixedQueue` is the two-semaphore queue, any number of threads
  interleaved step by step, and `FixedQueueCalls` the same seen from its callers. `ConfigText`,
  `ConfigLines`, `ConfigStore` and `ConfigFile` are the text form of the configuration, its single lines,
  its chunks in flash, and the loops that write and read both.
* **MQTT 3.1.1.** `MqttLength` and `MqttPublish` give the bytes of packets and the round trips, and
  `MqttReaders` the packets that only a broker reads; `MqttWriter` has the serializers and readers on
  buffers; `MqttReadnb` the resumable reader and its refinement of the blocking one, `MqttOversize` what
  both do with a packet that does not fit; `MqttSession` and `MqttClient` the acknowledgement, keep-alive
  and connection machine, with `MqttAnswers` deriving from packet bytes what each call does and returns;
  `Topics` and `TopicNames` the topic builder, matcher and parser.
* **Controller memory.** `BtMemory` is the release of controller memory and the life cycle around it,
  over any region table.

`Bytes` and `Decimal` hold shared vocabulary. The imperative code is modelled by classes and methods
proved against functions of values; the theorems over all inputs, runs and interleavings are about those
functions.

Where the code does less than its documentation or its tests suggest, the model follows the code and the
exact condition is proved: the chunk store is faithful if and only if the text is shorter than 15360 bytes
(`ChunkStoreExact`); the text form if and only if no section is empty (`RoundTripIffInhabited`) and no line
is longer than 1022 characters (`WrittenRoundTrip`); the publish reader's return code
(`PublishReturnCode`, with a packet that shows it in `PublishReturnCodeMisleads`); the announced connect
length (`ConnectLengthExact`); `MQTTPacket_len` (`PacketLenExact`); the resumable reader fails exactly when
the four answers behind the header's bring too few length bytes (`FifthAttemptFails`, with a schedule that
shows it in `StallsLosePacket`) and never returns a packet without a body (`EmptyBodyNeverReturned`); a
channel has a topic name of its own exactly when its digits fit the suffix buffer (`OwnNameExact`).

## Model

| member | source | states |
|---|---|---|
| `AclFraming.ContinuationFieldKeeps` | components/bt/bluedroid/hci/packet_fragmenter.c:32-40 | the continuation field has boundary flag 01, keeps handle and broadcast bits, and is idempotent |
| `AclFraming.MacrosOnBytes` | components/bt/bluedroid/hci/packet_fragmenter.c:32-40 | the three masks on the 16-bit word read from the stream give the handle, the flag, and exactly the bytes of the continuation field |
| `AclFraming.FragmentsPartition` | components/bt/bluedroid/hci/packet_fragmenter.c:87-128 | fragment payloads in order are the packet's payload; every fragment but the last is full, no fragment exceeds the data size, length fields are right, the first keeps the handle field and the rest carry the same handle as continuations |
| `AclFraming.QuotaSplitsStream` | components/bt/bluedroid/hci/packet_fragmenter.c:96-124 | a quota k sends exactly k fragments before a hand-back, which happens iff there are more than k; the packet handed back is a consistent continuation with exactly the unsent payload, and sending it later completes the unlimited stream |
| `AclFraming.RunKeeps` | components/bt/bluedroid/hci/packet_fragmenter.c:131-219 | after every inbound run each partial is short of its announced size, belongs to its handle, starts a packet, and everything delivered is counted by its own length field |
| `AclFraming.NonInterference` | components/bt/bluedroid/hci/packet_fragmenter.c:147-219 | seen from one handle, a run over interleaved traffic is the run over that handle's packets alone: same partial, same deliveries in order |
| `AclFraming.PartialIsItsHistory` | components/bt/bluedroid/hci/packet_fragmenter.c:152-215 | after any inbound run the partial of a handle is exactly the last start packet with its length field rewritten, followed by all continuation payloads since; nothing is held otherwise |
| `AclFraming.DeliveryIsItsHistory` | components/bt/bluedroid/hci/packet_fragmenter.c:152-215 | what one more packet makes the reassembler deliver is determined by the inbound packets alone: a whole start packet as it is, or the packet that the last start packet and all payloads since make up, at the moment it is complete |
| `AclFraming.OnePacketRoundTrip` | components/bt/bluedroid/hci/packet_fragmenter.c:72-219 | the fragments of one packet, for any data size of at least 2, reassemble to exactly that packet |
| `AclFraming.StreamRoundTrip` | components/bt/bluedroid/hci/packet_fragmenter.c:72-219 | the same for any list of packets sent one after the other on a connection |
| `AclFraming.InterleavedRoundTrip` | components/bt/bluedroid/hci/packet_fragmenter.c:72-219 | for every interleaving of the fragment streams of distinct handles, each handle's packets are delivered complete and in order and nothing else is, no partial remains, and no 16-bit sum wraps |
| `PacketFragmenter.Fragmenter.FragmentAndDispatch` | components/bt/bluedroid/hci/packet_fragmenter.c:72-129 | one dispatch: what the callback sees, the packet left in place as the remainder although its header overwrites sent bytes, the current packet, the quota and the hand-back; with a low event byte of 0 a fragment has at most the classic size, otherwise the LE size, cut fragments have exactly that, what fits and what is no ACL packet goes out whole |
| `PacketFragmenter.Fragmenter.TransmitToEnd` | components/bt/bluedroid/hci/packet_fragmenter.c:87-128 | dispatching while the packet is current ends, the callbacks are exactly those of the quota run of its bytes, and their sizes are the classic or the LE size as the event says |
| `PacketFragmenter.Fragmenter.CutInPlace` | components/bt/bluedroid/hci/packet_fragmenter.c:97-108 | the two header writes at the moving offset leave the remainder of the original bytes in the same buffer |
| `PacketReassembler.Reassembler.ReassembleAndDispatch` | components/bt/bluedroid/hci/packet_fragmenter.c:131-219 | one table step of the byte model on buffers; exactly the packet and at most the partial it replaces or completes join what was disposed of before, none a second time; every buffer taken in or made is disposed of or in the table |
| `PacketReassembler.Reassembler.StartPacket` | components/bt/bluedroid/hci/packet_fragmenter.c:152-183 | a start packet frees the unfinished one, then is delivered as it is, or opens a new partial with the rewritten length and is freed; nothing else is disposed of |
| `PacketReassembler.Reassembler.ContinuePacket` | components/bt/bluedroid/hci/packet_fragmenter.c:191-214 | a continuation appends what fits and is freed; the partial is delivered and leaves the table exactly when it is complete |
| `PacketReassembler.Reassembler.StripType` | components/bt/bluedroid/hci/hci_hal_h4.c:188-237 | reading type and length byte by byte accepts an ACL buffer iff its two length bytes count its payload, SCO and event buffers iff their length byte does, sets the event code of the type, and leaves the packet without its type byte |
| `PacketReassembler.Reassembler.HandleRxPacket` | components/bt/bluedroid/hci/hci_hal_h4.c:188-239 | an accepted ACL buffer satisfies the reassembler's length assertion and makes one table step with its deliveries; an SCO buffer is handed up as it came; a rejected one is freed and changes nothing else; an event is left to the event filter untouched |
| `PacketReassembler.Reassembler.DrainQueue` | components/bt/bluedroid/hci/hci_hal_h4.c:241-248 | draining a whole queue: every buffer is freed or handed up exactly once, except that events are passed on; every partial made is disposed of once or still in the table; earlier disposals stay; table and deliveries are those that `ReceiveIsRun` determines |
| `PacketReassembler.ReceiveIsRun` | components/bt/bluedroid/hci/hci_hal_h4.c:188-248 | draining a queue leaves the table of the run over its accepted ACL packets; the ACL packets handed up are that run's in order, the SCO packets handed up are the accepted ones in order |
| `PacketReassembler.DrainRoundTrip` | components/bt/bluedroid/hci/hci_hal_h4.c:188-248 | a queue whose accepted ACL buffers are any interleaving of the fragment streams of distinct handles hands up each handle's packets complete and in order, and no other ACL packet |
| `HciHost.NothingInBetween` | components/bt/bluedroid/hci/hci_layer.c:213-247 | in a log that obeys the span rule, from a packet's first fragment up to and including its last fragment or hand-back nothing is transmitted or handed back but that packet |
| `HciHost.KeepsSpan` | components/bt/bluedroid/hci/hci_layer.c:213-247 | every step obeys the span rule, and a span is open exactly while a packet is current |
| `HciHost.KeepsCredits` | components/bt/bluedroid/hci/hci_layer.c:314-331 | every step keeps credits equal to the last advertised value minus the commands sent since |
| `HciHost.KeepsTimer` | components/bt/bluedroid/hci/hci_layer.c:376-388 | every step keeps the timer set exactly while responses are outstanding |
| `HciHost.KeepsOnePlace` | components/bt/bluedroid/hci/hci_layer.c:342-374 | every step keeps each buffer in exactly one place: queued, pending, current, or at one fate |
| `HciHost.KeepsOrder` | components/bt/bluedroid/hci/hci_layer.c:249-331 | every step keeps: the commands on the wire followed by those queued are the commands submitted, in order |
| `HciHost.KeepsDataOrder` | components/bt/bluedroid/hci/hci_layer.c:300-340 | every step keeps: the data packets begun on the wire followed by those queued are the data packets submitted, in order |
| `HciHost.EveryRunDataInOrder` | components/bt/bluedroid/hci/hci_layer.c:300-340 | after every run the data packets begun are a prefix of those submitted and the queue holds the rest |
| `HciHost.EveryRunFlows` | components/bt/bluedroid/hci/hci_layer.c:153-193 | after every run from the initial state: credits are the allowance (initially 1) minus commands sent since and never negative, the timer runs iff responses are outstanding, the wire obeyed the span rule and the span is open iff a packet is current |
| `HciHost.EveryBufferOnePlace` | components/bt/bluedroid/hci/hci_layer.c:435-495 | after every run every buffer submitted or received is in exactly one place once: none is lost, freed twice, or both freed and handed on |
| `HciHost.EveryCommandOnePhase` | components/bt/bluedroid/hci/hci_layer.c:249-331 | after every run commands have gone out in submission order and each is in exactly one of queued, pending and finished |
| `HciHost.EveryContinuationOnce` | components/bt/bluedroid/hci/hci_layer.c:435-495 | after every run, for each command: its completion callback, or else its future, has run exactly once if Command Complete finished it and it asked for that, its status callback exactly once if Command Status did, and otherwise they have never run |
| `HciHost.KeepsCalled` | components/bt/bluedroid/hci/hci_layer.c:423-496 | every step keeps, per command and continuation: it has run as often as the command was finished that way and had asked for it |
| `HciHost.PhaseForward` | components/bt/bluedroid/hci/hci_layer.c:314-331 | no step moves a command backwards |
| `HciHost.Oldest` | components/bt/bluedroid/hci/hci_layer.c:525-546 | the entry found is the first with that opcode; none is found iff there is none |
| `HciProgress.CompleteOnBytes` | components/bt/bluedroid/hci/hci_layer.c:435-438 | a Command Complete laid out by its fields is parsed into them (Bluetooth Core, Vol 2 Part E, section 7.7.14) |
| `HciProgress.StatusOnBytes` | components/bt/bluedroid/hci/hci_layer.c:449-453 | the same for Command Status (section 7.7.15) |
| `HciProgress.OtherOnBytes` | components/bt/bluedroid/hci/hci_layer.c:430-467 | an event is neither iff its first byte is neither code |
| `HciProgress.CompleteFinishesOldest` | components/bt/bluedroid/hci/hci_layer.c:435-495 | the bytes of a Command Complete finish the oldest pending command with that opcode, set the credits and the timer, and give the event to its callback, or else its future, or else free it; the command is freed |
| `HciProgress.StatusFinishesOldest` | components/bt/bluedroid/hci/hci_layer.c:449-495 | the same for Command Status: the command goes to its status callback or is freed, the event is freed |
| `HciProgress.UnmatchedOnlyCredits` | components/bt/bluedroid/hci/hci_layer.c:435-495 | without a pending command of that opcode the event sets the credits and is freed, and no command changes its phase |
| `HciProgress.OtherEventGoesUp` | components/bt/bluedroid/hci/hci_layer.c:411-418 | any other event changes nothing but that it reaches the upper layer iff that takes it, and is freed otherwise |
| `HciProgress.CurrentPacketFinishes` | components/bt/bluedroid/hci/hci_layer.c:213-247 | whatever is submitted or arrives in between, k turns put exactly the first k fragments of the current packet's quota run on the wire; the last one ends it, with a hand-back iff the run has one |
| `HciProgress.BegunPacketFinishes` | components/bt/bluedroid/hci/hci_layer.c:213-247 | the same from the turn that takes the packet from the queue |
| `HciProgress.TurnSendsCommand` | components/bt/bluedroid/hci/hci_layer.c:235-238 | with no packet current, a credit and a queued command, a turn sends the oldest command not yet sent |
| `HciProgress.TurnSendsData` | components/bt/bluedroid/hci/hci_layer.c:239-243 | otherwise it sends from the oldest data packet not yet begun, the first fragment or the whole |
| `HciProgress.UncutPacketFinishes` | components/bt/bluedroid/hci/hci_layer.c:239-243 | a packet that fits, or is no ACL packet, goes out whole in that turn and is freed |
| `HciProgress.HandedBackGoesUp` | components/bt/bluedroid/hci/hci_layer.c:354-374 | a packet handed back reaches the upper layer iff that takes it, and is freed otherwise |
| `HciLayer.Layer.HostTurn` | components/bt/bluedroid/hci/hci_layer.c:213-247 | one iteration of the host task is one machine step: the current packet first, then a command if there is a credit, then a packet; what the step achieves is stated in `HciProgress` |
| `HciLayer.Layer.TransmitCommand` | components/bt/bluedroid/hci/hci_layer.c:249-277 | submitting a command with callbacks is one machine step, its opcode read from its bytes |
| `HciLayer.Layer.TransmitCommandFutured` | components/bt/bluedroid/hci/hci_layer.c:279-298 | submitting a command with a future is one machine step, its opcode read from its bytes |
| `HciLayer.Layer.TransmitDownward` | components/bt/bluedroid/hci/hci_layer.c:300-312 | a command handed down is submitted without callbacks, anything else is queued as data: one machine step each |
| `HciLayer.Layer.EventCommandReady` | components/bt/bluedroid/hci/hci_layer.c:314-331 | the front command takes one credit, becomes the last pending one, is sent, and the timer is set |
| `HciLayer.Layer.EventPacketReady` | components/bt/bluedroid/hci/hci_layer.c:333-340 | the front packet goes to the fragmenter |
| `HciLayer.Layer.FragmentAndDispatch` | components/bt/bluedroid/hci/hci_layer.c:342-374 | a dispatch together with the transmit callbacks: log, current packet, and the free or hand-back at its end |
| `HciLayer.Layer.RestartCommandTimer` | components/bt/bluedroid/hci/hci_layer.c:376-388 | the timer is set iff the pending list is non-empty |
| `HciLayer.Layer.EventArrives` | components/bt/bluedroid/hci/hci_layer.c:411-505 | an incoming event, given as its bytes, is one machine step; what the step achieves is stated in `HciProgress` |
| `HciLayer.Layer.FilterIncomingEvent` | components/bt/bluedroid/hci/hci_layer.c:423-496 | an event is intercepted iff its first byte is that of Command Complete or Command Status, with the credits and opcode read from its bytes at their offsets |
| `HciLayer.Layer.Settle` | components/bt/bluedroid/hci/hci_layer.c:435-495 | event and command are each freed or given to one callback or future, never both; a future is completed only by Command Complete |
| `HciLayer.Layer.GetWaitingCommand` | components/bt/bluedroid/hci/hci_layer.c:525-546 | the oldest pending entry with the opcode is taken off the list, the others keep their order |
| `FixedQueue.StepIsSafe` | components/bt/bluedroid/osi/fixed_queue.c:132-163 | no give is lost on a full semaphore, no dequeuer past its semaphore meets an empty list, the list never exceeds the capacity |
| `FixedQueue.KeepsSlots` | components/bt/bluedroid/osi/fixed_queue.c:132-182 | each step of any thread keeps: free slots, in-flight enqueuers, items and in-flight releasers add up to the capacity |
| `FixedQueue.KeepsItems` | components/bt/bluedroid/osi/fixed_queue.c:132-182 | each step keeps: the list is the announced items plus those between list and semaphore; no step crashes |
| `FixedQueue.EveryInterleaving` | components/bt/bluedroid/osi/fixed_queue.c:40-182 | for any number of threads and every interleaving both counting laws, mutual exclusion, the capacity bound and first-in first-out hold, and no dequeuer finds an empty list |
| `FixedQueueCalls.EveryCallInOrder` | components/bt/bluedroid/osi/fixed_queue.c:132-182 | in every run the items appended are those removed followed by the list; each thread appends exactly the arguments of its calls in call order, but for one in flight, and its dequeues return exactly what they removed, in order, but for one in flight |
| `FixedQueue.NoDeadlock` | components/bt/bluedroid/osi/fixed_queue.c:132-182 | while a thread is in the middle of an operation, some such thread can take a step |
| `ConfigText.SetThenLookup` | components/bt/bluedroid/osi/config.c:227-250 | setting a key is a map update: it reads back and every other section and key is as before |
| `ConfigLines.NamesAfterSet` | components/bt/bluedroid/osi/config.c:227-250 | sections keep their order; a new one goes to the back or to the front as asked |
| `ConfigLines.KeysAfterSet` | components/bt/bluedroid/osi/config.c:239-250 | keys keep their order; a new one goes to the end |
| `ConfigLines.EveryLinePadded` | components/bt/bluedroid/osi/config.c:489-506 | trimming takes off exactly the white space at both ends of a line |
| `ConfigLines.SectionSets` | components/bt/bluedroid/osi/config.c:575-582 | however padded, a name in brackets sets the section and nothing else |
| `ConfigLines.EntrySets` | components/bt/bluedroid/osi/config.c:583-590 | however padded, key and value around the first '=' set that key to that value in the section |
| `ConfigLines.IgnoredExact` | components/bt/bluedroid/osi/config.c:570-588 | a line changes no reader iff it is blank, a comment, an unclosed section name, or has no '=' |
| `ConfigText.ReadRendered` | components/bt/bluedroid/osi/config.c:508-610 | the scanning loop reads exactly the lines that were written, one after the other |
| `ConfigText.TextRoundTrip` | components/bt/bluedroid/osi/config.c:378-610 | parsing the saved text into an empty configuration restores sections and entries in order, without the empty sections |
| `ConfigText.RoundTripIffInhabited` | components/bt/bluedroid/osi/config.c:378-610 | with lines that fit, it restores the configuration iff every section has an entry |
| `ConfigText.WrittenRoundTrip` | components/bt/bluedroid/osi/config.c:406-594 | what is really written, line buffer included, is read back as the same configuration without empty sections iff every line has at most 1022 characters |
| `ConfigStore.KeyNames` | components/bt/bluedroid/osi/config.c:431-451 | chunk keys below ten are distinct; from ten on a key is that of a single-digit chunk |
| `ConfigStore.ChunkStoreExact` | components/bt/bluedroid/osi/config.c:334-487 | over any earlier flash content, loading gives the saved text back iff it is shorter than 15360 bytes |
| `ConfigStore.SaveThenParse` | components/bt/bluedroid/osi/config.c:378-610 | save then parse into an empty configuration restores it, even over a larger earlier save |
| `ConfigStore.SaveThenParseExact` | components/bt/bluedroid/osi/config.c:378-610 | the same for lines of any length: the configuration comes back iff they fit the line buffer |
| `ConfigStore.ReadingEnds` | components/bt/bluedroid/osi/config.c:532-551 | the chunk loop ends iff one of the ten single-digit blobs is missing or short; no save leaves the flash otherwise |
| `ConfigFile.TrimInPlace` | components/bt/bluedroid/osi/config.c:489-506 | the two-pointer loop removes exactly the white space at both ends |
| `ConfigFile.Store.SetString` | components/bt/bluedroid/osi/config.c:227-250 | the searching and inserting code is the map update above, new sections at the chosen end, new keys last |
| `ConfigFile.Store.GetConfigSize` | components/bt/bluedroid/osi/config.c:306-332 | the size is exactly the bytes written plus one |
| `ConfigFile.Store.FillBuffer` | components/bt/bluedroid/osi/config.c:406-430 | the buffer gets every line through the 1024-byte line buffer: whole when it fits, else cut with a terminator and followed by what lies behind that buffer |
| `ConfigFile.Store.Save` | components/bt/bluedroid/osi/config.c:378-487 | the flash afterwards is that buffer in chunks, written over what it held |
| `ConfigFile.Store.LoadText` | components/bt/bluedroid/osi/config.c:527-551 | the chunk loop collects exactly the text that the flash holds, or fails on an oversized blob |
| `ConfigFile.Store.ParseFlash` | components/bt/bluedroid/osi/config.c:508-610 | parsing feeds the flash's text line by line to the configuration; an unreadable blob changes nothing |
| `ConfigFile.Store.ScanLine` | components/bt/bluedroid/osi/config.c:564-594 | one line: skipped, a section header, or an entry of the current section |
| `LinkedList.List.Append` | components/bt/bluedroid/osi/list.c:139-159 | contents grow at the back; head, tail, length and the acyclic chain stay in agreement |
| `LinkedList.List.Prepend` | components/bt/bluedroid/osi/list.c:120-137 | contents grow at the front, invariant kept |
| `LinkedList.List.InsertAfter` | components/bt/bluedroid/osi/list.c:101-118 | the new element follows the given node, invariant kept |
| `LinkedList.List.Remove` | components/bt/bluedroid/osi/list.c:161-189 | removes exactly the first occurrence and reports whether there was one, invariant kept |
| `LinkedList.List.Contains` | components/bt/bluedroid/osi/list.c:60-72 | true iff the data is in the list |
| `LinkedList.List.Front` | components/bt/bluedroid/osi/list.c:79-85 | the first element |
| `LinkedList.List.Back` | components/bt/bluedroid/osi/list.c:87-92 | the last element, through the tail pointer |
| `LinkedList.List.Clear` | components/bt/bluedroid/osi/list.c:191-200 | the walk over the nodes ends and leaves an empty list |
| `HashMap.SetIsUpdate` | components/bt/bluedroid/osi/hash_map.c:132-166 | erasing the key in its bucket and appending the new entry represents the updated map, for any hash function |
| `HashMap.EraseIsRemoval` | components/bt/bluedroid/osi/hash_map.c:168-183 | removing the key from its bucket represents the map without it |
| `HashMap.RemoveFound` | components/bt/bluedroid/osi/hash_map.c:168-183 | removing the entry that was found is removing the key |
| `HashMap.FindInList` | components/bt/bluedroid/osi/hash_map.c:248-265 | the walk over a bucket's nodes finds the first entry with the key, or none |
| `HashMap.Table.Get` | components/bt/bluedroid/osi/hash_map.c:185-198 | the map's value for the key, or none |
| `HashMap.Table.HasKey` | components/bt/bluedroid/osi/hash_map.c:121-130 | true iff the map has the key |
| `HashMap.Table.Set` | components/bt/bluedroid/osi/hash_map.c:132-166 | the map updated at one key; every bucket stays a sound list sharing nothing, each key once in the bucket of its hash, and the size is the number of keys |
| `HashMap.Table.Erase` | components/bt/bluedroid/osi/hash_map.c:168-183 | the map without the key, true iff it was there, the same invariant kept |
| `BufferRefs.Arena.New` | components/bt/bluedroid/osi/buffer.c:32-47 | a root with one holder, itself; every other buffer keeps its books |
| `BufferRefs.Arena.NewSlice` | components/bt/bluedroid/osi/buffer.c:55-74 | a slice, also of a slice, is one more holder of the same root; counts equal live handles on every root |
| `BufferRefs.Arena.NewRef` | components/bt/bluedroid/osi/buffer.c:49-53 | a reference is a slice of full length |
| `BufferRefs.Arena.Free` | components/bt/bluedroid/osi/buffer.c:76-92 | the root's storage goes exactly with its last handle and a slice's at once; a null pointer changes nothing |
| `BufferRefs.Arena.Pointer` | components/bt/bluedroid/osi/buffer.c:94-98 | a live handle denotes the last bytes of its root's data, of its stated length, and that data is not released |
| `BufferRefs.CountedWithout` | components/bt/bluedroid/osi/buffer.c:76-92 | for every buffer: freeing one handle keeps "count equals live handles, released iff there are none" |
| `MqttLength.LengthRoundTrip` | main/src/MQTTCommon/MQTTPacket.c:28-76 | decoding inverts encoding for every legal remaining length, whatever follows, and consumes exactly the code |
| `MqttLength.PacketLenExact` | main/src/MQTTCommon/MQTTPacket.c:79-93 | the estimate is the true packet size, or exactly one more, and at which four lengths |
| `MqttPublish.StringLengthAgrees` | main/src/MQTTCommon/MQTTPacket.c:189-244 | the length computed for a string is the length written iff it does not set two strings of different length |
| `MqttPublish.ConnectLengthExact` | main/src/MQTTCommon/MQTTConnectClient.c:26-117 | the announced connect length is the true one iff the version is 3 or 4 |
| `MqttPublish.RequestsSize` | main/src/MQTTCommon/MQTTSubscribeClient.c:27-83 | the announced subscribe length is the true one for any number of filters |
| `MqttPublish.FiltersSize` | main/src/MQTTCommon/MQTTUnsubscribeClient.c:27-79 | the announced unsubscribe length is the true one for any number of filters |
| `MqttPublish.PublishRoundTrip` | main/src/MQTTCommon/MQTTDeserializePublish.c:35-66 | the publish reader gives back flags, QoS, packet id, topic and payload of every legal publish written |
| `MqttPublish.AckRoundTrip` | main/src/MQTTCommon/MQTTDeserializePublish.c:79-101 | the ack reader gives back type, dup and packet id of every ack written |
| `MqttPublish.ConnackRoundTrip` | main/src/MQTTCommon/MQTTConnectClient.c:128-153 | the connack reader gives back the return code, the fourth byte of the packet, whatever the flags |
| `MqttReaders.ConnectRoundTrip` | main/src/MQTTCommon/MQTTConnectClient.c:55-117 | a reader by sections 3.1.2 and 3.1.3 of MQTT 3.1.1 gets back protocol, flags, keep-alive, client id, will, user name and password of every connect packet that fits |
| `MqttReaders.SubscribeRoundTrip` | main/src/MQTTCommon/MQTTSubscribeClient.c:49-83 | a reader by section 3.8 gets back packet id and every filter with its QoS, in order |
| `MqttReaders.UnsubscribeRoundTrip` | main/src/MQTTCommon/MQTTUnsubscribeClient.c:48-79 | a reader by section 3.10 gets back packet id and every filter, in order |
| `MqttPublish.PublishReturnCode` | main/src/MQTTCommon/MQTTDeserializePublish.c:35-66 | the return code tells whether a message came out iff the packet is not a publish with a one-byte length that its topic exceeds |
| `MqttPublish.PublishReturnCodeMisleads` | main/src/MQTTCommon/MQTTDeserializePublish.c:35-66 | a publish without a topic is reported as success without a message |
| `MqttWriter.SerializePublish` | main/src/MQTTCommon/MQTTSerializePublish.c:54-88 | writes exactly the packet, returns its size, stays within the buffer length and leaves the bytes behind it; or fails without writing |
| `MqttWriter.SerializeAck` | main/src/MQTTCommon/MQTTSerializePublish.c:101-122 | the same for acks, with the QoS bits of PUBREL |
| `MqttWriter.SerializeZero` | main/src/MQTTCommon/MQTTConnectClient.c:163-182 | the same for packets without a body |
| `MqttWriter.SerializeSubscribe` | main/src/MQTTCommon/MQTTSubscribeClient.c:49-83 | the same for subscribe, any number of filters |
| `MqttWriter.SerializeUnsubscribe` | main/src/MQTTCommon/MQTTUnsubscribeClient.c:48-79 | the same for unsubscribe |
| `MqttWriter.SerializeConnect` | main/src/MQTTCommon/MQTTConnectClient.c:55-117 | the same for connect, versions 3 and 4, with will, user name and password |
| `MqttWriter.Cursor.WriteLength` | main/src/MQTTCommon/MQTTPacket.c:28-42 | the encoding loop appends exactly the code of the length |
| `MqttWriter.Cursor.WriteString` | main/src/MQTTCommon/MQTTPacket.c:189-201 | appends the two length bytes and the characters, a non-empty counted string before a C string |
| `MqttWriter.DecodeBuf` | main/src/MQTTCommon/MQTTPacket.c:51-112 | the decoding loop returns the decoder's count and value |
| `MqttWriter.DeserializePublish` | main/src/MQTTCommon/MQTTDeserializePublish.c:35-66 | the moving read position yields what `ParsePublish` says, early exits included |
| `MqttWriter.DeserializeAck` | main/src/MQTTCommon/MQTTDeserializePublish.c:79-101 | the same for acks |
| `MqttReadnb.BlockingReadsPacket` | main/src/MQTTCommon/MQTTPacket.c:283-309 | the blocking reader returns type and bytes of a packet that fits and leaves what follows it |
| `MqttReadnb.ScheduleStands` | main/src/MQTTCommon/MQTTPacket.c:317-400 | under every schedule of partial reads and stalls the resumable reader stands at the place that the answers alone determine, with exactly the bytes before it consumed |
| `MqttReadnb.ProductiveConsumes` | main/src/MQTTCommon/MQTTPacket.c:352-400 | every answer with a byte moves it forward until it finishes or gives up |
| `MqttReadnb.ReadnbRefinesRead` | main/src/MQTTCommon/MQTTPacket.c:283-400 | it fails iff the four answers behind the header's bring fewer bytes than the length takes; otherwise it returns the blocking reader's type, buffer and rest, in state 0, once as many answers brought a byte as the packet has |
| `MqttReadnb.FifthAttemptFails` | main/src/MQTTCommon/MQTTPacket.c:317-342 | for any body: it fails, in the call of a fourth continuation byte or at the start of the call after a fourth stall, iff those four answers bring too few bytes |
| `MqttReadnb.BrokenFails` | main/src/MQTTCommon/MQTTPacket.c:317-400 | an error of getfn ends the read with an error in every state, takes no byte and leaves state 0 |
| `MqttReadnb.StallsLosePacket` | main/src/MQTTCommon/MQTTPacket.c:317-342 | three stalls before the length of a 200-byte packet lose it |
| `MqttReadnb.EmptyBodyNeverReturned` | main/src/MQTTCommon/MQTTPacket.c:352-400 | a packet without a body is never returned, while the blocking reader returns it |
| `MqttOversize.TooBigRefused` | main/src/MQTTCommon/MQTTPacket.c:283-400 | a packet larger than the buffer is refused by the blocking reader, and under every schedule never returned by the resumable one, which fails at the latest with the answer that completes the length |
| `MqttReadnb.Transport.ReadNb` | main/src/MQTTCommon/MQTTPacket.c:352-400 | in any state of the transport a call asks getfn for exactly the answers the call machine takes, none for a fifth attempt, and returns the code of its outcome |
| `MqttReadnb.Transport.ReadLength` | main/src/MQTTCommon/MQTTPacket.c:317-342 | the length loop, resumed with what the transport remembers, is the same part of the call machine |
| `MqttReadnb.CallsAreFeeds` | main/src/MQTTCommon/MQTTPacket.c:352-400 | calling again as long as the reader says so is feeding it the answers one by one: where calls begin and end does not matter |
| `MqttSession.CycleGood` | main/src/CayenneMQTTClient/MQTTClient.c:243-316 | a cycle keeps the laws of the log, and sets an acknowledgement flag only for the packet just read |
| `MqttSession.WaitGood` | main/src/CayenneMQTTClient/MQTTClient.c:369-437 | waiting keeps the laws and reports a type only if the last packet read had it |
| `MqttSession.ConnectGood` | main/src/CayenneMQTTClient/MQTTClient.c:440-492 | connecting keeps the laws |
| `MqttSession.EveryRunLawful` | main/src/CayenneMQTTClient/MQTTClient.c:208-492 | in every run of calls: the client becomes connected only from unconnected, when the last packet read has type CONNACK and, with a two-byte body, a fourth byte of 0, and loses the connection only through a disconnect or an expired ping; a ping goes out only when none is open; each acknowledgement has the type that the QoS bits of the packet just read ask for, and its id |
| `MqttSession.PingsSeparated` | main/src/CayenneMQTTClient/MQTTClient.c:208-240 | between two pings lies a ping response or a disconnect |
| `MqttAnswers.PublishAnswered` | main/src/CayenneMQTTClient/MQTTClient.c:265-289 | the bytes of a publish with QoS 0, 1 or 2 are answered by nothing, a PUBACK or a PUBREC with its packet id, before the keep-alive step |
| `MqttAnswers.PubrecAnswered` | main/src/CayenneMQTTClient/MQTTClient.c:290-303 | the bytes of a PUBREC are answered by a PUBREL with its id |
| `MqttAnswers.UnsentAnswerFails` | main/src/CayenneMQTTClient/MQTTClient.c:277-303 | an answer that cannot be sent fails the cycle and skips the keep-alive step |
| `MqttAnswers.AcknowledgementFlagged` | main/src/CayenneMQTTClient/MQTTClient.c:253-306 | an acknowledgement packet sets the flag of its type and no other |
| `MqttAnswers.PongNoted` | main/src/CayenneMQTTClient/MQTTClient.c:307-309 | a ping response closes the open ping |
| `MqttAnswers.SilenceKeepsAlive` | main/src/CayenneMQTTClient/MQTTClient.c:243-316 | a cycle without a packet is its keep-alive step |
| `MqttAnswers.PingsWhenDue` | main/src/CayenneMQTTClient/MQTTClient.c:208-240 | a ping goes out iff it is due, none is open and it can be sent; the connection is lost iff one is open and overdue; nothing else changes |
| `MqttAnswers.FlagExactly` | main/src/CayenneMQTTClient/MQTTClient.c:243-316 | a flag is set after a cycle iff it was before or the packet read has that type |
| `MqttAnswers.WaitExact` | main/src/CayenneMQTTClient/MQTTClient.c:369-437 | waiting for a type not flagged yet succeeds iff some cycle brings it, stops at the first one with that packet in the buffer, and leaves the flag cleared |
| `MqttAnswers.ConnectExact` | main/src/CayenneMQTTClient/MQTTClient.c:440-492 | from unconnected, connect returns 0 and leaves the client connected iff the packet was sent and the first CONNACK read says 0 |
| `MqttAnswers.ConnackDecides` | main/src/CayenneMQTTClient/MQTTClient.c:471-482 | that answer is the return code byte of the CONNACK |
| `MqttAnswers.ConnectTwiceRefused` | main/src/CayenneMQTTClient/MQTTClient.c:450-451 | connecting while connected fails and changes nothing |
| `MqttAnswers.RequestExact` | main/src/CayenneMQTTClient/MQTTClient.c:495-646 | a request fails at once while unconnected or unsent, and otherwise returns the awaited type iff some cycle brings it; it uses the next packet id |
| `MqttSession.IdsDistinct` | main/src/CayenneMQTTClient/MQTTClient.c:25-27 | ids are 1 to 65535, and two are equal iff they are a multiple of 65535 requests apart (section 2.3.1 of MQTT 3.1.1) |
| `MqttSession.EveryRunIds` | main/src/CayenneMQTTClient/MQTTClient.c:25-27 | in every run issued ids are legal and any 65535 consecutive ones distinct |
| `MqttClient.Client.GetNextPacketId` | main/src/CayenneMQTTClient/MQTTClient.c:25-27 | the successor of the last id, 1 after 65535 |
| `MqttClient.Client.KeepAlive` | main/src/CayenneMQTTClient/MQTTClient.c:208-240 | the keep-alive step of the machine |
| `MqttClient.Client.Cycle` | main/src/CayenneMQTTClient/MQTTClient.c:243-316 | read, react, keep alive: one cycle of the machine, early exits included |
| `MqttClient.Client.WaitFor` | main/src/CayenneMQTTClient/MQTTClient.c:369-437 | the waiting loop over flags is the machine's |
| `MqttClient.Client.Connect` | main/src/CayenneMQTTClient/MQTTClient.c:440-492 | one connect call of the machine |
| `MqttClient.Client.Disconnect` | main/src/CayenneMQTTClient/MQTTClient.c:649-672 | one disconnect call of the machine |
| `MqttClient.Client.Request` | main/src/CayenneMQTTClient/MQTTClient.c:495-646 | the common course of subscribe, unsubscribe and publish: connected check, id, send, wait |
| `Topics.TopicMatches` | main/src/CayenneUtils/CayenneUtils.c:165-190 | the pointer-walking loop computes the matching function |
| `Topics.MatcherIsLevelwise` | main/src/CayenneUtils/CayenneUtils.c:165-190 | for well-formed filters and names with non-empty levels the character loop is level-by-level matching: '+' takes one level, a final '#' one or more (section 4.7 of MQTT 3.1.1) |
| `Topics.TopicRoundTrip` | main/src/CayenneUtils/CayenneUtils.c:403-477 | parsing a built command or configuration topic gives back topic, channel and client id |
| `TopicNames.AllChannelsExact` | main/src/CayenneUtils/CayenneUtils.c:83-190 | the built topic for all channels matches exactly the names with one more level behind the kind, for any name at all |
| `TopicNames.AllChannelsTakesBuilt` | main/src/CayenneUtils/CayenneUtils.c:83-190 | among the names built for the same client it matches those of its own kind with a channel, and no others |
| `TopicNames.SameNames` | main/src/CayenneUtils/CayenneUtils.c:54-156 | two built names are equal iff user, client, kind and written channel are: different kinds never share a name |
| `TopicNames.OwnNameExact` | main/src/CayenneUtils/CayenneUtils.c:140-154 | a channel shares its name with no other iff its digits are fewer than the suffix buffer has room for, or as many and no 32-bit number begins with them |
| `TopicNames.ParseExact` | main/src/CayenneUtils/CayenneUtils.c:403-477 | the parser accepts a name with kind, channel and client iff it is made of version, any character, user, "/things/", client, kind and one last level from which that channel is read, within the two length limits |
| `TopicNames.ChannelOfDigits` | main/src/CayenneUtils/CayenneUtils.c:457-473 | a last level of digits is read as its number, cut at 32 bits, unless it has a leading zero |
| `Topics.BuildTopicInto` | main/src/CayenneUtils/CayenneUtils.c:54-71 | the chain of concatenations leaves the full name as a C string, or nothing when the size check refuses |
| `Topics.SizeCheckOverruns` | main/src/CayenneUtils/CayenneUtils.c:58-60 | the size check lets a name overrun the buffer iff the size exceeds the three parts by 11 or 12 bytes |
| `Topics.ParseInPlace` | main/src/CayenneUtils/CayenneUtils.c:403-477 | the parser's result on the caller's string, and that it cuts the string behind the client id and nowhere else |
| `BtMemory.ReleaseLoop` | components/bt/bt.c:411-445 | for any ordered disjoint table the coalescing loop gives away disjoint ranges covering exactly the regions that become idle, and clears the released modes |
| `BtMemory.AbandonedStep` | components/bt/bt.c:396-448 | a further release gives away exactly the regions that it makes idle, none of which was given away before |
| `BtMemory.Controller.MemRelease` | components/bt/bt.c:396-448 | the guards, and over all calls: modes are initial modes minus released ones, ranges given are disjoint and exactly the idle regions |
| `BtMemory.Controller.Init` | components/bt/bt.c:450-499 | succeeds iff idle, not everything released, and arguments and controller are fine |
| `BtMemory.Controller.Deinit` | components/bt/bt.c:501-521 | succeeds iff initialised and the controller agrees |
| `BtMemory.Controller.Enable` | components/bt/bt.c:523-555 | succeeds iff initialised, no part of the mode was released, and the controller agrees |
| `BtMemory.Controller.Disable` | components/bt/bt.c:557-580 | back to initialised only when the controller reports idle |
| `BtMemory.Controller.EnabledRegionsKept` | components/bt/bt.c:523-580 | no byte of a region the enabled mode needs has been given away |

## Left out

- Application code: WiFi, HTTP server, storage, sensors and the Cayenne glue are event plumbing and would only add easy members.
- FreeRTOS, timers, NVS and the network appear as inputs: semaphores are counters, NVS a map from key to bytes, timers, send results and getfn answers are parameters.
- Allocation, `controller` and `hal` failures are taken not to happen, except where a failure is a parameter.
- Races below one host-task iteration or one event on `command_credits`: the field is not locked, so the credit laws are for atomic steps.
- The command timeout handler and the start-up and shut-down sequence of the HCI layer.
- `transmit_data` writes the type byte in front of the packet and restores it; the model has the packet only.
- AclFraming.InterleavedRoundTrip: needs packets whose ACL and L2CAP lengths agree and a data size of at least 2, so that the first fragment holds the L2CAP length.
- PacketReassembler.Reassembler.ReassembleAndDispatch: excludes a continuation whose length makes the 16-bit sum of offset and payload wrap; bytes read behind a packet shorter than its L2CAP header are an input.
- HciLayer.Layer.FragmentAndDispatch: works on packet values; update in place is in `PacketFragmenter.Fragmenter.FragmentAndDispatch`.
- A data packet handed back under a quota and submitted again counts as a new buffer in the host machine.
- Queue operations `fixed_queue_try_dequeue` and `fixed_queue_try_remove_from_queue`, which pass a semaphore handle where its address is expected, and queue teardown.
- List iteration with callbacks, element free callbacks, and `hash_map_clear`, which empties buckets without resetting the size.
- BufferRefs.Arena.NewSlice: the reference count is unbounded, so the wrap of a `size_t` count is not modelled.
- Typed configuration getters and setters, removal of sections and keys; section and entry lists are sequences rather than `list_t` chains.
- ConfigStore.SaveThenParse: needs unique section names and keys, and trimmed text without newlines, terminators, '=' in keys, or keys that start like a section or a comment.
- ConfigFile.Store.LoadText: a flash with ten full blobs is excluded, because on it the code never returns (`ReadingEnds`).
- ConfigFile.Store.ParseFlash: excludes the same flash; the size scan before it, which only sizes a buffer, is not modelled.
- MqttPublish.PublishRoundTrip: the memory behind the read buffer reaches two bytes past the packet; the reader itself does not know where its buffer ends.
- The suback and unsuback readers and the session-present bit of a connack.
- MqttReadnb.Transport.ReadNb: the buffer is the filled prefix, and the answers of getfn are given in advance.
- MqttReadnb.ReadnbRefinesRead: for schedules without an error of getfn (`BrokenFails` has those) and packets that fit (`TooBigRefused` has the others).
- MqttClient.Client.Request: stops at the acknowledgement; the return codes computed from its contents are not modelled.
- MqttClient.Client.Cycle: a packet read is an input that fits the buffer and lies readable in memory, sends succeed or fail as a whole, and message handlers do not call back into the client.
- Topics.BuildTopicInto: assumes room for the name and its terminator, because the size check counts two bytes fewer (`SizeCheckOverruns`).
- Topics.ParseInPlace: a name that ends right after "v1" is a failure in the model, where the code would look behind the terminator.
- Payload parsing and building, and the topic kinds that the build configuration compiles out.
- Power-management locks, radio start-up and calibration around the controller life cycle.
