# Miresga, verified

Miresga splits layer-7 load balancing over three machines. A P4 switch answers a client's SYN itself
and forwards established traffic. A DPDK front-end parses the first request, picks a back-end, opens a
connection to it in the client's name and, where a rule allows it, tells the switch to bypass the
front-end from then on. An eBPF agent on each back-end splices the two connections by shifting sequence
and acknowledgment numbers. This project models the four programs and the messages between them and
proves what they promise each other. Check it with `dafny verify dfyconfig.toml`.

How the modules fit together:

- `Words`, `Packets`: machine words, sequence arithmetic, headers and the front-end's header rewritings.
- `FrontEnd`: one packet is one atomic step (`Step`) on the table of client flows; `FlowRuns` proves
  properties of all runs of steps; `PktProcessor` is the packet loop itself, over heap records, cached
  packets, the sharded index (`ShardedTable`, `Crc8`) and the two queues, proved to carry out `Step`.
- `Publication`: flows, both queues, messages under way and the switch table as one state machine, with
  the safety property and the exact condition for it; `OvertakingRun` and `RacingRun` are runs in which it fails.
  `EntryController`, `OffloadWire`, `OffloadStream` and `SwitchController` are the sender, the bytes and the
  receiver; `Pipeline` proves that they carry out the steps of the state machine, over whole runs, and
  `OffloadSystem` runs the three programs on shared objects.
- `SwitchPipeline` is the P4 program; `FastPath` says exactly when its bypass does what the front-end's slow
  path would have done.
- `Splice` is what the agent does to headers and maps over whole runs; `BackendAgent` is the same on the
  bytes of frames, with `Checksum`; `Handshake` composes switch, front-end and agent, and `PublishedMove`
  puts it together with publication.
- `Config`: the configuration messages from the switch's controller to the front-end; `Configuring` is the whole
  exchange of a new connection.
- `Service`, `SwitchService` and `AgentFrames` say what the packet step, the switch and the agent do in terms of
  packet fields and frame bytes alone, one law for each kind of packet.

Where the programs do something other than what their design asks for, the model keeps the program's
behaviour, and the property is stated with the exact condition under which it holds:

- A tick takes additions first, then removals, at most 40 of each, while workers go on. A removal can therefore
  overtake the addition it belongs to: when more additions wait than the tick takes, or when a worker opens and
  closes a flow between the two dequeues. The switch then keeps an entry for a flow that is gone
  (`FullBatchCounterexample`, `RacingCounterexample`). A tick endangers a key exactly when it `Overtakes` it;
  a tick that takes no removal of a key whose addition it leaves behind overtakes nothing.
- A removal in a message also takes a newer addition of the same client with it: such a flow is OFFLOAD for the
  front-end and never bypassed (`DrainPublishesExactly`).
- When a published flow moves to another back-end, its removal is only queued. Until it is delivered, the switch
  takes the new back-end's SYN-ACK for bypassed traffic and sends it to the client, past the front-end that
  waits for it. A back-end is opened exactly when the client is not in the switch's table at that moment.
- For the same reason a bypass between a flow's end or move and the delivery of its removal is not what the
  front-end would have done; it is exactly as long as the flow is established at the published back-end.
- A client that sends FIN or RST while its back-end connection is being opened has its record freed but
  its key kept; its next packet reads the freed record (`AbortCounterexample`). The table stays sound
  exactly when no step is such an abort.
- With one NOP before it, a SACK option has its edges at an odd offset, and the incremental checksum is
  wrong unless the number of edges times the difference, less the edges that wrap around, is a multiple of 257.
- The switch's controller looks at one byte past what it received; whole messages are decoded as sent
  exactly when that byte lies in the buffer and is not 3. A 3 left behind by an earlier, longer receive makes
  the earlier message take effect once more. A full batch (1123 bytes) does not fit a receive of 1024 bytes.
- The controller's 256 table handles suffice for every epoll round of at most three receives, and for no
  longer one.
- 256 rules, as many as the switch's array holds, are announced as none; fewer rules with long names, and more
  than 60 back-ends, overrun the 1024-byte send buffer.
- On ingress the agent's removal of a splice on a client's RST is unreachable, so only the back-end's own
  RST ends a splice. A client that comes back to a back-end whose agent still holds a splice for it is translated by
  the old difference: its stream goes on without a gap only if that difference happens to fit (`Bridges`).

A packet's payload is what the IP total length leaves after a 20-byte IP header and the TCP header, as
both the front-end and the switch compute it. `Step` has three outcomes: the next state, `Stop` for the
early return with an error, and `Undefined` for what the program does not define: reading a freed record,
dereferencing the missing server of an index, copying a token of 20 bytes or more into a 20-byte buffer.

## Model

| member | source | states |
|---|---|---|
| Publication.PublicationSafety | Switch/control_plane/src/controller.c:290-329 | In every run in which no tick overtakes a key, each switch entry is either current (the flow is OFFLOAD to that very back-end, and no addition for it is queued or under way) or its removal is queued or under way, although messages apply additions first, failures are ignored and queue order is arbitrary |
| Publication.DrainingRunsNeverOvertake | Frontend/subprojects/entry_controller/entry_controller.cpp:39-44 | Runs whose ticks empty both queues satisfy the condition of publication safety |
| Publication.OvertakingExactly | Frontend/subprojects/entry_controller/entry_controller.cpp:39-55 | A tick from a good state overtakes nothing about a key if and only if every further tick, once delivered, leaves the switch safe for that key |
| Publication.GoodExactly | Switch/control_plane/src/controller.c:290-329 | The invariant holds of exactly the states from which every tick, once delivered, is safe for the key |
| Publication.TickKeepsGoodExactly | Frontend/subprojects/entry_controller/entry_controller.cpp:36-72 | The invariant for a key survives a tick if and only if the tick does not overtake the key |
| Publication.TickKeepsTidy | Frontend/subprojects/entry_controller/entry_controller.cpp:48-61 | Of the messages under way none adds a key that stays published, whatever a tick sends |
| Publication.ProcessKeepsGood | Frontend/subprojects/pkt_processor/pkt_processor.cpp:59-388 | Whatever packet a worker handles, the invariant survives for every key |
| Publication.DeliverKeepsGood | Switch/control_plane/src/controller.c:271-329 | Receiving any number of messages keeps the invariant |
| Publication.MessageExactly | Switch/control_plane/src/controller.c:290-329 | After a message a key is there if and only if the message does not remove it and it was there or is added; an entry that was there keeps its value, else the first addition counts |
| Publication.DrainPublishesExactly | Frontend/subprojects/entry_controller/entry_controller.cpp:36-72 | After a draining tick and its delivery a client is published if and only if it had an entry or a queued addition, and no removal was queued |
| Publication.GoodIsSafe | Switch/control_plane/src/controller.c:290-329 | The two invariants imply that a published entry without a pending removal is current and has no addition pending |
| Publication.OneTickIsSafe | Frontend/subprojects/entry_controller/entry_controller.cpp:36-72 | Even an overtaking tick leaves the switch safe at first: damage needs a second tick |
| Publication.OvertakenBecomesUnsafe | Switch/control_plane/src/controller.c:290-329 | After an overtaking tick, sending one addition left behind makes the switch entry stale with no removal pending |
| OvertakingRun.FullBatchCounterexample | Frontend/subprojects/entry_controller/entry_controller.hpp:18-19 | A run of real packets, one flow more than a batch, after which the switch keeps a stale entry for good |
| OvertakingRun.StaleEntry | Frontend/subprojects/entry_controller/entry_controller.cpp:39-55 | The same for every number of additions that the tick takes, from none to 40: the flow is gone, its entry is published, no removal is pending |
| RacingRun.RacingCounterexample | Frontend/subprojects/entry_controller/entry_controller.cpp:40-41 | A run in which never more than one operation of each kind waits: a worker handles a SYN-ACK and a RST between the two dequeues, and the switch keeps the entry |
| Pipeline.ProcessRefines | Frontend/subprojects/pkt_processor/pkt_processor.cpp:59-388 | What a worker does to flows and queues, whether the step goes through or returns early, is the packet step of the publication model |
| Pipeline.TickRefines | Frontend/subprojects/entry_controller/entry_controller.cpp:39-71 | The additions taken first and a batch off the front of the removals, sent as one message, are the tick of the publication model |
| Pipeline.DeliverRefines | Switch/control_plane/src/controller.c:271-334 | The bytes of the next messages, received together and followed by no 3, decode to those messages and are the delivery of the publication model |
| Pipeline.RunRefines | Frontend/subprojects/entry_controller/entry_controller.cpp:36-72 | Every run of workers, queues in any order, ticks that dequeue twice with workers in between, bytes and switch table is a run of the publication model |
| Pipeline.PipelineSafety | Switch/control_plane/src/controller.c:290-329 | In every such run in which no tick takes a removal of a key and leaves an addition of it behind, and receives hold whole messages followed by a byte that is not 3, each switch entry has its removal pending or is current with no addition pending |
| OffloadSystem.System.HandlePacket | Frontend/subprojects/pkt_processor/pkt_processor.cpp:59-388 | A worker on the shared queues carries out one packet move of the pipeline |
| OffloadSystem.System.Tick | Frontend/subprojects/entry_controller/entry_controller.cpp:36-72 | A tick on the shared queues carries out its two dequeues, and the bytes sent encode the message |
| OffloadSystem.System.ReceiveBytes | Switch/control_plane/src/controller.c:266-334 | Receiving what ticks sent carries out the receipt of the pipeline on the switch table |
| FlowRuns.OffloadAccounting | Frontend/subprojects/pkt_processor/pkt_processor.cpp:257-266 | Over every run the operations queued for a client strictly alternate addition, removal, ..., starting with an addition; the last is an addition exactly when the flow is OFFLOAD, and carries its current data |
| FrontEnd.StepAccounts | Frontend/subprojects/pkt_processor/pkt_processor.cpp:84-388 | The operations of one step are exactly the changes of the set of OFFLOAD flows, whichever lookup found the flow |
| FrontEnd.TokenBetween | Frontend/subprojects/pkt_processor/pkt_processor.cpp:30-44 | The token of a payload is the run between its first slash and the next space, carriage return or end; without a slash it is empty |
| FrontEnd.RuleOfRequest | Frontend/subprojects/pkt_processor/pkt_processor.cpp:141-151 | The rule of a request is that of the characters after its first slash up to the first space, carriage return or NUL; 20 characters up to space, carriage return or end are too many |
| FlowRuns.SoundUnlessAborted | Frontend/subprojects/pkt_processor/pkt_processor.cpp:212-223 | A step keeps every key on a live record that has left INIT if and only if it is not a client's abort in BACKEND_SYN |
| FlowRuns.AbortCounterexample | Frontend/subprojects/pkt_processor/pkt_processor.cpp:212-223 | Three packets of one client that lead a run from the empty table to a freed record |
| FlowRuns.DefinedExactly | Frontend/subprojects/pkt_processor/pkt_processor.cpp:138-149 | With live records and a complete configuration a step never stops, and is undefined if and only if it parses a token that overflows its buffer |
| FlowRuns.CachedSentOnSynAck | Frontend/subprojects/pkt_processor/pkt_processor.cpp:249-274 | A flow leaves BACKEND_SYN for COMPLETE or OFFLOAD exactly when the step sends, as its only output, the request the flow has cached |
| FlowRuns.SynsPrecedeCachedRequest | Frontend/subprojects/pkt_processor/pkt_processor.cpp:224-235 | In every run without aborts, each SYN sent for a client since it entered BACKEND_SYN, and there is at least one, has the cached request's sequence number less one |
| PktProcessor.Worker.ProcessPkts | Frontend/subprojects/pkt_processor/pkt_processor.cpp:47-398 | For every burst the loop over heap records carries out one step after the other; outputs and unused buffers partition twice the packets received; an early return transmits nothing; ownership is kept |
| PktProcessor.Worker.ProcessOne | Frontend/subprojects/pkt_processor/pkt_processor.cpp:59-388 | One iteration does to the records, the index and both queues what the step says, and every key keeps its own record and its own cached packet |
| Service.RequestServed | Frontend/subprojects/pkt_processor/pkt_processor.cpp:138-204 | An established client's request with a rule goes whole to its own back-end, which the rule names, and the flow is offloaded or taken back as the rule says; or the rule names another, the old back-end is reset, the request is cached and a SYN one before it opens the new one |
| Service.NoRequestLost | Frontend/subprojects/pkt_processor/pkt_processor.cpp:138-274 | In every run without aborts each such request, and each newcomer's, has been sent to a back-end with only its destination changed, or is what its client's flow waits to send |
| Service.ClientForwarded | Frontend/subprojects/pkt_processor/pkt_processor.cpp:205-210 | All else an established client sends goes to its back-end with only the destination changed, and changes nothing |
| Service.AnswerForwarded | Frontend/subprojects/pkt_processor/pkt_processor.cpp:323-329 | What a back-end sends an established client comes from the virtual service, otherwise unchanged |
| Service.ClientCloses | Frontend/subprojects/pkt_processor/pkt_processor.cpp:91-137 | A client's RST or FIN ends its flow and reaches the back-end as a reset; a closing client is reset too |
| Service.BackendCloses | Frontend/subprojects/pkt_processor/pkt_processor.cpp:277-317 | A back-end's RST or FIN ends the flow and reaches the client as a reset from the virtual service; a closing back-end is reset too |
| Service.NewcomerServed | Frontend/subprojects/pkt_processor/pkt_processor.cpp:342-387 | An unknown client's request with a rule is cached and a SYN one before it goes to the rule's back-end; anything else is ignored |
| Service.RequestUnruled | Frontend/subprojects/pkt_processor/pkt_processor.cpp:195-203 | A request without a rule has no effect |
| Service.OpeningClient | Frontend/subprojects/pkt_processor/pkt_processor.cpp:211-237 | While its back-end is opened a client that ends is reset, a repeated request repeats the SYN, all else is dropped |
| Service.OpeningBackend | Frontend/subprojects/pkt_processor/pkt_processor.cpp:249-274 | A pure SYN-ACK, and nothing else, releases the cached request, whole, and offloads the flow exactly when its rule says so |
| Service.StopsExactly | Frontend/subprojects/pkt_processor/pkt_processor.cpp:178-181 | A packet makes the program return early if and only if it is for an established flow whose back-end is not configured, and is forwarded |
| Service.UndefinedExactly | Frontend/subprojects/pkt_processor/pkt_processor.cpp:148-149 | A step on live records is undefined if and only if a token overflows its buffer or a server reached without asking is missing |
| Packets.RewritesCarry | Frontend/subprojects/pkt_processor/pkt_processor.cpp:400-590 | Each rewriting changes the end it names, and flags where it resets, and carries everything else; the SYN is bare, alone in its flag and one before its request in both directions |
| PktProcessor.Worker.ClientEstablished | Frontend/subprojects/pkt_processor/pkt_processor.cpp:89-210 | The branch for packets of an established client |
| PktProcessor.Worker.ClientRequest | Frontend/subprojects/pkt_processor/pkt_processor.cpp:138-204 | The branch for requests: stay with the back-end, or reset it and move the flow |
| PktProcessor.Worker.ClientOpening | Frontend/subprojects/pkt_processor/pkt_processor.cpp:211-237 | The branch for clients whose back-end connection is being opened |
| PktProcessor.Worker.BackendOpening | Frontend/subprojects/pkt_processor/pkt_processor.cpp:249-274 | Only a pure SYN-ACK of the back-end leaves BACKEND_SYN; it releases the cached request |
| PktProcessor.Worker.BackendEstablished | Frontend/subprojects/pkt_processor/pkt_processor.cpp:275-330 | The branch for packets to an established client |
| PktProcessor.Worker.NewFlow | Frontend/subprojects/pkt_processor/pkt_processor.cpp:342-387 | A request nobody knows opens a flow, by an insertion that never meets a present key |
| PktProcessor.Worker.RemoveFlow | Frontend/subprojects/pkt_processor/pkt_processor.cpp:104-108 | Removing a flow frees its record and its packet once and leaves all other owners intact |
| PktProcessor.Worker.FreeFlow | Frontend/subprojects/pkt_processor/pkt_processor.cpp:218-221 | The abort frees both and leaves a key that refers to nothing live |
| PktProcessor.Worker.MoveFlow | Frontend/subprojects/pkt_processor/pkt_processor.cpp:168-175 | Moving a flow frees the old cached packet and caches the new request |
| PktProcessor.Worker.InsertFlow | Frontend/subprojects/pkt_processor/pkt_processor.cpp:372-378 | A new key owns a fresh record and a fresh cached packet |
| PktProcessor.ParsePayload | Frontend/subprojects/pkt_processor/pkt_processor.cpp:30-44 | The two scanning loops return the token |
| PktProcessor.StepSize | Frontend/subprojects/pkt_processor/pkt_processor.cpp:51-57 | No packet causes more than two outputs, or more than one queue operation |
| PktProcessor.BurstStops | Frontend/subprojects/pkt_processor/pkt_processor.cpp:96-99 | After an early return the rest of the burst has no effect |
| ShardedTable.Key64Injective | Frontend/subprojects/pkt_processor/pkt_processor.cpp:79-80 | Different client endpoints have different 64-bit keys |
| ShardedTable.Index.Find | Frontend/subprojects/pkt_processor/pkt_processor.cpp:84 | Looking a key up in the shard of its checksum is looking its endpoint up in one flat map |
| ShardedTable.Index.Insert | Frontend/subprojects/pkt_processor/pkt_processor.cpp:378 | Inserting adds to the flat map and never replaces an entry |
| ShardedTable.Index.Erase | Frontend/subprojects/pkt_processor/pkt_processor.cpp:104 | Erasing removes exactly one endpoint from the flat map |
| Crc8.BuildTable | Frontend/subprojects/pkt_processor/pkt_processor.cpp:618-628 | The filled table holds, for every byte, the register after eight shifts |
| Crc8.TableDriven | Frontend/subprojects/pkt_processor/pkt_processor.cpp:18-27 | For byte strings of every length the table-driven checksum is the bit-serial one |
| Crc8.ChecksumExactly | Frontend/subprojects/pkt_processor/pkt_processor.cpp:18-27 | The checksum of a string is the one byte that, appended, makes it a multiple of x^8+x^2+x+1 over GF(2) |
| Crc8.RemainderExactly | Frontend/subprojects/pkt_processor/pkt_processor.cpp:620-626 | The shift register is left with the remainder of the division by the generator, and with nothing else |
| Crc8.Linear | Frontend/subprojects/pkt_processor/pkt_processor.cpp:618-628 | The checksum of the XOR of two strings is the XOR of their checksums |
| Crc8.CalculateCrc8 | Frontend/subprojects/pkt_processor/pkt_processor.cpp:18-27 | The six lookups compute the bit-serial checksum of address and port in wire order |
| Crc8.WireBytesSpell | Frontend/subprojects/pkt_processor/pkt_processor.cpp:18-27 | The six bytes checked spell address and port, highest byte first |
| Crc8.ClientChecksumExactly | Frontend/subprojects/pkt_processor/pkt_processor.cpp:18-27 | A client's checksum is the one byte that completes its six bytes to a multiple of the generator |
| FastPath.BypassRefinesSlowPath | Switch/data_plane/l7lb_switch.p4:326-354 | In every run, what the switch bypasses is rewritten as the front-end would rewrite it, and the front-end would change no flow and queue nothing, if and only if the flow is established (inbound: at the published back-end); without overtaking that is so whenever no removal is pending |
| FastPath.InboundBypassExactly | Frontend/subprojects/pkt_processor/pkt_processor.cpp:205-210 | For any published entry the inbound bypass is the slow path if and only if the flow is COMPLETE or OFFLOAD and its back-end is the published one |
| FastPath.OutboundBypassExactly | Frontend/subprojects/pkt_processor/pkt_processor.cpp:323-329 | For any published entry the outbound bypass is the slow path if and only if the flow is COMPLETE or OFFLOAD, for back-end endpoints that are no client's |
| PublishedMove.CloseDiffers | Frontend/subprojects/pkt_processor/pkt_processor.cpp:91-110 | After a client resets its published flow, its acknowledgments still bypass the front-end, which would not have forwarded them |
| PublishedMove.MoveDiffers | Frontend/subprojects/pkt_processor/pkt_processor.cpp:152-176 | After a published flow moves, the SYN-ACK bypasses the front-end, which would have sent the cached request |
| SwitchPipeline.SwitchIngress | Switch/data_plane/l7lb_switch.p4:280-354 | The flags set in sequence decide, each exactly when its condition on direction, TCP flags, payload and table entry holds: answer, bypass either way, front-end, switch CPU, elsewhere |
| SwitchPipeline.SwitchEgress | Switch/data_plane/l7lb_switch.p4:385-403 | The answer swaps the ends, acknowledges the client's sequence number plus one and carries the hashed number; a bypass changes one end only; everything else leaves as it came |
| SwitchService.Through | Switch/data_plane/l7lb_switch.p4:280-466 | Exactly the pure acknowledgments of published clients go to the published back-end, exactly what back-ends send published clients short of an end goes to the client, exactly the clients' SYNs are answered, and all else of the service goes to a front-end unchanged; each in terms of the packet's fields |
| SwitchService.ReplyIsSynAck | Switch/data_plane/l7lb_switch.p4:385-403 | The answer to a SYN has SYN and ACK set and its other flags as they were, ends swapped, no payload, and acknowledges the number after it |
| SwitchService.DeliveredAdditionBypasses | Switch/data_plane/l7lb_switch.p4:326-341 | Once an addition has been delivered without a removal, the client's pure acknowledgments no longer reach the front-end |
| SwitchService.OffloadTakesEffect | Switch/data_plane/l7lb_switch.p4:326-341 | After a draining tick and its delivery a client's pure acknowledgments are bypassed if and only if it had an entry or queued addition and no queued removal |
| EntryController.Controller.GetOffloadedEntries | Frontend/subprojects/entry_controller/entry_controller.cpp:36-72 | Everything enqueued is, in order, what batches carried, what is carried over and what is queued; a batch is the first of what waits, up to 40 of each kind; remainders stay within 20, from 0 they stay 0; the bytes hold exactly that batch in at most 1123 bytes |
| EntryController.Controller.constructor | Frontend/subprojects/entry_controller/entry_controller.cpp:5-22 | A new controller carries nothing over |
| EntryController.Controller.DropAdds | Frontend/subprojects/entry_controller/entry_controller.cpp:63-70 | Shifting the unsent rest to the front overlaps nothing and loses nothing |
| OffloadWire.RoundTripExactly | Switch/control_plane/src/controller.c:266-334 | Whole messages are decoded to exactly the additions and removals sent, in order, if and only if the byte after them lies in the buffer and is not the message type 3 |
| OffloadStream.StreamRoundTripExactly | Switch/control_plane/src/controller.c:256-334 | The concatenation of any encoded batches is decoded to exactly the batches, if and only if the buffer goes on with a byte other than 3 |
| OffloadStream.HoldsMoves | Frontend/flow_data.hpp:10-33 | A message is the same message wherever its bytes arrive |
| OffloadStream.BufferHolds | Frontend/subprojects/entry_controller/entry_controller.cpp:48-61 | Every list of messages that fits has bytes that decode to it |
| OffloadWire.StaleAppliedAgain | Switch/control_plane/src/controller.c:271-272 | If the byte after the messages starts a message left in the buffer, that one is decoded and applied again |
| OffloadWire.StaleUndoesRemoval | Switch/control_plane/src/controller.c:256-272 | A buffer in which a removal is received and the earlier addition of the same key, still behind it, comes back |
| OffloadWire.EntriesBound | Switch/control_plane/src/controller.c:290-329 | Twelve times the handles used never exceeds the bytes of whole messages |
| OffloadWire.DecodedBound | Switch/control_plane/src/controller.c:271-329 | Whatever the bytes, cut or left behind, twelve times the handles used never exceeds the buffer |
| OffloadStream.HandlesSufficeExactly | Switch/control_plane/src/client.c:275-295 | 256 handles suffice for every epoll round of k receives of any bytes if and only if k is at most 3 |
| SwitchController.Receive | Switch/control_plane/src/controller.c:266-334 | For any bytes received: if and only if they decode inside the buffer and the handles suffice, the loop applies all decoded messages in order, one handle each operation; otherwise it leaves its arrays |
| SwitchController.ReceiveMessage | Switch/control_plane/src/controller.c:278-329 | One message's additions take effect before its removals, failed ones not at all |
| SwitchController.OffloadTable.EntryAdd | Switch/control_plane/src/controller.c:303-309 | Adding a present key fails and keeps the old entry |
| Splice.SpliceOriginExactly | Backend/egress_tc.c:72-103 | After any run a client has a splice with difference d if and only if some SYN-ACK answered a recorded SYN at that distance, when there was no splice, and the back-end has not reset the client since |
| Splice.OneDifference | Backend/egress_tc.c:72-86 | Between its start and a reset by the back-end all segments of a client meet one difference, whatever passes in between |
| Splice.RecordExactly | Backend/ingress_xdp.c:136-145 | After any run the agent has a number on record for a client if and only if the client's last SYN that met no splice acknowledged it and the back-end has not reset a splice since |
| Splice.AcknowledgmentsReturn | Backend/ingress_xdp.c:69-79 | Ingress inverts egress: the client's acknowledgment n places after a translated segment arrives n places after what the back-end sent |
| Splice.OrderPreserved | Backend/egress_tc.c:78 | Translation keeps the circular order of sequence numbers in both directions |
| BackendAgent.Agent.Ingress | Backend/ingress_xdp.c:36-220 | On any bytes: which frames are dropped; the acknowledgment, exactly the edges of the SACK blocks and the check field change, nothing else; maps and headers follow the splice; the segment's one's-complement sum moves only by the slip of odd edges |
| BackendAgent.Agent.Egress | Backend/egress_tc.c:37-107 | On any bytes: sequence number, check field and maps follow the splice, nothing else changes, and a segment of any length that checked still checks |
| AgentFrames.HeaderExactly | Backend/ingress_xdp.c:41-67 | The agent takes a frame for TCP with header h if and only if the bytes of the frame carry h, each field in network order at its offset and each flag at its weight |
| AgentFrames.SameClientExactly | Backend/egress_tc.c:66-72 | Two client frames meet one splice if and only if bytes 26 to 29 and 34 to 35 agree; an answer meets a client frame's if and only if its bytes 30 to 33 and 36 to 37 are those |
| AgentFrames.SynAndAnswer | Backend/ingress_xdp.c:135-145 | On the bytes of a client's SYN and of the answer to it the agent clears the acknowledgment and records the difference for that client and no other |
| AgentFrames.SackTranslated | Backend/ingress_xdp.c:74-218 | A spliced client's frame with up to two NOPs and up to four SACK blocks leaves with its acknowledgment and every edge shifted by the difference, and header and option otherwise as they were |
| AgentFrames.AckTranslated | Backend/ingress_xdp.c:74-134 | A spliced client's frame without a SACK option leaves with its acknowledgment shifted and nothing else of header, options or data changed |
| AgentFrames.AnswerTranslated | Backend/egress_tc.c:72-106 | A back-end's frame to a spliced client leaves with its sequence number shifted back and nothing else of header, options or data changed; the splice goes if and only if it is a reset |
| AgentFrames.ScanExactly | Backend/ingress_xdp.c:80-126 | The option scan stops at SACK if and only if at most two NOPs, and nothing else, come before it, and is cut short if and only if the frame ends within them |
| BackendAgent.IngressSpliced | Backend/ingress_xdp.c:74-134 | The frame of a spliced client, accepted if and only if its option scan ends in the frame and its SACK option fits |
| BackendAgent.TranslateSack | Backend/ingress_xdp.c:147-216 | The unrolled code accepts an option if and only if it has zero to four whole blocks that lie in the frame, and moves every edge, as a loop over the edges would |
| BackendAgent.FindSack | Backend/ingress_xdp.c:80-126 | The unrolled scan finds SACK as the first option after at most two NOPs |
| BackendAgent.ChecksumKeptExactly | Backend/ingress_xdp.c:147-218 | A rewritten segment keeps its one's-complement sum if and only if the received frame has its edges at an even offset, or the number of edges times the difference, less the edges that wrap around, is a multiple of 257 |
| BackendAgent.OneNopFrameExists | Backend/ingress_xdp.c:87-122 | Accepted frames with one NOP and one SACK block exist ... |
| BackendAgent.OneNopCounterexample | Backend/ingress_xdp.c:87-122 | ... and with difference 1 the rewriting changes the sum of each, so that one which checked no longer does |
| Checksum.FoldsSuffice | Backend/ingress_xdp.c:29-33 | Two folds suffice for every 32-bit accumulator |
| Checksum.CsumFold | Backend/ingress_xdp.c:29-33 | The folded value is the negated accumulator in one's-complement arithmetic |
| Checksum.WordSum | Backend/ingress_xdp.c:78 | Four bytes contribute their 32-bit value to a segment's sum at even offsets, and 256 times it at odd ones |
| Checksum.ByteOrderIrrelevant | Backend/ingress_xdp.c:78 | A segment checks in host byte order if and only if it checks in network byte order |
| Handshake.OpensExactly | Switch/data_plane/l7lb_switch.p4:343-353 | A request that starts a back-end connection opens it if and only if the switch knows the back-end, keeps it apart from client and services, and does not hold the client in its table when the SYN-ACK returns |
| Handshake.BackendOpens | Frontend/subprojects/pkt_processor/pkt_processor.cpp:536-590 | When it opens and the agent holds no splice for the client, the back-end sees a correct three-way handshake and the agent records the distance between the two streams |
| Handshake.AcknowledgedExactly | Backend/ingress_xdp.c:74-79 | Whatever the agent holds, the request acknowledges the back-end's SYN if and only if there is no splice for the client or its difference fits |
| Handshake.ReturningClientExactly | Backend/ingress_xdp.c:74-134 | After a client's SYN, the answer and the client's own reset the agent still holds the splice, and it fits exactly one initial sequence number of the back-end |
| Handshake.FirstHandshake | Switch/data_plane/l7lb_switch.p4:385-389 | The switch answers the SYN and lets the request through; the back-end sees the client's own initial number x and then x+1 acknowledging y+1, and the agent stores y - s, for all x, s and y |
| Handshake.ByteArrivesExactly | Backend/egress_tc.c:78 | Each byte of an opened back-end reaches the client right where the request's acknowledgment says, if and only if the agent bridges the streams |
| Handshake.SessionsOpenExactly | Switch/data_plane/l7lb_switch.p4:343-353 | Any number of moves go through if and only if the switch lets each SYN-ACK through |
| Handshake.OneStream | Frontend/subprojects/pkt_processor/pkt_processor.cpp:152-176 | Over any number of moves between back-ends, in whatever state front-end, switch and agents are, the client receives one contiguous stream, across wrap-around, if and only if the agent of each session that sends bridges the streams |
| PublishedMove.MoveBlocked | Switch/data_plane/l7lb_switch.p4:343-349 | A published flow that moves has its removal queued, but its SYN-ACK goes to the client and the back-end is not opened |
| PublishedMove.MoveOpensOnceDelivered | Switch/control_plane/src/controller.c:313-329 | Once the removal has been sent and delivered the SYN-ACK opens the back-end |
| PublishedMove.MoveCounterexample | Frontend/subprojects/pkt_processor/pkt_processor.cpp:159-167 | A run that drains its queues at every tick, after which a published flow moves and its back-end is not opened, for every initial sequence number |
| Config.RuleRoundTripExactly | Frontend/main.cpp:195-209 | A rule list is sent, rebuilt, and its message consumed to the last byte, if and only if it has fewer than 256 rules and fits the 1024-byte send buffer |
| Config.RoundTripCounterexamples | Switch/control_plane/src/controller.c:211-225 | 256 rules that fit the buffer and are announced as none; 47 rules with names of 19 characters that overrun it |
| Config.BackendRoundTripExactly | Frontend/main.cpp:221-233 | A back-end list is sent, rebuilt, and its message consumed to the last byte, if and only if it fits the 1024-byte send buffer |
| Config.LastRuleWins | Frontend/subprojects/rule_controller/rule_controller.cpp:30-35 | Of several rules for one name the last one counts |
| Config.RulesNamed | Frontend/subprojects/rule_controller/rule_controller.cpp:30-35 | Exactly the listed names, and those configured before, have a rule |
| Config.LastBackendWins | Frontend/subprojects/rule_controller/rule_controller.cpp:59-63 | Of several servers for one index the last one counts |
| Config.BackendsNamed | Frontend/subprojects/rule_controller/rule_controller.cpp:59-63 | Exactly the listed indices, and those configured before, have a server |
| Config.EncodeRules | Switch/control_plane/src/controller.c:211-225 | The encoder writes exactly the message of the rules, or overruns its buffer, which it does if and only if the message is longer than 1024 bytes |
| Config.EncodeBackends | Switch/control_plane/src/controller.c:230-239 | The encoder writes the back-ends in order behind their count, or overruns its buffer, which it does if and only if there are more than 60 |
| Config.RuleController.Receive | Frontend/main.cpp:193-243 | One receive handles one message, adding before removing, and an unknown type changes nothing |
| Config.RuleController.ReceiveRules | Frontend/main.cpp:195-216 | Cursor and map after any rule message whose strings end in the buffer |
| Config.RuleController.ReceiveBackends | Frontend/main.cpp:221-239 | Cursor and map after any back-end message inside the buffer |
| Configuring.Announce | Switch/control_plane/src/controller.c:211-253 | The three messages of a new connection, each received by itself, build exactly the sent rules, back-ends and virtual server, unless a list overruns the buffer or 256 rules are announced as none |
| Configuring.EncodeVirtual | Switch/control_plane/src/controller.c:244-249 | The message of the virtual server carries its image behind type 2 |
| Configuring.VirtualStored | Frontend/main.cpp:216-219 | A front-end stores the virtual server of such a message, and keeps rules and back-ends |
| Configuring.RuleChangeDone | Frontend/main.cpp:195-215 | A message of additions and removals is consumed to its last byte and changes the rules, additions first, and nothing else |
| Configuring.RemovedExactly | Frontend/subprojects/rule_controller/rule_controller.cpp:47-57 | Exactly the removed names are gone, the others keep their data |
| Configuring.BackendChangeDone | Frontend/main.cpp:220-238 | Likewise for back-ends |
| Configuring.UnknownIgnored | Frontend/main.cpp:239-241 | A message of another type changes nothing |

## Left out

- DPDK, NUMA, epoll, timers, sockets, JSON loading and the loading of the BPF programs.
- The set-up of the switch's tables through the driver library; a table is a map on which failed operations change nothing.
- The insides of libcuckoo and moodycamel, the locks of the rule controller, and data races on the records a lookup returns: workers interleave whole packet steps.
- EntryController.BulkQueue.TryDequeueBulk: one atomic step on elements in dequeue order; that the order across producers is arbitrary, and that a dequeue racing with producers may return fewer elements, is covered by the multisets and the ticks of `Publication`.
- EntryController.Controller.GetOffloadedEntries: runs without workers in between; `Pipeline` splits it at its two dequeues.
- PktProcessor.Worker.ProcessPkts: requires that no step of the burst is `Undefined` (freed record, missing server behind an unchecked pointer, token of 20 bytes or more); an early return leaks its buffers in the program, the model only says that nothing is sent. Failed allocation of buffers and a short transmission are not modelled.
- FrontEnd.Step: handles packets as values, not as buffers; Ethernet addresses, IP and TCP checksums that the network card fills in, and TCP option values are not modelled.
- The headers of resets that the front-end makes: only to whom they go is modelled. The reset to an old back-end writes address and port without swapping bytes, unlike its siblings.
- SwitchController.Receive: a message cut by the 1024-byte receive, which a full batch is, decodes with whatever the buffer held, or to `None` when it would be read past the buffer; how its second half decodes in the next receive is not modelled further.
- SwitchPipeline.SwitchIngress: leaves out ARP, UDP and VLAN, the egress ports, and the switch's checksum units; the initial sequence number is an arbitrary function of the client.
- Limits of tables and maps (143360 switch entries, 102400 splices).
- Config.RuleController.Receive: one message per receive; two messages that arrive together are not taken apart by the program either.
- Handshake.OpenBackend: one pass of each packet; a repeated SYN-ACK is another pass, with the switch as it is then.
- Handshake.OneStream: segment loss, retransmission and segments of an old back-end still under way after a move are not modelled.
