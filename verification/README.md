# Verification of the parking chain firmware

A Dafny 4.11 model of the ESP32-S3 firmware that carries parking readings and
camera frames along a chain of nodes to a Gateway, with machine-checked proofs of
what the protocol promises. `dafny verify dfyconfig.toml` checks all of it.

## What is modelled

**The status chain** (`main/chain_node.cpp`). `ChainSpec` is one node as a state
machine over its real fields; `ChainNode` is the same node as a class that updates
them in place, each method proved to refine it. `ChainNet` is a chain of N such
nodes, any N up to 64, with a data and an ACK channel per hop; a run is any
sequence of receptions, losses, clock values, foreign frames and lane updates.
`HopProtocol` sees one hop as sender slot, duplicate filter and two lossy FIFO
channels; its invariant is that the receiver has accepted exactly what the sender
started, without back-to-back repeats and up to the packet in the slot.
`NodeInvariant` and `ChainInvariant` carry this to the whole chain. From it follow
`ChainDelivery` and `ChainFacts` (exactly-once, in-order delivery and exactly when
it holds, accounting, discovery), `ChainDiscovery` (when discovery ends),
`ChainReadings` (what a reading carries),
`ChainPotential`, `ChainWork` and `ChainProgress` (no deadlock and progress while
readings go on, by a potential over hop distance and slot state that no schedule can
raise), `ChainWrap` (the run on which a reading is lost), `Timers` (the
comparisons against true time) and `NodeLife` (when a node broadcasts, reads and
warns in true time, and what it counts).

**The video hops** (`main/video_relay.cpp`). `Framing` is the byte format;
`VideoStream` is what the receive loop makes of a connection that splits and fails
as it likes, `VideoConnection` has the loops of server and client, `VideoCalls` says
that nothing but a failing call stops them, and `Alignment` and `DrainCut` say exactly
when a failed receive costs the framing. `VideoNet` is a
chain of N relays with bounded queues and any number of connections per hop, cut at
any byte, `VideoTurns` ties its steps to the receive loop, `VideoDelivery` and
`VideoRuns` prove what reaches the Gateway, and `VideoLosses` accounts for every
frame that does not. `BufferOwnership` follows the frame buffers, and the objects
that point to them, through all tasks, `RelayCounters` says what the counters count,
and `RelayTasks` has those tasks with their fields.

**The SPI receiver** (`main/luckfox_spi.cpp`). `SpiReceiver` is the decoder with a
specification sender, `SpiTask` its loops over the shared scratch buffer, and
`SpiResync` its self-stabilisation.

**The Gateway uplink** (`main/gateway_uplink.cpp`). `Uplinks` and `UplinkTasks` are
the two queues with their callers and tasks, `UdpChunks` the chunk loop with a
minimal reassembler, `Watchdog` the driver restart. `EndToEnd` joins the chain and
the uplinks.

`Words`, `Config` and `Subsequence` hold the firmware's word arithmetic, its
constants and a theory of subsequences.

## Assumptions

- Nodes do not reboot within a run, and every node id has one MAC address.
- Each channel between neighbours is FIFO and may lose any frame: the receive queue
  drops when full and is drained in order (`main/espnow_transport.cpp:35-44`,
  `main/espnow_transport.cpp:113-121`). Every handler call and every task iteration
  between blocking points is one step; a wait for room in a queue
  (`main/video_relay.cpp:140`) belongs to the step, which finds the queue full when the
  wait ends without room.
- Clock readings, link states, allocation results and the results of `recv`, `send`
  and SPI transactions are parameters: the proofs hold for all their values, but for
  what `Timers`, `NodeLife` and `Watchdog` say of a clock that follows true time.
- That an empty chain is reached takes losses to pause for long enough and every relay
  to poll (`ChainProgress.IsRound`).
- Node ids and chain sizes are those that provisioning lets through
  (`main/provisioning.cpp:33`, `main/provisioning.cpp:53-54`).
- `kChainSelfTest` is false, as configured; only the buffers of the self-test producer
  are followed.

## Where code and documentation differ

The model follows the code.

- `docs/network/topology.md:51-69` gives a node a one-packet buffer and lets it accept
  only when that is free. The code accepts whenever its queue of eight has room.
- `docs/network/topology.md:73` says that nothing is lost. That is so for relayed
  packets; a node's own readings are dropped while its queue is full, and the drop
  counter mixes them with refused relays that will be retried.
- `main/protocol.h:47` calls the sequence number a counter per origin and stream. The
  code has one per origin, and duplicate detection, which ignores the stream, relies
  on it.
- `docs/network/topology.md:105` describes the video uplink as TCP. The code sends
  chunks over UDP.
- The ACK deadline is compared directly (`main/chain_node.cpp:310`), unlike the other
  timers; it is right only within one turn of the 32-bit clock (`Timers.DeadlineTest`).
- `main/video_relay.cpp:261` counts on the drain to keep the framing. A receive failure
  inside it ends only the inner loop (`main/video_relay.cpp:264-269`); if a later call
  brings a byte, the rest of the payload is read as a header (`Alignment.AlignedExactly`).

## Model

| member | source | states |
|---|---|---|
| `ChainNode.ChainNode.constructor` | main/chain_node.cpp:258-272 | a booted node is in discovery, knows no neighbour, has an empty queue and slot, and the roles of its id in a chain of this size |
| `ChainNode.ChainNode.HandleHello` | main/chain_node.cpp:137-164 | the fields after a HELLO are those of the node state machine: a neighbour is learned once, discovery ends when prev (and next, on a relay) is known |
| `ChainNode.ChainNode.HandleStatus` | main/chain_node.cpp:166-205 | fields, ACK and hand-over to the uplink after a status frame: foreign, duplicate, sunk, refused or queued |
| `ChainNode.ChainNode.HandleAck` | main/chain_node.cpp:207-217 | only an ACK from next for the packet in the slot frees it; every other leaves all fields as they were |
| `ChainNode.ChainNode.SetLaneStatus` | main/chain_node.cpp:346-353 | the cached lane table afterwards, an out-of-range lane changing nothing |
| `ChainNode.ChainNode.BeginForwarding` | main/chain_node.cpp:129-135 | the packet is in the slot and on its way to next, with a fresh deadline and no retries |
| `ChainNode.ChainNode.Retransmit` | main/chain_node.cpp:310-323 | the slot is sent again, the 8-bit retry count and the deadline move on, the warning is rate-limited |
| `ChainNode.ChainNode.TakeReading` | main/chain_node.cpp:290-295 | the reading of the lane whose turn it is; the 16-bit sequence number and the lane move on, whatever becomes of the reading |
| `ChainNode.ChainNode.Originate` | main/chain_node.cpp:288-303 | a due reading is sunk at the Gateway, queued on a relay with room, dropped and counted on a full one |
| `ChainNode.ChainNode.Loop` | main/chain_node.cpp:277-331 | one pass of the main loop: at most one frame leaves, a full refinement of the node state machine |
| `ChainSpec.NeighboursAreInverse` | main/chain_node.cpp:262-263 | next and prev, computed modulo the chain size, are inverse to each other |
| `HopProtocol.Start` | main/chain_node.cpp:129-135 | starting the next packet keeps the hop invariant, whether its key repeats the last or not |
| `HopProtocol.Resend` | main/chain_node.cpp:309-323 | a retransmitted copy keeps the hop invariant |
| `HopProtocol.Freed` | main/chain_node.cpp:207-217 | a matching ACK proves that the receiver took a packet with the key of the slot last, and that it is the very packet in the slot unless a key was started twice in a row |
| `HopProtocol.Accept` | main/chain_node.cpp:196-204 | a frame that the receiver takes is the packet in the slot; afterwards its log is again the log of started packets |
| `HopProtocol.Reack` | main/chain_node.cpp:171-178 | answering a duplicate keeps the hop invariant |
| `HopProtocol.LoseData` | main/espnow_transport.cpp:35-44 | losing any status frame, wherever it is in the channel, keeps the hop invariant |
| `HopProtocol.LoseAck` | main/espnow_transport.cpp:35-44 | losing any ACK keeps the hop invariant |
| `HopProtocol.ReliableFifo` | main/chain_node.cpp:166-217 | a hop is a reliable FIFO: the accepted log is the started log, without its last entry while that is outstanding, if and only if no key was started twice in a row |
| `HopProtocol.TwoAlive` | main/chain_node.cpp:207-217 | at most two keys are alive on a hop, in data and ACKs alike, and the older in ACKs only while the slot holds the newer |
| `HopProtocol.DropRepeatsExact` | main/chain_node.cpp:46-51 | duplicate detection by the last key alone loses nothing exactly when no two consecutive keys are equal |
| `NodeInvariant.StatusKeepsNode` | main/chain_node.cpp:166-205 | a status frame keeps a node's invariant: peers, logs, origins, keys, numbering and counters |
| `NodeInvariant.TickKeepsNode` | main/chain_node.cpp:288-303 | so does a local reading, with room or without |
| `NodeInvariant.PassKeepsNode` | main/chain_node.cpp:274-331 | so does a whole pass of the loop, at any clock values |
| `NodeInvariant.RelayPass` | main/chain_node.cpp:305-331 | a pass of a relay sends nothing or exactly the packet in its slot, and puts a packet there only from the head of the queue |
| `ChainInvariant.StepKeepsInv` | main/chain_node.cpp:137-353 | every step of every node and every loss keeps the invariant of the whole chain of N nodes |
| `ChainInvariant.Reachable` | main/chain_node.cpp:258-353 | the invariant holds in every state that a booted chain can reach |
| `ChainDelivery.DeliveredExactlyOnce` | main/chain_node.cpp:166-217 | in every reachable state, for every relay, its readings at the Gateway followed by those held on the way equal exactly what it ever queued, if and only if no node started a key twice in a row |
| `ChainFacts.DeliveredUnlessWrapped` | main/chain_node.cpp:288-302 | main result: in every reachable state every reading ever queued is at the Gateway or held on the way, once and in order, if and only if no relay sent two own readings back to back that lie a multiple of 65536 ticks apart |
| `ChainFacts.RepeatIff` | main/chain_node.cpp:290-301 | two consecutive queue entries share a key if and only if both are own readings with 65535, 131071, ... drops between them |
| `ChainFacts.FewDropsExactlyOnce` | main/chain_node.cpp:293-301 | exactly-once delivery on every run without 65535 dropped readings in a row |
| `ChainDelivery.Conservation` | main/chain_node.cpp:166-217 | on every run from boot: as collections of packets, the readings of each relay that found room are those at the Gateway, those held on the way and those swallowed as a repeated key, each counted once |
| `ChainDelivery.HopExact` | main/chain_node.cpp:166-217 | per hop: accepted downstream plus held here is started without repeats plus queued |
| `ChainDelivery.NeverTwice` | main/chain_node.cpp:171-178 | on every run the Gateway hands over a subsequence of each relay's readings: no copy, no reordering |
| `ChainWrap.ReadingSwallowed` | main/chain_node.cpp:290-301 | the limit is reachable: a run of a two-node chain from boot, on a clock that goes forward in true time and with every retransmission sent and lost, with 65535 drops in a row, after which a queued reading is nowhere |
| `ChainPotential.QuietStepPays` | main/chain_node.cpp:137-331 | a potential of the whole chain never rises at any step but a loss or a new reading, and stays the same only if no slot, queue or duplicate filter changes |
| `ChainWork.StepPays` | main/chain_node.cpp:137-331 | with readings: less three units per hop to go for every reading that found room, it never rises at any step but a loss, and stays the same only if no slot, no duplicate filter and no queue of a node with a free slot changes |
| `ChainProgress.RoundPays` | main/chain_node.cpp:305-330 | progress while readings go on: every round, in any order and at any clock values, does at least a unit more of work than its readings bring, or leaves the chain empty; in a round nothing is lost, each relay polls, those that wait at an expired deadline, and everything on the air is received |
| `ChainProgress.RoundsEmpty` | main/chain_node.cpp:180-205 | so after more rounds than the potential and the work of the readings made meanwhile the chain was empty at the end of one of them |
| `ChainProgress.RoundsDrain` | main/chain_node.cpp:180-205 | and without new readings it is empty after as many rounds as the potential says, and stays so |
| `ChainProgress.PotentialBound` | main/config.h:39 | which is never more than 29 N^2 in a chain of N nodes |
| `ChainProgress.RoundExists` | main/chain_node.cpp:305-330 | there is a round from every state past discovery, for any clock values at which the deadlines are over |
| `ChainProgress.NoDeadlock` | main/chain_node.cpp:180-205 | main result: after any run that left no node in discovery, more rounds than 29 N^2 and the work of the readings made meanwhile leave the chain empty after one of them; everything read by then is at the Gateway, once and in order, if and only if no relay sent two own readings back to back that lie a multiple of 65536 ticks apart |
| `ChainFacts.TagIdentifies` | main/chain_node.cpp:290-295 | lane and sequence number identify a reading among 196608 consecutive ones, and no further |
| `ChainFacts.LanesRotate` | main/chain_node.cpp:290-295 | any three consecutive ticks read every lane exactly once |
| `ChainReadings.ReadingIsLatest` | main/chain_node.cpp:99-115 | tick t reads lane t mod 3 under sequence number t mod 65536, with the occupancy that lane was last set to in the run and the first min(length, 11) characters of the plate, so the plate itself up to eleven; a lane never set is free and has none |
| `ChainReadings.TickTakesReading` | main/chain_node.cpp:288-302 | a due tick takes that reading, queues it if there is room, and counts on |
| `ChainFacts.RelayAccounting` | main/chain_node.cpp:196-216 | queued plus accepted minus acknowledged is what queue and slot hold, never more than nine; the 32-bit counters agree |
| `ChainFacts.ChainCapacity` | main/config.h:39 | the relays together never hold more than nine packets each |
| `ChainFacts.GatewayAccounting` | main/chain_node.cpp:183-189 | the Gateway hands over what it reads and accepts and nothing else: sunk = local + in, modulo 2^32 |
| `ChainFacts.KnowsNeighbours` | main/chain_node.cpp:137-164 | a node outside discovery knows the MACs of its true neighbours |
| `ChainFacts.NeverForgets` | main/chain_node.cpp:141-156 | on every run a learned MAC never changes and discovery is never entered again |
| `ChainFacts.NothingAstray` | main/chain_node.cpp:282-307 | no status frame travels from the Gateway to node 1, and no unicast frame goes to anyone but a neighbour |
| `ChainFacts.LoneNode` | main/chain_node.cpp:258-264 | a chain of one node never leaves discovery |
| `ChainDiscovery.DiscoveryEnds` | main/chain_node.cpp:137-164 | over every run from boot: a node is past discovery if and only if it has heard a HELLO of its prev of this chain and, unless it is the Gateway, one of its next |
| `ChainDiscovery.OnlyHellosTeach` | main/chain_node.cpp:137-164 | nothing but a HELLO heard by a node changes what it knows of its neighbours, or ends or begins its discovery |
| `NodeLife.HellosExactly` | main/chain_node.cpp:277-280 | in any life on a forward clock a pass broadcasts a HELLO if and only if 500 ms of true time in discovery, or 5000 ms after it, have passed since the last one or boot, for every gap below 2^32 ms |
| `NodeLife.ReadingsExactly` | main/chain_node.cpp:282-289 | a pass makes a reading, on the Gateway as on a relay, if and only if the node is past discovery and 2000 ms of true time have passed since its last one, or since power-up, for every gap below 2^32 ms |
| `NodeLife.QueuedExactly` | main/chain_node.cpp:190-302 | past discovery, what enters a relay's queue, at its end, is every new packet of prev and every own reading that finds less than eight in it, and nothing else; only the head leaves it |
| `NodeLife.DropsCounted` | main/chain_node.cpp:190-302 | the drop counter counts, modulo 2^32, the new packets of prev and the own readings that find eight, and nothing else |
| `NodeLife.RetriesCounted` | main/chain_node.cpp:309-322 | the retransmission counter is the number of copies sent so far, modulo 2^32 |
| `NodeLife.CopiesCounted` | main/chain_node.cpp:309-322 | the retry count is the number of copies of the packet in the slot, modulo 256 |
| `NodeLife.WarningsExactly` | main/chain_node.cpp:313-315 | the stamp of the last warning moves exactly when the sixth or a later copy of a packet goes out, counting modulo 256, and the last warning is 5000 ms of true time ago |
| `Timers.IntervalTest` | main/chain_node.cpp:278 | the subtraction test agrees with true time for every gap below 2^32 ms, and for longer ones exactly when the remainder does |
| `Timers.DeadlineTest` | main/chain_node.cpp:310 | the ACK deadline comparison agrees with true time if and only if poll and deadline lie in the same 2^32 ms epoch |
| `Timers.ExpiresExactly` | main/chain_node.cpp:309-310 | a waiting relay that polls after its deadline and less than 2^32 ms late retransmits if and only if the poll lies in the epoch of the deadline |
| `Timers.RetransmissionsAreSpaced` | main/chain_node.cpp:309-322 | in any life of one node, two consecutive transmissions of its slot are of the same packet, and at least 300 ms apart if and only if the poll lies in the epoch of its deadline or a whole turn of the clock later |
| `Timers.SpacesAddUp` | main/chain_node.cpp:309-322 | so n retransmissions, each polled in time, take at least 300 n ms |
| `Timers.NodeTests` | main/chain_node.cpp:288-310 | the node's tests of the local timer and of the ACK deadline agree with true time |
| `Framing.HeaderRoundTrip` | main/video_relay.cpp:69-74 | the packed 8-byte header is decoded to what was encoded |
| `Framing.HeartbeatIsPacked` | main/video_relay.cpp:322-323 | the keepalive is the packed header that the server recognises as one |
| `Framing.HeadersExactly` | main/video_relay.cpp:249-255 | any eight bytes are a keepalive by stream and length alone, the header of some frame of 1 to 262144 bytes, or a bad header |
| `Framing.ParseEncoded` | main/video_relay.cpp:247-277 | an item is read back whole whatever bytes follow it; a heartbeat yields no frame |
| `Framing.ParseCut` | main/video_relay.cpp:247-275 | of a strict prefix of an item neither a frame nor a bad header is ever seen |
| `Framing.DecodeEncoded` | main/video_relay.cpp:247-277 | round trip: any interleaving of frames and heartbeats yields exactly the frames for which there was a buffer, in order |
| `Framing.CutConnection` | main/video_relay.cpp:321-336 | whatever prefix of the bytes arrives yields a prefix of the frames sent |
| `VideoConnection.RecvAll` | main/video_relay.cpp:146-155 | fills the buffer with the next bytes of the stream, however they are split, or fails at the first failing call |
| `VideoConnection.SendAll` | main/video_relay.cpp:194-203 | all of the data reaches the socket, or what went out before the first failing call, call by call |
| `VideoConnection.DrainPayload` | main/video_relay.cpp:258-269 | consumes the payload of a frame without a buffer, completely unless a receive fails |
| `VideoConnection.ReadOne` | main/video_relay.cpp:246-277 | one turn of the receive loop: ended, heartbeat, dropped or a whole frame |
| `VideoConnection.ServeConnection` | main/video_relay.cpp:246-283 | the frames handed on, the bytes read, the drops counted and whether a drain was cut short are those of the connection, turn by turn |
| `VideoConnection.SendItem` | main/video_relay.cpp:324-329 | header, then image, as far as the calls let them out; on failure the item is on the socket in part, never completely |
| `VideoConnection.SendItems` | main/video_relay.cpp:318-337 | the send loop writes whole items and at most one partial one, at which it stops: the first that a failing call hits |
| `VideoStream.ServeIsDecode` | main/video_relay.cpp:246-278 | fragmentation does not matter: if there is a buffer for every frame, or no receive succeeds after a failed one, the frames are what the bytes read decode to, wherever the connection was lost |
| `VideoStream.ConnectionDelivers` | main/video_relay.cpp:246-278 | client and server over one such connection, cut at any byte: a prefix of the frames sent whole, minus those without a buffer |
| `VideoCalls.WritesOn` | main/video_relay.cpp:194-203 | the send loop gives up at a failing call and nowhere else: before it, every call has put out a byte at least |
| `VideoCalls.ReadsOn` | main/video_relay.cpp:246-283 | the receive loop gives up at a failing call or at the end of the bytes and nowhere else: of items written in order and cut anywhere, it reads a byte at least for every call before the first that fails |
| `VideoCalls.NothingIsLost` | main/video_relay.cpp:246-337 | so without a failing call a connection carries everything: all items are written, and every frame is handed on for which there is a buffer |
| `Alignment.AlignedExactly` | main/video_relay.cpp:246-278 | main result: for all items, however much of them arrives and however it is split, no payload is ever read as a header if and only if no call brings a byte after the first receive that fails inside a drain; the condition depends on the lengths, the calls and the buffers alone |
| `Alignment.AlignedDelivers` | main/video_relay.cpp:246-278 | and then the server hands on a prefix of the frames for which there is a buffer |
| `Alignment.FramedIsQuiet` | main/video_relay.cpp:246-278 | as it does whenever there is a buffer for every frame or no receive succeeds after a failed one |
| `DrainCut.CutDrainMisframes` | main/video_relay.cpp:264-269 | the limit: if a receive fails inside a drain and later ones still bring a header and a byte of the same payload, some payload makes the server hand on any one-byte frame, which nobody sent, whatever follows on the connection |
| `DrainCut.FramingLostExactly` | main/video_relay.cpp:257-270 | with anything behind it: of a frame without a buffer, all later ones having one, some payload and some items behind make the server hand on what was not sent if and only if, after a receive that failed inside the drain, the calls bring a header and the shortest payload that the rest of this payload and the next item can announce: 256 bytes if one byte is left, else one |
| `VideoRuns.VideoDelivered` | main/video_relay.cpp:135-144 | main result: over N hops and any number of reconnects, on every run in which no server hands on what it takes for a frame on a connection that has lost its framing, the Gateway is handed, of every node, byte-identical frames in the order produced, none twice |
| `VideoRuns.HopsAreSound` | main/video_relay.cpp:246-278 | on every hop of every such run: what was received is, in order, among what `sendAll` accepted whole, and no payload is read as a header |
| `VideoRuns.OrderlyStep` | main/video_relay.cpp:246-337 | every step of every server and client, every cut of a connection, every drain cut short and any reading on that hands on nothing keep the invariant of the chain, in which a connection that lost its framing counts as closed |
| `VideoRuns.ReadingOnMisdelivers` | main/video_relay.cpp:264-269 | the condition is needed: for any frame whose payload holds an encoded frame at any position there is a run in which the server hands on the inner one, and the Gateway hands over a frame that no node produced |
| `VideoTurns.TurnIsStep` | main/video_relay.cpp:246-278 | every turn of the receive loop is a step of the chain with the same effect: item read, frame dropped, drain cut short, or connection closed |
| `VideoTurns.ServeIsRun` | main/video_relay.cpp:246-283 | and the whole loop over a connection, for every way the calls split it, is a run of the chain with the same frames handed on and as many refused |
| `VideoRuns.EveryFrameIsAccounted` | main/video_relay.cpp:135-144 | on every run, with or without it: every frame that reaches a node is sunk, sent, queued or counted as dropped, once |
| `VideoLosses.LossesExactly` | main/video_relay.cpp:135-144 | to the frame, on every orderly run: what a node produced has gone to the uplink, is in a queue or on a sound connection, or was lost by a step that is named: at a full queue, for want of a buffer, not written whole, written to a dead connection, or unread when a connection is closed or loses its framing |
| `VideoLosses.DeliveredInFull` | main/video_relay.cpp:135-144 | main result: once nothing of a node is under way, the Gateway has handed over everything the node produced, in order, if and only if no step lost a frame of it |
| `VideoLosses.DropsExactly` | main/video_relay.cpp:140-143 | on every run: the drop counter of a node counts the frames that find no buffer there, those that arrive at a relay with twelve in its queue, and those not sent whole, and nothing else |
| `VideoDelivery.StepKeepsInv` | main/video_relay.cpp:246-337 | every step but a drain cut short keeps the invariant of the chain: only whole items up to a cut on every connection, received frames among those sent |
| `VideoDelivery.WriteBehind` | main/video_relay.cpp:321-329 | writing the first bytes of an item behind whole items adds its frame exactly if they are all of it |
| `VideoRuns.ClientIsNeverStuck` | main/video_relay.cpp:318-337 | on every run a connected client with a frame in its queue can write any part of it |
| `SpiReceiver.AnnouncesExactly` | main/luckfox_spi.cpp:102-144 | the receiver takes for a header exactly the first bytes of a chunk that are the header of some valid message |
| `SpiReceiver.WireRoundTrip` | main/luckfox_spi.cpp:53-59 | a header chunk is decoded to what was encoded, whatever pads it |
| `SpiReceiver.MessageArrives` | main/luckfox_spi.cpp:135-206 | one message, from header-wait to header-wait: delivered unchanged, or dropped if it is an image without a buffer |
| `SpiReceiver.StreamArrives` | main/luckfox_spi.cpp:90-208 | round trip: any sequence of messages cut into 4000-byte transactions is delivered in order |
| `SpiReceiver.CutHolds` | main/luckfox_spi.cpp:182-193 | cutting a payload into padded chunks loses nothing |
| `SpiResync.BackExactly` | main/luckfox_spi.cpp:165-193 | without failures a busy receiver waits for a header again after exactly ceil(outstanding / 4000) transactions, not before |
| `SpiResync.BackAtMost` | main/luckfox_spi.cpp:165-198 | from any state and with failures anywhere it does so within 66 transactions: at the first that fails, or when the payload is through |
| `SpiResync.MessageOrNothing` | main/luckfox_spi.cpp:90-208 | whatever transactions fail, with a chunk or without, a message is delivered intact or not at all, and the receiver waits for the next header |
| `SpiResync.StreamSurvives` | main/luckfox_spi.cpp:90-208 | of a stream with failures anywhere exactly those messages are delivered from whose header on no transaction fails, images also needing a buffer, in order |
| `SpiResync.HeapOnlyDropsFrames` | main/luckfox_spi.cpp:165-180 | the place in the stream does not depend on the heap: with fewer buffers it is the same, and the deliveries are some of the others, in order |
| `SpiResync.LocksOn` | main/luckfox_spi.cpp:95-111 | header-wait skips everything up to the first chunk that reads as a header, and locks on to that |
| `SpiResync.Resynchronises` | main/luckfox_spi.cpp:95-133 | from header-wait at any chunk of a stream whose payload chunks do not read as headers: of the messages that begin from there on exactly those |
| `SpiResync.SelfStabilises` | main/luckfox_spi.cpp:90-208 | main result: from any state at any chunk of such a stream and with failures anywhere, whether they lose a chunk or not, after at most 66 transactions exactly the messages from whose header on no transaction fails are delivered, intact and in order |
| `SpiTask.Slave.TransactOnce` | main/luckfox_spi.cpp:77-88 | a transaction fails, or leaves its chunk in the scratch buffer |
| `SpiTask.Slave.AwaitHeader` | main/luckfox_spi.cpp:95-133 | the header-wait loop ends at the first chunk with the magic word |
| `SpiTask.Slave.ReadStatus` | main/luckfox_spi.cpp:149-163 | the status chunk is handed on with its plate terminated, or lost with its transaction |
| `SpiTask.Slave.DrainFrame` | main/luckfox_spi.cpp:165-180 | the drain loop consumes the chunks of the frame or stops at the first failure |
| `SpiTask.Slave.CollectFrame` | main/luckfox_spi.cpp:181-193 | the collect loop leaves the payload in the frame's buffer or stops at the first failure |
| `SpiTask.Slave.ReceiverTask` | main/luckfox_spi.cpp:90-208 | the task delivers what the state machine says for every sequence of transactions and blocks where it says |
| `UdpChunks.NeverUnderflows` | main/gateway_uplink.cpp:266-269 | for every 32-bit length no chunk offset passes the end of the frame |
| `UdpChunks.ChunksAreFull` | main/gateway_uplink.cpp:256-269 | all chunks but the last are full, and the last is not empty |
| `UdpChunks.Lossless` | main/gateway_uplink.cpp:256-278 | all chunks, in any order and with repeats, give the frame back, its origin, stream and number included, if and only if it has at most 1400 * 65535 bytes; every frame of the chain has |
| `UdpChunks.ChunksDetermineTheFrame` | main/gateway_uplink.cpp:260-271 | no set of datagrams is the complete set of two different frames |
| `UdpChunks.FrameRecovered` | main/gateway_uplink.cpp:256-278 | from the bytes on the wire, in any order and number, the frame is recovered with its origin, stream and number |
| `UdpChunks.ChunkSender.SendFrame` | main/gateway_uplink.cpp:256-278 | the loop sends from its one buffer exactly the first n chunks, n being all of them or the first that fails |
| `Uplinks.EveryCallIsCounted` | main/gateway_uplink.cpp:199-209 | in every interleaving with link flaps each call is counted once as sent or dropped, or its item is queued or in the task's hand (modulo 2^32); what is sent goes out in order |
| `Uplinks.RunKeeps` | main/gateway_uplink.cpp:245-285 | every item offered has exactly one place, first in first out, counted once, on every run |
| `Uplinks.FatesExactly` | main/gateway_uplink.cpp:426-441 | the fate of every item in every interleaving, told by an observer of the steps alone: a caller is turned away if and only if the queue is full or, for video, the link is down; the sent log is exactly the items taken whose check found the link up and whose sending succeeded, in order; all others taken are dropped; and the counters count these |
| `Uplinks.SmoothSends` | main/gateway_uplink.cpp:245-285 | while every caller finds room, the link is up whenever somebody looks and no sending fails, nothing is dropped: what was offered is what was sent, is in hand or waits, in order |
| `UplinkTasks.UplinkQueue.Offer` | main/gateway_uplink.cpp:490-503 | never waits: queued if there is room (and, for video, a link), else dropped and counted |
| `UplinkTasks.UplinkQueue.Next` | main/gateway_uplink.cpp:245-254 | takes the head of the queue, and drops it if the link is down |
| `UplinkTasks.FlushStatus` | main/gateway_uplink.cpp:426-441 | before initialisation nothing happens and nothing is counted; later the reading is queued or dropped as it is, the plate cut to its first eleven characters and unchanged if it has no more |
| `UplinkTasks.VideoUplinkTurn` | main/gateway_uplink.cpp:245-285 | with a link the first n chunks of the next frame go out, and it is counted as sent exactly if that is all of them, else as dropped; without one nothing goes out |
| `BufferOwnership.OneOwnerThenFreedOnce` | main/video_relay.cpp:81-85 | in every interleaving of all tasks each allocated buffer, `Frame` and `VideoItem` has exactly one owner until it is freed, exactly once |
| `BufferOwnership.SinkFreesTheWrapper` | main/video_relay.cpp:126-129 | whatever the other tasks do meanwhile, nulling the pointer and `freeFrame` at the end of `sinkFrame` free the frame object and not the buffer |
| `BufferOwnership.NotClearedFreesTwice` | main/video_relay.cpp:128 | without the nulling `freeFrame` would free a buffer that the uplink owns or has freed |
| `BufferOwnership.VideoConservation` | main/video_relay.cpp:121-144 | modulo 2^32, in every interleaving: at the Gateway local + in = sunk + about to be sunk, and sunk = sent + dropped + queued + in hand; on a relay local + in = sent + dropped + queued + in a hand |
| `RelayCounters.CountersExactly` | main/video_relay.cpp:133-144 | in every interleaving each of the five counters counts its own events and nothing else, modulo 2^32: frames received, local, sunk and sent, and as drops the failed allocations of server and self-test, the frames that arrive at a relay with twelve in its queue, and those not sent whole |
| `RelayCounters.RelayedInOrder` | main/video_relay.cpp:135-144 | a relay hands to its client, in the order in which they arrived, exactly the frames that found less than twelve in the queue; on a run that drops nothing, what went out, what is in the client's hand and what is queued are all that arrived, in order |
| `RelayCounters.GatewayFates` | main/video_relay.cpp:121-130 | at the Gateway, in every interleaving: a frame is turned away if and only if it finds the uplink down or its queue full; what went out is, in order, what the uplink task took, found the link up for, and sent |
| `RelayTasks.VideoRelay.Delete` | main/video_relay.cpp:81-85 | frees the buffer unless the pointer is null, and the object |
| `RelayTasks.VideoRelay.Flush` | main/gateway_uplink.cpp:490-503 | without a link the buffer is freed and no item exists; with one it is in an item, which is queued, or freed with it |
| `RelayTasks.VideoRelay.SinkFrame` | main/video_relay.cpp:121-130 | counted, handed to the uplink, nulled and freed: the steps of the ownership model, in order |
| `RelayTasks.VideoRelay.EnqueueOrDrop` | main/video_relay.cpp:135-144 | sunk at the Gateway, queued on a relay with room, else dropped, counted and freed |
| `RelayTasks.VideoRelay.OnServerFrame` | main/video_relay.cpp:272-277 | a received frame leaves the server's hand and is counted as in |
| `RelayTasks.VideoRelay.OnLuckfoxFrame` | main/video_relay.cpp:352-356 | a local frame leaves the producer's hand and is counted as local |
| `RelayTasks.VideoRelay.ClientTurn` | main/video_relay.cpp:318-337 | the head of the queue is sent or dropped, counted accordingly, and freed either way, buffer and object |
| `RelayTasks.VideoRelay.UplinkTurn` | main/gateway_uplink.cpp:245-285 | the next item is sent or dropped, and freed either way |
| `RelayTasks.DeliveredInSteps` | main/video_relay.cpp:272-277 | a delivery is a sequence of steps of the ownership model, between which other tasks may run |
| `EndToEnd.StatusReachesBackend` | main/gateway_uplink.cpp:426-441 | from a relay to the backend: readings in the order they were made, none twice, whatever is lost on the way |
| `EndToEnd.StatusConservation` | main/chain_node.cpp:183-189 | the Gateway's counters of both modules agree, modulo 2^32: local + in = sunk = sent + dropped + queued + in hand |
| `EndToEnd.VideoReachesBackend` | main/gateway_uplink.cpp:490-503 | from a node's LuckFox to the backend, on the same runs: byte-identical frames in order, none twice |
| `EndToEnd.VideoReachesBackendInFull` | main/video_relay.cpp:135-144 | and every frame the node produced, if no step of the chain loses one of them, the uplink always has room, a link and success, and nothing is left on the way |
| `Watchdog.EthernetWatchdog.LogStats` | main/gateway_uplink.cpp:450-487 | one observation: fields and restart decision |
| `Watchdog.RunRemembers` | main/gateway_uplink.cpp:51-56 | after any run the fields are the length of the stuck run since the last restart (modulo 2^32), the last totals seen with the link up, and the clock of the last restart |
| `Watchdog.RestartsExactly` | main/gateway_uplink.cpp:464-478 | a restart happens if and only if this observation is stuck, enough were before it, and the last restart is five minutes ago or dated zero |
| `Watchdog.SixInARow` | main/gateway_uplink.cpp:464-478 | a restart is preceded by six consecutive link-up observations in which the queued total moved and the sent total did not, all since the previous restart |
| `Watchdog.FiveMinutesApart` | main/gateway_uplink.cpp:476-478 | however long the run, two restarts are five minutes apart in true time unless the clock dated the earlier one zero |
| `Watchdog.ZeroIsForgotten` | main/gateway_uplink.cpp:476-480 | after a restart dated zero the next follows six stuck observations later, at any time |
| `Watchdog.RestartedTooSoon` | main/gateway_uplink.cpp:464-480 | there is such a run, observed every 10 s in true time: two restarts a minute apart, the first at true time 2^32 ms |

## Left out

- VideoStream.ServeIsDecode: false when a receive brings a byte after one that failed inside a drain; `Alignment.AlignedExactly` has the exact condition for every stream.
- DrainCut.FramingLostExactly: says when wrong frames can be handed on if only one frame has no buffer; with several, `AlignedExactly` says when payloads are read as headers.
- VideoRuns.VideoDelivered: assumes that no frame read from a connection that has lost its framing is handed on; `ReadingOnMisdelivers` is a run without that, and `EveryFrameIsAccounted` needs no such condition.
- VideoLosses.LossesExactly: on the same runs; `DropsExactly` and `RelayCounters.CountersExactly` hold on all.
- NodeLife.HellosExactly: for gaps below 2^32 ms, as is `NodeLife.ReadingsExactly`; `Timers.IntervalTest` says what a poll after a longer one finds.
- Timers.RetransmissionsAreSpaced: two transmissions can be closer when a poll lies in a later epoch than its deadline, as its condition says.
- ChainProgress.NoDeadlock: counts rounds, not time; a round takes as long as its slowest relay needs to poll an expired deadline (`Timers.ExpiresExactly`).
- SpiResync.SelfStabilises: payload chunks must not read as headers; `LocksOn` says what a receiver in header-wait does with one that does.
- Byte layout of HELLO, status and ACK frames and their dispatch by type and length (`main/chain_node.cpp:219-246`): a status packet is a record, a plate a string of at most eleven characters.
- The text line per reading sent to the backend and the outcome of connecting (`main/gateway_uplink.cpp:159-197`): one success or failure per reading.
- A frame's way through a relay in one step: `VideoNet` lets the client write an item and the server read one at once; `VideoStream` and `VideoConnection` have the loops byte by byte.
- The frames in `VideoNet` are values; who holds their buffers is the subject of `BufferOwnership`, whose tasks carry no contents.
- A short SPI transaction: every successful one fills the scratch buffer.
- Log output, the diagnostic counters and pauses of the header-wait loop, `logStats` apart from the watchdog.
- Connection set-up with timeouts, Wi-Fi, Ethernet and SPI driver bring-up, event handlers: foreign code.
- NVS and the console: only the resulting bound on node id and chain size is used.
- Reboots, torn reads of the lane cache and half-written counters: declared harmless in the source.
- Self-test payloads (`main/video_relay.cpp:108-119`): the check samples four bytes per frame.
- The LuckFox sender and the backend listeners are not part of this model beyond the specification sender and reassembler that the round trips need.
