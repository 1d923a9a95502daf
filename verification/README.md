# A verified model of the BLE packet repeater

The repeater floods packets through a mesh of Bluetooth connections. A node parses what is written to it, stores a
message or an announce it has not seen, notes in a ledger which connection it came from, and sends it to the others.
The TTL of a packet is tested for being positive and never lowered, so whether a flood ends rests on the stores and
the ledger alone. This project models a node's tracker, a network of such nodes, the packet codec both rest on, the
ring buffer that carries the node's log, the queues in front of the Bluetooth stack, and the node's clock. It proves
what each keeps over whole runs, and states exactly when the code falls short of what one would expect of it.

## How it is laid out

| file | contents |
|---|---|
| `Binary.dfy` | big-endian integers, the cursor reader, the appending writer |
| `Packets.dfy`, `Layout.dfy` | headers, messages, announces and pass-along packets: parsing, printing, round trips, de-duplication keys; and where each field lies in the bytes |
| `Ring.dfy`, `Lines.dfy`, `CircularBuffer.dfy` | the ring buffer class, the queue it stands for, and what one line drain does |
| `RingRuns.dfy`, `LogDrain.dfy` | runs of ring buffer operations; logging and printing by turns |
| `Multimap.dfy` | ordered multimaps and `erase_if` |
| `Clock.dfy` | the 64-bit clock offset |
| `RawQueue.dfy` | the queues of printed packets |
| `Relay.dfy` | one node's steps as functions of its state |
| `RelayInvariants.dfy`, `RelayRuns.dfy`, `RelayCleanup.dfy`, `RelayAnnounces.dfy`, `RelayPrints.dfy` | what a send does, what every step and every run keeps, what a cleanup leaves, how announces travel and what they make of peers, what can be printed |
| `Tracker.dfy`, `ProtocolProcessor.dfy` | the classes, with their loops, proved to do what `Relay.dfy` says |
| `Flood.dfy`, `Network.dfy`, `AnnounceOrigins.dfy`, `Coverage.dfy` | the work left for one message or announce; networks of nodes, integrity of messages and of announces, the end of the flood, and where it has got to |

Objects that the source updates in place are classes here, and each of their methods is proved against a function of
the old state; what the functions guarantee is proved in lemmas about them. Connections are named by their handles,
which is how the source compares them. A packet's address is a number, since the ordered containers sort by it; where
a new object lies is an argument of the step that makes it. `std::hash` is an arbitrary function to the 32 bits that
`size_t` has on the Pico.

## Where the code departs from what one would expect

Each departure is modelled as the code has it, and the condition under which the expected property holds is proved.

- Writing a single item to a ring that is full from slot 0 empties it, because `tail - 1` is then -1
  (CircularBuffer/CircularBuffer.h:41-45): `CircularBuffers.CircularBuffer.WriteItem` is an append if and only if that
  is not the state.
- Writing an empty string stores a NUL in slot 1 (CircularBuffer/CircularBuffer.h:52-61): `WriteString` is an append if
  and only if that does not overwrite a held item.
- Draining a line from a wrapped ring can repeat items or hand out stale ones: `ConsumeLine` keeps the contents if and
  only if not `Lines.Misdrains`; `Lines.StaleNewlineHandedOut` and `Lines.CutSegmentRepeats` are concrete states.
- The slot behind the last is left as the allocator gave it (CircularBuffer/CircularBuffer.h:30), and the search for a
  newline can run into it: `Lines.OverrunsIff` says exactly when it leaves the slots, and drains are stated for the
  other states only. A newline found there ends the line as one in the ring would. `RingRuns.UnsealedWrap` is a run
  from a new ring to a state in which that slot, never written, decides; `CircularBuffers.CircularBuffer.WriteItem` and
  `WriteString` say exactly which writes put the end item there. A ring in one piece never needs it, so that the log
  as constructed is covered by `LogDrain.LogRun`.
- Printing the log can therefore go wrong, and from some states never ends: `LogDrain.PrintsWholeIff` says exactly when
  every drain of the loop stays in the slots and is right. `LogDrain.PrintedWithoutEnd` are states the loop comes back
  to, and `LogDrain.EndlessLog` gets to one from a new log with two writes.
- A write that interrupts `clear_if_empty` between its test and its reset is lost
  (CircularBuffer/CircularBuffer.h:84-86); the flag protects writes before that. One between the two stores of line 85
  is lost too, unless it reaches past the last slot from the old head: then it moves the tail again, and the ring shows
  characters that were consumed or never written. `CircularBuffers.CircularBuffer.ClearIfEmptyInterrupted` says exactly
  when.
- A received message whose flag announces a sender peer is stored and listed, and printing it dereferences a null
  pointer (Packet/Message.cpp:135-136); any neighbour can send one (`RelayPrints.PeerMessageIsListed`). A node can print
  all it lists over a run if and only if no such message comes in or is made (`RelayPrints.StaysReadyIff`).
- A node stamps its announce in milliseconds (BLE/BleConnectionTracker.cpp:409) and whoever hears it divides the time by
  1000 (Packet/Base.cpp:45-47, Packet/ProtocolProcessor.cpp:54): `RelayAnnounces.OwnAnnounceSetsClock` says what becomes
  of the hearer's clock.
- Announced times leave the clock at the latest in whatever order they come if and only if none is more than the timeout
  behind it: `Clock.AlwaysLatestIff`.
- The scan before a broadcast runs to the end of the whole ledger (BLE/BleConnectionTracker.cpp:319-320), so a pair of
  another packet at a higher address can hold a packet back: `RelayInvariants.BroadcastReaches` says exactly when.
- A raw queue callback can hand a connection another one's packet (BLE/BleConnectionTracker.cpp:493, :519):
  `RawQueues.MisdirectedIff` says exactly when, and `RawQueues.OwnRequestMisdirects` that the code asks for such a
  callback itself. "Once per link" and "never back" in the network count the calls to send, whose bytes go to the raw
  queue under the right connection; a packet then goes out on that connection in runs without such callbacks
  (`RawQueues.AllDirectedIff`).
- A cleanup reads a packet's time in microseconds for the ledger and in milliseconds for the stores
  (BLE/BleConnectionTracker.cpp:430, :452): `RelayRuns.PairOutlivesPacket` says exactly when a pair outlives its packet.
  The list of peers is read in milliseconds and drops its pairs with their packets
  (`Trackers.BleConnectionTracker.CleanupStaleItems`).
- The key of a pass-along packet shifts the hash of its header (Packet/PacketPassAlong.cpp:51), which loses the top bit:
  two announces whose headers' hashes differ in that bit only count as one (`Packets.KeysEqualIff`).
- The comment at main.cpp:884 says that a node's own messages are always new. Their identifiers go through a writer
  whose parameter has 16 bits (Packet/BinaryWriter.cpp:14), so they repeat every 65536 ms:
  `Packets.OwnMessageIdsCollide`.
- A disconnection is meant to drop the announce's pairs, but compares with the address of a copy
  (BLE/BleConnectionTracker.cpp:165-171) and drops none: `RelayAnnounces.AnnouncedAfterReconnect`.
- The constant compared with the clock offset is called milliseconds and commented as microseconds
  (BLE/BleConnectionTracker.h:11); the model compares the number, as the code does.

## Model

| member | source | states |
|---|---|---|
| Network.TraceStaysHonest | Packet/ProtocolProcessor.cpp:39-73 | in every state of every trace of a network, with any loss, repetition and reordering, every stored message and every message on the wire is its origin's in every field, TTL included |
| Network.TraceGrows | BLE/BleConnectionTracker.cpp:57-73 | between any two states of a trace no stored entry changes or goes, and no pair leaves the ledger |
| Network.EveryCopyIsTheOrigins | BLE/BleConnectionTracker.cpp:57-64 | from the start, any message any node stores under an identifier is the one originated under it |
| Network.PrintsTrue | Packet/Message.cpp:114-141 | whatever a sound node prints fits a buffer and is received as exactly what its origin made |
| Network.WriteStoresTrue | Packet/ProtocolProcessor.cpp:61-67 | a node that is written true bytes stores true copies only |
| Network.StepStaysHonest | BLE/BleConnectionTracker.cpp:57-114 | every single step of the network keeps integrity and every node's invariants |
| Network.SendsEmit | BLE/BleConnectionTracker.cpp:326-331 | every newly sent pair of a message puts the origin's bytes on the wire for that connection |
| Network.ArrivalDelivers | Packet/ProtocolProcessor.cpp:61-67 | when an originated message arrives, the node there has the origin's copy afterwards |
| Network.OncePerLink | BLE/BleConnectionTracker.cpp:313-341 | in any reachable state no node has sent one message twice to one connection |
| Network.NeverBackToItsSource | BLE/BleConnectionTracker.cpp:109-114 | in every later state a message has not been sent to the connection it was first stored from |
| Network.TransmissionsWithinLinks | BLE/BleConnectionTracker.cpp:285-342 | all transmissions of one message, or of one announce by its key, are together at most the number of directed links |
| Network.StepUsesWork | BLE/BleConnectionTracker.cpp:313-341 | what a step stores and sends of a message or announce it takes out of the work left, one for one |
| Network.FloodEnds | BLE/BleConnectionTracker.cpp:96-114 | over any trace without new connections, the steps that store or send a message or announce are at most the work there was, although no TTL falls |
| Network.FloodFromStart | BLE/BleConnectionTracker.cpp:285-342 | from the start that bound is the number of nodes plus the number of directed links |
| AnnounceOrigins.StoredAnnounceWasMade | Packet/ProtocolProcessor.cpp:50-59 | in every state of every trace from the start, every announce a node stores has, but for its name, exactly the header some node had given its own announce by then, and no payload |
| AnnounceOrigins.AnnounceOnWireWasMade | Packet/PacketPassAlong.cpp:54-63 | the same for everything on the wire that is received as an announce |
| AnnounceOrigins.PrintsKnown | BLE/BleConnectionTracker.cpp:235-237 | whatever a node prints is received as a message, as an announce it has stored, or as its own |
| AnnounceOrigins.StepKeepsKnown | BLE/BleConnectionTracker.cpp:66-73 | no single step of the network makes an announce up |
| AnnounceOrigins.AnnounceEmits | BLE/BleConnectionTracker.cpp:301-331 | every newly sent pair of an announce, a node's own or a stored one, puts bytes on the wire for that connection that are received as it: its header, and its name if it is the node's own |
| AnnounceOrigins.AnnounceDelivers | Packet/ProtocolProcessor.cpp:50-59 | when an announce arrives, the node there has its key afterwards, and its sender as a peer under the announce's name |
| AnnounceOrigins.SentAnnounceIsKnown | BLE/BleConnectionTracker.cpp:66-73 | an announce that was sent and has been delivered is known to the node it was sent to in every later state of the trace |
| Coverage.SettledIsEverywhere | BLE/BleConnectionTracker.cpp:285-342 | once every holder of a message has a pair for each available connection and all that was sent of it has been delivered, every node connected to a holder has it |
| Coverage.TraceStaysExplained | BLE/BleConnectionTracker.cpp:109-114 | in every state of a trace, a pair that was sent is on the wire, and one that was noted without a send leads to a holder |
| Coverage.OneHop | BLE/BleConnectionTracker.cpp:326-331 | in a settled state, the far end of any available connection of a holder is a holder |
| Coverage.SendReaches | BLE/BleConnectionTracker.cpp:313-341 | when a node sends while nothing at a higher address bars a listed message, and none of its connections becomes available afterwards, it has in every later state a pair of the message for each available connection |
| Flood.StepPays | BLE/BleConnectionTracker.cpp:285-342 | for one node and one message or announce, no step but a cleanup or a new connection raises work plus transmissions plus copies |
| Flood.SendPays | BLE/BleConnectionTracker.cpp:313-331 | every pair a call to send sends takes one connection out of the work left |
| Flood.TransmissionsBounded | BLE/BleConnectionTracker.cpp:301-333 | a node sends a message or announce at most once for each connection it has |
| Flood.TimesIsHandles | BLE/BleConnectionTracker.cpp:317-333 | without repeats, the sends of a packet number the connections it was sent to |
| RelayRuns.WriteEffect | Packet/ProtocolProcessor.cpp:39-73 | received bytes are ignored, or known and change no store or list, or are stored once, listed if the TTL is positive, with a ledger entry for the connection |
| RelayRuns.AnnounceEffect | BLE/BleConnectionTracker.cpp:386-412 | announcing queues the announce for exactly the available connections without a ledger entry, and changes nothing else |
| RelayRuns.ApplyKeeps | BLE/BleConnectionTracker.cpp:57-114 | every step keeps the stores keyed rightly and every reference good; every step but a cleanup keeps the trace of sends free of repeats |
| RelayRuns.CleanupKeeps | BLE/BleConnectionTracker.cpp:425-457 | a cleanup keeps broadcast entries referring to stored packets and all pairs to known connections |
| RelayCleanup.ConnectionsAfter | BLE/BleConnectionTracker.cpp:444-448 | exactly the connections that are connected, or whose time is at most ten minutes back, are left, as they were |
| RelayCleanup.ConnectionStays | BLE/BleConnectionTracker.cpp:444-449 | the same for connections and for neighbours |
| RelayCleanup.PairsAfter | BLE/BleConnectionTracker.cpp:428-443 | exactly the ledger and targeted pairs are left, in order, whose connection is kept and whose packet's time, taken for milliseconds and wrapping, is at most ten minutes back, whatever a dangling reference reads |
| RelayCleanup.StoredPairStays | BLE/BleConnectionTracker.cpp:428-443 | so a pair of a stored packet and a known connection is left exactly if that time is recent and the connection is left |
| RelayCleanup.BroadcastAfter | BLE/BleConnectionTracker.cpp:439-442 | exactly the listed packets whose time in milliseconds is at most ten minutes back are left, in order |
| RelayCleanup.PeersAfter | BLE/BleConnectionTracker.cpp:434-438 | the same for the list of peers |
| RelayCleanup.StoresAfter | BLE/BleConnectionTracker.cpp:450-457 | the same for both stores, and nothing else is left of their objects |
| RelayRuns.RunKeepsReferences | BLE/BleConnectionTracker.cpp:425-457 | so does every run, cleanups included |
| RelayRuns.RunSendsEachPairOnce | BLE/BleConnectionTracker.cpp:285-342 | over every run without cleanups no (packet, connection) pair is sent twice across both lists, and a pair noted without being sent is never sent |
| RelayRuns.NeverSentBack | BLE/BleConnectionTracker.cpp:109-114 | a packet that arrives as new is never sent to the connection it came from, and stays as stored |
| RelayRuns.ApplyGrows | BLE/BleConnectionTracker.cpp:57-73 | no step but a cleanup changes or drops a stored entry or a ledger pair, and sends only pairs not in the ledger |
| RelayRuns.PairOutlivesPacket | BLE/BleConnectionTracker.cpp:428-456 | a ledger pair outlives its packet exactly when the cleanup falls between the two readings of its time and the connection stays |
| RelayRuns.LeftoverPairSuppresses | BLE/BleConnectionTracker.cpp:319-329 | a new packet at that address is, over the whole run until the next cleanup, never sent to the pair's connection |
| RelayRuns.FloodedAgain | BLE/BleConnectionTracker.cpp:450-453 | a message a node had already is, when it comes in after a cleanup, stored and listed again exactly if the cleanup found it stale |
| RelayInvariants.SendAddsNewPairs | BLE/BleConnectionTracker.cpp:285-342 | a call to send adds only pairs not in the ledger, none twice, each targeted before or a listed packet for an available connection; every pending targeted pair is in the ledger afterwards |
| RelayInvariants.TargetedExactly | BLE/BleConnectionTracker.cpp:301-311 | of the targeted pairs exactly those not in the ledger are sent, and a packet's pairs stay listed exactly if all of them were in the ledger |
| RelayInvariants.SendLeavesOnlyUnsent | BLE/BleConnectionTracker.cpp:334-341 | a packet leaves the broadcast list exactly when the call sent it to someone, and the rest keep their order |
| RelayInvariants.BroadcastReaches | BLE/BleConnectionTracker.cpp:313-333 | exactly which available connections a listed packet reaches, given the ledger |
| RelayInvariants.SendReachesAll | BLE/BleConnectionTracker.cpp:313-341 | when no pair of a packet at a higher address names an available connection, a listed packet reaches all of them |
| RelayInvariants.ClearTurnReachesAll | BLE/BleConnectionTracker.cpp:285-342 | that is so when before the call nothing listed earlier lies at a higher address and no pair of a packet there, sent or targeted, names an available connection |
| RelayInvariants.SuppressedIff | BLE/BleConnectionTracker.cpp:319-325 | the scan bars a connection exactly for the packet's own pair, or, if the packet has any pair, for one of a packet at a higher address |
| RelayInvariants.TidyAfterSend | BLE/BleConnectionTracker.cpp:301-311 | after a call to send nothing is targeted and the trace still has no repeats |
| RelayAnnounces.AnnouncedExactlyOnce | BLE/BleConnectionTracker.cpp:386-412 | however often a node announced itself, one call to send gives each connection that was due the announce exactly one, and announcing again adds nothing |
| RelayAnnounces.KnownAnnounceStops | Packet/ProtocolProcessor.cpp:51-59 | an announce that differs from a stored one at most in TTL and name is not stored or listed again, and its name becomes the peer's |
| RelayAnnounces.RelayedAnnounceStops | BLE/BleConnectionTracker.cpp:66-73 | a relayed announce is 20 or 28 bytes, stops where the announce is still stored, and takes the peer's name away |
| RelayAnnounces.NewAnnounceIsKept | BLE/BleConnectionTracker.cpp:66-73 | an announce is stored and listed exactly when its header differs, TTL aside, from that of every stored one, for every hash that tells it from them |
| RelayAnnounces.AnnounceContents | BLE/BleConnectionTracker.cpp:365-412 | what an announcing makes of the announce: TTL three, no flags, sender and name unless the TTL was three already; the present time if a connection is due it; the rest as it was |
| RelayAnnounces.AnnounceNamesPeer | Packet/ProtocolProcessor.cpp:29-37 | an announce gives its sender its name, and, if its TTL is no lower than any before, the connection; no other peer changes |
| RelayAnnounces.MessageMakesPeer | Packet/ProtocolProcessor.cpp:61-67 | a new message makes its sender a peer without a name if it is none, and changes no other |
| RelayAnnounces.DisconnectEffect | BLE/BleConnectionTracker.cpp:157-174 | a disconnected connection is known, not available and no peer's; all else stays |
| RelayAnnounces.AnnouncedAfterReconnect | BLE/BleConnectionTracker.cpp:157-174 | a connection that went away and came back under its handle is due the announce exactly if it is available, the clock is set and the ledger does not have the pair |
| RelayAnnounces.AnnounceSetsClock | Packet/ProtocolProcessor.cpp:51-54 | a heard announce sets the clock to a thousandth of its time, or leaves it, exactly as the clock's rule says |
| RelayAnnounces.OwnAnnounceSetsClock | BLE/BleConnectionTracker.cpp:408-410 | a node's own announce carries its clock in milliseconds, so the hearer goes by a thousandth of it |
| RelayPrints.ReceivedPrintable | Packet/Message.cpp:18-20 | a received message can be printed exactly if its flag announces no peer |
| RelayPrints.PrintArrives | BLE/BleConnectionTracker.cpp:235-237 | what is printed of any packet is received as it: a message in its normal form, a stored announce with its header and no name, a node's own announce with its header and name |
| RelayPrints.PeerMessageIsListed | Packet/Message.cpp:135-140 | a message printed with flag and peer is stored and listed by a node that lacks it, which cannot print it |
| RelayPrints.StepReady | Packet/ProtocolProcessor.cpp:61-67 | a step keeps everything listed printable exactly if it brings or makes no new message with the flag and no peer |
| RelayPrints.StaysReadyIff | Packet/Message.cpp:135-140 | the same over every run, cleanups included |
| RelayPrints.ReadyPrints | BLE/BleConnectionTracker.cpp:235-237 | a node with everything listed printable can print all that its next call to send sends |
| Trackers.BleConnectionTracker.ReadyCanSend | BLE/BleConnectionTracker.cpp:285-342 | a tracker in such a state may call send |
| Relay.AvailableHandles | BLE/BleConnectionTracker.cpp:289-292 | exactly the connected handles with a value handle, in ascending order |
| Trackers.BleConnectionTracker.constructor | BLE/BleConnectionTracker.h:90-115 | a tracker starts with only its announce |
| Trackers.BleConnectionTracker.ConnectionForConnHandle | BLE/BleConnectionTracker.cpp:49-55 | an unknown handle gets a new connection, nothing else changes |
| Trackers.BleConnectionTracker.StoreMessageAndReturnIfNew | BLE/BleConnectionTracker.cpp:57-64 | stores and returns the message only if its identifier is new |
| Trackers.BleConnectionTracker.StorePacketAndReturnIfNew | BLE/BleConnectionTracker.cpp:66-73 | the same for pass-along packets by hash |
| Trackers.BleConnectionTracker.CheckSenderInPeers | BLE/BleConnectionTracker.cpp:89-94 | the sender is a peer afterwards; a known one is unchanged |
| Trackers.BleConnectionTracker.EnqueueTargetedPacket | BLE/BleConnectionTracker.cpp:96-101 | the targeted list and connections become what the node's step says |
| Trackers.BleConnectionTracker.EnqueueBroadcastPacket | BLE/BleConnectionTracker.cpp:103-107 | a packet with a positive TTL is listed last |
| Trackers.BleConnectionTracker.EnqueueBroadcastPacketFrom | BLE/BleConnectionTracker.cpp:109-114 | and the connection and the peer it came from are noted |
| Trackers.BleConnectionTracker.PossiblyUpdateTimeOffset | BLE/BleConnectionTracker.cpp:347-354 | the new offset is the one the clock lemmas are about |
| Trackers.BleConnectionTracker.SendPacketToConnection | BLE/BleConnectionTracker.cpp:235-279 | bytes that are received as the packet go to the raw queue for the connection |
| Trackers.BleConnectionTracker.PacketNeeded | BLE/BleConnectionTracker.cpp:294-300 | the search of the packet's own entries finds out exactly whether the pair is in the ledger |
| Trackers.BleConnectionTracker.Sendable | BLE/BleConnectionTracker.cpp:318-325 | the scan to the end of the ledger finds out exactly whether the connection is barred |
| Trackers.BleConnectionTracker.SendTargeted | BLE/BleConnectionTracker.cpp:301-307 | the loop does the targeted half of a send, collects exactly the packets it sent, and queues their printed bytes |
| Trackers.BleConnectionTracker.EraseTargeted | BLE/BleConnectionTracker.cpp:308-311 | erasing range by range leaves exactly the pairs of other packets, in order |
| Trackers.BleConnectionTracker.SendToAvailable | BLE/BleConnectionTracker.cpp:317-333 | one listed packet goes to every available connection that is not barred |
| Trackers.BleConnectionTracker.SendBroadcast | BLE/BleConnectionTracker.cpp:313-338 | the loop does the broadcast half of a send and collects exactly the packets it sent |
| Trackers.BleConnectionTracker.SendPackets | BLE/BleConnectionTracker.cpp:285-342 | when all it will send can be printed, the whole call is the node's send, and queues, for exactly the pairs sent and in their order, bytes that are received as their packets |
| Trackers.BleConnectionTracker.SetupAnnounceIfNeeded | BLE/BleConnectionTracker.cpp:365-384 | an announce not set up yet gets its TTL of three, its sender and its name, and no flags; one that is set up stays |
| Trackers.BleConnectionTracker.AnnounceToConnections | BLE/BleConnectionTracker.cpp:386-412 | the loop is the node's announcing step |
| Trackers.BleConnectionTracker.ReportConnection | BLE/BleConnectionTracker.cpp:125-139 | the connection is connected now, from what was known of the neighbour at that address, which is no longer listed as one |
| Trackers.BleConnectionTracker.ReportDisconnection | BLE/BleConnectionTracker.cpp:157-174 | the connection and its peer go, and the ledger keeps every pair |
| Trackers.BleConnectionTracker.CleanupStaleItems | BLE/BleConnectionTracker.cpp:425-464 | the erasing loops are the node's cleanup, leave exactly the connections and neighbours that are connected or at most ten minutes old, drop stale pairs of peers, and leave every broadcast entry and every pair of a peer referring to a stored packet and every other pair to a known connection |
| Trackers.EraseIfNot | BLE/BleConnectionTracker.cpp:433-443 | erasing in place leaves exactly what is to stay, in order |
| Trackers.FindSharedPeer | BLE/BleConnectionTracker.cpp:543-558 | finds nothing exactly when no two non-zero handles share a peer, and otherwise the first pair that does |
| Trackers.BleConnectionTracker.GetAnyDuplicateHandle | BLE/BleConnectionTracker.cpp:543-558 | 0 exactly when no two non-zero handles share a peer, otherwise of the first such pair the one whose connection has the earlier time, the second on a tie |
| Trackers.SuppressedFrom | BLE/BleConnectionTracker.cpp:319-325 | the positions the scan visits are those the suppression rule is about |
| ProtocolProcessors.ProtocolProcessor.UpdateOrStorePeerNameFromAnnouncement | Packet/ProtocolProcessor.cpp:29-37 | the peer gets the name, and the connection if the TTL is no lower than any before |
| ProtocolProcessors.ProtocolProcessor.ProcessWrite | Packet/ProtocolProcessor.cpp:39-73 | reading through the cursor and updating the tracker is the node's receive step, for every buffer and offset; whatever is stored is noted with its sender |
| ProtocolProcessors.ProtocolProcessor.Originate | main.cpp:883-887 | a node's own message is listed if new, without a ledger entry |
| Packets.MessageRoundTrip | Packet/Message.cpp:114-141 | a printed message anywhere in a buffer is received with its strings cut, its recipient only under its flag, and all else as it was |
| Packets.AnnounceRoundTrip | Packet/Announce.cpp:11-42 | the same for a node's own announce and its name |
| Packets.RelayedAnnounceRoundTrip | Packet/PacketPassAlong.cpp:58-63 | an announce printed from the store is 20 bytes, or 28 with a recipient, and is received without a name |
| Packets.HeaderRoundTrip | Packet/PacketBase.cpp:27-56 | the header fields are read back, the recipient only under its flag |
| Packets.PrefixRoundTrip | Packet/Base.cpp:69-81 | the version and type in front of the header are read back |
| Packets.Receive | Packet/ProtocolProcessor.cpp:39-73 | receiving is total; what it yields has the type byte that chose it |
| Packets.ParseMessage | Packet/Message.cpp:18-48 | parsing is total, leaves the cursor within the buffer, and yields only messages that printing would not cut |
| Packets.ReprintFits | Packet/Message.cpp:18-48 | printing a parsed message fits a buffer, however it was truncated |
| Packets.ParsePrintParse | Packet/Message.cpp:18-48 | parsing, printing and parsing again gives the same message, for malformed input too |
| Packets.KeysEqualIff | Packet/PacketPassAlong.cpp:38-52 | two keys are equal exactly when the payloads' hashes differ as the shifted hashes of the headers do: of equal payloads, when the headers' hashes agree but for the top bit; of equal headers, when the payloads' hashes are equal |
| Packets.MetaIgnoresOnlyTtl | Packet/PacketPassAlong.cpp:40-49 | two headers give the same key material exactly when they differ at most in TTL |
| Packets.RelayKeepsKey | Packet/PacketPassAlong.cpp:38-52 | an announce keeps its key through store, print and parse |
| Packets.OwnMessageIdsCollide | main.cpp:866-872 | two own identifiers are equal exactly when sender and time modulo 65536 ms are |
| Layout.PrintedHeader | Packet/Base.cpp:69-81 | version 1, type, TTL, time, flags, sender and, under its flag, recipient, each at its place in the printed bytes, and then the body |
| Layout.PrintedMessage | Packet/Message.cpp:114-141 | the places of a message's flags, time and three strings with their lengths, and of the 16 and the peer under the peer flag |
| Layout.PrintedAnnounce | Packet/Announce.cpp:33-42 | the place of the name with its length |
| Layout.PrintedPassAlong | Packet/PacketPassAlong.cpp:54-63 | the place of the payload |
| Layout.ReceivedByType | Packet/ProtocolProcessor.cpp:39-73 | bytes are received as an announce or a message exactly if they begin with 1 or 2 and the type |
| Layout.ParsedHeader | Packet/Base.cpp:23-31 | what is read of a header from any number of bytes: each field from its place, 0 where it is not all there, with the next looked for at the same place |
| Layout.ParsedShort | Packet/Announce.cpp:14-22 | a string is read from behind its length, and is empty when not all of it is there |
| Layout.ParsedLong | Packet/Message.cpp:42-48 | the same behind a length of two bytes |
| Layout.ParsedPayload | Packet/PacketPassAlong.cpp:17-28 | a payload is all that is left |
| Layout.MessageIsRead | Packet/Message.cpp:18-48 | a message whose fields lie at their places, behind version 1 or 2, is received in every field |
| Layout.AnnounceIsRead | Packet/Announce.cpp:11-23 | the same for an announce |
| Layout.MetaLies | Packet/PacketPassAlong.cpp:40-49 | the places of type, flags, time, sender and recipient in what the key is hashed from |
| Layout.OwnMessageIdLies | main.cpp:866-872 | two zeros, two bytes of the time, a dash, the sender |
| Packets.ReadMessage | Packet/Message.cpp:18-48 | reading through the cursor is the parsing function |
| Packets.ReadAnnounce | Packet/Announce.cpp:11-23 | the same for announces |
| Packets.ReadPassAlong | Packet/PacketPassAlong.cpp:17-28 | the same for pass-along packets, with or without payload |
| Packets.ReadHeader | Packet/PacketBase.cpp:27-33 | the same for the header |
| Packets.WriteMessage | Packet/Message.cpp:110-141 | writing appends exactly the printed message |
| Packets.WritePassAlong | Packet/PacketPassAlong.cpp:54-63 | the same for pass-along packets |
| Packets.WriteAnnounce | Packet/Announce.cpp:33-42 | the same for announces |
| Packets.GetPacketHash | Packet/PacketPassAlong.cpp:38-52 | hashing through the local buffer gives the key |
| Packets.WriteOwnMessageId | main.cpp:866-872 | the writer appends the identifier |
| Binary.ValueOfBigEndian | Packet/BinaryWriter.cpp:5-32 | reading the big-endian bytes of a number that fits gives the number |
| Binary.BigEndianOfValue | Packet/BinaryReader.cpp:5-49 | and writing the number that bytes denote gives the bytes |
| Binary.Uint32RoundTrip | Packet/BinaryWriter.cpp:14-20 | a 32-bit write reads back as the argument exactly when it has 16 bits |
| Binary.BinaryReader.ReadUint64 | Packet/BinaryReader.cpp:35-49 | the shifts compute the big-endian value; past the end it is 0 and the cursor stays |
| Binary.BinaryReader.ReadUint16 | Packet/BinaryReader.cpp:14-21 | the same for two bytes |
| Binary.BinaryReader.ReadUint32 | Packet/BinaryReader.cpp:23-33 | the same for four bytes |
| Binary.BinaryReader.ReadBlock | Packet/BinaryReader.cpp:55-62 | the bytes, or nothing and the cursor stays |
| Binary.BinaryWriter.WriteUint64 | Packet/BinaryWriter.cpp:22-32 | appends the eight big-endian bytes |
| Binary.BinaryWriter.WriteUint32 | Packet/BinaryWriter.cpp:14-20 | appends the bytes of the argument's lower 16 bits |
| Binary.BinaryWriter.WriteData | Packet/BinaryWriter.cpp:34-46 | appends exactly the first `len` bytes |
| CircularBuffers.CircularBuffer.constructor | CircularBuffer/CircularBuffer.h:30-32 | an empty buffer of the given size |
| CircularBuffers.CircularBuffer.FullIff | CircularBuffer/CircularBuffer.h:90-96 | full is reported exactly when one less than the size is held and the oldest is not in slot 0; empty exactly when nothing is held |
| CircularBuffers.CircularBuffer.WriteItem | CircularBuffer/CircularBuffer.h:34-46 | an append that drops the oldest, exactly outside the state that empties the buffer; the slot behind the last gets the end item exactly from the last slot |
| CircularBuffers.CircularBuffer.WriteString | CircularBuffer/CircularBuffer.h:48-68 | an append that keeps the last items, exactly unless an empty string overwrites a held item; the slot behind the last gets the end item exactly when the string ends in the last slot |
| CircularBuffers.CircularBuffer.Clear | CircularBuffer/CircularBuffer.h:70-77 | empties the buffer and starts it at slot 0 |
| CircularBuffers.CircularBuffer.ClearIfEmpty | CircularBuffer/CircularBuffer.h:79-88 | uninterrupted, moves only an empty buffer to slot 0 |
| CircularBuffers.CircularBuffer.ClearIfEmptyInterrupted | CircularBuffer/CircularBuffer.h:79-88 | with string writes before the test, between its halves, before, between and behind the stores of head and tail: exactly when they are kept or lost, and when old characters come back instead; which ones, when a single write does it |
| CircularBuffers.CircularBuffer.Consume | CircularBuffer/CircularBuffer.h:98-110 | takes the oldest item, if any |
| CircularBuffers.CircularBuffer.ConsumeBlockInPlace | CircularBuffer/CircularBuffer.h:112-124 | hands out and removes exactly the first segment |
| CircularBuffers.CircularBuffer.ConsumeBlock | CircularBuffer/CircularBuffer.h:126-142 | copies out and removes a prefix of the first segment |
| CircularBuffers.CircularBuffer.ConsumeLine | CircularBuffer/CircularBuffer.h:180-238 | of a drain whose search stays in the slots: what is returned followed by what remains is the old contents, exactly outside the misdraining states; how long the line is |
| CircularBuffers.CircularBuffer.ConsumeLineInterrupted | CircularBuffer/CircularBuffer.h:180-238 | with string writes nested between any two of its steps, an unwrapped drain loses, repeats and reorders nothing |
| Lines.OverrunsIff | CircularBuffer/CircularBuffer.h:184-193 | a drain's search leaves the slots if and only if the slot behind the last holds neither end item nor newline, and the ring is wrapped with no newline in its first segment, or empty at slot 0 with neither in any slot |
| Lines.DrainMeaning | CircularBuffer/CircularBuffer.h:180-238 | a drain whose search stays in the slots is right if and only if the state does not misdrain, a newline in the slot behind the last included |
| Lines.NewlineOnlyLast | CircularBuffer/CircularBuffer.h:187-222 | a newline comes last in a drained line or not at all |
| Lines.StaleNewlineHandedOut | CircularBuffer/CircularBuffer.h:194-203 | a state in which stale characters are handed out |
| Lines.CutSegmentRepeats | CircularBuffer/CircularBuffer.h:212-228 | a state in which a drain leaves the wrong tail |
| Ring.StringWritten | CircularBuffer/CircularBuffer.h:48-68 | the slots and the tail after a string write show the last items of contents and string |
| RingRuns.Perform | CircularBuffer/CircularBuffer.h:34-142 | one operation does to the buffer what it does to the queue, the slot behind the last and what stops a search included |
| RingRuns.Run | CircularBuffer/CircularBuffer.h:34-142 | every run of the buffer, from its construction on, has the outputs and contents of the queue's run, and reports full exactly as said |
| RingRuns.UnsealedWrap | CircularBuffer/CircularBuffer.h:30-68 | two writes and two reads of a new ring reach a state in which the slot behind the last, as the allocator left it, decides whether a drain's search leaves the slots |
| RingRuns.WritesKeepTheLast | CircularBuffer/CircularBuffer.h:34-68 | writes alone keep exactly the last items of contents and everything written |
| RingRuns.NothingRepeatedOrReordered | CircularBuffer/CircularBuffer.h:34-142 | over every run, overflows and clears included, the outputs are disjoint blocks of the stream in order and the contents are its end |
| RingRuns.NothingLost | CircularBuffer/CircularBuffer.h:34-142 | over every run without clears in which all writes fit, outputs followed by contents are everything held and written |
| LogDrain.PrintAvailableLogging | CircularBuffer/Debugging.cpp:7-24 | of a log that is printed right, the loop ends, empties the log, and prints exactly the log's pieces, without the first one if the log was full |
| LogDrain.PiecesAreLines | CircularBuffer/Debugging.cpp:15-22 | the pieces of a log that is not wrapped join to its contents, and all but the last are whole lines or as much of one as there is room for |
| LogDrain.PrintsWholeIff | CircularBuffer/Debugging.cpp:15-22 | every drain of the loop stays in the slots and is right, to the end, if and only if the log is not wrapped with a piece without a newline at the end of its first segment that meets a slot behind the last with no end item or newline, or is too long before a short second segment, or short before none with a stale newline |
| LogDrain.PrintedWithoutEnd | CircularBuffer/Debugging.cpp:15-22 | a family of states from which the loop hands out the same characters for ever |
| LogDrain.EndlessLog | CircularBuffer/CircularBuffer.h:48-68 | two writes lead from a new log to such a state |
| LogDrain.LogRun | CircularBuffer/Debugging.cpp:7-24 | from the log as constructed or cleared, logging and printing by turns, never more between two printouts than fits: everything logged is printed once and in order |
| LogDrain.WholeLinesShownAsLogged | CircularBuffer/Debugging.cpp:16-21 | pieces that end in a newline are shown as they were logged |
| RawQueues.ServedIsOldest | BLE/BleConnectionTracker.cpp:491-504 | what is served is the oldest packet of the smallest waiting handle not below the one asked for |
| RawQueues.MisdirectedIff | BLE/BleConnectionTracker.cpp:492-499 | a callback hands out another handle's packet exactly when its own handle has none and a larger one has |
| RawQueues.RunConserves | BLE/BleConnectionTracker.cpp:491-541 | over every run what was put in is what was removed and what waits, and each handle's packets leave in order |
| RawQueues.AllDirectedIff | BLE/BleConnectionTracker.cpp:491-541 | over every run, every packet went to its own handle exactly if no callback of the run took another handle's packet |
| RawQueues.EachHandleGetsItsOwn | BLE/BleConnectionTracker.cpp:491-541 | in such runs each handle is handed a prefix of exactly its own packets |
| RawQueues.AcceptedIsHanded | BLE/BleConnectionTracker.cpp:499-501 | over every run, what leaves the queue is exactly what was handed over with success or to a connection that is gone, in that order |
| RawQueues.RefusedIsHandedAgain | BLE/BleConnectionTracker.cpp:493-501 | what the stack refuses stays in its place and is handed over again |
| RawQueues.OwnRequestMisdirects | BLE/BleConnectionTracker.cpp:504-514 | the callback the code asks for after a handle's last packet takes a larger handle's, if one waits |
| RawQueues.RawQueue.EmplacePacket | BLE/BleConnectionTracker.cpp:259-271 | a packet goes behind those of its handle |
| RawQueues.RawQueue.CanSend | BLE/BleConnectionTracker.cpp:491-515 | the first packet for a handle not below is handed over, and removed unless the stack refuses it with another status; another call is asked for exactly if such a packet is left |
| Clock.UpdateSets | BLE/BleConnectionTracker.cpp:347-354 | an update sets the clock to the time heard or leaves it, and it is then at most five minutes ahead of it |
| Clock.OffsetIsExact | BLE/BleConnectionTracker.cpp:345-358 | through any life of the clock the possibly wrapped offset stands for the time exactly |
| Clock.BatchEndsAtLatest | BLE/BleConnectionTracker.cpp:345-358 | a batch of times close together leaves the clock at the latest |
| Clock.BatchOrderIrrelevant | BLE/BleConnectionTracker.cpp:345-358 | in whatever order they come |
| Clock.AlwaysLatestIff | BLE/BleConnectionTracker.cpp:345-358 | every order of a batch leaves the clock at the latest time if and only if none is further than the timeout behind it |
| Clock.FarTimesAreOrderDependent | BLE/BleConnectionTracker.cpp:350-352 | two times further apart leave it at whichever comes last |
| Multimap.InsertAppends | BLE/BleConnectionTracker.cpp:259-271 | an entry goes behind those of its key and no other key sees it |
| Multimap.EraseRange | BLE/BleConnectionTracker.cpp:308-311 | erasing a key's range leaves all other entries in order |

## Left out

- The event handlers of main.cpp, advertising, scanning, GPIO, sleep, LEDs and all Bluetooth stack and Pico SDK calls: the stack is a status given to a callback and the bytes handed to it.
- The connection copies passed at main.cpp:516 and the lifetime of pointers in general: connections are handles, and what a cleanup reads of a packet that is gone is an argument.
- The assertion that a packet fits the connection's MTU (BLE/BleConnectionTracker.cpp:239-242): packets here fit the 16-bit buffer size, and the bytes of a longer one are not modelled.
- The choice between the notify and the write queue by role: a tracker's outbox has what goes to either, and `RawQueues.RawQueue` models each on its own, with the status of the stack as an argument; the entry a callback makes for an unknown connection is not modelled.
- The scanning that lists neighbours, RSSI, roles, statistics, log texts, and the getters and setters: easy or foreign.
- The handle a connection object holds beside its map key: an entry made by the disconnection of an unknown handle (BLE/BleConnectionTracker.cpp:158) or by a raw queue callback holds 0 until the connection is reported; connections are compared by key.
- `std::hash`: an arbitrary function to 32 bits, of which no statement needs injectivity.
- Hexadecimal formatting and `writeF`: formatting only. The announce's name is an argument.
- Ring buffers of other item types than `char`: the code has only that one, and the line drain exists for it alone.
- Mutexes of builds other than the Pico's; the interrupts of the Pico are modelled in `ConsumeLineInterrupted`.
- Trackers.BleConnectionTracker.SendPacketToConnection: does not model the MTU assertion, the choice of the queue by role, the status of the request, on which only a log line depends, and the has-data flag.
- Trackers.BleConnectionTracker.ReportConnection: does not model the address and the role kept in the connection, nor the listening of a master.
- RawQueues.RawQueue.CanSend: does not model the entry a callback makes for an unknown connection, nor the has-data flag.
- Dereferencing the null peer: what the program does then is not modelled; `Trackers.BleConnectionTracker.SendPackets` requires that what it will send can be printed, and the network's origins set no such flag.
- Runs of a network with cleanups: after one, a packet can be stored and flooded again (`RelayRuns.FloodedAgain`), so the bounds are for runs without.
- Network.EveryCopyIsTheOrigins: for messages that printing does not cut, as the nodes' own are; of longer ones `Packets.MessageRoundTrip` says what arrives.
- TTL bounds, fragments, repeated announces after a disconnection and names of relayed announces, which the code does not implement.
