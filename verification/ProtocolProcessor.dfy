/** The receive step: bytes written to a node, through its reader and into its tracker. */
module ProtocolProcessors {
  import opened Binary
  import opened Multimap
  import opened Packets
  import opened Trackers
  import R = Relay

  /** A new object is noted with its sender. */
  function FromPeer(peersSent: seq<Entry<U64>>, heap: map<nat, R.Packet>, at: nat): seq<Entry<U64>> {
    if at in heap then Insert(peersSent, at, heap[at].Header().sender) else peersSent
  }

  class ProtocolProcessor {
    const tracker: BleConnectionTracker

    constructor (tracker: BleConnectionTracker)
      ensures this.tracker == tracker
    {
      this.tracker := tracker;
    }

    method UpdateOrStorePeerNameFromAnnouncement(a: Announce, handle: nat)
      requires tracker.Valid()
      modifies tracker`peers, tracker`handlePeers
      ensures tracker.Valid() && tracker.State() == R.NamePeer(old(tracker.State()), a, handle)
    {
      var sender := a.base.header.sender;
      tracker.CheckSenderInPeers(sender);
      var peer := tracker.peers[sender].(name := a.name);
      tracker.peers := tracker.peers[sender := peer];
      if a.base.header.ttl >= peer.maxTtl {
        tracker.peers := tracker.peers[sender := peer.(maxTtl := a.base.header.ttl)];
        tracker.SetConnectionHandleForPeer(handle, sender);
      }
    }

    method ReceiveAnnounce(hash: R.Hash, announce: Announce, handle: nat, at: nat, uptimeMs: nat)
      requires tracker.Valid() && at !in tracker.heap
      modifies tracker
      ensures tracker.Valid()
      ensures tracker.State() == R.ReceiveAnnounce(old(tracker.State()), hash, announce, handle, at, uptimeMs)
      ensures tracker.outbox == old(tracker.outbox) && tracker.neighbours == old(tracker.neighbours)
      ensures tracker.peersSent == FromPeer(old(tracker.peersSent), tracker.heap, at)
    {
      hide PacketKey, R.NamePeer, R.EnqueueBroadcastFrom;
      UpdateOrStorePeerNameFromAnnouncement(announce, handle);
      tracker.PossiblyUpdateTimeOffset(announce.base.header.TimestampMs(), uptimeMs);
      var stored := tracker.StorePacketAndReturnIfNew(hash, announce.base, at);
      if stored.Some? {
        tracker.CheckSenderInPeers(announce.base.header.sender);
        tracker.EnqueueBroadcastPacketFrom(stored.value, handle, announce.base.header.sender);
      }
    }

    method ReceiveMessage(message: Message, handle: nat, at: nat)
      requires tracker.Valid() && at !in tracker.heap
      modifies tracker
      ensures tracker.Valid() && tracker.State() == R.ReceiveMessage(old(tracker.State()), message, handle, at)
      ensures tracker.outbox == old(tracker.outbox) && tracker.neighbours == old(tracker.neighbours)
      ensures tracker.peersSent == FromPeer(old(tracker.peersSent), tracker.heap, at)
    {
      hide R.EnqueueBroadcastFrom;
      var stored := tracker.StoreMessageAndReturnIfNew(message, at);
      if stored.Some? {
        tracker.CheckSenderInPeers(message.header.sender);
        tracker.EnqueueBroadcastPacketFrom(stored.value, handle, message.header.sender);
      }
    }

    /** What arrives on a connection does to the tracker what it does to the node. `at` is where a new object
        would be put. */
    method ProcessWrite(hash: R.Hash, handle: nat, offset: nat, buffer: Bytes, at: nat, uptimeMs: nat)
      requires tracker.Valid() && |buffer| <= MAX_BUFFER && at !in tracker.heap
      modifies tracker
      ensures tracker.Valid()
      ensures tracker.State() == R.ProcessWrite(old(tracker.State()), hash, buffer, offset, handle, at, uptimeMs)
      ensures tracker.outbox == old(tracker.outbox) && tracker.neighbours == old(tracker.neighbours)
      ensures tracker.peersSent == FromPeer(old(tracker.peersSent), tracker.heap, at)
    {
      hide ParseAnnounce, ParseMessage, R.ReceiveAnnounce, R.ReceiveMessage;
      var reader := new BinaryReader(offset, buffer);
      var version := reader.ReadUint8();
      if version < 1 || version > 2 {
        return;
      }
      var packetType := reader.ReadUint8();
      if packetType == TYPE_ANNOUNCE {
        var announce := ReadAnnounce(reader, packetType);
        ReceiveAnnounce(hash, announce, handle, at, uptimeMs);
      } else if packetType == TYPE_MESSAGE {
        var message := ReadMessage(reader, packetType);
        ReceiveMessage(message, handle, at);
      }
    }

    /** A message of the node's own. */
    method Originate(message: Message, at: nat)
      requires tracker.Valid() && at !in tracker.heap
      modifies tracker
      ensures tracker.Valid() && tracker.State() == R.Originate(old(tracker.State()), message, at)
      ensures tracker.outbox == old(tracker.outbox) && tracker.peersSent == old(tracker.peersSent)
    {
      var stored := tracker.StoreMessageAndReturnIfNew(message, at);
      if stored.Some? {
        tracker.EnqueueBroadcastPacket(stored.value);
      }
    }
  }
}
