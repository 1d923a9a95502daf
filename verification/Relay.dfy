/** What one node of the relay does, as functions of its state. */
module Relay {
  import opened Binary
  import opened Clock
  import opened Multimap
  import opened Packets

  // Connections are named by their handle, as the code compares them; packets by a number that stands for
  // their address, which is what the ordered containers sort them by.

  const BUILD_TIME_MS: nat := 1755685519
  const TEN_MINUTES_MS: nat := 600000
  const ANNOUNCE_TTL: Byte := 3

  type Hash = Bytes -> bv32
  type Pairs = seq<Entry<nat>>

  datatype Peer = Peer(id: U64, name: Bytes, maxTtl: Byte)

  datatype Connection = Connection(connected: bool, valueHandle: nat, timestampUs: nat) {
    predicate Available() {
      connected && valueHandle > 0
    }

    predicate Stale(nowMs: nat) {
      !connected && timestampUs / 1000 + TEN_MINUTES_MS < nowMs
    }
  }

  const NEW_CONNECTION: Connection := Connection(false, 0, 0)

  datatype Packet =
    | MessagePacket(message: Message)
    | PassAlongPacket(passAlong: PassAlong)
    | AnnouncePacket(announce: Announce)
  {
    function Header(): (h: Header)
      ensures MessagePacket? ==> h == message.header
      ensures PassAlongPacket? ==> h == passAlong.header
      ensures AnnouncePacket? ==> h == announce.base.header
    {
      match this
      case MessagePacket(m) => m.header
      case PassAlongPacket(p) => p.header
      case AnnouncePacket(a) => a.base.header
    }

    predicate CanPrint() {
      MessagePacket? ==> Printable(message)
    }

    function Print(): Bytes
      requires CanPrint()
    {
      match this
      case MessagePacket(m) => PrintMessage(m)
      case PassAlongPacket(p) => PrintPassAlong(p)
      case AnnouncePacket(a) => PrintAnnounce(a)
    }

    /** Later than ten minutes after the packet's time, read as a count of microseconds. */
    predicate Stale(nowMs: nat) {
      Header().TimestampMs() + TEN_MINUTES_MS < nowMs
    }
  }

  /** A node: the objects it holds and where they lie; the two stores and the announce, by address; the peers;
      the connections; the clock offset; the ledger of (packet, connection) pairs, the two lists to send, and
      every call made to send so far. */
  datatype Node = Node(
    heap: map<nat, Packet>, messages: map<Bytes, nat>, packets: map<PacketHash, nat>, announceKey: nat,
    peers: map<U64, Peer>, handlePeers: map<nat, U64>, connections: map<nat, Connection>, offset: U64,
    ledger: Pairs, broadcast: seq<nat>, targeted: Pairs, sent: Pairs)

  // ---- stores and lists ----

  function StoreMessage(n: Node, m: Message, at: nat): (r: Node)
    ensures m.id !in n.messages ==> at in r.heap
  {
    if m.id in n.messages then n
    else n.(messages := n.messages[m.id := at], heap := n.heap[at := MessagePacket(m)])
  }

  /** The store holds pass-along packets: of an announce it keeps all but the name. */
  function StorePassAlong(n: Node, hash: Hash, p: PassAlong, at: nat): (r: Node)
    ensures PacketKey(hash, p) !in n.packets ==> at in r.heap
  {
    var key := PacketKey(hash, p);
    if key in n.packets then n
    else n.(packets := n.packets[key := at], heap := n.heap[at := PassAlongPacket(p)])
  }

  function WithPeer(n: Node, sender: U64): Node {
    if sender in n.peers then n else n.(peers := n.peers[sender := Peer(sender, [], 0)])
  }

  function WithConnection(n: Node, handle: nat): Node {
    if handle in n.connections then n else n.(connections := n.connections[handle := NEW_CONNECTION])
  }

  function EnqueueTargeted(n: Node, key: nat, handle: nat): Node
    requires key in n.heap
  {
    if n.heap[key].Header().ttl > 0 then
      WithConnection(n, handle).(targeted := Insert(n.targeted, key, handle))
    else n
  }

  function EnqueueBroadcast(n: Node, key: nat): Node
    requires key in n.heap
  {
    if n.heap[key].Header().ttl > 0 then n.(broadcast := n.broadcast + [key]) else n
  }

  function EnqueueBroadcastFrom(n: Node, key: nat, from: nat): Node
    requires key in n.heap
  {
    EnqueueBroadcast(n.(ledger := Insert(n.ledger, key, from)), key)
  }

  // ---- receiving ----

  /** The peer gets the announce's name, whatever it is; a TTL at least as high as any before moves it to this
      connection. */
  function NamePeer(n: Node, a: Announce, handle: nat): (r: Node)
    ensures r == n.(peers := r.peers, handlePeers := r.handlePeers) && a.base.header.sender in r.peers
  {
    var h := a.base.header;
    var n1 := WithPeer(n, h.sender);
    var peer := n1.peers[h.sender].(name := a.name);
    if h.ttl >= peer.maxTtl then
      n1.(peers := n1.peers[h.sender := peer.(maxTtl := h.ttl)], handlePeers := n1.handlePeers[handle := h.sender])
    else
      n1.(peers := n1.peers[h.sender := peer])
  }

  function ReceiveAnnounce(n: Node, hash: Hash, a: Announce, handle: nat, at: nat, uptimeMs: nat): Node {
    var n1 := NamePeer(n, a, handle);
    var n2 := n1.(offset := Updated(n1.offset, uptimeMs, a.base.header.TimestampMs()));
    if PacketKey(hash, a.base) in n.packets then n2
    else EnqueueBroadcastFrom(StorePassAlong(n2, hash, a.base, at), at, handle)
  }

  function ReceiveMessage(n: Node, m: Message, handle: nat, at: nat): Node {
    if m.id in n.messages then n
    else EnqueueBroadcastFrom(WithPeer(StoreMessage(n, m, at), m.header.sender), at, handle)
  }

  function ProcessWrite(n: Node, hash: Hash, b: Bytes, offset: nat, handle: nat, at: nat, uptimeMs: nat): Node
    requires |b| <= MAX_BUFFER
  {
    match Receive(b, offset)
    case Ignored => n
    case GotAnnounce(a) => ReceiveAnnounce(n, hash, a, handle, at, uptimeMs)
    case GotMessage(m) => ReceiveMessage(n, m, handle, at)
  }

  /** A message of the node's own goes to the list without an entry in the ledger. */
  function Originate(n: Node, m: Message, at: nat): Node {
    if m.id in n.messages then n else EnqueueBroadcast(StoreMessage(n, m, at), at)
  }

  // ---- sending ----

  datatype Sending = Sending(ledger: Pairs, sent: Pairs)

  function SendTo(s: Sending, key: nat, handle: nat): Sending {
    Sending(Insert(s.ledger, key, handle), s.sent + [Entry(key, handle)])
  }

  /** The targeted list, in order; each pair is looked up in the ledger as it has become by then. */
  function TargetedPass(todo: Pairs, s: Sending): (r: Sending)
    ensures |s.sent| <= |r.sent|
    decreases |todo|
  {
    if todo == [] then s
    else TargetedPass(todo[1..], if todo[0] in s.ledger then s else SendTo(s, todo[0].key, todo[0].value))
  }

  /** The scan for a broadcast runs from the packet's first entry to the end of the whole ledger. */
  ghost predicate Suppressed(ledger: Pairs, key: nat, handle: nat) {
    (exists e :: e in ledger && e.key == key) && exists e :: e in ledger && e.key >= key && e.value == handle
  }

  ghost function BroadcastTo(key: nat, available: seq<nat>, s: Sending): (r: Sending)
    ensures |s.sent| <= |r.sent|
    decreases |available|
  {
    if available == [] then s
    else BroadcastTo(key, available[1..],
                     if Suppressed(s.ledger, key, available[0]) then s else SendTo(s, key, available[0]))
  }

  ghost function BroadcastPass(list: seq<nat>, available: seq<nat>, s: Sending): (r: Sending)
    ensures |s.sent| <= |r.sent|
    decreases |list|
  {
    if list == [] then s else BroadcastPass(list[1..], available, BroadcastTo(list[0], available, s))
  }

  function AvailableHandles(connections: map<nat, Connection>): (r: seq<nat>)
    ensures forall h :: h in r <==> h in connections && connections[h].connected && connections[h].valueHandle > 0
    ensures forall i, j | 0 <= i < j < |r| :: r[i] < r[j]
  {
    Ascending(set h | h in connections && connections[h].Available())
  }

  predicate SentSince(sent: Pairs, i: nat, key: nat) {
    exists j | i <= j < |sent| :: sent[j].key == key
  }

  ghost function AfterTargeted(n: Node): Sending {
    TargetedPass(n.targeted, Sending(n.ledger, n.sent))
  }

  ghost function AfterBroadcast(n: Node): Sending {
    BroadcastPass(n.broadcast, AvailableHandles(n.connections), AfterTargeted(n))
  }

  /** A packet leaves a list when it was sent, in that list's half of the call, to anyone at all. */
  ghost function SendPackets(n: Node): Node {
    var t, b := AfterTargeted(n), AfterBroadcast(n);
    n.(ledger := b.ledger, sent := b.sent,
       targeted := Keep(n.targeted, (e: Entry<nat>) => !SentSince(t.sent, |n.sent|, e.key)),
       broadcast := Keep(n.broadcast, (k: nat) => !SentSince(b.sent, |t.sent|, k)))
  }

  // ---- announcing ----

  function SetupAnnounce(a: Announce, sender: U64, name: Bytes): Announce {
    if a.base.header.ttl == ANNOUNCE_TTL then a
    else Announce(a.base.(header := a.base.header.(ttl := ANNOUNCE_TTL, flags := 0, sender := sender)), name)
  }

  ghost predicate Announceable(n: Node, handle: nat)  {
    && handle in n.connections && n.connections[handle].Available() && n.offset >= BUILD_TIME_MS
    && Entry(n.announceKey, handle) !in n.ledger
  }

  /** The announce gets the present time and is queued for one connection. */
  function AnnounceToOne(n: Node, handle: nat, uptimeMs: nat): (r: Node)
    requires n.announceKey in n.heap && n.heap[n.announceKey].AnnouncePacket?
    ensures r.announceKey == n.announceKey && r.announceKey in r.heap && r.heap[r.announceKey].AnnouncePacket?
  {
    var a := n.heap[n.announceKey].announce;
    var stamped := a.(base := a.base.(header := a.base.header.(timestamp := Now(n.offset, uptimeMs))));
    EnqueueTargeted(n.(heap := n.heap[n.announceKey := AnnouncePacket(stamped)]), n.announceKey, handle)
  }

  function AnnounceTo(n: Node, handles: seq<nat>, uptimeMs: nat): (r: Node)
    requires n.announceKey in n.heap && n.heap[n.announceKey].AnnouncePacket?
    ensures r.announceKey == n.announceKey && r.announceKey in r.heap && r.heap[r.announceKey].AnnouncePacket?
    decreases |handles|
  {
    if handles == [] then n else AnnounceTo(AnnounceToOne(n, handles[0], uptimeMs), handles[1..], uptimeMs)
  }

  ghost function AnnounceToConnections(n: Node, uptimeMs: nat, sender: U64, name: Bytes): (r: Node)
    requires n.announceKey in n.heap && n.heap[n.announceKey].AnnouncePacket?
    ensures r.announceKey == n.announceKey && r.announceKey in r.heap && r.heap[r.announceKey].AnnouncePacket?
  {
    var a := SetupAnnounce(n.heap[n.announceKey].announce, sender, name);
    var n1 := n.(heap := n.heap[n.announceKey := AnnouncePacket(a)]);
    var handles := Keep(AvailableHandles(n.connections), (h: nat) =>
      n.offset >= BUILD_TIME_MS && Entry(n.announceKey, h) !in n.ledger);
    AnnounceTo(n1, handles, uptimeMs)
  }

  // ---- disconnecting ----

  /** The pairs of the announce are looked for under the address of a copy of the connection, and so all stay. */
  function Disconnected(n: Node, handle: nat): Node {
    var n1 := WithConnection(n, handle);
    n1.(connections := n1.connections[handle := n1.connections[handle].(connected := false)],
        handlePeers := n1.handlePeers - {handle})
  }

  // ---- cleaning up ----

  /** The time a packet reference reads, which for an object that is gone is whatever its memory holds. */
  function StampOf(heap: map<nat, Packet>, garbage: nat -> U64, key: nat): U64 {
    if key in heap then heap[key].Header().timestamp else garbage(key)
  }

  function ConnectionOf(connections: map<nat, Connection>, handle: nat): Connection {
    if handle in connections then connections[handle] else NEW_CONNECTION
  }

  /** The ledger and the targeted list read the packet's time as a count of milliseconds. */
  predicate PairStale(heap: map<nat, Packet>, connections: map<nat, Connection>, garbage: nat -> U64,
                      e: Entry<nat>, nowMs: nat)
  {
    (StampOf(heap, garbage, e.key) + TEN_MINUTES_MS) % TWO_64 < nowMs || ConnectionOf(connections, e.value).Stale(nowMs)
  }

  function PairStays(heap: map<nat, Packet>, connections: map<nat, Connection>, garbage: nat -> U64, nowMs: nat):
    Entry<nat> -> bool
  {
    (e: Entry<nat>) => !PairStale(heap, connections, garbage, e, nowMs)
  }

  /** The list of peers reads it as a count of microseconds. */
  function PeerStays(heap: map<nat, Packet>, garbage: nat -> U64, nowMs: nat): Entry<U64> -> bool {
    (e: Entry<U64>) => !(StampOf(heap, garbage, e.key) / 1000 + TEN_MINUTES_MS < nowMs)
  }

  function PacketStays(heap: map<nat, Packet>, nowMs: nat): nat -> bool {
    (k: nat) => k in heap && !heap[k].Stale(nowMs)
  }

  /** The entries of a store whose packet is not stale. */
  function FreshKeys<K>(store: map<K, nat>, heap: map<nat, Packet>, nowMs: nat): map<K, nat> {
    map k | k in store && !(store[k] in heap && heap[store[k]].Stale(nowMs)) :: store[k]
  }

  function FreshConnections<K>(connections: map<K, Connection>, nowMs: nat): map<K, Connection> {
    map h | h in connections && !connections[h].Stale(nowMs) :: connections[h]
  }

  /** The objects go with their store entries; the announce is in no store. */
  function FreshObjects(heap: map<nat, Packet>, announceKey: nat, nowMs: nat): map<nat, Packet> {
    map k | k in heap && (k == announceKey || !heap[k].Stale(nowMs)) :: heap[k]
  }

  function Cleanup(n: Node, garbage: nat -> U64, uptimeMs: nat): Node {
    var now := Now(n.offset, uptimeMs);
    n.(ledger := Keep(n.ledger, PairStays(n.heap, n.connections, garbage, now)),
       broadcast := Keep(n.broadcast, PacketStays(n.heap, now)),
       targeted := Keep(n.targeted, PairStays(n.heap, n.connections, garbage, now)),
       connections := FreshConnections(n.connections, now),
       messages := FreshKeys(n.messages, n.heap, now),
       packets := FreshKeys(n.packets, n.heap, now),
       heap := FreshObjects(n.heap, n.announceKey, now))
  }

  // ---- runs ----

  datatype Op =
    | Write(b: Bytes, offset: nat, handle: nat, at: nat, uptimeMs: nat)
    | Own(message: Message, at: nat)
    | Announcing(uptimeMs: nat, sender: U64, name: Bytes)
    | Send
    | Connect(handle: nat, connection: Connection)
    | Disconnect(handle: nat)
    | Clean(garbage: nat -> U64, uptimeMs: nat)

  /** New objects lie where none is now; bytes come from connections the node has. */
  ghost predicate Enabled(n: Node, op: Op) {
    match op
    case Write(b, offset, handle, at, uptimeMs) => |b| <= MAX_BUFFER && handle in n.connections && at !in n.heap
    case Own(m, at) => at !in n.heap
    case _ => true
  }

  ghost predicate HasAnnounce(n: Node) {
    n.announceKey in n.heap && n.heap[n.announceKey].AnnouncePacket?
  }

  ghost function Apply(n: Node, hash: Hash, op: Op): Node
    requires Enabled(n, op) && HasAnnounce(n)
  {
    match op
    case Write(b, offset, handle, at, uptimeMs) => ProcessWrite(n, hash, b, offset, handle, at, uptimeMs)
    case Own(m, at) => Originate(n, m, at)
    case Announcing(uptimeMs, sender, name) => AnnounceToConnections(n, uptimeMs, sender, name)
    case Send => SendPackets(n)
    case Connect(handle, connection) => n.(connections := n.connections[handle := connection])
    case Disconnect(handle) => Disconnected(n, handle)
    case Clean(garbage, uptimeMs) => Cleanup(n, garbage, uptimeMs)
  }
}
