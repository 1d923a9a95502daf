/** A network of nodes: what one prints another receives, over links that may lose, repeat and reorder. */
module Network {
  import opened Binary
  import opened Flood
  import opened Multimap
  import opened Packets
  import opened Relay
  import opened RelayInvariants
  import opened RelayRuns

  /** Bytes on their way from a node's connection. */
  datatype Wire = Wire(from: nat, via: nat, bytes: Bytes)

  /** For a node and a connection of it: the node at the other end, and its handle for the connection. */
  type Links = End -> End

  datatype End = End(node: nat, handle: nat)

  /** What has been sent stays on the wire, so that it may arrive at any time, any number of times or never.
      `origin` keeps every message ever originated, by identifier. */
  datatype Net = Net(nodes: seq<Node>, wire: set<Wire>, origin: map<Bytes, Message>)

  datatype Step =
    | Deliver(wire: Wire, at: nat, uptimeMs: nat)
    | Create(node: nat, message: Message, at: nat)
    | SendFrom(node: nat)
    | AnnounceFrom(node: nat, uptimeMs: nat, sender: U64, name: Bytes)
    | ConnectAt(node: nat, handle: nat, connection: Connection)
    | DisconnectAt(node: nat, handle: nat)

  /** A message as its origin prints it without loss: nothing to cut, no peer to append, not too long. */
  ghost predicate Canonical(m: Message) {
    && NormalMessage(m) == m && m.header.packetType == TYPE_MESSAGE && !m.HasSenderPeer()
    && |PrintMessage(m)| <= MAX_BUFFER
  }

  function NodeOf(links: Links, step: Step): nat {
    match step
    case Deliver(w, _, _) => links(End(w.from, w.via)).node
    case _ => step.node
  }

  function OpOf(links: Links, step: Step): Op {
    match step
    case Deliver(w, at, uptimeMs) => Write(w.bytes, 0, links(End(w.from, w.via)).handle, at, uptimeMs)
    case Create(_, m, at) => Own(m, at)
    case SendFrom(_) => Send
    case AnnounceFrom(_, uptimeMs, sender, name) => Announcing(uptimeMs, sender, name)
    case ConnectAt(_, handle, connection) => Connect(handle, connection)
    case DisconnectAt(_, handle) => Disconnect(handle)
  }

  /** Only what is on the wire arrives, and an identifier has one origin. */
  ghost predicate CanStep(net: Net, links: Links, step: Step) {
    var i := NodeOf(links, step);
    && i < |net.nodes| && HasAnnounce(net.nodes[i]) && Enabled(net.nodes[i], OpOf(links, step))
    && (step.Deliver? ==> step.wire in net.wire)
    && (step.Create? ==> step.message.id !in net.origin && Canonical(step.message))
  }

  /** The bytes that go out for the pairs a node has newly sent. */
  ghost function Emitted(i: nat, n: Node, r: Node): set<Wire>
    requires |n.sent| <= |r.sent|
  {
    set e | e in r.sent[|n.sent|..] && e.key in n.heap && n.heap[e.key].CanPrint()
      :: Wire(i, e.value, n.heap[e.key].Print())
  }

  ghost function After(net: Net, hash: Hash, links: Links, step: Step): Net
    requires CanStep(net, links, step)
  {
    var i := NodeOf(links, step);
    var n := net.nodes[i];
    var r := Apply(n, hash, OpOf(links, step));
    Net(net.nodes[i := r],
        if |n.sent| <= |r.sent| then net.wire + Emitted(i, n, r) else net.wire,
        if step.Create? then net.origin[step.message.id := step.message] else net.origin)
  }

  /** A trace of the network: each step can happen in its state and leads to the next. */
  ghost predicate Trace(nets: seq<Net>, hash: Hash, links: Links, steps: seq<Step>) {
    |nets| == |steps| + 1
    && forall i {:trigger steps[i]} | 0 <= i < |steps| :: Follows(nets[i], hash, links, steps[i], nets[i + 1])
  }

  ghost predicate Follows(net: Net, hash: Hash, links: Links, step: Step, later: Net) {
    CanStep(net, links, step) && later == After(net, hash, links, step)
  }

  // ---- integrity ----

  /** Every message a node stores is its origin's, in every field. */
  ghost predicate TrueCopies(n: Node, origin: map<Bytes, Message>) {
    && (forall id | id in n.messages ::
          id in origin && n.messages[id] in n.heap && n.heap[n.messages[id]] == MessagePacket(origin[id]))
    && (forall k | k in n.heap && n.heap[k].PassAlongPacket? ::
          n.heap[k].passAlong.header.packetType == TYPE_ANNOUNCE && !n.heap[k].passAlong.hasPayload)
    && (HasAnnounce(n) ==>
          var a := n.heap[n.announceKey].announce.base; a.header.packetType == TYPE_ANNOUNCE && !a.hasPayload)
  }

  /** Bytes that fit a buffer, and that are received as a message only if it is its origin's. */
  ghost predicate TrueBytes(b: Bytes, origin: map<Bytes, Message>) {
    && |b| <= MAX_BUFFER
    && (Receive(b, 0).GotMessage? ==>
          var m := Receive(b, 0).message; m.id in origin && origin[m.id] == m)
    && (Receive(b, 0).GotAnnounce? ==>
          var a := Receive(b, 0).announce.base; a.header.packetType == TYPE_ANNOUNCE && !a.hasPayload)
  }

  ghost predicate Sound(n: Node, hash: Hash) {
    WellFormed(n, hash) && Referenced(n) && Tidy(n)
  }

  ghost predicate Honest(net: Net, hash: Hash) {
    && (forall i | 0 <= i < |net.nodes| :: Sound(net.nodes[i], hash) && TrueCopies(net.nodes[i], net.origin))
    && (forall id | id in net.origin :: net.origin[id].id == id && Canonical(net.origin[id]))
    && (forall w | w in net.wire :: TrueBytes(w.bytes, net.origin))
  }

  /** Nodes that have only their announce, nothing on the wire, nothing originated. */
  ghost predicate Starting(net: Net) {
    && net.wire == {} && net.origin == map[]
    && forall i | 0 <= i < |net.nodes| :: NewNode(net.nodes[i])
  }

  ghost predicate NewNode(n: Node) {
    && HasAnnounce(n) && n.heap.Keys == {n.announceKey}
    && n.heap[n.announceKey].announce.base.header.packetType == TYPE_ANNOUNCE
    && !n.heap[n.announceKey].announce.base.hasPayload
    && n.messages == map[] && n.packets == map[] && n.ledger == []
    && n.broadcast == [] && n.targeted == [] && n.sent == []
  }

  lemma StartIsHonest(net: Net, hash: Hash)
    requires Starting(net)
    ensures Honest(net, hash)
  {
    forall i | 0 <= i < |net.nodes|
      ensures Sound(net.nodes[i], hash) && TrueCopies(net.nodes[i], net.origin)
    {
      assert NewNode(net.nodes[i]);
      assert forall k | k in net.nodes[i].heap :: k in net.nodes[i].heap.Keys;
    }
  }

  /** What a sound node prints is true. */
  lemma PrintsTrue(n: Node, hash: Hash, origin: map<Bytes, Message>, key: nat)
    requires WellFormed(n, hash) && TrueCopies(n, origin) && key in n.heap
    requires forall id | id in origin :: Canonical(origin[id])
    ensures n.heap[key].CanPrint() && TrueBytes(n.heap[key].Print(), origin)
  {
    hide Receive, PrintMessage, PrintPassAlong, PrintAnnounce, PacketKey;
    assert Stored(n, hash, key);
    match n.heap[key]
    case MessagePacket(m) =>
      assert Canonical(origin[m.id]) && m == origin[m.id];
      assert At(PrintMessage(m), 0, PrintMessage(m));
      MessageRoundTrip(PrintMessage(m), 0, m);
    case PassAlongPacket(p) => RelayedAnnounceRoundTrip(p);
    case AnnouncePacket(a) =>
      AnnounceSize(a);
      assert At(PrintAnnounce(a), 0, PrintAnnounce(a));
      AnnounceRoundTrip(PrintAnnounce(a), 0, a);
  }

  lemma EmitsTrue(i: nat, n: Node, r: Node, hash: Hash, origin: map<Bytes, Message>, w: Wire)
    requires WellFormed(n, hash) && TrueCopies(n, origin) && forall id | id in origin :: Canonical(origin[id])
    requires |n.sent| <= |r.sent| && w in Emitted(i, n, r)
    ensures TrueBytes(w.bytes, origin)
  {
    hide WellFormed, TrueCopies, TrueBytes, Canonical, Packet.CanPrint, Packet.Print;
    var e :| e in r.sent[|n.sent|..] && e.key in n.heap && n.heap[e.key].CanPrint()
             && w == Wire(i, e.value, n.heap[e.key].Print());
    PrintsTrue(n, hash, origin, e.key);
  }

  lemma AddsTrueCopy(n: Node, hash: Hash, r: Node, at: nat, p: Packet, from: Option<nat>, origin: map<Bytes, Message>)
    requires Adds(n, hash, r, at, p, from) && TrueCopies(n, origin) && HasAnnounce(n)
    requires p.MessagePacket? ==> p.message.id in origin && origin[p.message.id] == p.message
    requires p.PassAlongPacket? ==> p.passAlong.header.packetType == TYPE_ANNOUNCE && !p.passAlong.hasPayload
    ensures TrueCopies(r, origin)
  {
    hide Insert, PacketKey, Packet.Header;
  }

  /** A node that is written true bytes stores true copies only. */
  lemma WriteStoresTrue(n: Node, hash: Hash, b: Bytes, handle: nat, at: nat, uptimeMs: nat, origin: map<Bytes, Message>)
    requires HasAnnounce(n) && TrueCopies(n, origin) && TrueBytes(b, origin) && at !in n.heap
    ensures TrueCopies(ProcessWrite(n, hash, b, 0, handle, at, uptimeMs), origin)
  {
    hide ProcessWrite, Receive, PacketKey, Adds, TrueCopies;
    WriteEffect(n, hash, b, 0, handle, at, uptimeMs);
    var r := ProcessWrite(n, hash, b, 0, handle, at, uptimeMs);
    match Receive(b, 0)
    case Ignored =>
    case GotMessage(m) =>
      if m.id !in n.messages {
        AddsTrueCopy(n, hash, r, at, MessagePacket(m), Some(handle), origin);
      }
    case GotAnnounce(a) =>
      if PacketKey(hash, a.base) !in n.packets {
        AddsTrueCopy(n, hash, r, at, PassAlongPacket(a.base), Some(handle), origin);
      } else {
        SameCopies(n, r, origin);
      }
  }

  lemma SameCopies(n: Node, r: Node, origin: map<Bytes, Message>)
    requires TrueCopies(n, origin) && r.messages == n.messages && r.heap == n.heap && r.announceKey == n.announceKey
    ensures TrueCopies(r, origin)
  {}

  lemma MoreOrigins(n: Node, origin: map<Bytes, Message>, m: Message)
    requires TrueCopies(n, origin) && m.id !in origin
    ensures TrueCopies(n, origin[m.id := m])
  {}

  lemma CreateStoresTrue(n: Node, hash: Hash, m: Message, at: nat, origin: map<Bytes, Message>)
    requires HasAnnounce(n) && TrueCopies(n, origin) && m.id !in origin && at !in n.heap
    ensures TrueCopies(Originate(n, m, at), origin[m.id := m])
  {
    hide Adds, Originate, TrueCopies;
    MoreOrigins(n, origin, m);
    OwnEffect(n, hash, m, at);
    if m.id !in n.messages {
      AddsTrueCopy(n, hash, Originate(n, m, at), at, MessagePacket(m), None, origin[m.id := m]);
    }
  }

  lemma AnnounceStoresTrue(n: Node, hash: Hash, uptimeMs: nat, sender: U64, name: Bytes, origin: map<Bytes, Message>)
    requires WellFormed(n, hash) && TrueCopies(n, origin)
    ensures TrueCopies(AnnounceToConnections(n, uptimeMs, sender, name), origin)
  {
    hide AnnounceToConnections, PacketKey;
    AnnounceEffect(n, uptimeMs, sender, name);
  }

  lemma NodeStaysTrue(net: Net, hash: Hash, links: Links, step: Step)
    requires Honest(net, hash) && CanStep(net, links, step)
    ensures var i := NodeOf(links, step);
            var r := After(net, hash, links, step).nodes[i];
            Sound(r, hash) && Grows(net.nodes[i], r) && TrueCopies(r, After(net, hash, links, step).origin)
  {
    hide WellFormed, Referenced, Tidy, Grows, TrueCopies, TrueBytes, Canonical, Emitted,
         ProcessWrite, Originate, AnnounceToConnections, SendPackets;
    var i := NodeOf(links, step);
    var n := net.nodes[i];
    assert Sound(n, hash) && TrueCopies(n, net.origin);
    RunStep(n, hash, OpOf(links, step));
    match step
    case Deliver(w, at, uptimeMs) =>
      WriteStoresTrue(n, hash, w.bytes, links(End(w.from, w.via)).handle, at, uptimeMs, net.origin);
    case Create(_, m, at) => CreateStoresTrue(n, hash, m, at, net.origin);
    case SendFrom(_) => SendKeepsCopies(n, net.origin);
    case AnnounceFrom(_, uptimeMs, sender, name) => AnnounceStoresTrue(n, hash, uptimeMs, sender, name, net.origin);
    case ConnectAt(_, handle, connection) =>
      SameCopies(n, n.(connections := n.connections[handle := connection]), net.origin);
    case DisconnectAt(_, handle) => SameCopies(n, Disconnected(n, handle), net.origin);
  }

  lemma SendKeepsCopies(n: Node, origin: map<Bytes, Message>)
    requires TrueCopies(n, origin)
    ensures TrueCopies(SendPackets(n), origin)
  {
    hide TrueCopies, AfterBroadcast, AfterTargeted, Keep;
    SameCopies(n, SendPackets(n), origin);
  }

  lemma WireStaysTrue(net: Net, hash: Hash, links: Links, step: Step)
    requires Honest(net, hash) && CanStep(net, links, step)
    ensures forall w | w in After(net, hash, links, step).wire ::
              TrueBytes(w.bytes, After(net, hash, links, step).origin)
  {
    hide Apply, Sound, TrueCopies, TrueBytes, Canonical, Emitted, Enabled;
    var i := NodeOf(links, step);
    var n, later := net.nodes[i], After(net, hash, links, step);
    forall w | w in later.wire
      ensures TrueBytes(w.bytes, later.origin)
    {
      assert TrueBytes(w.bytes, net.origin) by {
        if w !in net.wire {
          SoundIsWellFormed(n, hash);
          EmitsTrue(i, n, later.nodes[i], hash, net.origin, w);
        }
      }
      StillTrue(w.bytes, net.origin, step);
    }
  }

  lemma SoundIsWellFormed(n: Node, hash: Hash)
    requires Sound(n, hash)
    ensures WellFormed(n, hash)
  {}

  lemma StillTrue(b: Bytes, origin: map<Bytes, Message>, step: Step)
    requires TrueBytes(b, origin) && (step.Create? ==> step.message.id !in origin)
    ensures TrueBytes(b, if step.Create? then origin[step.message.id := step.message] else origin)
  {
    hide Receive;
  }

  /** Every step of the network keeps every copy, on the nodes and on the wire, its origin's. */
  lemma StepStaysHonest(net: Net, hash: Hash, links: Links, step: Step)
    requires Honest(net, hash) && CanStep(net, links, step)
    ensures var later := After(net, hash, links, step);
            && Honest(later, hash) && |later.nodes| == |net.nodes|
            && forall i | 0 <= i < |net.nodes| :: Grows(net.nodes[i], later.nodes[i])
  {
    hide Sound, Apply, Grows, TrueCopies, TrueBytes, Canonical, Emitted, Enabled;
    var later := After(net, hash, links, step);
    NodeStaysTrue(net, hash, links, step);
    WireStaysTrue(net, hash, links, step);
    forall i | 0 <= i < |net.nodes|
      ensures Sound(later.nodes[i], hash) && TrueCopies(later.nodes[i], later.origin)
      ensures Grows(net.nodes[i], later.nodes[i])
    {
      if i != NodeOf(links, step) {
        GrowsSelf(net.nodes[i]);
        if step.Create? {
          MoreOrigins(net.nodes[i], net.origin, step.message);
        }
      }
    }
  }

  lemma GrowsSelf(n: Node)
    ensures Grows(n, n)
  {
    assert n.sent[|n.sent|..] == [];
  }

  /** Integrity: over every trace, whatever is lost, repeated or reordered, every state keeps every message any
      node stores its origin's in every field, TTL included. */
  lemma {:induction false} TraceStaysHonest(nets: seq<Net>, hash: Hash, links: Links, steps: seq<Step>, k: nat)
    requires Trace(nets, hash, links, steps) && Honest(nets[0], hash) && k <= |steps|
    ensures Honest(nets[k], hash) && |nets[k].nodes| == |nets[0].nodes|
  {
    hide Honest, CanStep, After;
    if k > 0 {
      TraceStaysHonest(nets, hash, links, steps, k - 1);
      assert Follows(nets[k - 1], hash, links, steps[k - 1], nets[k]);
      StepStaysHonest(nets[k - 1], hash, links, steps[k - 1]);
    }
  }

  /** And nothing a node stores changes or goes later on. */
  lemma {:induction false} TraceGrows(nets: seq<Net>, hash: Hash, links: Links, steps: seq<Step>,
                                      j: nat, k: nat, i: nat)
    requires Trace(nets, hash, links, steps) && Honest(nets[0], hash) && j <= k <= |steps| && i < |nets[0].nodes|
    ensures |nets[j].nodes| == |nets[k].nodes| == |nets[0].nodes|
    ensures Grows(nets[j].nodes[i], nets[k].nodes[i])
    decreases k
  {
    hide Honest, CanStep, After, Grows;
    TraceStaysHonest(nets, hash, links, steps, j);
    if j == k {
      GrowsSelf(nets[j].nodes[i]);
    } else {
      TraceStaysHonest(nets, hash, links, steps, k - 1);
      TraceGrows(nets, hash, links, steps, j, k - 1, i);
      assert Follows(nets[k - 1], hash, links, steps[k - 1], nets[k]);
      StepStaysHonest(nets[k - 1], hash, links, steps[k - 1]);
      GrowsFurther(nets[j].nodes[i], nets[k - 1].nodes[i], nets[k].nodes[i]);
    }
  }

  lemma EveryCopyIsTheOrigins(nets: seq<Net>, hash: Hash, links: Links, steps: seq<Step>, k: nat, i: nat, id: Bytes)
    requires Trace(nets, hash, links, steps) && Starting(nets[0]) && k <= |steps|
    requires i < |nets[k].nodes| && id in nets[k].nodes[i].messages
    ensures var n := nets[k].nodes[i];
            && id in nets[k].origin && n.messages[id] in n.heap
            && n.heap[n.messages[id]] == MessagePacket(nets[k].origin[id])
  {
    hide Starting, Follows, Sound;
    StartIsHonest(nets[0], hash);
    TraceStaysHonest(nets, hash, links, steps, k);
    assert TrueCopies(nets[k].nodes[i], nets[k].origin);
  }

  // ---- what a hop achieves ----

  lemma CanonicalArrives(m: Message)
    requires Canonical(m)
    ensures |PrintMessage(m)| <= MAX_BUFFER && Receive(PrintMessage(m), 0) == GotMessage(m)
  {
    hide Receive, PrintMessage;
    assert At(PrintMessage(m), 0, PrintMessage(m));
    MessageRoundTrip(PrintMessage(m), 0, m);
  }

  /** What a node sends of a message is on the wire. */
  lemma SendsEmit(net: Net, hash: Hash, links: Links, i: nat, key: nat, h: nat)
    requires Honest(net, hash) && i < |net.nodes| && net.nodes[i].sent <= SendPackets(net.nodes[i]).sent
    requires Entry(key, h) in SendPackets(net.nodes[i]).sent[|net.nodes[i].sent|..]
    requires key in net.nodes[i].heap && net.nodes[i].heap[key].MessagePacket?
    ensures var m := net.nodes[i].heap[key].message;
            && CanStep(net, links, SendFrom(i)) && Canonical(m) && m.id in net.origin && net.origin[m.id] == m
            && Wire(i, h, PrintMessage(m)) in After(net, hash, links, SendFrom(i)).wire
  {
    hide SendPackets, PrintMessage, Referenced, Tidy, TrueBytes, PacketKey;
    var n, r := net.nodes[i], SendPackets(net.nodes[i]);
    assert Sound(n, hash) && TrueCopies(n, net.origin) && Stored(n, hash, key);
    assert Wire(i, h, PrintMessage(n.heap[key].message)) in Emitted(i, n, r) by {
      assert Entry(key, h) in r.sent[|n.sent|..] && n.heap[key].Print() == PrintMessage(n.heap[key].message);
    }
  }

  lemma ArrivalStores(n: Node, hash: Hash, m: Message, handle: nat, at: nat, uptimeMs: nat)
    requires Canonical(m) && at !in n.heap && |PrintMessage(m)| <= MAX_BUFFER
    ensures m.id in ProcessWrite(n, hash, PrintMessage(m), 0, handle, at, uptimeMs).messages
  {
    hide Receive, PrintMessage, ProcessWrite, Insert;
    CanonicalArrives(m);
    WriteEffect(n, hash, PrintMessage(m), 0, handle, at, uptimeMs);
  }

  /** When an originated message arrives anywhere, the node there has the origin's copy afterwards, whether this
      arrival brought it or an earlier one. */
  lemma ArrivalDelivers(net: Net, hash: Hash, links: Links, w: Wire, at: nat, uptimeMs: nat, id: Bytes)
    requires Honest(net, hash) && id in net.origin && Canonical(net.origin[id])
    requires w.bytes == PrintMessage(net.origin[id])
    requires CanStep(net, links, Deliver(w, at, uptimeMs))
    ensures var n := After(net, hash, links, Deliver(w, at, uptimeMs)).nodes[links(End(w.from, w.via)).node];
            id in n.messages && n.messages[id] in n.heap && n.heap[n.messages[id]] == MessagePacket(net.origin[id])
  {
    hide PrintMessage, Sound, TrueCopies, TrueBytes, Canonical, ProcessWrite, Emitted;
    var End(j, g) := links(End(w.from, w.via));
    CanonicalArrives(net.origin[id]);
    StepStaysHonest(net, hash, links, Deliver(w, at, uptimeMs));
    ArrivalStores(net.nodes[j], hash, net.origin[id], g, at, uptimeMs);
    CopyIs(After(net, hash, links, Deliver(w, at, uptimeMs)).nodes[j], net.origin, id);
  }

  lemma CopyIs(n: Node, origin: map<Bytes, Message>, id: Bytes)
    requires TrueCopies(n, origin) && id in n.messages
    ensures id in origin && n.messages[id] in n.heap && n.heap[n.messages[id]] == MessagePacket(origin[id])
  {}

  // ---- each link at most once ----

  /** In any reachable state no node has sent the same message twice to the same connection. */
  lemma OncePerLink(n: Node, hash: Hash, p: nat, q: nat)
    requires Sound(n, hash) && p < q < |n.sent|
    requires n.sent[p].key in n.heap && n.sent[q].key in n.heap
    requires n.heap[n.sent[p].key].MessagePacket? && n.heap[n.sent[q].key].MessagePacket?
    requires n.heap[n.sent[p].key].message.id == n.heap[n.sent[q].key].message.id
    ensures n.sent[p].value != n.sent[q].value
  {
    hide PacketKey;
    assert Stored(n, hash, n.sent[p].key) && Stored(n, hash, n.sent[q].key);
    assert n.sent[p] != n.sent[q];
  }

  /** The step brings the node at the end of the link a message it does not have. */
  ghost predicate Brings(net: Net, links: Links, step: Step) {
    && CanStep(net, links, step) && step.Deliver? && Receive(step.wire.bytes, 0).GotMessage?
    && Receive(step.wire.bytes, 0).message.id !in net.nodes[NodeOf(links, step)].messages
  }

  /** The message lies in the node's store, and its pair for the connection is in the ledger without a send. */
  ghost predicate NotedUnsent(n: Node, id: Bytes, handle: nat) {
    id in n.messages && Entry(n.messages[id], handle) in n.ledger && Entry(n.messages[id], handle) !in n.sent
  }

  lemma BringingNotes(net: Net, hash: Hash, links: Links, step: Step)
    requires Honest(net, hash) && Brings(net, links, step)
    ensures var End(i, handle) := links(End(step.wire.from, step.wire.via));
            NotedUnsent(After(net, hash, links, step).nodes[i], Receive(step.wire.bytes, 0).message.id, handle)
  {
    hide Receive, ProcessWrite, WellFormed, Referenced, TrueCopies, TrueBytes, Canonical, Insert, Emitted;
    var End(i, handle) := links(End(step.wire.from, step.wire.via));
    var n := net.nodes[i];
    assert Sound(n, hash);
    WriteEffect(n, hash, step.wire.bytes, 0, handle, step.at, step.uptimeMs);
    InsertMembers(n.ledger, step.at, handle);
  }

  lemma NotedStaysUnsent(n: Node, r: Node, id: Bytes, handle: nat)
    requires Grows(n, r) && NotedUnsent(n, id, handle)
    ensures NotedUnsent(r, id, handle)
  {
    UnsentStaysUnsent(n, r);
  }

  /** A message a node first had from some connection is, in every later state, stored and not sent there. */
  lemma NeverBackToItsSource(nets: seq<Net>, hash: Hash, links: Links, steps: seq<Step>, j: nat, k: nat)
    requires Trace(nets, hash, links, steps) && Honest(nets[0], hash) && j < k <= |steps|
    ensures Brings(nets[j], links, steps[j]) ==>
              var End(i, handle) := links(End(steps[j].wire.from, steps[j].wire.via));
              i < |nets[k].nodes| && NotedUnsent(nets[k].nodes[i], Receive(steps[j].wire.bytes, 0).message.id, handle)
  {
    hide Honest, After, Grows, NotedUnsent, Receive;
    if Brings(nets[j], links, steps[j]) {
      var End(i, handle) := links(End(steps[j].wire.from, steps[j].wire.via));
      TraceStaysHonest(nets, hash, links, steps, j);
      assert Follows(nets[j], hash, links, steps[j], nets[j + 1]);
      BringingNotes(nets[j], hash, links, steps[j]);
      TraceGrows(nets, hash, links, steps, j + 1, k, i);
      NotedStaysUnsent(nets[j + 1].nodes[i], nets[k].nodes[i], Receive(steps[j].wire.bytes, 0).message.id, handle);
    }
  }

  // ---- the flood ends ----

  ghost function TotalOf(f: Node -> nat, nodes: seq<Node>): nat {
    if nodes == [] then 0 else f(nodes[0]) + TotalOf(f, nodes[1..])
  }

  lemma {:induction false} TotalOfUpdate(f: Node -> nat, nodes: seq<Node>, i: nat, r: Node)
    requires i < |nodes|
    ensures TotalOf(f, nodes[i := r]) + f(nodes[i]) == TotalOf(f, nodes) + f(r)
  {
    if i > 0 {
      assert nodes[i := r][1..] == nodes[1..][i - 1 := r];
      TotalOfUpdate(f, nodes[1..], i - 1, r);
    } else {
      assert nodes[0 := r][1..] == nodes[1..];
    }
  }

  lemma {:induction false} TotalOfOrdered(f: Node -> nat, g: Node -> nat, nodes: seq<Node>)
    requires forall n | n in nodes :: f(n) <= g(n)
    ensures TotalOf(f, nodes) <= TotalOf(g, nodes)
  {
    if nodes != [] {
      assert nodes[0] in nodes && forall n | n in nodes[1..] :: n in nodes;
      TotalOfOrdered(f, g, nodes[1..]);
    }
  }

  ghost function Sent(item: Item): Node -> nat {
    n => Transmissions(n, item)
  }

  ghost function Held(item: Item): Node -> nat {
    n => Copies(n, item)
  }

  ghost function ToDo(item: Item): Node -> nat {
    n => Work(n, item)
  }

  ghost function Degree(): Node -> nat {
    (n: Node) => |n.connections.Keys|
  }

  /** All transmissions of one message or announce together are at most as many as there are directed links. */
  lemma TransmissionsWithinLinks(net: Net, hash: Hash, item: Item)
    requires Honest(net, hash)
    ensures TotalOf(Sent(item), net.nodes) <= TotalOf(Degree(), net.nodes)
  {
    hide WellFormed, Transmissions, Canonical, TrueCopies, TrueBytes;
    forall n | n in net.nodes
      ensures Sent(item)(n) <= Degree()(n)
    {
      assert Sound(n, hash);
      TransmissionsBounded(n, item);
    }
    TotalOfOrdered(Sent(item), Degree(), net.nodes);
  }

  ghost predicate NoNewConnection(net: Net, step: Step) {
    match step
    case ConnectAt(i, handle, _) => i < |net.nodes| ==> handle in net.nodes[i].connections
    case DisconnectAt(i, handle) => i < |net.nodes| ==> handle in net.nodes[i].connections
    case _ => true
  }

  ghost function Done(net: Net, item: Item): nat {
    TotalOf(Sent(item), net.nodes) + TotalOf(Held(item), net.nodes)
  }

  /** Sending or storing the packet uses up work, one for one at least. */
  lemma StepUsesWork(net: Net, hash: Hash, links: Links, step: Step, item: Item)
    requires Honest(net, hash) && CanStep(net, links, step) && NoNewConnection(net, step)
    ensures var later := After(net, hash, links, step);
            && Done(net, item) <= Done(later, item)
            && TotalOf(ToDo(item), later.nodes) + Done(later, item) <= TotalOf(ToDo(item), net.nodes) + Done(net, item)
  {
    hide WellFormed, Referenced, Tidy, TrueCopies, TrueBytes, Canonical, Apply, Emitted, Transmissions, Work,
         Copies, TotalOf, Enabled;
    var i := NodeOf(links, step);
    var n, r := net.nodes[i], Apply(net.nodes[i], hash, OpOf(links, step));
    assert Sound(n, hash);
    StepPays(n, hash, OpOf(links, step), item);
    TotalOfUpdate(Sent(item), net.nodes, i, r);
    TotalOfUpdate(Held(item), net.nodes, i, r);
    TotalOfUpdate(ToDo(item), net.nodes, i, r);
  }

  /** Among the first `k` steps, those in which some node stores the packet or sends it. */
  ghost function Productive(nets: seq<Net>, k: nat, item: Item): nat
    requires k < |nets|
  {
    if k == 0 then 0
    else Productive(nets, k - 1, item) + if Done(nets[k], item) != Done(nets[k - 1], item) then 1 else 0
  }

  ghost predicate NoNewConnections(nets: seq<Net>, steps: seq<Step>) {
    |nets| == |steps| + 1 && forall i {:trigger steps[i]} | 0 <= i < |steps| :: NoNewConnection(nets[i], steps[i])
  }

  /** The flood ends although no TTL ever falls: over any trace that makes no new connections, however long, the
      steps that store or send a message or announce, and all its stores and sends, number at most the work there
      was. */
  lemma {:induction false} FloodEnds(nets: seq<Net>, hash: Hash, links: Links, steps: seq<Step>, k: nat, item: Item)
    requires Trace(nets, hash, links, steps) && NoNewConnections(nets, steps) && Honest(nets[0], hash) && k <= |steps|
    ensures Productive(nets, k, item) <= Done(nets[k], item) - Done(nets[0], item)
    ensures Done(nets[k], item) + TotalOf(ToDo(item), nets[k].nodes)
            <= Done(nets[0], item) + TotalOf(ToDo(item), nets[0].nodes)
  {
    hide Honest, CanStep, After, Done, TotalOf, NoNewConnection;
    if k > 0 {
      FloodEnds(nets, hash, links, steps, k - 1, item);
      TraceStaysHonest(nets, hash, links, steps, k - 1);
      assert Follows(nets[k - 1], hash, links, steps[k - 1], nets[k]);
      StepUsesWork(nets[k - 1], hash, links, steps[k - 1], item);
    }
  }

  lemma {:induction false} NewNodesOwe(nodes: seq<Node>, item: Item)
    requires forall n | n in nodes :: NewNode(n)
    ensures TotalOf(ToDo(item), nodes) == |nodes| + TotalOf(Degree(), nodes)
    ensures TotalOf(Sent(item), nodes) == 0 && TotalOf(Held(item), nodes) == 0
  {
    if nodes != [] {
      assert nodes[0] in nodes && forall n | n in nodes[1..] :: n in nodes;
      assert NewNode(nodes[0]);
      NewNodesOwe(nodes[1..], item);
    }
  }

  /** From the start and without new connections, the steps that store or send a given message or announce, and
      its stores and sends themselves, are at most as many as there are nodes and directed links together. */
  lemma FloodFromStart(nets: seq<Net>, hash: Hash, links: Links, steps: seq<Step>, k: nat, item: Item)
    requires Trace(nets, hash, links, steps) && NoNewConnections(nets, steps) && Starting(nets[0]) && k <= |steps|
    ensures Productive(nets, k, item) <= Done(nets[k], item) <= |nets[0].nodes| + TotalOf(Degree(), nets[0].nodes)
  {
    hide Follows, NoNewConnection, Productive, TotalOf, Honest, NewNode;
    StartIsHonest(nets[0], hash);
    FloodEnds(nets, hash, links, steps, k, item);
    NewNodesOwe(nets[0].nodes, item);
  }
}
