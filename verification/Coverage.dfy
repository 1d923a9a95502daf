/** Where a message has got to once everything sent has arrived. */
module Coverage {
  import opened Binary
  import opened Multimap
  import opened Network
  import opened Packets
  import opened Relay
  import opened RelayInvariants
  import opened RelayRuns

  /** Every connection is one connection, seen from either end. */
  ghost predicate Symmetric(links: Links) {
    forall e :: links(links(e)) == e
  }

  ghost predicate Carries(b: Bytes, id: Bytes) {
    |b| <= MAX_BUFFER && Receive(b, 0).GotMessage? && Receive(b, 0).message.id == id
  }

  ghost predicate Holds(net: Net, i: nat, id: Bytes) {
    i < |net.nodes| && id in net.nodes[i].messages
  }

  /** The message has been sent on the connection. */
  ghost predicate OnWire(net: Net, i: nat, h: nat, id: Bytes) {
    exists w :: w in net.wire && w.from == i && w.via == h && Carries(w.bytes, id)
  }

  /** Every message on the wire is held by the node that sent it. */
  ghost predicate WireHeld(net: Net) {
    forall w: Wire, id: Bytes {:trigger Carries(w.bytes, id)} | w in net.wire && Carries(w.bytes, id) ::
      Holds(net, w.from, id)
  }

  /** A pair of a held message that was sent is on the wire; one in the ledger without a send leads to a node that
      holds the message too. */
  ghost predicate PairExplained(net: Net, links: Links, i: nat, id: Bytes, h: nat)
    requires Holds(net, i, id)
  {
    var n, e := net.nodes[i], Entry(net.nodes[i].messages[id], h);
    && (e in n.sent ==> OnWire(net, i, h, id))
    && (e in n.ledger && e !in n.sent ==> Holds(net, links(End(i, h)).node, id))
  }

  ghost predicate Explained(net: Net, links: Links) {
    forall i: nat, id: Bytes, h: nat | Holds(net, i, id) :: PairExplained(net, links, i, id, h)
  }

  lemma StartIsExplained(net: Net, links: Links)
    requires Starting(net)
    ensures WireHeld(net) && Explained(net, links)
  {
    forall i: nat | i < |net.nodes|
      ensures net.nodes[i].messages == map[]
    {
      assert NewNode(net.nodes[i]);
    }
  }

  // ---- what a step adds ----

  /** New pairs of a node's ledger are sent or note the arrival of something new; a new message is stored where
      nothing was, and if it was received it is the one that arrived. */
  ghost predicate Additions(n: Node, r: Node, op: Op) {
    && (op.Write? ==> op.at !in n.heap)
    && (forall e | e in r.ledger && e !in n.ledger :: e in r.sent || (op.Write? && e == Entry(op.at, op.handle)))
    && (forall id | id in r.messages && id !in n.messages ::
          && (op.Write? || op.Own?) && r.messages[id] == op.at && r.sent == n.sent && op.at !in n.heap
          && (op.Write? && op.offset == 0 ==> Carries(op.b, id)))
  }

  lemma AddsAdditions(n: Node, hash: Hash, r: Node, at: nat, p: Packet, from: Option<nat>)
    requires Adds(n, hash, r, at, p, from)
    ensures forall e | e in r.ledger && e !in n.ledger :: from.Some? && e == Entry(at, from.value)
    ensures forall id | id in r.messages && id !in n.messages ::
              p.MessagePacket? && p.message.id == id && r.messages[id] == at
    ensures r.sent == n.sent
  {
    hide Insert, PacketKey, Packet.Header;
    if from.Some? {
      InsertMembers(n.ledger, at, from.value);
    }
  }

  lemma WriteAdditions(n: Node, hash: Hash, b: Bytes, offset: nat, handle: nat, at: nat, uptimeMs: nat)
    requires |b| <= MAX_BUFFER && at !in n.heap
    ensures Additions(n, ProcessWrite(n, hash, b, offset, handle, at, uptimeMs), Write(b, offset, handle, at, uptimeMs))
  {
    hide ProcessWrite, Receive, PacketKey, Adds;
    WriteEffect(n, hash, b, offset, handle, at, uptimeMs);
    var r := ProcessWrite(n, hash, b, offset, handle, at, uptimeMs);
    match Receive(b, offset)
    case Ignored =>
    case GotMessage(m) =>
      if m.id !in n.messages {
        AddsAdditions(n, hash, r, at, MessagePacket(m), Some(handle));
      }
    case GotAnnounce(a) =>
      if PacketKey(hash, a.base) !in n.packets {
        AddsAdditions(n, hash, r, at, PassAlongPacket(a.base), Some(handle));
      }
  }

  lemma SendAdditions(n: Node)
    ensures Additions(n, SendPackets(n), Send)
  {
    hide AfterTargeted, AfterBroadcast, Keep;
    SendAddsNewPairs(n);
    var r := SendPackets(n);
    assert forall e | e in r.sent[|n.sent|..] :: e in r.sent;
  }

  lemma StepAdditions(n: Node, hash: Hash, op: Op)
    requires HasAnnounce(n) && Enabled(n, op) && !op.Clean?
    ensures Additions(n, Apply(n, hash, op), op)
  {
    hide ProcessWrite, Originate, AnnounceToConnections, SendPackets, Carries, Adds;
    match op
    case Write(b, offset, handle, at, uptimeMs) => WriteAdditions(n, hash, b, offset, handle, at, uptimeMs);
    case Own(m, at) =>
      OwnEffect(n, hash, m, at);
      if m.id !in n.messages {
        AddsAdditions(n, hash, Originate(n, m, at), at, MessagePacket(m), None);
      }
    case Announcing(uptimeMs, sender, name) => AnnounceEffect(n, uptimeMs, sender, name);
    case Send => SendAdditions(n);
    case Connect(handle, connection) =>
    case Disconnect(handle) =>
  }

  // ---- every step keeps pairs explained ----

  lemma PrintCarries(n: Node, hash: Hash, origin: map<Bytes, Message>, key: nat)
    requires WellFormed(n, hash) && TrueCopies(n, origin) && key in n.heap
    requires forall id | id in origin :: Canonical(origin[id])
    ensures n.heap[key].CanPrint()
    ensures forall id | Carries(n.heap[key].Print(), id) :: id in n.messages
    ensures forall id | id in n.messages && n.messages[id] == key :: Carries(n.heap[key].Print(), id)
  {
    hide Receive, PrintMessage, PrintPassAlong, PrintAnnounce, PacketKey;
    assert Stored(n, hash, key);
    match n.heap[key]
    case MessagePacket(m) =>
      assert Canonical(origin[m.id]) && m == origin[m.id];
      CanonicalArrives(m);
    case PassAlongPacket(p) => RelayedAnnounceRoundTrip(p);
    case AnnouncePacket(a) =>
      AnnounceSize(a);
      assert At(PrintAnnounce(a), 0, PrintAnnounce(a));
      AnnounceRoundTrip(PrintAnnounce(a), 0, a);
  }

  /** What a node newly sends goes on the wire, and all it puts on the wire it holds. */
  lemma EmitsHeld(i: nat, n: Node, r: Node, hash: Hash, origin: map<Bytes, Message>)
    requires WellFormed(n, hash) && TrueCopies(n, origin) && forall id | id in origin :: Canonical(origin[id])
    requires |n.sent| <= |r.sent|
    ensures forall w: Wire, id: Bytes {:trigger Carries(w.bytes, id)} | w in Emitted(i, n, r) && Carries(w.bytes, id) ::
              w.from == i && id in n.messages
    ensures forall id: Bytes, h: nat | id in n.messages && Entry(n.messages[id], h) in r.sent[|n.sent|..] ::
              exists w :: w in Emitted(i, n, r) && w.from == i && w.via == h && Carries(w.bytes, id)
  {
    hide WellFormed, Carries, Canonical, Packet.CanPrint, Packet.Print;
    forall w: Wire, id: Bytes {:trigger Carries(w.bytes, id)} | w in Emitted(i, n, r) && Carries(w.bytes, id)
      ensures w.from == i && id in n.messages
    {
      var e :| e in r.sent[|n.sent|..] && e.key in n.heap && n.heap[e.key].CanPrint()
               && w == Wire(i, e.value, n.heap[e.key].Print());
      PrintCarries(n, hash, origin, e.key);
    }
    forall id: Bytes, h: nat | id in n.messages && Entry(n.messages[id], h) in r.sent[|n.sent|..]
      ensures exists w :: w in Emitted(i, n, r) && w.from == i && w.via == h && Carries(w.bytes, id)
    {
      var e := Entry(n.messages[id], h);
      MessagesPlaced(n, hash);
      PrintCarries(n, hash, origin, e.key);
      assert Wire(i, e.value, n.heap[e.key].Print()) in Emitted(i, n, r);
    }
  }

  /** All the facts about one step that the explanations of pairs rest on. */
  ghost predicate StepFacts(net: Net, hash: Hash, links: Links, step: Step, later: Net) {
    && CanStep(net, links, step) && |later.nodes| == |net.nodes| && net.wire <= later.wire
    && (forall i: nat | i < |net.nodes| :: Grows(net.nodes[i], later.nodes[i]))
    && var i, op := NodeOf(links, step), OpOf(links, step);
       var n, r := net.nodes[i], later.nodes[i];
       && later.nodes == net.nodes[i := r]
       && Additions(n, r, op) && Tidy(n)
       && (forall w: Wire, id: Bytes {:trigger Carries(w.bytes, id)} |
             w in later.wire && w !in net.wire && Carries(w.bytes, id) :: w.from == i && id in n.messages)
       && (forall id: Bytes, h: nat |
             id in n.messages && Entry(n.messages[id], h) in r.sent && Entry(n.messages[id], h) !in n.sent ::
             OnWire(later, i, h, id))
       && (forall id | id in n.messages :: n.messages[id] in n.heap)
  }

  lemma StepHasFacts(net: Net, hash: Hash, links: Links, step: Step)
    requires Honest(net, hash) && CanStep(net, links, step)
    ensures StepFacts(net, hash, links, step, After(net, hash, links, step))
  {
    hide Apply, WellFormed, Referenced, Tidy, Canonical, TrueCopies, TrueBytes, Carries, Additions, Emitted;
    var later := After(net, hash, links, step);
    StepStaysHonest(net, hash, links, step);
    var i, op := NodeOf(links, step), OpOf(links, step);
    var n, r := net.nodes[i], later.nodes[i];
    assert Sound(n, hash) && Grows(n, r);
    StepAdditions(n, hash, op);
    EmitsHeld(i, n, r, hash, net.origin);
    MessagesPlaced(n, hash);
    forall id: Bytes, h: nat |
      id in n.messages && Entry(n.messages[id], h) in r.sent && Entry(n.messages[id], h) !in n.sent
      ensures OnWire(later, i, h, id)
    {
      assert r.sent == n.sent + r.sent[|n.sent|..];
      JoinMembers(n.sent, r.sent[|n.sent|..], Entry(n.messages[id], h));
    }
  }

  lemma MessagesPlaced(n: Node, hash: Hash)
    requires WellFormed(n, hash)
    ensures forall id | id in n.messages :: n.messages[id] in n.heap
  {}

  lemma HeldLater(net: Net, hash: Hash, links: Links, step: Step, later: Net, i: nat, id: Bytes)
    requires StepFacts(net, hash, links, step, later) && Holds(net, i, id)
    ensures Holds(later, i, id) && later.nodes[i].messages[id] == net.nodes[i].messages[id]
  {
    hide Additions, Tidy, Carries, CanStep, OnWire;
    assert Grows(net.nodes[i], later.nodes[i]);
  }

  lemma WireStaysHeld(net: Net, hash: Hash, links: Links, step: Step, later: Net)
    requires StepFacts(net, hash, links, step, later) && WireHeld(net)
    ensures WireHeld(later)
  {
    hide Additions, Tidy, Carries, Grows;
    forall w: Wire, id: Bytes {:trigger Carries(w.bytes, id)} | w in later.wire && Carries(w.bytes, id)
      ensures Holds(later, w.from, id)
    {
      if w in net.wire {
        assert Holds(net, w.from, id);
      } else {
        assert w.from == NodeOf(links, step);
      }
      HeldLater(net, hash, links, step, later, w.from, id);
    }
  }

  lemma SentStays(n: Node, r: Node)
    requires n.sent <= r.sent
    ensures forall e | e in n.sent :: e in r.sent
  {
    assert forall j | 0 <= j < |n.sent| :: r.sent[j] == n.sent[j];
  }

  lemma OldPairStays(net: Net, hash: Hash, links: Links, step: Step, later: Net, i: nat, id: Bytes, h: nat)
    requires StepFacts(net, hash, links, step, later) && Holds(net, i, id) && PairExplained(net, links, i, id, h)
    ensures Holds(later, i, id) && PairExplained(later, links, i, id, h)
  {
    hide Tidy, Carries, CanStep;
    HeldLater(net, hash, links, step, later, i, id);
    var n, r, e := net.nodes[i], later.nodes[i], Entry(net.nodes[i].messages[id], h);
    if e in r.ledger && e !in r.sent {
      SentStays(n, r);
      assert e in n.ledger && e !in n.sent;
      HeldLater(net, hash, links, step, later, links(End(i, h)).node, id);
    }
  }

  lemma NewPairExplained(net: Net, hash: Hash, links: Links, step: Step, later: Net, id: Bytes, h: nat)
    requires Symmetric(links) && StepFacts(net, hash, links, step, later) && WireHeld(net)
    requires var i := NodeOf(links, step); Holds(later, i, id) && !Holds(net, i, id)
    ensures PairExplained(later, links, NodeOf(links, step), id, h)
  {
    hide Carries, Grows, Enabled;
    var i, op := NodeOf(links, step), OpOf(links, step);
    var n, r := net.nodes[i], later.nodes[i];
    var e := Entry(r.messages[id], h);
    assert r.messages[id] == op.at && r.sent == n.sent;
    assert e !in n.ledger && e !in r.sent;
    if e in r.ledger {
      assert op.Write? && h == op.handle && Carries(op.b, id);
      assert links(End(step.wire.from, step.wire.via)) == End(i, h);
      assert links(End(i, h)).node == step.wire.from;
      assert Holds(net, step.wire.from, id);
      HeldLater(net, hash, links, step, later, step.wire.from, id);
    }
  }

  lemma StepStaysExplained(net: Net, hash: Hash, links: Links, step: Step)
    requires Symmetric(links) && Honest(net, hash) && CanStep(net, links, step)
    requires WireHeld(net) && Explained(net, links)
    ensures WireHeld(After(net, hash, links, step)) && Explained(After(net, hash, links, step), links)
  {
    hide StepFacts, Honest, CanStep, PairExplained, WireHeld, After;
    var later := After(net, hash, links, step);
    StepHasFacts(net, hash, links, step);
    WireStaysHeld(net, hash, links, step, later);
    forall i: nat, id: Bytes, h: nat | Holds(later, i, id)
      ensures PairExplained(later, links, i, id, h)
    {
      if Holds(net, i, id) {
        OldPairStays(net, hash, links, step, later, i, id, h);
      } else {
        OnlyStepper(net, hash, links, step, later, i, id);
        NewPairExplained(net, hash, links, step, later, id, h);
      }
    }
  }

  lemma OnlyStepper(net: Net, hash: Hash, links: Links, step: Step, later: Net, i: nat, id: Bytes)
    requires StepFacts(net, hash, links, step, later) && Holds(later, i, id) && !Holds(net, i, id)
    ensures i == NodeOf(links, step)
  {
    hide Additions, Tidy, Carries, CanStep, OnWire, Grows;
  }

  lemma {:induction false} TraceStaysExplained(nets: seq<Net>, hash: Hash, links: Links, steps: seq<Step>, k: nat)
    requires Symmetric(links) && Trace(nets, hash, links, steps) && Starting(nets[0]) && k <= |steps|
    ensures Honest(nets[k], hash) && WireHeld(nets[k]) && Explained(nets[k], links)
  {
    hide Symmetric, Honest, CanStep, After, WireHeld, Explained, Starting;
    if k == 0 {
      StartIsHonest(nets[0], hash);
      StartIsExplained(nets[0], links);
    } else {
      TraceStaysExplained(nets, hash, links, steps, k - 1);
      assert Follows(nets[k - 1], hash, links, steps[k - 1], nets[k]);
      StepStaysHonest(nets[k - 1], hash, links, steps[k - 1]);
      StepStaysExplained(nets[k - 1], hash, links, steps[k - 1]);
    }
  }

  // ---- coverage ----

  ghost predicate Delivered(steps: seq<Step>, k: nat, w: Wire)
    requires k <= |steps|
  {
    exists j :: 0 <= j < k && steps[j].Deliver? && steps[j].wire == w
  }

  /** The node has a pair of the message for each available connection. */
  ghost predicate Reached(n: Node, id: Bytes) {
    id in n.messages && forall h | h in AvailableHandles(n.connections) :: Entry(n.messages[id], h) in n.ledger
  }

  /** The message is settled: whoever holds it has a pair for each available connection, and all that was sent of
      it has been delivered at least once. */
  ghost predicate Settled(net: Net, steps: seq<Step>, k: nat, id: Bytes)
    requires k <= |steps|
  {
    && (forall i: nat | Holds(net, i, id) :: Reached(net.nodes[i], id))
    && (forall w | w in net.wire && Carries(w.bytes, id) :: Delivered(steps, k, w))
  }

  /** A way through the network over available connections, each node on it being in the network. */
  ghost predicate Path(net: Net, links: Links, i: nat, hops: seq<nat>, j: nat)
    decreases |hops|
  {
    && i < |net.nodes|
    && if hops == [] then i == j
       else
         && hops[0] in AvailableHandles(net.nodes[i].connections)
         && Path(net, links, links(End(i, hops[0])).node, hops[1..], j)
  }

  /** What has been delivered is held by the node it was delivered to. */
  lemma DeliveredIsHeld(nets: seq<Net>, hash: Hash, links: Links, steps: seq<Step>, k: nat, w: Wire, id: Bytes)
    requires Trace(nets, hash, links, steps) && Starting(nets[0]) && k <= |steps|
    requires Delivered(steps, k, w) && Carries(w.bytes, id)
    ensures Holds(nets[k], links(End(w.from, w.via)).node, id)
  {
    hide Honest, Starting, After, Carries, WellFormed, Grows;
    var j :| 0 <= j < k && steps[j].Deliver? && steps[j].wire == w;
    var i := links(End(w.from, w.via)).node;
    StartIsHonest(nets[0], hash);
    TraceStaysHonest(nets, hash, links, steps, j);
    assert Follows(nets[j], hash, links, steps[j], nets[j + 1]);
    CarriedIsStored(nets[j], hash, links, steps[j], id);
    TraceGrows(nets, hash, links, steps, j + 1, k, i);
    HeldGrows(nets[j + 1].nodes[i], nets[k].nodes[i], id);
  }

  lemma HeldGrows(n: Node, r: Node, id: Bytes)
    requires Grows(n, r) && id in n.messages
    ensures id in r.messages
  {}

  lemma CarriedIsStored(net: Net, hash: Hash, links: Links, step: Step, id: Bytes)
    requires CanStep(net, links, step) && step.Deliver? && Carries(step.wire.bytes, id)
    ensures Holds(After(net, hash, links, step), links(End(step.wire.from, step.wire.via)).node, id)
  {
    hide Receive, ProcessWrite, Emitted, Insert;
    var End(i, handle) := links(End(step.wire.from, step.wire.via));
    WriteEffect(net.nodes[i], hash, step.wire.bytes, 0, handle, step.at, step.uptimeMs);
  }

  lemma OneHop(nets: seq<Net>, hash: Hash, links: Links, steps: seq<Step>, k: nat, id: Bytes, i: nat, h: nat)
    requires Symmetric(links) && Trace(nets, hash, links, steps) && Starting(nets[0]) && k <= |steps|
    requires Settled(nets[k], steps, k, id) && Holds(nets[k], i, id)
    requires h in AvailableHandles(nets[k].nodes[i].connections)
    ensures Holds(nets[k], links(End(i, h)).node, id)
  {
    hide Symmetric, Honest, Follows, WireHeld, Starting, Carries, Delivered, AvailableHandles;
    TraceStaysExplained(nets, hash, links, steps, k);
    assert PairExplained(nets[k], links, i, id, h);
    assert Reached(nets[k].nodes[i], id);
    if Entry(nets[k].nodes[i].messages[id], h) in nets[k].nodes[i].sent {
      var w :| w in nets[k].wire && w.from == i && w.via == h && Carries(w.bytes, id);
      DeliveredIsHeld(nets, hash, links, steps, k, w, id);
    }
  }

  /** Coverage: once a message is settled, every node that can be reached from one that holds it has it. */
  lemma {:induction false} SettledIsEverywhere(nets: seq<Net>, hash: Hash, links: Links, steps: seq<Step>, k: nat,
                                               id: Bytes, i: nat, hops: seq<nat>, j: nat)
    requires Symmetric(links) && Trace(nets, hash, links, steps) && Starting(nets[0]) && k <= |steps|
    requires Settled(nets[k], steps, k, id) && Holds(nets[k], i, id) && Path(nets[k], links, i, hops, j)
    ensures Holds(nets[k], j, id)
    decreases |hops|
  {
    hide Symmetric, Follows, Starting, Settled, AvailableHandles;
    if hops != [] {
      OneHop(nets, hash, links, steps, k, id, i, hops[0]);
      SettledIsEverywhere(nets, hash, links, steps, k, id, links(End(i, hops[0])).node, hops[1..], j);
    }
  }

  // ---- how a node comes to have all its pairs ----

  ghost predicate MakesAvailable(step: Step, i: nat) {
    step.ConnectAt? && step.node == i && step.connection.Available()
  }

  lemma NoneMoreAvailable(n: Node, hash: Hash, op: Op)
    requires HasAnnounce(n) && Enabled(n, op) && !op.Clean? && (op.Connect? ==> !op.connection.Available())
    ensures forall h | h in AvailableHandles(Apply(n, hash, op).connections) :: h in AvailableHandles(n.connections)
  {
    hide ProcessWrite, Originate, AnnounceToConnections, SendPackets, Receive, Insert, PacketKey, AvailableHandles;
    match op
    case Write(b, offset, handle, at, uptimeMs) => WriteEffect(n, hash, b, offset, handle, at, uptimeMs);
    case Own(m, at) => OwnEffect(n, hash, m, at);
    case Announcing(uptimeMs, sender, name) => AnnounceEffect(n, uptimeMs, sender, name);
    case Send => SendChangesLists(n);
    case Connect(handle, connection) =>
    case Disconnect(handle) =>
  }

  lemma ReachedStays(net: Net, hash: Hash, links: Links, step: Step, i: nat, id: Bytes)
    requires Honest(net, hash) && CanStep(net, links, step) && !MakesAvailable(step, i)
    requires i < |net.nodes| && Reached(net.nodes[i], id)
    ensures Reached(After(net, hash, links, step).nodes[i], id)
  {
    hide Apply, Sound, TrueCopies, TrueBytes, Canonical, Emitted, Enabled, AvailableHandles;
    StepStaysHonest(net, hash, links, step);
    assert Grows(net.nodes[i], After(net, hash, links, step).nodes[i]);
    if i == NodeOf(links, step) {
      NoneMoreAvailable(net.nodes[i], hash, OpOf(links, step));
    }
  }

  /** When a node sends while the turn of the message is clear, and none of its connections becomes available
      later, it has in every later state a pair of the message for each available one. */
  lemma {:induction false} SendReaches(nets: seq<Net>, hash: Hash, links: Links, steps: seq<Step>, j: nat, k: nat,
                                       i: nat, id: Bytes, turn: nat)
    requires Trace(nets, hash, links, steps) && Starting(nets[0]) && j < k <= |steps|
    requires steps[j] == SendFrom(i) && Holds(nets[j], i, id) && turn < |nets[j].nodes[i].broadcast|
    requires var n := nets[j].nodes[i]; n.broadcast[turn] == n.messages[id] && TurnIsClear(n, turn)
    requires forall l | j < l < k :: !MakesAvailable(steps[l], i)
    ensures i < |nets[k].nodes| && Reached(nets[k].nodes[i], id)
    decreases k
  {
    hide Honest, Starting, ProcessWrite, Originate, AnnounceToConnections, SendPackets, Emitted, Enabled,
         AvailableHandles, TurnIsClear, Reached;
    StartIsHonest(nets[0], hash);
    TraceStaysHonest(nets, hash, links, steps, k - 1);
    assert Follows(nets[k - 1], hash, links, steps[k - 1], nets[k]);
    if k == j + 1 {
      ReachedAtOnce(nets[j].nodes[i], id, turn);
    } else {
      SendReaches(nets, hash, links, steps, j, k - 1, i, id, turn);
      ReachedStays(nets[k - 1], hash, links, steps[k - 1], i, id);
    }
  }

  lemma ReachedAtOnce(n: Node, id: Bytes, turn: nat)
    requires id in n.messages && turn < |n.broadcast| && n.broadcast[turn] == n.messages[id] && TurnIsClear(n, turn)
    ensures Reached(SendPackets(n), id)
  {
    hide AfterTargeted, AfterBroadcast, AvailableHandles, TurnIsClear;
    ClearTurnReachesAll(n, turn);
  }
}
