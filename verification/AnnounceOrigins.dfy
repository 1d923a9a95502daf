/** Every announce in the network, stored or on its way, is one that some node made. */
module AnnounceOrigins {
  import opened Binary
  import opened Clock
  import opened Multimap
  import opened Network
  import opened Packets
  import opened Relay
  import opened RelayInvariants
  import opened RelayPrints
  import opened RelayRuns

  /** A node's own announce as others get it, but for its name. */
  ghost function AsHeard(n: Node): PassAlong
    requires HasAnnounce(n)
  {
    NormalAnnounce(n.heap[n.announceKey].announce).base
  }

  ghost function Made(net: Net): set<PassAlong> {
    set i | 0 <= i < |net.nodes| && HasAnnounce(net.nodes[i]) :: AsHeard(net.nodes[i])
  }

  /** The announces any node has had as its own up to a point of the trace. */
  ghost function MadeUpTo(nets: seq<Net>, k: nat): set<PassAlong>
    requires k < |nets|
  {
    Made(nets[k]) + if k == 0 then {} else MadeUpTo(nets, k - 1)
  }

  ghost predicate MadeAt(net: Net, i: nat, p: PassAlong) {
    i < |net.nodes| && HasAnnounce(net.nodes[i]) && p == AsHeard(net.nodes[i])
  }

  lemma {:induction false} SomeNodeMade(nets: seq<Net>, k: nat, p: PassAlong) returns (j: nat, i: nat)
    requires k < |nets| && p in MadeUpTo(nets, k)
    ensures j <= k && MadeAt(nets[j], i, p)
  {
    if p in Made(nets[k]) {
      j := k;
      i :| 0 <= i < |nets[k].nodes| && HasAnnounce(nets[k].nodes[i]) && p == AsHeard(nets[k].nodes[i]);
    } else {
      j, i := SomeNodeMade(nets, k - 1, p);
    }
  }

  // ---- what every step keeps ----

  ghost predicate Known(n: Node, made: set<PassAlong>) {
    forall k | k in n.heap && n.heap[k].PassAlongPacket? :: n.heap[k].passAlong in made
  }

  ghost predicate KnownBytes(b: Bytes, made: set<PassAlong>) {
    |b| <= MAX_BUFFER && (Receive(b, 0).GotAnnounce? ==> Receive(b, 0).announce.base in made)
  }

  ghost predicate AllKnown(net: Net, made: set<PassAlong>) {
    && (forall p | p in made :: p == PassAlong(NormalHeader(p.header), [], false))
    && (forall i | 0 <= i < |net.nodes| :: Known(net.nodes[i], made))
    && (forall w | w in net.wire :: KnownBytes(w.bytes, made))
  }

  lemma AddsKnown(n: Node, hash: Hash, r: Node, at: nat, p: Packet, from: Option<nat>, made: set<PassAlong>)
    requires Adds(n, hash, r, at, p, from) && Known(n, made) && (p.PassAlongPacket? ==> p.passAlong in made)
    ensures Known(r, made)
  {}

  lemma WriteKeepsKnown(n: Node, hash: Hash, b: Bytes, handle: nat, at: nat, uptimeMs: nat, made: set<PassAlong>)
    requires Known(n, made) && KnownBytes(b, made) && at !in n.heap
    ensures Known(ProcessWrite(n, hash, b, 0, handle, at, uptimeMs), made)
  {
    hide ProcessWrite, Receive, PacketKey, Adds;
    WriteEffect(n, hash, b, 0, handle, at, uptimeMs);
    var r := ProcessWrite(n, hash, b, 0, handle, at, uptimeMs);
    match Receive(b, 0)
    case Ignored =>
    case GotMessage(m) =>
      if m.id !in n.messages {
        AddsKnown(n, hash, r, at, MessagePacket(m), Some(handle), made);
      }
    case GotAnnounce(a) =>
      if PacketKey(hash, a.base) !in n.packets {
        AddsKnown(n, hash, r, at, PassAlongPacket(a.base), Some(handle), made);
      }
  }

  lemma NodeKeepsKnown(n: Node, hash: Hash, op: Op, made: set<PassAlong>)
    requires HasAnnounce(n) && Enabled(n, op) && !op.Clean? && Known(n, made)
    requires op.Write? ==> op.offset == 0 && KnownBytes(op.b, made)
    ensures Known(Apply(n, hash, op), made)
  {
    hide ProcessWrite, Originate, AnnounceToConnections, AfterTargeted, AfterBroadcast, Adds, KnownBytes;
    match op
    case Write(b, _, handle, at, uptimeMs) => WriteKeepsKnown(n, hash, b, handle, at, uptimeMs, made);
    case Own(m, at) =>
      OwnEffect(n, hash, m, at);
      if m.id !in n.messages {
        AddsKnown(n, hash, Originate(n, m, at), at, MessagePacket(m), None, made);
      }
    case Announcing(uptimeMs, sender, name) => AnnounceEffect(n, uptimeMs, sender, name);
    case Send =>
    case Connect(handle, connection) =>
    case Disconnect(handle) =>
  }

  /** What a node prints is received as one of its messages, as an announce it has stored, or as its own. */
  lemma PrintsKnown(n: Node, hash: Hash, origin: map<Bytes, Message>, made: set<PassAlong>, key: nat)
    requires WellFormed(n, hash) && TrueCopies(n, origin) && key in n.heap && Known(n, made) && AsHeard(n) in made
    requires forall id | id in origin :: Canonical(origin[id])
    requires forall p | p in made :: p == PassAlong(NormalHeader(p.header), [], false)
    ensures n.heap[key].CanPrint() && KnownBytes(n.heap[key].Print(), made)
  {
    hide Receive, PrintMessage, PrintPassAlong, PrintAnnounce, PacketKey, NormalHeader;
    assert Stored(n, hash, key);
    match n.heap[key]
    case MessagePacket(m) =>
      assert Canonical(origin[m.id]) && m == origin[m.id];
      CanonicalArrives(m);
    case PassAlongPacket(p) => RelayedAnnounceRoundTrip(p);
    case AnnouncePacket(a) =>
      AnnounceSize(a);
      assert At(PrintAnnounce(a), 0, PrintAnnounce(a));
      AnnounceRoundTrip(PrintAnnounce(a), 0, a);
  }

  lemma EmitsKnown(i: nat, n: Node, r: Node, hash: Hash, origin: map<Bytes, Message>, made: set<PassAlong>)
    requires WellFormed(n, hash) && TrueCopies(n, origin) && Known(n, made) && AsHeard(n) in made
    requires forall id | id in origin :: Canonical(origin[id])
    requires forall p | p in made :: p == PassAlong(NormalHeader(p.header), [], false)
    requires |n.sent| <= |r.sent|
    ensures forall w | w in Emitted(i, n, r) :: KnownBytes(w.bytes, made)
  {
    hide TrueCopies, KnownBytes, Canonical, Packet.CanPrint, Packet.Print, PacketKey;
    forall w | w in Emitted(i, n, r)
      ensures KnownBytes(w.bytes, made)
    {
      var e :| e in r.sent[|n.sent|..] && e.key in n.heap && n.heap[e.key].CanPrint()
               && w == Wire(i, e.value, n.heap[e.key].Print());
      PrintsKnown(n, hash, origin, made, e.key);
    }
  }

  lemma StepKeepsKnown(net: Net, hash: Hash, links: Links, step: Step, made: set<PassAlong>)
    requires Honest(net, hash) && CanStep(net, links, step) && AllKnown(net, made) && Made(net) <= made
    ensures AllKnown(After(net, hash, links, step), made)
  {
    hide Apply, Known, KnownBytes, TrueCopies, TrueBytes, Canonical, WellFormed, Referenced, Tidy, Emitted, AsHeard;
    var i, op := NodeOf(links, step), OpOf(links, step);
    var n, r := net.nodes[i], Apply(net.nodes[i], hash, op);
    assert Sound(n, hash) && TrueCopies(n, net.origin);
    assert AsHeard(n) in Made(net);
    NodeKeepsKnown(n, hash, op, made);
    if |n.sent| <= |r.sent| {
      EmitsKnown(i, n, r, hash, net.origin, made);
    }
  }

  lemma MoreMade(net: Net, made: set<PassAlong>, more: set<PassAlong>)
    requires AllKnown(net, made) && forall p | p in more :: p == PassAlong(NormalHeader(p.header), [], false)
    ensures AllKnown(net, made + more)
  {
    hide Receive;
  }

  lemma MadeIsNormal(net: Net)
    ensures forall p | p in Made(net) :: p == PassAlong(NormalHeader(p.header), [], false)
  {}

  lemma {:induction false} TraceKeepsKnown(nets: seq<Net>, hash: Hash, links: Links, steps: seq<Step>, k: nat)
    requires Trace(nets, hash, links, steps) && Starting(nets[0]) && k <= |steps|
    ensures AllKnown(nets[k], MadeUpTo(nets, k)) && Made(nets[k]) <= MadeUpTo(nets, k)
  {
    hide Honest, CanStep, After, AllKnown, Made, NormalHeader;
    MadeIsNormal(nets[k]);
    if k == 0 {
      StartIsKnown(nets[0]);
      MoreMade(nets[0], {}, Made(nets[0]));
      assert {} + Made(nets[0]) == MadeUpTo(nets, 0);
    } else {
      TraceKeepsKnown(nets, hash, links, steps, k - 1);
      StartIsHonest(nets[0], hash);
      TraceStaysHonest(nets, hash, links, steps, k - 1);
      assert Follows(nets[k - 1], hash, links, steps[k - 1], nets[k]);
      StepKeepsKnown(nets[k - 1], hash, links, steps[k - 1], MadeUpTo(nets, k - 1));
      MoreMade(nets[k], MadeUpTo(nets, k - 1), Made(nets[k]));
      assert MadeUpTo(nets, k - 1) + Made(nets[k]) == MadeUpTo(nets, k);
    }
  }

  lemma StartIsKnown(net: Net)
    requires Starting(net)
    ensures AllKnown(net, {})
  {
    forall i | 0 <= i < |net.nodes|
      ensures Known(net.nodes[i], {})
    {
      assert NewNode(net.nodes[i]);
      assert forall k | k in net.nodes[i].heap :: k in net.nodes[i].heap.Keys;
    }
  }

  /** Integrity of announces: over every trace, whatever is lost, repeated or reordered, every announce a node
      stores is, in every header field and in having no payload, one that some node had as its own by then. */
  lemma StoredAnnounceWasMade(nets: seq<Net>, hash: Hash, links: Links, steps: seq<Step>, k: nat, i: nat, key: nat)
    returns (j: nat, maker: nat)
    requires Trace(nets, hash, links, steps) && Starting(nets[0]) && k <= |steps|
    requires i < |nets[k].nodes| && key in nets[k].nodes[i].heap && nets[k].nodes[i].heap[key].PassAlongPacket?
    ensures j <= k && MadeAt(nets[j], maker, nets[k].nodes[i].heap[key].passAlong)
  {
    hide Starting, Follows, NormalHeader, MadeUpTo, MadeAt, KnownBytes;
    TraceKeepsKnown(nets, hash, links, steps, k);
    assert Known(nets[k].nodes[i], MadeUpTo(nets, k));
    j, maker := SomeNodeMade(nets, k, nets[k].nodes[i].heap[key].passAlong);
  }

  /** And so is whatever on the wire is received as an announce. */
  lemma AnnounceOnWireWasMade(nets: seq<Net>, hash: Hash, links: Links, steps: seq<Step>, k: nat, w: Wire)
    returns (j: nat, maker: nat)
    requires Trace(nets, hash, links, steps) && Starting(nets[0]) && k <= |steps|
    requires w in nets[k].wire && |w.bytes| <= MAX_BUFFER && Receive(w.bytes, 0).GotAnnounce?
    ensures j <= k && MadeAt(nets[j], maker, Receive(w.bytes, 0).announce.base)
  {
    hide Starting, Follows, NormalHeader, MadeUpTo, MadeAt, Receive;
    TraceKeepsKnown(nets, hash, links, steps, k);
    assert KnownBytes(w.bytes, MadeUpTo(nets, k));
    j, maker := SomeNodeMade(nets, k, Receive(w.bytes, 0).announce.base);
  }

  // ---- what a hop of an announce achieves ----

  /** What others make of the announce that lies at an address of a node: the node's own, or one it has stored. */
  ghost function HeardAt(n: Node, key: nat): Announce
    requires key in n.heap && !n.heap[key].MessagePacket?
  {
    NormalAnnounce(if n.heap[key].AnnouncePacket? then n.heap[key].announce else Announce(n.heap[key].passAlong, []))
  }

  /** The pair is one that the node's next call to send sends. */
  ghost predicate Sends(n: Node, key: nat, h: nat) {
    Entry(key, h) in SendPackets(n).sent[|n.sent|..]
  }

  /** What a node sends of an announce, its own or another's, is on the wire. */
  lemma AnnounceEmits(net: Net, hash: Hash, links: Links, i: nat, key: nat, h: nat)
    requires Honest(net, hash) && CanStep(net, links, SendFrom(i)) && Sends(net.nodes[i], key, h)
    requires key in net.nodes[i].heap && !net.nodes[i].heap[key].MessagePacket?
    ensures var b := net.nodes[i].heap[key].Print();
            && Wire(i, h, b) in After(net, hash, links, SendFrom(i)).wire
            && |b| <= MAX_BUFFER && Receive(b, 0) == GotAnnounce(HeardAt(net.nodes[i], key))
  {
    hide SendPackets, Referenced, Tidy, TrueBytes, PacketKey, Receive, PrintPassAlong, PrintAnnounce, Canonical;
    var n, r := net.nodes[i], SendPackets(net.nodes[i]);
    assert Sound(n, hash) && TrueCopies(n, net.origin) && Stored(n, hash, key);
    PrintArrives(n.heap[key]);
    assert Wire(i, h, n.heap[key].Print()) in Emitted(i, n, r) by {
      assert Entry(key, h) in r.sent[|n.sent|..];
    }
  }

  /** The node has the announce under its key. */
  ghost predicate HasHeard(n: Node, hash: Hash, a: Announce) {
    PacketKey(hash, a.base) in n.packets
  }

  lemma HeardAnnounce(n: Node, hash: Hash, a: Announce, handle: nat, at: nat, uptimeMs: nat)
    ensures var r := ReceiveAnnounce(n, hash, a, handle, at, uptimeMs);
            HasHeard(r, hash, a) && a.base.header.sender in r.peers && r.peers[a.base.header.sender].name == a.name
  {
    hide PacketKey, Updated, Insert;
  }

  /** When an announce arrives anywhere, the node there has its key afterwards, and its sender as a peer under the
      name it came with. */
  lemma AnnounceDelivers(net: Net, hash: Hash, links: Links, w: Wire, at: nat, uptimeMs: nat)
    requires CanStep(net, links, Deliver(w, at, uptimeMs)) && Receive(w.bytes, 0).GotAnnounce?
    ensures var n := After(net, hash, links, Deliver(w, at, uptimeMs)).nodes[links(End(w.from, w.via)).node];
            var a := Receive(w.bytes, 0).announce;
            && HasHeard(n, hash, a)
            && a.base.header.sender in n.peers && n.peers[a.base.header.sender].name == a.name
  {
    hide Receive, PacketKey, Updated, Insert, Emitted, ReceiveAnnounce;
    var i, handle := NodeOf(links, Deliver(w, at, uptimeMs)), links(End(w.from, w.via)).handle;
    HeardAnnounce(net.nodes[i], hash, Receive(w.bytes, 0).announce, handle, at, uptimeMs);
  }

  /** So an announce that a node sent and that has been delivered is known to the node it was sent to in every later
      state. */
  lemma SentAnnounceIsKnown(nets: seq<Net>, hash: Hash, links: Links, steps: seq<Step>, j: nat, k: nat, l: nat,
                            i: nat, key: nat, h: nat)
    requires Trace(nets, hash, links, steps) && Starting(nets[0]) && j < k < l <= |steps| && steps[j] == SendFrom(i)
    requires i < |nets[j].nodes| && Sends(nets[j].nodes[i], key, h)
    requires key in nets[j].nodes[i].heap && !nets[j].nodes[i].heap[key].MessagePacket?
    requires steps[k].Deliver? && steps[k].wire == Wire(i, h, nets[j].nodes[i].heap[key].Print())
    ensures var hearer := links(End(i, h)).node;
            hearer < |nets[l].nodes| && HasHeard(nets[l].nodes[hearer], hash, HeardAt(nets[j].nodes[i], key))
  {
    hide Honest, Starting, After, Receive, PacketKey, Grows, Sends, Packet.Print;
    StartIsHonest(nets[0], hash);
    TraceStaysHonest(nets, hash, links, steps, j);
    assert Follows(nets[j], hash, links, steps[j], nets[j + 1]) && Follows(nets[k], hash, links, steps[k], nets[k + 1]);
    AnnounceEmits(nets[j], hash, links, i, key, h);
    AnnounceDelivers(nets[k], hash, links, steps[k].wire, steps[k].at, steps[k].uptimeMs);
    TraceStaysHonest(nets, hash, links, steps, k);
    TraceGrows(nets, hash, links, steps, k + 1, l, links(End(i, h)).node);
    HeardGrows(nets[k + 1].nodes[links(End(i, h)).node], nets[l].nodes[links(End(i, h)).node], hash,
               HeardAt(nets[j].nodes[i], key));
  }

  lemma HeardGrows(n: Node, r: Node, hash: Hash, a: Announce)
    requires Grows(n, r) && HasHeard(n, hash, a)
    ensures HasHeard(r, hash, a)
  {}
}
