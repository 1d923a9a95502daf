/** Which packets a node can print, and how one that it cannot gets listed. */
module RelayPrints {
  import opened Binary
  import opened Multimap
  import opened Packets
  import opened Relay
  import opened RelayInvariants
  import opened RelayRuns

  /** No received message has a peer, so one whose flag announces a peer cannot be printed again. */
  lemma ReceivedPrintable(b: Bytes, offset: nat)
    requires |b| <= MAX_BUFFER && Receive(b, offset).GotMessage?
    ensures Printable(Receive(b, offset).message) <==> !Receive(b, offset).message.HasSenderPeer()
  {
    hide ReadUint, ParseMessage, ParseAnnounce;
  }

  /** The bytes are received as the packet: a message with its strings as long as their lengths go, an announce of
      the store without a name, a node's own announce with its name. */
  ghost predicate ArrivesAs(b: Bytes, p: Packet) {
    match p
    case MessagePacket(m) =>
      m.header.packetType == TYPE_MESSAGE && |b| <= MAX_BUFFER ==> Receive(b, 0) == GotMessage(NormalMessage(m))
    case PassAlongPacket(q) =>
      q.header.packetType == TYPE_ANNOUNCE && !q.hasPayload ==>
        |b| <= MAX_BUFFER && Receive(b, 0) == GotAnnounce(NormalAnnounce(Announce(q, [])))
    case AnnouncePacket(a) =>
      a.base.header.packetType == TYPE_ANNOUNCE && !a.base.hasPayload ==>
        |b| <= MAX_BUFFER && Receive(b, 0) == GotAnnounce(NormalAnnounce(a))
  }

  /** Whatever is printed arrives as what it was. */
  lemma PrintArrives(p: Packet)
    requires p.CanPrint()
    ensures ArrivesAs(p.Print(), p)
  {
    hide Receive, PrintMessage, PrintPassAlong, PrintAnnounce, NormalHeader;
    match p
    case MessagePacket(m) =>
      if m.header.packetType == TYPE_MESSAGE && |PrintMessage(m)| <= MAX_BUFFER {
        assert At(PrintMessage(m), 0, PrintMessage(m));
        MessageRoundTrip(PrintMessage(m), 0, m);
      }
    case PassAlongPacket(q) =>
      if q.header.packetType == TYPE_ANNOUNCE && !q.hasPayload {
        RelayedAnnounceRoundTrip(q);
      }
    case AnnouncePacket(a) =>
      if a.base.header.packetType == TYPE_ANNOUNCE && !a.base.hasPayload {
        AnnounceSize(a);
        assert At(PrintAnnounce(a), 0, PrintAnnounce(a));
        AnnounceRoundTrip(PrintAnnounce(a), 0, a);
      }
  }

  /** What a neighbour prints of a message with its flag and its peer set, any node that does not have the message
      stores and lists, and cannot print. */
  lemma PeerMessageIsListed(n: Node, hash: Hash, m: Message, handle: nat, at: nat, uptimeMs: nat)
    requires m.header.packetType == TYPE_MESSAGE && m.HasSenderPeer() && Printable(m) && |PrintMessage(m)| <= MAX_BUFFER
    requires m.header.ttl > 0 && Cut(m.id, 1) !in n.messages && at !in n.heap
    ensures var r := ProcessWrite(n, hash, PrintMessage(m), 0, handle, at, uptimeMs);
            r.broadcast == n.broadcast + [at] && at in r.heap && !r.heap[at].CanPrint()
  {
    hide Receive, PrintMessage, ProcessWrite, Insert;
    assert At(PrintMessage(m), 0, PrintMessage(m));
    MessageRoundTrip(PrintMessage(m), 0, m);
    WriteEffect(n, hash, PrintMessage(m), 0, handle, at, uptimeMs);
  }

  /** Everything listed can be printed, only the announce is targeted. */
  ghost predicate Ready(n: Node) {
    && HasAnnounce(n)
    && (forall k | k in n.broadcast :: k in n.heap && n.heap[k].CanPrint())
    && (forall e | e in n.targeted :: e.key == n.announceKey)
  }

  /** What is sent is listed before, so a ready node can print all that its next call to send sends. */
  lemma ReadyPrints(n: Node)
    requires Ready(n)
    ensures forall e | e in AfterBroadcast(n).sent[|n.sent|..] :: e.key in n.heap && n.heap[e.key].CanPrint()
  {
    hide TargetedPass, BroadcastPass, AvailableHandles;
    var s, t, b := Sending(n.ledger, n.sent), AfterTargeted(n), AfterBroadcast(n);
    SendAddsNewPairs(n);
    ExtendsFurther(s, t, b);
    forall e | e in b.sent[|n.sent|..]
      ensures e.key in n.heap && n.heap[e.key].CanPrint()
    {
      JoinMembers(t.sent[|n.sent|..], b.sent[|t.sent|..], e);
    }
  }

  /** The step brings or makes a new message that is listed and has the flag but no peer. */
  ghost predicate Jams(n: Node, op: Op)
    requires Enabled(n, op)
  {
    match op
    case Write(b, offset, _, _, _) =>
      && Receive(b, offset).GotMessage?
      && var m := Receive(b, offset).message; m.id !in n.messages && m.header.ttl > 0 && m.HasSenderPeer()
    case Own(m, _) => m.id !in n.messages && m.header.ttl > 0 && !Printable(m)
    case _ => false
  }

  lemma AddsReady(n: Node, hash: Hash, r: Node, at: nat, p: Packet, from: Option<nat>)
    requires Ready(n) && Adds(n, hash, r, at, p, from)
    ensures Ready(r) <==> p.Header().ttl == 0 || p.CanPrint()
  {
    hide Insert, PacketKey, Printable;
    if p.Header().ttl > 0 {
      assert at in r.broadcast;
    }
    forall k | k in n.broadcast
      ensures k in r.heap && r.heap[k].CanPrint()
    {}
    JoinMembers(n.broadcast, [at], at);
  }

  lemma WriteReady(n: Node, hash: Hash, b: Bytes, offset: nat, handle: nat, at: nat, uptimeMs: nat)
    requires Ready(n) && Enabled(n, Write(b, offset, handle, at, uptimeMs))
    ensures Ready(ProcessWrite(n, hash, b, offset, handle, at, uptimeMs))
            <==> !Jams(n, Write(b, offset, handle, at, uptimeMs))
  {
    hide ProcessWrite, Receive, PacketKey, Adds;
    WriteEffect(n, hash, b, offset, handle, at, uptimeMs);
    var r := ProcessWrite(n, hash, b, offset, handle, at, uptimeMs);
    match Receive(b, offset)
    case Ignored =>
    case GotMessage(m) =>
      ReceivedPrintable(b, offset);
      if m.id !in n.messages {
        AddsReady(n, hash, r, at, MessagePacket(m), Some(handle));
      }
    case GotAnnounce(a) =>
      if PacketKey(hash, a.base) !in n.packets {
        AddsReady(n, hash, r, at, PassAlongPacket(a.base), Some(handle));
      }
  }

  lemma SendReady(n: Node)
    requires Ready(n)
    ensures Ready(SendPackets(n))
  {
    hide AfterTargeted, AfterBroadcast, Packet.CanPrint;
  }

  lemma CleanReady(n: Node, garbage: nat -> U64, uptimeMs: nat)
    requires Ready(n)
    ensures Ready(Cleanup(n, garbage, uptimeMs))
  {
    hide Packet.CanPrint, PairStays, FreshKeys, FreshConnections;
  }

  lemma StepReady(n: Node, hash: Hash, op: Op)
    requires Ready(n) && Enabled(n, op)
    ensures Ready(Apply(n, hash, op)) <==> !Jams(n, op)
  {
    hide ProcessWrite, Originate, AnnounceToConnections, SendPackets, Cleanup, Receive;
    match op
    case Write(b, offset, handle, at, uptimeMs) => WriteReady(n, hash, b, offset, handle, at, uptimeMs);
    case Own(m, at) =>
      OwnEffect(n, hash, m, at);
      if m.id !in n.messages {
        AddsReady(n, hash, Originate(n, m, at), at, MessagePacket(m), None);
      }
    case Announcing(uptimeMs, sender, name) => AnnounceEffect(n, uptimeMs, sender, name);
    case Send => SendReady(n);
    case Connect(handle, connection) =>
    case Disconnect(handle) =>
    case Clean(garbage, uptimeMs) => CleanReady(n, garbage, uptimeMs);
  }

  /** Every state of the run is ready. */
  ghost predicate StaysReady(n: Node, hash: Hash, ops: seq<Op>)
    decreases |ops|
  {
    Ready(n) && (ops == [] || (Enabled(n, ops[0]) ==> StaysReady(Apply(n, hash, ops[0]), hash, ops[1..])))
  }

  ghost predicate NoneJams(n: Node, hash: Hash, ops: seq<Op>)
    decreases |ops|
  {
    || ops == [] || !HasAnnounce(n) || !Enabled(n, ops[0])
    || (!Jams(n, ops[0]) && NoneJams(Apply(n, hash, ops[0]), hash, ops[1..]))
  }

  /** Over every run, cleanups included, everything listed can be printed in every state if and only if no step
      brings or makes a new message that is listed and has the flag but no peer. */
  lemma {:induction false} StaysReadyIff(n: Node, hash: Hash, ops: seq<Op>, r: Node)
    requires Ready(n) && Runs(n, hash, ops, r)
    ensures StaysReady(n, hash, ops) <==> NoneJams(n, hash, ops)
    decreases |ops|
  {
    hide Ready, Apply, Enabled, Jams, HasAnnounce;
    if ops != [] {
      ReadyHasAnnounce(n);
      StepReady(n, hash, ops[0]);
      if Ready(Apply(n, hash, ops[0])) {
        StaysReadyIff(Apply(n, hash, ops[0]), hash, ops[1..], r);
      }
    }
  }

  lemma ReadyHasAnnounce(n: Node)
    requires Ready(n)
    ensures HasAnnounce(n)
  {}
}
