/** How announces travel: a node's own, sent once to each connection, and other nodes', relayed once. */
module RelayAnnounces {
  import opened Binary
  import opened Clock
  import opened Multimap
  import opened Packets
  import opened Relay
  import opened RelayInvariants
  import opened RelayRuns

  /** Announcing any number of times queues the announce for the connections that were due one at the start. */
  lemma {:induction false} RoundsEffect(n: Node, hash: Hash, ops: seq<Op>, m: Node)
    requires HasAnnounce(n) && Runs(n, hash, ops, m) && forall op | op in ops :: op.Announcing?
    ensures m == n.(heap := m.heap, targeted := m.targeted) && HasAnnounce(m)
    ensures forall e :: e in m.targeted <==>
                        e in n.targeted || (ops != [] && e.key == n.announceKey && Announceable(n, e.value))
    decreases |ops|
  {
    hide AnnounceToConnections;
    if ops != [] {
      assert ops[0] in ops && forall op | op in ops[1..] :: op in ops;
      AnnounceEffect(n, ops[0].uptimeMs, ops[0].sender, ops[0].name);
      var n1 := Apply(n, hash, ops[0]);
      RoundsEffect(n1, hash, ops[1..], m);
      assert forall h: nat :: Announceable(n1, h) <==> Announceable(n, h);
    }
  }

  /** With only announces targeted, and however often the node announced itself meanwhile, one call to send gives
      each connection that was due an announce exactly one, leaves nothing targeted, and leaves nobody due:
      announcing again then queues nothing. */
  lemma AnnouncedExactlyOnce(n: Node, hash: Hash, ops: seq<Op>, m: Node, uptimeMs: nat, sender: U64, name: Bytes)
    requires WellFormed(n, hash) && Referenced(n) && Tidy(n) && forall e | e in n.targeted :: e.key == n.announceKey
    requires ops != [] && Runs(n, hash, ops, m) && forall op | op in ops :: op.Announcing?
    ensures var p := SendPackets(m);
            && n.sent <= p.sent && NoRepeats(p.sent)
            && (forall h: nat :: Entry(n.announceKey, h) in p.sent[|n.sent|..] <==>
                            Announceable(n, h) || Entry(n.announceKey, h) in n.targeted)
            && HasAnnounce(p) && p.targeted == []
            && AnnounceToConnections(p, uptimeMs, sender, name).targeted == []
  {
    hide WellFormed, AnnounceToConnections, SendPackets, Runs, Announceable;
    AnnounceKeyIsThere(n, hash);
    RoundsEffect(n, hash, ops, m);
    RunSendsEachPairOnce(n, hash, ops, m);
    var p := SendPackets(m);
    TidyAfterSend(m);
    SendGivesAnnounces(m);
    SendChangesLists(m);
    SendKeepsHeap(m);
    AnnounceEffect(p, uptimeMs, sender, name);
    forall h: nat
      ensures !Announceable(p, h)
    {
      StillDue(n, p, h);
      if Announceable(n, h) {
        assert Entry(n.announceKey, h) in m.targeted;
      }
    }
    EmptyOrNot(AnnounceToConnections(p, uptimeMs, sender, name).targeted);
  }

  /** A connection that went away and came back under its handle is due the announce exactly when it would be
      as a new one and the ledger does not have it: having been given it before counts. */
  lemma AnnouncedAfterReconnect(n: Node, hash: Hash, handle: nat, connection: Connection)
    requires HasAnnounce(n)
    ensures Announceable(Apply(Apply(n, hash, Disconnect(handle)), hash, Connect(handle, connection)), handle)
            <==> connection.Available() && n.offset >= BUILD_TIME_MS && Entry(n.announceKey, handle) !in n.ledger
  {}

  lemma SendKeepsHeap(n: Node)
    requires HasAnnounce(n)
    ensures HasAnnounce(SendPackets(n))
  {}

  /** Due later, due before and not in the ledger since. */
  lemma StillDue(n: Node, p: Node, h: nat)
    requires p.connections == n.connections && p.offset == n.offset && p.announceKey == n.announceKey
    ensures Announceable(p, h) ==> Entry(n.announceKey, h) !in p.ledger
    ensures Announceable(p, h) && Entry(n.announceKey, h) !in n.ledger ==> Announceable(n, h)
  {}

  lemma SendGivesAnnounces(n: Node)
    requires Referenced(n) && Tidy(n)
    ensures var p := SendPackets(n);
            && n.sent <= p.sent && (forall e | e in n.ledger || e in n.targeted :: e in p.ledger)
            && forall h: nat :: Entry(n.announceKey, h) in p.sent[|n.sent|..] <==> Entry(n.announceKey, h) in n.targeted
  {
    hide TargetedPass, BroadcastPass, AvailableHandles, Keep;
    var s, t, b := Sending(n.ledger, n.sent), AfterTargeted(n), AfterBroadcast(n);
    SendAddsNewPairs(n);
    ExtendsFurther(s, t, b);
    forall h: nat
      ensures Entry(n.announceKey, h) in b.sent[|n.sent|..] <==> Entry(n.announceKey, h) in n.targeted
    {
      var e := Entry(n.announceKey, h);
      JoinMembers(t.sent[|n.sent|..], b.sent[|t.sent|..], e);
    }
  }

  lemma EmptyOrNot<T>(s: seq<T>)
    ensures s == [] || exists e :: e in s
  {
    if s != [] {
      assert s[0] in s;
    }
  }

  /** An announce that differs at most in TTL and name from one whose packet is still stored is not stored or
      listed again, and its name, even an empty one, becomes the peer's. */
  lemma KnownAnnounceStops(n: Node, hash: Hash, p: PassAlong, b: Bytes, offset: nat, handle: nat,
                           at: nat, uptimeMs: nat)
    requires |b| <= MAX_BUFFER && at !in n.heap && Receive(b, offset).GotAnnounce?
    requires PacketKey(hash, p) in n.packets
    requires var q := Receive(b, offset).announce.base;
             q.payload == p.payload && q.header.(ttl := 0) == p.header.(ttl := 0)
    ensures var r := ProcessWrite(n, hash, b, offset, handle, at, uptimeMs);
            && Untouched(n, r) && p.header.sender in r.peers
            && r.peers[p.header.sender].name == Receive(b, offset).announce.name
  {
    hide Receive, Meta, ReceiveAnnounce, Untouched;
    var a := Receive(b, offset).announce;
    MetaIgnoresOnlyTtl(p.header, a.base.header);
    KnownIsNamed(n, hash, a, handle, at, uptimeMs);
  }

  lemma KnownIsNamed(n: Node, hash: Hash, a: Announce, handle: nat, at: nat, uptimeMs: nat)
    requires PacketKey(hash, a.base) in n.packets
    ensures var r := ReceiveAnnounce(n, hash, a, handle, at, uptimeMs);
            Untouched(n, r) && a.base.header.sender in r.peers && r.peers[a.base.header.sender].name == a.name
  {
    hide PacketKey, Updated;
  }

  /** What any node relays of an announce is 20 bytes, or 28 with a recipient; wherever the announce is still
      stored it stops there, whatever its TTL has become, and takes the peer's name away. */
  lemma RelayedAnnounceStops(n: Node, hash: Hash, p: PassAlong, ttl: Byte, handle: nat, at: nat, uptimeMs: nat)
    requires p.header.packetType == TYPE_ANNOUNCE && p.header == NormalHeader(p.header)
    requires !p.hasPayload && p.payload == []
    requires PacketKey(hash, p) in n.packets && at !in n.heap
    ensures var b := PrintPassAlong(p.(header := p.header.(ttl := ttl)));
            && |b| == (if p.header.HasRecipient() then 28 else 20)
            && var r := ProcessWrite(n, hash, b, 0, handle, at, uptimeMs);
               Untouched(n, r) && p.header.sender in r.peers && r.peers[p.header.sender].name == []
  {
    hide Receive, ProcessWrite, PacketKey, PrintPassAlong;
    var q := p.(header := p.header.(ttl := ttl));
    RelayedAnnounceRoundTrip(q);
    assert NormalHeader(q.header) == q.header;
    KnownAnnounceStops(n, hash, p, PrintPassAlong(q), 0, handle, at, uptimeMs);
  }

  /** What an announcing makes of the node's announce: unless its TTL is three already it gets that TTL, no flags, the
      sender and the name; its time is the present one if anyone is due it. Nothing else of it changes. */
  lemma AnnounceContents(n: Node, uptimeMs: nat, sender: U64, name: Bytes)
    requires HasAnnounce(n)
    ensures var a := n.heap[n.announceKey].announce;
            var b := AnnounceToConnections(n, uptimeMs, sender, name).heap[n.announceKey].announce;
            var due := exists h :: Announceable(n, h);
            && b.base == a.base.(header := b.base.header)
            && b.base.header.packetType == a.base.header.packetType
            && b.base.header.recipient == a.base.header.recipient
            && b.base.header.ttl == 3
            && b.base.header.timestamp
               == (if due then (n.offset + uptimeMs) % 0x1_0000_0000_0000_0000 else a.base.header.timestamp)
            && (a.base.header.ttl == 3 ==>
                  b.name == a.name && b.base.header.sender == a.base.header.sender
                  && b.base.header.flags == a.base.header.flags)
            && (a.base.header.ttl != 3 ==>
                  b.name == name && b.base.header.sender == sender && b.base.header.flags == 0)
  {
    hide AnnounceTo, Keep, AvailableHandles, Announceable;
    var n1 := n.(heap := n.heap[n.announceKey := AnnouncePacket(
                SetupAnnounce(n.heap[n.announceKey].announce, sender, name))]);
    var handles := Keep(AvailableHandles(n.connections), (h: nat) =>
      n.offset >= BUILD_TIME_MS && Entry(n.announceKey, h) !in n.ledger);
    StampedOnly(n1, handles, uptimeMs);
    assert forall h :: h in handles <==> Announceable(n, h) by {
      DueAre(n);
    }
    EmptyOrNot(handles);
  }

  lemma DueAre(n: Node)
    ensures forall h: nat :: Announceable(n, h)
                       <==> h in AvailableHandles(n.connections)
                            && n.offset >= BUILD_TIME_MS && Entry(n.announceKey, h) !in n.ledger
  {}

  lemma {:induction false} StampedOnly(n: Node, handles: seq<nat>, uptimeMs: nat)
    requires HasAnnounce(n)
    ensures var a := n.heap[n.announceKey].announce;
            var now := a.(base := a.base.(header := a.base.header.(timestamp := Now(n.offset, uptimeMs))));
            AnnounceTo(n, handles, uptimeMs).heap[n.announceKey] == AnnouncePacket(if handles == [] then a else now)
    decreases |handles|
  {
    hide AnnounceToOne;
    if handles != [] {
      StampedOne(n, handles[0], uptimeMs);
      StampedOnly(AnnounceToOne(n, handles[0], uptimeMs), handles[1..], uptimeMs);
    }
  }

  lemma StampedOne(n: Node, handle: nat, uptimeMs: nat)
    requires HasAnnounce(n)
    ensures var a, r := n.heap[n.announceKey].announce, AnnounceToOne(n, handle, uptimeMs);
            var now := a.(base := a.base.(header := a.base.header.(timestamp := Now(n.offset, uptimeMs))));
            r.offset == n.offset && r.heap[n.announceKey] == AnnouncePacket(now)
  {
    hide Insert;
  }

  // ---- peers ----

  /** What a received announce makes of its sender: a peer under the announce's name; if its TTL is no lower than any
      before, that TTL is the highest now and the connection is the peer's. Other peers stay as they are. */
  lemma AnnounceNamesPeer(n: Node, hash: Hash, b: Bytes, offset: nat, handle: nat, at: nat, uptimeMs: nat)
    requires |b| <= MAX_BUFFER && Receive(b, offset).GotAnnounce?
    ensures var a, r := Receive(b, offset).announce, ProcessWrite(n, hash, b, offset, handle, at, uptimeMs);
            var s, ttl := a.base.header.sender, a.base.header.ttl;
            var peer := if s in n.peers then n.peers[s] else Peer(s, [], 0);
            && r.peers == n.peers[s := Peer(peer.id, a.name, if ttl >= peer.maxTtl then ttl else peer.maxTtl)]
            && r.handlePeers == if ttl >= peer.maxTtl then n.handlePeers[handle := s] else n.handlePeers
  {
    hide Receive, NamePeer, ReceiveAnnounce;
    HeardNames(n, hash, Receive(b, offset).announce, handle, at, uptimeMs);
    NamedInFields(n, Receive(b, offset).announce, handle);
  }

  lemma HeardNames(n: Node, hash: Hash, a: Announce, handle: nat, at: nat, uptimeMs: nat)
    ensures var r, m := ReceiveAnnounce(n, hash, a, handle, at, uptimeMs), NamePeer(n, a, handle);
            r.peers == m.peers && r.handlePeers == m.handlePeers
  {
    hide PacketKey, Updated, Insert, NamePeer;
  }

  lemma NamedInFields(n: Node, a: Announce, handle: nat)
    ensures var r, s, ttl := NamePeer(n, a, handle), a.base.header.sender, a.base.header.ttl;
            var peer := if s in n.peers then n.peers[s] else Peer(s, [], 0);
            && r.peers == n.peers[s := Peer(peer.id, a.name, if ttl >= peer.maxTtl then ttl else peer.maxTtl)]
            && r.handlePeers == if ttl >= peer.maxTtl then n.handlePeers[handle := s] else n.handlePeers
  {}

  /** A new message makes its sender a peer, if it is not one yet, and moves none. */
  lemma MessageMakesPeer(n: Node, hash: Hash, b: Bytes, offset: nat, handle: nat, at: nat, uptimeMs: nat)
    requires |b| <= MAX_BUFFER && Receive(b, offset).GotMessage?
    ensures var m, r := Receive(b, offset).message, ProcessWrite(n, hash, b, offset, handle, at, uptimeMs);
            var s := m.header.sender;
            && r.handlePeers == n.handlePeers
            && r.peers == if m.id in n.messages || s in n.peers then n.peers else n.peers[s := Peer(s, [], 0)]
  {
    hide Receive, Insert;
  }

  /** A disconnected connection is there, is not available, and is no peer's; everything else stays. */
  lemma DisconnectEffect(n: Node, handle: nat)
    ensures var r := Disconnected(n, handle);
            && r == n.(connections := r.connections, handlePeers := r.handlePeers)
            && handle in r.connections && !r.connections[handle].connected && handle !in r.handlePeers
            && handle !in AvailableHandles(r.connections)
            && (handle in n.connections ==> r.connections[handle] == n.connections[handle].(connected := false))
            && (forall h | h != handle ::
                  && (h in r.connections <==> h in n.connections)
                  && (h in n.connections ==> r.connections[h] == n.connections[h])
                  && (h in r.handlePeers <==> h in n.handlePeers)
                  && (h in n.handlePeers ==> r.handlePeers[h] == n.handlePeers[h]))
  {}

  // ---- announces that are new ----

  /** The hash tells the two headers apart, as far as the key looks at it. */
  ghost predicate Separates(hash: Hash, g: Header, h: Header) {
    BelowTop(hash(Meta(g))) == BelowTop(hash(Meta(h))) ==> g.(ttl := 0) == h.(ttl := 0)
  }

  /** An announce is stored, and listed if it may travel, exactly when its header differs, beyond the TTL, from that
      of every announce that is stored: for every hash that tells it from those. */
  lemma NewAnnounceIsKept(n: Node, hash: Hash, b: Bytes, offset: nat, handle: nat, at: nat, uptimeMs: nat)
    requires WellFormed(n, hash) && |b| <= MAX_BUFFER && at !in n.heap && Receive(b, offset).GotAnnounce?
    requires forall k | k in n.heap && n.heap[k].PassAlongPacket? ::
               && n.heap[k].passAlong.payload == Receive(b, offset).announce.base.payload
               && Separates(hash, n.heap[k].passAlong.header, Receive(b, offset).announce.base.header)
    ensures var a, r := Receive(b, offset).announce.base, ProcessWrite(n, hash, b, offset, handle, at, uptimeMs);
            if (forall k | k in n.heap && n.heap[k].PassAlongPacket? ::
                  n.heap[k].passAlong.header.(ttl := 0) != a.header.(ttl := 0)) then
              Adds(n, hash, r, at, PassAlongPacket(a), Some(handle))
            else
              Untouched(n, r)
  {
    hide Receive, ProcessWrite, PacketKey, Meta, Adds, Untouched, BelowTop;
    var a := Receive(b, offset).announce.base;
    WriteEffect(n, hash, b, offset, handle, at, uptimeMs);
    if PacketKey(hash, a) in n.packets {
      var q := n.heap[n.packets[PacketKey(hash, a)]].passAlong;
      KeysEqualIff(hash, q, a);
    }
    if k :| k in n.heap && n.heap[k].PassAlongPacket? && n.heap[k].passAlong.header.(ttl := 0) == a.header.(ttl := 0) {
      assert Stored(n, hash, k);
      var q := n.heap[k].passAlong;
      MetaIgnoresOnlyTtl(q.header, a.header);
      KeysEqualIff(hash, q, a);
    }
  }

  // ---- announces and the clock ----

  /** A node that hears an announce compares its clock with a thousandth of the announce's time, and sets it to
      that when it is behind it or more than the timeout ahead of it. */
  lemma AnnounceSetsClock(n: Node, hash: Hash, b: Bytes, offset: nat, handle: nat, at: nat, uptimeMs: nat)
    requires |b| <= MAX_BUFFER && Receive(b, offset).GotAnnounce? && Now(n.offset, uptimeMs) <= 2 * MAX_MS
    ensures var now, heard := Now(n.offset, uptimeMs), Receive(b, offset).announce.base.header.timestamp / 1000;
            Now(ProcessWrite(n, hash, b, offset, handle, at, uptimeMs).offset, uptimeMs)
            == if now < heard || heard + MESSAGE_TIMEOUT < now then heard else now
  {
    hide Receive, PacketKey, Now, Updated;
    UpdateSets(n.offset, uptimeMs, Receive(b, offset).announce.base.header.TimestampMs());
  }

  /** A node stamps its own announce in milliseconds, so that the clock of whoever hears it goes by a thousandth
      of the announcer's. */
  lemma OwnAnnounceSetsClock(n: Node, uptimeMs: nat, sender: U64, name: Bytes, b: Bytes,
                             hearer: Node, hash: Hash, handle: nat, at: nat, hearerUptimeMs: nat)
    requires HasAnnounce(n) && exists h :: Announceable(n, h)
    requires var a := n.heap[n.announceKey].announce.base; a.header.packetType == TYPE_ANNOUNCE && !a.hasPayload
    requires b == PrintAnnounce(AnnounceToConnections(n, uptimeMs, sender, name).heap[n.announceKey].announce)
    requires Now(hearer.offset, hearerUptimeMs) <= 2 * MAX_MS
    ensures |b| <= MAX_BUFFER
    ensures var now, heard := Now(hearer.offset, hearerUptimeMs), Now(n.offset, uptimeMs) / 1000;
            Now(ProcessWrite(hearer, hash, b, 0, handle, at, hearerUptimeMs).offset, hearerUptimeMs)
            == if now < heard || heard + MESSAGE_TIMEOUT < now then heard else now
  {
    hide AnnounceToConnections, ProcessWrite, Receive, PrintAnnounce, Announceable, Now;
    AnnounceEffect(n, uptimeMs, sender, name);
    var a := AnnounceToConnections(n, uptimeMs, sender, name).heap[n.announceKey].announce;
    AnnounceSize(a);
    assert At(b, 0, b);
    AnnounceRoundTrip(b, 0, a);
    AnnounceSetsClock(hearer, hash, b, 0, handle, at, hearerUptimeMs);
  }
}
