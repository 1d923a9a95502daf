/** What every run of a node keeps, and what its trace of sends can look like. */
module RelayRuns {
  import opened Binary
  import opened Clock
  import opened Multimap
  import opened Packets
  import opened Relay
  import opened RelayInvariants

  // ---- the effect of one step ----

  /** The node is the same but for what it knows of peers and of the time. */
  ghost predicate Untouched(n: Node, r: Node) {
    r.(peers := n.peers, handlePeers := n.handlePeers, offset := n.offset) == n
  }

  /** One new object, listed if it may travel, with or without an entry for where it came from. */
  ghost predicate Adds(n: Node, hash: Hash, r: Node, at: nat, p: Packet, from: Option<nat>) {
    && at !in n.heap && r.heap == n.heap[at := p]
    && r.broadcast == n.broadcast + (if p.Header().ttl > 0 then [at] else [])
    && r.ledger == (if from.Some? then Insert(n.ledger, at, from.value) else n.ledger)
    && r.targeted == n.targeted && r.sent == n.sent && r.connections == n.connections && r.announceKey == n.announceKey
    && match p
       case MessagePacket(m) => m.id !in n.messages && r.messages == n.messages[m.id := at] && r.packets == n.packets
       case PassAlongPacket(a) =>
         && r.messages == n.messages
         && PacketKey(hash, a) !in n.packets && r.packets == n.packets[PacketKey(hash, a) := at]
       case AnnouncePacket(_) => false
  }

  /** Received bytes are ignored, or known already, or stored once with an entry for the sender's connection. */
  lemma WriteEffect(n: Node, hash: Hash, b: Bytes, offset: nat, handle: nat, at: nat, uptimeMs: nat)
    requires |b| <= MAX_BUFFER && at !in n.heap
    ensures var r := ProcessWrite(n, hash, b, offset, handle, at, uptimeMs);
            match Receive(b, offset)
            case Ignored => r == n
            case GotMessage(m) =>
              if m.id in n.messages then r == n else Adds(n, hash, r, at, MessagePacket(m), Some(handle))
            case GotAnnounce(a) =>
              var key := PacketKey(hash, a.base);
              if key in n.packets then Untouched(n, r)
              else Adds(n, hash, r, at, PassAlongPacket(a.base), Some(handle))
  {
    hide Receive, Adds, Untouched, ReceiveMessage, ReceiveAnnounce;
    match Receive(b, offset)
    case Ignored =>
    case GotMessage(m) => MessageEffect(n, hash, m, handle, at);
    case GotAnnounce(a) => HeardEffect(n, hash, a, handle, at, uptimeMs);
  }

  lemma MessageEffect(n: Node, hash: Hash, m: Message, handle: nat, at: nat)
    requires at !in n.heap
    ensures var r := ReceiveMessage(n, m, handle, at);
            if m.id in n.messages then r == n else Adds(n, hash, r, at, MessagePacket(m), Some(handle))
  {
    hide Insert;
    assert n.broadcast + [] == n.broadcast;
  }

  lemma HeardEffect(n: Node, hash: Hash, a: Announce, handle: nat, at: nat, uptimeMs: nat)
    requires at !in n.heap
    ensures var r, key := ReceiveAnnounce(n, hash, a, handle, at, uptimeMs), PacketKey(hash, a.base);
            if key in n.packets then Untouched(n, r)
            else Adds(n, hash, r, at, PassAlongPacket(a.base), Some(handle))
  {
    hide Insert, PacketKey, Updated, NamePeer;
    assert n.broadcast + [] == n.broadcast;
  }

  lemma OwnEffect(n: Node, hash: Hash, m: Message, at: nat)
    requires at !in n.heap
    ensures var r := Originate(n, m, at);
            if m.id in n.messages then r == n else Adds(n, hash, r, at, MessagePacket(m), None)
  {
    assert n.broadcast + [] == n.broadcast;
  }

  // ---- announcing ----

  /** Handles the announce is queued for: each gets a pair, whether or not it has one already. */
  ghost predicate Announced(n: Node, r: Node, handles: seq<nat>) {
    && r == n.(heap := r.heap, targeted := r.targeted)
    && HasAnnounce(r) && r.heap == n.heap[n.announceKey := r.heap[n.announceKey]]
    && (Sorted(n.targeted) ==> Sorted(r.targeted))
    && forall e :: e in r.targeted <==> e in n.targeted || (e.key == n.announceKey && e.value in handles)
  }

  /** The announce is still a packet of the same type, with or without a payload. */
  ghost predicate SameKind(n: Node, r: Node)
    requires HasAnnounce(n)
  {
    && r.announceKey == n.announceKey && HasAnnounce(r)
    && var a, b := n.heap[n.announceKey].announce.base, r.heap[n.announceKey].announce.base;
       b.header.packetType == a.header.packetType && b.hasPayload == a.hasPayload
  }

  lemma {:induction false} AnnounceToEffect(n: Node, handles: seq<nat>, uptimeMs: nat)
    requires HasAnnounce(n) && n.heap[n.announceKey].Header().ttl == ANNOUNCE_TTL
    requires forall h | h in handles :: h in n.connections
    ensures Announced(n, AnnounceTo(n, handles, uptimeMs), handles)
    ensures AnnounceTo(n, handles, uptimeMs).heap[n.announceKey].Header().ttl == ANNOUNCE_TTL
    ensures SameKind(n, AnnounceTo(n, handles, uptimeMs))
    ensures handles != []
            ==> AnnounceTo(n, handles, uptimeMs).heap[n.announceKey].Header().timestamp == Now(n.offset, uptimeMs)
    decreases |handles|
  {
    hide Insert;
    if handles != [] {
      var n1 := AnnounceToOne(n, handles[0], uptimeMs);
      assert handles[0] in handles && forall h :: h in handles <==> h == handles[0] || h in handles[1..];
      InsertMembers(n.targeted, n.announceKey, handles[0]);
      if Sorted(n.targeted) {
        InsertSorted(n.targeted, n.announceKey, handles[0]);
      }
      AnnounceToEffect(n1, handles[1..], uptimeMs);
    } else {
      assert n.heap == n.heap[n.announceKey := n.heap[n.announceKey]];
    }
  }

  /** Announcing queues the announce for exactly the connections that are due one, and changes nothing else but
      the announce itself. */
  lemma AnnounceEffect(n: Node, uptimeMs: nat, sender: U64, name: Bytes)
    requires HasAnnounce(n)
    ensures var r := AnnounceToConnections(n, uptimeMs, sender, name);
            && r == n.(heap := r.heap, targeted := r.targeted)
            && HasAnnounce(r) && r.heap == n.heap[n.announceKey := r.heap[n.announceKey]]
            && r.heap[n.announceKey].Header().ttl == ANNOUNCE_TTL && SameKind(n, r)
            && ((exists h :: Announceable(n, h))
                ==> r.heap[n.announceKey].Header().timestamp == Now(n.offset, uptimeMs))
            && (Sorted(n.targeted) ==> Sorted(r.targeted))
            && forall e :: e in r.targeted <==> e in n.targeted || (e.key == n.announceKey && Announceable(n, e.value))
  {
    hide AnnounceTo;
    var a := SetupAnnounce(n.heap[n.announceKey].announce, sender, name);
    var n1 := n.(heap := n.heap[n.announceKey := AnnouncePacket(a)]);
    var handles := Keep(AvailableHandles(n.connections), (h: nat) =>
      n.offset >= BUILD_TIME_MS && Entry(n.announceKey, h) !in n.ledger);
    AnnounceToEffect(n1, handles, uptimeMs);
    assert n1.heap[n.announceKey := AnnounceTo(n1, handles, uptimeMs).heap[n.announceKey]]
           == n.heap[n.announceKey := AnnounceTo(n1, handles, uptimeMs).heap[n.announceKey]];
    assert forall h :: h in handles <==> Announceable(n, h);
  }

  // ---- what every step keeps ----

  lemma AddsKeeps(n: Node, r: Node, at: nat, p: Packet, from: Option<nat>, hash: Hash)
    requires WellFormed(n, hash) && Referenced(n) && Adds(n, hash, r, at, p, from)
    requires from.Some? ==> from.value in n.connections
    ensures WellFormed(r, hash) && Referenced(r)
    ensures Tidy(n) ==> Tidy(r)
  {
    hide PacketKey, Insert;
    if from.Some? {
      InsertSorted(n.ledger, at, from.value);
      InsertMembers(n.ledger, at, from.value);
    }
    AddsKeepsStores(n, r, at, p, from, hash);
  }

  lemma AddsKeepsStores(n: Node, r: Node, at: nat, p: Packet, from: Option<nat>, hash: Hash)
    requires WellFormed(n, hash) && Adds(n, hash, r, at, p, from)
    ensures WellFormed(r, hash)
  {
    hide PacketKey, Insert, Packet.Header, Stored;
    forall k | k in r.heap
      ensures Stored(r, hash, k)
    {
      assert k == at || Stored(n, hash, k);
      StoredStays(n, r, at, p, from, hash, k);
    }
  }

  lemma StoredStays(n: Node, r: Node, at: nat, p: Packet, from: Option<nat>, hash: Hash, k: nat)
    requires Adds(n, hash, r, at, p, from) && k in r.heap && (k != at ==> Stored(n, hash, k))
    ensures Stored(r, hash, k)
  {
    hide PacketKey, Insert, Packet.Header;
  }

  lemma WriteKeeps(n: Node, hash: Hash, b: Bytes, offset: nat, handle: nat, at: nat, uptimeMs: nat)
    requires WellFormed(n, hash) && Referenced(n) && |b| <= MAX_BUFFER && at !in n.heap && handle in n.connections
    ensures var r := ProcessWrite(n, hash, b, offset, handle, at, uptimeMs);
            WellFormed(r, hash) && Referenced(r) && (Tidy(n) ==> Tidy(r))
  {
    hide ProcessWrite, Receive, Adds, PacketKey;
    var r := ProcessWrite(n, hash, b, offset, handle, at, uptimeMs);
    WriteEffect(n, hash, b, offset, handle, at, uptimeMs);
    match Receive(b, offset)
    case Ignored =>
    case GotMessage(m) =>
      if m.id !in n.messages {
        AddsKeeps(n, r, at, MessagePacket(m), Some(handle), hash);
      }
    case GotAnnounce(a) =>
      if PacketKey(hash, a.base) !in n.packets {
        AddsKeeps(n, r, at, PassAlongPacket(a.base), Some(handle), hash);
      }
  }

  lemma OwnKeeps(n: Node, hash: Hash, m: Message, at: nat)
    requires WellFormed(n, hash) && Referenced(n) && at !in n.heap
    ensures var r := Originate(n, m, at);
            WellFormed(r, hash) && Referenced(r) && (Tidy(n) ==> Tidy(r))
  {
    hide Originate, Adds;
    OwnEffect(n, hash, m, at);
    if m.id !in n.messages {
      AddsKeeps(n, Originate(n, m, at), at, MessagePacket(m), None, hash);
    }
  }

  lemma AnnouncingKeeps(n: Node, hash: Hash, uptimeMs: nat, sender: U64, name: Bytes)
    requires WellFormed(n, hash) && Referenced(n)
    ensures var r := AnnounceToConnections(n, uptimeMs, sender, name);
            WellFormed(r, hash) && Referenced(r) && (Tidy(n) ==> Tidy(r))
  {
    hide AnnounceToConnections, PacketKey;
    AnnounceEffect(n, uptimeMs, sender, name);
    var r := AnnounceToConnections(n, uptimeMs, sender, name);
    forall k | k in r.heap
      ensures Stored(r, hash, k)
    {
      assert Stored(n, hash, k);
    }
  }

  /** A cleanup keeps every reference good; the pairs of a dropped connection go with it. */
  lemma CleanupKeeps(n: Node, hash: Hash, garbage: nat -> U64, uptimeMs: nat)
    requires WellFormed(n, hash) && Referenced(n)
    ensures WellFormed(Cleanup(n, garbage, uptimeMs), hash) && Referenced(Cleanup(n, garbage, uptimeMs))
  {
    CleanupKeepsStores(n, hash, garbage, uptimeMs);
    CleanupKeepsPairs(n, garbage, uptimeMs);
  }

  lemma CleanupKeepsStores(n: Node, hash: Hash, garbage: nat -> U64, uptimeMs: nat)
    requires WellFormed(n, hash)
    ensures WellFormed(Cleanup(n, garbage, uptimeMs), hash)
  {
    hide PacketKey, Keep, PairStale, Packet.Stale;
    var r := Cleanup(n, garbage, uptimeMs);
    forall k | k in r.heap
      ensures Stored(r, hash, k)
    {
      assert Stored(n, hash, k);
    }
  }

  lemma CleanupKeepsPairs(n: Node, garbage: nat -> U64, uptimeMs: nat)
    requires Referenced(n)
    ensures Referenced(Cleanup(n, garbage, uptimeMs))
  {
    hide Keep, Connection.Stale;
    var now := Now(n.offset, uptimeMs);
    KeepSorted(n.ledger, PairStays(n.heap, n.connections, garbage, now));
    KeepSorted(n.targeted, PairStays(n.heap, n.connections, garbage, now));
  }

  /** Every step keeps the stores and the references; every step but a cleanup keeps the trace in order. */
  lemma ApplyKeeps(n: Node, hash: Hash, op: Op)
    requires WellFormed(n, hash) && Referenced(n) && Enabled(n, op)
    ensures var r := Apply(n, hash, op);
            WellFormed(r, hash) && Referenced(r) && (Tidy(n) && !op.Clean? ==> Tidy(r))
  {
    hide ProcessWrite, Originate, AnnounceToConnections, SendPackets, Cleanup, WellFormed, Referenced, Tidy;
    AnnounceKeyIsThere(n, hash);
    match op
    case Write(b, offset, handle, at, uptimeMs) => WriteKeeps(n, hash, b, offset, handle, at, uptimeMs);
    case Own(m, at) => OwnKeeps(n, hash, m, at);
    case Announcing(uptimeMs, sender, name) => AnnouncingKeeps(n, hash, uptimeMs, sender, name);
    case Send =>
      SendKeepsStores(n, hash);
      SendKeepsReferences(n);
      if Tidy(n) {
        TidyAfterSend(n);
      }
    case Connect(handle, connection) =>
      ConnectionsKeep(n, n.(connections := n.connections[handle := connection]), hash);
    case Disconnect(handle) => ConnectionsKeep(n, Disconnected(n, handle), hash);
    case Clean(garbage, uptimeMs) => CleanupKeeps(n, hash, garbage, uptimeMs);
  }

  lemma ConnectionsKeep(n: Node, r: Node, hash: Hash)
    requires WellFormed(n, hash) && Referenced(n) && n.connections.Keys <= r.connections.Keys
    requires r == n.(connections := r.connections, handlePeers := r.handlePeers)
    ensures WellFormed(r, hash) && Referenced(r) && (Tidy(n) ==> Tidy(r))
  {
    hide PacketKey;
    assert forall h | h in n.connections :: h in n.connections.Keys;
    forall k | k in n.heap
      ensures Stored(r, hash, k)
    {
      assert Stored(n, hash, k);
    }
  }

  lemma SendKeepsStores(n: Node, hash: Hash)
    requires WellFormed(n, hash)
    ensures WellFormed(SendPackets(n), hash)
  {
    hide AfterTargeted, AfterBroadcast, Keep, PacketKey;
    forall k | k in n.heap
      ensures Stored(SendPackets(n), hash, k)
    {
      assert Stored(n, hash, k);
    }
  }

  // ---- what every step but a cleanup leaves alone ----

  /** Nothing stored changes or goes, nothing leaves the ledger, the trace only grows, by pairs that were not in
      the ledger. */
  ghost predicate Grows(n: Node, r: Node) {
    && r.announceKey == n.announceKey
    && (forall id | id in n.messages :: id in r.messages && r.messages[id] == n.messages[id])
    && (forall key | key in n.packets :: key in r.packets && r.packets[key] == n.packets[key])
    && (forall k | k in n.heap :: k in r.heap && (k != n.announceKey ==> r.heap[k] == n.heap[k]))
    && (forall e | e in n.ledger :: e in r.ledger)
    && (forall h | h in n.connections :: h in r.connections)
    && n.sent <= r.sent && (forall e | e in r.sent[|n.sent|..] :: e !in n.ledger)
  }

  lemma ApplyGrows(n: Node, hash: Hash, op: Op)
    requires WellFormed(n, hash) && Enabled(n, op) && !op.Clean?
    ensures Grows(n, Apply(n, hash, op))
  {
    hide ProcessWrite, Originate, AnnounceToConnections, SendPackets, WellFormed, Grows;
    AnnounceKeyIsThere(n, hash);
    match op
    case Write(b, offset, handle, at, uptimeMs) => WriteGrows(n, hash, b, offset, handle, at, uptimeMs);
    case Own(m, at) =>
      OwnEffect(n, hash, m, at);
      if m.id in n.messages {
        GrowsTrivially(n, n);
      } else {
        AddsGrows(n, hash, Originate(n, m, at), at, MessagePacket(m), None);
      }
    case Announcing(uptimeMs, sender, name) =>
      AnnounceEffect(n, uptimeMs, sender, name);
      GrowsTrivially(n, AnnounceToConnections(n, uptimeMs, sender, name));
    case Send => SendGrows(n);
    case Connect(handle, connection) => GrowsTrivially(n, Apply(n, hash, op));
    case Disconnect(handle) => GrowsTrivially(n, Apply(n, hash, op));
  }

  lemma GrowsTrivially(n: Node, r: Node)
    requires r.messages == n.messages && r.packets == n.packets && r.announceKey == n.announceKey
    requires r.ledger == n.ledger && r.sent == n.sent && n.connections.Keys <= r.connections.Keys
    requires r.heap == n.heap || (n.announceKey in r.heap && r.heap == n.heap[n.announceKey := r.heap[n.announceKey]])
    ensures Grows(n, r)
  {
    assert r.sent[|n.sent|..] == [];
    assert forall h | h in n.connections :: h in n.connections.Keys;
  }

  lemma AddsGrows(n: Node, hash: Hash, r: Node, at: nat, p: Packet, from: Option<nat>)
    requires Adds(n, hash, r, at, p, from)
    ensures Grows(n, r)
  {
    hide Insert, PacketKey, Packet.Header;
    if from.Some? {
      InsertMembers(n.ledger, at, from.value);
    }
    assert r.sent[|n.sent|..] == [];
  }

  lemma WriteGrows(n: Node, hash: Hash, b: Bytes, offset: nat, handle: nat, at: nat, uptimeMs: nat)
    requires |b| <= MAX_BUFFER && at !in n.heap
    ensures Grows(n, ProcessWrite(n, hash, b, offset, handle, at, uptimeMs))
  {
    hide ProcessWrite, Receive, PacketKey, Adds, Grows;
    WriteEffect(n, hash, b, offset, handle, at, uptimeMs);
    var r := ProcessWrite(n, hash, b, offset, handle, at, uptimeMs);
    match Receive(b, offset)
    case Ignored => GrowsTrivially(n, n);
    case GotMessage(m) =>
      if m.id in n.messages {
        GrowsTrivially(n, n);
      } else {
        AddsGrows(n, hash, r, at, MessagePacket(m), Some(handle));
      }
    case GotAnnounce(a) =>
      if PacketKey(hash, a.base) in n.packets {
        GrowsTrivially(n, r);
      } else {
        AddsGrows(n, hash, r, at, PassAlongPacket(a.base), Some(handle));
      }
  }

  lemma SendGrows(n: Node)
    ensures Grows(n, SendPackets(n))
  {
    hide AfterTargeted, AfterBroadcast, Keep;
    SendAddsNewPairs(n);
  }

  lemma GrowsFurther(n: Node, r: Node, s: Node)
    requires Grows(n, r) && Grows(r, s)
    ensures Grows(n, s)
  {
    assert s.sent[|n.sent|..] == r.sent[|n.sent|..] + s.sent[|r.sent|..];
    forall e | e in s.sent[|n.sent|..]
      ensures e !in n.ledger
    {
      JoinMembers(r.sent[|n.sent|..], s.sent[|r.sent|..], e);
    }
  }

  // ---- runs ----

  /** A run of steps, each of them enabled where it happens. */
  ghost predicate Runs(n: Node, hash: Hash, ops: seq<Op>, r: Node)
    decreases |ops|
  {
    if ops == [] then r == n
    else HasAnnounce(n) && Enabled(n, ops[0]) && Runs(Apply(n, hash, ops[0]), hash, ops[1..], r)
  }

  /** Every reachable state, cleanups included: each broadcast entry refers to a stored object, each pair of the
      ledger and of the targeted list to a known connection. */
  lemma {:induction false} RunKeepsReferences(n: Node, hash: Hash, ops: seq<Op>, r: Node)
    requires WellFormed(n, hash) && Referenced(n) && Runs(n, hash, ops, r)
    ensures WellFormed(r, hash) && Referenced(r)
    decreases |ops|
  {
    hide WellFormed, Referenced, Apply, Enabled, Tidy, HasAnnounce;
    if ops != [] {
      ApplyKeeps(n, hash, ops[0]);
      RunKeepsReferences(Apply(n, hash, ops[0]), hash, ops[1..], r);
    }
  }

  /** Every run without cleanups: no (packet, connection) pair is ever sent twice, whichever list it was on, a
      pair that got into the ledger without being sent is never sent, and what is stored stays as it is. */
  lemma {:induction false} RunSendsEachPairOnce(n: Node, hash: Hash, ops: seq<Op>, r: Node)
    requires WellFormed(n, hash) && Referenced(n) && Tidy(n) && Runs(n, hash, ops, r)
    requires forall op | op in ops :: !op.Clean?
    ensures WellFormed(r, hash) && Referenced(r) && Tidy(r) && Grows(n, r)
    ensures NoRepeats(r.sent)
    ensures forall e | e in n.ledger && e !in n.sent :: e !in r.sent
    decreases |ops|
  {
    hide WellFormed, Referenced, Apply, Enabled, HasAnnounce;
    if ops == [] {
      assert n.sent[|n.sent|..] == [];
    } else {
      var m := Apply(n, hash, ops[0]);
      assert ops[0] in ops && forall op | op in ops[1..] :: op in ops;
      RunStep(n, hash, ops[0]);
      RunSendsEachPairOnce(m, hash, ops[1..], r);
      GrowsFurther(n, m, r);
    }
    UnsentStaysUnsent(n, r);
  }

  lemma RunStep(n: Node, hash: Hash, op: Op)
    requires WellFormed(n, hash) && Referenced(n) && Tidy(n) && Enabled(n, op) && !op.Clean?
    ensures var m := Apply(n, hash, op); WellFormed(m, hash) && Referenced(m) && Tidy(m) && Grows(n, m)
  {
    hide WellFormed, Referenced, Apply, Enabled, Tidy, Grows;
    ApplyKeeps(n, hash, op);
    ApplyGrows(n, hash, op);
  }

  lemma UnsentStaysUnsent(n: Node, r: Node)
    requires Grows(n, r)
    ensures forall e | e in n.ledger && e !in n.sent :: e !in r.sent
  {
    assert r.sent == n.sent + r.sent[|n.sent|..];
    forall e | e in n.ledger && e !in n.sent
      ensures e !in r.sent
    {
      JoinMembers(n.sent, r.sent[|n.sent|..], e);
    }
  }

  /** A run whose first step receives something: if that is stored as new, it is never sent to the connection it
      came from, over the whole run without cleanups, and stays in the store unchanged. */
  lemma NeverSentBack(n: Node, hash: Hash, ops: seq<Op>, r: Node)
    requires WellFormed(n, hash) && Referenced(n) && Tidy(n) && ops != [] && Runs(n, hash, ops, r)
    requires forall op | op in ops :: !op.Clean?
    ensures ops[0].Write? ==>
              var m, at := Apply(n, hash, ops[0]), ops[0].at;
              at in m.heap ==> && Entry(at, ops[0].handle) in r.ledger && Entry(at, ops[0].handle) !in r.sent
                               && at in r.heap && r.heap[at] == m.heap[at]
  {
    hide ProcessWrite, Receive, PacketKey, WellFormed, Referenced, Insert;
    var m := Apply(n, hash, ops[0]);
    assert ops[0] in ops && forall op | op in ops[1..] :: op in ops;
    RunStep(n, hash, ops[0]);
    AnnounceKeyIsThere(n, hash);
    RunSendsEachPairOnce(m, hash, ops[1..], r);
    if ops[0].Write? {
      WriteEffect(n, hash, ops[0].b, ops[0].offset, ops[0].handle, ops[0].at, ops[0].uptimeMs);
      InsertMembers(n.ledger, ops[0].at, ops[0].handle);
    }
  }

  lemma AnnounceKeyIsThere(n: Node, hash: Hash)
    requires WellFormed(n, hash)
    ensures HasAnnounce(n)
  {}

  // ---- what a cleanup does not keep ----

  /** A pair outlives its packet exactly when its connection is kept and the cleanup comes more than ten minutes
      after the packet's time in milliseconds, but no later than ten minutes after its time in microseconds read
      as milliseconds. */
  lemma PairOutlivesPacket(n: Node, hash: Hash, garbage: nat -> U64, uptimeMs: nat, e: Entry<nat>)
    requires WellFormed(n, hash) && e in n.ledger && e.key in n.heap && e.key != n.announceKey
    ensures var r, now, ts := Cleanup(n, garbage, uptimeMs), Now(n.offset, uptimeMs), n.heap[e.key].Header().timestamp;
            e in r.ledger && e.key !in r.heap
            <==> && !ConnectionOf(n.connections, e.value).Stale(now)
                 && ts / 1000 + TEN_MINUTES_MS < now <= (ts + TEN_MINUTES_MS) % TWO_64
  {
    hide Keep, Connection.Stale, WellFormed, FreshKeys, FreshConnections;
    assert ConnectionOf(n.connections, e.value).Stale(Now(n.offset, uptimeMs))
        ==> PairStale(n.heap, n.connections, garbage, e, Now(n.offset, uptimeMs));
  }

  /** A message the node had already: what is written after a cleanup stores and lists it again, to be flooded once
      more, exactly when the cleanup found it stale. */
  lemma FloodedAgain(n: Node, hash: Hash, garbage: nat -> U64, cleanMs: nat,
                     b: Bytes, offset: nat, handle: nat, at: nat, uptimeMs: nat)
    requires WellFormed(n, hash) && |b| <= MAX_BUFFER && Receive(b, offset).GotMessage?
    requires Receive(b, offset).message.id in n.messages && at !in Cleanup(n, garbage, cleanMs).heap
    ensures var m, c := Receive(b, offset).message, Cleanup(n, garbage, cleanMs);
            var r := ProcessWrite(c, hash, b, offset, handle, at, uptimeMs);
            if n.heap[n.messages[m.id]].Stale(Now(n.offset, cleanMs)) then
              Adds(c, hash, r, at, MessagePacket(m), Some(handle))
            else
              r == c
  {
    hide Receive, ProcessWrite, Packet.Stale, Keep, Insert;
    WriteEffect(Cleanup(n, garbage, cleanMs), hash, b, offset, handle, at, uptimeMs);
  }

  lemma {:induction false} RunGrows(n: Node, hash: Hash, ops: seq<Op>, r: Node)
    requires WellFormed(n, hash) && Referenced(n) && Runs(n, hash, ops, r) && forall op | op in ops :: !op.Clean?
    ensures WellFormed(r, hash) && Referenced(r) && Grows(n, r)
    decreases |ops|
  {
    hide WellFormed, Referenced, Apply, Enabled, HasAnnounce, Tidy, Grows;
    if ops == [] {
      GrowsTrivially(n, n);
    } else {
      var m := Apply(n, hash, ops[0]);
      assert ops[0] in ops && forall op | op in ops[1..] :: op in ops;
      ApplyKeeps(n, hash, ops[0]);
      ApplyGrows(n, hash, ops[0]);
      RunGrows(m, hash, ops[1..], r);
      GrowsFurther(n, m, r);
    }
  }

  /** Such a pair keeps a later packet from its connection: when the first step of a run puts a new object at the
      address of the one that is gone, over the whole run until the next cleanup the new one stays there and is
      never sent to that connection, wherever it came from. */
  lemma LeftoverPairSuppresses(n: Node, hash: Hash, ops: seq<Op>, r: Node, e: Entry<nat>)
    requires WellFormed(n, hash) && Referenced(n) && e in n.ledger && e.key !in n.heap
    requires ops != [] && Runs(n, hash, ops, r) && forall op | op in ops :: !op.Clean?
    ensures var m := Apply(n, hash, ops[0]);
            e.key in m.heap ==> e.key in r.heap && r.heap[e.key] == m.heap[e.key]
    ensures n.sent <= r.sent && e !in r.sent[|n.sent|..]
  {
    hide WellFormed, Referenced, Apply, Enabled, Tidy;
    var m := Apply(n, hash, ops[0]);
    assert ops[0] in ops && forall op | op in ops[1..] :: op in ops;
    ApplyKeeps(n, hash, ops[0]);
    ApplyGrows(n, hash, ops[0]);
    AnnounceKeyIsThere(n, hash);
    RunGrows(m, hash, ops[1..], r);
    RunGrows(n, hash, ops, r);
  }
}
