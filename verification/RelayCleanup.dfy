/** What a cleanup leaves, in the fields of what it looks at. */
module RelayCleanup {
  import opened Binary
  import opened Multimap
  import opened Packets
  import opened Relay
  import opened RelayInvariants

  /** Not more than ten minutes after the packet's time in milliseconds. */
  ghost predicate Recent(stampUs: nat, now: nat) {
    stampUs / 1000 + 600000 >= now
  }

  /** A connection is kept while it is connected and for ten minutes after its time. */
  ghost predicate Lasts(c: Connection, now: nat) {
    c.connected || Recent(c.timestampUs, now)
  }

  ghost function TimeOf(n: Node, uptimeMs: nat): nat {
    (n.offset + uptimeMs) % 0x1_0000_0000_0000_0000
  }

  /** Connections, or neighbours: exactly the ones that last stay, as they are. */
  lemma ConnectionStays<K>(connections: map<K, Connection>, now: nat)
    ensures var left := FreshConnections(connections, now);
            && (forall h :: h in left <==> h in connections && Lasts(connections[h], now))
            && (forall h | h in left :: left[h] == connections[h])
  {}

  lemma ConnectionsAfter(n: Node, garbage: nat -> U64, uptimeMs: nat)
    ensures var r := Cleanup(n, garbage, uptimeMs);
            && (forall h :: h in r.connections
                            <==> h in n.connections && Lasts(n.connections[h], TimeOf(n, uptimeMs)))
            && (forall h | h in r.connections :: r.connections[h] == n.connections[h])
  {
    hide Keep, FreshKeys, FreshObjects, FreshConnections, PairStays, PacketStays;
    ConnectionStays(n.connections, TimeOf(n, uptimeMs));
  }

  /** The pair's packet was stamped, its time taken for milliseconds and wrapping around, not more than ten minutes
      ago, and its connection lasts. */
  ghost predicate PairLasts(n: Node, garbage: nat -> U64, now: nat, e: Entry<nat>) {
    var stamp := if e.key in n.heap then n.heap[e.key].Header().timestamp else garbage(e.key);
    && (stamp + 600000) % 0x1_0000_0000_0000_0000 >= now
    && Lasts(if e.value in n.connections then n.connections[e.value] else Connection(false, 0, 0), now)
  }

  /** Of the ledger and of the targeted list exactly the pairs that last stay, in order. */
  lemma PairsAfter(n: Node, garbage: nat -> U64, uptimeMs: nat)
    ensures var r, now := Cleanup(n, garbage, uptimeMs), TimeOf(n, uptimeMs);
            && r.ledger == Keep(n.ledger, (e: Entry<nat>) => PairLasts(n, garbage, now, e))
            && r.targeted == Keep(n.targeted, (e: Entry<nat>) => PairLasts(n, garbage, now, e))
  {
    hide Keep, FreshKeys, FreshConnections;
    var now := TimeOf(n, uptimeMs);
    forall e: Entry<nat>
      ensures PairLasts(n, garbage, now, e) <==> !PairStale(n.heap, n.connections, garbage, e, now)
    {
      PairLastsIff(n, garbage, now, e);
    }
    KeepSame(n.ledger, PairStays(n.heap, n.connections, garbage, now),
             (e: Entry<nat>) => PairLasts(n, garbage, now, e));
    KeepSame(n.targeted, PairStays(n.heap, n.connections, garbage, now),
             (e: Entry<nat>) => PairLasts(n, garbage, now, e));
  }

  lemma PairLastsIff(n: Node, garbage: nat -> U64, now: nat, e: Entry<nat>)
    ensures PairLasts(n, garbage, now, e) <==> !PairStale(n.heap, n.connections, garbage, e, now)
  {}

  /** So a pair of a stored packet and a known connection stays exactly if its packet's time is recent in that sense
      and its connection stays. */
  lemma StoredPairStays(n: Node, garbage: nat -> U64, uptimeMs: nat, e: Entry<nat>)
    requires e.key in n.heap && e.value in n.connections
    ensures var r, now := Cleanup(n, garbage, uptimeMs), TimeOf(n, uptimeMs);
            var recent := (n.heap[e.key].Header().timestamp + 600000) % 0x1_0000_0000_0000_0000 >= now;
            && (e in r.ledger <==> e in n.ledger && recent && e.value in r.connections)
            && (e in r.targeted <==> e in n.targeted && recent && e.value in r.connections)
  {
    hide Cleanup, Keep;
    PairsAfter(n, garbage, uptimeMs);
    ConnectionsAfter(n, garbage, uptimeMs);
  }

  ghost predicate PacketLasts(n: Node, now: nat, k: nat) {
    k in n.heap && Recent(n.heap[k].Header().timestamp, now)
  }

  /** Of the list to broadcast exactly the recent packets stay, in order. */
  lemma BroadcastAfter(n: Node, garbage: nat -> U64, uptimeMs: nat)
    ensures var now := TimeOf(n, uptimeMs);
            Cleanup(n, garbage, uptimeMs).broadcast == Keep(n.broadcast, (k: nat) => PacketLasts(n, now, k))
  {
    hide Keep, FreshKeys, FreshConnections, FreshObjects, PairStays, PacketLasts;
    var now := TimeOf(n, uptimeMs);
    forall k: nat
      ensures PacketLasts(n, now, k) <==> PacketStays(n.heap, now)(k)
    {
      PacketLastsIff(n, now, k);
    }
    KeepSame(n.broadcast, PacketStays(n.heap, now), (k: nat) => PacketLasts(n, now, k));
  }

  lemma PacketLastsIff(n: Node, now: nat, k: nat)
    ensures PacketLasts(n, now, k) <==> PacketStays(n.heap, now)(k)
  {}

  /** Of the list of peers exactly the pairs of recent packets stay, in order. */
  lemma PeersAfter(heap: map<nat, Packet>, garbage: nat -> U64, peersSent: seq<Entry<U64>>, now: nat)
    ensures Keep(peersSent, PeerStays(heap, garbage, now))
            == Keep(peersSent, (e: Entry<U64>) =>
                 Recent(if e.key in heap then heap[e.key].Header().timestamp else garbage(e.key), now))
  {
    hide Keep;
    KeepSame(peersSent, PeerStays(heap, garbage, now), (e: Entry<U64>) =>
      Recent(if e.key in heap then heap[e.key].Header().timestamp else garbage(e.key), now));
  }

  /** Of the stores exactly the recent packets stay, and of the objects those and the announce. */
  lemma StoresAfter(n: Node, hash: Hash, garbage: nat -> U64, uptimeMs: nat)
    requires WellFormed(n, hash)
    ensures var r, now := Cleanup(n, garbage, uptimeMs), TimeOf(n, uptimeMs);
            && (forall id :: id in r.messages <==> id in n.messages && PacketLasts(n, now, n.messages[id]))
            && (forall id | id in r.messages :: r.messages[id] == n.messages[id])
            && (forall key :: key in r.packets <==> key in n.packets && PacketLasts(n, now, n.packets[key]))
            && (forall key | key in r.packets :: r.packets[key] == n.packets[key])
            && (forall k :: k in r.heap <==> k in n.heap && (k == n.announceKey || PacketLasts(n, now, k)))
            && (forall k | k in r.heap :: r.heap[k] == n.heap[k])
  {
    hide Keep, FreshConnections, FreshKeys, FreshObjects, PacketKey, Stored, PairStays, PacketStays;
    var now := TimeOf(n, uptimeMs);
    StoreStays(n.messages, n.heap, now);
    StoreStays(n.packets, n.heap, now);
    ObjectsStay(n.heap, n.announceKey, now);
  }

  lemma StoreStays<K>(store: map<K, nat>, heap: map<nat, Packet>, now: nat)
    requires forall id | id in store :: store[id] in heap
    ensures var left := FreshKeys(store, heap, now);
            && (forall id :: id in left <==> id in store && Recent(heap[store[id]].Header().timestamp, now))
            && (forall id | id in left :: left[id] == store[id])
  {}

  lemma ObjectsStay(heap: map<nat, Packet>, announceKey: nat, now: nat)
    ensures var left := FreshObjects(heap, announceKey, now);
            && (forall k :: k in left <==> k in heap && (k == announceKey || Recent(heap[k].Header().timestamp, now)))
            && (forall k | k in left :: left[k] == heap[k])
  {}
}
