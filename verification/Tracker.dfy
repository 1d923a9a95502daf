/** The tracker: the maps, multimaps and lists of one node, changed in place. */
module Trackers {
  import opened Binary
  import opened Clock
  import opened Multimap
  import opened Packets
  import R = Relay
  import opened RelayInvariants
  import opened RelayCleanup
  import opened RelayPrints
  import opened RelayRuns

  type Pairs = R.Pairs
  type Packet = R.Packet
  type Hash = R.Hash

  const NEW_ANNOUNCE: Announce := Announce(PassAlong(Header(TYPE_ANNOUNCE, 0, 0, 0, 0, 0), [], false), [])

  ghost predicate AllPrint(heap: map<nat, Packet>, pairs: Pairs) {
    forall e | e in pairs :: e.key in heap && heap[e.key].CanPrint()
  }

  /** What goes to the raw queues for some pairs: each packet's bytes, for the pair's connection. */
  function Printed(heap: map<nat, Packet>, pairs: Pairs): seq<Entry<Bytes>> {
    if pairs == [] then []
    else
      var e := pairs[0];
      var bytes := if e.key in heap && heap[e.key].CanPrint() then heap[e.key].Print() else [];
      [Entry(e.value, bytes)] + Printed(heap, pairs[1..])
  }

  /** There is one entry for each pair, in order: for its connection, bytes that arrive as its packet. */
  ghost predicate Queues(heap: map<nat, Packet>, queued: seq<Entry<Bytes>>, pairs: Pairs) {
    && |queued| == |pairs|
    && forall i | 0 <= i < |pairs| ::
         queued[i].key == pairs[i].value && pairs[i].key in heap && ArrivesAs(queued[i].value, heap[pairs[i].key])
  }

  lemma {:induction false} PrintedQueues(heap: map<nat, Packet>, pairs: Pairs)
    requires AllPrint(heap, pairs)
    ensures Queues(heap, Printed(heap, pairs), pairs)
  {
    hide R.Packet.CanPrint, R.Packet.Print, ArrivesAs;
    if pairs != [] {
      assert pairs[0] in pairs && forall e | e in pairs[1..] :: e in pairs;
      PrintArrives(heap[pairs[0].key]);
      PrintedQueues(heap, pairs[1..]);
    }
  }

  lemma {:induction false} PrintedOneMore(heap: map<nat, Packet>, pairs: Pairs, e: Entry<nat>)
    requires e.key in heap && heap[e.key].CanPrint()
    ensures Printed(heap, pairs + [e]) == Printed(heap, pairs) + [Entry(e.value, heap[e.key].Print())]
  {
    hide R.Packet.CanPrint, R.Packet.Print;
    if pairs == [] {
      assert pairs + [e] == [e] && [e][1..] == [];
      assert Printed(heap, []) == [];
    } else {
      assert (pairs + [e])[0] == pairs[0] && (pairs + [e])[1..] == pairs[1..] + [e];
      PrintedOneMore(heap, pairs[1..], e);
    }
  }

  lemma SentSinceOneMore(sent: Pairs, i: nat, e: Entry<nat>)
    requires i <= |sent|
    ensures forall k :: R.SentSince(sent + [e], i, k) <==> R.SentSince(sent, i, k) || k == e.key
  {
    assert (sent + [e])[|sent|] == e;
    forall k
      ensures R.SentSince(sent + [e], i, k) <==> R.SentSince(sent, i, k) || k == e.key
    {
      if j :| i <= j < |sent| && sent[j].key == k {
        assert (sent + [e])[j].key == k;
      }
    }
  }

  function NotOf(keys: set<nat>): Entry<nat> -> bool {
    (e: Entry<nat>) => e.key !in keys
  }

  lemma NothingErased(m: Pairs)
    ensures Keep(m, NotOf({})) == m
  {
    KeepAll(m, NotOf({}));
  }

  lemma EraseOne(m: Pairs, t: Pairs, done: set<nat>, k: nat)
    requires t == Keep(m, NotOf(done)) && Sorted(t)
    ensures LowerBound(t, k) <= UpperBound(t, k)
    ensures var erased := t[..LowerBound(t, k)] + t[UpperBound(t, k)..];
            Sorted(erased) && erased == Keep(m, NotOf(done + {k}))
  {
    hide Keep;
    var other := (e: Entry<nat>) => e.key != k;
    EraseRange(t, k);
    KeepSorted(t, other);
    KeepTwice(m, NotOf(done), other, NotOf(done + {k}));
  }

  /** erase_if on a container in order. */
  method EraseIfNot<T(!new)>(s: seq<T>, stays: T -> bool) returns (left: seq<T>)
    ensures left == Keep(s, stays)
  {
    hide Keep;
    left := s;
    var i := 0;
    while i < |left|
      invariant i <= |left| && Keep(left, stays) == Keep(s, stays)
      invariant forall j | 0 <= j < i :: stays(left[j])
      decreases |left| - i
    {
      if stays(left[i]) {
        i := i + 1;
      } else {
        KeepWithout(left, i, stays);
        left := left[..i] + left[i + 1..];
      }
    }
    KeepAll(left, stays);
  }

  lemma KeepWithout<T(!new)>(s: seq<T>, i: nat, p: T -> bool)
    requires i < |s| && !p(s[i])
    ensures Keep(s[..i] + s[i + 1..], p) == Keep(s, p)
  {
    hide Keep;
    var a, b, c := s[..i], [s[i]], s[i + 1..];
    assert s == a + (b + c);
    KeepNothing(b, p);
    KeepJoin(a, b + c, p);
    KeepJoin(b, c, p);
    KeepJoin(a, c, p);
    assert [] + Keep(c, p) == Keep(c, p);
  }

  /** erase_if on a map. */
  method EraseKeysIfNot<K, V>(m: map<K, V>, stays: (K, V) -> bool) returns (left: map<K, V>)
    ensures left == map k | k in m && stays(k, m[k]) :: m[k]
  {
    left := m;
    var rest := m.Keys;
    while rest != {}
      invariant rest <= m.Keys && left.Keys <= m.Keys
      invariant forall k | k in m :: k in left <==> k in rest || stays(k, m[k])
      invariant forall k | k in left :: left[k] == m[k]
      decreases |rest|
    {
      var k :| k in rest;
      if !stays(k, m[k]) {
        left := left - {k};
      }
      rest := rest - {k};
    }
  }

  method EraseStaleKeys<K>(store: map<K, nat>, objects: map<nat, Packet>, now: nat) returns (left: map<K, nat>)
    ensures left == R.FreshKeys(store, objects, now)
  {
    hide R.Packet.Stale;
    left := EraseKeysIfNot<K, nat>(store, (key: K, k: nat) => !(k in objects && objects[k].Stale(now)));
  }

  class BleConnectionTracker {
    /** The objects of the stores and the announce, by address. */
    var heap: map<nat, Packet>
    var messages: map<Bytes, nat>
    var packets: map<PacketHash, nat>
    const announceKey: nat
    var peers: map<U64, R.Peer>
    var handlePeers: map<nat, U64>
    var connections: map<nat, R.Connection>
    var offset: U64
    var ledger: Pairs
    var broadcast: seq<nat>
    var targeted: Pairs
    /** The peer each received packet came from; nothing reads it. */
    var peersSent: seq<Entry<U64>>
    /** What was heard of neighbours without a connection, by address. */
    var neighbours: map<Bytes, R.Connection>
    /** What was handed to the raw queues. */
    var outbox: seq<Entry<Bytes>>
    /** Every call made to send. */
    ghost var sent: Pairs

    ghost function State(): R.Node
      reads this
    {
      R.Node(heap, messages, packets, announceKey, peers, handlePeers, connections, offset, ledger,
             broadcast, targeted, sent)
    }

    ghost predicate Valid()
      reads this
    {
      Sorted(ledger) && Sorted(targeted) && Sorted(peersSent) && R.HasAnnounce(State())
    }

    /** Every packet that the next call to send sends is there and can be printed. */
    ghost predicate CanSend()
      reads this
    {
      AllPrint(heap, R.AfterBroadcast(State()).sent[|sent|..])
    }

    /** A ready tracker can: see RelayPrints for the runs over which it stays ready. */
    lemma ReadyCanSend()
      requires Ready(State())
      ensures CanSend()
    {
      hide Ready, R.AfterBroadcast;
      ReadyPrints(State());
    }

    constructor (announceKey: nat)
      ensures Valid() && announceKey == this.announceKey && outbox == []
      ensures heap.Keys == {announceKey} && State().messages == map[] && State().packets == map[]
      ensures State().peers == map[]
      ensures State().handlePeers == map[] && State().connections == map[] && State().offset == 0
      ensures State().ledger == [] && State().broadcast == [] && State().targeted == [] && State().sent == []
      ensures peersSent == [] && neighbours == map[] && Ready(State())
      ensures heap[announceKey] == R.AnnouncePacket(NEW_ANNOUNCE)
    {
      this.announceKey := announceKey;
      heap := map[announceKey := R.AnnouncePacket(NEW_ANNOUNCE)];
      messages, packets, peers, handlePeers, connections := map[], map[], map[], map[], map[];
      offset, ledger, broadcast, targeted, outbox, sent := 0, [], [], [], [], [];
      peersSent, neighbours := [], map[];
    }

    // ---- stores and lists ----

    method ConnectionForConnHandle(handle: nat) returns (connection: R.Connection)
      modifies this`connections
      ensures State() == R.WithConnection(old(State()), handle)
      ensures connections == if handle in old(connections) then old(connections)
                             else old(connections)[handle := R.Connection(false, 0, 0)]
      ensures handle in connections && connection == connections[handle]
    {
      if handle in connections {
        return connections[handle];
      }
      connections := connections[handle := R.NEW_CONNECTION];
      return connections[handle];
    }

    method StoreMessageAndReturnIfNew(m: Message, at: nat) returns (stored: Option<nat>)
      requires Valid() && at !in heap
      modifies this`heap, this`messages
      ensures Valid() && State() == R.StoreMessage(old(State()), m, at)
      ensures stored == if m.id in old(messages) then None else Some(at)
    {
      if m.id in messages {
        return None;
      }
      heap := heap[at := R.MessagePacket(m)];
      messages := messages[m.id := at];
      return Some(at);
    }

    method StorePacketAndReturnIfNew(hash: Hash, p: PassAlong, at: nat) returns (stored: Option<nat>)
      requires Valid() && at !in heap
      modifies this`heap, this`packets
      ensures Valid() && State() == R.StorePassAlong(old(State()), hash, p, at)
      ensures stored == if PacketKey(hash, p) in old(packets) then None else Some(at)
    {
      var id := GetPacketHash(hash, p);
      if id in packets {
        return None;
      }
      heap := heap[at := R.PassAlongPacket(p)];
      packets := packets[id := at];
      return Some(at);
    }

    method CheckSenderInPeers(sender: U64)
      modifies this`peers
      ensures State() == R.WithPeer(old(State()), sender) && sender in peers
      ensures peers == if sender in old(peers) then old(peers) else old(peers)[sender := R.Peer(sender, [], 0)]
    {
      if sender !in peers {
        peers := peers[sender := R.Peer(sender, [], 0)];
      }
    }

    method EnqueueTargetedPacket(key: nat, handle: nat)
      requires Valid() && key in heap
      modifies this`connections, this`targeted
      ensures Valid() && State() == R.EnqueueTargeted(old(State()), key, handle)
      ensures targeted == if heap[key].Header().ttl > 0 then Insert(old(targeted), key, handle) else old(targeted)
    {
      if heap[key].Header().ttl > 0 {
        var _ := ConnectionForConnHandle(handle);
        InsertSorted(targeted, key, handle);
        targeted := Insert(targeted, key, handle);
      }
    }

    method EnqueueBroadcastPacket(key: nat)
      requires Valid() && key in heap
      modifies this`broadcast
      ensures Valid() && State() == R.EnqueueBroadcast(old(State()), key)
      ensures broadcast == if heap[key].Header().ttl > 0 then old(broadcast) + [key] else old(broadcast)
    {
      if heap[key].Header().ttl > 0 {
        broadcast := broadcast + [key];
      }
    }

    method EnqueueBroadcastPacketFrom(key: nat, from: nat, peer: U64)
      requires Valid() && key in heap
      modifies this`ledger, this`peersSent, this`broadcast
      ensures Valid() && State() == R.EnqueueBroadcastFrom(old(State()), key, from)
      ensures peersSent == Insert(old(peersSent), key, peer)
    {
      hide Insert;
      InsertSorted(ledger, key, from);
      InsertSorted(peersSent, key, peer);
      ledger := Insert(ledger, key, from);
      peersSent := Insert(peersSent, key, peer);
      EnqueueBroadcastPacket(key);
    }

    method SetConnectionHandleForPeer(handle: nat, sender: U64)
      modifies this`handlePeers
      ensures handlePeers == old(handlePeers)[handle := sender]
    {
      handlePeers := handlePeers[handle := sender];
    }

    method PossiblyUpdateTimeOffset(timestampMs: U64, uptimeMs: nat)
      modifies this`offset
      ensures offset == Updated(old(offset), uptimeMs, timestampMs)
    {
      var ourNow := (offset + uptimeMs) % TWO_64;
      var diff := Signed64(timestampMs) - Signed64(ourNow);
      var diffAbs := if diff < 0 then -diff else diff;
      if diffAbs > MESSAGE_TIMEOUT || timestampMs > ourNow {
        offset := (offset + diff) % TWO_64;
      }
    }

    // ---- sending ----

    /** Prints the packet into the raw queue of the connection. */
    method SendPacketToConnection(key: nat, handle: nat)
      requires key in heap && heap[key].CanPrint()
      modifies this`outbox, this`sent
      ensures outbox == old(outbox) + [Entry(handle, heap[key].Print())]
      ensures ArrivesAs(outbox[|old(outbox)|].value, heap[key])
      ensures sent == old(sent) + [Entry(key, handle)]
    {
      hide ArrivesAs;
      PrintArrives(heap[key]);
      var writer := new BinaryWriter();
      match heap[key] {
        case MessagePacket(m) => WriteMessage(writer, m);
        case PassAlongPacket(p) => WritePassAlong(writer, p);
        case AnnouncePacket(a) => WriteAnnounce(writer, a);
      }
      assert [] + heap[key].Print() == heap[key].Print();
      outbox := outbox + [Entry(handle, writer.vector)];
      sent := sent + [Entry(key, handle)];
    }

    /** Looks through the packet's own entries. */
    method PacketNeeded(key: nat, handle: nat) returns (needed: bool)
      requires Sorted(ledger)
      ensures needed <==> Entry(key, handle) !in ledger
    {
      var search, end := LowerBound(ledger, key), UpperBound(ledger, key);
      ghost var begin := search;
      while search < end
        invariant search <= |ledger|
        invariant forall j | begin <= j < search && j < end :: ledger[j].value != handle
      {
        if ledger[search].value == handle {
          assert ledger[begin].key <= ledger[search].key;
          assert ledger[search] == Entry(key, handle);
          return false;
        }
        search := search + 1;
      }
      return true;
    }

    /** Looks from the packet's first entry through all that follow. */
    method Sendable(key: nat, handle: nat) returns (sendable: bool)
      requires Sorted(ledger)
      ensures sendable <==> !R.Suppressed(ledger, key, handle)
    {
      sendable := true;
      var search := Find(ledger, key);
      ghost var found := search;
      while search != |ledger|
        invariant found <= search <= |ledger|
        invariant sendable <==> forall j | found <= j < search :: ledger[j].value != handle
      {
        if ledger[search].value == handle {
          sendable := false;
        }
        search := search + 1;
      }
      SuppressedFrom(ledger, key, handle);
    }

    method SendTargeted() returns (remove: set<nat>)
      requires Valid() && AllPrint(heap, R.AfterTargeted(State()).sent[|sent|..])
      modifies this`ledger, this`outbox, this`sent
      ensures Valid() && var t := R.AfterTargeted(old(State()));
              State() == old(State()).(ledger := t.ledger, sent := t.sent)
      ensures old(sent) <= sent && forall k :: k in remove <==> R.SentSince(sent, |old(sent)|, k)
      ensures outbox == old(outbox) + Printed(heap, sent[|old(sent)|..])
    {
      hide R.TargetedPass, R.SentSince, Printed, Insert;
      remove := {};
      ghost var start := |sent|;
      var i := 0;
      NoneSent(heap, sent);
      assert targeted[0..] == targeted;
      while i < |targeted|
        invariant i <= |targeted| && Valid() && targeted == old(targeted)
        invariant R.TargetedPass(targeted[i..], R.Sending(ledger, sent)) == R.AfterTargeted(old(State()))
        invariant old(sent) <= sent && forall k :: k in remove <==> R.SentSince(sent, start, k)
        invariant outbox == old(outbox) + Printed(heap, sent[start..])
      {
        var e := targeted[i];
        TargetedStep(targeted, i, R.Sending(ledger, sent));
        var needed := PacketNeeded(e.key, e.value);
        if needed {
          TargetedPassExtends(targeted[i + 1..], R.SendTo(R.Sending(ledger, sent), e.key, e.value));
          IsSent(R.AfterTargeted(old(State())).sent, sent, start, e);
          OneMoreSent(heap, sent, start, e);
          InsertSorted(ledger, e.key, e.value);
          SendPacketToConnection(e.key, e.value);
          ledger := Insert(ledger, e.key, e.value);
          remove := remove + {e.key};
        }
        i := i + 1;
      }
      TargetedEnd(targeted, R.Sending(ledger, sent));
    }

    /** Takes every removed packet's range out of the targeted list. */
    method EraseTargeted(remove: set<nat>)
      requires Valid()
      modifies this`targeted
      ensures Valid() && targeted == Keep(old(targeted), NotOf(remove))
    {
      hide Keep, NotOf;
      var rest := remove;
      NothingErased(targeted);
      assert remove - rest == {};
      while rest != {}
        invariant rest <= remove && Sorted(targeted)
        invariant targeted == Keep(old(targeted), NotOf(remove - rest))
        decreases |rest|
      {
        var k := Least(rest);
        EraseOne(old(targeted), targeted, remove - rest, k);
        assert remove - rest + {k} == remove - (rest - {k});
        targeted := targeted[..LowerBound(targeted, k)] + targeted[UpperBound(targeted, k)..];
        rest := rest - {k};
      }
      assert remove - rest == remove;
    }

    /** One packet of the broadcast list, to every available connection that does not bar it. */
    method SendToAvailable(key: nat, available: seq<nat>) returns (packetSent: bool)
      requires Valid() && AllPrint(heap, R.BroadcastTo(key, available, R.Sending(ledger, sent)).sent[|sent|..])
      modifies this`ledger, this`outbox, this`sent
      ensures Valid() && var b := R.BroadcastTo(key, available, R.Sending(old(ledger), old(sent)));
              State() == old(State()).(ledger := b.ledger, sent := b.sent)
      ensures old(sent) <= sent
      ensures forall k :: R.SentSince(sent, |old(sent)|, k) <==> packetSent && k == key
      ensures outbox == old(outbox) + Printed(heap, sent[|old(sent)|..])
    {
      hide R.BroadcastTo, R.SentSince, R.Suppressed, Printed, Insert;
      packetSent := false;
      ghost var start := |sent|;
      var i := 0;
      NoneSent(heap, sent);
      assert available[0..] == available;
      while i < |available|
        invariant i <= |available| && Valid()
        invariant R.BroadcastTo(key, available[i..], R.Sending(ledger, sent))
                  == R.BroadcastTo(key, available, R.Sending(old(ledger), old(sent)))
        invariant old(sent) <= sent && forall k :: R.SentSince(sent, start, k) <==> packetSent && k == key
        invariant outbox == old(outbox) + Printed(heap, sent[start..])
      {
        BroadcastToStep(key, available, i, R.Sending(ledger, sent));
        var sendable := Sendable(key, available[i]);
        if sendable {
          BroadcastToExtends(key, available[i + 1..], R.SendTo(R.Sending(ledger, sent), key, available[i]));
          IsSent(R.BroadcastTo(key, available, R.Sending(old(ledger), old(sent))).sent, sent, start,
                 Entry(key, available[i]));
          OneMoreSent(heap, sent, start, Entry(key, available[i]));
          InsertSorted(ledger, key, available[i]);
          SendPacketToConnection(key, available[i]);
          ledger := Insert(ledger, key, available[i]);
          packetSent := true;
        }
        i := i + 1;
      }
      BroadcastToEnd(key, available, R.Sending(ledger, sent));
    }

    method SendBroadcast() returns (remove: set<nat>)
      requires Valid()
      requires AllPrint(heap, R.BroadcastPass(broadcast, R.AvailableHandles(connections),
                                              R.Sending(ledger, sent)).sent[|sent|..])
      modifies this`ledger, this`outbox, this`sent
      ensures Valid()
      ensures var s := R.Sending(old(ledger), old(sent));
              var b := R.BroadcastPass(broadcast, R.AvailableHandles(connections), s);
              State() == old(State()).(ledger := b.ledger, sent := b.sent)
      ensures old(sent) <= sent && forall k :: k in remove <==> R.SentSince(sent, |old(sent)|, k)
      ensures outbox == old(outbox) + Printed(heap, sent[|old(sent)|..])
    {
      hide R.BroadcastPass, R.BroadcastTo, R.SentSince, R.AvailableHandles, R.Packet.CanPrint, Printed;
      var available := R.AvailableHandles(connections);
      remove := {};
      ghost var start := |sent|;
      var i := 0;
      NoneSent(heap, sent);
      assert broadcast[0..] == broadcast;
      while i < |broadcast|
        invariant i <= |broadcast| && Valid()
        invariant R.BroadcastPass(broadcast[i..], available, R.Sending(ledger, sent))
                  == R.BroadcastPass(broadcast, available, R.Sending(old(ledger), old(sent)))
        invariant old(sent) <= sent && forall k :: k in remove <==> R.SentSince(sent, start, k)
        invariant outbox == old(outbox) + Printed(heap, sent[start..])
      {
        ghost var s := R.Sending(ledger, sent);
        BroadcastStep(broadcast, i, available, s);
        BroadcastToExtends(broadcast[i], available, s);
        BroadcastPassExtends(broadcast[i + 1..], available, R.BroadcastTo(broadcast[i], available, s));
        PartPrints(heap, R.BroadcastPass(broadcast, available, R.Sending(old(ledger), old(sent))).sent,
                   R.BroadcastTo(broadcast[i], available, s).sent, start, |sent|);
        var packetSent := SendToAvailable(broadcast[i], available);
        MoreSent(heap, s.sent, sent, start);
        if packetSent {
          remove := remove + {broadcast[i]};
        }
        i := i + 1;
      }
      BroadcastEnd(broadcast, available, R.Sending(ledger, sent));
    }

    /** The whole call: the targeted list, what it sent of it removed, then the broadcast list likewise. */
    method SendPackets()
      requires Valid() && CanSend()
      modifies this`ledger, this`outbox, this`sent, this`targeted, this`broadcast
      ensures Valid() && State() == R.SendPackets(old(State()))
      ensures old(sent) <= sent && outbox == old(outbox) + Printed(heap, sent[|old(sent)|..])
      ensures Queues(heap, outbox[|old(outbox)|..], sent[|old(sent)|..])
    {
      hide R.TargetedPass, R.BroadcastPass, R.AvailableHandles, R.SentSince, R.Packet.CanPrint, Keep, Printed, Queues;
      NoneSent(heap, sent);
      if broadcast == [] && targeted == [] {
        NothingToSend(State());
        PrintedQueues(heap, sent[|sent|..]);
        return;
      }
      ghost var n := State();
      BroadcastPassExtends(broadcast, R.AvailableHandles(connections), R.AfterTargeted(n));
      PartPrints(heap, R.AfterBroadcast(n).sent, R.AfterTargeted(n).sent, |sent|, |sent|);
      PartPrints(heap, R.AfterBroadcast(n).sent, R.AfterBroadcast(n).sent, |sent|, |R.AfterTargeted(n).sent|);
      var remove := SendTargeted();
      ghost var t := sent;
      KeepSame(targeted, NotOf(remove), (e: Entry<nat>) => !R.SentSince(t, |n.sent|, e.key));
      EraseTargeted(remove);
      remove := SendBroadcast();
      MoreSent(heap, t, sent, |n.sent|);
      PrintedQueues(heap, sent[|n.sent|..]);
      ghost var b := sent;
      KeepSame(broadcast, (k: nat) => k !in remove, (k: nat) => !R.SentSince(b, |t|, k));
      broadcast := Keep(broadcast, (k: nat) => k !in remove);
    }

    // ---- announcing ----

    method SetupAnnounceIfNeeded(sender: U64, name: Bytes)
      requires Valid()
      modifies this`heap
      ensures Valid()
      ensures var a := R.SetupAnnounce(old(heap)[announceKey].announce, sender, name);
              heap == old(heap)[announceKey := R.AnnouncePacket(a)]
    {
      var a := heap[announceKey].announce;
      if a.base.header.ttl != 3 {
        var h := a.base.header.(ttl := 3, flags := 0, sender := sender);
        a := a.(base := a.base.(header := h), name := name);
      }
      heap := heap[announceKey := R.AnnouncePacket(a)];
    }

    method AnnounceToOne(handle: nat, uptimeMs: nat)
      requires Valid()
      modifies this`heap, this`connections, this`targeted
      ensures Valid() && State() == R.AnnounceToOne(old(State()), handle, uptimeMs)
    {
      var a := heap[announceKey].announce;
      var header := a.base.header.(timestamp := (offset + uptimeMs) % TWO_64);
      heap := heap[announceKey := R.AnnouncePacket(a.(base := a.base.(header := header)))];
      EnqueueTargetedPacket(announceKey, handle);
    }

    method AnnounceToConnections(uptimeMs: nat, sender: U64, name: Bytes)
      requires Valid()
      modifies this`heap, this`connections, this`targeted
      ensures Valid() && State() == R.AnnounceToConnections(old(State()), uptimeMs, sender, name)
    {
      hide R.AnnounceTo, R.AnnounceToOne, Keep, R.SetupAnnounce, R.AvailableHandles;
      SetupAnnounceIfNeeded(sender, name);
      var available := R.AvailableHandles(connections);
      ghost var due := (h: nat) => old(offset) >= R.BUILD_TIME_MS && Entry(announceKey, h) !in old(ledger);
      ghost var start := State();
      var i := 0;
      assert available[0..] == available;
      while i < |available|
        invariant i <= |available| && Valid()
        invariant R.AnnounceTo(State(), Keep(available[i..], due), uptimeMs)
                  == R.AnnounceTo(start, Keep(available, due), uptimeMs)
      {
        var h := available[i];
        KeepStep(available, i, due);
        var notAnnounced := PacketNeeded(announceKey, h);
        if offset >= R.BUILD_TIME_MS && notAnnounced {
          AnnounceStep(State(), h, Keep(available[i + 1..], due), uptimeMs);
          AnnounceToOne(h, uptimeMs);
        }
        i := i + 1;
      }
      AnnounceEnd(State(), available, due, uptimeMs);
      KeepSame(available, due, (h: nat) => old(offset) >= R.BUILD_TIME_MS && Entry(announceKey, h) !in old(ledger));
    }

    // ---- connections ----

    /** The connection starts from what was known of the neighbour, which is one no more. */
    method ReportConnection(handle: nat, address: Bytes, nowUs: nat)
      requires Valid()
      modifies this`connections, this`neighbours
      ensures Valid() && neighbours == old(neighbours) - {address}
      ensures var c := if address in old(neighbours) then old(neighbours)[address]
                       else R.ConnectionOf(old(connections), handle);
              var now := c.(connected := true, timestampUs := nowUs);
              State() == old(State()).(connections := old(connections)[handle := now])
    {
      if address in neighbours {
        connections := connections[handle := neighbours[address]];
        neighbours := neighbours - {address};
      }
      var connection := ConnectionForConnHandle(handle);
      connections := connections[handle := connection.(connected := true, timestampUs := nowUs)];
      neighbours := neighbours - {address};
    }

    method ReportDisconnection(handle: nat)
      requires Valid()
      modifies this`connections, this`handlePeers
      ensures Valid() && State() == R.Disconnected(old(State()), handle)
    {
      var connection := ConnectionForConnHandle(handle);
      connections := connections[handle := connection.(connected := false)];
      handlePeers := handlePeers - {handle};
    }

    // ---- cleaning up ----

    method EraseStaleReferences(garbage: nat -> U64, now: nat)
      requires Sorted(ledger) && Sorted(targeted) && Sorted(peersSent)
      modifies this`ledger, this`peersSent, this`broadcast, this`targeted
      ensures Sorted(ledger) && Sorted(targeted) && Sorted(peersSent)
      ensures peersSent == Keep(old(peersSent), R.PeerStays(heap, garbage, now))
      ensures ledger == Keep(old(ledger), R.PairStays(heap, connections, garbage, now))
      ensures broadcast == Keep(old(broadcast), R.PacketStays(heap, now))
      ensures targeted == Keep(old(targeted), R.PairStays(heap, connections, garbage, now))
    {
      hide Keep, R.PairStays, R.PeerStays, R.PacketStays;
      var staysPair, staysPacket := R.PairStays(heap, connections, garbage, now), R.PacketStays(heap, now);
      var staysPeer := R.PeerStays(heap, garbage, now);
      KeepSorted(peersSent, staysPeer);
      KeepSorted(ledger, staysPair);
      KeepSorted(targeted, staysPair);
      ledger := EraseIfNot(ledger, staysPair);
      peersSent := EraseIfNot(peersSent, staysPeer);
      broadcast := EraseIfNot(broadcast, staysPacket);
      targeted := EraseIfNot(targeted, staysPair);
    }

    method EraseStaleItems(now: nat)
      modifies this`heap, this`messages, this`packets, this`connections, this`neighbours
      ensures connections == R.FreshConnections(old(connections), now)
      ensures neighbours == R.FreshConnections(old(neighbours), now)
      ensures messages == R.FreshKeys(old(messages), old(heap), now)
      ensures packets == R.FreshKeys(old(packets), old(heap), now)
      ensures heap == R.FreshObjects(old(heap), announceKey, now)
      ensures announceKey in old(heap) ==> announceKey in heap && heap[announceKey] == old(heap)[announceKey]
    {
      hide R.Packet.Stale, R.Connection.Stale, R.FreshKeys;
      var objects, own := heap, announceKey;
      connections := EraseKeysIfNot<nat, R.Connection>(connections, (h: nat, c: R.Connection) => !c.Stale(now));
      neighbours := EraseKeysIfNot<Bytes, R.Connection>(neighbours, (a: Bytes, c: R.Connection) => !c.Stale(now));
      messages := EraseStaleKeys(messages, objects, now);
      packets := EraseStaleKeys(packets, objects, now);
      heap := EraseKeysIfNot<nat, Packet>(objects, (k: nat, p: Packet) => k == own || !p.Stale(now));
    }

    /** The loops erase what is stale; what is left still refers to stored packets and known connections, but for
        the ledger's packets: only the list of peers drops its pairs with them. */
    method CleanupStaleItems(garbage: nat -> U64, uptimeMs: nat)
      requires Valid()
      modifies this`heap, this`messages, this`packets, this`connections, this`ledger, this`broadcast, this`targeted,
               this`peersSent, this`neighbours
      ensures Valid() && State() == R.Cleanup(old(State()), garbage, uptimeMs)
      ensures var now := Now(offset, uptimeMs);
              && peersSent == Keep(old(peersSent), R.PeerStays(old(heap), garbage, now))
              && (forall h :: h in connections <==> h in old(connections) && Lasts(old(connections)[h], now))
              && (forall h | h in connections :: connections[h] == old(connections)[h])
              && (forall a :: a in neighbours <==> a in old(neighbours) && Lasts(old(neighbours)[a], now))
              && (forall a | a in neighbours :: neighbours[a] == old(neighbours)[a])
      ensures (forall e | e in old(peersSent) :: e.key in old(heap)) ==> forall e | e in peersSent :: e.key in heap
      ensures forall hash | WellFormed(old(State()), hash) && Referenced(old(State())) ::
                WellFormed(State(), hash) && Referenced(State())
    {
      hide Keep, WellFormed, Referenced, Sorted, R.PairStays, R.PeerStays, R.PacketStays, R.FreshConnections,
           R.FreshKeys, R.FreshObjects;
      AllReferencesStay(State(), garbage, uptimeMs);
      var now := (offset + uptimeMs) % TWO_64;
      ghost var objects := heap;
      EraseStaleReferences(garbage, now);
      EraseStaleItems(now);
      PeersOfStored(objects, announceKey, garbage, old(peersSent), now);
      ConnectionStays(old(connections), now);
      ConnectionStays(old(neighbours), now);
    }

    // ---- two connections to one peer ----

    /** Of the first two connections found to share a peer, the one with the earlier time, the second on a tie. */
    method GetAnyDuplicateHandle() returns (duplicate: nat)
      requires Valid()
      modifies this`connections
      ensures Valid() && State() == old(State()).(connections := connections)
      ensures forall h :: R.ConnectionOf(connections, h) == R.ConnectionOf(old(connections), h)
      ensures duplicate == 0 <==> forall g: nat, h: nat :: !SamePeer(handlePeers, g, h)
      ensures duplicate != 0 ==> exists g: nat, h: nat :: (
                && FirstDuplicate(handlePeers, g, h) && g in connections && h in connections
                && (if connections[g].timestampUs < connections[h].timestampUs then duplicate == g else duplicate == h))
    {
      var found := FindSharedPeer(handlePeers);
      if found.None? {
        return 0;
      }
      var (earlier, handle) := found.value;
      var c := ConnectionForConnHandle(earlier);
      var d := ConnectionForConnHandle(handle);
      if c.timestampUs < d.timestampUs {
        return earlier;
      }
      return handle;
    }
  }

  /** Walks the handles in order and keeps the last one seen of every peer, 0 meaning none. */
  method FindSharedPeer(handlePeers: map<nat, U64>) returns (found: Option<(nat, nat)>)
    ensures found.None? <==> forall g: nat, h: nat :: !SamePeer(handlePeers, g, h)
    ensures found.Some? ==> FirstDuplicate(handlePeers, found.value.0, found.value.1)
  {
    var rest := handlePeers.Keys;
    var reversed: map<U64, nat> := map[];
    while rest != {}
      invariant rest <= handlePeers.Keys
      invariant forall g, h | g in handlePeers && g !in rest && h in rest :: g < h
      invariant forall p | p in reversed && reversed[p] != 0 ::
                  reversed[p] !in rest && reversed[p] in handlePeers && handlePeers[reversed[p]] == p
      invariant forall h | h in handlePeers && h !in rest && h != 0 ::
                  handlePeers[h] in reversed && reversed[handlePeers[h]] == h
      invariant forall g: nat, h: nat | h !in rest :: !SamePeer(handlePeers, g, h)
      decreases |rest|
    {
      var handle := Least(rest);
      var peer := handlePeers[handle];
      if peer in reversed && reversed[peer] != 0 {
        assert SamePeer(handlePeers, reversed[peer], handle);
        return Some((reversed[peer], handle));
      }
      reversed := reversed[peer := handle];
      rest := rest - {handle};
    }
    return None;
  }

  /** Two connections to one peer, the first with the smaller handle. */
  ghost predicate SamePeer(handlePeers: map<nat, U64>, g: nat, h: nat) {
    0 < g < h && g in handlePeers && h in handlePeers && handlePeers[g] == handlePeers[h]
  }

  /** The pair that is found first: no smaller handle shares a peer with one below it. */
  ghost predicate FirstDuplicate(handlePeers: map<nat, U64>, g: nat, h: nat) {
    SamePeer(handlePeers, g, h) && forall e: nat, f: nat | f < h :: !SamePeer(handlePeers, e, f)
  }

  // ---- the loops against the recursive definitions ----

  lemma IsSent(all: Pairs, sent: Pairs, start: nat, e: Entry<nat>)
    requires start <= |sent| && |sent| < |all| && all[..|sent| + 1] == sent + [e]
    ensures e in all[start..]
  {
    assert all[start..][|sent| - start] == all[..|sent| + 1][|sent|];
  }

  lemma PartPrints(heap: map<nat, Packet>, all: Pairs, part: Pairs, start: nat, from: nat)
    requires start <= from <= |part| <= |all| && all[..|part|] == part && AllPrint(heap, all[start..])
    ensures AllPrint(heap, part[from..])
  {
    forall e | e in part[from..]
      ensures e in all[start..]
    {
      var j :| 0 <= j < |part[from..]| && part[from..][j] == e;
      assert all[start..][from - start + j] == all[..|part|][from + j];
    }
  }

  lemma NoneSent(heap: map<nat, Packet>, sent: Pairs)
    ensures Printed(heap, sent[|sent|..]) == [] && forall k :: !R.SentSince(sent, |sent|, k)
  {}

  lemma OneMoreSent(heap: map<nat, Packet>, sent: Pairs, start: nat, e: Entry<nat>)
    requires start <= |sent| && e.key in heap && heap[e.key].CanPrint()
    ensures Printed(heap, (sent + [e])[start..]) == Printed(heap, sent[start..]) + [Entry(e.value, heap[e.key].Print())]
    ensures forall k :: R.SentSince(sent + [e], start, k) <==> R.SentSince(sent, start, k) || k == e.key
  {
    hide Printed, R.Packet.CanPrint, R.Packet.Print;
    assert (sent + [e])[start..] == sent[start..] + [e];
    PrintedOneMore(heap, sent[start..], e);
    SentSinceOneMore(sent, start, e);
  }

  lemma {:induction false} PrintedJoin(heap: map<nat, Packet>, a: Pairs, b: Pairs)
    ensures Printed(heap, a + b) == Printed(heap, a) + Printed(heap, b)
  {
    hide R.Packet.CanPrint, R.Packet.Print;
    if a == [] {
      assert a + b == b;
    } else {
      assert (a + b)[0] == a[0] && (a + b)[1..] == a[1..] + b;
      PrintedJoin(heap, a[1..], b);
    }
  }

  lemma MoreSent(heap: map<nat, Packet>, before: Pairs, after: Pairs, start: nat)
    requires start <= |before| <= |after| && after[..|before|] == before
    ensures Printed(heap, after[start..]) == Printed(heap, before[start..]) + Printed(heap, after[|before|..])
    ensures forall k ::
              R.SentSince(after, start, k) <==> R.SentSince(before, start, k) || R.SentSince(after, |before|, k)
  {
    hide Printed;
    assert after[start..] == before[start..] + after[|before|..];
    PrintedJoin(heap, before[start..], after[|before|..]);
    assert forall j | 0 <= j < |before| :: after[j] == before[j];
  }

  lemma SuppressedFrom(ledger: Pairs, key: nat, handle: nat)
    requires Sorted(ledger)
    ensures R.Suppressed(ledger, key, handle)
            <==> exists j :: Find(ledger, key) <= j < |ledger| && ledger[j].value == handle
  {
    var i := Find(ledger, key);
    if R.Suppressed(ledger, key, handle) {
      var e :| e in ledger && e.key >= key && e.value == handle;
      var j :| 0 <= j < |ledger| && ledger[j] == e;
      assert i <= j;
    }
    if j :| i <= j < |ledger| && ledger[j].value == handle {
      assert ledger[i] in ledger && ledger[j] in ledger && ledger[i].key <= ledger[j].key;
    }
  }

  lemma TargetedStep(list: Pairs, i: nat, s: R.Sending)
    requires i < |list|
    ensures R.TargetedPass(list[i..], s)
            == R.TargetedPass(list[i + 1..], if list[i] in s.ledger then s else R.SendTo(s, list[i].key, list[i].value))
  {
    assert list[i..][1..] == list[i + 1..];
  }

  lemma TargetedEnd(list: Pairs, s: R.Sending)
    ensures R.TargetedPass(list[|list|..], s) == s
  {}

  lemma BroadcastToStep(key: nat, available: seq<nat>, i: nat, s: R.Sending)
    requires i < |available|
    ensures R.BroadcastTo(key, available[i..], s)
            == R.BroadcastTo(key, available[i + 1..],
                             if R.Suppressed(s.ledger, key, available[i]) then s else R.SendTo(s, key, available[i]))
  {
    assert available[i..][1..] == available[i + 1..];
  }

  lemma BroadcastToEnd(key: nat, available: seq<nat>, s: R.Sending)
    ensures R.BroadcastTo(key, available[|available|..], s) == s
  {}

  lemma BroadcastStep(list: seq<nat>, i: nat, available: seq<nat>, s: R.Sending)
    requires i < |list|
    ensures R.BroadcastPass(list[i..], available, s)
            == R.BroadcastPass(list[i + 1..], available, R.BroadcastTo(list[i], available, s))
  {
    assert list[i..][1..] == list[i + 1..];
  }

  lemma BroadcastEnd(list: seq<nat>, available: seq<nat>, s: R.Sending)
    ensures R.BroadcastPass(list[|list|..], available, s) == s
  {}

  lemma AllReferencesStay(n: R.Node, garbage: nat -> U64, uptimeMs: nat)
    ensures forall hash | WellFormed(n, hash) && Referenced(n) ::
              WellFormed(R.Cleanup(n, garbage, uptimeMs), hash) && Referenced(R.Cleanup(n, garbage, uptimeMs))
  {
    hide WellFormed, Referenced, R.Cleanup;
    forall hash | WellFormed(n, hash) && Referenced(n)
      ensures WellFormed(R.Cleanup(n, garbage, uptimeMs), hash) && Referenced(R.Cleanup(n, garbage, uptimeMs))
    {
      CleanupKeeps(n, hash, garbage, uptimeMs);
    }
  }

  lemma PeersOfStored(heap: map<nat, Packet>, announceKey: nat, garbage: nat -> U64, peersSent: seq<Entry<U64>>,
                      now: nat)
    ensures (forall e | e in peersSent :: e.key in heap)
            ==> forall e | e in Keep(peersSent, R.PeerStays(heap, garbage, now)) ::
                  e.key in R.FreshObjects(heap, announceKey, now)
  {
    hide Keep;
  }

  lemma NothingToSend(n: R.Node)
    requires n.broadcast == [] && n.targeted == []
    ensures R.SendPackets(n) == n
  {}

  lemma KeepStep(s: seq<nat>, i: nat, p: nat -> bool)
    requires i < |s|
    ensures Keep(s[i..], p) == if p(s[i]) then [s[i]] + Keep(s[i + 1..], p) else Keep(s[i + 1..], p)
  {
    assert s[i..][1..] == s[i + 1..];
  }

  lemma AnnounceStep(n: R.Node, h: nat, rest: seq<nat>, uptimeMs: nat)
    requires R.HasAnnounce(n)
    ensures R.AnnounceTo(n, [h] + rest, uptimeMs) == R.AnnounceTo(R.AnnounceToOne(n, h, uptimeMs), rest, uptimeMs)
  {
    assert ([h] + rest)[1..] == rest;
  }

  lemma AnnounceEnd(n: R.Node, available: seq<nat>, due: nat -> bool, uptimeMs: nat)
    requires R.HasAnnounce(n)
    ensures R.AnnounceTo(n, Keep(available[|available|..], due), uptimeMs) == n
  {}
}
