/** How much one node can still do for one message or announce. */
module Flood {
  import opened Binary
  import opened Multimap
  import opened Packets
  import opened Relay
  import opened RelayInvariants
  import opened RelayRuns

  function Times(s: Pairs, key: nat): nat {
    if s == [] then 0 else (if s[0].key == key then 1 else 0) + Times(s[1..], key)
  }

  ghost function Handles(s: Pairs, key: nat): set<nat> {
    set e | e in s && e.key == key :: e.value
  }

  lemma {:induction false} TimesJoin(a: Pairs, b: Pairs, key: nat)
    ensures Times(a + b, key) == Times(a, key) + Times(b, key)
  {
    if a == [] {
      assert a + b == b;
    } else {
      assert (a + b)[0] == a[0] && (a + b)[1..] == a[1..] + b;
      TimesJoin(a[1..], b, key);
    }
  }

  lemma {:induction false} TimesOfAbsent(s: Pairs, key: nat)
    requires forall e | e in s :: e.key != key
    ensures Times(s, key) == 0
  {
    if s != [] {
      assert s[0] in s && forall e | e in s[1..] :: e in s;
      TimesOfAbsent(s[1..], key);
    }
  }

  /** Without repeats, a packet was sent as often as there are connections it was sent to. */
  lemma {:induction false} TimesIsHandles(s: Pairs, key: nat)
    requires NoRepeats(s)
    ensures Times(s, key) == |Handles(s, key)|
  {
    if s != [] {
      var rest := s[1..];
      assert NoRepeats(rest);
      TimesIsHandles(rest, key);
      assert forall e :: e in s <==> e == s[0] || e in rest;
      assert s[0] !in rest;
      if s[0].key == key {
        assert forall e | e in s && e.key == key && e.value == s[0].value :: e == s[0];
        assert Handles(s, key) == Handles(rest, key) + {s[0].value};
        assert s[0].value !in Handles(rest, key);
      } else {
        assert Handles(s, key) == Handles(rest, key);
      }
    } else {
      assert Handles(s, key) == {};
    }
  }

  lemma SubsetSize(a: set<nat>, b: set<nat>)
    requires a <= b
    ensures |a| <= |b| && |b - a| == |b| - |a|
  {
    assert b == a + (b - a);
  }

  // ---- one node and one packet ----

  /** What floods: a message, by its identifier, or another node's announce, by its de-duplication key. */
  datatype Item = TheMessage(id: Bytes) | TheAnnounce(key: PacketHash)

  predicate Has(n: Node, item: Item) {
    match item
    case TheMessage(id) => id in n.messages
    case TheAnnounce(key) => key in n.packets
  }

  /** Where the node keeps it. */
  function Place(n: Node, item: Item): nat
    requires Has(n, item)
  {
    match item
    case TheMessage(id) => n.messages[id]
    case TheAnnounce(key) => n.packets[key]
  }

  /** How often the node has sent it. */
  ghost function Transmissions(n: Node, item: Item): nat {
    if Has(n, item) then Times(n.sent, Place(n, item)) else 0
  }

  ghost function Copies(n: Node, item: Item): nat {
    if Has(n, item) then 1 else 0
  }

  /** How much it may still do: store it and send it everywhere, or send it where the ledger does not have it. */
  ghost function Work(n: Node, item: Item): nat {
    if Has(n, item) then |n.connections.Keys - Handles(n.ledger, Place(n, item))| else 1 + |n.connections.Keys|
  }

  ghost function Budget(n: Node, item: Item): nat {
    Work(n, item) + Transmissions(n, item) + Copies(n, item)
  }

  lemma TransmissionsBounded(n: Node, item: Item)
    requires Referenced(n) && Tidy(n)
    ensures Transmissions(n, item) <= |n.connections.Keys|
  {
    if Has(n, item) {
      TimesIsHandles(n.sent, Place(n, item));
      assert Handles(n.sent, Place(n, item)) <= n.connections.Keys;
      SubsetSize(Handles(n.sent, Place(n, item)), n.connections.Keys);
    }
  }

  /** Every pair sent takes one connection out of what is left to do. */
  lemma SendPays(n: Node, item: Item)
    requires Referenced(n) && Tidy(n)
    ensures Budget(SendPackets(n), item) <= Budget(n, item)
            && Transmissions(n, item) <= Transmissions(SendPackets(n), item)
  {
    hide TargetedPass, BroadcastPass, AvailableHandles, Keep, Times;
    SendAddsNewPairs(n);
    SendKeepsReferences(n);
    var r := SendPackets(n);
    var added := r.sent[|n.sent|..];
    assert r.sent == n.sent + added;
    if Has(n, item) {
      var key := Place(n, item);
      TimesJoin(n.sent, added, key);
      TimesIsHandles(added, key);
      PairsPay(n.connections.Keys, n.ledger, r.ledger, added, key);
    }
  }

  lemma PairsPay(connections: set<nat>, before: Pairs, after: Pairs, added: Pairs, key: nat)
    requires forall e :: e in after <==> e in before || e in added
    requires forall e | e in added :: e !in before && e.value in connections
    ensures |connections - Handles(after, key)| + |Handles(added, key)| == |connections - Handles(before, key)|
  {
    var a, b := connections - Handles(after, key), Handles(added, key);
    assert b !! Handles(before, key) by {
      forall h | h in b
        ensures h !in Handles(before, key)
      {
        assert Entry(key, h) in added;
      }
    }
    assert connections - Handles(before, key) == a + b;
  }

  lemma AddPays(n: Node, hash: Hash, r: Node, at: nat, p: Packet, from: Option<nat>, item: Item)
    requires WellFormed(n, hash) && Tidy(n) && Adds(n, hash, r, at, p, from)
    ensures Budget(r, item) <= Budget(n, item) && Transmissions(n, item) <= Transmissions(r, item)
  {
    hide Insert, Times, PacketKey, Packet.Header, Budget, Transmissions;
    if from.Some? {
      InsertMembers(n.ledger, at, from.value);
    }
    if Has(n, item) {
      OtherKeyPays(n, r, at, item);
    } else if Has(r, item) {
      NewKeyPays(n, r, at, item);
    } else {
      NoKeyPays(n, r, item);
    }
  }

  lemma NoKeyPays(n: Node, r: Node, item: Item)
    requires !Has(n, item) && !Has(r, item) && r.connections == n.connections
    ensures Budget(r, item) == Budget(n, item) && Transmissions(n, item) == Transmissions(r, item)
  {}

  lemma OtherKeyPays(n: Node, r: Node, at: nat, item: Item)
    requires Has(n, item) && Has(r, item) && Place(r, item) == Place(n, item) && Place(n, item) != at
    requires r.sent == n.sent && r.connections == n.connections
    requires forall e: Entry<nat> | e.key != at :: e in r.ledger <==> e in n.ledger
    ensures Budget(r, item) == Budget(n, item) && Transmissions(n, item) == Transmissions(r, item)
  {
    hide Times;
    assert Handles(r.ledger, Place(n, item)) == Handles(n.ledger, Place(n, item));
  }

  lemma NewKeyPays(n: Node, r: Node, at: nat, item: Item)
    requires !Has(n, item) && Has(r, item) && Place(r, item) == at && at !in n.heap && Tidy(n)
    requires r.sent == n.sent && r.connections == n.connections
    ensures Budget(r, item) <= Budget(n, item) && Transmissions(n, item) == Transmissions(r, item)
  {
    hide Times;
    TimesOfAbsent(n.sent, at);
    SubsetSize(r.connections.Keys - Handles(r.ledger, at), r.connections.Keys);
  }

  /** No step but a cleanup or a new connection raises the budget, and nothing is ever unsent. */
  lemma StepPays(n: Node, hash: Hash, op: Op, item: Item)
    requires WellFormed(n, hash) && Referenced(n) && Tidy(n) && Enabled(n, op) && !op.Clean?
    requires op.Connect? || op.Disconnect? ==> op.handle in n.connections
    ensures var r := Apply(n, hash, op);
            && Budget(r, item) <= Budget(n, item)
            && Transmissions(n, item) <= Transmissions(r, item) && Copies(n, item) <= Copies(r, item)
  {
    hide ProcessWrite, Originate, AnnounceToConnections, SendPackets, Budget, Transmissions, WellFormed, Referenced,
         Tidy;
    AnnounceKeyIsThere(n, hash);
    match op {
      case Write(b, offset, handle, at, uptimeMs) => WritePays(n, hash, b, offset, handle, at, uptimeMs, item);
      case Own(m, at) => OwnPays(n, hash, m, at, item);
      case Announcing(uptimeMs, sender, name) =>
        AnnounceEffect(n, uptimeMs, sender, name);
        SameAccounts(n, Apply(n, hash, op), item);
      case Send => SendPays(n, item);
      case Connect(handle, connection) =>
        assert Apply(n, hash, op).connections.Keys == n.connections.Keys;
        SameAccounts(n, Apply(n, hash, op), item);
      case Disconnect(handle) =>
        assert Apply(n, hash, op).connections.Keys == n.connections.Keys;
        SameAccounts(n, Apply(n, hash, op), item);
    }
    StepGrows(n, hash, op);
  }

  lemma SameAccounts(n: Node, r: Node, item: Item)
    requires r.messages == n.messages && r.packets == n.packets && r.sent == n.sent && r.ledger == n.ledger
    requires r.connections.Keys == n.connections.Keys
    ensures Budget(r, item) == Budget(n, item) && Transmissions(r, item) == Transmissions(n, item)
  {}

  lemma OwnPays(n: Node, hash: Hash, m: Message, at: nat, item: Item)
    requires WellFormed(n, hash) && Tidy(n) && at !in n.heap
    ensures var r := Originate(n, m, at);
            Budget(r, item) <= Budget(n, item) && Transmissions(n, item) <= Transmissions(r, item)
  {
    hide Originate, Adds, WellFormed, Tidy, Times;
    OwnEffect(n, hash, m, at);
    if m.id !in n.messages {
      AddPays(n, hash, Originate(n, m, at), at, MessagePacket(m), None, item);
    }
  }

  lemma StepGrows(n: Node, hash: Hash, op: Op)
    requires WellFormed(n, hash) && Enabled(n, op) && !op.Clean?
    ensures forall item | Has(n, item) :: Has(Apply(n, hash, op), item)
  {
    hide Apply, Enabled, WellFormed;
    ApplyGrows(n, hash, op);
  }

  lemma WritePays(n: Node, hash: Hash, b: Bytes, offset: nat, handle: nat, at: nat, uptimeMs: nat, item: Item)
    requires WellFormed(n, hash) && Tidy(n) && |b| <= MAX_BUFFER && at !in n.heap
    ensures var r := ProcessWrite(n, hash, b, offset, handle, at, uptimeMs);
            Budget(r, item) <= Budget(n, item) && Transmissions(n, item) <= Transmissions(r, item)
  {
    hide ProcessWrite, Receive, PacketKey, Insert, Times, Adds, WellFormed, Tidy;
    WriteEffect(n, hash, b, offset, handle, at, uptimeMs);
    var r := ProcessWrite(n, hash, b, offset, handle, at, uptimeMs);
    match Receive(b, offset)
    case Ignored =>
    case GotMessage(m) =>
      if m.id !in n.messages {
        AddPays(n, hash, r, at, MessagePacket(m), Some(handle), item);
      }
    case GotAnnounce(a) =>
      if PacketKey(hash, a.base) !in n.packets {
        AddPays(n, hash, r, at, PassAlongPacket(a.base), Some(handle), item);
      }
  }
}
