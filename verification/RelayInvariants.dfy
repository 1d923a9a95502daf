/** What every step of a node keeps. */
module RelayInvariants {
  import opened Multimap
  import opened Packets
  import opened Relay

  /** The stores hold what their keys say, each object lies in one place, and nothing else is there. */
  ghost predicate WellFormed(n: Node, hash: Hash) {
    && HasAnnounce(n)
    && (forall id | id in n.messages ::
          n.messages[id] in n.heap && n.heap[n.messages[id]].MessagePacket? && n.heap[n.messages[id]].message.id == id)
    && (forall key | key in n.packets ::
          && n.packets[key] in n.heap && n.heap[n.packets[key]].PassAlongPacket?
          && PacketKey(hash, n.heap[n.packets[key]].passAlong) == key)
    && (forall k | k in n.heap :: Stored(n, hash, k))
  }

  ghost predicate Stored(n: Node, hash: Hash, k: nat)
    requires k in n.heap
  {
    match n.heap[k]
    case MessagePacket(m) => m.id in n.messages && n.messages[m.id] == k
    case PassAlongPacket(p) => PacketKey(hash, p) in n.packets && n.packets[PacketKey(hash, p)] == k
    case AnnouncePacket(a) => k == n.announceKey
  }

  /** Every broadcast refers to a stored message or packet, and every pair to a connection that is known. */
  ghost predicate Referenced(n: Node) {
    && Sorted(n.ledger) && Sorted(n.targeted)
    && (forall k | k in n.broadcast :: k in n.heap && k != n.announceKey)
    && (forall e | e in n.ledger :: e.value in n.connections)
    && (forall e | e in n.targeted :: e.value in n.connections)
  }

  ghost predicate NoRepeats<T(!new)>(s: seq<T>) {
    forall i, j | 0 <= i < j < |s| :: s[i] != s[j]
  }

  /** Until a cleanup: every pair's packet is there too, everything sent is in the ledger, nothing was sent
      twice, and what is targeted is not yet in the ledger. */
  ghost predicate Tidy(n: Node) {
    && (forall e | e in n.ledger :: e.key in n.heap)
    && (forall e | e in n.targeted :: e.key in n.heap && e !in n.ledger)
    && (forall e | e in n.sent :: e in n.ledger)
    && NoRepeats(n.sent)
  }

  // ---- sending ----

  /** `t` is `s` after some sends of pairs that were not in the ledger, none of them twice. */
  ghost predicate Extends(s: Sending, t: Sending) {
    && |s.sent| <= |t.sent| && t.sent[..|s.sent|] == s.sent
    && (Sorted(s.ledger) ==> Sorted(t.ledger))
    && (forall e :: e in t.ledger <==> e in s.ledger || e in t.sent[|s.sent|..])
    && (forall e | e in t.sent[|s.sent|..] :: e !in s.ledger)
    && NoRepeats(t.sent[|s.sent|..])
  }

  lemma ExtendsSelf(s: Sending)
    ensures Extends(s, s)
  {}

  lemma ExtendsByOne(s: Sending, key: nat, handle: nat)
    requires Entry(key, handle) !in s.ledger
    ensures Extends(s, SendTo(s, key, handle))
  {
    var t := SendTo(s, key, handle);
    InsertMembers(s.ledger, key, handle);
    if Sorted(s.ledger) {
      InsertSorted(s.ledger, key, handle);
    }
    assert t.sent[|s.sent|..] == [Entry(key, handle)];
  }

  lemma NoRepeatsJoin<T(!new)>(a: seq<T>, b: seq<T>)
    requires NoRepeats(a) && NoRepeats(b) && forall e | e in b :: e !in a
    ensures NoRepeats(a + b)
  {
    forall i, j | 0 <= i < j < |a + b|
      ensures (a + b)[i] != (a + b)[j]
    {
      if i < |a| <= j {
        assert b[j - |a|] in b && a[i] in a;
      }
    }
  }

  lemma ExtendsFurther(s: Sending, t: Sending, u: Sending)
    requires Extends(s, t) && Extends(t, u)
    ensures Extends(s, u)
    ensures u.sent[|s.sent|..] == t.sent[|s.sent|..] + u.sent[|t.sent|..]
  {
    var a, b := t.sent[|s.sent|..], u.sent[|t.sent|..];
    assert u.sent == t.sent + b;
    assert u.sent[|s.sent|..] == a + b;
    assert u.sent[..|s.sent|] == t.sent[..|s.sent|];
    forall e | e in b
      ensures e !in a && e !in s.ledger
    {
      assert e !in t.ledger;
    }
    NoRepeatsJoin(a, b);
    forall e
      ensures e in u.ledger <==> e in s.ledger || e in u.sent[|s.sent|..]
    {
      JoinMembers(a, b, e);
    }
  }

  lemma {:induction false} TargetedPassExtends(todo: Pairs, s: Sending)
    ensures var t := TargetedPass(todo, s);
            && Extends(s, t)
            && (forall e | e in todo :: e in t.ledger)
            && (forall e | e in t.sent[|s.sent|..] :: e in todo)
    decreases |todo|
  {
    hide Extends;
    if todo == [] {
      ExtendsSelf(s);
      assert s.sent[|s.sent|..] == [];
    } else {
      var e := todo[0];
      var s' := if e in s.ledger then s else SendTo(s, e.key, e.value);
      if e in s.ledger {
        ExtendsSelf(s);
        assert s.sent[|s.sent|..] == [];
      } else {
        ExtendsByOne(s, e.key, e.value);
        InsertMembers(s.ledger, e.key, e.value);
        assert s'.sent[|s.sent|..] == [e];
      }
      TargetedPassExtends(todo[1..], s');
      var t := TargetedPass(todo[1..], s');
      ExtendsFurther(s, s', t);
      ExtendsLedger(s', t, e);
      assert forall f | f in todo :: f == e || f in todo[1..];
      assert e in todo && forall f | f in todo[1..] :: f in todo;
    }
  }

  lemma ExtendsLedger(s: Sending, t: Sending, e: Entry<nat>)
    requires Extends(s, t)
    ensures e in s.ledger ==> e in t.ledger
  {}

  lemma {:induction false} BroadcastToExtends(key: nat, available: seq<nat>, s: Sending)
    ensures var t := BroadcastTo(key, available, s);
            Extends(s, t) && forall e | e in t.sent[|s.sent|..] :: e.key == key && e.value in available
    decreases |available|
  {
    hide Extends;
    if available == [] {
      ExtendsSelf(s);
      assert s.sent[|s.sent|..] == [];
    } else {
      var h := available[0];
      var s' := if Suppressed(s.ledger, key, h) then s else SendTo(s, key, h);
      if s' == s {
        ExtendsSelf(s);
        assert s.sent[|s.sent|..] == [];
      } else {
        ExtendsByOne(s, key, h);
        assert s'.sent[|s.sent|..] == [Entry(key, h)];
      }
      BroadcastToExtends(key, available[1..], s');
      ExtendsFurther(s, s', BroadcastTo(key, available[1..], s'));
      assert h in available && forall g | g in available[1..] :: g in available;
    }
  }

  lemma {:induction false} BroadcastPassExtends(list: seq<nat>, available: seq<nat>, s: Sending)
    ensures var t := BroadcastPass(list, available, s);
            Extends(s, t) && forall e | e in t.sent[|s.sent|..] :: e.key in list && e.value in available
    decreases |list|
  {
    hide Extends;
    if list == [] {
      ExtendsSelf(s);
      assert s.sent[|s.sent|..] == [];
    } else {
      var s' := BroadcastTo(list[0], available, s);
      BroadcastToExtends(list[0], available, s);
      BroadcastPassExtends(list[1..], available, s');
      ExtendsFurther(s, s', BroadcastPass(list[1..], available, s'));
      assert list[0] in list && forall k | k in list[1..] :: k in list;
    }
  }

  /** One call to send: it only adds pairs that were not in the ledger, all targeted pairs are in it
      afterwards, and what it adds was targeted, or is a listed packet to an available connection. */
  lemma SendAddsNewPairs(n: Node)
    ensures var s, t, b := Sending(n.ledger, n.sent), AfterTargeted(n), AfterBroadcast(n);
            && Extends(s, t) && Extends(t, b) && Extends(s, b)
            && (forall e | e in n.targeted :: e in SendPackets(n).ledger)
            && (forall e | e in t.sent[|n.sent|..] :: e in n.targeted)
            && (forall e | e in b.sent[|t.sent|..] ::
                  e.key in n.broadcast && e.value in n.connections && n.connections[e.value].Available())
  {
    hide Extends;
    var s, t, b := Sending(n.ledger, n.sent), AfterTargeted(n), AfterBroadcast(n);
    TargetedPassExtends(n.targeted, s);
    BroadcastPassExtends(n.broadcast, AvailableHandles(n.connections), t);
    ExtendsFurther(s, t, b);
    forall e | e in n.targeted
      ensures e in SendPackets(n).ledger
    {
      ExtendsLedger(t, b, e);
    }
  }

  lemma SendChangesLists(n: Node)
    ensures var p := SendPackets(n);
            p == n.(ledger := p.ledger, sent := p.sent, targeted := p.targeted, broadcast := p.broadcast)
  {}

  lemma SendKeepsReferences(n: Node)
    requires Referenced(n)
    ensures Referenced(SendPackets(n))
  {
    SendAddsNewPairs(n);
    var t, b := AfterTargeted(n), AfterBroadcast(n);
    KeepSorted(n.targeted, (e: Entry<nat>) => !SentSince(t.sent, |n.sent|, e.key));
    ExtendsFurther(Sending(n.ledger, n.sent), t, b);
    forall e | e in b.sent[|n.sent|..]
      ensures e.value in n.connections
    {
      JoinMembers(t.sent[|n.sent|..], b.sent[|t.sent|..], e);
    }
  }

  lemma TidyAfterSend(n: Node)
    requires Referenced(n) && Tidy(n)
    ensures Tidy(SendPackets(n)) && SendPackets(n).targeted == []
  {
    SendAddsNewPairs(n);
    var m := SendPackets(n);
    var s, t, b := Sending(n.ledger, n.sent), AfterTargeted(n), AfterBroadcast(n);
    ExtendsFurther(s, t, b);
    assert b.sent == n.sent + b.sent[|n.sent|..];
    NoRepeatsJoin(n.sent, b.sent[|n.sent|..]);
    forall e | e in b.sent
      ensures e in b.ledger && e.key in n.heap
    {
      JoinMembers(n.sent, b.sent[|n.sent|..], e);
      JoinMembers(t.sent[|n.sent|..], b.sent[|t.sent|..], e);
    }
    forall e | e in n.targeted
      ensures SentSince(t.sent, |n.sent|, e.key)
    {
      TargetedPassExtends(n.targeted, s);
      assert e in t.sent[|n.sent|..];
      var j :| 0 <= j < |t.sent[|n.sent|..]| && t.sent[|n.sent|..][j] == e;
      assert t.sent[|n.sent| + j].key == e.key;
    }
    KeepNothing(n.targeted, (e: Entry<nat>) => !SentSince(t.sent, |n.sent|, e.key));
  }

  // ---- what a send achieves ----

  /** A pending targeted pair is sent; a listed packet leaves the list exactly when the broadcast half of the
      call sent it somewhere, and those that stay keep their order. */
  lemma SendLeavesOnlyUnsent(n: Node, k: nat)
    ensures var t, b, m := AfterTargeted(n), AfterBroadcast(n), SendPackets(n);
            && |t.sent| <= |b.sent|
            && (k in m.broadcast <==> k in n.broadcast && !exists h :: Entry(k, h) in b.sent[|t.sent|..])
            && m.broadcast == Keep(n.broadcast, (p: nat) => !SentSince(b.sent, |t.sent|, p))
  {
    hide TargetedPass, BroadcastPass, AvailableHandles;
    SendAddsNewPairs(n);
    SentSinceIff(AfterBroadcast(n).sent, |AfterTargeted(n).sent|, k);
  }

  /** Of the targeted list exactly the pairs that are not in the ledger are sent; a pair stays on the list exactly if
      none of its packet was sent, all of them being in the ledger. */
  lemma TargetedExactly(n: Node)
    ensures var t, m := AfterTargeted(n), SendPackets(n);
            && |n.sent| <= |t.sent|
            && (forall e :: e in t.sent[|n.sent|..] <==> e in n.targeted && e !in n.ledger)
            && (forall e :: e in m.targeted
                            <==> e in n.targeted && forall f | f in n.targeted && f.key == e.key :: f in n.ledger)
  {
    hide TargetedPass, BroadcastPass, AvailableHandles;
    var t, m := AfterTargeted(n), SendPackets(n);
    TargetedPassExtends(n.targeted, Sending(n.ledger, n.sent));
    forall e | e in n.targeted
      ensures SentSince(t.sent, |n.sent|, e.key) <==> exists f :: f in n.targeted && f.key == e.key && f !in n.ledger
    {
      SentSinceIff(t.sent, |n.sent|, e.key);
      if f :| f in n.targeted && f.key == e.key && f !in n.ledger {
        assert Entry(e.key, f.value) in t.sent[|n.sent|..];
      }
    }
  }

  lemma SentSinceIff(sent: Pairs, i: nat, k: nat)
    requires i <= |sent|
    ensures SentSince(sent, i, k) <==> exists h :: Entry(k, h) in sent[i..]
  {
    if SentSince(sent, i, k) {
      var j :| i <= j < |sent| && sent[j].key == k;
      assert sent[i..][j - i] == Entry(k, sent[j].value);
    }
    if h :| Entry(k, h) in sent[i..] {
      var j :| 0 <= j < |sent[i..]| && sent[i..][j] == Entry(k, h);
      assert sent[j + i].key == k;
    }
  }

  ghost predicate HasPair(ledger: Pairs, key: nat) {
    exists e :: e in ledger && e.key == key
  }

  /** A pair of a packet at a higher address names the connection. */
  ghost predicate BarredAbove(ledger: Pairs, key: nat, handle: nat) {
    exists e :: e in ledger && e.key > key && e.value == handle
  }

  /** The scan bars a connection exactly when the packet has a pair and either its own pair or one of a packet at a
      higher address names the connection. */
  lemma SuppressedIff(ledger: Pairs, key: nat, handle: nat)
    ensures Suppressed(ledger, key, handle)
            <==> HasPair(ledger, key) && (Entry(key, handle) in ledger || BarredAbove(ledger, key, handle))
  {
    if e :| e in ledger && e.key >= key && e.value == handle {
      assert e.key == key ==> e == Entry(key, handle);
    }
  }

  lemma FirstTurn(key: nat, h: nat, s: Sending)
    ensures var s' := if Suppressed(s.ledger, key, h) then s else SendTo(s, key, h);
            && HasPair(s'.ledger, key)
            && (Entry(key, h) in s'.ledger
                <==> Entry(key, h) in s.ledger || !HasPair(s.ledger, key) || !BarredAbove(s.ledger, key, h))
            && (forall g | g != h :: Entry(key, g) in s'.ledger <==> Entry(key, g) in s.ledger)
            && (forall g | g != h :: BarredAbove(s'.ledger, key, g) <==> BarredAbove(s.ledger, key, g))
  {
    hide Insert, Suppressed;
    SuppressedIff(s.ledger, key, h);
    InsertMembers(s.ledger, key, h);
    if !Suppressed(s.ledger, key, h) {
      assert Entry(key, h) in Insert(s.ledger, key, h);
    }
  }

  /** Which available handles a broadcast packet reaches, exactly: those already in its ledger entries, the
      first of all when it has no entries yet, and those no later packet's entry names. */
  lemma {:induction false} BroadcastReaches(key: nat, available: seq<nat>, s: Sending, i: nat)
    requires forall i, j | 0 <= i < j < |available| :: available[i] < available[j]
    requires i < |available|
    ensures Entry(key, available[i]) in BroadcastTo(key, available, s).ledger
            <==> || Entry(key, available[i]) in s.ledger
                 || (i == 0 && !HasPair(s.ledger, key))
                 || !BarredAbove(s.ledger, key, available[i])
    decreases |available|
  {
    hide Insert, Suppressed, HasPair, BarredAbove;
    var h, rest := available[0], available[1..];
    var s' := if Suppressed(s.ledger, key, h) then s else SendTo(s, key, h);
    FirstTurn(key, h, s);
    if i > 0 {
      BroadcastReaches(key, rest, s', i - 1);
    } else {
      BroadcastToExtends(key, rest, s');
      var t := BroadcastTo(key, rest, s');
      assert forall e | e in t.sent[|s'.sent|..] :: e.value != h;
    }
  }

  lemma {:induction false} BroadcastPassJoin(a: seq<nat>, b: seq<nat>, available: seq<nat>, s: Sending)
    ensures BroadcastPass(a + b, available, s) == BroadcastPass(b, available, BroadcastPass(a, available, s))
    decreases |a|
  {
    if a == [] {
      assert a + b == b;
    } else {
      assert (a + b)[0] == a[0] && (a + b)[1..] == a[1..] + b;
      BroadcastPassJoin(a[1..], b, available, BroadcastTo(a[0], available, s));
    }
  }

  /** A listed packet has reached every available connection by the end of the call, provided that, when its turn
      comes, no pair of a packet at a higher address names one of them. */
  lemma SendReachesAll(n: Node, i: nat)
    requires i < |n.broadcast|
    requires forall e | e in BroadcastPass(n.broadcast[..i], AvailableHandles(n.connections), AfterTargeted(n)).ledger
                        && e.key > n.broadcast[i] :: e.value !in AvailableHandles(n.connections)
    ensures forall h | h in AvailableHandles(n.connections) :: Entry(n.broadcast[i], h) in SendPackets(n).ledger
  {
    hide BroadcastPass, BroadcastTo, AvailableHandles, Extends;
    var available, key := AvailableHandles(n.connections), n.broadcast[i];
    var s := BroadcastPass(n.broadcast[..i], available, AfterTargeted(n));
    var t := BroadcastTo(key, available, s);
    var u := BroadcastPass(n.broadcast[i + 1..], available, t);
    assert u == AfterBroadcast(n) by {
      OneMore(n.broadcast, i, available, AfterTargeted(n));
    }
    BroadcastPassExtends(n.broadcast[i + 1..], available, t);
    forall h | h in available
      ensures Entry(key, h) in u.ledger
    {
      var j :| 0 <= j < |available| && available[j] == h;
      BroadcastReaches(key, available, s, j);
      ExtendsLedger(t, u, Entry(key, h));
    }
  }

  /** No packet listed before this one lies at a higher address, and no pair there is of a packet at a higher
      address and names an available connection. */
  ghost predicate TurnIsClear(n: Node, i: nat)
    requires i < |n.broadcast|
  {
    && (forall j | 0 <= j < i :: n.broadcast[j] <= n.broadcast[i])
    && (forall e | e in n.ledger && e.key > n.broadcast[i] :: e.value !in AvailableHandles(n.connections))
    && (forall e | e in n.targeted && e.key > n.broadcast[i] :: e.value !in AvailableHandles(n.connections))
  }

  /** So a listed packet whose turn is clear before the call reaches every available connection in it. */
  lemma ClearTurnReachesAll(n: Node, i: nat)
    requires i < |n.broadcast| && TurnIsClear(n, i)
    ensures forall h | h in AvailableHandles(n.connections) :: Entry(n.broadcast[i], h) in SendPackets(n).ledger
  {
    hide TargetedPass, BroadcastPass, AvailableHandles;
    var s, t, available := Sending(n.ledger, n.sent), AfterTargeted(n), AvailableHandles(n.connections);
    var u := BroadcastPass(n.broadcast[..i], available, t);
    SendAddsNewPairs(n);
    BroadcastPassExtends(n.broadcast[..i], available, t);
    assert forall k | k in n.broadcast[..i] :: k <= n.broadcast[i];
    forall e | e in u.ledger && e.key > n.broadcast[i]
      ensures e.value !in available
    {
      assert e !in u.sent[|t.sent|..];
    }
    SendReachesAll(n, i);
  }

  lemma OneMore(list: seq<nat>, i: nat, available: seq<nat>, s: Sending)
    requires i < |list|
    ensures BroadcastPass(list, available, s)
            == BroadcastPass(list[i + 1..], available,
                             BroadcastTo(list[i], available, BroadcastPass(list[..i], available, s)))
  {
    assert list == list[..i] + list[i..] && list[i..][1..] == list[i + 1..];
    BroadcastPassJoin(list[..i], list[i..], available, s);
  }
}
