/** The queues of printed packets waiting for the Bluetooth stack to take them, one for notifications and one for
    writes; both work the same way. */
module RawQueues {
  import opened Binary
  import opened Multimap

  type Queued = seq<Entry<Bytes>>

  datatype Status = Success | UnknownConnection | OtherStatus

  predicate Removes(status: Status) {
    status.Success? || status.UnknownConnection?
  }

  /** The entry a callback for `h` takes: the first with a handle not below `h`, whosever it is. */
  function Served(q: Queued, h: nat): (r: Option<nat>)
    ensures r.Some? ==> r.value < |q|
  {
    var i := LowerBound(q, h);
    if i == |q| then None else Some(i)
  }

  ghost predicate FirstNotBelow(q: Queued, h: nat, i: int) {
    0 <= i < |q| && h <= q[i].key && forall j | 0 <= j < i :: q[j].key < h
  }

  /** The entry taken is the first for a handle not below; unless the stack refuses it, that entry goes. */
  ghost predicate HandsOver(q: Queued, h: nat, data: Bytes, status: Status, left: Queued) {
    exists i :: FirstNotBelow(q, h, i) && data == q[i].value
                && left == if status == OtherStatus then q else q[..i] + q[i + 1..]
  }

  function Without(q: Queued, i: nat): Queued
    requires i < |q|
  {
    q[..i] + q[i + 1..]
  }

  /** What is served is the oldest packet of the smallest waiting handle not below the one asked for. */
  lemma ServedIsOldest(q: Queued, h: nat)
    requires Sorted(q)
    ensures Served(q, h).None? <==> forall e | e in q :: e.key < h
    ensures Served(q, h).Some?
            ==> var e := q[Served(q, h).value];
                && h <= e.key && (forall f | f in q && h <= f.key :: e.key <= f.key)
                && Values(q, e.key) != [] && e.value == Values(q, e.key)[0]
  {
    var i := LowerBound(q, h);
    if i < |q| {
      assert q[i] in q;
      forall f | f in q && h <= f.key
        ensures q[i].key <= f.key
      {
        var j :| 0 <= j < |q| && q[j] == f;
        assert i <= j;
      }
      assert forall e | e in q[..i] :: e.key < h;
      NoValues(q[..i], q[i].key);
      assert q == q[..i] + q[i..];
      ValuesOfJoin(q[..i], q[i..], q[i].key);
    }
  }

  /** So a callback hands its handle another one's packet exactly when it has none of its own and a larger
      handle has. */
  lemma MisdirectedIff(q: Queued, h: nat)
    requires Sorted(q)
    ensures (Served(q, h).Some? && q[Served(q, h).value].key != h)
            <==> (forall e | e in q :: e.key != h) && exists e :: e in q && e.key > h
  {
    ServedIsOldest(q, h);
    if Served(q, h).Some? {
      var e := q[Served(q, h).value];
      assert e in q;
    }
  }

  // ---- runs ----

  datatype Op = Emplace(handle: nat, data: Bytes) | Fire(handle: nat, status: Status)

  /** The queue, and what has happened: everything put in, everything taken out under the handle it was put in
      for, and the same under the handle it was handed to. */
  datatype Run = Run(queue: Queued, emplaced: Queued, removed: Queued, accepted: Queued)

  function Do(r: Run, op: Op): Run {
    match op
    case Emplace(h, data) => r.(queue := Insert(r.queue, h, data), emplaced := r.emplaced + [Entry(h, data)])
    case Fire(h, status) =>
      match Served(r.queue, h)
      case Some(i) =>
        if Removes(status) then
          r.(queue := Without(r.queue, i), removed := r.removed + [r.queue[i]],
             accepted := r.accepted + [Entry(h, r.queue[i].value)])
        else r
      case None => r
  }

  function DoAll(r: Run, ops: seq<Op>): Run
    decreases |ops|
  {
    if ops == [] then r else DoAll(Do(r, ops[0]), ops[1..])
  }

  /** Nothing is lost or made up, and the packets of each handle leave in the order they came. */
  ghost predicate Conserved(r: Run) {
    && Sorted(r.queue)
    && multiset(r.emplaced) == multiset(r.removed) + multiset(r.queue)
    && forall k: nat :: Values(r.emplaced, k) == Values(r.removed, k) + Values(r.queue, k)
  }

  class RawQueue {
    var queue: Queued
    /** The queue with its past. */
    ghost var history: Run

    ghost predicate Valid()
      reads this
    {
      history.queue == queue && Conserved(history)
    }

    constructor ()
      ensures Valid() && queue == [] && history == Run([], [], [], [])
    {
      queue := [];
      history := Run([], [], [], []);
    }

    method EmplacePacket(handle: nat, data: Bytes)
      requires Valid()
      modifies this
      ensures Valid() && history == Do(old(history), Emplace(handle, data))
    {
      DoConserves(history, Emplace(handle, data));
      queue := Insert(queue, handle, data);
      history := Do(history, Emplace(handle, data));
    }

    /** The stack is ready for `handle`; `status` is what it will say to what it is handed. */
    method CanSend(handle: nat, status: Status) returns (handed: Option<Bytes>, again: bool)
      requires Valid()
      modifies this
      ensures Valid() && history == Do(old(history), Fire(handle, status))
      ensures handed.None? ==> queue == old(queue) && forall e | e in queue :: e.key < handle
      ensures handed.Some? ==> HandsOver(old(queue), handle, handed.value, status, queue)
      ensures again <==> exists e :: e in queue && e.key >= handle
    {
      hide Conserved, Values;
      DoConserves(history, Fire(handle, status));
      handed := None;
      var first := LowerBound(queue, handle);
      if first != |queue| {
        var data := queue[first].value;
        handed := Some(data);
        if status == Success || status == UnknownConnection {
          queue := queue[..first] + queue[first + 1..];
        }
      }
      assert handed.Some? ==> FirstNotBelow(old(queue), handle, first);
      history := Do(history, Fire(handle, status));
      first := LowerBound(queue, handle);
      again := first != |queue|;
      assert again ==> queue[first] in queue;
    }
  }

  lemma InsertMultiset(q: Queued, k: nat, v: Bytes)
    ensures multiset(Insert(q, k, v)) == multiset(q) + multiset{Entry(k, v)}
  {
    var i := UpperBound(q, k);
    assert q == q[..i] + q[i..];
  }

  lemma ServedOrder(q: Queued, h: nat, k: nat)
    requires Sorted(q) && Served(q, h).Some?
    ensures var i := Served(q, h).value; Values(q, k) == Values([q[i]], k) + Values(Without(q, i), k)
  {
    hide Values;
    var i := Served(q, h).value;
    var a, b, c := q[..i], [q[i]], q[i + 1..];
    assert q == a + (b + c);
    ValuesOfJoin(a, b + c, k);
    ValuesOfJoin(b, c, k);
    ValuesOfJoin(a, c, k);
    OneValue(q[i], k);
    if k == q[i].key {
      NoValues(a, k);
      assert [] + (Values(b, k) + Values(c, k)) == Values(b, k) + ([] + Values(c, k));
    } else {
      assert Values(a, k) + ([] + Values(c, k)) == [] + (Values(a, k) + Values(c, k));
    }
  }

  lemma ServedLeaves(q: Queued, h: nat)
    requires Sorted(q) && Served(q, h).Some?
    ensures var i := Served(q, h).value;
            Sorted(Without(q, i)) && multiset(q) == multiset(Without(q, i)) + multiset{q[i]}
  {
    var i := Served(q, h).value;
    assert q == q[..i] + ([q[i]] + q[i + 1..]);
  }

  lemma EmplaceConserves(r: Run, h: nat, data: Bytes)
    requires Conserved(r)
    ensures Conserved(Do(r, Emplace(h, data)))
  {
    hide Values, Insert;
    var s := Do(r, Emplace(h, data));
    InsertSorted(r.queue, h, data);
    InsertMultiset(r.queue, h, data);
    forall k: nat
      ensures Values(s.emplaced, k) == Values(s.removed, k) + Values(s.queue, k)
    {
      InsertAppends(r.queue, h, data, k);
      ValuesOfJoin(r.emplaced, [Entry(h, data)], k);
      OneValue(Entry(h, data), k);
      var d := if h == k then [data] else [];
      assert Values(r.removed, k) + Values(r.queue, k) + d == Values(r.removed, k) + (Values(r.queue, k) + d);
    }
  }

  lemma FireConserves(r: Run, h: nat, status: Status)
    requires Conserved(r)
    ensures Conserved(Do(r, Fire(h, status)))
  {
    hide Values, Insert, Without;
    if Served(r.queue, h).Some? && Removes(status) {
      var s, i := Do(r, Fire(h, status)), Served(r.queue, h).value;
      ServedLeaves(r.queue, h);
      forall k: nat
        ensures Values(s.emplaced, k) == Values(s.removed, k) + Values(s.queue, k)
      {
        ServedOrder(r.queue, h, k);
        ValuesOfJoin(r.removed, [r.queue[i]], k);
        var served := Values([r.queue[i]], k);
        assert Values(r.removed, k) + (served + Values(s.queue, k))
            == Values(r.removed, k) + served + Values(s.queue, k);
      }
    }
  }

  lemma DoConserves(r: Run, op: Op)
    requires Conserved(r)
    ensures Conserved(Do(r, op))
  {
    match op
    case Emplace(h, data) => EmplaceConserves(r, h, data);
    case Fire(h, status) => FireConserves(r, h, status);
  }

  lemma {:induction false} RunConserves(r: Run, ops: seq<Op>)
    requires Conserved(r)
    ensures Conserved(DoAll(r, ops))
    decreases |ops|
  {
    if ops != [] {
      DoConserves(r, ops[0]);
      RunConserves(Do(r, ops[0]), ops[1..]);
    }
  }

  /** The callback takes another handle's packet out of the queue. */
  ghost predicate Misdirects(r: Run, op: Op) {
    op.Fire? && Removes(op.status) && Served(r.queue, op.handle).Some?
    && r.queue[Served(r.queue, op.handle).value].key != op.handle
  }

  // ---- what the stack takes and what it refuses ----

  /** Every callback that hands something over: for which handle, what, and what the stack says to it. */
  datatype Handover = Handover(handle: nat, data: Bytes, status: Status)

  function Handed(r: Run, ops: seq<Op>): seq<Handover>
    decreases |ops|
  {
    if ops == [] then []
    else
      (if ops[0].Fire? && Served(r.queue, ops[0].handle).Some? then
         [Handover(ops[0].handle, r.queue[Served(r.queue, ops[0].handle).value].value, ops[0].status)]
       else [])
      + Handed(Do(r, ops[0]), ops[1..])
  }

  /** The handovers that succeeded, or went to a connection that is gone. */
  function Gone(handovers: seq<Handover>): Queued {
    if handovers == [] then []
    else
      var h := handovers[0];
      (if h.status == Success || h.status == UnknownConnection then [Entry(h.handle, h.data)] else [])
      + Gone(handovers[1..])
  }

  /** Over any run, what leaves the queue under a handle is exactly what was handed over with one of those two
      answers, in that order. */
  lemma {:induction false} AcceptedIsHanded(r: Run, ops: seq<Op>)
    ensures DoAll(r, ops).accepted == r.accepted + Gone(Handed(r, ops))
    decreases |ops|
  {
    hide Served, Insert, Without;
    if ops != [] {
      var s := Do(r, ops[0]);
      AcceptedIsHanded(s, ops[1..]);
      var first := if ops[0].Fire? && Served(r.queue, ops[0].handle).Some? then
        [Handover(ops[0].handle, r.queue[Served(r.queue, ops[0].handle).value].value, ops[0].status)] else [];
      GoneJoin(first, Handed(s, ops[1..]));
      assert s.accepted == r.accepted + Gone(first);
    }
  }

  lemma GoneJoin(first: seq<Handover>, rest: seq<Handover>)
    requires |first| <= 1
    ensures Gone(first + rest) == Gone(first) + Gone(rest)
  {
    if first != [] {
      assert (first + rest)[1..] == rest && first[1..] == [];
    } else {
      assert first + rest == rest;
    }
  }

  /** What the stack refuses stays where it is, and is what the next callback for the handle hands over. */
  lemma RefusedIsHandedAgain(r: Run, h: nat, status: Status)
    ensures Do(r, Fire(h, OtherStatus)) == r
    ensures Served(r.queue, h).Some?
            ==> Handed(r, [Fire(h, OtherStatus), Fire(h, status)])
                == (var data := r.queue[Served(r.queue, h).value].value;
                    [Handover(h, data, OtherStatus), Handover(h, data, status)])
  {
    hide Served;
    var ops := [Fire(h, OtherStatus), Fire(h, status)];
    assert ops[1..] == [Fire(h, status)] && ops[1..][1..] == [];
    assert Handed(Do(r, ops[1]), []) == [];
    assert Handed(r, ops[1..]) == Handed(Do(r, ops[0]), ops[1..]);
  }

  ghost predicate NoneMisdirects(r: Run, ops: seq<Op>)
    decreases |ops|
  {
    ops == [] || (!Misdirects(r, ops[0]) && NoneMisdirects(Do(r, ops[0]), ops[1..]))
  }

  /** What was accepted under other handles once stays in the record. */
  lemma {:induction false} RecordsGrow(r: Run, ops: seq<Op>)
    ensures r.accepted <= DoAll(r, ops).accepted && r.removed <= DoAll(r, ops).removed
    decreases |ops|
  {
    hide Insert, Served, Without;
    if ops != [] {
      RecordsGrow(Do(r, ops[0]), ops[1..]);
    }
  }

  lemma DoRecords(r: Run, op: Op)
    requires r.accepted == r.removed
    ensures var s := Do(r, op);
            && |s.accepted| == |s.removed| && (s.accepted == s.removed <==> !Misdirects(r, op))
  {
    hide Insert, Served, Without;
    var s := Do(r, op);
    if op.Fire? && Served(r.queue, op.handle).Some? && Removes(op.status) {
      assert s.accepted[|r.accepted|] == Entry(op.handle, r.queue[Served(r.queue, op.handle).value].value);
      assert s.removed[|r.removed|] == r.queue[Served(r.queue, op.handle).value];
    }
  }

  /** Over any run, every packet went to the handle it was put in for exactly when no callback of the run took
      another handle's packet. */
  lemma {:induction false} AllDirectedIff(r: Run, ops: seq<Op>)
    requires r.accepted == r.removed
    ensures DoAll(r, ops).accepted == DoAll(r, ops).removed <==> NoneMisdirects(r, ops)
    decreases |ops|
  {
    hide Do;
    if ops != [] {
      var s := Do(r, ops[0]);
      DoRecords(r, ops[0]);
      if s.accepted == s.removed {
        AllDirectedIff(s, ops[1..]);
      } else {
        RecordsGrow(s, ops[1..]);
        var all := DoAll(s, ops[1..]);
        assert all.accepted[..|s.accepted|] == s.accepted && all.removed[..|s.removed|] == s.removed;
      }
    }
  }

  /** Then each handle is handed exactly its own packets, in order, and the rest are still waiting. */
  lemma EachHandleGetsItsOwn(r: Run, ops: seq<Op>, k: nat)
    requires Conserved(r) && r.accepted == r.removed && NoneMisdirects(r, ops)
    ensures var s := DoAll(r, ops);
            s.accepted == s.removed && Values(s.emplaced, k) == Values(s.accepted, k) + Values(s.queue, k)
  {
    AllDirectedIff(r, ops);
    RunConserves(r, ops);
  }

  /** Once a handle's last packet is gone while a larger handle has one, the code asks to be called again for it,
      and if the stack does and accepts, that callback takes the other handle's packet. */
  lemma OwnRequestMisdirects(r: Run, h: nat, first: Status, second: Status)
    requires Conserved(r) && Removes(first) && Removes(second) && |Values(r.queue, h)| == 1
    requires exists e :: e in r.queue && e.key > h
    ensures var s := Do(r, Fire(h, first));
            !Misdirects(r, Fire(h, first)) && Served(s.queue, h).Some? && Misdirects(s, Fire(h, second))
  {
    hide Values, Conserved;
    var s := Do(r, Fire(h, first));
    SortedQueue(r);
    SomeValue(r.queue, h);
    MisdirectedIff(r.queue, h);
    ServedIsOldest(r.queue, h);
    var i := Served(r.queue, h).value;
    ServedLeaves(r.queue, h);
    ServedOrder(r.queue, h, h);
    OneValue(r.queue[i], h);
    SomeValue(s.queue, h);
    var e :| e in r.queue && e.key > h;
    assert e in multiset(r.queue);
    assert e in multiset(s.queue);
    MisdirectedIff(s.queue, h);
  }

  lemma SortedQueue(r: Run)
    requires Conserved(r)
    ensures Sorted(r.queue)
  {}

  lemma {:induction false} SomeValue(q: Queued, k: nat)
    ensures Values(q, k) == [] <==> forall e | e in q :: e.key != k
  {
    if q != [] {
      SomeValue(q[1..], k);
      assert forall e :: e in q <==> e == q[0] || e in q[1..];
    }
  }
}
