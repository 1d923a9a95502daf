/** Runs of the ring buffer against the queue. */
module RingRuns {
  import opened Binary
  import opened Lines
  import opened Ring
  import opened CircularBuffers

  datatype Op =
    | WriteChar(c: char)
    | WriteText(s: string)
    | ConsumeOne
    | ConsumeInPlace
    | ConsumeCopy(size: nat)
    | DrainOneLine(size: nat)
    | ClearAll
    | ClearWhenEmpty

  /** The queue; what the slot behind the last holds; and whether any slot at all, that one too, stops a search for
      a newline. */
  datatype RingState = RingState(items: string, start: nat, behind: char, stopped: bool) {
    function AsQueue(): Queue {
      Queue(items, start)
    }

    function With(q: Queue): RingState {
      this.(items := q.items, start := q.start)
    }

    function Wrote(q: Queue, seals: bool): RingState {
      RingState(q.items, q.start, if seals then END_ITEM else behind, true)
    }
  }

  ghost function StateOf(b: CircularBuffer): RingState
    requires b.Valid()
    reads b, b.buffer
  {
    RingState(b.Items(), b.tail, b.buffer[b.fixedSize], !Overruns(b.buffer[..], 0))
  }

  /** The slot the next item goes to. */
  function Head(slots: nat, q: RingState): (h: nat)
    requires q.start < slots && |q.items| < slots
    ensures h < slots
  {
    if q.start + |q.items| < slots then q.start + |q.items| else q.start + |q.items| - slots
  }

  /** The writes that put the end item into the slot behind the last: of an item into the last slot, of a string
      that ends there. */
  predicate Seals(slots: nat, q: RingState, op: Op)
    requires q.start < slots && |q.items| < slots
  {
    match op
    case WriteChar(_) => Head(slots, q) == slots - 1
    case WriteText(s) => if s != "" then (Head(slots, q) + |s|) % slots == 0 else slots == 1
    case _ => false
  }

  /** The operations that mean what they say; the others are characterised at the methods themselves. */
  ghost predicate Allowed(slots: nat, q: RingState, op: Op)
    requires q.start < slots && |q.items| < slots
  {
    match op
    case WriteChar(c) => !(slots > 1 && q.start == 0 && |q.items| == slots - 1)
    case WriteText(s) => s != "" && NulFree(s) && |s| <= 0xFFFF
    case ConsumeCopy(size) => size > 0
    case DrainOneLine(size) =>
      && 0 < size <= 0xFFFF && NulFree(q.items) && Readable(slots, q)
      && (q.start + |q.items| >= slots ==> DrainsAcross(slots, q, size))
    case _ => true
  }

  /** The search for a line's end stays in the slots. */
  ghost predicate Readable(slots: nat, q: RingState)
    requires q.start < slots && |q.items| < slots
  {
    || q.behind == END_ITEM || q.behind == NEWLINE
    || (if q.start + |q.items| < slots then q.start + |q.items| != 0 || q.stopped
        else FirstNewline(q.items[..slots - q.start]).Some?)
  }

  /** A wrapped buffer drains well when there is a newline in its first segment or in the slot behind the last, when
      the space is that of the first segment, or when its second segment is not empty and the space is enough for
      all of the first or not more than the second. */
  ghost predicate DrainsAcross(slots: nat, q: RingState, size: nat)
    requires q.start < slots <= q.start + |q.items|
  {
    var first, second := slots - q.start, q.start + |q.items| - slots;
    || FirstNewline(q.items[..first]).Some? || q.behind == NEWLINE || size == first
    || (second != 0 && (first < size || size <= second))
  }

  /** One operation on the queue: what is left, and what comes out. */
  function Step(slots: nat, q: RingState, op: Op): (r: (RingState, string))
    requires q.start < slots && |q.items| < slots
    ensures r.0.start < slots && |r.0.items| < slots
  {
    match op
    case WriteChar(c) => (q.Wrote(Append(slots, q.AsQueue(), [c]), Seals(slots, q, op)), "")
    case WriteText(s) => (q.Wrote(Append(slots, q.AsQueue(), s), Seals(slots, q, op)), "")
    case ConsumeOne => Out(slots, q, Min(1, |q.items|))
    case ConsumeInPlace => Out(slots, q, FirstSegment(slots, q.AsQueue()))
    case ConsumeCopy(size) => Out(slots, q, Min(size, FirstSegment(slots, q.AsQueue())))
    case DrainOneLine(size) => Out(slots, q, LineIn(slots, q, size))
    case ClearAll => (RingState("", 0, q.behind, true), "")
    case ClearWhenEmpty => (if q.items == "" then q.(start := 0) else q, "")
  }

  function LineIn(slots: nat, q: RingState, size: nat): (n: nat)
    requires q.start < slots && |q.items| < slots
    ensures n <= |q.items|
  {
    var first := FirstSegment(slots, q.AsQueue());
    LineLength(q.items[..first], if q.behind == NEWLINE then "" else q.items[first..], size)
  }

  function Out(slots: nat, q: RingState, n: nat): (r: (RingState, string))
    requires q.start < slots && |q.items| < slots && n <= |q.items|
    ensures r.0.start < slots && |r.0.items| < slots
  {
    (q.With(Take(slots, q.AsQueue(), n)), q.items[..n])
  }

  function After(slots: nat, q: RingState, ops: seq<Op>): (r: RingState)
    requires q.start < slots && |q.items| < slots
    ensures r.start < slots && |r.items| < slots
    decreases |ops|
  {
    if ops == [] then q else After(slots, Step(slots, q, ops[0]).0, ops[1..])
  }

  function Outputs(slots: nat, q: RingState, ops: seq<Op>): (outs: seq<string>)
    requires q.start < slots && |q.items| < slots
    ensures |outs| == |ops|
    decreases |ops|
  {
    if ops == [] then [] else [Step(slots, q, ops[0]).1] + Outputs(slots, Step(slots, q, ops[0]).0, ops[1..])
  }

  ghost predicate AllAllowed(slots: nat, q: RingState, ops: seq<Op>)
    requires q.start < slots && |q.items| < slots
    decreases |ops|
  {
    ops == [] || (Allowed(slots, q, ops[0]) && AllAllowed(slots, Step(slots, q, ops[0]).0, ops[1..]))
  }

  function Written(op: Op): string {
    match op
    case WriteChar(c) => [c]
    case WriteText(s) => s
    case _ => ""
  }

  function AllWritten(ops: seq<Op>): string {
    if ops == [] then "" else Written(ops[0]) + AllWritten(ops[1..])
  }

  /** One operation on the buffer does to its state what it does to the queue's. */
  method Perform(b: CircularBuffer, op: Op) returns (out: string)
    requires b.Valid() && Allowed(b.fixedSize, StateOf(b), op)
    modifies b, b.buffer
    ensures b.Valid() && (StateOf(b), out) == Step(b.fixedSize, old(StateOf(b)), op)
  {
    hide LineLength, ItemsOf, FirstSegment, Misdrains, Append, Take, DrainsAcross, Readable, Overruns;
    ghost var before := StateOf(b);
    out := "";
    HeadIs(b.fixedSize, b.head, b.tail, before);
    TakeNothing(b.fixedSize, before.AsQueue());
    match op {
      case WriteChar(c) =>
        HeldFromTop(b.fixedSize, b.head, b.tail);
        b.WriteItem(c);
        Stops(b.buffer[..]);
      case WriteText(s) =>
        b.WriteString(s);
        Stops(b.buffer[..]);
      case ConsumeOne =>
        if !b.Empty() {
          b.FullIff();
          var item := b.Consume();
          out := [item];
          assert [item] == before.items[..1];
        } else {
          b.FullIff();
          var item := b.Consume();
          assert before.items[..0] == "";
        }
      case ConsumeInPlace =>
        var start, len := b.ConsumeBlockInPlace();
        out := b.buffer[start..start + len];
      case ConsumeCopy(size) =>
        var block := new char[size];
        var len := b.ConsumeBlock(block, size);
        out := block[..len];
      case DrainOneLine(size) =>
        assert b.buffer[..][..b.fixedSize] == b.Cells();
        NoMisdrain(b.buffer[..], b.head, b.tail, size, before);
        ReadableStays(b.buffer[..], b.head, b.tail, before);
        var line := new char[size + 1];
        var len := b.ConsumeLine(line, size);
        out := line[..len];
      case ClearAll =>
        b.Clear();
        Stops(b.buffer[..]);
      case ClearWhenEmpty =>
        b.ClearIfEmpty();
    }
  }

  lemma Stops(slots: string)
    requires END_ITEM in slots
    ensures !Overruns(slots, 0)
  {}

  lemma TakeNothing(slots: nat, q: Queue)
    requires q.start < slots
    ensures Take(slots, q, 0) == q
  {
    ModSmall(q.start, slots);
  }

  lemma HeadIs(slots: nat, head: nat, tail: nat, q: RingState)
    requires head < slots && tail < slots && q.start == tail && |q.items| == Held(slots, head, tail)
    ensures Head(slots, q) == head
  {}

  lemma ReadableStays(slots: string, head: nat, tail: nat, q: RingState)
    requires head < |slots| - 1 && tail < |slots| - 1 && (head != 0 ==> slots[head] == END_ITEM)
    requires q == RingState(ItemsOf(slots[..|slots| - 1], head, tail), tail, slots[|slots| - 1], !Overruns(slots, 0))
    requires NulFree(q.items) && Readable(|slots| - 1, q)
    ensures !Overruns(slots, tail)
  {
    hide FirstNewline, ItemsOf;
    SegmentIsFirst(slots, head, tail);
    OverrunsIff(slots, head, tail);
    if head == tail == 0 {
      assert forall j | 0 <= j < |slots| - 1 :: slots[j] in slots[..|slots| - 1] by {
        assert forall j | 0 <= j < |slots| - 1 :: slots[..|slots| - 1][j] == slots[j];
      }
    }
  }

  lemma HeldFromTop(slots: nat, head: nat, tail: nat)
    requires head < slots && tail < slots
    ensures tail == 0 && Held(slots, head, tail) == slots - 1 <==> tail == 0 && head == slots - 1
  {}

  lemma NoMisdrain(slots: string, head: nat, tail: nat, size: nat, q: RingState)
    requires head < |slots| - 1 && tail < |slots| - 1
    requires q.items == ItemsOf(slots[..|slots| - 1], head, tail) && q.start == tail && q.behind == slots[|slots| - 1]
    requires tail + |q.items| >= |slots| - 1 ==> DrainsAcross(|slots| - 1, q, size)
    ensures !Misdrains(slots, head, tail, size)
  {
    SegmentIsFirst(slots, head, tail);
  }

  /** Every run of the buffer is a run of the queue. */
  method Run(b: CircularBuffer, ops: seq<Op>) returns (outs: seq<string>)
    requires b.Valid() && AllAllowed(b.fixedSize, StateOf(b), ops)
    modifies b, b.buffer
    ensures b.Valid() && StateOf(b) == After(b.fixedSize, old(StateOf(b)), ops)
    ensures outs == Outputs(b.fixedSize, old(StateOf(b)), ops)
    ensures b.Full() <==> |StateOf(b).items| == b.fixedSize - 1 && StateOf(b).start != 0
  {
    hide Step, Allowed, ItemsOf, After, Outputs, AllAllowed, Overruns;
    outs := [];
    ghost var q := StateOf(b);
    var i := 0;
    assert ops[0..] == ops;
    assert [] + Outputs(b.fixedSize, q, ops) == Outputs(b.fixedSize, q, ops);
    while i < |ops|
      invariant i <= |ops| && |outs| == i && b.Valid()
      invariant AllAllowed(b.fixedSize, StateOf(b), ops[i..])
      invariant After(b.fixedSize, StateOf(b), ops[i..]) == After(b.fixedSize, q, ops)
      invariant outs + Outputs(b.fixedSize, StateOf(b), ops[i..]) == Outputs(b.fixedSize, q, ops)
    {
      RunStep(b.fixedSize, StateOf(b), ops, i);
      var out := Perform(b, ops[i]);
      ghost var later := Outputs(b.fixedSize, StateOf(b), ops[i + 1..]);
      assert outs + ([out] + later) == outs + [out] + later;
      outs := outs + [out];
      i := i + 1;
    }
    RunEnd(b.fixedSize, StateOf(b), ops);
    b.FullIff();
  }

  lemma RunStep(slots: nat, q: RingState, ops: seq<Op>, i: nat)
    requires q.start < slots && |q.items| < slots && i < |ops|
    ensures var (q', out) := Step(slots, q, ops[i]);
            && After(slots, q, ops[i..]) == After(slots, q', ops[i + 1..])
            && Outputs(slots, q, ops[i..]) == [out] + Outputs(slots, q', ops[i + 1..])
            && (AllAllowed(slots, q, ops[i..]) ==> Allowed(slots, q, ops[i]) && AllAllowed(slots, q', ops[i + 1..]))
  {
    assert ops[i..][1..] == ops[i + 1..];
  }

  lemma RunEnd(slots: nat, q: RingState, ops: seq<Op>)
    requires q.start < slots && |q.items| < slots
    ensures After(slots, q, ops[|ops|..]) == q && Outputs(slots, q, ops[|ops|..]) == []
  {}

  // ---- a search that leaves the slots ----

  /** From a new ring to a wrapped one with nothing written to the slot behind the last: `behind`, as the allocator
      left it, decides whether a drain's search for a newline stays in the slots. */
  method UnsealedWrap() returns (b: CircularBuffer, behind: char)
    ensures fresh(b) && b.Valid() && b.fixedSize == 4 && b.Contents() == Queue("cde", 2) && b.head < b.tail
    ensures b.buffer[b.fixedSize] == behind
    ensures Overruns(b.buffer[..], b.tail) <==> behind != END_ITEM && behind != NEWLINE
  {
    hide Append, Take, ItemsOf, Overruns, FirstNewline, Segment;
    UnsealedQueue();
    b := new CircularBuffer(4);
    behind := b.buffer[4];
    b.WriteString("abc");
    b.FullIff();
    var first := b.Consume();
    b.FullIff();
    var second := b.Consume();
    b.WriteString("de");
    assert b.buffer[..][..4] == b.Cells();
    OverrunsIff(b.buffer[..], b.head, b.tail);
    SegmentIsFirst(b.buffer[..], b.head, b.tail);
  }

  lemma UnsealedQueue()
    ensures Append(4, Queue("", 0), "abc") == Queue("abc", 0)
    ensures Take(4, Queue("abc", 0), 1) == Queue("bc", 1) && Take(4, Queue("bc", 1), 1) == Queue("c", 2)
    ensures Append(4, Queue("c", 2), "de") == Queue("cde", 2)
    ensures FirstNewline("cde"[..2]).None?
  {
    hide FirstNewline;
    assert "" + "abc" == "abc" && "abc"[1..] == "bc" && "bc"[1..] == "c" && "c" + "de" == "cde";
    assert "cde"[..2] == "cd";
    assert NEWLINE !in "cd";
  }

  // ---- what runs of the queue keep ----

  lemma LastOfLast(s: string, t: string, k: nat)
    ensures LastOf(LastOf(s, k) + t, k) == LastOf(s + t, k)
  {}

  lemma WriteStep(slots: nat, q: RingState, op: Op)
    requires q.start < slots && |q.items| < slots && (op.WriteChar? || op.WriteText?)
    ensures Step(slots, q, op).0.items == LastOf(q.items + Written(op), slots - 1)
  {}

  /** Writes alone keep exactly the last `slots - 1` of what was there and what was written. */
  lemma {:induction false} WritesKeepTheLast(slots: nat, q: RingState, ops: seq<Op>)
    requires q.start < slots && |q.items| < slots
    requires forall op | op in ops :: op.WriteChar? || op.WriteText?
    ensures After(slots, q, ops).items == LastOf(q.items + AllWritten(ops), slots - 1)
    decreases |ops|
  {
    hide Step, LastOf;
    if ops == [] {
      assert q.items + "" == q.items;
      LastOfShort(q.items, slots - 1);
    } else {
      var s := Written(ops[0]);
      WriteStep(slots, q, ops[0]);
      WritesKeepTheLast(slots, Step(slots, q, ops[0]).0, ops[1..]);
      LastOfLast(q.items + s, AllWritten(ops[1..]), slots - 1);
      assert q.items + AllWritten(ops) == q.items + s + AllWritten(ops[1..]);
    }
  }

  /** The outputs are blocks of the stream, one behind the other, starting no earlier than `from`. */
  ghost predicate InOrder(stream: string, outs: seq<string>, at: seq<nat>, from: nat, to: nat) {
    && |at| == |outs| && from <= to <= |stream|
    && (forall i | 0 <= i < |outs| ::
          from <= at[i] && at[i] + |outs[i]| <= to && stream[at[i]..at[i] + |outs[i]|] == outs[i])
    && (forall i, j | 0 <= i < j < |outs| :: at[i] + |outs[i]| <= at[j])
  }

  /** Over every run, clears and overflows included, the contents are the end of the stream of everything ever
      held or written, and the outputs are disjoint blocks of it in order: nothing is repeated or reordered. */
  lemma {:induction false} NothingRepeatedOrReordered(slots: nat, q: RingState, ops: seq<Op>, stream: string)
    returns (at: seq<nat>)
    requires q.start < slots && |q.items| < slots
    requires |stream| >= |q.items| + |AllWritten(ops)|
    requires stream[|stream| - |q.items| - |AllWritten(ops)|..] == q.items + AllWritten(ops)
    ensures var rest := After(slots, q, ops).items;
            && |rest| <= |stream| && stream[|stream| - |rest|..] == rest
            && InOrder(stream, Outputs(slots, q, ops), at, |stream| - |q.items| - |AllWritten(ops)|, |stream| - |rest|)
    decreases |ops|
  {
    hide Step, InOrder;
    if ops == [] {
      at := [];
      assert q.items + "" == q.items;
      InOrderNil(stream, |stream| - |q.items|);
    } else {
      var (q', out) := Step(slots, q, ops[0]);
      var from, total := |stream| - |q.items| - |AllWritten(ops)|, q.items + AllWritten(ops);
      StepConserves(slots, q, ops[0]);
      var gone := |q.items| + |Written(ops[0])| - |q'.items|;
      StreamAdvances(stream, from, q.items, Written(ops[0]), AllWritten(ops[1..]), q'.items, gone, out);
      var rest := NothingRepeatedOrReordered(slots, q', ops[1..], stream);
      at := [from] + rest;
      assert Outputs(slots, q, ops) == [out] + Outputs(slots, q', ops[1..]);
      InOrderCons(stream, out, Outputs(slots, q', ops[1..]), from, rest, from + gone,
                  |stream| - |After(slots, q, ops).items|);
    }
  }

  lemma StreamAdvances(stream: string, from: nat, items: string, s: string, later: string, items': string,
                       gone: nat, out: string)
    requires from <= |stream| && stream[from..] == items + (s + later)
    requires gone <= |items + s| && items' == (items + s)[gone..] && |out| <= |items| && out == items[..|out|]
    ensures |stream| - |items'| - |later| == from + gone && stream[from + gone..] == items' + later
    ensures from + |out| <= |stream| && stream[from..from + |out|] == out
  {
    var total := items + (s + later);
    assert total == items + s + later;
    assert total[gone..] == items' + later;
    assert stream[from + gone..] == stream[from..][gone..];
    assert stream[from..from + |out|] == stream[from..][..|out|] == total[..|out|] == items[..|out|];
  }

  lemma InOrderNil(stream: string, from: nat)
    requires from <= |stream|
    ensures InOrder(stream, [], [], from, from)
  {}

  lemma InOrderCons(stream: string, out: string, outs: seq<string>, at0: nat, at: seq<nat>, from: nat, to: nat)
    requires InOrder(stream, outs, at, from, to)
    requires at0 + |out| <= from && stream[at0..at0 + |out|] == out
    ensures InOrder(stream, [out] + outs, [at0] + at, at0, to)
  {}

  lemma StepConserves(slots: nat, q: RingState, op: Op)
    requires q.start < slots && |q.items| < slots
    ensures var (q', out) := Step(slots, q, op);
            var gone := |q.items| + |Written(op)| - |q'.items|;
            && |out| <= gone && |out| <= |q.items| && out == q.items[..|out|]
            && 0 <= gone && q'.items == (q.items + Written(op))[gone..]
  {
    hide LineIn, FirstSegment, Append, Out;
    match op
    case WriteChar(c) => AppendConserves(slots, q.AsQueue(), [c]);
    case WriteText(s) => AppendConserves(slots, q.AsQueue(), s);
    case ClearAll => NothingAdded(q.items, |q.items|);
    case ClearWhenEmpty => NothingAdded(q.items, 0);
    case ConsumeOne => OutConserves(slots, q, Min(1, |q.items|));
    case ConsumeInPlace => OutConserves(slots, q, FirstSegment(slots, q.AsQueue()));
    case ConsumeCopy(size) => OutConserves(slots, q, Min(size, FirstSegment(slots, q.AsQueue())));
    case DrainOneLine(size) => OutConserves(slots, q, LineIn(slots, q, size));
  }

  lemma AppendConserves(slots: nat, q: Queue, s: string)
    requires 0 < slots
    ensures var kept := Append(slots, q, s).items;
            |kept| <= |q.items| + |s| && kept == (q.items + s)[|q.items| + |s| - |kept|..]
  {}

  lemma OutConserves(slots: nat, q: RingState, n: nat)
    requires q.start < slots && |q.items| < slots && n <= |q.items|
    ensures var (q', out) := Out(slots, q, n);
            |q'.items| == |q.items| - n && out == q.items[..n] && q'.items == (q.items + "")[n..]
  {}

  lemma NothingAdded(items: string, gone: nat)
    requires gone <= |items|
    ensures (items + "")[gone..] == items[gone..]
    ensures gone == |items| ==> items[gone..] == ""
    ensures gone == 0 ==> items[gone..] == items
  {}

  /** Every write of the run fits, and nothing is cleared away. */
  predicate AllFit(slots: nat, q: RingState, ops: seq<Op>)
    requires q.start < slots && |q.items| < slots
    decreases |ops|
  {
    ops == []
    || (!ops[0].ClearAll? && |q.items| + |Written(ops[0])| < slots && AllFit(slots, Step(slots, q, ops[0]).0, ops[1..]))
  }

  /** Over every run without clears in which every write fits, nothing is lost either. */
  lemma {:induction false} NothingLost(slots: nat, q: RingState, ops: seq<Op>)
    requires q.start < slots && |q.items| < slots && AllFit(slots, q, ops)
    ensures Flatten(Outputs(slots, q, ops)) + After(slots, q, ops).items == q.items + AllWritten(ops)
    decreases |ops|
  {
    hide Step;
    if ops != [] {
      var (q', out) := Step(slots, q, ops[0]);
      NothingLost(slots, q', ops[1..]);
      StepLosesNothing(slots, q, ops[0]);
      var outs, last, rest := Outputs(slots, q', ops[1..]), After(slots, q, ops).items, AllWritten(ops[1..]);
      assert Outputs(slots, q, ops)[1..] == outs;
      assert out + Flatten(outs) + last == out + (Flatten(outs) + last) == out + (q'.items + rest);
      assert out + (q'.items + rest) == out + q'.items + rest;
      assert q.items + Written(ops[0]) + rest == q.items + (Written(ops[0]) + rest);
    } else {
      assert q.items + "" == q.items == "" + q.items;
    }
  }

  lemma StepLosesNothing(slots: nat, q: RingState, op: Op)
    requires q.start < slots && |q.items| < slots && |q.items| + |Written(op)| < slots && !op.ClearAll?
    ensures var (q', out) := Step(slots, q, op); out + q'.items == q.items + Written(op)
  {
    hide LineIn, FirstSegment;
    assert q.items + "" == q.items;
    match op
    case WriteChar(c) =>
    case WriteText(s) =>
    case ClearWhenEmpty =>
    case ConsumeOne => Rejoin(q.items, Min(1, |q.items|));
    case ConsumeInPlace => Rejoin(q.items, FirstSegment(slots, q.AsQueue()));
    case ConsumeCopy(size) => Rejoin(q.items, Min(size, FirstSegment(slots, q.AsQueue())));
    case DrainOneLine(size) =>
      Rejoin(q.items, LineIn(slots, q, size));
  }

  lemma Rejoin(s: string, n: nat)
    requires n <= |s|
    ensures s[..n] + s[n..] == s
  {}

  function Flatten(pieces: seq<string>): string {
    if pieces == [] then "" else pieces[0] + Flatten(pieces[1..])
  }

  lemma FlattenJoin(a: seq<string>, b: seq<string>)
    ensures Flatten(a + b) == Flatten(a) + Flatten(b)
  {
    if a == [] {
      assert a + b == b;
    } else {
      assert (a + b)[1..] == a[1..] + b;
    }
  }
}
