/** The ring buffer of characters that overwrites its oldest items. */
module CircularBuffers {
  import opened Binary
  import opened Lines
  import opened Ring

  ghost predicate NulFree(s: string) {
    END_ITEM !in s
  }

  class CircularBuffer {
    const fixedSize: nat
    const buffer: array<char>
    var head: nat
    var tail: nat
    var maxed: bool
    var willClearIfEmpty: bool

    ghost predicate InBounds()
      reads this
    {
      0 < fixedSize <= 0xFFFF && buffer.Length == fixedSize + 1 && head < fixedSize && tail < fixedSize
    }

    ghost predicate Framed()
      reads this
    {
      InBounds() && maxed == (head == tail - 1)
    }

    /** The gap slot holds the end item unless the last write ended exactly at the last slot. */
    ghost predicate Valid()
      reads this, buffer
    {
      Framed() && (head != 0 ==> buffer[head] == END_ITEM)
    }

    ghost function Cells(): string
      requires buffer.Length == fixedSize + 1
      reads buffer
    {
      buffer[..fixedSize]
    }

    ghost function Items(): string
      requires Valid()
      reads this, buffer
    {
      ItemsOf(Cells(), head, tail)
    }

    ghost function Contents(): Queue
      requires Valid()
      reads this, buffer
    {
      Queue(Items(), tail)
    }

    /** The slot behind the last is left as the allocator gave it. */
    constructor (size: nat)
      requires 0 < size <= 0xFFFF
      ensures Valid() && fresh(buffer) && fixedSize == size
      ensures Contents() == Queue("", 0)
    {
      fixedSize := size;
      buffer := new char[size + 1];
      head, tail := 0, 0;
      maxed, willClearIfEmpty := false, false;
    }

    function Empty(): bool
      reads this
    {
      head == tail
    }

    function Full(): bool
      reads this
    {
      maxed
    }

    /** `Full` misses exactly the buffers that are full with the oldest item in slot 0. */
    lemma FullIff()
      requires Valid()
      ensures Full() <==> |Items()| == fixedSize - 1 && tail != 0
      ensures Empty() <==> Items() == ""
    {
    }

    /** Writing one item is an append, except that it empties a buffer that holds all it can from slot 0. */
    method WriteItem(item: char)
      requires Valid()
      modifies this, buffer
      ensures Valid() && !willClearIfEmpty
      ensures buffer[fixedSize] == if old(head) == fixedSize - 1 then END_ITEM else old(buffer[fixedSize])
      ensures END_ITEM in buffer[..]
      ensures Contents() == Append(fixedSize, old(Contents()), [item])
              <==> !(fixedSize > 1 && old(tail) == 0 && old(head) == fixedSize - 1)
    {
      hide ItemsOf, Append;
      ghost var cells, h, t := Cells(), head, tail;
      ModNext(head, fixedSize);
      ModSmall(head, fixedSize);
      willClearIfEmpty := false;
      buffer[head] := item;
      buffer[head + 1] := END_ITEM;
      assert Cells() == if head + 1 == fixedSize then cells[head := item]
                        else cells[head := item][head + 1 := END_ITEM];
      if maxed {
        tail := (head + 2) % fixedSize;
      }
      head := (head + 1) % fixedSize;
      maxed := head == tail - 1;

      assert head == Next(fixedSize, h);
      ItemWritten(cells, h, t, item, END_ITEM, Cells(), tail);
    }

    /** An empty string writes the end item into slot 1, whoever owns it. */
    ghost predicate EmptyWriteClobbers(items: string)
      requires Valid()
      reads this, buffer
    {
      items == "" && OccupiedSlot(fixedSize, head, tail, 1) && buffer[1] != END_ITEM
    }

    /** The loop over the characters; `pos` is the last slot written. */
    method StoreCharacters(items: string) returns (pos: nat, count: nat)
      requires InBounds() && (Over(fixedSize, head, tail, 0) ==> maxed)
      modifies this`maxed, buffer
      ensures count == |items| && pos < fixedSize
      ensures count == 0 ==> pos == 0 && Cells() == old(Cells())
      ensures count > 0 ==> Next(fixedSize, pos) == (head + count) % fixedSize
      ensures buffer[fixedSize] == old(buffer[fixedSize])
      ensures maxed == (old(maxed) || Over(fixedSize, head, tail, count))
      ensures Rotated(Cells(), (head + count) % fixedSize) == (Rotated(old(Cells()), head) + items)[count..]
    {
      hide Rotated;
      ghost var before := Cells();
      pos, count := 0, 0;
      ModSmall(head, fixedSize);
      assert (Rotated(before, head) + items[..0])[0..] == Rotated(before, head);
      while count < |items|
        invariant count <= |items| && pos < fixedSize
        invariant buffer[fixedSize] == old(buffer[fixedSize])
        invariant count == 0 ==> pos == 0 && Cells() == before
        invariant count > 0 ==> Next(fixedSize, pos) == (head + count) % fixedSize
        invariant maxed == (old(maxed) || Over(fixedSize, head, tail, count))
        invariant Rotated(Cells(), (head + count) % fixedSize) == (Rotated(before, head) + items[..count])[count..]
      {
        ghost var cells := Cells();
        pos := (head + count) % fixedSize;
        buffer[pos] := items[count];
        assert Cells() == cells[pos := items[count]];
        RotateMore(Rotated(before, head), items, count, cells, pos);
        OverStep(fixedSize, head, tail, count);
        ModNext(head + count, fixedSize);
        count := count + 1;
        if (pos + 1) % fixedSize == tail - 1 || (tail == 0 && pos == fixedSize - 1) {
          maxed := true;
        }
      }
      assert items[..count] == items;
    }

    /** The end of a string write: the end item, then the new tail, head and flag. */
    method FinishString(pos: nat, count: nat)
      requires InBounds() && pos < fixedSize
      requires if count > 0 then Next(fixedSize, pos) == (head + count) % fixedSize else pos == 0
      modifies this, buffer
      ensures willClearIfEmpty == old(willClearIfEmpty)
      ensures head == (old(head) + count) % fixedSize < fixedSize && maxed == (head == tail - 1)
      ensures tail == if old(maxed) then (old(head) + count + 1) % fixedSize else old(tail)
      ensures Cells() == if pos + 1 == fixedSize then old(Cells()) else old(Cells())[pos + 1 := END_ITEM]
      ensures count > 0 && head != 0 ==> buffer[head] == END_ITEM
      ensures count == 0 && head == old(head) ==> buffer[head] == old(buffer[head]) || buffer[head] == END_ITEM
      ensures buffer[fixedSize] == if (if count > 0 then head == 0 else fixedSize == 1) then END_ITEM
                                   else old(buffer[fixedSize])
    {
      buffer[pos + 1] := END_ITEM;

      if maxed {
        tail := (head + count + 1) % fixedSize;
      }
      head := (head + count) % fixedSize;
      maxed := head == tail - 1;
    }

    /** A string write, slot by slot: `cells` is how they are before the end item is set. */
    method StoreString(items: string) returns (ghost cells: string)
      requires InBounds() && (Over(fixedSize, head, tail, 0) ==> maxed) && (head != 0 ==> buffer[head] == END_ITEM)
      modifies this, buffer
      ensures !willClearIfEmpty
      ensures head == (old(head) + |items|) % fixedSize < fixedSize && maxed == (head == tail - 1)
      ensures tail == if old(maxed) || Over(fixedSize, old(head), old(tail), |items|)
                      then (old(head) + |items| + 1) % fixedSize else old(tail)
      ensures head != 0 ==> buffer[head] == END_ITEM
      ensures |cells| == fixedSize
      ensures items != "" ==> && Rotated(cells, head) == (Rotated(old(Cells()), old(head)) + items)[|items|..]
                              && Cells() == if head == 0 then cells else cells[head := END_ITEM]
      ensures items == "" ==> Cells() == if fixedSize == 1 then old(Cells()) else old(Cells())[1 := END_ITEM]
      ensures buffer[fixedSize] == if (if items != "" then head == 0 else fixedSize == 1) then END_ITEM
                                   else old(buffer[fixedSize])
    {
      hide Rotated, Over;
      ModSmall(head, fixedSize);
      willClearIfEmpty := false;
      var pos, count := StoreCharacters(items);
      cells := Cells();
      FinishString(pos, count);
    }

    /** Writing a NUL-terminated string is an append, except that an empty one can overwrite a held item. */
    method WriteString(items: string)
      requires Valid() && NulFree(items) && |items| <= 0xFFFF
      modifies this, buffer
      ensures Valid() && !willClearIfEmpty
      ensures head == (old(head) + |items|) % fixedSize
      ensures buffer[fixedSize] == if (if items != "" then head == 0 else fixedSize == 1) then END_ITEM
                                   else old(buffer[fixedSize])
      ensures items != "" ==> END_ITEM in buffer[..]
      ensures Contents() == Append(fixedSize, old(Contents()), items) <==> !old(EmptyWriteClobbers(items))
    {
      hide ItemsOf, Rotated, Append, Over;
      ghost var before, h, t := Cells(), head, tail;
      MaxedIsOver();
      assert fixedSize > 1 ==> before[1] == buffer[1];
      ghost var cells := StoreString(items);
      if items != "" {
        StringWritten(before, h, t, items, END_ITEM, cells, Cells(), tail);
        assert buffer[if head == 0 then fixedSize else head] == END_ITEM;
      } else {
        EmptyWritten(before, h, t);
      }
    }

    lemma MaxedIsOver()
      requires Framed()
      ensures maxed <==> Over(fixedSize, head, tail, 0)
      ensures forall k: nat :: maxed || Over(fixedSize, head, tail, k) <==> Over(fixedSize, head, tail, k)
    {}

    /** An empty write moves nothing and touches slot 1 only. */
    lemma EmptyWritten(before: string, h: nat, t: nat)
      requires Framed() && |before| == fixedSize && h < fixedSize && t < fixedSize
      requires head == h % fixedSize && tail == if Over(fixedSize, h, t, 0) then (h + 1) % fixedSize else t
      requires Cells() == if fixedSize == 1 then before else before[1 := END_ITEM]
      ensures head == h && tail == t
      ensures Queue(ItemsOf(Cells(), head, tail), tail) == Append(fixedSize, Queue(ItemsOf(before, h, t), t), "")
              <==> !(OccupiedSlot(fixedSize, h, t, 1) && before[1] != END_ITEM)
    {
      ModSmall(h, fixedSize);
      ModNext(h, fixedSize);
      AppendNothing(fixedSize, Queue(ItemsOf(before, h, t), t));
      if fixedSize > 1 {
        OverwriteShows(before, h, t, 1, END_ITEM);
      }
    }

    method Clear()
      requires Valid()
      modifies this`head, this`tail, this`maxed, buffer
      ensures Valid() && Contents() == Queue("", 0)
      ensures buffer[fixedSize] == old(buffer[fixedSize]) && END_ITEM in buffer[..]
    {
      head := 0;
      tail := 0;
      buffer[tail] := END_ITEM;
      maxed := false;
      assert buffer[0] == END_ITEM;
    }

    /** An emptied buffer starts again at slot 0, so that what is written next stays in one piece. */
    method ClearIfEmpty()
      requires Valid()
      modifies this
      ensures Valid() && Items() == old(Items())
      ensures tail == if old(Items()) == "" then 0 else old(tail)
    {
      willClearIfEmpty := true;
      if Empty() && willClearIfEmpty {
        head, tail := 0, 0;
        maxed := false;
      }
    }

    /** A string write by an interrupt, or none when `s` is empty. */
    method Interrupt(s: string)
      requires s != "" ==> Valid() && NulFree(s) && |Items()| + |s| < fixedSize
      modifies this, buffer
      ensures s == "" ==> unchanged(this) && unchanged(buffer)
      ensures s != "" ==> Valid() && !willClearIfEmpty && Items() == old(Items()) + s
      ensures s != "" ==> head == (old(head) + |s|) % fixedSize
      ensures tail == old(tail) && (old(head) + |s| < fixedSize ==> head == old(head) + |s|)
    {
      hide ItemsOf, Append, LastOf;
      if s != "" {
        AppendFits(fixedSize, Contents(), s);
        if head + |s| < fixedSize {
          ModSmall(head + |s|, fixedSize);
        }
        WriteString(s);
      }
    }

    /** A string write from a state that need not be one of the queue's, or none when `s` is empty. */
    method InterruptAnywhere(s: string) returns (ghost cells: string)
      requires InBounds() && (Over(fixedSize, head, tail, 0) ==> maxed) && (head != 0 ==> buffer[head] == END_ITEM)
      modifies this, buffer
      ensures s == "" ==> unchanged(this) && unchanged(buffer)
      ensures s != "" ==>
                && head == (old(head) + |s|) % fixedSize < fixedSize && maxed == (head == tail - 1)
                && tail == (if old(maxed) || Over(fixedSize, old(head), old(tail), |s|)
                            then (old(head) + |s| + 1) % fixedSize else old(tail))
                && (head != 0 ==> buffer[head] == END_ITEM)
                && |cells| == fixedSize
                && Rotated(cells, head) == (Rotated(old(Cells()), old(head)) + s)[|s|..]
                && Cells() == if head == 0 then cells else cells[head := END_ITEM]
    {
      cells := "";
      if s != "" {
        cells := StoreString(s);
      }
    }

    /** The first two stores of a reset, with an interrupt writing between them. */
    method ResetTailAndHead(s: string)
      requires Valid() && |s| < fixedSize && (maxed ==> s == "")
      modifies this, buffer
      ensures InBounds() && head == 0
      ensures if s != "" && old(head) + |s| >= fixedSize then maxed && Shows(old(Cells()), old(head), s)
              else tail == 0 && (maxed ==> old(maxed))
    {
      hide Rotated, ItemsOf;
      ghost var before, h := Cells(), head;
      tail := 0;
      ghost var cells := InterruptAnywhere(s);
      if s != "" {
        ModSmall(h + |s|, fixedSize);
        ModSmall(h + |s| + 1, fixedSize);
        if h + |s| >= fixedSize {
          OldShows(before, h, s, END_ITEM, cells, Cells());
        }
      }
      head := 0;
    }

    /** The last store, of the flag, with an interrupt writing before it. */
    method ResetFlag(t: string)
      requires InBounds() && head == 0 && NulFree(t)
      requires if tail == 0 then |t| < fixedSize && (maxed ==> t == "") else |t| + 1 < fixedSize && maxed
      modifies this, buffer
      ensures InBounds() && !maxed
      ensures old(tail) == 0 ==> Valid() && Items() == t && tail == 0
      ensures old(tail) != 0 && t == "" ==> head == 0 && tail == old(tail) && Cells() == old(Cells())
      ensures old(tail) != 0 && t != "" ==> head == |t| && tail == |t| + 1
    {
      hide Rotated, ItemsOf;
      ghost var between := Cells();
      ghost var cells := InterruptAnywhere(t);
      ModSmall(|t|, fixedSize);
      ModSmall(|t| + 1, fixedSize);
      if t != "" && old(tail) == 0 {
        StringWritten(between, 0, 0, t, END_ITEM, cells, Cells(), tail);
        LastOfShort("" + t, fixedSize - 1);
        assert "" + t == t;
      }
      maxed := false;
    }

    /** The reset of an empty ring, in its three stores, with an interrupt writing behind the first and behind the
        second. The first write is lost when it stays before the end of the slots from the old head on; otherwise
        it moves the tail again, and the ring shows characters consumed long ago. */
    method ResetInterrupted(s: string, t: string)
      requires Valid() && NulFree(s) && NulFree(t) && |s| + |t| < fixedSize && (maxed ==> s == "" && t == "")
      modifies this, buffer
      ensures InBounds() && !maxed
      ensures var over := s != "" && old(head) + |s| >= fixedSize;
              && (Valid() && Items() == t <==> !over)
              && (!over ==> tail == 0)
              && (over && t == "" ==> Shows(old(Cells()), old(head), s))
              && (over && t != "" ==> tail == head + 1)
    {
      hide Rotated, ItemsOf;
      ResetTailAndHead(s);
      ResetFlag(t);
    }

    /** The ring holds what lay in the slots before a write that began at slot `h`, and the part of the write
        before the end of the slots. */
    ghost predicate Shows(before: string, h: nat, s: string)
      requires InBounds()
      reads this, buffer
    {
      && h < fixedSize == |before| && |s| < fixedSize <= h + |s|
      && head == 0 && tail == h + |s| + 1 - fixedSize
      && ItemsOf(Cells(), head, tail) == before[tail..h] + s[..fixedSize - h]
    }

    /** The same with interrupts writing before the test, between its two halves, between the test and the reset,
        between the two stores of the reset, and before the flag of a full buffer is cleared. A write before or
        within the test is noticed; one between the test and the reset is lost; one between the stores is lost or
        brings old characters back. */
    method ClearIfEmptyInterrupted(w: seq<string>)
      requires Valid() && |w| == 5 && forall s | s in w :: NulFree(s)
      requires |Items()| + |w[0]| + |w[1]| + |w[2]| + |w[3]| + |w[4]| < fixedSize
      modifies this, buffer
      ensures InBounds()
      ensures var cleared := old(Items()) == "" && w[0] == "" && w[1] == "";
              var h := old(tail) + |w[2]|;
              var over := w[3] != "" && (if h < fixedSize then h else h - fixedSize) + |w[3]| >= fixedSize;
              && (!cleared ==> Valid() && Items() == old(Items()) + w[0] + w[1] && tail == old(tail))
              && (cleared ==> (Valid() && Items() == w[4] <==> !over) && (!over ==> tail == 0))
              && (cleared && over && w[2] == "" && w[4] == "" ==> Shows(old(Cells()), old(tail), w[3]))
    {
      hide ItemsOf, Shows, NulFree, Held;
      FullIff();
      willClearIfEmpty := true;
      Interrupt(w[0]);
      FullIff();
      var empty := Empty();
      Interrupt(w[1]);
      if empty && willClearIfEmpty {
        ModSmall(tail + |w[2]|, fixedSize);
        Interrupt(w[2]);
        FullIff();
        ResetInterrupted(w[3], w[4]);
      }
    }

    method Consume() returns (item: char)
      requires Valid()
      modifies this`tail, this`maxed
      ensures Valid()
      ensures old(Items()) == "" ==> item == '\0' && Contents() == old(Contents())
      ensures old(Items()) != "" ==> item == old(Items())[0] && Contents() == Take(fixedSize, old(Contents()), 1)
    {
      if Empty() {
        return '\0';
      }
      hide ItemsOf;
      assert |Items()| > 0;
      ItemsTaken(Cells(), head, tail, 1);
      item := buffer[tail];
      tail := (tail + 1) % fixedSize;
      maxed := false;
    }

    /** Hand out the first segment where it lies. */
    method ConsumeBlockInPlace() returns (start: nat, len: nat)
      requires Valid()
      modifies this`tail, this`maxed
      ensures Valid()
      ensures len == FirstSegment(fixedSize, old(Contents()))
      ensures start + len <= fixedSize && buffer[start..start + len] == old(Items())[..len]
      ensures Contents() == Take(fixedSize, old(Contents()), len)
    {
      start := tail;
      len := (if head <= tail && !Empty() then fixedSize else head) - tail;
      ItemsTaken(Cells(), head, tail, len);
      assert Cells()[start..start + len] == buffer[start..start + len];
      if head <= tail && !Empty() {
        tail := 0;
      } else {
        tail := head;
      }
      maxed := false;
    }

    /** memcpy from the slots. */
    method CopyOut(block: array<char>, at: nat, start: nat, len: nat)
      requires 0 < fixedSize && buffer.Length == fixedSize + 1 && block != buffer
      requires at + len <= block.Length && start + len <= fixedSize
      modifies block
      ensures block[..at] == old(block[..at])
      ensures block[at..at + len] == Cells()[start..start + len]
    {
      ghost var source := Cells()[start..start + len];
      forall i | 0 <= i < len {
        block[at + i] := buffer[start + i];
      }
      assert forall i | 0 <= i < len :: block[at + i] == source[i];
    }

    /** Copy out at most `blockSize` items of the first segment. Asking for none of a full buffer forgets that
        it is full. */
    method ConsumeBlock(block: array<char>, blockSize: nat) returns (len: nat)
      requires Valid() && block != buffer && blockSize <= block.Length
      modifies this`tail, this`maxed, block
      ensures Valid() <==> !(blockSize == 0 && old(maxed))
      ensures 0 < fixedSize && buffer.Length == fixedSize + 1 && head < fixedSize && tail < fixedSize
      ensures len == Min(blockSize, FirstSegment(fixedSize, old(Contents())))
      ensures block[..len] == old(Items())[..len]
      ensures Queue(ItemsOf(Cells(), head, tail), tail) == Take(fixedSize, old(Contents()), len)
    {
      hide ItemsOf;
      var consumable := (if head <= tail && !Empty() then fixedSize else head) - tail;
      var willConsume := Min(blockSize, consumable);
      var toConsume := tail;
      ItemsTaken(Cells(), head, tail, willConsume);
      if blockSize < consumable {
        tail := (tail + willConsume) % fixedSize;
      } else if head <= tail && !Empty() {
        tail := 0;
      } else {
        tail := head;
      }
      maxed := false;
      CopyOut(block, 0, toConsume, willConsume);
      len := willConsume;
    }

    // ---- draining a line ----

    /** A drain that began with `head`, `tail` and slots `h`, `t` and `slots` is under way, and interrupts have
        written `w` since. */
    ghost predicate During(slots: string, h: nat, t: nat, w: string)
      reads this, buffer
    {
      && 0 < fixedSize <= 0xFFFF && buffer.Length == fixedSize + 1 == |slots|
      && tail == t < fixedSize && head == h + |w| < fixedSize
      && ItemsOf(Cells(), head, tail) == ItemsOf(slots[..fixedSize], h, t) + w
      && NulFree(ItemsOf(Cells(), head, tail))
      && (head != 0 ==> buffer[head] == END_ITEM) && !Overruns(slots, t)
      && (w == "" ==> buffer[..] == slots)
      && (t < h ==> !maxed)
      && (w != "" ==> t < h)
    }

    /** Interrupts are foreseen only where they leave an unwrapped, non-empty buffer unwrapped. */
    ghost predicate Foreseen(h: nat, t: nat, w: string) {
      w != "" ==> t < h && h + |w| < fixedSize && NulFree(w)
    }

    method InterruptDrain(s: string, ghost slots: string, ghost h: nat, ghost t: nat, ghost w: string)
      requires During(slots, h, t, w) && Foreseen(h, t, w + s)
      modifies this, buffer
      ensures During(slots, h, t, w + s) && (s == "" ==> maxed == old(maxed))
    {
      hide ItemsOf, Overruns;
      Interrupt(s);
      if s == "" {
        assert w + s == w;
      } else {
        assert Items() == ItemsOf(slots[..fixedSize], h, t) + (w + s);
      }
    }

    /** What is copied during a drain is what was there when it began. */
    lemma SegmentInDrain(slots: string, h: nat, t: nat, w: string)
      requires During(slots, h, t, w)
      ensures Cells()[t..t + |Segment(slots, h, t)|] == Segment(slots, h, t)
    {
      if w != "" {
        var items := ItemsOf(slots[..fixedSize], h, t);
        assert items == slots[t..h] && Cells()[t..head] == items + w;
        SlicePrefix(Cells(), t, head - t, h - t);
        assert (items + w)[..h - t] == items;
      } else {
        var end := t + |Segment(slots, h, t)|;
        assert Cells() == slots[..fixedSize];
        assert slots[..fixedSize][t..end] == slots[t..end];
      }
    }

    lemma ScanInDrain(slots: string, h: nat, t: nat, w: string)
      requires During(slots, h, t, w)
      ensures Scanned(slots, h, t, ScanFrom(buffer[..], t))
    {
      hide FirstNewline, ScanFrom, ItemsOf;
      SegmentInDrain(slots, h, t, w);
      var now := buffer[..];
      assert now[..fixedSize] == Cells();
      SliceOf(now, fixedSize, t, t + |Segment(slots, h, t)|);
      if h < t {
        SliceOf(now, fixedSize, t, fixedSize);
        WrappedFirst(Cells(), head, t);
      } else if t < h {
        SliceOf(now, fixedSize, t, head);
        UnwrappedAll(Cells(), head, t);
      }
      ScanNow(slots, h, t, now, head);
    }

    method ScanStep(s: string, ghost slots: string, ghost h: nat, ghost t: nat, ghost w: string)
      returns (lineEnd: Option<nat>)
      requires During(slots, h, t, w) && Foreseen(h, t, w + s)
      modifies this, buffer
      ensures During(slots, h, t, w + s) && Scanned(slots, h, t, lineEnd)
    {
      hide ItemsOf, Overruns;
      InterruptDrain(s, slots, h, t, w);
      lineEnd := ScanFrom(buffer[..], tail);
      ScanInDrain(slots, h, t, w + s);
    }

    /** An interrupt, then a copy behind the `at` characters already out: from the start of the segment when
        there are none, or of nothing at all. */
    method CopyStep(s: string, line: array<char>, at: nat, start: nat, len: nat,
                    ghost slots: string, ghost h: nat, ghost t: nat, ghost w: string)
      requires During(slots, h, t, w) && Foreseen(h, t, w + s)
      requires line != buffer && at + len <= line.Length && start + len <= fixedSize
      requires len > 0 ==> at == 0 && start == t && len <= |Segment(slots, h, t)|
      modifies this, buffer, line
      ensures During(slots, h, t, w + s) && (s == "" ==> maxed == old(maxed))
      ensures line[..at + len] == if len == 0 then old(line[..at]) else Segment(slots, h, t)[..len]
    {
      hide ItemsOf, Overruns;
      InterruptDrain(s, slots, h, t, w);
      if len > 0 {
        SegmentInDrain(slots, h, t, w + s);
        SlicePrefix(Cells(), t, |Segment(slots, h, t)|, len);
      }
      CopyOut(line, at, start, len);
      assert line[..at + len] == line[..at] + line[at..at + len];
    }

    /** Up to and with the first copy and the interrupt after it. */
    method DrainFirst(line: array<char>, lineSize: nat, w: seq<string>, ghost slots: string, ghost h: nat, ghost t: nat)
      returns (consumable: nat, willConsume: nat, lineEnd: Option<nat>)
      requires |w| == 7 && During(slots, h, t, "") && Foreseen(h, t, w[0] + w[1] + w[2] + w[3])
      requires line != buffer && lineSize < line.Length
      modifies this, buffer, line
      ensures During(slots, h, t, w[0] + w[1] + w[2] + w[3])
      ensures consumable == |Segment(slots, h, t)| && willConsume == Min(lineSize, consumable)
      ensures Scanned(slots, h, t, lineEnd)
      ensures lineEnd.None? ==> line[..willConsume] == Segment(slots, h, t)[..willConsume]
    {
      hide ItemsOf, Overruns;
      var headCopy := head;
      var tailCopy := tail;
      InterruptDrain(w[0], slots, h, t, "");
      consumable := (if headCopy <= tailCopy && !Empty() then fixedSize else headCopy) - tailCopy;
      willConsume := Min(lineSize, consumable);
      lineEnd := ScanStep(w[1], slots, h, t, w[0]);
      if lineEnd.None? {
        CopyStep(w[2], line, 0, tailCopy, willConsume, slots, h, t, w[0] + w[1]);
      } else {
        InterruptDrain(w[2], slots, h, t, w[0] + w[1]);
      }
      InterruptDrain(w[3], slots, h, t, w[0] + w[1] + w[2]);
    }

    /** All of the segment is out and there was no newline in it: a wrapped buffer is searched from slot 0. */
    method BoundaryStep(line: array<char>, lineSize: nat, writtenOut: nat, headCopy: nat,
                        ghost slots: string, ghost h: nat, ghost t: nat, ghost w: string)
      returns (extra: nat, tailCopy: nat)
      requires During(slots, h, t, w) && FirstNewline(Segment(slots, h, t)).None? && headCopy == h
      requires Scanned(slots, h, t, None)
      requires line != buffer && writtenOut == |Segment(slots, h, t)| <= lineSize < line.Length
      requires line[..writtenOut] == Segment(slots, h, t)
      modifies line
      ensures writtenOut + extra <= lineSize
      ensures Drain(line[..writtenOut + extra], tailCopy) == DrainOf(slots, h, t, lineSize)
    {
      hide ItemsOf, FirstNewline, ScanFrom, DrainOf, Overruns;
      extra := 0;
      tailCopy := tail;
      if headCopy <= tailCopy && !Empty() {
        tailCopy := 0;
        var lineEnd := ScanFrom(buffer[..], 0);
        assert buffer[..] == slots;
        ModSmall(0, fixedSize);
        if lineEnd.Some? {
          extra := lineEnd.value - 0 + 1;
          extra := Min(lineSize - writtenOut, extra);
          CopyOut(line, writtenOut, 0, extra);
          tailCopy := (tailCopy + extra) % fixedSize;
          assert Cells()[0..extra] == slots[..extra];
        }
        assert line[..writtenOut + extra] == line[..writtenOut] + slots[..extra];
        DrainAtBoundary(slots, h, t, lineSize, extra);
      } else {
        tailCopy := headCopy;
        assert line[..writtenOut + extra] == line[..writtenOut];
        ghost var unused := match ScanFrom(slots, 0) case Some(v) => Min(lineSize - writtenOut, v + 1) case None => 0;
        DrainAtBoundary(slots, h, t, lineSize, unused);
      }
    }

    /** The NUL behind the line, the flag and the new tail. */
    method FinishDrain(line: array<char>, len: nat, tailCopy: nat, beforeTail: string, afterTail: string,
                       ghost slots: string, ghost h: nat, ghost t: nat, ghost w: string)
      requires During(slots, h, t, w) && Foreseen(h, t, w + beforeTail + afterTail)
      requires line != buffer && len < line.Length && tailCopy < fixedSize && (t < h ==> t <= tailCopy <= h)
      modifies this, buffer, line
      ensures line[..len] == old(line[..len]) && line[len] == END_ITEM
      ensures tail == tailCopy && head == h + |w| + |beforeTail| + |afterTail| < fixedSize && !maxed
      ensures head != 0 ==> buffer[head] == END_ITEM
      ensures t < h ==> ItemsOf(Cells(), head, tail)
                        == (ItemsOf(slots[..fixedSize], h, t) + w + beforeTail + afterTail)[tailCopy - t..]
      ensures w == "" && beforeTail == "" && afterTail == "" ==> buffer[..] == slots
    {
      hide ItemsOf, Overruns;
      line[len] := '\0';
      maxed := false;
      InterruptDrain(beforeTail, slots, h, t, w);
      ghost var items := ItemsOf(slots[..fixedSize], h, t) + w + beforeTail;
      if t < h {
        assert ItemsOf(Cells(), head, t) == items;
        ItemsDropped(Cells(), head, t, tailCopy - t);
        ModSmall(tailCopy, fixedSize);
      }
      tail := tailCopy;
      Interrupt(afterTail);
      if t < h {
        assert ItemsOf(Cells(), head, tail) == items[tailCopy - t..] + afterTail;
        assert (items + afterTail)[tailCopy - t..] == items[tailCopy - t..] + afterTail;
      }
    }

    /** The steps of a drain up to the NUL behind the line, the interrupts among them writing `w[0]` to `w[4]`. */
    method DrainBody(line: array<char>, lineSize: nat, w: seq<string>, ghost slots: string, ghost h: nat, ghost t: nat)
      returns (len: nat, tailCopy: nat)
      requires |w| == 7 && During(slots, h, t, "") && Foreseen(h, t, w[0] + w[1] + w[2] + w[3] + w[4])
      requires line != buffer && lineSize < line.Length
      modifies this, buffer, line
      ensures During(slots, h, t, w[0] + w[1] + w[2] + w[3] + w[4])
      ensures len <= lineSize && Drain(line[..len], tailCopy) == DrainOf(slots, h, t, lineSize)
    {
      hide ItemsOf, FirstNewline, ScanFrom, DrainOf, LineLength, Overruns, Segment;
      ghost var done := w[0] + w[1] + w[2] + w[3];
      var headCopy := head;
      var consumable, willConsume, lineEnd := DrainFirst(line, lineSize, w, slots, h, t);
      if lineEnd.None? && consumable == willConsume {
        InterruptDrain(w[4], slots, h, t, done);
        var extra;
        extra, tailCopy := BoundaryStep(line, lineSize, willConsume, headCopy, slots, h, t, done + w[4]);
        len := willConsume + extra;
      } else {
        len, tailCopy := DrainSecond(line, lineSize, headCopy, consumable, willConsume, lineEnd, w[4],
                                     slots, h, t, done);
      }
    }

    /** Drain one line, with an interrupt's string write between any two steps of it. */
    method DrainLine(line: array<char>, lineSize: nat, w: seq<string>) returns (len: nat)
      requires Valid() && NulFree(Items()) && !Overruns(buffer[..], tail) && |w| == 7
      requires line != buffer && lineSize < line.Length && lineSize <= 0xFFFF
      requires Foreseen(head, tail, Joined(w))
      modifies this, buffer, line
      ensures InBounds() && !maxed && (head != 0 ==> buffer[head] == END_ITEM)
      ensures len < line.Length && line[len] == END_ITEM
      ensures Drain(line[..len], tail) == DrainOf(old(buffer[..]), old(head), old(tail), lineSize)
      ensures old(tail) < old(head) && len <= |old(Items()) + Joined(w)|
              ==> ItemsOf(Cells(), head, tail) == (old(Items()) + Joined(w))[len..]
      ensures Joined(w) == "" ==> buffer[..] == old(buffer[..]) && head == old(head)
    {
      hide ItemsOf, FirstNewline, ScanFrom, DrainOf, LineLength, Overruns;
      ghost var slots, h, t := buffer[..], head, tail;
      ghost var done := w[0] + w[1] + w[2] + w[3] + w[4];
      assert slots[..fixedSize] == Cells();
      assert ItemsOf(slots[..fixedSize], h, t) == Items();
      var tailCopy;
      len, tailCopy := DrainBody(line, lineSize, w, slots, h, t);
      if t < h {
        DrainUnwrapped(slots, h, t, lineSize);
      }
      FinishDrain(line, len, tailCopy, w[5], w[6], slots, h, t, done);
      JoinAll(ItemsOf(slots[..fixedSize], h, t), w);
    }

    /** The line ends at a newline or where the space ends; the rest of the source's case analysis of the tail. */
    method DrainSecond(line: array<char>, lineSize: nat, headCopy: nat, first: nat, will: nat, found: Option<nat>,
                       s: string, ghost slots: string, ghost h: nat, ghost t: nat, ghost w: string)
      returns (len: nat, tailCopy: nat)
      requires During(slots, h, t, w) && Foreseen(h, t, w + s) && headCopy == h
      requires line != buffer && lineSize < line.Length
      requires first == |Segment(slots, h, t)| && will == Min(lineSize, first) && Scanned(slots, h, t, found)
      requires found.None? ==> will < first && line[..will] == Segment(slots, h, t)[..will]
      modifies this, buffer, line
      ensures During(slots, h, t, w + s) && len <= lineSize
      ensures Drain(line[..len], tailCopy) == DrainOf(slots, h, t, lineSize)
    {
      hide ItemsOf, FirstNewline, ScanFrom, DrainOf, Overruns, Segment, Scanned;
      ScannedMeans(slots, h, t, found);
      tailCopy := tail;
      var consumable, willConsume, toConsume, lineEnd, writtenOut := first, will, tail, found, 0;
      if lineEnd.None? {
        writtenOut := willConsume;
        tailCopy := tailCopy + writtenOut;
        consumable := headCopy;
        willConsume := Min(lineSize - writtenOut, consumable);
        toConsume := tailCopy;
        lineEnd := ScanFrom(buffer[..], toConsume);
      }
      var lineExtra := willConsume;
      if lineEnd.Some? {
        lineExtra := Min(willConsume, lineEnd.value - toConsume + 1);
      }
      CopyStep(s, line, writtenOut, toConsume, lineExtra, slots, h, t, w);
      len := writtenOut + lineExtra;
      if len <= consumable {
        ModSmall(t, fixedSize);
        tailCopy := (tailCopy + lineExtra) % fixedSize;
      } else if headCopy <= tailCopy && !Empty() {
        if lineEnd.None? {
          tailCopy := writtenOut + willConsume;
        } else {
          tailCopy := lineSize;
        }
      } else {
        tailCopy := headCopy;
      }
      if found.Some? {
        DrainAtNewline(slots, h, t, lineSize, found.value);
      } else {
        DrainCut(slots, h, t, lineSize);
      }
    }

    /** Drain one line of NUL-free contents: a prefix of the items comes out and the rest stays, exactly outside
        the states that misdrain. Asking for nothing of a full buffer forgets that it is full. */
    method ConsumeLine(line: array<char>, lineSize: nat) returns (len: nat)
      requires Valid() && NulFree(Items()) && !Overruns(buffer[..], tail)
      requires line != buffer && lineSize < line.Length && lineSize <= 0xFFFF
      modifies this, buffer, line
      ensures 0 < fixedSize && buffer.Length == fixedSize + 1 && head < fixedSize && tail < fixedSize
      ensures len <= lineSize && line[len] == END_ITEM
      ensures buffer[..] == old(buffer[..]) && head == old(head)
      ensures line[..len] + ItemsOf(Cells(), head, tail) == old(Items())
              <==> !Misdrains(old(buffer[..]), old(head), old(tail), lineSize)
      ensures !Misdrains(old(buffer[..]), old(head), old(tail), lineSize)
              ==> && (var first := FirstSegment(fixedSize, old(Contents()));
                      var seen := SecondSeen(old(buffer[..]), old(Items())[first..]);
                      len == LineLength(old(Items())[..first], seen, lineSize))
                  && line[..len] == old(Items())[..len]
                  && Queue(ItemsOf(Cells(), head, tail), tail) == Take(fixedSize, old(Contents()), len)
                  && (Valid() <==> !(lineSize == 0 && old(maxed)))
    {
      hide ItemsOf, FirstNewline, ScanFrom, DrainOf, Misdrains, LineLength, Segment, FirstSegment;
      ghost var slots, h, t, contents := buffer[..], head, tail, Contents();
      assert slots[..fixedSize] == Cells();
      assert "" + "" + "" + "" + "" + "" + "" == "";
      len := DrainLine(line, lineSize, ["", "", "", "", "", "", ""]);
      DrainMeaning(slots, h, t, lineSize);
      SegmentIsFirst(slots, h, t);
    }

    /** A drain of an unwrapped, non-empty buffer, with interrupts writing between any two steps and leaving it
        unwrapped: nothing is lost, repeated or reordered. */
    method ConsumeLineInterrupted(line: array<char>, lineSize: nat, w: seq<string>) returns (len: nat)
      requires Valid() && NulFree(Items()) && |w| == 7
      requires line != buffer && lineSize < line.Length && lineSize <= 0xFFFF
      requires tail < head && NulFree(Joined(w)) && head + |Joined(w)| < fixedSize
      modifies this, buffer, line
      ensures Valid()
      ensures len == LineLength(old(Items()), "", lineSize) && line[..len] == old(Items())[..len]
      ensures line[len] == END_ITEM && tail == old(tail) + len
      ensures line[..len] + Items() == old(Items()) + Joined(w)
    {
      hide ItemsOf, FirstNewline, ScanFrom, DrainOf, LineLength, Overruns;
      ghost var slots, h, t, items := buffer[..], head, tail, Items();
      assert slots[..fixedSize] == Cells();
      UnwrappedAll(Cells(), h, t);
      SliceOf(slots, fixedSize, t, h);
      StopsAt(slots, t, h);
      len := DrainLine(line, lineSize, w);
      DrainUnwrapped(slots, h, t, lineSize);
      SlicePrefix(slots, t, h - t, len);
    }
  }
}
