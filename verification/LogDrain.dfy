/** Printing what has been logged. */
module LogDrain {
  import opened Binary
  import opened Lines
  import opened Ring
  import opened CircularBuffers
  import opened RingRuns

  const SERIAL_LOG_BUFFER_LEN: nat := 160
  const LINE_SIZE: nat := SERIAL_LOG_BUFFER_LEN - 1

  // ---- which logs are printed right ----

  /** How many characters come after the last newline. */
  function Unended(s: string): (n: nat)
    ensures n <= |s| && (n < |s| ==> s[|s| - n - 1] == NEWLINE)
    ensures forall k | |s| - n <= k < |s| :: s[k] != NEWLINE
  {
    if s == "" || s[|s| - 1] == NEWLINE then 0 else Unended(s[..|s| - 1]) + 1
  }

  lemma UnendedOf(s: string, n: nat)
    requires n <= |s| && (n < |s| ==> s[|s| - n - 1] == NEWLINE)
    requires forall k | |s| - n <= k < |s| :: s[k] != NEWLINE
    ensures Unended(s) == n
  {
    hide Unended;
  }

  lemma UnendedDrop(s: string, k: nat)
    requires k <= |s|
    ensures Unended(s[k..]) == Min(Unended(s), |s| - k)
  {
    hide Unended;
    UnendedOf(s[k..], Min(Unended(s), |s| - k));
  }

  lemma UnendedNewline(s: string)
    ensures match FirstNewline(s) case None => Unended(s) == |s| case Some(i) => Unended(s) < |s| - i
  {
    hide Unended, FirstNewline;
    if FirstNewline(s).None? {
      UnendedOf(s, |s|);
    }
  }

  /** The logs that are not printed right: wrapped, their first segment ending in a piece without a newline, and no
      newline in the slot behind the last. Either that slot is not a NUL, and the search for a newline leaves the
      slots; or the piece is too long for a line while the second segment is shorter than a line; or it fits in a
      line while there is no second segment and a stale newline in the slots from 0 on. */
  predicate Spoils(slots: string, head: nat, tail: nat)
    requires head < |slots| - 1 && tail < |slots| - 1
  {
    && head < tail && slots[|slots| - 1] != NEWLINE
    && var r := Unended(Segment(slots, head, tail));
       && r > 0
       && (|| slots[|slots| - 1] != END_ITEM
           || (r > LINE_SIZE && head < LINE_SIZE)
           || (r < LINE_SIZE && head == 0 && ScanFrom(slots, 0).Some?))
  }

  /** The loop's drains, one after the other: every one of them stays in the slots, what comes out of it, followed
      by what is there still, is what was there, and they come to an end. */
  ghost predicate PrintsWhole(slots: string, head: nat, tail: nat)
    requires head < |slots| - 1 && tail < |slots| - 1
    decreases |ItemsOf(slots[..|slots| - 1], head, tail)|
  {
    || head == tail
    || (var n, d := |slots| - 1, DrainOf(slots, head, tail, LINE_SIZE);
        && !Overruns(slots, tail)
        && d.text != "" && d.text + ItemsOf(slots[..n], head, d.tail) == ItemsOf(slots[..n], head, tail)
        && |ItemsOf(slots[..n], head, d.tail)| < |ItemsOf(slots[..n], head, tail)|
        && PrintsWhole(slots, head, d.tail))
  }

  lemma MisdrainSpoils(slots: string, head: nat, tail: nat)
    requires head < |slots| - 1 && tail < |slots| - 1 && Misdrains(slots, head, tail, LINE_SIZE)
    ensures Spoils(slots, head, tail)
  {
    hide FirstNewline, Unended;
    UnendedNewline(Segment(slots, head, tail));
  }

  lemma OverrunSpoils(slots: string, head: nat, tail: nat)
    requires head < |slots| - 1 && tail < |slots| - 1 && head != tail && (head != 0 ==> slots[head] == END_ITEM)
    requires NulFree(ItemsOf(slots[..|slots| - 1], head, tail)) && Overruns(slots, tail)
    ensures Spoils(slots, head, tail)
  {
    hide FirstNewline, Unended, Overruns, ItemsOf;
    OverrunsIff(slots, head, tail);
    UnendedNewline(Segment(slots, head, tail));
  }

  /** A drain that goes right leaves a log that is printed right exactly if this one is. */
  lemma SpoilsStep(slots: string, head: nat, tail: nat)
    requires head < |slots| - 1 && tail < |slots| - 1 && head != tail && (head != 0 ==> slots[head] == END_ITEM)
    requires NulFree(ItemsOf(slots[..|slots| - 1], head, tail))
    requires !Misdrains(slots, head, tail, LINE_SIZE) && !Overruns(slots, tail)
    ensures var d, items := DrainOf(slots, head, tail, LINE_SIZE), ItemsOf(slots[..|slots| - 1], head, tail);
            && 0 < |d.text| <= |items| && d.text == items[..|d.text|]
            && ItemsOf(slots[..|slots| - 1], head, d.tail) == items[|d.text|..]
    ensures SameEnd(slots, head, tail, DrainOf(slots, head, tail, LINE_SIZE).tail)
  {
    hide ItemsOf, DrainOf, Segment, ScanFrom, Misdrains, LineLength, SameEnd, FirstSegment, Overruns;
    var n, d, segment := |slots| - 1, DrainOf(slots, head, tail, LINE_SIZE), Segment(slots, head, tail);
    var items := ItemsOf(slots[..n], head, tail);
    DrainMeaning(slots, head, tail, LINE_SIZE);
    ItemsDropped(slots[..n], head, tail, |d.text|);
    SegmentIsFirst(slots, head, tail);
    if tail < head {
      UnwrappedStep(slots, head, tail, items, |d.text|);
    } else {
      OverrunsIff(slots, head, tail);
      WrappedStep(slots, head, tail, items[|segment|..], |d.text|);
    }
  }

  /** Both logs are printed right or neither; the second is wrapped only if the first is. */
  ghost predicate SameEnd(slots: string, head: nat, tail: nat, later: nat)
    requires head < |slots| - 1 && tail < |slots| - 1 && later < |slots| - 1
  {
    (Spoils(slots, head, later) <==> Spoils(slots, head, tail)) && (head < later ==> head < tail)
  }

  lemma UnwrappedStep(slots: string, head: nat, tail: nat, items: string, taken: nat)
    requires tail < head < |slots| - 1 && items == ItemsOf(slots[..|slots| - 1], head, tail)
    requires var segment := Segment(slots, head, tail);
             taken == LineLength(segment, SecondSeen(slots, items[|segment|..]), LINE_SIZE) <= |items|
    ensures taken > 0 && SameEnd(slots, head, tail, (tail + taken) % (|slots| - 1))
  {
    hide FirstNewline, ScanFrom, Unended;
    ModSmall(tail + taken, |slots| - 1);
  }

  lemma WrappedStep(slots: string, head: nat, tail: nat, second: string, taken: nat)
    requires head < tail < |slots| - 1 && !Misdrains(slots, head, tail, LINE_SIZE) && |second| == head
    requires FirstNewline(Segment(slots, head, tail)).None?
             ==> slots[|slots| - 1] == END_ITEM || slots[|slots| - 1] == NEWLINE
    requires taken == LineLength(Segment(slots, head, tail), SecondSeen(slots, second), LINE_SIZE)
    ensures taken > 0 && SameEnd(slots, head, tail, (tail + taken) % (|slots| - 1))
  {
    hide ScanFrom, FirstNewline, Misdrains, Spoils, SameEnd, Segment;
    var n, segment := |slots| - 1, Segment(slots, head, tail);
    ModSmall(tail + taken, n);
    UnendedNewline(segment);
    if taken < |segment| {
      WithinSegment(slots, head, tail, taken);
    } else {
      BehindSegment(slots, head, tail, tail + taken - n);
    }
  }

  lemma WithinSegment(slots: string, head: nat, tail: nat, taken: nat)
    requires head < tail < tail + taken < |slots| - 1 && !Misdrains(slots, head, tail, LINE_SIZE)
    requires match FirstNewline(Segment(slots, head, tail))
             case Some(i) => taken == Min(LINE_SIZE, i + 1)
             case None => taken == LINE_SIZE && (slots[|slots| - 1] == END_ITEM || slots[|slots| - 1] == NEWLINE)
    ensures SameEnd(slots, head, tail, tail + taken)
  {
    hide ScanFrom, FirstNewline, Unended;
    var segment := Segment(slots, head, tail);
    assert Segment(slots, head, tail + taken) == segment[taken..];
    UnendedNewline(segment);
    UnendedDrop(segment, taken);
  }

  lemma BehindSegment(slots: string, head: nat, tail: nat, later: nat)
    requires later <= head < tail < |slots| - 1 && !Misdrains(slots, head, tail, LINE_SIZE)
    requires match FirstNewline(Segment(slots, head, tail))
             case Some(i) => i + 1 == |Segment(slots, head, tail)|
             case None => && |Segment(slots, head, tail)| <= LINE_SIZE
                          && (slots[|slots| - 1] == END_ITEM || slots[|slots| - 1] == NEWLINE)
    ensures SameEnd(slots, head, tail, later)
  {
    hide ScanFrom, FirstNewline, Unended;
    UnendedNewline(Segment(slots, head, tail));
  }

  /** A log is printed right, every drain of it, if and only if it is not one of those. */
  lemma {:induction false} PrintsWholeIff(slots: string, head: nat, tail: nat)
    requires head < |slots| - 1 && tail < |slots| - 1 && (head != 0 ==> slots[head] == END_ITEM)
    requires NulFree(ItemsOf(slots[..|slots| - 1], head, tail))
    ensures PrintsWhole(slots, head, tail) <==> !Spoils(slots, head, tail)
    decreases |ItemsOf(slots[..|slots| - 1], head, tail)|
  {
    hide ItemsOf, DrainOf, Segment, ScanFrom, Misdrains, Spoils, Overruns;
    var n, d := |slots| - 1, DrainOf(slots, head, tail, LINE_SIZE);
    if head == tail {
      InOnePiece(slots, head, tail);
    } else if Overruns(slots, tail) {
      OverrunSpoils(slots, head, tail);
    } else {
      DrainMeaning(slots, head, tail, LINE_SIZE);
      if Misdrains(slots, head, tail, LINE_SIZE) {
        MisdrainSpoils(slots, head, tail);
      } else {
        SpoilsStep(slots, head, tail);
        PrintsWholeIff(slots, head, d.tail);
      }
    }
  }

  lemma InOnePiece(slots: string, head: nat, tail: nat)
    requires tail <= head < |slots| - 1
    ensures !Spoils(slots, head, tail)
  {}

  /** The tail after `k` drains. */
  function TailAfter(slots: string, head: nat, tail: nat, k: nat): nat
    requires head < |slots| - 1 && tail < |slots| - 1
    decreases k
  {
    if k == 0 then tail else TailAfter(slots, head, DrainOf(slots, head, tail, LINE_SIZE).tail, k - 1)
  }

  /** Some of them are printed without end: from slot 159 on, with no newline up to the last slot and less than a
      line's room before it, every drain comes back to slot 159 and hands out the same characters again. */
  lemma {:induction false} PrintedWithoutEnd(slots: string, head: nat, k: nat)
    requires head < LINE_SIZE && 2 * LINE_SIZE < |slots| - 1 && FirstNewline(Segment(slots, head, LINE_SIZE)).None?
    requires slots[|slots| - 1] == END_ITEM
    ensures DrainOf(slots, head, LINE_SIZE, LINE_SIZE) == Drain(slots[LINE_SIZE..2 * LINE_SIZE], LINE_SIZE)
    ensures TailAfter(slots, head, LINE_SIZE, k) == LINE_SIZE && Spoils(slots, head, LINE_SIZE)
    decreases k
  {
    hide FirstNewline, Unended, DrainOf;
    UnendedNewline(Segment(slots, head, LINE_SIZE));
    DrainCut(slots, head, LINE_SIZE, LINE_SIZE);
    assert Segment(slots, head, LINE_SIZE)[..LINE_SIZE] == slots[LINE_SIZE..2 * LINE_SIZE];
    if k > 0 {
      PrintedWithoutEnd(slots, head, k - 1);
    }
  }

  /** Two writes lead there from a new log: one of as many characters as there are slots, and one of a character
      less than a line. */
  method EndlessLog(size: nat, first: string, second: string) returns (log: CircularBuffer)
    requires 2 * LINE_SIZE < size <= 0xFFFF && |first| == size && |second| == LINE_SIZE - 1
    requires NulFree(first) && NulFree(second) && NEWLINE !in first && NEWLINE !in second
    ensures fresh(log) && log.fixedSize == size && log.Valid() && NulFree(log.Items())
    ensures log.head == LINE_SIZE - 1 && log.tail == LINE_SIZE
    ensures forall k :: TailAfter(log.buffer[..], log.head, log.tail, k) == LINE_SIZE
  {
    hide ItemsOf, TailAfter, Spoils, DrainOf, FirstNewline, Segment, Append;
    ModSmall(size, size);
    ModSmall(LINE_SIZE - 1, size);
    EndlessQueue(size, first, second);
    log := new CircularBuffer(size);
    log.WriteString(first);
    log.WriteString(second);
    assert log.Contents() == Append(size, Append(size, Queue("", 0), first), second);
    assert log.buffer[..][..size] == log.Cells();
    TailStays(log.buffer[..], log.head, log.tail);
  }

  lemma EndlessQueue(size: nat, first: string, second: string)
    requires 2 * LINE_SIZE < size && |first| == size && |second| == LINE_SIZE - 1
    requires NulFree(first) && NulFree(second) && NEWLINE !in first && NEWLINE !in second
    ensures var q := Append(size, Append(size, Queue("", 0), first), second);
            q.start == LINE_SIZE && NulFree(q.items) && NEWLINE !in q.items
  {
    ModSmall(1, size);
    ModSmall(LINE_SIZE, size);
    assert Append(size, Queue("", 0), first) == Queue(first[1..], 1) by {
      assert "" + first == first;
    }
    assert forall c | c in first[1..] + second :: c in first || c in second;
  }

  lemma TailStays(slots: string, head: nat, tail: nat)
    requires head == LINE_SIZE - 1 && tail == LINE_SIZE && 2 * LINE_SIZE < |slots| - 1
    requires slots[|slots| - 1] == END_ITEM && NEWLINE !in ItemsOf(slots[..|slots| - 1], head, tail)
    ensures forall k :: TailAfter(slots, head, tail, k) == LINE_SIZE
  {
    hide ItemsOf, TailAfter, Spoils, DrainOf, FirstNewline, Segment;
    var segment := Segment(slots, head, tail);
    SegmentIsFirst(slots, head, tail);
    assert forall c | c in segment :: c in ItemsOf(slots[..|slots| - 1], head, tail);
    NoFirstNewline(segment);
    forall k
      ensures TailAfter(slots, head, tail, k) == LINE_SIZE
    {
      PrintedWithoutEnd(slots, head, k);
    }
  }

  lemma NoFirstNewline(s: string)
    requires NEWLINE !in s
    ensures FirstNewline(s).None?
  {}

  /** The log is one of those that are printed right. */
  ghost predicate Drainable(log: CircularBuffer)
    requires log.Valid()
    reads log, log.buffer
  {
    !Spoils(log.buffer[..], log.head, log.tail)
  }

  /** What printf("%s") shows of a character array. */
  function UpToNul(s: string): string {
    if s == "" || s[0] == END_ITEM then "" else [s[0]] + UpToNul(s[1..])
  }

  lemma {:induction false} UpToNulOf(s: string, n: nat)
    requires n < |s| && s[n] == END_ITEM && NulFree(s[..n])
    ensures UpToNul(s) == s[..n]
  {
    if n > 0 {
      assert s[0] == s[..n][0];
      assert s[1..][..n - 1] == s[..n][1..];
      UpToNulOf(s[1..], n - 1);
      assert s[..n] == [s[0]] + s[1..][..n - 1];
    }
  }

  predicate EndsLine(piece: string) {
    piece != "" && piece[|piece| - 1] == NEWLINE
  }

  /** A piece is shown on a line of its own, whether or not it brought a newline. */
  function Shown(piece: string): string {
    if EndsLine(piece) then piece else piece + "\n"
  }

  function AllShown(pieces: seq<string>): string {
    if pieces == [] then "" else AllShown(pieces[..|pieces| - 1]) + Shown(pieces[|pieces| - 1])
  }

  lemma NothingShown()
    ensures AllShown([]) == ""
  {}

  /** Pieces that were all whole lines are shown as they were logged. */
  lemma {:induction false} WholeLinesShownAsLogged(pieces: seq<string>)
    requires forall p | p in pieces :: EndsLine(p)
    ensures AllShown(pieces) == Flatten(pieces)
  {
    if pieces != [] {
      var n := |pieces| - 1;
      WholeLinesShownAsLogged(pieces[..n]);
      FlattenJoin(pieces[..n], [pieces[n]]);
      assert pieces == pieces[..n] + [pieces[n]];
      assert Flatten([pieces[n]]) == pieces[n] + "" == pieces[n];
    }
  }

  ghost predicate GoodPiece(piece: string) {
    0 < |piece| <= LINE_SIZE && NEWLINE !in piece[..|piece| - 1]
  }

  /** What is left when one line has been taken. */
  function LineTaken(slots: nat, q: RingState): (r: RingState)
    requires q.start < slots && |q.items| < slots
    ensures r.start < slots && |r.items| == |q.items| - LineIn(slots, q, LINE_SIZE)
  {
    Out(slots, q, LineIn(slots, q, LINE_SIZE)).0
  }

  /** The pieces a log comes out in: line by line, each as far as a log line has room. */
  function PiecesOf(slots: nat, q: RingState): seq<string>
    requires q.start < slots && |q.items| < slots
    decreases |q.items|
  {
    if q.items == "" then []
    else
      SomethingIn(slots, q);
      [q.items[..LineIn(slots, q, LINE_SIZE)]] + PiecesOf(slots, LineTaken(slots, q))
  }

  lemma SomethingIn(slots: nat, q: RingState)
    requires q.start < slots && |q.items| < slots && q.items != ""
    ensures LineIn(slots, q, LINE_SIZE) > 0
  {
    hide LineLength;
  }

  /** A log in one piece comes out in whole lines, or as much of one as there is room for, but for the last piece. */
  lemma {:induction false} PiecesAreLines(slots: nat, q: RingState, i: nat)
    requires q.start + |q.items| < slots && i < |PiecesOf(slots, q)|
    ensures Flatten(PiecesOf(slots, q)) == q.items
    ensures i < |PiecesOf(slots, q)| - 1 ==> EndsLine(PiecesOf(slots, q)[i]) || |PiecesOf(slots, q)[i]| == LINE_SIZE
    decreases |q.items|
  {
    hide LineIn;
    var n, rest := LineIn(slots, q, LINE_SIZE), PiecesOf(slots, LineTaken(slots, q));
    SomethingIn(slots, q);
    assert PiecesOf(slots, q) == [q.items[..n]] + rest;
    assert q.items == q.items[..n] + q.items[n..];
    ModSmall(q.start + n, slots);
    if rest == [] {
      assert q.items[n..] == "" && Flatten([q.items[..n]] + []) == q.items[..n] + "";
    } else {
      PiecesAreLines(slots, LineTaken(slots, q), if i == 0 then 0 else i - 1);
      assert ([q.items[..n]] + rest)[1..] == rest;
      LineOrRoom(slots, q);
    }
  }

  lemma LineOrRoom(slots: nat, q: RingState)
    requires q.start + |q.items| < slots && q.items != "" && LineIn(slots, q, LINE_SIZE) < |q.items|
    ensures var n := LineIn(slots, q, LINE_SIZE); EndsLine(q.items[..n]) || n == LINE_SIZE
  {
    hide FirstNewline;
    SomethingIn(slots, q);
    assert q.items[..|q.items|] == q.items && q.items[|q.items|..] == "";
    NoNewlineInNothing();
  }

  /** One call of consume_line with a log line's room: a non-empty piece comes out of a non-empty buffer. */
  method TakePiece(log: CircularBuffer, line: array<char>) returns (len: nat)
    requires log.Valid() && NulFree(log.Items()) && Drainable(log) && !log.Empty()
    requires line != log.buffer && line.Length == SERIAL_LOG_BUFFER_LEN
    modifies log, log.buffer, line
    ensures log.Valid() && NulFree(log.Items()) && Drainable(log)
    ensures old(log.tail) <= old(log.head) ==> log.tail <= log.head && log.head == old(log.head)
    ensures len <= LINE_SIZE && GoodPiece(line[..len]) && line[len] == END_ITEM && NulFree(line[..len])
    ensures line[..len] + log.Items() == old(log.Items())
    ensures len == LineIn(log.fixedSize, old(StateOf(log)), LINE_SIZE)
    ensures line[..len] == old(StateOf(log)).items[..len]
    ensures StateOf(log) == LineTaken(log.fixedSize, old(StateOf(log)))
  {
    hide ItemsOf, FirstNewline, ScanFrom, LineLength, FirstSegment, Segment, Misdrains, Spoils, Unended, Overruns;
    ghost var slots, h, t := log.buffer[..], log.head, log.tail;
    assert slots[..log.fixedSize] == log.Cells();
    log.FullIff();
    PieceStep(slots, h, t);
    len := log.ConsumeLine(line, LINE_SIZE);
    assert NulFree(old(log.Items())[..len]);
  }

  lemma PieceStep(slots: string, head: nat, tail: nat)
    requires head < |slots| - 1 && tail < |slots| - 1 && head != tail && (head != 0 ==> slots[head] == END_ITEM)
    requires NulFree(ItemsOf(slots[..|slots| - 1], head, tail)) && !Spoils(slots, head, tail)
    ensures !Misdrains(slots, head, tail, LINE_SIZE) && !Overruns(slots, tail)
    ensures var n, items := |slots| - 1, ItemsOf(slots[..|slots| - 1], head, tail);
            var first := FirstSegment(n, Queue(items, tail));
            var len := LineLength(items[..first], SecondSeen(slots, items[first..]), LINE_SIZE);
            && GoodPiece(items[..len]) && NulFree(items[len..])
            && SameEnd(slots, head, tail, (tail + len) % n) && !Spoils(slots, head, (tail + len) % n)
  {
    hide FirstNewline, ScanFrom, DrainOf, LineLength, Misdrains, Spoils, Unended, Overruns;
    var n, items, segment := |slots| - 1, ItemsOf(slots[..|slots| - 1], head, tail), Segment(slots, head, tail);
    UnendedNewline(segment);
    SegmentIsFirst(slots, head, tail);
    if Misdrains(slots, head, tail, LINE_SIZE) {
      MisdrainSpoils(slots, head, tail);
      assert false;
    }
    if Overruns(slots, tail) {
      OverrunSpoils(slots, head, tail);
      assert false;
    }
    SpoilsStep(slots, head, tail);
    DrainMeaning(slots, head, tail, LINE_SIZE);
    SomethingFirst(n, Queue(items, tail));
    PieceIsGood(items, |segment|, SecondSeen(slots, items[|segment|..]), LINE_SIZE);
  }

  lemma SomethingFirst(slots: nat, q: Queue)
    requires q.start < slots && q.items != ""
    ensures FirstSegment(slots, q) > 0
  {}

  lemma PieceIsGood(items: string, first: nat, seen: string, size: nat)
    requires 0 < first <= |items| && 0 < size && seen <= items[first..]
    ensures var n := LineLength(items[..first], seen, size);
            0 < n <= size && NEWLINE !in items[..n][..n - 1]
  {
    var n := LineLength(items[..first], seen, size);
    assert items == items[..first] + items[first..];
    forall i | 0 <= i < n - 1
      ensures items[i] != NEWLINE
    {
      assert (items[..first] + seen)[i] == items[i];
      if items[i] == NEWLINE {
        NewlineOnlyLast(items[..first], seen, size, i);
      }
    }
  }

  /** One round of the loop: the next piece, and what is printed for it. */
  method PrintPiece(log: CircularBuffer, line: array<char>) returns (piece: string, shown: string)
    requires log.Valid() && NulFree(log.Items()) && Drainable(log) && !log.Empty()
    requires line != log.buffer && line.Length == SERIAL_LOG_BUFFER_LEN
    modifies log, log.buffer, line
    ensures log.Valid() && NulFree(log.Items()) && Drainable(log) && GoodPiece(piece) && shown == Shown(piece)
    ensures piece + log.Items() == old(log.Items())
    ensures PiecesOf(log.fixedSize, old(StateOf(log))) == [piece] + PiecesOf(log.fixedSize, StateOf(log))
  {
    hide ItemsOf, UpToNul, LineIn, LineTaken, PiecesOf, Overruns, Drainable;
    ghost var now := StateOf(log);
    log.FullIff();
    NextPiece(log.fixedSize, now);
    var len := TakePiece(log, line);
    piece := line[..len];
    if line[len - 1] == NEWLINE {
      line[len - 1] := '\0';
      ShownAs(line[..], piece, len - 1);
    } else {
      line[len] := '\0';
      ShownAs(line[..], piece, len);
    }
    shown := UpToNul(line[..]) + "\n";
  }

  /** Print everything that is there, in its pieces and in order, each on a line of its own: but for the first, if
      the buffer had filled up, which may be the tail of a line. The buffer starts again at slot 0. */
  method PrintAvailableLogging(log: CircularBuffer, line: array<char>)
    returns (ignored: string, pieces: seq<string>, printed: string)
    requires log.Valid() && NulFree(log.Items()) && Drainable(log)
    requires line != log.buffer && line.Length == SERIAL_LOG_BUFFER_LEN
    modifies log, log.buffer, line
    ensures log.Valid() && log.Contents() == Queue("", 0)
    ensures ignored + Flatten(pieces) == old(log.Items())
    ensures !old(log.Full()) ==> ignored == ""
    ensures (if old(log.Full()) then [ignored] else []) + pieces == PiecesOf(log.fixedSize, old(StateOf(log)))
    ensures forall p | p in pieces :: GoodPiece(p)
    ensures printed == AllShown(pieces)
  {
    hide ItemsOf, AllShown, LineIn, LineTaken, PiecesOf, Overruns, Drainable, GoodPiece, Shown;
    ghost var logged, q := log.Items(), StateOf(log);
    ghost var skipped: seq<string> := [];
    ignored, pieces, printed := "", [], "";
    NothingShown();
    log.FullIff();
    if log.Full() {
      var len := TakePiece(log, line);
      ignored := line[..len];
      skipped := [ignored];
      NextPiece(log.fixedSize, q);
    }
    assert ignored + log.Items() == logged;
    assert skipped + [] + PiecesOf(log.fixedSize, StateOf(log)) == PiecesOf(log.fixedSize, q);
    while !log.Empty()
      invariant log.Valid() && NulFree(log.Items()) && Drainable(log)
      invariant ignored + Flatten(pieces) + log.Items() == logged
      invariant skipped + pieces + PiecesOf(log.fixedSize, StateOf(log)) == PiecesOf(log.fixedSize, q)
      invariant forall p | p in pieces :: GoodPiece(p)
      invariant printed == AllShown(pieces)
      decreases |log.Items()|
    {
      ghost var before := log.Items();
      log.FullIff();
      var piece, shown := PrintPiece(log, line);
      NotEmptyPiece(piece);
      OnePiece(skipped, pieces, piece, PiecesOf(log.fixedSize, StateOf(log)));
      printed := printed + shown;
      AddPiece(ignored, pieces, piece, log.Items(), before);
      pieces := pieces + [piece];
    }
    log.FullIff();
    NoPieces(log.fixedSize, StateOf(log), skipped + pieces);
    log.ClearIfEmpty();
    assert ignored + Flatten(pieces) + "" == ignored + Flatten(pieces);
  }

  lemma NotEmptyPiece(piece: string)
    requires GoodPiece(piece)
    ensures |piece| > 0
  {}

  lemma NextPiece(slots: nat, q: RingState)
    requires q.start < slots && |q.items| < slots && q.items != ""
    ensures PiecesOf(slots, q)
            == [q.items[..LineIn(slots, q, LINE_SIZE)]] + PiecesOf(slots, LineTaken(slots, q))
  {}

  lemma OnePiece(skipped: seq<string>, pieces: seq<string>, piece: string, rest: seq<string>)
    ensures skipped + pieces + ([piece] + rest) == skipped + (pieces + [piece]) + rest
  {}

  lemma NoPieces(slots: nat, q: RingState, pieces: seq<string>)
    requires q.start < slots && |q.items| < slots && q.items == ""
    ensures pieces + PiecesOf(slots, q) == pieces
  {}

  lemma ShownAs(line: string, piece: string, n: nat)
    requires n < |line| && line[n] == END_ITEM && n <= |piece| && line[..n] == piece[..n]
    requires NulFree(piece) && n == if EndsLine(piece) then |piece| - 1 else |piece|
    ensures UpToNul(line) + "\n" == Shown(piece)
  {
    assert NulFree(line[..n]);
    UpToNulOf(line, n);
    if EndsLine(piece) {
      assert piece == piece[..n] + "\n";
    } else {
      assert piece[..n] == piece;
    }
  }

  lemma AddPiece(ignored: string, pieces: seq<string>, piece: string, rest: string, before: string)
    requires piece + rest == before
    ensures ignored + Flatten(pieces + [piece]) + rest == ignored + Flatten(pieces) + before
    ensures AllShown(pieces + [piece]) == AllShown(pieces) + Shown(piece)
  {
    FlattenJoin(pieces, [piece]);
    assert Flatten([piece]) == piece + "" == piece;
    assert (pieces + [piece])[..|pieces|] == pieces;
    assert ignored + (Flatten(pieces) + piece) + rest == ignored + Flatten(pieces) + (piece + rest);
  }

  // ---- logging and printing by turns ----

  ghost predicate Loggable(s: string) {
    s != "" && NulFree(s)
  }

  /** Logging into a buffer that starts at slot 0, for as long as there is room: it stays in one piece. */
  method WriteAll(log: CircularBuffer, texts: seq<string>)
    requires log.Valid() && log.Contents() == Queue("", 0)
    requires (forall s | s in texts :: Loggable(s)) && |Flatten(texts)| < log.fixedSize
    modifies log, log.buffer
    ensures log.Valid()
    ensures log.Contents() == Queue(Flatten(texts), 0) && !log.Full() && Drainable(log)
  {
    ghost var n := log.fixedSize;
    var i := 0;
    while i < |texts|
      invariant i <= |texts| && log.Valid()
      invariant log.Contents() == Queue(Flatten(texts[..i]), 0)
    {
      assert texts[..i + 1] == texts[..i] + [texts[i]];
      assert texts == texts[..i + 1] + texts[i + 1..];
      FlattenJoin(texts[..i], [texts[i]]);
      FlattenJoin(texts[..i + 1], texts[i + 1..]);
      assert Flatten([texts[i]]) == texts[i] + "" == texts[i];
      assert Loggable(texts[i]);
      AppendFits(n, Queue(Flatten(texts[..i]), 0), texts[i]);
      log.WriteString(texts[i]);
      i := i + 1;
    }
    assert texts[..i] == texts;
  }

  /** From a cleared buffer, with never more than it holds between two printouts, everything logged is printed,
      once and in order. */
  method LogRun(log: CircularBuffer, line: array<char>, batches: seq<seq<string>>) returns (pieces: seq<string>)
    requires log.Valid() && log.Contents() == Queue("", 0)
    requires line != log.buffer && line.Length == SERIAL_LOG_BUFFER_LEN
    requires forall b | b in batches :: (forall s | s in b :: Loggable(s)) && |Flatten(b)| < log.fixedSize
    modifies log, log.buffer, line
    ensures log.Valid() && log.Contents() == Queue("", 0)
    ensures Flatten(pieces) == FlattenAll(batches)
    ensures forall p | p in pieces :: GoodPiece(p)
  {
    hide ItemsOf, Flatten, FlattenAll, Drainable;
    FlattenNothing();
    assert batches[0..] == batches;
    pieces := [];
    var i := 0;
    while i < |batches|
      invariant i <= |batches| && log.Valid() && log.Contents() == Queue("", 0)
      invariant Flatten(pieces) + FlattenAll(batches[i..]) == FlattenAll(batches)
      invariant forall p | p in pieces :: GoodPiece(p)
    {
      assert batches[i] in batches;
      FlattenAllFrom(batches, i);
      WriteAll(log, batches[i]);
      FlattenNulFree(batches[i]);
      assert log.Items() == Flatten(batches[i]);
      var ignored, more, printed := PrintAvailableLogging(log, line);
      BatchDone(pieces, more, ignored, Flatten(batches[i]), FlattenAll(batches[i + 1..]));
      pieces := pieces + more;
      i := i + 1;
    }
    assert batches[i..] == [] && Flatten(pieces) + "" == Flatten(pieces);
  }

  lemma BatchDone(pieces: seq<string>, more: seq<string>, ignored: string, batch: string, rest: string)
    requires ignored == "" && ignored + Flatten(more) == batch
    ensures Flatten(pieces + more) + rest == Flatten(pieces) + (batch + rest)
  {
    hide Flatten;
    FlattenJoin(pieces, more);
    assert Flatten(more) == batch;
    assert Flatten(pieces) + (batch + rest) == Flatten(pieces) + batch + rest;
  }

  lemma FlattenNothing()
    ensures Flatten([]) == "" && FlattenAll([]) == ""
    ensures forall s: string :: "" + s == s
  {}

  lemma FlattenAllFrom(batches: seq<seq<string>>, i: nat)
    requires i < |batches|
    ensures FlattenAll(batches[i..]) == Flatten(batches[i]) + FlattenAll(batches[i + 1..])
  {
    assert batches[i..][1..] == batches[i + 1..];
  }

  lemma FlattenNulFree(texts: seq<string>)
    requires forall s | s in texts :: NulFree(s)
    ensures NulFree(Flatten(texts))
  {
    if texts != [] {
      assert texts[0] in texts && forall s | s in texts[1..] :: s in texts;
      FlattenNulFree(texts[1..]);
    }
  }

  function FlattenAll(batches: seq<seq<string>>): string {
    if batches == [] then "" else Flatten(batches[0]) + FlattenAll(batches[1..])
  }
}
