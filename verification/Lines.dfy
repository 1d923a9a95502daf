/** What draining one line takes from the two segments of a ring buffer. */
module Lines {
  import opened Binary
  import opened Ring

  const NEWLINE: char := '\n'

  /** strchr for a newline, from slot `i` on: it stops at the first NUL. */
  function ScanFrom(slots: string, i: nat): (r: Option<nat>)
    requires i <= |slots|
    ensures r.Some? ==> i <= r.value < |slots| && slots[r.value] == NEWLINE && NEWLINE !in slots[i..r.value]
    decreases |slots| - i
  {
    if i == |slots| then None
    else if slots[i] == NEWLINE then Some(i)
    else if slots[i] == END_ITEM then None
    else ScanFrom(slots, i + 1)
  }

  function FirstNewline(s: string): (r: Option<nat>)
    ensures r.Some? ==> r.value < |s| && s[r.value] == NEWLINE && NEWLINE !in s[..r.value]
    ensures r.None? ==> NEWLINE !in s
  {
    if s == "" then None
    else if s[0] == NEWLINE then Some(0)
    else match FirstNewline(s[1..]) case Some(k) => Some(k + 1) case None => None
  }

  /** Over NUL-free slots with a NUL behind them, the scan finds the first newline of those slots. */
  lemma {:induction false} ScanFinds(slots: string, i: nat, j: nat)
    requires i <= j < |slots| && slots[j] == END_ITEM && END_ITEM !in slots[i..j]
    ensures ScanFrom(slots, i) == match FirstNewline(slots[i..j]) case Some(k) => Some(i + k) case None => None
    decreases j - i
  {
    if i < j {
      assert slots[i..j][1..] == slots[i + 1..j];
      assert slots[i] == slots[i..j][0];
      ScanFinds(slots, i + 1, j);
    }
  }

  /** Over characters that are neither newlines nor NULs the scan goes on. */
  lemma {:induction false} ScanGoesOn(slots: string, i: nat, j: nat)
    requires i <= j <= |slots| && END_ITEM !in slots[i..j] && NEWLINE !in slots[i..j]
    ensures ScanFrom(slots, i) == ScanFrom(slots, j)
    decreases j - i
  {
    if i < j {
      assert slots[i] == slots[i..j][0];
      assert slots[i..j][1..] == slots[i + 1..j];
      ScanGoesOn(slots, i + 1, j);
    }
  }

  /** The scan from slot `i` on leaves the slots. */
  predicate Overruns(slots: string, i: nat) {
    forall j | i <= j < |slots| :: slots[j] != END_ITEM && slots[j] != NEWLINE
  }

  lemma StopsAt(slots: string, i: nat, j: nat)
    requires i <= j < |slots| && slots[j] == END_ITEM
    ensures !Overruns(slots, i)
  {}

  /** A drain's scan leaves the slots exactly when the slot behind the last stops it nowhere, neither as a NUL nor
      as a newline, and nothing stops it before: over a wrapped ring without a newline in its first segment, and
      over an empty ring at slot 0 with only other characters left in its slots. */
  lemma OverrunsIff(slots: string, head: nat, tail: nat)
    requires head < |slots| - 1 && tail < |slots| - 1 && (head != 0 ==> slots[head] == END_ITEM)
    requires END_ITEM !in ItemsOf(slots[..|slots| - 1], head, tail)
    ensures var n := |slots| - 1;
            Overruns(slots, tail)
            <==> && slots[n] != END_ITEM && slots[n] != NEWLINE
                 && (|| (head < tail && FirstNewline(Segment(slots, head, tail)).None?)
                     || (head == tail == 0 && END_ITEM !in slots[..n] && NEWLINE !in slots[..n]))
  {
    hide FirstNewline;
    var n := |slots| - 1;
    if tail <= head && head != 0 {
      assert slots[head] == END_ITEM;
    } else if head < tail {
      WrappedItems(slots, head, tail);
      var segment := Segment(slots, head, tail);
      assert forall j | tail <= j < n :: slots[j] == segment[j - tail];
      assert forall j | tail <= j < n :: slots[j] in segment && slots[j] == (segment + slots[..head])[j - tail];
      if FirstNewline(segment).Some? {
        assert slots[tail + FirstNewline(segment).value] == NEWLINE;
      }
    } else {
      assert forall j | 0 <= j < n :: slots[j] == slots[..n][j];
    }
  }

  /** Over a NUL-free segment with a newline, the scan finds the first one, whatever comes behind. */
  lemma {:induction false} ScanStops(slots: string, i: nat, first: nat)
    requires i + first <= |slots| && END_ITEM !in slots[i..i + first] && FirstNewline(slots[i..i + first]).Some?
    ensures ScanFrom(slots, i) == Some(i + FirstNewline(slots[i..i + first]).value)
    decreases first
  {
    assert slots[i] == slots[i..i + first][0];
    if slots[i] != NEWLINE {
      assert slots[i..i + first][1..] == slots[i + 1..i + 1 + (first - 1)];
      ScanStops(slots, i + 1, first - 1);
    }
  }

  /** Over a segment and more behind it, up to a NUL, the scan finds the first newline of the segment, if any. */
  lemma ScanSegment(slots: string, i: nat, first: nat, j: nat)
    requires i + first <= j < |slots| && slots[j] == END_ITEM && END_ITEM !in slots[i..j]
    ensures match FirstNewline(slots[i..i + first])
            case Some(k) => ScanFrom(slots, i) == Some(i + k)
            case None => ScanFrom(slots, i).Some? ==> i + first <= ScanFrom(slots, i).value < j
  {
    ScanFinds(slots, i, j);
    FirstNewlineOfJoin(slots[i..i + first], slots[i + first..j]);
    assert slots[i..j] == slots[i..i + first] + slots[i + first..j];
  }

  lemma FirstNewlineOfJoin(s: string, t: string)
    ensures FirstNewline(s).Some? ==> FirstNewline(s + t) == FirstNewline(s)
    ensures FirstNewline(s).None?
            ==> FirstNewline(s + t) == match FirstNewline(t) case Some(k) => Some(|s| + k) case None => None
  {
    if s == "" {
      assert s + t == t;
    } else {
      assert (s + t)[1..] == s[1..] + t;
      FirstNewlineOfJoin(s[1..], t);
    }
  }

  /** How many items one drain takes: a line, cut to the space there is. The second segment is looked at only
      when there is room for all of the first, and is taken from only up to a newline. */
  function LineLength(first: string, second: string, size: nat): (n: nat)
    ensures n <= size && n <= |first| + |second|
    ensures first != "" && size > 0 ==> n > 0
  {
    match FirstNewline(first)
    case Some(i) => Min(size, i + 1)
    case None =>
      if size < |first| then size
      else match FirstNewline(second)
        case Some(k) => |first| + Min(size - |first|, k + 1)
        case None => |first|
  }

  /** A newline comes last in what one drain takes, or not at all. */
  lemma NewlineOnlyLast(first: string, second: string, size: nat, i: nat)
    requires i < LineLength(first, second, size) && (first + second)[i] == NEWLINE
    ensures i == LineLength(first, second, size) - 1
  {
    FirstNewlineOfJoin(first, second);
    var k := FirstNewline(first + second).value;
    assert forall m | 0 <= m < k :: (first + second)[..k][m] != NEWLINE;
    assert i >= k;
  }

  /** The segment a drain starts with: up to the end of the ring when the ring is wrapped. */
  function Segment(slots: string, head: nat, tail: nat): (s: string)
    requires head < |slots| && tail < |slots|
    ensures |s| == (if head < tail then |slots| - 1 else head) - tail
  {
    slots[tail..if head < tail then |slots| - 1 else head]
  }

  /** What the scan comes back with: the first newline of the segment; or else, when the ring is wrapped, one in the
      slot behind the last; or nothing, or something behind the segment. */
  predicate Scanned(slots: string, head: nat, tail: nat, lineEnd: Option<nat>)
    requires head < |slots| - 1 && tail < |slots| - 1
  {
    match FirstNewline(Segment(slots, head, tail))
    case Some(k) => lineEnd == Some(tail + k)
    case None =>
      if head < tail then
        lineEnd == if slots[|slots| - 1] == NEWLINE then Some(|slots| - 1) else None
      else
        lineEnd.Some? ==> tail + |Segment(slots, head, tail)| <= lineEnd.value < |slots|
  }

  lemma ScannedMeans(slots: string, head: nat, tail: nat, lineEnd: Option<nat>)
    requires head < |slots| - 1 && tail < |slots| - 1 && Scanned(slots, head, tail, lineEnd)
    ensures match lineEnd
            case Some(v) => tail <= v
            case None => && FirstNewline(Segment(slots, head, tail)).None?
                         && (head < tail ==> slots[|slots| - 1] != NEWLINE)
  {
    hide FirstNewline;
  }

  /** The scan of the slots as an interrupt may have left them, against the segment as it was. */
  lemma ScanNow(slots: string, head: nat, tail: nat, now: string, headNow: nat)
    requires |now| == |slots| && head < |slots| - 1 && tail < |slots| - 1
    requires !Overruns(slots, tail) && (head <= tail ==> now == slots)
    requires now[tail..tail + |Segment(slots, head, tail)|] == Segment(slots, head, tail)
    requires head < tail ==> END_ITEM !in now[tail..|slots| - 1]
    requires tail < head ==> head <= headNow < |slots| - 1 && now[headNow] == END_ITEM
    requires tail < head ==> END_ITEM !in now[tail..headNow]
    ensures Scanned(slots, head, tail, ScanFrom(now, tail))
  {
    hide FirstNewline, ScanFrom;
    var first := |Segment(slots, head, tail)|;
    if head < tail {
      if FirstNewline(Segment(slots, head, tail)).Some? {
        ScanStops(now, tail, first);
      } else {
        ScanGoesOn(now, tail, |slots| - 1);
        LastSlot(now);
        assert forall j | tail <= j < |slots| - 1 :: now[j] == now[tail..|slots| - 1][j - tail];
      }
    } else if tail < head {
      ScanSegment(now, tail, first, headNow);
    }
  }

  lemma LastSlot(slots: string)
    requires slots != ""
    ensures ScanFrom(slots, |slots| - 1) == if slots[|slots| - 1] == NEWLINE then Some(|slots| - 1) else None
  {}

  /** What one drain hands out, and the tail it leaves, from the slots (one more than the ring has) as they lie. */
  datatype Drain = Drain(text: string, tail: nat)

  function DrainOf(slots: string, head: nat, tail: nat, size: nat): (d: Drain)
    requires head < |slots| - 1 && tail < |slots| - 1
    ensures |d.text| <= size && d.tail < |slots| - 1
  {
    var n := |slots| - 1;
    var first := |Segment(slots, head, tail)|;
    match FirstNewline(Segment(slots, head, tail))
    case Some(k) =>
      var len := Min(size, k + 1);
      Drain(slots[tail..tail + len], (tail + len) % n)
    case None =>
      if head < tail && slots[n] == NEWLINE then
        var len := Min(size, first);
        Drain(slots[tail..tail + len], (tail + len) % n)
      else if size < first then
        Drain(slots[tail..tail + size], if size <= head then (tail + size) % n else size)
      else if head < tail then
        var extra := match ScanFrom(slots, 0) case Some(v) => Min(size - first, v + 1) case None => 0;
        Drain(slots[tail..n] + slots[..extra], extra % n)
      else
        Drain(slots[tail..head], head)
  }

  lemma DrainAtBoundary(slots: string, head: nat, tail: nat, size: nat, extra: nat)
    requires head < |slots| - 1 && tail < |slots| - 1
    requires FirstNewline(Segment(slots, head, tail)).None? && |Segment(slots, head, tail)| <= size
    requires head < tail ==> slots[|slots| - 1] != NEWLINE
    requires extra == match ScanFrom(slots, 0)
                      case Some(v) => Min(size - |Segment(slots, head, tail)|, v + 1)
                      case None => 0
    ensures DrainOf(slots, head, tail, size)
            == if head < tail then Drain(Segment(slots, head, tail) + slots[..extra], extra % (|slots| - 1))
               else Drain(Segment(slots, head, tail), head)
  {
  }

  lemma DrainAtNewline(slots: string, head: nat, tail: nat, size: nat, lineEnd: nat)
    requires head < |slots| - 1 && tail < |slots| - 1 && Scanned(slots, head, tail, Some(lineEnd))
    ensures var n := Min(Min(size, |Segment(slots, head, tail)|), lineEnd - tail + 1);
            DrainOf(slots, head, tail, size) == Drain(Segment(slots, head, tail)[..n], (tail + n) % (|slots| - 1))
  {
    var segment := Segment(slots, head, tail);
    var n := Min(Min(size, |segment|), lineEnd - tail + 1);
    assert slots[tail..tail + n] == segment[..n];
    if FirstNewline(segment).None? && n == |segment| && tail <= head {
      assert tail + n == head;
      ModSmall(head, |slots| - 1);
    }
  }

  lemma DrainCut(slots: string, head: nat, tail: nat, size: nat)
    requires head < |slots| - 1 && tail < |slots| - 1
    requires FirstNewline(Segment(slots, head, tail)).None? && size < |Segment(slots, head, tail)|
    requires head < tail ==> slots[|slots| - 1] != NEWLINE
    ensures DrainOf(slots, head, tail, size)
            == Drain(Segment(slots, head, tail)[..size], if size <= head then (tail + size) % (|slots| - 1) else size)
  {
    assert slots[tail..tail + size] == Segment(slots, head, tail)[..size];
  }

  /** An unwrapped buffer is drained from its tail on. */
  lemma DrainUnwrapped(slots: string, head: nat, tail: nat, size: nat)
    requires tail <= head < |slots| - 1
    ensures var d := DrainOf(slots, head, tail, size);
            d.tail == tail + |d.text| <= head && d.text == slots[tail..d.tail]
            && |d.text| == LineLength(slots[tail..head], "", size)
  {
    var first := head - tail;
    if size < first {
      ModSmall(tail + size, |slots| - 1);
    }
    match FirstNewline(Segment(slots, head, tail)) {
      case Some(k) => ModSmall(tail + Min(size, k + 1), |slots| - 1);
      case None =>
    }
  }

  lemma SliceOf(s: string, n: nat, i: nat, j: nat)
    requires i <= j <= n <= |s|
    ensures s[i..j] == s[..n][i..j]
  {}

  lemma WrappedFirst(cells: string, head: nat, tail: nat)
    requires head < tail < |cells|
    ensures cells[tail..|cells|] == ItemsOf(cells, head, tail)[..|cells| - tail]
  {}

  lemma UnwrappedAll(cells: string, head: nat, tail: nat)
    requires tail <= head < |cells|
    ensures cells[tail..head] == ItemsOf(cells, head, tail)
  {}

  lemma SlicePrefix(s: string, i: nat, n: nat, k: nat)
    requires i + n <= |s| && k <= n
    ensures s[i..i + k] == s[i..i + n][..k]
  {}

  /** All that the interrupts of one drain write. */
  function Joined(w: seq<string>): string
    requires |w| == 7
  {
    w[0] + w[1] + w[2] + w[3] + w[4] + w[5] + w[6]
  }

  lemma JoinAll(items: string, w: seq<string>)
    requires |w| == 7
    ensures items + (w[0] + w[1] + w[2] + w[3] + w[4]) + w[5] + w[6] == items + Joined(w)
  {}

  /** The states in which a drain goes wrong: a wrapped ring with no newline in its first segment and none in the
      slot behind the last, when either the space runs out inside that segment after more than `head` items, or
      there is space left behind the segment, nothing in the second one, and a stale newline in the slots from 0
      on. */
  predicate Misdrains(slots: string, head: nat, tail: nat, size: nat)
    requires head < |slots| - 1 && tail < |slots| - 1
  {
    && head < tail && FirstNewline(Segment(slots, head, tail)).None? && slots[|slots| - 1] != NEWLINE
    && if size < |slots| - 1 - tail then head < size
       else head == 0 && |slots| - 1 - tail < size && ScanFrom(slots, 0).Some?
  }

  /** What a drain sees of the second segment: nothing when a newline lies in the slot behind the last. */
  function SecondSeen(slots: string, second: string): (seen: string)
    requires slots != ""
    ensures |seen| <= |second|
  {
    if slots[|slots| - 1] == NEWLINE then "" else second
  }

  lemma WrappedItems(slots: string, head: nat, tail: nat)
    requires head < tail < |slots| - 1
    ensures var items := ItemsOf(slots[..|slots| - 1], head, tail);
            items == Segment(slots, head, tail) + slots[..head] && items[|slots| - 1 - tail..] == slots[..head]
  {
    var cells := slots[..|slots| - 1];
    assert cells[tail..] == Segment(slots, head, tail) && cells[..head] == slots[..head];
  }

  /** A drain that finds the rest of the line, or nothing to stop at, in the second segment. */
  lemma DrainAcross(slots: string, head: nat, tail: nat, size: nat)
    requires head < tail < |slots| - 1 && (head != 0 ==> slots[head] == END_ITEM)
    requires END_ITEM !in slots[..head] && FirstNewline(Segment(slots, head, tail)).None?
    requires |slots| - 1 - tail <= size && slots[|slots| - 1] != NEWLINE
    ensures var n, first := |slots| - 1, |slots| - 1 - tail;
            var d, items := DrainOf(slots, head, tail, size), ItemsOf(slots[..n], head, tail);
            && (!Misdrains(slots, head, tail, size)
                ==> |d.text| == LineLength(Segment(slots, head, tail), slots[..head], size) <= |items|
                    && d.text == items[..|d.text|] && d.tail == (tail + |d.text|) % n)
            && (Misdrains(slots, head, tail, size) ==> |d.text| > |items|)
  {
    hide ScanFrom, DrainOf, FirstNewline, ItemsOf;
    var n, first, segment := |slots| - 1, |slots| - 1 - tail, Segment(slots, head, tail);
    WrappedItems(slots, head, tail);
    var extra := match ScanFrom(slots, 0) case Some(v) => Min(size - first, v + 1) case None => 0;
    DrainAtBoundary(slots, head, tail, size, extra);
    if head != 0 {
      assert slots[0..head] == slots[..head];
      ScanFinds(slots, 0, head);
      AcrossWithin(segment, slots[..head], slots, extra);
      ModSmall(extra, n);
      ModSmall(n + extra, n);
    } else {
      NoNewlineInNothing();
      assert segment + slots[..0] == segment;
      ModSmall(0, n);
      ModSmall(n, n);
    }
  }

  lemma AcrossWithin(segment: string, second: string, slots: string, extra: nat)
    requires second <= slots && extra <= |second|
    ensures segment + slots[..extra] == (segment + second)[..|segment| + extra]
  {}

  lemma NoNewlineInNothing()
    ensures FirstNewline("").None?
  {}

  /** A drain that stays within the first segment. */
  lemma DrainWithin(slots: string, head: nat, tail: nat, size: nat)
    requires head < |slots| - 1 && tail < |slots| - 1
    requires head < tail ==> || FirstNewline(Segment(slots, head, tail)).Some? || size < |Segment(slots, head, tail)|
                             || slots[|slots| - 1] == NEWLINE
    ensures var segment, d := Segment(slots, head, tail), DrainOf(slots, head, tail, size);
            && |d.text| == LineLength(segment, "", size) && d.text == segment[..|d.text|]
            && d.tail == if Misdrains(slots, head, tail, size) then size else (tail + |d.text|) % (|slots| - 1)
  {
    var segment := Segment(slots, head, tail);
    if tail <= head {
      DrainUnwrapped(slots, head, tail, size);
      ModSmall(DrainOf(slots, head, tail, size).tail, |slots| - 1);
    } else if FirstNewline(segment).None? {
      if slots[|slots| - 1] == NEWLINE {
        DrainAtNewline(slots, head, tail, size, |slots| - 1);
      } else {
        DrainCut(slots, head, tail, size);
      }
    } else {
      DrainAtNewline(slots, head, tail, size, tail + FirstNewline(segment).value);
    }
  }

  lemma LineLengthWithin(first: string, second: string, size: nat)
    requires FirstNewline(first).Some? || size < |first| || second == ""
    ensures LineLength(first, second, size) == LineLength(first, "", size)
  {}

  lemma DrainWithinMeaning(slots: string, head: nat, tail: nat, size: nat)
    requires head < |slots| - 1 && tail < |slots| - 1
    requires head < tail ==> || FirstNewline(Segment(slots, head, tail)).Some? || size < |Segment(slots, head, tail)|
                             || slots[|slots| - 1] == NEWLINE
    ensures var n, segment := |slots| - 1, Segment(slots, head, tail);
            var d, items := DrainOf(slots, head, tail, size), ItemsOf(slots[..n], head, tail);
            && (!Misdrains(slots, head, tail, size)
                ==> |d.text| == LineLength(segment, SecondSeen(slots, items[|segment|..]), size)
                    && d.text == items[..|d.text|] && d.tail == (tail + |d.text|) % n)
            && (Misdrains(slots, head, tail, size)
                ==> |d.text| + |ItemsOf(slots[..n], head, d.tail)| != |items|)
  {
    hide FirstNewline, ScanFrom, DrainOf, LineLength;
    var n, segment := |slots| - 1, Segment(slots, head, tail);
    var d, items := DrainOf(slots, head, tail, size), ItemsOf(slots[..n], head, tail);
    SegmentIsFirst(slots, head, tail);
    DrainWithin(slots, head, tail, size);
    LineLengthWithin(segment, SecondSeen(slots, items[|segment|..]), size);
    assert d.text == items[..|segment|][..|d.text|] == items[..|d.text|];
    if Misdrains(slots, head, tail, size) {
      DrainCut(slots, head, tail, size);
    }
  }

  lemma DrainAcrossMeaning(slots: string, head: nat, tail: nat, size: nat)
    requires head < tail < |slots| - 1 && (head != 0 ==> slots[head] == END_ITEM)
    requires END_ITEM !in ItemsOf(slots[..|slots| - 1], head, tail)
    requires FirstNewline(Segment(slots, head, tail)).None? && |Segment(slots, head, tail)| <= size
    requires slots[|slots| - 1] != NEWLINE
    ensures var n, segment := |slots| - 1, Segment(slots, head, tail);
            var d, items := DrainOf(slots, head, tail, size), ItemsOf(slots[..n], head, tail);
            && (!Misdrains(slots, head, tail, size)
                ==> |d.text| == LineLength(segment, SecondSeen(slots, items[|segment|..]), size)
                    && d.text == items[..|d.text|] && d.tail == (tail + |d.text|) % n)
            && (Misdrains(slots, head, tail, size) ==> |d.text| > |items|)
  {
    hide FirstNewline, ScanFrom, DrainOf, LineLength, Misdrains;
    var segment, items := Segment(slots, head, tail), ItemsOf(slots[..|slots| - 1], head, tail);
    WrappedItems(slots, head, tail);
    assert items[|segment|..] == slots[..head];
    assert END_ITEM !in items[|segment|..];
    DrainAcross(slots, head, tail, size);
  }

  /** A drain that stays in the slots hands out a prefix of the items and leaves the rest, in every state but
      those. */
  lemma DrainMeaning(slots: string, head: nat, tail: nat, size: nat)
    requires head < |slots| - 1 && tail < |slots| - 1
    requires (head != 0 ==> slots[head] == END_ITEM)
    requires END_ITEM !in ItemsOf(slots[..|slots| - 1], head, tail) && !Overruns(slots, tail)
    ensures var n, segment := |slots| - 1, Segment(slots, head, tail);
            var d, items := DrainOf(slots, head, tail, size), ItemsOf(slots[..n], head, tail);
            && (!Misdrains(slots, head, tail, size)
                ==> |d.text| == LineLength(segment, SecondSeen(slots, items[|segment|..]), size)
                    && d.text == items[..|d.text|] && d.tail == (tail + |d.text|) % n)
            && (d.text + ItemsOf(slots[..n], head, d.tail) == items <==> !Misdrains(slots, head, tail, size))
  {
    hide FirstNewline, ScanFrom, DrainOf, LineLength, Misdrains, ItemsOf;
    var n, segment := |slots| - 1, Segment(slots, head, tail);
    var d, items := DrainOf(slots, head, tail, size), ItemsOf(slots[..n], head, tail);
    if head < tail && FirstNewline(segment).None? && |segment| <= size && slots[n] != NEWLINE {
      DrainAcrossMeaning(slots, head, tail, size);
    } else {
      DrainWithinMeaning(slots, head, tail, size);
    }
    if !Misdrains(slots, head, tail, size) {
      ItemsDropped(slots[..n], head, tail, |d.text|);
      assert items == items[..|d.text|] + items[|d.text|..];
    } else {
      assert |d.text + ItemsOf(slots[..n], head, d.tail)| != |items|;
    }
  }

  lemma SegmentIsFirst(slots: string, head: nat, tail: nat)
    requires head < |slots| - 1 && tail < |slots| - 1
    ensures var n := |slots| - 1;
            var items := ItemsOf(slots[..n], head, tail);
            && |Segment(slots, head, tail)| == FirstSegment(n, Queue(items, tail))
            && items[..|Segment(slots, head, tail)|] == Segment(slots, head, tail)
  {
    var items := ItemsOf(slots[..|slots| - 1], head, tail);
    if head < tail {
      WrappedItems(slots, head, tail);
    } else {
      assert items == slots[tail..head] == Segment(slots, head, tail);
    }
  }

  /** Both kinds happen. A ring of three slots holding "bc" from slot 1, a newline already consumed in slot 0:
      the drain hands out that newline again. */
  lemma StaleNewlineHandedOut()
    ensures var slots := ['\n', 'b', 'c', END_ITEM];
            && Misdrains(slots, 0, 1, 5) && ItemsOf(slots[..3], 0, 1) == "bc"
            && DrainOf(slots, 0, 1, 5) == Drain("bc\n", 1)
  {
    var slots := ['\n', 'b', 'c', END_ITEM];
    assert Segment(slots, 0, 1) == ['b', 'c'];
    assert ['b', 'c'][1..] == ['c'] && ['c'][1..] == [];
    assert FirstNewline(['c']).None? && FirstNewline(['b', 'c']).None?;
    assert ScanFrom(slots, 0) == Some(0);
    assert slots[1..3] == ['b', 'c'] && slots[..1] == ['\n'];
    assert slots[1..3] + slots[..1] == "bc\n";
    DrainAtBoundary(slots, 0, 1, 5, 1);
    ModSmall(1, 3);
    assert slots[..3][1..] + slots[..3][..0] == "bc";
  }

  /** The same ring with room for one character: the character comes out and is still there. */
  lemma CutSegmentRepeats()
    ensures var slots := ['\n', 'b', 'c', END_ITEM];
            && Misdrains(slots, 0, 1, 1) && DrainOf(slots, 0, 1, 1) == Drain("b", 1)
  {
    var slots := ['\n', 'b', 'c', END_ITEM];
    assert Segment(slots, 0, 1) == ['b', 'c'];
    assert ['b', 'c'][1..] == ['c'] && ['c'][1..] == [];
    assert FirstNewline(['c']).None? && FirstNewline(['b', 'c']).None?;
    ModSmall(1, 3);
    assert slots[1..2] == "b";
  }
}
