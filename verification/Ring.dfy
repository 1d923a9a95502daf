/** The queue a ring buffer stands for, and the arithmetic of its slots. */
module Ring {
  import opened Binary

  const END_ITEM: char := '\0'

  /** What an observer sees: the items, oldest first, and the slot the oldest one is in. */
  datatype Queue = Queue(items: string, start: nat)

  ghost predicate Fits(slots: nat, q: Queue) {
    q.start < slots && |q.items| < slots
  }

  function LastOf(s: string, k: nat): (t: string)
    ensures |t| == Min(|s|, k)
  {
    if |s| <= k then s else s[|s| - k..]
  }

  lemma LastOfShort(s: string, k: nat)
    requires |s| <= k
    ensures LastOf(s, k) == s
  {}

  /** Append, dropping the oldest items when there are more than `slots - 1`. */
  function Append(slots: nat, q: Queue, s: string): (r: Queue)
    requires 0 < slots
  {
    var kept := LastOf(q.items + s, slots - 1);
    Queue(kept, (q.start + (|q.items| + |s| - |kept|)) % slots)
  }

  lemma AppendFits(slots: nat, q: Queue, s: string)
    requires q.start < slots && |q.items| + |s| < slots
    ensures Append(slots, q, s) == Queue(q.items + s, q.start)
  {
    ModSmall(q.start, slots);
  }

  /** Remove the `n` oldest items. */
  function Take(slots: nat, q: Queue, n: nat): Queue
    requires 0 < slots && n <= |q.items|
  {
    Queue(q.items[n..], (q.start + n) % slots)
  }

  /** The items up to the end of the slots; the rest start again at slot 0. */
  function FirstSegment(slots: nat, q: Queue): (n: nat)
    requires q.start < slots
    ensures n <= |q.items|
  {
    Min(|q.items|, slots - q.start)
  }

  // ---- slots ----

  function Held(slots: nat, head: nat, tail: nat): nat
    requires head < slots && tail < slots
  {
    if tail <= head then head - tail else slots - tail + head
  }

  function ItemsOf(cells: string, head: nat, tail: nat): (items: string)
    requires head < |cells| && tail < |cells|
    ensures |items| == Held(|cells|, head, tail)
  {
    if tail <= head then cells[tail..head] else cells[tail..] + cells[..head]
  }

  /** The slots in the order they will be overwritten, the oldest first. */
  function Rotated(cells: string, head: nat): (r: string)
    requires head < |cells|
    ensures |r| == |cells|
  {
    cells[head..] + cells[..head]
  }

  /** Moving the tail within the first segment removes exactly the items passed over. */
  lemma ItemsTaken(cells: string, head: nat, tail: nat, n: nat)
    requires head < |cells| && tail < |cells|
    requires n <= FirstSegment(|cells|, Queue(ItemsOf(cells, head, tail), tail))
    ensures ItemsOf(cells, head, tail)[..n] == cells[tail..tail + n]
    ensures (tail + n) % |cells| == if tail + n == |cells| then 0 else tail + n
    ensures ItemsOf(cells, head, (tail + n) % |cells|) == ItemsOf(cells, head, tail)[n..]
  {
    ModSmall(tail + n, |cells|);
  }

  /** Moving the tail over any number of items removes exactly those. */
  lemma ItemsDropped(cells: string, head: nat, tail: nat, n: nat)
    requires head < |cells| && tail < |cells| && n <= |ItemsOf(cells, head, tail)|
    ensures ItemsOf(cells, head, (tail + n) % |cells|) == ItemsOf(cells, head, tail)[n..]
  {
    if n <= FirstSegment(|cells|, Queue(ItemsOf(cells, head, tail), tail)) {
      ItemsTaken(cells, head, tail, n);
    } else {
      ModSmall(tail + n, |cells|);
    }
  }

  predicate OccupiedSlot(slots: nat, head: nat, tail: nat, slot: nat) {
    if tail <= head then tail <= slot < head else tail <= slot < slots || slot < head
  }

  /** Overwriting a slot shows exactly when the slot is occupied by something else. */
  lemma OverwriteShows(cells: string, head: nat, tail: nat, slot: nat, c: char)
    requires head < |cells| && tail < |cells| && slot < |cells|
    ensures ItemsOf(cells[slot := c], head, tail) == ItemsOf(cells, head, tail)
            <==> !(OccupiedSlot(|cells|, head, tail, slot) && cells[slot] != c)
  {
    var items, items' := ItemsOf(cells, head, tail), ItemsOf(cells[slot := c], head, tail);
    if OccupiedSlot(|cells|, head, tail, slot) {
      var k := if tail <= slot then slot - tail else |cells| - tail + slot;
      assert items[k] == cells[slot] && items'[k] == c;
      if cells[slot] == c {
        assert cells[slot := c] == cells;
      }
    }
  }

  lemma AppendNothing(slots: nat, q: Queue)
    requires Fits(slots, q)
    ensures Append(slots, q, "") == q
  {
    assert q.items + "" == q.items;
    ModSmall(q.start, slots);
  }

  lemma ItemsAreSuffix(cells: string, head: nat, tail: nat)
    requires head < |cells| && tail < |cells|
    ensures ItemsOf(cells, head, tail) == Rotated(cells, head)[|cells| - Held(|cells|, head, tail)..]
  {
    var r := Rotated(cells, head);
    if tail <= head {
      assert r[|cells| - (head - tail)..] == cells[tail..head];
    } else {
      assert r[tail - head..] == cells[tail..] + cells[..head];
    }
  }

  function Next(slots: nat, p: nat): nat {
    if p + 1 == slots then 0 else p + 1
  }

  lemma RotateByOne(cells: string, p: nat, c: char)
    requires p < |cells|
    ensures Rotated(cells[p := c], Next(|cells|, p)) == Rotated(cells, p)[1..] + [c]
  {}

  lemma ModSmall(x: nat, n: nat)
    requires 0 < n && x < 2 * n
    ensures x % n == if x < n then x else x - n
  {
    if x >= n {
      ModMinus(x, n);
    }
  }

  lemma ModMinus(x: nat, n: nat)
    requires 0 < n <= x
    ensures x % n == (x - n) % n
  {
    var q, r := (x - n) / n, (x - n) % n;
    assert x == n * (q + 1) + r;
    ModUnique(x, n, q + 1, r);
  }

  lemma ModUnique(x: nat, n: nat, q: nat, r: nat)
    requires r < n && x == n * q + r
    ensures x % n == r
  {
    var k := x / n - q;
    assert n * k == r - x % n;
    assert k <= 0 by { assert k >= 1 ==> n * k >= n; }
    assert k >= 0 by { assert k <= -1 ==> n * k <= -(n as int); }
  }

  lemma ModNext(x: nat, n: nat)
    requires 0 < n
    ensures (x + 1) % n == Next(n, x % n)
  {
    var q, r := x / n, x % n;
    assert x == n * q + r;
    if r + 1 == n {
      assert x + 1 == n * (q + 1) + 0;
      ModUnique(x + 1, n, q + 1, 0);
    } else {
      ModUnique(x + 1, n, q, r + 1);
    }
  }

  // ---- the effect of writing ----

  lemma HeldAfter(n: nat, head: nat, tail: nat, k: nat)
    requires head < n && tail < n && Held(n, head, tail) + k < n
    ensures Held(n, (head + k) % n, tail) == Held(n, head, tail) + k
  {
    ModSmall(head + k, n);
  }

  /** The slot arithmetic of an overflow: the gap is behind the new head, and the start moves by what is lost. */
  lemma StartAfterOverflow(n: nat, head: nat, tail: nat, k: nat)
    requires head < n && tail < n && Held(n, head, tail) + k >= n - 1
    ensures Next(n, (head + k) % n) == (tail + (Held(n, head, tail) + k - (n - 1))) % n
    ensures Held(n, (head + k) % n, Next(n, (head + k) % n)) == n - 1
  {
    ModNext(head + k, n);
    var moved := tail + (Held(n, head, tail) + k - (n - 1));
    if tail > head {
      assert moved == head + k + 1;
    } else {
      assert moved + n == head + k + 1;
      ModMinus(head + k + 1, n);
    }
  }

  /** Cells that, read from the new head on, are the old ones followed by `s`, hold what Append says, whatever
      the gap slot holds. */
  lemma Pushed(cells: string, head: nat, tail: nat, s: string, cells': string, tail': nat)
    requires |cells| == |cells'| && head < |cells| && tail < |cells| && tail' < |cells|
    requires s != ""
    requires var n, held, head' := |cells|, Held(|cells|, head, tail), (head + |s|) % |cells|;
             && Rotated(cells', head')[1..] == (Rotated(cells, head) + s)[|s| + 1..]
             && (held + |s| < n ==> tail' == tail)
             && (held + |s| >= n ==> tail' == Next(n, head'))
    ensures Queue(ItemsOf(cells', (head + |s|) % |cells|, tail'), tail')
            == Append(|cells|, Queue(ItemsOf(cells, head, tail), tail), s)
  {
    var n, held, head' := |cells|, Held(|cells|, head, tail), (head + |s|) % |cells|;
    var r, r' := Rotated(cells, head), Rotated(cells', head');
    var items, items' := ItemsOf(cells, head, tail), ItemsOf(cells', head', tail');
    ItemsAreSuffix(cells, head, tail);
    ItemsAreSuffix(cells', head', tail');
    if held + |s| < n {
      HeldAfter(n, head, tail, |s|);
      ModSmall(tail, n);
    } else {
      StartAfterOverflow(n, head, tail, |s|);
    }
    var held' := |items'|;
    assert held' == Min(held + |s|, n - 1);
    SuffixOfPushed(r, r', s, held');
    AppendedSuffix(r, items, s, held');
  }

  lemma SuffixOfPushed(r: string, r': string, s: string, k: nat)
    requires |r| == |r'| && 0 < |s| && k < |r|
    requires r'[1..] == (r + s)[|s| + 1..]
    ensures r'[|r| - k..] == (r + s)[|r| + |s| - k..]
  {
    assert r'[|r| - k..] == r'[1..][|r| - k - 1..];
    assert (r + s)[|r| + |s| - k..] == (r + s)[|s| + 1..][|r| - k - 1..];
  }

  lemma AppendedSuffix(r: string, items: string, s: string, k: nat)
    requires |items| <= |r| && items == r[|r| - |items|..] && k <= |items| + |s|
    ensures (items + s)[|items| + |s| - k..] == (r + s)[|r| + |s| - k..]
  {
    assert r + s == r[..|r| - |items|] + (items + s);
  }

  /** One item written at the head, with the end item behind it where there is a slot for it. */
  lemma ItemPushed(cells: string, head: nat, item: char, end: char, cells': string)
    requires head < |cells|
    requires var next := Next(|cells|, head);
             cells' == if next == 0 then cells[head := item] else cells[head := item][next := end]
    ensures Rotated(cells', Next(|cells|, head))[1..] == (Rotated(cells, head) + [item])[2..]
  {
    RotateByOne(cells, head, item);
    GapRotated(cells[head := item], Next(|cells|, head), end);
  }

  lemma GapRotated(cells: string, head: nat, c: char)
    requires head < |cells|
    ensures Rotated(cells[head := c], head)[1..] == Rotated(cells, head)[1..]
  {}

  /** Writing one item, in full: an append, but for the buffer that holds all it can from slot 0. */
  lemma ItemWritten(cells: string, head: nat, tail: nat, item: char, end: char, cells': string, tail': nat)
    requires head < |cells| && tail < |cells|
    requires var next := Next(|cells|, head);
             && cells' == (if next == 0 then cells[head := item] else cells[head := item][next := end])
             && tail' == if head == tail - 1 then (head + 2) % |cells| else tail
    ensures Queue(ItemsOf(cells', (head + 1) % |cells|, tail'), tail')
            == Append(|cells|, Queue(ItemsOf(cells, head, tail), tail), [item])
            <==> !(|cells| > 1 && tail == 0 && head == |cells| - 1)
  {
    var n := |cells|;
    ModNext(head, n);
    ModSmall(head, n);
    ModNext(head + 1, n);
    if n > 1 && tail == 0 && head == n - 1 {
      assert ItemsOf(cells', 0, 0) == "";
    } else {
      ItemPushed(cells, head, item, end, cells');
      Pushed(cells, head, tail, [item], cells', tail');
    }
  }

  /** The string write has seen the buffer fill up. */
  predicate Over(slots: nat, head: nat, tail: nat, k: nat)
    requires head < slots && tail < slots
  {
    Held(slots, head, tail) + k >= if tail == 0 then slots else slots - 1
  }

  /** The test made at each character notices the buffer filling up when it happens. */
  lemma OverStep(slots: nat, head: nat, tail: nat, k: nat)
    requires head < slots && tail < slots
    ensures var pos := (head + k) % slots;
            Over(slots, head, tail, k + 1)
            == (Over(slots, head, tail, k) || (pos + 1) % slots == tail - 1 || (tail == 0 && pos == slots - 1))
  {
    if !Over(slots, head, tail, k) {
      ModSmall(head + k, slots);
      ModNext((head + k) % slots, slots);
      ModSmall((head + k) % slots, slots);
    }
  }

  /** One more character in the rotated order. */
  lemma RotateMore(r0: string, s: string, k: nat, cells: string, p: nat)
    requires k < |s| && |cells| == |r0| && p < |cells|
    requires Rotated(cells, p) == (r0 + s[..k])[k..]
    ensures Rotated(cells[p := s[k]], Next(|cells|, p)) == (r0 + s[..k + 1])[k + 1..]
  {
    RotateByOne(cells, p, s[k]);
    assert r0 + s[..k + 1] == r0 + s[..k] + [s[k]];
  }

  /** Writing a non-empty string, in full: an append. */
  lemma StringWritten(before: string, head: nat, tail: nat, s: string, end: char,
                      cells: string, cells': string, tail': nat)
    requires head < |before| && tail < |before| && |cells| == |before| && s != ""
    requires var n, head' := |before|, (head + |s|) % |before|;
             && Rotated(cells, head') == (Rotated(before, head) + s)[|s|..]
             && cells' == (if head' == 0 then cells else cells[head' := end])
             && tail' == if Over(n, head, tail, |s|) then (head + |s| + 1) % n else tail
    ensures Queue(ItemsOf(cells', (head + |s|) % |before|, tail'), tail')
            == Append(|before|, Queue(ItemsOf(before, head, tail), tail), s)
  {
    var n, head' := |before|, (head + |s|) % |before|;
    GapRotated(cells, head', end);
    assert Rotated(cells, head')[1..] == (Rotated(before, head) + s)[|s| + 1..];
    ModNext(head + |s|, n);
    if Held(n, head, tail) + |s| == n - 1 {
      StartAfterOverflow(n, head, tail, |s|);
      ModSmall(tail, n);
    }
    Pushed(before, head, tail, s, cells', tail');
  }

  /** Behind the end item of a write that went past the last slot lie the characters that were there, up to where it
      began, and then its own. */
  lemma OldShows(before: string, head: nat, s: string, end: char, cells: string, cells': string)
    requires head < |before| == |cells| && |before| <= head + |s| && |s| < |before|
    requires var head' := head + |s| - |before|;
             && Rotated(cells, head') == (Rotated(before, head) + s)[|s|..]
             && cells' == if head' == 0 then cells else cells[head' := end]
    ensures ItemsOf(cells', 0, head + |s| - |before| + 1)
            == before[head + |s| - |before| + 1..head] + s[..|before| - head]
  {
    var n, head' := |before|, head + |s| - |before|;
    var all := before[head..] + before[..head] + s;
    assert cells[head'..] == Rotated(cells, head')[..n - head'] == all[|s|..][..n - head'];
    assert all[|s|..][..n - head'] == all[|s|..|s| + n - head'];
    assert forall i | head' < i < n :: cells[i] == cells[head'..][i - head'] == all[|s| + i - head'];
    assert forall i | head' < i < head :: all[|s| + i - head'] == before[i];
    assert forall i | 0 <= i < n - head :: all[n + i] == s[i];
    assert |s| - head' == n - head;
  }
}
