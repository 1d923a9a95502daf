/** The node's wall clock: uptime plus an offset learnt from announces, in 64-bit arithmetic. */
module Clock {
  import opened Binary

  const TWO_64: nat := 0x1_0000_0000_0000_0000
  const MESSAGE_TIMEOUT: nat := 300000
  /** Uptimes and announced times are microsecond counts of 64 bits, divided down to milliseconds. */
  const MAX_MS: nat := (0xFFFF_FFFF_FFFF_FFFF) / 1000

  function Now(offset: U64, uptimeMs: nat): U64 {
    (offset + uptimeMs) % TWO_64
  }

  function Signed64(x: U64): int {
    if x < 0x8000_0000_0000_0000 then x else x - TWO_64
  }

  /** The offset after hearing the time `ts`: a clock that is behind, or more than the timeout ahead, is set. */
  function Updated(offset: U64, uptimeMs: nat, ts: U64): U64 {
    var diff := Signed64(ts) - Signed64(Now(offset, uptimeMs));
    var abs := if diff < 0 then -diff else diff;
    if abs > MESSAGE_TIMEOUT || ts > Now(offset, uptimeMs) then (offset + diff) % TWO_64 else offset
  }

  /** Moving the offset moves the clock by as much. */
  lemma Shifted(offset: U64, uptimeMs: nat, diff: int)
    requires 0 <= Now(offset, uptimeMs) + diff < TWO_64
    ensures Now((offset + diff) % TWO_64, uptimeMs) == Now(offset, uptimeMs) + diff
  {
    var q, r := (offset + uptimeMs) / TWO_64, (offset + diff) / TWO_64;
    assert offset + uptimeMs == q * TWO_64 + Now(offset, uptimeMs);
    assert offset + diff == r * TWO_64 + (offset + diff) % TWO_64;
  }

  /** One update: the clock is set to `ts` or left alone, and is then at most the timeout ahead of `ts`. */
  lemma UpdateSets(offset: U64, uptimeMs: nat, ts: U64)
    requires Now(offset, uptimeMs) <= 2 * MAX_MS && ts <= MAX_MS
    ensures var now, now' := Now(offset, uptimeMs), Now(Updated(offset, uptimeMs, ts), uptimeMs);
            && now' == (if now < ts || ts + MESSAGE_TIMEOUT < now then ts else now)
            && 0 <= now' - ts <= MESSAGE_TIMEOUT
  {
    var now := Now(offset, uptimeMs);
    assert Signed64(ts) == ts && Signed64(now) == now;
    Shifted(offset, uptimeMs, ts - now);
  }

  /** Events of a clock's life: time passes, or an announced time is heard. */
  datatype Event = Pass(ms: nat) | Hear(ts: U64)

  function Life(offset: U64, uptimeMs: nat, events: seq<Event>): (U64, nat)
    decreases |events|
  {
    if events == [] then (offset, uptimeMs)
    else match events[0]
      case Pass(ms) => Life(offset, uptimeMs + ms, events[1..])
      case Hear(ts) => Life(Updated(offset, uptimeMs, ts), uptimeMs, events[1..])
  }

  /** The clock as it would be without any wrap-around: it runs, and it is set. */
  function Ideal(now: int, events: seq<Event>): int
    decreases |events|
  {
    if events == [] then now
    else match events[0]
      case Pass(ms) => Ideal(now + ms, events[1..])
      case Hear(ts) => Ideal(if now < ts || ts + MESSAGE_TIMEOUT < now then ts else now, events[1..])
  }

  lemma PassAdvances(offset: U64, uptimeMs: nat, ms: nat)
    requires Now(offset, uptimeMs) <= MAX_MS + uptimeMs && uptimeMs + ms <= MAX_MS
    ensures Now(offset, uptimeMs + ms) == Now(offset, uptimeMs) + ms
  {
    assert (offset + (uptimeMs + ms)) % TWO_64 == (Now(offset, uptimeMs) + ms) % TWO_64;
  }

  /** Through every life, the wrapped 64-bit offset stands for the ideal clock exactly. */
  lemma {:induction false} OffsetIsExact(offset: U64, uptimeMs: nat, events: seq<Event>)
    requires Now(offset, uptimeMs) <= MAX_MS + uptimeMs
    requires forall e | e in events && e.Hear? :: e.ts <= MAX_MS
    requires Life(offset, uptimeMs, events).1 <= MAX_MS
    ensures var (offset', uptime') := Life(offset, uptimeMs, events);
            && Now(offset', uptime') == Ideal(Now(offset, uptimeMs), events)
            && uptimeMs <= uptime' && Now(offset', uptime') <= MAX_MS + uptime'
    decreases |events|
  {
    hide Now, Updated;
    if events != [] {
      assert events[0] in events && forall e | e in events[1..] :: e in events;
      UptimeGrows(offset, uptimeMs, events);
      match events[0] {
        case Pass(ms) =>
          UptimeGrows(offset, uptimeMs + ms, events[1..]);
          PassAdvances(offset, uptimeMs, ms);
          OffsetIsExact(offset, uptimeMs + ms, events[1..]);
        case Hear(ts) =>
          UpdateSets(offset, uptimeMs, ts);
          OffsetIsExact(Updated(offset, uptimeMs, ts), uptimeMs, events[1..]);
      }
    }
  }

  lemma {:induction false} UptimeGrows(offset: U64, uptimeMs: nat, events: seq<Event>)
    ensures uptimeMs <= Life(offset, uptimeMs, events).1
    decreases |events|
  {
    if events != [] {
      match events[0] {
        case Pass(ms) => UptimeGrows(offset, uptimeMs + ms, events[1..]);
        case Hear(ts) => UptimeGrows(Updated(offset, uptimeMs, ts), uptimeMs, events[1..]);
      }
    }
  }

  // ---- a batch of times at one moment ----

  function Heard(offset: U64, uptimeMs: nat, times: seq<U64>): U64
    decreases |times|
  {
    if times == [] then offset else Heard(Updated(offset, uptimeMs, times[0]), uptimeMs, times[1..])
  }

  function Latest(now: nat, times: seq<U64>): (m: nat)
    ensures m >= now && (m == now || m in times)
    ensures forall t | t in times :: t <= m
    decreases |times|
  {
    if times == [] then now
    else
      assert forall t :: t in times <==> t == times[0] || t in times[1..];
      Latest(if times[0] > now then times[0] else now, times[1..])
  }

  /** Times within the timeout of the latest leave the clock at the latest, whatever their order. */
  lemma {:induction false} BatchEndsAtLatest(offset: U64, uptimeMs: nat, times: seq<U64>)
    requires Now(offset, uptimeMs) <= 2 * MAX_MS
    requires forall t | t in times :: t <= MAX_MS && Latest(Now(offset, uptimeMs), times) <= t + MESSAGE_TIMEOUT
    ensures Now(Heard(offset, uptimeMs, times), uptimeMs) == Latest(Now(offset, uptimeMs), times)
    decreases |times|
  {
    if times != [] {
      assert times[0] in times && forall t | t in times[1..] :: t in times;
      UpdateSets(offset, uptimeMs, times[0]);
      BatchEndsAtLatest(Updated(offset, uptimeMs, times[0]), uptimeMs, times[1..]);
    }
  }

  lemma LatestOfSame(now: nat, a: seq<U64>, b: seq<U64>)
    requires multiset(a) == multiset(b)
    ensures Latest(now, a) == Latest(now, b)
  {
    forall t
      ensures t in a <==> t in b
    {
      assert t in multiset(a) <==> t in multiset(b);
    }
  }

  /** So the order within such a batch does not matter. */
  lemma BatchOrderIrrelevant(offset: U64, uptimeMs: nat, a: seq<U64>, b: seq<U64>)
    requires Now(offset, uptimeMs) <= 2 * MAX_MS && multiset(a) == multiset(b)
    requires forall t | t in a :: t <= MAX_MS && Latest(Now(offset, uptimeMs), a) <= t + MESSAGE_TIMEOUT
    ensures Now(Heard(offset, uptimeMs, a), uptimeMs) == Now(Heard(offset, uptimeMs, b), uptimeMs)
  {
    LatestOfSame(Now(offset, uptimeMs), a, b);
    forall t | t in b
      ensures t in a
    {
      assert t in multiset(a);
    }
    BatchEndsAtLatest(offset, uptimeMs, a);
    BatchEndsAtLatest(offset, uptimeMs, b);
  }

  ghost predicate AlwaysLatest(offset: U64, uptimeMs: nat, a: seq<U64>) {
    forall b: seq<U64> | multiset(b) == multiset(a) ::
      Now(Heard(offset, uptimeMs, b), uptimeMs) == Latest(Now(offset, uptimeMs), a)
  }

  /** A batch leaves the clock at its latest time in whatever order it comes if and only if none of its times is
      further than the timeout behind the latest. */
  lemma AlwaysLatestIff(offset: U64, uptimeMs: nat, a: seq<U64>)
    requires Now(offset, uptimeMs) <= 2 * MAX_MS && forall t | t in a :: t <= MAX_MS
    ensures AlwaysLatest(offset, uptimeMs, a)
            <==> forall t | t in a :: Latest(Now(offset, uptimeMs), a) <= t + MESSAGE_TIMEOUT
  {
    hide Heard, Latest, Now;
    var now := Now(offset, uptimeMs);
    if forall t | t in a :: Latest(now, a) <= t + MESSAGE_TIMEOUT {
      forall b: seq<U64> | multiset(b) == multiset(a)
        ensures Now(Heard(offset, uptimeMs, b), uptimeMs) == Latest(now, a)
      {
        BatchOrderIrrelevant(offset, uptimeMs, a, b);
        BatchEndsAtLatest(offset, uptimeMs, a);
      }
    } else {
      var t :| t in a && Latest(now, a) > t + MESSAGE_TIMEOUT;
      FarTimeAtLast(offset, uptimeMs, a, t);
    }
  }

  lemma FarTimeAtLast(offset: U64, uptimeMs: nat, a: seq<U64>, t: U64)
    requires Now(offset, uptimeMs) <= 2 * MAX_MS && (forall u | u in a :: u <= MAX_MS) && t in a
    requires Latest(Now(offset, uptimeMs), a) > t + MESSAGE_TIMEOUT
    ensures !AlwaysLatest(offset, uptimeMs, a)
  {
    hide Heard, Latest, Now;
    var i :| 0 <= i < |a| && a[i] == t;
    var rest := a[..i] + a[i + 1..];
    assert a == a[..i] + [t] + a[i + 1..];
    assert multiset(rest + [t]) == multiset(a);
    forall u | u in rest
      ensures u <= MAX_MS
    {
      assert u in a;
    }
    FarTimeLast(offset, uptimeMs, rest, t, Latest(Now(offset, uptimeMs), a));
  }

  /** A time that comes last either sets the clock or leaves it within the timeout of it. */
  lemma FarTimeLast(offset: U64, uptimeMs: nat, rest: seq<U64>, t: U64, latest: nat)
    requires Now(offset, uptimeMs) <= 2 * MAX_MS && t <= MAX_MS && forall u | u in rest :: u <= MAX_MS
    requires t + MESSAGE_TIMEOUT < latest
    ensures Now(Heard(offset, uptimeMs, rest + [t]), uptimeMs) != latest
  {
    HeardJoin(offset, uptimeMs, rest, [t]);
    HeardBounded(offset, uptimeMs, rest);
    UpdateSets(Heard(offset, uptimeMs, rest), uptimeMs, t);
    assert [t][1..] == [];
    assert Heard(Updated(Heard(offset, uptimeMs, rest), uptimeMs, t), uptimeMs, [])
           == Updated(Heard(offset, uptimeMs, rest), uptimeMs, t);
  }

  lemma {:induction false} HeardJoin(offset: U64, uptimeMs: nat, a: seq<U64>, b: seq<U64>)
    ensures Heard(offset, uptimeMs, a + b) == Heard(Heard(offset, uptimeMs, a), uptimeMs, b)
    decreases |a|
  {
    hide Updated;
    if a == [] {
      assert a + b == b;
    } else {
      assert (a + b)[0] == a[0] && (a + b)[1..] == a[1..] + b;
      HeardJoin(Updated(offset, uptimeMs, a[0]), uptimeMs, a[1..], b);
    }
  }

  lemma {:induction false} HeardBounded(offset: U64, uptimeMs: nat, times: seq<U64>)
    requires Now(offset, uptimeMs) <= 2 * MAX_MS && forall t | t in times :: t <= MAX_MS
    ensures Now(Heard(offset, uptimeMs, times), uptimeMs) <= 2 * MAX_MS
    decreases |times|
  {
    hide Updated, Now;
    if times != [] {
      assert times[0] in times && forall t | t in times[1..] :: t in times;
      UpdateSets(offset, uptimeMs, times[0]);
      HeardBounded(Updated(offset, uptimeMs, times[0]), uptimeMs, times[1..]);
    }
  }

  /** So two times further apart leave the clock at whichever comes last. */
  lemma FarTimesAreOrderDependent(offset: U64, uptimeMs: nat, early: U64, late: U64)
    requires Now(offset, uptimeMs) <= 2 * MAX_MS && early <= MAX_MS && late <= MAX_MS
    requires early + MESSAGE_TIMEOUT < late
    ensures Now(Heard(offset, uptimeMs, [late, early]), uptimeMs) == early
    ensures Now(Heard(offset, uptimeMs, [early, late]), uptimeMs) == late
  {
    hide Updated, Now;
    HeardTwo(offset, uptimeMs, early, late);
    HeardTwo(offset, uptimeMs, late, early);
    UpdateSets(offset, uptimeMs, early);
    UpdateSets(Updated(offset, uptimeMs, early), uptimeMs, late);
    UpdateSets(offset, uptimeMs, late);
    UpdateSets(Updated(offset, uptimeMs, late), uptimeMs, early);
  }

  lemma HeardTwo(offset: U64, uptimeMs: nat, s: U64, t: U64)
    ensures Heard(offset, uptimeMs, [s, t]) == Updated(Updated(offset, uptimeMs, s), uptimeMs, t)
  {
    hide Updated;
    assert [s, t][1..] == [t] && [t][1..] == [];
    assert Heard(Updated(offset, uptimeMs, s), uptimeMs, [t])
           == Heard(Updated(Updated(offset, uptimeMs, s), uptimeMs, t), uptimeMs, []);
  }
}
