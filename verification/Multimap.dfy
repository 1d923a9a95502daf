/** Ordered multimaps: entries sorted by key, those of one key in the order they were inserted. */
module Multimap {

  datatype Entry<+V> = Entry(key: nat, value: V)

  ghost predicate Sorted<V>(m: seq<Entry<V>>) {
    forall i, j | 0 <= i < j < |m| :: m[i].key <= m[j].key
  }

  /** The first place with a key above `k`. */
  function UpperBound<V>(m: seq<Entry<V>>, k: nat): (i: nat)
    ensures i <= |m|
    ensures i < |m| ==> m[i].key > k
    ensures forall j | 0 <= j < i :: m[j].key <= k
  {
    if m == [] || m[0].key > k then 0 else 1 + UpperBound(m[1..], k)
  }

  /** The first place with a key not below `k`. */
  function LowerBound<V>(m: seq<Entry<V>>, k: nat): (i: nat)
    ensures i <= |m|
    ensures i < |m| ==> m[i].key >= k
    ensures forall j | 0 <= j < i :: m[j].key < k
  {
    if m == [] || m[0].key >= k then 0 else 1 + LowerBound(m[1..], k)
  }

  /** Where a search for `k` ends up: at its first entry, or at the end. */
  function Find<V>(m: seq<Entry<V>>, k: nat): (i: nat)
    ensures i <= |m|
    ensures i < |m| ==> m[i].key == k
    ensures Sorted(m) && i == |m| ==> forall e | e in m :: e.key != k
    ensures Sorted(m) ==> forall j | 0 <= j < i :: m[j].key < k || i == |m|
  {
    var i := LowerBound(m, k);
    if i < |m| && m[i].key == k then i else |m|
  }

  function Insert<V>(m: seq<Entry<V>>, k: nat, v: V): (r: seq<Entry<V>>)
    ensures |r| == |m| + 1
  {
    var i := UpperBound(m, k);
    m[..i] + [Entry(k, v)] + m[i..]
  }

  lemma InsertSorted<V>(m: seq<Entry<V>>, k: nat, v: V)
    requires Sorted(m)
    ensures Sorted(Insert(m, k, v))
  {}

  lemma InsertMembers<V(!new)>(m: seq<Entry<V>>, k: nat, v: V)
    ensures forall e :: e in Insert(m, k, v) <==> e in m || e == Entry(k, v)
  {
    var i, r := UpperBound(m, k), Insert(m, k, v);
    forall e
      ensures e in r <==> e in m || e == Entry(k, v)
    {
      JoinMembers(m[..i], m[i..], e);
      JoinMembers(m[..i], [Entry(k, v)], e);
      JoinMembers(m[..i] + [Entry(k, v)], m[i..], e);
      assert m == m[..i] + m[i..];
    }
  }

  lemma JoinMembers<T>(a: seq<T>, b: seq<T>, e: T)
    ensures e in a + b <==> e in a || e in b
  {}

  /** The values of one key, in order. */
  function Values<V>(m: seq<Entry<V>>, k: nat): seq<V> {
    if m == [] then [] else (if m[0].key == k then [m[0].value] else []) + Values(m[1..], k)
  }

  lemma {:induction false} ValuesOfJoin<V>(a: seq<Entry<V>>, b: seq<Entry<V>>, k: nat)
    ensures Values(a + b, k) == Values(a, k) + Values(b, k)
  {
    if a == [] {
      assert a + b == b && Values(a, k) == [];
    } else {
      var first, rest := if a[0].key == k then [a[0].value] else [], a[1..];
      ValuesOfJoin(rest, b, k);
      assert (a + b)[0] == a[0] && (a + b)[1..] == rest + b;
      assert Values(a + b, k) == first + Values(rest + b, k);
      assert first + (Values(rest, k) + Values(b, k)) == first + Values(rest, k) + Values(b, k);
    }
  }

  lemma NoValues<V>(m: seq<Entry<V>>, k: nat)
    requires forall e | e in m :: e.key != k
    ensures Values(m, k) == []
  {
    if m != [] {
      assert m[0] in m && forall e | e in m[1..] :: e in m;
      NoValues(m[1..], k);
    }
  }

  /** A new entry goes behind those of its key, and no other key sees it. */
  lemma InsertAppends<V>(m: seq<Entry<V>>, k: nat, v: V, l: nat)
    requires Sorted(m)
    ensures Values(Insert(m, k, v), l) == Values(m, l) + if k == l then [v] else []
  {
    hide Values, Sorted;
    var i := UpperBound(m, k);
    var a, b, c := m[..i], [Entry(k, v)], m[i..];
    assert m == a + c;
    ValuesOfJoin(a, c, l);
    ValuesOfJoin(a + b, c, l);
    ValuesOfJoin(a, b, l);
    OneValue(Entry(k, v), l);
    AboveUpperBound(m, k);
    if k == l {
      NoValues(c, k);
      assert Values(a, l) + [v] + [] == Values(a, l) + [] + [v];
    } else {
      assert Values(a, l) + [] + Values(c, l) == Values(a, l) + Values(c, l) + [];
    }
  }

  lemma OneValue<V>(e: Entry<V>, k: nat)
    ensures Values([e], k) == if e.key == k then [e.value] else []
  {
    assert Values([e], k) == (if e.key == k then [e.value] else []) + Values([], k);
  }

  lemma AboveUpperBound<V>(m: seq<Entry<V>>, k: nat)
    requires Sorted(m)
    ensures forall e | e in m[UpperBound(m, k)..] :: e.key != k
  {
    var i := UpperBound(m, k);
    assert forall j | i <= j < |m| :: m[i].key <= m[j].key;
  }

  /** erase_if: what the predicate does not hold of, in order. */
  function Keep<T(!new)>(s: seq<T>, p: T -> bool): (r: seq<T>)
    ensures forall e :: e in r <==> e in s && p(e)
  {
    if s == [] then []
    else
      assert forall e :: e in s <==> e == s[0] || e in s[1..];
      (if p(s[0]) then [s[0]] else []) + Keep(s[1..], p)
  }

  lemma {:induction false} KeepSorted<V(!new)>(m: seq<Entry<V>>, p: Entry<V> -> bool)
    requires Sorted(m)
    ensures Sorted(Keep(m, p))
  {
    if m != [] {
      KeepSorted(m[1..], p);
      forall e | e in Keep(m[1..], p)
        ensures m[0].key <= e.key
      {
        assert e in m[1..];
      }
    }
  }

  lemma {:induction false} KeepSame<T(!new)>(s: seq<T>, p: T -> bool, q: T -> bool)
    requires forall e | e in s :: p(e) == q(e)
    ensures Keep(s, p) == Keep(s, q)
  {
    if s != [] {
      assert s[0] in s && forall e | e in s[1..] :: e in s;
      KeepSame(s[1..], p, q);
    }
  }

  lemma {:induction false} KeepTwice<T(!new)>(s: seq<T>, p: T -> bool, q: T -> bool, both: T -> bool)
    requires forall e :: both(e) <==> p(e) && q(e)
    ensures Keep(Keep(s, p), q) == Keep(s, both)
  {
    if s != [] {
      KeepTwice(s[1..], p, q, both);
      var rest := Keep(s[1..], p);
      if p(s[0]) {
        assert ([s[0]] + rest)[0] == s[0] && ([s[0]] + rest)[1..] == rest;
      } else {
        assert [] + rest == rest;
      }
    }
  }

  lemma {:induction false} KeepAll<T(!new)>(s: seq<T>, p: T -> bool)
    requires forall e | e in s :: p(e)
    ensures Keep(s, p) == s
  {
    if s != [] {
      assert s[0] in s && forall e | e in s[1..] :: e in s;
      KeepAll(s[1..], p);
    }
  }

  lemma {:induction false} KeepNothing<T(!new)>(s: seq<T>, p: T -> bool)
    requires forall e | e in s :: !p(e)
    ensures Keep(s, p) == []
  {
    if s != [] {
      assert s[0] in s && forall e | e in s[1..] :: e in s;
      KeepNothing(s[1..], p);
    }
  }

  lemma {:induction false} KeepJoin<T(!new)>(a: seq<T>, b: seq<T>, p: T -> bool)
    ensures Keep(a + b, p) == Keep(a, p) + Keep(b, p)
  {
    if a == [] {
      assert a + b == b;
    } else {
      assert (a + b)[0] == a[0] && (a + b)[1..] == a[1..] + b;
      KeepJoin(a[1..], b, p);
    }
  }

  lemma RangeOfKey<V>(m: seq<Entry<V>>, k: nat)
    requires Sorted(m)
    ensures LowerBound(m, k) <= UpperBound(m, k)
    ensures forall e | e in m[..LowerBound(m, k)] + m[UpperBound(m, k)..] :: e.key != k
    ensures forall e | e in m[LowerBound(m, k)..UpperBound(m, k)] :: e.key == k
  {
    var lo, hi := LowerBound(m, k), UpperBound(m, k);
    forall j | lo <= j < |m|
      ensures m[j].key >= k && (hi <= j ==> m[j].key > k)
    {
      assert m[lo].key <= m[j].key && (hi <= j ==> m[hi].key <= m[j].key);
    }
  }

  /** Erasing the whole range of a key leaves the entries of all others. */
  lemma EraseRange<V(!new)>(m: seq<Entry<V>>, k: nat)
    requires Sorted(m)
    ensures LowerBound(m, k) <= UpperBound(m, k)
    ensures m[..LowerBound(m, k)] + m[UpperBound(m, k)..] == Keep(m, (e: Entry<V>) => e.key != k)
  {
    hide Keep, LowerBound, UpperBound, Sorted;
    RangeOfKey(m, k);
    var a, b, c := m[..LowerBound(m, k)], m[LowerBound(m, k)..UpperBound(m, k)], m[UpperBound(m, k)..];
    assert m == a + (b + c);
    assert forall e | e in a || e in c :: e in a + c;
    KeepOutside(a, b, c, (e: Entry<V>) => e.key != k);
  }

  lemma KeepOutside<T(!new)>(a: seq<T>, b: seq<T>, c: seq<T>, p: T -> bool)
    requires forall e | e in a || e in c :: p(e)
    requires forall e | e in b :: !p(e)
    ensures Keep(a + (b + c), p) == a + c
  {
    hide Keep;
    KeepJoin(a, b + c, p);
    KeepJoin(b, c, p);
    KeepAll(a, p);
    KeepAll(c, p);
    KeepNothing(b, p);
    assert [] + c == c;
  }

  // ---- ordered sets of numbers ----

  lemma LeastOf(s: set<nat>) returns (m: nat)
    requires s != {}
    ensures m in s && forall k | k in s :: m <= k
  {
    var x :| x in s;
    var rest := s - {x};
    assert s == rest + {x};
    if rest == {} {
      m := x;
    } else {
      m := LeastOf(rest);
      m := if x < m then x else m;
    }
  }

  lemma MinExists(s: set<nat>)
    requires s != {}
    ensures exists m :: m in s && forall k | k in s :: m <= k
  {
    var m := LeastOf(s);
  }

  function Least(s: set<nat>): (m: nat)
    requires s != {}
    ensures m in s && forall k | k in s :: m <= k
  {
    MinExists(s);
    var m :| m in s && forall k | k in s :: m <= k;
    m
  }

  /** The elements in the order a map keyed by them is walked. */
  function Ascending(s: set<nat>): (r: seq<nat>)
    ensures forall k :: k in r <==> k in s
    ensures forall i, j | 0 <= i < j < |r| :: r[i] < r[j]
    ensures |r| == |s|
    decreases |s|
  {
    if s == {} then [] else [Least(s)] + Ascending(s - {Least(s)})
  }
}
