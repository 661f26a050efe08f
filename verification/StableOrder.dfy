/**
 Stable ordering of keyed lists: a list of (key, value) pairs, the insertion of one
 pair before the first greater key, and the fact that a stable order is unique.
 Photo placement and the chronological sort are both instances.
 */
module StableOrder {
  import opened Wrappers

  ghost predicate TotalOrder<K(!new)>(leq: (K, K) -> bool) {
    && (forall a, b :: leq(a, b) || leq(b, a))
    && (forall a, b :: leq(a, b) && leq(b, a) ==> a == b)
    && (forall a, b, c :: leq(a, b) && leq(b, c) ==> leq(a, c))
  }

  ghost predicate Sorted<K, T>(leq: (K, K) -> bool, s: seq<(K, T)>) {
    forall i, j :: 0 <= i < j < |s| ==> leq(s[i].0, s[j].0)
  }

  /** The pairs of `s` whose key is `k`, in the order they stand in `s`. */
  function WithKey<K(==), T>(s: seq<(K, T)>, k: K): seq<(K, T)> {
    if s == [] then [] else (if s[0].0 == k then [s[0]] else []) + WithKey(s[1..], k)
  }

  /** Index of the first pair whose key is greater than `k`; the length when there is none. */
  function InsertionPoint<K, T>(leq: (K, K) -> bool, s: seq<(K, T)>, k: K): (at: nat)
    ensures at <= |s|
    ensures forall i :: 0 <= i < at ==> leq(s[i].0, k)
    ensures at < |s| ==> !leq(s[at].0, k)
  {
    if s == [] || !leq(s[0].0, k) then 0 else 1 + InsertionPoint(leq, s[1..], k)
  }

  function Insert<K, T>(leq: (K, K) -> bool, s: seq<(K, T)>, e: (K, T)): seq<(K, T)> {
    var at := InsertionPoint(leq, s, e.0);
    s[..at] + [e] + s[at..]
  }

  function InsertAll<K, T>(leq: (K, K) -> bool, s: seq<(K, T)>, es: seq<(K, T)>): seq<(K, T)>
    decreases |es|
  {
    if es == [] then s else InsertAll(leq, Insert(leq, s, es[0]), es[1..])
  }

  /** An insertion point is determined by the two facts its contract states. */
  lemma InsertionPointUnique<K, T>(leq: (K, K) -> bool, s: seq<(K, T)>, k: K, at: nat)
    requires at <= |s|
    requires forall i :: 0 <= i < at ==> leq(s[i].0, k)
    requires at < |s| ==> !leq(s[at].0, k)
    ensures at == InsertionPoint(leq, s, k)
  {
  }

  lemma {:induction false} WithKeyConcat<K, T>(a: seq<(K, T)>, b: seq<(K, T)>, k: K)
    ensures WithKey(a + b, k) == WithKey(a, k) + WithKey(b, k)
  {
    if a == [] {
      assert a + b == b;
      assert [] + WithKey(b, k) == WithKey(b, k);
    } else {
      var first := if a[0].0 == k then [a[0]] else [];
      calc {
        WithKey(a + b, k);
        { assert (a + b)[0] == a[0] && (a + b)[1..] == a[1..] + b; }
        first + WithKey(a[1..] + b, k);
        { WithKeyConcat(a[1..], b, k); }
        first + (WithKey(a[1..], k) + WithKey(b, k));
        { Assoc(first, WithKey(a[1..], k), WithKey(b, k)); }
        WithKey(a, k) + WithKey(b, k);
      }
    }
  }

  lemma {:induction false} WithKeyAbsent<K, T>(s: seq<(K, T)>, k: K)
    requires forall i :: 0 <= i < |s| ==> s[i].0 != k
    ensures WithKey(s, k) == []
  {
    if s != [] {
      WithKeyAbsent(s[1..], k);
    }
  }

  lemma {:induction false} WithKeyMembers<K, T>(s: seq<(K, T)>, k: K)
    ensures forall e :: e in WithKey(s, k) <==> e in s && e.0 == k
  {
    if s != [] {
      WithKeyMembers(s[1..], k);
      assert s == [s[0]] + s[1..];
    }
  }

  /** Inserting keeps the list sorted and puts the new pair last among its equals. */
  lemma InsertKeepsStability<K(!new), T>(leq: (K, K) -> bool, s: seq<(K, T)>, e: (K, T), k: K)
    requires TotalOrder(leq) && Sorted(leq, s)
    ensures Sorted(leq, Insert(leq, s, e))
    ensures WithKey(Insert(leq, s, e), k) == WithKey(s, k) + (if k == e.0 then [e] else [])
  {
    var at := InsertionPoint(leq, s, e.0);
    InsertSorted(leq, s, e);
    if k == e.0 {
      forall i | 0 <= i < |s[at..]| ensures s[at..][i].0 != k {
        assert i == 0 || leq(s[at].0, s[at + i].0);
      }
      WithKeyAbsent(s[at..], k);
    }
    assert s == s[..at] + s[at..];
    WithKeyBetween(s[..at], e, s[at..], k);
  }

  /** A pair put in front of pairs with other keys only, or having another key itself. */
  lemma WithKeyBetween<K, T>(front: seq<(K, T)>, e: (K, T), back: seq<(K, T)>, k: K)
    requires k == e.0 ==> WithKey(back, k) == []
    ensures WithKey(front + [e] + back, k) == WithKey(front + back, k) + (if k == e.0 then [e] else [])
  {
    var here := if k == e.0 then [e] else [];
    WithKeyConcat(front, back, k);
    WithKeyConcat(front + [e], back, k);
    WithKeyConcat(front, [e], k);
    assert WithKey([e], k) == here;
    Reassemble(WithKey(front, k), here, WithKey(back, k));
  }

  lemma Reassemble<E>(a: seq<E>, b: seq<E>, c: seq<E>)
    requires b == [] || c == []
    ensures a + b + c == a + c + b
  {
  }

  lemma InsertSorted<K(!new), T>(leq: (K, K) -> bool, s: seq<(K, T)>, e: (K, T))
    requires TotalOrder(leq) && Sorted(leq, s)
    ensures Sorted(leq, Insert(leq, s, e))
  {
    var at := InsertionPoint(leq, s, e.0);
    var r := Insert(leq, s, e);
    assert |r| == |s| + 1;
    forall i, j | 0 <= i < j < |r| ensures leq(r[i].0, r[j].0) {
      assert r[i] == if i < at then s[i] else if i == at then e else s[i - 1];
      assert r[j] == if j < at then s[j] else if j == at then e else s[j - 1];
      if i == at {
        assert leq(s[at].0, s[j - 1].0);
      }
    }
  }

  lemma {:induction false} InsertAllIsStable<K(!new), T>(leq: (K, K) -> bool, s: seq<(K, T)>, es: seq<(K, T)>, k: K)
    requires TotalOrder(leq) && Sorted(leq, s)
    ensures Sorted(leq, InsertAll(leq, s, es))
    ensures WithKey(InsertAll(leq, s, es), k) == WithKey(s, k) + WithKey(es, k)
    decreases |es|
  {
    if es != [] {
      InsertKeepsStability(leq, s, es[0], k);
      InsertAllIsStable(leq, Insert(leq, s, es[0]), es[1..], k);
    }
  }

  /** Sortedness plus the order inside every key class determines the whole list. */
  lemma {:induction false} StableOrderUnique<K(!new), T>(leq: (K, K) -> bool, a: seq<(K, T)>, b: seq<(K, T)>)
    requires TotalOrder(leq) && Sorted(leq, a) && Sorted(leq, b)
    requires forall k :: WithKey(a, k) == WithKey(b, k)
    ensures a == b
    decreases |a|
  {
    if a == [] || b == [] {
      if a != [] || b != [] {
        var head := if a != [] then a[0] else b[0];
        WithKeyMembers(a, head.0);
        WithKeyMembers(b, head.0);
        assert false;
      }
    } else {
      HeadsAgree(leq, a, b);
      forall k ensures WithKey(a[1..], k) == WithKey(b[1..], k) {
        assert WithKey(a, k) == WithKey(b, k);
        var h := if a[0].0 == k then [a[0]] else [];
        assert WithKey(a[1..], k) == WithKey(a, k)[|h|..];
        assert WithKey(b[1..], k) == WithKey(b, k)[|h|..];
      }
      StableOrderUnique(leq, a[1..], b[1..]);
      assert a == [a[0]] + a[1..];
      assert b == [b[0]] + b[1..];
    }
  }

  lemma HeadsAgree<K(!new), T>(leq: (K, K) -> bool, a: seq<(K, T)>, b: seq<(K, T)>)
    requires TotalOrder(leq) && Sorted(leq, a) && Sorted(leq, b) && a != [] && b != []
    requires forall k :: WithKey(a, k) == WithKey(b, k)
    ensures a[0] == b[0]
  {
    var ka, kb := a[0].0, b[0].0;
    WithKeyMembers(b, ka);
    WithKeyMembers(a, kb);
    assert WithKey(a, ka)[0] == a[0];
    assert a[0] in WithKey(b, ka);
    assert WithKey(b, kb)[0] == b[0];
    assert b[0] in WithKey(a, kb);
    var i :| 0 <= i < |b| && b[i] == a[0];
    var j :| 0 <= j < |a| && a[j] == b[0];
    assert leq(ka, kb) && leq(kb, ka);
  }

  /** Inserting two batches gives the same list exactly when the batches agree inside every key. */
  lemma InsertAllConfluent<K(!new), T>(leq: (K, K) -> bool, s: seq<(K, T)>, a: seq<(K, T)>, b: seq<(K, T)>)
    requires TotalOrder(leq) && Sorted(leq, s)
    ensures InsertAll(leq, s, a) == InsertAll(leq, s, b) <==> forall k :: WithKey(a, k) == WithKey(b, k)
  {
    if forall k :: WithKey(a, k) == WithKey(b, k) {
      AgreeingBatches(leq, s, a, b);
    } else {
      var k :| WithKey(a, k) != WithKey(b, k);
      InsertAllIsStable(leq, s, a, k);
      InsertAllIsStable(leq, s, b, k);
      if InsertAll(leq, s, a) == InsertAll(leq, s, b) {
        SameTail(WithKey(s, k), WithKey(a, k), WithKey(b, k));
      }
    }
  }

  lemma AgreeingBatches<K(!new), T>(leq: (K, K) -> bool, s: seq<(K, T)>, a: seq<(K, T)>, b: seq<(K, T)>)
    requires TotalOrder(leq) && Sorted(leq, s)
    requires forall k :: WithKey(a, k) == WithKey(b, k)
    ensures InsertAll(leq, s, a) == InsertAll(leq, s, b)
  {
    forall k ensures WithKey(InsertAll(leq, s, a), k) == WithKey(InsertAll(leq, s, b), k) {
      InsertAllIsStable(leq, s, a, k);
      InsertAllIsStable(leq, s, b, k);
    }
    if a != [] { InsertAllIsStable(leq, s, a, a[0].0); }
    if b != [] { InsertAllIsStable(leq, s, b, b[0].0); }
    StableOrderUnique(leq, InsertAll(leq, s, a), InsertAll(leq, s, b));
  }

  lemma SameTail<X>(s: seq<X>, a: seq<X>, b: seq<X>)
    requires s + a == s + b
    ensures a == b
  {
    assert a == (s + a)[|s|..] && b == (s + b)[|s|..];
  }

  // ------------------------------------------------------------- relative order

  /** `x` stands somewhere before `y`. */
  ghost predicate Before<E>(s: seq<E>, x: E, y: E) {
    exists i, j :: 0 <= i < j < |s| && s[i] == x && s[j] == y
  }

  lemma InsertKeepsBefore<K, T>(leq: (K, K) -> bool, s: seq<(K, T)>, e: (K, T), x: (K, T), y: (K, T))
    requires Before(s, x, y)
    ensures Before(Insert(leq, s, e), x, y)
  {
    var i, j :| 0 <= i < j < |s| && s[i] == x && s[j] == y;
    var at := InsertionPoint(leq, s, e.0);
    var r := Insert(leq, s, e);
    var i', j' := if i < at then i else i + 1, if j < at then j else j + 1;
    assert r[i'] == x && r[j'] == y;
  }

  lemma InsertGoesAfter<K(!new), T>(leq: (K, K) -> bool, s: seq<(K, T)>, e: (K, T), x: (K, T))
    requires TotalOrder(leq) && Sorted(leq, s) && x in s && leq(x.0, e.0)
    ensures Before(Insert(leq, s, e), x, e)
  {
    var at := InsertionPoint(leq, s, e.0);
    var i :| 0 <= i < |s| && s[i] == x;
    assert i < at;
    var r := Insert(leq, s, e);
    assert r[i] == x && r[at] == e;
  }

  lemma {:induction false} InsertAllKeepsBefore<K, T>(
      leq: (K, K) -> bool, s: seq<(K, T)>, es: seq<(K, T)>, x: (K, T), y: (K, T))
    requires Before(s, x, y)
    ensures Before(InsertAll(leq, s, es), x, y)
    decreases |es|
  {
    if es != [] {
      InsertKeepsBefore(leq, s, es[0], x, y);
      InsertAllKeepsBefore(leq, Insert(leq, s, es[0]), es[1..], x, y);
    }
  }

  lemma {:induction false} PresentGoesFirst<K(!new), T>(
      leq: (K, K) -> bool, s: seq<(K, T)>, es: seq<(K, T)>, x: (K, T), j: nat)
    requires TotalOrder(leq) && Sorted(leq, s) && x in s && j < |es| && leq(x.0, es[j].0)
    ensures Before(InsertAll(leq, s, es), x, es[j])
    decreases |es|
  {
    var s' := Insert(leq, s, es[0]);
    if j == 0 {
      InsertGoesAfter(leq, s, es[0], x);
      InsertAllKeepsBefore(leq, s', es[1..], x, es[0]);
    } else {
      InsertSorted(leq, s, es[0]);
      InsertMembers(leq, s, es[0]);
      PresentGoesFirst(leq, s', es[1..], x, j - 1);
    }
  }

  lemma InsertMembers<K, T>(leq: (K, K) -> bool, s: seq<(K, T)>, e: (K, T))
    ensures multiset(Insert(leq, s, e)) == multiset(s) + multiset{e}
    ensures forall x :: x in Insert(leq, s, e) <==> x == e || x in s
  {
    var at := InsertionPoint(leq, s, e.0);
    assert s == s[..at] + s[at..];
  }

  /** A pair inserted earlier with a key not greater ends up earlier. */
  lemma {:induction false} EarlierGoesFirst<K(!new), T>(
      leq: (K, K) -> bool, s: seq<(K, T)>, es: seq<(K, T)>, i: nat, j: nat)
    requires TotalOrder(leq) && Sorted(leq, s) && i < j < |es| && leq(es[i].0, es[j].0)
    ensures Before(InsertAll(leq, s, es), es[i], es[j])
    decreases |es|
  {
    InsertSorted(leq, s, es[0]);
    InsertMembers(leq, s, es[0]);
    if i == 0 {
      PresentGoesFirst(leq, Insert(leq, s, es[0]), es[1..], es[0], j - 1);
    } else {
      EarlierGoesFirst(leq, Insert(leq, s, es[0]), es[1..], i - 1, j - 1);
    }
  }

  lemma {:induction false} InsertAllMembers<K, T>(leq: (K, K) -> bool, s: seq<(K, T)>, es: seq<(K, T)>)
    ensures multiset(InsertAll(leq, s, es)) == multiset(s) + multiset(es)
    decreases |es|
  {
    if es != [] {
      InsertMembers(leq, s, es[0]);
      InsertAllMembers(leq, Insert(leq, s, es[0]), es[1..]);
      assert es == [es[0]] + es[1..];
    }
  }

  /** `x` stands before `y`, and everything from one to the other has their key. */
  ghost predicate BeforeWithin<K, T>(s: seq<(K, T)>, x: (K, T), y: (K, T)) {
    exists i, j :: 0 <= i < j < |s| && s[i] == x && s[j] == y && forall m :: i <= m <= j ==> s[m].0 == y.0
  }

  lemma SortedClosesUp<K(!new), T>(leq: (K, K) -> bool, s: seq<(K, T)>, x: (K, T), y: (K, T))
    requires TotalOrder(leq) && Sorted(leq, s) && Before(s, x, y) && x.0 == y.0
    ensures BeforeWithin(s, x, y)
  {
    var i, j :| 0 <= i < j < |s| && s[i] == x && s[j] == y;
    forall m | i <= m <= j ensures s[m].0 == y.0 {
      if i < m < j {
        assert leq(s[i].0, s[m].0) && leq(s[m].0, s[j].0);
      }
    }
  }

  /** Among elements that occur once, coming before is one-sided. */
  lemma BeforeOneSided<E>(s: seq<E>, x: E, y: E)
    requires multiset(s)[x] == 1 && Before(s, x, y)
    ensures multiset(s)[y] == 1 ==> !Before(s, y, x)
  {
    var i, j :| 0 <= i < j < |s| && s[i] == x && s[j] == y;
    if multiset(s)[y] == 1 && Before(s, y, x) {
      var k, m :| 0 <= k < m < |s| && s[k] == y && s[m] == x;
      if i < m { TwiceCounted(s, i, m); } else { TwiceCounted(s, k, j); }
    }
  }

  lemma TwiceCounted<E>(s: seq<E>, i: nat, j: nat)
    requires i < j < |s| && s[i] == s[j]
    ensures multiset(s)[s[i]] >= 2
  {
    var a, b := s[..j], s[j..];
    assert s == a + b && a[i] == s[i] && b[0] == s[j];
    assert s[i] in multiset(a) && s[i] in multiset(b);
  }

  lemma OnceCounted<E>(s: seq<E>, i: nat)
    requires i < |s| && forall j :: 0 <= j < |s| && j != i ==> s[j] != s[i]
    ensures multiset(s)[s[i]] == 1
  {
    var a, b := s[..i], s[i + 1..];
    assert s == a + [s[i]] + b;
    assert s[i] !in multiset(a) && s[i] !in multiset(b);
  }
}
