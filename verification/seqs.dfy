/** Sequence reductions shared by the dashboard, the activity view and the
    exports: the SQL `WHERE`, `COUNT`, `ORDER BY … DESC`, `LIMIT` and
    `GROUP BY` of the source, written as functions over an in-memory store. */
module Seqs {

  /** The elements of `s` that satisfy `p`, in their original order (SQL `WHERE`). */
  function Filter<T>(s: seq<T>, p: T -> bool): (r: seq<T>)
    ensures |r| <= |s|
    ensures forall i :: 0 <= i < |r| ==> p(r[i]) && r[i] in s
    ensures forall x :: x in s && p(x) ==> x in r
    ensures multiset(r) <= multiset(s)
  {
    if |s| == 0 then []
    else
      var rest := Filter(s[1..], p);
      assert s == [s[0]] + s[1..];
      if p(s[0]) then [s[0]] + rest else rest
  }

  /** Number of elements of `s` that satisfy `p` (SQL `COUNT(*) … WHERE`). */
  function CountIf<T>(s: seq<T>, p: T -> bool): nat
  {
    if |s| == 0 then 0 else (if p(s[0]) then 1 else 0) + CountIf(s[1..], p)
  }

  /** Counting is the length of the filtered sequence. */
  lemma {:induction false} CountIsFilterLength<T>(s: seq<T>, p: T -> bool)
    ensures CountIf(s, p) == |Filter(s, p)|
  {
    if |s| > 0 {
      CountIsFilterLength(s[1..], p);
    }
  }

  /** Counting over a concatenation adds up. */
  lemma {:induction false} CountIfAppend<T>(a: seq<T>, b: seq<T>, p: T -> bool)
    ensures CountIf(a + b, p) == CountIf(a, p) + CountIf(b, p)
  {
    if |a| == 0 {
      assert a + b == b;
    } else {
      assert (a + b)[1..] == a[1..] + b;
      CountIfAppend(a[1..], b, p);
    }
  }

  /** Every element either satisfies `p` or does not: the two counts
      partition the sequence. */
  lemma {:induction false} CountIfComplement<T>(s: seq<T>, p: T -> bool, q: T -> bool)
    requires forall x :: q(x) == !p(x)
    ensures CountIf(s, p) + CountIf(s, q) == |s|
  {
    if |s| > 0 {
      CountIfComplement(s[1..], p, q);
    }
  }

  /** Some element satisfies `p` exactly when the count is positive. */
  lemma {:induction false} CountIfPositive<T>(s: seq<T>, p: T -> bool)
    ensures CountIf(s, p) > 0 <==> exists x :: x in s && p(x)
  {
    if |s| > 0 {
      CountIfPositive(s[1..], p);
      assert forall x :: x in s <==> x == s[0] || x in s[1..];
    }
  }

  /** `f` applied to every element, in order (a projected column). */
  function Map<T, U>(s: seq<T>, f: T -> U): (r: seq<U>)
    ensures |r| == |s|
    ensures forall i :: 0 <= i < |s| ==> r[i] == f(s[i])
  {
    seq(|s|, i requires 0 <= i < |s| => f(s[i]))
  }

  /** A value occurs in the projected column as often as there are elements
      projecting to it (`p` tells those elements apart). */
  lemma {:induction false} MapCount<T, U>(s: seq<T>, f: T -> U, u: U, p: T -> bool)
    requires forall x :: p(x) == (f(x) == u)
    ensures multiset(Map(s, f))[u] == CountIf(s, p)
  {
    if |s| > 0 {
      MapCount(s[1..], f, u, p);
      assert Map(s, f) == [f(s[0])] + Map(s[1..], f);
    }
  }

  /** A position at which `x` occurs in `s`. */
  lemma IndexOf<T>(s: seq<T>, x: T) returns (i: nat)
    requires x in s
    ensures i < |s| && s[i] == x
  {
    i :| 0 <= i < |s| && s[i] == x;
  }

  function Min(a: nat, b: nat): nat { if a <= b then a else b }

  /** The first `n` elements, or all of them when there are fewer (SQL `LIMIT n`). */
  function Take<T>(s: seq<T>, n: nat): (r: seq<T>)
    ensures |r| == Min(n, |s|)
    ensures r <= s
  {
    if n <= |s| then s[..n] else s
  }

  /** `s` is ordered by `key`, largest first. */
  ghost predicate SortedDesc<T>(s: seq<T>, key: T -> int)
  {
    forall i, j :: 0 <= i < j < |s| ==> key(s[i]) >= key(s[j])
  }

  /** Inserts `x` into a descending sequence in front of the first element
      whose key is not larger, so that `x` precedes the elements it ties with. */
  function Insert<T>(x: T, t: seq<T>, key: T -> int): (r: seq<T>)
    requires SortedDesc(t, key)
    ensures SortedDesc(r, key)
    ensures multiset(r) == multiset(t) + multiset{x}
    ensures |r| == |t| + 1
  {
    if |t| == 0 then [x]
    else if key(x) >= key(t[0]) then [x] + t
    else
      var rest := Insert(x, t[1..], key);
      assert t == [t[0]] + t[1..];
      assert forall i :: 0 <= i < |rest| ==> key(t[0]) >= key(rest[i]) by {
        forall i | 0 <= i < |rest|
          ensures key(t[0]) >= key(rest[i])
        {
          assert rest[i] in multiset(rest);
          if rest[i] != x {
            assert rest[i] in multiset(t[1..]);
            var k :| 0 <= k < |t[1..]| && t[1..][k] == rest[i];
            assert t[k + 1] == rest[i];
          }
        }
      }
      var r := [t[0]] + rest;
      assert forall i :: 0 < i < |r| ==> r[i] == rest[i - 1];
      r
  }

  /** Stable sort, largest key first: the elements a SQL `ORDER BY key DESC`
      returns, with ties kept in store order. */
  function SortDesc<T>(s: seq<T>, key: T -> int): (r: seq<T>)
    ensures SortedDesc(r, key)
    ensures multiset(r) == multiset(s)
    ensures |r| == |s|
  {
    if |s| == 0 then []
    else
      assert s == [s[0]] + s[1..];
      Insert(s[0], SortDesc(s[1..], key), key)
  }

  /** Elements survive sorting, and nothing else appears. */
  lemma SortDescSameElements<T>(s: seq<T>, key: T -> int)
    ensures forall x :: x in SortDesc(s, key) <==> x in s
  {
    var r := SortDesc(s, key);
    assert forall x :: x in r <==> x in multiset(r);
    assert forall x :: x in s <==> x in multiset(s);
  }

  /** Sum of `f` over the elements. */
  function SumBy<T>(s: seq<T>, f: T -> nat): nat
  {
    if |s| == 0 then 0 else f(s[0]) + SumBy(s[1..], f)
  }

  lemma {:induction false} SumByInsert<T>(x: T, t: seq<T>, key: T -> int, f: T -> nat)
    requires SortedDesc(t, key)
    ensures SumBy(Insert(x, t, key), f) == f(x) + SumBy(t, f)
  {
    if |t| > 0 && key(x) < key(t[0]) {
      SumByInsert(x, t[1..], key, f);
      var r := Insert(x, t, key);
      assert r[1..] == Insert(x, t[1..], key);
    } else if |t| > 0 {
      assert ([x] + t)[1..] == t;
    }
  }

  /** Sorting does not change a sum. */
  lemma {:induction false} SumBySortDesc<T>(s: seq<T>, key: T -> int, f: T -> nat)
    ensures SumBy(SortDesc(s, key), f) == SumBy(s, f)
  {
    if |s| > 0 {
      SumBySortDesc(s[1..], key, f);
      SumByInsert(s[0], SortDesc(s[1..], key), key, f);
    }
  }

  // ---------------------------------------------------------------------
  // Grouped counts (SQL `GROUP BY k` with `COUNT(*)`): a group list is a
  // sequence of (key, count) pairs.
  // ---------------------------------------------------------------------

  function CountOf<K>(g: (K, nat)): int { g.1 }

  function CountNat<K>(g: (K, nat)): nat { g.1 }

  predicate HasGroup<K(==)>(g: seq<(K, nat)>, k: K)
  {
    |g| > 0 && (g[0].0 == k || HasGroup(g[1..], k))
  }

  /** The count recorded for key `k` in its first group, 0 when there is none. */
  function CountFor<K(==)>(g: seq<(K, nat)>, k: K): nat
  {
    if |g| == 0 then 0 else if g[0].0 == k then g[0].1 else CountFor(g[1..], k)
  }

  predicate DistinctKeys<K(==)>(g: seq<(K, nat)>)
  {
    |g| == 0 || (!HasGroup(g[1..], g[0].0) && DistinctKeys(g[1..]))
  }

  lemma {:induction false} HasGroupIndex<K>(g: seq<(K, nat)>, k: K)
    ensures HasGroup(g, k) <==> exists i :: 0 <= i < |g| && g[i].0 == k
  {
    if |g| > 0 {
      HasGroupIndex(g[1..], k);
      if exists i :: 0 <= i < |g| && g[i].0 == k {
        var i :| 0 <= i < |g| && g[i].0 == k;
        if i > 0 {
          assert g[1..][i - 1].0 == k;
        }
      }
      if HasGroup(g[1..], k) {
        var i :| 0 <= i < |g[1..]| && g[1..][i].0 == k;
        assert g[i + 1].0 == k;
      }
    }
  }

  /** In a list with distinct keys the group at position `i` is the one
      `CountFor` finds, and no other position holds the same key. */
  lemma {:induction false} CountForIndex<K>(g: seq<(K, nat)>, i: nat)
    requires DistinctKeys(g)
    requires i < |g|
    ensures CountFor(g, g[i].0) == g[i].1
    ensures forall j :: 0 <= j < |g| && j != i ==> g[j].0 != g[i].0
  {
    if i > 0 {
      CountForIndex(g[1..], i - 1);
      HasGroupIndex(g[1..], g[0].0);
      assert g[1..][i - 1] == g[i];
      forall j | 0 <= j < |g| && j != i
        ensures g[j].0 != g[i].0
      {
        if j > 0 {
          assert g[1..][j - 1] == g[j];
        }
      }
    } else {
      HasGroupIndex(g[1..], g[0].0);
      forall j | 0 < j < |g|
        ensures g[j].0 != g[0].0
      {
        assert g[1..][j - 1] == g[j];
      }
    }
  }

  /** Adds one occurrence of `k` to the group list: bumps its group, or
      opens a new group at the end. */
  function Bump<K(==,!new)>(g: seq<(K, nat)>, k: K): (r: seq<(K, nat)>)
    ensures SumBy(r, CountNat) == SumBy(g, CountNat) + 1
    ensures forall x :: HasGroup(r, x) <==> HasGroup(g, x) || x == k
    ensures forall x :: CountFor(r, x) == CountFor(g, x) + (if x == k then 1 else 0)
    ensures DistinctKeys(g) ==> DistinctKeys(r)
  {
    if |g| == 0 then
      assert [(k, 1)][1..] == [];
      [(k, 1)]
    else if g[0].0 == k then
      var r := [(k, g[0].1 + 1)] + g[1..];
      assert r[1..] == g[1..];
      r
    else
      var rest := Bump(g[1..], k);
      var r := [g[0]] + rest;
      assert r[1..] == rest;
      r
  }

  /** Groups by first appearance: one group per distinct key, in the order
      the keys first occur, each carrying the number of occurrences. */
  function Tally<K(==,!new)>(ks: seq<K>): (r: seq<(K, nat)>)
    ensures SumBy(r, CountNat) == |ks|
    ensures DistinctKeys(r)
    ensures forall k :: HasGroup(r, k) <==> k in ks
    ensures forall k :: CountFor(r, k) == multiset(ks)[k]
  {
    if |ks| == 0 then []
    else
      var pre := ks[..|ks| - 1];
      assert ks == pre + [ks[|ks| - 1]];
      assert multiset(ks) == multiset(pre) + multiset{ks[|ks| - 1]};
      Bump(Tally(pre), ks[|ks| - 1])
  }

  /** A group list of `ks`: distinct keys, exactly the keys of `ks`, and
      each key's count equal to its number of occurrences. */
  ghost predicate IsTally<K(!new)>(g: seq<(K, nat)>, ks: seq<K>)
  {
    && DistinctKeys(g)
    && (forall k :: HasGroup(g, k) <==> k in ks)
    && (forall k :: CountFor(g, k) == multiset(ks)[k])
  }

  /** In a group list of `ks`, each key of `ks` has exactly one group, and
      that group carries the key's number of occurrences. */
  lemma TallyGroupFor<K(!new)>(g: seq<(K, nat)>, ks: seq<K>, k: K) returns (i: nat)
    requires IsTally(g, ks)
    requires k in ks
    ensures i < |g| && g[i].0 == k && g[i].1 == multiset(ks)[k]
    ensures forall j :: 0 <= j < |g| && j != i ==> g[j].0 != k
  {
    HasGroupIndex(g, k);
    var w :| 0 <= w < |g| && g[w].0 == k;
    CountForIndex(g, w);
    i := w;
  }

  lemma {:induction false} InsertGroups<K(!new)>(x: (K, nat), t: seq<(K, nat)>)
    requires SortedDesc(t, CountOf)
    requires DistinctKeys(t) && !HasGroup(t, x.0)
    ensures var r := Insert(x, t, CountOf);
      && DistinctKeys(r)
      && (forall y :: HasGroup(r, y) <==> y == x.0 || HasGroup(t, y))
      && (forall y :: CountFor(r, y) == if y == x.0 then x.1 else CountFor(t, y))
  {
    var r := Insert(x, t, CountOf);
    if |t| == 0 {
      assert r[1..] == [];
    } else if CountOf(x) >= CountOf(t[0]) {
      assert r[1..] == t;
    } else {
      InsertGroups(x, t[1..]);
      assert r[1..] == Insert(x, t[1..], CountOf);
    }
  }

  /** Sorting a group list by count keeps it a group list of the same keys. */
  lemma {:induction false} SortKeepsTally<K(!new)>(g: seq<(K, nat)>, ks: seq<K>)
    requires IsTally(g, ks)
    ensures IsTally(SortDesc(g, CountOf), ks)
  {
    SortGroups(g);
  }

  lemma {:induction false} SortGroups<K(!new)>(g: seq<(K, nat)>)
    requires DistinctKeys(g)
    ensures var r := SortDesc(g, CountOf);
      && DistinctKeys(r)
      && (forall y :: HasGroup(r, y) <==> HasGroup(g, y))
      && (forall y :: CountFor(r, y) == CountFor(g, y))
  {
    if |g| > 0 {
      SortGroups(g[1..]);
      InsertGroups(g[0], SortDesc(g[1..], CountOf));
    }
  }
}
