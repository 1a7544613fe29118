/** Sums over sequences and maps, and their independence of order. */
module Sums {
  import opened Arithmetic
  import opened Ordering

  function SumBy<T>(f: T -> int, s: seq<T>): int {
    if s == [] then 0 else f(s[0]) + SumBy(f, s[1..])
  }

  lemma {:induction false} SumByAppend<T>(f: T -> int, a: seq<T>, b: seq<T>)
    ensures SumBy(f, a + b) == SumBy(f, a) + SumBy(f, b)
  {
    if a == [] {
      assert a + b == b;
    } else {
      SumByAppend(f, a[1..], b);
      assert (a + b)[1..] == a[1..] + b;
    }
  }

  lemma SumByPrefix<T>(f: T -> int, s: seq<T>, n: nat)
    requires n < |s|
    ensures SumBy(f, s[..n + 1]) == SumBy(f, s[..n]) + f(s[n])
  {
    assert s[..n + 1] == s[..n] + [s[n]];
    SumByAppend(f, s[..n], [s[n]]);
  }

  lemma {:induction false} SumByPerm<T>(f: T -> int, a: seq<T>, b: seq<T>)
    requires multiset(a) == multiset(b)
    ensures SumBy(f, a) == SumBy(f, b)
  {
    assert |multiset(a)| == |a| && |multiset(b)| == |b|;
    if a != [] {
      assert a[0] in multiset(b);
      var i :| 0 <= i < |b| && b[i] == a[0];
      var rest := b[..i] + b[i + 1..];
      assert b == b[..i] + ([b[i]] + b[i + 1..]);
      assert a == [a[0]] + a[1..];
      assert multiset(rest) == multiset(b) - multiset{a[0]};
      SumByPerm(f, a[1..], rest);
      SumByAppend(f, b[..i], b[i + 1..]);
      SumByAppend(f, b[..i], [b[i]] + b[i + 1..]);
    }
  }

  lemma {:induction false} SumByLeq<T>(f: T -> int, g: T -> int, s: seq<T>)
    requires forall x | x in s :: f(x) <= g(x)
    ensures SumBy(f, s) <= SumBy(g, s)
  {
    if s != [] {
      SumByLeq(f, g, s[1..]);
    }
  }

  lemma {:induction false} CountMapped<A, B>(f: A -> B, s: seq<A>, v: B)
    ensures multiset(Map(f, s))[v] == SumBy((x: A) => if f(x) == v then 1 else 0, s)
  {
    if s != [] {
      CountMapped(f, s[1..], v);
      assert Map(f, s) == [f(s[0])] + Map(f, s[1..]);
    }
  }

  /** Mapping a permutation gives a permutation. */
  lemma MapPermutes<A, B(!new)>(f: A -> B, a: seq<A>, b: seq<A>)
    requires multiset(a) == multiset(b)
    ensures multiset(Map(f, a)) == multiset(Map(f, b))
  {
    forall v: B ensures multiset(Map(f, a))[v] == multiset(Map(f, b))[v] {
      CountMapped(f, a, v);
      CountMapped(f, b, v);
      SumByPerm((x: A) => if f(x) == v then 1 else 0, a, b);
    }
  }

  ghost function SumMap<K>(m: map<K, int>): int
    decreases |m|
  {
    if m == map[] then 0
    else
      var k :| k in m;
      m[k] + SumMap(m - {k})
  }

  lemma {:induction false} SumMapRemove<K>(m: map<K, int>, k: K)
    requires k in m
    ensures SumMap(m) == m[k] + SumMap(m - {k})
    decreases |m|
  {
    var j :| j in m && SumMap(m) == m[j] + SumMap(m - {j});
    if j != k {
      SumMapRemove(m - {j}, k);
      SumMapRemove(m - {k}, j);
      assert m - {j} - {k} == m - {k} - {j};
    }
  }

  lemma SumMapUpdate<K>(m: map<K, int>, k: K, v: int)
    ensures SumMap(m[k := v]) == SumMap(m) - (if k in m then m[k] else 0) + v
  {
    SumMapRemove(m[k := v], k);
    assert m[k := v] - {k} == m - {k};
    if k in m {
      SumMapRemove(m, k);
    } else {
      assert m - {k} == m;
    }
  }

  lemma RemoveOne<K>(m: map<K, int>, k: K)
    requires k in m
    ensures |m - {k}| == |m| - 1
  {
    assert (m - {k}).Keys == m.Keys - {k};
  }

  lemma {:induction false} SumMapBounds<K>(m: map<K, int>, low: int, high: int)
    requires forall k | k in m :: low <= m[k] <= high
    ensures low * |m| <= SumMap(m) <= high * |m|
    decreases |m|
  {
    if m != map[] {
      var k :| k in m;
      SumMapRemove(m, k);
      RemoveOne(m, k);
      SumMapBounds(m - {k}, low, high);
      OneMore(low, |m| - 1);
      OneMore(high, |m| - 1);
    }
  }
}
