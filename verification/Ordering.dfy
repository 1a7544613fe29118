/** Lexicographic order on sequences of integers (bytes, code points) and a stable
    sort by any total order.  A sorted arrangement of a multiset is unique, which is
    what makes every "sorted" field of the protocol independent of insertion order. */
module Ordering {

  type Byte = b: int | 0 <= b < 256

  /** A Python string is a sequence of code points, lone surrogates included. */
  type CodePoint = c: int | 0 <= c < 0x11_0000
  type Text = seq<CodePoint>

  predicate LexLeq(a: seq<int>, b: seq<int>) {
    if a == [] then true
    else if b == [] then false
    else if a[0] != b[0] then a[0] < b[0]
    else LexLeq(a[1..], b[1..])
  }

  ghost predicate TotalPreorder<T(!new)>(leq: (T, T) -> bool) {
    && (forall a, b :: leq(a, b) || leq(b, a))
    && (forall a, b, c :: leq(a, b) && leq(b, c) ==> leq(a, c))
  }

  ghost predicate Antisymmetric<T(!new)>(leq: (T, T) -> bool) {
    forall a, b :: leq(a, b) && leq(b, a) ==> a == b
  }

  /** Equivalent elements of `s` are equal, as when `s` has no two entries with one key. */
  ghost predicate AntisymmetricOn<T>(leq: (T, T) -> bool, s: seq<T>) {
    forall a, b | a in s && b in s :: leq(a, b) && leq(b, a) ==> a == b
  }

  lemma {:induction false} LexTotal(a: seq<int>, b: seq<int>)
    ensures LexLeq(a, b) || LexLeq(b, a)
    ensures LexLeq(a, b) && LexLeq(b, a) ==> a == b
  {
    if a != [] && b != [] && a[0] == b[0] {
      LexTotal(a[1..], b[1..]);
      assert a == [a[0]] + a[1..] && b == [b[0]] + b[1..];
    }
  }

  lemma {:induction false} LexTransitive(a: seq<int>, b: seq<int>, c: seq<int>)
    requires LexLeq(a, b) && LexLeq(b, c)
    ensures LexLeq(a, c)
  {
    if a != [] && a[0] == b[0] && b[0] == c[0] {
      LexTransitive(a[1..], b[1..], c[1..]);
    }
  }

  /** A proper prefix, or the smaller one at the first place where the two differ. */
  predicate Below(a: seq<int>, b: seq<int>) {
    (|a| < |b| && b[..|a|] == a)
    || exists i :: 0 <= i < |a| && i < |b| && a[i] < b[i] && a[..i] == b[..i]
  }

  lemma BelowWithin(x: int, a: seq<int>, b: seq<int>)
    ensures Below([x] + a, [x] + b) <==> Below(a, b)
  {
    var c, d := [x] + a, [x] + b;
    assert c[1..] == a && d[1..] == b;
    if i :| 0 <= i < |a| && i < |b| && a[i] < b[i] && a[..i] == b[..i] {
      assert c[..i + 1] == [x] + a[..i] && d[..i + 1] == [x] + b[..i];
      assert c[i + 1] < d[i + 1];
    }
    if i :| 0 <= i < |c| && i < |d| && c[i] < d[i] && c[..i] == d[..i] {
      assert a[..i - 1] == c[..i][1..] && b[..i - 1] == d[..i][1..];
      assert a[i - 1] < b[i - 1];
    }
    if |a| < |b| {
      assert d[..|c|] == [x] + b[..|a|];
      assert d[..|c|][1..] == b[..|a|];
    }
  }

  lemma {:induction false} LexIsBelow(a: seq<int>, b: seq<int>)
    ensures LexLeq(a, b) <==> a == b || Below(a, b)
  {
    if a == [] {
      assert b[..0] == [];
    } else if b != [] {
      assert a == [a[0]] + a[1..] && b == [b[0]] + b[1..];
      if a[0] == b[0] {
        LexIsBelow(a[1..], b[1..]);
        BelowWithin(a[0], a[1..], b[1..]);
      } else {
        assert a[..0] == b[..0];
        if Below(a, b) {
          FirstDecides(a, b);
        }
      }
    }
  }

  lemma FirstDecides(a: seq<int>, b: seq<int>)
    requires a != [] && b != [] && Below(a, b)
    ensures a[0] <= b[0]
  {
    if |a| < |b| && b[..|a|] == a {
      assert b[..|a|][0] == a[0];
    } else {
      var i :| 0 <= i < |a| && i < |b| && a[i] < b[i] && a[..i] == b[..i];
      if i > 0 {
        assert a[..i][0] == b[..i][0];
      }
    }
  }

  ghost predicate Sorted<T>(leq: (T, T) -> bool, s: seq<T>) {
    forall i, j | 0 <= i < j < |s| :: leq(s[i], s[j])
  }

  function Insert<T>(leq: (T, T) -> bool, x: T, s: seq<T>): seq<T> {
    if s == [] then [x]
    else if leq(x, s[0]) then [x] + s
    else [s[0]] + Insert(leq, x, s[1..])
  }

  /** Stable: of two equivalent elements the earlier one stays first. */
  function Sort<T>(leq: (T, T) -> bool, s: seq<T>): seq<T> {
    if s == [] then [] else Insert(leq, s[0], Sort(leq, s[1..]))
  }

  lemma {:induction false} InsertKeeps<T>(leq: (T, T) -> bool, x: T, s: seq<T>)
    ensures multiset(Insert(leq, x, s)) == multiset(s) + multiset{x}
  {
    if s != [] && !leq(x, s[0]) {
      InsertKeeps(leq, x, s[1..]);
      assert s == [s[0]] + s[1..];
    }
  }

  lemma {:induction false} SortKeeps<T>(leq: (T, T) -> bool, s: seq<T>)
    ensures multiset(Sort(leq, s)) == multiset(s)
    ensures |Sort(leq, s)| == |s|
  {
    if s != [] {
      SortKeeps(leq, s[1..]);
      InsertKeeps(leq, s[0], Sort(leq, s[1..]));
      assert s == [s[0]] + s[1..];
    }
    assert |multiset(Sort(leq, s))| == |multiset(s)|;
  }

  lemma {:induction false} InsertSorts<T(!new)>(leq: (T, T) -> bool, x: T, s: seq<T>)
    requires TotalPreorder(leq) && Sorted(leq, s)
    ensures Sorted(leq, Insert(leq, x, s))
  {
    if s != [] && !leq(x, s[0]) {
      InsertSorts(leq, x, s[1..]);
      InsertKeeps(leq, x, s[1..]);
      var r := Insert(leq, x, s[1..]);
      forall j | 0 <= j < |r| ensures leq(s[0], r[j]) {
        assert r[j] in multiset(r);
        if r[j] != x {
          assert r[j] in multiset(s[1..]);
        }
      }
    }
  }

  lemma {:induction false} SortSorts<T(!new)>(leq: (T, T) -> bool, s: seq<T>)
    requires TotalPreorder(leq)
    ensures Sorted(leq, Sort(leq, s))
  {
    if s != [] {
      SortSorts(leq, s[1..]);
      InsertSorts(leq, s[0], Sort(leq, s[1..]));
    }
  }

  /** The head of a sorted sequence precedes every element of the multiset. */
  lemma HeadIsLeast<T(!new)>(leq: (T, T) -> bool, a: seq<T>, x: T)
    requires Sorted(leq, a) && x in multiset(a)
    ensures x == a[0] || leq(a[0], x)
  {
    var j :| 0 <= j < |a| && a[j] == x;
    if j > 0 {
      assert leq(a[0], a[j]);
    }
  }

  lemma TailMultiset<T>(a: seq<T>)
    requires a != []
    ensures multiset(a[1..]) == multiset(a) - multiset{a[0]}
  {
    assert a == [a[0]] + a[1..];
  }

  /** Two sorted arrangements of the same multiset are equal. */
  lemma {:induction false} SortedUnique<T(!new)>(leq: (T, T) -> bool, a: seq<T>, b: seq<T>)
    requires AntisymmetricOn(leq, a)
    requires Sorted(leq, a) && Sorted(leq, b) && multiset(a) == multiset(b)
    ensures a == b
  {
    assert |multiset(a)| == |a| && |multiset(b)| == |b|;
    if a != [] {
      assert a[0] in multiset(a) && b[0] in multiset(b);
      HeadIsLeast(leq, a, b[0]);
      HeadIsLeast(leq, b, a[0]);
      TailMultiset(a);
      TailMultiset(b);
      SortedUnique(leq, a[1..], b[1..]);
      assert a == [a[0]] + a[1..] && b == [b[0]] + b[1..];
    }
  }

  /** Sorting forgets the order of its input. */
  lemma SortForgetsOrder<T(!new)>(leq: (T, T) -> bool, a: seq<T>, b: seq<T>)
    requires TotalPreorder(leq) && AntisymmetricOn(leq, a) && multiset(a) == multiset(b)
    ensures Sort(leq, a) == Sort(leq, b)
  {
    forall x ensures x in Sort(leq, a) <==> x in a {
      SortKeeps(leq, a);
      assert x in multiset(Sort(leq, a)) <==> x in multiset(a);
    }
    SortSorts(leq, a);
    SortSorts(leq, b);
    SortKeeps(leq, a);
    SortKeeps(leq, b);
    SortedUnique(leq, Sort(leq, a), Sort(leq, b));
  }

  lemma LexOrder()
    ensures TotalPreorder(LexLeq) && Antisymmetric(LexLeq)
  {
    forall a: seq<int>, b: seq<int>
      ensures LexLeq(a, b) || LexLeq(b, a)
      ensures LexLeq(a, b) && LexLeq(b, a) ==> a == b
    {
      LexTotal(a, b);
    }
    forall a: seq<int>, b: seq<int>, c: seq<int> | LexLeq(a, b) && LexLeq(b, c)
      ensures LexLeq(a, c)
    {
      LexTransitive(a, b, c);
    }
  }

  predicate TextLeq(a: Text, b: Text) {
    LexLeq(a, b)
  }

  lemma TextOrder()
    ensures TotalPreorder(TextLeq) && Antisymmetric(TextLeq)
  {
    forall a: Text, b: Text
      ensures TextLeq(a, b) || TextLeq(b, a)
      ensures TextLeq(a, b) && TextLeq(b, a) ==> a == b
    {
      LexTotal(a, b);
    }
    forall a: Text, b: Text, c: Text | TextLeq(a, b) && TextLeq(b, c)
      ensures TextLeq(a, c)
    {
      LexTransitive(a, b, c);
    }
  }

  ghost predicate Distinct<T>(s: seq<T>) {
    forall i, j | 0 <= i < j < |s| :: s[i] != s[j]
  }

  /** What `value == sorted(set(value))` says of a Python list of strings. */
  predicate Ascending(s: seq<Text>) {
    forall i | 0 < i < |s| :: TextLeq(s[i - 1], s[i]) && s[i - 1] != s[i]
  }

  lemma {:induction false} AscendingGap(s: seq<Text>, i: nat, j: nat)
    requires Ascending(s) && i < j < |s|
    ensures TextLeq(s[i], s[j]) && s[i] != s[j]
    decreases j
  {
    if i + 1 < j {
      AscendingGap(s, i, j - 1);
      LexTransitive(s[i], s[j - 1], s[j]);
      if s[i] == s[j] {
        LexTotal(s[j - 1], s[j]);
      }
    }
  }

  lemma AscendingIsSortedSet(s: seq<Text>)
    ensures Ascending(s) <==> Sorted(TextLeq, s) && Distinct(s)
  {
    if Ascending(s) {
      forall i, j | 0 <= i < j < |s| ensures TextLeq(s[i], s[j]) && s[i] != s[j] {
        AscendingGap(s, i, j);
      }
    }
  }

  /** A list of texts is in order, none twice, exactly when each is below all that come after it. */
  lemma AscendingIsBelow(s: seq<Text>)
    ensures Ascending(s) <==> forall i, j | 0 <= i < j < |s| :: Below(s[i], s[j])
  {
    hide Below, LexLeq;
    if Ascending(s) {
      forall i, j | 0 <= i < j < |s| ensures Below(s[i], s[j]) {
        AscendingGap(s, i, j);
        LexIsBelow(s[i], s[j]);
      }
    }
    if forall i, j | 0 <= i < j < |s| :: Below(s[i], s[j]) {
      forall i | 0 < i < |s| ensures TextLeq(s[i - 1], s[i]) && s[i - 1] != s[i] {
        LexIsBelow(s[i - 1], s[i]);
        NotBelowItself(s[i]);
      }
    }
  }

  lemma NotBelowItself(a: seq<int>)
    ensures !Below(a, a)
  {
  }

  lemma {:induction false} DistinctCount<T>(s: seq<T>)
    ensures Distinct(s) <==> forall x | x in multiset(s) :: multiset(s)[x] == 1
  {
    if s != [] {
      DistinctCount(s[1..]);
      assert s == [s[0]] + s[1..];
      assert s[0] in s[1..] <==> multiset(s[1..])[s[0]] > 0;
      if Distinct(s) {
        assert Distinct(s[1..]) && s[0] !in s[1..];
      }
      if forall x | x in multiset(s) :: multiset(s)[x] == 1 {
        assert multiset(s)[s[0]] == 1;
        forall x | x in multiset(s[1..]) ensures multiset(s[1..])[x] == 1 {
          assert x in multiset(s) && multiset(s)[x] == 1;
        }
        assert s[0] !in s[1..];
      }
    }
  }

  /** Sorting distinct texts gives a strictly ascending list with the same members. */
  lemma SortDistinct(s: seq<Text>)
    requires Distinct(s)
    ensures Ascending(Sort(TextLeq, s))
    ensures forall x :: x in Sort(TextLeq, s) <==> x in s
    ensures |Sort(TextLeq, s)| == |s|
  {
    var t := Sort(TextLeq, s);
    TextOrder();
    SortSorts(TextLeq, s);
    SortKeeps(TextLeq, s);
    DistinctCount(s);
    DistinctCount(t);
    AscendingIsSortedSet(t);
    forall x ensures x in t <==> x in s {
      assert x in multiset(t) <==> x in multiset(s);
    }
  }

  ghost predicate Pairwise<T(!new)>(r: (T, T) -> bool, s: seq<T>) {
    forall i, j | 0 <= i < j < |s| :: r(s[i], s[j])
  }

  lemma CutAt<T>(s: seq<T>, i: nat)
    requires i < |s|
    ensures multiset(s) == multiset(s[..i]) + multiset{s[i]} + multiset(s[i + 1..])
  {
    assert s == s[..i] + [s[i]] + s[i + 1..];
  }

  lemma CountedTwice<T>(s: seq<T>, i: nat, j: nat)
    requires i < j < |s| && s[i] == s[j]
    ensures multiset(s)[s[j]] >= 2
  {
    CutAt(s, j);
    assert s[..j][i] in multiset(s[..j]);
  }

  lemma TwoPlaces<T>(s: seq<T>, x: T) returns (i: nat, j: nat)
    requires multiset(s)[x] >= 2
    ensures i < j < |s| && s[i] == s[j] == x
  {
    assert x in multiset(s);
    var k :| 0 <= k < |s| && s[k] == x;
    CutAt(s, k);
    if x in multiset(s[..k]) {
      i :| 0 <= i < k && s[..k][i] == x;
      j := k;
    } else {
      assert x in multiset(s[k + 1..]);
      var l :| 0 <= l < |s[k + 1..]| && s[k + 1..][l] == x;
      i, j := k, k + 1 + l;
    }
  }

  /** What holds of every two elements of a list does not depend on their order. */
  lemma PairwisePermutes<T(!new)>(r: (T, T) -> bool, a: seq<T>, b: seq<T>)
    requires multiset(a) == multiset(b) && Pairwise(r, a) && forall x, y :: r(x, y) == r(y, x)
    ensures Pairwise(r, b)
  {
    forall i, j | 0 <= i < j < |b| ensures r(b[i], b[j]) {
      if b[i] == b[j] {
        CountedTwice(b, i, j);
        var k, l := TwoPlaces(a, b[i]);
      } else {
        assert b[i] in multiset(a) && b[j] in multiset(a);
        var k :| 0 <= k < |a| && a[k] == b[i];
        var l :| 0 <= l < |a| && a[l] == b[j];
      }
    }
  }

  function Map<A, B>(f: A -> B, s: seq<A>): (t: seq<B>)
    ensures |t| == |s|
    ensures forall i | 0 <= i < |s| :: t[i] == f(s[i])
  {
    if s == [] then [] else [f(s[0])] + Map(f, s[1..])
  }

  lemma {:induction false} InsertCommutes<A(!new), B>(f: A -> B, leqA: (A, A) -> bool, leqB: (B, B) -> bool, x: A, s: seq<A>)
    requires forall a, b :: leqA(a, b) <==> leqB(f(a), f(b))
    ensures Insert(leqB, f(x), Map(f, s)) == Map(f, Insert(leqA, x, s))
  {
    if s != [] {
      InsertCommutes(f, leqA, leqB, x, s[1..]);
    }
  }

  /** Mapping entries without touching their keys commutes with sorting by key. */
  lemma {:induction false} SortCommutes<A(!new), B>(f: A -> B, leqA: (A, A) -> bool, leqB: (B, B) -> bool, s: seq<A>)
    requires forall a, b :: leqA(a, b) <==> leqB(f(a), f(b))
    ensures Sort(leqB, Map(f, s)) == Map(f, Sort(leqA, s))
  {
    if s != [] {
      SortCommutes(f, leqA, leqB, s[1..]);
      InsertCommutes(f, leqA, leqB, s[0], Sort(leqA, s[1..]));
    }
  }

  /** Two lists without repetitions and with the same members are permutations of each other. */
  lemma DistinctSameMembers<T>(a: seq<T>, b: seq<T>)
    requires Distinct(a) && Distinct(b) && forall x :: x in a <==> x in b
    ensures multiset(a) == multiset(b)
  {
    DistinctCount(a);
    DistinctCount(b);
    forall x ensures multiset(a)[x] == multiset(b)[x] {
      assert x in a <==> x in multiset(a);
      assert x in b <==> x in multiset(b);
    }
  }
}
