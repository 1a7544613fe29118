/** nir/model.py: dividing one epoch's budget among its proofs. */
module EmissionShares {
  import opened Ordering
  import opened Results
  import opened Sums
  import opened Arithmetic
  import opened Payouts

  /** A scored proof, as far as the division looks at it. */
  datatype Entry = Entry(contributor: Text, score: nat)

  /** An entry with its position in the submitted list, which stands for the proof object itself. */
  datatype Ranked = Ranked(entry: Entry, index: nat)

  /** Higher score first, then contributor. */
  predicate EntryLeq(a: Entry, b: Entry) {
    a.score > b.score || (a.score == b.score && TextLeq(a.contributor, b.contributor))
  }

  predicate RankedLeq(a: Ranked, b: Ranked) {
    EntryLeq(a.entry, b.entry)
  }

  function TotalScore(scored: seq<Entry>): int {
    SumBy((e: Entry) => e.score, scored)
  }

  function FloorShare(budget: nat, total: int, e: Entry): int {
    if total <= 0 then 0 else budget * e.score / total
  }

  function FloorTotal(budget: nat, total: int, scored: seq<Entry>): int {
    SumBy((e: Entry) => FloorShare(budget, total, e), scored)
  }

  function Remainder(scored: seq<Entry>, budget: nat): int {
    budget - FloorTotal(budget, TotalScore(scored), scored)
  }

  function Numbered(scored: seq<Entry>, from: nat): (r: seq<Ranked>)
    ensures |r| == |scored| && forall i | 0 <= i < |r| :: r[i] == Ranked(scored[i], from + i)
  {
    if scored == [] then [] else [Ranked(scored[0], from)] + Numbered(scored[1..], from + 1)
  }

  /** The order in which indivisible units are handed out. */
  function Order(scored: seq<Entry>): seq<Ranked> {
    Sort(RankedLeq, Numbered(scored, 0))
  }

  ghost predicate Scored(scored: seq<Entry>) {
    scored != [] && forall i | 0 <= i < |scored| :: scored[i].score > 0
  }

  /** Whether entry `i` is among the first `n` of the order. */
  ghost predicate Wins(order: seq<Ranked>, n: int, i: nat) {
    exists k :: 0 <= k < n && k < |order| && order[k].index == i
  }

  ghost function Bonus(order: seq<Ranked>, n: int, i: nat): int {
    if Wins(order, n, i) then 1 else 0
  }

  /** What entry `i` is paid: its pro-rata floor, and one unit more if it is near enough the top. */
  ghost function Allocation(scored: seq<Entry>, budget: nat, i: nat): int
    requires i < |scored|
  {
    FloorShare(budget, TotalScore(scored), scored[i]) + Bonus(Order(scored), Remainder(scored, budget), i)
  }

  // ----- The remainder is smaller than the number of proofs

  lemma {:induction false} TotalPositive(scored: seq<Entry>)
    requires Scored(scored)
    ensures TotalScore(scored) > 0
  {
    assert TotalScore(scored) == scored[0].score + TotalScore(scored[1..]);
    if |scored| > 1 {
      TotalPositive(scored[1..]);
    }
  }

  lemma {:induction false} FloorsBound(budget: nat, total: int, scored: seq<Entry>)
    requires total > 0
    ensures total * FloorTotal(budget, total, scored) <= budget * TotalScore(scored)
    ensures scored != [] ==> budget * TotalScore(scored) < total * FloorTotal(budget, total, scored) + total * |scored|
  {
    if scored != [] {
      var e, rest := scored[0], scored[1..];
      FloorsBound(budget, total, rest);
      Floor(budget * e.score, total);
      var f, F, s, S, n := FloorShare(budget, total, e), FloorTotal(budget, total, rest), e.score, TotalScore(rest), |rest|;
      assert total * (f + F) == total * f + total * F;
      assert budget * (s + S) == budget * s + budget * S;
      assert total * (n + 1) == total * n + total;
    }
  }

  lemma RemainderSmall(scored: seq<Entry>, budget: nat)
    requires Scored(scored)
    ensures 0 <= Remainder(scored, budget) < |scored|
  {
    var total := TotalScore(scored);
    TotalPositive(scored);
    FloorsBound(budget, total, scored);
    var floors := FloorTotal(budget, total, scored);
    assert budget * total == total * budget;
    assert total * floors + total * |scored| == total * (floors + |scored|);
    CancelLess(total, budget, floors + |scored|);
    assert total * (budget + 1) == total * budget + total;
    CancelLess(total, floors, budget + 1);
  }

  // ----- The order is a permutation of the positions

  lemma RankedOrder()
    ensures TotalPreorder(RankedLeq) && TotalPreorder(EntryLeq) && Antisymmetric(EntryLeq)
  {
    TextOrder();
    forall a: Ranked, b: Ranked ensures RankedLeq(a, b) || RankedLeq(b, a) {
      LexTotal(a.entry.contributor, b.entry.contributor);
    }
    forall a: Ranked, b: Ranked, c: Ranked | RankedLeq(a, b) && RankedLeq(b, c) ensures RankedLeq(a, c) {
      EntryTransitive(a.entry, b.entry, c.entry);
    }
    forall a: Entry, b: Entry
      ensures EntryLeq(a, b) || EntryLeq(b, a)
      ensures EntryLeq(a, b) && EntryLeq(b, a) ==> a == b
    {
      LexTotal(a.contributor, b.contributor);
    }
    forall a: Entry, b: Entry, c: Entry | EntryLeq(a, b) && EntryLeq(b, c) ensures EntryLeq(a, c) {
      EntryTransitive(a, b, c);
    }
  }

  lemma EntryTransitive(a: Entry, b: Entry, c: Entry)
    requires EntryLeq(a, b) && EntryLeq(b, c)
    ensures EntryLeq(a, c)
  {
    if a.score == c.score {
      LexTransitive(a.contributor, b.contributor, c.contributor);
    }
  }

  /** `order` lists positions of `scored`, no position twice. */
  ghost predicate Lists(order: seq<Ranked>, scored: seq<Entry>) {
    && |order| == |scored|
    && (forall k | 0 <= k < |order| :: order[k].index < |scored| && order[k].entry == scored[order[k].index])
    && (forall i, j | 0 <= i < j < |order| :: order[i].index != order[j].index)
  }

  lemma SortedOfNumbered(scored: seq<Entry>, numbered: seq<Ranked>, order: seq<Ranked>)
    requires |numbered| == |scored| == |order| && multiset(order) == multiset(numbered)
    requires forall i | 0 <= i < |numbered| :: numbered[i] == Ranked(scored[i], i)
    ensures Lists(order, scored)
    ensures forall i: nat | i < |scored| :: Wins(order, |order|, i)
  {
    forall k | 0 <= k < |order| ensures order[k].index < |scored| && order[k].entry == scored[order[k].index] {
      assert order[k] in multiset(numbered);
    }
    assert Distinct(numbered);
    DistinctCount(numbered);
    DistinctCount(order);
    forall i, j | 0 <= i < j < |order| ensures order[i].index != order[j].index {
      assert order[i] != order[j];
    }
    forall i: nat | i < |scored| ensures Wins(order, |order|, i) {
      assert numbered[i] in multiset(order);
    }
  }

  lemma OrderIsPermutation(scored: seq<Entry>)
    ensures Lists(Order(scored), scored)
    ensures forall i: nat | i < |scored| :: Wins(Order(scored), |scored|, i)
  {
    var numbered := Numbered(scored, 0);
    SortKeeps(RankedLeq, numbered);
    SortedOfNumbered(scored, numbered, Order(scored));
  }

  /** Nobody before the last winner is outranked by a later position. */
  lemma OrderIsSorted(scored: seq<Entry>, k: nat, l: nat)
    requires k < l < |Order(scored)|
    ensures Order(scored)[k].entry.score >= Order(scored)[l].entry.score
  {
    RankedOrder();
    SortSorts(RankedLeq, Numbered(scored, 0));
    assert RankedLeq(Order(scored)[k], Order(scored)[l]);
  }

  // ----- Fairness

  lemma WinnersComeFirst(scored: seq<Entry>, n: int, i: nat, j: nat)
    requires i < |scored| && j < |scored| && scored[i].score > scored[j].score
    requires Wins(Order(scored), n, j)
    ensures Wins(Order(scored), n, i)
  {
    var order := Order(scored);
    OrderIsPermutation(scored);
    assert Wins(order, |scored|, i);
    var k :| 0 <= k < n && k < |order| && order[k].index == j;
    var l :| 0 <= l < |scored| && l < |order| && order[l].index == i;
    if k < l {
      OrderIsSorted(scored, k, l);
    }
  }

  /** A higher score is never paid less. */
  lemma HigherScoreNeverPaidLess(scored: seq<Entry>, budget: nat, i: nat, j: nat)
    requires Scored(scored) && i < |scored| && j < |scored| && scored[i].score > scored[j].score
    ensures Allocation(scored, budget, i) >= Allocation(scored, budget, j)
  {
    TotalPositive(scored);
    MulMonotone(budget, scored[j].score, budget, scored[i].score);
    DivMonotone(budget * scored[j].score, budget * scored[i].score, TotalScore(scored));
    if Wins(Order(scored), Remainder(scored, budget), j) {
      WinnersComeFirst(scored, Remainder(scored, budget), i, j);
    }
  }

  lemma OrderIsByName(scored: seq<Entry>, k: nat, l: nat)
    requires k < l < |Order(scored)| && Order(scored)[k].entry.score == Order(scored)[l].entry.score
    ensures !Below(Order(scored)[l].entry.contributor, Order(scored)[k].entry.contributor)
  {
    RankedOrder();
    SortSorts(RankedLeq, Numbered(scored, 0));
    assert RankedLeq(Order(scored)[k], Order(scored)[l]);
    var a, b := Order(scored)[k].entry.contributor, Order(scored)[l].entry.contributor;
    hide Below, Order;
    LexIsBelow(b, a);
    LexTotal(a, b);
    NotBelowItself(a);
  }

  /** Of two equal scores the one whose contributor's name is lower is never paid less. */
  lemma TiesGoByName(scored: seq<Entry>, budget: nat, i: nat, j: nat)
    requires Scored(scored) && i < |scored| && j < |scored| && scored[i].score == scored[j].score
    requires Below(scored[i].contributor, scored[j].contributor)
    ensures Allocation(scored, budget, i) >= Allocation(scored, budget, j)
  {
    hide Below, Order;
    var order, n := Order(scored), Remainder(scored, budget);
    if Wins(order, n, j) {
      OrderIsPermutation(scored);
      assert Wins(order, |scored|, i);
      var k :| 0 <= k < n && k < |order| && order[k].index == j;
      var l :| 0 <= l < |scored| && l < |order| && order[l].index == i;
      if k < l {
        OrderIsByName(scored, k, l);
      }
      assert Wins(order, n, i);
    }
  }

  /** Every proof is paid within one unit of its exact share of the budget. */
  lemma WithinOneUnit(scored: seq<Entry>, budget: nat, i: nat)
    requires Scored(scored) && i < |scored|
    ensures TotalScore(scored) * (Allocation(scored, budget, i) - 1) <= budget * scored[i].score
    ensures budget * scored[i].score < TotalScore(scored) * (Allocation(scored, budget, i) + 1)
  {
    var total, share := TotalScore(scored), FloorShare(budget, TotalScore(scored), scored[i]);
    TotalPositive(scored);
    Floor(budget * scored[i].score, total);
    assert total * (share + 1) == total * share + total;
    MulLeft(total, Allocation(scored, budget, i) - 1, share);
    MulLeft(total, share + 1, Allocation(scored, budget, i) + 1);
  }

  /** The sum of `n` allocations to contributor `c`; to everyone, if `c` is None. */
  ghost function AllocatedTo(scored: seq<Entry>, budget: nat, c: Option<Text>, n: nat): int
    requires n <= |scored|
  {
    if n == 0 then 0
    else AllocatedTo(scored, budget, c, n - 1) + if Counts(c, scored[n - 1]) then Allocation(scored, budget, n - 1) else 0
  }

  predicate Counts(c: Option<Text>, e: Entry) {
    c.None? || c.value == e.contributor
  }

  ghost function FloorsTo(scored: seq<Entry>, budget: nat, total: int, c: Option<Text>): int {
    SumBy((e: Entry) => if Counts(c, e) then FloorShare(budget, total, e) else 0, scored)
  }

  ghost function Winners(c: Option<Text>, entries: seq<Entry>): int {
    SumBy((e: Entry) => if Counts(c, e) then 1 else 0, entries)
  }

  /** Units handed out to `c` among the first `n` entries of the list. */
  ghost function BonusTo(scored: seq<Entry>, order: seq<Ranked>, winners: int, c: Option<Text>, n: nat): int
    requires n <= |scored|
  {
    if n == 0 then 0
    else BonusTo(scored, order, winners, c, n - 1) + if Counts(c, scored[n - 1]) then Bonus(order, winners, n - 1) else 0
  }

  lemma {:induction false} PaidSplits(scored: seq<Entry>, budget: nat, c: Option<Text>, n: nat)
    requires n <= |scored|
    ensures AllocatedTo(scored, budget, c, n)
         == FloorsTo(scored[..n], budget, TotalScore(scored), c) + BonusTo(scored, Order(scored), Remainder(scored, budget), c, n)
  {
    if n > 0 {
      PaidSplits(scored, budget, c, n - 1);
      var total := TotalScore(scored);
      SumByPrefix((e: Entry) => if Counts(c, e) then FloorShare(budget, total, e) else 0, scored, n - 1);
    }
  }

  /** One more winner adds one unit, to the contributor of that winner. */
  lemma {:induction false} BonusStep(scored: seq<Entry>, order: seq<Ranked>, w: nat, c: Option<Text>, n: nat)
    requires n <= |scored| && w < |order| && order[w].index < |scored|
    requires forall i, j | 0 <= i < j < |order| :: order[i].index != order[j].index
    ensures BonusTo(scored, order, w + 1, c, n)
         == BonusTo(scored, order, w, c, n) + if order[w].index < n && Counts(c, scored[order[w].index]) then 1 else 0
  {
    if n > 0 {
      BonusStep(scored, order, w, c, n - 1);
      if order[w].index == n - 1 {
        assert Wins(order, w + 1, n - 1) && !Wins(order, w, n - 1);
      } else {
        assert Wins(order, w + 1, n - 1) <==> Wins(order, w, n - 1);
      }
    }
  }

  lemma {:induction false} NoBonus(scored: seq<Entry>, order: seq<Ranked>, c: Option<Text>, n: nat)
    requires n <= |scored|
    ensures BonusTo(scored, order, 0, c, n) == 0
  {
    if n > 0 {
      NoBonus(scored, order, c, n - 1);
    }
  }

  ghost function Entries(order: seq<Ranked>): seq<Entry> {
    Map((r: Ranked) => r.entry, order)
  }

  lemma {:induction false} BonusCounts(scored: seq<Entry>, w: nat, c: Option<Text>)
    requires w <= |scored|
    ensures |Order(scored)| == |scored|
    ensures BonusTo(scored, Order(scored), w, c, |scored|) == Winners(c, Entries(Order(scored))[..w])
  {
    var order := Order(scored);
    OrderIsPermutation(scored);
    if w == 0 {
      NoBonus(scored, order, c, |scored|);
    } else {
      BonusCounts(scored, w - 1, c);
      BonusStep(scored, order, w - 1, c, |scored|);
      SumByPrefix((e: Entry) => if Counts(c, e) then 1 else 0, Entries(order), w - 1);
    }
  }

  lemma EntriesAreSorted(scored: seq<Entry>)
    ensures Entries(Order(scored)) == Sort(EntryLeq, scored)
  {
    SortCommutes((r: Ranked) => r.entry, RankedLeq, EntryLeq, Numbered(scored, 0));
    assert Entries(Numbered(scored, 0)) == scored;
  }

  /** What a contributor is paid in all, said without any position: floors of the scores, and a
      place among the first of the sorted list. */
  lemma PaidInClosedForm(scored: seq<Entry>, budget: nat, c: Option<Text>)
    requires Scored(scored)
    ensures |Sort(EntryLeq, scored)| == |scored| && 0 <= Remainder(scored, budget) < |scored|
    ensures AllocatedTo(scored, budget, c, |scored|)
         == FloorsTo(scored, budget, TotalScore(scored), c) + Winners(c, Sort(EntryLeq, scored)[..Remainder(scored, budget)])
  {
    RemainderSmall(scored, budget);
    PaidSplits(scored, budget, c, |scored|);
    assert scored[..|scored|] == scored;
    BonusCounts(scored, Remainder(scored, budget), c);
    EntriesAreSorted(scored);
  }

  lemma {:induction false} CountAll(entries: seq<Entry>)
    ensures Winners(None, entries) == |entries|
  {
    if entries != [] {
      CountAll(entries[1..]);
    }
  }

  lemma {:induction false} FloorsAll(scored: seq<Entry>, budget: nat, total: int)
    ensures FloorsTo(scored, budget, total, None) == FloorTotal(budget, total, scored)
  {
    if scored != [] {
      FloorsAll(scored[1..], budget, total);
    }
  }

  /** The whole budget is paid, to the last unit. */
  lemma BudgetIsPaidExactly(scored: seq<Entry>, budget: nat)
    requires Scored(scored)
    ensures AllocatedTo(scored, budget, None, |scored|) == budget
  {
    PaidInClosedForm(scored, budget, None);
    CountAll(Sort(EntryLeq, scored)[..Remainder(scored, budget)]);
    FloorsAll(scored, budget, TotalScore(scored));
  }

  /** The same proofs in another order pay every contributor the same. */
  lemma PaidTheSame(a: seq<Entry>, b: seq<Entry>, budget: nat, c: Option<Text>)
    requires Scored(a) && Scored(b) && multiset(a) == multiset(b)
    ensures |a| == |b| && AllocatedTo(a, budget, c, |a|) == AllocatedTo(b, budget, c, |b|)
  {
    assert |multiset(a)| == |a| && |multiset(b)| == |b|;
    SumByPerm((e: Entry) => e.score, a, b);
    var total := TotalScore(a);
    SumByPerm((e: Entry) => FloorShare(budget, total, e), a, b);
    SumByPerm((e: Entry) => if Counts(c, e) then FloorShare(budget, total, e) else 0, a, b);
    PaidInClosedForm(a, budget, c);
    PaidInClosedForm(b, budget, c);
    RankedOrder();
    SortForgetsOrder(EntryLeq, a, b);
  }

  // ----- The reward map

  ghost function Payments(scored: seq<Entry>, budget: nat): (r: seq<Payment>)
    ensures |r| == |scored|
    ensures forall i | 0 <= i < |r| :: r[i] == Payment(scored[i].contributor, Allocation(scored, budget, i))
  {
    seq(|scored|, i requires 0 <= i < |scored| => Payment(scored[i].contributor, Allocation(scored, budget, i)))
  }

  /** What one settlement pays: to each contributor the sum of its allocations. */
  ghost function Rewards(scored: seq<Entry>, budget: nat): map<Text, int> {
    Totals(Payments(scored, budget))
  }

  lemma {:induction false} PaidIsAllocated(scored: seq<Entry>, budget: nat, c: Option<Text>, payments: seq<Payment>)
    requires |payments| <= |scored|
    requires forall i | 0 <= i < |payments| :: payments[i] == Payment(scored[i].contributor, Allocation(scored, budget, i))
    ensures PaidTo(c, payments) == AllocatedTo(scored, budget, c, |payments|)
  {
    if payments != [] {
      var n := |payments| - 1;
      PaidIsAllocated(scored, budget, c, payments[..n]);
      PaidNext(c, payments[..n], payments[n]);
      assert payments == payments[..n] + [payments[n]];
    }
  }

  lemma PaidInAll(scored: seq<Entry>, budget: nat, c: Option<Text>)
    ensures PaidTo(c, Payments(scored, budget)) == AllocatedTo(scored, budget, c, |scored|)
  {
    PaidIsAllocated(scored, budget, c, Payments(scored, budget));
  }

  lemma ReceiversAreContributors(scored: seq<Entry>, budget: nat, c: Text)
    ensures c in Receivers(Payments(scored, budget)) <==> exists e :: e in scored && e.contributor == c
  {
    var payments := Payments(scored, budget);
    if p :| p in payments && p.receiver == c {
      var i :| 0 <= i < |payments| && payments[i] == p;
      assert scored[i] in scored;
    }
    if e :| e in scored && e.contributor == c {
      var i :| 0 <= i < |scored| && scored[i] == e;
      assert payments[i] in payments;
    }
  }

  /** Every positive budget is paid out to the last unit. */
  lemma RewardsAddUp(scored: seq<Entry>, budget: nat)
    requires Scored(scored)
    ensures SumMap(Rewards(scored, budget)) == budget
  {
    TotalsAddUp(Payments(scored, budget));
    PaidInAll(scored, budget, None);
    BudgetIsPaidExactly(scored, budget);
  }

  /** Submitting the same scored proofs in another order changes no reward. */
  lemma OrderOfProofsIsIrrelevant(a: seq<Entry>, b: seq<Entry>, budget: nat)
    requires Scored(a) && multiset(a) == multiset(b)
    ensures Rewards(a, budget) == Rewards(b, budget)
  {
    assert |multiset(a)| == |a| && |multiset(b)| == |b|;
    forall e ensures e in a <==> e in b {
      assert e in multiset(a) <==> e in multiset(b);
    }
    forall c ensures c in Receivers(Payments(a, budget)) <==> c in Receivers(Payments(b, budget)) {
      ReceiversAreContributors(a, budget, c);
      ReceiversAreContributors(b, budget, c);
    }
    forall i | 0 <= i < |b| ensures b[i].score > 0 {
      assert b[i] in a;
    }
    forall c | c in Rewards(a, budget) ensures Rewards(a, budget)[c] == Rewards(b, budget)[c] {
      PaidTheSame(a, b, budget, Some(c));
      PaidInAll(a, budget, Some(c));
      PaidInAll(b, budget, Some(c));
    }
  }

  // ----- The loops of the settlement

  lemma NextWinner(order: seq<Ranked>, n: nat, i: nat)
    requires n < |order|
    requires forall i, j | 0 <= i < j < |order| :: order[i].index != order[j].index
    ensures Bonus(order, n + 1, i) == Bonus(order, n, i) + if order[n].index == i then 1 else 0
  {
    if order[n].index == i {
      assert Wins(order, n + 1, i) && !Wins(order, n, i);
    } else {
      assert Wins(order, n + 1, i) <==> Wins(order, n, i);
    }
  }

  method Floors(scored: seq<Entry>, budget: nat, total: int) returns (allocations: array<int>, paid: int)
    ensures fresh(allocations) && allocations.Length == |scored|
    ensures forall j | 0 <= j < |scored| :: allocations[j] == FloorShare(budget, total, scored[j])
    ensures paid == FloorTotal(budget, total, scored)
  {
    allocations := new int[|scored|];
    paid := 0;
    for i := 0 to |scored|
      invariant forall j | 0 <= j < i :: allocations[j] == FloorShare(budget, total, scored[j])
      invariant paid == FloorTotal(budget, total, scored[..i])
    {
      allocations[i] := FloorShare(budget, total, scored[i]);
      paid := paid + allocations[i];
      SumByPrefix((e: Entry) => FloorShare(budget, total, e), scored, i);
    }
    assert scored[..|scored|] == scored;
  }

  /** One unit each to the first `remainder` of the order. */
  method HandOut(allocations: array<int>, order: seq<Ranked>, remainder: int)
    requires 0 <= remainder <= |order|
    requires forall k | 0 <= k < |order| :: order[k].index < allocations.Length
    requires forall i, j | 0 <= i < j < |order| :: order[i].index != order[j].index
    modifies allocations
    ensures forall j | 0 <= j < allocations.Length :: allocations[j] == old(allocations[j]) + Bonus(order, remainder, j)
  {
    for index := 0 to remainder
      invariant forall j | 0 <= j < allocations.Length :: allocations[j] == old(allocations[j]) + Bonus(order, index, j)
    {
      assert index % |order| == index;
      var winner := order[index % |order|].index;
      forall j | 0 <= j < allocations.Length
        ensures Bonus(order, index + 1, j) == Bonus(order, index, j) + if winner == j then 1 else 0
      {
        NextWinner(order, index, j);
      }
      allocations[winner] := allocations[winner] + 1;
    }
  }

  /** The division of settle_epoch: it pays exactly the budget, and pays it as Rewards says. */
  method Distribute(scored: seq<Entry>, budget: nat) returns (rewards: map<Text, int>)
    requires Scored(scored)
    ensures rewards == Rewards(scored, budget)
    ensures SumMap(rewards) == budget
  {
    var allocations, paid := Floors(scored, budget, TotalScore(scored));
    RemainderSmall(scored, budget);
    OrderIsPermutation(scored);
    HandOut(allocations, Order(scored), budget - paid);
    rewards := AddUp(Map((e: Entry) => e.contributor, scored), allocations, Payments(scored, budget));
    RewardsAddUp(scored, budget);
  }
}
