/** site/book.js: reading an order book into the rows and totals a page shows, over the real numbers. */
module OrderBooks {
  import opened Ordering
  import opened Results

  const PERCENTS := 100
  const NEAREST := 200
  const EPSILON: real := 0.000000001

  datatype Level = Level(price: real, amount: real)

  /** A level with the volume from the best price through it. */
  datatype Row = Row(price: real, amount: real, volume: real)

  datatype Sum = Sum(coins: real, money: real)

  function Distance(a: real, b: real): real {
    if a >= b then a - b else b - a
  }

  // ----- The middle price

  predicate IsHighest(p: real, levels: seq<Level>) {
    (exists l | l in levels :: l.price == p) && forall l | l in levels :: l.price <= p
  }

  predicate IsLowest(p: real, levels: seq<Level>) {
    (exists l | l in levels :: l.price == p) && forall l | l in levels :: p <= l.price
  }

  method Highest(levels: seq<Level>) returns (p: Option<real>)
    ensures p.None? <==> levels == []
    ensures p.Some? ==> IsHighest(p.value, levels)
  {
    p := None;
    for i := 0 to |levels|
      invariant p.None? <==> i == 0
      invariant p.Some? ==> IsHighest(p.value, levels[..i])
    {
      assert levels[..i + 1] == levels[..i] + [levels[i]];
      if p.None? || levels[i].price > p.value {
        assert levels[i] in levels[..i + 1];
        p := Some(levels[i].price);
      }
    }
    assert levels[..|levels|] == levels;
  }

  method Lowest(levels: seq<Level>) returns (p: Option<real>)
    ensures p.None? <==> levels == []
    ensures p.Some? ==> IsLowest(p.value, levels)
  {
    p := None;
    for i := 0 to |levels|
      invariant p.None? <==> i == 0
      invariant p.Some? ==> IsLowest(p.value, levels[..i])
    {
      assert levels[..i + 1] == levels[..i] + [levels[i]];
      if p.None? || levels[i].price < p.value {
        assert levels[i] in levels[..i + 1];
        p := Some(levels[i].price);
      }
    }
    assert levels[..|levels|] == levels;
  }

  // ----- One side of the book

  /** Best price first. */
  predicate Before(down: bool, a: Level, b: Level) {
    if down then a.price >= b.price else a.price <= b.price
  }

  function InReach(levels: seq<Level>, price: real): seq<Level>
    requires price > 0.0
  {
    if levels == [] then []
    else (if Distance(levels[0].price, price) / price <= 1.0 then [levels[0]] else []) + InReach(levels[1..], price)
  }

  function Arranged(levels: seq<Level>, price: real, down: bool): seq<Level>
    requires price > 0.0
  {
    Sort((a: Level, b: Level) => Before(down, a, b), InReach(levels, price))
  }

  lemma {:induction false} ReachHas(levels: seq<Level>, price: real, l: Level)
    requires price > 0.0
    ensures multiset(InReach(levels, price))[l] == if Distance(l.price, price) / price <= 1.0 then multiset(levels)[l] else 0
  {
    if levels != [] {
      assert levels == [levels[0]] + levels[1..];
      ReachHas(levels[1..], price, l);
    }
  }

  /** A side is its levels within reach, each as often as it came, best price first. */
  lemma ArrangedBestFirst(levels: seq<Level>, price: real, down: bool)
    requires price > 0.0
    ensures var r := Arranged(levels, price, down);
            forall i, j | 0 <= i < j < |r| :: if down then r[i].price >= r[j].price else r[i].price <= r[j].price
    ensures forall l: Level ::
              multiset(Arranged(levels, price, down))[l] == if Distance(l.price, price) / price <= 1.0 then multiset(levels)[l] else 0
  {
    var leq := (a: Level, b: Level) => Before(down, a, b);
    SortSorts(leq, InReach(levels, price));
    SortKeeps(leq, InReach(levels, price));
    var r := Arranged(levels, price, down);
    forall i, j | 0 <= i < j < |r| ensures if down then r[i].price >= r[j].price else r[i].price <= r[j].price {
      assert leq(r[i], r[j]);
    }
    forall l: Level {
      ReachHas(levels, price, l);
    }
  }

  function Ceil(x: real): int {
    -((-x).Floor)
  }

  /** The whole percent a level lies within, from 1 to 100. */
  function Percent(l: Level, price: real): (p: int)
    requires price > 0.0
    ensures 1 <= p <= PERCENTS
  {
    var p := Ceil(Distance(l.price, price) / price * 100.0 - EPSILON);
    if p < 1 then 1 else if p > PERCENTS then PERCENTS else p
  }

  lemma CeilIs(x: real, n: int)
    ensures Ceil(x) <= n <==> x <= n as real
  {
  }

  lemma QuotientAtMost(a: real, b: real, q: real)
    requires b > 0.0
    ensures a / b <= q <==> a <= q * b
  {
    var x := a / b;
    assert x * b == a;
    if x <= q {
      TimesUp(x, q, b);
    } else {
      TimesUp(q, x, b);
    }
  }

  lemma TimesUp(x: real, y: real, b: real)
    requires x <= y && b > 0.0
    ensures x * b <= y * b && (x < y ==> x * b < y * b)
  {
  }

  /** A level is within `n` per cent exactly when its price is that near on either side, a billionth
      of a percent forgiven. */
  lemma PercentMeans(l: Level, price: real, n: int)
    requires price > 0.0 && 1 <= n < 100
    ensures var reach := (n as real + 0.000000001) / 100.0 * price;
            Percent(l, price) <= n <==> price - reach <= l.price <= price + reach
  {
    var q := Distance(l.price, price) / price;
    CeilIs(q * 100.0 - EPSILON, n);
    QuotientAtMost(Distance(l.price, price), price, (n as real + EPSILON) / 100.0);
  }

  function Coins(levels: seq<Level>): real {
    if levels == [] then 0.0 else Coins(levels[..|levels| - 1]) + levels[|levels| - 1].amount
  }

  function Plus(s: Sum, l: Level): Sum {
    Sum(s.coins + l.amount, s.money + l.amount * l.price)
  }

  /** Everything within that many per cent of the price. */
  function Within(levels: seq<Level>, price: real, percent: int): Sum
    requires price > 0.0
  {
    if levels == [] then Sum(0.0, 0.0)
    else
      var before, last := Within(levels[..|levels| - 1], price, percent), levels[|levels| - 1];
      if Percent(last, price) > percent then before else Plus(before, last)
  }

  /** Everything in that very percent. */
  function Only(levels: seq<Level>, price: real, percent: int): Sum
    requires price > 0.0
  {
    if levels == [] then Sum(0.0, 0.0)
    else
      var before, last := Only(levels[..|levels| - 1], price, percent), levels[|levels| - 1];
      if Percent(last, price) != percent then before else Plus(before, last)
  }

  lemma OnlyNext(levels: seq<Level>, price: real, percent: int, i: nat)
    requires price > 0.0 && i < |levels|
    ensures Only(levels[..i + 1], price, percent)
         == if Percent(levels[i], price) == percent then Plus(Only(levels[..i], price, percent), levels[i])
            else Only(levels[..i], price, percent)
  {
    assert levels[..i + 1][..i] == levels[..i];
  }

  lemma {:induction false} WithinNext(levels: seq<Level>, price: real, percent: int)
    requires price > 0.0
    ensures var a, b, c := Within(levels, price, percent - 1), Only(levels, price, percent), Within(levels, price, percent);
            c.coins == a.coins + b.coins && c.money == a.money + b.money
  {
    if levels != [] {
      WithinNext(levels[..|levels| - 1], price, percent);
    }
  }

  lemma {:induction false} NothingBelowOne(levels: seq<Level>, price: real)
    requires price > 0.0
    ensures Within(levels, price, 0) == Sum(0.0, 0.0)
  {
    if levels != [] {
      NothingBelowOne(levels[..|levels| - 1], price);
    }
  }

  /** The last total is the volume of the last row. */
  lemma {:induction false} LastTotalIsAll(levels: seq<Level>, price: real)
    requires price > 0.0
    ensures Within(levels, price, PERCENTS).coins == Coins(levels)
  {
    if levels != [] {
      LastTotalIsAll(levels[..|levels| - 1], price);
    }
  }

  /** The money of a total is its coins at prices between the lowest and the highest within. */
  lemma {:induction false} AveragePriceIsBetween(levels: seq<Level>, price: real, percent: int, low: real, high: real)
    requires price > 0.0
    requires forall l | l in levels :: l.amount >= 0.0 && (Percent(l, price) <= percent ==> low <= l.price <= high)
    ensures var total := Within(levels, price, percent);
            low * total.coins <= total.money <= high * total.coins
  {
    hide Percent;
    if levels != [] {
      var last, before := levels[|levels| - 1], levels[..|levels| - 1];
      assert last in levels;
      AveragePriceIsBetween(before, price, percent, low, high);
      var total := Within(before, price, percent);
      if Percent(last, price) <= percent {
        Priced(last.amount, low, last.price, high);
        Added(total.coins, last.amount, low);
        Added(total.coins, last.amount, high);
      }
    }
  }

  lemma Priced(amount: real, low: real, price: real, high: real)
    requires amount >= 0.0 && low <= price <= high
    ensures low * amount <= amount * price <= high * amount
  {
  }

  lemma Added(a: real, b: real, p: real)
    ensures p * (a + b) == p * a + p * b
  {
  }

  /** Totals never shrink with distance. */
  lemma {:induction false} TotalsGrow(levels: seq<Level>, price: real, near: int, far: int)
    requires price > 0.0 && near <= far && forall l | l in levels :: l.amount > 0.0 && l.price > 0.0
    ensures Within(levels, price, near).coins <= Within(levels, price, far).coins
    ensures Within(levels, price, near).money <= Within(levels, price, far).money
  {
    if levels != [] {
      var last := levels[|levels| - 1];
      assert last in levels && last.amount * last.price > 0.0;
      TotalsGrow(levels[..|levels| - 1], price, near, far);
    }
  }

  function RowsOf(levels: seq<Level>): (rows: seq<Row>)
    ensures |rows| == |levels|
    ensures forall i | 0 <= i < |levels| :: rows[i] == Row(levels[i].price, levels[i].amount, Coins(levels[..i + 1]))
  {
    seq(|levels|, i requires 0 <= i < |levels| => Row(levels[i].price, levels[i].amount, Coins(levels[..i + 1])))
  }

  /** The loop over the levels: their rows, and the sums percent by percent. */
  method Accumulate(levels: seq<Level>, price: real) returns (rows: seq<Row>, sums: array<Sum>)
    requires price > 0.0
    ensures fresh(sums) && sums.Length == PERCENTS
    ensures rows == RowsOf(levels)
    ensures forall p | 1 <= p <= PERCENTS :: sums[p - 1] == Only(levels, price, p)
  {
    sums := new Sum[PERCENTS](_ => Sum(0.0, 0.0));
    rows := [];
    var coins := 0.0;
    for i := 0 to |levels|
      invariant |rows| == i && coins == Coins(levels[..i])
      invariant forall j | 0 <= j < i :: rows[j] == Row(levels[j].price, levels[j].amount, Coins(levels[..j + 1]))
      invariant forall p | 1 <= p <= PERCENTS :: sums[p - 1] == Only(levels[..i], price, p)
    {
      var l := levels[i];
      ghost var more := levels[..i + 1];
      assert more[..i] == levels[..i];
      coins := coins + l.amount;
      var k := Percent(l, price) - 1;
      forall p | 1 <= p <= PERCENTS
        ensures Only(more, price, p) == if p == k + 1 then Plus(sums[k], l) else sums[p - 1]
      {
        OnlyNext(levels, price, p, i);
      }
      hide Only, Percent;
      sums[k] := Plus(sums[k], l);
      rows := rows + [Row(l.price, l.amount, coins)];
    }
    assert levels[..|levels|] == levels;
  }

  /** Each percent takes in what the percents before it have. */
  method AddUp(levels: seq<Level>, price: real, sums: array<Sum>)
    requires price > 0.0 && sums.Length == PERCENTS
    requires forall p | 1 <= p <= PERCENTS :: sums[p - 1] == Only(levels, price, p)
    modifies sums
    ensures forall p | 1 <= p <= PERCENTS :: sums[p - 1] == Within(levels, price, p)
  {
    NothingBelowOne(levels, price);
    WithinNext(levels, price, 1);
    for k := 1 to PERCENTS
      invariant forall p | 1 <= p <= k :: sums[p - 1] == Within(levels, price, p)
      invariant forall p | k < p <= PERCENTS :: sums[p - 1] == Only(levels, price, p)
    {
      WithinNext(levels, price, k + 1);
      sums[k] := Sum(sums[k].coins + sums[k - 1].coins, sums[k].money + sums[k - 1].money);
    }
  }

  // ----- Which rows stay

  /** A row with its place, which stands for the row object itself. */
  datatype Placed = Placed(row: Row, place: nat)

  /** Larger first, and of two as large the one nearer the price: what a stable sort by amount does. */
  predicate Larger(a: Placed, b: Placed) {
    a.row.amount > b.row.amount || (a.row.amount == b.row.amount && a.place <= b.place)
  }

  function Numbered(rows: seq<Row>): (r: seq<Placed>)
    ensures |r| == |rows| && forall i | 0 <= i < |r| :: r[i] == Placed(rows[i], i)
  {
    seq(|rows|, i requires 0 <= i < |rows| => Placed(rows[i], i))
  }

  /** The rows with more than the one at place `i`, and those with as much nearer the price. */
  ghost function Ahead(rows: seq<Row>, i: nat): set<nat>
    requires i < |rows|
  {
    set j: nat | j < |rows| && (rows[j].amount > rows[i].amount || (rows[j].amount == rows[i].amount && j < i))
  }

  /** A row stays if it is among the 200 nearest the price, or fewer than `keep` rows are larger. */
  ghost predicate Stays(rows: seq<Row>, keep: nat, i: nat)
    requires i < |rows|
  {
    i < NEAREST || |Ahead(rows, i)| < keep
  }

  lemma LargerOrder()
    ensures TotalPreorder(Larger)
  {
  }

  ghost predicate Ranked(rows: seq<Row>, order: seq<Placed>) {
    && |order| == |rows|
    && (forall k | 0 <= k < |order| :: order[k].place < |rows| && order[k].row == rows[order[k].place])
    && (forall k, l | 0 <= k < l < |order| :: order[k].place != order[l].place && Larger(order[k], order[l]))
    && (forall i: nat | i < |rows| :: Placed(rows[i], i) in order)
  }

  lemma SortRanks(rows: seq<Row>)
    ensures Ranked(rows, Sort(Larger, Numbered(rows)))
  {
    var numbered, order := Numbered(rows), Sort(Larger, Numbered(rows));
    LargerOrder();
    SortSorts(Larger, numbered);
    SortKeeps(Larger, numbered);
    DistinctCount(numbered);
    DistinctCount(order);
    forall p ensures p in order <==> p in numbered {
      assert p in multiset(order) <==> p in multiset(numbered);
    }
    forall k | 0 <= k < |order| ensures order[k].place < |rows| && order[k].row == rows[order[k].place] {
      assert order[k] in order;
    }
    forall i: nat | i < |rows| ensures Placed(rows[i], i) in order {
      assert numbered[i] in numbered;
    }
    forall k, l | 0 <= k < l < |order| ensures order[k].place != order[l].place && Larger(order[k], order[l]) {
      assert order[k] != order[l];
    }
  }

  ghost function PlacesOf(order: seq<Placed>, n: nat): (s: set<nat>)
    requires n <= |order|
    ensures forall x :: x in s <==> exists k :: 0 <= k < n && order[k].place == x
  {
    if n == 0 then {} else PlacesOf(order, n - 1) + {order[n - 1].place}
  }

  lemma {:induction false} PlacesCount(order: seq<Placed>, n: nat)
    requires n <= |order| && forall k, l | 0 <= k < l < |order| :: order[k].place != order[l].place
    ensures |PlacesOf(order, n)| == n
  {
    if n > 0 {
      PlacesCount(order, n - 1);
    }
  }

  /** The place in the order is the number of larger rows. */
  lemma RankIsNumberAhead(rows: seq<Row>, order: seq<Placed>, k: nat)
    requires Ranked(rows, order) && k < |order|
    ensures |Ahead(rows, order[k].place)| == k
  {
    var i := order[k].place;
    PlacesCount(order, k);
    forall x: nat ensures x in Ahead(rows, i) <==> x in PlacesOf(order, k) {
      if x < |rows| {
        assert Placed(rows[x], x) in order;
        var l :| 0 <= l < |order| && order[l] == Placed(rows[x], x);
        if l < k {
          assert Larger(order[l], order[k]);
        } else if l > k {
          assert Larger(order[k], order[l]);
        }
      }
    }
    assert Ahead(rows, i) == PlacesOf(order, k);
  }

  function Shown(rows: seq<Row>, places: set<nat>, n: nat): seq<Row>
    requires n <= |rows|
  {
    if n == 0 then [] else Shown(rows, places, n - 1) + if n - 1 in places then [rows[n - 1]] else []
  }

  ghost function Staying(rows: seq<Row>, keep: nat): set<nat> {
    set i: nat | i < |rows| && Stays(rows, keep, i)
  }

  lemma OnTop(rows: seq<Row>, order: seq<Placed>, keep: nat, i: nat)
    requires Ranked(rows, order) && i < |rows|
    ensures i in PlacesOf(order, if keep < |order| then keep else |order|) <==> |Ahead(rows, i)| < keep
  {
    assert Placed(rows[i], i) in order;
    var l :| 0 <= l < |order| && order[l] == Placed(rows[i], i);
    RankIsNumberAhead(rows, order, l);
  }

  lemma StayingIs(rows: seq<Row>, order: seq<Placed>, keep: nat, top: set<nat>, places: set<nat>)
    requires Ranked(rows, order) && top == PlacesOf(order, if keep < |order| then keep else |order|)
    requires forall i: nat :: i in places <==> i in top || (i < |rows| && i < NEAREST)
    ensures places == Staying(rows, keep)
  {
    forall i: nat ensures i in places <==> i in Staying(rows, keep) {
      if i < |rows| {
        OnTop(rows, order, keep, i);
      }
    }
  }

  method TopPlaces(order: seq<Placed>, keep: nat) returns (places: set<nat>)
    ensures places == PlacesOf(order, if keep < |order| then keep else |order|)
  {
    places := {};
    for k := 0 to |order|
      invariant places == PlacesOf(order, if keep < k then keep else k)
    {
      if k < keep {
        places := places + {order[k].place};
      }
    }
  }

  method AddNearest(top: set<nat>, count: nat) returns (places: set<nat>)
    ensures forall j: nat :: j in places <==> j in top || (j < count && j < NEAREST)
  {
    places := top;
    for i := 0 to count
      invariant forall j: nat :: j in places <==> j in top || (j < i && j < NEAREST)
    {
      if i < NEAREST {
        places := places + {i};
      }
    }
  }

  method Largest(rows: seq<Row>, keep: nat) returns (shown: seq<Row>)
    ensures shown == Shown(rows, Staying(rows, keep), |rows|)
  {
    var order := Sort(Larger, Numbered(rows));
    SortRanks(rows);
    var top := TopPlaces(order, keep);
    var places := AddNearest(top, |rows|);
    StayingIs(rows, order, keep, top, places);
    shown := [];
    for i := 0 to |rows|
      invariant shown == Shown(rows, places, i)
    {
      if i in places {
        shown := shown + [rows[i]];
      }
    }
  }

  ghost predicate IsSide(shown: seq<Row>, totals: seq<Sum>, levels: seq<Level>, price: real, down: bool, keep: nat)
    requires price > 0.0
  {
    var sorted := Arranged(levels, price, down);
    && shown == Shown(RowsOf(sorted), Staying(RowsOf(sorted), keep), |sorted|)
    && |totals| == PERCENTS
    && forall p | 1 <= p <= PERCENTS :: totals[p - 1] == Within(sorted, price, p)
  }

  /** One side: the rows that stay, each with the volume of everything from the best price through it,
      shown or not, and the totals within each percent of the price. */
  method Side(levels: seq<Level>, price: real, down: bool, keep: nat) returns (shown: seq<Row>, totals: seq<Sum>)
    requires price > 0.0
    ensures IsSide(shown, totals, levels, price, down, keep)
  {
    var sorted := Arranged(levels, price, down);
    var rows, sums := Accumulate(sorted, price);
    AddUp(sorted, price, sums);
    totals := sums[..];
    shown := Largest(rows, keep);
  }

  /** Between the best bid and the best ask, or the one there is. */
  ghost predicate IsMiddle(price: real, bids: seq<Level>, asks: seq<Level>) {
    if bids == [] then IsLowest(price, asks)
    else if asks == [] then IsHighest(price, bids)
    else exists best, ask :: IsHighest(best, bids) && IsLowest(ask, asks) && price == (best + ask) / 2.0
  }

  ghost predicate PositivePrices(levels: seq<Level>) {
    forall l | l in levels :: l.price > 0.0
  }

  datatype Book = Book(price: real, bids: seq<Row>, asks: seq<Row>, bidTotals: seq<Sum>, askTotals: seq<Sum>)

  /** No book without a level on either side. */
  method GatherBook(bids: seq<Level>, asks: seq<Level>, keep: nat) returns (book: Option<Book>)
    requires PositivePrices(bids) && PositivePrices(asks)
    ensures book.None? <==> bids == [] && asks == []
    ensures book.Some? ==>
              var b := book.value;
              && IsMiddle(b.price, bids, asks) && b.price > 0.0
              && IsSide(b.bids, b.bidTotals, bids, b.price, true, keep)
              && IsSide(b.asks, b.askTotals, asks, b.price, false, keep)
  {
    var best := Highest(bids);
    var ask := Lowest(asks);
    if best.None? && ask.None? {
      return None;
    }
    var price := if best.None? then ask.value else if ask.None? then best.value else (best.value + ask.value) / 2.0;
    var bidRows, bidSums := Side(bids, price, true, keep);
    var askRows, askSums := Side(asks, price, false, keep);
    book := Some(Book(price, bidRows, askRows, bidSums, askSums));
  }

  // ----- Two readings of one book

  ghost predicate Strictly(down: bool, levels: seq<Level>) {
    forall i, j | 0 <= i < j < |levels| :: if down then levels[i].price > levels[j].price else levels[i].price < levels[j].price
  }

  function Beyond(far: seq<Level>, edge: real, down: bool): seq<Level> {
    if far == [] then []
    else (if (if down then far[0].price < edge else far[0].price > edge) then [far[0]] else []) + Beyond(far[1..], edge, down)
  }

  /** The fresh near levels, then the older far ones past them. */
  function Merge(far: seq<Level>, near: seq<Level>, down: bool): seq<Level> {
    if near == [] then far else near + Beyond(far, near[|near| - 1].price, down)
  }

  lemma {:induction false} BeyondHas(far: seq<Level>, edge: real, down: bool)
    ensures forall l :: l in Beyond(far, edge, down) <==> l in far && (if down then l.price < edge else l.price > edge)
    ensures Strictly(down, far) ==> Strictly(down, Beyond(far, edge, down))
  {
    if far != [] {
      var rest := Beyond(far[1..], edge, down);
      BeyondHas(far[1..], edge, down);
      assert far == [far[0]] + far[1..];
      if Strictly(down, far) {
        assert Strictly(down, far[1..]);
        forall l | l in rest ensures if down then far[0].price > l.price else far[0].price < l.price {
          var j :| 0 <= j < |far[1..]| && far[1..][j] == l;
          assert far[j + 1] == l;
        }
      }
    }
  }

  /** Merging keeps every near level, replaces all far ones up to the near edge, and leaves no price twice. */
  lemma MergeIsABook(far: seq<Level>, near: seq<Level>, down: bool)
    requires Strictly(down, far) && Strictly(down, near)
    ensures Strictly(down, Merge(far, near, down))
    ensures forall l :: l in Merge(far, near, down) <==>
              l in near || (l in far && (near == [] || (if down then l.price < near[|near| - 1].price else l.price > near[|near| - 1].price)))
  {
    if near != [] {
      var edge := near[|near| - 1].price;
      var past := Beyond(far, edge, down);
      BeyondHas(far, edge, down);
      forall i, j | 0 <= i < j < |near + past|
        ensures if down then (near + past)[i].price > (near + past)[j].price else (near + past)[i].price < (near + past)[j].price
      {
        if i < |near| <= j {
          assert past[j - |near|] in past;
          assert if down then near[i].price >= edge else near[i].price <= edge;
        }
      }
    }
  }

  // ----- Averages of closing prices

  function Total(closes: seq<real>): real {
    if closes == [] then 0.0 else Total(closes[..|closes| - 1]) + closes[|closes| - 1]
  }

  lemma {:induction false} TotalDropsFirst(closes: seq<real>)
    requires closes != []
    ensures Total(closes) == closes[0] + Total(closes[1..])
  {
    if |closes| > 1 {
      var front, last := closes[..|closes| - 1], closes[|closes| - 1];
      TotalDropsFirst(front);
      assert closes[1..][..|closes| - 2] == front[1..];
    }
  }

  /** The last `length` of the first `i` closes, or all of them. */
  function Window(closes: seq<real>, length: nat, i: nat): seq<real>
    requires i <= |closes|
  {
    closes[if i < length then 0 else i - length..i]
  }

  lemma WindowNext(closes: seq<real>, length: nat, i: nat)
    requires i < |closes| && length > 0
    ensures Total(Window(closes, length, i + 1))
         == Total(Window(closes, length, i)) + closes[i] - if i < length then 0.0 else closes[i - length]
  {
    var from := if i < length then 0 else i - length;
    var wide := closes[from..i + 1];
    assert wide[..i - from] == Window(closes, length, i);
    if i >= length {
      TotalDropsFirst(wide);
      assert wide[1..] == Window(closes, length, i + 1);
    }
  }

  function Mean(closes: seq<real>): real
    requires closes != []
  {
    Total(closes) / |closes| as real
  }

  /** The running sum gives, for every candle with enough before it, the mean of the last `length` closes. */
  method Average(closes: seq<real>, length: nat) returns (out: seq<real>)
    requires length > 0
    ensures |out| == if |closes| < length then 0 else |closes| - length + 1
    ensures forall i | 0 <= i < |out| :: out[i] == Mean(closes[i..i + length])
  {
    out := [];
    var sum := 0.0;
    for i := 0 to |closes|
      invariant |out| == if i < length then 0 else i - length + 1
      invariant sum == Total(Window(closes, length, i))
      invariant forall k | 0 <= k < |out| :: out[k] == Mean(closes[k..k + length])
    {
      WindowNext(closes, length, i);
      sum := sum + closes[i];
      if i >= length {
        sum := sum - closes[i - length];
      }
      if i >= length - 1 {
        assert sum / length as real == Mean(closes[i + 1 - length..i + 1]);
        out := out + [sum / length as real];
      }
      hide Mean, Total;
    }
  }
}
