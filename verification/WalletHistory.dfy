/** site/address.js and site/dashboard.js: a wallet's past value, by undoing its transfers from
    today's holdings.  Amounts and prices are real numbers. */
module WalletHistory {
  import opened Ordering
  import opened Results

  /** A token on a network. */
  type Key = string

  datatype Asset = Asset(key: Key, amount: real, price: Option<real>)

  datatype Transfer = Transfer(
    time: int, to: Option<string>, from: Option<string>, key: Key, amount: real, price: Option<real>, usd: Option<real>)

  datatype Holding = Holding(amount: real, price: Option<real>)

  type Book = map<Key, Holding>

  function Max(a: real, b: real): real {
    if a >= b then a else b
  }

  function PriceOf(h: Holding): real {
    if h.price.Some? then h.price.value else 0.0
  }

  /** What a holding counts for: never less than nothing. */
  function Worth(h: Holding): real {
    Max(0.0, h.amount) * PriceOf(h)
  }

  // ----- The sum over a book

  ghost function Total(b: Book): real
    decreases |b|
  {
    if b == map[] then 0.0
    else
      var k :| k in b;
      Worth(b[k]) + Total(b - {k})
  }

  lemma {:induction false} TotalWithout(b: Book, k: Key)
    requires k in b
    ensures Total(b) == Worth(b[k]) + Total(b - {k})
    decreases |b|
  {
    hide Worth;
    var j :| j in b && Total(b) == Worth(b[j]) + Total(b - {j});
    if j != k {
      TotalWithout(b - {j}, k);
      TotalWithout(b - {k}, j);
      assert b - {j} - {k} == b - {k} - {j};
    }
  }

  lemma TotalWith(b: Book, k: Key, h: Holding)
    ensures Total(b[k := h]) == Total(b) - (if k in b then Worth(b[k]) else 0.0) + Worth(h)
  {
    hide Worth;
    TotalWithout(b[k := h], k);
    assert b[k := h] - {k} == b - {k};
    if k in b {
      TotalWithout(b, k);
    } else {
      assert b - {k} == b;
    }
  }

  // ----- Undoing one transfer

  predicate Own(own: set<string>, party: Option<string>) {
    party.Some? && party.value in own
  }

  /** A transfer between an own account and somebody else's. */
  predicate Moves(own: set<string>, t: Transfer) {
    Own(own, t.to) != Own(own, t.from)
  }

  function Signed(own: set<string>, t: Transfer): real {
    if Own(own, t.to) then t.amount else -t.amount
  }

  /** The price a token that is no longer held gets from its transfer. */
  function TransferPrice(t: Transfer): Option<real> {
    if t.price.Some? then t.price
    else if t.usd.Some? && t.usd.value != 0.0 && t.amount != 0.0 then Some(t.usd.value / t.amount)
    else None
  }

  /** Whether a price counts: neither missing nor zero. */
  predicate Priced(h: Holding) {
    h.price.Some? && h.price.value != 0.0
  }

  function Known(b: Book, t: Transfer): Book {
    if t.key in b then b else b[t.key := Holding(0.0, TransferPrice(t))]
  }

  function Shift(b: Book, k: Key, d: real): Book
    requires k in b
  {
    b[k := b[k].(amount := b[k].amount + d)]
  }

  predicate Counts(own: set<string>, b: Book, t: Transfer) {
    Moves(own, t) && Priced(Known(b, t)[t.key])
  }

  /** The book just before the transfer. */
  function Undone(own: set<string>, b: Book, t: Transfer): Book {
    if !Moves(own, t) then b
    else if !Counts(own, b, t) then Known(b, t)
    else Shift(Known(b, t), t.key, -Signed(own, t))
  }

  function Redone(own: set<string>, b: Book, t: Transfer): Book
    requires Moves(own, t) ==> t.key in b
  {
    if !Counts(own, b, t) then b else Shift(b, t.key, Signed(own, t))
  }

  ghost function After(own: set<string>, b: Book, items: seq<Transfer>): Book {
    if items == [] then b
    else Undone(own, After(own, b, items[..|items| - 1]), items[|items| - 1])
  }

  datatype Step = Step(time: int, value: real)

  /** A step for each transfer that counts, valued by adding the whole book up again. */
  ghost function Steps(own: set<string>, b: Book, items: seq<Transfer>): seq<Step> {
    if items == [] then []
    else
      var before, last := items[..|items| - 1], items[|items| - 1];
      Steps(own, b, before)
      + if Counts(own, After(own, b, before), last) then [Step(last.time, Total(After(own, b, items)))] else []
  }

  // ----- The loop

  /** What the loop does to a token that counts. */
  lemma CountedStep(own: set<string>, b: Book, t: Transfer, amount: real)
    requires Moves(own, t) && Priced(Known(b, t)[t.key])
    requires amount == Known(b, t)[t.key].amount + if Own(own, t.to) then -t.amount else t.amount
    ensures Counts(own, b, t)
    ensures Undone(own, b, t) == Known(b, t)[t.key := Known(b, t)[t.key].(amount := amount)]
    ensures Total(Undone(own, b, t))
         == Total(b) + (Max(0.0, amount) - Max(0.0, Known(b, t)[t.key].amount)) * Known(b, t)[t.key].price.value
  {
    hide Total, Max, TransferPrice, Moves;
    if t.key !in b {
      NewKeyWeighsNothing(b, t.key, TransferPrice(t));
    }
    ShiftedTotal(Known(b, t), t.key, amount);
  }

  lemma StepsNext(own: set<string>, b: Book, items: seq<Transfer>, i: nat)
    requires i < |items|
    ensures var before := After(own, b, items[..i]);
            && After(own, b, items[..i + 1]) == Undone(own, before, items[i])
            && Steps(own, b, items[..i + 1]) == Steps(own, b, items[..i])
               + if Counts(own, before, items[i]) then [Step(items[i].time, Total(Undone(own, before, items[i])))] else []
  {
    hide Total, Undone, Counts;
    assert items[..i + 1][..i] == items[..i];
  }

  lemma UncountedStep(own: set<string>, b: Book, t: Transfer)
    requires !Counts(own, b, t)
    ensures Undone(own, b, t) == if Moves(own, t) then Known(b, t) else b
    ensures Total(Undone(own, b, t)) == Total(b)
  {
    hide Total, TransferPrice;
    if Moves(own, t) && t.key !in b {
      NewKeyWeighsNothing(b, t.key, TransferPrice(t));
    }
  }

  /** Keeping the total up to date gives the same value at every step as adding up from scratch. */
  method Unwind(own: set<string>, start: Book, items: seq<Transfer>, now: int, startTotal: real) returns (steps: seq<Step>)
    requires startTotal == Total(start)
    ensures steps == [Step(now, Total(start))] + Steps(own, start, items)
  {
    hide Total, Moves, Undone, After, Steps, Own;
    var book, total := start, startTotal;
    steps := [Step(now, total)];
    NoSteps(own, start);
    for i := 0 to |items|
      invariant book == After(own, start, items[..i])
      invariant total == Total(book)
      invariant steps == [Step(now, Total(start))] + Steps(own, start, items[..i])
    {
      var item := items[i];
      ghost var before := book;
      StepsNext(own, start, items, i);
      if !Moves(own, item) {
        UncountedStep(own, before, item);
      } else {
        if item.key !in book {
          book := book[item.key := Holding(0.0, TransferPrice(item))];
        }
        assert book == Known(before, item);
        var entry := book[item.key];
        if entry.price.Some? && entry.price.value != 0.0 {
          var worthBefore := Max(0.0, entry.amount);
          var amount := entry.amount + if Own(own, item.to) then -item.amount else item.amount;
          CountedStep(own, before, item, amount);
          total := total + (Max(0.0, amount) - worthBefore) * entry.price.value;
          book := book[item.key := entry.(amount := amount)];
          steps := steps + [Step(item.time, total)];
        } else {
          UncountedStep(own, before, item);
        }
      }
    }
    assert items[..|items|] == items;
  }

  lemma NoSteps(own: set<string>, b: Book)
    ensures After(own, b, []) == b && Steps(own, b, []) == []
  {
  }

  lemma NewKeyWeighsNothing(b: Book, k: Key, price: Option<real>)
    requires k !in b
    ensures Total(b[k := Holding(0.0, price)]) == Total(b)
  {
    hide Total;
    TotalWith(b, k, Holding(0.0, price));
  }

  lemma ShiftedTotal(b: Book, k: Key, amount: real)
    requires k in b && b[k].price.Some?
    ensures Total(b[k := b[k].(amount := amount)]) == Total(b) + (Max(0.0, amount) - Max(0.0, b[k].amount)) * b[k].price.value
  {
    hide Total, Max;
    var h := b[k].(amount := amount);
    TotalWith(b, k, h);
    Factor(Max(0.0, amount), Max(0.0, b[k].amount), b[k].price.value);
  }

  lemma Factor(x: real, y: real, p: real)
    ensures x * p - y * p == (x - y) * p
  {
  }

  // ----- Today's holdings

  /** address.js: of two assets with one key the later one stands. */
  function OpenBook(assets: seq<Asset>): Book {
    if assets == [] then map[]
    else
      var last := assets[|assets| - 1];
      OpenBook(assets[..|assets| - 1])[last.key := Holding(last.amount, last.price)]
  }

  /** dashboard.js: the amounts of several accounts add up, at the first one's price. */
  function OpenBooks(assets: seq<Asset>): Book {
    if assets == [] then map[]
    else
      var last, before := assets[|assets| - 1], OpenBooks(assets[..|assets| - 1]);
      var entry := if last.key in before then before[last.key] else Holding(0.0, last.price);
      before[last.key := entry.(amount := entry.amount + last.amount)]
  }

  ghost function Amounts(assets: seq<Asset>, k: Key): real {
    if assets == [] then 0.0
    else Amounts(assets[..|assets| - 1], k) + if assets[|assets| - 1].key == k then assets[|assets| - 1].amount else 0.0
  }

  ghost function AmountOf(b: Book, k: Key): real {
    if k in b then b[k].amount else 0.0
  }

  lemma {:induction false} OpenBooksAddUp(assets: seq<Asset>, k: Key)
    ensures AmountOf(OpenBooks(assets), k) == Amounts(assets, k)
  {
    if assets != [] {
      OpenBooksAddUp(assets[..|assets| - 1], k);
    }
  }

  /** Of two assets with one key the last one stands. */
  lemma {:induction false} OpenBookHas(assets: seq<Asset>, i: nat)
    requires i < |assets| && forall j | i < j < |assets| :: assets[j].key != assets[i].key
    ensures assets[i].key in OpenBook(assets)
    ensures OpenBook(assets)[assets[i].key] == Holding(assets[i].amount, assets[i].price)
    decreases |assets|
  {
    if i < |assets| - 1 {
      assert assets[|assets| - 1].key != assets[i].key;
      OpenBookHas(assets[..|assets| - 1], i);
    }
  }

  /** Over several accounts the first one's price stands. */
  lemma {:induction false} OpenBooksPrice(assets: seq<Asset>, i: nat)
    requires i < |assets| && forall j | 0 <= j < i :: assets[j].key != assets[i].key
    ensures assets[i].key in OpenBooks(assets) && OpenBooks(assets)[assets[i].key].price == assets[i].price
    decreases |assets|
  {
    var n := |assets| - 1;
    if i < n {
      OpenBooksPrice(assets[..n], i);
    } else {
      OnlyListedKeys(assets[..n], assets[n].key);
    }
  }

  lemma {:induction false} OnlyListedKeys(assets: seq<Asset>, k: Key)
    requires forall j | 0 <= j < |assets| :: assets[j].key != k
    ensures k !in OpenBooks(assets)
  {
    if assets != [] {
      OnlyListedKeys(assets[..|assets| - 1], k);
    }
  }

  predicate NewestFirst(a: Transfer, b: Transfer) {
    a.time >= b.time
  }

  method SumOfWorths(b: Book) returns (total: real)
    ensures total == Total(b)
  {
    hide Worth;
    total := 0.0;
    var todo := b;
    while todo != map[]
      invariant forall k | k in todo :: k in b && todo[k] == b[k]
      invariant total + Total(todo) == Total(b)
      decreases |todo|
    {
      var k :| k in todo;
      TotalWithout(todo, k);
      assert (todo - {k}).Keys == todo.Keys - {k};
      total := total + Worth(todo[k]);
      todo := todo - {k};
    }
  }

  /** valueSteps: newest first, each value just before its transfer. */
  method ValueSteps(address: string, assets: seq<Asset>, ledger: seq<Transfer>, now: int) returns (steps: seq<Step>)
    ensures steps == [Step(now, Total(OpenBook(assets)))] + Steps({address}, OpenBook(assets), Sort(NewestFirst, ledger))
  {
    var book := OpenBook(assets);
    var total := SumOfWorths(book);
    steps := Unwind({address}, book, Sort(NewestFirst, ledger), now, total);
  }

  /** The unwinding loop of drawDashHistory, over several own accounts. */
  method DashSteps(own: set<string>, assets: seq<Asset>, ledger: seq<Transfer>, now: int) returns (steps: seq<Step>)
    ensures steps == [Step(now, Total(OpenBooks(assets)))] + Steps(own, OpenBooks(assets), Sort(NewestFirst, ledger))
  {
    var book := OpenBooks(assets);
    var total := SumOfWorths(book);
    steps := Unwind(own, book, Sort(NewestFirst, ledger), now, total);
  }

  /** The steps go back in time. */
  lemma {:induction false} StepsGoBack(own: set<string>, b: Book, items: seq<Transfer>, i: nat, j: nat)
    requires Sorted(NewestFirst, items) && i <= j < |Steps(own, b, items)|
    ensures Steps(own, b, items)[i].time >= Steps(own, b, items)[j].time
    ensures items != [] && Steps(own, b, items)[j].time >= items[|items| - 1].time
    decreases |items|
  {
    hide Counts, Total, After;
    var before := items[..|items| - 1];
    if j < |Steps(own, b, before)| {
      StepsGoBack(own, b, before, i, j);
      assert NewestFirst(items[|items| - 2], items[|items| - 1]);
    } else if i < j {
      StepsGoBack(own, b, before, i, i);
      assert NewestFirst(items[|items| - 2], items[|items| - 1]);
    }
  }

  // ----- What a step is worth

  /** A token weighs its amount times its price, and nothing where either is missing or the amount
      is not above zero. */
  lemma OnlyHeldCounts(b: Book, k: Key)
    requires k in b
    ensures Total(b) == Total(b - {k})
            + if b[k].price.Some? && b[k].amount > 0.0 then b[k].amount * b[k].price.value else 0.0
  {
    hide Total;
    TotalWithout(b, k);
  }

  ghost predicate NoNegativePrices(b: Book) {
    forall k | k in b && b[k].price.Some? :: b[k].price.value >= 0.0
  }

  /** Prices, worths and amounts of a transfer as a server reports them: not below zero. */
  ghost predicate NoNegatives(t: Transfer) {
    t.amount >= 0.0 && (t.price.Some? ==> t.price.value >= 0.0) && (t.usd.Some? ==> t.usd.value >= 0.0)
  }

  lemma {:induction false} TotalNotNegative(b: Book)
    requires NoNegativePrices(b)
    ensures Total(b) >= 0.0
    decreases |b|
  {
    hide Total;
    if b == map[] {
      NothingHeld();
    } else {
      var k :| k in b;
      OnlyHeldCounts(b, k);
      TotalNotNegative(b - {k});
      if b[k].price.Some? && b[k].amount > 0.0 {
        NotNegative(b[k].amount, b[k].price.value);
      }
    }
  }

  lemma NothingHeld()
    ensures Total(map[]) == 0.0
  {
  }

  lemma NotNegative(x: real, y: real)
    requires x >= 0.0 && y >= 0.0
    ensures x * y >= 0.0
  {
  }

  /** The price of a token that only a transfer tells of: the one it carries, or else its worth
      divided by its amount where both are there and not zero, or else none. */
  ghost predicate PricedBy(p: Option<real>, t: Transfer) {
    if t.price.Some? then p == t.price
    else if t.usd.None? || t.usd.value == 0.0 || t.amount == 0.0 then p == None
    else p.Some? && p.value * t.amount == t.usd.value
  }

  lemma TransferPriceIs(t: Transfer)
    ensures PricedBy(TransferPrice(t), t)
    ensures NoNegatives(t) && TransferPrice(t).Some? ==> TransferPrice(t).value >= 0.0
  {
    if t.price.None? && TransferPrice(t).Some? {
      QuotientTimes(t.usd.value, t.amount);
      SignOfQuotient(t.usd.value, t.amount);
    }
  }

  lemma QuotientTimes(a: real, b: real)
    requires b != 0.0
    ensures a / b * b == a
  {
  }

  lemma SignOfQuotient(a: real, b: real)
    requires b != 0.0
    ensures a >= 0.0 && b > 0.0 ==> a / b >= 0.0
  {
  }

  lemma {:induction false} PricesStayNotNegative(own: set<string>, b: Book, items: seq<Transfer>)
    requires NoNegativePrices(b) && forall t | t in items :: NoNegatives(t)
    ensures NoNegativePrices(After(own, b, items))
  {
    hide Moves, TransferPrice, NoNegatives;
    if items != [] {
      var before, last := items[..|items| - 1], items[|items| - 1];
      assert last in items && forall t | t in before :: t in items;
      PricesStayNotNegative(own, b, before);
      TransferPriceIs(last);
    }
  }

  /** With no price below zero, the value shown never is, whatever the amounts come to. */
  lemma {:induction false} StepsAreNotNegative(own: set<string>, b: Book, items: seq<Transfer>, i: nat)
    requires NoNegativePrices(b) && forall t | t in items :: NoNegatives(t)
    requires i < |Steps(own, b, items)|
    ensures Steps(own, b, items)[i].value >= 0.0
    decreases |items|
  {
    hide Total, After, Counts, NoNegativePrices, NoNegatives;
    var before := items[..|items| - 1];
    assert forall t | t in before :: t in items;
    if i < |Steps(own, b, before)| {
      StepsAreNotNegative(own, b, before, i);
    } else {
      PricesStayNotNegative(own, b, items);
      TotalNotNegative(After(own, b, items));
    }
  }

  /** The first transfer that moves a token not held today gives it its price for good. */
  lemma {:induction false} PriceOfNewToken(own: set<string>, b: Book, items: seq<Transfer>, i: nat)
    requires i < |items| && Moves(own, items[i]) && items[i].key !in b
    requires forall j | 0 <= j < i && Moves(own, items[j]) :: items[j].key != items[i].key
    ensures items[i].key in After(own, b, items) && PricedBy(After(own, b, items)[items[i].key].price, items[i])
    decreases |items|
  {
    hide Moves, TransferPrice, PricedBy;
    var n := |items| - 1;
    if i < n {
      PriceOfNewToken(own, b, items[..n], i);
    } else {
      NotYetKnown(own, b, items[..n], items[n].key);
      TransferPriceIs(items[n]);
    }
  }

  lemma {:induction false} NotYetKnown(own: set<string>, b: Book, items: seq<Transfer>, k: Key)
    requires k !in b && forall j | 0 <= j < |items| && Moves(own, items[j]) :: items[j].key != k
    ensures k !in After(own, b, items)
  {
    hide Moves, TransferPrice;
    if items != [] {
      NotYetKnown(own, b, items[..|items| - 1], k);
    }
  }

  /** What came in of a token less what went out, over transfers with others. */
  ghost function NetReceived(own: set<string>, items: seq<Transfer>, k: Key): real {
    if items == [] then 0.0
    else
      var last := items[|items| - 1];
      NetReceived(own, items[..|items| - 1], k)
      + if last.key != k || !Moves(own, last) then 0.0
        else if Own(own, last.to) then last.amount else -last.amount
  }

  /** The opening amount of a token is today's without what came in since and with what went out,
      if it has a price; without one its amount is left as it is. */
  lemma {:induction false} OpeningAmount(own: set<string>, b: Book, items: seq<Transfer>, k: Key)
    requires k in After(own, b, items)
    ensures After(own, b, items)[k].amount
         == AmountOf(b, k) - if Priced(After(own, b, items)[k]) then NetReceived(own, items, k) else 0.0
  {
    hide Moves, TransferPrice;
    if items != [] {
      var before, last := items[..|items| - 1], items[|items| - 1];
      if k in After(own, b, before) {
        OpeningAmount(own, b, before, k);
      } else {
        NeverMoved(own, b, before, k);
      }
    }
  }

  lemma {:induction false} NeverMoved(own: set<string>, b: Book, items: seq<Transfer>, k: Key)
    requires k !in After(own, b, items)
    ensures k !in b && NetReceived(own, items, k) == 0.0
  {
    hide Moves, TransferPrice;
    if items != [] {
      NeverMoved(own, b, items[..|items| - 1], k);
    }
  }

  // ----- Forward again

  /** Replaying the transfers oldest first. */
  ghost function Replayed(own: set<string>, b: Book, items: seq<Transfer>): Book
    requires forall t | t in items && Moves(own, t) :: t.key in b
    ensures Replayed(own, b, items).Keys == b.Keys
  {
    if items == [] then b
    else
      var before, last := items[..|items| - 1], items[|items| - 1];
      assert last in items && forall t | t in before :: t in items;
      Replayed(own, Redone(own, b, last), before)
  }

  /** The book with every token of these transfers listed, at least with nothing. */
  ghost function Listed(own: set<string>, b: Book, items: seq<Transfer>): Book {
    if items == [] then b
    else
      var before := Listed(own, b, items[..|items| - 1]);
      if Moves(own, items[|items| - 1]) then Known(before, items[|items| - 1]) else before
  }

  /** Undoing and listing differ in amounts only. */
  ghost predicate SamePrices(a: Book, b: Book) {
    a.Keys == b.Keys && forall k | k in a :: a[k].price == b[k].price
  }

  lemma {:induction false} AfterKeepsPrices(own: set<string>, b: Book, items: seq<Transfer>)
    ensures SamePrices(After(own, b, items), Listed(own, b, items))
    ensures forall t | t in items && Moves(own, t) :: t.key in After(own, b, items)
  {
    hide Moves;
    if items != [] {
      var before, last := items[..|items| - 1], items[|items| - 1];
      AfterKeepsPrices(own, b, before);
      assert items == before + [last];
    }
  }

  lemma RedoneUndone(own: set<string>, b: Book, t: Transfer)
    ensures Moves(own, t) ==> t.key in Undone(own, b, t)
    ensures Redone(own, Undone(own, b, t), t) == if Moves(own, t) then Known(b, t) else b
  {
    hide Moves, Signed, TransferPrice;
    if Counts(own, b, t) {
      var k := Known(b, t);
      var u := Shift(k, t.key, -Signed(own, t));
      assert Known(u, t) == u;
      assert Shift(u, t.key, Signed(own, t)) == k;
    }
  }

  /** Replaying does not look at tokens the transfers do not move, nor at what is listed with nothing. */
  lemma {:induction false} ReplayKnown(own: set<string>, b: Book, items: seq<Transfer>, t: Transfer)
    requires forall s | s in items && Moves(own, s) :: s.key in b
    ensures forall s | s in items && Moves(own, s) :: s.key in Known(b, t)
    ensures Replayed(own, Known(b, t), items) == Known(Replayed(own, b, items), t)
  {
    hide Moves, Signed, TransferPrice;
    if items != [] && t.key !in b {
      var before, last := items[..|items| - 1], items[|items| - 1];
      assert last in items && forall s | s in before :: s in items;
      ReplayKnown(own, Redone(own, b, last), before, t);
      assert Redone(own, Known(b, t), last) == Known(Redone(own, b, last), t);
    }
  }

  /** Undoing all the transfers and replaying them forward from the opening amounts gives back
      today's holdings; tokens only the transfers knew end at nothing. */
  lemma {:induction false} ReplayRestoresToday(own: set<string>, b: Book, items: seq<Transfer>)
    ensures forall t | t in items && Moves(own, t) :: t.key in After(own, b, items)
    ensures Replayed(own, After(own, b, items), items) == Listed(own, b, items)
    decreases |items|
  {
    hide Moves, Counts;
    AfterKeepsPrices(own, b, items);
    if items != [] {
      var before, last := items[..|items| - 1], items[|items| - 1];
      var past := After(own, b, before);
      AfterKeepsPrices(own, b, before);
      ReplayRestoresToday(own, b, before);
      RedoneUndone(own, past, last);
      if Moves(own, last) {
        ReplayKnown(own, past, before, last);
      }
    }
  }

  lemma {:induction false} ListedKeepsToday(own: set<string>, b: Book, items: seq<Transfer>, k: Key)
    ensures k in b ==> k in Listed(own, b, items) && Listed(own, b, items)[k] == b[k]
    ensures k in Listed(own, b, items) && k !in b ==> Listed(own, b, items)[k].amount == 0.0
  {
    if items != [] {
      ListedKeepsToday(own, b, items[..|items| - 1], k);
    }
  }
}
