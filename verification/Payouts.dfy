/** Adding payments up per receiver, as the last loop of settle_epoch in nir/model.py does. */
module Payouts {
  import opened Ordering
  import opened Results
  import opened Sums

  datatype Payment = Payment(receiver: Text, amount: int)

  /** What `p` pays to `c`; to anybody, if `c` is None. */
  function AmountTo(c: Option<Text>, p: Payment): int {
    if c.None? || c.value == p.receiver then p.amount else 0
  }

  ghost function PaidTo(c: Option<Text>, payments: seq<Payment>): int {
    SumBy((p: Payment) => AmountTo(c, p), payments)
  }

  ghost function Receivers(payments: seq<Payment>): set<Text> {
    set p | p in payments :: p.receiver
  }

  /** Each receiver with everything paid to it. */
  ghost function Totals(payments: seq<Payment>): map<Text, int> {
    map c | c in Receivers(payments) :: PaidTo(Some(c), payments)
  }

  lemma ReceiversNext(payments: seq<Payment>, p: Payment)
    ensures Receivers(payments + [p]) == Receivers(payments) + {p.receiver}
  {
    assert p in payments + [p];
    forall q | q in payments ensures q in payments + [p] {
    }
  }

  lemma PaidNext(c: Option<Text>, payments: seq<Payment>, p: Payment)
    ensures PaidTo(c, payments + [p]) == PaidTo(c, payments) + AmountTo(c, p)
  {
    SumByAppend((p: Payment) => AmountTo(c, p), payments, [p]);
  }

  lemma {:induction false} NothingForOthers(c: Text, payments: seq<Payment>)
    requires c !in Receivers(payments)
    ensures PaidTo(Some(c), payments) == 0
  {
    if payments != [] {
      assert payments[0] in payments;
      assert forall p | p in payments[1..] :: p in payments;
      NothingForOthers(c, payments[1..]);
    }
  }

  lemma TotalsNext(payments: seq<Payment>, p: Payment)
    ensures var t := Totals(payments);
            Totals(payments + [p]) == t[p.receiver := (if p.receiver in t then t[p.receiver] else 0) + p.amount]
  {
    var t := Totals(payments);
    ReceiversNext(payments, p);
    forall c | c in Receivers(payments + [p])
      ensures PaidTo(Some(c), payments + [p]) == (if c in t then t[c] else 0) + AmountTo(Some(c), p)
    {
      PaidNext(Some(c), payments, p);
      if c !in t {
        NothingForOthers(c, payments);
      }
    }
  }

  lemma SumNext(payments: seq<Payment>, p: Payment)
    ensures SumMap(Totals(payments + [p])) == SumMap(Totals(payments)) + p.amount
  {
    var t := Totals(payments);
    TotalsNext(payments, p);
    SumMapUpdate(t, p.receiver, (if p.receiver in t then t[p.receiver] else 0) + p.amount);
  }

  /** Nothing paid is lost or counted twice. */
  lemma {:induction false} TotalsAddUp(payments: seq<Payment>)
    ensures SumMap(Totals(payments)) == PaidTo(None, payments)
  {
    if payments == [] {
      assert Totals(payments) == map[];
    } else {
      var before, p := payments[..|payments| - 1], payments[|payments| - 1];
      TotalsAddUp(before);
      SumNext(before, p);
      PaidNext(None, before, p);
      assert payments == before + [p];
    }
  }

  method AddUp(receivers: seq<Text>, amounts: array<int>, ghost payments: seq<Payment>) returns (rewards: map<Text, int>)
    requires |receivers| == amounts.Length == |payments|
    requires forall i | 0 <= i < |payments| :: payments[i] == Payment(receivers[i], amounts[i])
    ensures rewards == Totals(payments)
  {
    hide PaidTo;
    rewards := map[];
    for i := 0 to |receivers|
      invariant rewards == Totals(payments[..i])
    {
      TotalsNext(payments[..i], payments[i]);
      assert payments[..i + 1] == payments[..i] + [payments[i]];
      var c := receivers[i];
      rewards := rewards[c := (if c in rewards then rewards[c] else 0) + amounts[i]];
    }
    assert payments[..|payments|] == payments;
  }
}
