/** nir/model.py: what settlements have in common, whatever the order of their proofs and epochs. */
module EmissionRuns {
  import opened Ordering
  import opened Results
  import opened Sums
  import opened Arithmetic
  import opened Halving
  import opened Emission
  import opened EmissionShares
  import opened EmissionLedgers
  import Utf8

  // ----- The order of the proofs in one settlement

  predicate Passes(h: Digest, accepted: set<Text>, p: ProgressProof) {
    Valid(p) && Utf8.Encodable(FingerprintText(p)) && Fingerprint(h, p) !in accepted && Score(p) > 0
  }

  /** A list of proofs is refused for what is in it, not for how it is ordered. */
  lemma PassesTogether(h: Digest, accepted: set<Text>, proofs: seq<ProgressProof>)
    ensures FirstProblem(h, accepted, proofs, |proofs|) == None
        <==> (forall p | p in proofs :: Passes(h, accepted, p)) && Distinct(FingerprintList(h, proofs))
  {
    hide FirstProblem;
    NoProblem(h, accepted, proofs, |proofs|);
    if FirstProblem(h, accepted, proofs, |proofs|) == None {
      PassedAreNew(h, accepted, proofs);
      forall i | 0 <= i < |proofs| ensures Passes(h, accepted, proofs[i]) {
        assert Problem(h, accepted, proofs, i) == None;
      }
    }
    if (forall p | p in proofs :: Passes(h, accepted, p)) && Distinct(FingerprintList(h, proofs)) {
      forall i | 0 <= i < |proofs| ensures Problem(h, accepted, proofs, i) == None {
        assert proofs[i] in proofs;
        forall j | 0 <= j < i ensures Fingerprint(h, proofs[j]) != Fingerprint(h, proofs[i]) {
          assert FingerprintList(h, proofs)[j] != FingerprintList(h, proofs)[i];
        }
      }
    }
  }

  lemma SameProofs(h: Digest, a: seq<ProgressProof>, b: seq<ProgressProof>)
    requires multiset(a) == multiset(b)
    ensures |a| == |b| && forall p :: p in a <==> p in b
    ensures Distinct(FingerprintList(h, a)) <==> Distinct(FingerprintList(h, b))
    ensures Fingerprints(h, a) == Fingerprints(h, b)
  {
    assert |multiset(a)| == |multiset(b)|;
    forall p ensures p in a <==> p in b {
      assert p in multiset(a) <==> p in multiset(b);
    }
    MapPermutes((p: ProgressProof) => Fingerprint(h, p), a, b);
    DistinctCount(FingerprintList(h, a));
    DistinctCount(FingerprintList(h, b));
  }

  function EntryFor(p: ProgressProof): Entry {
    if Valid(p) then EntryOf(p) else Entry([], 0)
  }

  lemma EntriesPermute(a: seq<ProgressProof>, b: seq<ProgressProof>)
    requires multiset(a) == multiset(b) && (forall p | p in a :: Valid(p)) && forall p | p in b :: Valid(p)
    ensures multiset(EntriesOf(a)) == multiset(EntriesOf(b))
  {
    MapPermutes(EntryFor, a, b);
    assert EntriesOf(a) == Map(EntryFor, a) && EntriesOf(b) == Map(EntryFor, b);
  }

  lemma SamePayout(h: Digest, accepted: set<Text>, a: seq<ProgressProof>, b: seq<ProgressProof>, budget: nat)
    requires multiset(a) == multiset(b) && a != []
    requires FirstProblem(h, accepted, a, |a|) == None && FirstProblem(h, accepted, b, |b|) == None
    ensures Payout(a, budget) == Payout(b, budget)
  {
    hide FirstProblem, Rewards;
    PassesTogether(h, accepted, a);
    PassesTogether(h, accepted, b);
    ScoredWhenSound(h, accepted, a, EntriesOf(a));
    EntriesPermute(a, b);
    OrderOfProofsIsIrrelevant(EntriesOf(a), EntriesOf(b), budget);
  }

  /** The same proofs in another order: both settlements are refused, or both give the same state
      and the same rewards. */
  lemma OrderInSettlementIsIrrelevant(h: Digest, reward: nat, s: State, epoch: int, a: seq<ProgressProof>, b: seq<ProgressProof>)
    requires multiset(a) == multiset(b)
    ensures Settle(h, reward, s, epoch, a).state == Settle(h, reward, s, epoch, b).state
    ensures Settle(h, reward, s, epoch, a).outcome.Success? <==> Settle(h, reward, s, epoch, b).outcome.Success?
    ensures Settle(h, reward, s, epoch, a).outcome.Success? ==>
              Settle(h, reward, s, epoch, a).outcome == Settle(h, reward, s, epoch, b).outcome
  {
    hide FirstProblem, Payout, Fingerprints, FingerprintList, Passes;
    SameProofs(h, a, b);
    PassesTogether(h, s.accepted, a);
    PassesTogether(h, s.accepted, b);
    if a != [] && FirstProblem(h, s.accepted, a, |a|) == None && epoch >= 0 && Budget(reward, s.mined, epoch) > 0 {
      SamePayout(h, s.accepted, a, b, Budget(reward, s.mined, epoch));
    }
  }

  // ----- Two works with one fingerprint text

  /** Of two proofs with the same fingerprint text the ledger pays one: together they are refused,
      and after the one was paid the other is, whenever it comes. */
  lemma TwinIsRefused(h: Digest, reward: nat, s: State, epoch: nat, later: int, p: ProgressProof, q: ProgressProof)
    requires Passes(h, s.accepted, p) && Valid(q) && FingerprintText(q) == FingerprintText(p)
    ensures Settle(h, reward, s, epoch, [p, q]).outcome == Failure(DuplicateInEpoch)
    ensures Budget(reward, s.mined, epoch) > 0 ==>
              var paid := Settle(h, reward, s, epoch, [p]);
              && paid.outcome.Success? && paid.state != s
              && Settle(h, reward, paid.state, later, [q]).outcome == Failure(AlreadyRewarded)
  {
    hide Payout;
    assert Fingerprint(h, q) == Fingerprint(h, p);
    assert [p, q][0] == p && SeenBefore(h, [p, q], 1);
    assert Problem(h, s.accepted, [p, q], 0) == None;
    assert Problem(h, s.accepted, [p, q], 1) == Some(DuplicateInEpoch);
    assert FirstProblem(h, s.accepted, [p, q], 1) == None;
    assert FirstProblem(h, s.accepted, [p, q], 2) == Some(DuplicateInEpoch);
    assert Problem(h, s.accepted, [p], 0) == None && FirstProblem(h, s.accepted, [p], 1) == None;
    if Budget(reward, s.mined, epoch) > 0 {
      var after := Settle(h, reward, s, epoch, [p]).state;
      assert p in [p] && Fingerprint(h, p) in Fingerprints(h, [p]);
      assert after == State(s.mined + Budget(reward, s.mined, epoch), s.accepted + Fingerprints(h, [p]));
      assert !SeenBefore(h, [q], 0);
      assert Problem(h, after.accepted, [q], 0) == Some(AlreadyRewarded);
      assert FirstProblem(h, after.accepted, [q], 1) == Some(AlreadyRewarded);
    }
  }

  /** There are two such works, so the second of them is never rewarded. */
  lemma AWorkGoesUnrewarded(h: Digest, reward: nat, s: State, epoch: nat, later: int) returns (p: ProgressProof, q: ProgressProof)
    ensures !SameWork(p, q) && Valid(q)
    ensures Budget(reward, s.mined, epoch) > 0 && Fingerprint(h, p) !in s.accepted ==>
              var paid := Settle(h, reward, s, epoch, [p]);
              paid.outcome.Success? && Settle(h, reward, paid.state, later, [q]).outcome == Failure(AlreadyRewarded)
  {
    p, q := TwoWorksOneText();
    if Fingerprint(h, p) !in s.accepted {
      TwinIsRefused(h, reward, s, epoch, later, p, q);
    }
  }

  // ----- Every epoch once, in any order

  ghost function Budgets(reward: nat, epochs: set<nat>): map<nat, int> {
    map e | e in epochs :: EpochBudget(e, reward)
  }

  lemma BudgetsWithout(reward: nat, epochs: set<nat>, e: nat)
    requires e in epochs
    ensures SumMap(Budgets(reward, epochs)) == EpochBudget(e, reward) + SumMap(Budgets(reward, epochs - {e}))
  {
    SumMapRemove(Budgets(reward, epochs), e);
    assert Budgets(reward, epochs) - {e} == Budgets(reward, epochs - {e});
  }

  /** Different epochs below `n` never have more to give than all epochs below `n` together. */
  lemma {:induction false} BudgetsAreScheduled(reward: nat, epochs: set<nat>, n: nat)
    requires forall e | e in epochs :: e < n
    ensures SumMap(Budgets(reward, epochs)) <= Scheduled(reward, n)
    ensures (forall e: nat | e < n :: e in epochs) ==> SumMap(Budgets(reward, epochs)) == Scheduled(reward, n)
  {
    if n == 0 {
      assert epochs == {} && Budgets(reward, epochs) == map[];
    } else if n - 1 in epochs {
      BudgetsWithout(reward, epochs, n - 1);
      BudgetsAreScheduled(reward, epochs - {n - 1}, n - 1);
    } else {
      BudgetsAreScheduled(reward, epochs, n - 1);
    }
  }

  lemma {:induction false} BudgetsGrow(reward: nat, some: set<nat>, all: set<nat>)
    requires some <= all
    ensures SumMap(Budgets(reward, some)) <= SumMap(Budgets(reward, all))
    decreases |all|
  {
    if some != all {
      var e :| e in all && e !in some;
      BudgetsWithout(reward, all, e);
      BudgetsGrow(reward, some, all - {e});
    }
  }

  lemma {:induction false} Bounded(epochs: set<nat>) returns (n: nat)
    ensures forall e | e in epochs :: e < n
  {
    if epochs == {} {
      n := 0;
    } else {
      var e :| e in epochs;
      var m := Bounded(epochs - {e});
      n := Max(m, e + 1);
      forall x | x in epochs ensures x < n {
        assert x == e || x in epochs - {e};
      }
    }
  }

  /** The budgets of different epochs fit the pool at the default reward, and those of the first 33
      eras, with or without later ones, are the pool less 9 * 210,000 atomic units. */
  lemma DefaultBudgets(epochs: set<nat>)
    ensures SumMap(Budgets(INITIAL_EPOCH_REWARD, epochs)) <= MINING_POOL - 9 * HALVING_INTERVAL
    ensures (forall e: nat | e < 33 * HALVING_INTERVAL :: e in epochs) ==>
              SumMap(Budgets(INITIAL_EPOCH_REWARD, epochs)) == MINING_POOL - 9 * HALVING_INTERVAL
  {
    var last := 33 * HALVING_INTERVAL;
    var n := Bounded(epochs);
    BudgetsAreScheduled(INITIAL_EPOCH_REWARD, epochs, n);
    DefaultRewardBits();
    ScheduledTotal(INITIAL_EPOCH_REWARD, n);
    if forall e: nat | e < last :: e in epochs {
      var first := set e | e in epochs && e < last;
      BudgetsAreScheduled(INITIAL_EPOCH_REWARD, first, last);
      BudgetsGrow(INITIAL_EPOCH_REWARD, first, epochs);
      DefaultScheduleIssues(last);
    }
  }

  ghost function Epochs(calls: seq<Call>): set<nat> {
    set c | c in calls && c.epoch >= 0 :: c.epoch as nat
  }

  /** Every call has proofs and passes its checks, and no epoch comes twice. */
  ghost predicate EachOnce(h: Digest, reward: nat, calls: seq<Call>) {
    && (forall i | 0 <= i < |calls| ::
          calls[i].proofs != [] && Refusal(h, After(h, reward, State(0, {}), calls[..i]), calls[i].epoch, calls[i].proofs) == None)
    && (forall i, j | 0 <= i < j < |calls| :: calls[i].epoch != calls[j].epoch)
  }

  lemma EachOnceBefore(h: Digest, reward: nat, calls: seq<Call>)
    requires EachOnce(h, reward, calls) && calls != []
    ensures EachOnce(h, reward, calls[..|calls| - 1])
    ensures var e := calls[|calls| - 1].epoch; e >= 0 && e !in Epochs(calls[..|calls| - 1]) && Epochs(calls) == Epochs(calls[..|calls| - 1]) + {e}
  {
    hide Refusal, After;
    var before, last := calls[..|calls| - 1], calls[|calls| - 1];
    forall i | 0 <= i < |before| ensures before[..i] == calls[..i] && before[i] == calls[i] {
    }
    assert last in calls && forall c | c in before :: c in calls;
    assert Refusal(h, After(h, reward, State(0, {}), before), last.epoch, last.proofs) == None;
    NotNegative(h, After(h, reward, State(0, {}), before), last.epoch, last.proofs);
  }

  lemma NotNegative(h: Digest, s: State, epoch: int, proofs: seq<ProgressProof>)
    requires proofs != [] && Refusal(h, s, epoch, proofs) == None
    ensures epoch >= 0
  {
  }

  /** What a ledger at the default reward mines over different epochs, in whatever order they are
      settled, is the sum of their budgets: what is left of the pool never limits one of them. */
  lemma {:induction false} EpochsAreMinedInFull(h: Digest, calls: seq<Call>)
    requires EachOnce(h, INITIAL_EPOCH_REWARD, calls)
    ensures After(h, INITIAL_EPOCH_REWARD, State(0, {}), calls).mined == SumMap(Budgets(INITIAL_EPOCH_REWARD, Epochs(calls)))
  {
    var reward, start := INITIAL_EPOCH_REWARD, State(0, {});
    if calls == [] {
      assert Budgets(reward, Epochs(calls)) == map[];
    } else {
      var before, last := calls[..|calls| - 1], calls[|calls| - 1];
      EachOnceBefore(h, reward, calls);
      EpochsAreMinedInFull(h, before);
      assert Epochs(calls) - {last.epoch as nat} == Epochs(before);
      BudgetsWithout(reward, Epochs(calls), last.epoch);
      DefaultBudgets(Epochs(calls));
      assert calls[..|calls| - 1] == before;
      MinesItsBudget(h, reward, After(h, reward, start, before), last);
    }
  }

  lemma MinesItsBudget(h: Digest, reward: nat, s: State, c: Call)
    requires c.proofs != [] && Refusal(h, s, c.epoch, c.proofs) == None && c.epoch >= 0
    requires s.mined + EpochBudget(c.epoch, reward) <= MINING_POOL
    ensures Settle(h, reward, s, c.epoch, c.proofs).state.mined == s.mined + EpochBudget(c.epoch, reward)
  {
  }

  /** Settling every epoch of the schedule once, in any order, leaves exactly 9 * 210,000 atomic
      units of the mining pool unissued for ever. */
  lemma ScheduleIsIssued(h: Digest, calls: seq<Call>)
    requires EachOnce(h, INITIAL_EPOCH_REWARD, calls)
    ensures TotalPaid(h, INITIAL_EPOCH_REWARD, State(0, {}), calls) <= MINING_POOL - 9 * HALVING_INTERVAL
    ensures (forall e: nat | e < 33 * HALVING_INTERVAL :: e in Epochs(calls)) ==>
              TotalPaid(h, INITIAL_EPOCH_REWARD, State(0, {}), calls) == MINING_POOL - 9 * HALVING_INTERVAL
  {
    hide EachOnce, After, TotalPaid, Epochs;
    IssuanceStaysUnderCap(h, INITIAL_EPOCH_REWARD, calls);
    EpochsAreMinedInFull(h, calls);
    DefaultBudgets(Epochs(calls));
  }

  // ----- Such schedules exist

  /** Proof `i` is about an artifact of i + 1 letters. */
  function NthProof(i: nat): ProgressProof {
    SampleProof(Work(seq(i + 1, _ => 65), [66], [67]))
  }

  function NthCall(i: nat): Call {
    Call(i, [NthProof(i)])
  }

  function FirstCalls(n: nat): (calls: seq<Call>)
    ensures |calls| == n && forall i | 0 <= i < n :: calls[i] == NthCall(i)
  {
    seq(n, i requires 0 <= i < n => NthCall(i))
  }

  ghost predicate TellsApart(h: Digest, n: nat) {
    forall i, j | 0 <= i < j < n :: Fingerprint(h, NthProof(i)) != Fingerprint(h, NthProof(j))
  }

  lemma NthProofIsGood(i: nat)
    ensures Valid(NthProof(i)) && Score(NthProof(i)) > 0 && Utf8.Encodable(FingerprintText(NthProof(i)))
    ensures |FingerprintText(NthProof(i))| == i + 5
  {
    var p := NthProof(i);
    assert !IsSpace(65) && !IsSpace(66) && !IsSpace(67) && !IsSpace(109);
    assert p.contributor[0] == 109 && p.artifactHash[0] == 65 && p.baselineHash[0] == 66 && p.evaluationFamily[0] == 67;
  }

  lemma {:induction false} AcceptedSoFar(h: Digest, reward: nat, n: nat, m: nat)
    requires n <= m
    ensures forall f | f in After(h, reward, State(0, {}), FirstCalls(m)[..n]).accepted :: exists i :: 0 <= i < n && f == Fingerprint(h, NthProof(i))
  {
    var calls := FirstCalls(m)[..n];
    if n > 0 {
      AcceptedSoFar(h, reward, n - 1, m);
      assert calls[..n - 1] == FirstCalls(m)[..n - 1];
      var before := After(h, reward, State(0, {}), calls[..n - 1]);
      assert calls[n - 1] == NthCall(n - 1);
      hide NthProof, Fingerprint, Refusal, Payout;
      AcceptsOne(h, reward, before, n - 1, NthProof(n - 1));
    }
  }

  lemma AcceptsOne(h: Digest, reward: nat, s: State, epoch: int, p: ProgressProof)
    ensures Settle(h, reward, s, epoch, [p]).state.accepted <= s.accepted + {Fingerprint(h, p)}
  {
  }

  /** For every number of epochs, and every hash that tells these proofs apart, there are calls that
      settle each epoch once: the results on schedules are about something. */
  lemma SchedulesExist(h: Digest, reward: nat, n: nat)
    requires TellsApart(h, n)
    ensures EachOnce(h, reward, FirstCalls(n)) && forall e: nat | e < n :: e in Epochs(FirstCalls(n))
  {
    var calls := FirstCalls(n);
    hide After, Refusal, Fingerprint, FirstCalls, NthProof;
    forall i | 0 <= i < n
      ensures calls[i].proofs != [] && Refusal(h, After(h, reward, State(0, {}), calls[..i]), calls[i].epoch, calls[i].proofs) == None
    {
      AcceptedSoFar(h, reward, i, n);
      OneIsAccepted(h, After(h, reward, State(0, {}), calls[..i]), i);
    }
    forall e: nat | e < n ensures e in Epochs(calls) {
      assert calls[e] in calls;
    }
  }

  lemma OneIsAccepted(h: Digest, s: State, i: nat)
    requires Fingerprint(h, NthProof(i)) !in s.accepted
    ensures Refusal(h, s, i, [NthProof(i)]) == None
  {
    NthProofIsGood(i);
    NoProblem(h, s.accepted, [NthProof(i)], 1);
    hide NthProof, Valid, Score, FirstProblem;
  }

  /** With the texts themselves for hashes, all proofs are told apart. */
  lemma TextsTellApart(n: nat)
    ensures TellsApart((t: Text) => t, n)
  {
    forall i, j | 0 <= i < j < n ensures FingerprintText(NthProof(i)) != FingerprintText(NthProof(j)) {
      NthProofIsGood(i);
      NthProofIsGood(j);
    }
  }
}
