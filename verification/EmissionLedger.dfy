/** nir/model.py: the ledger that settles epochs of progress proofs. */
module EmissionLedgers {
  import opened Ordering
  import opened Results
  import opened Sums
  import opened Arithmetic
  import opened Emission
  import opened EmissionShares
  import Utf8

  datatype LedgerError =
    | InvalidReward | InvalidProof | Unencodable | DuplicateInEpoch | AlreadyRewarded | NonPositiveScore | NegativeEpoch

  /** SHA-256 of the UTF-8 bytes of a text. */
  type Digest = Text -> Text

  function Fingerprint(h: Digest, p: ProgressProof): Text {
    h(FingerprintText(p))
  }

  function EntryOf(p: ProgressProof): Entry
    requires Valid(p)
  {
    Entry(p.contributor, Score(p))
  }

  // ----- What one call checks

  ghost predicate SeenBefore(h: Digest, proofs: seq<ProgressProof>, i: nat)
    requires i < |proofs|
  {
    exists j :: 0 <= j < i && Fingerprint(h, proofs[j]) == Fingerprint(h, proofs[i])
  }

  /** What is wrong with proof `i`, the checks in the order the code makes them. */
  ghost function Problem(h: Digest, accepted: set<Text>, proofs: seq<ProgressProof>, i: nat): Option<LedgerError>
    requires i < |proofs|
  {
    var p := proofs[i];
    if !Valid(p) then Some(InvalidProof)
    else if !Utf8.Encodable(FingerprintText(p)) then Some(Unencodable)
    else if SeenBefore(h, proofs, i) then Some(DuplicateInEpoch)
    else if Fingerprint(h, p) in accepted then Some(AlreadyRewarded)
    else if Score(p) == 0 then Some(NonPositiveScore)
    else None
  }

  /** The problem of the first proof that has one, among the first `n`. */
  ghost function FirstProblem(h: Digest, accepted: set<Text>, proofs: seq<ProgressProof>, n: nat): Option<LedgerError>
    requires n <= |proofs|
  {
    if n == 0 then None
    else if FirstProblem(h, accepted, proofs, n - 1).Some? then FirstProblem(h, accepted, proofs, n - 1)
    else Problem(h, accepted, proofs, n - 1)
  }

  lemma {:induction false} NoProblem(h: Digest, accepted: set<Text>, proofs: seq<ProgressProof>, n: nat)
    requires n <= |proofs|
    ensures FirstProblem(h, accepted, proofs, n) == None <==> forall i | 0 <= i < n :: Problem(h, accepted, proofs, i) == None
  {
    if n > 0 {
      NoProblem(h, accepted, proofs, n - 1);
    }
  }

  ghost function Fingerprints(h: Digest, proofs: seq<ProgressProof>): set<Text> {
    set p | p in proofs :: Fingerprint(h, p)
  }

  ghost predicate Scores(scored: seq<Entry>, proofs: seq<ProgressProof>) {
    |scored| == |proofs| && forall i | 0 <= i < |proofs| :: Valid(proofs[i]) && scored[i] == EntryOf(proofs[i])
  }

  ghost function EntriesOf(proofs: seq<ProgressProof>): (scored: seq<Entry>)
    requires forall p | p in proofs :: Valid(p)
    ensures Scores(scored, proofs)
  {
    seq(|proofs|, i requires 0 <= i < |proofs| => EntryOf(proofs[i]))
  }

  // ----- One settlement as a step of the state

  datatype State = State(mined: nat, accepted: set<Text>)

  ghost function Budget(reward: nat, mined: nat, epoch: int): int
  {
    if epoch < 0 then 0 else Min(EpochBudget(epoch, reward), MINING_POOL - mined)
  }

  datatype Settlement = Settlement(state: State, outcome: Result<map<Text, int>, LedgerError>)

  /** The error the call raises, if any; nothing is checked when there are no proofs. */
  ghost function Refusal(h: Digest, s: State, epoch: int, proofs: seq<ProgressProof>): Option<LedgerError> {
    if proofs == [] then None
    else if FirstProblem(h, s.accepted, proofs, |proofs|).Some? then FirstProblem(h, s.accepted, proofs, |proofs|)
    else if epoch < 0 then Some(NegativeEpoch)
    else None
  }

  /** What is paid for proofs that passed every check. */
  ghost function Payout(proofs: seq<ProgressProof>, budget: nat): map<Text, int> {
    if forall p | p in proofs :: Valid(p) then Rewards(EntriesOf(proofs), budget) else map[]
  }

  ghost function Settle(h: Digest, reward: nat, s: State, epoch: int, proofs: seq<ProgressProof>): Settlement {
    var refusal := Refusal(h, s, epoch, proofs);
    if refusal.Some? then Settlement(s, Failure(refusal.value))
    else if proofs == [] || Budget(reward, s.mined, epoch) <= 0 then Settlement(s, Success(map[]))
    else
      var budget := Budget(reward, s.mined, epoch);
      Settlement(State(s.mined + budget, s.accepted + Fingerprints(h, proofs)), Success(Payout(proofs, budget)))
  }

  lemma PayoutIsRewards(scored: seq<Entry>, proofs: seq<ProgressProof>, budget: nat)
    requires Scores(scored, proofs)
    ensures Payout(proofs, budget) == Rewards(scored, budget)
  {
    assert scored == EntriesOf(proofs);
  }

  lemma ScoredWhenSound(h: Digest, accepted: set<Text>, proofs: seq<ProgressProof>, scored: seq<Entry>)
    requires proofs != [] && FirstProblem(h, accepted, proofs, |proofs|) == None && Scores(scored, proofs)
    ensures Scored(scored)
  {
    NoProblem(h, accepted, proofs, |proofs|);
    forall i | 0 <= i < |proofs| ensures scored[i].score > 0 {
      assert Problem(h, accepted, proofs, i) == None;
    }
  }

  lemma PayoutAddsUp(h: Digest, accepted: set<Text>, proofs: seq<ProgressProof>, budget: nat)
    requires proofs != [] && FirstProblem(h, accepted, proofs, |proofs|) == None
    ensures SumMap(Payout(proofs, budget)) == budget
  {
    NoProblem(h, accepted, proofs, |proofs|);
    forall i | 0 <= i < |proofs| ensures Valid(proofs[i]) {
      assert Problem(h, accepted, proofs, i) == None;
    }
    ScoredWhenSound(h, accepted, proofs, EntriesOf(proofs));
    RewardsAddUp(EntriesOf(proofs), budget);
  }

  ghost predicate Capped(s: State) {
    s.mined <= MINING_POOL
  }

  /** What the ledger records is what it pays, and it never runs over the pool. */
  lemma SettlementPaysWhatItMines(h: Digest, reward: nat, s: State, epoch: int, proofs: seq<ProgressProof>)
    requires Capped(s)
    ensures var t := Settle(h, reward, s, epoch, proofs);
            && Capped(t.state)
            && (t.outcome.Success? ==> t.state.mined == s.mined + SumMap(t.outcome.value))
            && (t.outcome.Failure? ==> t.state == s)
  {
    if proofs != [] && Refusal(h, s, epoch, proofs) == None && Budget(reward, s.mined, epoch) > 0 {
      PayoutAddsUp(h, s.accepted, proofs, Budget(reward, s.mined, epoch));
    }
  }

  // ----- The ledger

  class EmissionLedger {
    const h: Digest
    const initialReward: nat
    var treasuryLocked: int
    var mined: nat
    var accepted: set<Text>

    ghost predicate Valid()
      reads this
    {
      0 < initialReward <= MAX_SUPPLY && treasuryLocked == TREASURY_ALLOCATION && Capped(Now())
    }

    ghost function Now(): State
      reads this
    {
      State(mined, accepted)
    }

    function Issued(): (r: int)
      reads this
      ensures Valid() ==> TREASURY_ALLOCATION <= r <= MAX_SUPPLY
    {
      treasuryLocked + mined
    }

    constructor (h: Digest, initialReward: nat)
      requires 0 < initialReward <= MAX_SUPPLY
      ensures Valid() && this.h == h && this.initialReward == initialReward
      ensures Now() == State(0, {})
    {
      this.h := h;
      this.initialReward := initialReward;
      treasuryLocked := TREASURY_ALLOCATION;
      mined := 0;
      accepted := {};
    }

    static method Open(h: Digest, initialReward: int) returns (r: Result<EmissionLedger, LedgerError>)
      ensures r.Success? <==> 0 < initialReward <= MAX_SUPPLY
      ensures r.Success? ==> fresh(r.value) && r.value.Valid() && r.value.initialReward == initialReward && r.value.Now() == State(0, {})
      ensures r.Failure? ==> r.error == InvalidReward
    {
      if initialReward <= 0 || initialReward > MAX_SUPPLY {
        return Failure(InvalidReward);
      }
      var ledger := new EmissionLedger(h, initialReward);
      return Success(ledger);
    }

    /** The checks settle_epoch makes on one proof, given the fingerprints of those before it. */
    method CheckProof(ghost proofs: seq<ProgressProof>, ghost i: nat, p: ProgressProof, seen: set<Text>)
      returns (r: Result<nat, LedgerError>)
      requires i < |proofs| && p == proofs[i] && seen == Fingerprints(h, proofs[..i])
      ensures r.Failure? ==> Problem(h, accepted, proofs, i) == Some(r.error)
      ensures r.Success? ==> Problem(h, accepted, proofs, i) == None && r.value == Score(p)
    {
      SeenIsMember(h, proofs, i);
      if !Emission.Valid(p) {
        return Failure(InvalidProof);
      }
      if !Utf8.Encodable(FingerprintText(p)) {
        return Failure(Unencodable);
      }
      var fingerprint := Fingerprint(h, p);
      if fingerprint in seen {
        return Failure(DuplicateInEpoch);
      }
      if fingerprint in accepted {
        return Failure(AlreadyRewarded);
      }
      var score := Score(p);
      if score <= 0 {
        return Failure(NonPositiveScore);
      }
      return Success(score);
    }

    method CheckProofs(proofs: seq<ProgressProof>) returns (r: Result<seq<Entry>, LedgerError>, seen: set<Text>)
      ensures r.Failure? ==> FirstProblem(h, accepted, proofs, |proofs|) == Some(r.error)
      ensures r.Success? ==> FirstProblem(h, accepted, proofs, |proofs|) == None && Scores(r.value, proofs)
      ensures r.Success? ==> seen == Fingerprints(h, proofs)
    {
      seen := {};
      var scored: seq<Entry> := [];
      for i := 0 to |proofs|
        invariant FirstProblem(h, accepted, proofs, i) == None
        invariant Scores(scored, proofs[..i])
        invariant seen == Fingerprints(h, proofs[..i])
      {
        var p := proofs[i];
        var score := CheckProof(proofs, i, p, seen);
        if score.Failure? {
          FirstProblemStays(h, accepted, proofs, i + 1, |proofs|);
          return Failure(score.error), seen;
        }
        assert proofs[..i + 1] == proofs[..i] + [p];
        FingerprintsNext(h, proofs[..i], p);
        seen := seen + {Fingerprint(h, p)};
        scored := scored + [Entry(p.contributor, score.value)];
      }
      assert proofs[..|proofs|] == proofs;
      return Success(scored), seen;
    }

    method SettleEpoch(epoch: int, proofs: seq<ProgressProof>) returns (r: Result<map<Text, int>, LedgerError>)
      requires Valid()
      modifies this
      ensures Valid()
      ensures Settlement(Now(), r) == Settle(h, initialReward, old(Now()), epoch, proofs)
      ensures Issued() == old(Issued()) + if r.Success? then SumMap(r.value) else 0
    {
      hide Payout, Rewards, Fingerprints, FirstProblem, Scores, Scored;
      SettlementPaysWhatItMines(h, initialReward, Now(), epoch, proofs);
      if proofs == [] {
        return Success(map[]);
      }
      var checked, seen := CheckProofs(proofs);
      if checked.Failure? {
        return Failure(checked.error);
      }
      if epoch < 0 {
        return Failure(NegativeEpoch);
      }
      var budget := Min(EpochBudget(epoch, initialReward), MINING_POOL - mined);
      if budget <= 0 {
        return Success(map[]);
      }
      ScoredWhenSound(h, accepted, proofs, checked.value);
      PayoutIsRewards(checked.value, proofs, budget);
      var rewards := Distribute(checked.value, budget);
      mined := mined + budget;
      accepted := accepted + seen;
      return Success(rewards);
    }
  }

  lemma FingerprintsNext(h: Digest, proofs: seq<ProgressProof>, p: ProgressProof)
    ensures Fingerprints(h, proofs + [p]) == Fingerprints(h, proofs) + {Fingerprint(h, p)}
  {
    assert p in proofs + [p];
    forall q | q in proofs ensures q in proofs + [p] {
    }
  }

  lemma SeenIsMember(h: Digest, proofs: seq<ProgressProof>, i: nat)
    requires i < |proofs|
    ensures SeenBefore(h, proofs, i) <==> Fingerprint(h, proofs[i]) in Fingerprints(h, proofs[..i])
  {
    if Fingerprint(h, proofs[i]) in Fingerprints(h, proofs[..i]) {
      var p :| p in proofs[..i] && Fingerprint(h, p) == Fingerprint(h, proofs[i]);
      var j :| 0 <= j < i && proofs[j] == p;
    }
    if SeenBefore(h, proofs, i) {
      var j :| 0 <= j < i && Fingerprint(h, proofs[j]) == Fingerprint(h, proofs[i]);
      assert proofs[j] in proofs[..i];
    }
  }

  lemma {:induction false} FirstProblemStays(h: Digest, accepted: set<Text>, proofs: seq<ProgressProof>, n: nat, m: nat)
    requires n <= m <= |proofs| && FirstProblem(h, accepted, proofs, n).Some?
    ensures FirstProblem(h, accepted, proofs, m) == FirstProblem(h, accepted, proofs, n)
    decreases m
  {
    if n < m {
      FirstProblemStays(h, accepted, proofs, n, m - 1);
    }
  }

  // ----- Any run of settlements

  datatype Call = Call(epoch: int, proofs: seq<ProgressProof>)

  ghost function After(h: Digest, reward: nat, s: State, calls: seq<Call>): State {
    if calls == [] then s
    else
      var last := calls[|calls| - 1];
      Settle(h, reward, After(h, reward, s, calls[..|calls| - 1]), last.epoch, last.proofs).state
  }

  /** Everything the calls paid, whatever they were. */
  ghost function TotalPaid(h: Digest, reward: nat, s: State, calls: seq<Call>): int {
    if calls == [] then 0
    else
      var before, last := calls[..|calls| - 1], calls[|calls| - 1];
      var outcome := Settle(h, reward, After(h, reward, s, before), last.epoch, last.proofs).outcome;
      TotalPaid(h, reward, s, before) + if outcome.Success? then SumMap(outcome.value) else 0
  }

  ghost predicate Pays(h: Digest, reward: nat, s: State, call: Call) {
    var outcome := Settle(h, reward, s, call.epoch, call.proofs).outcome;
    outcome.Success? && SumMap(outcome.value) > 0
  }

  ghost function FingerprintList(h: Digest, proofs: seq<ProgressProof>): seq<Text> {
    Map((p: ProgressProof) => Fingerprint(h, p), proofs)
  }

  /** The fingerprints of all proofs that were paid for, in the order of payment. */
  ghost function PaidFingerprints(h: Digest, reward: nat, s: State, calls: seq<Call>): seq<Text> {
    if calls == [] then []
    else
      var before, last := calls[..|calls| - 1], calls[|calls| - 1];
      PaidFingerprints(h, reward, s, before)
      + if Pays(h, reward, After(h, reward, s, before), last) then FingerprintList(h, last.proofs) else []
  }

  /** Whatever sequence of epochs and proofs is settled, in whatever order and with whatever
      errors, what was mined is exactly what was paid, and issuance stays under the cap. */
  lemma {:induction false} IssuanceStaysUnderCap(h: Digest, reward: nat, calls: seq<Call>)
    ensures After(h, reward, State(0, {}), calls).mined == TotalPaid(h, reward, State(0, {}), calls)
    ensures TREASURY_ALLOCATION + TotalPaid(h, reward, State(0, {}), calls) <= MAX_SUPPLY
  {
    if calls != [] {
      var before, last := calls[..|calls| - 1], calls[|calls| - 1];
      IssuanceStaysUnderCap(h, reward, before);
      SettlementPaysWhatItMines(h, reward, After(h, reward, State(0, {}), before), last.epoch, last.proofs);
    }
  }

  lemma PaysWhen(h: Digest, reward: nat, s: State, call: Call)
    ensures var t := Settle(h, reward, s, call.epoch, call.proofs);
            if Pays(h, reward, s, call)
            then FirstProblem(h, s.accepted, call.proofs, |call.proofs|) == None
                 && t.state.accepted == s.accepted + Fingerprints(h, call.proofs)
            else t.state == s
  {
    if call.proofs == [] || Refusal(h, s, call.epoch, call.proofs).Some? || Budget(reward, s.mined, call.epoch) <= 0 {
      assert SumMap<Text>(map[]) == 0;
    } else {
      PayoutAddsUp(h, s.accepted, call.proofs, Budget(reward, s.mined, call.epoch));
    }
  }

  /** Proofs that pass the checks have different fingerprints, none rewarded before. */
  lemma PassedAreNew(h: Digest, accepted: set<Text>, proofs: seq<ProgressProof>)
    requires FirstProblem(h, accepted, proofs, |proofs|) == None
    ensures Distinct(FingerprintList(h, proofs))
    ensures forall x | x in FingerprintList(h, proofs) :: x !in accepted
  {
    NoProblem(h, accepted, proofs, |proofs|);
    forall i, j | 0 <= i < j < |proofs| ensures Fingerprint(h, proofs[i]) != Fingerprint(h, proofs[j]) {
      assert Problem(h, accepted, proofs, j) == None;
      assert !SeenBefore(h, proofs, j);
    }
    forall i | 0 <= i < |proofs| ensures Fingerprint(h, proofs[i]) !in accepted {
      assert Problem(h, accepted, proofs, i) == None;
    }
  }

  lemma ListedFingerprints(h: Digest, proofs: seq<ProgressProof>, x: Text)
    ensures x in FingerprintList(h, proofs) <==> x in Fingerprints(h, proofs)
  {
    if x in FingerprintList(h, proofs) {
      var i :| 0 <= i < |proofs| && FingerprintList(h, proofs)[i] == x;
      assert proofs[i] in proofs;
    }
    if x in Fingerprints(h, proofs) {
      var p :| p in proofs && Fingerprint(h, p) == x;
      var i :| 0 <= i < |proofs| && proofs[i] == p;
      assert FingerprintList(h, proofs)[i] == x;
    }
  }

  lemma DistinctJoin<T>(a: seq<T>, b: seq<T>)
    requires Distinct(a) && Distinct(b) && forall x | x in b :: x !in a
    ensures Distinct(a + b)
  {
    forall i, j | 0 <= i < j < |a + b| ensures (a + b)[i] != (a + b)[j] {
      if i < |a| <= j {
        assert a[i] in a && b[j - |a|] in b;
      }
    }
  }

  /** No fingerprint is ever rewarded twice, and the ledger remembers exactly the rewarded ones. */
  lemma {:induction false} EachFingerprintPaidOnce(h: Digest, reward: nat, calls: seq<Call>)
    ensures Distinct(PaidFingerprints(h, reward, State(0, {}), calls))
    ensures forall x :: x in PaidFingerprints(h, reward, State(0, {}), calls) <==> x in After(h, reward, State(0, {}), calls).accepted
  {
    hide Settle, Pays, FingerprintList, FirstProblem, Fingerprints;
    if calls != [] {
      var before, last := calls[..|calls| - 1], calls[|calls| - 1];
      EachFingerprintPaidOnce(h, reward, before);
      var s := After(h, reward, State(0, {}), before);
      PaysWhen(h, reward, s, last);
      if Pays(h, reward, s, last) {
        PassedAreNew(h, s.accepted, last.proofs);
        DistinctJoin(PaidFingerprints(h, reward, State(0, {}), before), FingerprintList(h, last.proofs));
        forall x ensures x in FingerprintList(h, last.proofs) <==> x in Fingerprints(h, last.proofs) {
          ListedFingerprints(h, last.proofs, x);
        }
      }
    }
  }
}
