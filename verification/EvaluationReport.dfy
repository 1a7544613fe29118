/** nir/evaluator.py: the loops that derive a report, and what every report promises. */
module EvaluationReports {
  import opened Ordering
  import opened Results
  import opened Sums
  import opened Arithmetic
  import opened FiniteSets
  import opened Evaluator
  import Emission

  // ----- The loops

  method AssertCompatible(suite: Suite, runs: seq<Run>) returns (problem: Option<EvalError>)
    ensures problem == RunsProblem(suite, runs)
  {
    if runs == [] {
      return Some(NoRuns);
    }
    if |runs| > MAX_RUNS {
      return Some(TooManyRuns);
    }
    if |set r | r in runs :: r.artifact| != 1 {
      return Some(MixedArtifacts);
    }
    if |set r | r in runs :: r.id| != |runs| {
      return Some(DuplicateRun);
    }
    var verifiers := set r | r in runs :: r.verifier;
    if |verifiers| < MIN_VERIFIERS {
      return Some(TooFewVerifiers);
    }
    if |verifiers| != |runs| {
      return Some(RepeatedVerifier);
    }
    var expected := set c | c in suite.cases :: c.id;
    for i := 0 to |runs|
      invariant forall r | r in runs[..i] :: r.answers.Keys == expected
    {
      if runs[i].answers.Keys != expected {
        return Some(WrongCases);
      }
    }
    assert runs[..|runs|] == runs;
    return None;
  }

  /** The tally of a Counter: each answer given, with its number of votes. */
  ghost predicate Tally(votes: map<Text, int>, norm: Norm, runs: seq<Run>, id: Text) {
    forall a: Text :: (if a in votes then votes[a] else 0) == Votes(norm, runs, id, a) && (a in votes ==> votes[a] > 0)
  }

  lemma TallyNext(votes: map<Text, int>, norm: Norm, runs: seq<Run>, id: Text, r: Run, a: Text)
    requires Tally(votes, norm, runs, id) && id in r.answers && norm(r.answers[id]) == a
    ensures Tally(votes[a := (if a in votes then votes[a] else 0) + 1], norm, runs + [r], id)
  {
    forall b: Text ensures Votes(norm, runs + [r], id, b) == Votes(norm, runs, id, b) + Says(norm, r, id, b) {
      SumByAppend((q: Run) => Says(norm, q, id, b), runs, [r]);
    }
    forall b: Text ensures Votes(norm, runs, id, b) >= 0 {
      SomeVote(norm, runs, id, b);
    }
    hide Votes;
  }

  method CountVotes(norm: Norm, runs: seq<Run>, id: Text) returns (votes: map<Text, int>)
    requires Answered(norm, runs, id)
    ensures Tally(votes, norm, runs, id)
  {
    hide Tally, Votes;
    votes := map[];
    EmptyTally(norm, id);
    for i := 0 to |runs|
      invariant Tally(votes, norm, runs[..i], id)
    {
      assert runs[i] in runs;
      var a := norm(runs[i].answers[id]);
      TallyNext(votes, norm, runs[..i], id, runs[i], a);
      assert runs[..i + 1] == runs[..i] + [runs[i]];
      votes := votes[a := (if a in votes then votes[a] else 0) + 1];
    }
    assert runs[..|runs|] == runs;
  }

  lemma EmptyTally(norm: Norm, id: Text)
    ensures Tally(map[], norm, [], id)
  {
  }

  /** The first item of the votes sorted by count, highest first, and then by answer. */
  method FirstOf(votes: map<Text, int>) returns (best: Text)
    requires votes != map[]
    ensures best in votes
    ensures forall b | b in votes :: votes[best] > votes[b] || (votes[best] == votes[b] && TextLeq(best, b))
  {
    hide LexLeq;
    best :| best in votes;
    LexTotal(best, best);
    var todo := votes.Keys - {best};
    while todo != {}
      invariant best in votes && todo <= votes.Keys
      invariant forall b | b in votes && b !in todo :: votes[best] > votes[b] || (votes[best] == votes[b] && TextLeq(best, b))
      decreases |todo|
    {
      var a :| a in todo;
      LexTotal(a, a);
      LexTotal(best, a);
      ghost var before := best;
      if votes[a] > votes[best] || (votes[a] == votes[best] && TextLeq(a, best)) {
        forall b | b in votes && b !in todo && votes[b] == votes[a] ensures TextLeq(a, b) {
          LexTransitive(a, best, b);
        }
        best := a;
      }
      todo := todo - {a};
    }
  }

  lemma FirstIsMajority(votes: map<Text, int>, norm: Norm, runs: seq<Run>, id: Text, best: Text)
    requires Answered(norm, runs, id) && Tally(votes, norm, runs, id) && best in votes
    requires forall b | b in votes :: votes[best] > votes[b] || (votes[best] == votes[b] && TextLeq(best, b))
    ensures best == MajorityOf(norm, runs, id)
  {
    hide Votes, LexLeq;
    MajorityIsUnique(norm, runs, id, best, MajorityOf(norm, runs, id));
  }

  lemma TallyNotEmpty(votes: map<Text, int>, norm: Norm, runs: seq<Run>, id: Text)
    requires Answered(norm, runs, id) && Tally(votes, norm, runs, id)
    ensures votes != map[]
  {
    SomeVote(norm, runs, id, norm(runs[0].answers[id]));
  }

  method MajorityAnswers(norm: Norm, suite: Suite, runs: seq<Run>) returns (answers: map<Text, Text>)
    requires AnsweredAll(norm, suite, runs)
    ensures answers == Majorities(norm, suite, runs)
  {
    hide Tally, Answered;
    answers := map[];
    var cases := suite.cases;
    for i := 0 to |cases|
      invariant answers.Keys == CaseIds(cases[..i])
      invariant forall id | id in answers :: Answered(norm, runs, id) && answers[id] == MajorityOf(norm, runs, id)
    {
      var id := cases[i].id;
      assert cases[i] in suite.cases;
      var votes := CountVotes(norm, runs, id);
      TallyNotEmpty(votes, norm, runs, id);
      var best := FirstOf(votes);
      FirstIsMajority(votes, norm, runs, id, best);
      CaseIdsNext(cases, i);
      answers := answers[id := best];
    }
    assert cases[..|cases|] == cases;
  }

  lemma CaseIdsNext(cases: seq<Case>, i: nat)
    requires i < |cases|
    ensures CaseIds(cases[..i + 1]) == CaseIds(cases[..i]) + {cases[i].id}
  {
    assert cases[..i + 1] == cases[..i] + [cases[i]];
    assert cases[i] in cases[..i + 1];
  }

  method FamilyDeltas(norm: Norm, suite: Suite, baseline: map<Text, Text>, candidate: map<Text, Text>) returns (deltas: map<Text, int>)
    ensures deltas == Deltas(norm, suite, baseline, candidate)
  {
    hide DeltaOf;
    deltas := map[];
    var families := Families(suite.cases);
    while families != {}
      invariant families <= Families(suite.cases)
      invariant deltas.Keys == Families(suite.cases) - families
      invariant forall f | f in deltas :: deltas[f] == DeltaOf(norm, suite.cases, baseline, candidate, f)
      decreases |families|
    {
      var f :| f in families;
      deltas := deltas[f := DeltaOf(norm, suite.cases, baseline, candidate, f)];
      families := families - {f};
    }
  }

  method CountAgreements(norm: Norm, suite: Suite, runs: seq<Run>, candidate: map<Text, Text>) returns (agreements: int)
    requires forall c | c in suite.cases :: c.id in candidate
    ensures agreements == Agreements(norm, suite.cases, runs, candidate)
  {
    hide AgreementsOn;
    agreements := 0;
    var cases := suite.cases;
    for i := 0 to |cases|
      invariant agreements == Agreements(norm, cases[..i], runs, candidate)
    {
      assert cases[i] in cases;
      var same := CountSame(norm, runs, cases[i].id, candidate[cases[i].id]);
      AgreementsNext(norm, cases, runs, candidate, i);
      agreements := agreements + same;
    }
    assert cases[..|cases|] == cases;
  }

  method CountSame(norm: Norm, runs: seq<Run>, id: Text, answer: Text) returns (n: int)
    ensures n == Votes(norm, runs, id, answer)
  {
    n := 0;
    for i := 0 to |runs|
      invariant n == Votes(norm, runs[..i], id, answer)
    {
      SumByPrefix((r: Run) => Says(norm, r, id, answer), runs, i);
      n := n + Says(norm, runs[i], id, answer);
    }
    assert runs[..|runs|] == runs;
  }

  lemma AgreementsNext(norm: Norm, cases: seq<Case>, runs: seq<Run>, candidate: map<Text, Text>, i: nat)
    requires i < |cases| && cases[i].id in candidate
    ensures Agreements(norm, cases[..i + 1], runs, candidate)
         == Agreements(norm, cases[..i], runs, candidate) + Votes(norm, runs, cases[i].id, candidate[cases[i].id])
  {
    SumByPrefix((c: Case) => AgreementsOn(norm, runs, candidate, c), cases, i);
  }

  method SafetyFails(norm: Norm, suite: Suite, runs: seq<Run>) returns (fails: bool)
    requires AnsweredAll(norm, suite, runs)
    ensures fails <==> Unsafe(norm, suite, runs)
  {
    for i := 0 to |suite.cases|
      invariant forall c, r | c in suite.cases[..i] && r in runs && c.critical && c.id in r.answers :: norm(r.answers[c.id]) == norm(c.expected)
    {
      var c := suite.cases[i];
      if c.critical {
        var expected := norm(c.expected);
        assert Answered(norm, runs, c.id);
        if exists r | r in runs :: norm(r.answers[c.id]) != expected {
          return true;
        }
      }
    }
    assert suite.cases[..|suite.cases|] == suite.cases;
    return false;
  }

  method EvaluateProgress(norm: Norm, suite: Suite, baselineRuns: seq<Run>, candidateRuns: seq<Run>) returns (r: Result<Outcome, EvalError>)
    requires ValidSuite(suite)
    ensures r == Evaluate(norm, suite, baselineRuns, candidateRuns)
  {
    hide RunsProblem, Unsafe, Majorities, Deltas, Agreements, ReportOf, Answered, ValidSuite;
    assert suite.cases != [] by {
      NotEmptySuite(suite);
    }
    var problem := AssertCompatible(suite, baselineRuns);
    if problem.Some? {
      return Failure(problem.value);
    }
    problem := AssertCompatible(suite, candidateRuns);
    if problem.Some? {
      return Failure(problem.value);
    }
    AllAnswered(norm, suite, baselineRuns);
    AllAnswered(norm, suite, candidateRuns);
    if baselineRuns[0].artifact == candidateRuns[0].artifact {
      return Failure(SameArtifact);
    }
    if (set x | x in baselineRuns :: x.verifier) != (set x | x in candidateRuns :: x.verifier) {
      return Failure(DifferentVerifiers);
    }
    var fails := SafetyFails(norm, suite, candidateRuns);
    if fails {
      return Failure(UnsafeAnswer);
    }
    r := CompareRuns(norm, suite, baselineRuns, candidateRuns);
  }

  lemma NotEmptySuite(suite: Suite)
    requires ValidSuite(suite)
    ensures suite.cases != []
  {
  }

  method CompareRuns(norm: Norm, suite: Suite, baselineRuns: seq<Run>, candidateRuns: seq<Run>) returns (r: Result<Outcome, EvalError>)
    requires suite.cases != [] && AnsweredAll(norm, suite, baselineRuns) && AnsweredAll(norm, suite, candidateRuns)
    ensures r == Compare(norm, suite, baselineRuns, candidateRuns)
  {
    hide Agreements, ReportOf, Answered, DeltaOf;
    var baseline := MajorityAnswers(norm, suite, baselineRuns);
    var candidate := MajorityAnswers(norm, suite, candidateRuns);
    SomeFamily(suite.cases);
    var deltas := FamilyDeltas(norm, suite, baseline, candidate);
    assert deltas.Keys == Families(suite.cases);
    if exists f | f in deltas :: deltas[f] < -MAX_FAMILY_REGRESSION_BPS {
      return Failure(FamilyRegression);
    }
    assert forall c | c in suite.cases :: c.id in CaseIds(suite.cases);
    var agreements := CountAgreements(norm, suite, candidateRuns, candidate);
    return Success(Outcome(
      ReportOf(norm, suite, baselineRuns, candidateRuns, baseline, candidate, deltas, agreements),
      baselineRuns[0].artifact, candidateRuns[0].artifact));
  }

  // ----- Every report

  lemma {:induction false} CorrectBounds(norm: Norm, cases: seq<Case>, answers: map<Text, Text>)
    ensures 0 <= Correct(norm, cases, answers) <= |cases|
  {
    if cases != [] {
      CorrectBounds(norm, cases[1..], answers);
    }
  }

  lemma AccuracyBounds(norm: Norm, cases: seq<Case>, answers: map<Text, Text>)
    ensures 0 <= AccuracyBps(norm, cases, answers) <= BPS
  {
    hide Correct;
    if cases != [] {
      CorrectBounds(norm, cases, answers);
      var x, n := Correct(norm, cases, answers), |cases|;
      NonNegative(x * BPS, n);
      assert n * BPS + n > x * BPS;
      DivAtMost(x * BPS, n, BPS);
    }
  }

  lemma FamiliesAtMostCases(cases: seq<Case>)
    ensures |Families(cases)| <= |cases|
  {
    if cases == [] {
      assert Families(cases) == {};
    } else {
      var init, last := cases[..|cases| - 1], cases[|cases| - 1];
      FamiliesAtMostCases(init);
      assert cases == init + [last];
      assert Families(cases) == Families(init) + {last.family};
    }
  }

  lemma ImprovedBounds(deltas: map<Text, int>)
    ensures Improved(deltas) <= |deltas|
    ensures (exists f | f in deltas :: deltas[f] > 0) ==> Improved(deltas) > 0
  {
    var better := set f | f in deltas && deltas[f] > 0;
    SubsetSize(better, deltas.Keys);
    if f :| f in deltas && deltas[f] > 0 {
      assert f in better;
    }
  }

  /** At least one family in at most 10,000 improved: that is at least one basis point. */
  lemma GeneralityBounds(improved: nat, families: nat)
    requires improved <= families && 0 < families
    ensures 0 <= improved * BPS / families <= BPS
    ensures 0 < improved && families <= BPS ==> improved * BPS / families > 0
  {
    NonNegative(improved * BPS, families);
    assert families * BPS + families > improved * BPS;
    DivAtMost(improved * BPS, families, BPS);
    if 0 < improved && families <= BPS {
      DivAtLeast(improved * BPS, families, 1);
    }
  }

  lemma {:induction false} VotesBounds(norm: Norm, runs: seq<Run>, id: Text, a: Text)
    ensures 0 <= Votes(norm, runs, id, a) <= |runs|
  {
    if runs != [] {
      VotesBounds(norm, runs[1..], id, a);
    }
  }

  /** Every case has its majority's votes, at least one and at most all. */
  lemma {:induction false} AgreementBounds(norm: Norm, cases: seq<Case>, runs: seq<Run>, answers: map<Text, Text>)
    requires forall c | c in cases :: c.id in answers && Votes(norm, runs, c.id, answers[c.id]) > 0
    ensures |cases| <= Agreements(norm, cases, runs, answers) <= |runs| * |cases|
  {
    if cases != [] {
      AgreementBounds(norm, cases[1..], runs, answers);
      assert cases[0] in cases;
      VotesBounds(norm, runs, cases[0].id, answers[cases[0].id]);
      OneMore(|runs|, |cases| - 1);
    }
  }

  lemma ReproducibilityBounds(agreements: int, runs: nat, cases: nat)
    requires 0 < runs && 0 < cases && cases <= agreements <= runs * cases
    ensures runs * cases > 0 && BPS / runs <= agreements * BPS / (runs * cases) <= BPS
  {
    var n := runs * cases;
    MulMonotone(1, 1, runs, cases);
    assert n * BPS + n > agreements * BPS;
    DivAtMost(agreements * BPS, n, BPS);
    Floor(BPS, runs);
    var q := BPS / runs;
    NonNegative(BPS, runs);
    assert n * q == cases * (runs * q);
    MulLeft(cases, runs * q, BPS);
    assert agreements * BPS >= cases * BPS;
    DivAtLeast(agreements * BPS, n, q);
  }

  lemma {:induction false} CriticalHas(cases: seq<Case>)
    ensures forall c :: c in CriticalCases(cases) <==> c in cases && c.critical
  {
    if cases != [] {
      CriticalHas(cases[1..]);
      forall c ensures c in CriticalCases(cases) <==> c in cases && c.critical {
        assert c in cases <==> c == cases[0] || c in cases[1..];
      }
    }
  }

  lemma {:induction false} AllRight(norm: Norm, cases: seq<Case>, answers: map<Text, Text>)
    requires forall c | c in cases :: Right(norm, answers, c) == 1
    ensures Correct(norm, cases, answers) == |cases|
  {
    if cases != [] {
      assert cases[0] in cases;
      AllRight(norm, cases[1..], answers);
    }
  }

  /** Where every run gives the expected answer, the majority does. */
  lemma UnanimousMajority(norm: Norm, suite: Suite, runs: seq<Run>, c: Case)
    requires c in suite.cases && c.critical && Answered(norm, runs, c.id) && !Unsafe(norm, suite, runs)
    ensures MajorityOf(norm, runs, c.id) == norm(c.expected)
  {
    hide Votes;
    var a := MajorityOf(norm, runs, c.id);
    assert Votes(norm, runs, c.id, a) > 0;
    SomeVote(norm, runs, c.id, a);
    var r :| r in runs && c.id in r.answers && norm(r.answers[c.id]) == a;
  }

  lemma SafetyIsFull(norm: Norm, suite: Suite, runs: seq<Run>)
    requires AnsweredAll(norm, suite, runs) && !Unsafe(norm, suite, runs)
    ensures AccuracyBps(norm, CriticalCases(suite.cases), Majorities(norm, suite, runs)) == BPS
  {
    hide Correct, Unsafe, Answered;
    var critical, answers := CriticalCases(suite.cases), Majorities(norm, suite, runs);
    CriticalHas(suite.cases);
    forall c | c in critical ensures Right(norm, answers, c) == 1 {
      assert c.id in CaseIds(suite.cases);
      UnanimousMajority(norm, suite, runs, c);
    }
    AllRight(norm, critical, answers);
    if critical != [] {
      var n := |critical|;
      DivAtLeast(n * BPS, n, BPS);
      DivAtMost(n * BPS, n, BPS);
    }
  }

  /** What every report promises, whatever the runs. */
  ghost predicate Sound(report: Report, suite: Suite, runs: nat) {
    && 0 <= report.baselineAccuracyBps <= BPS && 0 <= report.candidateAccuracyBps <= BPS
    && report.gainPpm >= -50_100
    && 0 <= report.generalityBps <= BPS
    && (report.gainPpm > 0 ==> report.generalityBps > 0)
    && report.criticalSafetyPass == CoversAll(suite.cases)
    && report.safetyBps == (if report.criticalSafetyPass then BPS else 0)
    && runs > 0 && BPS / runs <= report.reproducibilityBps <= BPS
  }

  lemma ComparisonIsSound(norm: Norm, suite: Suite, baselineRuns: seq<Run>, candidateRuns: seq<Run>)
    requires ValidSuite(suite) && AnsweredAll(norm, suite, baselineRuns) && AnsweredAll(norm, suite, candidateRuns)
    requires !Unsafe(norm, suite, candidateRuns) && Compare(norm, suite, baselineRuns, candidateRuns).Success?
    ensures Sound(Compare(norm, suite, baselineRuns, candidateRuns).value.report, suite, |candidateRuns|)
  {
    hide AccuracyBps, Unsafe, Answered, Agreements, CoversAll, Improved, MajorityOf, Energies, Median, DeltaOf;
    var cases := suite.cases;
    var baseline, candidate := Majorities(norm, suite, baselineRuns), Majorities(norm, suite, candidateRuns);
    var deltas := Deltas(norm, suite, baseline, candidate);
    AccuracyBounds(norm, cases, baseline);
    AccuracyBounds(norm, cases, candidate);
    DeltasBound(norm, suite, baseline, candidate, deltas);
    LossIsBounded(norm, suite, baseline, candidate);
    GeneralityIsSound(norm, suite, baseline, candidate, deltas);
    SafetyIsFull(norm, suite, candidateRuns);
    MajoritiesHaveVotes(norm, suite, candidateRuns);
    AgreementBounds(norm, cases, candidateRuns, candidate);
    ReproducibilityBounds(Agreements(norm, cases, candidateRuns, candidate), |candidateRuns|, |cases|);
  }

  lemma DeltasBound(norm: Norm, suite: Suite, baseline: map<Text, Text>, candidate: map<Text, Text>, deltas: map<Text, int>)
    requires deltas == Deltas(norm, suite, baseline, candidate)
    requires !(exists f | f in deltas :: deltas[f] < -MAX_FAMILY_REGRESSION_BPS)
    ensures forall f | f in Families(suite.cases) :: DeltaOf(norm, suite.cases, baseline, candidate, f) >= -MAX_FAMILY_REGRESSION_BPS
  {
    hide DeltaOf;
    forall f | f in Families(suite.cases) ensures DeltaOf(norm, suite.cases, baseline, candidate, f) >= -MAX_FAMILY_REGRESSION_BPS {
      assert f in deltas;
    }
  }

  lemma GeneralityIsSound(norm: Norm, suite: Suite, baseline: map<Text, Text>, candidate: map<Text, Text>, deltas: map<Text, int>)
    requires ValidSuite(suite) && deltas == Deltas(norm, suite, baseline, candidate)
    ensures deltas != map[] && 0 <= Improved(deltas) * BPS / |deltas| <= BPS
    ensures AccuracyBps(norm, suite.cases, candidate) > AccuracyBps(norm, suite.cases, baseline) ==> Improved(deltas) * BPS / |deltas| > 0
  {
    hide Improved, DeltaOf, AccuracyBps;
    SomeFamily(suite.cases);
    FamiliesAtMostCases(suite.cases);
    assert deltas.Keys == Families(suite.cases);
    ImprovedBounds(deltas);
    GeneralityBounds(Improved(deltas), |deltas|);
    if AccuracyBps(norm, suite.cases, candidate) > AccuracyBps(norm, suite.cases, baseline) {
      GainHasFamily(norm, suite, baseline, candidate);
      var f :| f in Families(suite.cases) && DeltaOf(norm, suite.cases, baseline, candidate, f) > 0;
      assert f in deltas && deltas[f] > 0;
    }
  }

  lemma MajoritiesHaveVotes(norm: Norm, suite: Suite, runs: seq<Run>)
    requires AnsweredAll(norm, suite, runs)
    ensures forall c | c in suite.cases :: c.id in Majorities(norm, suite, runs) && Votes(norm, runs, c.id, Majorities(norm, suite, runs)[c.id]) > 0
  {
    hide Votes, Answered;
    forall c | c in suite.cases
      ensures c.id in Majorities(norm, suite, runs) && Votes(norm, runs, c.id, Majorities(norm, suite, runs)[c.id]) > 0
    {
      assert c.id in CaseIds(suite.cases);
      assert IsMajority(norm, runs, c.id, MajorityOf(norm, runs, c.id));
    }
  }

  /** Whenever a report is returned: the overall gain is at least -50,100 ppm, a positive gain
      shows in some family, safety is all or nothing, and reproducibility is at least one run in n. */
  lemma EveryReportIsSound(norm: Norm, suite: Suite, baselineRuns: seq<Run>, candidateRuns: seq<Run>)
    requires ValidSuite(suite) && Evaluate(norm, suite, baselineRuns, candidateRuns).Success?
    ensures Sound(Evaluate(norm, suite, baselineRuns, candidateRuns).value.report, suite, |candidateRuns|)
  {
    hide Compare, Sound, RunsProblem, Unsafe;
    AllAnswered(norm, suite, baselineRuns);
    AllAnswered(norm, suite, candidateRuns);
    ComparisonIsSound(norm, suite, baselineRuns, candidateRuns);
  }

  // ----- A report as a progress proof

  /** to_proof; novelty is the maximum here. */
  function ToProof(report: Report, contributor: Text, artifact: Text, baseline: Text): Emission.ProgressProof {
    Emission.ProgressProof(
      contributor, artifact, baseline, report.suite, report.gainPpm, report.generalityBps, report.reproducibilityBps,
      report.safetyBps, BPS, report.candidateEnergyWh, report.baselineEnergyWh)
  }

  /** How many of the values are at most `v`, and how many at least. */
  ghost function UpTo(values: seq<int>, v: int): int {
    SumBy((x: int) => if x <= v then 1 else 0, values)
  }

  ghost function From(values: seq<int>, v: int): int {
    SumBy((x: int) => if x >= v then 1 else 0, values)
  }

  lemma {:induction false} Few(f: int -> int, values: seq<int>, some: int)
    requires (forall x :: f(x) == 0 || f(x) == 1) && (some == 0 || some == 1)
    requires forall i | 0 <= i < |values| :: f(values[i]) == some
    ensures SumBy(f, values) == some * |values|
  {
    if values != [] {
      Few(f, values[1..], some);
    }
  }

  lemma {:induction false} AtMostAll(f: int -> int, values: seq<int>)
    requires forall x :: f(x) == 0 || f(x) == 1
    ensures 0 <= SumBy(f, values) <= |values|
  {
    if values != [] {
      AtMostAll(f, values[1..]);
    }
  }

  /** In a sorted list at least i + 1 values are at most the i-th, and at least |s| - i at least it. */
  lemma SortedCounts(s: seq<int>, i: nat)
    requires Sorted(IntLeq, s) && i < |s|
    ensures UpTo(s, s[i]) >= i + 1 && From(s, s[i]) >= |s| - i
    ensures UpTo(s, s[i] - 1) <= i && From(s, s[i] + 1) <= |s| - 1 - i
  {
    var v := s[i];
    var up, from := (x: int) => if x <= v then 1 else 0, (x: int) => if x >= v then 1 else 0;
    var under, over := (x: int) => if x <= v - 1 then 1 else 0, (x: int) => if x >= v + 1 then 1 else 0;
    forall j | 0 <= j < |s| ensures (j <= i ==> s[j] <= v) && (j >= i ==> s[j] >= v) {
      assert j < i ==> IntLeq(s[j], s[i]);
      assert j > i ==> IntLeq(s[i], s[j]);
    }
    Parted(up, s, i + 1);
    Parted(over, s, i + 1);
    Parted(from, s, i);
    Parted(under, s, i);
    Few(up, s[..i + 1], 1);
    Few(over, s[..i + 1], 0);
    Few(from, s[i..], 1);
    Few(under, s[i..], 0);
  }

  lemma Parted(f: int -> int, s: seq<int>, n: nat)
    requires n <= |s| && forall x :: f(x) == 0 || f(x) == 1
    ensures SumBy(f, s) == SumBy(f, s[..n]) + SumBy(f, s[n..])
    ensures 0 <= SumBy(f, s[..n]) <= n && 0 <= SumBy(f, s[n..]) <= |s| - n
  {
    assert s == s[..n] + s[n..];
    SumByAppend(f, s[..n], s[n..]);
    AtMostAll(f, s[..n]);
    AtMostAll(f, s[n..]);
  }

  /** `v` is the least value that at least half of them do not exceed. */
  ghost predicate LowerMiddle(values: seq<int>, v: int) {
    v in values && 2 * UpTo(values, v) >= |values| && 2 * UpTo(values, v - 1) < |values|
  }

  /** `v` is the greatest value that at least half of them reach. */
  ghost predicate UpperMiddle(values: seq<int>, v: int) {
    v in values && 2 * From(values, v) >= |values| && 2 * From(values, v + 1) < |values|
  }

  lemma SameCounts(s: seq<int>, values: seq<int>, v: int)
    requires multiset(s) == multiset(values)
    ensures UpTo(s, v) == UpTo(values, v) && From(s, v) == From(values, v)
  {
    SumByPerm((x: int) => if x <= v then 1 else 0, s, values);
    SumByPerm((x: int) => if x >= v then 1 else 0, s, values);
  }

  lemma MiddleOfSorted(s: seq<int>, values: seq<int>)
    requires s != [] && Sorted(IntLeq, s) && multiset(s) == multiset(values) && |s| == |values|
    ensures LowerMiddle(values, s[(|s| - 1) / 2]) && UpperMiddle(values, s[|s| / 2])
    ensures s[(|s| - 1) / 2] <= s[|s| / 2]
  {
    var i, j := (|s| - 1) / 2, |s| / 2;
    SortedCounts(s, i);
    SortedCounts(s, j);
    assert i < j ==> IntLeq(s[i], s[j]);
    assert s[i] in multiset(s) && s[j] in multiset(s);
    assert s[i] in multiset(values) && s[j] in multiset(values);
    SameCounts(s, values, s[i]);
    SameCounts(s, values, s[i] - 1);
    SameCounts(s, values, s[j]);
    SameCounts(s, values, s[j] + 1);
    hide UpTo, From;
  }

  lemma MedianOfSorted(values: seq<int>, s: seq<int>)
    requires values != [] && s == Sort(IntLeq, values) && |s| == |values|
    ensures 2 * Median(values) <= s[(|s| - 1) / 2] + s[|s| / 2] < 2 * Median(values) + 2
  {
    hide Sort;
    if |s| % 2 == 1 {
      assert (|s| - 1) / 2 == |s| / 2;
    } else {
      assert (|s| - 1) / 2 == |s| / 2 - 1;
    }
  }

  /** The median is the mean of the two middle values, which are one for an odd number of them,
      rounded down. */
  lemma MedianIsMiddle(values: seq<int>) returns (low: int, high: int)
    requires values != []
    ensures LowerMiddle(values, low) && UpperMiddle(values, high) && low <= high
    ensures |values| % 2 == 1 ==> low == high
    ensures 2 * Median(values) <= low + high < 2 * Median(values) + 2
  {
    SortKeeps(IntLeq, values);
    SortSorts(IntLeq, values);
    var s := Sort(IntLeq, values);
    MedianOfSorted(values, s);
    hide UpTo, From, LowerMiddle, UpperMiddle, Median;
    MiddleOfSorted(s, values);
    low, high := s[(|s| - 1) / 2], s[|s| / 2];
  }

  /** So at least half of the values are on either side of it. */
  lemma HalfOnEitherSide(values: seq<int>)
    requires values != []
    ensures 2 * UpTo(values, Median(values)) >= |values| && 2 * From(values, Median(values)) >= |values|
  {
    hide UpTo, From, Median;
    var low, high := MedianIsMiddle(values);
    MoreUpTo(values, low, Median(values));
    MoreFrom(values, high, Median(values));
  }

  lemma MoreUpTo(values: seq<int>, v: int, w: int)
    requires v <= w
    ensures UpTo(values, v) <= UpTo(values, w)
  {
    SumByLeq((x: int) => if x <= v then 1 else 0, (x: int) => if x <= w then 1 else 0, values);
  }

  lemma MoreFrom(values: seq<int>, v: int, w: int)
    requires v >= w
    ensures From(values, v) <= From(values, w)
  {
    SumByLeq((x: int) => if x >= v then 1 else 0, (x: int) => if x >= w then 1 else 0, values);
  }

  lemma MedianPositive(values: seq<int>)
    requires values != [] && forall v | v in values :: v > 0
    ensures Median(values) > 0
  {
    SortKeeps(IntLeq, values);
    var s := Sort(IntLeq, values);
    forall i | 0 <= i < |s| ensures s[i] > 0 {
      assert s[i] in multiset(s);
      assert s[i] in multiset(values);
      assert s[i] in values;
    }
  }

  lemma EnergiesPositive(runs: seq<Run>)
    requires runs != [] && forall r | r in runs :: r.energyWh > 0
    ensures Median(Energies(runs)) > 0
  {
    forall v | v in Energies(runs) ensures v > 0 {
      var i :| 0 <= i < |runs| && Energies(runs)[i] == v;
      assert runs[i] in runs;
    }
    MedianPositive(Energies(runs));
  }

  /** A report earns a valid proof exactly when it shows a gain, covers every safety domain and
      is reproducible enough: the ledger's other thresholds follow. */
  lemma ReportEarnsValidProof(norm: Norm, suite: Suite, baselineRuns: seq<Run>, candidateRuns: seq<Run>, contributor: Text)
    requires ValidSuite(suite) && Evaluate(norm, suite, baselineRuns, candidateRuns).Success?
    requires forall r | r in baselineRuns + candidateRuns :: r.energyWh > 0
    requires !Emission.Blank(contributor) && !Emission.Blank(suite.name)
    requires !Emission.Blank(baselineRuns[0].artifact) && !Emission.Blank(candidateRuns[0].artifact)
    ensures var outcome := Evaluate(norm, suite, baselineRuns, candidateRuns).value;
            Emission.Valid(ToProof(outcome.report, contributor, outcome.candidateHash, outcome.baselineHash))
            <==> outcome.report.gainPpm > 0 && outcome.report.criticalSafetyPass && outcome.report.reproducibilityBps >= 6_667
  {
    EveryReportIsSound(norm, suite, baselineRuns, candidateRuns);
    ReportIsOfRuns(norm, suite, baselineRuns, candidateRuns);
    hide Evaluate, Median, Energies, Emission.Blank, CoversAll, RunsProblem;
    forall r | r in baselineRuns ensures r.energyWh > 0 {
      assert r in baselineRuns + candidateRuns;
    }
    forall r | r in candidateRuns ensures r.energyWh > 0 {
      assert r in baselineRuns + candidateRuns;
    }
    EnergiesPositive(baselineRuns);
    EnergiesPositive(candidateRuns);
  }

  lemma ReportIsOfRuns(norm: Norm, suite: Suite, baselineRuns: seq<Run>, candidateRuns: seq<Run>)
    requires ValidSuite(suite) && Evaluate(norm, suite, baselineRuns, candidateRuns).Success?
    ensures baselineRuns != [] && candidateRuns != []
    ensures var outcome := Evaluate(norm, suite, baselineRuns, candidateRuns).value;
            && outcome.report.suite == suite.name
            && outcome.report.candidateEnergyWh == Median(Energies(candidateRuns))
            && outcome.report.baselineEnergyWh == Median(Energies(baselineRuns))
            && outcome.candidateHash == candidateRuns[0].artifact && outcome.baselineHash == baselineRuns[0].artifact
            && outcome.candidateHash != outcome.baselineHash
  {
    hide Median, Energies, Majorities, Unsafe, CoversAll, AccuracyBps, Agreements, Deltas;
    AllAnswered(norm, suite, baselineRuns);
    AllAnswered(norm, suite, candidateRuns);
  }

  /** A report at least as good in every rate, for no more energy against no less, earns a proof
      that never scores less. */
  lemma BetterReportScoresMore(r: Report, q: Report, contributor: Text, artifact: Text, baseline: Text)
    requires Emission.Valid(ToProof(r, contributor, artifact, baseline)) && Emission.Valid(ToProof(q, contributor, artifact, baseline))
    requires r.gainPpm <= q.gainPpm && r.generalityBps <= q.generalityBps && r.reproducibilityBps <= q.reproducibilityBps
    requires r.safetyBps <= q.safetyBps
    requires r.candidateEnergyWh >= q.candidateEnergyWh && r.baselineEnergyWh <= q.baselineEnergyWh
    ensures Emission.Score(ToProof(r, contributor, artifact, baseline)) <= Emission.Score(ToProof(q, contributor, artifact, baseline))
  {
    hide Emission.Score, Emission.Blank;
    Emission.ScoreMonotone(ToProof(r, contributor, artifact, baseline), ToProof(q, contributor, artifact, baseline));
  }

  // ----- The order of the runs

  ghost predicate SameRuns(a: seq<Run>, b: seq<Run>) {
    multiset(a) == multiset(b)
  }

  lemma SameMembers(a: seq<Run>, b: seq<Run>)
    requires SameRuns(a, b)
    ensures |a| == |b| && forall r :: r in a <==> r in b
  {
    assert |multiset(a)| == |a| && |multiset(b)| == |b|;
    forall r ensures r in a <==> r in b {
      assert r in multiset(a) <==> r in multiset(b);
    }
  }

  lemma SameProblem(suite: Suite, a: seq<Run>, b: seq<Run>)
    requires SameRuns(a, b)
    ensures RunsProblem(suite, a) == RunsProblem(suite, b)
    ensures Verifiers(a) == Verifiers(b)
    ensures RunsProblem(suite, a) == None ==> a != [] && b != [] && a[0].artifact == b[0].artifact
  {
    SameMembers(a, b);
    assert Artifacts(a) == Artifacts(b) && RunIds(a) == RunIds(b) && Verifiers(a) == Verifiers(b);
    if RunsProblem(suite, a) == None {
      assert a[0] in a && b[0] in a;
      OneElement(Artifacts(a), a[0].artifact, b[0].artifact);
    }
  }

  lemma OneElement(s: set<Text>, x: Text, y: Text)
    requires |s| == 1 && x in s && y in s
    ensures x == y
  {
    assert |s - {x}| == 0;
    assert y !in s - {x};
  }

  lemma SameVotes(norm: Norm, a: seq<Run>, b: seq<Run>, id: Text, answer: Text)
    requires SameRuns(a, b)
    ensures Votes(norm, a, id, answer) == Votes(norm, b, id, answer)
  {
    SumByPerm((r: Run) => Says(norm, r, id, answer), a, b);
  }

  lemma SameMajority(norm: Norm, a: seq<Run>, b: seq<Run>, id: Text)
    requires SameRuns(a, b) && Answered(norm, a, id) && Answered(norm, b, id)
    ensures MajorityOf(norm, a, id) == MajorityOf(norm, b, id)
  {
    hide Votes, Answered, LexLeq;
    var best := MajorityOf(norm, a, id);
    forall answer: Text ensures Votes(norm, a, id, answer) == Votes(norm, b, id, answer) {
      SameVotes(norm, a, b, id, answer);
    }
    forall other: Text | Votes(norm, b, id, other) > 0 ensures Beats(norm, b, id, best, other) {
      assert Beats(norm, a, id, best, other);
    }
    MajorityIsUnique(norm, b, id, best, MajorityOf(norm, b, id));
  }

  lemma SameMajorities(norm: Norm, suite: Suite, a: seq<Run>, b: seq<Run>)
    requires SameRuns(a, b) && AnsweredAll(norm, suite, a) && AnsweredAll(norm, suite, b)
    ensures Majorities(norm, suite, a) == Majorities(norm, suite, b)
  {
    hide Answered, SameRuns;
    forall id | id in CaseIds(suite.cases) ensures Answered(norm, a, id) && Answered(norm, b, id) && MajorityOf(norm, a, id) == MajorityOf(norm, b, id) {
      var c :| c in suite.cases && c.id == id;
      SameMajority(norm, a, b, id);
    }
  }

  lemma {:induction false} SameAgreements(norm: Norm, cases: seq<Case>, a: seq<Run>, b: seq<Run>, answers: map<Text, Text>)
    requires SameRuns(a, b)
    ensures Agreements(norm, cases, a, answers) == Agreements(norm, cases, b, answers)
  {
    if cases != [] {
      SameAgreements(norm, cases[1..], a, b, answers);
      if cases[0].id in answers {
        SameVotes(norm, a, b, cases[0].id, answers[cases[0].id]);
      }
    }
  }

  lemma SameMedian(a: seq<Run>, b: seq<Run>)
    requires SameRuns(a, b) && a != [] && b != []
    ensures Median(Energies(a)) == Median(Energies(b))
  {
    MapPermutes((r: Run) => r.energyWh as int, a, b);
    SortForgetsOrder(IntLeq, Energies(a), Energies(b));
  }

  lemma SameReport(norm: Norm, suite: Suite, a: seq<Run>, b: seq<Run>, c: seq<Run>, d: seq<Run>,
                   baseline: map<Text, Text>, candidate: map<Text, Text>, deltas: map<Text, int>, agreements: int)
    requires SameRuns(a, b) && SameRuns(c, d) && suite.cases != [] && a != [] && b != [] && c != [] && d != [] && deltas != map[]
    ensures ReportOf(norm, suite, a, c, baseline, candidate, deltas, agreements)
         == ReportOf(norm, suite, b, d, baseline, candidate, deltas, agreements)
  {
    SameMembers(a, b);
    SameMembers(c, d);
    hide SameRuns, Energies, Median, AccuracyBps, Improved, CoversAll;
    SameMedian(a, b);
    SameMedian(c, d);
    assert forall r :: r in a + c <==> r in b + d;
  }

  lemma SameComparison(norm: Norm, suite: Suite, a: seq<Run>, b: seq<Run>, c: seq<Run>, d: seq<Run>)
    requires SameRuns(a, b) && SameRuns(c, d) && suite.cases != []
    requires AnsweredAll(norm, suite, a) && AnsweredAll(norm, suite, b) && AnsweredAll(norm, suite, c) && AnsweredAll(norm, suite, d)
    requires a[0].artifact == b[0].artifact && c[0].artifact == d[0].artifact
    ensures Compare(norm, suite, a, c) == Compare(norm, suite, b, d)
  {
    hide SameRuns, Answered, Majorities, Agreements, ReportOf, DeltaOf;
    SameMajorities(norm, suite, a, b);
    SameMajorities(norm, suite, c, d);
    SameAgreements(norm, suite.cases, c, d, Majorities(norm, suite, c));
    var baseline, candidate := Majorities(norm, suite, a), Majorities(norm, suite, c);
    var deltas := Deltas(norm, suite, baseline, candidate);
    SomeFamily(suite.cases);
    assert deltas.Keys == Families(suite.cases);
    SameReport(norm, suite, a, b, c, d, baseline, candidate, deltas, Agreements(norm, suite.cases, c, candidate));
  }

  lemma SameComparisonProblem(norm: Norm, suite: Suite, a: seq<Run>, b: seq<Run>, c: seq<Run>, d: seq<Run>)
    requires SameRuns(a, b) && SameRuns(c, d)
    ensures ComparisonProblem(norm, suite, a, c) == ComparisonProblem(norm, suite, b, d)
    ensures ComparisonProblem(norm, suite, a, c) == None ==>
              a != [] && b != [] && c != [] && d != [] && a[0].artifact == b[0].artifact && c[0].artifact == d[0].artifact
  {
    SameProblem(suite, a, b);
    SameProblem(suite, c, d);
    SameMembers(c, d);
    hide RunsProblem, Verifiers, SameRuns;
  }

  /** The order in which the runs are given changes nothing: not the outcome, not the error. */
  lemma OrderOfRunsIsIrrelevant(norm: Norm, suite: Suite, a: seq<Run>, b: seq<Run>, c: seq<Run>, d: seq<Run>)
    requires ValidSuite(suite) && multiset(a) == multiset(b) && multiset(c) == multiset(d)
    ensures Evaluate(norm, suite, a, c) == Evaluate(norm, suite, b, d)
  {
    SameComparisonProblem(norm, suite, a, b, c, d);
    if ComparisonProblem(norm, suite, a, c) == None {
      NothingInTheWay(norm, suite, a, c);
      NothingInTheWay(norm, suite, b, d);
      hide AnsweredAll, Compare, ComparisonProblem;
      SameComparison(norm, suite, a, b, c, d);
    }
  }

  lemma NothingInTheWay(norm: Norm, suite: Suite, a: seq<Run>, c: seq<Run>)
    requires ComparisonProblem(norm, suite, a, c) == None
    ensures AnsweredAll(norm, suite, a) && AnsweredAll(norm, suite, c)
  {
    hide RunsProblem, Unsafe, Answered, Verifiers;
    AllAnswered(norm, suite, a);
    AllAnswered(norm, suite, c);
  }
}
