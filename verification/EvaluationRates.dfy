/** When runs give a report, what its rates are shares of, and what they mean at their ends. */
module EvaluationRates {
  import opened Ordering
  import opened Results
  import opened Sums
  import opened Arithmetic
  import opened FiniteSets
  import opened Evaluator
  import opened EvaluationReports

  // ----- When there is a report

  ghost function Image(f: Run -> Text, runs: seq<Run>): set<Text> {
    set r | r in runs :: f(r)
  }

  lemma ImageHas(f: Run -> Text, runs: seq<Run>, x: Text)
    ensures x in Image(f, runs) <==> exists i :: 0 <= i < |runs| && f(runs[i]) == x
  {
    if x in Image(f, runs) {
      var r :| r in runs && f(r) == x;
      var i :| 0 <= i < |runs| && runs[i] == r;
    }
  }

  lemma {:induction false} CountedOnce(f: Run -> Text, runs: seq<Run>)
    ensures |Image(f, runs)| <= |runs|
    ensures |Image(f, runs)| == |runs| <==> forall i, j | 0 <= i < j < |runs| :: f(runs[i]) != f(runs[j])
  {
    if runs == [] {
      assert Image(f, runs) == {};
    } else {
      var n := |runs| - 1;
      CountedOnce(f, runs[..n]);
      assert Image(f, runs) == Image(f, runs[..n]) + {f(runs[n])};
      ImageHas(f, runs[..n], f(runs[n]));
      hide Image;
    }
  }

  /** The runs of one side: at least three, of one artifact, by different verifiers, each under an
      identifier of its own and with an answer to every case. */
  ghost predicate OneSide(suite: Suite, runs: seq<Run>) {
    && 3 <= |runs| <= 64
    && (forall i, j | 0 <= i < j < |runs| :: runs[i].id != runs[j].id)
    && (forall i, j | 0 <= i < j < |runs| :: runs[i].verifier != runs[j].verifier)
    && (forall r | r in runs :: r.artifact == runs[0].artifact)
    && (forall r | r in runs :: r.answers.Keys == CaseIds(suite.cases))
  }

  ghost predicate HasVerifier(runs: seq<Run>, v: Text) {
    exists r | r in runs :: r.verifier == v
  }

  /** No candidate run misses a critical case. */
  ghost predicate Safe(norm: Norm, suite: Suite, runs: seq<Run>) {
    forall c, r | c in suite.cases && c.critical && r in runs && c.id in r.answers :: norm(r.answers[c.id]) == norm(c.expected)
  }

  ghost predicate NoFamilyFalls(norm: Norm, suite: Suite, baselineRuns: seq<Run>, candidateRuns: seq<Run>) {
    && AnsweredAll(norm, suite, baselineRuns) && AnsweredAll(norm, suite, candidateRuns)
    && forall f | f in Families(suite.cases) ::
         DeltaOf(norm, suite.cases, Majorities(norm, suite, baselineRuns), Majorities(norm, suite, candidateRuns), f) >= -500
  }

  lemma OneArtifact(runs: seq<Run>)
    requires runs != []
    ensures |Artifacts(runs)| == 1 <==> forall r | r in runs :: r.artifact == runs[0].artifact
  {
    var all, first := Artifacts(runs), runs[0].artifact;
    assert runs[0] in runs && first in all;
    if |all| == 1 {
      SubsetFills({first}, all);
      forall r | r in runs ensures r.artifact == first {
        assert r.artifact in all;
      }
    }
    if forall r | r in runs :: r.artifact == first {
      assert all == {first};
    }
  }

  lemma OneSideExactly(suite: Suite, runs: seq<Run>)
    ensures RunsProblem(suite, runs) == None <==> OneSide(suite, runs)
  {
    if runs != [] {
      var id, verifier := (r: Run) => r.id, (r: Run) => r.verifier;
      OneArtifact(runs);
      CountedOnce(id, runs);
      CountedOnce(verifier, runs);
      assert RunIds(runs) == Image(id, runs) && Verifiers(runs) == Image(verifier, runs);
      hide Artifacts, Image, RunIds, Verifiers;
    }
  }

  lemma SameVerifiersExactly(a: seq<Run>, b: seq<Run>)
    ensures Verifiers(a) == Verifiers(b) <==> forall v :: HasVerifier(a, v) <==> HasVerifier(b, v)
  {
    forall v ensures v in Verifiers(a) <==> HasVerifier(a, v) {
    }
    forall v ensures v in Verifiers(b) <==> HasVerifier(b, v) {
    }
    hide HasVerifier;
    if forall v :: HasVerifier(a, v) <==> HasVerifier(b, v) {
      assert Verifiers(a) == Verifiers(b);
    }
  }

  lemma SafeExactly(norm: Norm, suite: Suite, runs: seq<Run>)
    ensures !Unsafe(norm, suite, runs) <==> Safe(norm, suite, runs)
  {
  }

  lemma ComparesExactly(norm: Norm, suite: Suite, baselineRuns: seq<Run>, candidateRuns: seq<Run>)
    requires suite.cases != [] && AnsweredAll(norm, suite, baselineRuns) && AnsweredAll(norm, suite, candidateRuns)
    ensures Compare(norm, suite, baselineRuns, candidateRuns).Success? <==> NoFamilyFalls(norm, suite, baselineRuns, candidateRuns)
  {
    hide Majorities, Agreements, ReportOf, DeltaOf, Answered;
    SomeFamily(suite.cases);
    var deltas := Deltas(norm, suite, Majorities(norm, suite, baselineRuns), Majorities(norm, suite, candidateRuns));
    assert deltas.Keys == Families(suite.cases);
  }

  /** There is a report if and only if each side's runs can be counted together, the two sides are
      different artifacts run by the same verifiers, no candidate run misses a critical case, and no
      family falls by more than 500 basis points. */
  lemma EvaluatesExactly(norm: Norm, suite: Suite, baselineRuns: seq<Run>, candidateRuns: seq<Run>)
    requires ValidSuite(suite)
    ensures Evaluate(norm, suite, baselineRuns, candidateRuns).Success? <==>
              && OneSide(suite, baselineRuns) && OneSide(suite, candidateRuns)
              && baselineRuns[0].artifact != candidateRuns[0].artifact
              && (forall v :: HasVerifier(baselineRuns, v) <==> HasVerifier(candidateRuns, v))
              && Safe(norm, suite, candidateRuns)
              && NoFamilyFalls(norm, suite, baselineRuns, candidateRuns)
  {
    OneSideExactly(suite, baselineRuns);
    OneSideExactly(suite, candidateRuns);
    SameVerifiersExactly(baselineRuns, candidateRuns);
    SafeExactly(norm, suite, candidateRuns);
    if RunsProblem(suite, baselineRuns) == None && RunsProblem(suite, candidateRuns) == None {
      AllAnswered(norm, suite, baselineRuns);
      AllAnswered(norm, suite, candidateRuns);
      ComparesExactly(norm, suite, baselineRuns, candidateRuns);
    }
    hide Compare, RunsProblem, OneSide, Unsafe, Safe, NoFamilyFalls, HasVerifier, Verifiers, AnsweredAll;
  }

  // ----- Shares

  /** `bps` is `part` of `whole` in basis points, rounded down. */
  ghost predicate IsShare(bps: int, part: int, whole: int) {
    bps * whole <= part * BPS < (bps + 1) * whole
  }

  /** `delta` is what the share rose by when `was` of `whole` became `now`. */
  ghost predicate IsRise(delta: int, was: int, now: int, whole: int) {
    exists before, after :: IsShare(before, was, whole) && IsShare(after, now, whole) && delta == after - before
  }

  /** The places of the cases these answers get right. */
  ghost function RightCases(norm: Norm, cases: seq<Case>, answers: map<Text, Text>): set<nat> {
    set i: nat | i < |cases| && cases[i].id in answers && answers[cases[i].id] == norm(cases[i].expected)
  }

  ghost function FamilyCases(cases: seq<Case>, f: Text): set<nat> {
    set i: nat | i < |cases| && cases[i].family == f
  }

  /** The pairs of a case and a run that answers it like this. */
  ghost function AgreeingVotes(norm: Norm, cases: seq<Case>, runs: seq<Run>, answers: map<Text, Text>): set<(nat, nat)> {
    set i: nat, j: nat | i < |cases| && j < |runs| && Agrees(norm, cases[i].id, runs[j], answers) :: (i, j)
  }

  predicate Agrees(norm: Norm, id: Text, r: Run, answers: map<Text, Text>) {
    id in answers && id in r.answers && norm(r.answers[id]) == answers[id]
  }

  ghost function Risen(deltas: map<Text, int>): set<Text> {
    set f | f in deltas && deltas[f] > 0
  }

  /** Accuracy is the share of cases the majority gets right, and the gain its rise in millionths. */
  ghost predicate AccuraciesShown(report: Report, cases: nat, was: set<nat>, now: set<nat>) {
    && IsShare(report.baselineAccuracyBps, |was|, cases) && IsShare(report.candidateAccuracyBps, |now|, cases)
    && report.gainPpm == 100 * (report.candidateAccuracyBps - report.baselineAccuracyBps)
  }

  /** Every family is shown with what its accuracy rose by; generality is the share of those that rose. */
  ghost predicate FamiliesShown(report: Report, cases: seq<Case>, was: set<nat>, now: set<nat>) {
    && report.familyDeltas.Keys == Families(cases)
    && (forall f | f in report.familyDeltas :: RoseInFamily(report.familyDeltas[f], FamilyCases(cases, f), was, now))
    && IsShare(report.generalityBps, |Risen(report.familyDeltas)|, |report.familyDeltas|)
  }

  ghost predicate RoseInFamily(delta: int, family: set<nat>, was: set<nat>, now: set<nat>) {
    IsRise(delta, |was * family|, |now * family|, |family|)
  }

  /** Every rate of the report is a share, reproducibility that of the votes which agree with the majority. */
  ghost predicate ReportsShares(report: Report, norm: Norm, cases: seq<Case>, runs: seq<Run>,
                                baseline: map<Text, Text>, candidate: map<Text, Text>) {
    && AccuraciesShown(report, |cases|, RightCases(norm, cases, baseline), RightCases(norm, cases, candidate))
    && FamiliesShown(report, cases, RightCases(norm, cases, baseline), RightCases(norm, cases, candidate))
    && IsShare(report.reproducibilityBps, |AgreeingVotes(norm, cases, runs, candidate)|, |runs| * |cases|)
  }

  lemma QuotientIsShare(part: nat, whole: nat)
    requires whole > 0
    ensures IsShare(part * BPS / whole, part, whole)
  {
    Floor(part * BPS, whole);
  }

  // ----- Counting

  ghost function Marked<T>(f: T -> int, s: seq<T>): set<nat> {
    set i: nat | i < |s| && f(s[i]) == 1
  }

  lemma {:induction false} SumIsNumberMarked<T>(f: T -> int, s: seq<T>)
    requires forall x :: f(x) == 0 || f(x) == 1
    ensures SumBy(f, s) == |Marked(f, s)|
  {
    if s == [] {
      assert Marked(f, s) == {};
    } else {
      var n := |s| - 1;
      SumIsNumberMarked(f, s[..n]);
      SumByPrefix(f, s, n);
      assert s[..n + 1] == s;
      assert Marked(f, s) == Marked(f, s[..n]) + if f(s[n]) == 1 then {n} else {};
    }
  }

  lemma {:induction false} FamilySum(g: Case -> int, cases: seq<Case>, f: Text)
    ensures SumBy(g, InFamily(cases, f)) == SumBy((c: Case) => if c.family == f then g(c) else 0, cases)
  {
    if cases != [] {
      FamilySum(g, cases[1..], f);
      SumByAppend(g, if cases[0].family == f then [cases[0]] else [], InFamily(cases[1..], f));
    }
  }

  lemma {:induction false} LengthIsSum<T>(s: seq<T>)
    ensures SumBy((x: T) => 1, s) == |s|
  {
    if s != [] {
      LengthIsSum(s[1..]);
    }
  }

  lemma CorrectCounts(norm: Norm, cases: seq<Case>, answers: map<Text, Text>)
    ensures Correct(norm, cases, answers) == |RightCases(norm, cases, answers)|
  {
    var right := (c: Case) => Right(norm, answers, c);
    SumIsNumberMarked(right, cases);
    assert Marked(right, cases) == RightCases(norm, cases, answers);
  }

  lemma FamilyCounts(norm: Norm, cases: seq<Case>, answers: map<Text, Text>, f: Text)
    ensures Correct(norm, InFamily(cases, f), answers) == |RightCases(norm, cases, answers) * FamilyCases(cases, f)|
  {
    var right := (c: Case) => Right(norm, answers, c);
    var here := (c: Case) => if c.family == f then right(c) else 0;
    FamilySum(right, cases, f);
    SumIsNumberMarked(here, cases);
    assert Marked(here, cases) == RightCases(norm, cases, answers) * FamilyCases(cases, f);
  }

  lemma FamilySize(cases: seq<Case>, f: Text)
    ensures |InFamily(cases, f)| == |FamilyCases(cases, f)|
  {
    var one := (c: Case) => 1;
    var here := (c: Case) => if c.family == f then one(c) else 0;
    FamilySum(one, cases, f);
    LengthIsSum(InFamily(cases, f));
    SumIsNumberMarked(here, cases);
    assert Marked(here, cases) == FamilyCases(cases, f);
  }

  ghost function PairsWith(i: nat, places: set<nat>): set<(nat, nat)> {
    set j | j in places :: (i, j)
  }

  lemma {:induction false} NumberOfPairs(i: nat, places: set<nat>)
    ensures |PairsWith(i, places)| == |places|
  {
    if places == {} {
      assert PairsWith(i, places) == {};
    } else {
      var j :| j in places;
      NumberOfPairs(i, places - {j});
      assert (i, j) !in PairsWith(i, places - {j});
      assert PairsWith(i, places) == PairsWith(i, places - {j}) + {(i, j)};
    }
  }

  lemma {:induction false} AgreementsCount(norm: Norm, cases: seq<Case>, runs: seq<Run>, answers: map<Text, Text>)
    ensures Agreements(norm, cases, runs, answers) == |AgreeingVotes(norm, cases, runs, answers)|
  {
    if cases == [] {
      assert AgreeingVotes(norm, cases, runs, answers) == {};
    } else {
      var n := |cases| - 1;
      AgreementsCount(norm, cases[..n], runs, answers);
      SumByPrefix((c: Case) => AgreementsOn(norm, runs, answers, c), cases, n);
      assert cases[..n + 1] == cases;
      VotersCount(norm, cases[n], runs, answers);
      VotesOfOneMore(norm, cases, runs, answers);
    }
  }

  ghost function Voters(norm: Norm, id: Text, runs: seq<Run>, answers: map<Text, Text>): set<nat> {
    set j: nat | j < |runs| && Agrees(norm, id, runs[j], answers)
  }

  lemma VotesOfOneMore(norm: Norm, cases: seq<Case>, runs: seq<Run>, answers: map<Text, Text>)
    requires cases != []
    ensures var n := |cases| - 1;
            |AgreeingVotes(norm, cases, runs, answers)|
            == |AgreeingVotes(norm, cases[..n], runs, answers)| + |Voters(norm, cases[n].id, runs, answers)|
  {
    hide Agrees;
    var n := |cases| - 1;
    var before, voters := AgreeingVotes(norm, cases[..n], runs, answers), Voters(norm, cases[n].id, runs, answers);
    NumberOfPairs(n, voters);
    assert before !! PairsWith(n, voters);
    assert AgreeingVotes(norm, cases, runs, answers) == before + PairsWith(n, voters);
  }

  lemma VotersCount(norm: Norm, c: Case, runs: seq<Run>, answers: map<Text, Text>)
    ensures AgreementsOn(norm, runs, answers, c) == |Voters(norm, c.id, runs, answers)|
  {
    if c.id in answers {
      var says := (r: Run) => Says(norm, r, c.id, answers[c.id]);
      SumIsNumberMarked(says, runs);
      assert Marked(says, runs) == Voters(norm, c.id, runs, answers);
    } else {
      assert Voters(norm, c.id, runs, answers) == {};
    }
  }

  // ----- The report

  lemma AccuracyIsShare(norm: Norm, cases: seq<Case>, answers: map<Text, Text>)
    requires cases != []
    ensures IsShare(AccuracyBps(norm, cases, answers), |RightCases(norm, cases, answers)|, |cases|)
  {
    CorrectCounts(norm, cases, answers);
    QuotientIsShare(Correct(norm, cases, answers), |cases|);
  }

  lemma FamilyAccuracyIsShare(norm: Norm, cases: seq<Case>, answers: map<Text, Text>, f: Text)
    requires f in Families(cases)
    ensures IsShare(AccuracyBps(norm, InFamily(cases, f), answers),
                    |RightCases(norm, cases, answers) * FamilyCases(cases, f)|, |FamilyCases(cases, f)|)
  {
    InFamilyHas(cases, f);
    FamilyCounts(norm, cases, answers, f);
    FamilySize(cases, f);
    QuotientIsShare(Correct(norm, InFamily(cases, f), answers), |InFamily(cases, f)|);
  }

  lemma DeltaIsRise(norm: Norm, cases: seq<Case>, baseline: map<Text, Text>, candidate: map<Text, Text>, f: Text)
    requires f in Families(cases)
    ensures IsRise(DeltaOf(norm, cases, baseline, candidate, f), |RightCases(norm, cases, baseline) * FamilyCases(cases, f)|,
                   |RightCases(norm, cases, candidate) * FamilyCases(cases, f)|, |FamilyCases(cases, f)|)
  {
    FamilyAccuracyIsShare(norm, cases, baseline, f);
    FamilyAccuracyIsShare(norm, cases, candidate, f);
    hide IsShare, AccuracyBps;
  }

  lemma AgreementIsShare(norm: Norm, cases: seq<Case>, runs: seq<Run>, answers: map<Text, Text>)
    requires cases != [] && runs != []
    ensures |runs| * |cases| > 0
    ensures IsShare(Agreements(norm, cases, runs, answers) * BPS / (|runs| * |cases|),
                    |AgreeingVotes(norm, cases, runs, answers)|, |runs| * |cases|)
  {
    MulMonotone(1, 1, |runs|, |cases|);
    AgreementsCount(norm, cases, runs, answers);
    QuotientIsShare(Agreements(norm, cases, runs, answers), |runs| * |cases|);
  }

  lemma ReportOfShares(norm: Norm, suite: Suite, baselineRuns: seq<Run>, candidateRuns: seq<Run>,
                       baseline: map<Text, Text>, candidate: map<Text, Text>)
    requires suite.cases != [] && baselineRuns != [] && candidateRuns != []
    ensures var deltas := Deltas(norm, suite, baseline, candidate);
            deltas != map[]
            && ReportsShares(ReportOf(norm, suite, baselineRuns, candidateRuns, baseline, candidate, deltas,
                                      Agreements(norm, suite.cases, candidateRuns, candidate)),
                             norm, suite.cases, candidateRuns, baseline, candidate)
  {
    hide IsShare, IsRise, DeltaOf, AccuracyBps, RightCases, FamilyCases, AgreeingVotes, Agreements, CoversAll, Median, Energies;
    var cases := suite.cases;
    var deltas := Deltas(norm, suite, baseline, candidate);
    SomeFamily(cases);
    assert deltas.Keys == Families(cases);
    AccuracyIsShare(norm, cases, baseline);
    AccuracyIsShare(norm, cases, candidate);
    forall f | f in deltas
      ensures RoseInFamily(deltas[f], FamilyCases(cases, f), RightCases(norm, cases, baseline), RightCases(norm, cases, candidate))
    {
      DeltaIsRise(norm, cases, baseline, candidate, f);
    }
    QuotientIsShare(|Risen(deltas)|, |deltas|);
    AgreementIsShare(norm, cases, candidateRuns, candidate);
  }

  /** The rates of a report, counted. */
  lemma RatesAreShares(norm: Norm, suite: Suite, baselineRuns: seq<Run>, candidateRuns: seq<Run>)
    requires ValidSuite(suite) && Evaluate(norm, suite, baselineRuns, candidateRuns).Success?
    ensures AnsweredAll(norm, suite, baselineRuns) && AnsweredAll(norm, suite, candidateRuns)
    ensures ReportsShares(Evaluate(norm, suite, baselineRuns, candidateRuns).value.report, norm, suite.cases, candidateRuns,
                          Majorities(norm, suite, baselineRuns), Majorities(norm, suite, candidateRuns))
  {
    AllAnswered(norm, suite, baselineRuns);
    AllAnswered(norm, suite, candidateRuns);
    hide ReportOf, ReportsShares, RunsProblem, Unsafe, Majorities, Deltas, Agreements, Answered;
    ReportOfShares(norm, suite, baselineRuns, candidateRuns,
                   Majorities(norm, suite, baselineRuns), Majorities(norm, suite, candidateRuns));
  }

  // ----- Energy

  /** The middle one of the energies, or half the two middle ones, rounded down. */
  ghost predicate IsMiddleEnergy(energy: int, runs: seq<Run>) {
    exists low, high ::
      LowerMiddle(Energies(runs), low) && UpperMiddle(Energies(runs), high)
      && (|runs| % 2 == 1 ==> low == high) && 2 * energy <= low + high < 2 * energy + 2
  }

  lemma MedianIsMiddleEnergy(runs: seq<Run>)
    requires runs != []
    ensures IsMiddleEnergy(Median(Energies(runs)), runs)
  {
    hide Median, LowerMiddle, UpperMiddle;
    var low, high := MedianIsMiddle(Energies(runs));
  }

  lemma ReportEnergies(norm: Norm, suite: Suite, baselineRuns: seq<Run>, candidateRuns: seq<Run>)
    requires ValidSuite(suite) && Evaluate(norm, suite, baselineRuns, candidateRuns).Success?
    ensures baselineRuns != [] && candidateRuns != []
    ensures var report := Evaluate(norm, suite, baselineRuns, candidateRuns).value.report;
            && report.baselineEnergyWh == Median(Energies(baselineRuns))
            && report.candidateEnergyWh == Median(Energies(candidateRuns))
            && (report.energyAttested <==> forall r | r in baselineRuns || r in candidateRuns :: r.attested)
  {
    AllAnswered(norm, suite, baselineRuns);
    AllAnswered(norm, suite, candidateRuns);
    hide Majorities, Deltas, Agreements, Answered, AccuracyBps, CoversAll, Improved, Unsafe, Median, Energies;
    forall r ensures r in baselineRuns + candidateRuns <==> r in baselineRuns || r in candidateRuns {
    }
  }

  /** Each side's energy is the middle one of its own runs, and counts as attested only if it is for every run. */
  lemma EnergiesAreMiddle(norm: Norm, suite: Suite, baselineRuns: seq<Run>, candidateRuns: seq<Run>)
    requires ValidSuite(suite) && Evaluate(norm, suite, baselineRuns, candidateRuns).Success?
    ensures var report := Evaluate(norm, suite, baselineRuns, candidateRuns).value.report;
            && IsMiddleEnergy(report.baselineEnergyWh, baselineRuns) && IsMiddleEnergy(report.candidateEnergyWh, candidateRuns)
            && (report.energyAttested <==> forall r | r in baselineRuns || r in candidateRuns :: r.attested)
  {
    ReportEnergies(norm, suite, baselineRuns, candidateRuns);
    hide Evaluate, IsMiddleEnergy, Median;
    MedianIsMiddleEnergy(baselineRuns);
    MedianIsMiddleEnergy(candidateRuns);
  }

  // ----- What the rates mean at their ends

  lemma {:induction false} AllVotes(norm: Norm, runs: seq<Run>, id: Text, a: Text)
    ensures Votes(norm, runs, id, a) == |runs| <==> forall r | r in runs :: id in r.answers && norm(r.answers[id]) == a
  {
    if runs != [] {
      AllVotes(norm, runs[1..], id, a);
      VotesBounds(norm, runs[1..], id, a);
      assert forall r :: r in runs <==> r == runs[0] || r in runs[1..];
    }
  }

  /** Every run answers every case as the majority does. */
  ghost predicate AllAgree(norm: Norm, cases: seq<Case>, runs: seq<Run>, answers: map<Text, Text>) {
    forall c, r | c in cases && r in runs :: c.id in answers && c.id in r.answers && norm(r.answers[c.id]) == answers[c.id]
  }

  lemma {:induction false} AgreementsAreFull(norm: Norm, cases: seq<Case>, runs: seq<Run>, answers: map<Text, Text>)
    requires runs != [] && forall c | c in cases :: c.id in answers && Votes(norm, runs, c.id, answers[c.id]) > 0
    ensures Agreements(norm, cases, runs, answers) == |runs| * |cases| <==> AllAgree(norm, cases, runs, answers)
  {
    if cases != [] {
      var first, rest := cases[0], cases[1..];
      assert forall c :: c in cases <==> c == first || c in rest;
      AgreementsAreFull(norm, rest, runs, answers);
      AgreementBounds(norm, rest, runs, answers);
      AllVotes(norm, runs, first.id, answers[first.id]);
      VotesBounds(norm, runs, first.id, answers[first.id]);
      OneMore(|runs|, |rest|);
      hide Votes;
    }
  }

  /** A share of n is whole only when it is all of them, and nothing only below one basis point. */
  lemma ShareAtTheEnds(x: nat, n: nat)
    requires x <= n && 0 < n
    ensures x * BPS / n == BPS <==> x == n
    ensures n <= BPS ==> (x * BPS / n == 0 <==> x == 0)
  {
    Floor(x * BPS, n);
    if x < n {
      assert x * BPS < n * (BPS - 1) + n;
      DivAtMost(x * BPS, n, BPS - 1);
    } else {
      DivAtLeast(x * BPS, n, BPS);
      DivAtMost(x * BPS, n, BPS);
    }
    if 0 < x && n <= BPS {
      DivAtLeast(x * BPS, n, 1);
    } else if x == 0 {
      DivAtMost(0, n, 0);
      DivAtLeast(0, n, 0);
    }
  }

  /** Every two of these runs give one answer to every case. */
  ghost predicate Unanimous(norm: Norm, suite: Suite, runs: seq<Run>) {
    forall c, r, s | c in suite.cases && r in runs && s in runs ::
      c.id in r.answers && c.id in s.answers && norm(r.answers[c.id]) == norm(s.answers[c.id])
  }

  lemma AgreeingIsUnanimous(norm: Norm, suite: Suite, runs: seq<Run>)
    requires AnsweredAll(norm, suite, runs)
    ensures AllAgree(norm, suite.cases, runs, Majorities(norm, suite, runs)) <==> Unanimous(norm, suite, runs)
  {
    hide Votes, MajorityOf;
    var answers := Majorities(norm, suite, runs);
    forall c, r | c in suite.cases && r in runs ensures c.id in answers && c.id in r.answers {
      assert c.id in CaseIds(suite.cases) && Answered(norm, runs, c.id);
    }
    if Unanimous(norm, suite, runs) {
      forall c, r | c in suite.cases && r in runs ensures norm(r.answers[c.id]) == answers[c.id] {
        assert Answered(norm, runs, c.id);
        var a := MajorityOf(norm, runs, c.id);
        assert Votes(norm, runs, c.id, a) > 0;
        SomeVote(norm, runs, c.id, a);
        var s :| s in runs && c.id in s.answers && norm(s.answers[c.id]) == a;
      }
    }
  }

  lemma ImprovedAtTheEnds(deltas: map<Text, int>)
    ensures Improved(deltas) == |deltas| <==> forall f | f in deltas :: deltas[f] > 0
    ensures Improved(deltas) == 0 <==> forall f | f in deltas :: deltas[f] <= 0
  {
    var better := set f | f in deltas && deltas[f] > 0;
    assert |deltas.Keys| == |deltas|;
    if |better| == |deltas| {
      SubsetFills(better, deltas.Keys);
    }
    if forall f | f in deltas :: deltas[f] > 0 {
      assert better == deltas.Keys;
    }
    if |better| == 0 {
      forall f | f in deltas ensures deltas[f] <= 0 {
        assert f !in better;
      }
    } else {
      var f :| f in better;
    }
  }

  /** The rates of a report are these quotients. */
  ghost predicate HasRates(report: Report, norm: Norm, suite: Suite, runs: seq<Run>)
    requires AnsweredAll(norm, suite, runs)
  {
    && |runs| * |suite.cases| > 0 && report.familyDeltas.Keys == Families(suite.cases) && report.familyDeltas != map[]
    && report.generalityBps == Improved(report.familyDeltas) * BPS / |report.familyDeltas|
    && report.reproducibilityBps == Agreements(norm, suite.cases, runs, Majorities(norm, suite, runs)) * BPS / (|runs| * |suite.cases|)
  }

  lemma ComparisonRates(norm: Norm, suite: Suite, baselineRuns: seq<Run>, candidateRuns: seq<Run>)
    requires suite.cases != [] && AnsweredAll(norm, suite, baselineRuns) && AnsweredAll(norm, suite, candidateRuns)
    requires Compare(norm, suite, baselineRuns, candidateRuns).Success?
    ensures HasRates(Compare(norm, suite, baselineRuns, candidateRuns).value.report, norm, suite, candidateRuns)
  {
    hide AccuracyBps, Answered, Agreements, CoversAll, Improved, MajorityOf, Energies, Median, DeltaOf;
    SomeFamily(suite.cases);
    MulMonotone(1, 1, |candidateRuns|, |suite.cases|);
    assert Compare(norm, suite, baselineRuns, candidateRuns).value.report.familyDeltas.Keys == Families(suite.cases);
  }

  lemma ReportRates(norm: Norm, suite: Suite, baselineRuns: seq<Run>, candidateRuns: seq<Run>)
    requires ValidSuite(suite) && Evaluate(norm, suite, baselineRuns, candidateRuns).Success?
    ensures AnsweredAll(norm, suite, candidateRuns)
    ensures HasRates(Evaluate(norm, suite, baselineRuns, candidateRuns).value.report, norm, suite, candidateRuns)
  {
    hide Compare, HasRates, RunsProblem, Unsafe;
    AllAnswered(norm, suite, baselineRuns);
    AllAnswered(norm, suite, candidateRuns);
    ComparisonRates(norm, suite, baselineRuns, candidateRuns);
  }

  /** Full reproducibility is unanimity of the candidate's runs; full generality is a gain in every
      family, and none at all a gain in no family. */
  lemma RatesAtTheEnds(norm: Norm, suite: Suite, baselineRuns: seq<Run>, candidateRuns: seq<Run>)
    requires ValidSuite(suite) && Evaluate(norm, suite, baselineRuns, candidateRuns).Success?
    ensures var report := Evaluate(norm, suite, baselineRuns, candidateRuns).value.report;
            && (report.reproducibilityBps == BPS <==> Unanimous(norm, suite, candidateRuns))
            && (report.generalityBps == BPS <==> forall f | f in report.familyDeltas :: report.familyDeltas[f] > 0)
            && (report.generalityBps == 0 <==> forall f | f in report.familyDeltas :: report.familyDeltas[f] <= 0)
  {
    ReportRates(norm, suite, baselineRuns, candidateRuns);
    hide Evaluate, Improved, Agreements, Unanimous, Answered, Majorities;
    var deltas := Evaluate(norm, suite, baselineRuns, candidateRuns).value.report.familyDeltas;
    FamiliesAtMostCases(suite.cases);
    assert |deltas.Keys| == |deltas|;
    ReproducibleWhenFull(norm, suite, candidateRuns);
    ImprovedBounds(deltas);
    ImprovedAtTheEnds(deltas);
    ShareAtTheEnds(Improved(deltas), |deltas|);
  }

  lemma ReproducibleWhenFull(norm: Norm, suite: Suite, runs: seq<Run>)
    requires suite.cases != [] && AnsweredAll(norm, suite, runs)
    ensures |runs| * |suite.cases| > 0
    ensures Agreements(norm, suite.cases, runs, Majorities(norm, suite, runs)) * BPS / (|runs| * |suite.cases|) == BPS
            <==> Unanimous(norm, suite, runs)
  {
    var answers := Majorities(norm, suite, runs);
    MajoritiesHaveVotes(norm, suite, runs);
    hide Agreements, Unanimous, AllAgree, Answered, Majorities, Votes;
    AgreementBounds(norm, suite.cases, runs, answers);
    AgreementsAreFull(norm, suite.cases, runs, answers);
    AgreeingIsUnanimous(norm, suite, runs);
    MulMonotone(1, 1, |runs|, |suite.cases|);
    ShareAtTheEnds(Agreements(norm, suite.cases, runs, answers), |runs| * |suite.cases|);
  }
}
