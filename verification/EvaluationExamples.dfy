/** nir/evaluator.py: a suite and runs on which the bound on an overall loss is reached. */
module EvaluationExamples {
  import opened Ordering
  import opened Results
  import opened Sums
  import opened Evaluator
  import EvaluationReports

  // ----- Three verifiers that agree

  /** A table that folds nothing. */
  function Plain(): Norm {
    (t: Text) => t
  }

  function RunOf(n: CodePoint, artifact: Text, answers: map<Text, Text>): Run {
    Run([n], [n], artifact, 1, answers, false)
  }

  function Agreeing(artifact: Text, answers: map<Text, Text>): seq<Run> {
    [RunOf(0, artifact, answers), RunOf(1, artifact, answers), RunOf(2, artifact, answers)]
  }

  function Three(): set<Text> {
    {[0], [1], [2]}
  }

  lemma ThreeAreThree()
    ensures |Three()| == 3
  {
    assert Three() == {[0]} + {[1]} + {[2]};
  }

  lemma AgreeingVerifiers(artifact: Text, answers: map<Text, Text>)
    ensures Verifiers(Agreeing(artifact, answers)) == Three() && RunIds(Agreeing(artifact, answers)) == Three()
    ensures Artifacts(Agreeing(artifact, answers)) == {artifact}
  {
    var runs := Agreeing(artifact, answers);
    assert runs[0] in runs && runs[1] in runs && runs[2] in runs;
  }

  lemma AgreeingHaveNoProblem(suite: Suite, artifact: Text, answers: map<Text, Text>)
    requires answers.Keys == CaseIds(suite.cases)
    ensures RunsProblem(suite, Agreeing(artifact, answers)) == None
  {
    hide Verifiers, RunIds, Artifacts, CaseIds;
    ThreeAreThree();
    AgreeingVerifiers(artifact, answers);
  }

  lemma AgreeingMajority(artifact: Text, answers: map<Text, Text>, id: Text)
    requires id in answers
    ensures Answered(Plain(), Agreeing(artifact, answers), id)
    ensures MajorityOf(Plain(), Agreeing(artifact, answers), id) == answers[id]
  {
    hide Votes;
    var runs := Agreeing(artifact, answers);
    assert Answered(Plain(), runs, id);
    SomeVote(Plain(), runs, id, MajorityOf(Plain(), runs, id));
  }

  lemma AgreeingMajorities(suite: Suite, artifact: Text, answers: map<Text, Text>)
    requires answers.Keys == CaseIds(suite.cases)
    ensures AnsweredAll(Plain(), suite, Agreeing(artifact, answers))
    ensures Majorities(Plain(), suite, Agreeing(artifact, answers)) == answers
  {
    hide MajorityOf, Answered, Plain;
    forall c | c in suite.cases ensures Answered(Plain(), Agreeing(artifact, answers), c.id) {
      assert c.id in CaseIds(suite.cases);
      AgreeingMajority(artifact, answers, c.id);
    }
    forall id | id in CaseIds(suite.cases) ensures MajorityOf(Plain(), Agreeing(artifact, answers), id) == answers[id] {
      AgreeingMajority(artifact, answers, id);
    }
  }

  /** Two artifacts, each answered alike by the same three verifiers, are compared by their answers. */
  lemma AgreeingAreCompared(suite: Suite, a: Text, before: map<Text, Text>, b: Text, after: map<Text, Text>)
    requires ValidSuite(suite) && a != b && before.Keys == after.Keys == CaseIds(suite.cases)
    requires forall c | c in suite.cases :: !c.critical
    requires forall f | f in Families(suite.cases) :: DeltaOf(Plain(), suite.cases, before, after, f) >= -MAX_FAMILY_REGRESSION_BPS
    ensures var outcome := Evaluate(Plain(), suite, Agreeing(a, before), Agreeing(b, after));
            outcome.Success? && outcome.value.baselineHash == a && outcome.value.candidateHash == b
            && outcome.value.report.familyDeltas == Deltas(Plain(), suite, before, after)
            && outcome.value.report.gainPpm
               == (AccuracyBps(Plain(), suite.cases, after) - AccuracyBps(Plain(), suite.cases, before)) * 100
  {
    hide CaseIds, MajorityOf, Answered, Plain, DeltaOf, AccuracyBps, Agreements, Median, Energies, Improved, CoversAll, RunsProblem;
    AgreeingHaveNoProblem(suite, a, before);
    AgreeingHaveNoProblem(suite, b, after);
    AgreeingVerifiers(a, before);
    AgreeingVerifiers(b, after);
    AgreeingMajorities(suite, a, before);
    AgreeingMajorities(suite, b, after);
  }

  // ----- A suite whose percentages round badly

  const FIRST_FAMILY := 519
  const CASES := 539

  /** 519 cases of one family, and 20 of another. */
  function CaseAt(i: nat): Case
    requires i < CASES
  {
    Case([i], if i < FIRST_FAMILY then [65] else [66], [49], false, None)
  }

  function LossCases(): (cases: seq<Case>)
    ensures |cases| == CASES && forall i | 0 <= i < CASES :: cases[i] == CaseAt(i)
  {
    seq(CASES, i requires 0 <= i < CASES => CaseAt(i))
  }

  function LossSuite(): Suite {
    Suite([83], LossCases())
  }

  /** The answers in which exactly these cases are right. */
  function Marks(right: int -> bool): map<Text, Text> {
    map i | 0 <= i < CASES :: [i] := if right(i) then [49] else [48]
  }

  /** 26 of the first family, 2 of the second. */
  function Before(): map<Text, Text> {
    Marks(i => i < 26 || i == 519 || i == 520)
  }

  /** None of the first, 1 of the second. */
  function After(): map<Text, Text> {
    Marks(i => i == 519)
  }

  lemma LossSuiteIsValid()
    ensures ValidSuite(LossSuite())
    ensures CaseIds(LossCases()) == Before().Keys == After().Keys
    ensures Families(LossCases()) == {[65], [66]}
  {
    var cases := LossCases();
    forall c | c in cases ensures exists i :: 0 <= i < CASES && c == CaseAt(i) {
      var i :| 0 <= i < CASES && cases[i] == c;
    }
    forall id ensures id in CaseIds(cases) <==> exists i :: 0 <= i < CASES && id == [i] {
      if i :| 0 <= i < CASES && id == [i] {
        assert cases[i] in cases;
      }
    }
    assert cases[0] in cases && cases[519] in cases;
  }

  lemma {:induction false} OneFamily(cases: seq<Case>, f: Text, g: Text)
    requires forall c | c in cases :: c.family == f
    ensures InFamily(cases, g) == if f == g then cases else []
  {
    if cases != [] {
      assert cases[0] in cases;
      OneFamily(cases[1..], f, g);
    }
  }

  /** Cases of one family and then cases of another. */
  lemma {:induction false} TwoFamilies(a: seq<Case>, f: Text, b: seq<Case>, g: Text)
    requires f != g && (forall c | c in a :: c.family == f) && forall c | c in b :: c.family == g
    ensures InFamily(a + b, f) == a && InFamily(a + b, g) == b
  {
    if a == [] {
      assert a + b == b;
      OneFamily(b, g, f);
      OneFamily(b, g, g);
    } else {
      assert a[0] in a;
      assert (a + b)[1..] == a[1..] + b && (a + b)[0] == a[0];
      TwoFamilies(a[1..], f, b, g);
    }
  }

  lemma LossFamilies()
    ensures InFamily(LossCases(), [65]) == LossCases()[..FIRST_FAMILY]
    ensures InFamily(LossCases(), [66]) == LossCases()[FIRST_FAMILY..]
  {
    var cases := LossCases();
    var a, b := cases[..FIRST_FAMILY], cases[FIRST_FAMILY..];
    hide LossCases, InFamily;
    assert cases == a + b;
    TwoFamilies(a, [65], b, [66]);
  }

  /** A stretch of cases all right, or all wrong. */
  lemma {:induction false} Stretch(right: int -> bool, low: nat, high: nat, yes: bool)
    requires low <= high <= CASES && forall i | low <= i < high :: right(i) == yes
    ensures Correct(Plain(), LossCases()[low..high], Marks(right)) == if yes then high - low else 0
    decreases high - low
  {
    hide LossCases;
    if low < high {
      var cases := LossCases()[low..high];
      assert cases[0] == CaseAt(low) && cases[1..] == LossCases()[low + 1..high];
      Stretch(right, low + 1, high, yes);
      Marked(right, low);
      hide Marks, CaseAt;
    }
  }

  lemma Marked(right: int -> bool, i: nat)
    requires i < CASES
    ensures Right(Plain(), Marks(right), CaseAt(i)) == if right(i) then 1 else 0
  {
    assert [i] in Marks(right);
  }

  lemma Joined(answers: map<Text, Text>, low: nat, middle: nat, high: nat)
    requires low <= middle <= high <= CASES
    ensures Correct(Plain(), LossCases()[low..high], answers)
         == Correct(Plain(), LossCases()[low..middle], answers) + Correct(Plain(), LossCases()[middle..high], answers)
  {
    hide LossCases;
    assert LossCases()[low..high] == LossCases()[low..middle] + LossCases()[middle..high];
    SumByAppend((c: Case) => Right(Plain(), answers, c), LossCases()[low..middle], LossCases()[middle..high]);
  }

  lemma CountsBefore()
    ensures Correct(Plain(), LossCases()[0..FIRST_FAMILY], Before()) == 26
    ensures Correct(Plain(), LossCases()[FIRST_FAMILY..CASES], Before()) == 2
  {
    hide Correct, Marks, LossCases;
    var right := i => i < 26 || i == 519 || i == 520;
    Stretch(right, 0, 26, true);
    Stretch(right, 26, FIRST_FAMILY, false);
    Stretch(right, FIRST_FAMILY, 521, true);
    Stretch(right, 521, CASES, false);
    Joined(Marks(right), 0, 26, FIRST_FAMILY);
    Joined(Marks(right), FIRST_FAMILY, 521, CASES);
  }

  lemma CountsAfter()
    ensures Correct(Plain(), LossCases()[0..FIRST_FAMILY], After()) == 0
    ensures Correct(Plain(), LossCases()[FIRST_FAMILY..CASES], After()) == 1
  {
    hide Correct, Marks, LossCases;
    var right := i => i == 519;
    Stretch(right, 0, FIRST_FAMILY, false);
    Stretch(right, FIRST_FAMILY, 520, true);
    Stretch(right, 520, CASES, false);
    Joined(Marks(right), FIRST_FAMILY, 520, CASES);
  }

  lemma Rate(cases: seq<Case>, answers: map<Text, Text>, n: nat, right: nat)
    requires |cases| == n > 0 && Correct(Plain(), cases, answers) == right
    ensures AccuracyBps(Plain(), cases, answers) == right * BPS / n
  {
  }

  lemma LossRates()
    ensures AccuracyBps(Plain(), LossCases(), Before()) == 519 && AccuracyBps(Plain(), LossCases(), After()) == 18
    ensures DeltaOf(Plain(), LossCases(), Before(), After(), [65]) == -500
    ensures DeltaOf(Plain(), LossCases(), Before(), After(), [66]) == -500
  {
    hide Correct, Before, After, LossCases, InFamily, AccuracyBps;
    LossFamilies();
    CountsBefore();
    CountsAfter();
    Joined(Before(), 0, FIRST_FAMILY, CASES);
    Joined(After(), 0, FIRST_FAMILY, CASES);
    var all, first, second := LossCases(), LossCases()[0..FIRST_FAMILY], LossCases()[FIRST_FAMILY..CASES];
    assert all == LossCases()[0..CASES] && LossCases()[..FIRST_FAMILY] == first && LossCases()[FIRST_FAMILY..] == second;
    Rate(all, Before(), 539, 28);
    Rate(all, After(), 539, 1);
    Rate(first, Before(), 519, 26);
    Rate(first, After(), 519, 0);
    Rate(second, Before(), 20, 2);
    Rate(second, After(), 20, 1);
  }

  /** The bound of EvaluationReports.Sound on an overall loss is reached: either family loses 500
      basis points, and the report shows a loss of 501. */
  lemma LossBoundIsAttained() returns (before: seq<Run>, after: seq<Run>)
    ensures before == Agreeing([97], Before()) && after == Agreeing([98], After())
    ensures ValidSuite(LossSuite()) && Evaluate(Plain(), LossSuite(), before, after).Success?
    ensures Evaluate(Plain(), LossSuite(), before, after).value.report.gainPpm == -50_100
    ensures Evaluate(Plain(), LossSuite(), before, after).value.report.familyDeltas == map[[65] := -500, [66] := -500]
  {
    hide LossCases, Before, After, AccuracyBps, DeltaOf, CaseIds, Evaluate, ValidSuite;
    LossSuiteIsValid();
    LossRates();
    before, after := Agreeing([97], Before()), Agreeing([98], After());
    forall c | c in LossCases() ensures !c.critical {
      var i :| 0 <= i < CASES && LossCases()[i] == c;
      assert LossCases()[i] == CaseAt(i);
    }
    AgreeingAreCompared(LossSuite(), [97], Before(), [98], After());
  }
}
