/** nir/execution_receipt.py: an assignment, a bundle run by its committee and signers, which meet
    everything that the results on signed receipts assume. */
module ReceiptExamples {
  import opened Ordering
  import opened Results
  import opened AuthorityQuorum
  import opened Bundles
  import opened ExecutionReceipts
  import opened EvaluationExamples
  import Evaluator

  ghost function SampleRules(): Bundles.Rules {
    Rules(Plain(), (t: Text) => true, (t: Text) => true, [14], (e: Environment) => [2], (c: Commitment) => [10],
          (t: Transcript) => [11], (b: Bundle) => [12], (s: Evaluator.Suite, salt: Text, c: Text) => true,
          (r: Role, path: Text, digest: Text) => [3])
  }

  function SampleTranscript(role: Role, run: Evaluator.Run): Transcript {
    Transcript(role, [1], 5, [2], [3], [4], [6], StaticAdapter, run)
  }

  function Transcripts(role: Role, artifact: Text, answers: map<Text, Text>): seq<Transcript> {
    [SampleTranscript(role, RunOf(0, artifact, answers)), SampleTranscript(role, RunOf(1, artifact, answers)),
     SampleTranscript(role, RunOf(2, artifact, answers))]
  }

  ghost function SampleParts(): Parts {
    Parts(Commitment([1], [1], [7], [98], [97], [3], [3], [[8]], [9], 4), [1], 5, Environment([], [], [14], 0, 0, 0),
          LossSuite(), [], Transcripts(Baseline, [97], Before()), Transcripts(Candidate, [98], After()))
  }

  lemma TranscriptsHaveRuns(role: Role, artifact: Text, answers: map<Text, Text>)
    ensures RunsOf(Transcripts(role, artifact, answers)) == Agreeing(artifact, answers)
    ensures BindingsOf(Transcripts(role, artifact, answers)) == {Binding([3], [4], [6], StaticAdapter)}
    ensures AdaptersOf(Transcripts(role, artifact, answers)) == {StaticAdapter}
  {
    var items := Transcripts(role, artifact, answers);
    assert items[0] in items;
    assert RunsOf(items) == [items[0].run, items[1].run, items[2].run];
  }

  lemma TranscriptsAreBound(role: Role, artifact: Text, answers: map<Text, Text>)
    ensures forall t | t in Transcripts(role, artifact, answers) ::
              t.role == role && t.run.artifact == artifact && !t.run.attested && Bound(SampleRules(), SampleParts(), t)
  {
  }

  lemma SampleCommitmentIsValid()
    ensures ValidCommitment(SampleRules(), SampleParts().commitment)
  {
  }

  /** With one static binding in each role, nothing but the commitment and the transcripts is checked. */
  lemma StaticIsBound(rules: Bundles.Rules, p: Parts)
    requires ValidCommitment(rules, p.commitment) && rules.isDigest(p.challengeSeed) && p.challengeEpoch > p.commitment.committedEpoch
    requires rules.opens(p.suite, p.suiteSalt, p.commitment.suiteCommitment)
    requires forall t | t in p.baseline :: t.role == Baseline && t.run.artifact == p.commitment.baseline
    requires forall t | t in p.candidate :: t.role == Candidate && t.run.artifact == p.commitment.artifact
    requires forall t | t in p.baseline || t in p.candidate :: !t.run.attested && Bound(rules, p, t)
    requires AdaptersOf(p.baseline) == AdaptersOf(p.candidate) == {StaticAdapter}
    requires OneBinding(p.baseline, p.commitment.baselineContent) && OneBinding(p.candidate, p.commitment.content)
    ensures BindingProblem(rules, p) == None
  {
    hide ValidCommitment, Bound, OneBinding, AdaptersOf;
    AdaptersOfBoth(p.baseline, p.candidate);
    forall t | t in p.baseline + p.candidate ensures Bound(rules, p, t) && !t.run.attested {
      assert t in p.baseline || t in p.candidate;
    }
    assert {StaticAdapter} + {StaticAdapter} == {StaticAdapter};
  }

  lemma SampleIsBound()
    ensures BindingProblem(SampleRules(), SampleParts()) == None
  {
    hide Before, After, LossSuite, ValidCommitment, Bound, AdaptersOf, BindingsOf, BindingProblem;
    TranscriptsHaveRuns(Baseline, [97], Before());
    TranscriptsHaveRuns(Candidate, [98], After());
    TranscriptsAreBound(Baseline, [97], Before());
    TranscriptsAreBound(Candidate, [98], After());
    SampleCommitmentIsValid();
    hide Transcripts;
    StaticIsBound(SampleRules(), SampleParts());
  }

  lemma AdaptersOfBoth(a: seq<Transcript>, b: seq<Transcript>)
    ensures AdaptersOf(a + b) == AdaptersOf(a) + AdaptersOf(b)
  {
    assert forall t :: t in a + b <==> t in a || t in b;
  }

  /** The bundle made of these parts, with the report they earn. */
  lemma SampleBundle() returns (b: Bundle)
    ensures b.parts == SampleParts() && Evaluator.ValidSuite(b.parts.suite) && Verified(SampleRules(), b)
  {
    hide BindingProblem, Evaluator.Evaluate, Evaluator.ValidSuite, Before, After, LossSuite, RunsOf, Transcripts, Agreeing;
    SampleIsBound();
    TranscriptsHaveRuns(Baseline, [97], Before());
    TranscriptsHaveRuns(Candidate, [98], After());
    var before, after := LossBoundIsAttained();
    HashCheckIsRedundant(SampleRules(), SampleParts());
    var p := SampleParts();
    var outcome := Evaluator.Evaluate(Plain(), LossSuite(), Agreeing([97], Before()), Agreeing([98], After())).value;
    b := Bundle(p, outcome.report);
    assert CreateBundle(SampleRules(), p) == Success(b);
  }

  ghost function SampleFormats(): Formats {
    Formats(SampleRules(), Keys((a: Assignment, signature: Text, key: Text) => true, (key: Text) => Some(key), (a: Attestation) => true),
            (t: Text) => true, (t: Text) => true, [17], (a: Assignment) => [19], (authorities: map<Text, Text>) => [20],
            (signature: Text) => true, (r: Receipt, signature: Text, key: Text) => signature == key)
  }

  function SampleAssignment(): Assignment {
    V2(Terms([1], [13], [10], [7], [1], 5, [2], [9], [97], [3], [98], [3], [14], [15], [20],
             [Assigned([0], [0]), Assigned([1], [1]), Assigned([2], [2])], 10),
       1, [16], 2, 5, [17], [18], [[8]])
  }

  function SampleContext(): Context {
    Context(None, [1], [13], 6, Some(Anchor(true, true, true, [19], 1, [16])), [14], [15])
  }

  lemma SampleAssignmentIsOk()
    ensures AssignmentOk(SampleFormats(), SampleAssignment(), SampleContext())
  {
    var a := SampleAssignment();
    var ids := Ids(a.terms.evaluators);
    assert ids == [[0], [1], [2]];
    assert TextLeq([0], [1]) && TextLeq([1], [2]);
    assert Ascending(ids);
  }

  lemma SampleCommittee(b: Bundle)
    requires b.parts == SampleParts()
    ensures RunByCommittee(SampleAssignment(), b)
  {
    hide Before, After, LossSuite, Evaluator.Verifiers, RunsOf, Transcripts, Agreeing, Ids;
    TranscriptsHaveRuns(Baseline, [97], Before());
    AgreeingVerifiers([97], Before());
    SampleIds();
  }

  lemma SampleIds()
    ensures Ids(SampleAssignment().terms.evaluators) == [[0], [1], [2]]
  {
  }

  lemma SampleTable(b: Bundle) returns (table: map<Seat, Transcript>)
    requires Evaluator.ValidSuite(b.parts.suite) && Verified(SampleRules(), b)
    ensures IsTable(table, Items(b))
  {
    hide Evaluator.ValidSuite, VerifyBundle;
    VerifiedHasCommittee(SampleRules(), b, Some(SampleRules().bundleHash(b)));
    CommitteeSeatsDiffer(SampleRules(), b);
    table := Tabled(Items(b));
  }

  lemma {:induction false} Tabled(items: seq<Transcript>) returns (table: map<Seat, Transcript>)
    ensures IsTable(table, items)
  {
    if items == [] {
      table := map[];
    } else {
      var last := items[|items| - 1];
      table := Tabled(items[..|items| - 1]);
      table := table[SeatOf(last) := last];
      assert items == items[..|items| - 1] + [last];
    }
  }

  /** A verified bundle, run by the committee of an accepted assignment, with signers that sign
      correctly: the results on signed receipts are about something. */
  lemma SignedCommitteeExists() returns (f: Formats, a: Assignment, b: Bundle, c: Context, table: map<Seat, Transcript>, signer: Signer)
    ensures Evaluator.ValidSuite(b.parts.suite) && Trusted(f, a, b, c) && RunByCommittee(a, b) && IsTable(table, Items(b))
    ensures HashesAreDigests(f) && SignerIsCorrect(f, a, signer)
    ensures |Items(b)| == 6
  {
    hide Evaluator.ValidSuite, Verified, AssignmentOk, RunByCommittee, IsTable, LossSuite, Before, After;
    f, a, c := SampleFormats(), SampleAssignment(), SampleContext();
    b := SampleBundle();
    SampleAssignmentIsOk();
    SampleCommittee(b);
    table := SampleTable(b);
    signer := (id: Text, r: Receipt) => id;
  }
}
