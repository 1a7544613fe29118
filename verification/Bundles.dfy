/** nir/runner.py: evaluation bundles, rebuilt from their transcripts whenever they are verified. */
module Bundles {
  import opened Ordering
  import opened Results
  import opened Sums
  import opened Evaluator
  import EvaluationReports

  datatype Role = Baseline | Candidate

  datatype Adapter = StaticAdapter | ApplicationAdapter

  datatype Transcript = Transcript(
    role: Role, challengeSeed: Text, challengeEpoch: int, environmentHash: Text, contentHash: Text,
    entrypointDigest: Text, entrypointPath: Text, adapter: Adapter, run: Run)

  datatype Environment = Environment(
    imageDigest: Text, runnerDigest: Text, adapterProtocol: Text, cpuLimit: int, memoryLimitBytes: int, timeoutSeconds: int)

  datatype Commitment = Commitment(
    networkId: Text, recipient: Text, candidateId: Text, artifact: Text, baseline: Text, baselineContent: Text, content: Text,
    parents: seq<Text>, suiteCommitment: Text, committedEpoch: int)

  /** Everything a bundle is made from. */
  datatype Parts = Parts(
    commitment: Commitment, challengeSeed: Text, challengeEpoch: int, environment: Environment, suite: Suite, suiteSalt: Text,
    baseline: seq<Transcript>, candidate: seq<Transcript>)

  datatype Bundle = Bundle(parts: Parts, report: Report)

  /** Formats and hashes, left abstract: the 64-digit and "sha256:" forms, the commitments of an
      environment, a candidate, a transcript and a bundle, the suite reveal and the content of an
      application entrypoint. */
  datatype Rules = Rules(
    norm: Norm, isDigest: Text -> bool, isArtifact: Text -> bool, applicationProtocol: Text,
    environmentHash: Environment -> Text, commitmentHash: Commitment -> Text,
    transcriptHash: Transcript -> Text, bundleHash: Bundle -> Text,
    opens: (Suite, Text, Text) -> bool, applicationContent: (Role, Text, Text) -> Text)

  datatype BundleError =
    | BadCommitment | BadSeed | TooEarly | WrongReveal | BadTranscript | MixedAdapters | ClaimedEnergy | WrongProtocol
    | UnboundApplication | WrongRole | WrongArtifact | WrongContent | NotEvaluable(error: EvalError) | WrongHash | WrongReport | BadHash | OtherBundle

  predicate ValidCommitment(rules: Rules, c: Commitment) {
    && 1 <= |c.networkId| <= 128 && 1 <= |c.recipient| <= 256
    && rules.isDigest(c.candidateId) && rules.isArtifact(c.artifact) && rules.isArtifact(c.baseline)
    && rules.isArtifact(c.baselineContent) && rules.isArtifact(c.content)
    && 1 <= |c.parents| <= 32 && Ascending(c.parents)
    && (forall p | p in c.parents :: rules.isArtifact(p))
    && rules.isDigest(c.suiteCommitment)
    && c.artifact != c.baseline
    && c.committedEpoch >= 0
  }

  predicate ValidTranscript(rules: Rules, t: Transcript) {
    && rules.isDigest(t.challengeSeed) && rules.isDigest(t.environmentHash)
    && rules.isArtifact(t.contentHash) && rules.isArtifact(t.entrypointDigest)
    && t.entrypointPath != [] && t.challengeEpoch >= 1
  }

  predicate Bound(rules: Rules, p: Parts, t: Transcript) {
    && ValidTranscript(rules, t)
    && t.challengeSeed == p.challengeSeed && t.challengeEpoch == p.challengeEpoch
    && t.environmentHash == rules.environmentHash(p.environment)
  }

  function AdaptersOf(items: seq<Transcript>): set<Adapter> {
    set t | t in items :: t.adapter
  }

  predicate ContentBound(rules: Rules, role: Role, items: seq<Transcript>) {
    forall t | t in items :: t.contentHash == rules.applicationContent(role, t.entrypointPath, t.entrypointDigest)
  }

  datatype Binding = Binding(content: Text, digest: Text, path: Text, adapter: Adapter)

  function BindingsOf(items: seq<Transcript>): set<Binding> {
    set t | t in items :: Binding(t.contentHash, t.entrypointDigest, t.entrypointPath, t.adapter)
  }

  /** One entrypoint for the whole role, and it is the committed content. */
  predicate OneBinding(items: seq<Transcript>, content: Text) {
    |BindingsOf(items)| == 1 && forall b | b in BindingsOf(items) :: b.content == content
  }

  function RunsOf(items: seq<Transcript>): seq<Run> {
    Map((t: Transcript) => t.run, items)
  }

  /** The checks before the evaluation, in the order the code makes them. */
  function BindingProblem(rules: Rules, p: Parts): Option<BundleError> {
    var items := p.baseline + p.candidate;
    var adapters := AdaptersOf(items);
    if !ValidCommitment(rules, p.commitment) then Some(BadCommitment)
    else if !rules.isDigest(p.challengeSeed) then Some(BadSeed)
    else if p.challengeEpoch <= p.commitment.committedEpoch then Some(TooEarly)
    else if !rules.opens(p.suite, p.suiteSalt, p.commitment.suiteCommitment) then Some(WrongReveal)
    else if exists t | t in items :: !Bound(rules, p, t) then Some(BadTranscript)
    else if |adapters| != 1 then Some(MixedAdapters)
    else if StaticAdapter in adapters && (exists t | t in items :: t.run.attested) then Some(ClaimedEnergy)
    else if ApplicationAdapter in adapters && p.environment.adapterProtocol != rules.applicationProtocol then Some(WrongProtocol)
    else if ApplicationAdapter in adapters && (exists t | t in items :: t.run.attested) then Some(ClaimedEnergy)
    else if ApplicationAdapter in adapters
            && !(ContentBound(rules, Baseline, p.baseline) && ContentBound(rules, Candidate, p.candidate)) then Some(UnboundApplication)
    else if (exists t | t in p.baseline :: t.role != Baseline) || (exists t | t in p.candidate :: t.role != Candidate) then Some(WrongRole)
    else if (exists t | t in p.baseline :: t.run.artifact != p.commitment.baseline)
            || (exists t | t in p.candidate :: t.run.artifact != p.commitment.artifact) then Some(WrongArtifact)
    else if !OneBinding(p.baseline, p.commitment.baselineContent) || !OneBinding(p.candidate, p.commitment.content) then Some(WrongContent)
    else None
  }

  ghost function CreateBundle(rules: Rules, p: Parts): Result<Bundle, BundleError>
    requires ValidSuite(p.suite)
  {
    if BindingProblem(rules, p).Some? then Failure(BindingProblem(rules, p).value)
    else
      match Evaluate(rules.norm, p.suite, RunsOf(p.baseline), RunsOf(p.candidate))
      case Failure(e) => Failure(NotEvaluable(e))
      case Success(outcome) =>
        if outcome.baselineHash != p.commitment.baseline || outcome.candidateHash != p.commitment.artifact then Failure(WrongHash)
        else Success(Bundle(p, outcome.report))
  }

  /** Rebuild, compare the report, and then the hash if one is expected. */
  ghost function VerifyBundle(rules: Rules, b: Bundle, expected: Option<Text>): Option<BundleError>
    requires ValidSuite(b.parts.suite)
  {
    match CreateBundle(rules, b.parts)
    case Failure(e) => Some(e)
    case Success(rebuilt) =>
      if rebuilt.report != b.report then Some(WrongReport)
      else if expected.None? then None
      else if !rules.isDigest(expected.value) then Some(BadHash)
      else if rules.bundleHash(b) != expected.value then Some(OtherBundle)
      else None
  }

  /** The bundle as it hashes now, which is what signing and checking receipts ask for. */
  ghost predicate Verified(rules: Rules, b: Bundle)
    requires ValidSuite(b.parts.suite)
  {
    VerifyBundle(rules, b, Some(rules.bundleHash(b))) == None
  }

  method Verify(rules: Rules, b: Bundle, expected: Option<Text>) returns (problem: Option<BundleError>)
    requires ValidSuite(b.parts.suite)
    ensures problem == VerifyBundle(rules, b, expected)
  {
    hide BindingProblem, Evaluate;
    var p := b.parts;
    problem := BindingProblem(rules, p);
    if problem.Some? {
      return;
    }
    var evaluated := EvaluationReports.EvaluateProgress(rules.norm, p.suite, RunsOf(p.baseline), RunsOf(p.candidate));
    if evaluated.Failure? {
      return Some(NotEvaluable(evaluated.error));
    }
    var outcome := evaluated.value;
    if outcome.baselineHash != p.commitment.baseline || outcome.candidateHash != p.commitment.artifact {
      return Some(WrongHash);
    }
    if outcome.report != b.report {
      return Some(WrongReport);
    }
    if expected.Some? {
      if !rules.isDigest(expected.value) {
        return Some(BadHash);
      }
      if rules.bundleHash(b) != expected.value {
        return Some(OtherBundle);
      }
    }
    return None;
  }

  // ----- What verifying means

  /** The last check of the construction never fails: the artifacts were compared run by run. */
  lemma HashCheckIsRedundant(rules: Rules, p: Parts)
    requires ValidSuite(p.suite)
    ensures CreateBundle(rules, p) != Failure(WrongHash)
  {
    hide Evaluate, ValidCommitment, ContentBound, OneBinding, Bound;
    if BindingProblem(rules, p) == None && Evaluate(rules.norm, p.suite, RunsOf(p.baseline), RunsOf(p.candidate)).Success? {
      HashesOfRuns(rules.norm, p.suite, RunsOf(p.baseline), RunsOf(p.candidate));
      assert p.baseline[0] in p.baseline && p.candidate[0] in p.candidate;
    }
  }

  lemma HashesOfRuns(norm: Norm, suite: Suite, a: seq<Run>, b: seq<Run>)
    requires ValidSuite(suite) && Evaluate(norm, suite, a, b).Success?
    ensures a != [] && b != []
    ensures Evaluate(norm, suite, a, b).value.baselineHash == a[0].artifact
    ensures Evaluate(norm, suite, a, b).value.candidateHash == b[0].artifact
  {
    hide Majorities, Unsafe, Deltas, Agreements, ReportOf;
    AllAnswered(norm, suite, a);
    AllAnswered(norm, suite, b);
  }

  lemma VerifiedIsEvaluated(rules: Rules, b: Bundle, expected: Option<Text>)
    requires ValidSuite(b.parts.suite) && VerifyBundle(rules, b, expected) == None
    ensures var outcome := Evaluate(rules.norm, b.parts.suite, RunsOf(b.parts.baseline), RunsOf(b.parts.candidate));
            outcome.Success? && outcome.value.report == b.report
  {
    hide BindingProblem, Evaluate;
  }

  /** Whoever made a bundle that verifies, its report keeps every promise a report makes about its
      own transcripts. */
  lemma VerifiedReportIsSound(rules: Rules, b: Bundle, expected: Option<Text>)
    requires ValidSuite(b.parts.suite) && VerifyBundle(rules, b, expected) == None
    ensures EvaluationReports.Sound(b.report, b.parts.suite, |b.parts.candidate|)
  {
    hide VerifyBundle, Evaluate;
    VerifiedIsEvaluated(rules, b, expected);
    EvaluationReports.EveryReportIsSound(rules.norm, b.parts.suite, RunsOf(b.parts.baseline), RunsOf(b.parts.candidate));
  }

  /** No two reports can be had from the same transcripts: bundles that verify, with the same suite
      and the same transcripts in whatever order, carry the same report. */
  lemma SameTranscriptsSameReport(rules: Rules, a: Bundle, x: Option<Text>, b: Bundle, y: Option<Text>)
    requires ValidSuite(a.parts.suite) && a.parts.suite == b.parts.suite
    requires multiset(a.parts.baseline) == multiset(b.parts.baseline) && multiset(a.parts.candidate) == multiset(b.parts.candidate)
    requires VerifyBundle(rules, a, x) == None && VerifyBundle(rules, b, y) == None
    ensures a.report == b.report
  {
    hide VerifyBundle, Evaluate;
    VerifiedIsEvaluated(rules, a, x);
    VerifiedIsEvaluated(rules, b, y);
    MapPermutes((t: Transcript) => t.run, a.parts.baseline, b.parts.baseline);
    MapPermutes((t: Transcript) => t.run, a.parts.candidate, b.parts.candidate);
    EvaluationReports.OrderOfRunsIsIrrelevant(
      rules.norm, a.parts.suite, RunsOf(a.parts.baseline), RunsOf(b.parts.baseline), RunsOf(a.parts.candidate), RunsOf(b.parts.candidate));
  }

  ghost predicate OnePerVerifier(items: seq<Transcript>) {
    forall i, j | 0 <= i < j < |items| :: items[i].run.verifier != items[j].run.verifier
  }

  /** What later checks rely on: every transcript belongs to the challenge, in its role, and each
      verifier appears once in each role, the same ones in both. */
  ghost predicate Committee(rules: Rules, p: Parts) {
    && (forall t | t in p.baseline :: t.role == Baseline && Bound(rules, p, t))
    && (forall t | t in p.candidate :: t.role == Candidate && Bound(rules, p, t))
    && OnePerVerifier(p.baseline) && OnePerVerifier(p.candidate)
    && Verifiers(RunsOf(p.baseline)) == Verifiers(RunsOf(p.candidate))
  }

  lemma {:induction false} DistinctWhenCounted(items: seq<Transcript>)
    ensures |Verifiers(RunsOf(items))| <= |items|
    ensures |Verifiers(RunsOf(items))| == |items| ==> OnePerVerifier(items)
  {
    if items == [] {
      assert Verifiers(RunsOf(items)) == {};
    } else {
      var init, last := items[..|items| - 1], items[|items| - 1];
      DistinctWhenCounted(init);
      VerifiersOfMore(init, last);
      assert items == init + [last];
      if |Verifiers(RunsOf(items))| == |items| {
        assert last.run.verifier !in Verifiers(RunsOf(init));
        forall i | 0 <= i < |init| ensures init[i].run.verifier != last.run.verifier {
          VerifierHas(init, i);
        }
      }
    }
  }

  lemma VerifierHas(items: seq<Transcript>, i: nat)
    requires i < |items|
    ensures items[i].run.verifier in Verifiers(RunsOf(items))
  {
    assert RunsOf(items)[i] in RunsOf(items);
  }

  lemma VerifiersOfMore(items: seq<Transcript>, t: Transcript)
    ensures Verifiers(RunsOf(items + [t])) == Verifiers(RunsOf(items)) + {t.run.verifier}
  {
    var a, b := RunsOf(items), RunsOf(items + [t]);
    assert b == a + [t.run];
    assert t.run in b;
    forall r | r in a ensures r in b {
    }
  }

  lemma BoundInRole(rules: Rules, p: Parts)
    requires BindingProblem(rules, p) == None
    ensures forall t | t in p.baseline :: t.role == Baseline && Bound(rules, p, t)
    ensures forall t | t in p.candidate :: t.role == Candidate && Bound(rules, p, t)
  {
    hide ValidCommitment, ContentBound, OneBinding, Bound;
    assert !exists t | t in p.baseline + p.candidate :: !Bound(rules, p, t);
    forall t | t in p.baseline || t in p.candidate ensures Bound(rules, p, t) {
      assert t in p.baseline + p.candidate;
    }
  }

  lemma VerifiedHasCommittee(rules: Rules, b: Bundle, expected: Option<Text>)
    requires ValidSuite(b.parts.suite) && VerifyBundle(rules, b, expected) == None
    ensures Committee(rules, b.parts)
  {
    hide BindingProblem, Evaluate, Bound, OnePerVerifier, Verifiers;
    var p := b.parts;
    BoundInRole(rules, p);
    EvaluatedOnce(rules.norm, p.suite, RunsOf(p.baseline), RunsOf(p.candidate));
    DistinctWhenCounted(p.baseline);
    DistinctWhenCounted(p.candidate);
  }

  /** Every transcript ran this artifact, whose content is this, from one entrypoint through one
      adapter, and claims no measured energy. */
  ghost predicate RanAs(rules: Rules, items: seq<Transcript>, role: Role, artifact: Text, content: Text) {
    && (forall t | t in items ::
          && t.role == role && t.run.artifact == artifact && t.contentHash == content && !t.run.attested
          && (t.adapter.ApplicationAdapter? ==> content == rules.applicationContent(role, t.entrypointPath, t.entrypointDigest)))
    && (forall t, u | t in items && u in items ::
          t.entrypointPath == u.entrypointPath && t.entrypointDigest == u.entrypointDigest && t.adapter == u.adapter)
  }

  lemma SameBinding(items: seq<Transcript>, content: Text, t: Transcript, u: Transcript)
    requires OneBinding(items, content) && t in items && u in items
    ensures t.contentHash == content && t.entrypointPath == u.entrypointPath && t.entrypointDigest == u.entrypointDigest && t.adapter == u.adapter
  {
    var x, y := Binding(t.contentHash, t.entrypointDigest, t.entrypointPath, t.adapter),
                Binding(u.contentHash, u.entrypointDigest, u.entrypointPath, u.adapter);
    assert x in BindingsOf(items) && y in BindingsOf(items);
    assert |BindingsOf(items) - {x}| == 0;
    assert y !in BindingsOf(items) - {x};
  }

  lemma NoEnergyClaims(rules: Rules, p: Parts, t: Transcript)
    requires BindingProblem(rules, p) == None && (t in p.baseline || t in p.candidate)
    ensures !t.run.attested
    ensures t.adapter.ApplicationAdapter? ==>
              ContentBound(rules, Baseline, p.baseline) && ContentBound(rules, Candidate, p.candidate)
              && p.environment.adapterProtocol == rules.applicationProtocol
  {
    hide ValidCommitment, ContentBound, OneBinding, Bound;
    var items := p.baseline + p.candidate;
    assert t in items && t.adapter in AdaptersOf(items);
    hide AdaptersOf;
    if t.adapter == StaticAdapter {
      assert !exists x | x in items :: x.run.attested;
    } else {
      assert t.adapter == ApplicationAdapter && !exists x | x in items :: x.run.attested;
    }
  }

  /** A verified bundle is what was committed: its challenge came after the commitment, it reveals
      the committed suite, and every transcript of a role ran the committed artifact and content. */
  lemma VerifiedIsAsCommitted(rules: Rules, b: Bundle, expected: Option<Text>)
    requires ValidSuite(b.parts.suite) && VerifyBundle(rules, b, expected) == None
    ensures var p := b.parts;
            && p.challengeEpoch > p.commitment.committedEpoch
            && rules.opens(p.suite, p.suiteSalt, p.commitment.suiteCommitment)
            && RanAs(rules, p.baseline, Baseline, p.commitment.baseline, p.commitment.baselineContent)
            && RanAs(rules, p.candidate, Candidate, p.commitment.artifact, p.commitment.content)
  {
    var p := b.parts;
    BoundAsCommitted(rules, p);
  }

  lemma BoundAsCommitted(rules: Rules, p: Parts)
    requires BindingProblem(rules, p) == None
    ensures p.challengeEpoch > p.commitment.committedEpoch && rules.opens(p.suite, p.suiteSalt, p.commitment.suiteCommitment)
    ensures RanAs(rules, p.baseline, Baseline, p.commitment.baseline, p.commitment.baselineContent)
    ensures RanAs(rules, p.candidate, Candidate, p.commitment.artifact, p.commitment.content)
  {
    BoundInRole(rules, p);
    hide ValidCommitment, OneBinding, Bound, AdaptersOf;
    forall t | t in p.baseline || t in p.candidate
      ensures !t.run.attested
      ensures t.adapter.ApplicationAdapter? ==>
                ContentBound(rules, Baseline, p.baseline) && ContentBound(rules, Candidate, p.candidate)
    {
      NoEnergyClaims(rules, p, t);
    }
    forall t, u | t in p.baseline && u in p.baseline
      ensures t.contentHash == p.commitment.baselineContent
      ensures t.entrypointPath == u.entrypointPath && t.entrypointDigest == u.entrypointDigest && t.adapter == u.adapter
    {
      SameBinding(p.baseline, p.commitment.baselineContent, t, u);
    }
    forall t, u | t in p.candidate && u in p.candidate
      ensures t.contentHash == p.commitment.content
      ensures t.entrypointPath == u.entrypointPath && t.entrypointDigest == u.entrypointDigest && t.adapter == u.adapter
    {
      SameBinding(p.candidate, p.commitment.content, t, u);
    }
  }

  lemma EvaluatedOnce(norm: Norm, suite: Suite, a: seq<Run>, b: seq<Run>)
    requires ValidSuite(suite) && Evaluate(norm, suite, a, b).Success?
    ensures |Verifiers(a)| == |a| && |Verifiers(b)| == |b| && Verifiers(a) == Verifiers(b)
  {
    hide Compare, Unsafe;
  }

  // ----- One use of each challenge

  /** Candidate and challenge of a bundle, as far as replay is concerned. */
  datatype Challenge = Challenge(epoch: int, seed: Text, commitmentHash: Text, networkId: Text)

  function ChallengeOf(rules: Rules, b: Bundle): Challenge {
    Challenge(b.parts.challengeEpoch, b.parts.challengeSeed, rules.commitmentHash(b.parts.commitment), b.parts.commitment.networkId)
  }

  /** A challenge tells apart bundles that differ in epoch, seed, commitment hash or network. */
  lemma SameChallenge(rules: Rules, a: Bundle, b: Bundle)
    ensures ChallengeOf(rules, a) == ChallengeOf(rules, b) <==>
              && a.parts.challengeEpoch == b.parts.challengeEpoch && a.parts.challengeSeed == b.parts.challengeSeed
              && rules.commitmentHash(a.parts.commitment) == rules.commitmentHash(b.parts.commitment)
              && a.parts.commitment.networkId == b.parts.commitment.networkId
  {
  }

  class ChallengeReplayGuard {
    const rules: Rules
    const challengeId: Challenge -> Text
    var consumed: set<Text>

    constructor (rules: Rules, challengeId: Challenge -> Text)
      ensures this.rules == rules && this.challengeId == challengeId && consumed == {}
    {
      this.rules := rules;
      this.challengeId := challengeId;
      consumed := {};
    }

    /** Consuming succeeds once per challenge, and only for a bundle that verifies; a failure
        consumes nothing. */
    method Consume(b: Bundle) returns (id: Option<Text>)
      requires ValidSuite(b.parts.suite)
      modifies this
      ensures id.Some? <==> challengeId(ChallengeOf(rules, b)) !in old(consumed) && VerifyBundle(rules, b, None) == None
      ensures id.Some? ==> id.value == challengeId(ChallengeOf(rules, b)) && consumed == old(consumed) + {id.value}
      ensures id.None? ==> consumed == old(consumed)
    {
      var challenge := challengeId(ChallengeOf(rules, b));
      if challenge in consumed {
        return None;
      }
      var problem := Verify(rules, b, None);
      if problem.Some? {
        return None;
      }
      consumed := consumed + {challenge};
      return Some(challenge);
    }
  }
}
