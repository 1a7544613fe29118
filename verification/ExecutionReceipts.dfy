/** nir/execution_receipt.py: finalized assignments, the receipts evaluators sign, and their verification. */
module ExecutionReceipts {
  import opened Ordering
  import opened Results
  import opened Sums
  import opened FiniteSets
  import opened AuthorityQuorum
  import opened Bundles
  import Evaluator

  const MAX_ASSIGNED_EVALUATORS := 64

  datatype Assigned = Assigned(id: Text, key: Text)

  /** What both formats of an assignment say. */
  datatype Terms = Terms(
    networkId: Text, genesisHash: Text, candidateCommitmentHash: Text, candidateId: Text, challengeSeed: Text,
    challengeEpoch: int, environmentCommitment: Text, suiteCommitment: Text, baselineArtifact: Text, baselineContent: Text,
    candidateArtifact: Text, candidateContent: Text, adapterProtocol: Text, safetyPolicy: Text, authoritySet: Text,
    evaluators: seq<Assigned>, expiresAt: int)

  datatype Assignment =
    | Legacy(terms: Terms, finalizedHeight: int, finalizedRoot: Text, attestations: seq<Attestation>)
    | V2(terms: Terms, sourceHeight: int, sourceRoot: Text, committedHeight: int, decisionHeight: int,
         authorityMode: Text, recipient: Text, parents: seq<Text>)

  datatype Receipt = Receipt(
    assignmentHash: Text, candidateId: Text, bundleHash: Text, transcriptHash: Text, role: Role, challengeSeed: Text,
    challengeEpoch: int, environment: Text, suite: Text, adapterProtocol: Text, safetyPolicy: Text, evaluator: Text, signature: Text)

  datatype Anchor = Anchor(exact: bool, inChain: bool, candidateIn: bool, assignmentHash: Text, finalizedHeight: int, finalizedRoot: Text)

  /** Formats, hashes and signatures, left abstract. */
  datatype Formats = Formats(
    bundles: Bundles.Rules, keys: Keys<Assignment>, isProtocol: Text -> bool, isAddress: Text -> bool, consensusMode: Text,
    assignmentHash: Assignment -> Text, authoritySetHash: map<Text, Text> -> Text,
    signatureForm: Text -> bool, verifyReceipt: (Receipt, Text, Text) -> bool)

  /** What the verifying side trusts and observes. */
  datatype Context = Context(
    trusted: Option<map<Text, Text>>, networkId: Text, genesisHash: Text, observedHeight: int, anchor: Option<Anchor>,
    adapterProtocol: Text, safetyPolicy: Text)

  // ----- Assignments

  function Ids(evaluators: seq<Assigned>): seq<Text> {
    Map((e: Assigned) => e.id, evaluators)
  }

  predicate TermsOk(f: Formats, t: Terms) {
    && 1 <= |t.networkId| <= 128
    && f.bundles.isDigest(t.genesisHash) && f.bundles.isDigest(t.candidateCommitmentHash) && f.bundles.isDigest(t.candidateId)
    && f.bundles.isDigest(t.challengeSeed) && f.bundles.isDigest(t.environmentCommitment) && f.bundles.isDigest(t.suiteCommitment)
    && f.bundles.isDigest(t.safetyPolicy) && f.bundles.isDigest(t.authoritySet)
    && f.bundles.isArtifact(t.baselineArtifact) && f.bundles.isArtifact(t.baselineContent)
    && f.bundles.isArtifact(t.candidateArtifact) && f.bundles.isArtifact(t.candidateContent)
    && f.isProtocol(t.adapterProtocol)
    && (forall e | e in t.evaluators :: f.isAddress(e.id) && f.keys.addressOf(e.key) == Some(e.id))
    && 1 <= |t.evaluators| <= MAX_ASSIGNED_EVALUATORS && Ascending(Ids(t.evaluators))
  }

  predicate PayloadOk(f: Formats, a: Assignment) {
    && TermsOk(f, a.terms)
    && match a {
         case Legacy(t, finalized, root, _) =>
           && f.bundles.isDigest(root) && finalized >= 0 && t.challengeEpoch >= 1 && t.expiresAt > finalized
         case V2(t, source, root, committed, decision, mode, recipient, parents) =>
           && f.bundles.isDigest(root) && source >= 0 && committed >= 0
           && committed < decision < t.expiresAt && source < decision && t.challengeEpoch == decision
           && f.isAddress(recipient) && 1 <= |parents| <= 32 && Ascending(parents)
           && (forall p | p in parents :: f.bundles.isArtifact(p))
           && mode == f.consensusMode
       }
  }

  /** The signed part of a legacy assignment leaves its attestations out. */
  function Signed(a: Assignment): Assignment {
    if a.Legacy? then a.(attestations := []) else a
  }

  ghost predicate AssignmentOk(f: Formats, a: Assignment, c: Context) {
    && PayloadOk(f, a)
    && a.terms.networkId == c.networkId && a.terms.genesisHash == c.genesisHash
    && match a {
         case Legacy(t, finalized, _, attestations) =>
           && c.trusted.Some?
           && finalized <= c.observedHeight <= t.expiresAt
           && KnownAuthorities(f.keys, c.trusted.value)
           && t.authoritySet == f.authoritySetHash(c.trusted.value)
           && |attestations| <= |c.trusted.value|
           && HasQuorum(f.keys, c.trusted.value, Signed(a), attestations)
         case V2(t, source, root, _, decision, _, _, _) =>
           && (c.trusted.None? || c.trusted.value == map[])
           && decision <= c.observedHeight <= t.expiresAt
           && c.anchor == Some(Anchor(true, true, true, f.assignmentHash(a), source, root))
       }
  }

  method VerifyAssignment(f: Formats, a: Assignment, c: Context) returns (ok: bool)
    ensures ok <==> AssignmentOk(f, a, c)
  {
    hide HasQuorum, TermsOk;
    if !PayloadOk(f, a) || a.terms.networkId != c.networkId || a.terms.genesisHash != c.genesisHash {
      return false;
    }
    match a
    case V2(t, source, root, _, decision, _, _, _) =>
      if !(c.trusted.None? || c.trusted.value == map[]) || c.observedHeight < decision || c.observedHeight > t.expiresAt {
        return false;
      }
      return c.anchor == Some(Anchor(true, true, true, f.assignmentHash(a), source, root));
    case Legacy(t, finalized, _, attestations) =>
      if c.trusted.None? || c.observedHeight < finalized || c.observedHeight > t.expiresAt {
        return false;
      }
      var trusted := c.trusted.value;
      if !KnownAuthorities(f.keys, trusted) || t.authoritySet != f.authoritySetHash(trusted) {
        return false;
      }
      ok := CheckAttestations(f.keys, trusted, Signed(a), attestations);
  }

  /** Two legacy assignments accepted in the same trust context were attested by a common third of
      the authorities, and one more. */
  lemma AcceptedAssignmentsOverlap(f: Formats, a: Assignment, b: Assignment, c: Context)
    requires a.Legacy? && b.Legacy? && AssignmentOk(f, a, c) && AssignmentOk(f, b, c)
    ensures c.trusted.Some?
    ensures |Signers(a.attestations) * Signers(b.attestations)| >= (|c.trusted.value| - 1) / 3 + 1
    ensures forall id | id in Signers(a.attestations) * Signers(b.attestations) ::
              SignedBoth(f.keys, c.trusted.value, Signed(a), a.attestations, Signed(b), b.attestations, id)
  {
    hide PayloadOk;
    TwoQuorumsOverlap(f.keys, c.trusted.value, Signed(a), a.attestations, Signed(b), b.attestations);
  }

  /** An accepted assignment of the second format is the one the chain anchor names, at the height
      and root it came from: two accepted under one anchor are the same, unless they share a hash. */
  lemma AnchoredAssignmentIsUnique(f: Formats, a: Assignment, b: Assignment, c: Context, d: Context)
    requires a.V2? && b.V2? && AssignmentOk(f, a, c) && AssignmentOk(f, b, d) && c.anchor == d.anchor
    requires f.assignmentHash(a) == f.assignmentHash(b) ==> a == b
    ensures a == b
    ensures c.anchor.Some? && c.anchor.value.assignmentHash == f.assignmentHash(a)
    ensures c.anchor.value.finalizedHeight == a.sourceHeight && c.anchor.value.finalizedRoot == a.sourceRoot
    ensures c.anchor.value.exact && c.anchor.value.inChain && c.anchor.value.candidateIn
  {
    hide PayloadOk;
  }

  /** An assignment is accepted on one network only, under one anchor or the authorities it names
      (unless two sets of them share a hash), and never after it expired; in the second format the
      challenge is drawn after the commitment and the finalized source. */
  lemma AcceptedInOnePlace(f: Formats, a: Assignment, c: Context, d: Context)
    requires AssignmentOk(f, a, c) && AssignmentOk(f, a, d)
    requires a.Legacy? && f.authoritySetHash(c.trusted.value) == f.authoritySetHash(d.trusted.value) ==> c.trusted == d.trusted
    ensures c.networkId == d.networkId && c.genesisHash == d.genesisHash
    ensures if a.Legacy? then c.trusted == d.trusted else c.anchor == d.anchor
    ensures (if a.Legacy? then a.finalizedHeight else a.decisionHeight) <= c.observedHeight <= a.terms.expiresAt
    ensures a.V2? ==> a.committedHeight < a.terms.challengeEpoch && a.sourceHeight < a.terms.challengeEpoch <= c.observedHeight
  {
    hide TermsOk, HasQuorum, KnownAuthorities;
  }

  // ----- Receipts

  predicate ReceiptForm(f: Formats, r: Receipt) {
    && f.bundles.isDigest(r.assignmentHash) && f.bundles.isDigest(r.candidateId) && f.bundles.isDigest(r.bundleHash)
    && f.bundles.isDigest(r.transcriptHash) && f.bundles.isDigest(r.challengeSeed) && f.bundles.isDigest(r.environment)
    && f.bundles.isDigest(r.suite) && f.bundles.isDigest(r.safetyPolicy)
    && f.isProtocol(r.adapterProtocol) && f.isAddress(r.evaluator) && r.challengeEpoch >= 1
  }

  function Message(r: Receipt): Receipt {
    r.(signature := [])
  }

  /** The bundle is the one the assignment asks for. */
  predicate Matches(f: Formats, a: Assignment, b: Bundle) {
    var t, p := a.terms, b.parts;
    && t.candidateCommitmentHash == f.bundles.commitmentHash(p.commitment)
    && t.candidateId == p.commitment.candidateId
    && t.challengeSeed == p.challengeSeed && t.challengeEpoch == p.challengeEpoch
    && t.environmentCommitment == f.bundles.environmentHash(p.environment)
    && t.suiteCommitment == p.commitment.suiteCommitment
    && t.baselineArtifact == p.commitment.baseline && t.baselineContent == p.commitment.baselineContent
    && t.candidateArtifact == p.commitment.artifact && t.candidateContent == p.commitment.content
    && t.adapterProtocol == p.environment.adapterProtocol
  }

  /** A place in the committee: a role, and the evaluator who fills it. */
  datatype Seat = Seat(role: Role, evaluator: Text)

  function SeatOf(t: Transcript): Seat {
    Seat(t.role, t.run.verifier)
  }

  function ReceiptSeat(r: Receipt): Seat {
    Seat(r.role, r.evaluator)
  }

  function Seats(evaluators: seq<Assigned>): set<Seat> {
    (set e | e in evaluators :: Seat(Baseline, e.id)) + (set e | e in evaluators :: Seat(Candidate, e.id))
  }

  function KeyOf(evaluators: seq<Assigned>): map<Text, Text> {
    if evaluators == [] then map[] else KeyOf(evaluators[..|evaluators| - 1])[evaluators[|evaluators| - 1].id := evaluators[|evaluators| - 1].key]
  }

  function Items(b: Bundle): seq<Transcript> {
    b.parts.baseline + b.parts.candidate
  }

  /** A dict of the transcripts by seat. */
  ghost predicate IsTable(table: map<Seat, Transcript>, items: seq<Transcript>) {
    && (forall t | t in items :: SeatOf(t) in table)
    && (forall s | s in table :: table[s] in items && SeatOf(table[s]) == s)
  }

  predicate Binds(f: Formats, a: Assignment, b: Bundle, t: Transcript, key: Text, r: Receipt) {
    && r.assignmentHash == f.assignmentHash(a)
    && r.candidateId == a.terms.candidateId
    && r.bundleHash == f.bundles.bundleHash(b)
    && r.transcriptHash == f.bundles.transcriptHash(t)
    && r.challengeSeed == a.terms.challengeSeed && r.challengeEpoch == a.terms.challengeEpoch
    && r.environment == a.terms.environmentCommitment && r.suite == a.terms.suiteCommitment
    && r.adapterProtocol == a.terms.adapterProtocol && r.safetyPolicy == a.terms.safetyPolicy
    && f.verifyReceipt(Message(r), r.signature, key)
  }

  ghost predicate ReceiptOk(f: Formats, a: Assignment, b: Bundle, table: map<Seat, Transcript>, r: Receipt) {
    && ReceiptForm(f, r)
    && ReceiptSeat(r) in table && r.evaluator in KeyOf(a.terms.evaluators)
    && Binds(f, a, b, table[ReceiptSeat(r)], KeyOf(a.terms.evaluators)[r.evaluator], r)
  }

  ghost predicate DifferentSeats(receipts: seq<Receipt>) {
    forall i, j | 0 <= i < j < |receipts| :: ReceiptSeat(receipts[i]) != ReceiptSeat(receipts[j])
  }

  ghost predicate ReceiptsOk(f: Formats, a: Assignment, b: Bundle, table: map<Seat, Transcript>, receipts: seq<Receipt>) {
    && table.Keys == Seats(a.terms.evaluators)
    && |receipts| == |Seats(a.terms.evaluators)|
    && DifferentSeats(receipts)
    && forall i | 0 <= i < |receipts| :: ReceiptOk(f, a, b, table, receipts[i])
  }

  ghost predicate Trusted(f: Formats, a: Assignment, b: Bundle, c: Context)
    requires Evaluator.ValidSuite(b.parts.suite)
  {
    && AssignmentOk(f, a, c) && Verified(f.bundles, b) && Matches(f, a, b)
    && a.terms.adapterProtocol == c.adapterProtocol && a.terms.safetyPolicy == c.safetyPolicy
  }

  datatype ReceiptError =
    | BadAssignment | BadBundle | UntrustedPolicy | Expired | Mismatch | WrongCommittee | Unassigned | BadBinding | Incomplete

  method Tabulate(items: seq<Transcript>) returns (table: map<Seat, Transcript>)
    ensures IsTable(table, items)
  {
    table := map[];
    for i := 0 to |items|
      invariant IsTable(table, items[..i])
    {
      assert items[..i + 1] == items[..i] + [items[i]];
      table := table[SeatOf(items[i]) := items[i]];
    }
    assert items[..|items|] == items;
  }

  ghost function SeatsTaken(receipts: seq<Receipt>): set<Seat> {
    set r | r in receipts :: ReceiptSeat(r)
  }

  lemma SeatsTakenNext(receipts: seq<Receipt>, r: Receipt)
    ensures SeatsTaken(receipts + [r]) == SeatsTaken(receipts) + {ReceiptSeat(r)}
  {
    assert r in receipts + [r];
    forall q | q in receipts ensures q in receipts + [r] {
    }
  }

  lemma DifferentSeatsNext(receipts: seq<Receipt>, r: Receipt)
    requires DifferentSeats(receipts)
    ensures DifferentSeats(receipts + [r]) <==> ReceiptSeat(r) !in SeatsTaken(receipts)
  {
    var more := receipts + [r];
    if ReceiptSeat(r) in SeatsTaken(receipts) {
      var q :| q in receipts && ReceiptSeat(q) == ReceiptSeat(r);
      var i :| 0 <= i < |receipts| && receipts[i] == q;
      assert ReceiptSeat(more[i]) == ReceiptSeat(more[|receipts|]);
    } else {
      forall i, j | 0 <= i < j < |more| ensures ReceiptSeat(more[i]) != ReceiptSeat(more[j]) {
        if j == |receipts| {
          assert receipts[i] in receipts;
        }
      }
    }
  }

  lemma {:induction false} SeatsCounted(receipts: seq<Receipt>)
    requires DifferentSeats(receipts)
    ensures |SeatsTaken(receipts)| == |receipts|
  {
    if receipts == [] {
      assert SeatsTaken(receipts) == {};
    } else {
      var init, last := receipts[..|receipts| - 1], receipts[|receipts| - 1];
      assert receipts == init + [last];
      assert DifferentSeats(init);
      SeatsCounted(init);
      SeatsTakenNext(init, last);
      DifferentSeatsNext(init, last);
    }
  }

  /** As many receipts as seats, no seat twice: every seat is taken. */
  lemma EverySeatTaken(f: Formats, a: Assignment, b: Bundle, table: map<Seat, Transcript>, receipts: seq<Receipt>)
    requires ReceiptsOk(f, a, b, table, receipts)
    ensures SeatsTaken(receipts) == Seats(a.terms.evaluators)
  {
    hide Seats, Binds, ReceiptForm, KeyOf;
    SeatsCounted(receipts);
    forall s | s in SeatsTaken(receipts) ensures s in Seats(a.terms.evaluators) {
      var r :| r in receipts && ReceiptSeat(r) == s;
      var i :| 0 <= i < |receipts| && receipts[i] == r;
      assert ReceiptOk(f, a, b, table, receipts[i]);
    }
    SubsetFills(SeatsTaken(receipts), Seats(a.terms.evaluators));
  }

  method CheckReceipts(f: Formats, a: Assignment, b: Bundle, table: map<Seat, Transcript>, receipts: seq<Receipt>)
    returns (problem: Option<ReceiptError>)
    ensures problem == None <==> ReceiptsOk(f, a, b, table, receipts)
    // The final completeness check never fails.
    ensures problem != Some(Incomplete) && problem != Some(Expired)
  {
    hide Seats, Binds, ReceiptForm, KeyOf, DifferentSeats;
    var keys := KeyOf(a.terms.evaluators);
    var expected := Seats(a.terms.evaluators);
    if table.Keys != expected || |receipts| != |expected| {
      return Some(WrongCommittee);
    }
    var seen: set<Seat> := {};
    NoSeats();
    for i := 0 to |receipts|
      invariant DifferentSeats(receipts[..i]) && seen == SeatsTaken(receipts[..i])
      invariant forall j | 0 <= j < i :: ReceiptOk(f, a, b, table, receipts[j])
    {
      var r := receipts[i];
      assert receipts[..i + 1] == receipts[..i] + [r];
      DifferentSeatsNext(receipts[..i], r);
      SeatsTakenNext(receipts[..i], r);
      var seat := ReceiptSeat(r);
      if !ReceiptForm(f, r) {
        return Some(BadBinding);
      }
      if seat in seen {
        SeatTwice(receipts, i);
        return Some(Unassigned);
      }
      if seat !in table || r.evaluator !in keys {
        return Some(Unassigned);
      }
      if !Binds(f, a, b, table[seat], keys[r.evaluator], r) {
        return Some(BadBinding);
      }
      seen := seen + {seat};
    }
    assert receipts[..|receipts|] == receipts;
    EverySeatTaken(f, a, b, table, receipts);
    if seen != expected {
      return Some(Incomplete);
    }
    return None;
  }

  lemma NoSeats()
    ensures DifferentSeats([]) && SeatsTaken([]) == {}
  {
  }

  lemma SeatTwice(receipts: seq<Receipt>, i: nat)
    requires i < |receipts| && ReceiptSeat(receipts[i]) in SeatsTaken(receipts[..i])
    ensures !DifferentSeats(receipts)
  {
    var q :| q in receipts[..i] && ReceiptSeat(q) == ReceiptSeat(receipts[i]);
    var j :| 0 <= j < i && receipts[j] == q;
  }

  method VerifyReceipts(f: Formats, a: Assignment, b: Bundle, receipts: seq<Receipt>, c: Context)
    returns (problem: Option<ReceiptError>, ghost table: map<Seat, Transcript>)
    requires Evaluator.ValidSuite(b.parts.suite)
    ensures IsTable(table, Items(b))
    ensures problem == None <==> Trusted(f, a, b, c) && ReceiptsOk(f, a, b, table, receipts)
    ensures problem != Some(Expired) && problem != Some(Incomplete)
  {
    hide PayloadOk, VerifyBundle, Matches, ReceiptsOk, HasQuorum, KnownAuthorities, IsTable;
    var entries := Tabulate(Items(b));
    table := entries;
    var ok := VerifyAssignment(f, a, c);
    if !ok {
      return Some(BadAssignment), entries;
    }
    var bundle := Verify(f.bundles, b, Some(f.bundles.bundleHash(b)));
    if bundle.Some? {
      return Some(BadBundle), entries;
    }
    if a.terms.adapterProtocol != c.adapterProtocol || a.terms.safetyPolicy != c.safetyPolicy {
      return Some(UntrustedPolicy), entries;
    }
    HeightIsRight(f, a, c);
    if c.observedHeight < (if a.V2? then a.decisionHeight else a.finalizedHeight) || c.observedHeight > a.terms.expiresAt {
      return Some(Expired), entries;
    }
    if !Matches(f, a, b) {
      return Some(Mismatch), entries;
    }
    problem := CheckReceipts(f, a, b, entries, receipts);
  }

  lemma HeightIsRight(f: Formats, a: Assignment, c: Context)
    requires AssignmentOk(f, a, c)
    ensures (if a.V2? then a.decisionHeight else a.finalizedHeight) <= c.observedHeight <= a.terms.expiresAt
  {
    hide PayloadOk, HasQuorum, KnownAuthorities;
  }

  // ----- Receipts and seats correspond one to one

  /** Receipts that verify: one for every role and assigned evaluator, and no other. */
  lemma OneReceiptPerSeat(f: Formats, a: Assignment, b: Bundle, table: map<Seat, Transcript>, receipts: seq<Receipt>, s: Seat)
    requires ReceiptsOk(f, a, b, table, receipts)
    ensures s in Seats(a.terms.evaluators) <==> exists i :: 0 <= i < |receipts| && ReceiptSeat(receipts[i]) == s
    ensures forall i, j | 0 <= i < |receipts| && 0 <= j < |receipts| && ReceiptSeat(receipts[i]) == s && ReceiptSeat(receipts[j]) == s :: i == j
  {
    hide ReceiptOk, Seats;
    EverySeatTaken(f, a, b, table, receipts);
    if s in SeatsTaken(receipts) {
      var r :| r in receipts && ReceiptSeat(r) == s;
      var i :| 0 <= i < |receipts| && receipts[i] == r;
    }
    if i :| 0 <= i < |receipts| && ReceiptSeat(receipts[i]) == s {
      assert receipts[i] in receipts;
    }
  }

  /** The order of the receipts is irrelevant. */
  lemma OrderOfReceiptsIsIrrelevant(f: Formats, a: Assignment, b: Bundle, table: map<Seat, Transcript>, x: seq<Receipt>, y: seq<Receipt>)
    requires multiset(x) == multiset(y) && ReceiptsOk(f, a, b, table, x)
    ensures ReceiptsOk(f, a, b, table, y)
  {
    hide ReceiptOk, Seats;
    assert |multiset(x)| == |x| && |multiset(y)| == |y|;
    SeatListDistinct(x);
    SeatListDistinct(y);
    MapPermutes(ReceiptSeat, x, y);
    DistinctCount(Map(ReceiptSeat, x));
    DistinctCount(Map(ReceiptSeat, y));
    forall i | 0 <= i < |y| ensures ReceiptOk(f, a, b, table, y[i]) {
      assert y[i] in multiset(x);
      assert y[i] in x;
    }
  }

  lemma SeatListDistinct(receipts: seq<Receipt>)
    ensures DifferentSeats(receipts) <==> Distinct(Map(ReceiptSeat, receipts))
  {
    var seats := Map(ReceiptSeat, receipts);
    if DifferentSeats(receipts) {
      forall i, j | 0 <= i < j < |seats| ensures seats[i] != seats[j] {
        assert seats[i] == ReceiptSeat(receipts[i]) && seats[j] == ReceiptSeat(receipts[j]);
      }
    }
    if Distinct(seats) {
      forall i, j | 0 <= i < j < |receipts| ensures ReceiptSeat(receipts[i]) != ReceiptSeat(receipts[j]) {
        assert seats[i] != seats[j];
      }
    }
  }

  // ----- Signing

  /** What an evaluator does to produce a signature: a text for a receipt's message. */
  type Signer = (Text, Receipt) -> Text

  function Unsigned(f: Formats, a: Assignment, b: Bundle, t: Transcript, evaluator: Text): Receipt {
    Receipt(f.assignmentHash(a), b.parts.commitment.candidateId, f.bundles.bundleHash(b), f.bundles.transcriptHash(t), t.role,
            t.challengeSeed, t.challengeEpoch, t.environmentHash, b.parts.commitment.suiteCommitment,
            b.parts.environment.adapterProtocol, a.terms.safetyPolicy, evaluator, [])
  }

  ghost predicate MaySign(f: Formats, a: Assignment, b: Bundle, t: Transcript, evaluator: Text)
    requires Evaluator.ValidSuite(b.parts.suite)
  {
    && Verified(f.bundles, b) && Matches(f, a, b)
    && (exists e | e in a.terms.evaluators :: e.id == evaluator)
    && t.run.verifier == evaluator
    && (exists item | item in Items(b) :: f.bundles.transcriptHash(item) == f.bundles.transcriptHash(t))
  }

  ghost function Sign(f: Formats, a: Assignment, b: Bundle, t: Transcript, evaluator: Text, signer: Signer): Option<Receipt>
    requires Evaluator.ValidSuite(b.parts.suite)
  {
    var receipt := Unsigned(f, a, b, t, evaluator);
    if !MaySign(f, a, b, t, evaluator) || !ReceiptForm(f, receipt) then None
    else
      var signature := signer(evaluator, receipt);
      if !f.signatureForm(signature) then None else Some(receipt.(signature := signature))
  }

  /** A receipt is signed only by an assigned evaluator, for a transcript that it ran itself and that
      is in a verified bundle, and says so. */
  lemma SignsOnlyItsOwn(f: Formats, a: Assignment, b: Bundle, t: Transcript, evaluator: Text, signer: Signer)
    requires Evaluator.ValidSuite(b.parts.suite) && Sign(f, a, b, t, evaluator, signer).Some?
    ensures Verified(f.bundles, b) && evaluator in Ids(a.terms.evaluators) && t.run.verifier == evaluator
    ensures exists item :: item in Items(b) && f.bundles.transcriptHash(item) == f.bundles.transcriptHash(t)
    ensures var r := Sign(f, a, b, t, evaluator, signer).value;
            && r.evaluator == evaluator && r.role == t.role && r.transcriptHash == f.bundles.transcriptHash(t)
            && r.bundleHash == f.bundles.bundleHash(b) && r.assignmentHash == f.assignmentHash(a)
            && r.signature == signer(evaluator, Message(r))
  {
    hide Verified, Matches, Items, ReceiptForm;
    var e :| e in a.terms.evaluators && e.id == evaluator;
    var i :| 0 <= i < |a.terms.evaluators| && a.terms.evaluators[i] == e;
    assert Ids(a.terms.evaluators)[i] == evaluator;
  }

  /** The signer of each assigned evaluator makes signatures that verify under its key. */
  ghost predicate SignerIsCorrect(f: Formats, a: Assignment, signer: Signer) {
    forall e, r | e in a.terms.evaluators :: f.signatureForm(signer(e.id, r)) && f.verifyReceipt(r, signer(e.id, r), e.key)
  }

  ghost predicate HashesAreDigests(f: Formats) {
    (forall a: Assignment :: f.bundles.isDigest(f.assignmentHash(a))) && (forall t: Transcript :: f.bundles.isDigest(f.bundles.transcriptHash(t)))
  }

  /** The bundle was run by exactly the assigned evaluators. */
  ghost predicate RunByCommittee(a: Assignment, b: Bundle) {
    forall id :: id in Ids(a.terms.evaluators) <==> id in Evaluator.Verifiers(RunsOf(b.parts.baseline))
  }

  lemma UniqueIds(f: Formats, a: Assignment)
    requires PayloadOk(f, a)
    ensures Distinct(Ids(a.terms.evaluators))
  {
    AscendingIsSortedSet(Ids(a.terms.evaluators));
  }

  lemma {:induction false} KeyOfHolds(evaluators: seq<Assigned>, id: Text) returns (e: Assigned)
    requires id in KeyOf(evaluators)
    ensures e in evaluators && e.id == id && e.key == KeyOf(evaluators)[id]
  {
    var init, last := evaluators[..|evaluators| - 1], evaluators[|evaluators| - 1];
    if last.id == id {
      e := last;
    } else {
      e := KeyOfHolds(init, id);
    }
  }

  /** An accepted receipt is signed with a key whose address is the evaluator it names, and which the
      assignment lists. */
  lemma SignerIsTheEvaluator(f: Formats, a: Assignment, b: Bundle, table: map<Seat, Transcript>, r: Receipt) returns (e: Assigned)
    requires PayloadOk(f, a) && ReceiptOk(f, a, b, table, r)
    ensures e in a.terms.evaluators && e.id == r.evaluator && f.keys.addressOf(e.key) == Some(r.evaluator)
    ensures f.verifyReceipt(Message(r), r.signature, e.key)
  {
    hide KeyOf, ReceiptForm;
    e := KeyOfHolds(a.terms.evaluators, r.evaluator);
  }

  lemma {:induction false} KeyOfHas(evaluators: seq<Assigned>, e: Assigned)
    requires Distinct(Ids(evaluators)) && e in evaluators
    ensures e.id in KeyOf(evaluators) && KeyOf(evaluators)[e.id] == e.key
  {
    var n := |evaluators| - 1;
    var init, last := evaluators[..n], evaluators[n];
    if e != last {
      var i :| 0 <= i < n && evaluators[i] == e;
      assert e in init;
      assert Ids(init) == Ids(evaluators)[..n];
      KeyOfHas(init, e);
      assert Ids(evaluators)[i] != Ids(evaluators)[n];
    }
  }

  lemma UnsignedForm(f: Formats, a: Assignment, b: Bundle, t: Transcript, e: Assigned)
    requires TermsOk(f, a.terms) && Matches(f, a, b) && HashesAreDigests(f) && f.bundles.isDigest(f.bundles.bundleHash(b))
    requires Bound(f.bundles, b.parts, t) && e in a.terms.evaluators
    ensures ReceiptForm(f, Unsigned(f, a, b, t, e.id))
  {
    hide Ids, Ascending;
  }

  lemma SignedBinds(f: Formats, a: Assignment, b: Bundle, t: Transcript, e: Assigned, signature: Text)
    requires Matches(f, a, b) && Bound(f.bundles, b.parts, t)
    requires f.verifyReceipt(Unsigned(f, a, b, t, e.id), signature, e.key)
    ensures Binds(f, a, b, t, e.key, Unsigned(f, a, b, t, e.id).(signature := signature))
  {
    assert Message(Unsigned(f, a, b, t, e.id).(signature := signature)) == Unsigned(f, a, b, t, e.id);
  }

  lemma SignedReceiptIsOk(f: Formats, a: Assignment, b: Bundle, c: Context, table: map<Seat, Transcript>, t: Transcript, e: Assigned, signer: Signer)
    requires Evaluator.ValidSuite(b.parts.suite) && Trusted(f, a, b, c) && HashesAreDigests(f) && SignerIsCorrect(f, a, signer)
    requires t in Items(b) && Bound(f.bundles, b.parts, t) && e in a.terms.evaluators && e.id == t.run.verifier
    requires SeatOf(t) in table && table[SeatOf(t)] == t
    ensures var r := Sign(f, a, b, t, t.run.verifier, signer);
            r.Some? && ReceiptSeat(r.value) == SeatOf(t) && ReceiptOk(f, a, b, table, r.value)
  {
    hide Verified, HasQuorum, Items, KeyOf, AssignmentOk, Bound, Matches, TermsOk, HashesAreDigests, ReceiptForm, Binds;
    PayloadOfAssignment(f, a, b, c);
    UniqueIds(f, a);
    KeyOfHas(a.terms.evaluators, e);
    DigestOfBundle(f.bundles, b);
    UnsignedForm(f, a, b, t, e);
    var receipt := Unsigned(f, a, b, t, e.id);
    var signature := signer(e.id, receipt);
    SignedBinds(f, a, b, t, e, signature);
    SignedForm(f, receipt, signature);
  }

  lemma SignedForm(f: Formats, r: Receipt, signature: Text)
    requires ReceiptForm(f, r)
    ensures ReceiptForm(f, r.(signature := signature))
  {
  }

  lemma PayloadOfAssignment(f: Formats, a: Assignment, b: Bundle, c: Context)
    requires Evaluator.ValidSuite(b.parts.suite) && Trusted(f, a, b, c)
    ensures PayloadOk(f, a)
  {
  }

  lemma DigestOfBundle(rules: Bundles.Rules, b: Bundle)
    requires Evaluator.ValidSuite(b.parts.suite) && Verified(rules, b)
    ensures rules.isDigest(rules.bundleHash(b))
  {
    hide CreateBundle;
  }

  ghost function AllSigned(f: Formats, a: Assignment, b: Bundle, items: seq<Transcript>, signer: Signer): seq<Receipt>
    requires Evaluator.ValidSuite(b.parts.suite)
    requires forall t | t in items :: Sign(f, a, b, t, t.run.verifier, signer).Some?
  {
    if items == [] then [] else [Sign(f, a, b, items[0], items[0].run.verifier, signer).value] + AllSigned(f, a, b, items[1..], signer)
  }

  lemma {:induction false} AllSignedAre(f: Formats, a: Assignment, b: Bundle, items: seq<Transcript>, signer: Signer, i: nat)
    requires Evaluator.ValidSuite(b.parts.suite) && i < |items|
    requires forall t | t in items :: Sign(f, a, b, t, t.run.verifier, signer).Some?
    ensures |AllSigned(f, a, b, items, signer)| == |items|
    ensures AllSigned(f, a, b, items, signer)[i] == Sign(f, a, b, items[i], items[i].run.verifier, signer).value
  {
    hide Sign;
    if i > 0 {
      AllSignedAre(f, a, b, items[1..], signer, i - 1);
    } else if |items| > 1 {
      AllSignedAre(f, a, b, items[1..], signer, 0);
    }
  }

  ghost predicate DifferentItems(items: seq<Transcript>) {
    forall i, j | 0 <= i < j < |items| :: SeatOf(items[i]) != SeatOf(items[j])
  }

  lemma CommitteeSeatsDiffer(rules: Bundles.Rules, b: Bundle)
    requires Committee(rules, b.parts)
    ensures DifferentItems(Items(b))
  {
    var p := b.parts;
    forall i, j | 0 <= i < j < |Items(b)| ensures SeatOf(Items(b)[i]) != SeatOf(Items(b)[j]) {
      if j < |p.baseline| {
        assert p.baseline[i] in p.baseline && p.baseline[j] in p.baseline;
      } else if i < |p.baseline| {
        assert p.baseline[i] in p.baseline && p.candidate[j - |p.baseline|] in p.candidate;
      } else {
        assert p.candidate[i - |p.baseline|].run.verifier != p.candidate[j - |p.baseline|].run.verifier;
      }
    }
  }

  /** What a receipt that passes is a signature of: the very message its evaluator signs for the
      transcript in its seat. */
  lemma AcceptedReceiptIsTheMessage(f: Formats, a: Assignment, b: Bundle, table: map<Seat, Transcript>, r: Receipt)
    requires Matches(f, a, b) && IsTable(table, Items(b)) && Committee(f.bundles, b.parts) && ReceiptOk(f, a, b, table, r)
    ensures Message(r) == Unsigned(f, a, b, table[ReceiptSeat(r)], r.evaluator)
    ensures r.evaluator in KeyOf(a.terms.evaluators)
    ensures f.verifyReceipt(Unsigned(f, a, b, table[ReceiptSeat(r)], r.evaluator), r.signature, KeyOf(a.terms.evaluators)[r.evaluator])
  {
    hide OnePerVerifier, ReceiptForm, ValidTranscript, KeyOf, Evaluator.Verifiers;
    var t := table[ReceiptSeat(r)];
    ItemsAreBound(f.bundles, b, t);
  }

  /** What was run is what was assigned: the transcripts of a verified bundle that matches an
      assignment ran its artifacts and contents, under its challenge. */
  lemma TranscriptsAreAssigned(f: Formats, a: Assignment, b: Bundle)
    requires Evaluator.ValidSuite(b.parts.suite) && Verified(f.bundles, b) && Matches(f, a, b)
    ensures RanAs(f.bundles, b.parts.baseline, Baseline, a.terms.baselineArtifact, a.terms.baselineContent)
    ensures RanAs(f.bundles, b.parts.candidate, Candidate, a.terms.candidateArtifact, a.terms.candidateContent)
    ensures a.terms.candidateCommitmentHash == f.bundles.commitmentHash(b.parts.commitment)
    ensures forall t | t in Items(b) ::
              t.challengeSeed == a.terms.challengeSeed && t.challengeEpoch == a.terms.challengeEpoch
              && t.environmentHash == a.terms.environmentCommitment
  {
    hide VerifyBundle, RanAs, ValidTranscript, OnePerVerifier;
    VerifiedIsAsCommitted(f.bundles, b, Some(f.bundles.bundleHash(b)));
    VerifiedHasCommittee(f.bundles, b, Some(f.bundles.bundleHash(b)));
  }

  /** With all seats different, the dict holds every transcript. */
  lemma TableHolds(table: map<Seat, Transcript>, items: seq<Transcript>, t: Transcript)
    requires IsTable(table, items) && DifferentItems(items) && t in items
    ensures SeatOf(t) in table && table[SeatOf(t)] == t
  {
    var other := table[SeatOf(t)];
    var i :| 0 <= i < |items| && items[i] == t;
    var j :| 0 <= j < |items| && items[j] == other;
    OneItemPerSeat(items, i, j);
  }

  lemma OneItemPerSeat(items: seq<Transcript>, i: nat, j: nat)
    requires DifferentItems(items) && i < |items| && j < |items| && SeatOf(items[i]) == SeatOf(items[j])
    ensures i == j
  {
  }

  lemma EvaluatorOf(evaluators: seq<Assigned>, id: Text)
    ensures id in Ids(evaluators) <==> exists e :: e in evaluators && e.id == id
  {
    if id in Ids(evaluators) {
      var i :| 0 <= i < |evaluators| && Ids(evaluators)[i] == id;
      assert evaluators[i] in evaluators;
    }
    if e :| e in evaluators && e.id == id {
      var i :| 0 <= i < |evaluators| && evaluators[i] == e;
      assert Ids(evaluators)[i] == id;
    }
  }

  lemma VerifierOf(items: seq<Transcript>, id: Text)
    ensures id in Evaluator.Verifiers(RunsOf(items)) <==> exists t :: t in items && t.run.verifier == id
  {
    if id in Evaluator.Verifiers(RunsOf(items)) {
      var r :| r in RunsOf(items) && r.verifier == id;
      var i :| 0 <= i < |items| && RunsOf(items)[i] == r;
      assert items[i] in items;
    }
    if t :| t in items && t.run.verifier == id {
      var i :| 0 <= i < |items| && items[i] == t;
      VerifierHas(items, i);
    }
  }

  /** Every verifier of the bundle is an assigned evaluator, and the other way round, in each role. */
  lemma SeatsAreItems(rules: Bundles.Rules, a: Assignment, b: Bundle, table: map<Seat, Transcript>)
    requires Committee(rules, b.parts) && RunByCommittee(a, b) && IsTable(table, Items(b))
    ensures table.Keys == Seats(a.terms.evaluators)
    ensures forall t | t in Items(b) :: exists e :: e in a.terms.evaluators && e.id == t.run.verifier
  {
    hide Bound, OnePerVerifier, Evaluator.Verifiers, Ids;
    var p := b.parts;
    forall id ensures id in Ids(a.terms.evaluators) <==> exists e :: e in a.terms.evaluators && e.id == id {
      EvaluatorOf(a.terms.evaluators, id);
    }
    forall id ensures id in Evaluator.Verifiers(RunsOf(p.baseline)) <==> exists t :: t in p.baseline && t.run.verifier == id {
      VerifierOf(p.baseline, id);
    }
    forall id ensures id in Evaluator.Verifiers(RunsOf(p.candidate)) <==> exists t :: t in p.candidate && t.run.verifier == id {
      VerifierOf(p.candidate, id);
    }
    forall s ensures s in table <==> s in Seats(a.terms.evaluators) {
      SeatIsItem(rules, a, b, table, s);
    }
  }

  lemma SeatIsItem(rules: Bundles.Rules, a: Assignment, b: Bundle, table: map<Seat, Transcript>, s: Seat)
    requires Committee(rules, b.parts) && RunByCommittee(a, b) && IsTable(table, Items(b))
    ensures s in table <==> s in Seats(a.terms.evaluators)
  {
    hide Bound, OnePerVerifier, Evaluator.Verifiers, Ids;
    var p := b.parts;
    EvaluatorOf(a.terms.evaluators, s.evaluator);
    VerifierOf(p.baseline, s.evaluator);
    VerifierOf(p.candidate, s.evaluator);
    if s in table {
      var t := table[s];
      assert t in p.baseline || t in p.candidate;
    }
    if s in Seats(a.terms.evaluators) {
      if s.role == Baseline {
        var t :| t in p.baseline && t.run.verifier == s.evaluator;
        assert t in Items(b);
      } else {
        var t :| t in p.candidate && t.run.verifier == s.evaluator;
        assert t in Items(b);
      }
    }
  }

  /** The committee test is exact: only a bundle run by the assigned evaluators passes it. */
  lemma OnlyTheCommitteePasses(rules: Bundles.Rules, a: Assignment, b: Bundle, table: map<Seat, Transcript>)
    requires Committee(rules, b.parts) && IsTable(table, Items(b))
    ensures table.Keys == Seats(a.terms.evaluators) <==> RunByCommittee(a, b)
  {
    hide Bound, OnePerVerifier, Evaluator.Verifiers, Ids;
    if RunByCommittee(a, b) {
      SeatsAreItems(rules, a, b, table);
    }
    if table.Keys == Seats(a.terms.evaluators) {
      forall id ensures id in Ids(a.terms.evaluators) <==> id in Evaluator.Verifiers(RunsOf(b.parts.baseline)) {
        BaselineSeat(rules, a, b, table, id);
      }
    }
  }

  lemma BaselineSeat(rules: Bundles.Rules, a: Assignment, b: Bundle, table: map<Seat, Transcript>, id: Text)
    requires Committee(rules, b.parts) && IsTable(table, Items(b)) && table.Keys == Seats(a.terms.evaluators)
    ensures id in Ids(a.terms.evaluators) <==> id in Evaluator.Verifiers(RunsOf(b.parts.baseline))
  {
    hide Bound, OnePerVerifier, Evaluator.Verifiers, Ids;
    EvaluatorOf(a.terms.evaluators, id);
    VerifierOf(b.parts.baseline, id);
    var s := Seat(Baseline, id);
    if s in table {
      var t := table[s];
      assert t in b.parts.baseline || t in b.parts.candidate;
    }
    if id in Evaluator.Verifiers(RunsOf(b.parts.baseline)) {
      var t :| t in b.parts.baseline && t.run.verifier == id;
      assert t in Items(b);
    }
  }

  lemma TableOfOneLess(init: seq<Transcript>, last: Transcript, table: map<Seat, Transcript>)
    requires IsTable(table, init + [last]) && DifferentItems(init + [last])
    ensures DifferentItems(init) && IsTable(table - {SeatOf(last)}, init)
  {
    hide SeatOf;
    var items, smaller := init + [last], table - {SeatOf(last)};
    forall i, j | 0 <= i < j < |init| ensures SeatOf(init[i]) != SeatOf(init[j]) {
      assert items[i] == init[i] && items[j] == init[j];
    }
    forall t | t in init ensures t in items && SeatOf(t) in smaller {
      var i :| 0 <= i < |init| && init[i] == t;
      assert items[i] == t && items[|init|] == last;
    }
    TableHolds(table, items, last);
    forall s | s in smaller ensures smaller[s] in init && SeatOf(smaller[s]) == s {
      assert table[s] in items && table[s] != last;
    }
  }

  lemma {:induction false} ItemsCounted(items: seq<Transcript>, table: map<Seat, Transcript>)
    requires IsTable(table, items) && DifferentItems(items)
    ensures |items| == |table.Keys|
  {
    if items == [] {
      assert table.Keys == {};
    } else {
      var init, last := items[..|items| - 1], items[|items| - 1];
      assert items == init + [last];
      var smaller := table - {SeatOf(last)};
      TableOfOneLess(init, last, table);
      assert last in items && SeatOf(last) in table;
      hide SeatOf, IsTable, DifferentItems;
      assert smaller.Keys == table.Keys - {SeatOf(last)};
      ItemsCounted(init, smaller);
    }
  }

  /** Receipts signed for every transcript of a bundle that was run by exactly the assigned
      committee always verify, given correct signers and a trusted context. */
  lemma SignedReceiptsVerify(f: Formats, a: Assignment, b: Bundle, c: Context, table: map<Seat, Transcript>, signer: Signer)
    requires Evaluator.ValidSuite(b.parts.suite) && Trusted(f, a, b, c) && RunByCommittee(a, b) && IsTable(table, Items(b))
    requires HashesAreDigests(f) && SignerIsCorrect(f, a, signer)
    ensures forall t | t in Items(b) :: Sign(f, a, b, t, t.run.verifier, signer).Some?
    ensures ReceiptsOk(f, a, b, table, AllSigned(f, a, b, Items(b), signer))
  {
    hide Sign, Bound, ReceiptOk, Items, Seats, AssignmentOk, Matches, VerifyBundle, OnePerVerifier, SignerIsCorrect, HashesAreDigests, RunByCommittee;
    var items := Items(b);
    VerifiedHasCommittee(f.bundles, b, Some(f.bundles.bundleHash(b)));
    CommitteeSeatsDiffer(f.bundles, b);
    SeatsAreItems(f.bundles, a, b, table);
    ItemsCounted(items, table);
    forall t | t in items
      ensures var r := Sign(f, a, b, t, t.run.verifier, signer);
              r.Some? && ReceiptSeat(r.value) == SeatOf(t) && ReceiptOk(f, a, b, table, r.value)
    {
      ItemsAreBound(f.bundles, b, t);
      TableHolds(table, items, t);
      var e :| e in a.terms.evaluators && e.id == t.run.verifier;
      SignedReceiptIsOk(f, a, b, c, table, t, e, signer);
    }
    AllSignedOk(f, a, b, table, items, signer);
  }

  lemma ItemsAreBound(rules: Bundles.Rules, b: Bundle, t: Transcript)
    requires Committee(rules, b.parts) && t in Items(b)
    ensures Bound(rules, b.parts, t)
  {
  }

  lemma AllSignedOk(f: Formats, a: Assignment, b: Bundle, table: map<Seat, Transcript>, items: seq<Transcript>, signer: Signer)
    requires Evaluator.ValidSuite(b.parts.suite) && DifferentItems(items)
    requires table.Keys == Seats(a.terms.evaluators) && |items| == |table.Keys|
    requires forall t | t in items ::
               var r := Sign(f, a, b, t, t.run.verifier, signer);
               r.Some? && ReceiptSeat(r.value) == SeatOf(t) && ReceiptOk(f, a, b, table, r.value)
    ensures ReceiptsOk(f, a, b, table, AllSigned(f, a, b, items, signer))
  {
    hide Sign, ReceiptOk, Seats;
    var receipts := AllSigned(f, a, b, items, signer);
    if items == [] {
      assert receipts == [];
    } else {
      AllSignedAre(f, a, b, items, signer, 0);
      forall i | 0 <= i < |items| ensures ReceiptOk(f, a, b, table, receipts[i]) && ReceiptSeat(receipts[i]) == SeatOf(items[i]) {
        AllSignedAre(f, a, b, items, signer, i);
        assert items[i] in items;
      }
      forall i, j | 0 <= i < j < |receipts| ensures ReceiptSeat(receipts[i]) != ReceiptSeat(receipts[j]) {
        assert SeatOf(items[i]) != SeatOf(items[j]);
      }
    }
  }
}
