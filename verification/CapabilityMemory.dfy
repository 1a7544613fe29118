/** nir/memory.py: what the capability memory accepts, and the memory object itself. */
module CapabilityMemories {
  import opened Ordering
  import opened Results
  import opened Sums
  import opened Arithmetic
  import opened CapabilityRoots

  const BPS := 10_000
  const MAX_CAPABILITIES := 256
  const MIN_FRONTIER_GAIN_BPS := 100
  const MAX_PARENT_REGRESSION_BPS := 500
  const MAX_PARENTS := 32

  datatype MemoryError =
    | BadDigest | BadEpochs | BadParents | BadScores
    | Sealed | NotSealed | NoReference
    | KnownArtifact | KnownContent | KnownBehavior | UnknownParent
    | OmittedCapability | Regression | NoGain | Unencodable

  // ----- Formats

  /** `parses`: the texts Python's int(text, 16) accepts. */
  datatype Rules = Rules(crypto: Crypto, parses: Text -> bool)

  predicate Digest(rules: Rules, t: Text) {
    |t| == 64 && rules.parses(t)
  }

  /** "sha256:" in front of a digest; the digest part is what follows the first colon. */
  predicate PrefixedDigest(rules: Rules, t: Text) {
    |t| >= 7 && t[..7] == [115, 104, 97, 50, 53, 54, 58] && Digest(rules, t[7..])
  }

  predicate LowerLetter(c: CodePoint) {
    97 <= c <= 122
  }

  predicate Numeral(c: CodePoint) {
    48 <= c <= 57
  }

  /** Letters, digits, dot, underscore and dash up to `k`, then "-v" and a positive number of at most nine digits. */
  predicate VersionAt(t: Text, k: nat) {
    && 1 <= k <= 111 && k + 3 <= |t| <= k + 11
    && LowerLetter(t[0])
    && (forall i | 0 < i < k :: LowerLetter(t[i]) || Numeral(t[i]) || t[i] == 46 || t[i] == 95 || t[i] == 45)
    && t[k] == 45 && t[k + 1] == 118 && Numeral(t[k + 2]) && t[k + 2] != 48
    && forall i | k + 2 < i < |t| :: Numeral(t[i])
  }

  predicate CapabilityId(t: Text) {
    exists k | 0 <= k < |t| :: VersionAt(t, k)
  }

  predicate ValidScores(s: Scores) {
    1 <= |s| <= MAX_CAPABILITIES && forall c | c in s :: CapabilityId(c) && 0 <= s[c] <= BPS
  }

  datatype Snapshot = Snapshot(
    artifact: Text, content: Text, parents: seq<Text>, committedEpoch: int, challengeEpoch: int,
    challengeSeed: Text, behavior: Text, scores: Scores)

  function SnapshotProblem(rules: Rules, s: Snapshot): Option<MemoryError> {
    if !PrefixedDigest(rules, s.artifact) || !PrefixedDigest(rules, s.content) then Some(BadDigest)
    else if !Digest(rules, s.challengeSeed) || !Digest(rules, s.behavior) then Some(BadDigest)
    else if s.committedEpoch < 0 || s.challengeEpoch <= s.committedEpoch then Some(BadEpochs)
    else if s.parents == [] || |s.parents| > MAX_PARENTS || !Ascending(s.parents) then Some(BadParents)
    else if exists i | 0 <= i < |s.parents| :: !PrefixedDigest(rules, s.parents[i]) then Some(BadDigest)
    else if !ValidScores(s.scores) then Some(BadScores)
    else None
  }

  // ----- Joining score maps

  function Of(f: Scores, c: Text): int {
    if c in f then f[c] else 0
  }

  /** Every capability of either map, at the better of the two scores. */
  function Raise(f: Scores, s: Scores): Scores {
    map c | c in f.Keys + s.Keys :: if c in s then Max(Of(f, c), s[c]) else f[c]
  }

  ghost predicate InRange(s: Scores) {
    forall c | c in s :: 0 <= s[c] <= BPS
  }

  ghost predicate AllInRange(records: map<Text, Scores>) {
    forall a | a in records :: InRange(records[a])
  }

  ghost predicate Attained(records: map<Text, Scores>, c: Text, v: int) {
    exists a :: a in records && c in records[a] && records[a][c] == v
  }

  ghost predicate Covers(f: Scores, s: Scores) {
    forall c | c in s :: c in f && s[c] <= f[c]
  }

  /** The best score of every capability anybody was measured on. */
  ghost predicate IsFrontier(f: Scores, records: map<Text, Scores>) {
    && (forall a | a in records :: Covers(f, records[a]))
    && (forall c | c in f :: Attained(records, c, f[c]))
  }

  lemma FrontierIsUnique(f: Scores, g: Scores, records: map<Text, Scores>)
    requires IsFrontier(f, records) && IsFrontier(g, records)
    ensures f == g
  {
    forall c | c in f ensures c in g && f[c] <= g[c] {
      CoveredWhenAttained(f, g, records, c);
    }
    forall c | c in g ensures c in f && g[c] <= f[c] {
      CoveredWhenAttained(g, f, records, c);
    }
  }

  lemma CoveredWhenAttained(f: Scores, g: Scores, records: map<Text, Scores>, c: Text)
    requires IsFrontier(f, records) && IsFrontier(g, records) && c in f
    ensures c in g && f[c] <= g[c]
  {
    assert Attained(records, c, f[c]);
    var a :| a in records && c in records[a] && records[a][c] == f[c];
    assert Covers(g, records[a]);
  }

  lemma StillAttained(records: map<Text, Scores>, c: Text, v: int, a: Text, s: Scores)
    requires Attained(records, c, v) && (a in records ==> records[a] == s)
    ensures Attained(records[a := s], c, v)
  {
    var b :| b in records && c in records[b] && records[b][c] == v;
    assert records[a := s][b] == records[b];
  }

  lemma RaisedIsAttained(f: Scores, records: map<Text, Scores>, a: Text, s: Scores, c: Text)
    requires IsFrontier(f, records) && (a in records ==> records[a] == s) && InRange(s) && c in Raise(f, s)
    ensures Attained(records[a := s], c, Raise(f, s)[c])
  {
    if c in s && Raise(f, s)[c] == s[c] {
      assert records[a := s][a] == s;
    } else {
      assert c in f && Raise(f, s)[c] == f[c];
      StillAttained(records, c, f[c], a, s);
    }
  }

  /** Recording one more artifact raises the frontier by its scores. */
  lemma FrontierOfOneMore(f: Scores, records: map<Text, Scores>, a: Text, s: Scores)
    requires IsFrontier(f, records) && (a in records ==> records[a] == s) && InRange(s)
    ensures IsFrontier(Raise(f, s), records[a := s])
  {
    hide Attained;
    var more, g := records[a := s], Raise(f, s);
    forall b | b in more ensures Covers(g, more[b]) {
      if b != a {
        assert Covers(f, records[b]);
      }
    }
    forall c | c in g ensures Attained(more, c, g[c]) {
      RaisedIsAttained(f, records, a, s, c);
    }
  }

  ghost function FrontierOf(records: map<Text, Scores>): (f: Scores)
    requires AllInRange(records)
    ensures IsFrontier(f, records)
  {
    if records == map[] then map[]
    else
      var a :| a in records;
      var rest := records - {a};
      FrontierOfOneMore(FrontierOf(rest), rest, a, records[a]);
      assert rest[a := records[a]] == records;
      Raise(FrontierOf(rest), records[a])
  }

  lemma FrontierGrows(records: map<Text, Scores>, a: Text, s: Scores)
    requires AllInRange(records) && a !in records && InRange(s)
    ensures AllInRange(records[a := s]) && FrontierOf(records[a := s]) == Raise(FrontierOf(records), s)
  {
    FrontierOfOneMore(FrontierOf(records), records, a, s);
    FrontierIsUnique(FrontierOf(records[a := s]), Raise(FrontierOf(records), s), records[a := s]);
  }

  lemma FrontierInRange(records: map<Text, Scores>)
    requires AllInRange(records)
    ensures InRange(FrontierOf(records))
  {
    var f := FrontierOf(records);
    forall c | c in f ensures 0 <= f[c] <= BPS {
      assert Attained(records, c, f[c]);
      var a :| a in records && c in records[a] && records[a][c] == f[c];
      assert InRange(records[a]);
    }
  }

  // ----- Assessing a candidate

  datatype Memory = Memory(contents: Contents, sealed: bool)

  ghost function Selected(records: map<Text, Scores>, parents: seq<Text>): map<Text, Scores> {
    map p | p in parents && p in records :: records[p]
  }

  /** Measured on everything its parents were measured on, and nowhere far below the best of them. */
  ghost predicate Inherits(parentBest: Scores, s: Scores) {
    forall c | c in parentBest :: c in s && s[c] >= parentBest[c] - MAX_PARENT_REGRESSION_BPS
  }

  function Gains(before: Scores, s: Scores): Scores {
    map c | c in s && s[c] - Of(before, c) >= MIN_FRONTIER_GAIN_BPS :: s[c] - Of(before, c)
  }

  datatype NoveltyReport = NoveltyReport(rootBefore: Text, rootAfter: Text, previousFrontier: Scores, gains: Scores, novelty: int)

  function Recorded(c: Contents, artifact: Text, content: Text, behavior: Text, scores: Scores): Contents {
    Contents(c.records[artifact := scores], c.behaviors + {behavior}, c.contents + {content}, c.contentOf[artifact := content])
  }

  function WithSnapshot(c: Contents, s: Snapshot): Contents {
    Recorded(c, s.artifact, s.content, s.behavior, s.scores)
  }

  ghost function Novelty(gains: Scores, s: Scores): int {
    Max(1, Min(BPS, SumMap(gains) * BPS / Max(1, SumMap(s))))
  }

  /** The lineage checks, on records known to be in range. */
  ghost function LineageProblem(records: map<Text, Scores>, s: Snapshot): Option<MemoryError>
    requires AllInRange(records)
  {
    if exists p | p in s.parents :: p !in records then Some(UnknownParent)
    else
      var best := FrontierOf(Selected(records, s.parents));
      if exists c | c in best :: c !in s.scores then Some(OmittedCapability)
      else if !Inherits(best, s.scores) then Some(Regression)
      else if Gains(FrontierOf(records), s.scores) == map[] then Some(NoGain)
      else None
  }

  ghost function CandidateProblem(rules: Rules, m: Memory, s: Snapshot): Option<MemoryError>
    requires AllInRange(m.contents.records)
  {
    if !m.sealed then Some(NotSealed)
    else if SnapshotProblem(rules, s).Some? then SnapshotProblem(rules, s)
    else if s.artifact in m.contents.records then Some(KnownArtifact)
    else if s.content in m.contents.contents then Some(KnownContent)
    else if s.behavior in m.contents.behaviors then Some(KnownBehavior)
    else LineageProblem(m.contents.records, s)
  }

  ghost function Assessed(rules: Rules, m: Memory, s: Snapshot): Result<NoveltyReport, MemoryError>
    requires AllInRange(m.contents.records)
  {
    var problem := CandidateProblem(rules, m, s);
    if problem.Some? then Failure(problem.value)
    else
      var before, after := Root(rules.crypto, m.contents), Root(rules.crypto, WithSnapshot(m.contents, s));
      if before.None? || after.None? then Failure(Unencodable)
      else
        var frontier := FrontierOf(m.contents.records);
        var gains := Gains(frontier, s.scores);
        Success(NoveltyReport(before.value, after.value, frontier, gains, Novelty(gains, s.scores)))
  }

  // ----- Novelty

  /** What a capability was worth at the frontier, nothing if nobody had it. */
  ghost function Worth(f: Scores, c: Text): int {
    if c in f then f[c] else 0
  }

  /** The gains are how far the frontier rose, wherever it rose by at least 100 basis points. */
  ghost predicate Rises(before: Scores, after: Scores, gains: Scores) {
    && (forall c :: c in gains <==> c in after && after[c] >= Worth(before, c) + 100)
    && (forall c | c in gains :: Worth(before, c) + gains[c] == after[c])
  }

  lemma GainsAreRises(records: map<Text, Scores>, artifact: Text, s: Scores)
    requires AllInRange(records) && artifact !in records && InRange(s)
    ensures AllInRange(records[artifact := s])
    ensures Rises(FrontierOf(records), FrontierOf(records[artifact := s]), Gains(FrontierOf(records), s))
  {
    hide FrontierOf, IsFrontier;
    FrontierGrows(records, artifact, s);
  }

  lemma GainsAtMostScores(before: Scores, s: Scores)
    requires InRange(before) && InRange(s)
    ensures SumMap(Gains(before, s)) <= SumMap(s)
  {
    SumMapCovers(Gains(before, s), s);
  }

  lemma {:induction false} SumMapNonNegative(m: Scores)
    requires forall c | c in m :: 0 <= m[c]
    ensures SumMap(m) >= 0
    decreases |m|
  {
    if m != map[] {
      var k :| k in m;
      SumMapRemove(m, k);
      RemoveOne(m, k);
      SumMapNonNegative(m - {k});
    }
  }

  /** A map that covers another one, and is nowhere negative, has at least its sum. */
  lemma {:induction false} SumMapCovers(m: Scores, n: Scores)
    requires Covers(n, m) && forall c | c in n :: 0 <= n[c]
    ensures SumMap(m) <= SumMap(n)
    decreases |m|
  {
    if m == map[] {
      SumMapNonNegative(n);
    } else {
      var k :| k in m;
      SumMapRemove(m, k);
      SumMapRemove(n, k);
      RemoveOne(m, k);
      SumMapCovers(m - {k}, n - {k});
    }
  }

  lemma RisesAreGains(before: Scores, s: Scores, gains: Scores)
    requires InRange(before) && InRange(s) && Rises(before, Raise(before, s), gains)
    ensures gains == Gains(before, s)
    ensures forall c | c in gains :: c in s && 0 < gains[c] <= s[c]
  {
  }

  lemma SomeGain(s: Scores, gains: Scores)
    requires InRange(s) && gains != map[] && forall c | c in gains :: c in s && 0 < gains[c] <= s[c]
    ensures SumMap(s) > 0
  {
    var c :| c in gains;
    SumMapRemove(s, c);
    SumMapNonNegative(s - {c});
  }

  lemma ShareAtMostAll(part: int, total: int)
    requires part <= total && 0 < total
    ensures part * BPS / total <= BPS
  {
    MulLeft(BPS, part, total);
    assert total * BPS < total * BPS + total;
    DivAtMost(part * BPS, total, BPS);
  }

  /** Neither the cap nor the guard against dividing by zero ever binds: an accepted candidate's
      novelty is the share that the rise of the frontier has in its scores, or 1 if that share
      rounds to 0. */
  lemma NoveltyIsShareOfGain(before: Scores, s: Scores, gains: Scores)
    requires InRange(before) && InRange(s) && Rises(before, Raise(before, s), gains) && gains != map[]
    ensures SumMap(s) > 0
    ensures 1 <= Novelty(gains, s) <= BPS
    ensures Novelty(gains, s) == Max(1, SumMap(gains) * BPS / SumMap(s))
  {
    RisesAreGains(before, s, gains);
    hide Gains, Raise, Rises;
    SomeGain(s, gains);
    GainsAtMostScores(before, s);
    ShareAtMostAll(SumMap(gains), SumMap(s));
  }

  lemma RecordsInRange(c: Contents)
    requires Consistent(c)
    ensures AllInRange(c.records)
  {
  }

  /** What a report says of a candidate that was recorded: how the frontier rose, and what share of
      the candidate's scores that is. */
  ghost predicate Reports(report: NoveltyReport, before: Scores, after: Scores, s: Scores) {
    && report.previousFrontier == before
    && Rises(before, after, report.gains) && report.gains != map[]
    && SumMap(s) > 0 && report.novelty == Max(1, SumMap(report.gains) * BPS / SumMap(s)) <= BPS
  }

  lemma NewCandidate(rules: Rules, m: Memory, s: Snapshot)
    requires AllInRange(m.contents.records) && Assessed(rules, m, s).Success?
    ensures m.sealed && ValidScores(s.scores) && s.parents != [] && LineageProblem(m.contents.records, s) == None
    ensures s.artifact !in m.contents.records && s.content !in m.contents.contents && s.behavior !in m.contents.behaviors
  {
    hide PrefixedDigest, Digest, ValidScores, Root, LineageProblem, FrontierOf, Gains, Novelty, Ascending;
  }

  lemma ReportIs(rules: Rules, m: Memory, s: Snapshot)
    requires AllInRange(m.contents.records) && Assessed(rules, m, s).Success?
    ensures var report, before := Assessed(rules, m, s).value, FrontierOf(m.contents.records);
            && report.previousFrontier == before && report.gains == Gains(before, s.scores) != map[]
            && report.novelty == Novelty(report.gains, s.scores)
  {
    hide PrefixedDigest, Digest, ValidScores, Root, FrontierOf, Gains, Novelty, Ascending, Inherits, Selected;
  }

  lemma AssessedReports(rules: Rules, m: Memory, s: Snapshot)
    requires AllInRange(m.contents.records) && Assessed(rules, m, s).Success?
    ensures AllInRange(m.contents.records[s.artifact := s.scores])
    ensures Reports(Assessed(rules, m, s).value, FrontierOf(m.contents.records),
                    FrontierOf(m.contents.records[s.artifact := s.scores]), s.scores)
  {
    var records := m.contents.records;
    NewCandidate(rules, m, s);
    ReportIs(rules, m, s);
    hide Assessed, Novelty, FrontierOf, Rises, Raise, CapabilityId, Gains;
    GainsAreRises(records, s.artifact, s.scores);
    FrontierGrows(records, s.artifact, s.scores);
    FrontierInRange(records);
    NoveltyIsShareOfGain(FrontierOf(records), s.scores, Gains(FrontierOf(records), s.scores));
  }

  // ----- What is accepted

  /** All parents are recorded, and it is measured on all that any of them was measured on, nowhere
      more than 500 basis points below it. */
  ghost predicate KeepsUp(records: map<Text, Scores>, s: Snapshot) {
    forall p | p in s.parents ::
      p in records && forall c | c in records[p] :: c in s.scores && records[p][c] - s.scores[c] <= 500
  }

  /** At least 100 basis points, and that much more than anybody recorded. */
  ghost predicate Leads(records: map<Text, Scores>, scores: Scores, c: Text) {
    c in scores && scores[c] >= 100 && forall a | a in records && c in records[a] :: scores[c] - records[a][c] >= 100
  }

  /** The form a snapshot must have: digests, a challenge after the commitment, up to 32 parents in
      ascending order, none twice, and scores of named capabilities. */
  ghost predicate WellFormed(rules: Rules, s: Snapshot) {
    && PrefixedDigest(rules, s.artifact) && PrefixedDigest(rules, s.content)
    && Digest(rules, s.challengeSeed) && Digest(rules, s.behavior)
    && 0 <= s.committedEpoch < s.challengeEpoch
    && 1 <= |s.parents| <= 32 && (forall i, j | 0 <= i < j < |s.parents| :: Below(s.parents[i], s.parents[j]))
    && (forall p | p in s.parents :: PrefixedDigest(rules, p))
    && 1 <= |s.scores| <= 256 && forall c | c in s.scores :: CapabilityId(c) && 0 <= s.scores[c] <= 10_000
  }

  lemma WellFormedExactly(rules: Rules, s: Snapshot)
    ensures SnapshotProblem(rules, s) == None <==> WellFormed(rules, s)
  {
    hide PrefixedDigest, Digest, CapabilityId, Ascending, Below;
    AscendingIsBelow(s.parents);
    assert forall p | p in s.parents :: exists i | 0 <= i < |s.parents| :: s.parents[i] == p;
  }

  lemma InheritsExactly(records: map<Text, Scores>, s: Snapshot)
    requires AllInRange(records) && forall p | p in s.parents :: p in records
    ensures Inherits(FrontierOf(Selected(records, s.parents)), s.scores) <==> KeepsUp(records, s)
  {
    var chosen := Selected(records, s.parents);
    var best := FrontierOf(chosen);
    assert IsFrontier(best, chosen);
    hide FrontierOf;
    if Inherits(best, s.scores) {
      forall p, c | p in s.parents && c in records[p] ensures c in s.scores && records[p][c] - s.scores[c] <= 500 {
        assert p in chosen && Covers(best, chosen[p]);
      }
    }
    if KeepsUp(records, s) {
      forall c | c in best ensures c in s.scores && s.scores[c] >= best[c] - MAX_PARENT_REGRESSION_BPS {
        assert Attained(chosen, c, best[c]);
        var p :| p in chosen && c in chosen[p] && chosen[p][c] == best[c];
        assert records[p][c] - s.scores[c] <= 500;
      }
    }
  }

  lemma LeadsExactly(records: map<Text, Scores>, scores: Scores, c: Text)
    requires AllInRange(records)
    ensures c in Gains(FrontierOf(records), scores) <==> Leads(records, scores, c)
  {
    var f := FrontierOf(records);
    assert IsFrontier(f, records);
    FrontierInRange(records);
    hide FrontierOf;
    if c in f {
      assert Attained(records, c, f[c]);
      var best :| best in records && c in records[best] && records[best][c] == f[c];
    }
    forall a | a in records && c in records[a] ensures c in f && records[a][c] <= f[c] {
      assert Covers(f, records[a]);
    }
  }

  lemma LeadsSomewhere(records: map<Text, Scores>, scores: Scores)
    requires AllInRange(records)
    ensures Gains(FrontierOf(records), scores) == map[] <==> !exists c :: Leads(records, scores, c)
  {
    hide Leads, FrontierOf, Gains;
    var gains := Gains(FrontierOf(records), scores);
    forall c ensures c in gains <==> Leads(records, scores, c) {
      LeadsExactly(records, scores, c);
    }
    if gains != map[] {
      var c :| c in gains;
      assert Leads(records, scores, c);
    }
  }

  lemma LineagePasses(records: map<Text, Scores>, s: Snapshot)
    requires AllInRange(records)
    ensures LineageProblem(records, s) == None <==>
              (forall p | p in s.parents :: p in records)
              && Inherits(FrontierOf(Selected(records, s.parents)), s.scores) && Gains(FrontierOf(records), s.scores) != map[]
  {
    hide FrontierOf, Gains, Selected;
  }

  lemma LineageExactly(records: map<Text, Scores>, s: Snapshot)
    requires AllInRange(records)
    ensures LineageProblem(records, s) == None <==> KeepsUp(records, s) && exists c :: Leads(records, s.scores, c)
  {
    LineagePasses(records, s);
    LeadsSomewhere(records, s.scores);
    hide LineageProblem, Leads, FrontierOf, Gains, Selected, Inherits;
    if forall p | p in s.parents :: p in records {
      InheritsExactly(records, s);
      hide KeepsUp;
    }
  }

  lemma AssessesWithRoots(rules: Rules, m: Memory, s: Snapshot)
    requires AllInRange(m.contents.records)
    ensures Assessed(rules, m, s).Success? <==>
              CandidateProblem(rules, m, s) == None
              && Root(rules.crypto, m.contents).Some? && Root(rules.crypto, WithSnapshot(m.contents, s)).Some?
  {
    hide CandidateProblem, Root, FrontierOf, Gains, Novelty, WithSnapshot;
  }

  /** A candidate is accepted if and only if the memory is sealed, the snapshot is well formed, its
      artifact, content and behavior are new, it keeps up with every declared parent, it leads
      somewhere, and both roots can be computed. */
  lemma AcceptsExactly(rules: Rules, m: Memory, s: Snapshot)
    requires AllInRange(m.contents.records)
    ensures Assessed(rules, m, s).Success? <==>
              && m.sealed && WellFormed(rules, s)
              && s.artifact !in m.contents.records && s.content !in m.contents.contents && s.behavior !in m.contents.behaviors
              && KeepsUp(m.contents.records, s) && (exists c :: Leads(m.contents.records, s.scores, c))
              && Root(rules.crypto, m.contents).Some? && Root(rules.crypto, WithSnapshot(m.contents, s)).Some?
  {
    hide WellFormed, SnapshotProblem, LineageProblem, KeepsUp, Leads, Root, WithSnapshot, Assessed;
    AssessesWithRoots(rules, m, s);
    WellFormedExactly(rules, s);
    LineageExactly(m.contents.records, s);
  }

  // ----- Seeding, sealing, accepting

  function SeedProblem(rules: Rules, m: Memory, artifact: Text, content: Text, behavior: Text, scores: Scores): Option<MemoryError> {
    if m.sealed then Some(Sealed)
    else if !PrefixedDigest(rules, artifact) || !PrefixedDigest(rules, content) || !Digest(rules, behavior) then Some(BadDigest)
    else if artifact in m.contents.records then Some(KnownArtifact)
    else if behavior in m.contents.behaviors then Some(KnownBehavior)
    else if content in m.contents.contents then Some(KnownContent)
    else if !ValidScores(scores) then Some(BadScores)
    else None
  }

  /** An omitted or empty content hash means the artifact hash. */
  function SeedContent(artifact: Text, content: Option<Text>): Text {
    if content.None? || content.value == [] then artifact else content.value
  }

  // ----- What the memory keeps

  ghost predicate Held(contentOf: map<Text, Text>, t: Text) {
    exists a :: a in contentOf && contentOf[a] == t
  }

  /** Artifacts and contents correspond one to one, and every record brought one behavior. */
  ghost predicate Consistent(c: Contents) {
    && AllInRange(c.records)
    && c.contentOf.Keys == c.records.Keys
    && OneToOne(c.contentOf)
    && (forall t :: t in c.contents <==> Held(c.contentOf, t))
    && |c.behaviors| == |c.records|
  }

  lemma HeldByOneMore(contentOf: map<Text, Text>, a: Text, content: Text, t: Text)
    requires a !in contentOf
    ensures Held(contentOf[a := content], t) <==> Held(contentOf, t) || t == content
  {
    var more := contentOf[a := content];
    assert more[a] == content;
    if Held(contentOf, t) {
      var b :| b in contentOf && contentOf[b] == t;
      assert more[b] == t;
    }
  }

  ghost predicate OneToOne(contentOf: map<Text, Text>) {
    forall a, b | a in contentOf && b in contentOf && a != b :: contentOf[a] != contentOf[b]
  }

  lemma OneToOneGrows(contentOf: map<Text, Text>, artifact: Text, content: Text)
    requires OneToOne(contentOf) && artifact !in contentOf && !Held(contentOf, content)
    ensures OneToOne(contentOf[artifact := content])
  {
    forall a | a in contentOf ensures contentOf[a] != content {
      assert Held(contentOf, contentOf[a]);
    }
  }

  lemma RecordingIsConsistent(c: Contents, artifact: Text, content: Text, behavior: Text, scores: Scores)
    requires Consistent(c) && ValidScores(scores)
    requires artifact !in c.records && content !in c.contents && behavior !in c.behaviors
    ensures Consistent(Recorded(c, artifact, content, behavior, scores))
  {
    hide Held, OneToOne, CapabilityId;
    var d := Recorded(c, artifact, content, behavior, scores);
    forall t ensures t in d.contents <==> Held(d.contentOf, t) {
      HeldByOneMore(c.contentOf, artifact, content, t);
    }
    OneToOneGrows(c.contentOf, artifact, content);
    assert d.records.Keys == c.records.Keys + {artifact};
    assert d.contentOf.Keys == c.contentOf.Keys + {artifact};
  }

  // ----- The loops

  lemma RaiseNext(f: Scores, s: Scores, c: Text, v: int)
    requires c !in s
    ensures Raise(f, s)[c := Max(Of(Raise(f, s), c), v)] == Raise(f, s[c := v])
  {
  }

  lemma RaiseByNothing(f: Scores)
    ensures Raise(f, map[]) == f
  {
  }

  /** Raising `f` in place, one capability of `s` after the other. */
  method RaiseEach(f: Scores, s: Scores) returns (g: Scores)
    ensures g == Raise(f, s)
  {
    hide Raise;
    g := f;
    RaiseByNothing(f);
    var todo := s.Keys;
    ghost var done: Scores := map[];
    while todo != {}
      invariant todo <= s.Keys
      invariant done.Keys == s.Keys - todo && forall c | c in done :: done[c] == s[c]
      invariant g == Raise(f, done)
      decreases |todo|
    {
      var c :| c in todo;
      RaiseNext(f, done, c, s[c]);
      g := g[c := Max(Of(g, c), s[c])];
      done := done[c := s[c]];
      todo := todo - {c};
    }
    assert done == s;
  }

  method Frontier(records: map<Text, Scores>) returns (f: Scores)
    requires AllInRange(records)
    ensures f == FrontierOf(records)
  {
    f := map[];
    var todo := records.Keys;
    ghost var done: map<Text, Scores> := map[];
    while todo != {}
      invariant todo <= records.Keys
      invariant done.Keys == records.Keys - todo && forall a | a in done :: done[a] == records[a]
      invariant IsFrontier(f, done)
      decreases |todo|
    {
      var a :| a in todo;
      FrontierOfOneMore(f, done, a, records[a]);
      f := RaiseEach(f, records[a]);
      done := done[a := records[a]];
      todo := todo - {a};
    }
    assert done == records;
    FrontierIsUnique(f, FrontierOf(records), records);
  }

  lemma SelectedNext(records: map<Text, Scores>, parents: seq<Text>, p: Text)
    requires p in records
    ensures Selected(records, parents + [p]) == Selected(records, parents)[p := records[p]]
  {
  }

  method ParentFrontier(records: map<Text, Scores>, parents: seq<Text>) returns (f: Scores)
    requires AllInRange(records) && forall p | p in parents :: p in records
    ensures f == FrontierOf(Selected(records, parents))
  {
    hide IsFrontier, Raise, FrontierOf;
    f := map[];
    FrontierOfNothing(records);
    for i := 0 to |parents|
      invariant IsFrontier(f, Selected(records, parents[..i]))
    {
      var p := parents[i];
      assert p in parents;
      FrontierOfOneMore(f, Selected(records, parents[..i]), p, records[p]);
      SelectedNext(records, parents[..i], p);
      assert parents[..i + 1] == parents[..i] + [p];
      f := RaiseEach(f, records[p]);
    }
    assert parents[..|parents|] == parents;
    FrontierIsUnique(f, FrontierOf(Selected(records, parents)), Selected(records, parents));
  }

  lemma FrontierOfNothing(records: map<Text, Scores>)
    ensures IsFrontier(map[], Selected(records, []))
  {
  }

  method SumValues(m: Scores) returns (n: int)
    ensures n == SumMap(m)
  {
    n := 0;
    var todo := m;
    while todo != map[]
      invariant forall c | c in todo :: c in m
      invariant n + SumMap(todo) == SumMap(m)
      decreases |todo|
    {
      var c :| c in todo;
      SumMapRemove(todo, c);
      RemoveOne(todo, c);
      n := n + todo[c];
      todo := todo - {c};
    }
  }

  method RegressesTooFar(best: Scores, s: Scores) returns (r: bool)
    requires forall c | c in best :: c in s
    ensures r <==> exists c | c in best :: best[c] - s[c] > 500
    ensures r <==> !Inherits(best, s)
  {
    var todo := best.Keys;
    while todo != {}
      invariant todo <= best.Keys
      invariant forall c | c in best && c !in todo :: s[c] >= best[c] - MAX_PARENT_REGRESSION_BPS
      decreases |todo|
    {
      var c :| c in todo;
      if s[c] < best[c] - MAX_PARENT_REGRESSION_BPS {
        return true;
      }
      todo := todo - {c};
    }
    return false;
  }

  method CheckLineage(records: map<Text, Scores>, s: Snapshot) returns (problem: Option<MemoryError>, before: Scores)
    requires AllInRange(records)
    ensures problem == LineageProblem(records, s)
    ensures problem.None? ==> before == FrontierOf(records)
  {
    hide FrontierOf, Gains, Inherits;
    before := map[];
    if exists p | p in s.parents :: p !in records {
      return Some(UnknownParent), before;
    }
    var best := ParentFrontier(records, s.parents);
    if exists c | c in best :: c !in s.scores {
      return Some(OmittedCapability), before;
    }
    var far := RegressesTooFar(best, s.scores);
    if far {
      return Some(Regression), before;
    }
    before := Frontier(records);
    if Gains(before, s.scores) == map[] {
      return Some(NoGain), before;
    }
    return None, before;
  }

  method NoveltyOf(gains: Scores, s: Scores) returns (n: int)
    ensures n == Novelty(gains, s)
  {
    var total := SumValues(s);
    var gained := SumValues(gains);
    n := Max(1, Min(BPS, gained * BPS / Max(1, total)));
  }

  // ----- The memory

  class CapabilityMemory {
    const rules: Rules
    var records: map<Text, Scores>
    var behaviors: set<Text>
    var contents: set<Text>
    var contentByArtifact: map<Text, Text>
    var sealed: bool

    function Known(): Contents
      reads this
    {
      Contents(records, behaviors, contents, contentByArtifact)
    }

    ghost function Now(): Memory
      reads this
    {
      Memory(Known(), sealed)
    }

    ghost predicate Valid()
      reads this
    {
      Consistent(Known())
    }

    constructor (rules: Rules)
      ensures Valid() && this.rules == rules
      ensures Now() == Memory(Contents(map[], {}, {}, map[]), false)
    {
      this.rules := rules;
      records := map[];
      behaviors := {};
      contents := {};
      contentByArtifact := map[];
      sealed := false;
    }

    method SeedReference(artifact: Text, contentHash: Option<Text>, behavior: Text, scores: Scores) returns (problem: Option<MemoryError>)
      requires Valid()
      modifies this
      ensures Valid()
      ensures problem == SeedProblem(rules, old(Now()), artifact, SeedContent(artifact, contentHash), behavior, scores)
      ensures problem.Some? ==> Now() == old(Now())
      ensures problem.None? ==>
                Now() == Memory(Recorded(old(Known()), artifact, SeedContent(artifact, contentHash), behavior, scores), false)
    {
      hide Consistent, PrefixedDigest, Digest, ValidScores;
      if sealed {
        return Some(Sealed);
      }
      if !PrefixedDigest(rules, artifact) {
        return Some(BadDigest);
      }
      var content := if contentHash.None? || contentHash.value == [] then artifact else contentHash.value;
      if !PrefixedDigest(rules, content) || !Digest(rules, behavior) {
        return Some(BadDigest);
      }
      if artifact in records {
        return Some(KnownArtifact);
      }
      if behavior in behaviors {
        return Some(KnownBehavior);
      }
      if content in contents {
        return Some(KnownContent);
      }
      if !ValidScores(scores) {
        return Some(BadScores);
      }
      RecordingIsConsistent(Known(), artifact, content, behavior, scores);
      records := records[artifact := scores];
      behaviors := behaviors + {behavior};
      contents := contents + {content};
      contentByArtifact := contentByArtifact[artifact := content];
      return None;
    }

    /** The snapshot is sealed even if its root then cannot be encoded. */
    method SealWorldSnapshot() returns (r: Result<Text, MemoryError>)
      modifies this`sealed
      ensures records == map[] ==> r == Failure(NoReference) && sealed == old(sealed)
      ensures records != map[] ==> sealed
      ensures records != map[] ==>
                r == match Root(rules.crypto, Known()) { case Some(root) => Success(root) case None => Failure(Unencodable) }
    {
      if records == map[] {
        return Failure(NoReference);
      }
      sealed := true;
      var root := Root(rules.crypto, Known());
      if root.None? {
        return Failure(Unencodable);
      }
      return Success(root.value);
    }

    method Assess(s: Snapshot) returns (r: Result<NoveltyReport, MemoryError>)
      requires Valid()
      ensures r == Assessed(rules, Now(), s)
    {
      hide SnapshotProblem, LineageProblem, Root, Gains, Novelty, FrontierOf;
      if !sealed {
        return Failure(NotSealed);
      }
      if SnapshotProblem(rules, s).Some? {
        return Failure(SnapshotProblem(rules, s).value);
      }
      if s.artifact in records {
        return Failure(KnownArtifact);
      }
      if s.content in contents {
        return Failure(KnownContent);
      }
      if s.behavior in behaviors {
        return Failure(KnownBehavior);
      }
      var problem, before := CheckLineage(records, s);
      if problem.Some? {
        return Failure(problem.value);
      }
      var gains := Gains(before, s.scores);
      var novelty := NoveltyOf(gains, s.scores);
      var after := Root(rules.crypto, WithSnapshot(Known(), s));
      var root := Root(rules.crypto, Known());
      if root.None? || after.None? {
        return Failure(Unencodable);
      }
      return Success(NoveltyReport(root.value, after.value, before, gains, novelty));
    }

    /** The root the report predicted is the root of the memory that results. */
    method Accept(s: Snapshot) returns (r: Result<NoveltyReport, MemoryError>)
      requires Valid()
      modifies this
      ensures Valid()
      ensures r == Assessed(rules, old(Now()), s)
      ensures r.Failure? ==> Now() == old(Now())
      ensures r.Success? ==> Now() == Memory(WithSnapshot(old(Known()), s), true)
      ensures r.Success? ==> Root(rules.crypto, Known()) == Some(r.value.rootAfter)
      ensures r.Success? ==> Reports(r.value, FrontierOf(old(records)), FrontierOf(records), s.scores)
    {
      hide LineageProblem, Root, Gains, Novelty, FrontierOf, Reports, Consistent;
      assert AllInRange(records) by { RecordsInRange(Known()); }
      r := Assess(s);
      if r.Failure? {
        return;
      }
      AssessedReports(rules, Now(), s);
      RecordingIsConsistent(Known(), s.artifact, s.content, s.behavior, s.scores);
      records := records[s.artifact := s.scores];
      behaviors := behaviors + {s.behavior};
      contents := contents + {s.content};
      contentByArtifact := contentByArtifact[s.artifact := s.content];
    }
  }
}
