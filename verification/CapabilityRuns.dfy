/** nir/memory.py: everything that can happen to one capability memory, call after call. */
module CapabilityRuns {
  import opened Ordering
  import opened Results
  import opened Sums
  import opened Arithmetic
  import opened CapabilityRoots
  import opened CapabilityMemories

  datatype Event =
    | Seed(artifact: Text, contentHash: Option<Text>, behavior: Text, scores: Scores)
    | Seal
    | Propose(snapshot: Snapshot)

  /** `order`: the artifacts in the order they were recorded; `parents`: the declared parents of
      each accepted one; `base`: the frontier's total score when the memory was sealed. */
  datatype World = World(memory: Memory, order: seq<Text>, parents: map<Text, seq<Text>>, accepted: nat, base: int)

  ghost function Start(): World {
    World(Memory(Contents(map[], {}, {}, map[]), false), [], map[], 0, 0)
  }

  ghost function Total(w: World): int
    requires AllInRange(w.memory.contents.records)
  {
    SumMap(FrontierOf(w.memory.contents.records))
  }

  ghost function Step(rules: Rules, w: World, e: Event): World
    requires Consistent(w.memory.contents)
  {
    var known := w.memory.contents;
    match e
    case Seed(artifact, contentHash, behavior, scores) =>
      var content := SeedContent(artifact, contentHash);
      if SeedProblem(rules, w.memory, artifact, content, behavior, scores).Some? then w
      else w.(memory := Memory(Recorded(known, artifact, content, behavior, scores), false), order := w.order + [artifact])
    case Seal =>
      if known.records == map[] || w.memory.sealed then w
      else w.(memory := w.memory.(sealed := true), base := Total(w))
    case Propose(s) =>
      if Assessed(rules, w.memory, s).Failure? then w
      else w.(memory := Memory(WithSnapshot(known, s), true), order := w.order + [s.artifact],
              parents := w.parents[s.artifact := s.parents], accepted := w.accepted + 1)
  }

  lemma NewReference(rules: Rules, m: Memory, artifact: Text, content: Text, behavior: Text, scores: Scores)
    requires SeedProblem(rules, m, artifact, content, behavior, scores) == None
    ensures !m.sealed && ValidScores(scores)
    ensures artifact !in m.contents.records && content !in m.contents.contents && behavior !in m.contents.behaviors
  {
    hide PrefixedDigest, Digest, ValidScores;
  }

  lemma StepIsConsistent(rules: Rules, w: World, e: Event)
    requires Consistent(w.memory.contents)
    ensures Consistent(Step(rules, w, e).memory.contents)
  {
    hide Recorded, SeedProblem, Assessed, SeedContent, FrontierOf, OneToOne, Held, ValidScores;
    match e
    case Seed(artifact, contentHash, behavior, scores) =>
      var content := SeedContent(artifact, contentHash);
      if SeedProblem(rules, w.memory, artifact, content, behavior, scores).None? {
        NewReference(rules, w.memory, artifact, content, behavior, scores);
        RecordingIsConsistent(w.memory.contents, artifact, content, behavior, scores);
      }
    case Seal =>
    case Propose(s) =>
      if Assessed(rules, w.memory, s).Success? {
        NewCandidate(rules, w.memory, s);
        RecordingIsConsistent(w.memory.contents, s.artifact, s.content, s.behavior, s.scores);
      }
  }

  ghost function Run(rules: Rules, events: seq<Event>): (w: World)
    ensures Consistent(w.memory.contents)
  {
    if events == [] then Start()
    else
      var before := Run(rules, events[..|events| - 1]);
      StepIsConsistent(rules, before, events[|events| - 1]);
      Step(rules, before, events[|events| - 1])
  }

  // ----- The invariant

  /** A child is measured on everything its parent was, and loses at most 500 bps of it. */
  ghost predicate Follows(parent: Scores, child: Scores) {
    forall c | c in parent :: c in child && child[c] >= parent[c] - MAX_PARENT_REGRESSION_BPS
  }

  ghost predicate OrderOk(records: map<Text, Scores>, order: seq<Text>) {
    Distinct(order) && forall a :: a in order <==> a in records
  }

  /** The artifact at position `i` has parents, all recorded before it, and follows each of them. */
  ghost predicate BornOf(records: map<Text, Scores>, order: seq<Text>, parents: seq<Text>, i: nat)
    requires i < |order| && order[i] in records
  {
    parents != [] && forall p | p in parents :: p in order[..i] && p in records && Follows(records[p], records[order[i]])
  }

  ghost predicate LineageOk(records: map<Text, Scores>, order: seq<Text>, parents: map<Text, seq<Text>>)
    requires OrderOk(records, order)
  {
    && (forall a | a in parents :: a in records)
    && forall i | 0 <= i < |order| && order[i] in parents ::
         order[i] in records && BornOf(records, order, parents[order[i]], i)
  }

  ghost predicate GrowthOk(w: World)
    requires AllInRange(w.memory.contents.records)
  {
    if !w.memory.sealed then w.accepted == 0 && w.parents == map[]
    else w.base >= 0 && w.base + MIN_FRONTIER_GAIN_BPS * w.accepted <= Total(w)
  }

  ghost predicate Inv(w: World) {
    && Consistent(w.memory.contents)
    && OrderOk(w.memory.contents.records, w.order)
    && LineageOk(w.memory.contents.records, w.order, w.parents)
    && GrowthOk(w)
  }

  // ----- One more record

  lemma OrderGrows(records: map<Text, Scores>, order: seq<Text>, a: Text, s: Scores)
    requires OrderOk(records, order) && a !in records
    ensures OrderOk(records[a := s], order + [a])
  {
    var longer := order + [a];
    forall i, j | 0 <= i < j < |longer| ensures longer[i] != longer[j] {
      assert longer[i] in order;
    }
  }

  lemma StillBornOf(records: map<Text, Scores>, order: seq<Text>, parents: seq<Text>, i: nat, a: Text, s: Scores)
    requires i < |order| && order[i] in records && a !in records && BornOf(records, order, parents, i)
    ensures BornOf(records[a := s], order + [a], parents, i)
  {
    assert (order + [a])[..i] == order[..i];
  }

  lemma LineageOfSeed(records: map<Text, Scores>, order: seq<Text>, parents: map<Text, seq<Text>>, a: Text, s: Scores)
    requires OrderOk(records, order) && LineageOk(records, order, parents) && a !in records
    ensures OrderOk(records[a := s], order + [a]) && LineageOk(records[a := s], order + [a], parents)
  {
    hide BornOf;
    OrderGrows(records, order, a, s);
    forall i | 0 <= i < |order + [a]| && (order + [a])[i] in parents
      ensures BornOf(records[a := s], order + [a], parents[(order + [a])[i]], i)
    {
      assert i < |order|;
      StillBornOf(records, order, parents[order[i]], i, a, s);
    }
  }

  lemma LineageOfChild(records: map<Text, Scores>, order: seq<Text>, parents: map<Text, seq<Text>>, a: Text, s: Scores, mine: seq<Text>)
    requires OrderOk(records, order) && LineageOk(records, order, parents) && a !in records
    requires mine != [] && forall p | p in mine :: p in records && Follows(records[p], s)
    ensures OrderOk(records[a := s], order + [a]) && LineageOk(records[a := s], order + [a], parents[a := mine])
  {
    LineageOfSeed(records, order, parents, a, s);
    var more, longer := records[a := s], order + [a];
    assert BornOf(more, longer, mine, |order|) by {
      assert longer[..|order|] == order;
      forall p | p in mine ensures p in order && Follows(more[p], more[a]) {
      }
    }
    forall i | 0 <= i < |longer| && longer[i] in parents[a := mine]
      ensures BornOf(more, longer, parents[a := mine][longer[i]], i)
    {
      if i < |order| {
        assert longer[i] in order && longer[i] != a;
      }
    }
  }

  /** Passing the lineage checks means following every single parent. */
  lemma InheritsFromEach(records: map<Text, Scores>, parents: seq<Text>, s: Scores, p: Text)
    requires AllInRange(records) && p in parents && p in records
    requires AllInRange(Selected(records, parents)) && Inherits(FrontierOf(Selected(records, parents)), s)
    ensures Follows(records[p], s)
  {
    var chosen := Selected(records, parents);
    assert p in chosen && Covers(FrontierOf(chosen), chosen[p]);
  }

  // ----- The frontier only grows

  lemma RaiseCovers(f: Scores, s: Scores)
    ensures Covers(Raise(f, s), f)
  {
  }

  lemma RaiseInRange(f: Scores, s: Scores)
    requires InRange(f) && InRange(s)
    ensures InRange(Raise(f, s))
  {
  }

  /** Each accepted candidate adds at least 100 bps to the total score of the frontier. */
  lemma GainRaisesTotal(f: Scores, s: Scores)
    requires InRange(f) && InRange(s) && Gains(f, s) != map[]
    ensures SumMap(Raise(f, s)) >= SumMap(f) + MIN_FRONTIER_GAIN_BPS
  {
    var c :| c in Gains(f, s);
    var v := Of(f, c) + MIN_FRONTIER_GAIN_BPS;
    SumMapUpdate(f, c, v);
    RaiseInRange(f, s);
    assert Covers(Raise(f, s), f[c := v]);
    SumMapCovers(f[c := v], Raise(f, s));
  }

  // ----- Every step keeps the invariant

  lemma SeedKeeps(rules: Rules, w: World, artifact: Text, content: Text, behavior: Text, scores: Scores)
    requires Inv(w) && SeedProblem(rules, w.memory, artifact, content, behavior, scores) == None
    ensures Inv(w.(memory := Memory(Recorded(w.memory.contents, artifact, content, behavior, scores), false), order := w.order + [artifact]))
  {
    hide LineageOk, OrderOk, SeedProblem, FrontierOf;
    NewReference(rules, w.memory, artifact, content, behavior, scores);
    RecordingIsConsistent(w.memory.contents, artifact, content, behavior, scores);
    LineageOfSeed(w.memory.contents.records, w.order, w.parents, artifact, scores);
  }

  lemma SealKeeps(w: World)
    requires Inv(w) && !w.memory.sealed
    ensures Inv(w.(memory := w.memory.(sealed := true), base := Total(w)))
  {
    hide LineageOk, OrderOk, FrontierOf;
    FrontierInRange(w.memory.contents.records);
    SumMapNonNegative(FrontierOf(w.memory.contents.records));
  }

  lemma CandidateFollows(records: map<Text, Scores>, s: Snapshot)
    requires AllInRange(records) && LineageProblem(records, s) == None
    ensures forall p | p in s.parents :: p in records && Follows(records[p], s.scores)
    ensures Gains(FrontierOf(records), s.scores) != map[]
  {
    hide FrontierOf, Inherits, Follows, Gains;
    assert AllInRange(Selected(records, s.parents));
    forall p | p in s.parents ensures p in records && Follows(records[p], s.scores) {
      InheritsFromEach(records, s.parents, s.scores, p);
    }
  }

  lemma AcceptKeeps(rules: Rules, w: World, s: Snapshot)
    requires Inv(w) && Assessed(rules, w.memory, s).Success?
    ensures Inv(w.(memory := Memory(WithSnapshot(w.memory.contents, s), true), order := w.order + [s.artifact],
                   parents := w.parents[s.artifact := s.parents], accepted := w.accepted + 1))
  {
    hide LineageOk, OrderOk, FrontierOf, LineageProblem, Gains, Raise, Follows, CapabilityId, Assessed;
    var records := w.memory.contents.records;
    NewCandidate(rules, w.memory, s);
    RecordingIsConsistent(w.memory.contents, s.artifact, s.content, s.behavior, s.scores);
    CandidateFollows(records, s);
    LineageOfChild(records, w.order, w.parents, s.artifact, s.scores, s.parents);
    FrontierGrows(records, s.artifact, s.scores);
    FrontierInRange(records);
    GainRaisesTotal(FrontierOf(records), s.scores);
  }

  lemma {:induction false} RunKeepsInvariant(rules: Rules, events: seq<Event>)
    ensures Inv(Run(rules, events))
  {
    if events == [] {
      assert FrontierOf(map[]) == map[];
    } else {
      RunKeepsInvariant(rules, events[..|events| - 1]);
      StepKeepsInvariant(rules, Run(rules, events[..|events| - 1]), events[|events| - 1]);
    }
  }

  lemma SeedStepKeeps(rules: Rules, w: World, e: Event)
    requires Inv(w) && e.Seed? && Consistent(w.memory.contents)
    ensures Inv(Step(rules, w, e))
  {
    hide Inv, SeedProblem, SeedContent, Consistent, FrontierOf;
    var content := SeedContent(e.artifact, e.contentHash);
    if SeedProblem(rules, w.memory, e.artifact, content, e.behavior, e.scores) == None {
      SeedKeeps(rules, w, e.artifact, content, e.behavior, e.scores);
    }
  }

  lemma ProposalStepKeeps(rules: Rules, w: World, e: Event)
    requires Inv(w) && e.Propose? && Consistent(w.memory.contents) && AllInRange(w.memory.contents.records)
    ensures Inv(Step(rules, w, e))
  {
    hide Inv, Assessed, Consistent, FrontierOf;
    if Assessed(rules, w.memory, e.snapshot).Success? {
      AcceptKeeps(rules, w, e.snapshot);
    }
  }

  lemma StepKeepsInvariant(rules: Rules, w: World, e: Event)
    requires Inv(w)
    ensures Inv(Step(rules, w, e))
  {
    InvIsConsistent(w);
    hide Inv, Consistent, FrontierOf, SeedProblem, Assessed;
    if e.Seed? {
      SeedStepKeeps(rules, w, e);
    } else if e.Propose? {
      ProposalStepKeeps(rules, w, e);
    } else if w.memory.contents.records != map[] && !w.memory.sealed {
      SealKeeps(w);
    }
  }

  lemma InvIsConsistent(w: World)
    requires Inv(w)
    ensures Consistent(w.memory.contents) && AllInRange(w.memory.contents.records)
  {
  }

  // ----- What holds after every run

  /** However the memory is used, it accepts at most 100 snapshots per capability. */
  lemma AcceptanceIsBounded(rules: Rules, events: seq<Event>)
    ensures var w := Run(rules, events);
            && w.base + MIN_FRONTIER_GAIN_BPS * w.accepted <= BPS * |FrontierOf(w.memory.contents.records)|
            && w.accepted <= 100 * |FrontierOf(w.memory.contents.records)|
  {
    hide Run, LineageOk, OrderOk, FrontierOf;
    RunKeepsInvariant(rules, events);
    var w := Run(rules, events);
    var f := FrontierOf(w.memory.contents.records);
    FrontierInRange(w.memory.contents.records);
    SumMapBounds(f, 0, BPS);
    if !w.memory.sealed {
      BaseBeforeSeal(rules, events);
    }
  }

  lemma {:induction false} BaseBeforeSeal(rules: Rules, events: seq<Event>)
    ensures !Run(rules, events).memory.sealed ==> Run(rules, events).base == 0
  {
    hide Assessed, PrefixedDigest, Digest, ValidScores, Recorded, Consistent, FrontierOf;
    if events != [] {
      BaseBeforeSeal(rules, events[..|events| - 1]);
    }
  }

  /** No call ever lowers the frontier. */
  lemma {:induction false} FrontierNeverFalls(rules: Rules, events: seq<Event>, n: nat)
    requires n <= |events|
    ensures Covers(FrontierOf(Run(rules, events).memory.contents.records), FrontierOf(Run(rules, events[..n]).memory.contents.records))
    decreases |events|
  {
    hide FrontierOf, OneToOne, Held, Assessed, SeedProblem;
    if n == |events| {
      assert events[..n] == events;
    } else {
      var before := events[..|events| - 1];
      FrontierNeverFalls(rules, before, n);
      assert before[..n] == events[..n];
      StepRaises(rules, Run(rules, before), events[|events| - 1]);
    }
  }

  lemma RecordingRaises(records: map<Text, Scores>, a: Text, s: Scores)
    requires AllInRange(records) && a !in records && ValidScores(s)
    ensures AllInRange(records[a := s]) && Covers(FrontierOf(records[a := s]), FrontierOf(records))
  {
    hide FrontierOf, Raise, CapabilityId;
    FrontierGrows(records, a, s);
    RaiseCovers(FrontierOf(records), s);
  }

  lemma StepRaises(rules: Rules, w: World, e: Event)
    requires Consistent(w.memory.contents)
    ensures AllInRange(Step(rules, w, e).memory.contents.records)
    ensures Covers(FrontierOf(Step(rules, w, e).memory.contents.records), FrontierOf(w.memory.contents.records))
  {
    hide FrontierOf, SeedProblem, Assessed, SeedContent, OneToOne, Held, ValidScores;
    var records := w.memory.contents.records;
    match e
    case Seed(artifact, contentHash, behavior, scores) =>
      var content := SeedContent(artifact, contentHash);
      if SeedProblem(rules, w.memory, artifact, content, behavior, scores) == None {
        NewReference(rules, w.memory, artifact, content, behavior, scores);
        RecordingRaises(records, artifact, scores);
      }
    case Seal =>
    case Propose(s) =>
      if Assessed(rules, w.memory, s).Success? {
        NewCandidate(rules, w.memory, s);
        RecordingRaises(records, s.artifact, s.scores);
      }
  }

  // ----- Ancestry

  /** Each artifact of the path is a declared parent of the next one. */
  ghost predicate Descent(parents: map<Text, seq<Text>>, path: seq<Text>) {
    path != [] && forall i | 0 < i < |path| :: path[i] in parents && path[i - 1] in parents[path[i]]
  }

  ghost predicate RecordedBefore(order: seq<Text>, a: Text, b: Text) {
    exists i, j :: 0 <= i < j < |order| && order[i] == a && order[j] == b
  }

  lemma ParentsComeBefore(w: World, p: Text, a: Text)
    requires Inv(w) && a in w.parents && p in w.parents[a]
    ensures p in w.memory.contents.records && a in w.memory.contents.records
    ensures RecordedBefore(w.order, p, a)
    ensures Follows(w.memory.contents.records[p], w.memory.contents.records[a])
  {
    var j :| 0 <= j < |w.order| && w.order[j] == a;
    assert BornOf(w.memory.contents.records, w.order, w.parents[a], j);
    assert p in w.order[..j];
    var i :| 0 <= i < j && w.order[i] == p;
  }

  lemma BeforeIsTransitive(order: seq<Text>, a: Text, b: Text, c: Text)
    requires Distinct(order) && RecordedBefore(order, a, b) && RecordedBefore(order, b, c)
    ensures RecordedBefore(order, a, c)
  {
    var i, j :| 0 <= i < j < |order| && order[i] == a && order[j] == b;
    var k, l :| 0 <= k < l < |order| && order[k] == b && order[l] == c;
    assert j == k;
  }

  lemma NothingBeforeItself(order: seq<Text>, a: Text)
    requires Distinct(order)
    ensures !RecordedBefore(order, a, a)
  {
  }

  /** Along any line of descent of any length: every step was recorded later, nothing measured
      is dropped, and at most 500 bps are lost per generation. */
  lemma {:induction false} DescentLoses(w: World, path: seq<Text>)
    requires Inv(w) && Descent(w.parents, path) && path[0] in w.memory.contents.records
    ensures var first, last := path[0], path[|path| - 1];
            && last in w.memory.contents.records
            && (|path| > 1 ==> RecordedBefore(w.order, first, last))
            && forall c | c in w.memory.contents.records[first] ::
                 && c in w.memory.contents.records[last]
                 && w.memory.contents.records[last][c]
                    >= w.memory.contents.records[first][c] - MAX_PARENT_REGRESSION_BPS * (|path| - 1)
  {
    hide LineageOk, GrowthOk, Consistent, RecordedBefore;
    if |path| > 1 {
      var init, p, a := path[..|path| - 1], path[|path| - 2], path[|path| - 1];
      DescentLoses(w, init);
      ParentsComeBefore(w, p, a);
      if |init| > 1 {
        BeforeIsTransitive(w.order, path[0], p, a);
      }
    }
  }

  /** After any run, no artifact is its own ancestor. */
  lemma LineageIsAcyclic(rules: Rules, events: seq<Event>, path: seq<Text>)
    requires var w := Run(rules, events); Descent(w.parents, path) && path[0] in w.memory.contents.records
    ensures Distinct(path)
  {
    hide Run, RecordedBefore, LineageOk, GrowthOk, Consistent;
    RunKeepsInvariant(rules, events);
    var w := Run(rules, events);
    forall i, j | 0 <= i < j < |path| ensures path[i] != path[j] {
      PartOfDescent(w, path, i, j);
      DescentLoses(w, path[i..j + 1]);
      NothingBeforeItself(w.order, path[i]);
    }
  }

  lemma PartOfDescent(w: World, path: seq<Text>, i: nat, j: nat)
    requires Inv(w) && Descent(w.parents, path) && i < j < |path| && path[0] in w.memory.contents.records
    ensures path[i] in w.memory.contents.records
    ensures Descent(w.parents, path[i..j + 1])
  {
    hide GrowthOk, Consistent, BornOf;
    if i > 0 {
      assert path[i] in w.parents;
    }
  }

  /** After any run, every artifact descends from a seeded reference. */
  lemma LineageIsRooted(rules: Rules, events: seq<Event>, a: Text)
    requires a in Run(rules, events).memory.contents.records
    ensures var w := Run(rules, events);
            exists path :: Descent(w.parents, path) && path[|path| - 1] == a && path[0] in w.memory.contents.records && path[0] !in w.parents
  {
    hide Run;
    RunKeepsInvariant(rules, events);
    var w := Run(rules, events);
    var i :| 0 <= i < |w.order| && w.order[i] == a;
    var path := RootPath(w, i);
  }

  lemma FirstParent(w: World, i: nat) returns (j: nat)
    requires Inv(w) && i < |w.order| && w.order[i] in w.parents
    ensures j < i && w.order[j] in w.parents[w.order[i]]
  {
    hide GrowthOk, Consistent, Follows;
    assert BornOf(w.memory.contents.records, w.order, w.parents[w.order[i]], i);
    var p := w.parents[w.order[i]][0];
    assert p in w.order[..i];
    j :| 0 <= j < i && w.order[j] == p;
  }

  lemma {:induction false} RootPath(w: World, i: nat) returns (path: seq<Text>)
    requires Inv(w) && i < |w.order|
    ensures Descent(w.parents, path) && path[|path| - 1] == w.order[i]
    ensures path[0] in w.memory.contents.records && path[0] !in w.parents
  {
    hide GrowthOk, Consistent, LineageOk;
    var a := w.order[i];
    if a !in w.parents {
      assert a in w.order;
      path := [a];
    } else {
      var j := FirstParent(w, i);
      path := RootPath(w, j);
      path := path + [a];
    }
  }

  /** Two runs that end with the same root know the same artifacts with the same scores, contents
      and behaviors, unless their two last texts collide. */
  lemma SameRootSameMemory(rules: Rules, one: seq<Event>, two: seq<Event>)
    requires var a, b := RootText(Run(rules, one).memory.contents), RootText(Run(rules, two).memory.contents);
             rules.crypto.hash(a) == rules.crypto.hash(b) ==> a == b
    requires Root(rules.crypto, Run(rules, one).memory.contents).Some?
    requires Root(rules.crypto, Run(rules, one).memory.contents) == Root(rules.crypto, Run(rules, two).memory.contents)
    ensures Run(rules, one).memory.contents == Run(rules, two).memory.contents
  {
    hide Run, Root;
    RootIdentifiesContents(rules.crypto, Run(rules, one).memory.contents, Run(rules, two).memory.contents);
  }
}
