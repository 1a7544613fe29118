/** Whole runs of processes sharing one replay store directory: every atomic copy write is
    a step, a process may crash at any step, and one copy at a time may be lost.

    The exclusive file lock admits one process at a time to the critical section and is
    released by a crash, so a run is a sequence of operations, each cut short anywhere. */
module ReplayRuns {
  import opened Ordering
  import opened Results
  import opened ReplayStore

  /** Where the lock holder stands. `a` and `b` say which copies the load found in need of repair. */
  datatype Phase =
    | Loading
    | Repairing(chosen: State, a: bool, b: bool)
    | Committing(current: State, next: State, written: nat)

  /** No keys: the operation only opens the store. */
  datatype Lock = Free | Held(request: Option<seq<Text>>, phase: Phase)

  /** `chain`: every state the directory has settled on, oldest first.
      `acked`: position in it of the last state a caller was told about.
      `batches`: the key lists whose consumption was acknowledged, in order.
      `interrupted`: commits cut short by a crash since the last acknowledgement.
      `seen`: every state this run ever made, written or not.  Results below hold for any hash
      that gives no two of these the same digest, and say nothing about any other payload. */
  datatype World = World(
    a: FileCopy, b: FileCopy, lock: Lock,
    chain: seq<State>, acked: nat, batches: seq<seq<Text>>, interrupted: nat, seen: set<State>)

  datatype Event =
    | Acquire(request: Option<seq<Text>>)
    | Advance
    | Crash
    | LoseFirst(found: FileCopy)
    | LoseSecond(found: FileCopy)

  ghost function Start(h: Hash): World {
    World(Missing, Missing, Free, [EmptyState(h)], 0, [], 0, {EmptyState(h)})
  }

  function Last(w: World): State
    requires w.chain != []
  {
    w.chain[|w.chain| - 1]
  }

  ghost predicate Enabled(w: World, e: Event) {
    match e
    case Acquire(request) => w.lock.Free? && (request.Some? ==> GoodKeys(request.value))
    case Advance => w.lock.Held?
    case Crash => w.lock.Held?
    // A copy may vanish or turn to garbage while the other one is there.
    case LoseFirst(found) => w.b.Document? && !found.Document?
    case LoseSecond(found) => w.a.Document? && !found.Document?
  }

  ghost function Settle(w: World, s: State): World
    requires w.chain != []
  {
    if s == Last(w) then w else w.(chain := w.chain + [s])
  }

  ghost function Acknowledge(w: World): World
    requires w.chain != []
  {
    w.(lock := Free, acked := |w.chain| - 1, interrupted := 0)
  }

  /** After the repairs: return the state, or start committing the request. */
  ghost function Decide(h: Hash, w: World, request: Option<seq<Text>>, chosen: State): World
    requires w.chain != []
  {
    var settled := Settle(w, chosen);
    match request
    case None => Acknowledge(settled)
    case Some(keys) =>
      match NextState(h, chosen, keys)
      case Failure(_) => settled.(lock := Free)
      case Success(n) => settled.(lock := Held(request, Committing(chosen, n, 0)), seen := w.seen + {n})
  }

  ghost function Progress(h: Hash, w: World): (w': World)
    requires w.lock.Held? && w.chain != []
    ensures w'.chain != []
  {
    match w.lock.phase
    case Loading =>
      (match Choose(h, w.a, w.b)
       case Failure(_) => w.(lock := Free)
       case Success(s) =>
         w.(lock := w.lock.(phase := Repairing(s, NeedsRepair(h, w.a, s), NeedsRepair(h, w.b, s)))))
    case Repairing(s, a, b) =>
      if a then w.(a := Document(s), lock := w.lock.(phase := Repairing(s, false, b)))
      else if b then w.(b := Document(s), lock := w.lock.(phase := Repairing(s, false, false)))
      else Decide(h, w, w.lock.request, s)
    case Committing(s, n, written) =>
      if written == 0 then w.(a := Document(n), lock := w.lock.(phase := Committing(s, n, 1)))
      else if written == 1 then w.(b := Document(n), lock := w.lock.(phase := Committing(s, n, 2)))
      else
        var done := Acknowledge(Settle(w, n));
        if w.lock.request.Some? then done.(batches := w.batches + [w.lock.request.value]) else done
  }

  ghost function Step(h: Hash, w: World, e: Event): World
    requires Enabled(w, e) && w.chain != []
  {
    match e
    case Acquire(request) => w.(lock := Held(request, Loading))
    case Advance => Progress(h, w)
    case Crash => w.(lock := Free, interrupted := w.interrupted + if w.lock.phase.Committing? then 1 else 0)
    case LoseFirst(found) => w.(a := found)
    case LoseSecond(found) => w.(b := found)
  }

  /** The world after a run; None when some event was not possible. */
  ghost function Run(h: Hash, events: seq<Event>): Option<World> {
    if events == [] then Some(Start(h))
    else
      var before := Run(h, events[..|events| - 1]);
      var e := events[|events| - 1];
      if before.None? || before.value.chain == [] || !Enabled(before.value, e) then None
      else Some(Step(h, before.value, e))
  }

  // ----- The invariant

  /** The copy is absent, or holds the settled state or its one in-flight successor. */
  ghost predicate CopyOk(h: Hash, last: State, c: FileCopy) {
    c.Document? ==> c.state == last || Successor(h, last, c.state)
  }

  ghost predicate Holds(c: FileCopy, s: State) {
    c.Document? ==> c.state == s
  }

  ghost predicate Surviving(h: Hash, w: World)
    requires w.chain != []
  {
    w.a.Document? || w.b.Document? || (w.a == Missing && w.b == Missing && Last(w) == EmptyState(h))
  }

  ghost predicate ChainOk(h: Hash, chain: seq<State>) {
    && chain != []
    && chain[0] == EmptyState(h)
    && (forall i | 0 <= i < |chain| :: Stored(h, chain[i]) && chain[i].payload.generation == i)
    && (forall i | 0 < i < |chain| :: Successor(h, chain[i - 1], chain[i]))
  }

  /** Acknowledged batches never share a key, and every acknowledged key is in the state. */
  ghost predicate BatchesOk(batches: seq<seq<Text>>, s: State) {
    && (forall i, k | 0 <= i < |batches| && k in batches[i] :: k in s.payload.consumed)
    && (forall i, j, k | 0 <= i < j < |batches| && k in batches[i] :: k !in batches[j])
  }

  /** Unacknowledged settled states come from interrupted commits, one each. */
  ghost predicate Lagging(w: World, extra: nat) {
    w.acked < |w.chain| && |w.chain| - 1 - w.acked + extra <= w.interrupted
  }

  ghost predicate InFlight(w: World)
    requires w.chain != []
  {
    !Holds(w.a, Last(w)) || !Holds(w.b, Last(w))
  }

  /** At rest: the copies tell the settled state, or one and the same successor of it. */
  ghost predicate AtRest(h: Hash, w: World)
    requires w.chain != []
  {
    && Surviving(h, w)
    && CopyOk(h, Last(w), w.a) && CopyOk(h, Last(w), w.b)
    && (w.a.Document? && w.b.Document? && w.a.state != Last(w) && w.b.state != Last(w) ==> w.a.state == w.b.state)
    && Lagging(w, if InFlight(w) then 1 else 0)
  }

  ghost predicate PhaseOk(h: Hash, w: World)
    requires w.chain != []
  {
    match w.lock
    case Free => true
    case Held(request, Loading) => request.Some? ==> GoodKeys(request.value)
    case Held(request, Repairing(s, a, b)) =>
      && (request.Some? ==> GoodKeys(request.value))
      && (s == Last(w) || (Successor(h, Last(w), s) && Lagging(w, 1)))
      && (!a ==> Holds(w.a, s)) && (!b ==> Holds(w.b, s))
      && (w.a.Document? && w.a.state != Last(w) ==> w.a.state == s)
      && (w.b.Document? && w.b.state != Last(w) ==> w.b.state == s)
      && (!w.a.Document? && !w.b.Document? ==> a && b)
    case Held(request, Committing(s, n, written)) =>
      && s == Last(w) && Successor(h, s, n) && written <= 2
      && request.Some? && GoodKeys(request.value)
      && (forall k | k in request.value :: k !in s.payload.consumed && k in n.payload.consumed)
      && Holds(w.a, if written >= 1 then n else s)
      && Holds(w.b, if written == 2 then n else s)
      && (w.a.Document? || w.b.Document?)
      && Lagging(w, 0)
  }

  ghost predicate CopySeen(c: FileCopy, seen: set<State>) {
    c.Document? ==> c.state in seen
  }

  /** The run made every state it deals with. */
  ghost predicate SeenOk(w: World) {
    && (forall s | s in w.chain :: s in w.seen)
    && CopySeen(w.a, w.seen) && CopySeen(w.b, w.seen)
    && match w.lock
       case Held(_, Repairing(s, _, _)) => s in w.seen
       case Held(_, Committing(s, n, _)) => s in w.seen && n in w.seen
       case _ => true
  }

  ghost predicate Inv(h: Hash, w: World) {
    && ChainOk(h, w.chain)
    && SeenOk(w)
    && BatchesOk(w.batches, Last(w))
    && PhaseOk(h, w)
    && Surviving(h, w)
    && (!(w.lock.Held? && w.lock.phase.Committing?) ==> AtRest(h, w))
  }

  // ----- A load from a directory at rest

  lemma LoadAtRest(h: Hash, w: World)
    requires WellFormedHash(h) && ChainOk(h, w.chain) && AtRest(h, w) && SeenOk(w) && Separate(w.seen)
    ensures var r := Choose(h, w.a, w.b);
            && r.Success?
            && (r.value == Last(w) || (Successor(h, Last(w), r.value) && InFlight(w)))
            && (w.a.Document? && w.a.state != Last(w) ==> w.a.state == r.value)
            && (w.b.Document? && w.b.state != Last(w) ==> w.b.state == r.value)
  {
    var last := Last(w);
    EmptyIsStored(h);
    if w.a.Document? && w.b.Document? {
      StoredIsReadable(h, last);
      StoredIsReadable(h, w.a.state);
      StoredIsReadable(h, w.b.state);
      if w.a.state != last {
        ChooseLater(h, last, w.a.state);
      }
      if w.b.state != last {
        ChooseLater(h, last, w.b.state);
      }
    } else if w.a.Document? {
      ChooseSurvivor(h, w.a.state, w.b);
    } else if w.b.Document? {
      ChooseSurvivor(h, w.b.state, w.a);
    }
  }

  lemma SettleKeepsChain(h: Hash, w: World, s: State)
    requires ChainOk(h, w.chain) && BatchesOk(w.batches, Last(w))
    requires s == Last(w) || Successor(h, Last(w), s)
    ensures ChainOk(h, Settle(w, s).chain)
    ensures Last(Settle(w, s)) == s && BatchesOk(w.batches, s)
    ensures |Settle(w, s).chain| == |w.chain| + if s == Last(w) then 0 else 1
  {
  }

  lemma ProgressLoading(h: Hash, w: World)
    requires WellFormedHash(h) && Inv(h, w) && Separate(w.seen) && w.lock.Held? && w.lock.phase.Loading?
    ensures Inv(h, Progress(h, w))
  {
    LoadAtRest(h, w);
    var s := Choose(h, w.a, w.b).value;
    RepairIsIdempotent(h, w.a, w.b);
  }

  lemma ProgressRepairing(h: Hash, w: World)
    requires WellFormedHash(h) && Inv(h, w) && w.lock.Held? && w.lock.phase.Repairing?
    ensures Inv(h, Progress(h, w))
  {
    hide WellFormedHash, GoodKeys, Stored, Readable;
    var Repairing(s, a, b) := w.lock.phase;
    if !a && !b {
      SettleKeepsChain(h, w, s);
      if w.lock.request.Some? {
        NextIsSuccessor(h, s, w.lock.request.value);
      }
    }
  }

  lemma ProgressCommitting(h: Hash, w: World)
    requires Inv(h, w) && w.lock.Held? && w.lock.phase.Committing?
    ensures Inv(h, Progress(h, w))
  {
    if w.lock.phase.written == 2 {
      CommitReturns(h, w);
    }
  }

  lemma CommitReturns(h: Hash, w: World)
    requires Inv(h, w) && w.lock.Held? && w.lock.phase.Committing? && w.lock.phase.written == 2
    ensures Inv(h, Progress(h, w))
  {
    var n, keys := w.lock.phase.next, w.lock.request.value;
    SettleKeepsChain(h, w, n);
    var done := Progress(h, w);
    assert done.batches == w.batches + [keys];
    assert BatchesOk(done.batches, n) by {
      forall i, k | 0 <= i < |done.batches| && k in done.batches[i] ensures k in n.payload.consumed {
        assert i == |w.batches| || k in w.batches[i];
      }
      forall i, j, k | 0 <= i < j < |done.batches| && k in done.batches[i] ensures k !in done.batches[j] {
        assert k in w.batches[i];
      }
    }
    assert AtRest(h, done);
  }

  lemma StepKeepsInvariant(h: Hash, w: World, e: Event)
    requires WellFormedHash(h) && Inv(h, w) && Separate(w.seen) && Enabled(w, e)
    ensures Inv(h, Step(h, w, e))
  {
    hide WellFormedHash, Separate, Progress, Inv;
    match e
    case Acquire(_) => LockKeeps(h, w, e);
    case Advance =>
      if w.lock.phase.Loading? {
        ProgressLoading(h, w);
      } else if w.lock.phase.Repairing? {
        ProgressRepairing(h, w);
      } else {
        ProgressCommitting(h, w);
      }
    case Crash => LockKeeps(h, w, e);
    case LoseFirst(_) => LossKeeps(h, w, e);
    case LoseSecond(_) => LossKeeps(h, w, e);
  }

  lemma LockKeeps(h: Hash, w: World, e: Event)
    requires Inv(h, w) && Enabled(w, e) && (e.Acquire? || e.Crash?)
    ensures Inv(h, Step(h, w, e))
  {
    hide Stored, BatchesOk, ChainOk, GoodKeys;
  }

  lemma LossKeeps(h: Hash, w: World, e: Event)
    requires Inv(h, w) && Enabled(w, e) && (e.LoseFirst? || e.LoseSecond?)
    ensures Inv(h, Step(h, w, e))
  {
    hide Stored, BatchesOk, ChainOk, GoodKeys;
  }

  lemma SeenGrows(h: Hash, w: World, e: Event)
    requires Enabled(w, e) && w.chain != []
    ensures w.seen <= Step(h, w, e).seen
  {
  }

  /** What a run may assume of the hash: digests, and no collision among the states it made. */
  ghost predicate Sound(h: Hash, events: seq<Event>) {
    WellFormedHash(h) && Run(h, events).Some? && Separate(Run(h, events).value.seen)
  }

  lemma SoundBefore(h: Hash, events: seq<Event>)
    requires Sound(h, events) && events != []
    ensures Sound(h, events[..|events| - 1])
  {
    SeenGrows(h, Run(h, events[..|events| - 1]).value, events[|events| - 1]);
  }

  lemma {:induction false} RunKeepsInvariant(h: Hash, events: seq<Event>)
    requires Sound(h, events)
    ensures Inv(h, Run(h, events).value)
  {
    if events == [] {
      EmptyIsStored(h);
    } else {
      SoundBefore(h, events);
      RunKeepsInvariant(h, events[..|events| - 1]);
      StepKeepsInvariant(h, Run(h, events[..|events| - 1]).value, events[|events| - 1]);
    }
  }

  lemma CrashedIsAtRest(h: Hash, w: World)
    requires Inv(h, w) && w.lock.Held? && w.lock.phase.Committing?
    ensures AtRest(h, Step(h, w, Crash)) && SeenOk(Step(h, w, Crash))
  {
    hide Stored, BatchesOk, ChainOk;
  }

  // ----- What holds at every point of every run

  /** Whatever happened, and wherever the last process was cut short, the next load succeeds.
      It returns the last settled state or its one successor, at most one generation per
      interrupted commit beyond what was last acknowledged. */
  lemma ReloadNeverDiverges(h: Hash, events: seq<Event>)
    requires Sound(h, events)
    ensures var w := Run(h, events).value;
            && w.chain != [] && w.acked < |w.chain|
            && Choose(h, w.a, w.b).Success?
            && var s := Choose(h, w.a, w.b).value;
            && (s == Last(w) || Successor(h, Last(w), s))
            && Readable(h, s)
            && w.chain[w.acked].payload.generation <= s.payload.generation
            && s.payload.generation <= w.chain[w.acked].payload.generation + w.interrupted
               + if w.lock.Held? && w.lock.phase.Committing? then 1 else 0
  {
    hide Run, Choose;
    RunKeepsInvariant(h, events);
    var w := Run(h, events).value;
    if w.lock.Held? && w.lock.phase.Committing? {
      CrashedIsAtRest(h, w);
    }
    LoadAtRest(h, if w.lock.Held? && w.lock.phase.Committing? then Step(h, w, Crash) else w);
    ChosenIsReadable(h, w.a, w.b);
    hide WellFormedHash, Separate, BatchesOk, SeenOk, PhaseOk, Stored, Readable;
    assert w.chain[w.acked].payload.generation == w.acked && Last(w).payload.generation == |w.chain| - 1;
  }

  /** No key is acknowledged twice, and an acknowledged key is in whatever is loaded next:
      consuming it again is refused. */
  lemma ExactlyOnce(h: Hash, events: seq<Event>)
    requires Sound(h, events)
    ensures var w := Run(h, events).value;
            && Choose(h, w.a, w.b).Success?
            && (forall i, j, k | 0 <= i < j < |w.batches| && k in w.batches[i] :: k !in w.batches[j])
            && (forall i, k | 0 <= i < |w.batches| && k in w.batches[i] ::
                  && k in Choose(h, w.a, w.b).value.payload.consumed
                  && NextState(h, Choose(h, w.a, w.b).value, [k]) == Failure(AlreadyConsumed))
  {
    RunKeepsInvariant(h, events);
    ReloadNeverDiverges(h, events);
    var w := Run(h, events).value;
    var s := Choose(h, w.a, w.b).value;
    forall i, k | 0 <= i < |w.batches| && k in w.batches[i]
      ensures k in s.payload.consumed && NextState(h, s, [k]) == Failure(AlreadyConsumed)
    {
      assert [k][0] in s.payload.consumed;
    }
  }

  /** With no interrupted commit since the last acknowledgement, and none under way, a load
      returns exactly the acknowledged state, so its checkpoint can be pinned. */
  lemma QuietReloadReturnsAcknowledged(h: Hash, events: seq<Event>)
    requires Sound(h, events)
    requires var w := Run(h, events).value; w.interrupted == 0 && !(w.lock.Held? && w.lock.phase.Committing?)
    ensures var w := Run(h, events).value;
            w.acked < |w.chain| && Choose(h, w.a, w.b) == Success(w.chain[w.acked])
  {
    hide Run, Choose;
    RunKeepsInvariant(h, events);
    LoadAtRest(h, Run(h, events).value);
    hide WellFormedHash, Separate, BatchesOk, SeenOk, PhaseOk, ChainOk;
  }

  // ----- Steps and whole operations agree

  ghost function Complete(h: Hash, w: World, steps: nat): (w': World)
    requires w.chain != []
    ensures w'.chain != []
    decreases steps
  {
    if w.lock.Free? || steps == 0 then w else Complete(h, Progress(h, w), steps - 1)
  }

  /** The directory once the repairs a load found due are done. */
  ghost function Ready(h: Hash, w: World, s: State): World {
    w.(a := Repaired(h, w.a, s), b := Repaired(h, w.b, s))
  }

  /** The repairs still due, then the decision. */
  lemma CompleteRepairs(h: Hash, w: World, steps: nat)
    requires w.chain != [] && w.lock.Held? && w.lock.phase.Repairing? && steps >= 3
    requires w.lock.phase.a == NeedsRepair(h, w.a, w.lock.phase.chosen)
    requires w.lock.phase.b == NeedsRepair(h, w.b, w.lock.phase.chosen)
    ensures var s := w.lock.phase.chosen;
            exists left | steps - 3 <= left <= steps - 1 ::
              Complete(h, w, steps) == Complete(h, Decide(h, Ready(h, w, s), w.lock.request, s), left)
  {
    hide NeedsRepair, Choose, NextState, Decide;
    var Repairing(s, a, b) := w.lock.phase;
    var w1 := if a then Progress(h, w) else w;
    var left1 := if a then steps - 1 else steps;
    assert Complete(h, w, steps) == Complete(h, w1, left1);
    var w2 := if b then Progress(h, w1) else w1;
    var left2 := if b then left1 - 1 else left1;
    assert Complete(h, w1, left1) == Complete(h, w2, left2);
    assert Complete(h, w2, left2) == Complete(h, Progress(h, w2), left2 - 1);
    var both := Ready(h, w, s);
    assert w2 == both.(lock := w2.lock);
    DecideIgnoresLock(h, both, w2.lock, w.lock.request, s);
  }

  lemma DecideIgnoresLock(h: Hash, w: World, lock: Lock, request: Option<seq<Text>>, s: State)
    requires w.chain != []
    ensures Decide(h, w.(lock := lock), request, s) == Decide(h, w, request, s)
  {
  }

  lemma CompleteCommit(h: Hash, w: World, keys: seq<Text>, s: State, n: State, left: nat)
    requires w.chain != [] && w.lock == Held(Some(keys), Committing(s, n, 0)) && left >= 3
    ensures var settled := w.(a := Document(n), b := Document(n));
            Complete(h, w, left) == Acknowledge(Settle(settled, n)).(batches := w.batches + [keys])
  {
    var w1 := Progress(h, w);
    var w2 := Progress(h, w1);
    var w3 := Progress(h, w2);
    assert Complete(h, w, left) == Complete(h, w1, left - 1);
    assert Complete(h, w1, left - 1) == Complete(h, w2, left - 2);
    assert Complete(h, w2, left - 2) == Complete(h, w3, left - 3);
  }

  lemma CompleteDecision(h: Hash, w: World, keys: seq<Text>, s: State, left: nat)
    requires w.chain != [] && left >= 3
    ensures var done := Complete(h, Decide(h, w, Some(keys), s), left);
            match NextState(h, s, keys) {
              case Failure(_) => done == Settle(w, s).(lock := Free)
              case Success(n) =>
                done == Acknowledge(Settle(Settle(w, s).(a := Document(n), b := Document(n)), n)).(batches := w.batches + [keys], seen := w.seen + {n})
            }
  {
    var decided := Decide(h, w, Some(keys), s);
    match NextState(h, s, keys)
    case Failure(_) =>
    case Success(n) =>
      CompleteCommit(h, decided, keys, s, n, left);
      assert Settle(decided.(a := Document(n), b := Document(n)), n).(lock := Free)
          == Settle(Settle(w, s).(a := Document(n), b := Document(n)), n).(lock := Free, seen := w.seen + {n});
  }

  lemma CompleteLoad(h: Hash, w: World, keys: seq<Text>)
    requires w.chain != [] && w.lock.Free? && Choose(h, w.a, w.b).Success?
    ensures var s := Choose(h, w.a, w.b).value;
            exists left | 3 <= left <= 5 ::
              Complete(h, w.(lock := Held(Some(keys), Loading)), 7) == Complete(h, Decide(h, Ready(h, w, s), Some(keys), s), left)
  {
    hide Choose, NeedsRepair;
    var begun := w.(lock := Held(Some(keys), Loading));
    var s := Choose(h, w.a, w.b).value;
    var loaded := Progress(h, begun);
    assert Complete(h, begun, 7) == Complete(h, loaded, 6);
    CompleteRepairs(h, loaded, 6);
    DecideIgnoresLock(h, Ready(h, w, s), loaded.lock, Some(keys), s);
    assert Ready(h, loaded, s) == Ready(h, w, s).(lock := loaded.lock);
  }

  /** An operation that is never cut short ends in exactly the directory its contract states,
      and a consumption is acknowledged exactly when its contract answers with a state. */
  lemma UninterruptedConsume(h: Hash, w: World, keys: seq<Text>)
    requires w.chain != [] && w.lock.Free? && Choose(h, w.a, w.b).Success?
    ensures var done := Complete(h, w.(lock := Held(Some(keys), Loading)), 7);
            var whole := AfterConsume(h, w.a, w.b, keys);
            && done.lock.Free? && done.a == whole.a && done.b == whole.b
            && (whole.answer.Success? ==> Last(done) == whole.answer.value && done.acked == |done.chain| - 1)
            && done.batches == (if whole.answer.Success? then w.batches + [keys] else w.batches)
  {
    hide Choose, NextState, Complete, NeedsRepair;
    var s := Choose(h, w.a, w.b).value;
    CompleteLoad(h, w, keys);
    forall left | 3 <= left <= 5 {
      CompleteDecision(h, Ready(h, w, s), keys, s, left);
    }
  }

  // ----- More than one unacknowledged successor

  lemma Extend(h: Hash, events: seq<Event>, e: Event)
    requires Run(h, events).Some? && Run(h, events).value.chain != [] && Enabled(Run(h, events).value, e)
    ensures Run(h, events + [e]) == Some(Step(h, Run(h, events).value, e))
  {
    assert (events + [e])[..|events + [e]| - 1] == events;
  }

  ghost function Opening(): seq<Event> {
    [Acquire(None), Advance, Advance, Advance, Advance]
  }

  /** A consumption killed right after its first copy write; `repairs` are the repairs it did first. */
  ghost function Killed(keys: seq<Text>, repairs: seq<Event>): seq<Event> {
    [Acquire(Some(keys)), Advance] + repairs + [Advance, Advance, Crash]
  }

  lemma OpenFresh(h: Hash)
    requires WellFormedHash(h)
    ensures var s := EmptyState(h);
            Run(h, Opening()) == Some(World(Document(s), Document(s), Free, [s], 0, [], 0, {s}))
  {
    var s := EmptyState(h);
    EmptyIsStored(h);
    StoredIsReadable(h, s);
    Extend(h, [], Acquire(None));
    assert [] + [Acquire(None)] == [Acquire(None)];
    Extend(h, [Acquire(None)], Advance);
    assert [Acquire(None)] + [Advance] == [Acquire(None), Advance];
    Extend(h, [Acquire(None), Advance], Advance);
    assert [Acquire(None), Advance] + [Advance] == [Acquire(None), Advance, Advance];
    Extend(h, [Acquire(None), Advance, Advance], Advance);
    assert [Acquire(None), Advance, Advance] + [Advance] == [Acquire(None), Advance, Advance, Advance];
    Extend(h, [Acquire(None), Advance, Advance, Advance], Advance);
    assert [Acquire(None), Advance, Advance, Advance] + [Advance] == Opening();
  }

  lemma StepFrom(h: Hash, events: seq<Event>, w: World, e: Event)
    requires Run(h, events) == Some(w) && w.chain != [] && Enabled(w, e)
    ensures Run(h, events + [e]) == Some(Step(h, w, e))
  {
    Extend(h, events, e);
  }

  /** Decided to commit; the first copy is written and the process dies. */
  lemma KilledInCommit(h: Hash, events: seq<Event>, w: World, keys: seq<Text>, s: State, n: State)
    requires Run(h, events) == Some(w) && w.chain != []
    requires w.lock == Held(Some(keys), Repairing(s, false, false)) && NextState(h, s, keys) == Success(n)
    ensures Run(h, events + [Advance, Advance, Crash])
         == Some(Settle(w, s).(a := Document(n), lock := Free, interrupted := w.interrupted + 1, seen := w.seen + {n}))
  {
    var w1 := Settle(w, s).(lock := Held(Some(keys), Committing(s, n, 0)), seen := w.seen + {n});
    var w2 := w1.(a := Document(n), lock := Held(Some(keys), Committing(s, n, 1)));
    StepFrom(h, events, w, Advance);
    StepFrom(h, events + [Advance], w1, Advance);
    StepFrom(h, events + [Advance] + [Advance], w2, Crash);
    assert events + [Advance] + [Advance] + [Crash] == events + [Advance, Advance, Crash];
  }

  /** The kill leaves the successor in the first copy; nobody was told. */
  lemma KilledFromSettled(h: Hash, events: seq<Event>, w: World, keys: seq<Text>, s: State, n: State)
    requires Run(h, events) == Some(w) && GoodKeys(keys) && Readable(h, s)
    requires w.lock.Free? && w.chain != [] && s == Last(w)
    requires w.a == w.b == Document(s) && NextState(h, s, keys) == Success(n)
    ensures Run(h, events + Killed(keys, [])) == Some(w.(a := Document(n), interrupted := w.interrupted + 1, seen := w.seen + {n}))
  {
    hide Readable, GoodKeys, NextState;
    var w1 := w.(lock := Held(Some(keys), Loading));
    var w2 := w.(lock := Held(Some(keys), Repairing(s, false, false)));
    StepFrom(h, events, w, Acquire(Some(keys)));
    StepFrom(h, events + [Acquire(Some(keys))], w1, Advance);
    assert events + [Acquire(Some(keys))] + [Advance] == events + [Acquire(Some(keys)), Advance];
    KilledInCommit(h, events + [Acquire(Some(keys)), Advance], w2, keys, s, n);
    assert events + [Acquire(Some(keys)), Advance] + [Advance, Advance, Crash] == events + Killed(keys, []);
  }

  lemma HalfLoad(h: Hash, w: World, s: State)
    requires w.chain != [] && w.lock.Held? && w.lock.phase.Loading?
    requires Stored(h, Last(w)) && Successor(h, Last(w), s) && Last(w).stateHash != s.stateHash && w.a == Document(s) && w.b == Document(Last(w))
    ensures Progress(h, w) == w.(lock := w.lock.(phase := Repairing(s, false, true)))
  {
    ChooseLater(h, Last(w), s);
    StoredIsReadable(h, s);
    StoredIsReadable(h, Last(w));
  }

  /** The next process first repairs the second copy and settles the orphaned successor. */
  lemma KilledFromHalf(h: Hash, events: seq<Event>, w: World, keys: seq<Text>, s: State, n: State)
    requires Run(h, events) == Some(w) && GoodKeys(keys) && NextState(h, s, keys) == Success(n)
    requires w.lock.Free? && w.chain != [] && s != Last(w) && w.a == Document(s)
    requires Progress(h, w.(lock := Held(Some(keys), Loading))) == w.(lock := Held(Some(keys), Repairing(s, false, true)))
    ensures Run(h, events + Killed(keys, [Advance]))
            == Some(w.(a := Document(n), b := Document(s), chain := w.chain + [s], interrupted := w.interrupted + 1, seen := w.seen + {n}))
  {
    var w1 := w.(lock := Held(Some(keys), Loading));
    var w2 := w.(lock := Held(Some(keys), Repairing(s, false, true)));
    var w3 := w.(b := Document(s), lock := Held(Some(keys), Repairing(s, false, false)));
    var e1 := events + [Acquire(Some(keys))];
    var e2 := e1 + [Advance];
    var e3 := e2 + [Advance];
    StepFrom(h, events, w, Acquire(Some(keys)));
    StepFrom(h, e1, w1, Advance);
    StepFrom(h, e2, w2, Advance);
    KilledInCommit(h, e3, w3, keys, s, n);
    assert e3 + [Advance, Advance, Crash] == events + Killed(keys, [Advance]);
  }

  ghost function TwoKilled(k1: Text, k2: Text): seq<Event> {
    Opening() + Killed([k1], []) + Killed([k2], [Advance])
  }

  /** The state that consuming `keys` on top of `s` makes. */
  ghost function Made(h: Hash, s: State, keys: seq<Text>): State {
    NewState(h, Sort(TextLeq, s.payload.consumed + keys), s.payload.generation + 1, s.stateHash)
  }

  /** Two consumptions killed in a row put the directory two generations past the last
      acknowledged state: "the acknowledged state or its one successor" needs at most one
      interrupted commit since the acknowledgement. */
  lemma TwoKilledIsTwoAhead(h: Hash, k1: Text, k2: Text)
    requires WellFormedHash(h) && IsDigest(k1) && IsDigest(k2) && k1 != k2
    requires EmptyState(h).stateHash != Made(h, EmptyState(h), [k1]).stateHash
    ensures var run := Run(h, TwoKilled(k1, k2));
            var n := Made(h, EmptyState(h), [k1]);
            && run.Some? && run.value.interrupted == 2 && run.value.seen == {EmptyState(h), n, Made(h, n, [k2])}
            && run.value.acked < |run.value.chain| && run.value.lock.Free?
            && Choose(h, run.value.a, run.value.b).Success?
            && Choose(h, run.value.a, run.value.b).value.payload.generation
               == run.value.chain[run.value.acked].payload.generation + 2
  {
    hide Run, Choose, Opening, Killed;
    var s := EmptyState(h);
    EmptyIsStored(h);
    FirstKill(h, [k1]);
    NextIsSuccessor(h, s, [k1]);
    var n := NextState(h, s, [k1]).value;
    NextIsSuccessor(h, n, [k2]);
    SecondKill(h, [k1], [k2], s, n);
  }

  lemma FirstKill(h: Hash, keys: seq<Text>)
    requires WellFormedHash(h) && GoodKeys(keys)
    ensures var s := EmptyState(h);
            && NextState(h, s, keys).Success?
            && var n := NextState(h, s, keys).value;
            Run(h, Opening() + Killed(keys, [])) == Some(World(Document(n), Document(s), Free, [s], 0, [], 1, {s, n}))
  {
    hide Run, Opening, Killed, Readable, CanonicalText, WellFormedHash;
    var s := EmptyState(h);
    EmptyIsStored(h);
    StoredIsReadable(h, s);
    OpenFresh(h);
    NextIsSuccessor(h, s, keys);
    KilledFromSettled(h, Opening(), World(Document(s), Document(s), Free, [s], 0, [], 0, {s}), keys, s,
                      NextState(h, s, keys).value);
    assert {s} + {NextState(h, s, keys).value} == {s, NextState(h, s, keys).value};
  }

  lemma SecondKill(h: Hash, keys1: seq<Text>, keys2: seq<Text>, s: State, n: State)
    requires WellFormedHash(h) && Stored(h, s) && Successor(h, s, n) && s.stateHash != n.stateHash
    requires GoodKeys(keys2) && NextState(h, n, keys2).Success?
    requires Run(h, Opening() + Killed(keys1, [])) == Some(World(Document(n), Document(s), Free, [s], 0, [], 1, {s, n}))
    ensures var m := NextState(h, n, keys2).value;
            && Run(h, Opening() + Killed(keys1, []) + Killed(keys2, [Advance]))
               == Some(World(Document(m), Document(n), Free, [s, n], 0, [], 2, {s, n, m}))
            && Choose(h, Document(m), Document(n)) == Success(m) && m.payload.generation == s.payload.generation + 2
  {
    hide Run, Opening, Killed, Choose, GoodKeys;
    NextIsSuccessor(h, n, keys2);
    var m := NextState(h, n, keys2).value;
    var w1 := World(Document(n), Document(s), Free, [s], 0, [], 1, {s, n});
    HalfLoad(h, w1.(lock := Held(Some(keys2), Loading)), n);
    KilledFromHalf(h, Opening() + Killed(keys1, []), w1, keys2, n, m);
    assert {s, n} + {m} == {s, n, m} && [s] + [n] == [s, n];
    ChooseLater(h, n, m);
  }

  /** Exactly when the store holds more than was acknowledged: reopening with the last
      acknowledged checkpoint is refused, although nothing was rolled back. */
  lemma PinnedReopen(h: Hash, events: seq<Event>)
    requires Sound(h, events) && Run(h, events).value.lock.Free?
    ensures var w := Run(h, events).value;
            && w.acked < |w.chain| && Choose(h, w.a, w.b).Success?
            && var s := Choose(h, w.a, w.b).value;
            (Checkpoint(s) == Checkpoint(w.chain[w.acked]) <==> w.acked == |w.chain| - 1 && !InFlight(w))
  {
    hide Choose, Run;
    RunKeepsInvariant(h, events);
    var w := Run(h, events).value;
    LoadAtRest(h, w);
    CheckpointIdentifiesState(h, Choose(h, w.a, w.b).value, w.chain[w.acked]);
    hide WellFormedHash, BatchesOk, ValidState, Checkpoint;
  }

  // ----- How far ahead a reload is, when no copy is lost

  ghost predicate Lossless(events: seq<Event>) {
    forall e | e in events :: !e.LoseFirst? && !e.LoseSecond?
  }

  /** A commit cut short between its first copy and its return. */
  ghost predicate Tears(w: World, e: Event) {
    e.Crash? && w.lock.Held? && w.lock.phase.Committing? && w.lock.phase.written >= 1
  }

  /** The commits torn since the last acknowledgement. */
  ghost function Torn(h: Hash, events: seq<Event>): nat
    requires Run(h, events).Some?
  {
    if events == [] || Run(h, events).value.interrupted == 0 then 0
    else
      var before, e := events[..|events| - 1], events[|events| - 1];
      Torn(h, before) + if Tears(Run(h, before).value, e) then 1 else 0
  }

  /** Generations settled or in a copy past the acknowledged one; a commit under way is not counted. */
  ghost predicate AheadBy(w: World, torn: nat) {
    && w.chain != [] && w.acked < |w.chain|
    && torn == |w.chain| - 1 - w.acked
               + if !(w.lock.Held? && w.lock.phase.Committing?) && InFlight(w) then 1 else 0
  }

  /** What losing no copy adds to the invariant. */
  ghost predicate Kept(w: World) {
    && w.chain != []
    && match w.lock
       case Held(_, Repairing(s, _, _)) => s != Last(w) ==> InFlight(w)
       case Held(_, Committing(_, n, written)) => written >= 1 ==> w.a == Document(n)
       case _ => true
  }

  lemma NothingInterrupted(h: Hash, w: World)
    requires Inv(h, w) && w.interrupted == 0
    ensures AheadBy(w, 0)
  {
  }

  lemma LoadKeepsCount(h: Hash, w: World, torn: nat)
    requires WellFormedHash(h) && Inv(h, w) && Separate(w.seen) && AheadBy(w, torn) && w.lock.Held? && w.lock.phase.Loading?
    ensures Kept(Progress(h, w)) && AheadBy(Progress(h, w), torn)
  {
    LoadAtRest(h, w);
    hide Choose, NeedsRepair;
  }

  lemma RepairKeepsCount(h: Hash, w: World, torn: nat)
    requires Inv(h, w) && Kept(w) && AheadBy(w, torn) && w.lock.Held? && w.lock.phase.Repairing?
    ensures Kept(Progress(h, w)) && (Progress(h, w).interrupted == 0 || AheadBy(Progress(h, w), torn))
  {
    hide GoodKeys, Stored, Readable, ChainOk, BatchesOk;
  }

  lemma CommitKeepsCount(h: Hash, w: World, torn: nat)
    requires Inv(h, w) && Kept(w) && AheadBy(w, torn) && w.lock.Held? && w.lock.phase.Committing?
    ensures Kept(Progress(h, w)) && (Progress(h, w).interrupted == 0 || AheadBy(Progress(h, w), torn))
  {
    hide GoodKeys, Stored, Readable, ChainOk, BatchesOk;
  }

  lemma CrashCounts(h: Hash, w: World, torn: nat)
    requires Inv(h, w) && Kept(w) && AheadBy(w, torn) && Enabled(w, Crash)
    ensures Kept(Step(h, w, Crash)) && AheadBy(Step(h, w, Crash), torn + if Tears(w, Crash) then 1 else 0)
  {
    hide GoodKeys, Readable, ChainOk, BatchesOk;
  }

  lemma StepCounts(h: Hash, w: World, e: Event, torn: nat)
    requires WellFormedHash(h) && Inv(h, w) && Separate(w.seen) && Kept(w) && AheadBy(w, torn) && Enabled(w, e) && !e.LoseFirst? && !e.LoseSecond?
    ensures Kept(Step(h, w, e))
    ensures Step(h, w, e).interrupted == 0 || AheadBy(Step(h, w, e), torn + if Tears(w, e) then 1 else 0)
  {
    hide WellFormedHash, ChainOk, BatchesOk, GoodKeys, Progress, PhaseOk, AtRest;
    match e
    case Acquire(_) =>
    case Advance =>
      if w.lock.phase.Loading? {
        LoadKeepsCount(h, w, torn);
      } else if w.lock.phase.Repairing? {
        RepairKeepsCount(h, w, torn);
      } else {
        CommitKeepsCount(h, w, torn);
      }
    case Crash =>
      CrashCounts(h, w, torn);
  }

  lemma {:induction false} RunCounts(h: Hash, events: seq<Event>)
    requires Sound(h, events) && Lossless(events)
    ensures Kept(Run(h, events).value) && AheadBy(Run(h, events).value, Torn(h, events))
  {
    hide WellFormedHash, Inv, Enabled, Step, AheadBy;
    RunKeepsInvariant(h, events);
    if events == [] {
      NothingInterrupted(h, Run(h, events).value);
    } else {
      var before, e := events[..|events| - 1], events[|events| - 1];
      assert e in events && Lossless(before);
      SoundBefore(h, events);
      RunCounts(h, before);
      RunKeepsInvariant(h, before);
      StepCounts(h, Run(h, before).value, e, Torn(h, before));
      if Run(h, events).value.interrupted == 0 {
        NothingInterrupted(h, Run(h, events).value);
      }
    }
  }

  /** If no copy is lost, a reload is ahead of the last acknowledged state by exactly the commits
      torn since: it finds that state if and only if there was none, and that state or its one
      successor if and only if there was one at most. */
  lemma LosslessReload(h: Hash, events: seq<Event>)
    requires Sound(h, events) && Lossless(events) && Run(h, events).value.lock.Free?
    ensures var w, torn := Run(h, events).value, Torn(h, events);
            && w.acked < |w.chain| && Choose(h, w.a, w.b).Success?
            && var s, told := Choose(h, w.a, w.b).value, w.chain[w.acked];
            && s.payload.generation == told.payload.generation + torn
            && (Checkpoint(s) == Checkpoint(told) <==> torn == 0)
            && (s == told || Successor(h, told, s) <==> torn <= 1)
  {
    hide Choose, Run, Torn;
    RunKeepsInvariant(h, events);
    RunCounts(h, events);
    var w := Run(h, events).value;
    LoadAtRest(h, w);
    CheckpointIdentifiesState(h, Choose(h, w.a, w.b).value, w.chain[w.acked]);
    hide WellFormedHash, Kept, BatchesOk, ValidState, Checkpoint;
    assert w.acked + 1 < |w.chain| ==> Successor(h, w.chain[w.acked], w.chain[w.acked + 1]);
  }

  // ----- What a checkpoint stands for

  ghost function Members(chain: seq<State>): set<State> {
    set s | s in chain
  }

  lemma SameEnd(h: Hash, x: seq<State>, y: seq<State>)
    requires ChainOk(h, x) && ChainOk(h, y) && Separate(Members(x) + Members(y))
    requires Checkpoint(x[|x| - 1]) == Checkpoint(y[|y| - 1])
    ensures x[|x| - 1] == y[|y| - 1] && |x| == |y|
  {
    hide Stored, Successor;
    assert x[|x| - 1] in Members(x) && y[|y| - 1] in Members(y);
  }

  lemma {:induction false} SameBefore(h: Hash, x: seq<State>, y: seq<State>, i: nat)
    requires ChainOk(h, x) && ChainOk(h, y) && Separate(Members(x) + Members(y))
    requires |x| == |y| && x[|x| - 1] == y[|y| - 1] && i < |x|
    ensures x[i] == y[i]
    decreases |x| - i
  {
    if i + 1 < |x| {
      SameBefore(h, x, y, i + 1);
      hide Stored;
      assert Successor(h, x[i], x[i + 1]) && Successor(h, y[i], y[i + 1]);
      assert x[i] in Members(x) && y[i] in Members(y);
    }
  }

  /** Each state names the one before it, so a checkpoint stands for the whole history: two
      chains of settled states that end in the same checkpoint are the same chain, unless two
      states of theirs have one hash. */
  lemma CheckpointDeterminesHistory(h: Hash, x: seq<State>, y: seq<State>)
    requires ChainOk(h, x) && ChainOk(h, y) && Separate(Members(x) + Members(y))
    requires Checkpoint(x[|x| - 1]) == Checkpoint(y[|y| - 1])
    ensures x == y
  {
    SameEnd(h, x, y);
    hide ChainOk, Members, Separate, Checkpoint;
    forall i | 0 <= i < |x| ensures x[i] == y[i] {
      SameBefore(h, x, y, i);
    }
  }

  // ----- The assumption on the hash can be met

  /** A digest that tells states apart by the last digit of their generation alone. */
  function SampleHash(p: Payload): Text {
    seq(63, _ => 48) + [48 + p.generation % 10]
  }

  /** Under this hash, coarse as it is, the run with two torn commits makes no two states of one
      digest, so everything said about sound runs is said about it: its reload is two ahead. */
  lemma SoundRunsExist(k1: Text, k2: Text)
    requires IsDigest(k1) && IsDigest(k2) && k1 != k2
    ensures Sound(SampleHash, TwoKilled(k1, k2)) && Lossless(TwoKilled(k1, k2))
    ensures Torn(SampleHash, TwoKilled(k1, k2)) == 2
  {
    hide Run, Torn, Choose;
    var h: Hash := SampleHash;
    assert WellFormedHash(h);
    var s := EmptyState(h);
    var n := Made(h, s, [k1]);
    var m := Made(h, n, [k2]);
    assert s.stateHash[63] == 48 && n.stateHash[63] == 49 && m.stateHash[63] == 50;
    TwoKilledIsTwoAhead(h, k1, k2);
    assert Separate({s, n, m});
    LosslessReload(h, TwoKilled(k1, k2));
  }

  ghost function Consuming(keys: seq<Text>): seq<Event> {
    [Acquire(Some(keys)), Advance, Advance, Advance, Advance, Advance]
  }

  lemma ConsumedFresh(h: Hash, events: seq<Event>, keys: seq<Text>, s: State, n: State)
    requires Readable(h, s) && GoodKeys(keys) && NextState(h, s, keys) == Success(n) && n != s
    requires Run(h, events) == Some(World(Document(s), Document(s), Free, [s], 0, [], 0, {s}))
    ensures Run(h, events + Consuming(keys)) == Some(World(Document(n), Document(n), Free, [s, n], 1, [keys], 0, {s} + {n}))
  {
    hide Readable, GoodKeys, NextState, CanonicalText;
    var w := World(Document(s), Document(s), Free, [s], 0, [], 0, {s});
    var w1 := w.(lock := Held(Some(keys), Loading));
    var w2 := w.(lock := Held(Some(keys), Repairing(s, false, false)));
    var w3 := w.(lock := Held(Some(keys), Committing(s, n, 0)), seen := {s} + {n});
    var w4 := w3.(a := Document(n), lock := Held(Some(keys), Committing(s, n, 1)));
    var w5 := w4.(b := Document(n), lock := Held(Some(keys), Committing(s, n, 2)));
    var e1 := events + [Acquire(Some(keys))];
    StepFrom(h, events, w, Acquire(Some(keys)));
    StepFrom(h, e1, w1, Advance);
    StepFrom(h, e1 + [Advance], w2, Advance);
    StepFrom(h, e1 + [Advance] + [Advance], w3, Advance);
    StepFrom(h, e1 + [Advance] + [Advance] + [Advance], w4, Advance);
    StepFrom(h, e1 + [Advance] + [Advance] + [Advance] + [Advance], w5, Advance);
    assert e1 + [Advance] + [Advance] + [Advance] + [Advance] + [Advance] == events + Consuming(keys);
    assert [s] + [n] == [s, n] && [] + [keys] == [keys];
  }

  /** So is a run in which a key is consumed and acknowledged: two states, two digests. */
  lemma SoundConsumptionExists(k: Text)
    requires IsDigest(k)
    ensures Sound(SampleHash, Opening() + Consuming([k]))
    ensures Run(SampleHash, Opening() + Consuming([k])).value.batches == [[k]]
  {
    hide Run, Opening, Consuming, Choose;
    var h: Hash := SampleHash;
    assert WellFormedHash(h);
    var s := EmptyState(h);
    EmptyIsStored(h);
    StoredIsReadable(h, s);
    NextIsSuccessor(h, s, [k]);
    var n := NextState(h, s, [k]).value;
    assert s.stateHash[63] == 48 && n.stateHash[63] == 49;
    OpenFresh(h);
    ConsumedFresh(h, Opening(), [k], s, n);
    assert Separate({s} + {n});
  }
}
