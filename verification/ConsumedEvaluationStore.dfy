/** nir/replay_store.py: the store object over its directory of two copies. */
module ConsumedEvaluationStores {
  import opened Ordering
  import opened Results
  import opened ReplayStore

  /** The two copies on disk.  `past` remembers the directory's contents after each atomic
      replace, so a contract can speak of every point at which a crash may strike. */
  class Directory {
    var copies: seq<FileCopy>
    ghost var past: seq<(FileCopy, FileCopy)>

    constructor ()
      ensures copies == [Missing, Missing] && past == []
    {
      copies := [Missing, Missing];
      past := [];
    }

    /** Write to a temporary file, then replace the copy in one step. */
    method Replace(index: nat, state: State)
      requires |copies| == 2 && index < 2
      modifies this
      ensures copies == old(copies)[index := Document(state)]
      ensures past == old(past) + [(copies[0], copies[1])]
    {
      copies := copies[index := Document(state)];
      past := past + [(copies[0], copies[1])];
    }
  }

  method LoadAndRepair(h: Hash, dir: Directory) returns (r: Result<State, Error>)
    requires WellFormedHash(h) && |dir.copies| == 2
    modifies dir
    ensures |dir.copies| == 2
    ensures Outcome(dir.copies[0], dir.copies[1], r) == AfterLoad(h, old(dir.copies)[0], old(dir.copies)[1])
    ensures r.Success? <==> Loads(h, old(dir.copies)[0], old(dir.copies)[1])
    ensures r.Failure? ==> dir.past == old(dir.past) && dir.copies == old(dir.copies)
    ensures r.Success? ==> forall i | 0 <= i < 2 ::
              dir.copies[i] == if IsReadable(h, old(dir.copies)[i]) && old(dir.copies)[i].state.stateHash == r.value.stateHash
                               then old(dir.copies)[i] else Document(r.value)
    // A crash after any replace leaves a directory from which the same state is loaded.
    ensures old(dir.past) <= dir.past
    ensures forall t | |old(dir.past)| <= t < |dir.past| :: Choose(h, dir.past[t].0, dir.past[t].1) == r
  {
    hide WellFormedHash, Choose, Readable, Loads;
    r := Choose(h, dir.copies[0], dir.copies[1]);
    LoadsExactly(h, dir.copies[0], dir.copies[1]);
    if r.Failure? {
      return;
    }
    var chosen := r.value;
    var found := dir.copies;
    RepairIsIdempotent(h, found[0], found[1]);
    for i := 0 to 2
      invariant |dir.copies| == 2 && old(dir.past) <= dir.past
      invariant forall j | 0 <= j < i :: dir.copies[j] == Repaired(h, found[j], chosen)
      invariant forall j | i <= j < 2 :: dir.copies[j] == found[j]
      invariant Choose(h, dir.copies[0], dir.copies[1]) == r
      invariant forall t | |old(dir.past)| <= t < |dir.past| :: Choose(h, dir.past[t].0, dir.past[t].1) == r
    {
      if NeedsRepair(h, found[i], chosen) {
        dir.Replace(i, chosen);
      }
    }
  }

  /** What a load finds after each of the two replaces of a commit. */
  lemma CommitIsRecoverable(h: Hash, current: State, next: State)
    requires Stored(h, current) && Successor(h, current, next)
    ensures Choose(h, Document(next), Document(current)) == Success(next)
    ensures Choose(h, Document(next), Document(next)) == Success(next)
  {
    ChooseLater(h, current, next);
    StoredIsReadable(h, next);
  }

  method CommitBoth(dir: Directory, next: State)
    requires |dir.copies| == 2
    modifies dir
    ensures dir.copies == [Document(next), Document(next)]
    ensures dir.past == old(dir.past) + [(Document(next), old(dir.copies)[1]), (Document(next), Document(next))]
  {
    ghost var steps := [(Document(next), dir.copies[1]), (Document(next), Document(next))];
    for i := 0 to 2
      invariant |dir.copies| == 2
      invariant forall j | 0 <= j < i :: dir.copies[j] == Document(next)
      invariant forall j | i <= j < 2 :: dir.copies[j] == old(dir.copies)[j]
      invariant dir.past == old(dir.past) + steps[..i]
    {
      dir.Replace(i, next);
    }
  }

  class ConsumedEvaluationStore {
    const h: Hash
    const dir: Directory
    var checkpoint: (int, Text)

    constructor (h: Hash, dir: Directory, state: State)
      ensures this.h == h && this.dir == dir
      ensures checkpoint == Checkpoint(state)
    {
      this.h := h;
      this.dir := dir;
      this.checkpoint := Checkpoint(state);
    }

    /** Opening a store repairs its directory and then compares the pinned checkpoint, if any. */
    static method Open(h: Hash, dir: Directory, expected: Option<(int, Text)>)
      returns (r: Result<ConsumedEvaluationStore, Error>)
      requires WellFormedHash(h) && |dir.copies| == 2
      modifies dir
      ensures |dir.copies| == 2
      ensures !Loads(h, old(dir.copies)[0], old(dir.copies)[1]) ==> r.Failure? && dir.copies == old(dir.copies)
      ensures var was := AfterLoad(h, old(dir.copies)[0], old(dir.copies)[1]);
              && dir.copies == [was.a, was.b]
              && match was.answer {
                   case Failure(e) => r == Failure(e)
                   case Success(s) =>
                     if expected.Some? && expected.value != Checkpoint(s) then r == Failure(RollbackDetected)
                     else r.Success? && fresh(r.value) && r.value.h == h && r.value.dir == dir && r.value.checkpoint == Checkpoint(s)
                 }
    {
      var loaded := LoadAndRepair(h, dir);
      if loaded.Failure? {
        return Failure(loaded.error);
      }
      var state := loaded.value;
      if expected.Some? && expected.value != Checkpoint(state) {
        return Failure(RollbackDetected);
      }
      var store := new ConsumedEvaluationStore(h, dir, state);
      r := Success(store);
    }

    method ConsumeMany(keys: seq<Text>) returns (r: Result<(int, Text), Error>)
      requires WellFormedHash(h) && |dir.copies| == 2
      modifies this`checkpoint, dir
      ensures |dir.copies| == 2
      // Copies that cannot be settled stay as they are, and nothing can be consumed.
      ensures !Loads(h, old(dir.copies)[0], old(dir.copies)[1]) ==>
                r.Failure? && dir.copies == old(dir.copies) && checkpoint == old(checkpoint)
      ensures !GoodKeys(keys) ==> r == Failure(BadKeys) && dir.copies == old(dir.copies) && checkpoint == old(checkpoint)
      ensures GoodKeys(keys) ==>
                var done := AfterConsume(h, old(dir.copies)[0], old(dir.copies)[1], keys);
                && dir.copies == [done.a, done.b]
                && match done.answer {
                     case Failure(e) => r == Failure(e) && checkpoint == old(checkpoint)
                     case Success(n) => r == Success(checkpoint) && checkpoint == Checkpoint(n)
                   }
      // Wherever a crash strikes, the next load finds the state before or the state after.
      ensures old(dir.past) <= dir.past
      ensures forall s | Choose(h, old(dir.copies)[0], old(dir.copies)[1]) == Success(s) && Stored(h, s)
                         && CopiesSeparate(old(dir.copies)[0], old(dir.copies)[1]) ::
                forall t | |old(dir.past)| <= t < |dir.past| ::
                  || Choose(h, dir.past[t].0, dir.past[t].1) == Success(s)
                  || (NextState(h, s, keys).Success? && Choose(h, dir.past[t].0, dir.past[t].1) == NextState(h, s, keys))
    {
      hide Choose, Readable, NextState, Loads;
      if !GoodKeys(keys) {
        return Failure(BadKeys);
      }
      var loaded := LoadAndRepair(h, dir);
      if loaded.Failure? {
        return Failure(loaded.error);
      }
      var current := loaded.value;
      RepairedIsChosen(h, old(dir.copies)[0], old(dir.copies)[1]);
      var next := NextState(h, current, keys);
      if next.Failure? {
        return Failure(next.error);
      }
      CommitBoth(dir, next.value);
      if Stored(h, current) {
        NextIsSuccessor(h, current, keys);
        CommitIsRecoverable(h, current, next.value);
      }
      checkpoint := Checkpoint(next.value);
      r := Success(checkpoint);
    }
  }
}
