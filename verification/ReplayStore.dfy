/** nir/replay_store.py: the consumed-evaluation state, its validation, its canonical
    text and the choice made between the two copies on load.

    SHA-256 of the canonical payload is a function `h` of the payload that yields well-formed
    digests.  Digests are finitely many, so payloads with the same one exist: a result that needs
    particular states to differ in their hashes says which. */
module ReplayStore {
  import opened Ordering
  import opened Results

  const FORMAT := "nir-consumed-evaluation-store-v1"
  const MAX_RECORDS := 100_000
  const MAX_STORE_BYTES := 16 * 1024 * 1024

  datatype Payload = Payload(consumed: seq<Text>, format: string, generation: int, previousHash: Text)

  datatype State = State(payload: Payload, stateHash: Text)

  type Hash = Payload -> Text

  predicate IsDigest(t: Text) {
    |t| == 64 && forall i | 0 <= i < 64 :: 48 <= t[i] <= 57 || 97 <= t[i] <= 102
  }

  function ZeroHash(): (t: Text)
    ensures IsDigest(t)
  {
    seq(64, _ => 48)
  }

  ghost predicate WellFormedHash(h: Hash) {
    forall p: Payload :: IsDigest(h(p))
  }

  function NewState(h: Hash, consumed: seq<Text>, generation: int, previousHash: Text): State {
    var payload := Payload(consumed, FORMAT, generation, previousHash);
    State(payload, h(payload))
  }

  /** What a caller may publish to detect a later rollback. */
  function Checkpoint(s: State): (int, Text) {
    (s.payload.generation, s.stateHash)
  }

  function EmptyState(h: Hash): State {
    NewState(h, [], 0, ZeroHash())
  }

  predicate ValidState(h: Hash, s: State) {
    && s.payload.format == FORMAT
    && s.payload.generation >= 0
    && |s.payload.consumed| <= MAX_RECORDS
    && Ascending(s.payload.consumed)
    && (forall i | 0 <= i < |s.payload.consumed| :: IsDigest(s.payload.consumed[i]))
    && IsDigest(s.payload.previousHash)
    && IsDigest(s.stateHash)
    && (s.payload.generation == 0 ==> s.payload.consumed == [] && s.payload.previousHash == ZeroHash())
    && s.stateHash == h(s.payload)
  }

  // ----- Canonical text: compact JSON with sorted field names, all ASCII

  function Ascii(s: string): (t: Text)
    ensures |t| == |s|
  {
    seq(|s|, i requires 0 <= i < |s| => s[i] as int)
  }

  function Decimal(n: nat): Text {
    if n < 10 then [48 + n] else Decimal(n / 10) + [48 + n % 10]
  }

  function Number(n: int): Text {
    if n < 0 then [45] + Decimal(-n) else Decimal(n)
  }

  function Quoted(t: Text): Text {
    [34] + t + [34]
  }

  function Joined(items: seq<Text>): Text {
    if items == [] then []
    else if |items| == 1 then Quoted(items[0])
    else Joined(items[..|items| - 1]) + [44] + Quoted(items[|items| - 1])
  }

  function CanonicalText(s: State): Text {
    Ascii("{\"consumed\":[") + Joined(s.payload.consumed)
    + Ascii("],\"format\":") + Quoted(Ascii(s.payload.format))
    + Ascii(",\"generation\":") + Number(s.payload.generation)
    + Ascii(",\"previousHash\":") + Quoted(s.payload.previousHash)
    + Ascii(",\"stateHash\":") + Quoted(s.stateHash) + Ascii("}\n")
  }

  lemma {:induction false} JoinedLength(items: seq<Text>)
    requires forall i | 0 <= i < |items| :: IsDigest(items[i])
    ensures |Joined(items)| == if items == [] then 0 else 67 * |items| - 1
  {
    if |items| > 1 {
      var front := items[..|items| - 1];
      forall i | 0 <= i < |front| ensures IsDigest(front[i]) {
        assert front[i] == items[i];
      }
      JoinedLength(front);
    }
  }

  lemma {:induction false} DecimalLength(n: nat, digits: nat, bound: nat)
    requires digits > 0 && n < bound && bound == Ten(digits)
    ensures |Decimal(n)| <= digits
  {
    if n >= 10 {
      DecimalLength(n / 10, digits - 1, Ten(digits - 1));
    }
  }

  function Ten(k: nat): nat {
    if k == 0 then 1 else 10 * Ten(k - 1)
  }

  // ----- The two copies

  /** A copy as the next reader finds it: no file, a file that fails to parse, or a state document. */
  datatype FileCopy = Missing | Garbled | Document(state: State)

  datatype Error = InvalidCopy | BothInvalid | Diverged | RollbackDetected | BadKeys | AlreadyConsumed | StoreFull

  predicate Readable(h: Hash, s: State) {
    |CanonicalText(s)| <= MAX_STORE_BYTES && ValidState(h, s)
  }

  function ReadCopy(h: Hash, c: FileCopy): Result<Option<State>, Error> {
    match c
    case Missing => Success(None)
    case Garbled => Failure(InvalidCopy)
    case Document(s) => if Readable(h, s) then Success(Some(s)) else Failure(InvalidCopy)
  }

  function StateOf(r: Result<Option<State>, Error>): Option<State> {
    if r.Success? then r.value else None
  }

  /** The state a load settles on, or the reason it refuses. */
  function Choose(h: Hash, a: FileCopy, b: FileCopy): Result<State, Error> {
    var left, right := ReadCopy(h, a), ReadCopy(h, b);
    match (StateOf(left), StateOf(right))
    case (None, None) =>
      if left.Failure? || right.Failure? then Failure(BothInvalid) else Success(EmptyState(h))
    case (None, Some(s)) => Success(s)
    case (Some(s), None) => Success(s)
    case (Some(l), Some(r)) =>
      if l.stateHash == r.stateHash then Success(l)
      else
        var (newer, older) := if l.payload.generation > r.payload.generation then (l, r) else (r, l);
        if newer.payload.generation != older.payload.generation + 1
          || newer.payload.previousHash != older.stateHash
        then Failure(Diverged)
        else Success(newer)
  }

  /** Whether the load must rewrite this copy with the chosen state. */
  predicate NeedsRepair(h: Hash, c: FileCopy, chosen: State) {
    var s := StateOf(ReadCopy(h, c));
    s.None? || s.value.stateHash != chosen.stateHash
  }

  predicate GoodKeys(keys: seq<Text>) {
    && keys != []
    && |keys| <= MAX_RECORDS
    && (forall i, j | 0 <= i < j < |keys| :: keys[i] != keys[j])
    && (forall i | 0 <= i < |keys| :: IsDigest(keys[i]))
  }

  /** The state that consuming `keys` on top of `current` would store. */
  function NextState(h: Hash, current: State, keys: seq<Text>): Result<State, Error> {
    if exists i | 0 <= i < |keys| :: keys[i] in current.payload.consumed then Failure(AlreadyConsumed)
    else if |current.payload.consumed| + |keys| > MAX_RECORDS then Failure(StoreFull)
    else Success(NewState(h, Sort(TextLeq, current.payload.consumed + keys),
                          current.payload.generation + 1, current.stateHash))
  }

  /** States this store can itself produce: every generation consumed at least one key. */
  ghost predicate Stored(h: Hash, s: State) {
    ValidState(h, s) && s.payload.generation <= |s.payload.consumed|
  }

  ghost predicate Successor(h: Hash, s: State, n: State) {
    && Stored(h, n)
    && n.payload.generation == s.payload.generation + 1
    && n.payload.previousHash == s.stateHash
    && (forall k :: k in s.payload.consumed ==> k in n.payload.consumed)
  }

  /** Even at the record limit, what the writer emits fits what the reader accepts. */
  lemma StoredIsReadable(h: Hash, s: State)
    requires Stored(h, s)
    ensures Readable(h, s)
  {
    JoinedLength(s.payload.consumed);
    DecimalLength(s.payload.generation, 6, 1_000_000);
    assert Ten(6) == 1_000_000;
  }

  lemma EmptyIsStored(h: Hash)
    requires WellFormedHash(h)
    ensures Stored(h, EmptyState(h))
  {
  }

  /** Every state the writer can produce passes the reader's validation, and its keys are
      exactly the old ones plus the new ones. */
  lemma NextIsSuccessor(h: Hash, s: State, keys: seq<Text>)
    requires WellFormedHash(h) && Stored(h, s) && GoodKeys(keys)
    ensures NextState(h, s, keys).Success? <==>
            (forall k | k in keys :: k !in s.payload.consumed) && |s.payload.consumed| + |keys| <= MAX_RECORDS
    ensures NextState(h, s, keys).Success? ==>
              var n := NextState(h, s, keys).value;
              && Successor(h, s, n)
              && |n.payload.consumed| == |s.payload.consumed| + |keys|
              && forall k :: k in n.payload.consumed <==> k in s.payload.consumed || k in keys
  {
    if NextState(h, s, keys).Success? {
      var all := s.payload.consumed + keys;
      AscendingIsSortedSet(s.payload.consumed);
      assert Distinct(all) by {
        forall i, j | 0 <= i < j < |all| ensures all[i] != all[j] {
          if j >= |s.payload.consumed| {
            assert all[j] in keys;
          }
        }
      }
      SortDistinct(all);
      var n := NextState(h, s, keys).value;
      forall i | 0 <= i < |n.payload.consumed| ensures IsDigest(n.payload.consumed[i]) {
        assert n.payload.consumed[i] in all;
      }
    }
  }

  /** No two of these states have the same hash. */
  ghost predicate Separate(states: set<State>) {
    forall s, t | s in states && t in states :: s.stateHash == t.stateHash ==> s == t
  }

  /** A readable pair of copies that agree, or follow one another, always loads the later one.
      With the later one in the second file this needs the two to differ in their hashes. */
  lemma ChooseLater(h: Hash, s: State, n: State)
    requires Stored(h, s) && Successor(h, s, n)
    ensures Choose(h, Document(s), Document(s)) == Success(s)
    ensures Choose(h, Document(n), Document(s)) == Success(n)
    ensures Choose(h, Document(s), Document(n)) == Success(n) <==> s.stateHash != n.stateHash
  {
    StoredIsReadable(h, s);
    StoredIsReadable(h, n);
  }

  /** Of a readable state the keys, the generation and the predecessor say everything: no key comes
      twice, and their order and the hash are forced. At generation 0 it is the empty state. */
  lemma ReadableIsDetermined(h: Hash, l: State, r: State)
    requires Readable(h, l) && Readable(h, r)
    requires forall k :: k in l.payload.consumed <==> k in r.payload.consumed
    requires l.payload.generation == r.payload.generation && l.payload.previousHash == r.payload.previousHash
    ensures l == r
    ensures forall i, j | 0 <= i < j < |l.payload.consumed| :: l.payload.consumed[i] != l.payload.consumed[j]
    ensures l.payload.generation == 0 ==> l == EmptyState(h)
  {
    hide CanonicalText;
    AscendingIsSortedSet(l.payload.consumed);
    AscendingIsSortedSet(r.payload.consumed);
    SameKeysSameList(l.payload.consumed, r.payload.consumed);
  }

  lemma SameKeysSameList(a: seq<Text>, b: seq<Text>)
    requires Ascending(a) && Ascending(b) && forall k :: k in a <==> k in b
    ensures a == b
  {
    AscendingIsSortedSet(a);
    AscendingIsSortedSet(b);
    DistinctSameMembers(a, b);
    TextOrder();
    SortedUnique(TextLeq, a, b);
  }

  lemma ChooseSurvivor(h: Hash, s: State, lost: FileCopy)
    requires Stored(h, s) && !lost.Document?
    ensures Choose(h, Document(s), lost) == Success(s)
    ensures Choose(h, lost, Document(s)) == Success(s)
  {
    StoredIsReadable(h, s);
  }

  // ----- Which pairs of copies load

  ghost predicate IsReadable(h: Hash, c: FileCopy) {
    c.Document? && Readable(h, c.state)
  }

  /** `n` is the state exactly one generation after `s`, and names it by its hash. */
  ghost predicate Follows(n: State, s: State) {
    n.payload.generation == s.payload.generation + 1 && n.payload.previousHash == s.stateHash
  }

  /** The pairs of copies a load may settle: two that agree or follow one another, one that is
      readable, or no file at all. */
  ghost predicate Loads(h: Hash, a: FileCopy, b: FileCopy) {
    if IsReadable(h, a) && IsReadable(h, b)
    then a.state.stateHash == b.state.stateHash || Follows(a.state, b.state) || Follows(b.state, a.state)
    else IsReadable(h, a) || IsReadable(h, b) || (a == Missing && b == Missing)
  }

  /** A load succeeds exactly on these pairs, and says why not otherwise. */
  lemma LoadsExactly(h: Hash, a: FileCopy, b: FileCopy)
    ensures Choose(h, a, b).Success? <==> Loads(h, a, b)
    ensures !Loads(h, a, b) ==>
              Choose(h, a, b) == Failure(if IsReadable(h, a) && IsReadable(h, b) then Diverged else BothInvalid)
    ensures a == Missing && b == Missing ==> Choose(h, a, b) == Success(EmptyState(h))
  {
    hide ValidState, CanonicalText, EmptyState;
  }

  /** Two readable copies: the later one, and of two with one hash the first. */
  lemma LoadsTheLater(h: Hash, l: State, r: State)
    requires Readable(h, l) && Readable(h, r)
    ensures l.stateHash == r.stateHash || Follows(l, r) ==> Choose(h, Document(l), Document(r)) == Success(l)
    ensures l.stateHash != r.stateHash && Follows(r, l) ==> Choose(h, Document(l), Document(r)) == Success(r)
  {
    hide ValidState, CanonicalText;
  }

  /** Two states that were both made from one, each without the other, are never settled. */
  lemma ForksAreRefused(h: Hash, s: State, l: State, r: State)
    requires Successor(h, s, l) && Successor(h, s, r) && l.stateHash != r.stateHash
    ensures Choose(h, Document(l), Document(r)) == Failure(Diverged)
  {
    StoredIsReadable(h, l);
    StoredIsReadable(h, r);
    LoadsExactly(h, Document(l), Document(r));
  }

  lemma ChosenIsReadable(h: Hash, a: FileCopy, b: FileCopy)
    requires WellFormedHash(h) && Choose(h, a, b).Success?
    ensures Readable(h, Choose(h, a, b).value)
  {
    EmptyIsStored(h);
    StoredIsReadable(h, EmptyState(h));
  }

  /** Repairing either copy alone, or both, never changes what a load chooses, and a second load
      repairs nothing: a crash between the two repairs is harmless. */
  lemma RepairIsIdempotent(h: Hash, a: FileCopy, b: FileCopy)
    requires WellFormedHash(h) && Choose(h, a, b).Success?
    ensures var s := Choose(h, a, b).value;
            && Choose(h, Repaired(h, a, s), b) == Success(s)
            && Choose(h, a, Repaired(h, b, s)) == Success(s)
            && Choose(h, Repaired(h, a, s), Repaired(h, b, s)) == Success(s)
            && !NeedsRepair(h, Repaired(h, a, s), s) && !NeedsRepair(h, Repaired(h, b, s), s)
  {
    ChosenIsReadable(h, a, b);
  }

  /** A pinned checkpoint accepts one state and no other, unless another one has its very hash. */
  lemma CheckpointIdentifiesState(h: Hash, s: State, t: State)
    requires ValidState(h, s) && ValidState(h, t) && Separate({s, t})
    ensures Checkpoint(s) == Checkpoint(t) <==> s == t
  {
  }

  // ----- Whole operations, without interruption

  /** A load rewrites a copy with the chosen state only where it must. */
  function Repaired(h: Hash, c: FileCopy, chosen: State): FileCopy {
    if NeedsRepair(h, c, chosen) then Document(chosen) else c
  }

  datatype Outcome = Outcome(a: FileCopy, b: FileCopy, answer: Result<State, Error>)

  /** Two copies that share a hash are the same state. */
  ghost predicate CopiesSeparate(a: FileCopy, b: FileCopy) {
    a.Document? && b.Document? ==> Separate({a.state, b.state})
  }

  lemma RepairedIsChosen(h: Hash, a: FileCopy, b: FileCopy)
    requires Choose(h, a, b).Success?
    ensures CopiesSeparate(a, b) ==>
              Repaired(h, a, Choose(h, a, b).value) == Repaired(h, b, Choose(h, a, b).value) == Document(Choose(h, a, b).value)
  {
  }

  function AfterLoad(h: Hash, a: FileCopy, b: FileCopy): Outcome {
    match Choose(h, a, b)
    case Failure(e) => Outcome(a, b, Failure(e))
    case Success(s) => Outcome(Repaired(h, a, s), Repaired(h, b, s), Success(s))
  }

  function AfterConsume(h: Hash, a: FileCopy, b: FileCopy, keys: seq<Text>): Outcome {
    var loaded := AfterLoad(h, a, b);
    if loaded.answer.Failure? then loaded
    else
      match NextState(h, loaded.answer.value, keys)
      case Failure(e) => loaded.(answer := Failure(e))
      case Success(n) => Outcome(Document(n), Document(n), Success(n))
  }
}
