/** site/address.js: pages of transfers asked for asynchronously, network by network, while the
    filter may change under them.  Every way the answers can arrive is a run of this model. */
module TransferLoading {
  type Chain = string

  /** Where the next page of a network starts. */
  datatype Cursor = NotAsked | At(token: string) | NoMore

  datatype Request = Request(generation: nat, chain: Chain, cursor: Cursor)

  /** The cursor the server answers with, for each filter; a new filter is a new generation. */
  type Server = (nat, Chain, Cursor) -> Cursor

  /** `unfinished`: the generations whose load is still waiting for answers. */
  datatype World = World(
    generation: nat, loading: bool, cursors: map<Chain, Cursor>, pages: seq<Request>, flying: set<Request>, unfinished: set<nat>)

  datatype Event =
    | Reset(chains: set<Chain>)
    | More(chains: set<Chain>)
    | Answer(request: Request, found: bool)
    | Finish(generation: nat)

  function CursorOf(cursors: map<Chain, Cursor>, chain: Chain): Cursor {
    if chain in cursors then cursors[chain] else NotAsked
  }

  /** Asks for the next page of every network that has one, unless a load is under way. */
  ghost function Load(w: World, chains: set<Chain>): World {
    if w.loading then w
    else
      w.(loading := true,
         flying := w.flying + (set c | c in chains && CursorOf(w.cursors, c) != NoMore :: Request(w.generation, c, CursorOf(w.cursors, c))),
         unfinished := w.unfinished + {w.generation})
  }

  ghost predicate Enabled(w: World, e: Event) {
    match e
    case Reset(_) => true
    case More(_) => true
    case Answer(r, _) => r in w.flying
    case Finish(g) => g in w.unfinished && forall r | r in w.flying :: r.generation != g
  }

  ghost function Step(server: Server, w: World, e: Event): World {
    match e
    case Reset(chains) =>
      Load(w.(pages := [], cursors := map[], generation := w.generation + 1, loading := false), chains)
    case More(chains) => Load(w, chains)
    case Answer(r, found) =>
      var arrived := w.(flying := w.flying - {r});
      if r.generation != w.generation || !found then arrived
      else arrived.(cursors := w.cursors[r.chain := server(r.generation, r.chain, r.cursor)], pages := w.pages + [r])
    case Finish(g) =>
      var done := w.(unfinished := w.unfinished - {g});
      if g != w.generation then done else done.(loading := false)
  }

  ghost predicate Reaches(server: Server, events: seq<Event>, w: World) {
    if events == [] then w == World(0, false, map[], [], {}, {})
    else
      var before, e := events[..|events| - 1], events[|events| - 1];
      exists v :: Reaches(server, before, v) && Enabled(v, e) && w == Step(server, v, e)
  }

  // ----- What the pages must be

  /** The cursor of page `n` of a network, counting from 0, under a filter. */
  ghost function Nth(server: Server, g: nat, chain: Chain, n: nat): Cursor {
    if n == 0 then NotAsked else server(g, chain, Nth(server, g, chain, n - 1))
  }

  function PagesOf(pages: seq<Request>, chain: Chain): seq<Request> {
    if pages == [] then []
    else PagesOf(pages[..|pages| - 1], chain) + if pages[|pages| - 1].chain == chain then [pages[|pages| - 1]] else []
  }

  /** The pages shown of a network are its first ones under the filter, in order, each once, and
      the next to ask for is the one after them; none was asked for past the last page there is. */
  ghost predicate Exact(server: Server, w: World, chain: Chain) {
    var shown := PagesOf(w.pages, chain);
    && (forall i | 0 <= i < |shown| :: shown[i] == Request(w.generation, chain, Nth(server, w.generation, chain, i)) && shown[i].cursor != NoMore)
    && CursorOf(w.cursors, chain) == Nth(server, w.generation, chain, |shown|)
  }

  ghost predicate Inv(server: Server, w: World) {
    && (forall chain :: Exact(server, w, chain))
    && (w.loading <==> w.generation in w.unfinished)
    && (forall g | g in w.unfinished :: g <= w.generation)
    && (forall r | r in w.flying :: r.generation in w.unfinished)
    && (forall r | r in w.flying && r.generation == w.generation :: r.cursor == CursorOf(w.cursors, r.chain) && r.cursor != NoMore)
  }

  lemma LoadKeeps(server: Server, w: World, chains: set<Chain>)
    requires Inv(server, w)
    ensures Inv(server, Load(w, chains))
  {
    hide PagesOf, Nth;
    forall chain ensures Exact(server, Load(w, chains), chain) {
      assert Exact(server, w, chain);
    }
  }

  lemma ResetKeeps(server: Server, w: World)
    requires Inv(server, w)
    ensures Inv(server, w.(pages := [], cursors := map[], generation := w.generation + 1, loading := false))
  {
  }

  lemma OtherChain(server: Server, w: World, v: World, r: Request, chain: Chain)
    requires Exact(server, w, chain) && chain != r.chain
    requires v.generation == w.generation && v.pages == w.pages + [r] && CursorOf(v.cursors, chain) == CursorOf(w.cursors, chain)
    ensures Exact(server, v, chain)
  {
    assert (w.pages + [r])[..|w.pages|] == w.pages;
  }

  lemma OwnChain(server: Server, w: World, v: World, r: Request)
    requires Exact(server, w, r.chain) && r.generation == w.generation && r.cursor == CursorOf(w.cursors, r.chain) && r.cursor != NoMore
    requires v.generation == w.generation && v.pages == w.pages + [r]
    requires CursorOf(v.cursors, r.chain) == server(r.generation, r.chain, r.cursor)
    ensures Exact(server, v, r.chain)
  {
    assert (w.pages + [r])[..|w.pages|] == w.pages;
    assert PagesOf(v.pages, r.chain) == PagesOf(w.pages, r.chain) + [r];
  }

  lemma AnswerKeeps(server: Server, w: World, r: Request, found: bool)
    requires Inv(server, w) && r in w.flying
    ensures Inv(server, Step(server, w, Answer(r, found)))
  {
    var v := Step(server, w, Answer(r, found));
    forall chain ensures Exact(server, v, chain) {
      assert Exact(server, w, chain);
      if r.generation == w.generation && found {
        if chain == r.chain {
          OwnChain(server, w, v, r);
        } else {
          OtherChain(server, w, v, r, chain);
        }
      }
    }
  }

  lemma StepKeeps(server: Server, w: World, e: Event)
    requires Inv(server, w) && Enabled(w, e)
    ensures Inv(server, Step(server, w, e))
  {
    match e
    case Reset(chains) =>
      ResetKeeps(server, w);
      LoadKeeps(server, w.(pages := [], cursors := map[], generation := w.generation + 1, loading := false), chains);
    case More(chains) => LoadKeeps(server, w, chains);
    case Answer(r, found) => AnswerKeeps(server, w, r, found);
    case Finish(g) =>
      hide PagesOf, Nth;
      forall chain ensures Exact(server, Step(server, w, e), chain) {
        assert Exact(server, w, chain);
      }
  }

  lemma {:induction false} RunKeepsInvariant(server: Server, events: seq<Event>, w: World)
    requires Reaches(server, events, w)
    ensures Inv(server, w)
  {
    hide Inv;
    if events == [] {
      StartIsFine(server, w);
    } else {
      var before, e := events[..|events| - 1], events[|events| - 1];
      var v :| Reaches(server, before, v) && Enabled(v, e) && w == Step(server, v, e);
      RunKeepsInvariant(server, before, v);
      StepKeeps(server, v, e);
    }
  }

  lemma StartIsFine(server: Server, w: World)
    requires w == World(0, false, map[], [], {}, {})
    ensures Inv(server, w)
  {
  }

  /** However answers are delayed, lost, retried or overtaken by a new filter: what is shown of each
      network is a beginning of its pages under the present filter, without gap, repetition or
      anything asked for under an older one. */
  lemma PagesAreExact(server: Server, events: seq<Event>, w: World, chain: Chain)
    requires Reaches(server, events, w)
    ensures Exact(server, w, chain)
  {
    RunKeepsInvariant(server, events, w);
  }

  ghost predicate Asked(w: World, chain: Chain) {
    exists r :: r in w.flying && r.generation == w.generation && r.chain == chain
  }

  /** Once a network has no more pages under the present filter it is asked for none, and what is
      shown of it stays as it is until the filter changes. */
  lemma ExhaustedIsDone(server: Server, events: seq<Event>, w: World, e: Event, chain: Chain)
    requires Reaches(server, events, w) && CursorOf(w.cursors, chain) == NoMore && Enabled(w, e) && !e.Reset?
    ensures var v := Step(server, w, e);
            && CursorOf(v.cursors, chain) == NoMore && PagesOf(v.pages, chain) == PagesOf(w.pages, chain)
            && !Asked(w, chain) && !Asked(v, chain)
  {
    hide Exact;
    RunKeepsInvariant(server, events, w);
    StepKeeps(server, w, e);
    if e.Answer? {
      assert (w.pages + [e.request])[..|w.pages|] == w.pages;
    }
  }

  /** Every page shown belongs to some network's list, so nothing is shown besides. */
  lemma {:induction false} NothingElseIsShown(pages: seq<Request>, r: Request)
    ensures r in pages <==> r in PagesOf(pages, r.chain)
  {
    if pages != [] {
      NothingElseIsShown(pages[..|pages| - 1], r);
      assert pages == pages[..|pages| - 1] + [pages[|pages| - 1]];
    }
  }
}
