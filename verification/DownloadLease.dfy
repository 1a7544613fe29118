/** nir/open_model_fetch.py: private download trees, their marker leases, and the reapers
    that clean up after crashed downloads, as one interleaved protocol.

    The global fetch lock is not part of the state: its path may have been replaced, so any
    number of owners and reapers may run at once, and every interleaving is allowed.
    Directory and file identities are never reused while the model runs. */
module DownloadLease {
  import opened Results

  const MARKER_BYTES := "NIR_OPEN_MODEL_FETCH_V1\n"

  type Id = nat

  datatype Holder = Nobody | HeldByOwner(o: Id) | HeldByReaper(r: Id)

  /** A directory: the name it was made under, whether that name still leads to it, its marker
      file if linked, and how many other files it holds. */
  datatype Tree = Tree(name: Id, present: bool, marker: Option<Id>, payload: nat)

  /** A marker inode lives on while somebody holds it open, linked or not. */
  datatype Marker = Marker(tree: Id, content: string, linked: bool, lock: Holder)

  datatype OwnerStage = Made | Marked | Leased | Leaving | Removing | Cleaned | Gone {
    /** The process has not removed its tree. */
    predicate Keeps() { !Cleaned? && !Gone? }
  }

  /** A process that made one private tree, identified by that tree. `marker` is the marker file
      it has open, `target` what the name led to when its recursive removal began. */
  datatype Owner = Owner(stage: OwnerStage, marker: Option<Id>, target: Id)

  datatype ReaperStage = Scanning | Opened | Holding | Locked | Statted | Checked | Reaping | Reaped {
    predicate HasMarkerOpen() { !Scanning? && !Opened? }
    predicate HasLock() { HasMarkerOpen() && !Holding? }
    /** Past the size check, and the tree still there. */
    predicate Trusts() { Statted? || Checked? || Reaping? }
  }

  /** `tree` is the directory a reaper has open, `marker` the marker file it has open. */
  datatype Reaper = Reaper(stage: ReaperStage, name: Id, tree: Id, marker: Id, target: Id)

  datatype World = World(
    names: map<Id, Id>, trees: map<Id, Tree>, markers: map<Id, Marker>,
    owners: map<Id, Owner>, reapers: map<Id, Reaper>)

  datatype Removal = PayloadFile | MarkerFile | Directory

  datatype Action =
    // An owner's download directory, in program order
    | Mkdir(o: Id, name: Id)
    | CreateMarker(o: Id, marker: Id)
    | TakeLease(o: Id)
    | WriteMarker(o: Id, count: nat)
    | Download(o: Id)
    | Leave(o: Id)
    | OpenForCleanup(o: Id)
    | Clean(o: Id, what: Removal)
    | CloseMarker(o: Id)
    | CrashOwner(o: Id)
    // A reaper's visit to one entry, in program order
    | StartReaper(r: Id)
    | OpenTree(r: Id, name: Id)
    | OpenMarker(r: Id)
    | TryLock(r: Id)
    | CheckLinkAndSize(r: Id)
    | CheckContent(r: Id)
    | OpenForReaping(r: Id)
    | Reap(r: Id, what: Removal)
    | CloseReaper(r: Id)

  ghost function Start(): World {
    World(map[], map[], map[], map[], map[])
  }

  ghost predicate IsOwner(w: World, o: Id, stage: OwnerStage) {
    o in w.owners && o in w.trees && w.owners[o].stage == stage
  }

  ghost predicate IsReaper(w: World, r: Id, stage: ReaperStage) {
    r in w.reapers && w.reapers[r].stage == stage
  }

  /** Every path-based call resolves the name afresh. */
  ghost predicate Resolves(w: World, name: Id) {
    name in w.names && w.names[name] in w.trees
  }

  ghost predicate CanRemove(w: World, name: Id, target: Id, what: Removal) {
    match what
    case PayloadFile => target in w.trees && w.trees[target].payload > 0
    case MarkerFile => target in w.trees && w.trees[target].marker.Some? && w.trees[target].marker.value in w.markers
    case Directory =>
      Resolves(w, name) && w.trees[w.names[name]].marker.None? && w.trees[w.names[name]].payload == 0
  }

  ghost function Remove(w: World, name: Id, target: Id, what: Removal): World
    requires CanRemove(w, name, target, what)
  {
    match what
    case PayloadFile =>
      w.(trees := w.trees[target := w.trees[target].(payload := w.trees[target].payload - 1)])
    case MarkerFile =>
      var m := w.trees[target].marker.value;
      w.(trees := w.trees[target := w.trees[target].(marker := None)],
         markers := w.markers[m := w.markers[m].(linked := false)])
    case Directory =>
      w.(trees := w.trees[w.names[name] := w.trees[w.names[name]].(present := false)],
         names := w.names - {name})
  }

  /** Closing the file releases its lock, and so does dying. */
  ghost function Unlock(w: World, m: Id, holder: Holder): World {
    if m in w.markers && w.markers[m].lock == holder
    then w.(markers := w.markers[m := w.markers[m].(lock := Nobody)])
    else w
  }

  /** The marker file the owner has open. */
  ghost predicate HasMarker(w: World, o: Id) {
    o in w.owners && w.owners[o].marker.Some? && w.owners[o].marker.value in w.markers
  }

  ghost predicate Enabled(w: World, a: Action) {
    match a
    case Mkdir(o, name) => o !in w.owners && o !in w.trees && name !in w.names
    case CreateMarker(o, m) =>
      IsOwner(w, o, Made) && m !in w.markers && Resolves(w, w.trees[o].name)
      && w.trees[w.names[w.trees[o].name]].marker.None?
    case TakeLease(o) => IsOwner(w, o, Marked) && HasMarker(w, o)
    case WriteMarker(o, count) =>
      IsOwner(w, o, Leased) && HasMarker(w, o)
      && 0 < count && |w.markers[w.owners[o].marker.value].content| + count <= |MARKER_BYTES|
    case Download(o) => IsOwner(w, o, Leased) && Resolves(w, w.trees[o].name)
    case Leave(o) => IsOwner(w, o, Made) || IsOwner(w, o, Marked) || IsOwner(w, o, Leased)
    case OpenForCleanup(o) => IsOwner(w, o, Leaving) && Resolves(w, w.trees[o].name)
    case Clean(o, what) => IsOwner(w, o, Removing) && CanRemove(w, w.trees[o].name, w.owners[o].target, what)
    case CloseMarker(o) => IsOwner(w, o, Cleaned)
    case CrashOwner(o) => o in w.owners && o in w.trees && !w.owners[o].stage.Gone?
    case StartReaper(r) => r !in w.reapers
    case OpenTree(r, name) => IsReaper(w, r, Scanning) && Resolves(w, name)
    case OpenMarker(r) => IsReaper(w, r, Opened) && w.reapers[r].tree in w.trees && w.trees[w.reapers[r].tree].marker.Some?
    case TryLock(r) => IsReaper(w, r, Holding) && w.reapers[r].marker in w.markers && w.markers[w.reapers[r].marker].lock == Nobody
    case CheckLinkAndSize(r) =>
      IsReaper(w, r, Locked) && w.reapers[r].marker in w.markers
      && w.markers[w.reapers[r].marker].linked && |w.markers[w.reapers[r].marker].content| == |MARKER_BYTES|
    case CheckContent(r) =>
      IsReaper(w, r, Statted) && w.reapers[r].marker in w.markers && w.markers[w.reapers[r].marker].content == MARKER_BYTES
    case OpenForReaping(r) => IsReaper(w, r, Checked) && Resolves(w, w.reapers[r].name)
    case Reap(r, what) => IsReaper(w, r, Reaping) && CanRemove(w, w.reapers[r].name, w.reapers[r].target, what)
    // A failed check, a finished removal and a crash all end in closing the marker.
    case CloseReaper(r) => r in w.reapers
  }

  ghost function SetOwner(w: World, o: Id, owner: Owner): World {
    w.(owners := w.owners[o := owner])
  }

  ghost function SetReaper(w: World, r: Id, reaper: Reaper): World {
    w.(reapers := w.reapers[r := reaper])
  }

  ghost function Step(w: World, a: Action): World
    requires Enabled(w, a)
  {
    match a
    case Mkdir(o, name) =>
      SetOwner(w.(names := w.names[name := o], trees := w.trees[o := Tree(name, true, None, 0)]), o, Owner(Made, None, o))
    case CreateMarker(o, m) =>
      var t := w.names[w.trees[o].name];
      SetOwner(w.(trees := w.trees[t := w.trees[t].(marker := Some(m))],
                  markers := w.markers[m := Marker(t, "", true, Nobody)]),
               o, w.owners[o].(stage := Marked, marker := Some(m)))
    case TakeLease(o) =>
      var m := w.owners[o].marker.value;
      if w.markers[m].lock == Nobody then
        SetOwner(w.(markers := w.markers[m := w.markers[m].(lock := HeldByOwner(o))]), o, w.owners[o].(stage := Leased))
      else
        SetOwner(w, o, w.owners[o].(stage := Leaving))
    case WriteMarker(o, count) =>
      var m := w.owners[o].marker.value;
      w.(markers := w.markers[m := w.markers[m].(content := MARKER_BYTES[..|w.markers[m].content| + count])])
    case Download(o) =>
      var t := w.names[w.trees[o].name];
      w.(trees := w.trees[t := w.trees[t].(payload := w.trees[t].payload + 1)])
    case Leave(o) => SetOwner(w, o, w.owners[o].(stage := Leaving))
    case OpenForCleanup(o) =>
      SetOwner(w, o, w.owners[o].(stage := Removing, target := w.names[w.trees[o].name]))
    case Clean(o, what) =>
      SetOwner(Remove(w, w.trees[o].name, w.owners[o].target, what),
               o, if what == Directory then w.owners[o].(stage := Cleaned) else w.owners[o])
    case CloseMarker(o) => EndOwner(w, o)
    case CrashOwner(o) => EndOwner(w, o)
    case StartReaper(r) => SetReaper(w, r, Reaper(Scanning, 0, 0, 0, 0))
    case OpenTree(r, name) => SetReaper(w, r, w.reapers[r].(stage := Opened, name := name, tree := w.names[name]))
    case OpenMarker(r) =>
      SetReaper(w, r, w.reapers[r].(stage := Holding, marker := w.trees[w.reapers[r].tree].marker.value))
    case TryLock(r) =>
      var m := w.reapers[r].marker;
      SetReaper(w.(markers := w.markers[m := w.markers[m].(lock := HeldByReaper(r))]), r, w.reapers[r].(stage := Locked))
    case CheckLinkAndSize(r) => SetReaper(w, r, w.reapers[r].(stage := Statted))
    case CheckContent(r) => SetReaper(w, r, w.reapers[r].(stage := Checked))
    case OpenForReaping(r) => SetReaper(w, r, w.reapers[r].(stage := Reaping, target := w.names[w.reapers[r].name]))
    case Reap(r, what) =>
      SetReaper(Remove(w, w.reapers[r].name, w.reapers[r].target, what),
                r, if what == Directory then w.reapers[r].(stage := Reaped) else w.reapers[r])
    case CloseReaper(r) =>
      SetReaper(Unlock(w, w.reapers[r].marker, HeldByReaper(r)), r, Reaper(Scanning, 0, 0, 0, 0))
  }

  ghost function EndOwner(w: World, o: Id): World
    requires o in w.owners
  {
    var w1 := if w.owners[o].marker.Some? then Unlock(w, w.owners[o].marker.value, HeldByOwner(o)) else w;
    SetOwner(w1, o, w.owners[o].(stage := Gone))
  }

  ghost function Then(w: Option<World>, a: Action): Option<World> {
    if w.Some? && Enabled(w.value, a) then Some(Step(w.value, a)) else None
  }

  /** The world after some actions, if each of them is possible when it comes. */
  ghost function RunFrom(w: World, actions: seq<Action>): Option<World> {
    if actions == [] then Some(w)
    else Then(RunFrom(w, actions[..|actions| - 1]), actions[|actions| - 1])
  }

  ghost function Run(actions: seq<Action>): Option<World> {
    RunFrom(Start(), actions)
  }

  /** A run followed by a continuation is a run. */
  lemma {:induction false} RunGoesOn(w: World, actions: seq<Action>, more: seq<Action>)
    ensures RunFrom(w, actions + more)
         == if RunFrom(w, actions).Some? then RunFrom(RunFrom(w, actions).value, more) else None
  {
    hide Then;
    if more == [] {
      assert actions + more == actions;
    } else {
      var before := more[..|more| - 1];
      RunGoesOn(w, actions, before);
      assert (actions + more)[..|actions + more| - 1] == actions + before;
      assert RunFrom(w, actions + more) == Then(RunFrom(w, actions + before), more[|more| - 1]);
      if RunFrom(w, actions).None? {
        ThenNeedsAWorld(more[|more| - 1]);
      }
    }
  }

  lemma ThenNeedsAWorld(a: Action)
    ensures Then(None, a) == None
  {
  }

  // ----- The invariant

  /** Names and trees point at each other; every tree has its maker. */
  ghost predicate NamesOk(w: World) {
    && (forall n | n in w.names :: w.names[n] in w.trees && w.trees[w.names[n]].present && w.trees[w.names[n]].name == n)
    && (forall t | t in w.trees && w.trees[t].present :: w.trees[t].name in w.names && w.names[w.trees[t].name] == t)
    && w.trees.Keys == w.owners.Keys
  }

  /** Markers and trees point at each other; a tree is given one marker in its life. */
  ghost predicate MarkersOk(w: World) {
    && (forall t | t in w.trees && w.trees[t].marker.Some? :: LinkOk(w, t, w.trees[t].marker.value))
    && (forall m | m in w.markers :: MarkerOk(w, m))
  }

  ghost predicate LinkOk(w: World, t: Id, m: Id)
    requires t in w.trees
  {
    w.trees[t].present && m in w.markers && w.markers[m].tree == t && w.markers[m].linked
  }

  ghost predicate MarkerOk(w: World, m: Id)
    requires m in w.markers
  {
    var t := w.markers[m].tree;
    && t in w.owners && t in w.trees && w.owners[t].marker == Some(m)
    && (w.markers[m].linked ==> w.trees[t].marker == Some(m))
    && LockOk(w, m)
  }

  /** A lock belongs to a process that has the marker open at a stage where it holds it. */
  ghost predicate LockOk(w: World, m: Id)
    requires m in w.markers
  {
    match w.markers[m].lock
    case Nobody => true
    case HeldByOwner(o) => o == w.markers[m].tree
    case HeldByReaper(r) =>
      r in w.reapers && w.reapers[r].marker == m && w.reapers[r].stage.HasLock()
  }

  /** The owner's view: until it is gone its tree is where it put it, and nothing is written
      in the marker without the lease. */
  ghost predicate OwnerOk(w: World, o: Id)
    requires o in w.owners
  {
    var own := w.owners[o];
    && o in w.trees
    && (own.stage.Made? ==> own.marker.None?)
    && (own.stage.Keeps() ==> w.trees[o].present)
    && (own.stage.Marked? || own.stage.Leased? ==> own.marker.Some? && w.trees[o].marker == own.marker)
    && (own.stage.Removing? ==> own.target == o)
    && (own.marker.None? ==> w.trees[o].marker.None?)
    && (own.marker.Some? ==>
          && own.marker.value in w.markers && w.markers[own.marker.value].tree == o
          && (own.stage.Leased? ==> w.markers[own.marker.value].lock == HeldByOwner(o))
          && (own.stage.Gone? ==> w.markers[own.marker.value].lock != HeldByOwner(o))
          && (own.stage.Marked? ==> w.markers[own.marker.value].content == "")
          && (w.markers[own.marker.value].content != "" ==> own.stage.Gone? || w.markers[own.marker.value].lock == HeldByOwner(o)))
  }

  /** The reaper's view: past its checks it holds the lease of a tree whose owner is gone, and
      the name it will delete by leads to that tree until it removes it itself. */
  ghost predicate ReaperOk(w: World, r: Id)
    requires r in w.reapers
  {
    var rp := w.reapers[r];
    && (!rp.stage.Scanning? ==> rp.tree in w.trees && rp.tree in w.owners && w.trees[rp.tree].name == rp.name)
    && (rp.stage.HasMarkerOpen() ==>
          rp.marker in w.markers && w.markers[rp.marker].tree == rp.tree)
    && (rp.stage.HasLock() ==> w.markers[rp.marker].lock == HeldByReaper(r))
    && (rp.stage.Statted? || rp.stage.Checked? ==> w.markers[rp.marker].linked && w.markers[rp.marker].content != "")
    && (rp.stage.Checked? || rp.stage.Reaping? ==> w.markers[rp.marker].content == MARKER_BYTES)
    && (rp.stage.Trusts() ==> w.owners[rp.tree].stage == Gone && w.trees[rp.tree].present)
    && (rp.stage.Reaping? ==> rp.target == rp.tree)
  }

  ghost predicate Inv(w: World) {
    && NamesOk(w)
    && MarkersOk(w)
    && (forall o | o in w.owners :: OwnerOk(w, o))
    && (forall r | r in w.reapers :: ReaperOk(w, r))
  }

  // ----- Recursive removal, one entry at a time

  /** No reaper but `r` has found tree `t` abandoned. */
  ghost predicate OnlyReaper(w: World, t: Id, r: Option<Id>) {
    forall q | q in w.reapers && w.reapers[q].tree == t && Some(q) != r :: !w.reapers[q].stage.Trusts()
  }

  lemma ReaperIsAlone(w: World, r: Id)
    requires Inv(w) && IsReaper(w, r, Reaping)
    ensures OnlyReaper(w, w.reapers[r].tree, Some(r))
  {
    assert ReaperOk(w, r);
    var t, m := w.reapers[r].tree, w.reapers[r].marker;
    assert MarkerOk(w, m);
    forall n | n in w.markers && w.markers[n].tree == t ensures n == m {
      assert MarkerOk(w, n);
    }
    forall q | q in w.reapers && w.reapers[q].tree == t && q != r ensures !w.reapers[q].stage.Trusts() {
      assert ReaperOk(w, q);
    }
  }

  lemma OwnerIsAlone(w: World, o: Id)
    requires Inv(w) && IsOwner(w, o, Removing)
    ensures OnlyReaper(w, o, None)
  {
    forall q | q in w.reapers && w.reapers[q].tree == o ensures !w.reapers[q].stage.Trusts() {
      assert ReaperOk(w, q);
    }
  }

  lemma RemovePayloadKeeps(w: World, name: Id, t: Id)
    requires Inv(w) && CanRemove(w, name, t, PayloadFile)
    ensures Inv(Remove(w, name, t, PayloadFile))
  {
    var w' := Remove(w, name, t, PayloadFile);
    forall o | o in w'.owners ensures OwnerOk(w', o) {
      assert OwnerOk(w, o);
    }
    forall r | r in w'.reapers ensures ReaperOk(w', r) {
      assert ReaperOk(w, r);
    }
    forall m | m in w'.markers ensures MarkerOk(w', m) {
      assert MarkerOk(w, m);
    }
  }

  /** The marker may be unlinked once its owner is cleaning up or gone and no reaper relies on it. */
  ghost predicate MayUnlink(w: World, t: Id) {
    && t in w.owners && (w.owners[t].stage.Removing? || w.owners[t].stage.Gone?)
    && (forall q | q in w.reapers && w.reapers[q].tree == t :: !w.reapers[q].stage.Statted? && !w.reapers[q].stage.Checked?)
  }

  lemma UnlinkMarkerKeeps(w: World, name: Id, t: Id)
    requires Inv(w) && CanRemove(w, name, t, MarkerFile) && MayUnlink(w, t)
    ensures Inv(Remove(w, name, t, MarkerFile))
  {
    var w' := Remove(w, name, t, MarkerFile);
    assert LinkOk(w, t, w.trees[t].marker.value);
    forall o | o in w'.owners ensures OwnerOk(w', o) {
      assert OwnerOk(w, o);
    }
    forall m | m in w'.markers ensures MarkerOk(w', m) {
      assert MarkerOk(w, m);
    }
    forall r | r in w'.reapers ensures ReaperOk(w', r) {
      UnlinkKeepsReaper(w, name, t, r);
    }
  }

  lemma UnlinkKeepsReaper(w: World, name: Id, t: Id, r: Id)
    requires CanRemove(w, name, t, MarkerFile) && LinkOk(w, t, w.trees[t].marker.value) && MayUnlink(w, t)
    requires r in w.reapers && ReaperOk(w, r)
    ensures ReaperOk(Remove(w, name, t, MarkerFile), r)
  {
  }

  lemma OwnerRmdirKeeps(w: World, o: Id)
    requires Inv(w) && IsOwner(w, o, Removing) && CanRemove(w, w.trees[o].name, o, Directory)
    ensures Inv(SetOwner(Remove(w, w.trees[o].name, o, Directory), o, w.owners[o].(stage := Cleaned)))
  {
    var w' := SetOwner(Remove(w, w.trees[o].name, o, Directory), o, w.owners[o].(stage := Cleaned));
    assert OwnerOk(w, o);
    OwnerIsAlone(w, o);
    forall q | q in w'.owners ensures OwnerOk(w', q) {
      assert OwnerOk(w, q);
    }
    forall r | r in w'.reapers ensures ReaperOk(w', r) {
      assert ReaperOk(w, r);
    }
    forall m | m in w'.markers ensures MarkerOk(w', m) {
      assert MarkerOk(w, m);
    }
  }

  lemma ReaperRmdirKeeps(w: World, r: Id)
    requires Inv(w) && IsReaper(w, r, Reaping) && CanRemove(w, w.reapers[r].name, w.reapers[r].tree, Directory)
    ensures Inv(SetReaper(Remove(w, w.reapers[r].name, w.reapers[r].tree, Directory), r, w.reapers[r].(stage := Reaped)))
  {
    var w' := SetReaper(Remove(w, w.reapers[r].name, w.reapers[r].tree, Directory), r, w.reapers[r].(stage := Reaped));
    assert ReaperOk(w, r);
    ReaperIsAlone(w, r);
    forall o | o in w'.owners ensures OwnerOk(w', o) {
      assert OwnerOk(w, o);
    }
    forall q | q in w'.reapers ensures ReaperOk(w', q) {
      assert ReaperOk(w, q);
    }
    forall m | m in w'.markers ensures MarkerOk(w', m) {
      assert MarkerOk(w, m);
    }
  }

  lemma CleanKeeps(w: World, o: Id, what: Removal)
    requires Inv(w) && Enabled(w, Clean(o, what))
    ensures Inv(Step(w, Clean(o, what)))
  {
    OwnerIsAlone(w, o);
    assert OwnerOk(w, o);
    if what == Directory {
      OwnerRmdirKeeps(w, o);
    } else {
      RemoveFileKeeps(w, w.trees[o].name, o, what);
      assert Step(w, Clean(o, what)) == Remove(w, w.trees[o].name, o, what);
    }
  }

  lemma RemoveFileKeeps(w: World, name: Id, t: Id, what: Removal)
    requires Inv(w) && what != Directory && CanRemove(w, name, t, what) && MayUnlink(w, t)
    ensures Inv(Remove(w, name, t, what))
  {
    if what == PayloadFile {
      RemovePayloadKeeps(w, name, t);
    } else {
      UnlinkMarkerKeeps(w, name, t);
    }
  }

  lemma ReapKeeps(w: World, r: Id, what: Removal)
    requires Inv(w) && Enabled(w, Reap(r, what))
    ensures Inv(Step(w, Reap(r, what)))
  {
    ReaperIsAlone(w, r);
    assert ReaperOk(w, r);
    if what == Directory {
      ReaperRmdirKeeps(w, r);
    } else {
      RemoveFileKeeps(w, w.reapers[r].name, w.reapers[r].tree, what);
      assert Step(w, Reap(r, what)) == Remove(w, w.reapers[r].name, w.reapers[r].tree, what);
    }
  }

  // ----- The other steps: one process moves on, perhaps taking or dropping a lock

  ghost function SetLock(w: World, m: Id, holder: Holder): World
    requires m in w.markers
  {
    w.(markers := w.markers[m := w.markers[m].(lock := holder)])
  }

  lemma SetOwnerKeeps(w: World, o: Id, x: Owner)
    requires Inv(w) && o in w.owners && !w.owners[o].stage.Gone? && x.marker == w.owners[o].marker
    requires OwnerOk(SetOwner(w, o, x), o)
    ensures Inv(SetOwner(w, o, x))
  {
    var w' := SetOwner(w, o, x);
    forall q | q in w'.owners ensures OwnerOk(w', q) {
      assert OwnerOk(w, q);
    }
    forall r | r in w'.reapers ensures ReaperOk(w', r) {
      assert ReaperOk(w, r);
    }
    forall m | m in w'.markers ensures MarkerOk(w', m) {
      assert MarkerOk(w, m);
    }
  }

  lemma OwnerLockKeepsReaper(w: World, o: Id, x: Owner, m: Id, holder: Holder, r: Id)
    requires o in w.owners && !w.owners[o].stage.Gone? && m in w.markers && !w.markers[m].lock.HeldByReaper?
    requires r in w.reapers && ReaperOk(w, r)
    ensures ReaperOk(SetOwner(SetLock(w, m, holder), o, x), r)
  {
  }

  lemma OwnerLockKeepsOwner(w: World, o: Id, x: Owner, m: Id, holder: Holder, q: Id)
    requires m in w.markers && w.markers[m].tree == o && q != o
    requires q in w.owners && OwnerOk(w, q)
    ensures OwnerOk(SetOwner(SetLock(w, m, holder), o, x), q)
  {
  }

  lemma OwnerLockKeeps(w: World, o: Id, x: Owner, m: Id, holder: Holder)
    requires Inv(w) && o in w.owners && !w.owners[o].stage.Gone?
    requires w.owners[o].marker == x.marker == Some(m) && m in w.markers && w.markers[m].tree == o
    requires w.markers[m].lock == Nobody || w.markers[m].lock == HeldByOwner(o)
    requires holder == Nobody || holder == HeldByOwner(o)
    requires OwnerOk(SetOwner(SetLock(w, m, holder), o, x), o)
    ensures Inv(SetOwner(SetLock(w, m, holder), o, x))
  {
    var w' := SetOwner(SetLock(w, m, holder), o, x);
    forall q | q in w'.owners ensures OwnerOk(w', q) {
      if q != o {
        assert OwnerOk(w, q);
        OwnerLockKeepsOwner(w, o, x, m, holder, q);
      }
    }
    forall r | r in w'.reapers ensures ReaperOk(w', r) {
      OwnerLockKeepsReaper(w, o, x, m, holder, r);
    }
    forall n | n in w'.markers ensures MarkerOk(w', n) {
      assert MarkerOk(w, n);
    }
  }

  lemma SetReaperKeeps(w: World, r: Id, x: Reaper)
    requires Inv(w) && ReaperOk(SetReaper(w, r, x), r)
    requires r in w.reapers && w.reapers[r].stage.HasLock() ==> x.stage.HasLock() && x.marker == w.reapers[r].marker
    ensures Inv(SetReaper(w, r, x))
  {
    var w' := SetReaper(w, r, x);
    forall o | o in w'.owners ensures OwnerOk(w', o) {
      assert OwnerOk(w, o);
    }
    forall q | q in w'.reapers ensures ReaperOk(w', q) {
      assert q != r ==> ReaperOk(w, q);
    }
    forall m | m in w'.markers ensures MarkerOk(w', m) {
      assert MarkerOk(w, m);
    }
  }

  lemma ReaperLockKeepsReaper(w: World, r: Id, x: Reaper, m: Id, holder: Holder, q: Id)
    requires m in w.markers && (w.markers[m].lock == Nobody || w.markers[m].lock == HeldByReaper(r))
    requires q in w.reapers && q != r && ReaperOk(w, q)
    ensures ReaperOk(SetReaper(SetLock(w, m, holder), r, x), q)
  {
  }

  lemma ReaperLockKeeps(w: World, r: Id, x: Reaper, m: Id, holder: Holder)
    requires Inv(w) && r in w.reapers && m in w.markers && w.reapers[r].marker == m
    requires w.markers[m].lock == Nobody || w.markers[m].lock == HeldByReaper(r)
    requires holder == Nobody || (holder == HeldByReaper(r) && x.stage.HasLock() && x.marker == m)
    requires ReaperOk(SetReaper(SetLock(w, m, holder), r, x), r)
    ensures Inv(SetReaper(SetLock(w, m, holder), r, x))
  {
    var w' := SetReaper(SetLock(w, m, holder), r, x);
    assert ReaperOk(w, r);
    forall o | o in w'.owners ensures OwnerOk(w', o) {
      assert OwnerOk(w, o);
    }
    forall q | q in w'.reapers ensures ReaperOk(w', q) {
      if q != r {
        ReaperLockKeepsReaper(w, r, x, m, holder, q);
      }
    }
    forall n | n in w'.markers ensures MarkerOk(w', n) {
      assert MarkerOk(w, n);
    }
  }

  lemma EndOwnerKeeps(w: World, o: Id)
    requires Inv(w) && o in w.owners && !w.owners[o].stage.Gone?
    ensures Inv(EndOwner(w, o))
  {
    assert OwnerOk(w, o);
    var x := w.owners[o].(stage := Gone);
    if x.marker.Some? && w.markers[x.marker.value].lock == HeldByOwner(o) {
      OwnerLockKeeps(w, o, x, x.marker.value, Nobody);
    } else {
      SetOwnerKeeps(w, o, x);
    }
  }

  lemma CloseReaperKeeps(w: World, r: Id)
    requires Inv(w) && Enabled(w, CloseReaper(r))
    ensures Inv(Step(w, CloseReaper(r)))
  {
    assert ReaperOk(w, r);
    var x := Reaper(Scanning, 0, 0, 0, 0);
    var m := w.reapers[r].marker;
    if m in w.markers && w.markers[m].lock == HeldByReaper(r) {
      ReaperLockKeeps(w, r, x, m, Nobody);
    } else {
      SetReaperKeeps(w, r, x);
    }
  }

  lemma TakeLeaseKeeps(w: World, o: Id)
    requires Inv(w) && Enabled(w, TakeLease(o))
    ensures Inv(Step(w, TakeLease(o)))
  {
    assert OwnerOk(w, o);
    var m := w.owners[o].marker.value;
    if w.markers[m].lock == Nobody {
      OwnerLockKeeps(w, o, w.owners[o].(stage := Leased), m, HeldByOwner(o));
    } else {
      SetOwnerKeeps(w, o, w.owners[o].(stage := Leaving));
    }
  }

  lemma TryLockKeeps(w: World, r: Id)
    requires Inv(w) && Enabled(w, TryLock(r))
    ensures Inv(Step(w, TryLock(r)))
  {
    assert ReaperOk(w, r);
    ReaperLockKeeps(w, r, w.reapers[r].(stage := Locked), w.reapers[r].marker, HeldByReaper(r));
  }

  lemma OwnerMovesOn(w: World, a: Action)
    requires Inv(w) && Enabled(w, a) && (a.Leave? || a.OpenForCleanup?)
    ensures Inv(Step(w, a))
  {
    assert OwnerOk(w, a.o);
    SetOwnerKeeps(w, a.o, Step(w, a).owners[a.o]);
  }

  /** The reaper trusts what it reads under the lock: a marker with content whose lock was free
      belongs to an owner that is gone. */
  lemma ReaperMovesOn(w: World, a: Action)
    requires Inv(w) && Enabled(w, a)
    requires a.StartReaper? || a.OpenTree? || a.OpenMarker? || a.CheckLinkAndSize? || a.CheckContent? || a.OpenForReaping?
    ensures Inv(Step(w, a))
  {
    var x := Step(w, a).reapers[a.r];
    if !a.StartReaper? {
      assert ReaperOk(w, a.r);
    }
    if a.OpenMarker? {
      var t := w.reapers[a.r].tree;
      assert LinkOk(w, t, w.trees[t].marker.value);
    }
    if a.CheckLinkAndSize? {
      var m := w.reapers[a.r].marker;
      assert MarkerOk(w, m) && OwnerOk(w, w.markers[m].tree);
      assert LinkOk(w, w.markers[m].tree, m);
    }
    SetReaperKeeps(w, a.r, x);
  }

  lemma MkdirKeeps(w: World, o: Id, name: Id)
    requires Inv(w) && Enabled(w, Mkdir(o, name))
    ensures Inv(Step(w, Mkdir(o, name)))
  {
    var w' := Step(w, Mkdir(o, name));
    forall q | q in w'.owners ensures OwnerOk(w', q) {
      assert q != o ==> OwnerOk(w, q);
    }
    forall r | r in w'.reapers ensures ReaperOk(w', r) {
      assert ReaperOk(w, r);
    }
    forall m | m in w'.markers ensures MarkerOk(w', m) {
      assert MarkerOk(w, m);
    }
  }

  lemma CreateMarkerKeepsReaper(w: World, o: Id, m: Id, r: Id)
    requires Enabled(w, CreateMarker(o, m)) && OwnerOk(w, o) && w.names[w.trees[o].name] == o
    requires r in w.reapers && ReaperOk(w, r)
    ensures ReaperOk(Step(w, CreateMarker(o, m)), r)
  {
  }

  lemma CreateMarkerKeeps(w: World, o: Id, m: Id)
    requires Inv(w) && Enabled(w, CreateMarker(o, m))
    ensures Inv(Step(w, CreateMarker(o, m)))
  {
    var w' := Step(w, CreateMarker(o, m));
    assert OwnerOk(w, o);
    forall q | q in w'.owners ensures OwnerOk(w', q) {
      assert OwnerOk(w, q);
    }
    forall r | r in w'.reapers ensures ReaperOk(w', r) {
      CreateMarkerKeepsReaper(w, o, m, r);
    }
    forall n | n in w'.markers ensures MarkerOk(w', n) {
      assert n != m ==> MarkerOk(w, n);
    }
  }

  lemma WriteMarkerKeeps(w: World, o: Id, count: nat)
    requires Inv(w) && Enabled(w, WriteMarker(o, count))
    ensures Inv(Step(w, WriteMarker(o, count)))
  {
    var w' := Step(w, WriteMarker(o, count));
    assert OwnerOk(w, o);
    forall q | q in w'.owners ensures OwnerOk(w', q) {
      assert OwnerOk(w, q);
    }
    forall r | r in w'.reapers ensures ReaperOk(w', r) {
      assert ReaperOk(w, r);
    }
    forall n | n in w'.markers ensures MarkerOk(w', n) {
      assert MarkerOk(w, n);
    }
  }

  lemma DownloadKeeps(w: World, o: Id)
    requires Inv(w) && Enabled(w, Download(o))
    ensures Inv(Step(w, Download(o)))
  {
    var w' := Step(w, Download(o));
    assert OwnerOk(w, o);
    forall q | q in w'.owners ensures OwnerOk(w', q) {
      assert OwnerOk(w, q);
    }
    forall r | r in w'.reapers ensures ReaperOk(w', r) {
      assert ReaperOk(w, r);
    }
    forall n | n in w'.markers ensures MarkerOk(w', n) {
      assert MarkerOk(w, n);
    }
  }

  lemma OwnerActionKeeps(w: World, a: Action)
    requires Inv(w) && Enabled(w, a) && OwnerActs(a)
    ensures Inv(Step(w, a))
  {
    match a
    case Mkdir(o, name) => MkdirKeeps(w, o, name);
    case CreateMarker(o, m) => CreateMarkerKeeps(w, o, m);
    case TakeLease(o) => TakeLeaseKeeps(w, o);
    case WriteMarker(o, count) => WriteMarkerKeeps(w, o, count);
    case Download(o) => DownloadKeeps(w, o);
    case Leave(_) => OwnerMovesOn(w, a);
    case OpenForCleanup(_) => OwnerMovesOn(w, a);
    case Clean(o, what) => CleanKeeps(w, o, what);
    case CloseMarker(o) => EndOwnerKeeps(w, o);
    case CrashOwner(o) => EndOwnerKeeps(w, o);
  }

  lemma ReaperActionKeeps(w: World, a: Action)
    requires Inv(w) && Enabled(w, a) && !OwnerActs(a)
    ensures Inv(Step(w, a))
  {
    match a
    case TryLock(r) => TryLockKeeps(w, r);
    case Reap(r, what) => ReapKeeps(w, r, what);
    case CloseReaper(r) => CloseReaperKeeps(w, r);
    case _ => ReaperMovesOn(w, a);
  }

  predicate OwnerActs(a: Action) {
    a.Mkdir? || a.CreateMarker? || a.TakeLease? || a.WriteMarker? || a.Download? || a.Leave?
    || a.OpenForCleanup? || a.Clean? || a.CloseMarker? || a.CrashOwner?
  }

  lemma ActionKeeps(w: World, a: Action)
    requires Inv(w) && Enabled(w, a)
    ensures Inv(Step(w, a))
  {
    if OwnerActs(a) {
      OwnerActionKeeps(w, a);
    } else {
      ReaperActionKeeps(w, a);
    }
  }

  lemma {:induction false} GoingOnKeepsInvariant(w: World, more: seq<Action>)
    requires Inv(w) && RunFrom(w, more).Some?
    ensures Inv(RunFrom(w, more).value)
  {
    hide Inv, Step, Enabled;
    if more != [] {
      GoingOnKeepsInvariant(w, more[..|more| - 1]);
      ActionKeeps(RunFrom(w, more[..|more| - 1]).value, more[|more| - 1]);
    }
  }

  lemma RunKeepsInvariant(actions: seq<Action>)
    requires Run(actions).Some?
    ensures Inv(Run(actions).value)
  {
    GoingOnKeepsInvariant(Start(), actions);
  }

  // ----- What holds in every interleaving

  /** Whatever a reaper deletes belongs to the very tree whose completed marker it has locked,
      whose owner is gone; and the name it deletes by still leads to that tree. */
  lemma ReapsOnlyAbandonedTrees(actions: seq<Action>, r: Id, what: Removal)
    requires Run(actions).Some? && Enabled(Run(actions).value, Reap(r, what))
    ensures var w := Run(actions).value;
            var rp := w.reapers[r];
            && rp.target == rp.tree
            && rp.tree in w.owners && w.owners[rp.tree].stage.Gone?
            && rp.marker in w.markers && w.markers[rp.marker].tree == rp.tree
            && w.markers[rp.marker].content == MARKER_BYTES && w.markers[rp.marker].lock == HeldByReaper(r)
            && rp.name in w.names && w.names[rp.name] == rp.tree
  {
    RunKeepsInvariant(actions);
    assert ReaperOk(Run(actions).value, r);
  }

  /** Tree `o`, its name, its maker's progress and its marker's content, before and after. */
  ghost predicate Untouched(w: World, w': World, o: Id)
    requires o in w.trees && o in w.owners
  {
    && o in w'.trees && w'.trees[o] == w.trees[o]
    && w.trees[o].name in w'.names && w'.names[w.trees[o].name] == o
    && o in w'.owners && w'.owners[o] == w.owners[o]
    && (HasMarker(w, o) ==>
          HasMarker(w', o) && w'.markers[w.owners[o].marker.value].content == w.markers[w.owners[o].marker.value].content)
  }

  lemma RemovalElsewhere(w: World, o: Id, name: Id, t: Id, what: Removal)
    requires Inv(w) && o in w.owners && w.owners[o].stage.Keeps() && t != o
    requires CanRemove(w, name, t, what) && t in w.trees && w.trees[t].name == name && w.trees[t].present
    ensures Untouched(w, Remove(w, name, t, what), o)
  {
    assert OwnerOk(w, o);
    if what == MarkerFile {
      assert LinkOk(w, t, w.trees[t].marker.value);
    }
  }

  lemma OwnersLeaveOthersAlone(w: World, o: Id, a: Action)
    requires Inv(w) && Enabled(w, a) && OwnerActs(a) && a.o != o && o in w.owners && w.owners[o].stage.Keeps()
    ensures Untouched(w, Step(w, a), o)
  {
    assert OwnerOk(w, o);
    if !a.Mkdir? {
      assert OwnerOk(w, a.o);
    }
    if a.Clean? {
      RemovalElsewhere(w, o, w.trees[a.o].name, a.o, a.what);
    }
  }

  lemma ReapersLeaveLiveTreesAlone(w: World, o: Id, a: Action)
    requires Inv(w) && Enabled(w, a) && !OwnerActs(a) && o in w.owners && w.owners[o].stage.Keeps()
    ensures Untouched(w, Step(w, a), o)
  {
    assert OwnerOk(w, o);
    if a.Reap? {
      assert ReaperOk(w, a.r);
      RemovalElsewhere(w, o, w.reapers[a.r].name, w.reapers[a.r].tree, a.what);
    }
  }

  /** While its maker is alive and has not removed it, a tree stays under its name and is
      untouched by every step of every other process; so is its marker's content. */
  lemma LiveTreesAreUntouched(actions: seq<Action>, o: Id, a: Action)
    requires Run(actions).Some? && o in Run(actions).value.owners && Run(actions).value.owners[o].stage.Keeps()
    requires Enabled(Run(actions).value, a) && !(OwnerActs(a) && a.o == o)
    ensures var w := Run(actions).value;
            && o in w.trees && w.trees[o].name in w.names && w.names[w.trees[o].name] == o
            && Untouched(w, Step(w, a), o)
  {
    RunKeepsInvariant(actions);
    var w := Run(actions).value;
    assert OwnerOk(w, o);
    if OwnerActs(a) {
      OwnersLeaveOthersAlone(w, o, a);
    } else {
      ReapersLeaveLiveTreesAlone(w, o, a);
    }
  }

  /** Two reapers never work on one tree, however many run at once. */
  lemma OneReaperPerTree(actions: seq<Action>, q: Id, r: Id)
    requires Run(actions).Some? && IsReaper(Run(actions).value, q, Reaping) && IsReaper(Run(actions).value, r, Reaping)
    requires Run(actions).value.reapers[q].tree == Run(actions).value.reapers[r].tree
    ensures q == r
  {
    RunKeepsInvariant(actions);
    ReaperIsAlone(Run(actions).value, r);
  }

  // ----- What a dead process leaves behind

  /** The tree's marker is linked and written in full. */
  ghost predicate Full(w: World, t: Id) {
    && t in w.trees && w.trees[t].marker.Some? && w.trees[t].marker.value in w.markers
    && w.markers[w.trees[t].marker.value].content == MARKER_BYTES
  }

  /** What a visit that meets no interference needs to find. */
  ghost predicate Reapable(w: World, t: Id) {
    Full(w, t) && w.markers[w.trees[t].marker.value].lock == Nobody
  }

  /** One visit, up to the decision to delete. */
  ghost function Visit(r: Id, name: Id): seq<Action> {
    [OpenTree(r, name), OpenMarker(r), TryLock(r), CheckLinkAndSize(r), CheckContent(r)]
  }

  lemma VisitInSteps(w: World, r: Id, name: Id)
    ensures RunFrom(w, Visit(r, name))
         == Then(Then(Then(Then(Then(Some(w), OpenTree(r, name)), OpenMarker(r)), TryLock(r)), CheckLinkAndSize(r)), CheckContent(r))
  {
    hide Then;
    var v := Visit(r, name);
    assert v[..4][..3] == v[..3] && v[..3][..2] == v[..2] && v[..2][..1] == v[..1] && v[..1][..0] == [];
    assert RunFrom(w, v[..1]) == Then(RunFrom(w, []), v[0]);
    assert RunFrom(w, v[..2]) == Then(RunFrom(w, v[..1]), v[1]);
    assert RunFrom(w, v[..3]) == Then(RunFrom(w, v[..2]), v[2]);
    assert RunFrom(w, v[..4]) == Then(RunFrom(w, v[..3]), v[3]);
  }

  /** The visit's first half: everything up to the attempt on the lock. */
  lemma VisitOpens(w: World, r: Id, name: Id)
    requires Inv(w) && IsReaper(w, r, Scanning) && name in w.names
    ensures var w2 := Then(Then(Some(w), OpenTree(r, name)), OpenMarker(r));
            var t := w.names[name];
            && t in w.trees
            && (w2.Some? <==> w.trees[t].marker.Some?)
            && (w2.Some? ==> w2.value == SetReaper(w, r, Reaper(Holding, name, t, w.trees[t].marker.value, w.reapers[r].target)))
  {
    var w1 := Step(w, OpenTree(r, name));
    assert w1.reapers[r].tree == w.names[name];
    if w.trees[w.names[name]].marker.Some? {
      assert Step(w1, OpenMarker(r)).reapers
          == w.reapers[r := Reaper(Holding, name, w.names[name], w.trees[w.names[name]].marker.value, w.reapers[r].target)];
    }
  }

  lemma VisitChecks(w: World, r: Id)
    requires IsReaper(w, r, Holding) && w.reapers[r].marker in w.markers && w.markers[w.reapers[r].marker].linked
    ensures var w5 := Then(Then(Then(Some(w), TryLock(r)), CheckLinkAndSize(r)), CheckContent(r));
            var m := w.markers[w.reapers[r].marker];
            && (w5.Some? <==> m.content == MARKER_BYTES && m.lock == Nobody)
            && (w5.Some? ==> IsReaper(w5.value, r, Checked) && w5.value.reapers[r].tree == w.reapers[r].tree)
  {
    var w3 := Then(Some(w), TryLock(r));
    if w3.Some? {
      assert IsReaper(w3.value, r, Locked) && w3.value.reapers[r] == w.reapers[r].(stage := Locked);
      assert w3.value.markers[w.reapers[r].marker] == w.markers[w.reapers[r].marker].(lock := HeldByReaper(r));
      ChecksUnderLock(w3.value, r);
    } else {
      hide Enabled, Step;
    }
  }

  lemma ChecksUnderLock(w: World, r: Id)
    requires IsReaper(w, r, Locked) && w.reapers[r].marker in w.markers && w.markers[w.reapers[r].marker].linked
    ensures var w5 := Then(Then(Some(w), CheckLinkAndSize(r)), CheckContent(r));
            && (w5.Some? <==> w.markers[w.reapers[r].marker].content == MARKER_BYTES)
            && (w5.Some? ==> IsReaper(w5.value, r, Checked) && w5.value.reapers[r].tree == w.reapers[r].tree)
  {
  }

  /** An uninterrupted visit decides to delete exactly when the marker is there, complete and
      unlocked: an empty or half-written marker is left alone for ever. */
  lemma VisitDecides(w: World, r: Id, name: Id)
    requires Inv(w) && IsReaper(w, r, Scanning) && name in w.names
    ensures RunFrom(w, Visit(r, name)).Some? <==> Reapable(w, w.names[name])
    ensures PassesChecks(w, Visit(r, name), r, w.names[name]) <==> Reapable(w, w.names[name])
  {
    var t := w.names[name];
    VisitInSteps(w, r, name);
    VisitOpens(w, r, name);
    if w.trees[t].marker.Some? {
      assert LinkOk(w, t, w.trees[t].marker.value);
      VisitChecks(SetReaper(w, r, Reaper(Holding, name, t, w.trees[t].marker.value, w.reapers[r].target)), r);
    }
  }

  /** After these actions reaper `r` is past its checks on tree `t`. */
  ghost predicate PassesChecks(w: World, more: seq<Action>, r: Id, t: Id) {
    var end := RunFrom(w, more);
    end.Some? && IsReaper(end.value, r, Checked) && end.value.reapers[r].tree == t
  }

  /** These actions end with the tree removed. */
  ghost predicate Removes(w: World, more: seq<Action>, t: Id) {
    var end := RunFrom(w, more);
    end.Some? && t in end.value.trees && !end.value.trees[t].present
  }

  /** The owner is gone, and its tree's marker is unlinked or incomplete. */
  ghost predicate Stuck(w: World, o: Id) {
    IsOwner(w, o, Gone) && !Full(w, o)
  }

  /** Only owners write markers, and each only its own. */
  lemma MarkingLeavesItStuck(w: World, o: Id, a: Action)
    requires Inv(w) && Stuck(w, o) && Enabled(w, a) && (a.CreateMarker? || a.WriteMarker?)
    ensures Stuck(Step(w, a), o)
  {
    hide ReaperOk, MarkerOk;
    assert OwnerOk(w, o) && OwnerOk(w, a.o);
    assert w.trees[o].marker.Some? ==> LinkOk(w, o, w.trees[o].marker.value);
    hide Inv;
  }

  lemma OwnersLeaveItStuck(w: World, o: Id, a: Action)
    requires Inv(w) && Stuck(w, o) && Enabled(w, a) && OwnerActs(a)
    ensures Stuck(Step(w, a), o)
  {
    hide ReaperOk, MarkerOk, NamesOk, LinkOk, OwnerOk;
    if a.CreateMarker? || a.WriteMarker? {
      MarkingLeavesItStuck(w, o, a);
    } else {
      hide Inv;
    }
  }

  lemma ReapersLeaveItStuck(w: World, o: Id, a: Action)
    requires Inv(w) && Stuck(w, o) && Enabled(w, a) && !OwnerActs(a)
    ensures Stuck(Step(w, a), o)
  {
    hide NamesOk, ReaperOk, Inv;
  }

  lemma StaysStuck(w: World, o: Id, a: Action)
    requires Inv(w) && Stuck(w, o) && Enabled(w, a)
    ensures Stuck(Step(w, a), o)
  {
    hide Inv, Stuck, Enabled, Step;
    if OwnerActs(a) {
      OwnersLeaveItStuck(w, o, a);
    } else {
      ReapersLeaveItStuck(w, o, a);
    }
  }

  /** However things go on, a gone owner's marker is never linked again and never completed. */
  lemma {:induction false} StuckForEver(w: World, more: seq<Action>, o: Id)
    requires Inv(w) && Stuck(w, o) && RunFrom(w, more).Some?
    ensures Stuck(RunFrom(w, more).value, o)
  {
    hide Inv, Stuck, Enabled, Step;
    if more != [] {
      var before := more[..|more| - 1];
      StuckForEver(w, before, o);
      GoingOnKeepsInvariant(w, before);
      StaysStuck(RunFrom(w, before).value, o, more[|more| - 1]);
    }
  }

  lemma CheckedIsFull(w: World, r: Id)
    requires Inv(w) && IsReaper(w, r, Checked)
    ensures Full(w, w.reapers[r].tree)
  {
    assert ReaperOk(w, r) && MarkerOk(w, w.reapers[r].marker);
  }

  /** A gone owner's full marker is locked by nobody but a reaper. */
  lemma LockedByReaper(w: World, o: Id)
    requires Inv(w) && IsOwner(w, o, Gone) && Full(w, o)
    ensures w.markers[w.trees[o].marker.value].tree == o && !w.markers[w.trees[o].marker.value].lock.HeldByOwner?
    ensures w.trees[o].name in w.names && w.names[w.trees[o].name] == o
  {
    var m := w.trees[o].marker.value;
    assert LinkOk(w, o, m) && MarkerOk(w, m) && OwnerOk(w, o);
  }

  /** Sending away whoever holds the lock, or starting afresh, leaves an idle reaper and a free lock. */
  lemma SendAReaper(w: World, o: Id) returns (r: Id, a: Action)
    requires Inv(w) && IsOwner(w, o, Gone) && Full(w, o)
    ensures Enabled(w, a) && IsReaper(Step(w, a), r, Scanning) && Reapable(Step(w, a), o)
    ensures Step(w, a).names == w.names && Step(w, a).trees == w.trees && Step(w, a).owners == w.owners
  {
    LockedByReaper(w, o);
    var lock := w.markers[w.trees[o].marker.value].lock;
    if lock.HeldByReaper? {
      r := lock.r;
      assert LockOk(w, w.trees[o].marker.value) by { assert MarkerOk(w, w.trees[o].marker.value); }
      a := CloseReaper(r);
    } else {
      r := 0;
      a := if r in w.reapers then CloseReaper(r) else StartReaper(r);
    }
  }

  lemma FullLetsAReaperPass(w: World, o: Id) returns (r: Id, more: seq<Action>)
    requires Inv(w) && IsOwner(w, o, Gone) && Full(w, o)
    ensures PassesChecks(w, more, r, o)
  {
    hide Enabled, Step, Full, Reapable;
    LockedByReaper(w, o);
    var a;
    r, a := SendAReaper(w, o);
    var w1 := Step(w, a);
    ActionKeeps(w, a);
    VisitDecides(w1, r, w.trees[o].name);
    more := [a] + Visit(r, w.trees[o].name);
    OneStep(w, a);
    RunGoesOn(w, [a], Visit(r, w.trees[o].name));
  }

  lemma OneStep(w: World, a: Action)
    ensures RunFrom(w, [a]) == if Enabled(w, a) then Some(Step(w, a)) else None
  {
    hide Enabled, Step;
    assert [a][..0] == [];
    assert RunFrom(w, []) == Some(w);
  }

  /** For a tree whose owner is gone, the run can go on to let some reaper past its checks if and
      only if the marker is linked and complete now. */
  lemma CheckedIffFull(actions: seq<Action>, o: Id)
    requires Run(actions).Some? && IsOwner(Run(actions).value, o, Gone)
    ensures (exists more, r :: PassesChecks(Run(actions).value, more, r, o)) <==> Full(Run(actions).value, o)
  {
    hide Run, Inv, Full;
    var w := Run(actions).value;
    RunKeepsInvariant(actions);
    if Full(w, o) {
      var r, more := FullLetsAReaperPass(w, o);
      assert PassesChecks(w, more, r, o);
    } else {
      forall more, r | PassesChecks(w, more, r, o) ensures false {
        GoingOnKeepsInvariant(w, more);
        StuckForEver(w, more, o);
        CheckedIsFull(RunFrom(w, more).value, r);
      }
    }
  }

  ghost function Removals(r: Id, payload: nat, marker: bool): seq<Action> {
    if payload > 0 then [Reap(r, PayloadFile)] + Removals(r, payload - 1, marker)
    else (if marker then [Reap(r, MarkerFile)] else []) + [Reap(r, Directory)]
  }

  ghost predicate RemovedBy(w: World, more: seq<Action>, t: Id, name: Id) {
    Removes(w, more, t) && name !in RunFrom(w, more).value.names
  }

  lemma StepThenRemoved(w: World, a: Action, more: seq<Action>, t: Id, name: Id)
    requires Enabled(w, a) && RemovedBy(Step(w, a), more, t, name)
    ensures RemovedBy(w, [a] + more, t, name)
  {
    hide Enabled, Step;
    OneStep(w, a);
    RunGoesOn(w, [a], more);
  }

  lemma ReapDirectory(w: World, r: Id)
    requires Inv(w) && IsReaper(w, r, Reaping) && w.reapers[r].tree in w.trees
    requires w.trees[w.reapers[r].tree].marker.None? && w.trees[w.reapers[r].tree].payload == 0
    ensures RemovedBy(w, [Reap(r, Directory)], w.reapers[r].tree, w.reapers[r].name)
  {
    assert ReaperOk(w, r);
    OneStep(w, Reap(r, Directory));
  }

  lemma ReapMarker(w: World, r: Id)
    requires Inv(w) && IsReaper(w, r, Reaping) && w.reapers[r].tree in w.trees
    requires w.trees[w.reapers[r].tree].payload == 0
    ensures RemovedBy(w, Removals(r, 0, w.trees[w.reapers[r].tree].marker.Some?), w.reapers[r].tree, w.reapers[r].name)
  {
    assert ReaperOk(w, r);
    var t := w.reapers[r].tree;
    if w.trees[t].marker.Some? {
      assert LinkOk(w, t, w.trees[t].marker.value);
      ReapKeeps(w, r, MarkerFile);
      ReapDirectory(Step(w, Reap(r, MarkerFile)), r);
      StepThenRemoved(w, Reap(r, MarkerFile), [Reap(r, Directory)], t, w.reapers[r].name);
    } else {
      ReapDirectory(w, r);
      assert Removals(r, 0, false) == [Reap(r, Directory)];
    }
  }

  /** Once it has opened the tree for removal, a reaper left alone removes it entirely. */
  lemma {:induction false} ReapCompletes(w: World, r: Id)
    requires Inv(w) && IsReaper(w, r, Reaping) && w.reapers[r].tree in w.trees
    ensures var t := w.reapers[r].tree;
            RemovedBy(w, Removals(r, w.trees[t].payload, w.trees[t].marker.Some?), t, w.reapers[r].name)
    decreases w.trees[w.reapers[r].tree].payload
  {
    var t := w.reapers[r].tree;
    if w.trees[t].payload > 0 {
      assert ReaperOk(w, r);
      ReapKeeps(w, r, PayloadFile);
      ReapCompletes(Step(w, Reap(r, PayloadFile)), r);
      StepThenRemoved(w, Reap(r, PayloadFile), Removals(r, w.trees[t].payload - 1, w.trees[t].marker.Some?), t, w.reapers[r].name);
    } else {
      ReapMarker(w, r);
    }
  }

  ghost predicate ReapedBy(w: World, r: Id, t: Id) {
    IsReaper(w, r, Reaping) && w.reapers[r].tree == t
  }

  /** A stuck tree that nobody is removing. */
  ghost predicate Leaked(w: World, o: Id) {
    && Stuck(w, o) && w.trees[o].present
    && (forall r :: !ReapedBy(w, r, o))
  }

  lemma OthersStayThere(w: World, o: Id, a: Action)
    requires Inv(w) && Enabled(w, a) && Leaked(w, o)
    ensures o in Step(w, a).trees && Step(w, a).trees[o].present
  {
    hide MarkersOk, Full, LinkOk, MarkerOk;
    if a.Clean? {
      assert OwnerOk(w, a.o);
    }
    if a.Reap? {
      assert ReaperOk(w, a.r);
      assert !ReapedBy(w, a.r, o);
    }
    hide Inv;
  }

  /** A reaper gets to removing a tree from the checks only. */
  lemma ReapingFollowsChecks(w: World, o: Id, a: Action, r: Id)
    requires Enabled(w, a) && ReapedBy(Step(w, a), r, o)
    ensures ReapedBy(w, r, o) || (IsReaper(w, r, Checked) && w.reapers[r].tree == o)
  {
  }

  lemma NobodyStartsReaping(w: World, o: Id, a: Action, r: Id)
    requires Inv(w) && Enabled(w, a) && Leaked(w, o)
    ensures !ReapedBy(Step(w, a), r, o)
  {
    hide Inv, Full, Enabled, Step;
    if ReapedBy(Step(w, a), r, o) {
      ReapingFollowsChecks(w, o, a, r);
      assert !ReapedBy(w, r, o);
      CheckedIsFull(w, r);
    }
  }

  lemma {:induction false} LeakedForEver(w: World, more: seq<Action>, o: Id)
    requires Inv(w) && Leaked(w, o) && RunFrom(w, more).Some?
    ensures Leaked(RunFrom(w, more).value, o)
  {
    if more != [] {
      var before, a := more[..|more| - 1], more[|more| - 1];
      LeakedForEver(w, before, o);
      GoingOnKeepsInvariant(w, before);
      var v := RunFrom(w, before).value;
      StaysStuck(v, o, a);
      OthersStayThere(v, o, a);
      forall r ensures !ReapedBy(Step(v, a), r, o) {
        NobodyStartsReaping(v, o, a, r);
      }
      hide Inv, Stuck, Enabled, Step, ReapedBy;
    }
  }

  lemma CheckedThenRemoved(w: World, r: Id) returns (more: seq<Action>)
    requires Inv(w) && IsReaper(w, r, Checked)
    ensures Removes(w, more, w.reapers[r].tree)
  {
    assert ReaperOk(w, r);
    var a := OpenForReaping(r);
    ActionKeeps(w, a);
    var w1 := Step(w, a);
    var t := w.reapers[r].tree;
    ReapCompletes(w1, r);
    more := [a] + Removals(r, w1.trees[t].payload, w1.trees[t].marker.Some?);
    StepThenRemoved(w, a, more[1..], t, w.reapers[r].name);
  }

  lemma FullIsRemovable(w: World, o: Id) returns (more: seq<Action>)
    requires Inv(w) && IsOwner(w, o, Gone) && Full(w, o)
    ensures Removes(w, more, o)
  {
    hide Inv, Full;
    var r, first := FullLetsAReaperPass(w, o);
    GoingOnKeepsInvariant(w, first);
    var rest := CheckedThenRemoved(RunFrom(w, first).value, r);
    RunGoesOn(w, first, rest);
    more := first + rest;
  }

  /** What is left of a gone owner's tree can still be removed, by some continuation, if and only
      if its marker is linked and complete or a reaper is at work on it already. */
  lemma RemovableIff(w: World, o: Id)
    requires Inv(w) && IsOwner(w, o, Gone) && w.trees[o].present
    ensures (exists more :: Removes(w, more, o)) <==> Full(w, o) || (exists r :: ReapedBy(w, r, o))
  {
    hide Inv, Full;
    if Full(w, o) {
      var more := FullIsRemovable(w, o);
      assert Removes(w, more, o);
    } else if r :| ReapedBy(w, r, o) {
      ReapCompletes(w, r);
      assert Removes(w, Removals(r, w.trees[o].payload, w.trees[o].marker.Some?), o);
    } else {
      forall more | Removes(w, more, o) ensures false {
        LeakedForEver(w, more, o);
      }
    }
  }

  lemma NobodyReapsTheLiving(w: World, o: Id, r: Id)
    requires Inv(w) && Enabled(w, CrashOwner(o))
    ensures !ReapedBy(Step(w, CrashOwner(o)), r, o)
  {
    assert r in w.reapers ==> ReaperOk(w, r);
  }

  /** A death takes nothing from the marker, and the lock with it. */
  lemma DeathKeepsMarker(w: World, o: Id)
    requires Inv(w) && Enabled(w, CrashOwner(o))
    ensures var w' := Step(w, CrashOwner(o));
            IsOwner(w', o, Gone) && (Full(w', o) <==> Full(w, o)) && (Reapable(w', o) <==> Full(w, o)) && w'.trees == w.trees
  {
    assert OwnerOk(w, o);
    if w.trees[o].marker.Some? {
      var m := w.trees[o].marker.value;
      assert LinkOk(w, o, m) && MarkerOk(w, m);
    }
    hide Inv, NamesOk, ReaperOk;
  }

  /** A process killed at any stage leaves a tree that can be removed if and only if its marker
      was linked and complete at that moment; then the next undisturbed visit passes. */
  lemma KilledTreeIsRemovable(actions: seq<Action>, o: Id)
    requires Run(actions).Some? && Enabled(Run(actions).value, CrashOwner(o)) && Run(actions).value.trees[o].present
    ensures var w := Run(actions).value;
            var w' := Step(w, CrashOwner(o));
            && ((exists more :: Removes(w', more, o)) <==> Full(w, o))
            && (Reapable(w', o) <==> Full(w, o))
  {
    var w := Run(actions).value;
    RunKeepsInvariant(actions);
    ActionKeeps(w, CrashOwner(o));
    DeathKeepsMarker(w, o);
    forall r ensures !ReapedBy(Step(w, CrashOwner(o)), r, o) {
      NobodyReapsTheLiving(w, o, r);
    }
    hide Inv, Enabled, Step, Full, Reapable, Run;
    RemovableIff(Step(w, CrashOwner(o)), o);
  }

  lemma StoppingKeepsMarker(w: World, r: Id)
    requires Inv(w) && IsReaper(w, r, Reaping)
    ensures var w' := Step(w, CloseReaper(r));
            var t := w.reapers[r].tree;
            IsOwner(w', t, Gone) && w'.trees == w.trees && w'.trees[t].present && (Full(w', t) <==> w.trees[t].marker.Some?)
  {
    var t := w.reapers[r].tree;
    assert ReaperOk(w, r) && MarkerOk(w, w.reapers[r].marker);
    if w.trees[t].marker.Some? {
      assert LinkOk(w, t, w.trees[t].marker.value) && MarkerOk(w, w.trees[t].marker.value);
    }
    hide Inv, NamesOk, OwnerOk;
  }

  lemma NobodyElseReaps(w: World, r: Id, q: Id)
    requires Inv(w) && IsReaper(w, r, Reaping)
    ensures !ReapedBy(Step(w, CloseReaper(r)), q, w.reapers[r].tree)
  {
    ReaperIsAlone(w, r);
    hide Inv;
  }

  /** A reaper that stops halfway leaves a tree that can be removed if and only if it had not
      unlinked the marker yet. */
  lemma StoppedReaperLeavesRemovable(actions: seq<Action>, r: Id)
    requires Run(actions).Some? && IsReaper(Run(actions).value, r, Reaping)
    ensures var w := Run(actions).value;
            var t := w.reapers[r].tree;
            && t in w.trees
            && ((exists more :: Removes(Step(w, CloseReaper(r)), more, t)) <==> w.trees[t].marker.Some?)
  {
    var w := Run(actions).value;
    RunKeepsInvariant(actions);
    var t := w.reapers[r].tree;
    ActionKeeps(w, CloseReaper(r));
    StoppingKeepsMarker(w, r);
    forall q ensures !ReapedBy(Step(w, CloseReaper(r)), q, t) {
      NobodyElseReaps(w, r, q);
    }
    hide Inv, Enabled, Step, Full, Run;
    RemovableIff(Step(w, CloseReaper(r)), t);
  }

  // ----- A removal cut short

  lemma OneMore(actions: seq<Action>, w: World, a: Action, w': World)
    requires Run(actions) == Some(w) && Enabled(w, a) && Step(w, a) == w'
    ensures Run(actions + [a]) == Some(w')
  {
    hide Enabled, Step;
    assert (actions + [a])[..|actions + [a]| - 1] == actions;
  }

  /** A world of one process and its tree. */
  ghost function Alone(o: Id, tree: Tree, m: Id, marker: Marker, owner: Owner): World {
    World(map[tree.name := o], map[o := tree], map[m := marker], map[o := owner], map[])
  }

  ghost function Downloads(o: Id, name: Id, m: Id): seq<Action> {
    [Mkdir(o, name)] + [CreateMarker(o, m)] + [TakeLease(o)] + [WriteMarker(o, |MARKER_BYTES|)] + [Download(o)]
  }

  ghost function Cleans(o: Id, name: Id, m: Id): seq<Action> {
    Downloads(o, name, m) + [Leave(o)] + [OpenForCleanup(o)]
  }

  ghost function KilledInCleanup(o: Id, name: Id, m: Id): seq<Action> {
    Cleans(o, name, m) + [Clean(o, MarkerFile)] + [CrashOwner(o)]
  }

  lemma Overwritten(k: Id)
    ensures forall x: Tree, y: Tree :: map[k := x][k := y] == map[k := y]
    ensures forall x: Marker, y: Marker :: map[k := x][k := y] == map[k := y]
    ensures forall x: Owner, y: Owner :: map[k := x][k := y] == map[k := y]
  {
  }

  lemma DownloadsRun(o: Id, name: Id, m: Id)
    ensures Run(Downloads(o, name, m))
         == Some(Alone(o, Tree(name, true, Some(m), 1), m, Marker(o, MARKER_BYTES, true, HeldByOwner(o)), Owner(Leased, Some(m), o)))
  {
    var t, f := Tree(name, true, Some(m), 0), Marker(o, "", true, Nobody);
    Overwritten(o);
    Overwritten(m);
    OneStep(Start(), Mkdir(o, name));
    hide RunFrom, Run;
    var d1 := [Mkdir(o, name)];
    var w1 := World(map[name := o], map[o := t.(marker := None)], map[], map[o := Owner(Made, None, o)], map[]);
    assert Run(d1) == Some(w1);
    var w2 := Alone(o, t, m, f, Owner(Marked, Some(m), o));
    OneMore(d1, w1, CreateMarker(o, m), w2);
    var d2 := d1 + [CreateMarker(o, m)];
    var w3 := Alone(o, t, m, f.(lock := HeldByOwner(o)), Owner(Leased, Some(m), o));
    OneMore(d2, w2, TakeLease(o), w3);
    var d3 := d2 + [TakeLease(o)];
    var w4 := Alone(o, t, m, Marker(o, MARKER_BYTES, true, HeldByOwner(o)), Owner(Leased, Some(m), o));
    assert MARKER_BYTES[..|f.content| + |MARKER_BYTES|] == MARKER_BYTES;
    OneMore(d3, w3, WriteMarker(o, |MARKER_BYTES|), w4);
    OneMore(d3 + [WriteMarker(o, |MARKER_BYTES|)], w4, Download(o),
            Alone(o, t.(payload := 1), m, Marker(o, MARKER_BYTES, true, HeldByOwner(o)), Owner(Leased, Some(m), o)));
  }

  lemma CleansRun(o: Id, name: Id, m: Id)
    ensures Run(Cleans(o, name, m))
         == Some(Alone(o, Tree(name, true, Some(m), 1), m, Marker(o, MARKER_BYTES, true, HeldByOwner(o)), Owner(Removing, Some(m), o)))
  {
    DownloadsRun(o, name, m);
    hide RunFrom, Run, Downloads;
    Overwritten(o);
    var t, f := Tree(name, true, Some(m), 1), Marker(o, MARKER_BYTES, true, HeldByOwner(o));
    var d := Downloads(o, name, m);
    var w := Alone(o, t, m, f, Owner(Leaving, Some(m), o));
    OneMore(d, Alone(o, t, m, f, Owner(Leased, Some(m), o)), Leave(o), w);
    OneMore(d + [Leave(o)], w, OpenForCleanup(o), Alone(o, t, m, f, Owner(Removing, Some(m), o)));
  }

  lemma KilledInCleanupRuns(o: Id, name: Id, m: Id)
    ensures Run(KilledInCleanup(o, name, m))
         == Some(Alone(o, Tree(name, true, None, 1), m, Marker(o, MARKER_BYTES, false, Nobody), Owner(Gone, Some(m), o)))
  {
    CleansRun(o, name, m);
    hide RunFrom, Run, Cleans;
    Overwritten(o);
    Overwritten(m);
    var t, f := Tree(name, true, Some(m), 1), Marker(o, MARKER_BYTES, true, HeldByOwner(o));
    var c := Cleans(o, name, m);
    var w := Alone(o, t.(marker := None), m, f.(linked := false), Owner(Removing, Some(m), o));
    OneMore(c, Alone(o, t, m, f, Owner(Removing, Some(m), o)), Clean(o, MarkerFile), w);
    OneMore(c + [Clean(o, MarkerFile)], w, CrashOwner(o),
            Alone(o, t.(marker := None), m, Marker(o, MARKER_BYTES, false, Nobody), Owner(Gone, Some(m), o)));
  }

  /** A download whose marker was complete, killed while its directory was being removed, after
      the marker and before the rest: the tree stays for ever, with the file that was left. */
  lemma CleanupCutShort(o: Id, name: Id, m: Id)
    ensures Run(KilledInCleanup(o, name, m)).Some?
    ensures var w := Run(KilledInCleanup(o, name, m)).value;
            && IsOwner(w, o, Gone) && w.trees[o] == Tree(name, true, None, 1) && w.names == map[name := o]
            && (forall more :: !Removes(w, more, o))
  {
    KilledInCleanupRuns(o, name, m);
    RunKeepsInvariant(KilledInCleanup(o, name, m));
    hide RunFrom, Run, Inv;
    var w := Run(KilledInCleanup(o, name, m)).value;
    RemovableIff(w, o);
    forall r ensures !ReapedBy(w, r, o) {
    }
  }
}
