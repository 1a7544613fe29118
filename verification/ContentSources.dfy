/** nir/model_content.py: the two forms a model comes in, a directory and a tar archive. */
module ContentSources {
  import opened Ordering
  import opened Results
  import opened ModelContent

  const MAX_ENTRIES := 4096

  /** The manifest's name, its JSON reading (None where it raises) and its vocabulary. */
  datatype Form = Form(vocabulary: Vocabulary, json: seq<Byte> -> Option<RawManifest>)

  /** "nir-model-content.json" */
  function ManifestName(): (t: Text)
    ensures |t| == 22 && forall i | 0 <= i < 22 :: t[i] != SLASH
  {
    [110, 105, 114, 45, 109, 111, 100, 101, 108, 45, 99, 111, 110, 116, 101, 110, 116, 46, 106, 115, 111, 110]
  }

  ghost function ReadManifest(f: Form, content: seq<Byte>): Option<RawManifest> {
    if content == [] || |content| > MAX_MANIFEST_BYTES then None
    else
      match f.json(content)
      case None => None
      case Some(raw) => Manifest(f.vocabulary, raw)
  }

  // ----- What either form commits to, given its files

  ghost function DirectoryContent(f: Form, files: map<Text, FileData>): Option<Canonical>
    requires GoodVocabulary(f.vocabulary)
  {
    if ManifestName() !in files then None
    else
      match ReadManifest(f, files[ManifestName()].bytes)
      case None => None
      case Some(m) =>
        ReadIsParsed(f, files[ManifestName()].bytes);
        Canonicalized(m, files - {ManifestName()})
  }

  ghost function Listed(m: RawManifest, files: map<Text, FileData>): map<Text, FileData> {
    map p | p in files && Lists(m, p) :: files[p]
  }

  ghost predicate Unlisted(m: RawManifest, files: map<Text, FileData>) {
    exists p | p in files :: p != ManifestName() && !Lists(m, p)
  }

  ghost function TarContent(f: Form, files: map<Text, FileData>): Option<Canonical>
    requires GoodVocabulary(f.vocabulary)
  {
    if ManifestName() !in files then None
    else
      match ReadManifest(f, files[ManifestName()].bytes)
      case None => None
      case Some(m) =>
        ReadIsParsed(f, files[ManifestName()].bytes);
        if Unlisted(m, files) then None
        else Canonicalized(m, Listed(m, files))
  }

  lemma ReadIsParsed(f: Form, content: seq<Byte>)
    requires GoodVocabulary(f.vocabulary) && ReadManifest(f, content).Some?
    ensures Parsed(ReadManifest(f, content).value)
  {
    ParsedManifest(f.vocabulary, f.json(content).value);
  }

  lemma WithoutTheManifest(m: RawManifest, files: map<Text, FileData>)
    requires !Lists(m, ManifestName()) && !Unlisted(m, files)
    ensures Listed(m, files) == files - {ManifestName()}
  {
  }

  lemma UnlistedIsRefused(m: RawManifest, files: map<Text, FileData>)
    requires Unlisted(m, files) || Lists(m, ManifestName())
    ensures !FilesOk(m, files - {ManifestName()})
  {
    hide Lists, EntryOk, TotalSize;
    if Unlisted(m, files) {
      var p :| p in files && p != ManifestName() && !Lists(m, p);
      assert p in files - {ManifestName()};
    } else {
      assert ManifestName() !in files - {ManifestName()};
    }
  }

  /** Once the files are found, they decide the commitment in whichever form they came, with one
      exception: an archive may list its own manifest as a file, a directory may not. */
  lemma FormsAgree(f: Form, files: map<Text, FileData>)
    requires GoodVocabulary(f.vocabulary)
    ensures DirectoryContent(f, files).Some? ==> TarContent(f, files) == DirectoryContent(f, files)
    ensures TarContent(f, files).Some? ==>
              (DirectoryContent(f, files).Some? <==> !Lists(ReadManifest(f, files[ManifestName()].bytes).value, ManifestName()))
  {
    hide ReadManifest, Parsed, FilesOk, Stream, Lists, Listed;
    if ManifestName() in files && ReadManifest(f, files[ManifestName()].bytes).Some? {
      var m := ReadManifest(f, files[ManifestName()].bytes).value;
      ReadIsParsed(f, files[ManifestName()].bytes);
      if Unlisted(m, files) || Lists(m, ManifestName()) {
        UnlistedIsRefused(m, files);
      } else {
        WithoutTheManifest(m, files);
      }
    }
  }

  // ----- A directory

  datatype Node = FileNode(data: FileData) | DirNode(children: seq<Child>) | OtherNode

  datatype Child = Child(name: Text, node: Node)

  /** One directory entry met on the way, with the depth of the directory it is in. */
  datatype Item = Item(path: Text, node: Node, depth: nat)

  function Join(prefix: Text, name: Text): Text {
    if prefix == [] then name else prefix + [SLASH] + name
  }

  /** Everything under these children, each directory followed by its contents. */
  function Listing(children: seq<Child>, prefix: Text, depth: nat): seq<Item>
    decreases children, 1
  {
    if children == [] then []
    else Listing(children[..|children| - 1], prefix, depth) + ItemsOf(children[|children| - 1], prefix, depth)
  }

  function ItemsOf(c: Child, prefix: Text, depth: nat): seq<Item>
    decreases c, 0
  {
    [Item(Join(prefix, c.name), c.node, depth)]
    + if c.node.DirNode? then Listing(c.node.children, Join(prefix, c.name), depth + 1) else []
  }

  ghost predicate ItemOk(i: Item) {
    CanonicalPath(i.path) && !i.node.OtherNode? && (i.node.DirNode? ==> i.depth < MAX_DEPTH)
  }

  ghost function Folds(items: seq<Item>): set<Text> {
    set i | i in items :: Fold(i.path)
  }

  function FilesIn(items: seq<Item>): map<Text, FileData> {
    if items == [] then map[]
    else
      var last := items[|items| - 1];
      var before := FilesIn(items[..|items| - 1]);
      if last.node.FileNode? then before[last.path := last.node.data] else before
  }

  /** What a scan demands of the items it meets, after `count` others with these folded paths. */
  ghost predicate Scannable(items: seq<Item>, count: nat, collisions: set<Text>) {
    && count + |items| <= MAX_ENTRIES
    && (forall i | i in items :: ItemOk(i))
    && (forall i, j | 0 <= i < j < |items| :: Fold(items[i].path) != Fold(items[j].path))
    && (forall i | i in items :: Fold(i.path) !in collisions)
  }

  lemma FoldsAppend(a: seq<Item>, b: seq<Item>)
    ensures Folds(a + b) == Folds(a) + Folds(b)
  {
    forall i | i in a || i in b ensures i in a + b {
    }
  }

  /** Scanning a list is scanning its first part and then the rest. */
  lemma ScanSplits(a: seq<Item>, b: seq<Item>, count: nat, collisions: set<Text>)
    ensures Scannable(a + b, count, collisions) <==> Scannable(a, count, collisions) && Scannable(b, count + |a|, collisions + Folds(a))
  {
    hide Fold, ItemOk;
    var all := a + b;
    if Scannable(all, count, collisions) {
      forall i, j | 0 <= i < j < |a| ensures Fold(a[i].path) != Fold(a[j].path) {
        assert all[i] == a[i] && all[j] == a[j];
      }
      forall i, j | 0 <= i < j < |b| ensures Fold(b[i].path) != Fold(b[j].path) {
        assert all[|a| + i] == b[i] && all[|a| + j] == b[j];
      }
      forall y | y in b ensures Fold(y.path) !in Folds(a) {
        var j :| 0 <= j < |b| && b[j] == y;
        forall x | x in a ensures Fold(x.path) != Fold(y.path) {
          var i :| 0 <= i < |a| && a[i] == x;
          assert all[i] == x && all[|a| + j] == y;
        }
      }
      assert (forall x | x in a :: x in all) && forall y | y in b :: y in all;
    }
    if Scannable(a, count, collisions) && Scannable(b, count + |a|, collisions + Folds(a)) {
      forall i, j | 0 <= i < j < |all| ensures Fold(all[i].path) != Fold(all[j].path) {
        if i < |a| <= j {
          assert a[i] in a && b[j - |a|] in b;
          assert Fold(a[i].path) in Folds(a);
        }
      }
    }
  }

  lemma {:induction false} FilesInAppend(a: seq<Item>, b: seq<Item>)
    ensures FilesIn(a + b) == FilesIn(a) + FilesIn(b)
  {
    if b == [] {
      assert a + b == a;
    } else {
      var init := b[..|b| - 1];
      FilesInAppend(a, init);
      assert (a + b)[..|a + b| - 1] == a + init;
    }
  }

  /** The scan's running state. */
  class Scanner {
    var entries: map<Text, FileData>
    var collisions: set<Text>
    var count: nat

    constructor ()
      ensures entries == map[] && collisions == {} && count == 0
    {
      entries := map[];
      collisions := {};
      count := 0;
    }

    ghost predicate Holds(before: map<Text, FileData>, seen: set<Text>, met: nat, items: seq<Item>)
      reads this
    {
      entries == before + FilesIn(items) && collisions == seen + Folds(items) && count == met + |items|
    }

    /** Counting one entry, and checking its path and kind; a directory is entered afterwards. */
    method Meet(path: Text, node: Node, ghost depth: nat) returns (ok: bool)
      modifies this
      ensures ok <==> EntryFine(path, node, old(count), old(collisions))
      ensures ok ==> count <= MAX_ENTRIES && Holds(old(entries), old(collisions), old(count), [Item(path, node, depth)])
    {
      hide CanonicalPath, Fold;
      count := count + 1;
      if count > MAX_ENTRIES || !CanonicalPath(path) || Fold(path) in collisions || node.OtherNode? {
        return false;
      }
      collisions := collisions + {Fold(path)};
      if node.FileNode? {
        entries := entries[path := node.data];
      }
      OneItem(path, node, depth);
      return true;
    }

    method Visit(children: seq<Child>, prefix: Text, depth: nat) returns (ok: bool)
      requires count <= MAX_ENTRIES
      modifies this
      ensures ok <==> depth <= MAX_DEPTH && Scannable(Listing(children, prefix, depth), old(count), old(collisions))
      ensures ok ==> count <= MAX_ENTRIES && Holds(old(entries), old(collisions), old(count), Listing(children, prefix, depth))
      decreases children, 1
    {
      hide Scannable, FilesIn, Folds, ItemsOf;
      if depth > MAX_DEPTH {
        return false;
      }
      NothingMet(count, collisions);
      for i := 0 to |children|
        invariant count <= MAX_ENTRIES && Scannable(Listing(children[..i], prefix, depth), old(count), old(collisions))
        invariant Holds(old(entries), old(collisions), old(count), Listing(children[..i], prefix, depth))
      {
        var c := children[i];
        ghost var done := Listing(children[..i], prefix, depth);
        ghost var some := ItemsOf(c, prefix, depth);
        assert children[..i + 1][..i] == children[..i];
        ScanSplits(done, some, old(count), old(collisions));
        var good := VisitChild(c, prefix, depth);
        if !good {
          NotScannable(children, prefix, depth, i + 1, old(count), old(collisions));
          return false;
        }
        FoldsAppend(done, some);
        FilesInAppend(done, some);
      }
      assert children[..|children|] == children;
      return true;
    }

    method VisitChild(c: Child, prefix: Text, depth: nat) returns (ok: bool)
      requires depth <= MAX_DEPTH && count <= MAX_ENTRIES
      modifies this
      ensures ok <==> Scannable(ItemsOf(c, prefix, depth), old(count), old(collisions))
      ensures ok ==> count <= MAX_ENTRIES && Holds(old(entries), old(collisions), old(count), ItemsOf(c, prefix, depth))
      decreases c, 0
    {
      hide Scannable, FilesIn, Folds, Listing;
      var path := Join(prefix, c.name);
      ghost var item := Item(path, c.node, depth);
      OneScannable(item, count, collisions);
      var good := Meet(path, c.node, depth);
      if c.node.DirNode? {
        ghost var below := Listing(c.node.children, path, depth + 1);
        ScanSplits([item], below, old(count), old(collisions));
        if !good {
          return false;
        }
        ok := Visit(c.node.children, path, depth + 1);
        if ok {
          FoldsAppend([item], below);
          FilesInAppend([item], below);
        }
      } else {
        assert ItemsOf(c, prefix, depth) == [item];
        ok := good;
      }
    }
  }

  ghost predicate EntryFine(path: Text, node: Node, count: nat, collisions: set<Text>) {
    count + 1 <= MAX_ENTRIES && CanonicalPath(path) && !node.OtherNode? && Fold(path) !in collisions
  }

  lemma OneScannable(item: Item, count: nat, collisions: set<Text>)
    ensures Scannable([item], count, collisions)
        <==> EntryFine(item.path, item.node, count, collisions) && (item.node.DirNode? ==> item.depth < MAX_DEPTH)
  {
    hide CanonicalPath, Fold;
    assert [item][0] in [item];
  }

  lemma {:induction false} NotScannable(children: seq<Child>, prefix: Text, depth: nat, n: nat, count: nat, collisions: set<Text>)
    requires n <= |children| && !Scannable(Listing(children[..n], prefix, depth), count, collisions)
    ensures !Scannable(Listing(children, prefix, depth), count, collisions)
    decreases |children|
  {
    hide Scannable, ItemsOf;
    if n == |children| {
      assert children[..n] == children;
    } else {
      var init := children[..|children| - 1];
      assert init[..n] == children[..n];
      NotScannable(init, prefix, depth, n, count, collisions);
      ScanSplits(Listing(init, prefix, depth), ItemsOf(children[|children| - 1], prefix, depth), count, collisions);
    }
  }

  lemma OneItem(path: Text, node: Node, depth: nat)
    ensures FilesIn([Item(path, node, depth)]) == if node.FileNode? then map[path := node.data] else map[]
    ensures Folds([Item(path, node, depth)]) == {Fold(path)}
  {
    var items := [Item(path, node, depth)];
    assert items[..0] == [];
    assert items[0] in items;
  }

  lemma NothingMet(count: nat, collisions: set<Text>)
    ensures count <= MAX_ENTRIES ==> Scannable([], count, collisions)
    ensures FilesIn([]) == map[] && Folds([]) == {}
  {
  }

  ghost function DirectoryForm(f: Form, children: seq<Child>): Option<Canonical>
    requires GoodVocabulary(f.vocabulary)
  {
    if !Scannable(Listing(children, [], 1), 0, {}) then None
    else DirectoryContent(f, FilesIn(Listing(children, [], 1)))
  }

  method ParseContent(f: Form, content: seq<Byte>) returns (m: Option<RawManifest>)
    requires GoodVocabulary(f.vocabulary)
    ensures m == ReadManifest(f, content)
    ensures m.Some? ==> Parsed(m.value)
  {
    hide Manifest, Parsed;
    if content == [] || |content| > MAX_MANIFEST_BYTES {
      return None;
    }
    var value := f.json(content);
    if value.None? {
      return None;
    }
    m := ParseManifest(f.vocabulary, value.value);
    if m.Some? {
      ReadIsParsed(f, content);
    }
  }

  method CanonicalizeDirectory(f: Form, children: seq<Child>, cuts: Text -> seq<nat>) returns (r: Option<Canonical>)
    requires GoodVocabulary(f.vocabulary)
    ensures r == DirectoryForm(f, children)
  {
    hide ReadManifest, Parsed, Canonicalized, Scannable, FilesIn, Folds, Listing;
    var scanner := new Scanner();
    var ok := scanner.Visit(children, [], 1);
    if !ok {
      return None;
    }
    var entries := scanner.entries;
    assert entries == FilesIn(Listing(children, [], 1));
    if ManifestName() !in entries {
      return None;
    }
    var m := ParseContent(f, entries[ManifestName()].bytes);
    if m.None? {
      return None;
    }
    r := Commit(m.value, entries - {ManifestName()}, cuts);
  }

  ghost predicate HasFile(items: seq<Item>, p: Text, data: FileData) {
    exists i :: i in items && i.path == p && i.node == FileNode(data)
  }

  lemma HasFileNext(items: seq<Item>, last: Item, p: Text, data: FileData)
    ensures HasFile(items + [last], p, data) <==> HasFile(items, p, data) || (last.path == p && last.node == FileNode(data))
  {
    if i :| i in items && i.path == p && i.node == FileNode(data) {
      assert i in items + [last];
    }
    if last.path == p && last.node == FileNode(data) {
      assert last in items + [last];
    }
  }

  lemma NoOtherFile(items: seq<Item>, last: Item, data: FileData)
    requires forall i, j | 0 <= i < j < |items + [last]| :: Fold((items + [last])[i].path) != Fold((items + [last])[j].path)
    ensures !HasFile(items, last.path, data)
  {
    hide Fold;
    if i :| i in items && i.path == last.path {
      var k :| 0 <= k < |items| && items[k] == i;
      assert (items + [last])[k] == i && (items + [last])[|items|] == last;
    }
  }

  lemma {:induction false} FilesInHas(items: seq<Item>)
    requires forall i, j | 0 <= i < j < |items| :: Fold(items[i].path) != Fold(items[j].path)
    ensures forall p, data :: p in FilesIn(items) && FilesIn(items)[p] == data <==> HasFile(items, p, data)
  {
    hide Fold, HasFile;
    if items == [] {
      NoFilesIn();
    } else {
      var init, last := items[..|items| - 1], items[|items| - 1];
      FilesInHas(init);
      assert items == init + [last];
      forall p, data ensures p in FilesIn(items) && FilesIn(items)[p] == data <==> HasFile(items, p, data) {
        HasFileNext(init, last, p, data);
        NoOtherFile(init, last, data);
      }
    }
  }

  lemma NoFilesIn()
    ensures forall p, data :: !HasFile([], p, data)
  {
  }

  // ----- A tar archive

  datatype Kind = RegularMember | DirectoryMember | OtherMember

  datatype Member = Member(name: Text, kind: Kind, data: FileData)

  /** name.rstrip("/") */
  function Clean(name: Text): Text {
    if name != [] && name[|name| - 1] == SLASH then Clean(name[..|name| - 1]) else name
  }

  predicate EndsWith(t: Text, suffix: Text) {
    |t| >= |suffix| && t[|t| - |suffix|..] == suffix
  }

  predicate IsManifest(path: Text) {
    path == ManifestName() || EndsWith(path, [SLASH] + ManifestName())
  }

  /** The wrapper directory of a manifest at this path. */
  function PrefixOf(manifest: Text): Text
    requires |manifest| >= 22
  {
    Clean(manifest[..|manifest| - 22])
  }

  /** A path without its wrapper; None if it is outside. */
  function Relative(prefix: Text, path: Text): Option<Text> {
    if prefix == [] then Some(path)
    else if path == prefix then Some([])
    else if |path| > |prefix| && path[..|prefix| + 1] == prefix + [SLASH] then Some(path[|prefix| + 1..])
    else None
  }

  function NamesOf(members: seq<Member>): seq<Text> {
    Map((m: Member) => m.name, members)
  }

  ghost predicate OneManifest(names: seq<Text>, k: nat) {
    k < |names| && forall i | 0 <= i < |names| :: IsManifest(Clean(names[i])) <==> i == k
  }

  ghost predicate Strippable(names: seq<Text>, k: nat) {
    && (forall i | 0 <= i < |names| :: CanonicalPath(Clean(names[i])))
    && OneManifest(names, k)
    && (forall i | 0 <= i < |names| :: Relative(PrefixOf(Clean(names[k])), Clean(names[i])).Some?)
    && (forall i, j | 0 <= i < j < |names| ::
          var a, b := Relative(PrefixOf(Clean(names[k])), Clean(names[i])).value, Relative(PrefixOf(Clean(names[k])), Clean(names[j])).value;
          a == [] || b == [] || Fold(a) != Fold(b))
  }

  ghost function RelativeAt(names: seq<Text>, k: nat, i: nat): Text
    requires Strippable(names, k) && i < |names|
  {
    Relative(PrefixOf(Clean(names[k])), Clean(names[i])).value
  }

  /** The regular files of an archive by their path inside the wrapper. */
  ghost predicate AreFiles(files: map<Text, FileData>, members: seq<Member>, k: nat)
    requires Strippable(NamesOf(members), k)
  {
    && (forall i | 0 <= i < |members| && members[i].kind == RegularMember && RelativeAt(NamesOf(members), k, i) != [] ::
          RelativeAt(NamesOf(members), k, i) in files && files[RelativeAt(NamesOf(members), k, i)] == members[i].data)
    && (forall p | p in files :: exists i :: 0 <= i < |members| && members[i].kind == RegularMember && RelativeAt(NamesOf(members), k, i) == p && p != [])
  }

  // ----- Stripping the wrapper

  ghost predicate IsMapping(mapping: map<Text, Text>, names: seq<Text>, k: nat, n: nat)
    requires Strippable(names, k) && n <= |names|
  {
    && (forall i | 0 <= i < n && RelativeAt(names, k, i) != [] :: names[i] in mapping && mapping[names[i]] == RelativeAt(names, k, i))
    && (forall name | name in mapping :: exists i :: 0 <= i < n && names[i] == name && RelativeAt(names, k, i) != [])
  }

  /** The index of the only manifest, or the number of names if there is none or more than one. */
  method FindManifest(names: seq<Text>) returns (k: nat)
    ensures k < |names| ==> OneManifest(names, k)
    ensures k >= |names| ==> forall j: nat :: !OneManifest(names, j)
  {
    hide IsManifest, Clean;
    k := |names|;
    for i := 0 to |names|
      invariant k == |names| ==> forall j | 0 <= j < i :: !IsManifest(Clean(names[j]))
      invariant k < |names| ==> k < i && forall j | 0 <= j < i :: IsManifest(Clean(names[j])) <==> j == k
      invariant k <= |names|
    {
      if IsManifest(Clean(names[i])) {
        if k < |names| {
          TwoManifests(names, k, i);
          return |names|;
        }
        k := i;
      }
    }
    if k == |names| {
      NoManifest(names);
    }
  }

  lemma NoManifest(names: seq<Text>)
    requires forall i | 0 <= i < |names| :: !IsManifest(Clean(names[i]))
    ensures forall k: nat :: !OneManifest(names, k)
  {
    hide IsManifest, Clean;
    forall k: nat ensures !OneManifest(names, k) {
      if k < |names| {
        assert !IsManifest(Clean(names[k]));
      }
    }
  }

  lemma TwoManifests(names: seq<Text>, i: nat, j: nat)
    requires i < j < |names| && IsManifest(Clean(names[i])) && IsManifest(Clean(names[j]))
    ensures forall k: nat :: !OneManifest(names, k)
  {
    hide IsManifest, Clean;
    forall k: nat ensures !OneManifest(names, k) {
      if k == i {
        assert IsManifest(Clean(names[j])) && j != k;
      } else {
        assert IsManifest(Clean(names[i])) && i != k;
      }
    }
  }

  method StripWrapper(names: seq<Text>) returns (r: Option<map<Text, Text>>, k: nat)
    ensures r.Some? ==> Strippable(names, k) && IsMapping(r.value, names, k, |names|)
    ensures r.None? ==> forall j: nat :: !Strippable(names, j)
  {
    hide CanonicalPath, Clean, IsManifest, Fold, Relative, OneManifest;
    k := FindManifest(names);
    if k >= |names| || exists i | 0 <= i < |names| :: !CanonicalPath(Clean(names[i])) {
      return None, 0;
    }
    ManifestIsLong(Clean(names[k]), names, k);
    var prefix := PrefixOf(Clean(names[k]));
    var folded: set<Text> := {};
    for i := 0 to |names|
      invariant forall j | 0 <= j < i :: Relative(prefix, Clean(names[j])).Some?
      invariant forall t :: t in folded <==> exists j :: 0 <= j < i && Relative(prefix, Clean(names[j])).value != [] && Fold(Relative(prefix, Clean(names[j])).value) == t
      invariant forall j, l | 0 <= j < l < i :: Apart(prefix, names[j], names[l])
    {
      var relative := Relative(prefix, Clean(names[i]));
      if relative.None? {
        OnlyOneManifest(names, k);
        return None, 0;
      }
      if relative.value != [] {
        if Fold(relative.value) in folded {
          OnlyOneManifest(names, k);
          var j :| 0 <= j < i && Relative(prefix, Clean(names[j])).value != [] && Fold(Relative(prefix, Clean(names[j])).value) == Fold(relative.value);
          assert !Apart(prefix, names[j], names[i]);
          return None, 0;
        }
        folded := folded + {Fold(relative.value)};
      }
    }
    var mapping := MapNames(names, k);
    return Some(mapping), k;
  }

  /** Two names do not collide inside the wrapper. */
  ghost predicate Apart(prefix: Text, a: Text, b: Text) {
    Relative(prefix, Clean(a)).Some? && Relative(prefix, Clean(b)).Some? ==>
      Relative(prefix, Clean(a)).value == [] || Relative(prefix, Clean(b)).value == []
      || Fold(Relative(prefix, Clean(a)).value) != Fold(Relative(prefix, Clean(b)).value)
  }

  lemma OnlyOneManifest(names: seq<Text>, k: nat)
    requires OneManifest(names, k)
    ensures forall j: nat :: Strippable(names, j) ==> j == k
  {
    hide IsManifest, Clean, CanonicalPath, Fold, Relative;
    forall j: nat | Strippable(names, j) ensures j == k {
      assert IsManifest(Clean(names[k]));
    }
  }

  lemma ManifestIsLong(path: Text, names: seq<Text>, k: nat)
    requires OneManifest(names, k) && path == Clean(names[k])
    ensures IsManifest(path) && |path| >= 22
  {
    hide Clean;
  }

  method MapNames(names: seq<Text>, k: nat) returns (mapping: map<Text, Text>)
    requires Strippable(names, k)
    ensures IsMapping(mapping, names, k, |names|)
  {
    hide Strippable, Relative, Clean, PrefixOf;
    PrefixIsDefined(names, k);
    var prefix := PrefixOf(Clean(names[k]));
    mapping := map[];
    for i := 0 to |names|
      invariant IsMapping(mapping, names, k, i)
    {
      RelativeIs(names, k, i);
      var relative := Relative(prefix, Clean(names[i])).value;
      if relative != [] {
        SameNameSameRelative(names, k);
        mapping := mapping[names[i] := relative];
      }
    }
  }

  lemma PrefixIsDefined(names: seq<Text>, k: nat)
    requires Strippable(names, k)
    ensures k < |names| && IsManifest(Clean(names[k])) && |Clean(names[k])| >= 22
  {
    hide Clean, CanonicalPath, Fold, Relative;
  }

  lemma RelativeIs(names: seq<Text>, k: nat, i: nat)
    requires Strippable(names, k) && i < |names|
    ensures k < |names| && |Clean(names[k])| >= 22
    ensures Relative(PrefixOf(Clean(names[k])), Clean(names[i])) == Some(RelativeAt(names, k, i))
  {
    hide Clean, CanonicalPath, Fold, Relative;
    PrefixIsDefined(names, k);
  }

  lemma SameNameSameRelative(names: seq<Text>, k: nat)
    requires Strippable(names, k)
    ensures forall i, j | 0 <= i < |names| && 0 <= j < |names| && names[i] == names[j] :: RelativeAt(names, k, i) == RelativeAt(names, k, j)
  {
    hide Clean, CanonicalPath, Fold, Relative;
  }

  // ----- The archive as a whole

  ghost predicate ArchiveOk(members: seq<Member>, k: nat) {
    && 1 <= |members| <= MAX_ENTRIES
    && (forall i | 0 <= i < |members| :: members[i].kind != OtherMember)
    && Strippable(NamesOf(members), k)
  }

  ghost predicate AreFirstFiles(files: map<Text, FileData>, members: seq<Member>, k: nat, n: nat)
    requires Strippable(NamesOf(members), k) && n <= |members|
  {
    && (forall i | 0 <= i < n && members[i].kind == RegularMember && RelativeAt(NamesOf(members), k, i) != [] ::
          RelativeAt(NamesOf(members), k, i) in files && files[RelativeAt(NamesOf(members), k, i)] == members[i].data)
    && (forall p | p in files :: exists i :: 0 <= i < n && members[i].kind == RegularMember && RelativeAt(NamesOf(members), k, i) == p && p != [])
  }

  ghost function WithMember(files: map<Text, FileData>, members: seq<Member>, k: nat, n: nat): map<Text, FileData>
    requires Strippable(NamesOf(members), k) && n < |members|
  {
    var p := RelativeAt(NamesOf(members), k, n);
    if p != [] && members[n].kind == RegularMember then files[p := members[n].data] else files
  }

  lemma FirstFilesNext(files: map<Text, FileData>, members: seq<Member>, k: nat, n: nat)
    requires Strippable(NamesOf(members), k) && n < |members| && AreFirstFiles(files, members, k, n)
    ensures AreFirstFiles(WithMember(files, members, k, n), members, k, n + 1)
  {
    hide Strippable, RelativeAt;
    RelativesDiffer(NamesOf(members), k, n);
  }

  lemma MappedRelative(mapping: map<Text, Text>, names: seq<Text>, k: nat, i: nat)
    requires Strippable(names, k) && IsMapping(mapping, names, k, |names|) && i < |names|
    ensures names[i] in mapping <==> RelativeAt(names, k, i) != []
    ensures names[i] in mapping ==> mapping[names[i]] == RelativeAt(names, k, i)
  {
    hide Strippable, RelativeAt;
    SameNameSameRelative(names, k);
  }

  /** The regular files among the first `n` members, by their path inside the wrapper. */
  ghost function FirstFiles(members: seq<Member>, k: nat, n: nat): map<Text, FileData>
    requires Strippable(NamesOf(members), k) && n <= |members|
  {
    if n == 0 then map[] else WithMember(FirstFiles(members, k, n - 1), members, k, n - 1)
  }

  lemma {:induction false} FirstFilesAre(members: seq<Member>, k: nat, n: nat)
    requires Strippable(NamesOf(members), k) && n <= |members|
    ensures AreFirstFiles(FirstFiles(members, k, n), members, k, n)
  {
    hide AreFirstFiles, WithMember, Strippable;
    if n == 0 {
      NoFilesYet(members, k);
    } else {
      FirstFilesAre(members, k, n - 1);
      FirstFilesNext(FirstFiles(members, k, n - 1), members, k, n - 1);
    }
  }

  ghost function FilesOf(members: seq<Member>, k: nat): (files: map<Text, FileData>)
    requires Strippable(NamesOf(members), k)
    ensures AreFiles(files, members, k)
  {
    FirstFilesAre(members, k, |members|);
    AllFiles(FirstFiles(members, k, |members|), members, k);
    FirstFiles(members, k, |members|)
  }

  /** What an archive commits to: nothing unless it can be unpacked around exactly one manifest. */
  ghost function TarForm(f: Form, members: seq<Member>): Option<Canonical>
    requires GoodVocabulary(f.vocabulary)
  {
    if exists k: nat :: ArchiveOk(members, k) then
      var k: nat :| ArchiveOk(members, k);
      TarContent(f, FilesOf(members, k))
    else None
  }

  lemma TarFormIs(f: Form, members: seq<Member>, k: nat)
    requires GoodVocabulary(f.vocabulary) && ArchiveOk(members, k)
    ensures TarForm(f, members) == TarContent(f, FilesOf(members, k))
  {
    hide Strippable, TarContent, FilesOf, OneManifest;
    forall j: nat | ArchiveOk(members, j) ensures j == k {
      SameManifest(NamesOf(members), j, k);
    }
  }

  lemma SameManifest(names: seq<Text>, j: nat, k: nat)
    requires Strippable(names, j) && Strippable(names, k)
    ensures j == k
  {
    hide IsManifest, Clean, CanonicalPath, Relative, PrefixOf, Fold;
    assert IsManifest(Clean(names[j])) && j < |names|;
  }

  method RegularFiles(members: seq<Member>, mapping: map<Text, Text>, ghost k: nat) returns (files: map<Text, FileData>)
    requires Strippable(NamesOf(members), k) && IsMapping(mapping, NamesOf(members), k, |members|)
    ensures files == FilesOf(members, k)
  {
    hide Strippable, RelativeAt, IsMapping, AreFirstFiles;
    files := map[];
    for i := 0 to |members|
      invariant files == FirstFiles(members, k, i)
    {
      var member := members[i];
      MappedRelative(mapping, NamesOf(members), k, i);
      if member.name in mapping && member.kind == RegularMember {
        files := files[mapping[member.name] := member.data];
      }
    }
  }

  lemma NoFilesYet(members: seq<Member>, k: nat)
    requires Strippable(NamesOf(members), k)
    ensures AreFirstFiles(map[], members, k, 0)
  {
  }

  lemma AllFiles(files: map<Text, FileData>, members: seq<Member>, k: nat)
    requires Strippable(NamesOf(members), k) && AreFirstFiles(files, members, k, |members|)
    ensures AreFiles(files, members, k)
  {
    hide Strippable, RelativeAt;
  }

  lemma RelativesDiffer(names: seq<Text>, k: nat, i: nat)
    requires Strippable(names, k) && i < |names|
    ensures forall j | 0 <= j < i :: RelativeAt(names, k, j) == [] || RelativeAt(names, k, j) != RelativeAt(names, k, i)
  {
    hide Clean, CanonicalPath, Fold, PrefixOf;
    PrefixIsDefined(names, k);
  }

  /** One character in front of a text either starts a new segment or extends the first one. */
  function Extend(c: CodePoint, parts: seq<Text>): seq<Text>
    requires parts != []
  {
    if c == SLASH then [[]] + parts else [[c] + parts[0]] + parts[1..]
  }

  lemma SplitFirst(t: Text)
    requires t != []
    ensures Split(t) == Extend(t[0], Split(t[1..]))
  {
  }

  lemma ExtendAppend(c: CodePoint, x: seq<Text>, y: seq<Text>)
    requires x != []
    ensures Extend(c, x + y) == Extend(c, x) + y
  {
    assert (x + y)[1..] == x[1..] + y;
  }

  lemma {:induction false} SplitAtSlash(a: Text, b: Text)
    ensures Split(a + [SLASH] + b) == Split(a) + Split(b)
  {
    var t := a + [SLASH] + b;
    SplitFirst(t);
    if a == [] {
      assert t[0] == SLASH && t[1..] == b;
    } else {
      SplitFirst(a);
      assert t[1..] == a[1..] + [SLASH] + b && t[0] == a[0];
      SplitAtSlash(a[1..], b);
      hide Split, Extend;
      ExtendAppend(a[0], Split(a[1..]), Split(b));
    }
  }

  lemma LastSegment(h: Text)
    ensures Split(h + [SLASH])[|Split(h + [SLASH])| - 1] == []
  {
    assert h + [SLASH] + [] == h + [SLASH];
    SplitAtSlash(h, []);
  }

  lemma SlashEnds(t: Text)
    requires t != [] && t[|t| - 1] == SLASH
    ensures Split(t)[|Split(t)| - 1] == []
  {
    LastSegment(t[..|t| - 1]);
    assert t == t[..|t| - 1] + [SLASH];
  }

  /** What stands before a slash in a canonical path is not empty and does not end in a slash. */
  lemma CanonicalHead(head: Text, tail: Text)
    requires CanonicalPath(head + [SLASH] + tail)
    ensures head != [] && head[|head| - 1] != SLASH && Clean(head) == head
  {
    hide Clean;
    SplitAtSlash(head, tail);
    var parts := Split(head + [SLASH] + tail);
    var n := |Split(head)|;
    assert Segment(parts[0]) && Segment(parts[n - 1]);
    assert parts[0] == Split(head)[0] && parts[n - 1] == Split(head)[n - 1];
    if head[|head| - 1] == SLASH {
      SlashEnds(head);
    }
    CleanAlready(head);
  }

  lemma CleanAlready(t: Text)
    requires t == [] || t[|t| - 1] != SLASH
    ensures Clean(t) == t
  {
  }

  /** Inside its wrapper the manifest has its own name. */
  lemma ManifestRelative(path: Text)
    requires IsManifest(path) && CanonicalPath(path)
    ensures |path| >= 22 && Relative(PrefixOf(path), path) == Some(ManifestName())
  {
    hide CanonicalPath;
    if path == ManifestName() {
      assert path[..0] == [];
    } else {
      var head := path[..|path| - 23];
      assert path == head + [SLASH] + ManifestName();
      assert path[..|path| - 22] == head + [SLASH];
      assert Clean(head + [SLASH]) == Clean(head) by {
        assert (head + [SLASH])[..|head|] == head;
      }
      CanonicalHead(head, ManifestName());
    }
  }

  method CanonicalizeTar(f: Form, members: seq<Member>, cuts: Text -> seq<nat>) returns (r: Option<Canonical>)
    requires GoodVocabulary(f.vocabulary)
    ensures r == TarForm(f, members)
  {
    hide Strippable, ReadManifest, Parsed, Canonicalized, AreFiles, Unlisted, Listed, IsMapping, FilesOf;
    if members == [] || |members| > MAX_ENTRIES || exists i | 0 <= i < |members| :: members[i].kind == OtherMember {
      return None;
    }
    var mapping, k := StripWrapper(NamesOf(members));
    if mapping.None? {
      return None;
    }
    TarFormIs(f, members, k);
    var regular := RegularFiles(members, mapping.value, k);
    ManifestAt(members, k, regular);
    // The stream of the manifest is missing when the member is a directory.
    var manifest := members[k];
    if manifest.kind != RegularMember || |manifest.data.bytes| > MAX_MANIFEST_BYTES {
      if manifest.kind == RegularMember {
        TooLongManifest(f, manifest.data.bytes);
      }
      return None;
    }
    var m := ParseContent(f, manifest.data.bytes);
    if m.None? {
      return None;
    }
    var paths := set e | e in m.value.files :: e.path;
    if regular.Keys != {ManifestName()} + paths {
      NotTheListedFiles(m.value, regular, paths);
      return None;
    }
    ListedFiles(m.value, regular, paths);
    r := Commit(m.value, map p | p in regular && p in paths :: regular[p], cuts);
  }

  lemma TooLongManifest(f: Form, content: seq<Byte>)
    requires |content| > MAX_MANIFEST_BYTES
    ensures ReadManifest(f, content) == None
  {
  }

  lemma ManifestAt(members: seq<Member>, k: nat, files: map<Text, FileData>)
    requires Strippable(NamesOf(members), k) && AreFiles(files, members, k)
    ensures k < |members|
    ensures if members[k].kind == RegularMember then ManifestName() in files && files[ManifestName()] == members[k].data else ManifestName() !in files
  {
    var names := NamesOf(members);
    PrefixIsDefined(names, k);
    CanonicalAt(names, k, k);
    ManifestRelative(Clean(names[k]));
    RelativeIs(names, k, k);
    hide Strippable, Relative, IsManifest, Clean;
    forall i | 0 <= i < |members| && i != k ensures RelativeAt(names, k, i) != ManifestName() {
      RelativesApart(names, k, i, k);
    }
  }

  lemma CanonicalAt(names: seq<Text>, k: nat, i: nat)
    requires Strippable(names, k) && i < |names|
    ensures CanonicalPath(Clean(names[i]))
  {
    hide Clean, CanonicalPath, Fold, Relative, OneManifest;
  }

  lemma RelativesApart(names: seq<Text>, k: nat, i: nat, j: nat)
    requires Strippable(names, k) && i < |names| && j < |names| && i != j
    ensures RelativeAt(names, k, i) == [] || RelativeAt(names, k, j) == [] || RelativeAt(names, k, i) != RelativeAt(names, k, j)
  {
    hide Strippable;
    if i < j {
      RelativesDiffer(names, k, j);
    } else {
      RelativesDiffer(names, k, i);
    }
  }

  lemma NotTheListedFiles(m: RawManifest, files: map<Text, FileData>, paths: set<Text>)
    requires Parsed(m) && paths == (set e | e in m.files :: e.path) && ManifestName() in files
    requires files.Keys != {ManifestName()} + paths
    ensures Unlisted(m, files) || Canonicalized(m, Listed(m, files)) == None
  {
    hide EntryOk, TotalSize, Parsed, Stream;
    if !Unlisted(m, files) {
      assert files.Keys <= {ManifestName()} + paths;
      var p :| p in {ManifestName()} + paths && p !in files;
      assert Lists(m, p) && p !in Listed(m, files);
    }
  }

  lemma ListedFiles(m: RawManifest, files: map<Text, FileData>, paths: set<Text>)
    requires paths == (set e | e in m.files :: e.path) && files.Keys == {ManifestName()} + paths
    ensures !Unlisted(m, files)
    ensures (map p | p in files && p in paths :: files[p]) == Listed(m, files)
  {
  }
}
