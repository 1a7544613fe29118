/** nir/open_model_package.py: a package directory measured against its flat, sorted manifest. */
module Packages {
  import opened Ordering
  import opened Results
  import opened ModelContent
  import opened ContentSources

  const MAX_PACKAGE_FILES := 10_000
  const MAX_PACKAGE_FILE_BYTES := 128 * 0x4000_0000
  const MAX_PACKAGE_BYTES := 0x100_0000_0000
  const MAX_PACKAGE_PATH := 4_096
  const MAX_COMPONENTS := 32

  /** The characters of one path component, and what it must not be. */
  predicate Component(t: Text) {
    && 1 <= |t| <= 255 && t != [46] && t != [46, 46]
    && forall i | 0 <= i < |t| :: Alphanumeric(t[i]) || t[i] == 46 || t[i] == 95 || t[i] == 43 || t[i] == 45
  }

  predicate PackagePath(t: Text) {
    var parts := Split(t);
    |t| <= MAX_PACKAGE_PATH && |parts| <= MAX_COMPONENTS && forall i | 0 <= i < |parts| :: Component(parts[i])
  }

  /** A package path leads to the place its components name, and no other one leads there. */
  lemma PackagePathLeadsInside(t: Text, u: Text)
    requires PackagePath(t) && PackagePath(u)
    ensures t != [] && t[0] != SLASH && Resolved([], Split(t)) == Some(Split(t))
    ensures Resolved([], Split(t)) == Resolved([], Split(u)) ==> t == u
  {
    forall x | x == t || x == u ensures Resolved([], Split(x)) == Some(Split(x)) {
      forall i | 0 <= i < |Split(x)| ensures Plain(Split(x)[i]) {
        assert Component(Split(x)[i]);
      }
      PlainPartsLeadDown([], Split(x));
      assert [] + Split(x) == Split(x);
    }
    assert Component(Split(t)[0]);
    if Split(t) == Split(u) {
      SplitIsInjective(t, u);
    }
  }

  datatype Listed = Listed(path: Text, size: int, digest: Text)

  /** The SHA-256 of a file's bytes, and the form of a digest. */
  datatype Hashing = Hashing(digest: seq<Byte> -> Text, isDigest: Text -> bool)

  // ----- The manifest

  function TotalOf(files: seq<Listed>): int {
    if files == [] then 0 else TotalOf(files[..|files| - 1]) + files[|files| - 1].size
  }

  predicate FileValid(h: Hashing, f: Listed) {
    PackagePath(f.path) && 0 <= f.size <= MAX_PACKAGE_FILE_BYTES && h.isDigest(f.digest)
  }

  function Names(files: seq<Listed>): seq<Text> {
    Map((f: Listed) => f.path, files)
  }

  ghost predicate ManifestValid(h: Hashing, files: seq<Listed>) {
    && 1 <= |files| <= MAX_PACKAGE_FILES
    && (forall i | 0 <= i < |files| :: FileValid(h, files[i]))
    && Ascending(Names(files))
    && TotalOf(files) <= MAX_PACKAGE_BYTES
  }

  lemma {:induction false} TotalsGrow(h: Hashing, files: seq<Listed>, n: nat)
    requires n <= |files| && forall i | 0 <= i < |files| :: files[i].size >= 0
    ensures TotalOf(files[..n]) <= TotalOf(files)
    decreases |files|
  {
    if n < |files| {
      TotalsGrow(h, files[..|files| - 1], n);
      assert files[..|files| - 1][..n] == files[..n];
    } else {
      assert files[..n] == files;
    }
  }

  /** An empty path is never valid, so "" is below every first path. */
  lemma NotEmptyPath(t: Text)
    requires PackagePath(t)
    ensures t != []
  {
    assert Component(Split(t)[0]);
  }

  /** The checks on one entry, given the path before it and the total so far. */
  method ValidateEntry(h: Hashing, f: Listed, previous: Text, total: int) returns (ok: bool)
    ensures ok <==> FileValid(h, f) && !TextLeq(f.path, previous) && total + f.size <= MAX_PACKAGE_BYTES
  {
    hide PackagePath, LexLeq;
    if !PackagePath(f.path) || TextLeq(f.path, previous) {
      return false;
    }
    if f.size < 0 || f.size > MAX_PACKAGE_FILE_BYTES || total + f.size > MAX_PACKAGE_BYTES {
      return false;
    }
    return h.isDigest(f.digest);
  }

  ghost predicate FirstValid(h: Hashing, files: seq<Listed>, n: nat)
    requires n <= |files|
  {
    && (forall j | 0 <= j < n :: FileValid(h, files[j]))
    && Ascending(Names(files[..n]))
    && TotalOf(files[..n]) <= MAX_PACKAGE_BYTES
  }

  lemma FirstValidNext(h: Hashing, files: seq<Listed>, n: nat)
    requires n < |files| && FirstValid(h, files, n)
    ensures TotalOf(files[..n + 1]) == TotalOf(files[..n]) + files[n].size
    ensures FirstValid(h, files, n + 1)
        <==> FileValid(h, files[n]) && !TextLeq(files[n].path, if n == 0 then [] else files[n - 1].path)
             && TotalOf(files[..n + 1]) <= MAX_PACKAGE_BYTES
  {
    hide LexLeq, PackagePath;
    var names, more := Names(files[..n]), Names(files[..n + 1]);
    assert files[..n + 1][..n] == files[..n];
    assert forall i | 0 <= i < n :: more[i] == names[i];
    assert more[n] == files[n].path;
    if FileValid(h, files[n]) {
      NotEmptyPath(files[n].path);
      EmptyIsLeast(files[n].path);
    }
    if n > 0 {
      assert more[n - 1] == files[n - 1].path;
      LexTotal(files[n - 1].path, files[n].path);
    }
  }

  lemma NotFirstValid(h: Hashing, files: seq<Listed>, n: nat)
    requires n <= |files| && !FirstValid(h, files, n)
    ensures !ManifestValid(h, files)
  {
    hide LexLeq, PackagePath;
    if ManifestValid(h, files) {
      TotalsGrow(h, files, n);
      var names, first := Names(files), Names(files[..n]);
      assert forall i | 0 <= i < n :: first[i] == names[i];
    }
  }

  method ValidateManifest(h: Hashing, files: seq<Listed>) returns (ok: bool)
    ensures ok <==> ManifestValid(h, files)
  {
    hide FileValid, LexLeq, FirstValid;
    if |files| < 1 || |files| > MAX_PACKAGE_FILES {
      return false;
    }
    var total := 0;
    var previous: Text := [];
    NoneYet(h, files);
    for i := 0 to |files|
      invariant FirstValid(h, files, i)
      invariant previous == if i == 0 then [] else files[i - 1].path
      invariant total == TotalOf(files[..i])
    {
      FirstValidNext(h, files, i);
      ok := ValidateEntry(h, files[i], previous, total);
      if !ok {
        NotFirstValid(h, files, i + 1);
        return false;
      }
      previous := files[i].path;
      total := total + files[i].size;
    }
    AllValid(h, files);
    return true;
  }

  lemma NoneYet(h: Hashing, files: seq<Listed>)
    ensures FirstValid(h, files, 0) && TotalOf(files[..0]) == 0
  {
    assert files[..0] == [];
  }

  lemma AllValid(h: Hashing, files: seq<Listed>)
    requires 1 <= |files| <= MAX_PACKAGE_FILES && FirstValid(h, files, |files|)
    ensures ManifestValid(h, files)
  {
    assert files[..|files|] == files;
  }

  lemma EmptyIsLeast(t: Text)
    requires t != []
    ensures !LexLeq(t, [])
  {
  }

  // ----- The directories a flat list of paths implies

  /** Every part of a listed path that ends before a slash. */
  ghost function ParentsOf(paths: set<Text>): set<Text> {
    set p, i | p in paths && 0 <= i < |p| && p[i] == SLASH :: p[..i]
  }

  ghost function DirectoriesIn(items: seq<Item>): set<Text> {
    set i | i in items && i.node.DirNode? :: i.path
  }

  function FilesFound(items: seq<Item>): seq<Text> {
    if items == [] then []
    else
      FilesFound(items[..|items| - 1])
      + if items[|items| - 1].node.FileNode? then [items[|items| - 1].path] else []
  }

  predicate ItemExpected(i: Item, expected: set<Text>, directories: set<Text>) {
    PackagePath(i.path) && !i.node.OtherNode? && (i.node.DirNode? ==> i.path in directories) && (i.node.FileNode? ==> i.path in expected)
  }

  ghost predicate InventoryOk(items: seq<Item>, expected: set<Text>, directories: set<Text>) {
    (forall i | i in items :: ItemExpected(i, expected, directories)) && |FilesFound(items)| <= MAX_PACKAGE_FILES
  }

  lemma {:induction false} FoundAppend(a: seq<Item>, b: seq<Item>)
    ensures FilesFound(a + b) == FilesFound(a) + FilesFound(b)
  {
    if b == [] {
      assert a + b == a;
    } else {
      FoundAppend(a, b[..|b| - 1]);
      assert (a + b)[..|a + b| - 1] == a + b[..|b| - 1];
    }
  }

  lemma InventorySplits(a: seq<Item>, b: seq<Item>, expected: set<Text>, directories: set<Text>)
    ensures InventoryOk(a + b, expected, directories) ==> InventoryOk(a, expected, directories) && InventoryOk(b, expected, directories)
    ensures InventoryOk(a, expected, directories) && InventoryOk(b, expected, directories) && |FilesFound(a + b)| <= MAX_PACKAGE_FILES
            ==> InventoryOk(a + b, expected, directories)
  {
    hide ItemExpected;
    FoundAppend(a, b);
    if InventoryOk(a + b, expected, directories) {
      assert (forall i | i in a :: i in a + b) && forall i | i in b :: i in a + b;
    }
  }

  lemma {:induction false} ListingSplits(children: seq<Child>, prefix: Text, depth: nat, n: nat, expected: set<Text>, directories: set<Text>)
    requires n <= |children| && InventoryOk(Listing(children, prefix, depth), expected, directories)
    ensures InventoryOk(Listing(children[..n], prefix, depth), expected, directories)
    decreases |children|
  {
    hide InventoryOk, ItemsOf;
    if n == |children| {
      assert children[..n] == children;
    } else {
      var init := children[..|children| - 1];
      InventorySplits(Listing(init, prefix, depth), ItemsOf(children[|children| - 1], prefix, depth), expected, directories);
      ListingSplits(init, prefix, depth, n, expected, directories);
      assert init[..n] == children[..n];
    }
  }

  /** The recursive inventory finds the files of the whole tree, and fails exactly when something
      in it is not expected. */
  method Inventory(children: seq<Child>, prefix: Text, ghost depth: nat, expected: set<Text>, directories: set<Text>)
    returns (found: seq<Text>, ok: bool)
    ensures ok <==> InventoryOk(Listing(children, prefix, depth), expected, directories)
    ensures ok ==> found == FilesFound(Listing(children, prefix, depth))
    decreases children, 1
  {
    hide InventoryOk, FilesFound, ItemsOf;
    found := [];
    NothingFound(expected, directories);
    for i := 0 to |children|
      invariant InventoryOk(Listing(children[..i], prefix, depth), expected, directories)
      invariant found == FilesFound(Listing(children[..i], prefix, depth))
    {
      var c := children[i];
      ghost var done, some := Listing(children[..i], prefix, depth), ItemsOf(c, prefix, depth);
      assert children[..i + 1][..i] == children[..i];
      InventorySplits(done, some, expected, directories);
      FoundAppend(done, some);
      var more, good := InventoryOf(c, prefix, depth, expected, directories);
      if good {
        found := found + more;
      }
      if !good || |found| > MAX_PACKAGE_FILES {
        TooManyFound(done + some, expected, directories);
        NotOk(children, prefix, depth, i + 1, expected, directories);
        return found, false;
      }
    }
    assert children[..|children|] == children;
    return found, true;
  }

  method InventoryOf(c: Child, prefix: Text, ghost depth: nat, expected: set<Text>, directories: set<Text>)
    returns (found: seq<Text>, ok: bool)
    ensures ok <==> InventoryOk(ItemsOf(c, prefix, depth), expected, directories)
    ensures ok ==> found == FilesFound(ItemsOf(c, prefix, depth))
    decreases c, 0
  {
    hide PackagePath, Listing;
    found := [];
    var relative := Join(prefix, c.name);
    ghost var item := Item(relative, c.node, depth);
    assert item in ItemsOf(c, prefix, depth);
    if !PackagePath(relative) {
      return found, false;
    }
    OneFound(item, expected, directories);
    match c.node
    case DirNode(inside) =>
      if relative !in directories {
        return found, false;
      }
      InventorySplits([item], Listing(inside, relative, depth + 1), expected, directories);
      FoundAppend([item], Listing(inside, relative, depth + 1));
      found, ok := Inventory(inside, relative, depth + 1, expected, directories);
    case FileNode(_) =>
      assert ItemsOf(c, prefix, depth) == [item];
      if relative !in expected {
        return found, false;
      }
      return [relative], true;
    case OtherNode =>
      return found, false;
  }

  lemma OneFound(i: Item, expected: set<Text>, directories: set<Text>)
    ensures FilesFound([i]) == if i.node.FileNode? then [i.path] else []
    ensures InventoryOk([i], expected, directories) <==> ItemExpected(i, expected, directories)
  {
    assert [i][0] in [i];
    assert [i][..0] == [];
  }

  lemma TooManyFound(items: seq<Item>, expected: set<Text>, directories: set<Text>)
    ensures |FilesFound(items)| > MAX_PACKAGE_FILES ==> !InventoryOk(items, expected, directories)
  {
  }

  lemma NothingFound(expected: set<Text>, directories: set<Text>)
    ensures InventoryOk([], expected, directories) && FilesFound([]) == []
  {
  }

  lemma NotOk(children: seq<Child>, prefix: Text, depth: nat, n: nat, expected: set<Text>, directories: set<Text>)
    requires n <= |children| && !InventoryOk(Listing(children[..n], prefix, depth), expected, directories)
    ensures !InventoryOk(Listing(children, prefix, depth), expected, directories)
  {
    hide InventoryOk, Listing;
    if InventoryOk(Listing(children, prefix, depth), expected, directories) {
      ListingSplits(children, prefix, depth, n, expected, directories);
    }
  }

  // ----- Every directory above a file is in the listing

  /** Names as an operating system gives them: not empty, and without a slash. */
  ghost predicate GoodNames(children: seq<Child>)
    decreases children, 1
  {
    forall i | 0 <= i < |children| :: GoodName(children[i])
  }

  ghost predicate GoodName(c: Child)
    decreases c, 0
  {
    c.name != [] && SLASH !in c.name && (c.node.DirNode? ==> GoodNames(c.node.children))
  }

  /** What a path starts with inside a directory: its prefix and a slash. */
  function Base(prefix: Text): Text {
    if prefix == [] then [] else prefix + [SLASH]
  }

  predicate StartsWith(t: Text, head: Text) {
    |t| > |head| && t[..|head|] == head
  }

  lemma {:induction false} PathsExtend(children: seq<Child>, prefix: Text, depth: nat, item: Item)
    requires GoodNames(children) && item in Listing(children, prefix, depth)
    ensures StartsWith(item.path, Base(prefix))
    decreases children, 1
  {
    var last := children[|children| - 1];
    if item in Listing(children[..|children| - 1], prefix, depth) {
      PathsExtend(children[..|children| - 1], prefix, depth, item);
    } else {
      PathsOfChild(last, prefix, depth, item);
    }
  }

  lemma {:induction false} PathsOfChild(c: Child, prefix: Text, depth: nat, item: Item)
    requires GoodName(c) && item in ItemsOf(c, prefix, depth)
    ensures StartsWith(item.path, Base(prefix))
    ensures item.path == Join(prefix, c.name) || StartsWith(item.path, Join(prefix, c.name) + [SLASH])
    decreases c, 0
  {
    var path := Join(prefix, c.name);
    assert path == Base(prefix) + c.name;
    if item != Item(path, c.node, depth) {
      PathsExtend(c.node.children, path, depth + 1, item);
      assert Base(path) == path + [SLASH];
      assert item.path[..|Base(prefix)|] == (path + [SLASH])[..|Base(prefix)|] == Base(prefix);
    }
  }

  lemma {:induction false} AncestorsAreListed(children: seq<Child>, prefix: Text, depth: nat, item: Item, cut: nat)
    requires GoodNames(children) && item in Listing(children, prefix, depth)
    requires |Base(prefix)| <= cut < |item.path| && item.path[cut] == SLASH
    ensures item.path[..cut] in DirectoriesIn(Listing(children, prefix, depth))
    decreases children, 1
  {
    hide GoodName;
    var init, last := children[..|children| - 1], children[|children| - 1];
    if item in Listing(init, prefix, depth) {
      AncestorsAreListed(init, prefix, depth, item, cut);
    } else {
      AncestorsOfChild(last, prefix, depth, item, cut);
    }
  }

  lemma NoSlashInName(prefix: Text, name: Text, cut: nat)
    requires SLASH !in name && |Base(prefix)| <= cut < |Join(prefix, name)|
    ensures Join(prefix, name)[cut] != SLASH
  {
    assert Join(prefix, name) == Base(prefix) + name;
    assert Join(prefix, name)[cut] == name[cut - |Base(prefix)|];
    assert name[cut - |Base(prefix)|] in name;
  }

  lemma {:induction false} AncestorsOfChild(c: Child, prefix: Text, depth: nat, item: Item, cut: nat)
    requires GoodName(c) && item in ItemsOf(c, prefix, depth)
    requires |Base(prefix)| <= cut < |item.path| && item.path[cut] == SLASH
    ensures item.path[..cut] in DirectoriesIn(ItemsOf(c, prefix, depth))
    decreases c, 0
  {
    var path := Join(prefix, c.name);
    var own := Item(path, c.node, depth);
    PathsOfChild(c, prefix, depth, item);
    CutIsBelow(prefix, c.name, item.path, cut);
    var below := Listing(c.node.children, path, depth + 1);
    if cut == |path| {
      assert own in ItemsOf(c, prefix, depth);
      assert item.path[..cut] == path by {
        assert item.path[..|path| + 1] == path + [SLASH];
      }
    } else {
      assert Base(path) == path + [SLASH];
      AncestorsAreListed(c.node.children, path, depth + 1, item, cut);
    }
  }

  /** A slash in a path under a child cannot be in the child's own name. */
  lemma CutIsBelow(prefix: Text, name: Text, path: Text, cut: nat)
    requires SLASH !in name && |Base(prefix)| <= cut < |path| && path[cut] == SLASH
    requires path == Join(prefix, name) || StartsWith(path, Join(prefix, name) + [SLASH])
    ensures cut >= |Join(prefix, name)| && path != Join(prefix, name)
  {
    var own := Join(prefix, name);
    if path != own {
      assert path[..|own|] == (own + [SLASH])[..|own|] == own;
    }
    assert forall i | 0 <= i < |own| :: path[i] == own[i];
    if cut < |own| {
      NoSlashInName(prefix, name, cut);
    }
  }

  // ----- Verifying a package

  ghost predicate Measured(h: Hashing, data: map<Text, FileData>, f: Listed) {
    f.path in data && |data[f.path].bytes| == f.size && h.digest(data[f.path].bytes) == f.digest
  }

  /** The tree holds the listed files, byte for byte, and no other file or directory than they need. */
  ghost predicate IsPrefixTree(h: Hashing, items: seq<Item>, files: seq<Listed>) {
    && (forall i | i in items :: PackagePath(i.path) && !i.node.OtherNode?)
    && DirectoriesIn(items) == ParentsOf(set f | f in files :: f.path)
    && (forall p :: p in FilesFound(items) <==> p in set f | f in files :: f.path)
    && (forall f | f in files :: Measured(h, FilesIn(items), f))
  }

  /** One file is measured: opened by its path, its size compared, its bytes hashed. */
  method Measure(h: Hashing, data: map<Text, FileData>, f: Listed) returns (ok: bool)
    ensures ok <==> Measured(h, data, f)
  {
    if f.path !in data || |data[f.path].bytes| != f.size {
      return false;
    }
    return h.digest(data[f.path].bytes) == f.digest;
  }

  lemma {:induction false} FoundHas(items: seq<Item>, p: Text)
    ensures p in FilesFound(items) <==> exists i :: i in items && i.node.FileNode? && i.path == p
  {
    if items != [] {
      var init, last := items[..|items| - 1], items[|items| - 1];
      FoundHas(init, p);
      assert items == init + [last];
    }
  }

  /** Every listed path that is found has all its parents among the directories. */
  lemma ParentsAreListed(children: seq<Child>, paths: set<Text>)
    requires GoodNames(children)
    requires forall p | p in paths :: p in FilesFound(Listing(children, [], 1))
    ensures ParentsOf(paths) <= DirectoriesIn(Listing(children, [], 1))
  {
    hide GoodNames, Listing, DirectoriesIn;
    var items := Listing(children, [], 1);
    forall d | d in ParentsOf(paths) ensures d in DirectoriesIn(items) {
      var p, cut :| p in paths && 0 <= cut < |p| && p[cut] == SLASH && d == p[..cut];
      FoundHas(items, p);
      var i :| i in items && i.node.FileNode? && i.path == p;
      AncestorsAreListed(children, [], 1, i, cut);
    }
  }

  /** What the two checks on the tree amount to: it is exactly the prefix tree of the manifest. */
  lemma AcceptedIsPrefixTree(h: Hashing, children: seq<Child>, files: seq<Listed>)
    requires GoodNames(children) && |FilesFound(Listing(children, [], 1))| <= MAX_PACKAGE_FILES
    ensures var items, paths := Listing(children, [], 1), set f | f in files :: f.path;
            IsPrefixTree(h, items, files) <==>
              && InventoryOk(items, paths, ParentsOf(paths))
              && (forall p :: p in FilesFound(items) <==> p in paths)
              && (forall f | f in files :: Measured(h, FilesIn(items), f))
  {
    hide Listing, GoodNames, Measured, PackagePath, FilesFound, FilesIn, ParentsOf;
    var items, paths := Listing(children, [], 1), set f | f in files :: f.path;
    if InventoryOk(items, paths, ParentsOf(paths)) && forall p :: p in FilesFound(items) <==> p in paths {
      ParentsAreListed(children, paths);
      assert DirectoriesIn(items) == ParentsOf(paths);
    }
    if IsPrefixTree(h, items, files) {
      forall i | i in items ensures ItemExpected(i, paths, ParentsOf(paths)) {
        if i.node.FileNode? {
          FoundHas(items, i.path);
        } else if i.node.DirNode? {
          assert i.path in DirectoriesIn(items);
        }
      }
    }
  }

  /** Accepts exactly the valid manifests whose prefix tree, byte for byte, is what the directory holds. */
  method VerifyPackage(h: Hashing, children: seq<Child>, files: seq<Listed>) returns (ok: bool)
    requires GoodNames(children)
    ensures ok <==> ManifestValid(h, files) && |FilesFound(Listing(children, [], 1))| <= MAX_PACKAGE_FILES
                    && IsPrefixTree(h, Listing(children, [], 1), files)
  {
    hide ManifestValid, IsPrefixTree, GoodNames, Listing, FilesFound, FilesIn, Measured;
    var valid := ValidateManifest(h, files);
    if !valid {
      return false;
    }
    var expected := set f | f in files :: f.path;
    var directories := set p, i | p in expected && 0 <= i < |p| && p[i] == SLASH :: p[..i];
    assert directories == ParentsOf(expected);
    var found, good := Inventory(children, [], 1, expected, directories);
    var items := Listing(children, [], 1);
    TooManyFound(items, expected, directories);
    if |FilesFound(items)| <= MAX_PACKAGE_FILES {
      AcceptedIsPrefixTree(h, children, files);
    }
    if !good || (set p | p in found) != expected {
      return false;
    }
    // Each file as opening its path finds it.
    var data := FilesIn(items);
    for i := 0 to |files|
      invariant forall j | 0 <= j < i :: Measured(h, FilesIn(items), files[j])
    {
      ok := Measure(h, data, files[i]);
      if !ok {
        assert files[i] in files;
        return false;
      }
    }
    return true;
  }
}
