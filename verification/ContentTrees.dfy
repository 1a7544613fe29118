/** nir/model_content.py: from one form to the other. Which accepted directories have an archive of
    the same files, and which accepted archives a directory. */
module ContentTrees {
  import opened Ordering
  import opened Results
  import opened ModelContent
  import opened ContentSources
  import opened ContentForms
  import FiniteSets
  import Packages

  // ----- A directory as an archive

  /** An archive that can be unpacked, with these files in it. */
  ghost predicate Archives(members: seq<Member>, files: map<Text, FileData>) {
    exists k: nat :: ArchiveOk(members, k) && FilesOf(members, k) == files
  }

  /** One regular member for every file, under the file's own path. */
  ghost predicate OnePerFile(members: seq<Member>, files: map<Text, FileData>) {
    && |members| == |files|
    && (forall i | 0 <= i < |members| ::
          members[i].kind == RegularMember && members[i].name in files && files[members[i].name] == members[i].data)
    && (forall i, j | 0 <= i < j < |members| :: members[i].name != members[j].name)
    && (forall p | p in files :: Named(members, p))
  }

  ghost predicate Named(members: seq<Member>, p: Text) {
    exists i :: 0 <= i < |members| && members[i].name == p
  }

  lemma PackOneMore(members: seq<Member>, files: map<Text, FileData>, p: Text, data: FileData)
    requires OnePerFile(members, files) && p !in files
    ensures OnePerFile(members + [Member(p, RegularMember, data)], files[p := data])
  {
    var last := Member(p, RegularMember, data);
    forall q | q in files[p := data] ensures Named(members + [last], q) {
      NamedNext(members, last, q);
    }
    OneKeyMore(files, p, data);
    hide Named;
  }

  lemma OneKeyMore(files: map<Text, FileData>, p: Text, data: FileData)
    requires p !in files
    ensures |files[p := data]| == |files| + 1
  {
    var more := files[p := data];
    assert more.Keys == files.Keys + {p} && |files.Keys| == |files| && |more.Keys| == |more|;
  }

  lemma NamedNext(members: seq<Member>, last: Member, p: Text)
    ensures Named(members, p) || last.name == p ==> Named(members + [last], p)
  {
    if last.name == p {
      assert (members + [last])[|members|] == last;
    } else if Named(members, p) {
      var i :| 0 <= i < |members| && members[i].name == p;
      assert (members + [last])[i] == members[i];
    }
  }

  lemma {:induction false} PackFlat(files: map<Text, FileData>) returns (members: seq<Member>)
    ensures OnePerFile(members, files)
    decreases |files|
  {
    members := [];
    assert |files.Keys| == |files|;
    if files.Keys != {} {
      var p :| p in files;
      var rest := files - {p};
      assert rest.Keys == files.Keys - {p} && |rest.Keys| == |rest|;
      var before := PackFlat(rest);
      PackOneMore(before, rest, p, files[p]);
      assert rest[p := files[p]] == files;
      members := before + [Member(p, RegularMember, files[p])];
    }
  }

  /** Paths an archive can hold without a wrapper: canonical, one manifest, no two that fold to one. */
  ghost predicate Packable(paths: set<Text>) {
    && ManifestName() in paths && |paths| <= MAX_ENTRIES
    && (forall p | p in paths :: CanonicalPath(p) && (IsManifest(p) ==> p == ManifestName()))
    && (forall p, q | p in paths && q in paths && p != q :: Fold(p) != Fold(q))
  }

  lemma CanonicalIsClean(p: Text)
    requires CanonicalPath(p)
    ensures p != [] && p[|p| - 1] != SLASH && Clean(p) == p
  {
    assert Segment(Split(p)[0]);
    if p != [] && p[|p| - 1] == SLASH {
      SlashEnds(p);
    }
  }

  lemma FlatNames(members: seq<Member>, files: map<Text, FileData>, i: nat)
    requires OnePerFile(members, files) && Packable(files.Keys) && i < |members|
    ensures NamesOf(members)[i] == members[i].name && CanonicalPath(members[i].name) && Clean(members[i].name) == members[i].name
    ensures IsManifest(members[i].name) <==> members[i].name == ManifestName()
    ensures members[i].name != []
  {
    hide CanonicalPath, Clean, ManifestName;
    CanonicalIsClean(members[i].name);
  }

  lemma FlatIsOk(members: seq<Member>, files: map<Text, FileData>, k: nat)
    requires OnePerFile(members, files) && Packable(files.Keys) && k < |members| && members[k].name == ManifestName()
    ensures ArchiveOk(members, k)
    ensures forall i | 0 <= i < |members| :: RelativeAt(NamesOf(members), k, i) == members[i].name
  {
    hide CanonicalPath, Clean, IsManifest, ManifestName, Fold, PrefixOf;
    var names := NamesOf(members);
    assert |files.Keys| == |files|;
    NoPrefix();
    forall i | 0 <= i < |names|
      ensures names[i] == members[i].name && CanonicalPath(names[i]) && Clean(names[i]) == names[i]
      ensures IsManifest(names[i]) <==> i == k
    {
      FlatNames(members, files, i);
    }
    assert Strippable(names, k);
    forall i | 0 <= i < |members| ensures RelativeAt(names, k, i) == members[i].name {
    }
  }

  lemma FlatArchive(files: map<Text, FileData>) returns (members: seq<Member>)
    requires Packable(files.Keys)
    ensures Archives(members, files)
  {
    hide ArchiveOk, Packable, ManifestName;
    members := PackFlat(files);
    assert ManifestName() in files by { PackableHasManifest(files.Keys); }
    var k: nat :| k < |members| && members[k].name == ManifestName();
    FlatIsOk(members, files, k);
    FlatFiles(members, files, k);
  }

  lemma PackableHasManifest(paths: set<Text>)
    requires Packable(paths)
    ensures ManifestName() in paths
  {
  }

  lemma FlatFiles(members: seq<Member>, files: map<Text, FileData>, k: nat)
    requires OnePerFile(members, files) && Packable(files.Keys) && ArchiveOk(members, k)
    requires forall i | 0 <= i < |members| :: RelativeAt(NamesOf(members), k, i) == members[i].name
    ensures FilesOf(members, k) == files
  {
    hide Strippable, RelativeAt, FilesOf, NamesOf, Named, Packable, OnePerFile, AreFiles;
    FlatFound(members, files, k, FilesOf(members, k));
    forall p | p in files ensures p in FilesOf(members, k) {
      FlatMissesNone(members, files, k, FilesOf(members, k), p);
    }
  }

  lemma FlatFound(members: seq<Member>, files: map<Text, FileData>, k: nat, found: map<Text, FileData>)
    requires OnePerFile(members, files) && Strippable(NamesOf(members), k) && AreFiles(found, members, k)
    requires forall i | 0 <= i < |members| :: RelativeAt(NamesOf(members), k, i) == members[i].name
    ensures forall p | p in found :: p in files && files[p] == found[p]
  {
    hide Strippable, RelativeAt, Named;
    forall p | p in found ensures p in files && files[p] == found[p] {
      var i :| 0 <= i < |members| && members[i].kind == RegularMember && RelativeAt(NamesOf(members), k, i) == p && p != [];
    }
  }

  lemma FlatMissesNone(members: seq<Member>, files: map<Text, FileData>, k: nat, found: map<Text, FileData>, p: Text)
    requires OnePerFile(members, files) && Packable(files.Keys) && Strippable(NamesOf(members), k) && AreFiles(found, members, k)
    requires forall i | 0 <= i < |members| :: RelativeAt(NamesOf(members), k, i) == members[i].name
    requires p in files
    ensures p in found
  {
    hide Strippable, RelativeAt, NamesOf, Named, Packable;
    NamedAt(members, p);
    var i :| 0 <= i < |members| && members[i].name == p;
    FlatNames(members, files, i);
  }

  lemma NamedAt(members: seq<Member>, p: Text)
    requires Named(members, p)
    ensures exists i :: 0 <= i < |members| && members[i].name == p
  {
  }

  /** A path that ends in the manifest's name does so inside a wrapper too. */
  lemma ManifestWithin(prefix: Text, path: Text, p: Text)
    requires Relative(prefix, path) == Some(p) && IsManifest(p)
    ensures IsManifest(path)
  {
    hide ManifestName;
    if prefix != [] && path != prefix {
      assert path == prefix + [SLASH] + p;
      ManifestInside(prefix, p);
    }
  }

  lemma OnlyOneInArchive(members: seq<Member>, k: nat, p: Text)
    requires ArchiveOk(members, k) && p in FilesOf(members, k) && IsManifest(p)
    ensures p == RelativeAt(NamesOf(members), k, k)
  {
    var names := NamesOf(members);
    hide FilesOf, IsManifest, Clean, CanonicalPath, Fold, Relative;
    assert AreFiles(FilesOf(members, k), members, k);
    var i: nat :| i < |members| && members[i].kind == RegularMember && RelativeAt(names, k, i) == p && p != [];
    RelativeIs(names, k, i);
    ManifestWithin(PrefixOf(Clean(names[k])), Clean(names[i]), p);
    assert IsManifest(Clean(names[i]));
  }

  lemma FilesFoldApart(items: seq<Item>)
    requires Scannable(items, 0, {})
    ensures |FilesIn(items)| <= MAX_ENTRIES
    ensures forall p | p in FilesIn(items) :: CanonicalPath(p)
    ensures forall p, q | p in FilesIn(items) && q in FilesIn(items) && p != q :: Fold(p) != Fold(q)
  {
    hide Fold, CanonicalPath, HasFile, FilesIn;
    FilesInHas(items);
    FewFiles(items);
    forall p | p in FilesIn(items) ensures exists i :: 0 <= i < |items| && items[i].path == p && CanonicalPath(p) {
      FileIsItem(items, p, FilesIn(items)[p]);
    }
  }

  lemma FileIsItem(items: seq<Item>, p: Text, data: FileData)
    requires HasFile(items, p, data) && forall i | i in items :: ItemOk(i)
    ensures exists i :: 0 <= i < |items| && items[i].path == p && items[i].node == FileNode(data) && CanonicalPath(p)
  {
    hide CanonicalPath;
    var x :| x in items && x.path == p && x.node == FileNode(data);
    var i :| 0 <= i < |items| && items[i] == x;
    assert ItemOk(items[i]);
  }

  lemma {:induction false} FewFiles(items: seq<Item>)
    ensures |FilesIn(items)| <= |items|
  {
    if items != [] {
      var init, last := items[..|items| - 1], items[|items| - 1];
      FewFiles(init);
      var before := FilesIn(init);
      if last.node.FileNode? {
        assert FilesIn(items).Keys == before.Keys + {last.path};
        assert |before.Keys| == |before| && |FilesIn(items).Keys| == |FilesIn(items)|;
        FiniteSets.SubsetSize(FilesIn(items).Keys, before.Keys + {last.path});
      }
    }
  }

  /** The manifest among these files. */
  ghost predicate HasManifest(f: Form, files: map<Text, FileData>) {
    ManifestName() in files && ReadManifest(f, files[ManifestName()].bytes).Some?
  }

  ghost function ManifestOf(f: Form, files: map<Text, FileData>): RawManifest
    requires HasManifest(f, files)
  {
    ReadManifest(f, files[ManifestName()].bytes).value
  }

  lemma AcceptedFiles(f: Form, files: map<Text, FileData>)
    requires GoodVocabulary(f.vocabulary) && DirectoryContent(f, files).Some?
    ensures HasManifest(f, files) && !Lists(ManifestOf(f, files), ManifestName())
    ensures forall p :: p in files <==> p == ManifestName() || Lists(ManifestOf(f, files), p)
  {
    hide ManifestName, ReadManifest, Lists, Parsed, Stream, TotalSize, EntryOk;
    var m := ManifestOf(f, files);
    if Lists(m, ManifestName()) {
      UnlistedIsRefused(m, files);
    }
    assert forall p :: p in files - {ManifestName()} <==> Lists(m, p);
  }

  /** An accepted directory can be had as an archive, with the same content, if and only if its
      manifest lists no path that ends in the manifest's own name. */
  lemma DirectoryAsArchive(f: Form, children: seq<Child>)
    requires GoodVocabulary(f.vocabulary) && DirectoryForm(f, children).Some?
    ensures var files := FilesIn(Listing(children, [], 1));
            && HasManifest(f, files)
            && ((exists members :: Archives(members, files)) <==> forall e | e in ManifestOf(f, files).files :: !IsManifest(e.path))
            && (forall members | Archives(members, files) :: TarForm(f, members) == DirectoryForm(f, children))
  {
    hide Listing, Scannable, FilesIn, DirectoryContent, TarForm, Packable, Archives, IsManifest, ReadManifest;
    var items := Listing(children, [], 1);
    var files := FilesIn(items);
    AcceptedFiles(f, files);
    var m := ManifestOf(f, files);
    if forall e | e in m.files :: !IsManifest(e.path) {
      ListedArePackable(m, items);
      var members := FlatArchive(files);
      assert Archives(members, files);
    } else {
      var e :| e in m.files && IsManifest(e.path);
      assert Lists(m, e.path);
      forall members | Archives(members, files) ensures false {
        NestedIsRefused(members, files, e.path);
      }
    }
    forall members | Archives(members, files) ensures TarForm(f, members) == DirectoryForm(f, children) {
      SameContent(f, children, members);
    }
  }

  lemma ListedArePackable(m: RawManifest, items: seq<Item>)
    requires Scannable(items, 0, {})
    requires forall p :: p in FilesIn(items) <==> p == ManifestName() || Lists(m, p)
    requires forall e | e in m.files :: !IsManifest(e.path)
    ensures Packable(FilesIn(items).Keys)
  {
    hide Scannable, FilesIn, CanonicalPath, Fold, IsManifest, ManifestName;
    FilesFoldApart(items);
    assert |FilesIn(items).Keys| == |FilesIn(items)|;
  }

  lemma SameContent(f: Form, children: seq<Child>, members: seq<Member>)
    requires GoodVocabulary(f.vocabulary) && DirectoryForm(f, children).Some?
    requires Archives(members, FilesIn(Listing(children, [], 1)))
    ensures TarForm(f, members) == DirectoryForm(f, children)
  {
    hide Listing, FilesIn, DirectoryForm, TarForm, Strippable, FilesOf;
    var k: nat :| ArchiveOk(members, k) && FilesOf(members, k) == FilesIn(Listing(children, [], 1));
    SameFilesSameCommitment(f, children, members, k);
  }

  lemma NestedIsRefused(members: seq<Member>, files: map<Text, FileData>, p: Text)
    requires ManifestName() in files && p in files && p != ManifestName() && IsManifest(p)
    ensures !Archives(members, files)
  {
    hide Strippable, FilesOf, ManifestName;
    forall k: nat | ArchiveOk(members, k) ensures FilesOf(members, k) != files {
      if FilesOf(members, k) == files {
        OnlyOneInArchive(members, k, p);
        OnlyOneInArchive(members, k, ManifestName());
      }
    }
  }

  // ----- An archive as a directory

  /** Paths that files can have in a directory: the directories above them are no files, no two of
      all these names fold to one, and there are not too many. */
  ghost predicate Treeable(paths: set<Text>) {
    var all := Packages.ParentsOf(paths) + paths;
    && Packages.ParentsOf(paths) !! paths
    && |all| <= MAX_ENTRIES
    && (forall x, y | x in all && y in all && Fold(x) == Fold(y) :: x == y)
  }

  /** A directory, with names as an operating system has them, that is accepted with these files. */
  ghost predicate Holds(f: Form, children: seq<Child>, files: map<Text, FileData>)
    requires GoodVocabulary(f.vocabulary)
  {
    Packages.GoodNames(children) && DirectoryForm(f, children).Some? && FilesIn(Listing(children, [], 1)) == files
  }

  // What an accepted directory says of its files

  lemma PathsAreItems(children: seq<Child>, x: Text)
    requires Packages.GoodNames(children) && Scannable(Listing(children, [], 1), 0, {})
    requires x in Packages.ParentsOf(FilesIn(Listing(children, [], 1)).Keys) + FilesIn(Listing(children, [], 1)).Keys
    ensures exists i :: i in Listing(children, [], 1) && i.path == x
  {
    var items := Listing(children, [], 1);
    hide Listing, FilesIn, Fold, CanonicalPath, Packages.GoodNames;
    FilesInHas(items);
    if x in FilesIn(items) {
      assert HasFile(items, x, FilesIn(items)[x]);
    } else {
      var p, cut :| p in FilesIn(items) && 0 <= cut < |p| && p[cut] == SLASH && x == p[..cut];
      assert HasFile(items, p, FilesIn(items)[p]);
      var i :| i in items && i.path == p;
      Packages.AncestorsAreListed(children, [], 1, i, cut);
    }
  }

  lemma OneItemPerFold(items: seq<Item>, x: Item, y: Item)
    requires forall i, j | 0 <= i < j < |items| :: Fold(items[i].path) != Fold(items[j].path)
    requires x in items && y in items && Fold(x.path) == Fold(y.path)
    ensures x == y
  {
    hide Fold;
    var i :| 0 <= i < |items| && items[i] == x;
    var j :| 0 <= j < |items| && items[j] == y;
  }

  lemma {:induction false} PathsCount(items: seq<Item>, paths: set<Text>)
    requires forall x | x in paths :: exists i :: i in items && i.path == x
    ensures |paths| <= |items|
  {
    if items == [] {
      assert paths == {};
    } else {
      var init, last := items[..|items| - 1], items[|items| - 1];
      forall x | x in paths - {last.path} ensures exists i :: i in init && i.path == x {
        var i :| i in items && i.path == x;
        assert items == init + [last];
      }
      PathsCount(init, paths - {last.path});
      FiniteSets.SubsetSize(paths, paths - {last.path} + {last.path});
    }
  }

  lemma AcceptedIsTreeable(children: seq<Child>)
    requires Packages.GoodNames(children) && Scannable(Listing(children, [], 1), 0, {})
    ensures Treeable(FilesIn(Listing(children, [], 1)).Keys)
  {
    var items := Listing(children, [], 1);
    var files := FilesIn(items);
    var parents := Packages.ParentsOf(files.Keys);
    var all := parents + files.Keys;
    hide Listing, FilesIn, Fold, CanonicalPath, Packages.GoodNames, Packages.ParentsOf;
    forall x | x in all ensures exists i :: i in items && i.path == x {
      PathsAreItems(children, x);
    }
    PathsCount(items, all);
    forall x, y | x in all && y in all && Fold(x) == Fold(y) ensures x == y {
      var i :| i in items && i.path == x;
      var j :| j in items && j.path == y;
      OneItemPerFold(items, i, j);
    }
    forall x | x in parents ensures x !in files {
      if x in files {
        ParentIsNoFile(children, x);
      }
    }
  }

  lemma ParentIsNoFile(children: seq<Child>, x: Text)
    requires Packages.GoodNames(children) && Scannable(Listing(children, [], 1), 0, {})
    requires x in Packages.ParentsOf(FilesIn(Listing(children, [], 1)).Keys)
    ensures x !in FilesIn(Listing(children, [], 1))
  {
    var items := Listing(children, [], 1);
    hide Listing, FilesIn, Fold, CanonicalPath, Packages.GoodNames;
    FilesInHas(items);
    var p, cut :| p in FilesIn(items) && 0 <= cut < |p| && p[cut] == SLASH && x == p[..cut];
    assert HasFile(items, p, FilesIn(items)[p]);
    var i :| i in items && i.path == p;
    Packages.AncestorsAreListed(children, [], 1, i, cut);
    var d :| d in items && d.node.DirNode? && d.path == x;
    if x in FilesIn(items) {
      assert HasFile(items, x, FilesIn(items)[x]);
      var e :| e in items && e.path == x && e.node == FileNode(FilesIn(items)[x]);
      OneItemPerFold(items, d, e);
    }
  }

  // The prefix tree of a set of files

  /** An item of the tree: a file, or a directory above one, at the depth its path says. */
  ghost predicate Fitting(i: Item, files: map<Text, FileData>) {
    && i.depth == |Split(i.path)|
    && match i.node
       case FileNode(data) => i.path in files && files[i.path] == data
       case DirNode(_) => i.path in Packages.ParentsOf(files.Keys)
       case OtherNode => false
  }

  ghost predicate Laid(items: seq<Item>, files: map<Text, FileData>) {
    && (forall i | i in items :: Fitting(i, files))
    && (forall i, j | 0 <= i < j < |items| :: items[i].path != items[j].path)
    && (forall p | p in files :: HasFile(items, p, files[p]))
  }

  /** Files that go under this directory: their paths start with it, and none is above another. */
  ghost predicate Below(prefix: Text, files: map<Text, FileData>) {
    && (forall p | p in files :: CanonicalPath(p) && Packages.StartsWith(p, Packages.Base(prefix)))
    && Packages.ParentsOf(files.Keys) !! files.Keys
  }

  /** Where the name after the prefix ends in a path. */
  function NameEnd(p: Text, from: nat): (end: nat)
    requires from <= |p|
    ensures from <= end <= |p| && (end < |p| ==> p[end] == SLASH) && SLASH !in p[from..end]
    decreases |p| - from
  {
    if from == |p| || p[from] == SLASH then from
    else
      var end := NameEnd(p, from + 1);
      assert p[from..end] == [p[from]] + p[from + 1..end];
      end
  }

  /** The path is this one or below it. */
  predicate Within(head: Text, p: Text) {
    p == head || Packages.StartsWith(p, head + [SLASH])
  }

  ghost function Inside(head: Text, files: map<Text, FileData>): map<Text, FileData> {
    map p | p in files && Within(head, p) :: files[p]
  }

  ghost function Outside(head: Text, files: map<Text, FileData>): map<Text, FileData> {
    map p | p in files && !Within(head, p) :: files[p]
  }

  lemma MoreParents(few: set<Text>, many: set<Text>)
    requires few <= many
    ensures Packages.ParentsOf(few) <= Packages.ParentsOf(many)
  {
  }

  lemma BelowFewer(prefix: Text, few: map<Text, FileData>, files: map<Text, FileData>)
    requires Below(prefix, files) && few.Keys <= files.Keys
    ensures Below(prefix, few)
  {
    hide CanonicalPath, Packages.ParentsOf, Packages.StartsWith, Packages.Base;
    MoreParents(few.Keys, files.Keys);
  }

  /** A canonical path does not go on with a slash after a directory above it. */
  lemma NameIsThere(prefix: Text, p: Text)
    requires CanonicalPath(p) && Packages.StartsWith(p, Packages.Base(prefix))
    ensures p[|Packages.Base(prefix)|] != SLASH
  {
    var base := Packages.Base(prefix);
    if p[|base|] == SLASH {
      assert p == base + [SLASH] + p[|base| + 1..];
      CanonicalHead(base, p[|base| + 1..]);
    }
  }

  /** The directory or file through which a path leaves its prefix. */
  function HeadIn(prefix: Text, p: Text): Text
    requires Packages.StartsWith(p, Packages.Base(prefix))
  {
    p[..NameEnd(p, |Packages.Base(prefix)|)]
  }

  function NameIn(prefix: Text, p: Text): Text
    requires Packages.StartsWith(p, Packages.Base(prefix))
  {
    p[|Packages.Base(prefix)|..NameEnd(p, |Packages.Base(prefix)|)]
  }

  lemma HeadIsName(prefix: Text, p: Text)
    requires CanonicalPath(p) && Packages.StartsWith(p, Packages.Base(prefix))
    ensures HeadIn(prefix, p) == Join(prefix, NameIn(prefix, p)) && NameIn(prefix, p) != [] && SLASH !in NameIn(prefix, p)
    ensures Within(HeadIn(prefix, p), p) && |prefix| < |HeadIn(prefix, p)| <= |p|
    ensures |HeadIn(prefix, p)| < |p| ==> p[|HeadIn(prefix, p)|] == SLASH
  {
    hide CanonicalPath;
    NameIsThere(prefix, p);
    var base := |Packages.Base(prefix)|;
    var end := NameEnd(p, base);
    assert p[..end] == p[..base] + p[base..end];
    if end < |p| {
      assert p[..end + 1] == p[..end] + [SLASH];
      CanonicalIsClean(p);
    } else {
      assert p[..end] == p;
    }
  }

  lemma OneDeeper(prefix: Text, name: Text)
    requires SLASH !in name
    ensures |Split(Join(prefix, name))| == if prefix == [] then 1 else |Split(prefix)| + 1
  {
    hide Split;
    NoSlashOneSegment(name);
    if prefix != [] {
      SplitAtSlash(prefix, name);
    }
  }

  lemma {:induction false} LaidTogether(a: seq<Item>, x: map<Text, FileData>, b: seq<Item>, y: map<Text, FileData>, files: map<Text, FileData>)
    requires Laid(a, x) && Laid(b, y) && files == x + y && x.Keys !! y.Keys
    requires forall i, j | i in a && j in b :: i.path != j.path
    ensures Laid(a + b, files)
  {
    hide Packages.ParentsOf, Split;
    MoreParents(x.Keys, files.Keys);
    MoreParents(y.Keys, files.Keys);
    forall i | i in a + b ensures Fitting(i, files) {
      assert if i in a then Fitting(i, x) else Fitting(i, y);
    }
    forall p | p in files ensures HasFile(a + b, p, files[p]) {
      if p in x {
        assert HasFile(a, p, x[p]);
      } else {
        assert HasFile(b, p, y[p]);
      }
    }
    forall i, j | 0 <= i < j < |a + b| ensures (a + b)[i].path != (a + b)[j].path {
      if i < |a| <= j {
        assert a[i] in a && b[j - |a|] in b;
      }
    }
  }

  lemma WithinExtends(head: Text, x: Text, p: Text)
    requires Within(head, x) && |x| < |p| && p[..|x|] == x && p[|x|] == SLASH && p[|p| - 1] != SLASH
    ensures Within(head, p)
  {
    if x == head {
      assert p[..|x| + 1] == head + [SLASH];
    } else {
      assert p[..|head| + 1] == x[..|head| + 1];
    }
  }

  /** What is laid outside a head is neither the head nor under it. */
  lemma LaidOutside(head: Text, files: map<Text, FileData>, i: Item)
    requires Fitting(i, Outside(head, files)) && forall p | p in files :: CanonicalPath(p)
    ensures !Within(head, i.path)
  {
    hide Split, CanonicalPath, Within;
    if i.node.DirNode? && Within(head, i.path) {
      var p, cut :| p in Outside(head, files) && 0 <= cut < |p| && p[cut] == SLASH && i.path == p[..cut];
      CanonicalIsClean(p);
      WithinExtends(head, i.path, p);
    }
  }

  lemma WithinIsBelow(p: Text, q: Text, paths: set<Text>)
    requires Within(p, q) && p != q && q in paths
    ensures p in Packages.ParentsOf(paths)
  {
    assert q[|p|] == (p + [SLASH])[|p|] && q[..|p|] == (p + [SLASH])[..|p|] == p;
  }

  /** A head that is itself a file has nothing under it. */
  lemma FileStandsAlone(prefix: Text, files: map<Text, FileData>, p: Text)
    requires Below(prefix, files) && p in files
    ensures Inside(p, files) == map[p := files[p]]
  {
    hide CanonicalPath, Packages.Base, Packages.ParentsOf;
    forall q | q in files && q != p ensures !Within(p, q) {
      if Within(p, q) {
        WithinIsBelow(p, q, files.Keys);
      }
    }
  }

  lemma FileIsLaid(name: Text, prefix: Text, depth: nat, data: FileData)
    requires depth == |Split(Join(prefix, name))|
    ensures Laid(ItemsOf(Child(name, FileNode(data)), prefix, depth), map[Join(prefix, name) := data])
  {
    hide Split, Packages.ParentsOf;
    var item := Item(Join(prefix, name), FileNode(data), depth);
    assert ItemsOf(Child(name, FileNode(data)), prefix, depth) == [item];
    assert item in [item];
  }

  lemma DirectoryIsLaid(name: Text, prefix: Text, depth: nat, inside: map<Text, FileData>, below: seq<Child>)
    requires depth == |Split(Join(prefix, name))| && Join(prefix, name) != []
    requires Join(prefix, name) in Packages.ParentsOf(inside.Keys)
    requires Packages.GoodNames(below) && Laid(Listing(below, Join(prefix, name), depth + 1), inside)
    ensures Laid(ItemsOf(Child(name, DirNode(below)), prefix, depth), inside)
  {
    hide Split, Packages.ParentsOf, Listing, Packages.GoodNames;
    var head := Join(prefix, name);
    var item, rest := Item(head, DirNode(below), depth), Listing(below, head, depth + 1);
    assert ItemsOf(Child(name, DirNode(below)), prefix, depth) == [item] + rest;
    forall i | i in rest ensures i.path != head {
      Packages.PathsExtend(below, head, depth + 1, i);
    }
    forall p | p in inside ensures HasFile([item] + rest, p, inside[p]) {
      assert HasFile(rest, p, inside[p]);
    }
    forall i, j | 0 <= i < j < |[item] + rest| ensures ([item] + rest)[i].path != ([item] + rest)[j].path {
      assert rest[j - 1] in rest;
    }
  }

  /** The files inside a head lie below it. */
  lemma InsideIsBelow(prefix: Text, files: map<Text, FileData>, head: Text, p: Text)
    requires Below(prefix, files) && p in files && head != [] && head !in files && Within(head, p)
    ensures Below(head, Inside(head, files)) && head in Packages.ParentsOf(Inside(head, files).Keys)
  {
    hide CanonicalPath;
    MoreParents(Inside(head, files).Keys, files.Keys);
    assert p[..|head| + 1] == head + [SLASH];
    assert p[|head|] == (head + [SLASH])[|head|] && p[..|head|] == (head + [SLASH])[..|head|] == head;
    assert p in Inside(head, files).Keys;
  }

  lemma AddedIsLaid(before: seq<Child>, c: Child, prefix: Text, depth: nat, files: map<Text, FileData>)
    requires Packages.GoodName(c) && forall p | p in files :: CanonicalPath(p)
    requires Laid(Listing(before, prefix, depth), Outside(Join(prefix, c.name), files))
    requires Laid(ItemsOf(c, prefix, depth), Inside(Join(prefix, c.name), files))
    ensures Laid(Listing(before + [c], prefix, depth), files)
  {
    hide Laid, ItemsOf, Fitting, Within, CanonicalPath, Packages.GoodName;
    var head := Join(prefix, c.name);
    var a, b := Listing(before, prefix, depth), ItemsOf(c, prefix, depth);
    assert (before + [c])[..|before|] == before;
    assert Listing(before + [c], prefix, depth) == a + b;
    forall i, j | i in a && j in b ensures i.path != j.path {
      LaidFits(a, Outside(head, files), i);
      LaidOutside(head, files, i);
      ChildIsWithin(c, prefix, depth, j);
    }
    assert files == Outside(head, files) + Inside(head, files);
    LaidTogether(a, Outside(head, files), b, Inside(head, files), files);
  }

  lemma LaidFits(items: seq<Item>, files: map<Text, FileData>, i: Item)
    requires Laid(items, files) && i in items
    ensures Fitting(i, files)
  {
  }

  lemma ChildIsWithin(c: Child, prefix: Text, depth: nat, i: Item)
    requires Packages.GoodName(c) && i in ItemsOf(c, prefix, depth)
    ensures Within(Join(prefix, c.name), i.path)
  {
    Packages.PathsOfChild(c, prefix, depth, i);
  }

  lemma OneName(before: seq<Child>, c: Child)
    requires Packages.GoodNames(before) && Packages.GoodName(c)
    ensures Packages.GoodNames(before + [c])
  {
  }

  lemma BelowHas(prefix: Text, files: map<Text, FileData>, p: Text)
    requires Below(prefix, files) && p in files
    ensures CanonicalPath(p) && |p| <= MAX_PATH_BYTES && Packages.StartsWith(p, Packages.Base(prefix))
    ensures forall q | q in files :: CanonicalPath(q)
  {
  }

  lemma NamedWell(name: Text, node: Node)
    requires name != [] && SLASH !in name && (node.DirNode? ==> Packages.GoodNames(node.children))
    ensures Packages.GoodName(Child(name, node))
  {
  }

  /** The prefix tree of any files whose paths allow one. */
  lemma {:induction false} GrowTree(files: map<Text, FileData>, prefix: Text, depth: nat) returns (children: seq<Child>)
    requires Below(prefix, files) && depth == if prefix == [] then 1 else |Split(prefix)| + 1
    ensures Packages.GoodNames(children) && Laid(Listing(children, prefix, depth), files)
    decreases |files|, MAX_PATH_BYTES - |prefix|
  {
    hide Split, Laid, Below, Within, Inside, Outside, CanonicalPath, ItemsOf, Listing, NameIn, HeadIn;
    hide Packages.ParentsOf, Packages.GoodNames, Packages.GoodName, Packages.StartsWith, Packages.Base;
    if files.Keys == {} {
      children := [];
      NothingLaid(files, prefix, depth);
    } else {
      var p :| p in files;
      BelowHas(prefix, files, p);
      var head, name := HeadIn(prefix, p), NameIn(prefix, p);
      HeadIsName(prefix, p);
      OneDeeper(prefix, name);
      SmallerParts(head, files, p);
      BelowFewer(prefix, Outside(head, files), files);
      var before := GrowTree(Outside(head, files), prefix, depth);
      var node;
      if head in files {
        FileStandsAlone(prefix, files, head);
        FileIsLaid(name, prefix, depth, files[head]);
        node := FileNode(files[head]);
      } else {
        InsideIsBelow(prefix, files, head, p);
        var below := GrowTree(Inside(head, files), head, depth + 1);
        DirectoryIsLaid(name, prefix, depth, Inside(head, files), below);
        node := DirNode(below);
      }
      NamedWell(name, node);
      AddedIsLaid(before, Child(name, node), prefix, depth, files);
      OneName(before, Child(name, node));
      children := before + [Child(name, node)];
    }
  }

  lemma NothingLaid(files: map<Text, FileData>, prefix: Text, depth: nat)
    requires files.Keys == {}
    ensures Packages.GoodNames([]) && Laid(Listing([], prefix, depth), files)
  {
  }

  lemma SmallerParts(head: Text, files: map<Text, FileData>, p: Text)
    requires p in files && Within(head, p)
    ensures |Outside(head, files)| < |files| && |Inside(head, files)| <= |files|
    ensures Outside(head, files).Keys <= files.Keys
  {
    hide Within;
    var inside, outside := Inside(head, files), Outside(head, files);
    assert |inside.Keys| == |inside| && |outside.Keys| == |outside| && |files.Keys| == |files|;
    FiniteSets.SubsetSize(inside.Keys, files.Keys);
    FiniteSets.SubsetSize(outside.Keys, files.Keys - {p});
  }

  // What is grown is accepted

  lemma ParentIsPath(head: Text, tail: Text)
    requires CanonicalPath(head + [SLASH] + tail)
    ensures CanonicalPath(head) && |Split(head)| < MAX_DEPTH
  {
    SplitAtSlash(head, tail);
    var parts := Split(head + [SLASH] + tail);
    forall i | 0 <= i < |Split(head)| ensures Segment(Split(head)[i]) {
      assert parts[i] == Split(head)[i];
    }
  }

  lemma FittingIsOk(i: Item, files: map<Text, FileData>)
    requires Fitting(i, files) && forall p | p in files :: CanonicalPath(p)
    ensures ItemOk(i)
  {
    hide CanonicalPath, Split;
    if i.node.DirNode? {
      var p, cut :| p in files && 0 <= cut < |p| && p[cut] == SLASH && i.path == p[..cut];
      assert p == p[..cut] + [SLASH] + p[cut + 1..];
      ParentIsPath(p[..cut], p[cut + 1..]);
    }
  }

  lemma {:induction false} DistinctPathsCount(items: seq<Item>, paths: set<Text>)
    requires forall i | i in items :: i.path in paths
    requires forall i, j | 0 <= i < j < |items| :: items[i].path != items[j].path
    ensures |items| <= |paths|
  {
    if items != [] {
      var init, last := items[..|items| - 1], items[|items| - 1];
      forall i | i in init ensures i.path in paths - {last.path} {
        var k :| 0 <= k < |init| && init[k] == i;
        assert items[k].path != last.path;
      }
      DistinctPathsCount(init, paths - {last.path});
    }
  }

  lemma LaidIsScannable(items: seq<Item>, files: map<Text, FileData>)
    requires Laid(items, files) && Treeable(files.Keys) && forall p | p in files :: CanonicalPath(p)
    ensures Scannable(items, 0, {})
  {
    hide Fold, CanonicalPath, Packages.ParentsOf, Split;
    var all := Packages.ParentsOf(files.Keys) + files.Keys;
    forall i | i in items ensures ItemOk(i) && i.path in all {
      FittingIsOk(i, files);
    }
    hide Fitting, ItemOk;
    DistinctPathsCount(items, all);
    forall i, j | 0 <= i < j < |items| ensures Fold(items[i].path) != Fold(items[j].path) {
      assert items[i] in items && items[j] in items;
    }
  }

  lemma LaidHasFiles(items: seq<Item>, files: map<Text, FileData>)
    requires Laid(items, files) && Scannable(items, 0, {})
    ensures FilesIn(items) == files
  {
    hide Fold, CanonicalPath, Packages.ParentsOf, Split, FilesIn, ItemOk;
    FilesInHas(items);
    forall p | p in FilesIn(items) ensures p in files && files[p] == FilesIn(items)[p] {
      assert HasFile(items, p, FilesIn(items)[p]);
      var i :| i in items && i.path == p && i.node == FileNode(FilesIn(items)[p]);
      assert Fitting(i, files);
    }
  }

  lemma TreeOf(files: map<Text, FileData>) returns (children: seq<Child>)
    requires Treeable(files.Keys) && forall p | p in files :: CanonicalPath(p)
    ensures Packages.GoodNames(children) && Scannable(Listing(children, [], 1), 0, {})
    ensures FilesIn(Listing(children, [], 1)) == files
  {
    hide CanonicalPath, Scannable, Laid, FilesIn, Fold, Packages.GoodNames, Packages.ParentsOf;
    forall p | p in files ensures Packages.StartsWith(p, Packages.Base([])) {
      CanonicalIsClean(p);
    }
    children := GrowTree(files, [], 1);
    LaidIsScannable(Listing(children, [], 1), files);
    LaidHasFiles(Listing(children, [], 1), files);
  }

  lemma ListedIsCanonical(f: Form, content: seq<Byte>, p: Text)
    requires ReadManifest(f, content).Some? && Lists(ReadManifest(f, content).value, p)
    ensures CanonicalPath(p)
  {
    hide CanonicalPath, Sort;
    var raw := f.json(content).value;
    var m := ReadManifest(f, content).value;
    SortKeeps(EntryLeq, raw.files);
    var e :| e in m.files && e.path == p;
    assert e in multiset(m.files);
    assert e in raw.files;
  }

  /** The files of an accepted archive. */
  lemma ArchivedFiles(f: Form, files: map<Text, FileData>)
    requires GoodVocabulary(f.vocabulary) && TarContent(f, files).Some?
    ensures HasManifest(f, files) && forall p | p in files :: CanonicalPath(p)
  {
    hide ManifestName, ReadManifest, Lists, Canonicalized, Parsed, CanonicalPath;
    ManifestNameIsPath();
    forall p | p in files ensures CanonicalPath(p) {
      if p != ManifestName() {
        assert Lists(ManifestOf(f, files), p);
        ListedIsCanonical(f, files[ManifestName()].bytes, p);
      }
    }
  }

  /** An accepted archive can be had as a directory, with the same content, if and only if its
      manifest does not list itself and the paths of its files can stand in one tree. */
  lemma ArchiveAsDirectory(f: Form, members: seq<Member>, k: nat)
    requires GoodVocabulary(f.vocabulary) && ArchiveOk(members, k) && TarForm(f, members).Some?
    ensures var files := FilesOf(members, k);
            && HasManifest(f, files)
            && ((exists children :: Holds(f, children, files))
                <==> !Lists(ManifestOf(f, files), ManifestName()) && Treeable(files.Keys))
            && (forall children | Holds(f, children, files) :: DirectoryForm(f, children) == TarForm(f, members))
  {
    hide Strippable, FilesOf, ReadManifest, Lists, TarForm, TarContent, DirectoryContent, Treeable, FilesIn, Listing, Scannable;
    hide CanonicalPath, ManifestName;
    var files := FilesOf(members, k);
    TarFormIs(f, members, k);
    ArchivedFiles(f, files);
    FormsAgree(f, files);
    if !Lists(ManifestOf(f, files), ManifestName()) && Treeable(files.Keys) {
      var children := TreeOf(files);
      assert Holds(f, children, files);
    }
    forall children | Holds(f, children, files)
      ensures !Lists(ManifestOf(f, files), ManifestName()) && Treeable(files.Keys)
    {
      AcceptedIsTreeable(children);
      AcceptedFiles(f, files);
    }
  }

  // ----- Where the forms differ

  lemma SizesTellApart(all: set<Text>)
    requires forall x, y | x in all && y in all && |x| == |y| :: x == y
    ensures forall x, y | x in all && y in all && Fold(x) == Fold(y) :: x == y
  {
    hide Fold;
    forall x, y | x in all && y in all && Fold(x) == Fold(y) ensures x == y {
      if x != y {
        FoldsDiffer(x, y);
      }
    }
  }

  lemma {:induction false} FewTexts(all: set<Text>, names: seq<Text>)
    requires forall x | x in all :: x in names
    ensures |all| <= |names|
  {
    if names == [] {
      assert all == {};
    } else {
      var last := names[|names| - 1];
      FewTexts(all - {last}, names[..|names| - 1]);
      FiniteSets.SubsetSize(all, all - {last} + {last});
    }
  }

  lemma SelfListingIsAccepted()
    ensures var f, files := PairForm([120], ManifestName()), PairFiles([120], ManifestName());
            && GoodVocabulary(f.vocabulary) && Packable(files.Keys)
            && TarContent(f, files).Some? && HasManifest(f, files) && Lists(ManifestOf(f, files), ManifestName())
  {
    hide ManifestName, ReadManifest, FilesOk, Lists, Parsed, CanonicalPath, Fold;
    var f, files := PairForm([120], ManifestName()), PairFiles([120], ManifestName());
    ManifestNameIsPath();
    FewTexts(files.Keys, [[120], ManifestName()]);
    SizesTellApart(files.Keys);
    var m := PairRead([120], ManifestName());
    PairFits([120], ManifestName(), m);
    assert files[ManifestName()].bytes == [1];
    assert Listed(m, files) == files;
  }

  /** A manifest with the files "x" and itself: there is an accepted archive, and no directory. */
  lemma SelfListingTellsFormsApart() returns (f: Form, members: seq<Member>)
    ensures GoodVocabulary(f.vocabulary) && Archives(members, PairFiles([120], ManifestName())) && TarForm(f, members).Some?
    ensures forall children :: !Holds(f, children, PairFiles([120], ManifestName()))
  {
    hide ManifestName, ReadManifest, Lists, CanonicalPath, Fold, Treeable, Packable, TarContent, FilesOf, Strippable, TarForm, Holds;
    f := PairForm([120], ManifestName());
    var files := PairFiles([120], ManifestName());
    SelfListingIsAccepted();
    members := FlatArchive(files);
    var k: nat :| ArchiveOk(members, k) && FilesOf(members, k) == files;
    TarFormIs(f, members, k);
    ArchiveAsDirectory(f, members, k);
  }

  /** "ss", and a manifest's name inside that directory. */
  function Nested(): Text {
    [115, 115] + [SLASH] + ManifestName()
  }

  ghost function NestedFiles(): map<Text, FileData> {
    PairFiles([120], Nested())[ManifestName() := OneByte()]
  }

  lemma BelowIsPath(name: Text, tail: Text)
    requires 1 <= |name| <= 2 && SLASH !in name && (forall i | 0 <= i < |name| :: Alphanumeric(name[i]))
    requires CanonicalPath(tail) && SLASH !in tail && |tail| < 200
    ensures CanonicalPath(name + [SLASH] + tail)
  {
    SplitAtSlash(name, tail);
    NoSlashOneSegment(name);
    NoSlashOneSegment(tail);
  }

  lemma NestedIsPath()
    ensures CanonicalPath(Nested()) && IsManifest(Nested()) && Nested() != ManifestName()
    ensures |Nested()| == 25 && Nested()[..2] == [115, 115] && forall i | 0 <= i < 25 :: Nested()[i] == SLASH <==> i == 2
  {
    hide ManifestName, CanonicalPath;
    ManifestNameIsPath();
    assert Nested()[2..] == [SLASH] + ManifestName();
    forall i | 0 <= i < 25 ensures Nested()[i] == SLASH <==> i == 2 {
      if i > 2 {
        assert Nested()[i] == ManifestName()[i - 3];
      }
    }
    BelowIsPath([115, 115], ManifestName());
  }

  lemma ParentsOfNested(paths: set<Text>)
    requires forall p | p in paths :: p == [120] || p == Nested() || p == ManifestName()
    ensures forall d | d in Packages.ParentsOf(paths) :: d == [115, 115]
  {
    hide ManifestName, Nested, CanonicalPath;
    NestedIsPath();
    forall d | d in Packages.ParentsOf(paths) ensures d == [115, 115] {
      var p, i :| p in paths && 0 <= i < |p| && p[i] == SLASH && d == p[..i];
    }
  }

  lemma FourTexts(all: set<Text>, a: Text, b: Text, c: Text, d: Text)
    requires forall x | x in all :: x == a || x == b || x == c || x == d
    requires |a| < |b| < |c| < |d|
    ensures |all| <= 4 && forall x, y | x in all && y in all && Fold(x) == Fold(y) :: x == y
  {
    hide Fold;
    FewTexts(all, [a, b, c, d]);
    SizesTellApart(all);
  }

  lemma NestedIsTreeable(paths: set<Text>)
    requires forall p | p in paths :: p == [120] || p == Nested() || p == ManifestName()
    ensures Treeable(paths)
  {
    hide ManifestName, Nested, Fold, CanonicalPath, IsManifest, Packages.ParentsOf;
    ParentsOfNested(paths);
    NestedIsPath();
    FourTexts(Packages.ParentsOf(paths) + paths, [120], [115, 115], ManifestName(), Nested());
  }

  /** A manifest that lists a file called like itself in a subdirectory: there is an accepted
      directory of its files, and no archive. */
  lemma NestedManifestTellsFormsApart() returns (f: Form, children: seq<Child>)
    ensures GoodVocabulary(f.vocabulary) && Holds(f, children, NestedFiles())
    ensures forall members :: !Archives(members, NestedFiles())
  {
    hide ManifestName, ReadManifest, FilesOk, Lists, Parsed, CanonicalPath, Listing, Scannable, FilesIn, Treeable, Packages.GoodNames;
    hide Archives, Fold;
    f := PairForm([120], Nested());
    var files := NestedFiles();
    NestedIsPath();
    NestedIsTreeable(files.Keys);
    ManifestNameIsPath();
    var m := PairRead([120], Nested());
    PairFits([120], Nested(), m);
    children := TreeOf(files);
    assert files - {ManifestName()} == PairFiles([120], Nested());
    forall members ensures !Archives(members, files) {
      NestedIsRefused(members, files, Nested());
    }
  }

  /** "A/x" and "a/yy". */
  ghost function CrossedFiles(): map<Text, FileData> {
    PairFiles([65, SLASH, 120], [97, SLASH, 121, 121])[ManifestName() := OneByte()]
  }

  lemma CrossedArePaths()
    ensures CanonicalPath([65, SLASH, 120]) && CanonicalPath([97, SLASH, 121, 121]) && CanonicalPath(ManifestName())
    ensures !IsManifest([65, SLASH, 120]) && !IsManifest([97, SLASH, 121, 121])
  {
    hide CanonicalPath;
    ManifestNameIsPath();
    NameIsPath([121, 121]);
    BelowIsPath([65], [120]);
    BelowIsPath([97], [121, 121]);
    assert [65, SLASH, 120] == [65] + [SLASH] + [120] && [97, SLASH, 121, 121] == [97] + [SLASH] + [121, 121];
  }

  lemma CrossedIsPackable(paths: set<Text>)
    requires paths == {[65, SLASH, 120], [97, SLASH, 121, 121], ManifestName()}
    ensures Packable(paths)
  {
    hide ManifestName, CanonicalPath, Fold;
    CrossedArePaths();
    SizesTellApart(paths);
  }

  lemma CrossedIsNotTreeable(paths: set<Text>)
    requires [65, SLASH, 120] in paths && [97, SLASH, 121, 121] in paths
    ensures !Treeable(paths)
  {
    var a, b: Text := [65, SLASH, 120], [97, SLASH, 121, 121];
    assert a[1] == SLASH && a[..1] == [65] && b[1] == SLASH && b[..1] == [97];
    assert [65] in Packages.ParentsOf(paths) && [97] in Packages.ParentsOf(paths);
    assert Fold([65]) == Fold([97]);
  }

  lemma CrossedIsAccepted()
    ensures GoodVocabulary(PairForm([65, SLASH, 120], [97, SLASH, 121, 121]).vocabulary)
    ensures TarContent(PairForm([65, SLASH, 120], [97, SLASH, 121, 121]), CrossedFiles()).Some?
  {
    hide ManifestName, ReadManifest, FilesOk, Lists, Parsed, CanonicalPath;
    var a, b := [65, SLASH, 120], [97, SLASH, 121, 121];
    CrossedArePaths();
    var m := PairRead(a, b);
    PairFits(a, b, m);
    var files := CrossedFiles();
    assert a in files && b in files && files[ManifestName()].bytes == [1];
    assert Listed(m, files) == PairFiles(a, b);
  }

  /** Two directories that only case tells apart: there is an accepted archive, and no directory. */
  lemma CrossedDirectoriesTellFormsApart() returns (f: Form, members: seq<Member>)
    ensures GoodVocabulary(f.vocabulary) && Archives(members, CrossedFiles()) && TarForm(f, members).Some?
    ensures forall children :: !Holds(f, children, CrossedFiles())
  {
    hide ManifestName, ReadManifest, FilesOk, Lists, Parsed, CanonicalPath, Fold, Treeable, Packable, FilesOf, Strippable, TarForm, Holds;
    var a, b := [65, SLASH, 120], [97, SLASH, 121, 121];
    f := PairForm(a, b);
    var files := CrossedFiles();
    CrossedArePaths();
    CrossedIsPackable(files.Keys);
    CrossedIsNotTreeable(files.Keys);
    members := FlatArchive(files);
    var k: nat :| ArchiveOk(members, k) && FilesOf(members, k) == files;
    CrossedIsAccepted();
    TarFormIs(f, members, k);
    ArchiveAsDirectory(f, members, k);
  }
}
