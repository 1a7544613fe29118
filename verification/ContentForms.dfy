/** nir/model_content.py: what does not show in a commitment: the order of directory entries and of
    archive members, a wrapper directory, and which of the two forms the files came in. */
module ContentForms {
  import opened Ordering
  import opened Results
  import opened Sums
  import opened ModelContent
  import opened ContentSources

  // ----- The order of directory entries, at every depth

  /** The same tree, its directories listed in any order. */
  ghost predicate SameNode(a: Node, b: Node)
    decreases a, 1
  {
    match (a, b)
    case (FileNode(x), FileNode(y)) => x == y
    case (DirNode(x), DirNode(y)) => SameChildren(x, y)
    case (OtherNode, OtherNode) => true
    case _ => false
  }

  ghost predicate SameChildren(a: seq<Child>, b: seq<Child>)
    decreases a, 0
  {
    if a == [] then b == []
    else
      exists j | 0 <= j < |b| ::
        && a[|a| - 1].name == b[j].name && SameNode(a[|a| - 1].node, b[j].node)
        && SameChildren(a[..|a| - 1], b[..j] + b[j + 1..])
  }

  datatype What = AFile(data: FileData) | ADirectory | AnOther

  /** What a scan looks at in an item: all but the contents of a directory. */
  datatype Line = Line(path: Text, what: What, depth: nat)

  function WhatIs(n: Node): What {
    match n
    case FileNode(data) => AFile(data)
    case DirNode(_) => ADirectory
    case OtherNode => AnOther
  }

  function LineOf(i: Item): Line {
    Line(i.path, WhatIs(i.node), i.depth)
  }

  function Lines(items: seq<Item>): (r: seq<Line>)
    ensures |r| == |items| && forall i | 0 <= i < |items| :: r[i] == LineOf(items[i])
  {
    Map(LineOf, items)
  }

  lemma LinesAppend(a: seq<Item>, b: seq<Item>)
    ensures Lines(a + b) == Lines(a) + Lines(b)
  {
  }

  lemma {:induction false} ListingAppend(x: seq<Child>, y: seq<Child>, prefix: Text, depth: nat)
    ensures Listing(x + y, prefix, depth) == Listing(x, prefix, depth) + Listing(y, prefix, depth)
  {
    if y == [] {
      assert x + y == x;
    } else {
      var init := y[..|y| - 1];
      assert (x + y)[..|x + y| - 1] == x + init;
      ListingAppend(x, init, prefix, depth);
    }
  }

  /** Listing one child earlier or later moves its lines, and changes none. */
  lemma ListingWithout(b: seq<Child>, j: nat, prefix: Text, depth: nat)
    requires j < |b|
    ensures multiset(Lines(Listing(b, prefix, depth)))
         == multiset(Lines(Listing(b[..j] + b[j + 1..], prefix, depth))) + multiset(Lines(ItemsOf(b[j], prefix, depth)))
  {
    hide Lines, ItemsOf, Listing;
    var front, back := b[..j], b[j + 1..];
    assert b == front + [b[j]] + back;
    ListingAppend(front + [b[j]], back, prefix, depth);
    ListingAppend(front, [b[j]], prefix, depth);
    ListingAppend(front, back, prefix, depth);
    ListingOne(b[j], prefix, depth);
    var f, m, l := Listing(front, prefix, depth), ItemsOf(b[j], prefix, depth), Listing(back, prefix, depth);
    LinesAppend(f + m, l);
    LinesAppend(f, m);
    LinesAppend(f, l);
  }

  lemma ListingOne(c: Child, prefix: Text, depth: nat)
    ensures Listing([c], prefix, depth) == ItemsOf(c, prefix, depth)
  {
    assert [c][..0] == [];
  }

  lemma {:induction false} SameLines(a: seq<Child>, b: seq<Child>, prefix: Text, depth: nat)
    requires SameChildren(a, b)
    ensures multiset(Lines(Listing(a, prefix, depth))) == multiset(Lines(Listing(b, prefix, depth)))
    decreases a, 1
  {
    if a != [] {
      var init, last := a[..|a| - 1], a[|a| - 1];
      var j :| 0 <= j < |b| && last.name == b[j].name && SameNode(last.node, b[j].node)
               && SameChildren(init, b[..j] + b[j + 1..]);
      SameLines(init, b[..j] + b[j + 1..], prefix, depth);
      SameLinesOf(last, b[j], prefix, depth);
      ListingWithout(b, j, prefix, depth);
      hide Lines, ItemsOf;
      LinesAppend(Listing(init, prefix, depth), ItemsOf(last, prefix, depth));
    }
  }

  lemma {:induction false} SameLinesOf(c: Child, d: Child, prefix: Text, depth: nat)
    requires c.name == d.name && SameNode(c.node, d.node)
    ensures multiset(Lines(ItemsOf(c, prefix, depth))) == multiset(Lines(ItemsOf(d, prefix, depth)))
    decreases c, 0
  {
    var path := Join(prefix, c.name);
    if c.node.DirNode? {
      SameLines(c.node.children, d.node.children, path, depth + 1);
      hide Lines, Listing;
      LinesAppend([Item(path, c.node, depth)], Listing(c.node.children, path, depth + 1));
      LinesAppend([Item(path, d.node, depth)], Listing(d.node.children, path, depth + 1));
      LinesOne(Item(path, c.node, depth));
      LinesOne(Item(path, d.node, depth));
    } else {
      assert WhatIs(c.node) == WhatIs(d.node);
      assert Lines(ItemsOf(c, prefix, depth)) == Lines(ItemsOf(d, prefix, depth));
    }
  }

  lemma LinesOne(i: Item)
    ensures Lines([i]) == [LineOf(i)]
  {
  }

  predicate LineOk(l: Line) {
    CanonicalPath(l.path) && !l.what.AnOther? && (l.what.ADirectory? ==> l.depth < MAX_DEPTH)
  }

  predicate FoldsApart(x: Line, y: Line) {
    Fold(x.path) != Fold(y.path)
  }

  /** The scan judges by the lines. */
  lemma ScannableByLines(items: seq<Item>)
    ensures Scannable(items, 0, {}) <==>
            |items| <= MAX_ENTRIES && (forall l | l in Lines(items) :: LineOk(l)) && Pairwise(FoldsApart, Lines(items))
  {
    hide CanonicalPath, Fold;
    var lines := Lines(items);
    if Scannable(items, 0, {}) {
      forall l | l in lines ensures LineOk(l) {
        var i :| 0 <= i < |lines| && lines[i] == l;
        assert ItemOk(items[i]);
      }
      forall i, j | 0 <= i < j < |lines| ensures FoldsApart(lines[i], lines[j]) {
        assert Fold(items[i].path) != Fold(items[j].path);
      }
    }
    if |items| <= MAX_ENTRIES && (forall l | l in lines :: LineOk(l)) && Pairwise(FoldsApart, lines) {
      forall i | 0 <= i < |items| ensures ItemOk(items[i]) {
        assert lines[i] in lines && LineOk(lines[i]);
      }
      forall i, j | 0 <= i < j < |items| ensures Fold(items[i].path) != Fold(items[j].path) {
        assert FoldsApart(lines[i], lines[j]);
      }
    }
  }

  lemma FileByLines(items: seq<Item>, p: Text, data: FileData)
    ensures HasFile(items, p, data) <==> exists l :: l in Lines(items) && l.path == p && l.what == AFile(data)
  {
    if i :| i in items && i.path == p && i.node == FileNode(data) {
      var k :| 0 <= k < |items| && items[k] == i;
      assert Lines(items)[k] in Lines(items);
    }
    if l :| l in Lines(items) && l.path == p && l.what == AFile(data) {
      var k :| 0 <= k < |items| && Lines(items)[k] == l;
      assert items[k] in items;
    }
  }

  lemma SameScan(a: seq<Item>, b: seq<Item>)
    requires multiset(Lines(a)) == multiset(Lines(b))
    ensures Scannable(a, 0, {}) <==> Scannable(b, 0, {})
  {
    ScannableByLines(a);
    ScannableByLines(b);
    assert |multiset(Lines(a))| == |multiset(Lines(b))|;
    hide Scannable, LineOk, Lines, FoldsApart;
    forall l ensures l in Lines(a) <==> l in Lines(b) {
      assert l in multiset(Lines(a)) <==> l in multiset(Lines(b));
    }
    ApartIsSymmetric();
    if Pairwise(FoldsApart, Lines(a)) {
      PairwisePermutes(FoldsApart, Lines(a), Lines(b));
    }
    if Pairwise(FoldsApart, Lines(b)) {
      PairwisePermutes(FoldsApart, Lines(b), Lines(a));
    }
  }

  lemma ApartIsSymmetric()
    ensures forall x, y :: FoldsApart(x, y) == FoldsApart(y, x)
  {
    hide Fold;
  }

  lemma SameFiles(a: seq<Item>, b: seq<Item>)
    requires multiset(Lines(a)) == multiset(Lines(b)) && Scannable(a, 0, {}) && Scannable(b, 0, {})
    ensures FilesIn(a) == FilesIn(b)
  {
    hide FilesIn, Fold, ItemOk, HasFile, Lines;
    FilesInHas(a);
    FilesInHas(b);
    forall l ensures l in Lines(a) <==> l in Lines(b) {
      assert l in multiset(Lines(a)) <==> l in multiset(Lines(b));
    }
    forall p, data ensures HasFile(a, p, data) <==> HasFile(b, p, data) {
      FileByLines(a, p, data);
      FileByLines(b, p, data);
    }
    forall p | p in FilesIn(a) ensures p in FilesIn(b) && FilesIn(b)[p] == FilesIn(a)[p] {
      assert HasFile(a, p, FilesIn(a)[p]);
    }
    forall p | p in FilesIn(b) ensures p in FilesIn(a) {
      assert HasFile(b, p, FilesIn(b)[p]);
    }
  }

  /** In which order the directories of a tree hand out their entries, at whatever depth, makes no
      difference: the same content, or refused both. */
  lemma ScanOrderIsIrrelevant(f: Form, a: seq<Child>, b: seq<Child>)
    requires GoodVocabulary(f.vocabulary) && SameChildren(a, b)
    ensures DirectoryForm(f, a) == DirectoryForm(f, b)
  {
    var x, y := Listing(a, [], 1), Listing(b, [], 1);
    SameLines(a, b, [], 1);
    hide Scannable, FilesIn, Lines, Listing, DirectoryContent;
    SameScan(x, y);
    if Scannable(x, 0, {}) {
      SameFiles(x, y);
    }
  }

  lemma {:induction false} SameAsItself(a: seq<Child>)
    ensures SameChildren(a, a)
    decreases a, 0
  {
    if a != [] {
      var n := |a| - 1;
      assert a[..n] + a[n + 1..] == a[..n];
      SameAsItself(a[..n]);
      if a[n].node.DirNode? {
        SameAsItself(a[n].node.children);
      }
    }
  }

  lemma Swapped(x: Child, y: Child)
    ensures SameChildren([x, y], [y, x])
  {
    SameAsItself([x]);
    SameAsItself([y]);
    assert [x, y][..1] == [x] && [y, x][..0] + [y, x][1..] == [x];
  }

  /** Two entries changing places, in a directory as deep as one likes. */
  lemma SwappedBelow(name: Text, x: Child, y: Child)
    ensures SameChildren([Child(name, DirNode([x, y]))], [Child(name, DirNode([y, x]))])
  {
    Swapped(x, y);
    var a, b := [Child(name, DirNode([x, y]))], [Child(name, DirNode([y, x]))];
    assert a[..0] == [] && b[..0] + b[1..] == [];
  }

  // ----- Small manifests

  lemma {:induction false} NoSlashOneSegment(t: Text)
    requires SLASH !in t
    ensures Split(t) == [t]
  {
    if t != [] {
      NoSlashOneSegment(t[1..]);
      assert t == [t[0]] + t[1..];
    }
  }

  lemma NameIsPath(t: Text)
    requires 1 <= |t| <= 128 && forall i | 0 <= i < |t| :: Alphanumeric(t[i]) || t[i] == 46 || t[i] == 45
    requires Alphanumeric(t[0]) && Alphanumeric(t[|t| - 1])
    ensures CanonicalPath(t)
  {
    NoSlashOneSegment(t);
  }

  /** Role "b", adapter "a"; two files, the first of them the entrypoint. */
  ghost function PairManifest(a: Text, b: Text): RawManifest {
    RawManifest([98], [97], a, [Entry(a, false), Entry(b, false)])
  }

  ghost function PairForm(a: Text, b: Text): Form {
    Form(Vocabulary([97], [98], [99]), _ => Some(PairManifest(a, b)))
  }

  function OneByte(): FileData {
    FileData(false, [1])
  }

  function PairFiles(a: Text, b: Text): map<Text, FileData> {
    map[a := OneByte(), b := OneByte()]
  }

  lemma ManifestNameIsPath()
    ensures CanonicalPath(ManifestName()) && CanonicalPath([120])
  {
    hide CanonicalPath;
    NameIsPath([120]);
    var name := ManifestName();
    assert forall i | 0 <= i < 22 :: Alphanumeric(name[i]) || name[i] == 46 || name[i] == 45;
    NameIsPath(name);
  }

  lemma PairIsValid(a: Text, b: Text)
    requires CanonicalPath(a) && CanonicalPath(b) && |a| != |b|
    ensures GoodVocabulary(PairForm(a, b).vocabulary) && ManifestOk(PairForm(a, b).vocabulary, PairManifest(a, b))
  {
    hide CanonicalPath, Fold;
    var m := PairManifest(a, b);
    assert PathsOf(m.files) == [a, b];
    FoldsDiffer(a, b);
    assert m.files[0] == Entry(a, false);
  }

  lemma FoldsDiffer(a: Text, b: Text)
    requires |a| != |b|
    ensures Fold(a) != Fold(b)
  {
    assert |Fold(a)| == |a| && |Fold(b)| == |b|;
  }

  lemma TwoSizes(entries: seq<Entry>, files: map<Text, FileData>)
    requires |entries| == 2 && (forall e | e in entries :: e.path in files) && forall p | p in files :: |files[p].bytes| == 1
    ensures TotalSize(entries, files) == 2
  {
    assert entries[0] in entries && entries[1] in entries;
    var one := entries[..1];
    assert one[0] == entries[0] && one[..0] == [];
    assert forall e | e in one :: e in entries;
    assert TotalSize(one, files) == TotalSize([], files) + |files[one[0].path].bytes|;
  }

  /** Whatever the manifest file says, it is read as this manifest, which is valid. */
  lemma PairRead(a: Text, b: Text) returns (m: RawManifest)
    requires CanonicalPath(a) && CanonicalPath(b) && |a| != |b|
    ensures GoodVocabulary(PairForm(a, b).vocabulary) && ReadManifest(PairForm(a, b), [1]) == Some(m) && Parsed(m)
    ensures m.entrypoint == a && |m.files| == 2
    ensures forall e :: e in m.files <==> e == Entry(a, false) || e == Entry(b, false)
    ensures forall p :: Lists(m, p) <==> p == a || p == b
  {
    var raw := PairManifest(a, b);
    m := raw.(files := Sort(EntryLeq, raw.files));
    hide ManifestOk, Sort, CanonicalPath;
    PairIsValid(a, b);
    SortKeeps(EntryLeq, raw.files);
    forall e ensures e in m.files <==> e == Entry(a, false) || e == Entry(b, false) {
      assert e in multiset(m.files) <==> e in multiset(raw.files);
    }
    assert ReadManifest(PairForm(a, b), [1]) == Some(m);
    ReadIsParsed(PairForm(a, b), [1]);
    assert Entry(a, false) in m.files && Entry(b, false) in m.files;
  }

  lemma PairFits(a: Text, b: Text, m: RawManifest)
    requires m.entrypoint == a && |m.files| == 2
    requires forall e :: e in m.files <==> e == Entry(a, false) || e == Entry(b, false)
    ensures FilesOk(m, PairFiles(a, b))
  {
    hide TotalSize;
    assert Entry(a, false) in m.files && Entry(b, false) in m.files;
    assert Lists(m, a) && Lists(m, b);
    TwoSizes(m.files, PairFiles(a, b));
  }

  // ----- The order of archive members

  predicate NoTwoManifests(x: Text, y: Text) {
    !(IsManifest(Clean(x)) && IsManifest(Clean(y)))
  }

  predicate ApartIn(prefix: Text, x: Text, y: Text) {
    var a, b := Relative(prefix, Clean(x)), Relative(prefix, Clean(y));
    a.Some? && b.Some? ==> a.value == [] || b.value == [] || Fold(a.value) != Fold(b.value)
  }

  ghost predicate Fits(prefix: Text, names: seq<Text>) {
    && (forall n | n in names :: CanonicalPath(Clean(n)) && Relative(prefix, Clean(n)).Some?)
    && Pairwise(NoTwoManifests, names)
    && Pairwise((x: Text, y: Text) => ApartIn(prefix, x, y), names)
  }

  /** Strippable, said without positions: one name is a manifest, and all fit into its wrapper. */
  lemma StrippableIs(names: seq<Text>, k: nat)
    requires k < |names| && IsManifest(Clean(names[k])) && |Clean(names[k])| >= 22
    ensures Strippable(names, k) <==> Fits(PrefixOf(Clean(names[k])), names)
  {
    hide IsManifest, Clean, CanonicalPath, PrefixOf, Fold, Relative;
    var prefix := PrefixOf(Clean(names[k]));
    var apart := (x: Text, y: Text) => ApartIn(prefix, x, y);
    if Strippable(names, k) {
      forall n | n in names ensures CanonicalPath(Clean(n)) && Relative(prefix, Clean(n)).Some? {
        var i :| 0 <= i < |names| && names[i] == n;
      }
      forall i, j | 0 <= i < j < |names| ensures NoTwoManifests(names[i], names[j]) && apart(names[i], names[j]) {
        assert IsManifest(Clean(names[i])) <==> i == k;
      }
    }
    if Fits(prefix, names) {
      forall i | 0 <= i < |names|
        ensures CanonicalPath(Clean(names[i])) && Relative(prefix, Clean(names[i])).Some?
        ensures IsManifest(Clean(names[i])) <==> i == k
      {
        assert names[i] in names;
        if i < k {
          assert NoTwoManifests(names[i], names[k]);
        } else if i > k {
          assert NoTwoManifests(names[k], names[i]);
        }
      }
      forall i, j | 0 <= i < j < |names| ensures apart(names[i], names[j]) {
      }
    }
  }

  lemma FitsPermutes(prefix: Text, a: seq<Text>, b: seq<Text>)
    requires multiset(a) == multiset(b) && Fits(prefix, a)
    ensures Fits(prefix, b)
  {
    hide IsManifest, Clean, CanonicalPath, Fold, Relative;
    forall n | n in b ensures n in a {
      assert n in multiset(b);
    }
    var apart := (x: Text, y: Text) => ApartIn(prefix, x, y);
    assert forall x, y :: NoTwoManifests(x, y) == NoTwoManifests(y, x);
    PairwisePermutes(NoTwoManifests, a, b);
    assert forall x, y :: apart(x, y) == apart(y, x);
    PairwisePermutes(apart, a, b);
  }

  /** Reordered members can be unpacked just as well, around the same manifest. */
  lemma ReorderedIsOk(a: seq<Member>, k: nat, b: seq<Member>) returns (l: nat)
    requires multiset(a) == multiset(b) && ArchiveOk(a, k)
    ensures ArchiveOk(b, l) && a[k] == b[l]
  {
    hide IsManifest, Clean, CanonicalPath, PrefixOf, Fold, Relative, Fits;
    MapPermutes((m: Member) => m.name, a, b);
    assert |multiset(a)| == |multiset(b)|;
    PrefixIsDefined(NamesOf(a), k);
    assert a[k] in multiset(b);
    l :| 0 <= l < |b| && b[l] == a[k];
    StrippableIs(NamesOf(a), k);
    FitsPermutes(PrefixOf(Clean(NamesOf(a)[k])), NamesOf(a), NamesOf(b));
    StrippableIs(NamesOf(b), l);
    forall i | 0 <= i < |b| ensures b[i].kind != OtherMember {
      assert b[i] in multiset(a);
      var j :| 0 <= j < |a| && a[j] == b[i];
    }
  }

  lemma SameFile(a: seq<Member>, k: nat, b: seq<Member>, l: nat, p: Text)
    requires multiset(a) == multiset(b) && Strippable(NamesOf(a), k) && Strippable(NamesOf(b), l) && a[k] == b[l]
    requires p in FilesOf(a, k)
    ensures p in FilesOf(b, l) && FilesOf(b, l)[p] == FilesOf(a, k)[p]
  {
    var files, others := FilesOf(a, k), FilesOf(b, l);
    assert AreFiles(files, a, k) && AreFiles(others, b, l);
    hide Strippable, FilesOf, Relative, PrefixOf, Clean;
    var i :| 0 <= i < |a| && a[i].kind == RegularMember && RelativeAt(NamesOf(a), k, i) == p && p != [];
    assert a[i] in multiset(b);
    var j :| 0 <= j < |b| && b[j] == a[i];
    assert NamesOf(b)[j] == NamesOf(a)[i] && NamesOf(b)[l] == NamesOf(a)[k];
    assert RelativeAt(NamesOf(b), l, j) == p;
  }

  lemma SameFilesOf(a: seq<Member>, k: nat, b: seq<Member>, l: nat)
    requires multiset(a) == multiset(b) && Strippable(NamesOf(a), k) && Strippable(NamesOf(b), l) && a[k] == b[l]
    ensures FilesOf(a, k) == FilesOf(b, l)
  {
    hide Strippable, FilesOf;
    var files, others := FilesOf(a, k), FilesOf(b, l);
    forall p | p in files ensures p in others && others[p] == files[p] {
      SameFile(a, k, b, l, p);
    }
    forall p | p in others ensures p in files {
      SameFile(b, l, a, k, p);
    }
  }

  /** The members of an archive may come in any order: the same content, or refused both. */
  lemma MemberOrderIsIrrelevant(f: Form, a: seq<Member>, b: seq<Member>)
    requires GoodVocabulary(f.vocabulary) && multiset(a) == multiset(b)
    ensures TarForm(f, a) == TarForm(f, b)
  {
    hide Strippable, FilesOf, TarContent;
    if k: nat :| ArchiveOk(a, k) {
      var l := ReorderedIsOk(a, k, b);
      SameFilesOf(a, k, b, l);
      TarFormIs(f, a, k);
      TarFormIs(f, b, l);
    } else if l: nat :| ArchiveOk(b, l) {
      var k := ReorderedIsOk(b, l, a);
    }
  }

  // ----- A wrapper directory

  /** The same archive with everything inside one more directory. */
  function Wrapped(prefix: Text, members: seq<Member>): (r: seq<Member>)
    ensures |r| == |members|
    ensures forall i | 0 <= i < |members| :: r[i] == members[i].(name := prefix + [SLASH] + members[i].name)
  {
    if members == [] then [] else [members[0].(name := prefix + [SLASH] + members[0].name)] + Wrapped(prefix, members[1..])
  }

  lemma {:induction false} CleanInside(prefix: Text, name: Text)
    requires Clean(name) != []
    ensures Clean(prefix + [SLASH] + name) == prefix + [SLASH] + Clean(name)
  {
    var t := prefix + [SLASH] + name;
    if name != [] && name[|name| - 1] == SLASH {
      CleanInside(prefix, name[..|name| - 1]);
      assert t[..|t| - 1] == prefix + [SLASH] + name[..|name| - 1];
    }
  }

  lemma ManifestInside(prefix: Text, path: Text)
    requires path != []
    ensures IsManifest(prefix + [SLASH] + path) <==> IsManifest(path)
  {
    hide ManifestName;
    var t, suffix := prefix + [SLASH] + path, [SLASH] + ManifestName();
    if |path| >= 22 {
      if |path| == 22 {
        assert t[|t| - 23..] == [SLASH] + path;
        assert ([SLASH] + path)[1..] == path && suffix[1..] == ManifestName();
      } else {
        assert t[|t| - 23..] == path[|path| - 23..];
      }
      NotTheName(t, |prefix|);
    } else {
      if |t| >= 23 {
        // The tail has a slash where the suffix has a letter of the name.
        var at := |prefix| - (|t| - 23);
        assert t[|t| - 23..][at] == t[|prefix|];
        assert suffix[at] == ManifestName()[at - 1];
      }
      NotTheName(t, |prefix|);
    }
  }

  /** A text with a slash in it is not the manifest's name. */
  lemma NotTheName(t: Text, i: nat)
    requires i < |t| && t[i] == SLASH
    ensures t != ManifestName()
  {
  }

  lemma InsideIsPath(prefix: Text, path: Text)
    requires CanonicalPath(prefix + [SLASH] + path)
    ensures CanonicalPath(path) && path != []
  {
    SplitAtSlash(prefix, path);
    var parts := Split(prefix + [SLASH] + path);
    forall i | 0 <= i < |Split(path)| ensures Segment(Split(path)[i]) {
      assert parts[|Split(prefix)| + i] == Split(path)[i];
    }
    assert Segment(Split(path)[0]);
  }

  /** The names of an archive whose members all stand inside this directory. */
  ghost predicate Wraps(prefix: Text, members: seq<Member>) {
    forall i | 0 <= i < |members| :: CanonicalPath(prefix + [SLASH] + Clean(members[i].name))
  }

  lemma WrappedName(prefix: Text, members: seq<Member>, i: nat)
    requires Wraps(prefix, members) && i < |members|
    ensures NamesOf(members)[i] == members[i].name
    ensures CanonicalPath(Clean(members[i].name)) && Clean(members[i].name) != []
    ensures Clean(NamesOf(Wrapped(prefix, members))[i]) == prefix + [SLASH] + Clean(members[i].name)
    ensures IsManifest(Clean(NamesOf(Wrapped(prefix, members))[i])) <==> IsManifest(Clean(members[i].name))
  {
    hide Clean, IsManifest, CanonicalPath;
    InsideIsPath(prefix, Clean(members[i].name));
    CleanInside(prefix, members[i].name);
    ManifestInside(prefix, Clean(members[i].name));
  }

  /** The wrapper of the wrapped manifest: the new directory, and the old wrapper inside it. */
  function Outer(prefix: Text, inner: Text): Text {
    if inner == [] then prefix else prefix + [SLASH] + inner
  }

  lemma HeadOf(head: Text)
    requires CanonicalPath(head + [SLASH] + ManifestName())
    ensures head != [] && PrefixOf(head + [SLASH] + ManifestName()) == head
  {
    var path := head + [SLASH] + ManifestName();
    CanonicalHead(head, ManifestName());
    hide CanonicalPath;
    assert path[..|path| - 22] == head + [SLASH];
    assert (head + [SLASH])[..|head|] == head;
  }

  lemma WrappedPrefix(prefix: Text, path: Text)
    requires IsManifest(path) && CanonicalPath(path) && CanonicalPath(prefix + [SLASH] + path)
    ensures |path| >= 22 && |prefix + [SLASH] + path| >= 22 && prefix != []
    ensures PrefixOf(prefix + [SLASH] + path) == Outer(prefix, PrefixOf(path))
  {
    hide CanonicalPath, PrefixOf;
    if path == ManifestName() {
      HeadOf(prefix);
      NoPrefix();
    } else {
      var head := path[..|path| - 23];
      assert path == head + [SLASH] + ManifestName();
      HeadOf(head);
      assert prefix + [SLASH] + path == (prefix + [SLASH] + head) + [SLASH] + ManifestName();
      HeadOf(prefix + [SLASH] + head);
      CanonicalHead(prefix, path);
    }
  }

  lemma NoPrefix()
    ensures PrefixOf(ManifestName()) == []
  {
  }

  lemma RelativeInside(prefix: Text, inner: Text, path: Text)
    requires prefix != []
    ensures Relative(Outer(prefix, inner), prefix + [SLASH] + path) == Relative(inner, path)
  {
    var head := prefix + [SLASH];
    var t := head + path;
    if inner == [] {
      assert t[..|prefix| + 1] == head && t[|prefix| + 1..] == path;
    } else {
      var outer := head + inner;
      assert Outer(prefix, inner) == outer;
      assert t[|head|..] == path && outer[|head|..] == inner;
      if |path| > |inner| {
        assert t[..|outer| + 1] == head + path[..|inner| + 1];
        assert outer + [SLASH] == head + (inner + [SLASH]);
        assert (head + path[..|inner| + 1])[|head|..] == path[..|inner| + 1] && (head + (inner + [SLASH]))[|head|..] == inner + [SLASH];
        assert t[|outer| + 1..] == path[|inner| + 1..];
      }
    }
  }

  /** Inside one more directory every member keeps its path relative to the manifest. */
  lemma WrappedRelatives(prefix: Text, members: seq<Member>, k: nat)
    requires Wraps(prefix, members) && k < |members| && IsManifest(Clean(members[k].name))
    ensures var names, wrapped := NamesOf(members), NamesOf(Wrapped(prefix, members));
            && |Clean(names[k])| >= 22 && |Clean(wrapped[k])| >= 22
            && forall i | 0 <= i < |members| ::
                 Relative(PrefixOf(Clean(wrapped[k])), Clean(wrapped[i])) == Relative(PrefixOf(Clean(names[k])), Clean(names[i]))
  {
    hide Clean, IsManifest, CanonicalPath, PrefixOf, Relative;
    var names, wrapped := NamesOf(members), NamesOf(Wrapped(prefix, members));
    WrappedName(prefix, members, k);
    WrappedPrefix(prefix, Clean(names[k]));
    forall i | 0 <= i < |members|
      ensures Relative(PrefixOf(Clean(wrapped[k])), Clean(wrapped[i])) == Relative(PrefixOf(Clean(names[k])), Clean(names[i]))
    {
      WrappedName(prefix, members, i);
      RelativeInside(prefix, PrefixOf(Clean(names[k])), Clean(names[i]));
    }
  }

  /** Strippable says nothing of names but this. */
  lemma StrippableTransfers(a: seq<Text>, b: seq<Text>, k: nat)
    requires Strippable(a, k) && |a| == |b| && |Clean(a[k])| >= 22 && |Clean(b[k])| >= 22
    requires forall i | 0 <= i < |b| :: CanonicalPath(Clean(b[i])) && (IsManifest(Clean(b[i])) <==> IsManifest(Clean(a[i])))
    requires forall i | 0 <= i < |b| :: Relative(PrefixOf(Clean(b[k])), Clean(b[i])) == Relative(PrefixOf(Clean(a[k])), Clean(a[i]))
    ensures Strippable(b, k) && forall i | 0 <= i < |b| :: RelativeAt(b, k, i) == RelativeAt(a, k, i)
  {
    hide Clean, IsManifest, CanonicalPath, PrefixOf, Relative, Fold;
  }

  lemma WrappedStrippable(prefix: Text, members: seq<Member>, k: nat)
    requires Wraps(prefix, members)
    ensures Strippable(NamesOf(Wrapped(prefix, members)), k) <==> Strippable(NamesOf(members), k)
    ensures Strippable(NamesOf(members), k) ==>
              k < |members| && forall i | 0 <= i < |members| ::
                RelativeAt(NamesOf(Wrapped(prefix, members)), k, i) == RelativeAt(NamesOf(members), k, i)
  {
    hide Clean, IsManifest, CanonicalPath, PrefixOf, Relative, Fold;
    var names, wrapped := NamesOf(members), NamesOf(Wrapped(prefix, members));
    forall i | 0 <= i < |members|
      ensures CanonicalPath(Clean(names[i])) && CanonicalPath(Clean(wrapped[i]))
      ensures IsManifest(Clean(wrapped[i])) <==> IsManifest(Clean(names[i]))
    {
      WrappedName(prefix, members, i);
    }
    if k < |members| && IsManifest(Clean(names[k])) {
      WrappedRelatives(prefix, members, k);
      hide Strippable, RelativeAt, Wraps, NamesOf, Wrapped;
      if Strippable(names, k) {
        StrippableTransfers(names, wrapped, k);
      }
      if Strippable(wrapped, k) {
        StrippableTransfers(wrapped, names, k);
      }
    }
  }

  lemma {:induction false} SameFirstFiles(a: seq<Member>, b: seq<Member>, k: nat, n: nat)
    requires Strippable(NamesOf(a), k) && Strippable(NamesOf(b), k) && n <= |a| == |b|
    requires forall i | 0 <= i < n ::
               && a[i].kind == b[i].kind && a[i].data == b[i].data
               && RelativeAt(NamesOf(a), k, i) == RelativeAt(NamesOf(b), k, i)
    ensures FirstFiles(a, k, n) == FirstFiles(b, k, n)
  {
    hide Strippable, RelativeAt, AreFirstFiles, NamesOf;
    if n > 0 {
      SameFirstFiles(a, b, k, n - 1);
    }
  }

  lemma WrappedFiles(prefix: Text, members: seq<Member>, k: nat)
    requires Wraps(prefix, members) && Strippable(NamesOf(members), k)
    ensures Strippable(NamesOf(Wrapped(prefix, members)), k)
    ensures FilesOf(Wrapped(prefix, members), k) == FilesOf(members, k)
  {
    WrappedStrippable(prefix, members, k);
    hide Strippable, RelativeAt, AreFiles, Wraps, NamesOf, FirstFiles;
    SameFirstFiles(Wrapped(prefix, members), members, k, |members|);
  }

  lemma WrappedOk(prefix: Text, members: seq<Member>, k: nat)
    requires Wraps(prefix, members)
    ensures ArchiveOk(Wrapped(prefix, members), k) <==> ArchiveOk(members, k)
  {
    WrappedStrippable(prefix, members, k);
    hide Strippable, Wraps;
    var wrapped := Wrapped(prefix, members);
    if ArchiveOk(members, k) {
      forall i | 0 <= i < |wrapped| ensures wrapped[i].kind != OtherMember {
        assert members[i].kind != OtherMember;
      }
    }
    if ArchiveOk(wrapped, k) {
      forall i | 0 <= i < |members| ensures members[i].kind != OtherMember {
        assert wrapped[i].kind != OtherMember;
      }
    }
  }

  /** Everything inside one more directory, at the top or inside a wrapper there is already: the same
      content, or refused both, as long as the longer paths are within the limits on paths. */
  lemma WrapperIsInvisible(f: Form, prefix: Text, members: seq<Member>)
    requires GoodVocabulary(f.vocabulary) && Wraps(prefix, members)
    ensures TarForm(f, Wrapped(prefix, members)) == TarForm(f, members)
  {
    hide TarContent, Wraps, Strippable, FilesOf;
    var wrapped := Wrapped(prefix, members);
    forall k: nat ensures ArchiveOk(wrapped, k) <==> ArchiveOk(members, k) {
      WrappedOk(prefix, members, k);
    }
    if k: nat :| ArchiveOk(members, k) {
      WrappedFiles(prefix, members, k);
      TarFormIs(f, members, k);
      TarFormIs(f, wrapped, k);
    }
  }

  // ----- The two forms

  /** A directory and an archive, wrapped or not, that hold the same files commit to the same content. */
  lemma SameFilesSameCommitment(f: Form, children: seq<Child>, members: seq<Member>, k: nat)
    requires GoodVocabulary(f.vocabulary) && DirectoryForm(f, children).Some? && ArchiveOk(members, k)
    requires FilesOf(members, k) == FilesIn(Listing(children, [], 1))
    ensures TarForm(f, members) == DirectoryForm(f, children)
  {
    hide FilesOf, TarContent, DirectoryContent;
    TarFormIs(f, members, k);
    FormsAgree(f, FilesIn(Listing(children, [], 1)));
  }
}
