/** nir/model_content.py: the byte stream a content commitment hashes, and the loops that feed it. */
module ModelContent {
  import opened Ordering
  import opened Results
  import opened BigEndian
  import opened Streams
  import Utf8

  const MAX_FILES := 256
  const MAX_DEPTH := 16
  const MAX_PATH_BYTES := 240
  const MAX_FILE_BYTES := 512 * 1024 * 1024
  const MAX_TOTAL_BYTES := 0x4000_0000
  const MAX_MANIFEST_BYTES := 64 * 1024
  const MAX_ENTRYPOINT_BYTES := 16 * 1024 * 1024
  const SLASH: CodePoint := 47

  // ----- Canonical paths

  predicate Alphanumeric(c: CodePoint) {
    48 <= c <= 57 || 65 <= c <= 90 || 97 <= c <= 122
  }

  /** One to 128 letters, digits, dots, underscores and dashes, the first and last of them a letter or digit. */
  predicate Segment(t: Text) {
    && 1 <= |t| <= 128
    && Alphanumeric(t[0]) && Alphanumeric(t[|t| - 1])
    && forall i | 0 <= i < |t| :: Alphanumeric(t[i]) || t[i] == 46 || t[i] == 95 || t[i] == 45
  }

  function Split(t: Text): (r: seq<Text>)
    ensures |r| >= 1
  {
    if t == [] then [[]]
    else
      var rest := Split(t[1..]);
      if t[0] == SLASH then [[]] + rest else [[t[0]] + rest[0]] + rest[1..]
  }

  predicate CanonicalPath(t: Text) {
    var parts := Split(t);
    |t| <= MAX_PATH_BYTES && |parts| <= MAX_DEPTH && forall i | 0 <= i < |parts| :: Segment(parts[i])
  }

  predicate Ascii(t: Text) {
    forall i | 0 <= i < |t| :: t[i] < 128
  }

  lemma {:induction false} PathIsAscii(t: Text)
    requires forall i | 0 <= i < |Split(t)| :: forall j | 0 <= j < |Split(t)[i]| :: Split(t)[i][j] < 128
    ensures Ascii(t)
  {
    if t != [] {
      var rest, all := Split(t[1..]), Split(t);
      forall i | 0 <= i < |rest| ensures forall j | 0 <= j < |rest[i]| :: rest[i][j] < 128 {
        if t[0] == SLASH {
          assert all[i + 1] == rest[i];
        } else if i == 0 {
          assert all[0] == [t[0]] + rest[0];
          forall j | 0 <= j < |rest[0]| ensures rest[0][j] < 128 {
            assert all[0][j + 1] == rest[0][j];
          }
        } else {
          assert all[i] == rest[i];
        }
      }
      PathIsAscii(t[1..]);
      if t[0] != SLASH {
        assert all[0][0] == t[0];
      }
    }
  }

  lemma CanonicalIsAscii(t: Text)
    requires CanonicalPath(t)
    ensures Ascii(t) && |t| <= MAX_PATH_BYTES
  {
    forall i, j | 0 <= i < |Split(t)| && 0 <= j < |Split(t)[i]| ensures Split(t)[i][j] < 128 {
      assert Segment(Split(t)[i]);
    }
    PathIsAscii(t);
  }

  // ----- Where a path leads

  /** Where components lead from the directory `at` below some root: "." and nothing stay, ".." goes
      up, and out of the root is nowhere. */
  function Resolved(at: seq<Text>, parts: seq<Text>): Option<seq<Text>>
    decreases |parts|
  {
    if parts == [] then Some(at)
    else if parts[0] == [] || parts[0] == [46] then Resolved(at, parts[1..])
    else if parts[0] != [46, 46] then Resolved(at + [parts[0]], parts[1..])
    else if at == [] then None
    else Resolved(at[..|at| - 1], parts[1..])
  }

  predicate Plain(part: Text) {
    part != [] && part != [46] && part != [46, 46]
  }

  lemma {:induction false} PlainPartsLeadDown(at: seq<Text>, parts: seq<Text>)
    requires forall i | 0 <= i < |parts| :: Plain(parts[i])
    ensures Resolved(at, parts) == Some(at + parts)
    decreases |parts|
  {
    if parts == [] {
      assert at + parts == at;
    } else {
      assert Plain(parts[0]);
      PlainPartsLeadDown(at + [parts[0]], parts[1..]);
      assert at + [parts[0]] + parts[1..] == at + parts;
    }
  }

  lemma {:induction false} SplitIsInjective(t: Text, u: Text)
    requires Split(t) == Split(u)
    ensures t == u
  {
    if t != [] && u != [] {
      var a, b := Split(t[1..]), Split(u[1..]);
      assert Split(t)[0] == if t[0] == SLASH then [] else [t[0]] + a[0];
      assert Split(u)[0] == if u[0] == SLASH then [] else [u[0]] + b[0];
      assert (t[0] == SLASH) == (u[0] == SLASH);
      assert t[0] != SLASH ==> t[0] == Split(t)[0][0] && u[0] == Split(u)[0][0];
      assert a == if t[0] == SLASH then Split(t)[1..] else [Split(t)[0][1..]] + Split(t)[1..];
      assert b == if t[0] == SLASH then Split(u)[1..] else [Split(u)[0][1..]] + Split(u)[1..];
      SplitIsInjective(t[1..], u[1..]);
      assert t == [t[0]] + t[1..] && u == [u[0]] + u[1..];
    }
  }

  /** A canonical path leads to exactly the place its components name, below the root. */
  lemma PathLeadsInside(t: Text)
    requires CanonicalPath(t)
    ensures t != [] && t[0] != SLASH
    ensures Resolved([], Split(t)) == Some(Split(t))
  {
    var parts := Split(t);
    forall i | 0 <= i < |parts| ensures Plain(parts[i]) {
      assert Segment(parts[i]);
    }
    assert Segment(parts[0]);
    PlainPartsLeadDown([], parts);
    assert [] + parts == parts;
  }

  /** Different canonical paths lead to different places. */
  lemma OnePathPerPlace(t: Text, u: Text)
    requires CanonicalPath(t) && CanonicalPath(u) && Resolved([], Split(t)) == Resolved([], Split(u))
    ensures t == u
  {
    PathLeadsInside(t);
    PathLeadsInside(u);
    SplitIsInjective(t, u);
  }

  // ----- The stream

  datatype File = File(path: Text, executable: bool, bytes: seq<Byte>)

  datatype Content = Content(role: Text, adapter: Text, entrypoint: Text, files: seq<File>)

  predicate Frameable(t: Text) {
    Ascii(t) && |t| < 0x1_0000_0000
  }

  ghost predicate FileFrameable(f: File) {
    Frameable(f.path) && |f.bytes| < 0x1_0000_0000_0000_0000
  }

  ghost predicate ContentFrameable(c: Content) {
    && Frameable(c.role) && Frameable(c.adapter) && Frameable(c.entrypoint)
    && forall f | f in c.files :: FileFrameable(f)
  }

  function TextFrame(t: Text): seq<Byte>
    requires Ascii(t)
  {
    Pack(|t|, 4) + Utf8.AsciiBytes(t)
  }

  function FlagByte(executable: bool): seq<Byte> {
    if executable then [1] else [0]
  }

  function FileHeader(path: Text, executable: bool, size: nat): seq<Byte>
    requires Ascii(path)
  {
    TextFrame(path) + FlagByte(executable) + Pack(size, 8)
  }

  ghost function FilesStream(files: seq<File>): seq<Byte>
    requires forall f | f in files :: FileFrameable(f)
  {
    if files == [] then []
    else
      assert files[0] in files && forall f | f in files[1..] :: f in files;
      FrameableIsAscii(files[0]);
      FileHeader(files[0].path, files[0].executable, |files[0].bytes|) + files[0].bytes + FilesStream(files[1..])
  }

  /** "NIR_MODEL_CONTENT_V1" and a zero byte. */
  function Prefix(): seq<Byte> {
    [78, 73, 82, 95, 77, 79, 68, 69, 76, 95, 67, 79, 78, 84, 69, 78, 84, 95, 86, 49, 0]
  }

  function Header(role: Text, adapter: Text, entrypoint: Text): seq<Byte>
    requires Ascii(role) && Ascii(adapter) && Ascii(entrypoint)
  {
    Prefix() + TextFrame(role) + TextFrame(adapter) + TextFrame(entrypoint)
  }

  ghost function Stream(c: Content): seq<Byte>
    requires ContentFrameable(c)
  {
    Header(c.role, c.adapter, c.entrypoint) + FilesStream(c.files)
  }

  // ----- The stream determines the content

  lemma TextIsDelimited(a: Text, x: seq<Byte>, b: Text, y: seq<Byte>)
    requires Frameable(a) && Frameable(b) && TextFrame(a) + x == TextFrame(b) + y
    ensures a == b && x == y
  {
    hide Pack, Utf8.AsciiBytes;
    Widths();
    UnpackPack(|a|, 4);
    UnpackPack(|b|, 4);
    var s, t := TextFrame(a) + x, TextFrame(b) + y;
    assert s[..4] == Pack(|a|, 4) && t[..4] == Pack(|b|, 4);
    assert s[4..4 + |a|] == Utf8.AsciiBytes(a) && t[4..4 + |b|] == Utf8.AsciiBytes(b);
    forall i | 0 <= i < |a| ensures a[i] == b[i] {
      assert Utf8.AsciiBytes(a)[i] == Utf8.AsciiBytes(b)[i];
    }
    assert s[4 + |a|..] == x && t[4 + |b|..] == y;
  }

  lemma SizeIsDelimited(a: bool, m: nat, x: seq<Byte>, b: bool, n: nat, y: seq<Byte>)
    requires m < 0x1_0000_0000_0000_0000 && n < 0x1_0000_0000_0000_0000
    requires FlagByte(a) + Pack(m, 8) + x == FlagByte(b) + Pack(n, 8) + y
    ensures a == b && m == n && x == y
  {
    hide Pack;
    Widths();
    UnpackPack(m, 8);
    UnpackPack(n, 8);
    var s, t := FlagByte(a) + Pack(m, 8) + x, FlagByte(b) + Pack(n, 8) + y;
    assert s[0] == FlagByte(a)[0] && t[0] == FlagByte(b)[0];
    assert s[1..9] == Pack(m, 8) && t[1..9] == Pack(n, 8);
    assert s[9..] == x && t[9..] == y;
  }

  lemma FileIsDelimited(f: File, x: seq<Byte>, g: File, y: seq<Byte>)
    requires FileFrameable(f) && FileFrameable(g)
    requires FileHeader(f.path, f.executable, |f.bytes|) + f.bytes + x == FileHeader(g.path, g.executable, |g.bytes|) + g.bytes + y
    ensures f == g && x == y
  {
    hide TextFrame, Pack, FlagByte;
    var a, b := FlagByte(f.executable) + Pack(|f.bytes|, 8) + (f.bytes + x), FlagByte(g.executable) + Pack(|g.bytes|, 8) + (g.bytes + y);
    assert FileHeader(f.path, f.executable, |f.bytes|) + f.bytes + x == TextFrame(f.path) + a;
    assert FileHeader(g.path, g.executable, |g.bytes|) + g.bytes + y == TextFrame(g.path) + b;
    TextIsDelimited(f.path, a, g.path, b);
    SizeIsDelimited(f.executable, |f.bytes|, f.bytes + x, g.executable, |g.bytes|, g.bytes + y);
    assert (f.bytes + x)[..|f.bytes|] == f.bytes && (g.bytes + y)[..|g.bytes|] == g.bytes;
    assert (f.bytes + x)[|f.bytes|..] == x && (g.bytes + y)[|g.bytes|..] == y;
  }

  lemma {:induction false} FilesAreDetermined(a: seq<File>, b: seq<File>)
    requires (forall f | f in a :: FileFrameable(f)) && (forall f | f in b :: FileFrameable(f))
    requires FilesStream(a) == FilesStream(b)
    ensures a == b
  {
    hide FileHeader, FileFrameable;
    if a != [] {
      assert a[0] in a;
      FrameableIsAscii(a[0]);
      HeaderIsLong(a[0].path, a[0].executable, |a[0].bytes|);
    }
    if b != [] {
      assert b[0] in b;
      FrameableIsAscii(b[0]);
      HeaderIsLong(b[0].path, b[0].executable, |b[0].bytes|);
    }
    if a != [] && b != [] {
      assert (forall f | f in a[1..] :: f in a) && forall f | f in b[1..] :: f in b;
      FileIsDelimited(a[0], FilesStream(a[1..]), b[0], FilesStream(b[1..]));
      FilesAreDetermined(a[1..], b[1..]);
      assert a == [a[0]] + a[1..] && b == [b[0]] + b[1..];
    }
  }

  lemma FrameableIsAscii(f: File)
    requires FileFrameable(f)
    ensures Ascii(f.path)
  {
  }

  lemma HeaderIsLong(path: Text, executable: bool, size: nat)
    requires Ascii(path)
    ensures |FileHeader(path, executable, size)| > 0
  {
  }

  /** The hashed bytes determine the role, the adapter, the entrypoint and the exact list of
      files, with their paths, flags and contents. */
  lemma StreamDeterminesContent(c: Content, d: Content)
    requires ContentFrameable(c) && ContentFrameable(d)
    ensures Stream(c) == Stream(d) <==> c == d
  {
    hide TextFrame, FilesStream;
    if Stream(c) == Stream(d) {
      var x := TextFrame(c.adapter) + (TextFrame(c.entrypoint) + FilesStream(c.files));
      var y := TextFrame(d.adapter) + (TextFrame(d.entrypoint) + FilesStream(d.files));
      assert Stream(c) == Prefix() + (TextFrame(c.role) + x);
      assert Stream(d) == Prefix() + (TextFrame(d.role) + y);
      assert Stream(c)[|Prefix()|..] == TextFrame(c.role) + x && Stream(d)[|Prefix()|..] == TextFrame(d.role) + y;
      TextIsDelimited(c.role, x, d.role, y);
      TextIsDelimited(c.adapter, TextFrame(c.entrypoint) + FilesStream(c.files), d.adapter, TextFrame(d.entrypoint) + FilesStream(d.files));
      TextIsDelimited(c.entrypoint, FilesStream(c.files), d.entrypoint, FilesStream(d.files));
      FilesAreDetermined(c.files, d.files);
    }
  }

  // ----- The stream read back, part after part

  /** Four bytes of length and then the characters. */
  function ReadText(s: seq<Byte>): (r: Option<(Text, seq<Byte>)>)
    ensures r.Some? ==> |r.value.1| + 4 <= |s|
  {
    if |s| < 4 || |s| < 4 + Unpack(s[..4]) then None
    else
      var end := 4 + Unpack(s[..4]);
      Some((s[4..end], s[end..]))
  }

  /** A path, a byte that says whether it is executable, eight bytes of size, and the content. */
  function ReadFile(s: seq<Byte>): (r: Option<(File, seq<Byte>)>)
    ensures r.Some? ==> |r.value.1| < |s|
  {
    match ReadText(s)
    case None => None
    case Some((path, rest)) =>
      if |rest| < 9 || rest[0] > 1 || |rest| < 9 + Unpack(rest[1..9]) then None
      else
        var end := 9 + Unpack(rest[1..9]);
        Some((File(path, rest[0] == 1, rest[9..end]), rest[end..]))
  }

  function ReadFiles(s: seq<Byte>): Option<seq<File>>
    decreases |s|
  {
    if s == [] then Some([])
    else
      match ReadFile(s)
      case None => None
      case Some((f, rest)) =>
        match ReadFiles(rest)
        case None => None
        case Some(fs) => Some([f] + fs)
  }

  /** The prefix, the role, the adapter, the entrypoint and the files, in this order. */
  function ReadContent(s: seq<Byte>): Option<Content> {
    if |s| < |Prefix()| || s[..|Prefix()|] != Prefix() then None
    else
      match ReadText(s[|Prefix()|..])
      case None => None
      case Some((role, s1)) =>
        match ReadText(s1)
        case None => None
        case Some((adapter, s2)) =>
          match ReadText(s2)
          case None => None
          case Some((entrypoint, s3)) =>
            match ReadFiles(s3)
            case None => None
            case Some(files) => Some(Content(role, adapter, entrypoint, files))
  }

  lemma TextReads(t: Text, rest: seq<Byte>)
    requires Frameable(t)
    ensures ReadText(TextFrame(t) + rest) == Some((t, rest))
  {
    Widths();
    UnpackPack(|t|, 4);
    var s := TextFrame(t) + rest;
    assert s[..4] == Pack(|t|, 4);
    var end := 4 + |t|;
    assert s[4..end] == Utf8.AsciiBytes(t) && s[end..] == rest;
    assert Utf8.AsciiBytes(t) == t;
  }

  lemma FileReads(f: File, rest: seq<Byte>)
    requires FileFrameable(f)
    ensures Ascii(f.path)
    ensures ReadFile(FileHeader(f.path, f.executable, |f.bytes|) + f.bytes + rest) == Some((f, rest))
  {
    hide TextFrame;
    Widths();
    UnpackPack(|f.bytes|, 8);
    var after := FlagByte(f.executable) + Pack(|f.bytes|, 8) + f.bytes + rest;
    assert FileHeader(f.path, f.executable, |f.bytes|) + f.bytes + rest == TextFrame(f.path) + after;
    TextReads(f.path, after);
    assert after[1..9] == Pack(|f.bytes|, 8);
    var end := 9 + |f.bytes|;
    assert after[9..end] == f.bytes && after[end..] == rest;
  }

  lemma {:induction false} FilesRead(files: seq<File>)
    requires forall f | f in files :: FileFrameable(f)
    ensures ReadFiles(FilesStream(files)) == Some(files)
  {
    hide FileHeader, FileFrameable, ReadFile;
    if files != [] {
      assert files[0] in files && forall f | f in files[1..] :: f in files;
      FrameableIsAscii(files[0]);
      HeaderIsLong(files[0].path, files[0].executable, |files[0].bytes|);
      FilesRead(files[1..]);
      FileReads(files[0], FilesStream(files[1..]));
      assert [files[0]] + files[1..] == files;
    }
  }

  /** What is hashed can be read back: prefix, role, adapter, entrypoint, and each file with its path,
      its flag, its size and its bytes. */
  lemma StreamReadsBack(c: Content)
    requires ContentFrameable(c)
    ensures ReadContent(Stream(c)) == Some(c)
  {
    hide TextFrame, FilesStream, ReadFiles, ReadText, Prefix;
    FilesRead(c.files);
    var s3 := FilesStream(c.files);
    var s2 := TextFrame(c.entrypoint) + s3;
    var s1 := TextFrame(c.adapter) + s2;
    var s := Stream(c);
    assert s == Prefix() + (TextFrame(c.role) + s1);
    assert s[..|Prefix()|] == Prefix() && s[|Prefix()|..] == TextFrame(c.role) + s1;
    TextReads(c.role, s1);
    TextReads(c.adapter, s2);
    TextReads(c.entrypoint, s3);
  }

  // ----- Feeding a digest

  /** However the reads are cut, the stream is accepted exactly when its size is as declared and
      within limits, and then the digest is fed precisely the file. */
  method HashStream(digest: Digest, source: Source, size: int, capture: bool) returns (captured: Option<seq<Byte>>, ok: bool)
    modifies digest, source
    ensures ok <==> 1 <= size <= MAX_FILE_BYTES && !(capture && size > MAX_ENTRYPOINT_BYTES) && size == |old(source.data)|
    ensures ok ==> digest.fed == old(digest.fed) + old(source.data)
    ensures ok ==> captured == if capture then Some(old(source.data)) else None
  {
    captured := None;
    if size < 1 || size > MAX_FILE_BYTES || (capture && size > MAX_ENTRYPOINT_BYTES) {
      return captured, false;
    }
    var taken: seq<Byte> := [];
    var remaining := size;
    while remaining > 0
      invariant 0 <= remaining <= size
      invariant old(source.data) == taken + source.data && |taken| == size - remaining
      invariant digest.fed == old(digest.fed) + taken
    {
      var chunk := source.Read(if CHUNK_BYTES < remaining then CHUNK_BYTES else remaining);
      if chunk == [] {
        return captured, false;
      }
      digest.Update(chunk);
      taken := taken + chunk;
      remaining := remaining - |chunk|;
    }
    var more := source.Read(1);
    if more != [] {
      return captured, false;
    }
    assert taken == old(source.data);
    captured := if capture then Some(taken) else None;
    return captured, true;
  }

  // ----- The manifest

  /** A manifest as JSON gives it, and as it is used: in path order. */
  datatype Entry = Entry(path: Text, executable: bool)
  datatype RawManifest = RawManifest(role: Text, adapter: Text, entrypoint: Text, files: seq<Entry>)

  function FoldPoint(c: CodePoint): CodePoint {
    if 65 <= c <= 90 then c + 32 else c
  }

  /** casefold, which on ASCII is lower case. */
  function Fold(t: Text): Text {
    Map((c: CodePoint) => FoldPoint(c), t)
  }

  predicate EntryLeq(a: Entry, b: Entry) {
    TextLeq(a.path, b.path)
  }

  ghost predicate NoCollisions(paths: seq<Text>) {
    forall i, j | 0 <= i < j < |paths| :: Fold(paths[i]) != Fold(paths[j])
  }

  function PathsOf(files: seq<Entry>): seq<Text> {
    Map((e: Entry) => e.path, files)
  }

  /** The one adapter there is, and the two roles. */
  datatype Vocabulary = Vocabulary(adapter: Text, baseline: Text, candidate: Text)

  ghost predicate GoodVocabulary(v: Vocabulary) {
    Frameable(v.adapter) && Frameable(v.baseline) && Frameable(v.candidate)
  }

  ghost predicate ManifestOk(v: Vocabulary, m: RawManifest) {
    && (m.role == v.baseline || m.role == v.candidate) && m.adapter == v.adapter
    && CanonicalPath(m.entrypoint)
    && 1 <= |m.files| <= MAX_FILES
    && (forall e | e in m.files :: CanonicalPath(e.path))
    && NoCollisions(PathsOf(m.files))
    && Entry(m.entrypoint, false) in m.files
  }

  ghost function Manifest(v: Vocabulary, m: RawManifest): Option<RawManifest> {
    if ManifestOk(v, m) then Some(m.(files := Sort(EntryLeq, m.files))) else None
  }

  method CheckPaths(files: seq<Entry>) returns (ok: bool)
    ensures ok <==> (forall e | e in files :: CanonicalPath(e.path)) && NoCollisions(PathsOf(files))
  {
    hide CanonicalPath, Fold;
    var folded: set<Text> := {};
    for i := 0 to |files|
      invariant forall j | 0 <= j < i :: CanonicalPath(files[j].path)
      invariant forall f :: f in folded <==> exists j :: 0 <= j < i && Fold(files[j].path) == f
      invariant forall j, k | 0 <= j < k < i :: Fold(files[j].path) != Fold(files[k].path)
    {
      var path := files[i].path;
      if !CanonicalPath(path) {
        assert files[i] in files;
        return false;
      }
      if Fold(path) in folded {
        var j :| 0 <= j < i && Fold(files[j].path) == Fold(path);
        Collision(files, j, i);
        return false;
      }
      folded := folded + {Fold(path)};
    }
    return true;
  }

  lemma Collision(files: seq<Entry>, i: nat, j: nat)
    requires i < j < |files| && Fold(files[i].path) == Fold(files[j].path)
    ensures !NoCollisions(PathsOf(files))
  {
    hide Fold;
    assert PathsOf(files)[i] == files[i].path && PathsOf(files)[j] == files[j].path;
  }

  method ParseManifest(v: Vocabulary, m: RawManifest) returns (r: Option<RawManifest>)
    ensures r == Manifest(v, m)
  {
    hide CanonicalPath, NoCollisions, PathsOf;
    if !(m.role == v.baseline || m.role == v.candidate) || m.adapter != v.adapter || !CanonicalPath(m.entrypoint) {
      return None;
    }
    if |m.files| < 1 || |m.files| > MAX_FILES {
      return None;
    }
    var ok := CheckPaths(m.files);
    if !ok || Entry(m.entrypoint, false) !in m.files {
      return None;
    }
    return Some(m.(files := Sort(EntryLeq, m.files)));
  }

  lemma EntryOrder()
    ensures TotalPreorder(EntryLeq)
  {
    TextOrder();
    forall a: Entry, b: Entry ensures EntryLeq(a, b) || EntryLeq(b, a) {
      LexTotal(a.path, b.path);
    }
    forall a: Entry, b: Entry, c: Entry | EntryLeq(a, b) && EntryLeq(b, c) ensures EntryLeq(a, c) {
      LexTransitive(a.path, b.path, c.path);
    }
  }

  lemma SamePathSameEntry(files: seq<Entry>, a: Entry, b: Entry)
    requires NoCollisions(PathsOf(files)) && a in files && b in files && a.path == b.path
    ensures a == b
  {
    var i :| 0 <= i < |files| && files[i] == a;
    var j :| 0 <= j < |files| && files[j] == b;
    assert PathsOf(files)[i] == a.path && PathsOf(files)[j] == b.path;
    OneIndex(PathsOf(files), i, j);
  }

  lemma OneIndex(paths: seq<Text>, i: nat, j: nat)
    requires NoCollisions(paths) && i < |paths| && j < |paths| && paths[i] == paths[j]
    ensures i == j
  {
  }

  /** A manifest is used with its own files, each once, in strictly ascending order of their paths. */
  lemma ManifestPathsAscend(v: Vocabulary, m: RawManifest)
    requires ManifestOk(v, m)
    ensures Manifest(v, m).Some?
    ensures var used := Manifest(v, m).value;
            && used.role == m.role && used.adapter == m.adapter && used.entrypoint == m.entrypoint
            && multiset(used.files) == multiset(m.files)
            && forall i, j | 0 <= i < j < |used.files| :: Below(used.files[i].path, used.files[j].path)
  {
    hide CanonicalPath, LexLeq, Below;
    EntryOrder();
    SortSorts(EntryLeq, m.files);
    SortKeeps(EntryLeq, m.files);
    var sorted := Sort(EntryLeq, m.files);
    EntriesDiffer(m.files);
    DistinctCount(m.files);
    DistinctCount(sorted);
    forall i, j | 0 <= i < j < |sorted| ensures Below(sorted[i].path, sorted[j].path) {
      assert EntryLeq(sorted[i], sorted[j]) && sorted[i] != sorted[j];
      assert sorted[i] in multiset(m.files) && sorted[j] in multiset(m.files);
      if sorted[i].path == sorted[j].path {
        SamePathSameEntry(m.files, sorted[i], sorted[j]);
      }
      LexIsBelow(sorted[i].path, sorted[j].path);
    }
  }

  lemma EntriesDiffer(files: seq<Entry>)
    requires NoCollisions(PathsOf(files))
    ensures Distinct(files)
  {
    forall i, j | 0 <= i < j < |files| ensures files[i] != files[j] {
      assert Fold(PathsOf(files)[i]) != Fold(PathsOf(files)[j]);
    }
  }

  /** The order in which a manifest lists its files is forgotten. */
  lemma ManifestOrderIsIrrelevant(v: Vocabulary, m: RawManifest, n: RawManifest)
    requires m.(files := []) == n.(files := []) && multiset(m.files) == multiset(n.files)
    requires ManifestOk(v, m) && ManifestOk(v, n)
    ensures Manifest(v, m) == Manifest(v, n)
  {
    hide CanonicalPath, LexLeq;
    EntryOrder();
    forall a, b | a in m.files && b in m.files && EntryLeq(a, b) && EntryLeq(b, a) ensures a == b {
      LexTotal(a.path, b.path);
      SamePathSameEntry(m.files, a, b);
    }
    SortForgetsOrder(EntryLeq, m.files, n.files);
  }

  // ----- The commitment loop both forms share

  datatype FileData = FileData(executable: bool, bytes: seq<Byte>)

  datatype Canonical = Canonical(stream: seq<Byte>, role: Text, adapter: Text, entrypoint: Text, entrypointBytes: seq<Byte>)

  ghost function FilesFor(entries: seq<Entry>, files: map<Text, FileData>): (r: seq<File>)
    requires forall e | e in entries :: e.path in files
    ensures |r| == |entries|
    ensures forall i | 0 <= i < |r| :: r[i] == File(entries[i].path, entries[i].executable, files[entries[i].path].bytes)
  {
    if entries == [] then []
    else
      assert entries[0] in entries;
      [File(entries[0].path, entries[0].executable, files[entries[0].path].bytes)] + FilesFor(entries[1..], files)
  }

  ghost function TotalSize(entries: seq<Entry>, files: map<Text, FileData>): nat
    requires forall e | e in entries :: e.path in files
  {
    if entries == [] then 0
    else
      assert entries[|entries| - 1] in entries;
      TotalSize(entries[..|entries| - 1], files) + |files[entries[|entries| - 1].path].bytes|
  }

  ghost predicate EntryOk(m: RawManifest, files: map<Text, FileData>, e: Entry)
    requires e.path in files
  {
    var f := files[e.path];
    f.executable == e.executable && 1 <= |f.bytes| <= MAX_FILE_BYTES && !(e.path == m.entrypoint && |f.bytes| > MAX_ENTRYPOINT_BYTES)
  }

  ghost predicate Lists(m: RawManifest, p: Text) {
    exists e :: e in m.files && e.path == p
  }

  /** The files are exactly those of the manifest, with its flags and within its limits. */
  ghost predicate FilesOk(m: RawManifest, files: map<Text, FileData>) {
    && (forall p :: p in files <==> Lists(m, p))
    && (forall e | e in m.files :: EntryOk(m, files, e))
    && TotalSize(m.files, files) <= MAX_TOTAL_BYTES
  }

  /** A manifest as parsed: sorted, canonical paths, with its entrypoint. */
  ghost predicate Parsed(m: RawManifest) {
    && Frameable(m.role) && Frameable(m.adapter) && Frameable(m.entrypoint)
    && (forall e | e in m.files :: Frameable(e.path))
    && (forall i, j | 0 <= i < j < |m.files| :: m.files[i].path != m.files[j].path)
    && Entry(m.entrypoint, false) in m.files
  }

  ghost function ContentOf(m: RawManifest, files: map<Text, FileData>): Content
    requires forall e | e in m.files :: e.path in files
  {
    Content(m.role, m.adapter, m.entrypoint, FilesFor(m.files, files))
  }

  lemma FramesOf(m: RawManifest, files: map<Text, FileData>)
    requires Parsed(m) && FilesOk(m, files)
    ensures forall e | e in m.files :: e.path in files
    ensures ContentFrameable(ContentOf(m, files))
    ensures m.entrypoint in files
  {
    assert forall e | e in m.files :: e.path in files;
    var list := FilesFor(m.files, files);
    forall f | f in list ensures FileFrameable(f) {
      var i :| 0 <= i < |list| && list[i] == f;
      assert m.files[i] in m.files;
      assert EntryOk(m, files, m.files[i]);
    }
  }

  ghost function Canonicalized(m: RawManifest, files: map<Text, FileData>): Option<Canonical>
    requires Parsed(m)
  {
    if !FilesOk(m, files) then None
    else
      FramesOf(m, files);
      Some(Canonical(Stream(ContentOf(m, files)), m.role, m.adapter, m.entrypoint, files[m.entrypoint].bytes))
  }

  lemma {:induction false} FilesStreamAppend(a: seq<File>, f: File)
    requires (forall g | g in a :: FileFrameable(g)) && FileFrameable(f)
    ensures forall g | g in a + [f] :: FileFrameable(g)
    ensures FilesStream(a + [f]) == FilesStream(a) + FileHeader(f.path, f.executable, |f.bytes|) + f.bytes
  {
    hide FileHeader, Ascii, FileFrameable;
    if a == [] {
      assert a + [f] == [f];
      assert [f][1..] == [];
      assert FilesStream([]) == [];
    } else {
      assert forall g | g in a[1..] :: g in a;
      FilesStreamAppend(a[1..], f);
      assert (a + [f])[1..] == a[1..] + [f];
      assert (a + [f])[0] == a[0];
    }
  }

  method FrameText(digest: Digest, t: Text)
    requires Ascii(t)
    modifies digest
    ensures digest.fed == old(digest.fed) + TextFrame(t)
  {
    var encoded := Utf8.AsciiBytes(t);
    digest.Update(Pack(|encoded|, 4));
    digest.Update(encoded);
    assert old(digest.fed) + Pack(|t|, 4) + encoded == old(digest.fed) + TextFrame(t);
  }

  method FrameFile(digest: Digest, path: Text, executable: bool, size: nat)
    requires Ascii(path)
    modifies digest
    ensures digest.fed == old(digest.fed) + FileHeader(path, executable, size)
  {
    hide Pack, TextFrame;
    FrameText(digest, path);
    digest.Update(FlagByte(executable));
    digest.Update(Pack(size, 8));
    assert old(digest.fed) + TextFrame(path) + FlagByte(executable) + Pack(size, 8) == old(digest.fed) + FileHeader(path, executable, size);
  }

  lemma {:induction false} TotalGrows(entries: seq<Entry>, files: map<Text, FileData>, n: nat)
    requires (forall e | e in entries :: e.path in files) && n <= |entries|
    ensures forall e | e in entries[..n] :: e.path in files
    ensures TotalSize(entries[..n], files) <= TotalSize(entries, files)
  {
    if n < |entries| {
      var init := entries[..|entries| - 1];
      TotalGrows(init, files, n);
      assert init[..n] == entries[..n];
    } else {
      assert entries[..n] == entries;
    }
  }

  lemma TotalNext(entries: seq<Entry>, files: map<Text, FileData>, i: nat)
    requires (forall e | e in entries :: e.path in files) && i < |entries|
    ensures (forall e | e in entries[..i + 1] :: e.path in files) && forall e | e in entries[..i] :: e.path in files
    ensures TotalSize(entries[..i + 1], files) == TotalSize(entries[..i], files) + |files[entries[i].path].bytes|
  {
    assert entries[..i + 1][..i] == entries[..i];
    assert entries[i] in entries;
  }

  /** The stream so far: the header and the first `i` files. */
  ghost predicate Fed(fed: seq<Byte>, m: RawManifest, files: map<Text, FileData>, i: nat)
    requires Parsed(m) && FilesPresent(m, files) && i <= |m.files|
  {
    && (forall f | f in FilesFor(m.files, files)[..i] :: FileFrameable(f))
    && fed == Header(m.role, m.adapter, m.entrypoint) + FilesStream(FilesFor(m.files, files)[..i])
  }

  ghost predicate FilesPresent(m: RawManifest, files: map<Text, FileData>) {
    forall e | e in m.files :: e.path in files
  }

  lemma FedNext(fed: seq<Byte>, m: RawManifest, files: map<Text, FileData>, i: nat)
    requires Parsed(m) && FilesPresent(m, files) && i < |m.files| && Fed(fed, m, files, i)
    requires |files[m.files[i].path].bytes| <= MAX_FILE_BYTES
    ensures Ascii(m.files[i].path)
    ensures Fed(fed + FileHeader(m.files[i].path, m.files[i].executable, |files[m.files[i].path].bytes|) + files[m.files[i].path].bytes, m, files, i + 1)
  {
    hide FileHeader, Header;
    var list := FilesFor(m.files, files);
    assert m.files[i] in m.files;
    assert list[..i + 1] == list[..i] + [list[i]];
    FilesStreamAppend(list[..i], list[i]);
    var h, b := FileHeader(list[i].path, list[i].executable, |list[i].bytes|), list[i].bytes;
    var head := Header(m.role, m.adapter, m.entrypoint);
    assert head + FilesStream(list[..i]) + h + b == head + (FilesStream(list[..i]) + h + b);
  }

  method StartDigest(m: RawManifest) returns (digest: Digest)
    requires Parsed(m)
    ensures fresh(digest) && digest.fed == Header(m.role, m.adapter, m.entrypoint)
  {
    hide TextFrame;
    digest := new Digest(Prefix());
    FrameText(digest, m.role);
    FrameText(digest, m.adapter);
    FrameText(digest, m.entrypoint);
  }

  /** Hashing one listed file: its frame and its bytes, if its flag and size are right. */
  method HashFile(digest: Digest, m: RawManifest, e: Entry, f: FileData, cuts: seq<nat>) returns (captured: Option<seq<Byte>>, ok: bool)
    requires Ascii(e.path)
    modifies digest
    ensures ok <==> f.executable == e.executable && 1 <= |f.bytes| <= MAX_FILE_BYTES && !(e.path == m.entrypoint && |f.bytes| > MAX_ENTRYPOINT_BYTES)
    ensures ok ==> digest.fed == old(digest.fed) + FileHeader(e.path, e.executable, |f.bytes|) + f.bytes
    ensures ok ==> captured == if e.path == m.entrypoint then Some(f.bytes) else None
  {
    hide FileHeader;
    if f.executable != e.executable {
      return None, false;
    }
    FrameFile(digest, e.path, e.executable, |f.bytes|);
    var source := new Source(f.bytes, cuts);
    captured, ok := HashStream(digest, source, |f.bytes|, e.path == m.entrypoint);
  }

  /** Where the commitment loop stands before file `i`. */
  ghost predicate SoFar(fed: seq<Byte>, total: nat, bytes: Option<seq<Byte>>, m: RawManifest, files: map<Text, FileData>, i: nat)
    requires Parsed(m) && FilesPresent(m, files) && i <= |m.files|
  {
    && Fed(fed, m, files, i)
    && (forall e | e in m.files[..i] :: e.path in files) && total == TotalSize(m.files[..i], files) <= MAX_TOTAL_BYTES
    && (forall j | 0 <= j < i :: EntryOk(m, files, m.files[j]))
    && bytes == if Entry(m.entrypoint, false) in m.files[..i] && m.entrypoint in files then Some(files[m.entrypoint].bytes) else None
  }

  lemma SoFarNext(fed: seq<Byte>, total: nat, bytes: Option<seq<Byte>>, m: RawManifest, files: map<Text, FileData>, i: nat,
                  captured: Option<seq<Byte>>)
    requires Parsed(m) && FilesPresent(m, files) && i < |m.files| && SoFar(fed, total, bytes, m, files, i)
    requires m.files[i].path in files && EntryOk(m, files, m.files[i])
    requires total + |files[m.files[i].path].bytes| <= MAX_TOTAL_BYTES
    requires captured == if m.files[i].path == m.entrypoint then Some(files[m.files[i].path].bytes) else None
    ensures Ascii(m.files[i].path)
    ensures var f := files[m.files[i].path];
            SoFar(fed + FileHeader(m.files[i].path, m.files[i].executable, |f.bytes|) + f.bytes, total + |f.bytes|,
                  if captured.Some? then captured else bytes, m, files, i + 1)
  {
    hide Fed, FileHeader, TotalSize, EntryOk;
    FedNext2(fed, m, files, i);
    TotalNext(m.files, files, i);
    OnlyEntrypoint(m, i);
    assert m.files[..i + 1] == m.files[..i] + [m.files[i]];
  }

  lemma FedNext2(fed: seq<Byte>, m: RawManifest, files: map<Text, FileData>, i: nat)
    requires Parsed(m) && FilesPresent(m, files) && i < |m.files| && Fed(fed, m, files, i)
    requires m.files[i].path in files && EntryOk(m, files, m.files[i])
    ensures Ascii(m.files[i].path)
    ensures Fed(fed + FileHeader(m.files[i].path, m.files[i].executable, |files[m.files[i].path].bytes|) + files[m.files[i].path].bytes, m, files, i + 1)
  {
    FedNext(fed, m, files, i);
  }

  /** The file with the entrypoint's path is the entrypoint's own entry. */
  lemma OnlyEntrypoint(m: RawManifest, i: nat)
    requires Parsed(m) && i < |m.files|
    ensures m.files[i].path == m.entrypoint <==> m.files[i] == Entry(m.entrypoint, false)
  {
    var j :| 0 <= j < |m.files| && m.files[j] == Entry(m.entrypoint, false);
    OneEntry(m, i, j);
  }

  lemma OneEntry(m: RawManifest, i: nat, j: nat)
    requires Parsed(m) && i < |m.files| && j < |m.files|
    ensures m.files[i].path == m.files[j].path ==> i == j
  {
  }

  lemma SoFarStarts(fed: seq<Byte>, m: RawManifest, files: map<Text, FileData>)
    requires Parsed(m) && FilesPresent(m, files) && fed == Header(m.role, m.adapter, m.entrypoint)
    ensures SoFar(fed, 0, None, m, files, 0)
  {
    NothingFed(fed, m, files);
  }

  lemma SoFarEnds(fed: seq<Byte>, total: nat, bytes: Option<seq<Byte>>, m: RawManifest, files: map<Text, FileData>)
    requires Parsed(m) && files.Keys == (set e | e in m.files :: e.path) && FilesPresent(m, files)
    requires SoFar(fed, total, bytes, m, files, |m.files|)
    ensures bytes.Some? && Canonicalized(m, files) == Some(Canonical(fed, m.role, m.adapter, m.entrypoint, bytes.value))
  {
    hide EntryOk, TotalSize, Fed;
    assert m.files[..|m.files|] == m.files;
    AllOk(m, files);
    FramesOf(m, files);
    AllFed(fed, m, files);
  }

  /** A file that fails its checks, or a total over the limit, leaves nothing to commit to. */
  lemma NothingToCommit(m: RawManifest, files: map<Text, FileData>, i: nat, total: nat)
    requires Parsed(m) && FilesPresent(m, files) && i < |m.files| && m.files[i].path in files
    requires (forall e | e in m.files[..i] :: e.path in files) && total == TotalSize(m.files[..i], files)
    requires !EntryOk(m, files, m.files[i]) || total + |files[m.files[i].path].bytes| > MAX_TOTAL_BYTES
    ensures Canonicalized(m, files) == None
  {
    hide EntryOk;
    assert m.files[i] in m.files;
    TotalNext(m.files, files, i);
    TotalGrows(m.files, files, i + 1);
  }

  /** Whatever way the files are read, the commitment is to the manifest and the files alone. */
  method Commit(m: RawManifest, files: map<Text, FileData>, cuts: Text -> seq<nat>) returns (r: Option<Canonical>)
    requires Parsed(m)
    ensures r == Canonicalized(m, files)
  {
    hide TextFrame, FileHeader, Header, Parsed, SoFar, Canonicalized, TotalSize;
    if files.Keys != set e | e in m.files :: e.path {
      WrongFiles(m, files);
      return None;
    }
    assert FilesPresent(m, files);
    var digest := StartDigest(m);
    SoFarStarts(digest.fed, m, files);
    var total := 0;
    var entrypointBytes: Option<seq<Byte>> := None;
    for i := 0 to |m.files|
      invariant total >= 0 && SoFar(digest.fed, total, entrypointBytes, m, files, i)
    {
      var e := m.files[i];
      ghost var fed := digest.fed;
      PathIsFrameable(m, i);
      TotalSoFar(fed, total, entrypointBytes, m, files, i);
      var size := |files[e.path].bytes|;
      if total + size > MAX_TOTAL_BYTES {
        NothingToCommit(m, files, i, total);
        return None;
      }
      var captured, ok := HashFile(digest, m, e, files[e.path], cuts(e.path));
      if !ok {
        NothingToCommit(m, files, i, total);
        return None;
      }
      SoFarNext(fed, total, entrypointBytes, m, files, i, captured);
      total := total + size;
      entrypointBytes := if captured.Some? then captured else entrypointBytes;
    }
    SoFarEnds(digest.fed, total, entrypointBytes, m, files);
    return Some(Canonical(digest.fed, m.role, m.adapter, m.entrypoint, entrypointBytes.value));
  }

  lemma TotalSoFar(fed: seq<Byte>, total: nat, bytes: Option<seq<Byte>>, m: RawManifest, files: map<Text, FileData>, i: nat)
    requires Parsed(m) && FilesPresent(m, files) && i < |m.files| && SoFar(fed, total, bytes, m, files, i)
    ensures (forall e | e in m.files[..i] :: e.path in files) && total == TotalSize(m.files[..i], files)
    ensures m.files[i].path in files
  {
    assert m.files[i] in m.files;
  }

  lemma WrongFiles(m: RawManifest, files: map<Text, FileData>)
    requires Parsed(m) && files.Keys != set e | e in m.files :: e.path
    ensures Canonicalized(m, files) == None
  {
    hide EntryOk, TotalSize;
  }

  lemma NothingFed(fed: seq<Byte>, m: RawManifest, files: map<Text, FileData>)
    requires Parsed(m) && FilesPresent(m, files) && fed == Header(m.role, m.adapter, m.entrypoint)
    ensures Fed(fed, m, files, 0)
  {
    hide Header;
    assert FilesFor(m.files, files)[..0] == [];
    assert Header(m.role, m.adapter, m.entrypoint) + [] == Header(m.role, m.adapter, m.entrypoint);
  }

  lemma PathIsFrameable(m: RawManifest, i: nat)
    requires Parsed(m) && i < |m.files|
    ensures Ascii(m.files[i].path)
  {
    assert m.files[i] in m.files;
  }

  lemma AllOk(m: RawManifest, files: map<Text, FileData>)
    requires files.Keys == (set e | e in m.files :: e.path)
    requires FilesPresent(m, files) && (forall j | 0 <= j < |m.files| :: EntryOk(m, files, m.files[j])) && TotalSize(m.files, files) <= MAX_TOTAL_BYTES
    ensures FilesOk(m, files)
  {
    hide EntryOk, TotalSize;
    forall e | e in m.files ensures EntryOk(m, files, e) {
      var j :| 0 <= j < |m.files| && m.files[j] == e;
    }
  }

  lemma AllFed(fed: seq<Byte>, m: RawManifest, files: map<Text, FileData>)
    requires Parsed(m) && FilesPresent(m, files) && ContentFrameable(ContentOf(m, files)) && Fed(fed, m, files, |m.files|)
    ensures fed == Stream(ContentOf(m, files))
  {
    hide Header, FilesStream;
    assert FilesFor(m.files, files)[..|m.files|] == FilesFor(m.files, files);
  }

  lemma SameLists(m: RawManifest, files: map<Text, FileData>, n: RawManifest, others: map<Text, FileData>)
    requires FilesPresent(m, files) && FilesPresent(n, others) && FilesFor(m.files, files) == FilesFor(n.files, others)
    ensures m.files == n.files
    ensures forall e | e in m.files :: e.path in files && e.path in others && files[e.path].bytes == others[e.path].bytes
  {
    var a, b := FilesFor(m.files, files), FilesFor(n.files, others);
    assert |m.files| == |n.files|;
    forall i | 0 <= i < |m.files| ensures m.files[i] == n.files[i] && m.files[i].path in files && n.files[i].path in others
                                          && files[m.files[i].path].bytes == others[n.files[i].path].bytes {
      assert a[i] == b[i] && m.files[i] in m.files && n.files[i] in n.files;
    }
  }

  /** What is committed to can be read back: every listed file once, with its listed flag and its own
      bytes, none empty or too large, the entrypoint's among them, and those are handed on. */
  lemma CommittedIsListed(m: RawManifest, files: map<Text, FileData>) returns (c: Content)
    requires Parsed(m) && Canonicalized(m, files).Some?
    ensures ReadContent(Canonicalized(m, files).value.stream) == Some(c)
    ensures c.role == m.role && c.adapter == m.adapter && c.entrypoint == m.entrypoint && |c.files| == |m.files|
    ensures forall i | 0 <= i < |m.files| :: ListedAs(m.files[i], files, c.files[i])
    ensures forall i | 0 <= i < |m.files| && m.files[i].path == m.entrypoint ::
              c.files[i].bytes == Canonicalized(m, files).value.entrypointBytes && |c.files[i].bytes| <= 0x100_0000
  {
    FramesOf(m, files);
    c := ContentOf(m, files);
    hide Stream, ReadContent, Parsed, TotalSize, ContentFrameable;
    StreamReadsBack(c);
    forall i | 0 <= i < |m.files| ensures ListedAs(m.files[i], files, c.files[i]) {
      assert m.files[i] in m.files && EntryOk(m, files, m.files[i]);
    }
    forall i | 0 <= i < |m.files| && m.files[i].path == m.entrypoint ensures |c.files[i].bytes| <= 0x100_0000 {
      assert m.files[i] in m.files && EntryOk(m, files, m.files[i]);
    }
  }

  ghost predicate ListedAs(e: Entry, files: map<Text, FileData>, f: File) {
    e.path in files && f == File(e.path, files[e.path].executable, files[e.path].bytes)
    && e.executable == f.executable && 1 <= |f.bytes| <= 0x2000_0000
  }

  /** The same stream means the same manifest and the same files, to the last bit: under a
      collision-free hash, so does the same commitment. */
  lemma CommitmentDeterminesFiles(m: RawManifest, files: map<Text, FileData>, n: RawManifest, others: map<Text, FileData>)
    requires Parsed(m) && Parsed(n) && Canonicalized(m, files).Some? && Canonicalized(n, others).Some?
    requires Canonicalized(m, files).value.stream == Canonicalized(n, others).value.stream
    ensures m == n && files == others
  {
    FramesOf(m, files);
    FramesOf(n, others);
    hide Stream, Parsed, FilesFor, TotalSize;
    StreamDeterminesContent(ContentOf(m, files), ContentOf(n, others));
    SameLists(m, files, n, others);
    forall p | p in files ensures p in others && files[p] == others[p] {
      var e :| e in m.files && e.path == p;
      assert EntryOk(m, files, e) && EntryOk(n, others, e);
    }
    assert files.Keys == others.Keys;
  }

  /** What parsing leaves is ready for the commitment loop. */
  lemma ParsedManifest(v: Vocabulary, m: RawManifest)
    requires GoodVocabulary(v) && Manifest(v, m).Some?
    ensures Parsed(Manifest(v, m).value)
  {
    hide CanonicalPath, Fold;
    var sorted := Sort(EntryLeq, m.files);
    SortKeeps(EntryLeq, m.files);
    forall e ensures e in sorted <==> e in m.files {
      assert e in multiset(sorted) <==> e in multiset(m.files);
    }
    CanonicalIsAscii(m.entrypoint);
    forall e | e in sorted ensures Frameable(e.path) {
      CanonicalIsAscii(e.path);
    }
    DistinctEntries(m.files);
    DistinctCount(m.files);
    DistinctCount(sorted);
    forall i, j | 0 <= i < j < |sorted| ensures sorted[i].path != sorted[j].path {
      assert sorted[i] != sorted[j] && sorted[i] in sorted && sorted[j] in sorted;
      if sorted[i].path == sorted[j].path {
        SamePathSameEntry(m.files, sorted[i], sorted[j]);
      }
    }
  }

  lemma DistinctEntries(files: seq<Entry>)
    requires NoCollisions(PathsOf(files))
    ensures Distinct(files)
  {
    forall i, j | 0 <= i < j < |files| ensures files[i] != files[j] {
      assert PathsOf(files)[i] == files[i].path && PathsOf(files)[j] == files[j].path;
    }
  }
}
