/** internal/artifact/manifest.go: the commit record of a directory artifact. */
module Manifests {
  import opened Paths
  import opened Storage

  datatype Option<+T> = None | Some(value: T)

  /** sha256 is taken to be injective, so a digest is the content it was taken over. */
  datatype Digest = NoDigest | DigestOf(content: Bytes)

  datatype ManifestFile = ManifestFile(path: string, size: nat, sha256: Digest)

  datatype QuiesceInfo = QuiesceInfo(mode: string, dir: string)

  datatype Manifest = Manifest(version: int, format: string, sourceTar: string,
                               quiesce: Option<QuiesceInfo>, files: seq<ManifestFile>, totalBytes: nat)

  const MANIFEST_NAME := "MANIFEST"
  const PART_NAME := "MANIFEST.part"
  const MANIFEST_VERSION := 1
  const FORMAT_DIR := "dir"

  datatype EntryKind = Directory | Regular | Unsupported
  datatype TarEntry = TarEntry(name: string, kind: EntryKind, data: Bytes)
  /** A tar stream: its members in order, and whether it ends cleanly. */
  datatype Archive = Archive(entries: seq<TarEntry>, complete: bool)

  /** The byte formats: JSON for the manifest, tar for the checkpoint archive. */
  datatype Codec = Codec(encode: Manifest -> Bytes, parse: Bytes -> Option<Manifest>, untar: Bytes -> Archive)

  predicate TornFrom(b: Bytes, whole: Bytes) { b <= whole }

  /** Encoding is inverted by parsing, a torn manifest never reads as another one, and once
      enough of it is there to read, more of it reads the same. */
  ghost predicate Lawful(c: Codec) {
    && (forall m {:trigger c.encode(m)} :: c.parse(c.encode(m)) == Some(m))
    && (forall m, b {:trigger TornFrom(b, c.encode(m))} :: TornFrom(b, c.encode(m)) ==>
                                                             c.parse(b).None? || c.parse(b) == Some(m))
    && (forall m, a, b {:trigger TornFrom(a, b), TornFrom(b, c.encode(m))} ::
          TornFrom(a, b) && TornFrom(b, c.encode(m)) && c.parse(a) == Some(m) ==> c.parse(b) == Some(m))
  }

  /** DecodeManifest: parse, then reject what no publisher of this version writes. */
  function Decode(c: Codec, b: Bytes): Option<Manifest> {
    match c.parse(b)
    case None => None
    case Some(m) =>
      if m.version > MANIFEST_VERSION then None
      else if |m.files| == 0 then None
      else if exists i | 0 <= i < |m.files| :: !ValidRelPath(m.files[i].path) then None
      else Some(m)
  }

  function ManifestPath(dir: Path): Path { dir + [MANIFEST_NAME] }
  function PartPath(dir: Path): Path { dir + [PART_NAME] }

  /** filepath.Join(dir, rel) for a validated relative path. */
  function At(dir: Path, rel: string): Path {
    if rel == "." then dir else dir + Split(rel, '/')
  }

  /** A name a publisher may list: validated and not the directory itself. */
  predicate Name(rel: string) { ValidRelPath(rel) && rel != "." }

  lemma AtInjective(dir: Path, a: string, b: string)
    requires Name(a) && Name(b) && At(dir, a) == At(dir, b)
    ensures a == b
  {
    assert Split(a, '/') == At(dir, a)[|dir|..] == Split(b, '/');
    SplitInjective(a, b, '/');
  }

  lemma AtSegment(dir: Path, seg: string)
    requires Proper(seg)
    ensures Name(seg) && At(dir, seg) == dir + [seg]
  {
    SplitPlain(seg, '/');
    ValidRelPathIff(seg);
  }

  lemma MarkerNames(dir: Path)
    ensures Name(MANIFEST_NAME) && At(dir, MANIFEST_NAME) == ManifestPath(dir)
    ensures Name(PART_NAME) && At(dir, PART_NAME) == PartPath(dir)
    ensures ManifestPath(dir) != PartPath(dir)
  {
    AtSegment(dir, MANIFEST_NAME);
    AtSegment(dir, PART_NAME);
    assert ManifestPath(dir)[|dir|] == MANIFEST_NAME && PartPath(dir)[|dir|] == PART_NAME;
  }

  predicate FileOfSize(files: map<Path, Bytes>, p: Path, size: nat) {
    p in files && |files[p]| == size
  }

  /** Every file the manifest lists is present at exactly the listed size. */
  predicate Agrees(files: map<Path, Bytes>, dir: Path, m: Manifest) {
    forall i | 0 <= i < |m.files| :: FileOfSize(files, At(dir, m.files[i].path), m.files[i].size)
  }

  /** What a reader of dir sees: the decoded commit marker, or nothing. */
  function Committed(c: Codec, files: map<Path, Bytes>, dir: Path): Option<Manifest> {
    if ManifestPath(dir) in files then Decode(c, files[ManifestPath(dir)]) else None
  }

  /** A prefix whose marker decodes is complete. */
  predicate CrashSafe(c: Codec, files: map<Path, Bytes>, dir: Path) {
    match Committed(c, files, dir)
    case None => true
    case Some(m) => Agrees(files, dir, m)
  }

  // ----- NewManifest -----

  /** Go's string order, byte by byte. */
  predicate LessEq(a: string, b: string) {
    a == "" || (b != "" && (a[0] < b[0] || (a[0] == b[0] && LessEq(a[1..], b[1..]))))
  }

  /** At the first place where the two differ a is smaller. */
  predicate SmallerAt(a: string, b: string, k: int) { 0 <= k < |a| && k < |b| && a[..k] == b[..k] && a[k] < b[k] }

  lemma {:induction false} SmallerLess(a: string, b: string, k: int)
    requires SmallerAt(a, b, k) || a <= b
    ensures LessEq(a, b)
  {
    if a != "" && k > 0 && SmallerAt(a, b, k) {
      assert a[0] == a[..k][0] == b[..k][0] == b[0] && a[1..][..k - 1] == a[..k][1..] == b[1..][..k - 1];
      SmallerLess(a[1..], b[1..], k - 1);
    } else if a != "" && a <= b {
      assert a[1..] <= b[1..];
      SmallerLess(a[1..], b[1..], k - 1);
    }
  }

  lemma {:induction false} LessSmaller(a: string, b: string) returns (k: nat)
    requires LessEq(a, b) && !(a <= b)
    ensures SmallerAt(a, b, k)
  {
    k := 0;
    if a[0] == b[0] {
      assert [a[0]] + a[1..] == a && [b[0]] + b[1..] == b;
      var j := LessSmaller(a[1..], b[1..]);
      k := j + 1;
      assert a[..k] == [a[0]] + a[1..][..j] && b[..k] == [b[0]] + b[1..][..j];
    }
  }

  /** The order is that of the texts: a is the start of b, or smaller where they first differ. */
  lemma LessEqIff(a: string, b: string)
    ensures LessEq(a, b) <==> a <= b || exists k :: SmallerAt(a, b, k)
  {
    if a <= b { SmallerLess(a, b, 0); }
    if k :| SmallerAt(a, b, k) { SmallerLess(a, b, k); }
    if LessEq(a, b) && !(a <= b) { var k := LessSmaller(a, b); }
  }

  lemma {:induction false} LessEqTotal(a: string, b: string)
    ensures LessEq(a, b) || LessEq(b, a)
  {
    if a != "" && b != "" { LessEqTotal(a[1..], b[1..]); }
  }

  lemma {:induction false} LessEqTransitive(a: string, b: string, c: string)
    requires LessEq(a, b) && LessEq(b, c)
    ensures LessEq(a, c)
  {
    if a != "" && a[0] == b[0] && b[0] == c[0] { LessEqTransitive(a[1..], b[1..], c[1..]); }
  }

  ghost predicate SortedByPath(fs: seq<ManifestFile>) {
    forall i, j | 0 <= i < j < |fs| :: LessEq(fs[i].path, fs[j].path)
  }

  function Insert(f: ManifestFile, fs: seq<ManifestFile>): (r: seq<ManifestFile>)
    ensures multiset(r) == multiset([f] + fs)
    ensures |r| == |fs| + 1
  {
    if fs == [] || LessEq(f.path, fs[0].path) then [f] + fs
    else
      assert fs == [fs[0]] + fs[1..];
      [fs[0]] + Insert(f, fs[1..])
  }

  function SortByPath(fs: seq<ManifestFile>): (r: seq<ManifestFile>)
    ensures multiset(r) == multiset(fs)
    ensures |r| == |fs|
  {
    if fs == [] then [] else
    assert fs == [fs[0]] + fs[1..];
    Insert(fs[0], SortByPath(fs[1..]))
  }

  lemma {:induction false} InsertSorted(f: ManifestFile, fs: seq<ManifestFile>)
    requires SortedByPath(fs)
    ensures SortedByPath(Insert(f, fs))
  {
    if fs == [] {
    } else if LessEq(f.path, fs[0].path) {
      forall j | 0 <= j < |fs| ensures LessEq(f.path, fs[j].path) {
        if j > 0 { LessEqTransitive(f.path, fs[0].path, fs[j].path); }
      }
      FrontSorted(f, fs);
    } else {
      LessEqTotal(f.path, fs[0].path);
      InsertSorted(f, fs[1..]);
      var tail := Insert(f, fs[1..]);
      forall j | 0 <= j < |tail| ensures LessEq(fs[0].path, tail[j].path) {
        assert tail[j] in multiset(tail);
        assert tail[j] == f || tail[j] in fs[1..];
      }
      FrontSorted(fs[0], tail);
    }
  }

  lemma FrontSorted(f: ManifestFile, fs: seq<ManifestFile>)
    requires SortedByPath(fs) && forall j | 0 <= j < |fs| :: LessEq(f.path, fs[j].path)
    ensures SortedByPath([f] + fs)
  {
  }

  lemma {:induction false} SortSorts(fs: seq<ManifestFile>)
    ensures SortedByPath(SortByPath(fs))
  {
    if fs != [] {
      SortSorts(fs[1..]);
      InsertSorted(fs[0], SortByPath(fs[1..]));
    }
  }

  function TotalSize(fs: seq<ManifestFile>): nat {
    if fs == [] then 0 else TotalSize(fs[..|fs| - 1]) + fs[|fs| - 1].size
  }

  function ManifestOf(fs: seq<ManifestFile>, sourceTar: string, quiesce: Option<QuiesceInfo>): Manifest {
    var sorted := SortByPath(fs);
    Manifest(MANIFEST_VERSION, FORMAT_DIR, sourceTar, quiesce, sorted, TotalSize(sorted))
  }

  method NewManifest(fs: seq<ManifestFile>, sourceTar: string, quiesce: Option<QuiesceInfo>) returns (m: Manifest)
    ensures m == ManifestOf(fs, sourceTar, quiesce)
    ensures SortedByPath(m.files) && multiset(m.files) == multiset(fs)
    ensures m.totalBytes == TotalSize(m.files) && m.version == 1 && m.format == "dir"
    ensures m.sourceTar == sourceTar && m.quiesce == quiesce
  {
    var files := SortByPath(fs);
    SortSorts(fs);
    var total := 0;
    for i := 0 to |files|
      invariant total == TotalSize(files[..i])
    {
      assert files[..i + 1][..i] == files[..i];
      total := total + files[i].size;
    }
    assert files[..|files|] == files;
    m := Manifest(MANIFEST_VERSION, FORMAT_DIR, sourceTar, quiesce, files, total);
  }

  predicate Listable(fs: seq<ManifestFile>) {
    |fs| > 0 && forall i | 0 <= i < |fs| :: ValidRelPath(fs[i].path)
  }

  /** A manifest reads back as itself if and only if it is of a version this reader knows, lists
      something, and lists nothing but validated names; any other is refused. */
  lemma DecodesIff(c: Codec, m: Manifest)
    requires Lawful(c)
    ensures Decode(c, c.encode(m)) == (if m.version <= 1 && Listable(m.files) then Some(m) else None)
  {
  }

  /** A manifest built over validated names reads back as itself. */
  lemma ManifestRoundTrip(c: Codec, fs: seq<ManifestFile>, sourceTar: string, quiesce: Option<QuiesceInfo>)
    requires Lawful(c) && Listable(fs)
    ensures Decode(c, c.encode(ManifestOf(fs, sourceTar, quiesce))) == Some(ManifestOf(fs, sourceTar, quiesce))
  {
    var m := ManifestOf(fs, sourceTar, quiesce);
    forall i | 0 <= i < |m.files| ensures ValidRelPath(m.files[i].path) {
      assert m.files[i] in multiset(m.files);
      assert m.files[i] in fs;
    }
  }

  /** Agreement does not depend on the order of the list. */
  lemma AgreesSorted(files: map<Path, Bytes>, dir: Path, fs: seq<ManifestFile>, sourceTar: string,
                     quiesce: Option<QuiesceInfo>)
    ensures Agrees(files, dir, ManifestOf(fs, sourceTar, quiesce))
       <==> forall i | 0 <= i < |fs| :: FileOfSize(files, At(dir, fs[i].path), fs[i].size)
  {
    var m := ManifestOf(fs, sourceTar, quiesce);
    forall i | 0 <= i < |fs| ensures fs[i] in m.files { assert fs[i] in multiset(m.files); }
    forall i | 0 <= i < |m.files| ensures m.files[i] in fs { assert m.files[i] in multiset(fs); }
  }

  /** A state whose marker is a torn or whole encoding of m, over a tree that agrees with m. */
  lemma TornIsSafe(c: Codec, files: map<Path, Bytes>, dir: Path, m: Manifest)
    requires Lawful(c) && Agrees(files, dir, m)
    requires ManifestPath(dir) in files && files[ManifestPath(dir)] <= c.encode(m)
    ensures CrashSafe(c, files, dir)
  {
    assert TornFrom(files[ManifestPath(dir)], c.encode(m));
  }
}
