/** internal/artifact/publish.go: commit, in place, an artifact whose images are already there. */
module PublishInPlace {
  import opened Paths
  import opened Storage
  import opened Manifests
  import opened Commit
  import opened Expand

  const CONFIG_NAME := "config.dump"
  const SPEC_NAME := "spec.dump"
  const ROOTFS_DIFF_NAME := "rootfs-diff.tar"
  const CHECKPOINT_NAME := "checkpoint"

  /** The files PublishDir may write before the marker. */
  function Metadata(dir: Path): set<Path> {
    {dir + [CONFIG_NAME], dir + [SPEC_NAME], dir + [SHM_DIFF_NAME], dir + [ROOTFS_DIFF_NAME]}
  }

  lemma MetadataNotMarker(dir: Path)
    ensures ManifestPath(dir) !in Metadata(dir) && PartPath(dir) !in Metadata(dir)
  {
    var n := |dir|;
    assert ManifestPath(dir)[n] == MANIFEST_NAME && PartPath(dir)[n] == PART_NAME;
    assert (dir + [CONFIG_NAME])[n] == CONFIG_NAME && (dir + [SPEC_NAME])[n] == SPEC_NAME;
    assert (dir + [SHM_DIFF_NAME])[n] == SHM_DIFF_NAME && (dir + [ROOTFS_DIFF_NAME])[n] == ROOTFS_DIFF_NAME;
  }

  // ----- names on disk -----

  /** filepath.Rel(dir, p) for a file below dir. */
  function Rel(dir: Path, p: Path): string
    requires dir < p
  {
    Join(p[|dir|..], '/')
  }

  /** Every file below dir has a path of proper segments. */
  ghost predicate TidyTree(files: map<Path, Bytes>, dir: Path) {
    forall p | p in files && dir < p :: ProperPath(p[|dir|..])
  }

  lemma RelAt(dir: Path, p: Path)
    requires dir < p && ProperPath(p[|dir|..])
    ensures Name(Rel(dir, p)) && At(dir, Rel(dir, p)) == p
  {
    var segs := p[|dir|..];
    SplitJoin(segs, '/');
    ValidRelPathIff(Rel(dir, p));
    assert dir + segs == p;
    if Rel(dir, p) == "." {
      SplitPlain(".", '/');
      assert false;
    }
  }

  lemma RelInjective(dir: Path, p: Path, q: Path)
    requires dir < p && ProperPath(p[|dir|..]) && dir < q && ProperPath(q[|dir|..])
    ensures Rel(dir, p) == Rel(dir, q) ==> p == q
  {
    RelAt(dir, p);
    RelAt(dir, q);
  }

  function Entry(dir: Path, p: Path, data: Bytes, digest: bool): ManifestFile
    requires dir < p
  {
    ManifestFile(Rel(dir, p), |data|, if digest then DigestOf(data) else NoDigest)
  }

  /** fs describes, one for one, the files of the tree at the given places. */
  ghost predicate DescribesAt(tree: map<Path, Bytes>, dir: Path, fs: seq<ManifestFile>, places: seq<Path>) {
    && |fs| == |places|
    && (forall i | 0 <= i < |fs| :: dir < places[i] && places[i] in tree
                                    && fs[i].path == Rel(dir, places[i]) && fs[i].size == |tree[places[i]]|
                                    && (fs[i].sha256 == NoDigest || fs[i].sha256 == DigestOf(tree[places[i]])))
    && (forall i, j | 0 <= i < j < |places| :: places[i] != places[j])
  }

  /** The files WalkDir finds below dir. */
  function Tree(files: map<Path, Bytes>, dir: Path): set<Path> {
    set p | p in files && dir < p
  }

  /** From number n on each entry has its digest, if digests are asked for, or none. */
  ghost predicate WalkedDigests(tree: map<Path, Bytes>, fs: seq<ManifestFile>, places: seq<Path>, n: nat,
                                digest: bool)
  {
    |fs| == |places| && forall i | n <= i < |fs| ::
      places[i] in tree && fs[i].sha256 == if digest then DigestOf(tree[places[i]]) else NoDigest
  }

  /** The walk: every file below dir that is neither the marker nor described already. */
  method Walk<X>(m: Machine<X>, dir: Path, described: seq<ManifestFile>, ghost at: seq<Path>, digest: bool)
    returns (fs: seq<ManifestFile>, ghost places: seq<Path>, ok: bool)
    requires DescribesAt(m.now.files, dir, described, at) && TidyTree(m.now.files, dir)
    requires forall i | 0 <= i < |at| :: at[i] != ManifestPath(dir)
    ensures ok ==> DescribesAt(m.now.files, dir, fs, places)
    ensures ok ==> |described| <= |fs| && fs[..|described|] == described && at <= places
    ensures ok ==> WalkedDigests(m.now.files, fs, places, |described|, digest)
    ensures ok ==> forall p :: p in places <==> p in Tree(m.now.files, dir) - {ManifestPath(dir)}
    ensures !m.faulty ==> ok
  {
    fs, places, ok := described, at, true;
    var tree := m.now.files;
    var todo := Tree(tree, dir);
    while todo != {}
      invariant todo <= Tree(tree, dir)
      invariant DescribesAt(tree, dir, fs, places)
      invariant forall p :: p in places ==> p != ManifestPath(dir) && (p in at || p !in todo)
      invariant forall p | p in Tree(tree, dir) :: p in todo || p == ManifestPath(dir) || p in places
      invariant at <= places && described <= fs
      invariant WalkedDigests(tree, fs, places, |described|, digest)
      decreases |todo|
    {
      var p :| p in todo;
      todo := todo - {p};
      var fails: bool := *;
      if m.faulty && fails { return fs, places, false; }
      var rel := Rel(dir, p);
      ListedIff(tree, dir, described, at, p);
      if p != ManifestPath(dir) && !exists i | 0 <= i < |described| :: described[i].path == rel {
        DescribesMore(tree, dir, fs, places, p, digest);
        fs := fs + [Entry(dir, p, tree[p], digest)];
        places := places + [p];
      }
    }
  }

  lemma DescribesMore(tree: map<Path, Bytes>, dir: Path, fs: seq<ManifestFile>, places: seq<Path>, p: Path,
                      digest: bool)
    requires DescribesAt(tree, dir, fs, places) && p in Tree(tree, dir) && p !in places
    ensures DescribesAt(tree, dir, fs + [Entry(dir, p, tree[p], digest)], places + [p])
  {
  }

  /** The walk's "already described" test by name is the same test by place. */
  lemma ListedIff(tree: map<Path, Bytes>, dir: Path, fs: seq<ManifestFile>, places: seq<Path>, p: Path)
    requires DescribesAt(tree, dir, fs, places) && TidyTree(tree, dir) && p in Tree(tree, dir)
    ensures (exists i | 0 <= i < |fs| :: fs[i].path == Rel(dir, p)) <==> p in places
  {
    if i :| 0 <= i < |fs| && fs[i].path == Rel(dir, p) {
      RelInjective(dir, places[i], p);
      assert places[i] == p;
    }
    if p in places {
      var i :| 0 <= i < |places| && places[i] == p;
      assert fs[i].path == Rel(dir, p);
    }
  }

  /** Where digests are asked for every listed file has its own; otherwise only a contributed
      diff may have one. */
  ghost predicate Digested(tree: map<Path, Bytes>, dir: Path, man: Manifest, digest: bool) {
    forall i | 0 <= i < |man.files| :: DigestAsAsked(tree, At(dir, man.files[i].path), dir, man.files[i], digest)
  }

  ghost predicate DigestAsAsked(tree: map<Path, Bytes>, p: Path, dir: Path, f: ManifestFile, digest: bool) {
    (digest ==> p in tree && f.sha256 == DigestOf(tree[p])) && (!digest && p !in Diffs(dir) ==> f.sha256 == NoDigest)
  }

  lemma WalkDigested(tree: map<Path, Bytes>, dir: Path, fs: seq<ManifestFile>, places: seq<Path>, n: nat,
                     digest: bool, q: Option<QuiesceInfo>)
    requires DescribesAt(tree, dir, fs, places) && TidyTree(tree, dir) && n <= |fs|
    requires forall i | 0 <= i < n :: places[i] in Diffs(dir) && fs[i].sha256 == DigestOf(tree[places[i]])
    requires WalkedDigests(tree, fs, places, n, digest)
    ensures Digested(tree, dir, ManifestOf(fs, "", q), digest)
  {
    var man := ManifestOf(fs, "", q);
    forall i | 0 <= i < |man.files| ensures DigestAsAsked(tree, At(dir, man.files[i].path), dir, man.files[i], digest) {
      var j := SameElements(man.files, fs, i);
      RelAt(dir, places[j]);
    }
  }

  // ----- what the artifact must contain -----

  const MAGIC: Bytes := [0x19, 0x43, 0x56, 0x54]

  /** path.Base of a listed name. */
  function Base(path: string): string {
    var parts := Split(path, '/');
    parts[|parts| - 1]
  }

  predicate HasSuffix(s: string, suffix: string) {
    |s| >= |suffix| && s[|s| - |suffix|..] == suffix
  }

  predicate IsPages(f: ManifestFile) {
    var base := Base(f.path);
    |base| > 6 && base[..6] == "pages-"
  }

  /** The images whose header verifyImageMagic reads. */
  predicate Checked(f: ManifestFile) {
    var base := Base(f.path);
    && HasSuffix(base, ".img") && !("pages-" <= base)
    && !HasSuffix(base, ".tar.gz.img")
    && base != "inventory.img"
    && f.size >= |MAGIC|
  }

  predicate MagicHolds(files: map<Path, Bytes>, dir: Path, f: ManifestFile) {
    Checked(f) ==> At(dir, f.path) in files && MAGIC <= files[At(dir, f.path)]
  }

  method SawPages(fs: seq<ManifestFile>) returns (saw: bool)
    ensures saw <==> exists i | 0 <= i < |fs| :: IsPages(fs[i])
  {
    for i := 0 to |fs|
      invariant forall j | 0 <= j < i :: !IsPages(fs[j])
    {
      if IsPages(fs[i]) { return true; }
    }
    saw := false;
  }

  method VerifyImageMagic<X>(m: Machine<X>, dir: Path, fs: seq<ManifestFile>) returns (ok: bool)
    ensures ok ==> forall i | 0 <= i < |fs| :: MagicHolds(m.now.files, dir, fs[i])
    ensures !m.faulty && !ok ==> exists i | 0 <= i < |fs| :: !MagicHolds(m.now.files, dir, fs[i])
  {
    for i := 0 to |fs|
      invariant forall j | 0 <= j < i :: MagicHolds(m.now.files, dir, fs[j])
    {
      var f := fs[i];
      if Checked(f) {
        var p := At(dir, f.path);
        var fails: bool := *;
        if (m.faulty && fails) || p !in m.now.files || |m.now.files[p]| < |MAGIC| {
          return false;
        }
        if m.now.files[p][..|MAGIC|] != MAGIC {
          return false;
        }
      }
    }
    ok := true;
  }

  // ----- the same, said of the tree -----

  function LastName(p: Path): string
    requires p != []
  {
    p[|p| - 1]
  }

  /** A memory image: pages- and something after it. */
  predicate PagesName(name: string) { |name| > |"pages-"| && name[..|"pages-"|] == "pages-" }

  /** An image whose first bytes must be the magic, if it has as many: any other .img but the
      gzipped tars and the inventory. */
  predicate MetadataImage(name: string) {
    && HasSuffix(name, ".img") && !("pages-" <= name)
    && !HasSuffix(name, ".tar.gz.img") && name != "inventory.img"
  }

  ghost predicate HasPages(tree: map<Path, Bytes>, dir: Path) {
    exists p :: p in tree && dir < p && PagesName(LastName(p))
  }

  ghost predicate HasMagics(tree: map<Path, Bytes>, dir: Path) {
    forall p | p in tree && dir < p && MetadataImage(LastName(p)) && |tree[p]| >= |MAGIC| :: MAGIC <= tree[p]
  }

  lemma BaseIsLast(dir: Path, p: Path)
    requires dir < p && ProperPath(p[|dir|..])
    ensures Base(Rel(dir, p)) == LastName(p)
  {
    SplitJoin(p[|dir|..], '/');
  }

  lemma MarkerPlain(dir: Path)
    ensures !PagesName(LastName(ManifestPath(dir))) && !MetadataImage(LastName(ManifestPath(dir)))
  {
    var name := MANIFEST_NAME;
    assert LastName(ManifestPath(dir)) == name;
    assert name[..6][0] == 'M' && name[|name| - 4..][3] == 'T';
  }

  /** The walk found every file but the marker. */
  ghost predicate Walked(tree: map<Path, Bytes>, dir: Path, fs: seq<ManifestFile>, places: seq<Path>) {
    && DescribesAt(tree, dir, fs, places) && TidyTree(tree, dir)
    && (forall p :: p in places <==> p in Tree(tree, dir) - {ManifestPath(dir)})
  }

  lemma PagesListed(tree: map<Path, Bytes>, dir: Path, fs: seq<ManifestFile>, places: seq<Path>)
    requires Walked(tree, dir, fs, places)
    ensures HasPages(tree, dir) <==> exists i :: 0 <= i < |fs| && IsPages(fs[i])
  {
    if p :| p in tree && dir < p && PagesName(LastName(p)) {
      MarkerPlain(dir);
      assert p in Tree(tree, dir) - {ManifestPath(dir)};
      var i :| 0 <= i < |places| && places[i] == p;
      BaseIsLast(dir, p);
      assert IsPages(fs[i]);
    }
    if i :| 0 <= i < |fs| && IsPages(fs[i]) {
      assert places[i] in places;
      BaseIsLast(dir, places[i]);
    }
  }

  lemma MagicsListed(tree: map<Path, Bytes>, dir: Path, fs: seq<ManifestFile>, places: seq<Path>)
    requires Walked(tree, dir, fs, places)
    ensures HasMagics(tree, dir) <==> forall i | 0 <= i < |fs| :: MagicHolds(tree, dir, fs[i])
  {
    forall i | 0 <= i < |fs|
      ensures At(dir, fs[i].path) == places[i] && Base(fs[i].path) == LastName(places[i])
    {
      assert places[i] in places;
      RelAt(dir, places[i]);
      BaseIsLast(dir, places[i]);
    }
    if forall i | 0 <= i < |fs| :: MagicHolds(tree, dir, fs[i]) {
      forall p | p in tree && dir < p && MetadataImage(LastName(p)) && |tree[p]| >= |MAGIC| ensures MAGIC <= tree[p] {
        MarkerPlain(dir);
        assert p in Tree(tree, dir) - {ManifestPath(dir)};
        var i :| 0 <= i < |places| && places[i] == p;
        assert MagicHolds(tree, dir, fs[i]);
      }
    }
  }

  // ----- the manifest against the tree -----

  predicate DistinctPaths(fs: seq<ManifestFile>) {
    forall i, j | 0 <= i < j < |fs| :: fs[i].path != fs[j].path
  }

  /** The manifest lists every file below dir except the marker exactly once, sorted, with
      its size, and sums the sizes. */
  ghost predicate Exact(tree: map<Path, Bytes>, dir: Path, man: Manifest) {
    && SortedByPath(man.files) && DistinctPaths(man.files) && man.totalBytes == TotalSize(man.files)
    && (forall i | 0 <= i < |man.files| :: Lists(tree, dir, man.files[i]))
    && (forall p | p in Tree(tree, dir) - {ManifestPath(dir)} :: Covers(dir, man, p))
  }

  /** f is the entry of one file of the tree that is not the marker. */
  predicate Lists(tree: map<Path, Bytes>, dir: Path, f: ManifestFile) {
    && Name(f.path) && FileOfSize(tree, At(dir, f.path), f.size)
    && At(dir, f.path) in Tree(tree, dir) && At(dir, f.path) != ManifestPath(dir)
    && (f.sha256 == NoDigest || f.sha256 == DigestOf(tree[At(dir, f.path)]))
  }

  lemma {:induction false} CountDistinct(fs: seq<ManifestFile>, x: ManifestFile)
    requires DistinctPaths(fs)
    ensures multiset(fs)[x] <= 1
  {
    if fs != [] {
      var n := |fs| - 1;
      assert fs == fs[..n] + [fs[n]];
      CountDistinct(fs[..n], x);
      if x in fs[..n] {
        var i :| 0 <= i < n && fs[i] == x;
        assert fs[i].path != fs[n].path;
      } else {
        assert x !in multiset(fs[..n]);
      }
    }
  }

  lemma CountTwice(fs: seq<ManifestFile>, i: nat, j: nat)
    requires i < j < |fs| && fs[i] == fs[j]
    ensures multiset(fs)[fs[i]] >= 2
  {
    assert fs == fs[..j] + fs[j..];
    assert fs[i] in multiset(fs[..j]) && fs[j] in multiset(fs[j..]) by {
      assert fs[..j][i] == fs[i] && fs[j..][0] == fs[j];
    }
  }

  /** Sorting a list without duplicate names leaves it without duplicate names. */
  lemma SortDistinct(fs: seq<ManifestFile>, sorted: seq<ManifestFile>)
    requires DistinctPaths(fs) && multiset(sorted) == multiset(fs)
    ensures DistinctPaths(sorted)
  {
    forall i, j | 0 <= i < j < |sorted| ensures sorted[i].path != sorted[j].path {
      assert sorted[i] in multiset(fs) && sorted[j] in multiset(fs);
      if sorted[i] == sorted[j] {
        CountTwice(sorted, i, j);
        CountDistinct(fs, sorted[i]);
      } else {
        var a :| 0 <= a < |fs| && fs[a] == sorted[i];
        var b :| 0 <= b < |fs| && fs[b] == sorted[j];
        assert a != b;
      }
    }
  }

  lemma DescribedLists(tree: map<Path, Bytes>, dir: Path, fs: seq<ManifestFile>, places: seq<Path>, i: nat)
    requires DescribesAt(tree, dir, fs, places) && TidyTree(tree, dir) && i < |fs| && places[i] != ManifestPath(dir)
    ensures Lists(tree, dir, fs[i]) && At(dir, fs[i].path) == places[i]
  {
    RelAt(dir, places[i]);
  }

  lemma DescribedDistinct(tree: map<Path, Bytes>, dir: Path, fs: seq<ManifestFile>, places: seq<Path>)
    requires DescribesAt(tree, dir, fs, places) && TidyTree(tree, dir)
    ensures DistinctPaths(fs)
  {
    forall i, j | 0 <= i < j < |fs| ensures fs[i].path != fs[j].path {
      RelInjective(dir, places[i], places[j]);
    }
  }

  lemma SameElements(a: seq<ManifestFile>, b: seq<ManifestFile>, i: nat) returns (j: nat)
    requires multiset(a) == multiset(b) && i < |a|
    ensures j < |b| && b[j] == a[i]
  {
    assert a[i] in multiset(b);
    j :| 0 <= j < |b| && b[j] == a[i];
  }

  /** A complete list by places makes an exact manifest. */
  lemma ExactManifest(tree: map<Path, Bytes>, dir: Path, fs: seq<ManifestFile>, places: seq<Path>,
                      q: Option<QuiesceInfo>)
    requires DescribesAt(tree, dir, fs, places) && TidyTree(tree, dir)
    requires forall p :: p in places <==> p in Tree(tree, dir) - {ManifestPath(dir)}
    ensures Exact(tree, dir, ManifestOf(fs, "", q))
  {
    var man := ManifestOf(fs, "", q);
    SortSorts(fs);
    DescribedDistinct(tree, dir, fs, places);
    SortDistinct(fs, man.files);
    forall i | 0 <= i < |man.files| ensures Lists(tree, dir, man.files[i]) {
      var j := SameElements(man.files, fs, i);
      assert places[j] in places;
      DescribedLists(tree, dir, fs, places, j);
    }
    forall p | p in Tree(tree, dir) - {ManifestPath(dir)} ensures Covers(dir, man, p) {
      var i :| 0 <= i < |places| && places[i] == p;
      DescribedLists(tree, dir, fs, places, i);
      var j := SameElements(fs, man.files, i);
    }
  }

  ghost predicate Covers(dir: Path, man: Manifest, p: Path) {
    exists i :: 0 <= i < |man.files| && At(dir, man.files[i].path) == p
  }

  /** Publishing an exact manifest leaves an artifact that agrees with it exactly when no
      temporary marker was lying in the tree. */
  lemma ExactAgreesIff(tree: map<Path, Bytes>, dir: Path, man: Manifest, marker: Bytes)
    requires Exact(tree, dir, man)
    ensures Agrees(Publish(tree, dir, marker), dir, man) <==> PartPath(dir) !in tree
    ensures PartPath(dir) !in tree ==> Agrees(tree, dir, man) && ListsNoMarker(man)
  {
    MarkerNames(dir);
    var final := Publish(tree, dir, marker);
    if PartPath(dir) in tree {
      assert PartPath(dir) in Tree(tree, dir) - {ManifestPath(dir)};
      var i :| 0 <= i < |man.files| && At(dir, man.files[i].path) == PartPath(dir);
      assert !FileOfSize(final, At(dir, man.files[i].path), man.files[i].size);
    } else {
      forall i | 0 <= i < |man.files|
        ensures man.files[i].path != MANIFEST_NAME && man.files[i].path != PART_NAME
        ensures FileOfSize(tree, At(dir, man.files[i].path), man.files[i].size)
        ensures FileOfSize(final, At(dir, man.files[i].path), man.files[i].size)
      {
        assert Lists(tree, dir, man.files[i]);
      }
      assert forall i | 0 <= i < |man.files| :: Name(man.files[i].path) by {
        forall i | 0 <= i < |man.files| ensures Name(man.files[i].path) { assert Lists(tree, dir, man.files[i]); }
      }
    }
  }

  /** An exact manifest over a tree that has files reads back as itself. */
  lemma ExactDecodes(c: Codec, tree: map<Path, Bytes>, dir: Path, fs: seq<ManifestFile>, q: Option<QuiesceInfo>)
    requires Lawful(c) && fs != [] && Exact(tree, dir, ManifestOf(fs, "", q))
    ensures Decode(c, c.encode(ManifestOf(fs, "", q))) == Some(ManifestOf(fs, "", q))
  {
    var man := ManifestOf(fs, "", q);
    forall i | 0 <= i < |fs| ensures ValidRelPath(fs[i].path) {
      assert fs[i] in multiset(man.files);
      var j :| 0 <= j < |man.files| && man.files[j] == fs[i];
      assert Lists(tree, dir, man.files[j]);
    }
    ManifestRoundTrip(c, fs, "", q);
  }

  // ----- PublishDir -----

  /** os.WriteFile opens without unlinking: the new bytes come first, and where O_TRUNC is
      ignored the tail of a longer old file may survive; over no file, or one that is no
      longer than the new bytes, they are all there is. */
  ghost predicate Wrote(before: map<Path, Bytes>, after: map<Path, Bytes>, p: Path, data: Bytes) {
    && p in after && after == before[p := after[p]]
    && data <= after[p] && (p !in before || |before[p]| <= |data| ==> after[p] == data)
  }

  method PutFile<X>(m: Machine<X>, p: Path, data: Bytes, ghost touched: set<Path>) returns (e: Err)
    requires m.Valid() && p in touched
    modifies m
    ensures m.Valid() && m.Only(touched) && m.now.dirs == old(m.now.dirs)
    ensures e.Nil? ==> Wrote(old(m.now.files), m.now.files, p, data)
    ensures !m.faulty && !IsDir(old(m.now), p) ==> e.Nil?
  {
    e := m.Create(p, touched);
    if !e.Nil? { return; }
    var n;
    n, e := StreamInto(m, p, data, touched);
    if !e.Nil? { return; }
    assert data[..|data|] == data && Overwrite([], 0, data) == data;
    if p in old(m.now.files) { TailSurvivesIff(old(m.now.files)[p], data); }
    e := m.Flush();
  }

  /** config.dump and spec.dump, in either order. */
  method PutMetadata<X>(m: Machine<X>, config: Path, spec: Path, meta: Bytes, ociSpec: Bytes,
                        ghost touched: set<Path>)
    returns (e: Err)
    requires m.Valid() && config in touched && spec in touched && config != spec
    modifies m
    ensures m.Valid() && m.Only(touched) && m.now.dirs == old(m.now.dirs)
    ensures e.Nil? ==>
              && Recorded(old(m.now.files), m.now.files, config, meta)
              && Recorded(old(m.now.files), m.now.files, spec, ociSpec)
              && m.now.files == old(m.now.files)[config := m.now.files[config]][spec := m.now.files[spec]]
    ensures !m.faulty && !IsDir(old(m.now), config) && !IsDir(old(m.now), spec) && |config| == |spec| ==> e.Nil?
  {
    var configFirst: bool := *;
    var first, second := if configFirst then config else spec, if configFirst then spec else config;
    e := PutFile(m, first, if configFirst then meta else ociSpec, touched);
    if !e.Nil? { return; }
    if |first| == |second| { VacantBeside(old(m.now), m.now, second, first); }
    e := PutFile(m, second, if configFirst then ociSpec else meta, touched);
  }

  /** One supplementary capture: whatever goes wrong is logged and the publish goes on. */
  method Contribute<X>(m: Machine<X>, dir: Path, name: string, p: Path, diff: Option<Bytes>, ghost touched: set<Path>)
    returns (fs: seq<ManifestFile>, ghost at: seq<Path>)
    requires m.Valid() && p in touched && p == dir + [name] && Proper(name)
    modifies m
    ensures m.Valid() && m.Only(touched) && DescribesAt(m.now.files, dir, fs, at) && AllDigested(m.now.files, fs, at)
    ensures Contributed(old(m.now), m.now, p, diff, !m.faulty, at)
    ensures !m.faulty && !IsDir(old(m.now), p) ==> (at == [p] <==> diff.Some?)
  {
    fs, at := [], [];
    var captured, e := CaptureInto(m, p, diff, touched);
    if !e.Nil? || !captured { return; }
    AtSegment(dir, name);
    var entry := DescribeFile(m, dir, name);
    if entry.None? { return; }
    fs, at := [entry.value], [p];
    OneDescribed(m.now.files, dir, name, p, entry.value);
  }

  /** Every contribution is listed with the digest of what lies there. */
  ghost predicate AllDigested(tree: map<Path, Bytes>, fs: seq<ManifestFile>, at: seq<Path>) {
    |fs| == |at| && forall i | 0 <= i < |fs| :: at[i] in tree && fs[i].sha256 == DigestOf(tree[at[i]])
  }

  lemma OneDescribed(tree: map<Path, Bytes>, dir: Path, name: string, p: Path, f: ManifestFile)
    requires p in tree && p == dir + [name] && f.path == name && f.size == |tree[p]| && f.sha256 == DigestOf(tree[p])
    ensures DescribesAt(tree, dir, [f], [p])
  {
    assert p[|dir|..] == [name];
  }

  /** Two lists made one after the other, the second after a change that spared the first. */
  lemma DescribesBoth(before: map<Path, Bytes>, tree: map<Path, Bytes>, dir: Path, a: seq<ManifestFile>, p: seq<Path>,
                      b: seq<ManifestFile>, q: seq<Path>)
    requires DescribesAt(before, dir, a, p) && DescribesAt(tree, dir, b, q)
    requires forall i | 0 <= i < |p| :: SameFile(before, tree, p[i]) && p[i] !in q
    ensures DescribesAt(tree, dir, a + b, p + q)
  {
    forall i | 0 <= i < |p| ensures p[i] in tree && tree[p[i]] == before[p[i]] {
      assert SameFile(before, tree, p[i]);
    }
  }

  /** contribute of the checkpoint agent: the shared memory, then the writable layer, each
      under its own name. */
  method ContributeBoth<X>(m: Machine<X>, dir: Path, shm: Option<Bytes>, rootfs: Option<Bytes>,
                           ghost touched: set<Path>)
    returns (fs: seq<ManifestFile>, ghost at: seq<Path>)
    requires m.Valid() && dir + [SHM_DIFF_NAME] in touched && dir + [ROOTFS_DIFF_NAME] in touched
    modifies m
    ensures m.Valid() && m.Only(touched) && DescribesAt(m.now.files, dir, fs, at) && AllDigested(m.now.files, fs, at)
    ensures ContributedBoth(old(m.now), m.now, dir, shm, rootfs, !m.faulty, at)
  {
    var x, y := dir + [SHM_DIFF_NAME], dir + [ROOTFS_DIFF_NAME];
    assert x[|dir|] != y[|dir|];
    fs, at := Contribute(m, dir, SHM_DIFF_NAME, x, shm, touched);
    ghost var between, p := m.now, at;
    var more;
    ghost var q;
    more, q := Contribute(m, dir, ROOTFS_DIFF_NAME, y, rootfs, touched);
    DescribesTwo(between.files, m.now.files, dir, fs, p, more, q, x, y);
    ContributedTwo(old(m.now), between, m.now, dir, shm, rootfs, !m.faulty, p, q);
    fs, at := fs + more, p + q;
  }

  /** What one contribution may come to: where it is listed, and what then lies there. */
  ghost predicate Contributed<X>(a: Disk<X>, b: Disk<X>, p: Path, diff: Option<Bytes>, sure: bool, at: seq<Path>) {
    && OnlyAt(a.files, b.files, p) && b.dirs == a.dirs
    && (at == [] || at == [p]) && (at == [p] ==> diff.Some?)
    && Captured(a.files, b.files, p, diff, at == [p] || (sure && !IsDir(a, p)))
  }

  lemma ContributedTwo<X>(a: Disk<X>, b: Disk<X>, d: Disk<X>, dir: Path, shm: Option<Bytes>, rootfs: Option<Bytes>,
                          sure: bool, p: seq<Path>, q: seq<Path>)
    requires Contributed(a, b, dir + [SHM_DIFF_NAME], shm, sure, p)
    requires Contributed(b, d, dir + [ROOTFS_DIFF_NAME], rootfs, sure, q)
    ensures ContributedBoth(a, d, dir, shm, rootfs, sure, p + q)
  {
    var x, y := dir + [SHM_DIFF_NAME], dir + [ROOTFS_DIFF_NAME];
    assert x[|dir|] == SHM_DIFF_NAME && y[|dir|] == ROOTFS_DIFF_NAME;
    CaptureThen(a, b, d, x, y, shm, sure, p, q);
    ThenCapture(a, b, d, x, y, rootfs, sure, p, q);
    assert forall z | z != x && z != y :: SameFile(a.files, d.files, z);
  }

  /** The first capture is not touched by the second. */
  lemma CaptureThen<X>(a: Disk<X>, b: Disk<X>, d: Disk<X>, x: Path, y: Path, diff: Option<Bytes>, sure: bool,
                       p: seq<Path>, q: seq<Path>)
    requires Contributed(a, b, x, diff, sure, p) && OnlyAt(b.files, d.files, y) && x != y && (q == [] || q == [y])
    ensures ListedCapture(a, d, x, diff, sure, p + q)
  {
    assert SameFile(b.files, d.files, x);
    assert x in p + q <==> x in p;
  }

  /** The second finds things as if the first had not been. */
  lemma ThenCapture<X>(a: Disk<X>, b: Disk<X>, d: Disk<X>, x: Path, y: Path, diff: Option<Bytes>, sure: bool,
                       p: seq<Path>, q: seq<Path>)
    requires OnlyAt(a.files, b.files, x) && b.dirs == a.dirs && |x| == |y| && x != y && (p == [] || p == [x])
    requires Contributed(b, d, y, diff, sure, q)
    ensures ListedCapture(a, d, y, diff, sure, p + q)
  {
    assert SameFile(a.files, b.files, y);
    VacantBeside(a, b, y, x);
    assert y in p + q <==> y in q;
  }

  /** The same of both: nothing but the two diffs may differ, each of them holds its own
      capture, and what is listed was captured whole. */
  ghost predicate ContributedBoth<X>(a: Disk<X>, d: Disk<X>, dir: Path, shm: Option<Bytes>, rootfs: Option<Bytes>,
                                     sure: bool, at: seq<Path>)
  {
    && d.dirs == a.dirs && (forall i | 0 <= i < |at| :: at[i] in Diffs(dir))
    && (forall p | p !in Diffs(dir) :: SameFile(a.files, d.files, p))
    && ListedCapture(a, d, dir + [SHM_DIFF_NAME], shm, sure, at)
    && ListedCapture(a, d, dir + [ROOTFS_DIFF_NAME], rootfs, sure, at)
  }

  ghost predicate ListedCapture<X>(a: Disk<X>, d: Disk<X>, p: Path, diff: Option<Bytes>, sure: bool, at: seq<Path>) {
    (p in at ==> diff.Some?) && Captured(a.files, d.files, p, diff, p in at || (sure && !IsDir(a, p)))
  }

  /** At most one file each, at two different places. */
  lemma DescribesTwo(before: map<Path, Bytes>, tree: map<Path, Bytes>, dir: Path, a: seq<ManifestFile>, p: seq<Path>,
                     b: seq<ManifestFile>, q: seq<Path>, x: Path, y: Path)
    requires DescribesAt(before, dir, a, p) && DescribesAt(tree, dir, b, q) && x != y
    requires (p == [] || p == [x]) && (q == [] || q == [y])
    requires tree == before || (y in tree && tree == before[y := tree[y]])
    requires AllDigested(before, a, p) && AllDigested(tree, b, q)
    ensures DescribesAt(tree, dir, a + b, p + q) && AllDigested(tree, a + b, p + q)
    ensures forall i | 0 <= i < |p + q| :: (p + q)[i] == x || (p + q)[i] == y
  {
    DescribesBoth(before, tree, dir, a, p, b, q);
  }

  /** The metadata files have proper names, so writing them keeps the tree tidy. */
  lemma TidyKept(a: map<Path, Bytes>, b: map<Path, Bytes>, dir: Path, touched: set<Path>)
    requires TidyTree(a, dir) && Alike(a, b, touched) && touched <= Metadata(dir) + Markers(dir)
    ensures TidyTree(b, dir)
  {
    forall p | p in b && dir < p ensures ProperPath(p[|dir|..]) {
      if p in touched {
        assert p[|dir|..] == [p[|dir|]];
      } else {
        AlikeAt(a, b, touched, p);
      }
    }
  }

  /** The walk lists what it finds: a diff is in the manifest exactly when its file is in the
      tree, however its capture ended. */
  lemma DiffListedIff(tree: map<Path, Bytes>, dir: Path, man: Manifest, p: Path)
    requires Exact(tree, dir, man) && p in Diffs(dir)
    ensures Covers(dir, man, p) <==> p in tree
  {
    MetadataApart(dir);
    if i :| 0 <= i < |man.files| && At(dir, man.files[i].path) == p { assert Lists(tree, dir, man.files[i]); }
    if p in tree { assert p in Tree(tree, dir) - {ManifestPath(dir)}; }
  }

  /** So a capture that is cut off is published as far as it got: any archive, cut anywhere,
      over any tree without one. */
  lemma CutCaptureListed(before: map<Path, Bytes>, dir: Path, p: Path, data: Bytes, n: nat, man: Manifest)
    requires p in Diffs(dir) && p !in before && n < |data| && Exact(before[p := data[..n]], dir, man)
    ensures Captured(before, before[p := data[..n]], p, Some(data), false)
    ensures Covers(dir, man, p) && before[p := data[..n]][p] != data
  {
    DiffListedIff(before[p := data[..n]], dir, man, p);
  }

  /** A commit in place: the manifest is exact, at least one memory image exists and every
      checked image starts with the magic. */
  ghost predicate Sound(tree: map<Path, Bytes>, dir: Path, man: Manifest) {
    && Exact(tree, dir, man)
    && (exists i :: 0 <= i < |man.files| && IsPages(man.files[i]))
    && (forall i | 0 <= i < |man.files| :: MagicHolds(tree, dir, man.files[i]))
  }

  lemma SoundManifest(tree: map<Path, Bytes>, dir: Path, fs: seq<ManifestFile>, places: seq<Path>,
                      q: Option<QuiesceInfo>)
    requires DescribesAt(tree, dir, fs, places) && TidyTree(tree, dir)
    requires forall p :: p in places <==> p in Tree(tree, dir) - {ManifestPath(dir)}
    requires exists i :: 0 <= i < |fs| && IsPages(fs[i])
    requires forall i | 0 <= i < |fs| :: MagicHolds(tree, dir, fs[i])
    ensures Sound(tree, dir, ManifestOf(fs, "", q))
  {
    var man := ManifestOf(fs, "", q);
    ExactManifest(tree, dir, fs, places, q);
    var i :| 0 <= i < |fs| && IsPages(fs[i]);
    var j := SameElements(fs, man.files, i);
    forall i | 0 <= i < |man.files| ensures MagicHolds(tree, dir, man.files[i]) {
      var j := SameElements(man.files, fs, i);
    }
  }

  lemma IsDirKept<X>(a: Disk<X>, b: Disk<X>, p: Path, q: Path)
    requires b.files == a.files - {q} && a.dirs - {q} <= b.dirs <= a.dirs && !(p <= q)
    ensures IsDir(b, p) <==> IsDir(a, p)
  {
    IsDirIff(a, p);
    IsDirIff(b, p);
    assert Below(b, p) == Below(a, p);
  }

  /** With fewer files and directories nothing new is in the way. */
  lemma OpenLess<X>(a: Disk<X>, b: Disk<X>, dir: Path)
    requires Open(a, dir) && b.files.Keys <= a.files.Keys && b.dirs <= a.dirs
    ensures Open(b, dir)
  {
    forall q | q in Metadata(dir) + Markers(dir) ensures !IsDir(b, q) { VacantLess(a, b, q); }
  }

  /** The files that can be listed before the walk. */
  function Diffs(dir: Path): set<Path> { {dir + [SHM_DIFF_NAME], dir + [ROOTFS_DIFF_NAME]} }

  /** No directory is in the way of the files a publish writes. */
  ghost predicate Open<X>(d: Disk<X>, dir: Path) {
    forall p | p in Metadata(dir) + Markers(dir) :: !IsDir(d, p)
  }

  /** The tree has its metadata under their names and each capture under its own: nothing of
      it, or as much as was written, and all of it if nothing could go wrong. */
  ghost predicate Assembled(before: map<Path, Bytes>, tree: map<Path, Bytes>, dir: Path, meta: Bytes, ociSpec: Bytes,
                            shm: Option<Bytes>, rootfs: Option<Bytes>, well: bool)
  {
    && Recorded(before, tree, dir + [CONFIG_NAME], meta)
    && Recorded(before, tree, dir + [SPEC_NAME], ociSpec)
    && Captured(before, tree, dir + [SHM_DIFF_NAME], shm, well)
    && Captured(before, tree, dir + [ROOTFS_DIFF_NAME], rootfs, well)
  }

  lemma AssembledOver(a: map<Path, Bytes>, before: map<Path, Bytes>, tree: map<Path, Bytes>, b: map<Path, Bytes>,
                      dir: Path, meta: Bytes, ociSpec: Bytes, shm: Option<Bytes>, rootfs: Option<Bytes>, well: bool)
    requires Assembled(before, tree, dir, meta, ociSpec, shm, rootfs, well)
    requires forall p | p in Metadata(dir) :: SameFile(a, before, p) && SameFile(tree, b, p)
    ensures Assembled(a, b, dir, meta, ociSpec, shm, rootfs, well)
  {
    assert dir + [CONFIG_NAME] in Metadata(dir) && dir + [SPEC_NAME] in Metadata(dir);
    assert dir + [SHM_DIFF_NAME] in Metadata(dir) && dir + [ROOTFS_DIFF_NAME] in Metadata(dir);
  }

  /** Writing one of these files puts nothing in the way of the others. */
  lemma OpenKept<X>(a: Disk<X>, b: Disk<X>, dir: Path, p: Path)
    requires Open(a, dir) && b.files.Keys <= a.files.Keys + {p} && b.dirs <= a.dirs && |p| == |dir| + 1
    ensures Open(b, dir)
  {
    forall q | q in Metadata(dir) + Markers(dir) ensures !IsDir(b, q) { VacantBeside(a, b, q, p); }
  }

  /** The un-committed tree gets its metadata and its contributions. */
  method FillTree<X>(m: Machine<X>, dir: Path, meta: Bytes, ociSpec: Bytes, shm: Option<Bytes>, rootfs: Option<Bytes>)
    returns (ok: bool, fs: seq<ManifestFile>, ghost at: seq<Path>)
    requires m.Valid()
    modifies m
    ensures m.Valid() && m.Only(Metadata(dir))
    ensures ok ==> Assembled(old(m.now.files), m.now.files, dir, meta, ociSpec, shm, rootfs,
                             !m.faulty && Open(old(m.now), dir))
    ensures !m.faulty && Open(old(m.now), dir) ==> ok
    ensures ok && Open(old(m.now), dir) ==> Open(m.now, dir)
    ensures ok ==> DescribesAt(m.now.files, dir, fs, at) && AllDigested(m.now.files, fs, at)
    ensures forall i | 0 <= i < |at| :: at[i] in Diffs(dir)
  {
    fs, at := [], [];
    var config, spec := dir + [CONFIG_NAME], dir + [SPEC_NAME];
    MetadataApart(dir);
    var e := PutMetadata(m, config, spec, meta, ociSpec, Metadata(dir));
    if !e.Nil? { return false, fs, at; }
    ghost var written, from, first := m.now, |m.history|, m.history;
    fs, at := ContributeBoth(m, dir, shm, rootfs, Diffs(dir));
    Assembles(old(m.now), written, m.now, dir, meta, ociSpec, shm, rootfs, at, !m.faulty);
    StepsWiden(written, m.history, from, Diffs(dir), Metadata(dir));
    StepsJoin(old(m.now), first, |old(m.history)|, m.history, Metadata(dir));
    ok := true;
  }

  /** Between the two states only config.dump and spec.dump have been written. */
  ghost predicate MetadataOnly<X>(a: Disk<X>, b: Disk<X>, dir: Path) {
    && b.dirs == a.dirs && b.files.Keys <= a.files.Keys + {dir + [CONFIG_NAME]} + {dir + [SPEC_NAME]}
    && forall p | p in Diffs(dir) :: SameFile(a.files, b.files, p)
  }

  lemma Assembles<X>(a: Disk<X>, b: Disk<X>, d: Disk<X>, dir: Path, meta: Bytes, ociSpec: Bytes,
                     shm: Option<Bytes>, rootfs: Option<Bytes>, at: seq<Path>, sure: bool)
    requires Recorded(a.files, b.files, dir + [CONFIG_NAME], meta)
    requires Recorded(a.files, b.files, dir + [SPEC_NAME], ociSpec)
    requires MetadataOnly(a, b, dir) && ContributedBoth(b, d, dir, shm, rootfs, sure, at)
    ensures Assembled(a.files, d.files, dir, meta, ociSpec, shm, rootfs, sure && Open(a, dir))
    ensures Open(a, dir) ==> Open(d, dir)
  {
    MetadataApart(dir);
    if Open(a, dir) {
      OpenTwice(a, b, dir, dir + [CONFIG_NAME], dir + [SPEC_NAME]);
      forall p | p in d.files ensures p in b.files || p in Diffs(dir) {
        assert p in Diffs(dir) || SameFile(b.files, d.files, p);
      }
      OpenTwice(b, d, dir, dir + [SHM_DIFF_NAME], dir + [ROOTFS_DIFF_NAME]);
    }
    assert dir + [SHM_DIFF_NAME] in Metadata(dir) && dir + [ROOTFS_DIFF_NAME] in Metadata(dir);
    assert dir + [SHM_DIFF_NAME] in Diffs(dir) && dir + [ROOTFS_DIFF_NAME] in Diffs(dir);
  }

  lemma OpenTwice<X>(a: Disk<X>, b: Disk<X>, dir: Path, p: Path, q: Path)
    requires Open(a, dir) && b.files.Keys <= a.files.Keys + {p} + {q} && b.dirs <= a.dirs
    requires |p| == |q| == |dir| + 1
    ensures Open(b, dir)
  {
    var between := Disk(map x | x in a.files.Keys + {p} :: [], a.dirs, a.rest);
    OpenKept(a, between, dir, p);
    OpenKept(between, b, dir, q);
  }

  /** The walk and the checks on what it found; nothing is changed. */
  method Survey<X>(m: Machine<X>, dir: Path, described: seq<ManifestFile>, ghost at: seq<Path>, digest: bool,
                   ghost q: Option<QuiesceInfo>)
    returns (ok: bool, fs: seq<ManifestFile>)
    requires DescribesAt(m.now.files, dir, described, at) && TidyTree(m.now.files, dir)
    requires (forall i | 0 <= i < |at| :: at[i] in Diffs(dir)) && AllDigested(m.now.files, described, at)
    ensures ok ==> fs != [] && Sound(m.now.files, dir, ManifestOf(fs, "", q))
    ensures ok ==> Digested(m.now.files, dir, ManifestOf(fs, "", q), digest)
    ensures ok ==> HasPages(m.now.files, dir) && HasMagics(m.now.files, dir)
    ensures !m.faulty ==> (ok <==> HasPages(m.now.files, dir) && HasMagics(m.now.files, dir))
  {
    ghost var places;
    MetadataApart(dir);
    fs, places, ok := Walk(m, dir, described, at, digest);
    if !ok { return false, fs; }
    ok := CheckFound(m, dir, fs, places);
    if ok { FoundSound(m.now.files, dir, described, at, fs, places, digest, q); }
  }

  /** At least one memory image, and the magic in front of every image that is to have it. */
  method CheckFound<X>(m: Machine<X>, dir: Path, fs: seq<ManifestFile>, ghost places: seq<Path>) returns (ok: bool)
    requires Walked(m.now.files, dir, fs, places)
    ensures ok ==> Passing(m.now.files, dir, fs) && HasPages(m.now.files, dir) && HasMagics(m.now.files, dir)
    ensures !m.faulty ==> (ok <==> HasPages(m.now.files, dir) && HasMagics(m.now.files, dir))
  {
    PagesListed(m.now.files, dir, fs, places);
    MagicsListed(m.now.files, dir, fs, places);
    if |fs| == 0 { return false; }
    var saw := SawPages(fs);
    if !saw { return false; }
    ok := VerifyImageMagic(m, dir, fs);
  }

  ghost predicate Passing(tree: map<Path, Bytes>, dir: Path, fs: seq<ManifestFile>) {
    (exists i :: 0 <= i < |fs| && IsPages(fs[i])) && (forall i | 0 <= i < |fs| :: MagicHolds(tree, dir, fs[i]))
  }

  lemma FoundSound(tree: map<Path, Bytes>, dir: Path, described: seq<ManifestFile>, at: seq<Path>,
                   fs: seq<ManifestFile>, places: seq<Path>, digest: bool, q: Option<QuiesceInfo>)
    requires Walked(tree, dir, fs, places) && Passing(tree, dir, fs)
    requires described <= fs && at <= places && AllDigested(tree, described, at)
    requires forall i | 0 <= i < |at| :: at[i] in Diffs(dir)
    requires WalkedDigests(tree, fs, places, |described|, digest)
    ensures fs != [] && Sound(tree, dir, ManifestOf(fs, "", q)) && Digested(tree, dir, ManifestOf(fs, "", q), digest)
  {
    SoundManifest(tree, dir, fs, places, q);
    FoundDigested(tree, dir, described, at, fs, places, digest, q);
  }

  lemma FoundDigested(tree: map<Path, Bytes>, dir: Path, described: seq<ManifestFile>, at: seq<Path>,
                      fs: seq<ManifestFile>, places: seq<Path>, digest: bool, q: Option<QuiesceInfo>)
    requires DescribesAt(tree, dir, fs, places) && TidyTree(tree, dir)
    requires described <= fs && at <= places && AllDigested(tree, described, at)
    requires forall i | 0 <= i < |at| :: at[i] in Diffs(dir)
    requires WalkedDigests(tree, fs, places, |described|, digest)
    ensures Digested(tree, dir, ManifestOf(fs, "", q), digest)
  {
    assert forall i | 0 <= i < |described| :: fs[i] == described[i] && places[i] == at[i];
    WalkDigested(tree, dir, fs, places, |described|, digest, q);
  }

  lemma MetadataApart(dir: Path)
    ensures dir + [CONFIG_NAME] != dir + [SPEC_NAME]
    ensures dir + [CONFIG_NAME] !in Diffs(dir) && dir + [SPEC_NAME] !in Diffs(dir) && ManifestPath(dir) !in Diffs(dir)
  {
    var n := |dir|;
    MetadataNotMarker(dir);
    assert (dir + [CONFIG_NAME])[n] == CONFIG_NAME && (dir + [SPEC_NAME])[n] == SPEC_NAME;
    assert (dir + [SHM_DIFF_NAME])[n] == SHM_DIFF_NAME && (dir + [ROOTFS_DIFF_NAME])[n] == ROOTFS_DIFF_NAME;
  }

  /** Un-commit, then make sure the dump has left its image directory. */
  method Uncommit<X>(m: Machine<X>, dir: Path, ghost touched: set<Path>) returns (ok: bool)
    requires m.Valid() && !m.lies && ManifestPath(dir) in touched
    modifies m
    ensures m.Valid() && m.Only(touched) && m.history == old(m.history) + [m.now]
    ensures m.now.files == old(m.now.files) || m.now.files == old(m.now.files) - {ManifestPath(dir)}
    ensures ok ==> m.now.files == old(m.now.files) - {ManifestPath(dir)} && IsDir(old(m.now), dir + [CHECKPOINT_NAME])
    ensures !m.faulty ==> ManifestPath(dir) !in m.now.files
    ensures m.now.dirs <= old(m.now.dirs)
    ensures !m.faulty && !IsDir(old(m.now), ManifestPath(dir)) ==> (ok <==> IsDir(old(m.now), dir + [CHECKPOINT_NAME]))
  {
    IsDirIff(m.now, ManifestPath(dir));
    var e := m.Remove(ManifestPath(dir), touched);
    if e.Fault? { return false; }
    assert ManifestPath(dir)[|dir|] != (dir + [CHECKPOINT_NAME])[|dir|];
    assert m.now.files == old(m.now.files) - {ManifestPath(dir)};
    IsDirKept(old(m.now), m.now, dir + [CHECKPOINT_NAME], ManifestPath(dir));
    var fails: bool := *;
    if (m.faulty && fails) || !IsDir(m.now, dir + [CHECKPOINT_NAME]) { return false; }
    ok := true;
  }

  /** PublishDir up to the marker: un-commit, metadata, contributions, walk, checks. */
  method PrepareTree<X>(m: Machine<X>, dir: Path, meta: Bytes, ociSpec: Bytes, shm: Option<Bytes>,
                        rootfs: Option<Bytes>,
                        digest: bool, ghost q: Option<QuiesceInfo>)
    returns (ok: bool, fs: seq<ManifestFile>)
    requires m.Valid() && !m.lies && TidyTree(m.now.files, dir)
    modifies m
    ensures m.Valid() && m.Only(Metadata(dir) + Markers(dir))
    ensures Uncommitted(old(m.now.files), m.history, |old(m.history)|, ManifestPath(dir))
    ensures SameFile(old(m.now.files), m.now.files, PartPath(dir))
    ensures ok ==> IsDir(old(m.now), dir + [CHECKPOINT_NAME])
    ensures ok || !m.faulty ==> ManifestPath(dir) !in m.now.files
    ensures ok ==> Assembled(old(m.now.files), m.now.files, dir, meta, ociSpec, shm, rootfs,
                             !m.faulty && Open(old(m.now), dir))
    ensures ok ==> fs != [] && Sound(m.now.files, dir, ManifestOf(fs, "", q))
    ensures ok ==> Digested(m.now.files, dir, ManifestOf(fs, "", q), digest)
    ensures ok ==> Publishable(old(m.now), dir) && (Open(old(m.now), dir) ==> Open(m.now, dir))
    ensures !m.faulty && Open(old(m.now), dir) && Publishable(old(m.now), dir) ==> ok
  {
    MetadataNotMarker(dir);
    MetadataApart(dir);
    var outer := Metadata(dir) + Markers(dir);
    fs := [];
    ok := Uncommit(m, dir, outer);
    if !ok { return; }
    ghost var base, from := m.now, |m.history|;
    ghost var at;
    ok, fs, at := FillTree(m, dir, meta, ociSpec, shm, rootfs);
    StepsWiden(base, m.history, from, Metadata(dir), outer);
    StepsAbsent(base, m.history, from, Metadata(dir), old(m.now.files), ManifestPath(dir));
    AlikeAt(base.files, m.now.files, Metadata(dir), PartPath(dir));
    AlikeAt(base.files, m.now.files, Metadata(dir), ManifestPath(dir));
    UncommittedOver(old(m.now), base, m.now, dir, meta, ociSpec, shm, rootfs, !m.faulty);
    if ok {
      ImagesKept(old(m.now.files), m.now.files, dir, outer);
      TidyKept(old(m.now.files), m.now.files, dir, outer);
      ok, fs := Survey(m, dir, fs, at, digest, q);
    }
  }

  /** Un-committing first changes nothing in what is assembled over it. */
  lemma UncommittedOver<X>(a: Disk<X>, b: Disk<X>, d: Disk<X>, dir: Path, meta: Bytes, ociSpec: Bytes,
                           shm: Option<Bytes>, rootfs: Option<Bytes>, sure: bool)
    requires b.files == a.files - {ManifestPath(dir)} && b.dirs <= a.dirs
    ensures Open(a, dir) ==> Open(b, dir)
    ensures Assembled(b.files, d.files, dir, meta, ociSpec, shm, rootfs, sure && Open(b, dir)) ==>
              Assembled(a.files, d.files, dir, meta, ociSpec, shm, rootfs, sure && Open(a, dir))
  {
    if Open(a, dir) { OpenLess(a, b, dir); }
    MetadataNotMarker(dir);
    if Assembled(b.files, d.files, dir, meta, ociSpec, shm, rootfs, sure && Open(b, dir)) {
      AssembledOver(a.files, b.files, d.files, d.files, dir, meta, ociSpec, shm, rootfs, sure && Open(b, dir));
    }
  }

  /** What a publish needs of the dump: its image directory, a memory image in it, and the
      magic in front of every image that is to have it. */
  ghost predicate Publishable<X>(d: Disk<X>, dir: Path) {
    IsDir(d, dir + [CHECKPOINT_NAME]) && HasPages(d.files, dir) && HasMagics(d.files, dir)
  }

  /** The files a publish writes are no images. */
  lemma ImagesKept(a: map<Path, Bytes>, b: map<Path, Bytes>, dir: Path, touched: set<Path>)
    requires Alike(a, b, touched) && touched <= Metadata(dir) + Markers(dir)
    ensures HasPages(a, dir) <==> HasPages(b, dir)
    ensures HasMagics(a, dir) <==> HasMagics(b, dir)
  {
    forall p | p in touched ensures !PagesName(LastName(p)) && !MetadataImage(LastName(p)) { NoImage(dir, p); }
    forall p | p !in touched ensures SameFile(a, b, p) { AlikeAt(a, b, touched, p); }
    if p :| p in a && dir < p && PagesName(LastName(p)) { assert SameFile(a, b, p); }
    if p :| p in b && dir < p && PagesName(LastName(p)) { assert SameFile(a, b, p); }
    if HasMagics(a, dir) {
      forall p | p in b && dir < p && MetadataImage(LastName(p)) && |b[p]| >= |MAGIC| ensures MAGIC <= b[p] {
        assert SameFile(a, b, p);
      }
    }
    if HasMagics(b, dir) {
      forall p | p in a && dir < p && MetadataImage(LastName(p)) && |a[p]| >= |MAGIC| ensures MAGIC <= a[p] {
        assert SameFile(a, b, p);
      }
    }
  }

  lemma NoImage(dir: Path, p: Path)
    requires p in Metadata(dir) + Markers(dir)
    ensures p != [] && !PagesName(LastName(p)) && !MetadataImage(LastName(p))
  {
    var name := LastName(p);
    assert name in {CONFIG_NAME, SPEC_NAME, SHM_DIFF_NAME, ROOTFS_DIFF_NAME, MANIFEST_NAME, PART_NAME};
    assert |name| >= 6 && name[..6][0] == name[0] != 'p';
    assert name[|name| - 4..][3] == name[|name| - 1] != 'g';
  }

  /** How a publish in place goes: up to state mid nothing is committed that was not before;
      from there on the tree is final and the marker of its manifest only grows. */
  ghost predicate PublishRun<X>(c: Codec, was: map<Path, Bytes>, history: seq<Disk<X>>, from: nat, dir: Path,
                                mid: nat, tree: map<Path, Bytes>, planned: Manifest)
  {
    && from <= mid <= |history|
    && (forall k | from <= k < mid :: history[k].files == was || ManifestPath(dir) !in history[k].files)
    && (forall k | mid <= k < |history| ::
          Alike(tree, history[k].files, Markers(dir)) && MarkerOf(c, history[k].files, dir, planned))
    && Growing(history, mid, ManifestPath(dir))
    && (mid < |history| ==>
          Sound(tree, dir, planned) && ManifestPath(dir) !in tree && Alike(was, tree, Metadata(dir) + Markers(dir)))
  }

  /** There is no marker, or it is a torn or whole encoding of man. */
  predicate MarkerOf(c: Codec, files: map<Path, Bytes>, dir: Path, man: Manifest) {
    ManifestPath(dir) in files ==> TornFrom(files[ManifestPath(dir)], c.encode(man))
  }

  /** What the last phase does: outside the markers the tree stays, the marker grows. */
  ghost predicate Marking<X>(c: Codec, base: Disk<X>, history: seq<Disk<X>>, from: nat, dir: Path, man: Manifest) {
    && Steps(base, history, from, Markers(dir))
    && OldOrPart(base.files, history, from, ManifestPath(dir), c.encode(man))
    && Growing(history, from, ManifestPath(dir))
  }

  lemma MarkerSteps<X>(c: Codec, base: Disk<X>, history: seq<Disk<X>>, from: nat, dir: Path, man: Manifest)
    requires ManifestPath(dir) !in base.files && Marking(c, base, history, from, dir, man)
    ensures forall k | from <= k < |history| ::
              Alike(base.files, history[k].files, Markers(dir)) && MarkerOf(c, history[k].files, dir, man)
  {
    forall k | from <= k < |history|
      ensures Alike(base.files, history[k].files, Markers(dir)) && MarkerOf(c, history[k].files, dir, man)
    {
      assert Frame(base, history[k], Markers(dir));
      assert OldOrPrefix(base.files, history[k].files, ManifestPath(dir), c.encode(man));
    }
  }

  /** The two phases of a publish, one after the other. */
  lemma PublishPhases<X>(c: Codec, start: Disk<X>, first: seq<Disk<X>>, from: nat, history: seq<Disk<X>>, dir: Path,
                         man: Manifest)
    requires Lawful(c) && from <= |first| && first != [] && first <= history
    requires Steps(start, first, from, Metadata(dir) + Markers(dir)) && (from < |first| || first[|first| - 1] == start)
    requires Uncommitted(start.files, first, from, ManifestPath(dir))
    requires var base := first[|first| - 1];
             && Marking(c, base, history, |first|, dir, man) && ManifestPath(dir) !in base.files
             && Sound(base.files, dir, man) && SameFile(start.files, base.files, PartPath(dir))
    ensures Steps(start, history, from, Metadata(dir) + Markers(dir))
    ensures PublishRun(c, start.files, history, from, dir, |first|, first[|first| - 1].files, man)
    ensures Alike(start.files, first[|first| - 1].files, Metadata(dir) + Markers(dir))
    ensures PartPath(dir) !in start.files && CrashSafe(c, start.files, dir) ==> SafeFrom(c, history, from, dir)
  {
    var base := first[|first| - 1];
    assert Frame(start, base, Metadata(dir) + Markers(dir));
    StepsWiden(base, history, |first|, Markers(dir), Metadata(dir) + Markers(dir));
    StepsJoin(start, first, from, history, Metadata(dir) + Markers(dir));
    MarkerSteps(c, base, history, |first|, dir, man);
    if PartPath(dir) !in start.files && CrashSafe(c, start.files, dir) {
      UncommittedSafe(c, start.files, first, from, dir);
      ExactAgreesIff(base.files, dir, man, c.encode(man));
      PublishSafe(c, base, history, |first|, dir, man);
      assert forall k | from <= k < |first| :: history[k] == first[k];
    }
  }

  /** PublishDir. From a tree without a temporary marker every state on the way is safe to
      read. A success has published, over a sound tree that differs from the old one only
      in the metadata files, the manifest of that tree. On a store without faults a failure
      has committed nothing, whatever was committed before: there is no marker. */
  method PublishDir<X>(m: Machine<X>, c: Codec, dir: Path, meta: Option<Bytes>, ociSpec: Bytes, q: Option<QuiesceInfo>,
                       shm: Option<Bytes>, rootfs: Option<Bytes>, digest: bool)
    returns (r: Option<Manifest>, ghost tree: map<Path, Bytes>, ghost mid: nat, ghost planned: Manifest)
    requires m.Valid() && !m.lies && Lawful(c) && TidyTree(m.now.files, dir)
    modifies m
    ensures m.Valid() && m.Only(Metadata(dir) + Markers(dir))
    ensures PartPath(dir) !in old(m.now.files) && CrashSafe(c, old(m.now.files), dir) ==>
              SafeFrom(c, m.history, |old(m.history)|, dir)
    ensures PublishRun(c, old(m.now.files), m.history, |old(m.history)|, dir, mid, tree, planned)
    ensures r.Some? ==> r.value == planned
    ensures r.Some? ==> meta.Some? && ociSpec != [] && IsDir(old(m.now), dir + [CHECKPOINT_NAME])
    ensures r.Some? ==> Alike(old(m.now.files), tree, Metadata(dir) + Markers(dir))
    ensures r.Some? ==> SameFile(old(m.now.files), tree, PartPath(dir)) && ManifestPath(dir) !in tree
    ensures r.Some? ==> Assembled(old(m.now.files), tree, dir, meta.value, ociSpec, shm, rootfs,
                                  !m.faulty && Open(old(m.now), dir))
    ensures r.Some? ==> Publishable(old(m.now), dir)
    ensures !m.faulty && Open(old(m.now), dir) && Publishable(old(m.now), dir) && meta.Some? && ociSpec != [] ==>
              r.Some?
    ensures r.Some? ==> Sound(tree, dir, r.value) && r.value.quiesce == q && r.value.sourceTar == ""
    ensures r.Some? ==> Digested(tree, dir, r.value, digest)
    ensures r.Some? ==> Decode(c, c.encode(r.value)) == r && m.now.files == Publish(tree, dir, c.encode(r.value))
    ensures meta.None? || ociSpec == [] ==> r.None? && m.now == old(m.now)
    ensures r.None? && !m.faulty && meta.Some? && ociSpec != [] ==> ManifestPath(dir) !in m.now.files
  {
    var outer := Metadata(dir) + Markers(dir);
    tree, mid, planned := m.now.files, |m.history|, ManifestOf([], "", q);
    if meta.None? || ociSpec == [] { return None, tree, mid, planned; }
    var ok, fs := PrepareTree(m, dir, meta.value, ociSpec, shm, rootfs, digest, q);
    ghost var base, first := m.now, m.history;
    tree, mid := m.now.files, |m.history|;
    assert first[|first| - 1] == base && Steps(old(m.now), first, |old(m.history)|, Metadata(dir) + Markers(dir));
    assert |first| == |old(m.history)| ==> first == old(m.history) && base == old(m.now);
    assert Uncommitted(old(m.now).files, first, |old(m.history)|, ManifestPath(dir));
    if !ok {
      if PartPath(dir) !in old(m.now.files) && CrashSafe(c, old(m.now.files), dir) {
        UncommittedSafe(c, old(m.now.files), first, |old(m.history)|, dir);
      }
      return None, tree, mid, planned;
    }
    r, planned := PutMarker(m, c, dir, fs, q);
    PublishPhases(c, old(m.now), first, |old(m.history)|, m.history, dir, planned);
  }

  /** The last phase of PublishDir: the manifest over what was found, and its marker. */
  method PutMarker<X>(m: Machine<X>, c: Codec, dir: Path, fs: seq<ManifestFile>, q: Option<QuiesceInfo>)
    returns (r: Option<Manifest>, man: Manifest)
    requires m.Valid() && !m.lies && Lawful(c) && fs != []
    requires Sound(m.now.files, dir, ManifestOf(fs, "", q)) && ManifestPath(dir) !in m.now.files
    modifies m
    ensures m.Valid() && old(m.history) <= m.history
    ensures man == ManifestOf(fs, "", q) && Marking(c, old(m.now), m.history, |old(m.history)|, dir, man)
    ensures r.Some? ==> r.value == man && Decode(c, c.encode(man)) == r
    ensures r.Some? ==> m.now.files == Publish(old(m.now.files), dir, c.encode(man))
    ensures r.None? && !m.faulty ==> ManifestPath(dir) !in m.now.files
    ensures !m.faulty && Open(old(m.now), dir) ==> r.Some?
  {
    man := NewManifest(fs, "", q);
    ExactDecodes(c, m.now.files, dir, fs, q);
    var e := WriteManifestDir(m, c, dir, man);
    r := if e.Nil? then Some(man) else None;
  }

  /** What a successful PublishDir has committed, if no temporary marker lay in the tree:
      the marker decodes to the returned manifest, which lists exactly the files there are. */
  lemma PublishDirCommits(c: Codec, tree: map<Path, Bytes>, after: map<Path, Bytes>, dir: Path, man: Manifest)
    requires Sound(tree, dir, man) && PartPath(dir) !in tree
    requires Decode(c, c.encode(man)) == Some(man) && after == Publish(tree, dir, c.encode(man))
    ensures Committed(c, after, dir) == Some(man) && Agrees(after, dir, man)
    ensures Sound(after, dir, man)
  {
    ExactAgreesIff(tree, dir, man, c.encode(man));
    PublishAlike(tree, dir, c.encode(man));
    MarkerNames(dir);
    assert after == tree[ManifestPath(dir) := c.encode(man)];
    forall i | 0 <= i < |man.files|
      ensures Lists(after, dir, man.files[i]) && MagicHolds(after, dir, man.files[i])
    {
      assert Lists(tree, dir, man.files[i]) && MagicHolds(tree, dir, man.files[i]);
    }
    forall p | p in Tree(after, dir) - {ManifestPath(dir)} ensures Covers(dir, man, p) {
      assert p in Tree(tree, dir) - {ManifestPath(dir)};
    }
  }

  /** PublishDir for a caller who only needs to know what was committed. */
  method CommitDir<X>(m: Machine<X>, c: Codec, dir: Path, meta: Bytes, ociSpec: Bytes, q: Option<QuiesceInfo>,
                      shm: Option<Bytes>, rootfs: Option<Bytes>, digest: bool)
    returns (r: Option<Manifest>, ghost tree: map<Path, Bytes>, ghost mid: nat, ghost planned: Manifest)
    requires m.Valid() && !m.lies && Lawful(c) && TidyTree(m.now.files, dir)
    requires PartPath(dir) !in m.now.files && CrashSafe(c, m.now.files, dir)
    modifies m
    ensures m.Valid() && m.Only(Metadata(dir) + Markers(dir))
    ensures SafeFrom(c, m.history, |old(m.history)|, dir)
    ensures PublishRun(c, old(m.now.files), m.history, |old(m.history)|, dir, mid, tree, planned)
    ensures r.Some? ==> Committed(c, m.now.files, dir) == r && r.value.quiesce == q
    ensures r.Some? ==> Exact(m.now.files, dir, r.value) && Digested(m.now.files, dir, r.value, digest)
    ensures r.Some? ==> Assembled(old(m.now.files), m.now.files, dir, meta, ociSpec, shm, rootfs,
                                  !m.faulty && Open(old(m.now), dir))
    ensures !m.faulty && Open(old(m.now), dir) && Publishable(old(m.now), dir) && ociSpec != [] ==> r.Some?
    ensures ManifestPath(dir) !in old(m.now.files) && !m.faulty ==> (r.Some? <==> Committed(c, m.now.files, dir).Some?)
  {
    r, tree, mid, planned := PublishDir(m, c, dir, Some(meta), ociSpec, q, shm, rootfs, digest);
    if r.Some? {
      PublishDirCommits(c, tree, m.now.files, dir, r.value);
      MetadataPublished(tree, dir, c.encode(r.value));
      DigestedPublished(tree, dir, r.value, c.encode(r.value), digest);
      AssembledOver(old(m.now.files), old(m.now.files), tree, m.now.files, dir, meta, ociSpec, shm, rootfs,
                    !m.faulty && Open(old(m.now), dir));
    }
  }

  /** What is known of the digests goes by the files below dir, apart from the marker. */
  lemma DigestedOver(a: map<Path, Bytes>, b: map<Path, Bytes>, dir: Path, man: Manifest, digest: bool)
    requires Digested(a, dir, man, digest) && Exact(a, dir, man)
    requires forall p | dir < p && p != ManifestPath(dir) && p in a :: SameFile(a, b, p)
    ensures Digested(b, dir, man, digest)
  {
    forall i | 0 <= i < |man.files| ensures DigestAsAsked(b, At(dir, man.files[i].path), dir, man.files[i], digest) {
      assert Lists(a, dir, man.files[i]);
      assert DigestAsAsked(a, At(dir, man.files[i].path), dir, man.files[i], digest);
    }
  }

  lemma DigestedPublished(tree: map<Path, Bytes>, dir: Path, man: Manifest, marker: Bytes, digest: bool)
    requires Digested(tree, dir, man, digest) && Exact(tree, dir, man) && PartPath(dir) !in tree
    ensures Digested(Publish(tree, dir, marker), dir, man, digest)
  {
    DigestedOver(tree, Publish(tree, dir, marker), dir, man, digest);
  }

  /** The marker leaves the metadata and the diffs as they are. */
  lemma MetadataPublished(tree: map<Path, Bytes>, dir: Path, marker: Bytes)
    ensures forall p | p in Metadata(dir) :: SameFile(tree, Publish(tree, dir, marker), p)
  {
    PublishAlike(tree, dir, marker);
    MetadataNotMarker(dir);
    forall p | p in Metadata(dir) ensures SameFile(tree, Publish(tree, dir, marker), p) {
      AlikeAt(tree, Publish(tree, dir, marker), Markers(dir), p);
    }
  }
}
