/** Where a restore reads its images from: a copy staged by the pre-warm, the node's NVMe
    tier, or the mount (internal/agent/restore_controller.go, internal/artifact/nvmecache.go,
    and fetchOne of internal/artifact/prefetch.go). */
module ImageSource {
  import opened Paths
  import opened Storage
  import opened Manifests
  import opened Clear
  import opened Commit
  import opened Expand
  import R = RestoreLifecycle

  // ----- the NVMe tier -----

  /** One artifact prefix on the cache tier, as the host and as this process name it. */
  datatype CacheDir = NoCache | CacheDir(host: Path, local: Path) | Disagrees(entry: nat)

  predicate Matches(files: map<Path, Bytes>, dir: Path, f: ManifestFile) { FileOfSize(files, At(dir, f.path), f.size) }

  /** What os.Stat gives as the size: that of a file, or, for a directory, whatever the
      filesystem says of it. */
  function StatSize<X>(d: Disk<X>, dirSize: Path -> nat, p: Path): Option<nat> {
    if p in d.files then Some(|d.files[p]|) else if IsDir(d, p) then Some(dirSize(p)) else None
  }

  predicate Shows<X>(d: Disk<X>, dirSize: Path -> nat, dir: Path, f: ManifestFile) {
    StatSize(d, dirSize, At(dir, f.path)) == Some(f.size)
  }

  /** The tier has the artifact, complete as far as sizes go, at local. */
  ghost predicate Resident<X>(d: Disk<X>, dirSize: Path -> nat, local: Path, man: Option<Manifest>) {
    && man.Some? && IsDir(d, local)
    && forall i | 0 <= i < |man.value.files| :: Shows(d, dirSize, local, man.value.files[i])
  }

  /** A listed name is that of a directory. */
  ghost predicate ListsDirectory<X>(d: Disk<X>, dir: Path, man: Manifest) {
    exists i :: 0 <= i < |man.files| && IsDir(d, At(dir, man.files[i].path))
  }

  /** What the size test is worth: on a tree, a resident artifact is complete if and only if
      no listed name is that of a directory there. */
  lemma ResidentAgreesIff<X>(d: Disk<X>, dirSize: Path -> nat, local: Path, man: Manifest)
    requires TreeShaped(d) && Resident(d, dirSize, local, Some(man))
    ensures Agrees(d.files, local, man) <==> !ListsDirectory(d, local, man)
  {
    forall i | 0 <= i < |man.files|
      ensures At(local, man.files[i].path) in d.files <==> !IsDir(d, At(local, man.files[i].path))
    {
      var p := At(local, man.files[i].path);
      assert Shows(d, dirSize, local, man.files[i]);
      IsDirIff(d, p);
      if q :| q in Below(d, p) { assert p < q; }
    }
    if !ListsDirectory(d, local, man) {
      forall i | 0 <= i < |man.files| ensures FileOfSize(d.files, At(local, man.files[i].path), man.files[i].size) {
        assert Shows(d, dirSize, local, man.files[i]);
      }
    }
  }

  datatype Probed = Complete | Incomplete | Offender(entry: nat)

  /** The loop of Resolve over one directory: complete exactly when every listed name is there
      with its size, and an offender exactly when the first to offend, in manifest order, has
      another size. */
  method Probe<X>(m: Machine<X>, local: Path, fs: seq<ManifestFile>, dirSize: Path -> nat) returns (r: Probed)
    ensures r.Complete? ==> forall i | 0 <= i < |fs| :: Shows(m.now, dirSize, local, fs[i])
    ensures !m.faulty && (forall i | 0 <= i < |fs| :: Shows(m.now, dirSize, local, fs[i])) ==> r.Complete?
    ensures r.Offender? ==> r.entry < |fs| && Offends(m.now, dirSize, local, fs, r.entry)
    ensures !m.faulty ==> forall i | 0 <= i < |fs| && Offends(m.now, dirSize, local, fs, i) :: r == Offender(i)
  {
    for i := 0 to |fs|
      invariant forall j | 0 <= j < i :: Shows(m.now, dirSize, local, fs[j])
    {
      var fails: bool := *;
      var size := StatSize(m.now, dirSize, At(local, fs[i].path));
      if (m.faulty && fails) || size.None? { return Incomplete; }
      if size.value != fs[i].size { return Offender(i); }
    }
    r := Complete;
  }

  /** Resolve: the tier's directory, under both its names, when the tier is configured and
      the probe of it is complete; an offender is an error. */
  method Resolve<X>(m: Machine<X>, root: Option<Path>, hostRoot: Path, fusePath: Path, man: Option<Manifest>,
                    dirSize: Path -> nat)
    returns (r: CacheDir)
    ensures r.CacheDir? ==> root.Some? && r.host == root.value + fusePath && r.local == hostRoot + r.host
    ensures r.CacheDir? ==> Resident(m.now, dirSize, r.local, man)
    ensures !m.faulty && root.Some? && Resident(m.now, dirSize, hostRoot + (root.value + fusePath), man) ==> r.CacheDir?
    ensures r.Disagrees? ==>
              && root.Some? && man.Some? && r.entry < |man.value.files|
              && Offends(m.now, dirSize, hostRoot + (root.value + fusePath), man.value.files, r.entry)
    ensures !m.faulty && root.Some? && man.Some? && IsDir(m.now, hostRoot + (root.value + fusePath)) ==>
              forall i | 0 <= i < |man.value.files|
                         && Offends(m.now, dirSize, hostRoot + (root.value + fusePath), man.value.files, i) ::
                r == Disagrees(i)
  {
    if root.None? || man.None? { return NoCache; }
    var host := root.value + fusePath;
    var local := hostRoot + host;
    var fails: bool := *;
    if (m.faulty && fails) || !IsDir(m.now, local) { return NoCache; }
    var p := Probe(m, local, man.value.files, dirSize);
    match p {
      case Complete => r := CacheDir(host, local);
      case Incomplete => r := NoCache;
      case Offender(i) => r := Disagrees(i);
    }
  }

  /** Entry i is the first that is missing or of another size, and it is there. */
  ghost predicate Offends<X>(d: Disk<X>, dirSize: Path -> nat, dir: Path, fs: seq<ManifestFile>, i: nat)
    requires i < |fs|
  {
    && (forall j | 0 <= j < i :: Shows(d, dirSize, dir, fs[j]))
    && StatSize(d, dirSize, At(dir, fs[i].path)).Some? && !Shows(d, dirSize, dir, fs[i])
  }

  // ----- staging -----

  /** The digest listed for a file, if there is one, is that of its bytes. */
  ghost predicate DigestHolds(files: map<Path, Bytes>, p: Path, f: ManifestFile) {
    f.sha256 == NoDigest || (p in files && f.sha256 == DigestOf(files[p]))
  }

  /** fetchOne: read a source file through, into its staged place when there is one, and
      insist on the listed size and, when asked, the listed digest. */
  method FetchOne<X>(m: Machine<X>, source: Path, staged: Option<Path>, f: ManifestFile, verify: bool,
                     ghost touched: set<Path>)
    returns (n: nat, e: Err)
    requires m.Valid()
             && (staged.Some? ==> !m.lies && staged.value in touched && staged.value != [] && staged.value != source)
    modifies m
    ensures m.Valid() && m.Only(touched)
    ensures staged.None? ==> m.now == old(m.now) && m.history == old(m.history)
    ensures e.Nil? ==> source in old(m.now.files) && n == |old(m.now.files)[source]| == f.size
    ensures e.Nil? && verify && f.sha256 != NoDigest ==> f.sha256 == DigestOf(old(m.now.files)[source])
    ensures e.Nil? ==>
              m.now.files ==
              if staged.Some? then old(m.now.files)[staged.value := old(m.now.files)[source]] else old(m.now.files)
    ensures !m.faulty && FileOfSize(old(m.now.files), source, f.size)
            && (staged.Some? ==> Writable(old(m.now), staged.value))
            && (verify ==> DigestHolds(old(m.now.files), source, f)) ==>
              e.Nil?
    ensures e.Nil? && staged.Some? ==> OneMore(old(m.now), m.now, staged.value)
  {
    n := 0;
    var fails: bool := *;
    if source !in m.now.files || (m.faulty && fails) { return 0, Fault; }
    var data := m.now.files[source];
    if staged.Some? {
      e := m.MkdirAll(staged.value[..|staged.value| - 1], touched);
      if !e.Nil? { return; }
      VacantAbove(old(m.now), m.now, staged.value);
      e := OpenFresh(m, staged.value, touched);
      if !e.Nil? { return; }
      n, e := StreamInto(m, staged.value, data, touched);
      if !e.Nil? { return; }
      assert data[..|data|] == data && Overwrite([], 0, data) == data;
    } else {
      fails := *;
      if m.faulty && fails { return 0, Fault; }
      n := |data|;
    }
    if n != f.size { return n, Fault; }
    if verify && f.sha256 != NoDigest && f.sha256 != DigestOf(data) { return n, Fault; }
    e := Nil;
  }

  /** One listed file on its way from the artifact to the stage. */
  datatype Transfer = Transfer(source: Path, staged: Path, f: ManifestFile)

  function Transfers(source: Path, stage: Path, fs: seq<ManifestFile>): seq<Transfer> {
    seq(|fs|, i requires 0 <= i < |fs| => Transfer(At(source, fs[i].path), At(stage, fs[i].path), fs[i]))
  }

  function Targets(ts: seq<Transfer>): set<Path> { set i | 0 <= i < |ts| :: ts[i].staged }

  function Content(files: map<Path, Bytes>, p: Path): Bytes { if p in files then files[p] else [] }

  /** The files after the transfers, one by one. */
  function Carry(files: map<Path, Bytes>, ts: seq<Transfer>): map<Path, Bytes> {
    if ts == [] then files else
    var t := ts[|ts| - 1];
    Carry(files, ts[..|ts| - 1])[t.staged := Content(files, t.source)]
  }

  /** No transfer writes over a source, and none goes to the root. */
  ghost predicate OneWay(ts: seq<Transfer>) {
    && (forall i | 0 <= i < |ts| :: ts[i].source !in Targets(ts) && ts[i].staged != [])
    && (forall i, j | 0 <= i < |ts| && 0 <= j < |ts| && ts[i].staged == ts[j].staged :: ts[i].source == ts[j].source)
  }

  /** A successful fetch of every listed file. */
  ghost predicate Fetched(files: map<Path, Bytes>, ts: seq<Transfer>) {
    forall i | 0 <= i < |ts| :: FileOfSize(files, ts[i].source, ts[i].f.size)
  }

  /** Every listed digest is that of the source. */
  ghost predicate Digested(files: map<Path, Bytes>, ts: seq<Transfer>) {
    forall i | 0 <= i < |ts| :: DigestHolds(files, ts[i].source, ts[i].f)
  }

  lemma {:induction false} CarryAt(files: map<Path, Bytes>, ts: seq<Transfer>, i: nat)
    requires OneWay(ts) && i < |ts|
    ensures ts[i].staged in Carry(files, ts) && Carry(files, ts)[ts[i].staged] == Content(files, ts[i].source)
  {
    var n := |ts| - 1;
    if ts[n].staged != ts[i].staged {
      assert forall j | 0 <= j < n :: ts[j].staged in Targets(ts) && ts[..n][j] == ts[j];
      CarryAt(files, ts[..n], i);
    }
  }

  /** Every listed file, one after the other, through the pool or not: staged ones end up
      under the stage with the bytes of the source. */
  method FetchAll<X>(m: Machine<X>, ts: seq<Transfer>, staging: bool, verify: bool, ghost touched: set<Path>,
                     ghost folders: set<Path>)
    returns (e: Err)
    requires m.Valid() && !m.lies && OneWay(ts) && Targets(ts) <= touched
    requires forall i | 0 <= i < |ts| :: ts[i].source !in touched
    modifies m
    ensures m.Valid() && m.Only(touched)
    ensures e.Nil? ==> Fetched(old(m.now.files), ts)
    ensures e.Nil? ==> m.now.files == if staging then Carry(old(m.now.files), ts) else old(m.now.files)
    ensures Room(old(m.now), touched, folders) ==>
              && (e.Nil? ==> Room(m.now, touched, folders))
              && (!m.faulty && Fetched(old(m.now.files), ts) && (verify ==> Digested(old(m.now.files), ts)) ==> e.Nil?)
  {
    e := Nil;
    for i := 0 to |ts|
      invariant m.Valid() && m.Only(touched) && e.Nil?
      invariant Alike(old(m.now.files), m.now.files, touched)
      invariant Fetched(old(m.now.files), ts[..i])
      invariant m.now.files == if staging then Carry(old(m.now.files), ts[..i]) else old(m.now.files)
      invariant Room(old(m.now), touched, folders) ==> Room(m.now, touched, folders)
    {
      assert ts[..i + 1][..i] == ts[..i] && ts[i].staged in Targets(ts);
      AlikeAt(old(m.now.files), m.now.files, touched, ts[i].source);
      ghost var before := m.now;
      var n;
      n, e := FetchOne(m, ts[i].source, if staging then Some(ts[i].staged) else None, ts[i].f, verify, touched);
      if !e.Nil? { return; }
      if Room(before, touched, folders) && staging { RoomWritten(before, m.now, touched, folders, ts[i].staged); }
      assert m.now.files - touched == before.files - touched;
    }
    assert ts[..|ts|] == ts;
  }

  // ----- the pre-warm and the choice of directory -----

  const STAGE_NAME := "image"
  const BUNDLE_NAME := "bundle"
  const CRIU_WORK_NAME := "criu-work"

  /** What the artifact URI and the agent's configuration fix: where the artifact is
      mounted, the restore's scratch directory, and the cache tier. */
  datatype Node = Node(mount: Path, work: Path, staging: bool, nodeLocal: bool, verify: bool,
                       root: Option<Path>, hostRoot: Path, fusePath: Path, dirSize: Path -> nat, spec: R.Spec) {
    /** imageStageDir: where the artifact would be staged. */
    function Stage(): Path { work + [STAGE_NAME] }

    /** Where the artifact would be on the cache tier. */
    function Tier(): Option<Path> { if root.None? then None else Some(hostRoot + (root.value + fusePath)) }
  }

  ghost predicate Apart(node: Node) {
    !(node.mount <= node.work) && !(node.work <= node.mount)
  }

  /** The artifact: committed by man, complete, its names not those of the markers. */
  predicate SourceOk(c: Codec, files: map<Path, Bytes>, node: Node, man: Manifest) {
    Committed(c, files, node.mount) == Some(man) && Agrees(files, node.mount, man) && ListsNoMarker(man)
  }

  /** It may not be committed yet, or not any more. */
  predicate SourceSafe(c: Codec, files: map<Path, Bytes>, node: Node, man: Manifest) {
    Committed(c, files, node.mount).Some? ==> SourceOk(c, files, node, man)
  }

  /** There is no staged copy, or it is this artifact's, complete. */
  ghost predicate StageOk(c: Codec, files: map<Path, Bytes>, node: Node, man: Manifest) {
    Committed(c, files, node.Stage()).Some? ==>
      Committed(c, files, node.Stage()) == Some(man) && Agrees(files, node.Stage(), man)
  }

  /** What every state keeps: the artifact if it is committed, and, except while pre-warming or after deletion,
      that a staged copy that looks complete is complete. */
  ghost predicate Inv(c: Codec, node: Node, man: Manifest, d: Disk<R.Restore>) {
    && SourceSafe(c, d.files, node, man) && R.Inv(node.spec, d.rest)
    && (!d.rest.deleting && (!node.staging || d.rest.phase !in {R.PreWarming, R.Failed}) ==>
          StageOk(c, d.files, node, man))
  }

  ghost predicate InvFrom(c: Codec, node: Node, man: Manifest, history: seq<Disk<R.Restore>>, from: nat) {
    forall k | from <= k < |history| :: Inv(c, node, man, history[k])
  }

  /** The places a staging writes lie at or below the stage. */
  function StagePlaces(node: Node, man: Manifest): set<Path> {
    Targets(Transfers(node.mount, node.Stage(), man.files)) + Markers(node.Stage())
  }

  lemma StagePlacesBelow(node: Node, man: Manifest)
    requires Apart(node)
    ensures forall p | p in StagePlaces(node, man) :: node.Stage() <= p
    ensures forall i | 0 <= i < |man.files| :: At(node.mount, man.files[i].path) !in StagePlaces(node, man)
    ensures ManifestPath(node.mount) !in StagePlaces(node, man)
  {
    forall p | p in StagePlaces(node, man) ensures node.Stage() <= p && !(node.mount <= p) {
      if p in Targets(Transfers(node.mount, node.Stage(), man.files)) {
        var i :| 0 <= i < |man.files| && p == At(node.Stage(), man.files[i].path);
      }
      OneBranch(node.mount, node.Stage(), p);
    }
    forall i | 0 <= i < |man.files| ensures node.mount <= At(node.mount, man.files[i].path) {}
    assert node.mount <= ManifestPath(node.mount);
  }

  lemma TransfersOneWay(node: Node, man: Manifest)
    requires Apart(node) && ListsNoMarker(man)
    ensures var ts := Transfers(node.mount, node.Stage(), man.files);
            && OneWay(ts) && Targets(ts) <= StagePlaces(node, man)
            && forall i | 0 <= i < |ts| :: ts[i].source !in StagePlaces(node, man)
  {
    var ts := Transfers(node.mount, node.Stage(), man.files);
    StagePlacesBelow(node, man);
    forall i | 0 <= i < |ts| ensures ts[i].staged != [] {
      assert Name(man.files[i].path);
    }
    forall i, j | 0 <= i < |ts| && 0 <= j < |ts| && ts[i].staged == ts[j].staged ensures ts[i].source == ts[j].source {
      assert Name(man.files[i].path) && Name(man.files[j].path);
      AtInjective(node.Stage(), man.files[i].path, man.files[j].path);
    }
  }

  lemma SourceKept(c: Codec, a: map<Path, Bytes>, b: map<Path, Bytes>, node: Node, man: Manifest)
    requires Apart(node) && SourceSafe(c, a, node, man) && Alike(a, b, StagePlaces(node, man))
    ensures SourceSafe(c, b, node, man)
  {
    StagePlacesBelow(node, man);
    AlikeAt(a, b, StagePlaces(node, man), ManifestPath(node.mount));
    if Committed(c, a, node.mount).None? { return; }
    forall i | 0 <= i < |man.files| ensures FileOfSize(b, At(node.mount, man.files[i].path), man.files[i].size) {
      assert FileOfSize(a, At(node.mount, man.files[i].path), man.files[i].size);
      AlikeAt(a, b, StagePlaces(node, man), At(node.mount, man.files[i].path));
    }
  }

  /** While pre-warming, a staging may leave the staged copy in any condition. */
  lemma StagingKeeps(c: Codec, node: Node, man: Manifest, base: Disk<R.Restore>, history: seq<Disk<R.Restore>>,
                     from: nat)
    requires Apart(node) && Inv(c, node, man, base) && base.rest.phase == R.PreWarming
    requires node.staging && Steps(base, history, from, StagePlaces(node, man))
    ensures InvFrom(c, node, man, history, from)
  {
    forall k | from <= k < |history| ensures Inv(c, node, man, history[k]) {
      assert Frame(base, history[k], StagePlaces(node, man));
      SourceKept(c, base.files, history[k].files, node, man);
    }
  }

  /** A finished staging is complete: its marker is the artifact's manifest and every file
      is there at its size. */
  lemma StagedComplete(c: Codec, files: map<Path, Bytes>, node: Node, man: Manifest)
    requires Lawful(c) && Apart(node) && SourceOk(c, files, node, man)
    ensures var carried := Carry(files, Transfers(node.mount, node.Stage(), man.files));
            var after := Publish(carried, node.Stage(), c.encode(man));
            && Committed(c, after, node.Stage()) == Some(man) && Agrees(after, node.Stage(), man)
            && Copied(files, after, node, man)
  {
    var ts := Transfers(node.mount, node.Stage(), man.files);
    var carried := Carry(files, ts);
    TransfersOneWay(node, man);
    forall i | 0 <= i < |man.files|
      ensures FileOfSize(carried, At(node.Stage(), man.files[i].path), man.files[i].size)
    {
      CarryAt(files, ts, i);
      assert FileOfSize(files, At(node.mount, man.files[i].path), man.files[i].size);
    }
    PublishAlike(carried, node.Stage(), c.encode(man));
    AgreesElsewhere(carried, Publish(carried, node.Stage(), c.encode(man)), node.Stage(), man);
    forall i | 0 <= i < |man.files|
      ensures CopiedAt(files, Publish(carried, node.Stage(), c.encode(man)), node, man, i)
    {
      CarryAt(files, ts, i);
      assert FileOfSize(files, At(node.mount, man.files[i].path), man.files[i].size);
      PublishedPlace(node.Stage(), carried, man.files[i].path, c.encode(man));
    }
  }

  /** Every listed file has in the stage the bytes it has in the artifact. */
  ghost predicate Copied(a: map<Path, Bytes>, b: map<Path, Bytes>, node: Node, man: Manifest) {
    forall i | 0 <= i < |man.files| :: CopiedAt(a, b, node, man, i)
  }

  ghost predicate CopiedAt(a: map<Path, Bytes>, b: map<Path, Bytes>, node: Node, man: Manifest, i: nat)
    requires i < |man.files|
  {
    var p, q := At(node.mount, man.files[i].path), At(node.Stage(), man.files[i].path);
    p in a && q in b && b[q] == a[p]
  }

  lemma InvMore(c: Codec, node: Node, man: Manifest, first: seq<Disk<R.Restore>>, history: seq<Disk<R.Restore>>)
    requires InvFrom(c, node, man, first, 0) && first <= history && InvFrom(c, node, man, history, |first|)
    ensures InvFrom(c, node, man, history, 0)
  {
    forall k | 0 <= k < |history| ensures Inv(c, node, man, history[k]) {
      if k < |first| { assert history[k] == first[k]; }
    }
  }

  /** The manager and the user go on meanwhile. */
  method Others(m: Machine<R.Restore>, c: Codec, node: Node, ghost man: Manifest)
    requires m.Valid() && InvFrom(c, node, man, m.history, 0)
    modifies m
    ensures m.Valid() && InvFrom(c, node, man, m.history, 0) && old(m.history) <= m.history
    ensures m.now.files == old(m.now.files) && R.Since(old(m.now.rest), m.now.rest)
    ensures old(m.now.rest).phase == R.PreWarming ==> m.now.rest.phase in {R.PreWarming, R.Failed}
  {
    var steps: nat := *;
    while steps > 0
      invariant m.Valid() && InvFrom(c, node, man, m.history, 0) && old(m.history) <= m.history
      invariant m.now.files == old(m.now.files) && R.Since(old(m.now.rest), m.now.rest)
      invariant old(m.now.rest).phase == R.PreWarming ==> m.now.rest.phase in {R.PreWarming, R.Failed}
    {
      var other: R.Actor := *;
      var next: R.Restore := *;
      if other != R.Agent && R.Step(other, node.spec, m.now.rest, next) {
        assert Inv(c, node, man, m.history[|m.history| - 1]);
        R.StepKeeps(other, node.spec, m.now.rest, next);
        ghost var first := m.history;
        m.Enter(m.now.(rest := next));
        InvMore(c, node, man, first, m.history);
      }
      steps := steps - 1;
    }
  }

  /** The agent's status update over the copy it read; leaving PreWarming for anything but
      Failed needs a complete stage. */
  method Update(m: Machine<R.Restore>, c: Codec, node: Node, cur: R.Restore, next: R.Restore, ghost man: Manifest)
    returns (ok: bool)
    requires m.Valid() && InvFrom(c, node, man, m.history, 0) && R.Since(cur, m.now.rest)
    requires R.Step(R.Agent, node.spec, cur, next)
    requires next.phase !in {R.PreWarming, R.Failed} && cur.phase == R.PreWarming ==> StageOk(c, m.now.files, node, man)
    modifies m
    ensures m.Valid() && InvFrom(c, node, man, m.history, 0) && old(m.history) <= m.history
    ensures m.now.files == old(m.now.files) && m.now.rest.version > cur.version
    ensures ok ==> m.now.rest == next
  {
    Others(m, c, node, man);
    ok := m.now.rest.version == cur.version;
    if ok {
      assert Inv(c, node, man, m.history[|m.history| - 1]);
      R.StepKeeps(R.Agent, node.spec, cur, next);
      ghost var first := m.history;
      m.Enter(m.now.(rest := next));
      InvMore(c, node, man, first, m.history);
    }
  }

  /** Nothing is in the way of a staged copy. */
  ghost predicate StageRoom<X>(d: Disk<X>, node: Node, man: Manifest) {
    Room(d, StagePlaces(node, man), {node.Stage()})
  }

  /** Copy every listed file under the stage, then publish the manifest there. */
  method Stage(m: Machine<R.Restore>, c: Codec, node: Node, man: Manifest) returns (ok: bool)
    requires m.Valid() && !m.lies && Lawful(c) && Apart(node) && node.staging
    requires InvFrom(c, node, man, m.history, 0) && m.now.rest.phase == R.PreWarming
    requires Committed(c, m.now.files, node.mount).Some?
    modifies m
    ensures m.Valid() && InvFrom(c, node, man, m.history, 0) && old(m.history) <= m.history
    ensures m.now.rest == old(m.now.rest)
    ensures ok ==> Committed(c, m.now.files, node.Stage()) == Some(man) && Agrees(m.now.files, node.Stage(), man)
    ensures ok ==> Copied(old(m.now.files), m.now.files, node, man)
    ensures !m.faulty && StageRoom(old(m.now), node, man)
            && (!node.verify || DigestsHold(old(m.now.files), node.mount, man)) ==>
              ok
  {
    ghost var start, first := m.now, m.history;
    StageReady(c, node, man, first, start);
    ok := StageFiles(m, c, node, man, Transfers(node.mount, node.Stage(), man.files), StagePlaces(node, man));
    Staged(c, node, man, start, first, m.history, m.now);
    if ok { StagedComplete(c, start.files, node, man); }
  }

  /** A committed artifact can be staged, as far as its files go. */
  lemma StageReady(c: Codec, node: Node, man: Manifest, first: seq<Disk<R.Restore>>, start: Disk<R.Restore>)
    requires Apart(node) && InvFrom(c, node, man, first, 0) && first != [] && first[|first| - 1] == start
    requires Committed(c, start.files, node.mount).Some?
    ensures SourceOk(c, start.files, node, man)
    ensures var ts, places := Transfers(node.mount, node.Stage(), man.files), StagePlaces(node, man);
            && OneWay(ts) && Targets(ts) <= places && Markers(node.Stage()) <= places
            && (forall i | 0 <= i < |ts| :: ts[i].source !in places)
            && (!node.verify || DigestsHold(start.files, node.mount, man) ==> Servable(start.files, ts, node.verify))
  {
    assert Inv(c, node, man, first[|first| - 1]);
    TransfersOneWay(node, man);
    SourceFetched(start.files, node, man);
  }

  /** The states of a staging, after those before it. */
  lemma Staged(c: Codec, node: Node, man: Manifest, start: Disk<R.Restore>, first: seq<Disk<R.Restore>>,
               history: seq<Disk<R.Restore>>, now: Disk<R.Restore>)
    requires Apart(node) && node.staging && InvFrom(c, node, man, first, 0) && first != []
    requires first[|first| - 1] == start && start.rest.phase == R.PreWarming
    requires first <= history && Steps(start, history, |first|, StagePlaces(node, man)) && history[|history| - 1] == now
    ensures InvFrom(c, node, man, history, 0) && now.rest == start.rest
  {
    assert Inv(c, node, man, first[|first| - 1]);
    StagingKeeps(c, node, man, start, history, |first|);
    InvMore(c, node, man, first, history);
    StepsReach(start, first, history, now, StagePlaces(node, man));
  }

  lemma SourceFetched(files: map<Path, Bytes>, node: Node, man: Manifest)
    requires Agrees(files, node.mount, man)
    ensures var ts := Transfers(node.mount, node.Stage(), man.files);
            Fetched(files, ts) && (DigestsHold(files, node.mount, man) ==> Digested(files, ts))
  {
    var ts := Transfers(node.mount, node.Stage(), man.files);
    forall i | 0 <= i < |ts| ensures FileOfSize(files, ts[i].source, ts[i].f.size) {
      assert FileOfSize(files, At(node.mount, man.files[i].path), man.files[i].size);
    }
    if DigestsHold(files, node.mount, man) {
      forall i | 0 <= i < |ts| ensures DigestHolds(files, ts[i].source, ts[i].f) {
        assert DigestHolds(files, At(node.mount, man.files[i].path), man.files[i]);
      }
    }
  }

  /** Every file can be fetched, and has the listed digest where that is looked at. */
  ghost predicate Servable(files: map<Path, Bytes>, ts: seq<Transfer>, verify: bool) {
    Fetched(files, ts) && (verify ==> Digested(files, ts))
  }

  method StageFiles(m: Machine<R.Restore>, c: Codec, node: Node, man: Manifest, ts: seq<Transfer>,
                    ghost places: set<Path>)
    returns (ok: bool)
    requires m.Valid() && !m.lies && Markers(node.Stage()) <= places
    requires OneWay(ts) && Targets(ts) <= places && forall i | 0 <= i < |ts| :: ts[i].source !in places
    modifies m
    ensures m.Valid() && m.Only(places)
    ensures ok ==> m.now.files == Publish(Carry(old(m.now.files), ts), node.Stage(), c.encode(man))
    ensures !m.faulty && Room(old(m.now), places, {node.Stage()}) && Servable(old(m.now.files), ts, node.verify) ==> ok
  {
    var e := FillStage(m, node, ts, places);
    ghost var base, first := m.now, m.history;
    StepsReach(old(m.now), old(m.history), first, base, places);
    if !e.Nil? { return false; }
    e := WriteManifestDir(m, c, node.Stage(), man);
    StepsWiden(base, m.history, |first|, Markers(node.Stage()), places);
    StepsJoin(old(m.now), first, |old(m.history)|, m.history, places);
    ok := e.Nil?;
  }

  /** The stage up to its marker. */
  method FillStage(m: Machine<R.Restore>, node: Node, ts: seq<Transfer>, ghost places: set<Path>) returns (e: Err)
    requires m.Valid() && !m.lies && Markers(node.Stage()) <= places
    requires OneWay(ts) && Targets(ts) <= places && forall i | 0 <= i < |ts| :: ts[i].source !in places
    modifies m
    ensures m.Valid() && m.Only(places)
    ensures e.Nil? ==> m.now.files == Carry(old(m.now.files), ts)
    ensures Room(old(m.now), places, {node.Stage()}) ==>
              && (e.Nil? ==> !IsDir(m.now, PartPath(node.Stage())) && !IsDir(m.now, ManifestPath(node.Stage())))
              && (!m.faulty && Servable(old(m.now.files), ts, node.verify) ==> e.Nil?)
  {
    ghost var start, folders := m.now, {node.Stage()};
    e := m.MkdirAll(node.Stage(), places);
    if !e.Nil? { return; }
    if Room(start, places, folders) { RoomMade(start, m.now, places, folders, node.Stage()); }
    e := FetchAll(m, ts, true, node.verify, places, folders);
  }

  ghost predicate DigestsHold(files: map<Path, Bytes>, dir: Path, man: Manifest) {
    forall i | 0 <= i < |man.files| :: DigestHolds(files, At(dir, man.files[i].path), man.files[i])
  }

  /** Read every listed file through the mount and keep nothing. */
  method ReadThrough<X>(m: Machine<X>, node: Node, man: Manifest) returns (ok: bool)
    requires m.Valid()
    modifies m
    ensures m.Valid() && m.now == old(m.now) && m.history == old(m.history)
    ensures ok ==> Agrees(m.now.files, node.mount, man)
    ensures ok && node.verify ==> DigestsHold(m.now.files, node.mount, man)
    ensures !m.faulty && Agrees(m.now.files, node.mount, man)
            && (!node.verify || DigestsHold(m.now.files, node.mount, man)) ==>
              ok
  {
    for i := 0 to |man.files|
      invariant m.Valid() && m.now == old(m.now) && m.history == old(m.history)
      invariant forall j | 0 <= j < i :: Matches(m.now.files, node.mount, man.files[j])
      invariant node.verify ==>
          forall j | 0 <= j < i :: DigestHolds(m.now.files, At(node.mount, man.files[j].path), man.files[j])
    {
      var n, e := FetchOne(m, At(node.mount, man.files[i].path), None, man.files[i], node.verify, {});
      if !e.Nil? { return false; }
    }
    ok := true;
  }

  datatype Warmth = Ready | Again | GiveUp

  /** The tier is configured and has the artifact. */
  ghost predicate OnTier<X>(d: Disk<X>, node: Node, man: Manifest) {
    node.Tier().Some? && Resident(d, node.dirSize, node.Tier().value, Some(man))
  }

  /** Without a stage the bytes are where they belong, or can be read through the mount and,
      where that is asked for, have the listed digests. */
  ghost predicate WarmsInPlace<X>(d: Disk<X>, node: Node, man: Manifest) {
    node.nodeLocal || OnTier(d, node, man) || !node.verify || DigestsHold(d.files, node.mount, man)
  }

  /** prewarm up to the status write. */
  method Warm(m: Machine<R.Restore>, c: Codec, node: Node, ghost man: Manifest) returns (w: Warmth)
    requires m.Valid() && !m.lies && Lawful(c) && Apart(node)
    requires InvFrom(c, node, man, m.history, 0) && m.now.rest.phase == R.PreWarming && !m.now.rest.deleting
    modifies m
    ensures m.Valid() && InvFrom(c, node, man, m.history, 0) && old(m.history) <= m.history
    ensures m.now.rest == old(m.now.rest)
    ensures w.Ready? ==> StageOk(c, m.now.files, node, man)
    ensures w.Ready? && node.staging ==>
              Committed(c, m.now.files, node.Stage()) == Some(man) && Copied(old(m.now.files), m.now.files, node, man)
    ensures w.Again? ==> ManifestPath(node.mount) !in old(m.now.files)
    ensures !m.faulty ==> (w.Again? <==> ManifestPath(node.mount) !in old(m.now.files))
    ensures !m.faulty && w.Ready? ==> Committed(c, old(m.now.files), node.mount) == Some(man)
    ensures !m.faulty && !node.staging && Committed(c, old(m.now.files), node.mount).Some? ==>
              (w.Ready? <==> WarmsInPlace(old(m.now), node, man))
    ensures !m.faulty && node.staging && Committed(c, old(m.now.files), node.mount).Some?
            && StageRoom(old(m.now), node, man)
            && (!node.verify || DigestsHold(old(m.now.files), node.mount, man)) ==>
              w.Ready?
  {
    assert Inv(c, node, man, m.history[|m.history| - 1]);
    var r := ReadManifestDir(m, c, node.mount);
    if r.Absent? { return Again; }
    if r.Broken? { return GiveUp; }
    var ok := true;
    if node.staging {
      ok := Stage(m, c, node, r.m);
    } else if !node.nodeLocal {
      var cached := Resolve(m, node.root, node.hostRoot, node.fusePath, Some(r.m), node.dirSize);
      if !cached.CacheDir? {
        ok := ReadThrough(m, node, r.m);
      }
    }
    w := if ok then Ready else GiveUp;
  }

  /** What prewarm records: the condition and the phase that follows, nothing, or a failure. */
  function Warmed(cur: R.Restore, w: Warmth): R.Restore {
    var next := cur.(version := cur.version + 1);
    match w
    case Ready => next.(preWarmed := true, phase := if cur.podUID == "" then R.Preparing else R.Restoring)
    case Again => next
    case GiveUp => next.(phase := R.Failed)
  }

  /** prewarm: the status leaves PreWarming only when the copy a restore would pick is
      complete; a transient failure is retried, any other one fails the restore. */
  method Prewarm(m: Machine<R.Restore>, c: Codec, node: Node, ghost man: Manifest) returns (ok: bool, w: Warmth)
    requires m.Valid() && !m.lies && Lawful(c) && Apart(node)
    requires InvFrom(c, node, man, m.history, 0) && m.now.rest.phase == R.PreWarming && !m.now.rest.deleting
    modifies m
    ensures m.Valid() && InvFrom(c, node, man, m.history, 0) && old(m.history) <= m.history
    ensures m.now.rest.version > old(m.now.rest).version
    ensures ok ==>
              var was, now := old(m.now.rest), m.now.rest;
              && now.version == was.version + 1 && now.podUID == was.podUID
              && (now.preWarmed <==> w.Ready? || was.preWarmed)
              && (w.Ready? ==> now.phase == (if was.podUID == "" then R.Preparing else R.Restoring))
              && (w.Again? ==> now.phase == R.PreWarming) && (w.GiveUp? ==> now.phase == R.Failed)
    ensures w.Ready? && node.staging ==>
              Committed(c, m.now.files, node.Stage()) == Some(man) && Copied(old(m.now.files), m.now.files, node, man)
    ensures w.Again? ==> ManifestPath(node.mount) !in old(m.now.files)
    ensures !m.faulty ==> (w.Again? <==> ManifestPath(node.mount) !in old(m.now.files))
    ensures !m.faulty && w.Ready? ==> Committed(c, old(m.now.files), node.mount) == Some(man)
    ensures !m.faulty && !node.staging && Committed(c, old(m.now.files), node.mount).Some? ==>
              (w.Ready? <==> WarmsInPlace(old(m.now), node, man))
    ensures !m.faulty && node.staging && Committed(c, old(m.now.files), node.mount).Some?
            && StageRoom(old(m.now), node, man)
            && (!node.verify || DigestsHold(old(m.now.files), node.mount, man)) ==>
              w.Ready?
  {
    var cur := m.now.rest;
    w := Warm(m, c, node, man);
    ok := Update(m, c, node, cur, Warmed(cur, w), man);
  }

  /** dir has every file of man at its size, or it is the tier with a directory in place of one. */
  ghost predicate Holding<X>(d: Disk<X>, node: Node, dir: Path, man: Manifest) {
    Agrees(d.files, dir, man) || (node.Tier() == Some(dir) && ListsDirectory(d, dir, man))
  }

  lemma ResidentHolds<X>(d: Disk<X>, node: Node, dir: Path, man: Manifest)
    requires Resident(d, node.dirSize, dir, Some(man)) && node.Tier() == Some(dir)
    ensures Holding(d, node, dir, man)
  {
    if !ListsDirectory(d, dir, man) {
      forall i | 0 <= i < |man.files| ensures FileOfSize(d.files, At(dir, man.files[i].path), man.files[i].size) {
        assert Shows(d, node.dirSize, dir, man.files[i]);
      }
    }
  }

  /** There is a staged copy, or the artifact itself is committed. */
  ghost predicate Available(c: Codec, files: map<Path, Bytes>, node: Node) {
    Committed(c, files, node.Stage()).Some? || Committed(c, files, node.mount).Some?
  }

  /** A staged copy comes first, then the tier if it has the artifact, and the mount last. */
  ghost function Preferred<X>(c: Codec, d: Disk<X>, node: Node, man: Manifest): Path {
    if Committed(c, d.files, node.Stage()).Some? then node.Stage()
    else if OnTier(d, node, man) then node.Tier().value
    else node.mount
  }

  /** The directory restore() picks: the staged copy, the cache tier, or the mount. In every
      reachable Restoring state it holds every file of the manifest it goes by at its size,
      unless it is the tier and a listed name is that of a directory there. */
  method SelectImages(m: Machine<R.Restore>, c: Codec, node: Node, ghost man: Manifest)
    returns (ok: bool, dir: Path, used: Manifest)
    requires m.Valid() && InvFrom(c, node, man, m.history, 0)
    requires m.now.rest.phase == R.Restoring && !m.now.rest.deleting
    ensures ok ==> used == man && Holding(m.now, node, dir, man)
    ensures !m.faulty ==> (ok <==> Available(c, m.now.files, node)) && (ok ==> dir == Preferred(c, m.now, node, man))
    ensures ok && dir == node.Stage() && node.Tier() != Some(dir) && dir != node.mount ==>
              Committed(c, m.now.files, dir) == Some(man)
  {
    assert Inv(c, node, man, m.history[|m.history| - 1]);
    var staged := ReadManifestDir(m, c, node.Stage());
    if staged.Read? {
      return true, node.Stage(), staged.m;
    }
    var r := ReadManifestDir(m, c, node.mount);
    if !r.Read? {
      return false, node.mount, Manifest(0, "", "", None, [], 0);
    }
    var cached := Resolve(m, node.root, node.hostRoot, node.fusePath, Some(r.m), node.dirSize);
    if cached.CacheDir? { ResidentHolds(m.now, node, cached.local, man); }
    return true, if cached.CacheDir? then cached.local else node.mount, r.m;
  }

  /** Something below the scratch directory goes: the artifact does not notice, and neither
      does a staged copy that is not below what goes. */
  lemma PrunedKeeps(c: Codec, node: Node, man: Manifest, a: Disk<R.Restore>, b: Disk<R.Restore>, p: Path)
    requires Apart(node) && Inv(c, node, man, a) && Pruned(a, b, p) && node.work <= p
    requires (!(p <= node.Stage()) && !(node.Stage() <= p)) || a.rest.deleting
    ensures Inv(c, node, man, b)
  {
    PrunedMount(c, node, man, a, b, p);
    if !a.rest.deleting && Committed(c, b.files, node.Stage()).Some? {
      PrunedStage(c, node, man, a, b, p);
    }
  }

  lemma PrunedMount(c: Codec, node: Node, man: Manifest, a: Disk<R.Restore>, b: Disk<R.Restore>, p: Path)
    requires Apart(node) && SourceSafe(c, a.files, node, man) && Pruned(a, b, p) && node.work <= p
    ensures SourceSafe(c, b.files, node, man)
  {
    forall q | node.mount <= q ensures SameFile(a.files, b.files, q) { OneBranch(node.mount, node.work, q); }
    assert SameFile(a.files, b.files, ManifestPath(node.mount));
    if Committed(c, a.files, node.mount).None? { return; }
    forall i | 0 <= i < |man.files| ensures FileOfSize(b.files, At(node.mount, man.files[i].path), man.files[i].size) {
      assert FileOfSize(a.files, At(node.mount, man.files[i].path), man.files[i].size);
      assert SameFile(a.files, b.files, At(node.mount, man.files[i].path));
    }
  }

  lemma PrunedStage(c: Codec, node: Node, man: Manifest, a: Disk<R.Restore>, b: Disk<R.Restore>, p: Path)
    requires Pruned(a, b, p) && !(p <= node.Stage()) && !(node.Stage() <= p)
    ensures StageOk(c, a.files, node, man) ==> StageOk(c, b.files, node, man)
    ensures Committed(c, b.files, node.Stage()) == Committed(c, a.files, node.Stage())
  {
    forall q | node.Stage() <= q ensures SameFile(a.files, b.files, q) { OneBranch(node.Stage(), p, q); }
    assert SameFile(a.files, b.files, ManifestPath(node.Stage()));
    if Committed(c, a.files, node.Stage()).Some? && StageOk(c, a.files, node, man) {
      forall i | 0 <= i < |man.files|
        ensures FileOfSize(b.files, At(node.Stage(), man.files[i].path), man.files[i].size)
      {
        assert FileOfSize(a.files, At(node.Stage(), man.files[i].path), man.files[i].size);
        assert SameFile(a.files, b.files, At(node.Stage(), man.files[i].path));
      }
    }
  }

  /** On an honest store without faults what is at and below p is gone, or, where a plain rmdir
      of it reported success, all still there. */
  ghost predicate Dropped<X>(m: Machine<X>, a: Disk<X>, b: Disk<X>, p: Path) {
    !m.faulty && !m.lies && TreeShaped(a) ==> (forall q | q in b.files :: !(p <= q)) || b.files == a.files
  }

  /** os.RemoveAll somewhere in the scratch directory. */
  method DropScratch(m: Machine<R.Restore>, c: Codec, node: Node, p: Path, ghost man: Manifest)
    requires m.Valid() && Apart(node) && InvFrom(c, node, man, m.history, 0) && node.work <= p
    requires (!(p <= node.Stage()) && !(node.Stage() <= p)) || m.now.rest.deleting
    modifies m
    ensures m.Valid() && InvFrom(c, node, man, m.history, 0) && old(m.history) <= m.history
    ensures m.now.rest == old(m.now.rest) && Dropped(m, old(m.now), m.now, p)
  {
    ghost var first := m.history;
    assert Inv(c, node, man, first[|first| - 1]);
    var ignored := RemoveAll(m, p);
    forall k | |first| <= k < |m.history| ensures Inv(c, node, man, m.history[k]) {
      PrunedKeeps(c, node, man, old(m.now), m.history[k], p);
    }
    InvMore(c, node, man, first, m.history);
    if Gone(m.now, p) { GoneAll(m.now, p); }
  }

  /** restore, as far as the images go: choose the directory, clear the scratch of an earlier
      attempt but not the staged copy, hand the directory to runc, and record what came of it.
      visible says that the artifact and the sandbox are there, restored that runc succeeds. */
  method Restore(m: Machine<R.Restore>, c: Codec, node: Node, container: string, visible: bool, restored: bool,
                 ghost man: Manifest)
    returns (ok: bool, dir: Option<Path>)
    requires m.Valid() && Apart(node) && InvFrom(c, node, man, m.history, 0) && container != ""
    requires m.now.rest.phase == R.Restoring && !m.now.rest.deleting
    modifies m
    ensures m.Valid() && InvFrom(c, node, man, m.history, 0) && old(m.history) <= m.history
    ensures dir.Some? ==> visible && Holding(old(m.now), node, dir.value, man)
    ensures !m.faulty && visible ==>
              dir == if Available(c, old(m.now.files), node) then Some(Preferred(c, old(m.now), node, man)) else None
    ensures m.now.rest.version > old(m.now.rest).version
    ensures ok ==>
              var was, now := old(m.now.rest), m.now.rest;
              && (!visible ==> now == was.(version := now.version))
              && (visible && (dir.None? || !restored) ==> now == was.(version := now.version, phase := R.Failed))
              && (visible && dir.Some? && restored ==>
                    now == was.(version := now.version, container := container, phase := R.Running))
  {
    var cur := m.now.rest;
    var next := cur.(version := cur.version + 1);
    dir := None;
    if visible {
      var chosen, images, used := SelectImages(m, c, node, man);
      if !chosen {
        next := next.(phase := R.Failed);
      } else {
        dir := Some(images);
        ClearScratch(m, c, node, man);
        next := if restored then next.(container := container, phase := R.Running) else next.(phase := R.Failed);
      }
    }
    ok := Update(m, c, node, cur, next, man);
  }

  /** The scratch of an earlier attempt goes, the staged copy stays. */
  method ClearScratch(m: Machine<R.Restore>, c: Codec, node: Node, ghost man: Manifest)
    requires m.Valid() && Apart(node) && InvFrom(c, node, man, m.history, 0)
    modifies m
    ensures m.Valid() && InvFrom(c, node, man, m.history, 0) && old(m.history) <= m.history
    ensures m.now.rest == old(m.now.rest)
  {
    ApartNames(node);
    DropScratch(m, c, node, node.work + [BUNDLE_NAME], man);
    DropScratch(m, c, node, node.work + [CRIU_WORK_NAME], man);
  }

  lemma ApartNames(node: Node)
    ensures !(node.work + [BUNDLE_NAME] <= node.Stage()) && !(node.Stage() <= node.work + [BUNDLE_NAME])
    ensures !(node.work + [CRIU_WORK_NAME] <= node.Stage()) && !(node.Stage() <= node.work + [CRIU_WORK_NAME])
  {
    var n := |node.work|;
    assert node.Stage()[n] == STAGE_NAME && (node.work + [BUNDLE_NAME])[n] == BUNDLE_NAME;
    assert (node.work + [CRIU_WORK_NAME])[n] == CRIU_WORK_NAME;
  }

  /** checkAlive: a container that no longer runs fails the restore. */
  method CheckAlive(m: Machine<R.Restore>, c: Codec, node: Node, runs: bool, ghost man: Manifest) returns (ok: bool)
    requires m.Valid() && InvFrom(c, node, man, m.history, 0)
    requires m.now.rest.phase == R.Running && !m.now.rest.deleting
    modifies m
    ensures m.Valid() && InvFrom(c, node, man, m.history, 0) && old(m.history) <= m.history
    ensures m.now.files == old(m.now.files)
    ensures if runs then !ok && m.now == old(m.now) else m.now.rest.version > old(m.now.rest).version
    ensures ok ==> m.now.rest == old(m.now.rest).(version := m.now.rest.version, phase := R.Failed)
  {
    var cur := m.now.rest;
    ok := false;
    if runs { return; }
    ok := Update(m, c, node, cur, cur.(version := cur.version + 1, phase := R.Failed), man);
  }

  /** teardown: the container is killed, the whole scratch directory goes, the staged copy with
      it, and the condition is set that lets the finalizer go. */
  method Teardown(m: Machine<R.Restore>, c: Codec, node: Node, killed: bool, ghost man: Manifest) returns (ok: bool)
    requires m.Valid() && Apart(node) && InvFrom(c, node, man, m.history, 0) && m.now.rest.deleting
    modifies m
    ensures m.Valid() && InvFrom(c, node, man, m.history, 0) && old(m.history) <= m.history
    ensures if old(m.now.rest).container != "" && !killed then !ok && m.now == old(m.now)
            else m.now.rest.version > old(m.now.rest).version
    ensures ok ==> m.now.rest == old(m.now.rest).(version := m.now.rest.version, tornDown := true)
    ensures old(m.now.rest).container == "" || killed ==> Dropped(m, old(m.now), m.now, node.work)
  {
    var cur := m.now.rest;
    if cur.container != "" && !killed { return false; }
    DropScratch(m, c, node, node.work, man);
    ok := Update(m, c, node, cur, cur.(version := cur.version + 1, tornDown := true), man);
  }

  predicate SameBelow(a: map<Path, Bytes>, b: map<Path, Bytes>, dir: Path) {
    && (forall p | p in a && dir <= p :: p in b && b[p] == a[p])
    && (forall p | p in b && dir <= p :: p in a)
  }

  /** Outside the scratch directory anything may happen: the artifact is published, or deleted. */
  method Publisher(m: Machine<R.Restore>, c: Codec, node: Node, man: Manifest)
    requires m.Valid() && InvFrom(c, node, man, m.history, 0)
    modifies m
    ensures m.Valid() && InvFrom(c, node, man, m.history, 0) && old(m.history) <= m.history
    ensures m.now.rest == old(m.now.rest) && SameBelow(old(m.now.files), m.now.files, node.work)
  {
    var next: map<Path, Bytes> := *;
    if SameBelow(m.now.files, next, node.work) && SourceSafe(c, next, node, man) {
      assert Inv(c, node, man, m.history[|m.history| - 1]);
      StageKept(c, node, man, m.now.files, next);
      ghost var first := m.history;
      m.Enter(m.now.(files := next));
      InvMore(c, node, man, first, m.history);
    }
  }

  lemma StageKept(c: Codec, node: Node, man: Manifest, a: map<Path, Bytes>, b: map<Path, Bytes>)
    requires SameBelow(a, b, node.work)
    ensures StageOk(c, a, node, man) ==> StageOk(c, b, node, man)
  {
    assert node.work <= ManifestPath(node.Stage());
    assert SameFile(a, b, ManifestPath(node.Stage()));
    if Committed(c, a, node.Stage()).Some? && StageOk(c, a, node, man) {
      forall i | 0 <= i < |man.files| ensures FileOfSize(b, At(node.Stage(), man.files[i].path), man.files[i].size) {
        assert FileOfSize(a, At(node.Stage(), man.files[i].path), man.files[i].size);
        assert node.work <= At(node.Stage(), man.files[i].path);
      }
    }
  }

  /** Any number of reconciles of the agent, pre-warms, restores and teardowns, each of which
      may be cut off anywhere, with the publisher, the manager and the user going on: the invariant that
      SelectImages rests on holds throughout. */
  method Run(m: Machine<R.Restore>, c: Codec, node: Node, turns: nat, container: string, man: Manifest)
    requires m.Valid() && !m.lies && Lawful(c) && Apart(node) && InvFrom(c, node, man, m.history, 0)
    requires container != ""
    modifies m
    ensures m.Valid() && InvFrom(c, node, man, m.history, 0)
  {
    for i := 0 to turns
      invariant m.Valid() && InvFrom(c, node, man, m.history, 0)
    {
      var before := |m.history|;
      Others(m, c, node, man);
      Publisher(m, c, node, man);
      Turn(m, c, node, container, man);
      var dies: bool := *;
      if dies {
        var k :| before - 1 <= k < |m.history|;
        m.CrashAt(k);
      }
    }
  }

  /** The agent's Reconcile. */
  method Turn(m: Machine<R.Restore>, c: Codec, node: Node, container: string, ghost man: Manifest)
    requires m.Valid() && !m.lies && Lawful(c) && Apart(node) && InvFrom(c, node, man, m.history, 0)
    requires container != ""
    modifies m
    ensures m.Valid() && InvFrom(c, node, man, m.history, 0) && old(m.history) <= m.history
  {
    if m.now.rest.deleting {
      var killed: bool := *;
      var ok := Teardown(m, c, node, killed, man);
    } else if m.now.rest.phase == R.PreWarming {
      var ok, w := Prewarm(m, c, node, man);
    } else if m.now.rest.phase == R.Restoring {
      var visible: bool := *;
      var restored: bool := *;
      var ok, dir := Restore(m, c, node, container, visible, restored, man);
    } else if m.now.rest.phase == R.Running {
      var runs: bool := *;
      var ok := CheckAlive(m, c, node, runs, man);
    }
  }
}
