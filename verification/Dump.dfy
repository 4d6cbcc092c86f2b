/** The one-way dump of internal/agent/checkpoint_controller.go: runc takes the container
    with it, so a retry has nothing to fall back on but what the first attempt left behind. */
module Dump {
  import opened Paths
  import opened Storage
  import opened Manifests
  import opened Commit
  import opened Expand
  import opened PublishInPlace
  import opened Clear
  import opened Snapshots

  const DUMP_LOG_NAME := "dump.log"

  function ImageDir(dir: Path): Path { dir + [CHECKPOINT_NAME] }

  /** Every dumped image is in its place with exactly the bytes the dump produced. */
  ghost predicate Intact(files: map<Path, Bytes>, images: map<Path, Bytes>) {
    forall p | p in images :: p in files && files[p] == images[p]
  }

  /** Images lie below the image directory, under proper names. */
  ghost predicate ImagesIn(dir: Path, images: map<Path, Bytes>) {
    forall p | p in images :: ImageDir(dir) < p && ProperPath(p[|dir|..])
  }

  /** The manifest has an entry for every image. */
  ghost predicate CoversAll(dir: Path, man: Manifest, images: map<Path, Bytes>) {
    forall p | p in images :: Covers(dir, man, p)
  }

  /** What holds in every state of every run. */
  ghost predicate Inv(c: Codec, dir: Path, d: Disk<World>) {
    var w := d.rest;
    && TidyTree(d.files, dir) && CrashSafe(c, d.files, dir)
    && (w.taken.None? ==> w.dumps == 0 && Committed(c, d.files, dir).None?)
    && (w.taken.Some? ==> w.dumps == 1 && !w.alive && ImagesIn(dir, w.taken.value) && Intact(d.files, w.taken.value))
    && (w.taken.Some? && Committed(c, d.files, dir).Some? ==>
          CoversAll(dir, Committed(c, d.files, dir).value, w.taken.value))
    && (SaysCompleted(w) ==> Committed(c, d.files, dir).Some?)
  }

  /** Below dir the two trees are the same but for the marker and its temporary. */
  ghost predicate SameTree(a: map<Path, Bytes>, b: map<Path, Bytes>, dir: Path) {
    forall p | dir < p && p !in Markers(dir) :: SameFile(a, b, p)
  }

  /** What every later state keeps of an earlier one: the container stays dead, a dump stays
      the only one, and a committed artifact is neither cleared nor written again. */
  ghost predicate Follows(c: Codec, dir: Path, a: Disk<World>, b: Disk<World>) {
    && a.rest.dumps <= b.rest.dumps
    && (!a.rest.alive ==> !b.rest.alive)
    && (a.rest.taken.Some? ==> b.rest.taken == a.rest.taken && b.rest.dumps == a.rest.dumps)
    && (Committed(c, a.files, dir).Some? ==>
          Committed(c, b.files, dir) == Committed(c, a.files, dir) && SameTree(a.files, b.files, dir))
  }

  ghost predicate Good(c: Codec, dir: Path, history: seq<Disk<World>>) {
    && history != []
    && (forall k | 0 <= k < |history| :: Inv(c, dir, history[k]))
    && (forall k | 0 < k < |history| :: Follows(c, dir, history[k - 1], history[k]))
  }

  lemma {:induction false} FollowsAll(c: Codec, dir: Path, history: seq<Disk<World>>, i: nat, j: nat)
    requires Good(c, dir, history) && i <= j < |history|
    ensures Follows(c, dir, history[i], history[j])
    decreases j - i
  {
    if i < j {
      FollowsAll(c, dir, history, i, j - 1);
      FollowsStep(c, dir, history[i], history[j - 1], history[j]);
    }
  }

  lemma FollowsStep(c: Codec, dir: Path, a: Disk<World>, b: Disk<World>, d: Disk<World>)
    requires Follows(c, dir, a, b) && Follows(c, dir, b, d)
    ensures Follows(c, dir, a, d)
  {
    if Committed(c, a.files, dir).Some? {
      forall p | dir < p && p !in Markers(dir) ensures SameFile(a.files, d.files, p) {
        assert SameFile(a.files, b.files, p) && SameFile(b.files, d.files, p);
      }
    }
  }

  // ----- the four kinds of stretch a run is made of -----

  /** Every new state is good on its own and follows the state before it. */
  ghost predicate GoodFrom(c: Codec, dir: Path, history: seq<Disk<World>>, from: nat) {
    forall k | 0 < from <= k < |history| :: Inv(c, dir, history[k]) && Follows(c, dir, history[k - 1], history[k])
  }

  lemma GoodMore(c: Codec, dir: Path, first: seq<Disk<World>>, history: seq<Disk<World>>)
    requires Good(c, dir, first) && first <= history && GoodFrom(c, dir, history, |first|)
    ensures Good(c, dir, history)
  {
    forall k | 0 <= k < |history| ensures Inv(c, dir, history[k]) {
      if k < |first| { assert history[k] == first[k]; }
    }
    forall k | 0 < k < |history| ensures Follows(c, dir, history[k - 1], history[k]) {
      if k < |first| { assert history[k] == first[k] && history[k - 1] == first[k - 1]; }
    }
  }

  /** One: nothing is dumped or committed, and only files change. */
  ghost predicate Idle(c: Codec, dir: Path, d: Disk<World>) {
    d.rest.taken.None? && d.rest.dumps == 0 && TidyTree(d.files, dir) && Committed(c, d.files, dir).None?
  }

  lemma IdleStretch(c: Codec, dir: Path, first: seq<Disk<World>>, history: seq<Disk<World>>)
    requires Good(c, dir, first) && first <= history && Idle(c, dir, first[|first| - 1])
    requires forall k | |first| <= k < |history| ::
               Idle(c, dir, history[k]) && history[k].rest == first[|first| - 1].rest
    ensures Good(c, dir, history)
  {
    forall k | |first| <= k < |history| ensures Inv(c, dir, history[k]) && Follows(c, dir, history[k - 1], history[k]) {
      assert history[|first| - 1] == first[|first| - 1];
      assert Idle(c, dir, history[k - 1]) && history[k - 1].rest == history[k].rest;
    }
    GoodMore(c, dir, first, history);
  }

  /** Two: at and below dir no file changes, and of the world only the stored object. */
  ghost predicate Aside(dir: Path, a: Disk<World>, b: Disk<World>) {
    && b.rest == a.rest.(stored := b.rest.stored)
    && forall p | dir <= p :: SameFile(a.files, b.files, p)
  }

  lemma AsideKeeps(c: Codec, dir: Path, a: Disk<World>, b: Disk<World>)
    requires Inv(c, dir, a) && Aside(dir, a, b) && (SaysCompleted(b.rest) ==> Committed(c, a.files, dir).Some?)
    ensures Inv(c, dir, b) && Follows(c, dir, a, b)
  {
    assert SameFile(a.files, b.files, ManifestPath(dir));
    forall p | p in b.files && dir < p ensures ProperPath(p[|dir|..]) { assert SameFile(a.files, b.files, p); }
    if Committed(c, a.files, dir).Some? {
      var man := Committed(c, a.files, dir).value;
      forall i | 0 <= i < |man.files| ensures FileOfSize(b.files, At(dir, man.files[i].path), man.files[i].size) {
        assert FileOfSize(a.files, At(dir, man.files[i].path), man.files[i].size);
        assert SameFile(a.files, b.files, At(dir, man.files[i].path));
      }
    }
    if a.rest.taken.Some? {
      forall p | p in a.rest.taken.value ensures p in b.files && b.files[p] == a.rest.taken.value[p] {
        assert SameFile(a.files, b.files, p);
      }
    }
  }

  lemma AsideBoth(dir: Path, base: Disk<World>, a: Disk<World>, b: Disk<World>)
    requires Aside(dir, base, a) && Aside(dir, base, b)
    ensures Aside(dir, a, b)
  {
    forall p | dir <= p ensures SameFile(a.files, b.files, p) {
      assert SameFile(base.files, a.files, p) && SameFile(base.files, b.files, p);
    }
  }

  lemma AsideStretch(c: Codec, dir: Path, first: seq<Disk<World>>, history: seq<Disk<World>>)
    requires Good(c, dir, first) && first <= history
    requires forall k | |first| <= k < |history| :: Aside(dir, first[|first| - 1], history[k])
    requires forall k | |first| <= k < |history| && SaysCompleted(history[k].rest) ::
               Committed(c, first[|first| - 1].files, dir).Some?
    ensures Good(c, dir, history)
  {
    var base := first[|first| - 1];
    forall k | |first| <= k < |history| ensures Inv(c, dir, history[k]) && Follows(c, dir, history[k - 1], history[k]) {
      AsideKeeps(c, dir, base, history[k]);
      if k > |first| {
        AsideKeeps(c, dir, base, history[k - 1]);
        AsideBoth(dir, base, history[k - 1], history[k]);
        AsideKeeps(c, dir, history[k - 1], history[k]);
      }
    }
    GoodMore(c, dir, first, history);
  }

  /** The places at the top of the artifact that a publish or its caller may write. */
  function Top(dir: Path): set<Path> { Metadata(dir) + Markers(dir) + {dir + [DUMP_LOG_NAME]} }

  lemma ImagesApart(dir: Path, images: map<Path, Bytes>, a: map<Path, Bytes>, b: map<Path, Bytes>, touched: set<Path>)
    requires ImagesIn(dir, images) && Intact(a, images) && Alike(a, b, touched) && touched <= Top(dir)
    ensures Intact(b, images)
  {
    forall p | p in images ensures p in b && b[p] == images[p] {
      assert |p| > |dir| + 1;
      AlikeAt(a, b, touched, p);
    }
  }

  lemma TidyTop(dir: Path, a: map<Path, Bytes>, b: map<Path, Bytes>, touched: set<Path>)
    requires TidyTree(a, dir) && Alike(a, b, touched) && touched <= Top(dir)
    ensures TidyTree(b, dir)
  {
    forall p | p in b && dir < p ensures ProperPath(p[|dir|..]) {
      if p in touched {
        assert p[|dir|..] == [p[|dir|]];
      } else {
        AlikeAt(a, b, touched, p);
      }
    }
  }

  /** Three: the dump is there, nothing is committed, and only files at the top change. */
  lemma SettleStretch(c: Codec, dir: Path, first: seq<Disk<World>>, history: seq<Disk<World>>, touched: set<Path>)
    requires Good(c, dir, first) && first <= history
    requires first[|first| - 1].rest.taken.Some? && ManifestPath(dir) !in first[|first| - 1].files
    requires Steps(first[|first| - 1], history, |first|, touched) && touched <= Top(dir)
             && ManifestPath(dir) !in touched
    ensures Good(c, dir, history)
  {
    var base := first[|first| - 1];
    forall k | |first| <= k < |history| ensures Inv(c, dir, history[k]) && Follows(c, dir, history[k - 1], history[k]) {
      assert history[|first| - 1] == base;
      assert Frame(base, history[k], touched) && (k > |first| ==> Frame(base, history[k - 1], touched));
      StepsWithout(base, history, |first|, touched, ManifestPath(dir));
      ImagesApart(dir, base.rest.taken.value, base.files, history[k].files, touched);
      TidyTop(dir, base.files, history[k].files, touched);
    }
    GoodMore(c, dir, first, history);
  }

  /** Four: a publish in place over the dump. */
  lemma PublishStretch(c: Codec, dir: Path, first: seq<Disk<World>>, history: seq<Disk<World>>, mid: nat,
                       tree: map<Path, Bytes>, planned: Manifest)
    requires Lawful(c) && Good(c, dir, first) && first <= history
    requires first[|first| - 1].rest.taken.Some? && ManifestPath(dir) !in first[|first| - 1].files
    requires Steps(first[|first| - 1], history, |first|, Metadata(dir) + Markers(dir))
    requires PublishRun(c, first[|first| - 1].files, history, |first|, dir, mid, tree, planned)
    requires SafeFrom(c, history, |first|, dir)
    ensures Good(c, dir, history)
  {
    var base := first[|first| - 1];
    forall k | |first| <= k < |history| ensures Inv(c, dir, history[k]) && Follows(c, dir, history[k - 1], history[k]) {
      assert history[|first| - 1] == base;
      PublishedState(c, dir, base, history, |first|, k, mid, tree, planned);
      if k > |first| && Committed(c, history[k - 1].files, dir).Some? {
        PublishedState(c, dir, base, history, |first|, k - 1, mid, tree, planned);
        PublishedAfter(c, dir, history[k - 1].files, history[k].files, tree, planned);
      }
    }
    GoodMore(c, dir, first, history);
  }

  lemma PublishedState(c: Codec, dir: Path, base: Disk<World>, history: seq<Disk<World>>, from: nat, k: nat, mid: nat,
                       tree: map<Path, Bytes>, planned: Manifest)
    requires Lawful(c) && from <= k < |history| && Inv(c, dir, base)
    requires base.rest.taken.Some? && ManifestPath(dir) !in base.files
    requires Steps(base, history, from, Metadata(dir) + Markers(dir))
    requires PublishRun(c, base.files, history, from, dir, mid, tree, planned) && SafeFrom(c, history, from, dir)
    ensures Inv(c, dir, history[k]) && history[k].rest == base.rest
    ensures Committed(c, history[k].files, dir).Some? ==>
              mid <= k && c.parse(history[k].files[ManifestPath(dir)]) == Some(planned)
  {
    var d, images := history[k], base.rest.taken.value;
    assert Frame(base, d, Metadata(dir) + Markers(dir));
    ImagesApart(dir, images, base.files, d.files, Metadata(dir) + Markers(dir));
    TidyTop(dir, base.files, d.files, Metadata(dir) + Markers(dir));
    assert CrashSafe(c, d.files, dir);
    if Committed(c, d.files, dir).Some? {
      assert mid <= k && MarkerOf(c, d.files, dir, planned);
      ImagesCovered(dir, images, base.files, tree, planned);
    }
  }

  lemma ImagesCovered(dir: Path, images: map<Path, Bytes>, a: map<Path, Bytes>, tree: map<Path, Bytes>, man: Manifest)
    requires ImagesIn(dir, images) && Intact(a, images) && Alike(a, tree, Metadata(dir) + Markers(dir))
    requires Exact(tree, dir, man)
    ensures CoversAll(dir, man, images)
  {
    ImagesApart(dir, images, a, tree, Metadata(dir) + Markers(dir));
    forall p | p in images ensures Covers(dir, man, p) {
      assert |p| > |dir| + 1 && p in Tree(tree, dir) - {ManifestPath(dir)};
    }
  }

  lemma PublishedAfter(c: Codec, dir: Path, a: map<Path, Bytes>, b: map<Path, Bytes>, tree: map<Path, Bytes>,
                       planned: Manifest)
    requires Lawful(c) && Alike(tree, a, Markers(dir)) && Alike(tree, b, Markers(dir))
    requires Committed(c, a, dir).Some? && c.parse(a[ManifestPath(dir)]) == Some(planned)
    requires GrownFrom(a, b, ManifestPath(dir)) && MarkerOf(c, b, dir, planned)
    ensures Committed(c, b, dir) == Committed(c, a, dir) && SameTree(a, b, dir)
  {
    assert TornFrom(a[ManifestPath(dir)], b[ManifestPath(dir)]) && TornFrom(b[ManifestPath(dir)], c.encode(planned));
    forall p | dir < p && p !in Markers(dir) ensures SameFile(a, b, p) {
      AlikeAt(tree, a, Markers(dir), p);
      AlikeAt(tree, b, Markers(dir), p);
    }
  }

  // ----- the reconcile -----

  /** What the snapshot and the node's configuration fix: acceptable says that the URI
      parses, names a directory and lies under the node's root. */
  datatype Job = Job(dir: Path, work: Path, acceptable: bool, nodeLocal: bool, quiesce: Option<QuiesceInfo>,
                     digest: bool)

  /** What the node and the dump contribute to one attempt. */
  datatype Attempt = Attempt(images: map<Path, Bytes>, log: Bytes, spec: Option<Bytes>, meta: Bytes,
                             shm: Option<Bytes>, rootfs: Option<Bytes>)

  ghost predicate Fits(job: Job, at: Attempt) {
    ImagesIn(job.dir, at.images) && !(job.dir <= job.work) && !(job.work <= job.dir)
  }

  /** Below the artifact directory no directory has been made for its own sake. */
  ghost predicate Flat(d: Disk<World>, dir: Path) {
    forall q | q in d.dirs :: !(dir < q)
  }

  /** One capture after the publish: as much of its own archive as was written, and all of it
      if nothing could go wrong. */
  ghost predicate CaptureKept(files: map<Path, Bytes>, p: Path, diff: Option<Bytes>, well: bool) {
    && (p in files ==> diff.Some? && files[p] <= diff.value)
    && (well && diff.Some? ==> Has(files, p, diff.value))
  }

  /** The artifact is committed under the contract the snapshot records, and is what this
      attempt produced: the images, the log, the metadata and the spec, each under its own
      name with its own bytes, the captures under theirs, and nothing else. All of it is listed,
      with digests if they are asked for. */
  ghost predicate Produced(c: Codec, job: Job, at: Attempt, files: map<Path, Bytes>, well: bool) {
    var dir := job.dir;
    && Committed(c, files, dir).Some? && Committed(c, files, dir).value.quiesce == job.quiesce
    && at.spec.Some? && Intact(files, at.images)
    && Has(files, dir + ["dump.log"], at.log)
    && Has(files, dir + ["config.dump"], at.meta) && Has(files, dir + ["spec.dump"], at.spec.value)
    && CaptureKept(files, dir + ["shm-diff.tar"], at.shm, well)
    && CaptureKept(files, dir + ["rootfs-diff.tar"], at.rootfs, well)
    && (forall p | p in files && dir < p :: p in at.images || p in Top(dir))
    && Exact(files, dir, Committed(c, files, dir).value)
    && Digested(files, dir, Committed(c, files, dir).value, job.digest)
  }

  /** What a publish of this dump needs of it. */
  ghost predicate Imaged(job: Job, at: Attempt) {
    HasPages(at.images, job.dir) && HasMagics(at.images, job.dir) && at.spec.Some? && at.spec.value != []
  }

  /** How a reconcile ends: whether it returns nil, whether a status write landed, and the
      phase that write set, if it set one. */
  datatype Ending = Ending(ok: bool, landed: bool, wrote: Option<Phase>)

  /** A nil return has recorded something, unless nobody is left to tell. */
  predicate Told(r: Ending, d: Disk<World>) {
    && (r.ok && !r.landed ==> d.rest.stored.None?)
    && (r.wrote.Some? ==> r.landed && d.rest.stored.Some? && d.rest.stored.value.phase == r.wrote.value)
  }

  /** Where nothing fails the outcome is recorded, unless nobody is left to tell or others have
      written as often as it was tried. */
  predicate Heard(r: Ending, d: Disk<World>, steps: int) { r.landed || d.rest.stored.None? || steps >= RETRIES }

  lemma PrunedAside(dir: Path, work: Path, a: Disk<World>, b: Disk<World>)
    requires Pruned(a, b, work) && !(dir <= work) && !(work <= dir)
    ensures Aside(dir, a, b)
  {
    forall p | dir <= p ensures SameFile(a.files, b.files, p) {
      OneBranch(dir, work, p);
    }
  }

  /** The scratch directory goes; the artifact does not notice. */
  method ClearWork(m: Machine<World>, c: Codec, job: Job) returns (e: Err)
    requires m.Valid() && Good(c, job.dir, m.history) && !(job.dir <= job.work) && !(job.work <= job.dir)
    modifies m
    ensures m.Valid() && Good(c, job.dir, m.history) && old(m.history) <= m.history
    ensures Aside(job.dir, old(m.now), m.now) && m.now.rest == old(m.now.rest) && m.now.dirs <= old(m.now.dirs)
    ensures !m.faulty ==> e.Nil?
  {
    e := RemoveAll(m, job.work);
    forall k | |old(m.history)| <= k < |m.history| ensures Aside(job.dir, old(m.now), m.history[k]) {
      PrunedAside(job.dir, job.work, old(m.now), m.history[k]);
    }
    PrunedAside(job.dir, job.work, old(m.now), m.now);
    AsideStretch(c, job.dir, old(m.history), m.history);
  }

  /** A status write of this agent. */
  method Record(m: Machine<World>, c: Codec, dir: Path, phase: Option<Phase>) returns (landed: bool, ok: bool)
    requires m.Valid() && Good(c, dir, m.history)
    requires phase == Some(Completed) ==> Committed(c, m.now.files, dir).Some?
    modifies m
    ensures m.Valid() && Good(c, dir, m.history) && old(m.history) <= m.history
    ensures OnlyObject(old(m.now), m.now) && ObjectSteps(old(m.now), m.history, |old(m.history)|)
    ensures landed ==> m.now.rest.stored.Some? && (phase.Some? ==> m.now.rest.stored.value.phase == phase.value)
    ensures ok && !landed ==> m.now.rest.stored.None?
    ensures !m.faulty && !landed ==> m.now.rest.stored.None? || |m.history| >= |old(m.history)| + RETRIES
  {
    landed, ok := WriteStatus(m, phase);
    forall k | |old(m.history)| <= k < |m.history| ensures Aside(dir, old(m.now), m.history[k]) {
      assert OnlyObject(old(m.now), m.history[k]);
    }
    AsideStretch(c, dir, old(m.history), m.history);
  }

  lemma ShrunkIdle(c: Codec, dir: Path, a: Disk<World>, b: Disk<World>, region: set<Path>)
    requires Idle(c, dir, a) && Shrunk(a, b, region)
    ensures Idle(c, dir, b)
  {
  }

  /** Everything below the artifact directory goes, verified, and then the scratch. */
  method Prepare(m: Machine<World>, c: Codec, job: Job) returns (cleared: bool, e: Err)
    requires m.Valid() && Good(c, job.dir, m.history) && Idle(c, job.dir, m.now)
    requires !(job.dir <= job.work) && !(job.work <= job.dir)
    modifies m
    ensures m.Valid() && Good(c, job.dir, m.history) && old(m.history) <= m.history
    ensures Idle(c, job.dir, m.now) && m.now.rest == old(m.now.rest)
    ensures e.Nil? ==> cleared && Tree(m.now.files, job.dir) == {} && Flat(m.now, job.dir)
    ensures !m.faulty ==> (cleared ==> e.Nil?)
    ensures !m.faulty && !m.lies && TreeShaped(old(m.now)) && job.dir !in old(m.now).files ==> e.Nil?
  {
    e := ClearArtifactDir(m, job.dir);
    cleared := e.Nil?;
    forall k | |old(m.history)| <= k < |m.history|
      ensures Idle(c, job.dir, m.history[k]) && m.history[k].rest == old(m.now).rest
    {
      ShrunkIdle(c, job.dir, old(m.now), m.history[k], Below(old(m.now), job.dir));
    }
    ShrunkIdle(c, job.dir, old(m.now), m.now, Below(old(m.now), job.dir));
    IdleStretch(c, job.dir, old(m.history), m.history);
    if !e.Nil? { return; }
    ghost var emptied := m.now;
    assert Tree(emptied.files, job.dir) <= Below(emptied, job.dir);
    assert forall q | q in emptied.dirs && job.dir < q :: q in Below(emptied, job.dir);
    e := ClearWork(m, c, job);
    assert SameFile(emptied.files, m.now.files, ManifestPath(job.dir));
    forall p | job.dir < p ensures p !in m.now.files {
      assert SameFile(emptied.files, m.now.files, p) && (p in emptied.files ==> p in Tree(emptied.files, job.dir));
    }
  }

  /** Below dir there are exactly the images that are no longer to be written. */
  ghost predicate Partly(files: map<Path, Bytes>, dir: Path, images: map<Path, Bytes>, todo: set<Path>) {
    && (forall p | p in files && dir < p :: p in images)
    && (forall p | p in images && p !in todo :: p in files && files[p] == images[p])
    && (forall p | p in todo :: p in images && p !in files)
  }

  function Found(files: map<Path, Bytes>, p: Path): Bytes { if p in files then files[p] else [] }

  /** CRIU appends to whatever it finds under the name of an image. */
  method Append<X>(m: Machine<X>, p: Path, chunk: Bytes) returns (n: nat)
    requires m.Valid()
    modifies m
    ensures m.Valid() && n <= |chunk| && m.history == old(m.history) + [m.now]
    ensures m.now == old(m.now).(files := old(m.now.files)[p := Found(old(m.now.files), p) + chunk[..n]])
  {
    n :| 0 <= n <= |chunk|;
    m.Enter(m.now.(files := m.now.files[p := Found(m.now.files, p) + chunk[..n]]));
  }

  method WriteImage(m: Machine<World>, c: Codec, dir: Path, images: map<Path, Bytes>, p: Path, ghost todo: set<Path>)
    returns (ok: bool)
    requires m.Valid() && Idle(c, dir, m.now) && ImagesIn(dir, images) && p in todo
             && Partly(m.now.files, dir, images, todo)
    modifies m
    ensures m.Valid() && old(m.history) <= m.history
    ensures Idle(c, dir, m.now) && m.now.rest == old(m.now.rest) && m.now.dirs == old(m.now.dirs)
    ensures forall k | |old(m.history)| <= k < |m.history| ::
              Idle(c, dir, m.history[k]) && m.history[k].rest == old(m.now).rest
    ensures ok ==> Partly(m.now.files, dir, images, todo - {p})
    ensures Alike(old(m.now).files, m.now.files, images.Keys)
  {
    assert ImageDir(dir) < p && |p| > |dir| + 1;
    var n := Append(m, p, images[p]);
    ok := n == |images[p]|;
    assert images[p][..|images[p]|] == images[p];
  }

  /** runc checkpoint: it fails and leaves the container alive, or writes every image and
      takes the container. */
  method TakeDump(m: Machine<World>, c: Codec, job: Job, at: Attempt) returns (ok: bool)
    requires m.Valid() && Good(c, job.dir, m.history) && Idle(c, job.dir, m.now)
    requires Tree(m.now.files, job.dir) == {} && Fits(job, at)
    modifies m
    ensures m.Valid() && Good(c, job.dir, m.history) && old(m.history) <= m.history
    ensures !ok ==> Idle(c, job.dir, m.now)
    ensures ok ==>
              && old(m.now).rest.alive && m.now.rest.taken == Some(at.images)
              && Partly(m.now.files, job.dir, at.images, {}) && m.now.dirs == old(m.now.dirs)
              && Has(m.now.files, job.work + [DUMP_LOG_NAME], at.log)
  {
    var todo := at.images.Keys;
    forall p | job.dir < p ensures p !in m.now.files { assert p !in Tree(m.now.files, job.dir); }
    while todo != {}
      invariant m.Valid() && old(m.history) <= m.history
      invariant Idle(c, job.dir, m.now) && m.now.rest == old(m.now.rest) && m.now.dirs == old(m.now.dirs)
      invariant forall k | |old(m.history)| <= k < |m.history| ::
                  Idle(c, job.dir, m.history[k]) && m.history[k].rest == old(m.now).rest
      invariant Partly(m.now.files, job.dir, at.images, todo)
      decreases todo
    {
      var p :| p in todo;
      var written := WriteImage(m, c, job.dir, at.images, p, todo);
      if !written || !m.now.rest.alive {
        IdleStretch(c, job.dir, old(m.history), m.history);
        return false;
      }
      todo := todo - {p};
    }
    IdleStretch(c, job.dir, old(m.history), m.history);
    var takes: bool := *;
    if !m.now.rest.alive || !takes { return false; }
    ok := true;
    Take(m, c, job, at);
  }

  /** The world after the dump: the log is in the scratch directory and the container gone. */
  function Taken(d: Disk<World>, log: Path, at: Attempt): Disk<World> {
    d.(files := d.files[log := at.log],
    rest := d.rest.(alive := false, dumps := d.rest.dumps + 1, taken := Some(at.images)))
  }

  lemma TakenGood(c: Codec, job: Job, at: Attempt, d: Disk<World>)
    requires Inv(c, job.dir, d) && Idle(c, job.dir, d) && Partly(d.files, job.dir, at.images, {}) && Fits(job, at)
    ensures var b := Taken(d, job.work + [DUMP_LOG_NAME], at);
            Inv(c, job.dir, b) && Follows(c, job.dir, d, b) && Partly(b.files, job.dir, at.images, {})
  {
    var log := job.work + [DUMP_LOG_NAME];
    var b := Taken(d, log, at);
    OneBranch(job.dir, job.work, log);
    assert forall p | job.dir < p :: SameFile(d.files, b.files, p);
    assert SameFile(d.files, b.files, ManifestPath(job.dir));
  }

  /** On a store without faults a recorded failure has no committed artifact under it. */
  ghost predicate Honest(faulty: bool, c: Codec, dir: Path, files: map<Path, Bytes>, r: Ending) {
    !faulty && r.wrote == Some(Failed) ==> Committed(c, files, dir).None?
  }

  /** The last step of a dump. */
  method Take(m: Machine<World>, c: Codec, job: Job, at: Attempt)
    requires m.Valid() && Good(c, job.dir, m.history) && Idle(c, job.dir, m.now) && m.now.rest.alive
    requires Partly(m.now.files, job.dir, at.images, {}) && Fits(job, at)
    modifies m
    ensures m.Valid() && Good(c, job.dir, m.history) && old(m.history) <= m.history
    ensures m.now.rest.taken == Some(at.images) && Partly(m.now.files, job.dir, at.images, {})
    ensures m.now.dirs == old(m.now.dirs) && Has(m.now.files, job.work + [DUMP_LOG_NAME], at.log)
  {
    ghost var before, first := m.now, m.history;
    assert Inv(c, job.dir, first[|first| - 1]);
    TakenGood(c, job, at, before);
    m.Enter(Taken(m.now, job.work + [DUMP_LOG_NAME], at));
    assert m.history[|first| - 1] == before && m.history[|first|] == m.now;
    GoodMore(c, job.dir, first, m.history);
  }

  /** The container may exit by itself at any time. */
  method Perish(m: Machine<World>, c: Codec, dir: Path)
    requires m.Valid() && Good(c, dir, m.history)
    modifies m
    ensures m.Valid() && Good(c, dir, m.history) && old(m.history) <= m.history
    ensures m.now == old(m.now)
            || (old(m.now).rest.alive && m.now == old(m.now).(rest := old(m.now).rest.(alive := false)))
  {
    var exits: bool := *;
    if exits && m.now.rest.alive {
      m.Enter(m.now.(rest := m.now.rest.(alive := false)));
      assert m.history[|m.history| - 2] == old(m.now);
      GoodMore(c, dir, old(m.history), m.history);
    }
  }

  /** After the dump: the log beside the images, the publish, the bookkeeping. */
  method Finish(m: Machine<World>, c: Codec, job: Job, at: Attempt) returns (r: Ending)
    requires m.Valid() && !m.lies && Lawful(c) && Good(c, job.dir, m.history)
    requires m.now.rest.taken.Some? && Partly(m.now.files, job.dir, at.images, {}) && Fits(job, at)
    requires Flat(m.now, job.dir) && Has(m.now.files, job.work + [DUMP_LOG_NAME], at.log) && at.spec.Some?
    modifies m
    ensures m.Valid() && Good(c, job.dir, m.history) && old(m.history) <= m.history
    ensures Told(r, m.now) && (r.landed ==> r.wrote in {Some(Completed), Some(Failed)})
    ensures m.now.rest.taken == old(m.now.rest).taken
    ensures r.wrote == Some(Completed) ==> Produced(c, job, at, m.now.files, !m.faulty)
    ensures !m.faulty && Imaged(job, at) && r.landed ==> r.wrote == Some(Completed)
    ensures !m.faulty ==> Heard(r, m.now, |m.history| - |old(m.history)|)
    ensures Honest(m.faulty, c, job.dir, m.now.files, r)
  {
    var ok := PublishWithLog(m, c, job, at);
    if !ok {
      r := Conclude(m, c, job.dir, Some(Failed));
      return;
    }
    r := Complete(m, c, job, at);
  }

  /** The log beside the images, then the publish. */
  method PublishWithLog(m: Machine<World>, c: Codec, job: Job, at: Attempt) returns (ok: bool)
    requires m.Valid() && !m.lies && Lawful(c) && Good(c, job.dir, m.history)
    requires m.now.rest.taken.Some? && Partly(m.now.files, job.dir, at.images, {}) && Fits(job, at)
    requires Flat(m.now, job.dir) && Has(m.now.files, job.work + [DUMP_LOG_NAME], at.log) && at.spec.Some?
    modifies m
    ensures m.Valid() && Good(c, job.dir, m.history) && old(m.history) <= m.history
    ensures m.now.rest == old(m.now.rest)
    ensures ok ==> Produced(c, job, at, m.now.files, !m.faulty)
    ensures !m.faulty && !ok ==> Committed(c, m.now.files, job.dir).None?
    ensures !m.faulty && Imaged(job, at) ==> ok
  {
    var e := CopyLog(m, c, job, at);
    if !e.Nil? { return false; }
    var man := PublishDump(m, c, job, at);
    ok := man.Some?;
  }

  /** The bookkeeping over a published dump. */
  method Complete(m: Machine<World>, c: Codec, job: Job, at: Attempt) returns (r: Ending)
    requires m.Valid() && Good(c, job.dir, m.history) && Fits(job, at)
    requires Produced(c, job, at, m.now.files, !m.faulty)
    modifies m
    ensures m.Valid() && Good(c, job.dir, m.history) && old(m.history) <= m.history
    ensures Told(r, m.now) && r.wrote == (if r.landed then Some(Completed) else None)
    ensures m.now.rest.taken == old(m.now.rest).taken && Produced(c, job, at, m.now.files, !m.faulty)
    ensures !m.faulty ==> Heard(r, m.now, |m.history| - |old(m.history)|)
  {
    var ignored := ClearWork(m, c, job);
    ProducedAside(c, job, at, old(m.now), m.now, !m.faulty);
    r := Conclude(m, c, job.dir, Some(Completed));
  }

  /** copyInto: read the whole log, write it with os.WriteFile. */
  method CopyLog(m: Machine<World>, c: Codec, job: Job, at: Attempt) returns (e: Err)
    requires m.Valid() && Good(c, job.dir, m.history)
    requires m.now.rest.taken.Some? && Partly(m.now.files, job.dir, at.images, {}) && Fits(job, at)
    requires Flat(m.now, job.dir) && Has(m.now.files, job.work + [DUMP_LOG_NAME], at.log)
    modifies m
    ensures m.Valid() && Good(c, job.dir, m.history) && old(m.history) <= m.history
    ensures m.now.rest == old(m.now.rest)
    ensures ManifestPath(job.dir) !in m.now.files && PartPath(job.dir) !in m.now.files
    ensures e.Nil? ==> Logged(m.now.files, job.dir, at) && Flat(m.now, job.dir)
    ensures !m.faulty ==> e.Nil?
  {
    var log, copy := job.work + [DUMP_LOG_NAME], job.dir + [DUMP_LOG_NAME];
    NoMarkers(m.now.files, job.dir, at.images);
    var fails: bool := *;
    if (m.faulty && fails) || log !in m.now.files { return Fault; }
    assert ManifestPath(job.dir)[|job.dir|] == MANIFEST_NAME && PartPath(job.dir)[|job.dir|] == PART_NAME;
    assert copy[|job.dir|] == DUMP_LOG_NAME;
    LogOpen(m.now, job.dir, at);
    e := PutFile(m, copy, m.now.files[log], {copy});
    SettleStretch(c, job.dir, old(m.history), m.history, {copy});
    AlikeAt(old(m.now.files), m.now.files, {copy}, ManifestPath(job.dir));
    AlikeAt(old(m.now.files), m.now.files, {copy}, PartPath(job.dir));
    if e.Nil? { LogAdded(old(m.now.files), m.now.files, job.dir, at); }
  }

  /** Below dir there are the images and the log. */
  ghost predicate Logged(files: map<Path, Bytes>, dir: Path, at: Attempt) {
    && Intact(files, at.images) && Has(files, dir + [DUMP_LOG_NAME], at.log)
    && (forall p | p in files && dir < p :: p in at.images || p == dir + [DUMP_LOG_NAME])
  }

  lemma LogAdded(before: map<Path, Bytes>, after: map<Path, Bytes>, dir: Path, at: Attempt)
    requires Partly(before, dir, at.images, {}) && ImagesIn(dir, at.images)
    requires Wrote(before, after, dir + [DUMP_LOG_NAME], at.log)
    ensures Logged(after, dir, at)
  {
    var log := dir + [DUMP_LOG_NAME];
    assert |log| == |dir| + 1 && log !in at.images;
    assert dir < log && log !in before;
  }

  /** Where only images and files at the top lie below dir, no other place at the top is a
      directory. */
  lemma FlatOpen(d: Disk<World>, dir: Path, p: Path)
    requires Flat(d, dir) && dir < p && |p| == |dir| + 1 && p[|dir|] != CHECKPOINT_NAME
    requires forall q | q in d.files && dir < q :: ImageDir(dir) < q || |q| == |dir| + 1
    ensures !IsDir(d, p)
  {
    forall q | q in d.files && dir < q ensures !(p < q) {
      if ImageDir(dir) < q { assert q[|dir|] == ImageDir(dir)[|dir|]; }
    }
  }

  lemma LogOpen(d: Disk<World>, dir: Path, at: Attempt)
    requires Flat(d, dir) && Partly(d.files, dir, at.images, {}) && ImagesIn(dir, at.images)
    ensures !IsDir(d, dir + [DUMP_LOG_NAME])
  {
    var copy := dir + [DUMP_LOG_NAME];
    assert copy[|dir|] == DUMP_LOG_NAME && DUMP_LOG_NAME[0] == 'd' && CHECKPOINT_NAME[0] == 'c';
    FlatOpen(d, dir, copy);
  }

  lemma LoggedOpen(d: Disk<World>, job: Job, at: Attempt)
    requires Logged(d.files, job.dir, at) && Flat(d, job.dir) && Fits(job, at)
    ensures Open(d, job.dir)
  {
    var dir := job.dir;
    assert forall q | q in d.files && dir < q :: ImageDir(dir) < q || |q| == |dir| + 1;
    forall p | p in Metadata(dir) + Markers(dir) ensures !IsDir(d, p) {
      TopNames(dir, p);
      FlatOpen(d, dir, p);
    }
  }

  lemma TopNames(dir: Path, p: Path)
    requires p in Metadata(dir) + Markers(dir)
    ensures |p| == |dir| + 1 && dir < p && p[|dir|] != CHECKPOINT_NAME
  {
    var name := p[|dir|];
    assert name in {CONFIG_NAME, SPEC_NAME, SHM_DIFF_NAME, ROOTFS_DIFF_NAME, MANIFEST_NAME, PART_NAME};
    assert name[1] != 'h' || |name| != |CHECKPOINT_NAME|;
  }

  lemma LoggedImages(d: Disk<World>, job: Job, at: Attempt)
    requires Logged(d.files, job.dir, at) && Fits(job, at) && Imaged(job, at)
    ensures Publishable(d, job.dir)
  {
    var dir := job.dir;
    var log := dir + [DUMP_LOG_NAME];
    assert LastName(log) == DUMP_LOG_NAME && DUMP_LOG_NAME[|DUMP_LOG_NAME| - 4..][3] == 'g';
    assert DUMP_LOG_NAME[|DUMP_LOG_NAME| - 4..][1] == 'l' && ".img"[1] == 'i';
    assert HasPages(d.files, dir) by {
      var p :| p in at.images && dir < p && PagesName(LastName(p));
      assert p in d.files;
    }
    var p :| p in at.images;
    assert ImageDir(dir) < p && p in d.files;
  }

  /** At and below dir nothing has changed. */
  lemma ProducedAside(c: Codec, job: Job, at: Attempt, a: Disk<World>, b: Disk<World>, well: bool)
    requires Produced(c, job, at, a.files, well) && ImagesIn(job.dir, at.images)
    requires forall p | job.dir <= p :: SameFile(a.files, b.files, p)
    ensures Produced(c, job, at, b.files, well)
  {
    var dir := job.dir;
    assert SameFile(a.files, b.files, ManifestPath(dir)) && SameFile(a.files, b.files, dir + [DUMP_LOG_NAME]);
    assert SameFile(a.files, b.files, dir + [CONFIG_NAME]) && SameFile(a.files, b.files, dir + [SPEC_NAME]);
    assert SameFile(a.files, b.files, dir + [SHM_DIFF_NAME]) && SameFile(a.files, b.files, dir + [ROOTFS_DIFF_NAME]);
    forall p | p in at.images ensures Has(b.files, p, at.images[p]) { assert SameFile(a.files, b.files, p); }
    forall p | p in b.files && dir < p ensures p in at.images || p in Top(dir) { assert SameFile(a.files, b.files, p); }
    DigestedOver(a.files, b.files, dir, Committed(c, a.files, dir).value, job.digest);
    ExactAside(a.files, b.files, dir, Committed(c, a.files, dir).value);
  }

  lemma ExactAside(a: map<Path, Bytes>, b: map<Path, Bytes>, dir: Path, man: Manifest)
    requires Exact(a, dir, man) && forall p | dir < p :: SameFile(a, b, p)
    ensures Exact(b, dir, man)
  {
    forall i | 0 <= i < |man.files| ensures Lists(b, dir, man.files[i]) {
      assert Lists(a, dir, man.files[i]) && SameFile(a, b, At(dir, man.files[i].path));
    }
    forall p | p in Tree(b, dir) - {ManifestPath(dir)} ensures Covers(dir, man, p) {
      assert SameFile(a, b, p) && p in Tree(a, dir) - {ManifestPath(dir)};
    }
  }

  /** What the publish makes of a dump with its log. */
  lemma PublishProduces(c: Codec, job: Job, at: Attempt, a: Disk<World>, b: Disk<World>, well: bool)
    requires Logged(a.files, job.dir, at) && Fits(job, at) && at.spec.Some?
    requires Alike(a.files, b.files, Metadata(job.dir) + Markers(job.dir))
    requires Assembled(a.files, b.files, job.dir, at.meta, at.spec.value, at.shm, at.rootfs, well)
    requires Committed(c, b.files, job.dir).Some? && Committed(c, b.files, job.dir).value.quiesce == job.quiesce
    requires Exact(b.files, job.dir, Committed(c, b.files, job.dir).value)
    requires Digested(b.files, job.dir, Committed(c, b.files, job.dir).value, job.digest)
    ensures Produced(c, job, at, b.files, well)
  {
    var dir := job.dir;
    var touched := Metadata(dir) + Markers(dir);
    ImagesApart(dir, at.images, a.files, b.files, touched);
    forall p | p in touched ensures p !in a.files {
      TopNames(dir, p);
      LogNotTop(dir, p);
      assert p !in at.images;
    }
    LogBeside(dir);
    AlikeAt(a.files, b.files, touched, dir + [DUMP_LOG_NAME]);
    forall p | p in b.files && dir < p ensures p in at.images || p in Top(dir) {
      if p !in touched { AlikeAt(a.files, b.files, touched, p); }
    }
    assert dir + [CONFIG_NAME] in touched && dir + [SPEC_NAME] in touched;
    assert dir + [SHM_DIFF_NAME] in touched && dir + [ROOTFS_DIFF_NAME] in touched;
  }

  lemma LogNotTop(dir: Path, p: Path)
    requires p in Metadata(dir) + Markers(dir)
    ensures p != dir + [DUMP_LOG_NAME]
  {
    var name := p[|dir|];
    assert name in {CONFIG_NAME, SPEC_NAME, SHM_DIFF_NAME, ROOTFS_DIFF_NAME, MANIFEST_NAME, PART_NAME};
    assert (dir + [DUMP_LOG_NAME])[|dir|] == DUMP_LOG_NAME && name != DUMP_LOG_NAME;
  }

  lemma LogBeside(dir: Path)
    ensures dir + [DUMP_LOG_NAME] !in Metadata(dir) + Markers(dir)
  {
    if dir + [DUMP_LOG_NAME] in Metadata(dir) + Markers(dir) { LogNotTop(dir, dir + [DUMP_LOG_NAME]); }
  }

  lemma NoMarkers(files: map<Path, Bytes>, dir: Path, images: map<Path, Bytes>)
    requires Partly(files, dir, images, {}) && ImagesIn(dir, images)
    ensures ManifestPath(dir) !in files && PartPath(dir) !in files
  {
    assert |ManifestPath(dir)| == |dir| + 1 && |PartPath(dir)| == |dir| + 1;
  }

  method PublishDump(m: Machine<World>, c: Codec, job: Job, at: Attempt) returns (r: Option<Manifest>)
    requires m.Valid() && !m.lies && Lawful(c) && Good(c, job.dir, m.history)
    requires m.now.rest.taken.Some? && ManifestPath(job.dir) !in m.now.files && PartPath(job.dir) !in m.now.files
    requires Logged(m.now.files, job.dir, at) && Flat(m.now, job.dir) && Fits(job, at) && at.spec.Some?
    modifies m
    ensures m.Valid() && Good(c, job.dir, m.history) && old(m.history) <= m.history
    ensures m.now.rest == old(m.now.rest)
    ensures r.Some? ==> Committed(c, m.now.files, job.dir) == r && Produced(c, job, at, m.now.files, !m.faulty)
    ensures !m.faulty && r.None? ==> Committed(c, m.now.files, job.dir).None?
    ensures !m.faulty && Imaged(job, at) ==> r.Some?
  {
    assert Inv(c, job.dir, m.now);
    ghost var tree, mid, planned;
    r, tree, mid, planned := CommitDump(m, c, job, at);
    PublishStretch(c, job.dir, old(m.history), m.history, mid, tree, planned);
  }

  /** The publish itself, for a dump with its log. */
  method CommitDump(m: Machine<World>, c: Codec, job: Job, at: Attempt)
    returns (r: Option<Manifest>, ghost tree: map<Path, Bytes>, ghost mid: nat, ghost planned: Manifest)
    requires m.Valid() && !m.lies && Lawful(c) && TidyTree(m.now.files, job.dir)
    requires ManifestPath(job.dir) !in m.now.files && PartPath(job.dir) !in m.now.files
    requires Logged(m.now.files, job.dir, at) && Flat(m.now, job.dir) && Fits(job, at) && at.spec.Some?
    modifies m
    ensures m.Valid() && m.Only(Metadata(job.dir) + Markers(job.dir))
    ensures SafeFrom(c, m.history, |old(m.history)|, job.dir)
    ensures PublishRun(c, old(m.now.files), m.history, |old(m.history)|, job.dir, mid, tree, planned)
    ensures m.now.rest == old(m.now.rest)
    ensures r.Some? ==> Committed(c, m.now.files, job.dir) == r && Produced(c, job, at, m.now.files, !m.faulty)
    ensures !m.faulty && r.None? ==> Committed(c, m.now.files, job.dir).None?
    ensures !m.faulty && Imaged(job, at) ==> r.Some?
  {
    ghost var was := m.now;
    r, tree, mid, planned :=
      CommitDir(m, c, job.dir, at.meta, at.spec.value, job.quiesce, at.shm, at.rootfs, job.digest);
    CommitProduces(c, job, at, was, old(m.history), m.history, m.now, r, !m.faulty);
  }

  /** What the publish of a dump with its log comes to. */
  lemma CommitProduces(c: Codec, job: Job, at: Attempt, was: Disk<World>, first: seq<Disk<World>>,
                       history: seq<Disk<World>>, now: Disk<World>, r: Option<Manifest>, well: bool)
    requires Logged(was.files, job.dir, at) && Flat(was, job.dir) && Fits(job, at) && at.spec.Some?
    requires Steps(was, history, |first|, Metadata(job.dir) + Markers(job.dir)) && first <= history
    requires first != [] && first[|first| - 1] == was && history[|history| - 1] == now
    requires r.Some? ==>
               && Committed(c, now.files, job.dir) == r && r.value.quiesce == job.quiesce
               && Exact(now.files, job.dir, r.value) && Digested(now.files, job.dir, r.value, job.digest)
               && Assembled(was.files, now.files, job.dir, at.meta, at.spec.value, at.shm, at.rootfs,
                            well && Open(was, job.dir))
    requires well && Open(was, job.dir) && Publishable(was, job.dir) && at.spec.value != [] ==> r.Some?
    ensures now.rest == was.rest
    ensures r.Some? ==> Produced(c, job, at, now.files, well)
    ensures well && Imaged(job, at) ==> r.Some?
  {
    LoggedOpen(was, job, at);
    StepsReach(was, first, history, now, Metadata(job.dir) + Markers(job.dir));
    if Imaged(job, at) { LoggedImages(was, job, at); }
    if r.Some? { PublishProduces(c, job, at, was, now, well); }
  }

  // ----- one reconcile, and whole runs -----

  /** A reconcile that finds the artifact committed, or that may not touch it, changes
      nothing but the stored object. */
  ghost predicate StatusOnly(base: Disk<World>, history: seq<Disk<World>>, from: nat) {
    forall k | from <= k < |history| :: Untouched(base, history[k])
  }

  ghost predicate Untouched(a: Disk<World>, b: Disk<World>) {
    b.files == a.files && b.rest == a.rest.(stored := b.rest.stored)
  }

  /** fail, retry and complete on the way: one status write over untouched files. */
  method Conclude(m: Machine<World>, c: Codec, dir: Path, phase: Option<Phase>) returns (r: Ending)
    requires m.Valid() && Good(c, dir, m.history)
    requires phase == Some(Completed) ==> Committed(c, m.now.files, dir).Some?
    modifies m
    ensures m.Valid() && Good(c, dir, m.history) && old(m.history) <= m.history
    ensures Untouched(old(m.now), m.now) && StatusOnly(old(m.now), m.history, |old(m.history)|)
    ensures Told(r, m.now) && r.wrote == if r.landed then phase else None
    ensures !m.faulty ==> Heard(r, m.now, |m.history| - |old(m.history)|)
  {
    var landed, ok := Record(m, c, dir, phase);
    forall k | |old(m.history)| <= k < |m.history| ensures Untouched(old(m.now), m.history[k]) {
      assert OnlyObject(old(m.now), m.history[k]);
    }
    return Ending(ok, landed, if landed then phase else None);
  }

  lemma NoFileOnTheWay<X>(d: Disk<X>, dir: Path)
    requires TreeShaped(d) && ManifestPath(dir) in d.files
    ensures !FileOnTheWay(d.files, dir)
  {
    forall k | 0 <= k <= |dir| ensures dir[..k] !in d.files { assert dir[..k] < ManifestPath(dir); }
  }

  /** The node-local parent is made before the marker is looked for. */
  method MakeDir(m: Machine<World>, c: Codec, job: Job) returns (e: Err)
    requires m.Valid() && Good(c, job.dir, m.history)
    modifies m
    ensures m.Valid() && Good(c, job.dir, m.history) && old(m.history) <= m.history
    ensures Untouched(old(m.now), m.now) && StatusOnly(old(m.now), m.history, |old(m.history)|)
    ensures m.now.rest == old(m.now.rest)
    ensures !m.faulty && TreeShaped(old(m.now)) && ManifestPath(job.dir) in old(m.now).files ==> e.Nil?
    ensures !job.nodeLocal ==> e.Nil?
    ensures job.nodeLocal && FileOnTheWay(old(m.now).files, job.dir) ==> !e.Nil?
  {
    e := Nil;
    if job.nodeLocal {
      if TreeShaped(m.now) && ManifestPath(job.dir) in m.now.files { NoFileOnTheWay(m.now, job.dir); }
      e := m.MkdirAll(job.dir, {});
      assert m.history[|old(m.history)|] == m.now;
      AsideStretch(c, job.dir, old(m.history), m.history);
    }
  }

  /** checkpoint. Whatever fails, whoever else writes the object, every state it passes
      through keeps the invariant and follows the one before, and a nil return has recorded
      its outcome. Entered over a committed artifact it writes nothing but the status;
      otherwise Completed means that the artifact is what this dump produced. On a
      store without faults what a landed write says is what there is: Completed if and only
      if the artifact is committed, Failed only if it is not. */
  method Checkpoint(m: Machine<World>, c: Codec, job: Job, at: Attempt) returns (r: Ending)
    requires m.Valid() && !m.lies && Lawful(c) && Good(c, job.dir, m.history) && Fits(job, at)
    modifies m
    ensures m.Valid() && Good(c, job.dir, m.history) && old(m.history) <= m.history
    ensures Told(r, m.now)
    ensures r.wrote == Some(Completed) ==> Committed(c, m.now.files, job.dir).Some?
    ensures r.wrote == Some(Completed) && Committed(c, old(m.now.files), job.dir).None? ==>
              m.now.rest.taken == Some(at.images) && Produced(c, job, at, m.now.files, !m.faulty)
    ensures !m.faulty && m.now.rest.dumps > old(m.now.rest).dumps && Imaged(job, at) && r.landed ==>
              r.wrote == Some(Completed)
    ensures Committed(c, old(m.now.files), job.dir).Some? ==> StatusOnly(old(m.now), m.history, |old(m.history)|)
    ensures !m.faulty && job.acceptable && TreeShaped(old(m.now)) ==>
              && Honest(m.faulty, c, job.dir, m.now.files, r)
              && (r.landed ==> (r.wrote == Some(Completed) <==> Committed(c, m.now.files, job.dir).Some?))
    ensures !job.acceptable || (job.nodeLocal && FileOnTheWay(old(m.now).files, job.dir)) ==>
              m.now.files == old(m.now.files) && r.wrote == if r.landed then Some(Failed) else None
    ensures job.acceptable && !job.nodeLocal && !old(m.now.rest).alive ==>
              m.now.files == old(m.now.files) && r.wrote in {None, Some(Completed)}
    ensures !m.faulty ==> Heard(r, m.now, |m.history| - |old(m.history)|)
  {
    assert Inv(c, job.dir, m.now);
    if !job.acceptable {
      r := Conclude(m, c, job.dir, Some(Failed));
      return;
    }
    var e := MakeDir(m, c, job);
    ghost var made, first := m.now, m.history;
    assert Inv(c, job.dir, made);
    if !e.Nil? {
      r := Conclude(m, c, job.dir, Some(Failed));
      StatusMore(old(m.now), first, |old(m.history)|, m.history);
      return;
    }
    var marker := ReadManifestDir(m, c, job.dir);
    if marker.Read? {
      r := Conclude(m, c, job.dir, Some(Completed));
      StatusMore(old(m.now), first, |old(m.history)|, m.history);
      return;
    }
    var resolves: bool := *;
    if !m.now.rest.alive || !resolves {
      r := Conclude(m, c, job.dir, None);
      StatusMore(old(m.now), first, |old(m.history)|, m.history);
      return;
    }
    r := DumpAndPublish(m, c, job, at);
  }

  lemma StatusMore(base: Disk<World>, first: seq<Disk<World>>, from: nat, history: seq<Disk<World>>)
    requires first != [] && from <= |first| && first <= history
    requires StatusOnly(base, first, from) && Untouched(base, first[|first| - 1])
    requires StatusOnly(first[|first| - 1], history, |first|)
    ensures StatusOnly(base, history, from)
  {
    forall k | from <= k < |history| ensures Untouched(base, history[k]) {
      if k < |first| { assert history[k] == first[k]; } else { assert Untouched(first[|first| - 1], history[k]); }
    }
  }

  /** The part of checkpoint that is reached only with a live container. */
  method DumpAndPublish(m: Machine<World>, c: Codec, job: Job, at: Attempt) returns (r: Ending)
    requires m.Valid() && !m.lies && Lawful(c) && Good(c, job.dir, m.history) && Fits(job, at)
    requires Idle(c, job.dir, m.now)
    modifies m
    ensures m.Valid() && Good(c, job.dir, m.history) && old(m.history) <= m.history
    ensures Told(r, m.now)
    ensures r.wrote == Some(Completed) ==>
              m.now.rest.taken == Some(at.images) && Produced(c, job, at, m.now.files, !m.faulty)
    ensures !m.faulty && m.now.rest.dumps > old(m.now.rest).dumps && Imaged(job, at) && r.landed ==>
              r.wrote == Some(Completed)
    ensures r.landed ==> r.wrote in {Some(Completed), Some(Failed)}
    ensures !m.faulty ==> Heard(r, m.now, |m.history| - |old(m.history)|)
    ensures Honest(m.faulty, c, job.dir, m.now.files, r)
  {
    if at.spec.None? {
      r := Conclude(m, c, job.dir, Some(Failed));
      return;
    }
    var cleared, e := Prepare(m, c, job);
    if !cleared {
      r := Conclude(m, c, job.dir, Some(Failed));
      return;
    }
    if !e.Nil? { return Ending(false, false, None); }
    Perish(m, c, job.dir);
    var dumped := TakeDump(m, c, job, at);
    if !dumped {
      r := Conclude(m, c, job.dir, Some(Failed));
      return;
    }
    r := Finish(m, c, job, at);
  }

  /** Reconcile: only a snapshot still in Checkpointing is acted on. */
  method Reconcile(m: Machine<World>, c: Codec, job: Job, at: Attempt) returns (r: Ending)
    requires m.Valid() && !m.lies && Lawful(c) && Good(c, job.dir, m.history) && Fits(job, at)
    modifies m
    ensures m.Valid() && Good(c, job.dir, m.history) && old(m.history) <= m.history
    ensures r.wrote == Some(Completed) ==> Committed(c, m.now.files, job.dir).Some?
    ensures r.wrote == Some(Completed) && Committed(c, old(m.now.files), job.dir).None? ==>
              Produced(c, job, at, m.now.files, !m.faulty)
    ensures if old(m.now).rest.stored.Some? && old(m.now).rest.stored.value.phase == Checkpointing
            then m.faulty || Heard(r, m.now, |m.history| - |old(m.history)|)
            else r == Ending(true, false, None) && m.now == old(m.now)
  {
    if m.now.rest.stored.None? || m.now.rest.stored.value.phase != Checkpointing { return Ending(true, false, None); }
    r := Checkpoint(m, c, job, at);
  }

  /** Other writers of the status. */
  method Meddle(m: Machine<World>, c: Codec, dir: Path)
    requires m.Valid() && Good(c, dir, m.history)
    modifies m
    ensures m.Valid() && Good(c, dir, m.history) && old(m.history) <= m.history
  {
    ghost var first := m.history;
    Interfere(m);
    forall k | |first| <= k < |m.history| ensures Aside(dir, first[|first| - 1], m.history[k]) {
      assert OnlyObject(first[|first| - 1], m.history[k]);
    }
    AsideStretch(c, dir, first, m.history);
  }

  /** Any number of reconciles, each of which may be cut off after any of its steps, with
      other writers and the container's own exit in between. */
  method Run(m: Machine<World>, c: Codec, job: Job, attempts: seq<Attempt>)
    requires m.Valid() && !m.lies && Lawful(c) && Good(c, job.dir, m.history)
    requires forall i | 0 <= i < |attempts| :: Fits(job, attempts[i])
    modifies m
    ensures m.Valid() && Good(c, job.dir, m.history)
  {
    for i := 0 to |attempts|
      invariant m.Valid() && Good(c, job.dir, m.history)
    {
      Perish(m, c, job.dir);
      var before := |m.history|;
      Meddle(m, c, job.dir);
      var ending := Reconcile(m, c, job, attempts[i]);
      Crash(m, c, job.dir, before);
    }
  }

  /** The process may die, in any state since number before. */
  method Crash(m: Machine<World>, c: Codec, dir: Path, before: nat)
    requires m.Valid() && Good(c, dir, m.history) && 0 < before <= |m.history|
    modifies m
    ensures m.Valid() && Good(c, dir, m.history)
  {
    var dies: bool := *;
    if dies {
      var k :| before - 1 <= k < |m.history|;
      m.CrashAt(k);
    }
  }

  /** Dump conservation, between any two states of any run: at most one dump succeeded; its
      images are in place with the bytes it produced; an artifact once committed stays
      committed by the same manifest, over the same tree, and lists every image; and a status
      that says Completed has a committed artifact under it. */
  lemma DumpConservation(c: Codec, dir: Path, history: seq<Disk<World>>, i: nat, j: nat)
    requires Good(c, dir, history) && i <= j < |history|
    ensures history[j].rest.dumps <= 1
    ensures SaysCompleted(history[j].rest) ==> Committed(c, history[j].files, dir).Some?
    ensures history[i].rest.taken.Some? ==>
              history[j].rest.taken == history[i].rest.taken && Intact(history[j].files, history[i].rest.taken.value)
    ensures Committed(c, history[i].files, dir).Some? ==>
              && Committed(c, history[j].files, dir) == Committed(c, history[i].files, dir)
              && SameTree(history[i].files, history[j].files, dir)
              && history[i].rest.taken.Some? && history[j].rest.dumps == history[i].rest.dumps
              && CoversAll(dir, Committed(c, history[j].files, dir).value, history[i].rest.taken.value)
              && Agrees(history[j].files, dir, Committed(c, history[j].files, dir).value)
  {
    FollowsAll(c, dir, history, i, j);
    assert Inv(c, dir, history[i]) && Inv(c, dir, history[j]);
  }

  // ----- a failure recorded over a commit -----

  /** The dump is there and the temporary marker is written, but not renamed yet. */
  ghost predicate AboutToCommit(c: Codec, dir: Path, d: Disk<World>, man: Manifest) {
    && d.rest.taken.Some? && d.rest.stored.Some?
    && ManifestPath(dir) !in d.files && PartPath(dir) in d.files && d.files[PartPath(dir)] == c.encode(man)
    && !IsDir(d, ManifestPath(dir)) && Decode(c, c.encode(man)) == Some(man)
    && Agrees(d.files, dir, man) && ListsNoMarker(man) && CoversAll(dir, man, d.rest.taken.value)
  }

  function Renamed(d: Disk<World>, dir: Path): Disk<World>
    requires PartPath(dir) in d.files
  {
    d.(files := d.files[ManifestPath(dir) := d.files[PartPath(dir)]])
  }

  function MarkedFailed(d: Disk<World>): Disk<World>
    requires d.rest.stored.Some?
  {
    d.(rest := d.rest.(stored := Some(Object(d.rest.stored.value.version + 1, Failed))))
  }

  lemma RenamedCommits(c: Codec, dir: Path, d: Disk<World>, man: Manifest)
    requires Lawful(c) && Inv(c, dir, d) && AboutToCommit(c, dir, d, man)
    ensures var renamed := Renamed(d, dir);
            && Inv(c, dir, renamed) && Follows(c, dir, d, renamed) && Intact(renamed.files, d.rest.taken.value)
            && Committed(c, renamed.files, dir) == Some(man) && Agrees(renamed.files, dir, man)
  {
    var renamed := Renamed(d, dir);
    MarkerNames(dir);
    assert Alike(d.files, renamed.files, Markers(dir));
    AgreesElsewhere(d.files, renamed.files, dir, man);
    ImagesApart(dir, d.rest.taken.value, d.files, renamed.files, Markers(dir));
    TidyTop(dir, d.files, renamed.files, Markers(dir));
  }

  lemma GoodNext(c: Codec, dir: Path, history: seq<Disk<World>>, next: Disk<World>)
    requires Good(c, dir, history) && Inv(c, dir, next) && Follows(c, dir, history[|history| - 1], next)
    ensures Good(c, dir, history + [next])
  {
    var more := history + [next];
    assert more[|history|] == next && more[|history| - 1] == history[|history| - 1];
    GoodMore(c, dir, history, more);
  }

  /** With one fault the run goes on like this: the rename copies, the removal of the
      temporary fails, the publish reports that as its error, and Failed is recorded over an
      artifact that is committed and complete. Nothing of the invariant is lost by it. */
  lemma FailedOverCommitted(c: Codec, dir: Path, history: seq<Disk<World>>, man: Manifest)
    requires Lawful(c) && Good(c, dir, history) && AboutToCommit(c, dir, history[|history| - 1], man)
    ensures var last := history[|history| - 1];
            var renamed := Renamed(last, dir);
            var failed := MarkedFailed(renamed);
            && RenamePublishStep(true, last, PartPath(dir), ManifestPath(dir), renamed, Fault)
            && Rewritten(renamed, failed, Some(Failed))
            && Good(c, dir, history + [renamed] + [failed])
            && Committed(c, failed.files, dir) == Some(man) && Agrees(failed.files, dir, man)
            && Intact(failed.files, last.rest.taken.value)
  {
    var last := history[|history| - 1];
    var renamed := Renamed(last, dir);
    assert Inv(c, dir, last) && ManifestPath(dir)[|dir|] != PartPath(dir)[|dir|];
    FaultAfterCopy(last, PartPath(dir), ManifestPath(dir));
    RenamedCommits(c, dir, last, man);
    GoodNext(c, dir, history, renamed);
    AsideKeeps(c, dir, renamed, MarkedFailed(renamed));
    GoodNext(c, dir, history + [renamed], MarkedFailed(renamed));
  }

  /** The manifest of a dump of one image. */
  function OneImage(dir: Path, image: Path, data: Bytes): Manifest
    requires dir < image
  {
    ManifestOf([Entry(dir, image, data, false)], "", None)
  }

  /** A dump of one image, with the temporary marker of its manifest written. */
  function CutOff(c: Codec, dir: Path, image: Path, data: Bytes): Disk<World>
    requires dir < image
  {
    Disk(map[image := data, PartPath(dir) := c.encode(OneImage(dir, image, data))], {},
         World(false, 1, Some(map[image := data]), Some(Object(0, Checkpointing))))
  }

  lemma OneImageReads(c: Codec, dir: Path, image: Path, data: Bytes)
    requires Lawful(c) && dir < image && ProperPath(image[|dir|..]) && |image| > |dir| + 1
    ensures var man := OneImage(dir, image, data);
            && Decode(c, c.encode(man)) == Some(man) && ListsNoMarker(man)
            && |man.files| == 1 && At(dir, man.files[0].path) == image && man.files[0].size == |data|
  {
    var f := Entry(dir, image, data, false);
    RelAt(dir, image);
    MarkerNames(dir);
    ManifestRoundTrip(c, [f], "", None);
    assert OneImage(dir, image, data).files == [f] by { assert SortByPath([f][1..]) == []; }
  }

  lemma CutOffInv(c: Codec, dir: Path, image: Path, data: Bytes)
    requires ImageDir(dir) < image && ProperPath(image[|dir|..])
    ensures dir < image && Inv(c, dir, CutOff(c, dir, image, data))
    ensures ManifestPath(dir) !in CutOff(c, dir, image, data).files
  {
    assert |image| > |dir| + 1 && |ManifestPath(dir)| == |dir| + 1 && dir < image;
    assert PartPath(dir)[|dir|..] == [PART_NAME] && ManifestPath(dir)[|dir|] != PartPath(dir)[|dir|];
  }

  /** Such a state is one the run above can start from. */
  lemma CutOffStarts(c: Codec, dir: Path, image: Path, data: Bytes)
    requires Lawful(c) && ImageDir(dir) < image && ProperPath(image[|dir|..])
    ensures dir < image && Good(c, dir, [CutOff(c, dir, image, data)])
    ensures AboutToCommit(c, dir, CutOff(c, dir, image, data), OneImage(dir, image, data))
  {
    CutOffInv(c, dir, image, data);
    assert |image| > |dir| + 1;
    var d, man := CutOff(c, dir, image, data), OneImage(dir, image, data);
    OneImageReads(c, dir, image, data);
    assert PartPath(dir) != image && Agrees(d.files, dir, man) && Covers(dir, man, image);
    assert !IsDir(d, ManifestPath(dir)) by { NotBelowMarker(dir, image); }
  }

  lemma NotBelowMarker(dir: Path, image: Path)
    requires ImageDir(dir) < image
    ensures !(ManifestPath(dir) < image) && !(ManifestPath(dir) < PartPath(dir))
  {
    assert image[|dir|] == ImageDir(dir)[|dir|] == CHECKPOINT_NAME && ManifestPath(dir)[|dir|] == MANIFEST_NAME;
  }
}
