/** internal/agent/upload_controller.go: the kubelet's tar moves to the artifact store. Through
    any crash, retry and lost status write its bytes are somewhere. */
module Upload {
  import opened Paths
  import opened Storage
  import opened Manifests
  import opened Commit
  import opened Expand
  import opened Snapshots

  /** What the snapshot fixes: acceptable says that the URI parses and lies under the node's
      root; dst is the tar's own path or the artifact directory. */
  datatype Job = Job(src: Path, dst: Path, isDir: bool, acceptable: bool, nodeLocal: bool, quiesce: Option<QuiesceInfo>)

  function PartOf(dst: Path): Path
    requires dst != []
  {
    dst[..|dst| - 1] + [dst[|dst| - 1] + ".part"]
  }

  lemma PartApart(dst: Path)
    requires dst != []
    ensures PartOf(dst) != dst
  {
    assert |PartOf(dst)[|dst| - 1]| == |dst[|dst| - 1]| + 5;
  }

  /** The source is none of the paths an upload writes. */
  predicate Separate(job: Job) {
    && job.dst != []
    && (if job.isDir then !(job.dst <= job.src) else job.src != job.dst && job.src != PartOf(job.dst))
  }

  /** The artifact is committed with the contents of the tar: as the tar's own bytes, or as
      the files of the archive in it, one by one, under the contract the snapshot records. */
  ghost predicate Landed(c: Codec, job: Job, tar: Bytes, files: map<Path, Bytes>) {
    if job.isDir then
      && Committed(c, files, job.dst).Some?
      && Agrees(files, job.dst, Committed(c, files, job.dst).value)
      && AllThere(c.untar(tar).entries, job.dst, files, Committed(c, files, job.dst).value)
      && Committed(c, files, job.dst).value.quiesce == job.quiesce
    else Has(files, job.dst, tar)
  }

  /** Conservation: the tar still exists, or the artifact is committed with its contents. */
  ghost predicate Kept(c: Codec, job: Job, tar: Bytes, files: map<Path, Bytes>) {
    Has(files, job.src, tar) || Landed(c, job, tar, files)
  }

  ghost predicate KeptFrom(c: Codec, job: Job, tar: Bytes, history: seq<Disk<World>>, from: nat) {
    forall k | from <= k < |history| :: Kept(c, job, tar, history[k].files)
  }

  lemma KeptBySource(c: Codec, job: Job, tar: Bytes, base: Disk<World>, history: seq<Disk<World>>, from: nat,
                     touched: set<Path>)
    requires Steps(base, history, from, touched) && job.src !in touched && Has(base.files, job.src, tar)
    ensures KeptFrom(c, job, tar, history, from)
    ensures forall k | from <= k < |history| :: Has(history[k].files, job.src, tar)
  {
    forall k | from <= k < |history| ensures Has(history[k].files, job.src, tar) {
      AlikeAt(base.files, history[k].files, touched, job.src);
    }
  }

  /** Once landed, an artifact does not depend on the tar. */
  lemma LandedWithout(c: Codec, job: Job, tar: Bytes, a: map<Path, Bytes>, b: map<Path, Bytes>)
    requires Separate(job) && Alike(a, b, {job.src}) && Landed(c, job, tar, a)
    ensures Landed(c, job, tar, b)
  {
    if job.isDir {
      AlikeAt(a, b, {job.src}, ManifestPath(job.dst));
      var man, es := Committed(c, a, job.dst).value, c.untar(tar).entries;
      forall i | 0 <= i < |man.files| ensures FileOfSize(b, At(job.dst, man.files[i].path), man.files[i].size) {
        assert FileOfSize(a, At(job.dst, man.files[i].path), man.files[i].size);
        BelowDir(job.dst, man.files[i].path);
        AlikeAt(a, b, {job.src}, At(job.dst, man.files[i].path));
      }
      forall i | 0 <= i < |es| && IsFile(es[i]) ensures Has(b, At(job.dst, Clean(es[i].name)), es[i].data) {
        BelowDir(job.dst, Clean(es[i].name));
        AlikeAt(a, b, {job.src}, At(job.dst, Clean(es[i].name)));
      }
    } else {
      AlikeAt(a, b, {job.src}, job.dst);
    }
  }

  /** An expansion of a harmless tar lands it. */
  lemma ExpansionLands(c: Codec, job: Job, before: map<Path, Bytes>, after: map<Path, Bytes>, extra: seq<Member>,
                       man: Manifest)
    requires Lawful(c) && job.isDir && job.src in before && Harmless(c.untar(before[job.src]).entries)
    requires Expansion(c, before, after, PlanOf(c, before, job.src, job.dst), job.dst, job.src, job.quiesce, extra, man)
    ensures Landed(c, job, before[job.src], after)
  {
    ExpansionCommits(c, before, after, PlanOf(c, before, job.src, job.dst), job.dst, job.src, job.quiesce, extra, man);
  }

  /** The shared memory the agent captured is in the artifact under its own name, and listed;
      and where none was captured none is listed. */
  ghost predicate ShmLanded(c: Codec, job: Job, shm: Option<Bytes>, before: map<Path, Bytes>, files: map<Path, Bytes>) {
    job.isDir ==>
      && Committed(c, files, job.dst).Some?
      && (shm.Some? <==> exists f :: f in Committed(c, files, job.dst).value.files && f.path == "shm-diff.tar")
      && (shm.Some? ==> Recorded(before, files, job.dst + ["shm-diff.tar"], shm.value))
  }

  lemma ShmListed(es: seq<TarEntry>, man: Manifest, captured: bool)
    requires Harmless(es) && ListsArchive(es, man, captured)
    ensures captured <==> exists f :: f in man.files && f.path == SHM_DIFF_NAME
  {
    if f :| f in man.files && f.path == SHM_DIFF_NAME {
      var k :| 0 <= k < |man.files| && man.files[k] == f;
    }
  }

  /** A normal return of the expansion has landed the tar, with what was captured. */
  lemma ShmLands(c: Codec, job: Job, shm: Option<Bytes>, before: map<Path, Bytes>, after: map<Path, Bytes>,
                 extra: seq<Member>, man: Manifest)
    requires Lawful(c) && job.isDir && job.src in before && Harmless(c.untar(before[job.src]).entries)
    requires Expansion(c, before, after, PlanOf(c, before, job.src, job.dst), job.dst, job.src, job.quiesce, extra, man)
    requires ListsArchive(EntriesOf(c, before, job.src), man, shm.Some?)
    requires shm.Some? ==> Recorded(before, after, job.dst + [SHM_DIFF_NAME], shm.value)
    ensures Landed(c, job, before[job.src], after) && ShmLanded(c, job, shm, before, after)
  {
    var plan := PlanOf(c, before, job.src, job.dst);
    ExpansionLands(c, job, before, after, extra, man);
    ExpansionCommits(c, before, after, plan, job.dst, job.src, job.quiesce, extra, man);
    ShmListed(c.untar(before[job.src]).entries, man, shm.Some?);
  }

  lemma ShmLandedWithout(c: Codec, job: Job, shm: Option<Bytes>, before: map<Path, Bytes>, a: map<Path, Bytes>,
                         b: map<Path, Bytes>)
    requires Separate(job) && Alike(a, b, {job.src}) && ShmLanded(c, job, shm, before, a)
    ensures ShmLanded(c, job, shm, before, b)
  {
    if job.isDir {
      TopBelow(job.dst);
      AlikeAt(a, b, {job.src}, ManifestPath(job.dst));
      AlikeAt(a, b, {job.src}, job.dst + [SHM_DIFF_NAME]);
    }
  }

  /** Everything an expansion touches lies at or below the artifact directory. */
  lemma ExpandedBelow(c: Codec, files: map<Path, Bytes>, tarPath: Path, dir: Path)
    ensures forall p | p in Expanded(dir, PlanOf(c, files, tarPath, dir)) :: dir <= p
  {
    var plan := PlanOf(c, files, tarPath, dir);
    PlanPlaces(c, files, tarPath, dir);
    PlacesBelow(dir, Members(plan));
    TopBelow(dir);
  }

  lemma TopBelow(dir: Path)
    ensures dir <= dir + [SHM_DIFF_NAME] && dir <= ManifestPath(dir) && dir <= PartPath(dir)
  {
  }

  lemma SourceApart(c: Codec, job: Job, files: map<Path, Bytes>)
    requires Separate(job) && job.isDir
    ensures job.src !in Expanded(job.dst, PlanOf(c, files, job.src, job.dst)) && job.src != ManifestPath(job.dst)
  {
    ExpandedBelow(c, files, job.src, job.dst);
    TopBelow(job.dst);
  }

  lemma PlacesBelow(dir: Path, ms: seq<Member>)
    requires Named(dir, ms)
    ensures forall p | p in Places(ms) :: dir <= p
  {
    forall i | 0 <= i < |ms| ensures dir <= ms[i].at {
      BelowDir(dir, ms[i].path);
    }
  }

  lemma BelowDir(dir: Path, rel: string)
    ensures dir <= At(dir, rel)
  {
  }

  /** The tar and its temporary can be written. */
  ghost predicate TarRoom<X>(d: Disk<X>, dst: Path)
    requires dst != []
  {
    Writable(d, dst) && !IsDir(d, PartOf(dst))
  }

  /** The temporary lies in the same directory, neither above nor below its target. */
  lemma PartBeside(dst: Path)
    requires dst != []
    ensures PartOf(dst) != [] && PartOf(dst)[..|PartOf(dst)| - 1] == dst[..|dst| - 1]
    ensures !(PartOf(dst) < dst) && !(dst < PartOf(dst))
  {
  }

  /** Nothing keeps the artifact from being written: room for the tar, or for the files of an
      archive that can be unpacked. */
  ghost predicate Transferable(c: Codec, job: Job, tar: Bytes, d: Disk<World>) {
    if job.isDir then Unpackable(c.untar(tar)) && HasRoom(d, job.dst, c.untar(tar).entries)
    else job.dst != [] && TarRoom(d, job.dst)
  }

  /** The directory a node-local artifact needs. */
  function Parent(job: Job): Path
    requires job.dst != []
  {
    if job.isDir then job.dst else job.dst[..|job.dst| - 1]
  }

  /** The node-local parent changes nothing of that. */
  lemma ParentKeepsRoom(c: Codec, job: Job, tar: Bytes, a: Disk<World>, b: Disk<World>)
    requires Transferable(c, job, tar, a) && b.files == a.files && job.dst != []
    requires forall q | q in b.dirs && q !in a.dirs :: q <= Parent(job)
    ensures Transferable(c, job, tar, b)
  {
    if job.isDir {
      var es := c.untar(tar).entries;
      RoomMade(a, b, Spots(job.dst, es), Folders(job.dst, es), job.dst);
    } else {
      VacantAbove(a, b, job.dst);
      PartBeside(job.dst);
      VacantAbove(a, b, PartOf(job.dst));
    }
  }

  /** copyAtomic: on success the destination is the source, byte for byte, no temporary is
      left and nothing else has changed; on the way it is the old one or a prefix. */
  method CopyAtomic<X>(m: Machine<X>, src: Path, dst: Path) returns (sum: Digest, n: nat, e: Err)
    requires m.Valid() && !m.lies && dst != [] && src != dst && src != PartOf(dst)
    modifies m
    ensures m.Valid() && m.Only({PartOf(dst), dst})
    ensures src in old(m.now.files) ==>
              OldOrPart(old(m.now.files), m.history, |old(m.history)|, dst, old(m.now.files)[src])
    ensures e.Nil? ==>
              src in old(m.now.files) && m.now.files == old(m.now.files)[dst := old(m.now.files)[src]] - {PartOf(dst)}
    ensures e.Nil? ==> sum == DigestOf(old(m.now.files)[src]) && n == |old(m.now.files)[src]|
    ensures !m.faulty && src in old(m.now.files) && TarRoom(old(m.now), dst) ==> e.Nil?
  {
    sum, n := NoDigest, 0;
    PartApart(dst);
    e := m.MkdirAll(dst[..|dst| - 1], {PartOf(dst), dst});
    if !e.Nil? { return; }
    VacantAbove(old(m.now), m.now, dst);
    PartBeside(dst);
    VacantAbove(old(m.now), m.now, PartOf(dst));
    var opens: bool := *;
    if src !in m.now.files || (m.faulty && !opens) { return NoDigest, 0, Fault; }
    var data := m.now.files[src];
    e := PublishFile(m, PartOf(dst), dst, data, true);
    assert {PartOf(dst), dst} == {dst, PartOf(dst)};
    sum, n := DigestOf(data), |data|;
  }

  /** What every state of every run keeps: the bytes are somewhere, a directory artifact is
      complete whenever its marker decodes, and a status that says Completed is right. */
  ghost predicate Inv(c: Codec, job: Job, tar: Bytes, d: Disk<World>) {
    && Kept(c, job, tar, d.files)
    && (SaysCompleted(d.rest) ==> Landed(c, job, tar, d.files))
    && (job.src in d.files ==> d.files[job.src] == tar)
    && (job.isDir ==> CrashSafe(c, d.files, job.dst))
  }

  ghost predicate InvFrom(c: Codec, job: Job, tar: Bytes, history: seq<Disk<World>>, from: nat) {
    forall k | from <= k < |history| :: Inv(c, job, tar, history[k])
  }

  lemma InvMore(c: Codec, job: Job, tar: Bytes, first: seq<Disk<World>>, history: seq<Disk<World>>)
    requires InvFrom(c, job, tar, first, 0) && first <= history && InvFrom(c, job, tar, history, |first|)
    ensures InvFrom(c, job, tar, history, 0)
  {
    forall k | 0 <= k < |history| ensures Inv(c, job, tar, history[k]) {
      if k < |first| { assert history[k] == first[k]; }
    }
  }

  /** A status update changes no file; wrote is the phase it stored, if it landed. */
  method Record(m: Machine<World>, c: Codec, job: Job, cur: Object, phase: Phase, ghost tar: Bytes)
    returns (wrote: Option<Phase>)
    requires m.Valid() && InvFrom(c, job, tar, m.history, 0) && m.now.rest.stored == Some(cur)
    requires phase == Completed ==> Landed(c, job, tar, m.now.files)
    modifies m
    ensures m.Valid() && InvFrom(c, job, tar, m.history, 0) && old(m.history) <= m.history
    ensures m.now.files == old(m.now.files) && FilesKept(old(m.now), m.history, |old(m.history)|)
    ensures wrote.Some? ==> wrote == Some(phase) && m.now.rest.stored == Some(Object(cur.version + 1, phase))
    ensures wrote.None? && !m.faulty ==> m.now.rest.stored != Some(cur)
  {
    assert Inv(c, job, tar, m.history[|m.history| - 1]);
    var landed := UpdateStatus(m, cur, Some(phase));
    forall k | |old(m.history)| <= k < |m.history|
      ensures Inv(c, job, tar, m.history[k]) && m.history[k].files == old(m.now).files
    {
      assert OnlyObject(old(m.now), m.history[k]);
    }
    InvMore(c, job, tar, old(m.history), m.history);
    return if landed then Some(phase) else None;
  }

  /** No file changes. */
  ghost predicate FilesKept(base: Disk<World>, history: seq<Disk<World>>, from: nat) {
    forall k | from <= k < |history| :: history[k].files == base.files
  }

  method MakeParent(m: Machine<World>, c: Codec, job: Job, ghost tar: Bytes) returns (e: Err)
    requires m.Valid() && InvFrom(c, job, tar, m.history, 0) && job.dst != []
    modifies m
    ensures m.Valid() && InvFrom(c, job, tar, m.history, 0) && old(m.history) <= m.history
    ensures m.now.files == old(m.now.files) && m.now.rest == old(m.now.rest)
    ensures FilesKept(old(m.now), m.history, |old(m.history)|)
    ensures !job.nodeLocal ==> e.Nil?
    ensures job.nodeLocal && FileOnTheWay(old(m.now).files, Parent(job)) ==> !e.Nil?
    ensures Transferable(c, job, tar, old(m.now)) ==> Transferable(c, job, tar, m.now) && (!m.faulty ==> e.Nil?)
  {
    e := Nil;
    ghost var before := m.now;
    if job.nodeLocal {
      assert Inv(c, job, tar, m.history[|m.history| - 1]);
      if Transferable(c, job, tar, before) && job.isDir { assert job.dst in Folders(job.dst, c.untar(tar).entries); }
      e := m.MkdirAll(Parent(job), {});
      if Transferable(c, job, tar, before) { ParentKeepsRoom(c, job, tar, before, m.now); }
      InvMore(c, job, tar, old(m.history), m.history);
    }
  }

  /** The publish of either kind, from a source that is there: the source stays in every
      state, the destination is safe in every state, and success has landed the tar. */
  method Transfer(m: Machine<World>, c: Codec, job: Job, shm: Option<Bytes>, ghost tar: Bytes) returns (ok: bool)
    requires m.Valid() && !m.lies && Lawful(c) && Separate(job) && Inv(c, job, tar, m.now)
             && Has(m.now.files, job.src, tar)
    requires !SaysCompleted(m.now.rest)
    requires job.isDir ==> Harmless(c.untar(tar).entries)
    modifies m
    ensures m.Valid() && old(m.history) <= m.history && m.now.rest == old(m.now.rest)
    ensures InvFrom(c, job, tar, m.history, |old(m.history)|) && Inv(c, job, tar, m.now)
            && Has(m.now.files, job.src, tar)
    ensures ok ==> Landed(c, job, tar, m.now.files) && ShmLanded(c, job, shm, old(m.now.files), m.now.files)
    ensures !m.faulty && Transferable(c, job, tar, old(m.now)) ==> ok
  {
    if job.isDir {
      ok := TransferDir(m, c, job, shm, tar);
    } else {
      ok := TransferTar(m, c, job, tar);
    }
  }

  method TransferTar(m: Machine<World>, c: Codec, job: Job, ghost tar: Bytes) returns (ok: bool)
    requires m.Valid() && !m.lies && Separate(job) && !job.isDir && Inv(c, job, tar, m.now)
             && Has(m.now.files, job.src, tar)
    requires !SaysCompleted(m.now.rest)
    modifies m
    ensures m.Valid() && old(m.history) <= m.history && m.now.rest == old(m.now.rest)
    ensures InvFrom(c, job, tar, m.history, |old(m.history)|) && Inv(c, job, tar, m.now)
            && Has(m.now.files, job.src, tar)
    ensures ok ==> Landed(c, job, tar, m.now.files)
    ensures !m.faulty && Transferable(c, job, tar, old(m.now)) ==> ok
  {
    var sum, n, e := CopyAtomic(m, job.src, job.dst);
    KeptBySource(c, job, tar, old(m.now), m.history, |old(m.history)|, {PartOf(job.dst), job.dst});
    PartApart(job.dst);
    ok := e.Nil?;
  }

  /** Every state of an expansion keeps the source, and is safe to read. */
  lemma DirKeeps(c: Codec, job: Job, tar: Bytes, start: Disk<World>, first: seq<Disk<World>>,
                 history: seq<Disk<World>>, now: Disk<World>, touched: set<Path>)
    requires job.isDir && Inv(c, job, tar, start) && Has(start.files, job.src, tar) && !SaysCompleted(start.rest)
    requires first != [] && first[|first| - 1] == start && first <= history && history[|history| - 1] == now
    requires Steps(start, history, |first|, touched) && job.src !in touched
    requires SafeFrom(c, history, |first|, job.dst)
    ensures InvFrom(c, job, tar, history, |first|) && Inv(c, job, tar, now) && Has(now.files, job.src, tar)
    ensures now.rest == start.rest
  {
    KeptBySource(c, job, tar, start, history, |first|, touched);
    forall k | |first| <= k < |history| ensures Inv(c, job, tar, history[k]) {
      assert Frame(start, history[k], touched);
      assert Has(history[k].files, job.src, tar) && CrashSafe(c, history[k].files, job.dst);
    }
    if |history| == |first| { assert first == history; } else { assert Frame(start, now, touched); }
  }

  method TransferDir(m: Machine<World>, c: Codec, job: Job, shm: Option<Bytes>, ghost tar: Bytes) returns (ok: bool)
    requires m.Valid() && !m.lies && Lawful(c) && Separate(job) && job.isDir && Inv(c, job, tar, m.now)
             && Has(m.now.files, job.src, tar)
    requires !SaysCompleted(m.now.rest) && Harmless(c.untar(tar).entries)
    modifies m
    ensures m.Valid() && old(m.history) <= m.history && m.now.rest == old(m.now.rest)
    ensures InvFrom(c, job, tar, m.history, |old(m.history)|) && Inv(c, job, tar, m.now)
            && Has(m.now.files, job.src, tar)
    ensures ok ==> Landed(c, job, tar, m.now.files) && ShmLanded(c, job, shm, old(m.now.files), m.now.files)
    ensures !m.faulty && Transferable(c, job, tar, old(m.now)) ==> ok
  {
    ghost var plan, start := PlanOf(c, m.now.files, job.src, job.dst), m.now;
    SourceApart(c, job, m.now.files);
    var r, extra := ExpandTarToDir(m, c, job.src, job.dst, job.quiesce, shm, plan);
    DirKeeps(c, job, tar, start, old(m.history), m.history, m.now, Expanded(job.dst, plan));
    if r.Some? {
      ShmLands(c, job, shm, old(m.now.files), m.now.files, extra, r.value);
    }
    ok := r.Some?;
  }

  /** The landed tar may go; that it cannot be removed is only logged. */
  method DropSource(m: Machine<World>, c: Codec, job: Job, ghost tar: Bytes)
    requires m.Valid() && InvFrom(c, job, tar, m.history, 0) && Separate(job)
    requires Landed(c, job, tar, m.now.files)
    modifies m
    ensures m.Valid() && InvFrom(c, job, tar, m.history, 0) && old(m.history) <= m.history
    ensures Landed(c, job, tar, m.now.files)
            && m.now.rest == old(m.now.rest) && Alike(old(m.now.files), m.now.files, {job.src})
    ensures !m.faulty && !m.lies ==> job.src !in m.now.files
  {
    var ignored := m.Remove(job.src, {job.src});
    assert m.history[|old(m.history)|] == m.now;
    assert Frame(old(m.now), m.now, {job.src});
    LandedWithout(c, job, tar, old(m.now.files), m.now.files);
    InvMore(c, job, tar, old(m.history), m.history);
  }

  /** upload. The source is looked for before anything is un-committed and removed only
      after the commit. Without a source nothing but the status is written, and it says
      Failed; Completed is written only over a landed artifact; a failed transfer is left to
      be tried again, with its source still there. Where nothing fails and the artifact can be
      written, Completed is written, unless somebody else has written the status meanwhile. */
  method Upload(m: Machine<World>, c: Codec, job: Job, cur: Object, shm: Option<Bytes>, ghost tar: Bytes)
    returns (wrote: Option<Phase>)
    requires m.Valid() && !m.lies && Lawful(c) && Separate(job) && InvFrom(c, job, tar, m.history, 0)
    requires m.now.rest.stored == Some(cur) && cur.phase == Uploading
    requires job.isDir ==> Harmless(c.untar(tar).entries)
    modifies m
    ensures m.Valid() && InvFrom(c, job, tar, m.history, 0) && old(m.history) <= m.history
    ensures wrote in {None, Some(Uploading), Some(Completed), Some(Failed)}
    ensures wrote == Some(Completed) ==>
              Landed(c, job, tar, m.now.files) && ShmLanded(c, job, shm, old(m.now.files), m.now.files)
    ensures wrote == Some(Completed) && !m.faulty ==> job.src !in m.now.files
    ensures wrote == Some(Uploading) ==> job.src in m.now.files
    ensures job.src !in old(m.now.files) ==>
              FilesKept(old(m.now), m.history, |old(m.history)|) && wrote in {None, Some(Failed)}
    ensures !job.acceptable || (job.nodeLocal && FileOnTheWay(old(m.now).files, Parent(job))) ==>
              FilesKept(old(m.now), m.history, |old(m.history)|) && wrote in {None, Some(Failed)}
    ensures !m.faulty && wrote.None? ==> m.now.rest.stored != Some(cur)
    ensures job.acceptable && job.src in old(m.now.files)
            && (!job.nodeLocal || (!m.faulty && Transferable(c, job, tar, old(m.now)))) ==>
              wrote != Some(Failed)
    ensures !m.faulty && job.acceptable && job.src in old(m.now.files) && Transferable(c, job, tar, old(m.now)) ==>
              wrote in {None, Some(Completed)} && job.src !in m.now.files && Landed(c, job, tar, m.now.files)
  {
    assert Inv(c, job, tar, m.history[|m.history| - 1]);
    if !job.acceptable {
      wrote := Record(m, c, job, cur, Failed, tar);
      return;
    }
    var e := MakeParent(m, c, job, tar);
    ghost var first := m.history;
    if !e.Nil? {
      wrote := Record(m, c, job, cur, Failed, tar);
      return;
    }
    var stats: bool := *;
    if m.faulty && !stats { return None; }
    assert Inv(c, job, tar, m.history[|m.history| - 1]);
    if job.src !in m.now.files {
      wrote := Record(m, c, job, cur, Failed, tar);
      return;
    }
    var ok := Transfer(m, c, job, shm, tar);
    InvMore(c, job, tar, first, m.history);
    if !ok {
      wrote := Record(m, c, job, cur, cur.phase, tar);
      return;
    }
    ghost var landed := m.now;
    DropSource(m, c, job, tar);
    ShmLandedWithout(c, job, shm, old(m.now.files), landed.files, m.now.files);
    wrote := Record(m, c, job, cur, Completed, tar);
  }

  /** Reconcile: claim a checkpointed snapshot, upload a claimed one, leave others alone. */
  method Reconcile(m: Machine<World>, c: Codec, job: Job, shm: Option<Bytes>, ghost tar: Bytes)
    returns (wrote: Option<Phase>)
    requires m.Valid() && !m.lies && Lawful(c) && Separate(job) && InvFrom(c, job, tar, m.history, 0)
    requires job.isDir ==> Harmless(c.untar(tar).entries)
    modifies m
    ensures m.Valid() && InvFrom(c, job, tar, m.history, 0) && old(m.history) <= m.history
    ensures wrote == Some(Completed) ==>
              Landed(c, job, tar, m.now.files) && ShmLanded(c, job, shm, old(m.now.files), m.now.files)
    ensures wrote.Some? ==>
              old(m.now).rest.stored.Some? && old(m.now).rest.stored.value.phase in {Checkpointed, Uploading}
    ensures wrote.Some? && old(m.now).rest.stored.value.phase == Checkpointed ==>
              wrote == Some(Uploading) && FilesKept(old(m.now), m.history, |old(m.history)|)
    ensures !m.faulty && wrote.None? ==>
              if old(m.now).rest.stored.Some? && old(m.now).rest.stored.value.phase in {Checkpointed, Uploading}
              then m.now.rest.stored != old(m.now).rest.stored else m.now == old(m.now)
    ensures !m.faulty && job.acceptable && job.src in old(m.now.files) && Transferable(c, job, tar, old(m.now))
            && old(m.now).rest.stored.Some? && old(m.now).rest.stored.value.phase == Uploading ==>
              wrote in {None, Some(Completed)} && job.src !in m.now.files && Landed(c, job, tar, m.now.files)
  {
    if m.now.rest.stored.None? { return None; }
    var cur := m.now.rest.stored.value;
    match cur.phase {
      case Checkpointed => wrote := Record(m, c, job, cur, Uploading, tar);
      case Uploading => wrote := Upload(m, c, job, cur, shm, tar);
      case _ => wrote := None;
    }
  }

  /** Upload conservation: any number of reconciles, cut off anywhere, raced by any other
      writer. In every state of the run the tar's bytes are in the tar or in a committed
      artifact. */
  method Run(m: Machine<World>, c: Codec, job: Job, captures: seq<Option<Bytes>>, ghost tar: Bytes)
    requires m.Valid() && !m.lies && Lawful(c) && Separate(job) && InvFrom(c, job, tar, m.history, 0)
    requires job.isDir ==> Harmless(c.untar(tar).entries)
    modifies m
    ensures m.Valid() && InvFrom(c, job, tar, m.history, 0)
  {
    for i := 0 to |captures|
      invariant m.Valid() && InvFrom(c, job, tar, m.history, 0)
    {
      var before := |m.history|;
      ghost var start, first := m.now, m.history;
      assert Inv(c, job, tar, first[|first| - 1]);
      Interfere(m);
      forall k | |first| <= k < |m.history| ensures Inv(c, job, tar, m.history[k]) {
        assert OnlyObject(start, m.history[k]);
      }
      InvMore(c, job, tar, first, m.history);
      var wrote := Reconcile(m, c, job, captures[i], tar);
      var dies: bool := *;
      if dies {
        var k :| before - 1 <= k < |m.history|;
        m.CrashAt(k);
      }
    }
  }
}
