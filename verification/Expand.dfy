/** ExpandTarToDir (internal/artifact/expand.go) with the upload agent's shared-memory
    contribution (internal/agent/upload_controller.go). */
module Expand {
  import opened Paths
  import opened Storage
  import opened Manifests
  import opened Commit

  // ----- what an archive says, entry by entry -----

  /** An entry for the artifact directory itself is passed over, whatever its type. */
  predicate Passed(e: TarEntry) { Clean(e.name) in {".", "/"} }

  predicate IsFile(e: TarEntry) { e.kind.Regular? && !Passed(e) }

  predicate IsFolder(e: TarEntry) { e.kind.Directory? && !Passed(e) }

  /** The manifest entry a file of the archive is to have. */
  function FileEntry(e: TarEntry): ManifestFile { ManifestFile(Clean(e.name), |e.data|, DigestOf(e.data)) }

  /** Files and directories only, under names that may be listed. */
  predicate Sensible(es: seq<TarEntry>) {
    forall i | 0 <= i < |es| && !Passed(es[i]) :: ValidRelPath(Clean(es[i].name)) && !es[i].kind.Unsupported?
  }

  function FileCount(es: seq<TarEntry>): nat {
    if es == [] then 0 else FileCount(es[..|es| - 1]) + if IsFile(es[|es| - 1]) then 1 else 0
  }

  /** Entry i is a file, and no later file has its name. */
  predicate LastFile(es: seq<TarEntry>, i: nat)
    requires i < |es|
  {
    IsFile(es[i]) && forall j | i < j < |es| && IsFile(es[j]) :: Clean(es[j].name) != Clean(es[i].name)
  }

  /** Entry i is a directory, and no file has its name. */
  predicate OnlyFolder(es: seq<TarEntry>, i: nat)
    requires i < |es|
  {
    IsFolder(es[i]) && forall j | 0 <= j < |es| && IsFile(es[j]) :: Clean(es[j].name) != Clean(es[i].name)
  }

  /** The names something else is written to after the archive. */
  predicate Displaced(name: string, captured: bool) {
    name in {MANIFEST_NAME, PART_NAME} || (captured && name == SHM_DIFF_NAME)
  }

  ghost predicate Has(files: map<Path, Bytes>, p: Path, data: Bytes) {
    p in files && files[p] == data
  }

  /** The manifest lists every file of the archive, each with its own size and digest, and
      nothing else but the contribution. */
  ghost predicate ListsArchive(es: seq<TarEntry>, man: Manifest, captured: bool) {
    && |man.files| == FileCount(es) + (if captured then 1 else 0)
    && (forall i | 0 <= i < |es| && IsFile(es[i]) :: FileEntry(es[i]) in man.files)
    && (captured ==> exists f :: f in man.files && f.path == SHM_DIFF_NAME)
    && (forall k | 0 <= k < |man.files| ::
          FromArchive(es, man.files[k]) || (captured && man.files[k].path == SHM_DIFF_NAME))
  }

  ghost predicate FromArchive(es: seq<TarEntry>, f: ManifestFile) {
    exists i :: 0 <= i < |es| && IsFile(es[i]) && f == FileEntry(es[i])
  }

  /** Every file of the archive lies at its name with its own bytes, the last of those that
      share one. */
  ghost predicate HoldsArchive(es: seq<TarEntry>, dir: Path, files: map<Path, Bytes>, captured: bool) {
    forall i | 0 <= i < |es| && LastFile(es, i) && !Displaced(Clean(es[i].name), captured) ::
      Has(files, At(dir, Clean(es[i].name)), es[i].data)
  }

  /** And every directory of the archive is there. */
  ghost predicate HoldsFolders<X>(es: seq<TarEntry>, dir: Path, d: Disk<X>) {
    forall i | 0 <= i < |es| && OnlyFolder(es, i) && !Displaced(Clean(es[i].name), true) ::
      At(dir, Clean(es[i].name)) in d.dirs
  }

  /** The files of the archive have distinct names, none of them written to by anything else. */
  predicate Harmless(es: seq<TarEntry>) {
    && (forall i | 0 <= i < |es| && IsFile(es[i]) :: !Displaced(Clean(es[i].name), true))
    && (forall i, j | 0 <= i < j < |es| && IsFile(es[i]) && IsFile(es[j]) :: Clean(es[i].name) != Clean(es[j].name))
  }

  /** An archive that can be unpacked: whole, not too long, sensible, with a file in it. */
  ghost predicate Unpackable(a: Archive) {
    a.complete && |a.entries| <= MAX_TAR_ENTRIES && Sensible(a.entries) && FileCount(a.entries) > 0
  }

  /** Where its files go, with the contribution and the marker, and its directories. */
  function Spots(dir: Path, es: seq<TarEntry>): set<Path> {
    (set i | 0 <= i < |es| && IsFile(es[i]) :: At(dir, Clean(es[i].name))) + {dir + [SHM_DIFF_NAME]} + Markers(dir)
  }

  function Folders(dir: Path, es: seq<TarEntry>): set<Path> {
    (set i | 0 <= i < |es| && IsFolder(es[i]) :: At(dir, Clean(es[i].name))) + {dir}
  }

  /** Nothing is in the way of it, on the store or in itself. */
  ghost predicate HasRoom<X>(d: Disk<X>, dir: Path, es: seq<TarEntry>) {
    Room(d, Spots(dir, es), Folders(dir, es))
  }

  /** No file of the archive, nor the contribution or the marker, is to be where one of its
      directories is, or above one of its files. */
  ghost predicate Nests(dir: Path, es: seq<TarEntry>) {
    && (forall p, q | p in Spots(dir, es) && q in Spots(dir, es) :: !(p < q))
    && (forall p, x | p in Spots(dir, es) && x in Folders(dir, es) :: !(p <= x))
  }

  /** A destination with nothing in it, and no file on the way to it, has room for any
      archive that fits together. */
  lemma EmptyHasRoom<X>(d: Disk<X>, dir: Path, es: seq<TarEntry>)
    requires Below(d, dir) == {} && !FileOnTheWay(d.files, dir) && Nests(dir, es)
    ensures HasRoom(d, dir, es)
  {
    forall p | p in Spots(dir, es) + Folders(dir, es) ensures dir <= p { SpotBelow(dir, es, p); }
    forall p | p in Spots(dir, es) ensures Writable(d, p) {
      assert dir in Folders(dir, es) && dir != p;
      EmptyOpen(d, dir, p);
      EmptyRoad(d, dir, p[..|p| - 1]);
    }
    forall x | x in Folders(dir, es) ensures !FileOnTheWay(d.files, x) { EmptyRoad(d, dir, x); }
  }

  lemma SpotBelow(dir: Path, es: seq<TarEntry>, p: Path)
    requires p in Spots(dir, es) + Folders(dir, es)
    ensures dir <= p
  {
  }

  lemma EmptyOpen<X>(d: Disk<X>, dir: Path, p: Path)
    requires Below(d, dir) == {} && dir < p
    ensures !IsDir(d, p)
  {
    IsDirIff(d, p);
    forall q | q in Below(d, p) + {p} ensures dir < q { PrefixChain(dir, p, q); }
    assert Below(d, p) <= Below(d, dir);
    assert p in d.dirs ==> p in Below(d, dir);
  }

  lemma EmptyRoad<X>(d: Disk<X>, dir: Path, p: Path)
    requires Below(d, dir) == {} && !FileOnTheWay(d.files, dir) && dir <= p
    ensures !FileOnTheWay(d.files, p)
  {
    forall k | 0 <= k <= |p| ensures p[..k] !in d.files {
      if k <= |dir| { assert p[..k] == dir[..k]; } else { assert dir < p[..k] && p[..k] !in Below(d, dir); }
    }
  }

  // ----- the same of the plan made from it -----

  lemma RoomForPlan<X>(d: Disk<X>, dir: Path, es: seq<TarEntry>)
    requires HasRoom(d, dir, es)
    ensures var plan := Plan(dir, es);
            && Room(d, Expanded(dir, plan), Folders(dir, es)) && dir in Folders(dir, es)
            && FoldersIn(plan, Folders(dir, es))
  {
    var plan := Plan(dir, es);
    forall p | p in Places(Members(plan)) ensures p in Spots(dir, es) {
      var k :| 0 <= k < |Members(plan)| && Members(plan)[k].at == p;
      var i := MemberFile(dir, es, k);
    }
    assert Expanded(dir, plan) <= Spots(dir, es);
    forall i | 0 <= i < |plan| && plan[i].MakeDir? ensures plan[i].at in Folders(dir, es) {
      assert plan[i] == Classify(dir, es[i]);
    }
  }

  lemma UnpackableWelcome(c: Codec, files: map<Path, Bytes>, tarPath: Path, dir: Path)
    ensures tarPath in files && Unpackable(c.untar(files[tarPath])) ==>
              Welcome(c, files, tarPath, PlanOf(c, files, tarPath, dir))
  {
    if tarPath in files && Unpackable(c.untar(files[tarPath])) {
      var es := c.untar(files[tarPath]).entries;
      AcceptableSensible(dir, es);
      MembersCounted(dir, es);
    }
  }

  /** The members and the contributed file can be listed without conflict. */
  predicate Apart(plan: seq<Action>) {
    var ms := Members(plan);
    Distinct(ms) && Unmarked(ms) && forall i | 0 <= i < |ms| :: ms[i].path != SHM_DIFF_NAME
  }

  /** A file of the archive is a member, after those of the entries before it. */
  lemma FileMember(dir: Path, es: seq<TarEntry>, i: nat)
    requires i < |es| && IsFile(es[i]) && Acceptable(Plan(dir, es))
    ensures var plan := Plan(dir, es);
            var k := |Members(plan[..i])|;
            && k < |Members(plan)| && Members(plan)[k] == MemberAt(dir, Clean(es[i].name), es[i].data)
            && forall j | i < j <= |es| :: k < |Members(plan[..j])|
  {
    var plan := Plan(dir, es);
    assert plan[i] == Classify(dir, es[i]) && !plan[i].Refuse?;
    MembersStep(plan, i, {});
    forall j | i < j <= |es| ensures Members(plan[..i + 1]) <= Members(plan[..j]) { MembersGrow(plan, i + 1, j); }
    assert plan[..|es|] == plan;
  }

  lemma MembersGrow(plan: seq<Action>, i: nat, j: nat)
    requires i <= j <= |plan|
    ensures Members(plan[..i]) <= Members(plan[..j])
  {
    MembersPrefix(plan[..j], i);
    assert plan[..j][..i] == plan[..i];
  }

  /** A member is a file of the archive. */
  lemma MemberFile(dir: Path, es: seq<TarEntry>, k: nat) returns (i: nat)
    requires k < |Members(Plan(dir, es))|
    ensures i < |es| && IsFile(es[i]) && |Members(Plan(dir, es)[..i])| == k
    ensures Members(Plan(dir, es))[k] == MemberAt(dir, Clean(es[i].name), es[i].data)
  {
    i := MemberFrom(Plan(dir, es), k);
    assert Plan(dir, es)[i] == Classify(dir, es[i]);
  }

  lemma {:induction false} MembersCounted(dir: Path, es: seq<TarEntry>)
    requires Acceptable(Plan(dir, es))
    ensures |Members(Plan(dir, es))| == FileCount(es)
  {
    if es != [] {
      var n := |es| - 1;
      assert Plan(dir, es)[..n] == Plan(dir, es[..n]);
      assert Plan(dir, es)[n] == Classify(dir, es[n]);
      MembersCounted(dir, es[..n]);
    }
  }

  lemma AcceptableSensible(dir: Path, es: seq<TarEntry>)
    ensures Acceptable(Plan(dir, es)) <==> Sensible(es)
  {
    forall i | 0 <= i < |es| ensures Plan(dir, es)[i] == Classify(dir, es[i]) {}
    if Acceptable(Plan(dir, es)) {
      forall i | 0 <= i < |es| && !Passed(es[i]) ensures ValidRelPath(Clean(es[i].name)) && !es[i].kind.Unsupported? {
        assert !Plan(dir, es)[i].Refuse?;
      }
    }
  }

  /** A harmless archive makes members that are apart. */
  lemma HarmlessApart(dir: Path, es: seq<TarEntry>)
    requires Harmless(es)
    ensures Apart(Plan(dir, es))
  {
    var ms := Members(Plan(dir, es));
    forall k | 0 <= k < |ms| ensures !Displaced(ms[k].path, true) { var i := MemberFile(dir, es, k); }
    forall k, l | 0 <= k < l < |ms| ensures ms[k].path != ms[l].path {
      var i := MemberFile(dir, es, k);
      var j := MemberFile(dir, es, l);
      assert Clean(es[i].name) == ms[k].path && Clean(es[j].name) == ms[l].path && i != j;
    }
  }

  /** What lies at a file's name once members and contribution are written is the last of the
      files so named. */
  lemma LastHeld(dir: Path, es: seq<TarEntry>, base: map<Path, Bytes>, extra: seq<Member>, i: nat)
    requires Acceptable(Plan(dir, es)) && IsShm(dir, extra) && i < |es| && LastFile(es, i)
    requires extra == [] || Clean(es[i].name) != SHM_DIFF_NAME
    ensures Has(Apply(base, Members(Plan(dir, es)) + extra), At(dir, Clean(es[i].name)), es[i].data)
  {
    var plan := Plan(dir, es);
    var ms := Members(plan) + extra;
    MembersNamed(dir, es);
    NamedWithShm(dir, Members(plan), extra);
    NamedOnePlace(dir, ms);
    FileMember(dir, es, i);
    var k := |Members(plan[..i])|;
    assert ms[k] == Members(plan)[k];
    var last := ApplyLast(base, ms, k);
    assert forall l | |Members(plan)| <= l < |ms| :: ms[l].path == SHM_DIFF_NAME;
    var j := MemberFile(dir, es, last);
    assert ms[last] == Members(plan)[last];
    if j < i { FileMember(dir, es, j); }
  }

  lemma ArchiveHeld(dir: Path, es: seq<TarEntry>, base: map<Path, Bytes>, extra: seq<Member>, marker: Bytes)
    requires Acceptable(Plan(dir, es)) && IsShm(dir, extra)
    ensures HoldsArchive(es, dir, Publish(Apply(base, Members(Plan(dir, es)) + extra), dir, marker), extra != [])
  {
    var applied := Apply(base, Members(Plan(dir, es)) + extra);
    AcceptableSensible(dir, es);
    forall i | 0 <= i < |es| && LastFile(es, i) && !Displaced(Clean(es[i].name), extra != [])
      ensures Has(Publish(applied, dir, marker), At(dir, Clean(es[i].name)), es[i].data)
    {
      LastHeld(dir, es, base, extra, i);
      PublishedPlace(dir, applied, Clean(es[i].name), marker);
    }
  }

  lemma ArchiveListed(dir: Path, es: seq<TarEntry>, extra: seq<Member>, man: Manifest)
    requires Acceptable(Plan(dir, es)) && IsShm(dir, extra)
    requires multiset(man.files) == multiset(Listed(Members(Plan(dir, es)) + extra))
    ensures ListsArchive(es, man, extra != [])
  {
    var ms := Members(Plan(dir, es)) + extra;
    var n := |ms| - |extra|;
    MembersCounted(dir, es);
    assert |man.files| == |multiset(man.files)| == |Listed(ms)|;
    forall i | 0 <= i < |es| && IsFile(es[i]) ensures FileEntry(es[i]) in man.files {
      FileMember(dir, es, i);
      ListedIn(ms, man, |Members(Plan(dir, es)[..i])|);
    }
    if extra != [] {
      ListedIn(ms, man, n);
      assert ms[n] == extra[0];
    }
    forall k | 0 <= k < |man.files|
      ensures FromArchive(es, man.files[k]) || (extra != [] && man.files[k].path == SHM_DIFF_NAME)
    {
      var j := DescribedBy(ms, man, k);
      if j < n { var i := MemberFile(dir, es, j); } else { assert ms[j] == extra[j - n]; }
    }
  }

  lemma ListedIn(ms: seq<Member>, man: Manifest, k: nat)
    requires multiset(man.files) == multiset(Listed(ms)) && k < |ms|
    ensures Describe(ms[k]) in man.files
  {
    ListedAt(ms, k);
    assert Listed(ms)[k] in multiset(man.files);
  }

  // ----- the steps -----

  /** What a capture may leave at p: nothing new, or as much of its archive as was written;
      the whole archive if it is known to have gone well. */
  ghost predicate Captured(before: map<Path, Bytes>, after: map<Path, Bytes>, p: Path, diff: Option<Bytes>,
                           well: bool)
  {
    && (SameFile(before, after, p) || (diff.Some? && p in after && (p !in before ==> after[p] <= diff.value)))
    && (well && diff.Some? ==> Recorded(before, after, p, diff.value))
  }

  /** Of all files only the one at p may differ. */
  predicate OnlyAt(before: map<Path, Bytes>, after: map<Path, Bytes>, p: Path) {
    after == before || (p in after && after == before[p := after[p]])
  }

  /** The CaptureShm step: nothing to capture, or the archive written over whatever is
      there, without unlinking it first. */
  method CaptureInto<X>(m: Machine<X>, p: Path, diff: Option<Bytes>, ghost touched: set<Path>)
    returns (captured: bool, e: Err)
    requires m.Valid() && p in touched
    modifies m
    ensures m.Valid() && m.Only(touched) && m.now.dirs == old(m.now.dirs)
    ensures OnlyAt(old(m.now.files), m.now.files, p)
    ensures Captured(old(m.now.files), m.now.files, p, diff, captured)
    ensures captured ==> e.Nil? && diff.Some?
    ensures !captured && e.Nil? ==> diff.None? && m.now == old(m.now)
    ensures !m.faulty && !IsDir(old(m.now), p) ==> e.Nil?
  {
    captured := false;
    var fails: bool := *;
    if m.faulty && fails { return false, Fault; }
    if diff.None? { return false, Nil; }
    e := m.Create(p, touched);
    if !e.Nil? { return; }
    var n;
    n, e := StreamInto(m, p, diff.value, touched);
    OverwrittenPart(diff.value, n);
    if p in old(m.now.files) { TailSurvivesIff(old(m.now.files)[p], diff.value); }
    if !e.Nil? { return; }
    e := m.Flush();
    captured := e.Nil?;
  }

  lemma OverwrittenPart(data: Bytes, n: nat)
    requires n <= |data|
    ensures Overwrite([], 0, data[..n]) == data[..n] && data[..|data|] == data
  {
  }

  /** DescribeFile: stat and hash what is on disk. */
  method DescribeFile<X>(m: Machine<X>, dir: Path, rel: string) returns (r: Option<ManifestFile>)
    ensures r.Some? ==> ValidRelPath(rel) && At(dir, rel) in m.now.files
    ensures r.Some? ==> r.value == Describe(MemberAt(dir, rel, m.now.files[At(dir, rel)]))
    ensures !m.faulty && ValidRelPath(rel) && At(dir, rel) in m.now.files ==> r.Some?
  {
    var fails: bool := *;
    if (m.faulty && fails) || !ValidRelPath(rel) || At(dir, rel) !in m.now.files {
      return None;
    }
    r := Some(Describe(MemberAt(dir, rel, m.now.files[At(dir, rel)])));
  }

  predicate IsShm(dir: Path, extra: seq<Member>) {
    |extra| <= 1 && forall i | 0 <= i < |extra| ::
      extra[i].path == SHM_DIFF_NAME && extra[i].at == dir + [SHM_DIFF_NAME]
  }

  /** captureShm of the upload agent: at most one extra member, described as it is on disk. */
  method CaptureShmMember<X>(m: Machine<X>, dir: Path, shm: Option<Bytes>, ghost touched: set<Path>)
    returns (e: Err, extra: seq<Member>)
    requires m.Valid() && dir + [SHM_DIFF_NAME] in touched
    modifies m
    ensures m.Valid() && m.Only(touched)
    ensures IsShm(dir, extra) && m.now.dirs == old(m.now.dirs)
    ensures OnlyAt(old(m.now.files), m.now.files, dir + [SHM_DIFF_NAME])
    ensures e.Nil? ==> m.now.files == Apply(old(m.now.files), extra) && (extra != [] <==> shm.Some?)
    ensures e.Nil? && shm.Some? ==> Recorded(old(m.now.files), m.now.files, dir + [SHM_DIFF_NAME], shm.value)
    ensures !m.faulty && !IsDir(old(m.now), dir + [SHM_DIFF_NAME]) ==> e.Nil?
  {
    extra := [];
    var p, captured := dir + [SHM_DIFF_NAME], false;
    captured, e := CaptureInto(m, p, shm, touched);
    if !e.Nil? || !captured { return; }
    AtSegment(dir, SHM_DIFF_NAME);
    var entry := DescribeFile(m, dir, SHM_DIFF_NAME);
    if entry.None? { return Fault, []; }
    extra := [Member(SHM_DIFF_NAME, p, m.now.files[p])];
    ApplyOne(old(m.now.files), m.now.files, extra[0]);
  }

  lemma ApplyOne(before: map<Path, Bytes>, after: map<Path, Bytes>, x: Member)
    requires OnlyAt(before, after, x.at) && Has(after, x.at, x.data)
    ensures after == Apply(before, [x])
  {
    assert [x][..0] == [];
  }

  /** Every member lies among the targets, none of them at the root. */
  predicate Placed(ms: seq<Member>, targets: set<Path>) {
    forall i | 0 <= i < |ms| :: ms[i].at != [] && ms[i].at in targets
  }

  /** One member: the file is written and gets its manifest entry. */
  method ExpandMember<X>(m: Machine<X>, x: Member, files: seq<ManifestFile>, ghost base: map<Path, Bytes>,
                         ghost ms: seq<Member>,
                         ghost targets: set<Path>)
    returns (e: Err, all: seq<ManifestFile>)
    requires m.Valid() && !m.lies && x.at != [] && x.at in targets
    requires files == Listed(ms) && m.now.files == Apply(base, ms)
    modifies m
    ensures m.Valid() && m.Only(targets)
    ensures e.Nil? ==> all == Listed(ms + [x]) && m.now.files == Apply(base, ms + [x])
    ensures e.Nil? ==> OneMore(old(m.now), m.now, x.at)
    ensures !m.faulty && Writable(old(m.now), x.at) ==> e.Nil?
  {
    all := files;
    var sum, n;
    sum, n, e := WriteFile(m, x.at, x.data, targets);
    if !e.Nil? { return; }
    WriteStep(base, ms, x);
    all := files + [ManifestFile(x.path, n, sum)];
  }

  /** One archive entry: passed over, made a directory, written, or a reason to give up. */
  method ExpandEntry<X>(m: Machine<X>, plan: seq<Action>, i: nat, files: seq<ManifestFile>,
                        ghost base: map<Path, Bytes>,
                        ghost ms: seq<Member>, ghost targets: set<Path>, ghost places: set<Path>,
                        ghost folders: set<Path>)
    returns (e: Err, all: seq<ManifestFile>, ghost next: seq<Member>)
    requires m.Valid() && !m.lies && i < |plan| && Placed(Members(plan), targets)
    requires ms == Members(plan[..i]) && Progressed(base, ms, m.now.files, files)
    modifies m
    ensures m.Valid() && m.Only(targets)
    ensures e.Nil? ==> !plan[i].Refuse? && next == Members(plan[..i + 1]) && Progressed(base, next, m.now.files, all)
    ensures e.Nil? && plan[i].MakeDir? ==> plan[i].at in m.now.dirs
    ensures Room(old(m.now), places, folders) && targets <= places && FoldersIn(plan, folders) ==>
              (e.Nil? ==> Room(m.now, places, folders)) && (!m.faulty && !plan[i].Refuse? ==> e.Nil?)
  {
    ghost var before, roomy := m.now, Room(m.now, places, folders) && targets <= places && FoldersIn(plan, folders);
    e, all, next := Nil, files, ms;
    MembersStep(plan, i, targets);
    match plan[i] {
      case Skip =>
      case Refuse => e := Fault;
      case MakeDir(at) =>
        e := m.MkdirAll(at, targets);
        if roomy && e.Nil? { RoomMade(before, m.now, places, folders, at); }
      case Write(x) =>
        e, all := ExpandMember(m, x, files, base, ms, targets);
        next := ms + [x];
        if roomy && e.Nil? { RoomWritten(before, m.now, places, folders, x.at); }
    }
  }

  /** Every directory the plan makes is among the folders. */
  ghost predicate FoldersIn(plan: seq<Action>, folders: set<Path>) {
    forall i | 0 <= i < |plan| && plan[i].MakeDir? :: plan[i].at in folders
  }

  /** The directories of the first n entries are there, but for those in the way of a file. */
  ghost predicate Foldered<X>(plan: seq<Action>, n: nat, targets: set<Path>, d: Disk<X>)
    requires n <= |plan|
  {
    forall j | 0 <= j < n && plan[j].MakeDir? && plan[j].at !in targets :: plan[j].at in d.dirs
  }

  lemma FolderedKept<X>(plan: seq<Action>, n: nat, targets: set<Path>, more: set<Path>, a: Disk<X>, b: Disk<X>)
    requires n <= |plan| && Foldered(plan, n, targets, a) && Frame(a, b, more) && targets <= more
    ensures Foldered(plan, n, more, b)
  {
    forall j | 0 <= j < n && plan[j].MakeDir? && plan[j].at !in more ensures plan[j].at in b.dirs {
      assert plan[j].at in a.dirs - more;
    }
  }

  /** The members ms have been written over base, and described. */
  ghost predicate Progressed(base: map<Path, Bytes>, ms: seq<Member>, now: map<Path, Bytes>, files: seq<ManifestFile>) {
    files == Listed(ms) && now == Apply(base, ms)
  }

  /** The member loop of ExpandTarToDir over a tree that has just been un-committed. */
  method ExpandMembers<X>(m: Machine<X>, plan: seq<Action>, complete: bool, ghost targets: set<Path>,
                          ghost places: set<Path>, ghost folders: set<Path>)
    returns (e: Err, files: seq<ManifestFile>)
    requires m.Valid() && !m.lies && Placed(Members(plan), targets)
    modifies m
    ensures m.Valid() && m.Only(targets)
    ensures e.Nil? ==> Acceptable(plan) && complete && |plan| <= MAX_TAR_ENTRIES
    ensures e.Nil? ==> files == Listed(Members(plan)) && Foldered(plan, |plan|, targets, m.now)
    ensures e.Nil? ==> m.now.files == Apply(old(m.now.files), Members(plan))
    ensures Room(old(m.now), places, folders) && targets <= places && FoldersIn(plan, folders) ==>
              && (e.Nil? ==> Room(m.now, places, folders))
              && (!m.faulty && Acceptable(plan) && complete && |plan| <= MAX_TAR_ENTRIES ==> e.Nil?)
  {
    files, e := [], Nil;
    var i := 0;
    ghost var base := m.now.files;
    ghost var ms := [];
    while i < |plan|
      invariant 0 <= i <= |plan| && i <= MAX_TAR_ENTRIES && e.Nil?
      invariant m.Valid() && m.Only(targets)
      invariant forall j | 0 <= j < i :: !plan[j].Refuse?
      invariant ms == Members(plan[..i]) && Progressed(base, ms, m.now.files, files)
      invariant Foldered(plan, i, targets, m.now)
      invariant Room(old(m.now), places, folders) && targets <= places && FoldersIn(plan, folders) ==>
                  Room(m.now, places, folders)
    {
      var readFails: bool := *;
      if m.faulty && readFails { return Fault, []; }
      if i + 1 > MAX_TAR_ENTRIES { return Fault, []; }
      ghost var last, before := m.now, m.history;
      e, files, ms := ExpandEntry(m, plan, i, files, base, ms, targets, places, folders);
      if !e.Nil? { return; }
      StepsReach(last, before, m.history, m.now, targets);
      FolderedKept(plan, i, targets, targets, last, m.now);
      i := i + 1;
    }
    assert plan[..|plan|] == plan;
    if !complete { return Fault, []; }
  }

  /** What one more entry adds to the members. */
  lemma MembersStep(plan: seq<Action>, i: nat, targets: set<Path>)
    requires i < |plan|
    ensures Members(plan[..i + 1]) ==
            if plan[i].Write? then Members(plan[..i]) + [plan[i].member] else Members(plan[..i])
    ensures Placed(Members(plan), targets) && plan[i].Write? ==> plan[i].member.at != [] && plan[i].member.at in targets
  {
    assert plan[..i + 1][..i] == plan[..i] && plan[..i + 1][i] == plan[i];
    MembersPrefix(plan, i + 1);
    if plan[i].Write? {
      var n := |Members(plan[..i])|;
      assert Members(plan[..i + 1])[n] == plan[i].member;
      assert Members(plan)[n] == plan[i].member;
    }
  }

  /** What one more member adds to the list and the tree. */
  lemma WriteStep(base: map<Path, Bytes>, ms: seq<Member>, x: Member)
    ensures Listed(ms + [x]) == Listed(ms) + [Describe(x)]
    ensures Apply(base, ms + [x]) == Apply(base, ms)[x.at := x.data]
  {
    assert (ms + [x])[..|ms|] == ms;
  }

  lemma {:induction false} MembersPrefix(plan: seq<Action>, i: nat)
    requires i <= |plan|
    ensures Members(plan[..i]) <= Members(plan)
  {
    if i < |plan| {
      MembersPrefix(plan[..|plan| - 1], i);
      assert plan[..|plan| - 1][..i] == plan[..i];
    } else {
      assert plan[..i] == plan;
    }
  }

  /** Distinct members: the written tree agrees with the manifest built over it. */
  lemma MembersAgree(dir: Path, base: map<Path, Bytes>, ms: seq<Member>, sourceTar: string, q: Option<QuiesceInfo>)
    requires Named(dir, ms) && Distinct(ms)
    ensures Agrees(Apply(base, ms), dir, ManifestOf(Listed(ms), sourceTar, q))
  {
    var after, fs := Apply(base, ms), Listed(ms);
    NamedOnePlace(dir, ms);
    forall i | 0 <= i < |fs| ensures FileOfSize(after, At(dir, fs[i].path), fs[i].size) {
      ApplyDistinct(base, ms, i);
      ListedAt(ms, i);
    }
    AgreesSorted(after, dir, fs, sourceTar, q);
  }

  /** Every entry of the sorted manifest describes a member. */
  lemma DescribedBy(ms: seq<Member>, man: Manifest, i: nat) returns (j: nat)
    requires multiset(man.files) == multiset(Listed(ms)) && i < |man.files|
    ensures j < |ms| && man.files[i] == Describe(ms[j])
  {
    var fs := Listed(ms);
    assert man.files[i] in multiset(fs);
    j :| 0 <= j < |fs| && fs[j] == man.files[i];
    ListedAt(ms, j);
  }

  lemma MembersUnmarked(dir: Path, ms: seq<Member>, sourceTar: string, q: Option<QuiesceInfo>)
    requires Named(dir, ms) && Unmarked(ms)
    ensures ListsNoMarker(ManifestOf(Listed(ms), sourceTar, q))
  {
    var man := ManifestOf(Listed(ms), sourceTar, q);
    forall i | 0 <= i < |man.files|
      ensures Name(man.files[i].path) && man.files[i].path != MANIFEST_NAME && man.files[i].path != PART_NAME
    {
      var j := DescribedBy(ms, man, i);
      assert man.files[i].path == ms[j].path;
    }
  }

  lemma NamedWithShm(dir: Path, ms: seq<Member>, extra: seq<Member>)
    requires Named(dir, ms) && IsShm(dir, extra)
    ensures Named(dir, ms + extra)
  {
    AtSegment(dir, SHM_DIFF_NAME);
    forall i | 0 <= i < |ms + extra|
      ensures Name((ms + extra)[i].path) && (ms + extra)[i].at == At(dir, (ms + extra)[i].path)
    {
      assert (ms + extra)[i] == if i < |ms| then ms[i] else extra[i - |ms|];
    }
  }

  /** Members that are apart stay so with the one contribution added. */
  lemma ApartWithShm(dir: Path, plan: seq<Action>, extra: seq<Member>)
    requires Named(dir, Members(plan)) && IsShm(dir, extra)
    ensures Named(dir, Members(plan) + extra)
    ensures Apart(plan) ==> Distinct(Members(plan) + extra) && Unmarked(Members(plan) + extra)
  {
    var ms := Members(plan);
    NamedWithShm(dir, ms, extra);
    if Apart(plan) { ShmApart(ms, extra); }
  }

  lemma ShmApart(ms: seq<Member>, extra: seq<Member>)
    requires |extra| <= 1 && forall i | 0 <= i < |extra| :: extra[i].path == SHM_DIFF_NAME
    requires Distinct(ms) && Unmarked(ms) && forall i | 0 <= i < |ms| :: ms[i].path != SHM_DIFF_NAME
    ensures Distinct(ms + extra) && Unmarked(ms + extra)
  {
    var all := ms + extra;
    assert SHM_DIFF_NAME != MANIFEST_NAME && SHM_DIFF_NAME != PART_NAME;
    forall i | 0 <= i < |all| ensures all[i].path == if i < |ms| then ms[i].path else SHM_DIFF_NAME {}
  }

  lemma {:induction false} ApplyConcat(files: map<Path, Bytes>, a: seq<Member>, b: seq<Member>)
    ensures Apply(files, a + b) == Apply(Apply(files, a), b)
  {
    if b == [] {
      assert a + b == a;
    } else {
      assert (a + b)[..|a + b| - 1] == a + b[..|b| - 1];
      ApplyConcat(files, a, b[..|b| - 1]);
    }
  }

  function BaseName(p: Path): string { if p == [] then "." else p[|p| - 1] }

  function Places(ms: seq<Member>): set<Path> { set i | 0 <= i < |ms| :: ms[i].at }

  /** Everything written before the marker. */
  function Written(dir: Path, ms: seq<Member>): set<Path> { Places(ms) + {dir + [SHM_DIFF_NAME]} }

  /** Everything ExpandTarToDir may touch. */
  function Expanded(dir: Path, plan: seq<Action>): set<Path> {
    Written(dir, Members(plan)) + Markers(dir)
  }

  /** The entries of the archive at tarPath; none when there is no such file. */
  function EntriesOf(c: Codec, files: map<Path, Bytes>, tarPath: Path): seq<TarEntry> {
    if tarPath in files then c.untar(files[tarPath]).entries else []
  }

  function PlanOf(c: Codec, files: map<Path, Bytes>, tarPath: Path, dir: Path): seq<Action> {
    Plan(dir, EntriesOf(c, files, tarPath))
  }

  /** What a successful ExpandTarToDir has done to the files. */
  ghost predicate Expansion(c: Codec, before: map<Path, Bytes>, after: map<Path, Bytes>, plan: seq<Action>, dir: Path,
                            tarPath: Path, q: Option<QuiesceInfo>, extra: seq<Member>, man: Manifest)
  {
    var ms := Members(plan) + extra;
    && Acceptable(plan) && Members(plan) != [] && IsShm(dir, extra)
    && man == ManifestOf(Listed(ms), BaseName(tarPath), q)
    && after == Publish(Apply(before - {ManifestPath(dir)}, ms), dir, c.encode(man))
  }

  /** No state of the rewriting has a marker unless nothing has been changed yet. */
  ghost predicate Uncommitted<X>(was: map<Path, Bytes>, history: seq<Disk<X>>, from: nat, marker: Path) {
    forall k | from <= k < |history| :: history[k].files == was || marker !in history[k].files
  }

  /** There is no marker, or nothing has been changed. */
  ghost predicate NoneOrSame(was: map<Path, Bytes>, now: map<Path, Bytes>, marker: Path) {
    now == was || marker !in now
  }

  lemma StepsAbsent<X>(base: Disk<X>, history: seq<Disk<X>>, from: nat, touched: set<Path>, was: map<Path, Bytes>,
                       marker: Path)
    requires Steps(base, history, from, touched) && marker !in touched && marker !in base.files
    ensures Uncommitted(was, history, from, marker)
  {
    StepsWithout(base, history, from, touched, marker);
  }

  /** The members and the contribution, over a tree already un-committed. */
  method WriteTree<X>(m: Machine<X>, plan: seq<Action>, complete: bool, dir: Path, shm: Option<Bytes>,
                      ghost touched: set<Path>, ghost places: set<Path>, ghost folders: set<Path>)
    returns (e: Err, files: seq<ManifestFile>, extra: seq<Member>)
    requires m.Valid() && !m.lies
    requires Placed(Members(plan), touched) && dir + [SHM_DIFF_NAME] in touched
    modifies m
    ensures m.Valid() && m.Only(touched) && IsShm(dir, extra)
    ensures e.Nil? ==> Acceptable(plan) && complete && Members(plan) != []
    ensures e.Nil? ==> files == Listed(Members(plan) + extra) && (extra != [] <==> shm.Some?)
    ensures e.Nil? ==> m.now.files == Apply(old(m.now.files), Members(plan) + extra)
    ensures e.Nil? ==> Foldered(plan, |plan|, touched, m.now)
    ensures e.Nil? && shm.Some? ==>
              Recorded(Apply(old(m.now.files), Members(plan)), m.now.files, dir + [SHM_DIFF_NAME], shm.value)
    ensures Room(old(m.now), places, folders) && touched <= places && FoldersIn(plan, folders) ==>
              && (e.Nil? ==> Room(m.now, places, folders))
              && (!m.faulty && Acceptable(plan) && complete && |plan| <= MAX_TAR_ENTRIES && Members(plan) != [] ==>
                    e.Nil?)
  {
    extra := [];
    e, files := ExpandMembers(m, plan, complete, touched, places, folders);
    if !e.Nil? { return; }
    if |files| == 0 { return Fault, [], []; }
    ghost var last, before := m.now, m.history;
    e, extra := CaptureShmMember(m, dir, shm, touched);
    CaptureKeeps(plan, last, before, m.history, m.now, touched, places, folders, dir + [SHM_DIFF_NAME]);
    ApplyConcat(old(m.now.files), Members(plan), extra);
    ListedConcat(Members(plan), extra);
    files := files + Listed(extra);
  }

  /** The contribution takes away neither the directories nor the room for what follows. */
  lemma CaptureKeeps<X>(plan: seq<Action>, last: Disk<X>, before: seq<Disk<X>>, history: seq<Disk<X>>, now: Disk<X>,
                        touched: set<Path>, places: set<Path>, folders: set<Path>, p: Path)
    requires before != [] && before[|before| - 1] == last && before <= history && history[|history| - 1] == now
    requires Steps(last, history, |before|, touched) && OnlyAt(last.files, now.files, p) && now.dirs == last.dirs
    requires Foldered(plan, |plan|, touched, last) && p in touched
    ensures Foldered(plan, |plan|, touched, now)
    ensures Room(last, places, folders) && touched <= places ==> Room(now, places, folders)
  {
    StepsReach(last, before, history, now, touched);
    FolderedKept(plan, |plan|, touched, touched, last, now);
    if Room(last, places, folders) && touched <= places { RoomWritten(last, now, places, folders, p); }
  }

  lemma {:induction false} ListedConcat(a: seq<Member>, b: seq<Member>)
    ensures Listed(a + b) == Listed(a) + Listed(b)
  {
    if b == [] {
      assert a + b == a;
    } else {
      assert (a + b)[..|a + b| - 1] == a + b[..|b| - 1];
      ListedConcat(a, b[..|b| - 1]);
    }
  }

  /** The directories of the archive are there, and the contribution if there is one, over
      what the members have left. */
  ghost predicate Furnished<X>(plan: seq<Action>, dir: Path, targets: set<Path>, before: map<Path, Bytes>, d: Disk<X>,
                               shm: Option<Bytes>, extra: seq<Member>)
  {
    && Foldered(plan, |plan|, targets, d) && (extra != [] <==> shm.Some?)
    && (shm.Some? ==>
          Recorded(Apply(before - {ManifestPath(dir)}, Members(plan)), d.files, dir + [SHM_DIFF_NAME], shm.value))
  }

  /** The tree just before the marker: from a complete archive, all of it acceptable, the
      members and the contribution written over what was there, and described. */
  ghost predicate TreeWritten<X>(c: Codec, before: map<Path, Bytes>, d: Disk<X>, plan: seq<Action>, inner: set<Path>,
                                 dir: Path, tarPath: Path, shm: Option<Bytes>, files: seq<ManifestFile>,
                                 extra: seq<Member>)
  {
    && tarPath in before && c.untar(before[tarPath]).complete && Acceptable(plan) && Members(plan) != []
    && IsShm(dir, extra) && files == Listed(Members(plan) + extra)
    && d.files == Apply(before - {ManifestPath(dir)}, Members(plan) + extra)
    && Furnished(plan, dir, inner, before, d, shm, extra)
  }

  /** The archive is there, whole, not too long, acceptable, and has a file in it. */
  ghost predicate Welcome(c: Codec, files: map<Path, Bytes>, tarPath: Path, plan: seq<Action>) {
    && tarPath in files && c.untar(files[tarPath]).complete && |plan| <= MAX_TAR_ENTRIES
    && Acceptable(plan) && Members(plan) != []
  }

  /** The directory is made and the marker goes. */
  method OpenTree<X>(m: Machine<X>, dir: Path, ghost outer: set<Path>, ghost folders: set<Path>) returns (e: Err)
    requires m.Valid() && !m.lies && ManifestPath(dir) in outer
    modifies m
    ensures m.Valid() && m.Only(outer)
    ensures Uncommitted(old(m.now.files), m.history, |old(m.history)|, ManifestPath(dir))
    ensures NoneOrSame(old(m.now.files), m.now.files, ManifestPath(dir))
    ensures e.Nil? ==> m.now.files == old(m.now.files) - {ManifestPath(dir)}
    ensures Room(old(m.now), outer, folders) && dir in folders ==>
              (e.Nil? ==> Room(m.now, outer, folders)) && (!m.faulty ==> e.Nil?)
  {
    ghost var start, roomy := m.now, Room(m.now, outer, folders) && dir in folders;
    e := m.MkdirAll(dir, outer);
    if !e.Nil? { return; }
    ghost var made := m.now;
    if roomy { RoomMade(start, made, outer, folders, dir); }
    IsDirIff(made, ManifestPath(dir));
    e := m.Remove(ManifestPath(dir), outer);
    if e.Fault? { return; }
    e := Nil;
    assert m.now.files == made.files - {ManifestPath(dir)};
    if roomy { RoomLess(made, m.now, outer, folders); }
  }

  /** ExpandTarToDir up to the marker: un-commit, write the members, add the contribution. */
  method ExpandTree<X>(m: Machine<X>, c: Codec, tarPath: Path, dir: Path, shm: Option<Bytes>, ghost plan: seq<Action>,
                       ghost inner: set<Path>, ghost outer: set<Path>, ghost folders: set<Path>)
    returns (e: Err, files: seq<ManifestFile>, extra: seq<Member>)
    requires m.Valid() && !m.lies && tarPath != ManifestPath(dir)
    requires plan == PlanOf(c, m.now.files, tarPath, dir) && Placed(Members(plan), inner)
    requires dir + [SHM_DIFF_NAME] in inner && inner <= outer && ManifestPath(dir) in outer
    modifies m
    ensures m.Valid() && m.Only(outer) && IsShm(dir, extra)
    ensures ManifestPath(dir) !in inner ==>
              Uncommitted(old(m.now.files), m.history, |old(m.history)|, ManifestPath(dir))
    ensures ManifestPath(dir) !in inner ==> NoneOrSame(old(m.now.files), m.now.files, ManifestPath(dir))
    ensures ManifestPath(dir) !in inner && e.Nil? ==> ManifestPath(dir) !in m.now.files
    ensures e.Nil? ==> TreeWritten(c, old(m.now.files), m.now, plan, inner, dir, tarPath, shm, files, extra)
    ensures Room(old(m.now), outer, folders) && dir in folders && FoldersIn(plan, folders) ==>
              && (e.Nil? ==> Room(m.now, outer, folders))
              && (!m.faulty && Welcome(c, old(m.now.files), tarPath, plan) ==> e.Nil?)
  {
    files, extra := [], [];
    e := OpenTree(m, dir, outer, folders);
    if !e.Nil? { return; }
    var opens: bool := *;
    if tarPath !in m.now.files || (m.faulty && !opens) {
      return Fault, [], [];
    }
    var a := c.untar(m.now.files[tarPath]);
    ghost var base, first := m.now, m.history;
    e, files, extra := WriteTree(m, Plan(dir, a.entries), a.complete, dir, shm, inner, outer, folders);
    InnerSteps(base, first, m.history, m.now, inner, outer, old(m.now.files), ManifestPath(dir));
  }

  /** Steps over an un-committed tree that leave the marker's place alone. */
  lemma InnerSteps<X>(base: Disk<X>, first: seq<Disk<X>>, history: seq<Disk<X>>, now: Disk<X>, inner: set<Path>,
                      outer: set<Path>, was: map<Path, Bytes>, marker: Path)
    requires first != [] && first[|first| - 1] == base && first <= history && history[|history| - 1] == now
    requires Steps(base, history, |first|, inner) && inner <= outer && marker !in base.files
    ensures Steps(base, history, |first|, outer)
    ensures marker !in inner ==> Uncommitted(was, history, |first|, marker) && marker !in now.files
  {
    StepsReach(base, first, history, now, inner);
    StepsWiden(base, history, |first|, inner, outer);
    if marker !in inner {
      AlikeAt(base.files, now.files, inner, marker);
      StepsAbsent(base, history, |first|, inner, was, marker);
    }
  }

  // ----- crash safety and the committed result -----

  ghost predicate SafeFrom<X>(c: Codec, history: seq<Disk<X>>, from: nat, dir: Path) {
    forall k | from <= k < |history| :: CrashSafe(c, history[k].files, dir)
  }

  lemma UncommittedSafe<X>(c: Codec, was: map<Path, Bytes>, history: seq<Disk<X>>, from: nat, dir: Path)
    requires Uncommitted(was, history, from, ManifestPath(dir)) && CrashSafe(c, was, dir)
    ensures SafeFrom(c, history, from, dir)
  {
    forall k | from <= k < |history| ensures CrashSafe(c, history[k].files, dir) {
      if history[k].files != was { assert Committed(c, history[k].files, dir).None?; }
    }
  }

  /** Publishing a marker that describes the tree it finds: every state is safe to read. */
  lemma PublishSafe<X>(c: Codec, base: Disk<X>, history: seq<Disk<X>>, from: nat, dir: Path, man: Manifest)
    requires Lawful(c) && CrashSafe(c, base.files, dir)
    requires Committed(c, base.files, dir).Some? ==> ListsNoMarker(Committed(c, base.files, dir).value)
    requires Agrees(base.files, dir, man) && ListsNoMarker(man)
    requires Steps(base, history, from, Markers(dir))
    requires OldOrPart(base.files, history, from, ManifestPath(dir), c.encode(man))
    ensures SafeFrom(c, history, from, dir)
  {
    forall k | from <= k < |history| ensures CrashSafe(c, history[k].files, dir) {
      PublishStateSafe(c, base.files, history[k].files, dir, man);
    }
  }

  /** Members of a plan lie at their names; none lies at the marker unless it is named so. */
  lemma PlanPlaces(c: Codec, files: map<Path, Bytes>, tarPath: Path, dir: Path)
    ensures var ms := Members(PlanOf(c, files, tarPath, dir));
            && Named(dir, ms) && Placed(ms, Places(ms))
            && (Unmarked(ms) ==> ManifestPath(dir) !in Places(ms))
  {
    var ms := Members(PlanOf(c, files, tarPath, dir));
    MembersNamed(dir, EntriesOf(c, files, tarPath));
    MarkerNames(dir);
    if Unmarked(ms) && ManifestPath(dir) in Places(ms) {
      var i :| 0 <= i < |ms| && ms[i].at == ManifestPath(dir);
      AtInjective(dir, ms[i].path, MANIFEST_NAME);
    }
  }

  lemma PlanPlaced(c: Codec, files: map<Path, Bytes>, tarPath: Path, dir: Path)
    ensures var ms := Members(PlanOf(c, files, tarPath, dir));
            Placed(ms, Written(dir, ms)) && (Unmarked(ms) ==> ManifestPath(dir) !in Written(dir, ms))
  {
    PlanPlaces(c, files, tarPath, dir);
    assert (dir + [SHM_DIFF_NAME])[|dir|] != ManifestPath(dir)[|dir|];
  }

  /** The two phases of an expansion, one after the other: up to the last state of first the
      tree, from there on the marker. */
  lemma ExpandPhases<X>(c: Codec, start: Disk<X>, first: seq<Disk<X>>, from: nat, history: seq<Disk<X>>, dir: Path,
                        man: Manifest, outer: set<Path>)
    requires Lawful(c) && from <= |first| && first != [] && first <= history && Markers(dir) <= outer
    requires Steps(start, first, from, outer) && (from < |first| || first[|first| - 1] == start)
    requires Steps(first[|first| - 1], history, |first|, Markers(dir))
    requires OldOrPart(first[|first| - 1].files, history, |first|, ManifestPath(dir), c.encode(man))
    ensures Steps(start, history, from, outer)
    ensures SafeFrom(c, first, from, dir) && Ready(first[|first| - 1].files, dir, man) ==>
              SafeFrom(c, history, from, dir)
  {
    var base := first[|first| - 1];
    StepsWiden(base, history, |first|, Markers(dir), outer);
    StepsJoin(start, first, from, history, outer);
    if SafeFrom(c, first, from, dir) && Ready(base.files, dir, man) {
      ReadyPublishSafe(c, base, history, |first|, dir, man);
      forall k | from <= k < |history| ensures CrashSafe(c, history[k].files, dir) {
        if k < |first| { assert history[k] == first[k]; }
      }
    }
  }

  /** No directory is in the way of the marker and its temporary. */
  ghost predicate MarkersOpen<X>(d: Disk<X>, dir: Path) {
    !IsDir(d, PartPath(dir)) && !IsDir(d, ManifestPath(dir))
  }

  /** The last phase of ExpandTarToDir: the manifest of what was written, and its marker. */
  method PutMarker<X>(m: Machine<X>, c: Codec, dir: Path, files: seq<ManifestFile>, sourceTar: string,
                      q: Option<QuiesceInfo>)
    returns (r: Option<Manifest>, man: Manifest)
    requires m.Valid() && !m.lies
    modifies m
    ensures m.Valid() && m.Only(Markers(dir)) && man == ManifestOf(files, sourceTar, q)
    ensures OldOrPart(old(m.now.files), m.history, |old(m.history)|, ManifestPath(dir), c.encode(man))
    ensures r.Some? ==> r.value == man && m.now.files == Publish(old(m.now.files), dir, c.encode(man))
    ensures r.None? && !m.faulty ==> SameFile(old(m.now.files), m.now.files, ManifestPath(dir))
    ensures !m.faulty && MarkersOpen(old(m.now), dir) ==> r.Some?
  {
    man := NewManifest(files, sourceTar, q);
    var e := WriteManifestDir(m, c, dir, man);
    r := if e.Nil? then Some(man) else None;
  }

  /** The marker phase after a stretch of history that began at start. */
  method CommitTree<X>(m: Machine<X>, c: Codec, dir: Path, files: seq<ManifestFile>, sourceTar: string,
                       q: Option<QuiesceInfo>,
                       ghost start: Disk<X>, ghost from: nat, ghost outer: set<Path>)
    returns (r: Option<Manifest>)
    requires m.Valid() && !m.lies && Lawful(c) && Markers(dir) <= outer
    requires from <= |m.history| && Steps(start, m.history, from, outer) && (from < |m.history| || m.now == start)
    modifies m
    ensures m.Valid() && old(m.history) <= m.history && Steps(start, m.history, from, outer)
    ensures SafeFrom(c, old(m.history), from, dir) && Ready(old(m.now.files), dir, ManifestOf(files, sourceTar, q)) ==>
              SafeFrom(c, m.history, from, dir)
    ensures r.None? && !m.faulty ==> SameFile(old(m.now.files), m.now.files, ManifestPath(dir))
    ensures r.Some? ==> r.value == ManifestOf(files, sourceTar, q) && Frame(old(m.now), m.now, Markers(dir))
    ensures r.Some? ==> m.now.files == Publish(old(m.now.files), dir, c.encode(r.value))
    ensures !m.faulty && MarkersOpen(old(m.now), dir) ==> r.Some?
  {
    var man;
    r, man := PutMarker(m, c, dir, files, sourceTar, q);
    TreeMarked(c, start, old(m.history), from, m.history, old(m.now), m.now, dir, man, outer);
  }

  lemma TreeMarked<X>(c: Codec, start: Disk<X>, first: seq<Disk<X>>, from: nat, history: seq<Disk<X>>, base: Disk<X>,
                      now: Disk<X>, dir: Path, man: Manifest, outer: set<Path>)
    requires Lawful(c) && from <= |first| && first != [] && first <= history && Markers(dir) <= outer
    requires first[|first| - 1] == base && history[|history| - 1] == now
    requires Steps(start, first, from, outer) && (from < |first| || base == start)
    requires Steps(base, history, |first|, Markers(dir))
    requires OldOrPart(base.files, history, |first|, ManifestPath(dir), c.encode(man))
    ensures Steps(start, history, from, outer) && Frame(base, now, Markers(dir))
    ensures SafeFrom(c, first, from, dir) && Ready(base.files, dir, man) ==> SafeFrom(c, history, from, dir)
  {
    ExpandPhases(c, start, first, from, history, dir, man, outer);
    StepsReach(base, first, history, now, Markers(dir));
  }

  /** ExpandTarToDir in terms of the paths it writes before, and touches besides, the marker. */
  method ExpandInto<X>(m: Machine<X>, c: Codec, tarPath: Path, dir: Path, q: Option<QuiesceInfo>, shm: Option<Bytes>,
                       ghost plan: seq<Action>, ghost inner: set<Path>, ghost outer: set<Path>,
                       ghost folders: set<Path>)
    returns (r: Option<Manifest>, files: seq<ManifestFile>, extra: seq<Member>, ghost base: Disk<X>)
    requires m.Valid() && !m.lies && Lawful(c) && tarPath != ManifestPath(dir)
    requires plan == PlanOf(c, m.now.files, tarPath, dir) && Placed(Members(plan), inner)
    requires dir + [SHM_DIFF_NAME] in inner && inner <= outer && Markers(dir) <= outer
    modifies m
    ensures m.Valid() && m.Only(outer)
    ensures Apart(plan) && ManifestPath(dir) !in inner && CrashSafe(c, old(m.now.files), dir) ==>
              SafeFrom(c, m.history, |old(m.history)|, dir)
    ensures ManifestPath(dir) !in inner && r.None? && !m.faulty ==>
              NoneOrSame(old(m.now.files), m.now.files, ManifestPath(dir))
    ensures r.Some? ==> TreeWritten(c, old(m.now.files), base, plan, inner, dir, tarPath, shm, files, extra)
    ensures r.Some? ==> r.value == ManifestOf(files, BaseName(tarPath), q) && Frame(base, m.now, Markers(dir))
    ensures r.Some? ==> m.now.files == Publish(base.files, dir, c.encode(r.value))
    ensures !m.faulty && Room(old(m.now), outer, folders) && dir in folders && FoldersIn(plan, folders)
            && Welcome(c, old(m.now.files), tarPath, plan) ==>
              r.Some?
  {
    var e;
    e, files, extra := ExpandTree(m, c, tarPath, dir, shm, plan, inner, outer, folders);
    base := m.now;
    ghost var first := m.history;
    ghost var safe := Apart(plan) && ManifestPath(dir) !in inner && CrashSafe(c, old(m.now.files), dir);
    StepsReach(old(m.now), old(m.history), first, base, outer);
    if safe {
      UncommittedSafe(c, old(m.now.files), first, |old(m.history)|, dir);
    }
    if !e.Nil? { return None, files, extra, base; }
    if safe {
      TreeReady(c, old(m.now.files), base, plan, inner, dir, tarPath, shm, files, q, extra);
    }
    r := CommitTree(m, c, dir, files, BaseName(tarPath), q, old(m.now), |old(m.history)|, outer);
  }

  /** The marker phase takes away no directory and no contribution. */
  lemma MarkedAfter<X>(plan: seq<Action>, dir: Path, inner: set<Path>, outer: set<Path>, before: map<Path, Bytes>,
                       base: Disk<X>, now: Disk<X>, shm: Option<Bytes>, extra: seq<Member>)
    requires Frame(base, now, Markers(dir)) && inner <= outer && Markers(dir) <= outer
    requires Furnished(plan, dir, inner, before, base, shm, extra)
    ensures Furnished(plan, dir, outer, before, now, shm, extra)
  {
    FrameWiden(base, now, Markers(dir), outer);
    FolderedKept(plan, |plan|, inner, outer, base, now);
    ShmNotMarker(dir);
    AlikeAt(base.files, now.files, Markers(dir), dir + [SHM_DIFF_NAME]);
  }

  lemma ShmNotMarker(dir: Path)
    ensures dir + [SHM_DIFF_NAME] !in Markers(dir)
  {
    var n := |dir|;
    assert (dir + [SHM_DIFF_NAME])[n] == SHM_DIFF_NAME;
    assert ManifestPath(dir)[n] == MANIFEST_NAME && PartPath(dir)[n] == PART_NAME;
  }

  /** ExpandTarToDir. Every state on the way, starting from any safe artifact, is safe to
      read. A normal return has unpacked the archive: each file of it lies at its name with
      its own bytes and is listed with their size and digest, the directories are there, and
      nothing else is listed but the contribution; anything but files and directories under
      listable names is refused. On a store without faults an error leaves no marker, or
      everything as it was. */
  method ExpandTarToDir<X>(m: Machine<X>, c: Codec, tarPath: Path, dir: Path, q: Option<QuiesceInfo>,
                           shm: Option<Bytes>,
                           ghost plan: seq<Action>)
    returns (r: Option<Manifest>, extra: seq<Member>)
    requires m.Valid() && !m.lies && Lawful(c) && tarPath != ManifestPath(dir)
    requires plan == PlanOf(c, m.now.files, tarPath, dir)
    modifies m
    ensures m.Valid() && m.Only(Expanded(dir, plan))
    ensures Harmless(EntriesOf(c, old(m.now.files), tarPath)) && CrashSafe(c, old(m.now.files), dir) ==>
              SafeFrom(c, m.history, |old(m.history)|, dir)
    ensures Harmless(EntriesOf(c, old(m.now.files), tarPath)) && r.None? && !m.faulty ==>
              NoneOrSame(old(m.now.files), m.now.files, ManifestPath(dir))
    ensures r.Some? ==> tarPath in old(m.now.files) && c.untar(old(m.now.files)[tarPath]).complete
    ensures r.Some? ==> Expansion(c, old(m.now.files), m.now.files, plan, dir, tarPath, q, extra, r.value)
    ensures r.Some? ==>
              var es := EntriesOf(c, old(m.now.files), tarPath);
              && Sensible(es) && FileCount(es) > 0 && r.value.quiesce == q
              && ListsArchive(es, r.value, shm.Some?) && HoldsArchive(es, dir, m.now.files, shm.Some?)
              && HoldsFolders(es, dir, m.now)
    ensures r.Some? && shm.Some? && Harmless(EntriesOf(c, old(m.now.files), tarPath)) ==>
              Recorded(old(m.now.files), m.now.files, dir + [SHM_DIFF_NAME], shm.value)
    ensures !m.faulty && tarPath in old(m.now.files) && Unpackable(c.untar(old(m.now.files)[tarPath]))
            && HasRoom(old(m.now), dir, EntriesOf(c, old(m.now.files), tarPath)) ==>
              r.Some?
  {
    var files;
    ghost var start, base, es := m.now, m.now, EntriesOf(c, m.now.files, tarPath);
    PlanReady(c, start, tarPath, dir);
    r, files, extra, base := ExpandInto(m, c, tarPath, dir, q, shm, plan, Written(dir, Members(plan)),
                                        Expanded(dir, plan), Folders(dir, es));
    if r.Some? { TreeUnpacked(c, start.files, base, m.now, dir, tarPath, q, shm, files, extra, r.value); }
  }

  /** What the plan of an archive has to be for the expansion. */
  lemma PlanReady<X>(c: Codec, d: Disk<X>, tarPath: Path, dir: Path)
    ensures var plan, es := PlanOf(c, d.files, tarPath, dir), EntriesOf(c, d.files, tarPath);
            && Placed(Members(plan), Written(dir, Members(plan)))
            && (Harmless(es) ==> Apart(plan) && ManifestPath(dir) !in Written(dir, Members(plan)))
            && (HasRoom(d, dir, es) ==>
                  Room(d, Expanded(dir, plan), Folders(dir, es)) && FoldersIn(plan, Folders(dir, es)))
            && (tarPath in d.files && Unpackable(c.untar(d.files[tarPath])) ==> Welcome(c, d.files, tarPath, plan))
  {
    var es := EntriesOf(c, d.files, tarPath);
    PlanPlaced(c, d.files, tarPath, dir);
    UnpackableWelcome(c, d.files, tarPath, dir);
    if Harmless(es) { HarmlessApart(dir, es); }
    if HasRoom(d, dir, es) { RoomForPlan(d, dir, es); }
  }

  /** From the tree just before the marker to what the expansion has done. */
  lemma TreeUnpacked<X>(c: Codec, before: map<Path, Bytes>, base: Disk<X>, now: Disk<X>, dir: Path, tarPath: Path,
                        q: Option<QuiesceInfo>, shm: Option<Bytes>, files: seq<ManifestFile>, extra: seq<Member>,
                        man: Manifest)
    requires var plan := PlanOf(c, before, tarPath, dir);
             TreeWritten(c, before, base, plan, Written(dir, Members(plan)), dir, tarPath, shm, files, extra)
    requires man == ManifestOf(files, BaseName(tarPath), q) && Frame(base, now, Markers(dir))
    requires now.files == Publish(base.files, dir, c.encode(man))
    ensures Expansion(c, before, now.files, PlanOf(c, before, tarPath, dir), dir, tarPath, q, extra, man)
    ensures var es := EntriesOf(c, before, tarPath);
            && Sensible(es) && FileCount(es) > 0 && ListsArchive(es, man, shm.Some?)
            && HoldsArchive(es, dir, now.files, shm.Some?) && HoldsFolders(es, dir, now)
            && (shm.Some? && Harmless(es) ==> Recorded(before, now.files, dir + [SHM_DIFF_NAME], shm.value))
  {
    var plan := PlanOf(c, before, tarPath, dir);
    MarkedAfter(plan, dir, Written(dir, Members(plan)), Expanded(dir, plan), before, base, now, shm, extra);
    Unpacked(c, before, now, dir, tarPath, q, extra, man);
    if Harmless(EntriesOf(c, before, tarPath)) { ShmBeside(c, before, dir, tarPath); }
  }

  /** What an expansion has unpacked, said of the entries. */
  lemma Unpacked<X>(c: Codec, before: map<Path, Bytes>, d: Disk<X>, dir: Path, tarPath: Path, q: Option<QuiesceInfo>,
                    extra: seq<Member>, man: Manifest)
    requires var plan := PlanOf(c, before, tarPath, dir);
             && Expansion(c, before, d.files, plan, dir, tarPath, q, extra, man)
             && Foldered(plan, |plan|, Expanded(dir, plan), d)
    ensures var es := EntriesOf(c, before, tarPath);
            && Sensible(es) && FileCount(es) > 0 && ListsArchive(es, man, extra != [])
            && HoldsArchive(es, dir, d.files, extra != []) && HoldsFolders(es, dir, d)
  {
    var es := EntriesOf(c, before, tarPath);
    AcceptableSensible(dir, es);
    MembersCounted(dir, es);
    ArchiveListed(dir, es, extra, man);
    ArchiveHeld(dir, es, before - {ManifestPath(dir)}, extra, c.encode(man));
    FoldersHeld(dir, es, d);
  }

  lemma FoldersHeld<X>(dir: Path, es: seq<TarEntry>, d: Disk<X>)
    requires Sensible(es) && Foldered(Plan(dir, es), |es|, Expanded(dir, Plan(dir, es)), d)
    ensures HoldsFolders(es, dir, d)
  {
    var plan := Plan(dir, es);
    forall i | 0 <= i < |es| && OnlyFolder(es, i) && !Displaced(Clean(es[i].name), true)
      ensures At(dir, Clean(es[i].name)) in d.dirs
    {
      assert plan[i] == Classify(dir, es[i]);
      FolderApart(dir, es, i);
    }
  }

  /** Two names stand for two places. */
  lemma NamesApart(dir: Path, a: string, b: string)
    requires Name(a) && Name(b) && a != b
    ensures At(dir, a) != At(dir, b)
  {
    if At(dir, a) == At(dir, b) { AtInjective(dir, a, b); }
  }

  /** No file is written where a directory of another name is to be. */
  lemma FolderApart(dir: Path, es: seq<TarEntry>, i: nat)
    requires Sensible(es) && i < |es| && OnlyFolder(es, i) && !Displaced(Clean(es[i].name), true)
    ensures At(dir, Clean(es[i].name)) !in Expanded(dir, Plan(dir, es))
  {
    var ms, name := Members(Plan(dir, es)), Clean(es[i].name);
    forall k | 0 <= k < |ms| ensures ms[k].at != At(dir, name) {
      var j := MemberFile(dir, es, k);
      MembersNamed(dir, es);
      NamesApart(dir, ms[k].path, name);
    }
    FolderNotSpecial(dir, name);
  }

  lemma FolderNotSpecial(dir: Path, name: string)
    requires Name(name) && !Displaced(name, true)
    ensures At(dir, name) !in Markers(dir) && At(dir, name) != dir + [SHM_DIFF_NAME]
  {
    SegmentApart(dir, name, MANIFEST_NAME);
    SegmentApart(dir, name, PART_NAME);
    SegmentApart(dir, name, SHM_DIFF_NAME);
  }

  lemma SegmentApart(dir: Path, name: string, segment: string)
    requires Name(name) && Proper(segment) && name != segment
    ensures At(dir, name) != dir + [segment]
  {
    AtSegment(dir, segment);
    NamesApart(dir, name, segment);
  }

  /** A harmless archive writes nothing where the contribution goes. */
  lemma ShmBeside(c: Codec, before: map<Path, Bytes>, dir: Path, tarPath: Path)
    requires Harmless(EntriesOf(c, before, tarPath))
    ensures SameFile(before, Apply(before - {ManifestPath(dir)}, Members(PlanOf(c, before, tarPath, dir))),
                     dir + [SHM_DIFF_NAME])
  {
    var es, p := EntriesOf(c, before, tarPath), dir + [SHM_DIFF_NAME];
    var ms := Members(Plan(dir, es));
    HarmlessApart(dir, es);
    MembersNamed(dir, es);
    AtSegment(dir, SHM_DIFF_NAME);
    ShmNotMarker(dir);
    forall k | 0 <= k < |ms| ensures ms[k].at != p { NamesApart(dir, ms[k].path, SHM_DIFF_NAME); }
    ApplyBeside(before - {ManifestPath(dir)}, ms, p);
  }

  lemma {:induction false} ApplyBeside(files: map<Path, Bytes>, ms: seq<Member>, p: Path)
    requires forall k | 0 <= k < |ms| :: ms[k].at != p
    ensures SameFile(files, Apply(files, ms), p)
  {
    if ms != [] { ApplyBeside(files, ms[..|ms| - 1], p); }
  }

  /** The tree an expansion has written, just before its marker: un-committed, and already
      in agreement with the manifest about to be published. */
  lemma TreeReady<X>(c: Codec, before: map<Path, Bytes>, d: Disk<X>, plan: seq<Action>, inner: set<Path>, dir: Path,
                     tarPath: Path, shm: Option<Bytes>, files: seq<ManifestFile>, q: Option<QuiesceInfo>,
                     extra: seq<Member>)
    requires plan == PlanOf(c, before, tarPath, dir) && Apart(plan)
    requires TreeWritten(c, before, d, plan, inner, dir, tarPath, shm, files, extra)
    ensures Ready(d.files, dir, ManifestOf(files, BaseName(tarPath), q))
  {
    MembersReady(c, before, d.files, plan, dir, tarPath, q, extra);
  }

  lemma MembersReady(c: Codec, before: map<Path, Bytes>, tree: map<Path, Bytes>, plan: seq<Action>, dir: Path,
                     tarPath: Path, q: Option<QuiesceInfo>, extra: seq<Member>)
    requires plan == PlanOf(c, before, tarPath, dir) && IsShm(dir, extra) && Apart(plan)
    requires tree == Apply(before - {ManifestPath(dir)}, Members(plan) + extra)
    ensures Ready(tree, dir, ManifestOf(Listed(Members(plan) + extra), BaseName(tarPath), q))
  {
    var ms := Members(plan) + extra;
    PlanPlaces(c, before, tarPath, dir);
    ApartWithShm(dir, plan, extra);
    MembersAgree(dir, before - {ManifestPath(dir)}, ms, BaseName(tarPath), q);
    MembersUnmarked(dir, ms, BaseName(tarPath), q);
    UnmarkedAbsent(dir, before - {ManifestPath(dir)}, ms);
  }

  /** A tree that is un-committed and agrees with the manifest about to be published. */
  ghost predicate Ready(tree: map<Path, Bytes>, dir: Path, man: Manifest) {
    Agrees(tree, dir, man) && ListsNoMarker(man) && ManifestPath(dir) !in tree
  }

  /** The states of the publish over such a tree are safe to read. */
  lemma ReadyPublishSafe<X>(c: Codec, base: Disk<X>, history: seq<Disk<X>>, from: nat, dir: Path, man: Manifest)
    requires Lawful(c) && Ready(base.files, dir, man) && Steps(base, history, from, Markers(dir))
    requires OldOrPart(base.files, history, from, ManifestPath(dir), c.encode(man))
    ensures SafeFrom(c, history, from, dir)
  {
    assert Committed(c, base.files, dir).None?;
    PublishSafe(c, base, history, from, dir, man);
  }

  lemma UnmarkedAbsent(dir: Path, files: map<Path, Bytes>, ms: seq<Member>)
    requires Named(dir, ms) && Unmarked(ms) && ManifestPath(dir) !in files
    ensures ManifestPath(dir) !in Apply(files, ms)
  {
    MarkerNames(dir);
    forall k | 0 <= k < |ms| ensures ms[k].at != ManifestPath(dir) { NamesApart(dir, ms[k].path, MANIFEST_NAME); }
    ApplyBeside(files, ms, ManifestPath(dir));
  }

  /** What an expansion of a harmless archive commits: the marker decodes to the returned
      manifest, it agrees with the tree, and every member's bytes are there. */
  lemma ExpansionCommits(c: Codec, before: map<Path, Bytes>, after: map<Path, Bytes>, plan: seq<Action>, dir: Path,
                         tarPath: Path, q: Option<QuiesceInfo>, extra: seq<Member>, man: Manifest)
    requires Lawful(c) && Expansion(c, before, after, plan, dir, tarPath, q, extra, man)
    requires plan == PlanOf(c, before, tarPath, dir) && Harmless(EntriesOf(c, before, tarPath))
    ensures Committed(c, after, dir) == Some(man) && Agrees(after, dir, man)
    ensures Holds(after, Members(plan) + extra)
    ensures AllThere(EntriesOf(c, before, tarPath), dir, after, man)
  {
    ExpansionHolds(c, before, after, plan, dir, tarPath, q, extra, man);
    HarmlessApart(dir, EntriesOf(c, before, tarPath));
    var ms := Members(plan) + extra;
    var tree := Apply(before - {ManifestPath(dir)}, ms);
    MembersReady(c, before, tree, plan, dir, tarPath, q, extra);
    PublishAlike(tree, dir, c.encode(man));
    AgreesElsewhere(tree, after, dir, man);
    PlanPlaces(c, before, tarPath, dir);
    ApartWithShm(dir, plan, extra);
    MembersDecode(c, dir, ms, BaseName(tarPath), q);
    MembersHeld(dir, before - {ManifestPath(dir)}, ms, c.encode(man));
  }

  lemma ExpansionHolds(c: Codec, before: map<Path, Bytes>, after: map<Path, Bytes>, plan: seq<Action>, dir: Path,
                       tarPath: Path, q: Option<QuiesceInfo>, extra: seq<Member>, man: Manifest)
    requires Expansion(c, before, after, plan, dir, tarPath, q, extra, man)
    requires plan == PlanOf(c, before, tarPath, dir) && Harmless(EntriesOf(c, before, tarPath))
    ensures AllThere(EntriesOf(c, before, tarPath), dir, after, man)
  {
    var es := EntriesOf(c, before, tarPath);
    AcceptableSensible(dir, es);
    ArchiveListed(dir, es, extra, man);
    ArchiveHeld(dir, es, before - {ManifestPath(dir)}, extra, c.encode(man));
  }

  lemma MembersDecode(c: Codec, dir: Path, ms: seq<Member>, sourceTar: string, q: Option<QuiesceInfo>)
    requires Lawful(c) && Named(dir, ms) && ms != []
    ensures Decode(c, c.encode(ManifestOf(Listed(ms), sourceTar, q))) == Some(ManifestOf(Listed(ms), sourceTar, q))
  {
    var fs := Listed(ms);
    forall i | 0 <= i < |fs| ensures ValidRelPath(fs[i].path) {
      ListedAt(ms, i);
    }
    ManifestRoundTrip(c, fs, sourceTar, q);
  }

  lemma MembersHeld(dir: Path, base: map<Path, Bytes>, ms: seq<Member>, marker: Bytes)
    requires Named(dir, ms) && Distinct(ms) && Unmarked(ms)
    ensures Holds(Publish(Apply(base, ms), dir, marker), ms)
  {
    NamedOnePlace(dir, ms);
    var tree := Apply(base, ms);
    forall i | 0 <= i < |ms| ensures Has(Publish(tree, dir, marker), ms[i].at, ms[i].data) {
      ApplyDistinct(base, ms, i);
      UnmarkedKept(dir, tree, ms, i, marker);
    }
  }

  lemma UnmarkedKept(dir: Path, tree: map<Path, Bytes>, ms: seq<Member>, i: nat, marker: Bytes)
    requires Named(dir, ms) && Unmarked(ms) && i < |ms| && Has(tree, ms[i].at, ms[i].data)
    ensures Has(Publish(tree, dir, marker), ms[i].at, ms[i].data)
  {
    MarkerNames(dir);
    if ms[i].at == ManifestPath(dir) { AtInjective(dir, ms[i].path, MANIFEST_NAME); }
    if ms[i].at == PartPath(dir) { AtInjective(dir, ms[i].path, PART_NAME); }
  }

  /** The archive is acceptable, each of its files lies at its name with its own bytes and is
      listed with their size and digest, and what else is listed is the contribution. */
  ghost predicate AllThere(es: seq<TarEntry>, dir: Path, files: map<Path, Bytes>, man: Manifest) {
    && Sensible(es)
    && (forall i | 0 <= i < |es| && IsFile(es[i]) ::
          Has(files, At(dir, Clean(es[i].name)), es[i].data) && FileEntry(es[i]) in man.files)
    && (forall k | 0 <= k < |man.files| :: FromArchive(es, man.files[k]) || man.files[k].path == SHM_DIFF_NAME)
  }

  /** Every member's own bytes are in its place. */
  ghost predicate Holds(files: map<Path, Bytes>, ms: seq<Member>) {
    forall i | 0 <= i < |ms| :: ms[i].at in files && files[ms[i].at] == ms[i].data
  }

  lemma PublishAlike(files: map<Path, Bytes>, dir: Path, marker: Bytes)
    ensures Alike(files, Publish(files, dir, marker), Markers(dir))
    ensures ManifestPath(dir) in Publish(files, dir, marker) && Publish(files, dir, marker)[ManifestPath(dir)] == marker
  {
    assert ManifestPath(dir)[|dir|] != PartPath(dir)[|dir|];
  }

  /** Without the harmlessness hypothesis: an expansion's manifest agrees with its tree
      exactly when the members it listed are faithful to the marker and to one another. */
  lemma ExpansionAgreesIff(c: Codec, before: map<Path, Bytes>, after: map<Path, Bytes>, plan: seq<Action>, dir: Path,
                           tarPath: Path, q: Option<QuiesceInfo>, extra: seq<Member>, man: Manifest)
    requires Expansion(c, before, after, plan, dir, tarPath, q, extra, man) && Named(dir, Members(plan))
    ensures Agrees(after, dir, man) <==> Faithful(Members(plan) + extra, |c.encode(man)|)
  {
    var ms := Members(plan) + extra;
    var fs := Listed(ms);
    ApartWithShm(dir, plan, extra);
    AgreesIff(dir, before - {ManifestPath(dir)}, ms, c.encode(man));
    AgreesSorted(after, dir, fs, BaseName(tarPath), q);
    forall i | 0 <= i < |ms| ensures fs[i] == Describe(ms[i]) && At(dir, fs[i].path) == ms[i].at {
      ListedAt(ms, i);
    }
    assert SizesHold(after, ms)
      <==> (forall i | 0 <= i < |fs| :: FileOfSize(after, At(dir, fs[i].path), fs[i].size));
  }
}
