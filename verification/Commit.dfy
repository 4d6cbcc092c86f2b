/** internal/artifact/expand.go and store.go: publishing and deleting a directory artifact.
    MANIFEST is removed before anything else and written after everything else. */
module Commit {
  import opened Paths
  import opened Storage
  import opened Manifests

  const SHM_DIFF_NAME := "shm-diff.tar"
  const MAX_TAR_ENTRIES := 1048576
  const COPY_BUFFER := 4194304

  // ----- what a publish writes, as values -----

  /** One file of an artifact: its validated name, the path that name stands for, its bytes. */
  datatype Member = Member(path: string, at: Path, data: Bytes)

  function MemberAt(dir: Path, path: string, data: Bytes): Member { Member(path, At(dir, path), data) }

  /** What ExpandTarToDir does with one archive entry, decided by its cleaned name and type. */
  datatype Action = Skip | MakeDir(at: Path) | Write(member: Member) | Refuse

  function Classify(dir: Path, e: TarEntry): Action {
    var name := Clean(e.name);
    if name == "." || name == "/" then Skip
    else if !ValidRelPath(name) then Refuse
    else match e.kind
         case Directory => MakeDir(At(dir, name))
         case Regular => Write(MemberAt(dir, name, e.data))
         case Unsupported => Refuse
  }

  function Plan(dir: Path, es: seq<TarEntry>): seq<Action> {
    seq(|es|, i requires 0 <= i < |es| => Classify(dir, es[i]))
  }

  /** The regular files a plan writes, in archive order. */
  function Members(plan: seq<Action>): seq<Member> {
    if plan == [] then [] else
    var before, last := Members(plan[..|plan| - 1]), plan[|plan| - 1];
    if last.Write? then before + [last.member] else before
  }

  predicate Acceptable(plan: seq<Action>) {
    forall i | 0 <= i < |plan| :: !plan[i].Refuse?
  }

  function Describe(x: Member): ManifestFile { ManifestFile(x.path, |x.data|, DigestOf(x.data)) }

  /** The manifest entries of the members, in order. */
  function Listed(ms: seq<Member>): (fs: seq<ManifestFile>)
    ensures |fs| == |ms|
  {
    if ms == [] then [] else Listed(ms[..|ms| - 1]) + [Describe(ms[|ms| - 1])]
  }

  lemma {:induction false} ListedAt(ms: seq<Member>, i: nat)
    requires i < |ms|
    ensures Listed(ms)[i] == Describe(ms[i])
  {
    if i < |ms| - 1 { ListedAt(ms[..|ms| - 1], i); }
  }

  /** The files after writing the members one by one, a later one over an earlier one. */
  function Apply(files: map<Path, Bytes>, ms: seq<Member>): map<Path, Bytes> {
    if ms == [] then files else
    var x := ms[|ms| - 1];
    Apply(files, ms[..|ms| - 1])[x.at := x.data]
  }

  /** The files after the commit marker is published with the given bytes. */
  function Publish(files: map<Path, Bytes>, dir: Path, marker: Bytes): map<Path, Bytes> {
    files[ManifestPath(dir) := marker] - {PartPath(dir)}
  }

  /** Every member has a listable name and lies where that name says. */
  predicate Named(dir: Path, ms: seq<Member>) {
    forall i | 0 <= i < |ms| :: Name(ms[i].path) && ms[i].at == At(dir, ms[i].path)
  }

  /** Two members share a place exactly when they share a name. */
  predicate OnePlace(ms: seq<Member>) {
    forall i, j | 0 <= i < |ms| && 0 <= j < |ms| :: ms[i].at == ms[j].at <==> ms[i].path == ms[j].path
  }

  lemma NamedOnePlace(dir: Path, ms: seq<Member>)
    requires Named(dir, ms)
    ensures OnePlace(ms)
  {
    forall i, j | 0 <= i < |ms| && 0 <= j < |ms| && ms[i].at == ms[j].at ensures ms[i].path == ms[j].path {
      AtInjective(dir, ms[i].path, ms[j].path);
    }
  }

  predicate Distinct(ms: seq<Member>) {
    forall i, j | 0 <= i < j < |ms| :: ms[i].path != ms[j].path
  }

  predicate Unmarked(ms: seq<Member>) {
    forall i | 0 <= i < |ms| :: ms[i].path != MANIFEST_NAME && ms[i].path != PART_NAME
  }

  predicate ListsNoMarker(m: Manifest) {
    forall i | 0 <= i < |m.files| ::
      Name(m.files[i].path) && m.files[i].path != MANIFEST_NAME && m.files[i].path != PART_NAME
  }

  /** Exactly when the listed sizes describe the published tree: no member is the temporary
      marker, a member over the marker has the marker's size, and duplicates agree in size. */
  predicate Faithful(ms: seq<Member>, marker: nat) {
    forall i | 0 <= i < |ms| ::
      && ms[i].path != PART_NAME
      && (ms[i].path == MANIFEST_NAME ==> |ms[i].data| == marker)
      && (ms[i].path != MANIFEST_NAME ==>
            forall j | i < j < |ms| && ms[j].path == ms[i].path :: |ms[j].data| == |ms[i].data|)
  }

  /** The content found under a member's name is that of the last member so named. */
  lemma {:induction false} ApplyLast(files: map<Path, Bytes>, ms: seq<Member>, i: nat) returns (last: nat)
    requires OnePlace(ms) && i < |ms|
    ensures i <= last < |ms| && ms[last].path == ms[i].path
    ensures ms[i].at in Apply(files, ms) && Apply(files, ms)[ms[i].at] == ms[last].data
  {
    var n := |ms| - 1;
    if ms[n].path == ms[i].path {
      last := n;
    } else {
      last := ApplyLast(files, ms[..n], i);
    }
  }

  /** A member's place after the marker is published: gone under the temporary's name, the
      marker under its own, otherwise as applied. */
  lemma PublishedPlace(dir: Path, files: map<Path, Bytes>, path: string, marker: Bytes)
    requires Name(path)
    ensures var p, final := At(dir, path), Publish(files, dir, marker);
            && (path == PART_NAME ==> p !in final)
            && (path == MANIFEST_NAME ==> p in final && final[p] == marker)
            && (path != PART_NAME && path != MANIFEST_NAME ==> SameFile(files, final, p))
  {
    MarkerNames(dir);
    if At(dir, path) == ManifestPath(dir) { AtInjective(dir, path, MANIFEST_NAME); }
    if At(dir, path) == PartPath(dir) { AtInjective(dir, path, PART_NAME); }
  }

  ghost predicate SizesHold(files: map<Path, Bytes>, ms: seq<Member>) {
    forall i | 0 <= i < |ms| :: FileOfSize(files, ms[i].at, |ms[i].data|)
  }

  /** The exact condition under which a published list describes the tree it commits. */
  lemma AgreesIff(dir: Path, files: map<Path, Bytes>, ms: seq<Member>, marker: Bytes)
    requires Named(dir, ms)
    ensures SizesHold(Publish(Apply(files, ms), dir, marker), ms) <==> Faithful(ms, |marker|)
  {
    var applied := Apply(files, ms);
    var final := Publish(applied, dir, marker);
    NamedOnePlace(dir, ms);
    if Faithful(ms, |marker|) {
      forall i | 0 <= i < |ms| ensures FileOfSize(final, ms[i].at, |ms[i].data|) {
        var last := ApplyLast(files, ms, i);
        PublishedPlace(dir, applied, ms[i].path, marker);
      }
    }
    if SizesHold(final, ms) { FaithfulIfHeld(dir, files, ms, marker); }
  }

  lemma FaithfulIfHeld(dir: Path, files: map<Path, Bytes>, ms: seq<Member>, marker: Bytes)
    requires Named(dir, ms) && SizesHold(Publish(Apply(files, ms), dir, marker), ms)
    ensures Faithful(ms, |marker|)
  {
    var final := Publish(Apply(files, ms), dir, marker);
    forall i | 0 <= i < |ms|
      ensures ms[i].path != PART_NAME && (ms[i].path == MANIFEST_NAME ==> |ms[i].data| == |marker|)
    {
      PublishedPlace(dir, Apply(files, ms), ms[i].path, marker);
      assert FileOfSize(final, ms[i].at, |ms[i].data|);
    }
    forall i, j | 0 <= i < j < |ms| && ms[j].path == ms[i].path ensures |ms[j].data| == |ms[i].data| {
      assert FileOfSize(final, ms[i].at, |ms[i].data|) && FileOfSize(final, ms[j].at, |ms[j].data|);
    }
  }

  /** Distinct members: each name holds exactly its own bytes. */
  lemma ApplyDistinct(files: map<Path, Bytes>, ms: seq<Member>, i: nat)
    requires OnePlace(ms) && Distinct(ms) && i < |ms|
    ensures ms[i].at in Apply(files, ms) && Apply(files, ms)[ms[i].at] == ms[i].data
  {
    var last := ApplyLast(files, ms, i);
  }

  /** Where in the plan a member comes from. */
  lemma {:induction false} MemberFrom(plan: seq<Action>, k: nat) returns (j: nat)
    requires k < |Members(plan)|
    ensures j < |plan| && plan[j] == Write(Members(plan)[k]) && |Members(plan[..j])| == k
  {
    var n := |plan| - 1;
    if k < |Members(plan[..n])| {
      j := MemberFrom(plan[..n], k);
      assert plan[..n][..j] == plan[..j];
    } else {
      j := n;
    }
  }

  lemma MembersNamed(dir: Path, es: seq<TarEntry>)
    ensures Named(dir, Members(Plan(dir, es)))
  {
    var plan := Plan(dir, es);
    forall i | 0 <= i < |Members(plan)|
      ensures Name(Members(plan)[i].path) && Members(plan)[i].at == At(dir, Members(plan)[i].path)
    {
      var j := MemberFrom(plan, i);
      assert plan[j] == Classify(dir, es[j]);
    }
  }

  /** Crash safety of one state of a marker publish: outside the marker and its temporary
      the tree is as before, and the marker is the old one or a prefix of the new one. */
  lemma PublishStateSafe(c: Codec, a: map<Path, Bytes>, b: map<Path, Bytes>, dir: Path, m: Manifest)
    requires Lawful(c) && CrashSafe(c, a, dir) && Agrees(a, dir, m) && ListsNoMarker(m)
    requires Committed(c, a, dir).Some? ==> ListsNoMarker(Committed(c, a, dir).value)
    requires Alike(a, b, Markers(dir)) && OldOrPrefix(a, b, ManifestPath(dir), c.encode(m))
    ensures CrashSafe(c, b, dir)
  {
    AgreesElsewhere(a, b, dir, m);
    if SameFile(a, b, ManifestPath(dir)) {
      if Committed(c, a, dir).Some? { AgreesElsewhere(a, b, dir, Committed(c, a, dir).value); }
    } else {
      TornIsSafe(c, b, dir, m);
    }
  }

  function Markers(dir: Path): set<Path> { {ManifestPath(dir), PartPath(dir)} }

  lemma AgreesElsewhere(a: map<Path, Bytes>, b: map<Path, Bytes>, dir: Path, m: Manifest)
    requires Agrees(a, dir, m) && ListsNoMarker(m) && Alike(a, b, Markers(dir))
    ensures Agrees(b, dir, m)
  {
    MarkerNames(dir);
    forall i | 0 <= i < |m.files| ensures FileOfSize(b, At(dir, m.files[i].path), m.files[i].size) {
      var p := At(dir, m.files[i].path);
      if p == ManifestPath(dir) { AtInjective(dir, m.files[i].path, MANIFEST_NAME); }
      if p == PartPath(dir) { AtInjective(dir, m.files[i].path, PART_NAME); }
      assert FileOfSize(a, p, m.files[i].size);
      AlikeAt(a, b, Markers(dir), p);
    }
  }

  // ----- the file primitives -----

  lemma OverwriteExtend(was: Bytes, data: Bytes, off: nat, n: nat)
    requires off + n <= |data|
    ensures Overwrite(Overwrite(was, 0, data[..off]), off, data[off..off + n]) == Overwrite(was, 0, data[..off + n])
  {
    assert data[..off + n] == data[..off] + data[off..off + n];
  }

  /** Why every writer unlinks first: over a file that is still there, on a store that ignores
      O_TRUNC, writing data leaves exactly data if and only if the old file was no longer. */
  lemma TailSurvivesIff(was: Bytes, data: Bytes)
    ensures Overwrite(was, 0, data) == data <==> |was| <= |data|
  {
    if |was| > |data| { assert |Overwrite(was, 0, data)| == |was|; } else { assert Overwrite(was, 0, data) == data; }
  }

  /** io.Copy through a handle just opened: the bytes go out in chunks of any size, and n of
      them are there when it ends. */
  method StreamInto<X>(m: Machine<X>, p: Path, data: Bytes, ghost touched: set<Path>) returns (n: nat, e: Err)
    requires m.Valid() && p in touched && p in m.now.files
    modifies m
    ensures m.Valid() && m.Only(touched)
    ensures n <= |data| && (e.Nil? ==> n == |data|)
    ensures m.now == old(m.now).(files := old(m.now.files)[p := Overwrite(old(m.now.files)[p], 0, data[..n])])
    ensures !m.faulty ==> e.Nil?
  {
    ghost var content := m.now.files[p];
    n := 0;
    assert Overwrite(content, 0, data[..0]) == content;
    assert m.now.files[p := content] == m.now.files;
    while n < |data|
      invariant 0 <= n <= |data|
      invariant m.Valid() && m.Only(touched)
      invariant m.now == old(m.now).(files := old(m.now.files)[p := Overwrite(content, 0, data[..n])])
    {
      var readFails: bool := *;
      if m.faulty && readFails {
        return n, Fault;
      }
      var size :| 0 < size <= COPY_BUFFER && size <= |data| - n;
      var chunk, k := data[n..n + size], 0;
      k, e := m.WriteAt(p, n, chunk, touched);
      assert chunk[..k] == data[n..n + k];
      OverwriteExtend(content, data, n, k);
      n := n + k;
      if !e.Nil? {
        return;
      }
    }
    e := Nil;
  }

  /** after holds data at p, as its whole content unless a longer file was there before. */
  ghost predicate Recorded(before: map<Path, Bytes>, after: map<Path, Bytes>, p: Path, data: Bytes) {
    p in after && data <= after[p] && (p !in before || |before[p]| <= |data| ==> after[p] == data)
  }

  /** With fewer files and directories a place does not become a directory. */
  lemma VacantLess<X>(a: Disk<X>, b: Disk<X>, p: Path)
    requires b.files.Keys <= a.files.Keys && b.dirs <= a.dirs
    ensures !IsDir(a, p) ==> !IsDir(b, p)
  {
    IsDirIff(a, p);
    IsDirIff(b, p);
    assert Below(b, p) <= Below(a, p);
  }

  /** Making the directories above a place does not make a directory of it. */
  lemma VacantAbove<X>(a: Disk<X>, b: Disk<X>, p: Path)
    requires p != [] && b.files == a.files && forall q | q in b.dirs && q !in a.dirs :: q <= p[..|p| - 1]
    ensures !IsDir(a, p) ==> !IsDir(b, p)
  {
    IsDirIff(a, p);
    IsDirIff(b, p);
    forall q | q in b.dirs && q !in a.dirs ensures !(p <= q) { assert |q| < |p|; }
    assert Below(b, p) <= Below(a, p);
  }

  /** A file elsewhere does not make a directory of a place it does not lie below. */
  lemma VacantBeside<X>(a: Disk<X>, b: Disk<X>, p: Path, q: Path)
    requires b.files.Keys <= a.files.Keys + {q} && b.dirs <= a.dirs && !(p < q)
    ensures !IsDir(a, p) ==> !IsDir(b, p)
  {
    IsDirIff(a, p);
    IsDirIff(b, p);
    assert Below(b, p) <= Below(a, p);
  }

  /** A file can be written at p: it is no directory, and no file is in the way of its parent. */
  ghost predicate Writable<X>(d: Disk<X>, p: Path) {
    p != [] && !IsDir(d, p) && !FileOnTheWay(d.files, p[..|p| - 1])
  }

  /** b is a with perhaps a file more at q, and directories above it. */
  ghost predicate OneMore<X>(a: Disk<X>, b: Disk<X>, q: Path) {
    b.files.Keys <= a.files.Keys + {q} && forall x | x in b.dirs && x !in a.dirs :: x < q
  }

  /** Writing one file is in the way of no other that lies neither above nor below it. */
  lemma WritableKept<X>(a: Disk<X>, b: Disk<X>, p: Path, q: Path)
    requires Writable(a, p) && OneMore(a, b, q) && !(p < q) && !(q < p)
    ensures Writable(b, p)
  {
    IsDirIff(a, p);
    IsDirIff(b, p);
    forall x | x in b.dirs && x !in a.dirs ensures !(p <= x) { PrefixChain(p, x, q); }
    assert Below(b, p) <= Below(a, p);
    RoadKept(a, b, p[..|p| - 1], q);
  }

  lemma PrefixChain(p: Path, x: Path, q: Path)
    ensures p <= x && x <= q ==> p <= q
    ensures p <= x && x < q ==> p < q
  {
    if |p| <= |x| <= |q| { assert q[..|x|][..|p|] == q[..|p|]; }
  }

  lemma RoadKept<X>(a: Disk<X>, b: Disk<X>, p: Path, q: Path)
    requires !FileOnTheWay(a.files, p) && b.files.Keys <= a.files.Keys + {q} && !(q <= p)
    ensures !FileOnTheWay(b.files, p)
  {
    forall k | 0 <= k <= |p| ensures p[..k] !in b.files { assert p[..k] <= p && p[..k] !in a.files; }
  }

  /** Room for files at the places and directories at the folders: each can be written as
      things are, and none of them is to lie in the way of another. */
  ghost predicate Room<X>(d: Disk<X>, places: set<Path>, folders: set<Path>) {
    && (forall p | p in places :: Writable(d, p))
    && (forall x | x in folders :: !FileOnTheWay(d.files, x))
    && (forall p, q | p in places && q in places :: !(p < q))
    && (forall p, x | p in places && x in folders :: !(p <= x))
  }

  lemma RoomWritten<X>(a: Disk<X>, b: Disk<X>, places: set<Path>, folders: set<Path>, q: Path)
    requires Room(a, places, folders) && q in places && OneMore(a, b, q)
    ensures Room(b, places, folders)
  {
    forall p | p in places ensures Writable(b, p) { WritableKept(a, b, p, q); }
    forall x | x in folders ensures !FileOnTheWay(b.files, x) { RoadKept(a, b, x, q); }
  }

  lemma RoomMade<X>(a: Disk<X>, b: Disk<X>, places: set<Path>, folders: set<Path>, x: Path)
    requires Room(a, places, folders) && x in folders && b.files == a.files
    requires forall q | q in b.dirs && q !in a.dirs :: q <= x
    ensures Room(b, places, folders)
  {
    forall p | p in places ensures Writable(b, p) {
      IsDirIff(a, p);
      IsDirIff(b, p);
      forall q | q in b.dirs && q !in a.dirs ensures !(p <= q) { PrefixChain(p, q, x); }
      assert Below(b, p) <= Below(a, p);
    }
  }

  lemma RoomLess<X>(a: Disk<X>, b: Disk<X>, places: set<Path>, folders: set<Path>)
    requires Room(a, places, folders) && b.files.Keys <= a.files.Keys && b.dirs <= a.dirs
    ensures Room(b, places, folders)
  {
    forall p | p in places ensures Writable(b, p) { VacantLess(a, b, p); }
  }

  /** Unlink, then open: the file is fresh even where O_TRUNC is ignored. */
  method OpenFresh<X>(m: Machine<X>, p: Path, ghost touched: set<Path>) returns (e: Err)
    requires m.Valid() && !m.lies && p in touched
    modifies m
    ensures m.Valid() && m.Only(touched)
    ensures !m.faulty && !IsDir(old(m.now), p) ==> e.Nil?
    ensures e.Nil? ==> m.now.files == old(m.now.files)[p := []] && m.now.dirs <= old(m.now.dirs) && !IsDir(m.now, p)
  {
    IsDirIff(m.now, p);
    e := m.Remove(p, touched);
    if e.Fault? { return; }
    assert m.now.files == old(m.now.files) - {p};
    VacantLess(old(m.now), m.now, p);
    ghost var removed := m.now;
    e := m.Create(p, touched);
    if e.Nil? { VacantBeside(removed, m.now, p, p); }
  }

  /** Stream into a fresh file, sync and close it. */
  method Fill<X>(m: Machine<X>, p: Path, data: Bytes, ghost touched: set<Path>) returns (e: Err)
    requires m.Valid() && p in touched && p in m.now.files && m.now.files[p] == []
    modifies m
    ensures m.Valid() && m.Only(touched)
    ensures !m.faulty ==> e.Nil?
    ensures e.Nil? ==> m.now.files == old(m.now.files)[p := data] && m.now.dirs == old(m.now.dirs)
  {
    var n;
    n, e := StreamInto(m, p, data, touched);
    assert data[..|data|] == data && Overwrite([], 0, data) == data;
    if e.Nil? {
      e := m.Flush();
    }
  }

  /** writeFile: on success the file holds exactly the streamed bytes, whatever was there
      and whatever the store does with O_TRUNC. */
  method WriteFile<X>(m: Machine<X>, dst: Path, data: Bytes, ghost touched: set<Path>)
    returns (sum: Digest, n: nat, e: Err)
    requires m.Valid() && !m.lies && dst != [] && dst in touched
    modifies m
    ensures m.Valid() && m.Only(touched)
    ensures !m.faulty && !FileOnTheWay(old(m.now.files), dst[..|dst| - 1]) && !IsDir(old(m.now), dst) ==> e.Nil?
    ensures e.Nil? ==> m.now.files == old(m.now.files)[dst := data] && n == |data| && sum == DigestOf(data)
    ensures e.Nil? ==> forall q | q in m.now.dirs && q !in old(m.now.dirs) :: q < dst
  {
    sum, n := DigestOf(data), |data|;
    e := m.MkdirAll(dst[..|dst| - 1], touched);
    if !e.Nil? { return; }
    VacantAbove(old(m.now), m.now, dst);
    e := OpenFresh(m, dst, touched);
    if !e.Nil? { return; }
    e := Fill(m, dst, data, touched);
  }

  /** What the removal of the temporary after a rename may come to. */
  ghost predicate CleanUpStep<X>(faulty: bool, a: Disk<X>, tmp: Path, b: Disk<X>, e: Err) {
    exists last :: RemoveStep(false, faulty, a, tmp, b, last) && e == if last.Fault? then last else Nil
  }

  /** The rename leads to mid, and what follows it to b. */
  ghost predicate RenamedVia<X>(faulty: bool, a: Disk<X>, tmp: Path, dst: Path, mid: Disk<X>, first: Err, b: Disk<X>,
                                e: Err) {
    && RenameStep(faulty, a, tmp, dst, mid, first)
    && if first.Nil? then CleanUpStep(faulty, mid, tmp, b, e) else b == mid && e == first
  }

  /** What RenamePublish may come to. */
  ghost predicate RenamePublishStep<X>(faulty: bool, a: Disk<X>, tmp: Path, dst: Path, b: Disk<X>, e: Err) {
    exists renamed: map<Path, Bytes>, first :: RenamedVia(faulty, a, tmp, dst, a.(files := renamed), first, b, e)
  }

  /** RenamePublish: rename, then make sure the temporary is gone even where rename copies. */
  method RenamePublish<X>(m: Machine<X>, tmp: Path, dst: Path, ghost touched: set<Path>) returns (e: Err)
    requires m.Valid() && !m.lies && tmp != dst && tmp in touched && dst in touched
    modifies m
    ensures m.Valid() && m.Only(touched)
    ensures OldOrTorn(old(m.now.files), m.history, |old(m.history)|, tmp, dst)
    ensures dst !in old(m.now.files) ==> Growing(m.history, |old(m.history)|, dst)
    ensures RenamePublishStep(m.faulty, old(m.now), tmp, dst, m.now, e)
    ensures e.Nil? ==> tmp in old(m.now.files)
    ensures !m.faulty && !IsDir(old(m.now), tmp) && !(tmp < dst) ==>
              if tmp in old(m.now.files) && !IsDir(old(m.now), dst) then e.Nil? else m.now == old(m.now)
    ensures e.Nil? ==> m.now.files == old(m.now.files)[dst := old(m.now.files)[tmp]] - {tmp}
  {
    e := m.Rename(tmp, dst, touched);
    ghost var mid, renamed := m.now, m.history;
    RenameFailed(m.faulty, old(m.now), tmp, dst, mid, e);
    if !e.Nil? { return; }
    e := m.Remove(tmp, touched);
    RenameDone(m.faulty, old(m.now), tmp, dst, mid, m.now, e);
    if dst !in old(m.now.files) {
      GrowingMore(renamed, |old(m.history)|, m.history, dst);
    }
    if !e.Fault? { e := Nil; }
  }

  lemma RenameFailed<X>(faulty: bool, a: Disk<X>, tmp: Path, dst: Path, b: Disk<X>, e: Err)
    requires RenameStep(faulty, a, tmp, dst, b, e)
    ensures !e.Nil? ==> RenamePublishStep(faulty, a, tmp, dst, b, e)
    ensures e.Nil? ==> tmp in a.files && !IsDir(a, dst)
    ensures !e.Nil? && !faulty ==> b == a && !(tmp in a.files && !IsDir(a, dst))
  {
    assert b == a.(files := b.files);
    if !e.Nil? { assert RenamedVia(faulty, a, tmp, dst, a.(files := b.files), e, b, e); }
  }

  lemma RenameDone<X>(faulty: bool, a: Disk<X>, tmp: Path, dst: Path, mid: Disk<X>, b: Disk<X>, last: Err)
    requires RenameStep(faulty, a, tmp, dst, mid, Nil) && RemoveStep(false, faulty, mid, tmp, b, last) && tmp != dst
    ensures RenamePublishStep(faulty, a, tmp, dst, b, if last.Fault? then last else Nil)
    ensures SameFile(mid.files, b.files, dst)
    ensures !last.Fault? ==> b.files == a.files[dst := a.files[tmp]] - {tmp}
    ensures !faulty && !IsDir(a, tmp) && !(tmp < dst) ==> !last.Fault?
  {
    var e := if last.Fault? then last else Nil;
    assert mid == a.(files := mid.files) && CleanUpStep(faulty, mid, tmp, b, e);
    assert RenamedVia(faulty, a, tmp, dst, a.(files := mid.files), Nil, b, e);
    assert mid.files - {tmp} == a.files[dst := a.files[tmp]] - {tmp};
    if !(tmp < dst) { VacantBeside(a, mid, tmp, dst); }
    IsDirIff(mid, tmp);
  }

  /** Write a temporary; a failed write removes it again. */
  method WriteTemp<X>(m: Machine<X>, tmp: Path, data: Bytes, ghost touched: set<Path>) returns (e: Err)
    requires m.Valid() && !m.lies && tmp in touched
    modifies m
    ensures m.Valid() && m.Only(touched)
    ensures !m.faulty && !IsDir(old(m.now), tmp) ==> e.Nil?
    ensures e.Nil? ==> m.now.files == old(m.now.files)[tmp := data] && m.now.dirs <= old(m.now.dirs)
    ensures e.Nil? ==> !IsDir(m.now, tmp)
  {
    e := OpenFresh(m, tmp, touched);
    if !e.Nil? { return; }
    ghost var begun := m.now;
    e := Fill(m, tmp, data, touched);
    if !e.Nil? {
      var ignored := m.Remove(tmp, touched);
    } else {
      VacantBeside(begun, m.now, tmp, tmp);
    }
  }

  /** In every state from number k on, dst is as it was or a prefix of data. */
  ghost predicate OldOrPart<X>(was: map<Path, Bytes>, history: seq<Disk<X>>, from: nat, dst: Path, data: Bytes) {
    forall k | from <= k < |history| :: OldOrPrefix(was, history[k].files, dst, data)
  }

  lemma StepsKeep<X>(base: Disk<X>, history: seq<Disk<X>>, from: nat, touched: set<Path>, dst: Path, data: Bytes)
    requires Steps(base, history, from, touched) && dst !in touched
    ensures OldOrPart(base.files, history, from, dst, data)
  {
    forall k | from <= k < |history| ensures OldOrPrefix(base.files, history[k].files, dst, data) {
      AlikeAt(base.files, history[k].files, touched, dst);
    }
  }

  lemma StepsWithout<X>(base: Disk<X>, history: seq<Disk<X>>, from: nat, touched: set<Path>, dst: Path)
    requires Steps(base, history, from, touched) && dst !in touched && dst !in base.files
    ensures forall k | from <= k < |history| :: dst !in history[k].files
    ensures Growing(history, from, dst)
  {
    forall k | from <= k < |history| ensures dst !in history[k].files {
      AlikeAt(base.files, history[k].files, touched, dst);
    }
  }

  /** A rename of the whole temporary after a stretch that left dst alone. */
  lemma RenamedPart<X>(was: map<Path, Bytes>, first: seq<Disk<X>>, mid: map<Path, Bytes>, history: seq<Disk<X>>,
                       from: nat,
                       tmp: Path, dst: Path, data: Bytes)
    requires OldOrPart(was, first, from, dst, data) && first <= history && SameFile(was, mid, dst)
    requires tmp in mid && mid[tmp] == data && OldOrTorn(mid, history, |first|, tmp, dst)
    ensures OldOrPart(was, history, from, dst, data)
  {
    forall k | from <= k < |history| ensures OldOrPrefix(was, history[k].files, dst, data) {
      if k < |first| {
        assert OldOrPrefix(was, first[k].files, dst, data);
      } else {
        assert OldOrPrefix(mid, history[k].files, dst, data);
      }
    }
  }

  /** One more state with dst as it was last. */
  lemma PartKept<X>(was: map<Path, Bytes>, first: seq<Disk<X>>, next: Disk<X>, from: nat, dst: Path, data: Bytes)
    requires first != [] && from <= |first| && OldOrPart(was, first, from, dst, data)
             && SameFile(first[|first| - 1].files, next.files, dst)
    requires from == |first| ==> first[|first| - 1].files == was
    ensures OldOrPart(was, first + [next], from, dst, data)
  {
    assert from < |first| ==> OldOrPrefix(was, first[|first| - 1].files, dst, data);
    forall k | from <= k < |first + [next]| ensures OldOrPrefix(was, (first + [next])[k].files, dst, data) {
      if k < |first| { assert OldOrPrefix(was, first[k].files, dst, data); }
    }
  }

  /** Write a temporary and publish it by rename. The result does not depend on whether
      O_TRUNC is honoured or on whether rename moves or copies. */
  method WriteAndRename<X>(m: Machine<X>, tmp: Path, dst: Path, data: Bytes) returns (e: Err)
    requires m.Valid() && !m.lies && tmp != dst
    modifies m
    ensures m.Valid() && m.Only({tmp, dst})
    ensures OldOrPart(old(m.now.files), m.history, |old(m.history)|, dst, data)
    ensures dst !in old(m.now.files) ==> Growing(m.history, |old(m.history)|, dst)
    ensures !m.faulty && !IsDir(old(m.now), tmp) && !IsDir(old(m.now), dst) && !(tmp < dst) && !(dst < tmp) ==> e.Nil?
    ensures !m.faulty && !e.Nil? && !(tmp < dst) ==> SameFile(old(m.now.files), m.now.files, dst)
    ensures e.Nil? ==> m.now.files == old(m.now.files)[dst := data] - {tmp}
  {
    e := WriteTemp(m, tmp, data, {tmp});
    ghost var base, written := m.now, m.history;
    assert written[|written| - 1] == base && Steps(old(m.now), written, |old(m.history)|, {tmp});
    assert |written| == |old(m.history)| ==> written == old(m.history);
    StepsWiden(old(m.now), written, |old(m.history)|, {tmp}, {tmp, dst});
    StepsKeep(old(m.now), written, |old(m.history)|, {tmp}, dst, data);
    assert Frame(old(m.now), base, {tmp});
    AlikeAt(old(m.now.files), base.files, {tmp}, dst);
    if dst !in old(m.now.files) {
      StepsWithout(old(m.now), written, |old(m.history)|, {tmp}, dst);
    }
    if !e.Nil? { return; }
    WrittenBeside(old(m.now), base, tmp, dst, data);
    e := RenamePublish(m, tmp, dst, {tmp, dst});
    StepsJoin(old(m.now), written, |old(m.history)|, m.history, {tmp, dst});
    RenamedPart(old(m.now.files), written, base.files, m.history, |old(m.history)|, tmp, dst, data);
    if dst !in old(m.now.files) {
      AbsentThenGrowing(written, |old(m.history)|, m.history, dst);
    }
  }

  /** After the temporary is written: dst is as before, neither place has become a
      directory, and publishing from here is publishing from the start. */
  lemma WrittenBeside<X>(a: Disk<X>, b: Disk<X>, tmp: Path, dst: Path, data: Bytes)
    requires b.files == a.files[tmp := data] && b.dirs <= a.dirs && tmp != dst
    ensures SameFile(a.files, b.files, dst)
    ensures b.files[dst := data] - {tmp} == a.files[dst := data] - {tmp}
    ensures !(dst < tmp) && !IsDir(a, tmp) && !IsDir(a, dst) ==> !IsDir(b, tmp) && !IsDir(b, dst)
  {
    VacantBeside(a, b, tmp, tmp);
    if !(dst < tmp) { VacantBeside(a, b, dst, tmp); }
  }

  /** The publish with copyAtomic's clean-up: it also removes the temporary when the rename
      fails, which WriteManifestDir does not. */
  method PublishFile<X>(m: Machine<X>, tmp: Path, dst: Path, data: Bytes, tidy: bool) returns (e: Err)
    requires m.Valid() && !m.lies && tmp != dst
    modifies m
    ensures m.Valid() && m.Only({tmp, dst})
    ensures OldOrPart(old(m.now.files), m.history, |old(m.history)|, dst, data)
    ensures dst !in old(m.now.files) ==> Growing(m.history, |old(m.history)|, dst)
    ensures !m.faulty && !IsDir(old(m.now), tmp) && !IsDir(old(m.now), dst) && !(tmp < dst) && !(dst < tmp) ==> e.Nil?
    ensures !m.faulty && !e.Nil? && !(tmp < dst) ==> SameFile(old(m.now.files), m.now.files, dst)
    ensures e.Nil? ==> m.now.files == old(m.now.files)[dst := data] - {tmp}
  {
    e := WriteAndRename(m, tmp, dst, data);
    if !e.Nil? && tidy {
      ghost var failed := m.history;
      assert failed[|failed| - 1] == m.now && (|failed| == |old(m.history)| ==> failed == old(m.history));
      var ignored := m.Remove(tmp, {tmp, dst});
      PartKept(old(m.now.files), failed, m.now, |old(m.history)|, dst, data);
      if dst !in old(m.now.files) {
        GrowingMore(failed, |old(m.history)|, m.history, dst);
      }
    }
  }

  /** WriteManifestDir: the commit marker is written beside its place and renamed onto it. */
  method WriteManifestDir<X>(m: Machine<X>, c: Codec, dir: Path, man: Manifest) returns (e: Err)
    requires m.Valid() && !m.lies
    modifies m
    ensures m.Valid() && m.Only(Markers(dir))
    ensures OldOrPart(old(m.now.files), m.history, |old(m.history)|, ManifestPath(dir), c.encode(man))
    ensures ManifestPath(dir) !in old(m.now.files) ==> Growing(m.history, |old(m.history)|, ManifestPath(dir))
    ensures !m.faulty && !IsDir(old(m.now), PartPath(dir)) && !IsDir(old(m.now), ManifestPath(dir)) ==> e.Nil?
    ensures !m.faulty && !e.Nil? ==> SameFile(old(m.now.files), m.now.files, ManifestPath(dir))
    ensures e.Nil? ==> m.now.files == Publish(old(m.now.files), dir, c.encode(man))
  {
    assert ManifestPath(dir)[|dir|] != PartPath(dir)[|dir|];
    assert {PartPath(dir), ManifestPath(dir)} == Markers(dir);
    e := PublishFile(m, PartPath(dir), ManifestPath(dir), c.encode(man), false);
  }

  /** A publish that reports an error has committed man all the same. */
  ghost predicate FailsCommitted<X>(c: Codec, faulty: bool, a: Disk<X>, dir: Path, man: Manifest) {
    exists files, dirs, e ::
      && RenamePublishStep(faulty, a, PartPath(dir), ManifestPath(dir), a.(files := files, dirs := dirs), e)
      && !e.Nil? && Committed(c, files, dir) == Some(man)
  }

  /** From a written temporary, an error can hide a commit if and only if the store has
      faults: the rename copies, and then the temporary cannot be removed. */
  lemma FailsCommittedIff<X>(c: Codec, faulty: bool, a: Disk<X>, dir: Path, man: Manifest)
    requires PartPath(dir) in a.files && a.files[PartPath(dir)] == c.encode(man)
    requires !IsDir(a, PartPath(dir)) && !IsDir(a, ManifestPath(dir)) && Decode(c, c.encode(man)) == Some(man)
    ensures FailsCommitted(c, faulty, a, dir, man) <==> faulty
  {
    var tmp, dst := PartPath(dir), ManifestPath(dir);
    MarkerNames(dir);
    if faulty {
      var mid := a.(files := a.files[dst := a.files[tmp]]);
      FaultAfterCopy(a, tmp, dst);
      assert mid == a.(files := mid.files, dirs := a.dirs);
    } else if FailsCommitted(c, faulty, a, dir, man) {
      var files, dirs, e :| RenamePublishStep(faulty, a, tmp, dst, a.(files := files, dirs := dirs), e)
                            && !e.Nil? && Committed(c, files, dir) == Some(man);
      NoFaultNoError(a, tmp, dst, a.(files := files, dirs := dirs), e);
    }
  }

  lemma FaultAfterCopy<X>(a: Disk<X>, tmp: Path, dst: Path)
    requires tmp in a.files && !IsDir(a, dst) && tmp != dst
    ensures RenamePublishStep(true, a, tmp, dst, a.(files := a.files[dst := a.files[tmp]]), Fault)
  {
    var mid := a.(files := a.files[dst := a.files[tmp]]);
    assert RenameStep(true, a, tmp, dst, mid, Nil);
    assert RemoveStep(false, true, mid, tmp, mid, Fault);
    assert CleanUpStep(true, mid, tmp, mid, Fault);
    assert RenamedVia(true, a, tmp, dst, a.(files := mid.files), Nil, mid, Fault);
  }

  lemma NoFaultNoError<X>(a: Disk<X>, tmp: Path, dst: Path, b: Disk<X>, e: Err)
    requires RenamePublishStep(false, a, tmp, dst, b, e) && tmp in a.files && tmp != dst
    requires !IsDir(a, tmp) && !IsDir(a, dst) && !(tmp < dst)
    ensures e.Nil?
  {
    var renamed: map<Path, Bytes>, first :| RenamedVia(false, a, tmp, dst, a.(files := renamed), first, b, e);
    var mid := a.(files := renamed);
    RenameFailed(false, a, tmp, dst, mid, first);
    var last :| RemoveStep(false, false, mid, tmp, b, last) && e == if last.Fault? then last else Nil;
    RenameDone(false, a, tmp, dst, mid, b, last);
  }

  // ----- reading and deleting -----

  datatype ManifestRead = Absent | Broken | Read(m: Manifest)

  /** ReadManifestDir: open and decode; on a store without faults the three results are
      "no marker", "a marker that does not decode" and the decoded marker. */
  method ReadManifestDir<X>(m: Machine<X>, c: Codec, dir: Path) returns (r: ManifestRead)
    ensures r.Read? ==> Committed(c, m.now.files, dir) == Some(r.m)
    ensures r.Absent? ==> ManifestPath(dir) !in m.now.files
    ensures !m.faulty ==> (r.Read? <==> Committed(c, m.now.files, dir).Some?)
    ensures !m.faulty ==> (r.Absent? <==> ManifestPath(dir) !in m.now.files)
  {
    var fails: bool := *;
    if m.faulty && fails {
      return Broken;
    }
    if ManifestPath(dir) !in m.now.files {
      return Absent;
    }
    match Decode(c, m.now.files[ManifestPath(dir)])
    case None => r := Broken;
    case Some(x) => r := Read(x);
  }

  /** The path Store.Delete removes for a manifest entry, if any. */
  function EntryPath(dir: Path, f: ManifestFile): set<Path> { if f.path == "." then {} else {At(dir, f.path)} }

  /** What it removes for the first n entries. */
  function PathsOf(dir: Path, fs: seq<ManifestFile>, n: nat): set<Path>
    requires n <= |fs|
  {
    if n == 0 then {} else PathsOf(dir, fs, n - 1) + EntryPath(dir, fs[n - 1])
  }

  /** The paths Store.Delete removes after the marker. */
  function ListedPaths(dir: Path, fs: seq<ManifestFile>): set<Path> { PathsOf(dir, fs, |fs|) }

  method DeleteObject<X>(m: Machine<X>, p: Path) returns (e: Err)
    requires m.Valid() && !m.lies
    modifies m
    ensures m.Valid() && m.Only({p})
    ensures m.history == old(m.history) + [m.now]
    ensures m.now.files == old(m.now.files) || m.now.files == old(m.now.files) - {p}
    ensures m.now.dirs <= old(m.now.dirs)
    ensures e.Nil? ==> m.now.files == old(m.now.files) - {p}
    ensures !m.faulty && (p in old(m.now.files) || Below(old(m.now), p) == {}) ==> e.Nil?
  {
    e := m.Remove(p, {p});
    if e.NotExist? { e := Nil; }
  }

  /** Nothing lies below any of the listed files. */
  ghost predicate Bare<X>(d: Disk<X>, dir: Path, fs: seq<ManifestFile>) {
    forall i | 0 <= i < |fs| :: Below(d, At(dir, fs[i].path)) == {}
  }

  /** In a tree as a filesystem keeps it that is so of the files a manifest describes, and
      it stays so while files and directories go. */
  lemma AgreedBare<X>(d: Disk<X>, dir: Path, m: Manifest)
    requires TreeShaped(d) && Agrees(d.files, dir, m)
    ensures Bare(d, dir, m.files)
  {
    forall i | 0 <= i < |m.files| ensures Below(d, At(dir, m.files[i].path)) == {} {
      assert FileOfSize(d.files, At(dir, m.files[i].path), m.files[i].size);
    }
  }

  lemma BareLess<X>(a: Disk<X>, b: Disk<X>, dir: Path, fs: seq<ManifestFile>)
    requires Bare(a, dir, fs) && b.files.Keys <= a.files.Keys && b.dirs <= a.dirs
    ensures Bare(b, dir, fs)
  {
    forall i | 0 <= i < |fs| ensures Below(b, At(dir, fs[i].path)) == {} {
      assert Below(b, At(dir, fs[i].path)) <= Below(a, At(dir, fs[i].path));
    }
  }

  /** Every state from number k on has only files that were in base. */
  ghost predicate Dwindling<X>(base: Disk<X>, history: seq<Disk<X>>, from: nat) {
    forall k | from <= k < |history| :: history[k].files.Keys <= base.files.Keys
  }

  /** One turn of the loop of Store.Delete. */
  method DeleteEntry<X>(m: Machine<X>, dir: Path, f: ManifestFile) returns (e: Err)
    requires m.Valid() && !m.lies
    modifies m
    ensures m.Valid() && old(m.history) <= m.history && m.now.dirs <= old(m.now.dirs)
    ensures m.now.files.Keys <= old(m.now.files).Keys && Dwindling(old(m.now), m.history, |old(m.history)|)
    ensures e.Nil? ==> m.now.files == old(m.now.files) - EntryPath(dir, f)
    ensures !m.faulty && Below(old(m.now), At(dir, f.path)) == {} ==> e.Nil?
  {
    if f.path == "." { return Nil; }
    e := DeleteObject(m, At(dir, f.path));
  }

  lemma GoneMore(files: map<Path, Bytes>, gone: set<Path>, more: set<Path>)
    ensures files - gone - more == files - (gone + more)
  {
  }

  lemma DwindlingMore<X>(base: Disk<X>, first: seq<Disk<X>>, from: nat, history: seq<Disk<X>>)
    requires from <= |first| && first != [] && first <= history && Dwindling(base, first, from)
    requires first[|first| - 1].files.Keys <= base.files.Keys && Dwindling(first[|first| - 1], history, |first|)
    ensures Dwindling(base, history, from)
  {
    forall k | from <= k < |history| ensures history[k].files.Keys <= base.files.Keys {
      if k < |first| { assert history[k] == first[k]; }
    }
  }

  /** The loop of Store.Delete: a file is gone or still whole in every state. */
  method DeleteListed<X>(m: Machine<X>, dir: Path, fs: seq<ManifestFile>) returns (e: Err)
    requires m.Valid() && !m.lies
    modifies m
    ensures m.Valid() && old(m.history) <= m.history && m.now.files.Keys <= old(m.now.files).Keys
    ensures Dwindling(old(m.now), m.history, |old(m.history)|)
    ensures e.Nil? ==> m.now.files == old(m.now.files) - ListedPaths(dir, fs)
    ensures !m.faulty && Bare(old(m.now), dir, fs) ==> e.Nil?
  {
    e := Nil;
    for i := 0 to |fs|
      invariant m.Valid() && old(m.history) <= m.history
      invariant m.now.files == old(m.now.files) - PathsOf(dir, fs, i) && m.now.dirs <= old(m.now.dirs)
      invariant Dwindling(old(m.now), m.history, |old(m.history)|)
      invariant e.Nil?
    {
      if Bare(old(m.now), dir, fs) { BareLess(old(m.now), m.now, dir, fs); }
      ghost var first := m.history;
      e := DeleteEntry(m, dir, fs[i]);
      DwindlingMore(old(m.now), first, |old(m.history)|, m.history);
      if !e.Nil? { return; }
      GoneMore(old(m.now.files), PathsOf(dir, fs, i), EntryPath(dir, fs[i]));
    }
  }

  /** Store.Delete: un-commit first, then remove what the marker listed. Every state on the
      way is safe to read. A nil result has deleted the artifact if and only if the marker
      could be read; otherwise nothing at all has happened. On a store without faults that is
      if and only if the marker decodes, the result is nil, and nothing is committed after it. */
  method Delete<X>(m: Machine<X>, c: Codec, dir: Path) returns (e: Err, ghost read: bool)
    requires m.Valid() && !m.lies && CrashSafe(c, m.now.files, dir)
    modifies m
    ensures m.Valid() && old(m.history) <= m.history
    ensures forall k | |old(m.history)| <= k < |m.history| :: CrashSafe(c, m.history[k].files, dir)
    ensures e.Nil? ==> (Deleted(c, old(m.now.files), m.now.files, dir) <==> read)
    ensures !read ==> e.Nil? && m.now == old(m.now) && m.history == old(m.history)
    ensures !m.faulty ==> (read <==> Committed(c, old(m.now.files), dir).Some?)
    ensures !m.faulty ==> Committed(c, m.now.files, dir).None?
    ensures !m.faulty && TreeShaped(old(m.now)) ==> e.Nil?
  {
    var r := ReadManifestDir(m, c, dir);
    read := r.Read?;
    if !r.Read? {
      return Nil, read;
    }
    ghost var was := m.now;
    e := DeleteObject(m, ManifestPath(dir));
    if !e.Nil? { return; }
    if TreeShaped(was) {
      AgreedBare(was, dir, r.m);
      BareLess(was, m.now, dir, r.m.files);
    }
    e := DeleteListed(m, dir, r.m.files);
  }

  /** b is a without the marker and without everything a's marker listed. */
  ghost predicate Deleted(c: Codec, a: map<Path, Bytes>, b: map<Path, Bytes>, dir: Path) {
    && Committed(c, a, dir).Some?
    && b == a - {ManifestPath(dir)} - ListedPaths(dir, Committed(c, a, dir).value.files)
  }

  lemma {:induction false} PathsOfIff(dir: Path, fs: seq<ManifestFile>, n: nat, p: Path)
    requires n <= |fs|
    ensures p in PathsOf(dir, fs, n) <==> exists i :: 0 <= i < n && fs[i].path != "." && p == At(dir, fs[i].path)
  {
    if n > 0 { PathsOfIff(dir, fs, n - 1, p); }
  }

  /** What deletion has removed: the marker and every file it listed under a name, and nothing
      else; what is left is as it was. */
  lemma DeletedMeans(c: Codec, a: map<Path, Bytes>, b: map<Path, Bytes>, dir: Path, p: Path)
    requires Deleted(c, a, b, dir)
    ensures var fs := Committed(c, a, dir).value.files;
            p !in b <==> p !in a || p == ManifestPath(dir)
                         || exists i :: 0 <= i < |fs| && fs[i].path != "." && p == At(dir, fs[i].path)
    ensures p in b ==> b[p] == a[p]
  {
    var fs := Committed(c, a, dir).value.files;
    PathsOfIff(dir, fs, |fs|, p);
  }

  function OneFile(version: int, name: string, data: Bytes): Manifest {
    Manifest(version, FORMAT_DIR, "", None, [ManifestFile(name, |data|, DigestOf(data))], |data|)
  }

  /** An artifact of one file, whole and committed by a publisher of some version. */
  function Foreign(c: Codec, dir: Path, version: int, name: string, data: Bytes): map<Path, Bytes> {
    map[At(dir, name) := data, ManifestPath(dir) := c.encode(OneFile(version, name, data))]
  }

  lemma ForeignReads(c: Codec, dir: Path, version: int, name: string, data: Bytes)
    requires Lawful(c) && Name(name) && name != MANIFEST_NAME
    ensures At(dir, name) != ManifestPath(dir)
    ensures var files := Foreign(c, dir, version, name, data);
            && Committed(c, files, dir) ==
               (if version > MANIFEST_VERSION then None else Some(OneFile(version, name, data)))
            && Agrees(files, dir, OneFile(version, name, data))
    ensures ListedPaths(dir, OneFile(version, name, data).files) == {At(dir, name)}
  {
    MarkerNames(dir);
    if At(dir, name) == ManifestPath(dir) { AtInjective(dir, name, MANIFEST_NAME); }
    var man := OneFile(version, name, data);
    assert c.parse(c.encode(man)) == Some(man);
    assert man.files[0].path == name && |man.files| == 1;
    assert PathsOf(dir, man.files, 1) == PathsOf(dir, man.files, 0) + EntryPath(dir, man.files[0]);
  }

  /** The artifact of a newer publisher is one that Store.Delete reports as deleted and leaves
      on the store, marker and all; this version's own it does delete. */
  method DeleteForeign(c: Codec, dir: Path, version: int, name: string, data: Bytes)
    returns (e: Err, after: map<Path, Bytes>)
    requires Lawful(c) && Name(name) && name != MANIFEST_NAME
    ensures version > MANIFEST_VERSION ==> e.Nil? && after == Foreign(c, dir, version, name, data)
    ensures version <= MANIFEST_VERSION && e.Nil? ==> after == map[]
  {
    var files := Foreign(c, dir, version, name, data);
    ForeignReads(c, dir, version, name, data);
    e, after := DeleteFrom(c, dir, files);
    if version <= MANIFEST_VERSION && e.Nil? {
      assert after == files - {ManifestPath(dir)} - {At(dir, name)};
    }
  }

  /** Store.Delete on a store without faults that holds just these files. */
  method DeleteFrom(c: Codec, dir: Path, files: map<Path, Bytes>) returns (e: Err, after: map<Path, Bytes>)
    requires CrashSafe(c, files, dir)
    ensures Committed(c, files, dir).None? ==> e.Nil? && after == files
    ensures Committed(c, files, dir).Some? && e.Nil? ==> Deleted(c, files, after, dir)
  {
    var m := new Machine(Disk(files, {}, ()), false, false, false);
    ghost var read;
    e, read := Delete(m, c, dir);
    after := m.now.files;
  }
}
