/** The container's /dev/shm travels beside the artifact (internal/restore/shm.go) and is
    unpacked into the new pod's by the archive extractor of internal/restore/bundle.go. */
module Shm {
  import opened Paths
  import opened Storage
  import opened Manifests
  import opened Commit

  const MAX_SHM_CAPTURE := 1073741824
  const MAX_TAR_SIZE := 1099511627776

  /** One directory entry, as ReadDir and Info report it. */
  datatype Entry = Entry(name: string, regular: bool, data: Bytes)

  /** A flat directory: proper names, each once. */
  ghost predicate Listing(es: seq<Entry>) {
    AllProper(es) && forall i, j | 0 <= i < j < |es| :: es[i].name != es[j].name
  }

  function RegularSize(es: seq<Entry>): nat {
    if es == [] then 0 else RegularSize(es[..|es| - 1]) + if es[|es| - 1].regular then |es[|es| - 1].data| else 0
  }

  /** The regular files that were still there when they were opened. */
  function Archived(es: seq<Entry>, gone: set<string>): seq<TarEntry> {
    if es == [] then [] else
    var before, e := Archived(es[..|es| - 1], gone), es[|es| - 1];
    if e.regular && e.name !in gone then before + [TarEntry(e.name, Regular, e.data)] else before
  }

  datatype Capture = Nothing | Failed | Captured(entries: seq<TarEntry>)

  /** A regular file that vanished after it was listed, before its size was asked for. */
  predicate Vanished(es: seq<Entry>, lost: set<string>) {
    exists i | 0 <= i < |es| :: es[i].regular && es[i].name in lost
  }

  /** The loop of CaptureShm over a directory that does not change, except that files vanish:
      those in lost between the listing and the question for their size, those in gone
      between that and the open. */
  method ArchiveAll(es: seq<Entry>, lost: set<string>, gone: set<string>) returns (r: Capture)
    ensures r.Captured? || r.Failed?
    ensures r.Failed? <==> Vanished(es, lost) || RegularSize(es) > MAX_SHM_CAPTURE
    ensures r.Captured? ==> r.entries == Archived(es, gone)
  {
    var out: seq<TarEntry> := [];
    var total := 0;
    for i := 0 to |es|
      invariant out == Archived(es[..i], gone) && total == RegularSize(es[..i]) <= MAX_SHM_CAPTURE
      invariant forall j | 0 <= j < i :: !(es[j].regular && es[j].name in lost)
    {
      assert es[..i + 1][..i] == es[..i];
      if es[i].regular {
        if es[i].name in lost { return Failed; }
        total := total + |es[i].data|;
        if total > MAX_SHM_CAPTURE {
          SizeGrows(es, i + 1);
          return Failed;
        }
        if es[i].name !in gone {
          out := out + [TarEntry(es[i].name, Regular, es[i].data)];
        }
      }
    }
    assert es[..|es|] == es;
    r := Captured(out);
  }

  datatype Mount = Mount(destination: string, source: string)
  /** spec.dump: not there, unreadable or no JSON, or read. */
  datatype SpecDump = NoSpec | BadSpec | Spec(mounts: seq<Mount>)

  const SHM_PATH := "/dev/shm"

  /** source is that of the first mount at dest, or "" where there is none. */
  ghost predicate FirstAt(mounts: seq<Mount>, dest: string, source: string) {
    || (source == "" && forall i | 0 <= i < |mounts| :: mounts[i].destination != dest)
    || exists i :: 0 <= i < |mounts| && mounts[i] == Mount(dest, source)
                   && forall j | 0 <= j < i :: mounts[j].destination != dest
  }

  method SpecMountSource(mounts: seq<Mount>, dest: string) returns (source: string)
    ensures FirstAt(mounts, dest, source)
  {
    for i := 0 to |mounts|
      invariant forall j | 0 <= j < i :: mounts[j].destination != dest
    {
      if mounts[i].destination == dest { return mounts[i].source; }
    }
    source := "";
  }

  /** CaptureShm. list says what reading a source directory gives, directly or below the
      host's root: None where it cannot be read. */
  method CaptureShm(spec: SpecDump, list: string -> Option<seq<Entry>>, lost: set<string>, gone: set<string>)
    returns (r: Capture, source: string)
    ensures spec.Spec? ==> FirstAt(spec.mounts, "/dev/shm", source)
    ensures spec.BadSpec? ==> r.Failed?
    ensures spec.NoSpec? || (spec.Spec? && source == "") ==> r.Nothing?
    ensures spec.Spec? && source != "" ==>
              && (r.Nothing? <==> list(source) == Some([]))
              && (r.Failed? <==> list(source).None?
                                 || Vanished(list(source).value, lost)
                                 || RegularSize(list(source).value) > MAX_SHM_CAPTURE)
              && (r.Captured? ==> r.entries == Archived(list(source).value, gone))
  {
    source := "";
    if spec.NoSpec? { return Nothing, source; }
    if spec.BadSpec? { return Failed, source; }
    source := SpecMountSource(spec.mounts, SHM_PATH);
    if source == "" { return Nothing, source; }
    var es := list(source);
    if es.None? { return Failed, source; }
    if es.value == [] { return Nothing, source; }
    r := ArchiveAll(es.value, lost, gone);
  }

  lemma {:induction false} SizeGrows(es: seq<Entry>, i: nat)
    requires i <= |es|
    ensures RegularSize(es[..i]) <= RegularSize(es)
  {
    if i < |es| {
      assert es[..|es| - 1][..i] == es[..i];
      SizeGrows(es[..|es| - 1], i);
    } else {
      assert es[..i] == es;
    }
  }

  // ----- the extractor -----

  predicate Escapes(name: string) { ".." <= name || Rooted(name) }

  /** What the extractor does with one archive entry, decided by its cleaned name and type;
      links are not modelled. */
  datatype Extraction = Pass | Reject | Make(at: Path) | Unpack(member: Member)

  function Classify(dir: Path, e: TarEntry): Extraction {
    var name := Clean(e.name);
    if name == "." then Pass
    else if Escapes(name) then Reject
    else match e.kind
         case Regular => Unpack(MemberAt(dir, name, e.data))
         case Directory => Make(At(dir, name))
         case Unsupported => Pass
  }

  function Plan(dir: Path, es: seq<TarEntry>): (plan: seq<Extraction>)
    ensures |plan| == |es|
  {
    if es == [] then [] else Plan(dir, es[..|es| - 1]) + [Classify(dir, es[|es| - 1])]
  }

  /** The files a plan writes, in order. */
  function Unpacked(plan: seq<Extraction>): seq<Member> {
    if plan == [] then [] else
    var before, x := Unpacked(plan[..|plan| - 1]), plan[|plan| - 1];
    if x.Unpack? then before + [x.member] else before
  }

  function PayloadSize(plan: seq<Extraction>): nat {
    if plan == [] then 0 else
    PayloadSize(plan[..|plan| - 1]) + Payload(plan[|plan| - 1])
  }

  ghost predicate WithinLimits(plan: seq<Extraction>) {
    |plan| <= MAX_TAR_ENTRIES && PayloadSize(plan) <= MAX_TAR_SIZE
  }

  function Parent(p: Path): Path
    requires p != []
  {
    p[..|p| - 1]
  }

  /** One entry on a filesystem whose operations succeed where they can: the directories above
      are made, which a file in their place prevents, and a file cannot replace a directory. */
  predicate Allowed<X>(d: Disk<X>, x: Extraction) {
    match x
    case Pass => true
    case Reject => false
    case Make(p) => !FileOnTheWay(d.files, p)
    case Unpack(m) => m.at != [] && !FileOnTheWay(d.files, Parent(m.at)) && !IsDir(d, m.at)
  }

  function Advance<X>(d: Disk<X>, x: Extraction): Disk<X>
    requires Allowed(d, x)
  {
    match x
    case Pass => d
    case Make(p) => d.(dirs := d.dirs + Prefixes(p))
    case Unpack(m) => d.(dirs := d.dirs + Prefixes(Parent(m.at)), files := d.files[m.at := m.data])
  }

  /** x puts a file where y needs a directory. */
  predicate Clashes(x: Extraction, y: Extraction) {
    x.Unpack? && ((y.Unpack? && x.member.at < y.member.at) || (y.Make? && x.member.at <= y.at))
  }

  /** The first n entries can all be extracted, as can be seen from the target as it is and
      from the names: each is allowed on its own, and no two of them clash. */
  ghost predicate Unobstructed<X>(d: Disk<X>, plan: seq<Extraction>, n: nat)
    requires n <= |plan|
  {
    && (forall i | 0 <= i < n :: Allowed(d, plan[i]))
    && (forall i, j | 0 <= i < n && 0 <= j < n :: !Clashes(plan[i], plan[j]))
  }

  /** One of the first n entries puts a file at p. */
  ghost predicate Puts(plan: seq<Extraction>, n: nat, p: Path)
    requires n <= |plan|
  {
    exists i :: 0 <= i < n && PutsAt(plan[i], p)
  }

  predicate PutsAt(x: Extraction, p: Path) { x.Unpack? && x.member.at == p }

  /** One of the first n entries needs a directory at p. */
  ghost predicate Needs(plan: seq<Extraction>, n: nat, p: Path)
    requires n <= |plan|
  {
    exists i :: 0 <= i < n && NeedsAt(plan[i], p)
  }

  predicate NeedsAt(x: Extraction, p: Path) { (x.Unpack? && p < x.member.at) || (x.Make? && p <= x.at) }

  /** What is where after the first n entries of the plan. */
  ghost predicate Reached<X>(d: Disk<X>, plan: seq<Extraction>, n: nat, e: Disk<X>)
    requires n <= |plan|
  {
    && e.rest == d.rest
    && (forall p :: p in e.files <==> p in d.files || Puts(plan, n, p))
    && (forall p :: IsDir(e, p) <==> IsDir(d, p) || Needs(plan, n, p))
  }

  lemma DirsMore<X>(d: Disk<X>, p: Path, q: Path)
    ensures IsDir(d.(dirs := d.dirs + Prefixes(p)), q) <==> IsDir(d, q) || q <= p
  {
    var e := d.(dirs := d.dirs + Prefixes(p));
    IsDirIff(d, q);
    IsDirIff(e, q);
    if q <= p { assert q == p[..|q|] && q in Prefixes(p); }
    if x :| x in Below(e, q) && x !in Below(d, q) { assert x <= p; }
    if x :| x in Below(d, q) { assert x in Below(e, q); }
  }

  lemma FileMore<X>(d: Disk<X>, p: Path, data: Bytes, q: Path)
    ensures IsDir(d.(files := d.files[p := data]), q) <==> IsDir(d, q) || q < p
  {
    var e := d.(files := d.files[p := data]);
    IsDirIff(d, q);
    IsDirIff(e, q);
    if q < p { assert p in Below(e, q); }
    if x :| x in Below(e, q) && x !in Below(d, q) { assert x == p; }
    if x :| x in Below(d, q) { assert x in Below(e, q); }
  }

  lemma AdvanceDirs<X>(d: Disk<X>, x: Extraction, q: Path)
    requires Allowed(d, x)
    ensures IsDir(Advance(d, x), q) <==> IsDir(d, q) || NeedsAt(x, q)
    ensures q in Advance(d, x).files <==> q in d.files || PutsAt(x, q)
  {
    match x {
      case Pass =>
      case Make(p) => DirsMore(d, p, q);
      case Unpack(m) =>
        DirsMore(d, Parent(m.at), q);
        FileMore(d.(dirs := d.dirs + Prefixes(Parent(m.at))), m.at, m.data, q);
        BelowParent(m.at, q);
    }
  }

  lemma BelowParent(p: Path, q: Path)
    requires p != []
    ensures q <= Parent(p) <==> q < p
  {
    if q < p { assert q == p[..|q|] == Parent(p)[..|q|]; }
    if q <= Parent(p) { assert q == Parent(p)[..|q|] == p[..|q|]; }
  }

  lemma ReachedMore<X>(d: Disk<X>, plan: seq<Extraction>, n: nat, e: Disk<X>)
    requires n < |plan| && Reached(d, plan, n, e) && Allowed(e, plan[n])
    ensures Reached(d, plan, n + 1, Advance(e, plan[n]))
  {
    var f := Advance(e, plan[n]);
    forall p
      ensures p in f.files <==> p in d.files || Puts(plan, n + 1, p)
      ensures IsDir(f, p) <==> IsDir(d, p) || Needs(plan, n + 1, p)
    {
      AdvanceDirs(e, plan[n], p);
      PutsMore(plan, n, p);
    }
  }

  lemma PutsMore(plan: seq<Extraction>, n: nat, p: Path)
    requires n < |plan|
    ensures Puts(plan, n + 1, p) <==> Puts(plan, n, p) || PutsAt(plan[n], p)
    ensures Needs(plan, n + 1, p) <==> Needs(plan, n, p) || NeedsAt(plan[n], p)
  {
  }

  /** A file stands on the way to p exactly when one did or when an entry has put one there. */
  lemma OnTheWay<X>(d: Disk<X>, plan: seq<Extraction>, n: nat, e: Disk<X>, p: Path)
    requires n <= |plan| && Reached(d, plan, n, e)
    ensures FileOnTheWay(e.files, p) <==>
            FileOnTheWay(d.files, p) || exists i :: 0 <= i < n && plan[i].Unpack? && plan[i].member.at <= p
  {
    if k :| 0 <= k <= |p| && p[..k] in e.files && p[..k] !in d.files {
      assert Puts(plan, n, p[..k]);
      var i :| 0 <= i < n && PutsAt(plan[i], p[..k]);
      assert plan[i].member.at <= p;
    }
    if i :| 0 <= i < n && plan[i].Unpack? && plan[i].member.at <= p {
      assert p[..|plan[i].member.at|] == plan[i].member.at && PutsAt(plan[i], plan[i].member.at);
      assert Puts(plan, n, plan[i].member.at);
    }
  }

  /** Whether the next entry is allowed can be seen from the start and from the names. */
  lemma AllowedIff<X>(d: Disk<X>, plan: seq<Extraction>, n: nat, e: Disk<X>)
    requires n < |plan| && Reached(d, plan, n, e)
    ensures Allowed(e, plan[n]) <==>
            && Allowed(d, plan[n])
            && forall i | 0 <= i < n :: !Clashes(plan[i], plan[n]) && !Clashes(plan[n], plan[i])
  {
    match plan[n] {
      case Pass =>
      case Reject =>
      case Make(p) => OnTheWay(d, plan, n, e, p);
      case Unpack(m) =>
        if m.at != [] {
          OnTheWay(d, plan, n, e, Parent(m.at));
          forall i | 0 <= i < n && plan[i].Unpack?
            ensures plan[i].member.at <= Parent(m.at) <==> plan[i].member.at < m.at
          {
            BelowParent(m.at, plan[i].member.at);
          }
          assert Needs(plan, n, m.at) <==> exists i :: 0 <= i < n && Clashes(plan[n], plan[i]) by {
            if Needs(plan, n, m.at) {
              var i :| 0 <= i < n && NeedsAt(plan[i], m.at);
              assert Clashes(plan[n], plan[i]);
            }
            if i :| 0 <= i < n && Clashes(plan[n], plan[i]) { assert NeedsAt(plan[i], m.at); }
          }
        }
    }
  }

  /** One entry more: obstructed before, or by it. */
  lemma UnobstructedMore<X>(d: Disk<X>, plan: seq<Extraction>, n: nat)
    requires n < |plan|
    ensures Unobstructed(d, plan, n + 1) <==>
            && Unobstructed(d, plan, n) && Allowed(d, plan[n])
            && forall i | 0 <= i < n :: !Clashes(plan[i], plan[n]) && !Clashes(plan[n], plan[i])
  {
    assert !Clashes(plan[n], plan[n]);
  }

  /** Extraction keeps a tree a tree. */
  lemma AdvanceTree<X>(d: Disk<X>, x: Extraction)
    requires Allowed(d, x) && TreeShaped(d)
    ensures TreeShaped(Advance(d, x))
  {
    var e := Advance(d, x);
    forall p, q | p in e.files && (q in e.files || q in e.dirs) ensures p !in e.dirs && !(p < q) {
      AdvanceTreeAt(d, x, p, q);
    }
  }

  lemma AdvanceTreeAt<X>(d: Disk<X>, x: Extraction, p: Path, q: Path)
    requires Allowed(d, x) && TreeShaped(d)
    requires p in Advance(d, x).files && (q in Advance(d, x).files || q in Advance(d, x).dirs)
    ensures p !in Advance(d, x).dirs && !(p < q)
  {
    var e := Advance(d, x);
    AdvanceDirs(d, x, p);
    assert IsDir(d, p) ==> p !in d.files by {
      if p in d.files && IsDir(d, p) {
        IsDirIff(d, p);
      }
    }
    if p in e.dirs || p < q {
      assert IsDir(e, p);
      if NeedsAt(x, p) && p in d.files { FileAbove(d, x, p); }
    }
  }

  /** An allowed entry needs no directory where there is a file. */
  lemma FileAbove<X>(d: Disk<X>, x: Extraction, p: Path)
    requires Allowed(d, x) && NeedsAt(x, p)
    ensures p !in d.files
  {
    match x {
      case Make(at) => assert at[..|p|] == p;
      case Unpack(m) => BelowParent(m.at, p); assert Parent(m.at)[..|p|] == p;
    }
  }

  /** What holds after the first n entries. */
  ghost predicate Extracting<X>(d: Disk<X>, plan: seq<Extraction>, n: nat, e: Disk<X>)
    requires n <= |plan|
  {
    && Reached(d, plan, n, e) && Unobstructed(d, plan, n)
    && e.files == Apply(d.files, Unpacked(plan[..n])) && (TreeShaped(d) ==> TreeShaped(e))
  }

  /** The next entry: done, or a reason why the plan cannot be. */
  lemma ExtractNext<X>(d: Disk<X>, plan: seq<Extraction>, n: nat, e: Disk<X>)
    requires n < |plan| && Extracting(d, plan, n, e)
    ensures Allowed(e, plan[n]) ==> Extracting(d, plan, n + 1, Advance(e, plan[n]))
    ensures !Allowed(e, plan[n]) ==> !Unobstructed(d, plan, |plan|)
  {
    AllowedIff(d, plan, n, e);
    UnobstructedMore(d, plan, n);
    if Allowed(e, plan[n]) {
      Prefix(plan, n, d.files);
      ReachedMore(d, plan, n, e);
      if TreeShaped(d) { AdvanceTree(e, plan[n]); }
    } else {
      ObstructedOn(d, plan, n + 1);
    }
  }

  /** extractTarOpts. Without a failing read or write it succeeds if and only if the archive
      is complete and within the limits, no name leaves the target, and nothing stands in the
      way: no directory where a file goes and no file where a directory is needed, in the
      target as it was or among the entries. A success has written the members over what was
      there. */
  method ExtractTar<X>(d: Disk<X>, plan: seq<Extraction>, complete: bool, faulty: bool)
    returns (ok: bool, after: Disk<X>)
    ensures ok ==> complete && WithinLimits(plan) && Unobstructed(d, plan, |plan|)
    ensures !faulty && complete && WithinLimits(plan) && Unobstructed(d, plan, |plan|) ==> ok
    ensures ok ==> after.files == Apply(d.files, Unpacked(plan)) && Reached(d, plan, |plan|, after)
    ensures TreeShaped(d) ==> TreeShaped(after)
  {
    after := d;
    var total := 0;
    for i := 0 to |plan|
      invariant i <= MAX_TAR_ENTRIES && total == PayloadSize(plan[..i]) <= MAX_TAR_SIZE
      invariant Extracting(d, plan, i, after)
    {
      Prefix(plan, i, d.files);
      if i + 1 > MAX_TAR_ENTRIES { return false, after; }
      total := total + Payload(plan[i]);
      if total > MAX_TAR_SIZE { return false, after; }
      var fails: bool := *;
      if faulty && fails { return false, after; }
      ExtractNext(d, plan, i, after);
      if !Allowed(after, plan[i]) { return false, after; }
      after := Advance(after, plan[i]);
    }
    assert plan[..|plan|] == plan;
    ok := complete;
  }

  function Payload(x: Extraction): nat { if x.Unpack? then |x.member.data| else 0 }

  /** What one entry adds to the total and to the files. */
  lemma Prefix(plan: seq<Extraction>, i: nat, files: map<Path, Bytes>)
    requires i < |plan|
    ensures PayloadSize(plan[..i + 1]) == PayloadSize(plan[..i]) + Payload(plan[i]) <= PayloadSize(plan)
    ensures var before := Apply(files, Unpacked(plan[..i]));
            Apply(files, Unpacked(plan[..i + 1])) ==
            if plan[i].Unpack? then before[plan[i].member.at := plan[i].member.data] else before
  {
    assert plan[..i + 1][..i] == plan[..i];
    PayloadGrows(plan, i + 1);
    var ms := Unpacked(plan[..i]);
    if plan[i].Unpack? { assert (ms + [plan[i].member])[..|ms|] == ms; }
  }

  /** Once obstructed, a plan stays so. */
  lemma ObstructedOn<X>(d: Disk<X>, plan: seq<Extraction>, n: nat)
    requires n <= |plan|
    ensures Unobstructed(d, plan, |plan|) ==> Unobstructed(d, plan, n)
  {
  }

  lemma {:induction false} PayloadGrows(plan: seq<Extraction>, i: nat)
    requires i <= |plan|
    ensures PayloadSize(plan[..i]) <= PayloadSize(plan)
  {
    if i < |plan| {
      assert plan[..|plan| - 1][..i] == plan[..i];
      PayloadGrows(plan[..|plan| - 1], i);
    } else {
      assert plan[..i] == plan;
    }
  }

  // ----- the same, said of the archive -----

  predicate Itself(e: TarEntry) { Clean(e.name) == "." }

  /** A name that leaves the target, or that starts as one would. */
  predicate Leaves(e: TarEntry) { !Itself(e) && (".." <= Clean(e.name) || Rooted(Clean(e.name))) }

  predicate FileIn(e: TarEntry) { e.kind.Regular? && !Itself(e) }

  predicate FolderIn(e: TarEntry) { e.kind.Directory? && !Itself(e) }

  function Spot(dir: Path, e: TarEntry): Path { At(dir, Clean(e.name)) }

  function FileBytes(es: seq<TarEntry>): nat {
    if es == [] then 0 else FileBytes(es[..|es| - 1]) + if Unpacks(es[|es| - 1]) then |es[|es| - 1].data| else 0
  }

  /** A file that is written: not the target itself, and not refused. */
  predicate Unpacks(e: TarEntry) { FileIn(e) && !Leaves(e) }

  /** The archive fits into the target: no name leaves it, each file can be written as things
      are, no file is on the way to a directory, and no file of the archive is where one of its
      directories is to be, or above one of its files. */
  ghost predicate Fits<X>(d: Disk<X>, dir: Path, es: seq<TarEntry>) {
    && (forall i | 0 <= i < |es| :: !Leaves(es[i]))
    && (forall i | 0 <= i < |es| && FileIn(es[i]) :: Writable(d, Spot(dir, es[i])))
    && (forall i | 0 <= i < |es| && FolderIn(es[i]) :: !FileOnTheWay(d.files, Spot(dir, es[i])))
    && (forall i, j | 0 <= i < |es| && 0 <= j < |es| && FileIn(es[i]) ::
          && (FileIn(es[j]) ==> !(Spot(dir, es[i]) < Spot(dir, es[j])))
          && (FolderIn(es[j]) ==> !(Spot(dir, es[i]) <= Spot(dir, es[j]))))
  }

  /** And it is within the limits. */
  ghost predicate Takes<X>(d: Disk<X>, dir: Path, es: seq<TarEntry>) {
    |es| <= 1048576 && FileBytes(es) <= 1099511627776 && Fits(d, dir, es)
  }

  /** File i is written, and no later one over it. */
  predicate LastIn(dir: Path, es: seq<TarEntry>, i: nat)
    requires i < |es|
  {
    FileIn(es[i]) && forall j | i < j < |es| && FileIn(es[j]) :: Spot(dir, es[j]) != Spot(dir, es[i])
  }

  /** What an extraction comes to: every file at its name with its own bytes, the last of those
      at one place; every directory there; and no other file touched. */
  ghost predicate Filled<X>(d: Disk<X>, after: Disk<X>, dir: Path, es: seq<TarEntry>) {
    && (forall i | 0 <= i < |es| && LastIn(dir, es, i) ::
          Spot(dir, es[i]) in after.files && after.files[Spot(dir, es[i])] == es[i].data)
    && (forall i | 0 <= i < |es| && FolderIn(es[i]) :: IsDir(after, Spot(dir, es[i])))
    && (forall p :: SameFile(d.files, after.files, p)
                    || exists i :: 0 <= i < |es| && FileIn(es[i]) && p == Spot(dir, es[i]))
  }

  lemma {:induction false} PlanAt(dir: Path, es: seq<TarEntry>, i: nat)
    requires i < |es|
    ensures Plan(dir, es)[i] == Classify(dir, es[i])
  {
    if i < |es| - 1 { PlanAt(dir, es[..|es| - 1], i); }
  }

  lemma EntryPlanned(dir: Path, e: TarEntry)
    ensures Classify(dir, e).Reject? <==> Leaves(e)
    ensures Classify(dir, e).Unpack? <==> Unpacks(e)
    ensures !Leaves(e) ==> (Classify(dir, e).Make? <==> FolderIn(e))
    ensures Classify(dir, e).Unpack? ==> Classify(dir, e).member == MemberAt(dir, Clean(e.name), e.data)
    ensures Classify(dir, e).Make? ==> Classify(dir, e).at == Spot(dir, e)
  {
  }

  lemma FitsIff<X>(d: Disk<X>, dir: Path, es: seq<TarEntry>)
    ensures Unobstructed(d, Plan(dir, es), |es|) <==> Fits(d, dir, es)
  {
    var plan := Plan(dir, es);
    forall i | 0 <= i < |es| ensures plan[i] == Classify(dir, es[i]) && EntryIs(dir, es[i], plan[i]) {
      PlanAt(dir, es, i);
      EntryPlanned(dir, es[i]);
    }
    if Unobstructed(d, plan, |es|) { UnobstructedFits(d, dir, es, plan); }
    if Fits(d, dir, es) { FitsUnobstructed(d, dir, es, plan); }
  }

  /** What the plan has for an entry. */
  ghost predicate EntryIs(dir: Path, e: TarEntry, x: Extraction) {
    && (x.Reject? <==> Leaves(e)) && (x.Unpack? <==> Unpacks(e)) && (!Leaves(e) ==> (x.Make? <==> FolderIn(e)))
    && (x.Unpack? ==> x.member.at == Spot(dir, e) && x.member.data == e.data) && (x.Make? ==> x.at == Spot(dir, e))
  }

  lemma UnobstructedFits<X>(d: Disk<X>, dir: Path, es: seq<TarEntry>, plan: seq<Extraction>)
    requires |plan| == |es| && forall i | 0 <= i < |es| :: EntryIs(dir, es[i], plan[i])
    requires Unobstructed(d, plan, |es|)
    ensures Fits(d, dir, es)
  {
    forall i | 0 <= i < |es|
      ensures !Leaves(es[i]) && (FileIn(es[i]) ==> Writable(d, Spot(dir, es[i])))
              && (FolderIn(es[i]) ==> !FileOnTheWay(d.files, Spot(dir, es[i])))
    {
      assert Allowed(d, plan[i]) && EntryIs(dir, es[i], plan[i]);
    }
    forall i, j | 0 <= i < |es| && 0 <= j < |es| && FileIn(es[i])
      ensures FileIn(es[j]) ==> !(Spot(dir, es[i]) < Spot(dir, es[j]))
      ensures FolderIn(es[j]) ==> !(Spot(dir, es[i]) <= Spot(dir, es[j]))
    {
      assert EntryIs(dir, es[i], plan[i]) && EntryIs(dir, es[j], plan[j]) && !Clashes(plan[i], plan[j]);
    }
  }

  lemma FitsUnobstructed<X>(d: Disk<X>, dir: Path, es: seq<TarEntry>, plan: seq<Extraction>)
    requires |plan| == |es| && forall i | 0 <= i < |es| :: EntryIs(dir, es[i], plan[i])
    requires Fits(d, dir, es)
    ensures Unobstructed(d, plan, |es|)
  {
    forall i | 0 <= i < |es| ensures Allowed(d, plan[i]) { assert EntryIs(dir, es[i], plan[i]) && !Leaves(es[i]); }
    forall i, j | 0 <= i < |es| && 0 <= j < |es| ensures !Clashes(plan[i], plan[j]) {
      assert EntryIs(dir, es[i], plan[i]) && EntryIs(dir, es[j], plan[j]) && !Leaves(es[i]) && !Leaves(es[j]);
    }
  }

  lemma {:induction false} BytesPlanned(dir: Path, es: seq<TarEntry>)
    ensures PayloadSize(Plan(dir, es)) == FileBytes(es)
  {
    if es != [] {
      BytesPlanned(dir, es[..|es| - 1]);
      EntryPlanned(dir, es[|es| - 1]);
    }
  }

  lemma TakesIff<X>(d: Disk<X>, dir: Path, es: seq<TarEntry>)
    ensures WithinLimits(Plan(dir, es)) && Unobstructed(d, Plan(dir, es), |es|) <==> Takes(d, dir, es)
  {
    FitsIff(d, dir, es);
    BytesPlanned(dir, es);
  }

  /** The files once the archive is unpacked over them. */
  function Over(files: map<Path, Bytes>, dir: Path, es: seq<TarEntry>): map<Path, Bytes> {
    Apply(files, Unpacked(Plan(dir, es)))
  }

  lemma OverLast(files: map<Path, Bytes>, dir: Path, es: seq<TarEntry>)
    requires es != []
    ensures var before, e := Over(files, dir, es[..|es| - 1]), es[|es| - 1];
            Over(files, dir, es) == if Unpacks(e) then before[Spot(dir, e) := e.data] else before
  {
    EntryPlanned(dir, es[|es| - 1]);
  }

  lemma {:induction false} SpotHolds(files: map<Path, Bytes>, dir: Path, es: seq<TarEntry>, i: nat)
    requires i < |es| && LastIn(dir, es, i) && forall j | 0 <= j < |es| :: !Leaves(es[j])
    ensures Spot(dir, es[i]) in Over(files, dir, es) && Over(files, dir, es)[Spot(dir, es[i])] == es[i].data
  {
    var n := |es| - 1;
    OverLast(files, dir, es);
    if i < n {
      SpotHolds(files, dir, es[..n], i);
      assert FileIn(es[n]) ==> Spot(dir, es[n]) != Spot(dir, es[i]);
    }
  }

  lemma {:induction false} SpotElsewhere(files: map<Path, Bytes>, dir: Path, es: seq<TarEntry>, p: Path)
    requires forall i | 0 <= i < |es| && FileIn(es[i]) :: Spot(dir, es[i]) != p
    ensures SameFile(files, Over(files, dir, es), p)
  {
    if es != [] {
      SpotElsewhere(files, dir, es[..|es| - 1], p);
      OverLast(files, dir, es);
    }
  }

  /** A plan carried out has filled the target with the archive. */
  lemma PlanFills<X>(d: Disk<X>, after: Disk<X>, dir: Path, es: seq<TarEntry>)
    requires Fits(d, dir, es) && after.files == Apply(d.files, Unpacked(Plan(dir, es)))
    requires Reached(d, Plan(dir, es), |es|, after)
    ensures Filled(d, after, dir, es)
  {
    forall i | 0 <= i < |es| && LastIn(dir, es, i)
      ensures Spot(dir, es[i]) in after.files && after.files[Spot(dir, es[i])] == es[i].data
    {
      SpotHolds(d.files, dir, es, i);
    }
    forall i | 0 <= i < |es| && FolderIn(es[i]) ensures IsDir(after, Spot(dir, es[i])) {
      PlanAt(dir, es, i);
      EntryPlanned(dir, es[i]);
      assert NeedsAt(Plan(dir, es)[i], Spot(dir, es[i])) && Needs(Plan(dir, es), |es|, Spot(dir, es[i]));
    }
    forall p ensures SameFile(d.files, after.files, p)
                     || exists i :: 0 <= i < |es| && FileIn(es[i]) && p == Spot(dir, es[i])
    {
      if forall i | 0 <= i < |es| && FileIn(es[i]) :: Spot(dir, es[i]) != p { SpotElsewhere(d.files, dir, es, p); }
    }
  }

  // ----- there and back -----

  /** The regular files of a listing that were captured, as members of the target directory. */
  function Carried(dir: Path, es: seq<Entry>, gone: set<string>): seq<Member> {
    if es == [] then [] else
    var before, e := Carried(dir, es[..|es| - 1], gone), es[|es| - 1];
    if e.regular && e.name !in gone then before + [Member(e.name, dir + [e.name], e.data)] else before
  }

  /** A name the extractor takes for an escape although it is only a name. */
  predicate DotDotName(e: Entry, gone: set<string>) { e.regular && e.name !in gone && ".." <= e.name }

  lemma ClassifyPlain(dir: Path, e: Entry)
    requires Proper(e.name)
    ensures Classify(dir, TarEntry(e.name, Regular, e.data)) ==
            if ".." <= e.name then Reject else Unpack(Member(e.name, dir + [e.name], e.data))
  {
    AtSegment(dir, e.name);
  }

  /** What a captured name becomes on extraction. */
  function Extracted(dir: Path, e: Entry): Extraction {
    if ".." <= e.name then Reject else Unpack(Member(e.name, dir + [e.name], e.data))
  }

  function PlanFor(dir: Path, es: seq<Entry>, gone: set<string>): seq<Extraction> {
    if es == [] then [] else
    var before, e := PlanFor(dir, es[..|es| - 1], gone), es[|es| - 1];
    if e.regular && e.name !in gone then before + [Extracted(dir, e)] else before
  }

  lemma PlanLast(dir: Path, before: seq<TarEntry>, e: Entry)
    requires Proper(e.name)
    ensures Plan(dir, before + [TarEntry(e.name, Regular, e.data)]) == Plan(dir, before) + [Extracted(dir, e)]
  {
    var x := TarEntry(e.name, Regular, e.data);
    assert (before + [x])[..|before|] == before;
    ClassifyPlain(dir, e);
  }

  ghost predicate AllProper(es: seq<Entry>) { forall i | 0 <= i < |es| :: Proper(es[i].name) }

  /** Cut off by the last entry: what the archive and the plan for it are made of. */
  lemma PlanStep(dir: Path, es: seq<Entry>, gone: set<string>)
    requires es != [] && Proper(es[|es| - 1].name)
    requires Plan(dir, Archived(es[..|es| - 1], gone)) == PlanFor(dir, es[..|es| - 1], gone)
    ensures Plan(dir, Archived(es, gone)) == PlanFor(dir, es, gone)
  {
    PlanLast(dir, Archived(es[..|es| - 1], gone), es[|es| - 1]);
  }

  lemma {:induction false} PlanOfArchived(dir: Path, es: seq<Entry>, gone: set<string>)
    requires AllProper(es)
    ensures Plan(dir, Archived(es, gone)) == PlanFor(dir, es, gone)
  {
    if es == [] {
      assert Archived(es, gone) == [];
    } else {
      PlanOfArchived(dir, es[..|es| - 1], gone);
      PlanStep(dir, es, gone);
    }
  }

  /** The plan for a capture is within the extractor's size limit. */
  lemma {:induction false} PlanForSize(dir: Path, es: seq<Entry>, gone: set<string>)
    ensures PayloadSize(PlanFor(dir, es, gone)) <= RegularSize(es)
  {
    if es != [] {
      var n := |es| - 1;
      PlanForSize(dir, es[..n], gone);
      var before, x := PlanFor(dir, es[..n], gone), Extracted(dir, es[n]);
      PayloadLast(before, x);
      assert x.Unpack? ==> x.member.data == es[n].data;
    }
  }

  lemma PayloadLast(before: seq<Extraction>, x: Extraction)
    ensures PayloadSize(before + [x]) == PayloadSize(before) + if x.Unpack? then |x.member.data| else 0
  {
    assert (before + [x])[..|before|] == before;
  }

  ghost predicate NoDotDot(es: seq<Entry>, gone: set<string>) { forall i | 0 <= i < |es| :: !DotDotName(es[i], gone) }

  lemma NoDotDotLast(es: seq<Entry>, gone: set<string>)
    requires es != []
    ensures NoDotDot(es, gone) <==> NoDotDot(es[..|es| - 1], gone) && !DotDotName(es[|es| - 1], gone)
  {
    var n := |es| - 1;
    assert forall i | 0 <= i < n :: es[..n][i] == es[i];
  }

  /** Where no name is rejected the plan writes exactly the captured files. */
  lemma {:induction false} PlanForUnpacks(dir: Path, es: seq<Entry>, gone: set<string>)
    requires NoDotDot(es, gone)
    ensures Unpacked(PlanFor(dir, es, gone)) == Carried(dir, es, gone)
  {
    if es != [] {
      var n := |es| - 1;
      NoDotDotLast(es, gone);
      PlanForUnpacks(dir, es[..n], gone);
      var before := PlanFor(dir, es[..n], gone);
      if es[n].regular && es[n].name !in gone {
        assert (before + [Extracted(dir, es[n])])[..|before|] == before;
      }
    }
  }

  /** The carried members, one by one: each comes from a captured entry and lies at its name. */
  lemma {:induction false} CarriedAt(dir: Path, es: seq<Entry>, gone: set<string>, i: nat) returns (j: nat)
    requires i < |Carried(dir, es, gone)|
    ensures j < |es| && CarriedFrom(es[j], gone, Carried(dir, es, gone)[i])
    ensures Carried(dir, es, gone)[i].at == dir + [es[j].name]
  {
    var n := |es| - 1;
    if i < |Carried(dir, es[..n], gone)| { j := CarriedAt(dir, es[..n], gone, i); } else { j := n; }
  }

  /** Every captured entry is carried. */
  lemma {:induction false} CarriedHas(dir: Path, es: seq<Entry>, gone: set<string>, j: nat) returns (i: nat)
    requires j < |es| && es[j].regular && es[j].name !in gone
    ensures i < |Carried(dir, es, gone)|
            && Carried(dir, es, gone)[i] == Member(es[j].name, dir + [es[j].name], es[j].data)
  {
    var n := |es| - 1;
    if j < n { i := CarriedHas(dir, es[..n], gone, j); } else { i := |Carried(dir, es[..n], gone)|; }
  }

  lemma {:induction false} CarriedDistinct(dir: Path, es: seq<Entry>, gone: set<string>)
    requires Listing(es)
    ensures Distinct(Carried(dir, es, gone))
  {
    if es != [] {
      var n := |es| - 1;
      CarriedDistinct(dir, es[..n], gone);
      var before, ms := Carried(dir, es[..n], gone), Carried(dir, es, gone);
      forall i, j | 0 <= i < j < |ms| ensures ms[i].path != ms[j].path {
        if j == |before| {
          var k := CarriedAt(dir, es[..n], gone, i);
          assert es[..n][k] == es[k];
        }
      }
    }
  }

  predicate CarriedFrom(e: Entry, gone: set<string>, x: Member) {
    e.regular && e.name !in gone && x.path == e.name && x.data == e.data
  }

  /** after is before overlaid by exactly the captured regular files. */
  ghost predicate Overlaid(before: map<Path, Bytes>, after: map<Path, Bytes>, dir: Path, es: seq<Entry>,
                           gone: set<string>) {
    && (forall i | 0 <= i < |es| && es[i].regular && es[i].name !in gone ::
          dir + [es[i].name] in after && after[dir + [es[i].name]] == es[i].data)
    && (forall p :: SameFile(before, after, p)
                    || exists i | 0 <= i < |es| :: es[i].regular && es[i].name !in gone && p == dir + [es[i].name])
  }

  /** Nothing of the target stands in the way of a captured file. */
  ghost predicate TargetFree<X>(d: Disk<X>, dir: Path, es: seq<Entry>, gone: set<string>) {
    forall i | 0 <= i < |es| && es[i].regular && es[i].name !in gone ::
      !FileOnTheWay(d.files, dir) && !IsDir(d, dir + [es[i].name])
  }

  lemma FlatParent(dir: Path, name: string)
    ensures Parent(dir + [name]) == dir
  {
  }

  /** Captured names are flat: they never get in each other's way. */
  lemma {:induction false} FlatPlan(dir: Path, es: seq<Entry>, gone: set<string>, i: nat)
    requires i < |PlanFor(dir, es, gone)|
    ensures var x := PlanFor(dir, es, gone)[i]; x.Reject? || (x.Unpack? && |x.member.at| == |dir| + 1)
  {
    if i < |PlanFor(dir, es[..|es| - 1], gone)| { FlatPlan(dir, es[..|es| - 1], gone, i); }
  }

  /** Each planned entry is allowed exactly when its name is taken for a name and its place
      is free. */
  lemma {:induction false} FlatAllowed<X>(d: Disk<X>, dir: Path, es: seq<Entry>, gone: set<string>)
    ensures (forall i | 0 <= i < |PlanFor(dir, es, gone)| :: Allowed(d, PlanFor(dir, es, gone)[i]))
       <==> NoDotDot(es, gone) && TargetFree(d, dir, es, gone)
  {
    if es != [] {
      var n := |es| - 1;
      FlatAllowed(d, dir, es[..n], gone);
      NoDotDotLast(es, gone);
      TargetFreeLast(d, dir, es, gone);
      FlatParent(dir, es[n].name);
      var before, x := PlanFor(dir, es[..n], gone), Extracted(dir, es[n]);
      if es[n].regular && es[n].name !in gone {
        AllowedLast(d, before, x);
        assert PlanFor(dir, es, gone) == before + [x];
        assert Allowed(d, x) <==> !DotDotName(es[n], gone) && PlaceFree(d, dir, es[n], gone);
      } else {
        assert PlanFor(dir, es, gone) == before;
      }
    }
  }

  lemma AllowedLast<X>(d: Disk<X>, before: seq<Extraction>, x: Extraction)
    ensures (forall i | 0 <= i < |before + [x]| :: Allowed(d, (before + [x])[i]))
       <==> Allowed(d, x) && forall i | 0 <= i < |before| :: Allowed(d, before[i])
  {
    var all := before + [x];
    assert all[|before|] == x && forall i | 0 <= i < |before| :: all[i] == before[i];
  }

  /** A captured entry whose name is a name is in nobody's way. */
  predicate PlaceFree<X>(d: Disk<X>, dir: Path, e: Entry, gone: set<string>) {
    e.regular && e.name !in gone ==> !FileOnTheWay(d.files, dir) && !IsDir(d, dir + [e.name])
  }

  lemma TargetFreeLast<X>(d: Disk<X>, dir: Path, es: seq<Entry>, gone: set<string>)
    requires es != []
    ensures TargetFree(d, dir, es, gone) <==>
            TargetFree(d, dir, es[..|es| - 1], gone) && PlaceFree(d, dir, es[|es| - 1], gone)
  {
    var n := |es| - 1;
    assert forall i | 0 <= i < n :: es[..n][i] == es[i];
  }

  lemma FlatUnobstructed<X>(d: Disk<X>, dir: Path, es: seq<Entry>, gone: set<string>)
    ensures var plan := PlanFor(dir, es, gone);
            Unobstructed(d, plan, |plan|) <==> NoDotDot(es, gone) && TargetFree(d, dir, es, gone)
  {
    var plan := PlanFor(dir, es, gone);
    FlatAllowed(d, dir, es, gone);
    forall i, j | 0 <= i < |plan| && 0 <= j < |plan| ensures !Clashes(plan[i], plan[j]) {
      FlatPlan(dir, es, gone, i);
      FlatPlan(dir, es, gone, j);
    }
  }

  /** The round trip, for every target: what a successful capture archived can be extracted
      exactly when no captured name starts with two dots, there are no more files than the
      extractor takes, no captured name is a directory of the target and no file lies on the
      way to it; and then the target is what it was, overlaid by exactly the captured files. */
  lemma RoundTripIff<X>(d: Disk<X>, dir: Path, es: seq<Entry>, gone: set<string>)
    requires Listing(es) && RegularSize(es) <= MAX_SHM_CAPTURE
    ensures var plan := Plan(dir, Archived(es, gone));
            && (WithinLimits(plan) && Unobstructed(d, plan, |plan|) <==>
                Restorable(d, dir, es, gone))
            && (Restorable(d, dir, es, gone) ==> Overlaid(d.files, Apply(d.files, Unpacked(plan)), dir, es, gone))
  {
    PlanOfArchived(dir, es, gone);
    PlanForSize(dir, es, gone);
    FlatUnobstructed(d, dir, es, gone);
    if NoDotDot(es, gone) {
      PlanForUnpacks(dir, es, gone);
      CarriedOverlays(d.files, dir, es, gone);
    }
  }

  /** What can be seen before the call: of the captured names, and of the target. */
  ghost predicate Restorable<X>(d: Disk<X>, dir: Path, es: seq<Entry>, gone: set<string>) {
    |Archived(es, gone)| <= MAX_TAR_ENTRIES && NoDotDot(es, gone) && TargetFree(d, dir, es, gone)
  }

  /** The archive beside the artifact: not there, unreadable, or read. */
  datatype ShmArchive = NoArchive | BadArchive | ShmDiff(archive: Archive)

  /** ApplyShm: into the source of the rewritten spec's mount at /dev/shm. Without such a
      mount or without an archive there is nothing to do. */
  method ApplyShm<X>(d: Disk<X>, mounts: seq<Mount>, archive: ShmArchive, faulty: bool)
    returns (ok: bool, after: Disk<X>, dst: string)
    ensures FirstAt(mounts, "/dev/shm", dst)
    ensures dst == "" || archive.NoArchive? ==> ok && after == d
    ensures dst != "" && archive.BadArchive? ==> !ok && after == d
    ensures dst != "" && archive.ShmDiff? ==>
              var plan := Plan(Segs(dst), archive.archive.entries);
              && (ok ==> archive.archive.complete && WithinLimits(plan) && Unobstructed(d, plan, |plan|))
              && (!faulty && archive.archive.complete && WithinLimits(plan) && Unobstructed(d, plan, |plan|) ==> ok)
              && (ok ==> after.files == Apply(d.files, Unpacked(plan)) && after.rest == d.rest)
    ensures dst != "" && archive.ShmDiff? ==>
              var es := archive.archive.entries;
              && (ok ==> archive.archive.complete && Takes(d, Segs(dst), es) && Filled(d, after, Segs(dst), es))
              && (!faulty && archive.archive.complete && Takes(d, Segs(dst), es) ==> ok)
    ensures TreeShaped(d) ==> TreeShaped(after)
  {
    dst := SpecMountSource(mounts, SHM_PATH);
    if dst == "" || archive.NoArchive? { return true, d, dst; }
    if archive.BadArchive? { return false, d, dst; }
    ok, after := ExtractTar(d, Plan(Segs(dst), archive.archive.entries), archive.archive.complete, faulty);
    TakesIff(d, Segs(dst), archive.archive.entries);
    if ok { PlanFills(d, after, Segs(dst), archive.archive.entries); }
  }

  /** There and back: captured in one pod, applied in another. Without a failing write the
      restore takes what the capture gave exactly when the target can hold it. */
  method CarryShm<X>(spec: SpecDump, list: string -> Option<seq<Entry>>, lost: set<string>, gone: set<string>,
                     d: Disk<X>, mounts: seq<Mount>, faulty: bool)
    returns (r: Capture, ok: bool, after: Disk<X>, source: string, dst: string)
    requires forall p :: list(p).Some? ==> Listing(list(p).value)
    ensures FirstAt(mounts, "/dev/shm", dst)
    ensures r.Captured? ==> list(source).Some?
    ensures r.Captured? && dst != "" ==>
              && (ok ==> Restorable(d, Segs(dst), list(source).value, gone))
              && (!faulty && Restorable(d, Segs(dst), list(source).value, gone) ==> ok)
              && (ok ==> Overlaid(d.files, after.files, Segs(dst), list(source).value, gone))
    ensures (r.Captured? && dst == "") || r.Nothing? ==> ok && after == d
  {
    r, source := CaptureShm(spec, list, lost, gone);
    var archive := if r.Captured? then ShmDiff(Archive(r.entries, true)) else NoArchive;
    ok, after, dst := ApplyShm(d, mounts, archive, faulty);
    if r.Captured? && dst != "" {
      RoundTripIff(d, Segs(dst), list(source).value, gone);
    }
  }

  lemma CarriedOverlays(before: map<Path, Bytes>, dir: Path, es: seq<Entry>, gone: set<string>)
    requires Listing(es)
    ensures Overlaid(before, Apply(before, Carried(dir, es, gone)), dir, es, gone)
  {
    var ms := Carried(dir, es, gone);
    var after := Apply(before, ms);
    CarriedDistinct(dir, es, gone);
    CarriedOnePlace(dir, es, gone);
    forall i | 0 <= i < |es| && es[i].regular && es[i].name !in gone
      ensures dir + [es[i].name] in after && after[dir + [es[i].name]] == es[i].data
    {
      var k := CarriedHas(dir, es, gone, i);
      ApplyDistinct(before, ms, k);
    }
    forall p
      ensures SameFile(before, after, p)
              || exists i | 0 <= i < |es| :: es[i].regular && es[i].name !in gone && p == dir + [es[i].name]
    {
      if forall k | 0 <= k < |ms| :: ms[k].at != p {
        ApplyElsewhere(before, ms, p);
      } else {
        var k :| 0 <= k < |ms| && ms[k].at == p;
        var j := CarriedAt(dir, es, gone, k);
      }
    }
  }

  lemma CarriedOnePlace(dir: Path, es: seq<Entry>, gone: set<string>)
    ensures OnePlace(Carried(dir, es, gone))
  {
    var ms := Carried(dir, es, gone);
    forall i, j | 0 <= i < |ms| && 0 <= j < |ms| ensures ms[i].at == ms[j].at <==> ms[i].path == ms[j].path {
      var a := CarriedAt(dir, es, gone, i);
      var b := CarriedAt(dir, es, gone, j);
      assert ms[i].at[|dir|] == ms[i].path && ms[j].at[|dir|] == ms[j].path;
    }
  }

  lemma {:induction false} ApplyElsewhere(files: map<Path, Bytes>, ms: seq<Member>, p: Path)
    requires forall k | 0 <= k < |ms| :: ms[k].at != p
    ensures SameFile(files, Apply(files, ms), p)
  {
    if ms != [] { ApplyElsewhere(files, ms[..|ms| - 1], p); }
  }
}
