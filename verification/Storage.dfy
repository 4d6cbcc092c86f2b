/** The store under the artifacts, as the agent's own comments describe it: rename may
    copy and keep its source, O_TRUNC may be ignored, rmdir of a non-empty directory may
    report success, and any operation may fail. A Machine records every state it passes
    through; a crash is a return to one of them. */
module Storage {
  import opened Paths

  newtype Byte = b: int | 0 <= b < 256
  type Bytes = seq<Byte>
  /** An absolute, cleaned path, as its segments. */
  type Path = seq<string>

  datatype Err = Nil | NotExist | Fault

  /** One state of the world: the files, the directories that were made explicitly, and
      whatever else (the container, the API object) the file operations leave alone. */
  datatype Disk<X> = Disk(files: map<Path, Bytes>, dirs: set<Path>, rest: X)

  predicate SameFile(a: map<Path, Bytes>, b: map<Path, Bytes>, p: Path) {
    (p in a <==> p in b) && (p in a ==> a[p] == b[p])
  }

  /** b differs from a at most in the files named by touched. */
  ghost predicate Alike(a: map<Path, Bytes>, b: map<Path, Bytes>, touched: set<Path>) {
    b - touched == a - touched
  }

  /** The same of the whole state: no other file differs, and no other directory is gone. */
  ghost predicate Frame<X>(a: Disk<X>, b: Disk<X>, touched: set<Path>) {
    b.rest == a.rest && Alike(a.files, b.files, touched) && a.dirs - touched <= b.dirs
  }

  lemma AlikeAt(a: map<Path, Bytes>, b: map<Path, Bytes>, touched: set<Path>, p: Path)
    requires Alike(a, b, touched) && p !in touched
    ensures SameFile(a, b, p)
  {
    assert p in a <==> p in a - touched;
    assert p in b <==> p in b - touched;
  }

  lemma FrameWiden<X>(a: Disk<X>, b: Disk<X>, touched: set<Path>, more: set<Path>)
    requires Frame(a, b, touched) && touched <= more
    ensures Frame(a, b, more)
  {
    assert a.files - more == (a.files - touched) - more;
    assert b.files - more == (b.files - touched) - more;
  }

  lemma FramePut<X>(a: Disk<X>, b: Disk<X>, p: Path, data: Bytes, touched: set<Path>)
    requires p in touched && b.rest == a.rest && (b.files == a.files[p := data] || b.files == a.files - {p})
    requires b.dirs == a.dirs
    ensures Frame(a, b, touched)
  {
    assert a.files[p := data] - touched == a.files - touched;
    assert a.files - {p} - touched == a.files - touched;
  }

  /** Every state from number k on differs from base at most in the touched files. */
  ghost predicate Steps<X>(base: Disk<X>, history: seq<Disk<X>>, from: nat, touched: set<Path>) {
    forall k | from <= k < |history| :: Frame(base, history[k], touched)
  }

  lemma StepsWiden<X>(base: Disk<X>, history: seq<Disk<X>>, from: nat, touched: set<Path>, more: set<Path>)
    requires Steps(base, history, from, touched) && touched <= more
    ensures Steps(base, history, from, more)
  {
    forall k | from <= k < |history| ensures Frame(base, history[k], more) {
      FrameWiden(base, history[k], touched, more);
    }
  }

  /** Two stretches of history, one after the other. */
  lemma StepsJoin<X>(a: Disk<X>, first: seq<Disk<X>>, from: nat, history: seq<Disk<X>>, touched: set<Path>)
    requires from <= |first| && first != [] && first <= history
    requires Steps(a, first, from, touched) && (from < |first| || first[|first| - 1] == a)
    requires Steps(first[|first| - 1], history, |first|, touched)
    ensures Steps(a, history, from, touched)
  {
    var b := first[|first| - 1];
    assert Frame(a, b, touched);
    forall k | from <= k < |history| ensures Frame(a, history[k], touched) {
      if k < |first| { assert history[k] == first[k]; } else { assert Frame(b, history[k], touched); }
    }
  }

  /** The present state is one of the new ones, or nothing has happened. */
  lemma StepsReach<X>(start: Disk<X>, before: seq<Disk<X>>, history: seq<Disk<X>>, now: Disk<X>, touched: set<Path>)
    requires before != [] && before[|before| - 1] == start && before <= history && history[|history| - 1] == now
    requires Steps(start, history, |before|, touched)
    ensures |before| < |history| || now == start
    ensures Frame(start, now, touched)
  {
    if |before| == |history| { assert before == history; }
  }

  /** Two prefixes of one path are comparable. */
  lemma OneBranch(a: Path, b: Path, p: Path)
    requires !(a <= b) && !(b <= a)
    ensures !(a <= p && b <= p)
  {
    if |a| <= |b| && |b| <= |p| { assert p[..|b|][..|a|] == p[..|a|]; }
    if |b| <= |a| && |a| <= |p| { assert p[..|a|][..|b|] == p[..|b|]; }
  }

  /** A directory exists when it was made or when something lives below it. */
  predicate IsDir<X>(d: Disk<X>, p: Path) {
    p in d.dirs || (exists q | q in d.files :: p < q) || (exists q | q in d.dirs :: p < q)
  }

  /** The names ReadDir lists. */
  function Children<X>(d: Disk<X>, dir: Path): set<string> {
    (set q | q in d.files && dir < q :: q[|dir|]) + (set q | q in d.dirs && dir < q :: q[|dir|])
  }

  /** Everything strictly below dir. */
  function Below<X>(d: Disk<X>, dir: Path): set<Path> {
    (set q | q in d.files && dir < q) + (set q | q in d.dirs && dir < q)
  }

  lemma NothingListedNothingBelow<X>(d: Disk<X>, dir: Path)
    ensures Children(d, dir) == {} <==> Below(d, dir) == {}
  {
    if q :| q in Below(d, dir) {
      assert q[|dir|] in Children(d, dir);
    }
    if name :| name in Children(d, dir) {
      var q :| dir < q && q[|dir|] == name && (q in d.files || q in d.dirs);
      assert q in Below(d, dir);
    }
  }

  lemma IsDirIff<X>(d: Disk<X>, p: Path)
    ensures IsDir(d, p) <==> p in d.dirs || Below(d, p) != {}
  {
    if q :| q in d.files && p < q { assert q in Below(d, p); }
    if q :| q in d.dirs && p < q { assert q in Below(d, p); }
    if q :| q in Below(d, p) { assert p < q; }
  }

  /** The bytes of a file after chunk is written at off; a longer old tail survives. */
  function Overwrite(content: Bytes, off: nat, chunk: Bytes): Bytes
    requires off <= |content|
  {
    content[..off] + chunk + (if off + |chunk| < |content| then content[off + |chunk|..] else [])
  }

  /** What Remove may do. A store that lies may report success and do nothing; rmdir of a
      non-empty directory may do so on any store. */
  ghost predicate RemoveStep<X>(lies: bool, faulty: bool, a: Disk<X>, p: Path, b: Disk<X>, e: Err) {
    && (b == a || b == a.(files := a.files - {p}) || (Below(a, p) == {} && b == a.(dirs := a.dirs - {p})))
    && (e.NotExist? <==> p !in a.files && !IsDir(a, p))
    && (e.Nil? && !lies && p in a.files ==> b == a.(files := a.files - {p}))
    && (e.Nil? && !lies && p !in a.files && Below(a, p) == {} ==> b == a.(dirs := a.dirs - {p}))
    && (!faulty && (p in a.files || Below(a, p) == {}) ==> !e.Fault?)
    && (!e.Nil? ==> b == a)
  }

  /** What Rename may do: move, copy and keep the source, or fail, which on a store with
      faults may leave a copy half done. */
  ghost predicate RenameStep<X>(faulty: bool, a: Disk<X>, src: Path, dst: Path, b: Disk<X>, e: Err) {
    if src !in a.files then e.NotExist? && b == a
    else if IsDir(a, dst) then e.Fault? && b == a
    else if e.Nil? then
      || b == a.(files := a.files[dst := a.files[src]])
      || b == a.(files := (a.files - {src})[dst := a.files[src]])
    else e.Fault? && faulty && (b == a || HalfCopied(a, src, dst, b))
  }

  ghost predicate HalfCopied<X>(a: Disk<X>, src: Path, dst: Path, b: Disk<X>)
    requires src in a.files
  {
    dst in b.files && b.files[dst] <= a.files[src] && b == a.(files := a.files[dst := b.files[dst]])
  }

  /** A tree as a filesystem keeps it: nothing lies below a file. */
  ghost predicate TreeShaped<X>(d: Disk<X>) {
    && d.files.Keys !! d.dirs
    && forall p, q | p in d.files && (q in d.files || q in d.dirs) :: !(p < q)
  }

  /** A path and everything above it. */
  function Prefixes(p: Path): set<Path> { set k | 0 <= k <= |p| :: p[..k] }

  predicate FileOnTheWay(files: map<Path, Bytes>, p: Path) {
    exists k | 0 <= k <= |p| :: p[..k] in files
  }

  class Machine<X> {
    var now: Disk<X>
    /** Every state since the machine was made, the present one last. */
    var history: seq<Disk<X>>
    /** A Remove may report success without removing anything. */
    const lies: bool
    /** Operations may fail. */
    const faulty: bool
    /** The rmdir of a directory that is not empty reports success every time, which on any
        store it may do. */
    const quiet: bool

    constructor (d: Disk<X>, lies: bool, faulty: bool, quiet: bool)
      ensures Valid() && now == d && history == [d]
      ensures this.lies == lies && this.faulty == faulty && this.quiet == quiet
    {
      now, history := d, [d];
      this.lies, this.faulty, this.quiet := lies, faulty, quiet;
    }

    ghost predicate Valid()
      reads this
    {
      && history != []
      && history[|history| - 1] == now
    }

    /** The states passed through since the call differ only at the touched files. */
    twostate predicate Only(touched: set<Path>)
      reads this
    {
      && old(history) <= history
      && Steps(old(now), history, |old(history)|, touched)
    }

    method Enter(d: Disk<X>)
      requires Valid()
      modifies this
      ensures Valid() && now == d && history == old(history) + [d]
    {
      now, history := d, history + [d];
    }

    /** The process dies and only what state k had reached the store survives. */
    method CrashAt(k: nat)
      requires Valid() && k < |history|
      modifies this
      ensures Valid() && now == old(history)[k] && history == old(history)[..k + 1]
    {
      now, history := history[k], history[..k + 1];
    }

    method MkdirAll(p: Path, ghost touched: set<Path>) returns (e: Err)
      requires Valid()
      modifies this
      ensures Valid() && Only(touched) && history == old(history) + [now]
      ensures now.files == old(now.files) && now.rest == old(now.rest)
      ensures !faulty && !FileOnTheWay(old(now.files), p) ==> e.Nil?
      ensures FileOnTheWay(old(now.files), p) ==> e.Fault?
      ensures e.Nil? ==> p in now.dirs
      ensures forall q | q in now.dirs && q !in old(now.dirs) :: q <= p
    {
      var fails: bool := *;
      if (faulty && fails) || FileOnTheWay(now.files, p) {
        Enter(now);
        e := Fault;
      } else {
        assert p[..|p|] == p;
        Enter(now.(dirs := now.dirs + Prefixes(p)));
        e := Nil;
      }
    }

    method Remove(p: Path, ghost touched: set<Path>) returns (e: Err)
      requires Valid() && p in touched
      modifies this
      ensures Valid() && Only(touched) && history == old(history) + [now]
      ensures RemoveStep(lies, faulty, old(now), p, now, e)
      ensures quiet && p !in old(now).files && Below(old(now), p) != {} ==> e.Nil?
    {
      var fails: bool := *;
      var silent: bool := *;
      var below := Below(now, p);
      IsDirIff(now, p);
      FramePut(now, now.(files := now.files - {p}), p, [], touched);
      if p in now.files {
        if faulty && fails {
          Enter(now);
          e := Fault;
        } else if lies && silent {
          Enter(now);
          e := Nil;
        } else {
          Enter(now.(files := now.files - {p}));
          e := Nil;
        }
      } else if below != {} {
        Enter(now);
        e := if quiet || silent then Nil else Fault;
      } else if p in now.dirs {
        if faulty && fails {
          Enter(now);
          e := Fault;
        } else if lies && silent {
          Enter(now);
          e := Nil;
        } else {
          Enter(now.(dirs := now.dirs - {p}));
          e := Nil;
        }
      } else {
        Enter(now);
        e := NotExist;
      }
    }

    /** OpenFile with O_CREATE|O_WRONLY|O_TRUNC: the truncation may be ignored. */
    method Create(p: Path, ghost touched: set<Path>) returns (e: Err)
      requires Valid() && p in touched
      modifies this
      ensures Valid() && Only(touched) && history == old(history) + [now]
      ensures !faulty && !IsDir(old(now), p) ==> e.Nil?
      ensures !e.Nil? ==> now == old(now)
      ensures e.Nil? ==> !IsDir(old(now), p)
      ensures e.Nil? && p !in old(now.files) ==> now == old(now).(files := old(now.files)[p := []])
      ensures e.Nil? && p in old(now.files) ==> now == old(now) || now == old(now).(files := old(now.files)[p := []])
    {
      var fails: bool := *;
      var truncates: bool := *;
      FramePut(now, now.(files := now.files[p := []]), p, [], touched);
      if (faulty && fails) || IsDir(now, p) {
        Enter(now);
        e := Fault;
      } else {
        Enter(if p !in now.files || truncates then now.(files := now.files[p := []]) else now);
        e := Nil;
      }
    }

    /** One write through an open handle; it may be short when it fails. */
    method WriteAt(p: Path, off: nat, chunk: Bytes, ghost touched: set<Path>) returns (n: nat, e: Err)
      requires Valid() && p in touched && p in now.files && off <= |now.files[p]|
      modifies this
      ensures Valid() && Only(touched) && history == old(history) + [now]
      ensures n <= |chunk| && (e.Nil? ==> n == |chunk|)
      ensures !faulty ==> e.Nil?
      ensures now == old(now).(files := old(now.files)[p := Overwrite(old(now.files)[p], off, chunk[..n])])
    {
      var fails: bool := *;
      n := |chunk|;
      if faulty && fails {
        n :| 0 <= n <= |chunk|;
        e := Fault;
      } else {
        e := Nil;
      }
      var next := now.(files := now.files[p := Overwrite(now.files[p], off, chunk[..n])]);
      FramePut(now, next, p, next.files[p], touched);
      Enter(next);
    }

    /** Sync and Close: they may fail and change nothing a reader can see. */
    method Flush() returns (e: Err)
      ensures !faulty ==> e.Nil?
    {
      var fails: bool := *;
      e := if faulty && fails then Fault else Nil;
    }

    /** Rename moves, or copies and keeps the source; a copy may be seen half done. */
    method Rename(src: Path, dst: Path, ghost touched: set<Path>) returns (e: Err)
      requires Valid() && src != dst && src in touched && dst in touched
      modifies this
      ensures Valid() && Only(touched)
      ensures OldOrTorn(old(now.files), history, |old(history)|, src, dst)
      ensures dst !in old(now.files) ==> Growing(history, |old(history)|, dst)
      ensures RenameStep(faulty, old(now), src, dst, now, e)
    {
      var fails: bool := *;
      var copies: bool := *;
      var torn: bool := *;
      if src !in now.files {
        return NotExist;
      }
      if IsDir(now, dst) {
        return Fault;
      }
      var content, copied := now.files[src], now.(files := now.files[dst := now.files[src]]);
      var moved := now.(files := (now.files - {src})[dst := content]);
      FramePut(now, copied, dst, content, touched);
      FramePut(now, now.(files := now.files - {src}), src, content, touched);
      FramePut(now.(files := now.files - {src}), moved, dst, content, touched);
      if copies && torn {
        var n :| 0 <= n <= |content|;
        var half := now.(files := now.files[dst := content[..n]]);
        FramePut(now, half, dst, content[..n], touched);
        Enter(half);
      }
      if faulty && fails {
        return Fault;
      }
      Enter(if copies then copied else moved);
      e := Nil;
    }
  }

  /** Once p exists it only grows. */
  ghost predicate Growing<X>(history: seq<Disk<X>>, from: nat, p: Path) {
    forall j, k | from <= j < k < |history| :: GrownFrom(history[j].files, history[k].files, p)
  }

  ghost predicate GrownFrom(a: map<Path, Bytes>, b: map<Path, Bytes>, p: Path) {
    p in a ==> p in b && a[p] <= b[p]
  }

  /** p grows up to the last state of first and stays as it is afterwards. */
  lemma GrowingMore<X>(first: seq<Disk<X>>, from: nat, history: seq<Disk<X>>, p: Path)
    requires from <= |first| && first != [] && first <= history
    requires Growing(first, from, p)
    requires forall k | |first| <= k < |history| :: SameFile(first[|first| - 1].files, history[k].files, p)
    ensures Growing(history, from, p)
  {
    forall j, k | from <= j < k < |history| ensures GrownFrom(history[j].files, history[k].files, p) {
      var last := |first| - 1;
      if k < |first| {
        assert GrownFrom(first[j].files, first[k].files, p);
      } else if j < last {
        assert GrownFrom(first[j].files, first[last].files, p);
        assert SameFile(first[last].files, history[k].files, p);
      } else {
        assert SameFile(first[last].files, history[k].files, p);
        assert j == last || SameFile(first[last].files, history[j].files, p);
      }
    }
  }

  /** p is absent up to the last state of first and grows afterwards. */
  lemma AbsentThenGrowing<X>(first: seq<Disk<X>>, from: nat, history: seq<Disk<X>>, p: Path)
    requires from <= |first| && first <= history
    requires forall k | from <= k < |first| :: p !in first[k].files
    requires Growing(history, |first|, p)
    ensures Growing(history, from, p)
  {
    forall j, k | from <= j < k < |history| ensures GrownFrom(history[j].files, history[k].files, p) {
      if j < |first| { assert history[j] == first[j]; }
    }
  }

  /** In every state from number k on, dst is as it was or a prefix of what src was. */
  ghost predicate OldOrTorn<X>(was: map<Path, Bytes>, history: seq<Disk<X>>, from: nat, src: Path, dst: Path) {
    forall k | from <= k < |history| :: OldOrPrefix(was, history[k].files, dst, if src in was then was[src] else [])
  }

  ghost predicate OldOrPrefix(was: map<Path, Bytes>, files: map<Path, Bytes>, dst: Path, data: Bytes) {
    SameFile(was, files, dst) || (dst in files && files[dst] <= data)
  }
}
