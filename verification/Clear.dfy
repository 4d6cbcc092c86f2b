/** clearArtifactDir (internal/agent/checkpoint_controller.go): empty a directory one entry
    at a time and believe only what a second read says. */
module Clear {
  import opened Paths
  import opened Storage

  /** b is a with some files and directories of the region gone and nothing else changed. */
  ghost predicate Shrunk<X>(a: Disk<X>, b: Disk<X>, region: set<Path>) {
    && b.rest == a.rest
    && b.files.Keys <= a.files.Keys && (forall p | p in b.files :: b.files[p] == a.files[p])
    && b.dirs <= a.dirs
    && a.files.Keys - b.files.Keys <= region && a.dirs - b.dirs <= region
  }

  ghost predicate Shrinking<X>(a: Disk<X>, history: seq<Disk<X>>, from: nat, region: set<Path>) {
    forall k | from <= k < |history| :: Shrunk(a, history[k], region)
  }

  lemma ShrunkBelow<X>(a: Disk<X>, b: Disk<X>, region: set<Path>, dir: Path)
    requires Shrunk(a, b, region)
    ensures Below(b, dir) <= Below(a, dir)
  {
  }

  /** A child that holds less than its parent: one step of shrinking after another. */
  lemma ShrinkMore<X>(a: Disk<X>, first: seq<Disk<X>>, from: nat, history: seq<Disk<X>>, region: set<Path>,
                      inner: set<Path>)
    requires from <= |first| && first != [] && first <= history && inner <= region
    requires Shrinking(a, first, from, region) && Shrunk(a, first[|first| - 1], region)
    requires Shrinking(first[|first| - 1], history, |first|, inner)
    ensures Shrinking(a, history, from, region)
  {
    var b := first[|first| - 1];
    forall k | from <= k < |history| ensures Shrunk(a, history[k], region) {
      if k < |first| {
        assert history[k] == first[k];
      } else {
        assert Shrunk(b, history[k], inner);
      }
    }
  }

  lemma ChildBelow<X>(d: Disk<X>, dir: Path, name: string)
    ensures Below(d, dir + [name]) <= Below(d, dir)
    ensures forall q | q in Below(d, dir) && q[|dir|] == name :: q == dir + [name] || q in Below(d, dir + [name])
    ensures forall q | q in Below(d, dir + [name]) :: q[|dir|] == name
  {
    forall q | q in Below(d, dir) && q[|dir|] == name ensures q == dir + [name] || dir + [name] < q {
      assert q[..|dir| + 1] == dir + [name];
    }
    forall q | q in Below(d, dir + [name]) ensures dir < q && q[|dir|] == name {
      assert q[..|dir|] == dir;
    }
  }

  /** The entries of dir, and which of them are directories. */
  method ReadDir<X>(m: Machine<X>, dir: Path) returns (e: Err, names: set<string>, dirs: set<string>)
    ensures e.NotExist? ==> Below(m.now, dir) == {}
    ensures e.Nil? ==> names == Children(m.now, dir) && dirs == DirNames(m.now, dir)
    ensures !m.faulty && dir !in m.now.files ==> !e.Fault?
  {
    IsDirIff(m.now, dir);
    var fails: bool := *;
    if (m.faulty && fails) || dir in m.now.files {
      return Fault, {}, {};
    }
    if !IsDir(m.now, dir) {
      return NotExist, {}, {};
    }
    return Nil, Children(m.now, dir), DirNames(m.now, dir);
  }

  function DirNames<X>(d: Disk<X>, dir: Path): set<string> {
    set name | name in Children(d, dir) && IsDir(d, dir + [name])
  }

  /** Everything left below dir lies under one of the names. */
  ghost predicate Under<X>(d: Disk<X>, dir: Path, names: set<string>) {
    forall q | q in Below(d, dir) :: q[|dir|] in names
  }

  /** No path below dir is more than depth segments longer. */
  ghost predicate Within<X>(d: Disk<X>, dir: Path, depth: nat) {
    forall q | q in Below(d, dir) :: |q| <= |dir| + depth
  }

  lemma WithinChild<X>(was: Disk<X>, now: Disk<X>, dir: Path, name: string, depth: nat)
    requires Within(was, dir, depth) && name in Children(was, dir) && Shrunk(was, now, Below(was, dir))
    ensures depth > 0 && Within(now, dir + [name], depth - 1)
    ensures Below(now, dir + [name]) <= Below(was, dir)
  {
    ChildBelow(was, dir, name);
    ShrunkBelow(was, now, Below(was, dir), dir + [name]);
    var q :| q in Below(was, dir) && q[|dir|] == name;
    assert |q| <= |dir| + depth;
  }

  /** The recursion of clearArtifactDir; it goes no deeper than the tree. */
  method ClearWithin<X>(m: Machine<X>, dir: Path, ghost depth: nat) returns (e: Err)
    requires m.Valid() && Within(m.now, dir, depth)
    modifies m
    ensures m.Valid() && old(m.history) <= m.history
    ensures Shrunk(old(m.now), m.now, Below(old(m.now), dir))
    ensures Shrinking(old(m.now), m.history, |old(m.history)|, Below(old(m.now), dir))
    ensures e.Nil? ==> Below(m.now, dir) == {}
    ensures !m.lies && !m.faulty && TreeShaped(old(m.now)) && dir !in old(m.now).files ==> e.Nil?
    decreases depth, 2
  {
    var names, dirs;
    e, names, dirs := ReadDir(m, dir);
    if e.NotExist? { return Nil; }
    if e.Fault? { return; }
    e := ClearEntries(m, dir, names, dirs, depth);
    if !e.Nil? { return; }
    var left;
    e, left, dirs := ReadDir(m, dir);
    NothingListedNothingBelow(m.now, dir);
    if e.NotExist? { return Nil; }
    if e.Nil? && left != {} { return Fault; }
  }

  method ClearEntries<X>(m: Machine<X>, dir: Path, names: set<string>, dirs: set<string>, ghost depth: nat)
    returns (e: Err)
    requires m.Valid() && Within(m.now, dir, depth)
    requires names == Children(m.now, dir) && dirs == DirNames(m.now, dir)
    modifies m
    ensures m.Valid() && old(m.history) <= m.history
    ensures Shrunk(old(m.now), m.now, Below(old(m.now), dir))
    ensures Shrinking(old(m.now), m.history, |old(m.history)|, Below(old(m.now), dir))
    ensures !m.lies && !m.faulty && TreeShaped(old(m.now)) ==> e.Nil? && Below(m.now, dir) == {}
    decreases depth, 1
  {
    ghost var was, from := m.now, |m.history|;
    var todo := names;
    e := Nil;
    while todo != {}
      invariant m.Valid() && old(m.history) <= m.history && e.Nil?
      invariant Shrunk(was, m.now, Below(was, dir)) && Shrinking(was, m.history, from, Below(was, dir))
      invariant todo <= names
      invariant !m.lies && !m.faulty && TreeShaped(was) ==> Under(m.now, dir, todo)
      decreases todo
    {
      var name :| name in todo;
      todo := todo - {name};
      e := ClearEntry(m, dir, name, name in dirs, was, from, depth);
      if !e.Nil? { return; }
    }
  }

  /** One entry: a directory is emptied first, then the entry itself is removed. */
  method ClearEntry<X>(m: Machine<X>, dir: Path, name: string, isDir: bool, ghost was: Disk<X>, ghost from: nat,
                       ghost depth: nat)
    returns (e: Err)
    requires m.Valid() && Within(was, dir, depth) && name in Children(was, dir) && from <= |m.history|
    requires isDir <==> IsDir(was, dir + [name])
    requires Shrunk(was, m.now, Below(was, dir)) && Shrinking(was, m.history, from, Below(was, dir))
    modifies m
    ensures m.Valid() && old(m.history) <= m.history
    ensures Shrunk(was, m.now, Below(was, dir)) && Shrinking(was, m.history, from, Below(was, dir))
    ensures Below(m.now, dir) <= Below(old(m.now), dir)
    ensures !m.lies && !m.faulty && TreeShaped(was) ==> e.Nil? && forall q | q in Below(m.now, dir) :: q[|dir|] != name
    decreases depth, 0
  {
    var p := dir + [name];
    ghost var region, old1, first := Below(was, dir), m.now, m.history;
    WithinChild(was, m.now, dir, name, depth);
    EntryShape(was, dir, name);
    if isDir {
      e := ClearWithin(m, p, depth - 1);
      ShrinkMore(was, first, from, m.history, region, Below(old1, p));
      ShrunkBelow(old1, m.now, Below(old1, p), dir);
      if !e.Nil? { return; }
    }
    e := RemoveEntry(m, dir, name, was, from);
  }

  method RemoveEntry<X>(m: Machine<X>, dir: Path, name: string, ghost was: Disk<X>, ghost from: nat) returns (e: Err)
    requires m.Valid() && from <= |m.history|
    requires Shrunk(was, m.now, Below(was, dir)) && Shrinking(was, m.history, from, Below(was, dir))
    modifies m
    ensures m.Valid() && old(m.history) <= m.history
    ensures Shrunk(was, m.now, Below(was, dir)) && Shrinking(was, m.history, from, Below(was, dir))
    ensures Below(m.now, dir) <= Below(old(m.now), dir)
    ensures !m.lies && !m.faulty && Removable(old(m.now), dir + [name]) ==>
              e.Nil? && forall q | q in Below(m.now, dir) :: q[|dir|] != name
  {
    var p := dir + [name];
    ghost var before, first := m.now, m.history;
    e := m.Remove(p, {p});
    EntryGone(m.lies, m.faulty, before, dir, name, m.now, e);
    ShrunkBelow(was, before, Below(was, dir), dir);
    ShrinkMore(was, first, from, m.history, Below(was, dir), {p} * Below(before, dir));
    if e.NotExist? { e := Nil; }
  }

  /** A file, or a directory with nothing left in it. */
  ghost predicate Removable<X>(d: Disk<X>, p: Path) {
    Below(d, p) == {} && (p in d.files ==> p !in d.dirs)
  }

  lemma EntryGone<X>(lies: bool, faulty: bool, a: Disk<X>, dir: Path, name: string, b: Disk<X>, e: Err)
    requires RemoveStep(lies, faulty, a, dir + [name], b, e)
    ensures Shrunk(a, b, {dir + [name]} * Below(a, dir)) && Below(b, dir) <= Below(a, dir)
    ensures !lies && !faulty && Removable(a, dir + [name]) ==>
              !e.Fault? && forall q | q in Below(b, dir) :: q[|dir|] != name
  {
    var p := dir + [name];
    IsDirIff(a, p);
    assert p in a.files || p in a.dirs ==> p in Below(a, dir);
    ChildBelow(a, dir, name);
  }

  lemma EntryShape<X>(was: Disk<X>, dir: Path, name: string)
    requires name in Children(was, dir)
    ensures dir + [name] in was.files || IsDir(was, dir + [name])
    ensures TreeShaped(was) && dir + [name] in was.files ==> !IsDir(was, dir + [name]) && Removable(was, dir + [name])
  {
    var p := dir + [name];
    var q :| dir < q && q[|dir|] == name && (q in was.files || q in was.dirs);
    assert q[..|p|] == p;
    IsDirIff(was, p);
    if q != p { assert q in Below(was, p); }
  }

  /** A finite tree has a depth. */
  lemma {:induction false} Longest(s: set<Path>) returns (n: nat)
    ensures forall q | q in s :: |q| <= n
    decreases |s|
  {
    if s == {} {
      n := 0;
    } else {
      var q :| q in s;
      n := Longest(s - {q});
      n := if |q| > n then |q| else n;
    }
  }

  /** clearArtifactDir. A nil result means the second read found nothing, however the store
      lies; whatever happens, every state on the way only lost something below dir. On an
      honest store the recursion ends with nil. */
  method ClearArtifactDir<X>(m: Machine<X>, dir: Path) returns (e: Err)
    requires m.Valid()
    modifies m
    ensures m.Valid() && old(m.history) <= m.history
    ensures Shrunk(old(m.now), m.now, Below(old(m.now), dir))
    ensures Shrinking(old(m.now), m.history, |old(m.history)|, Below(old(m.now), dir))
    ensures e.Nil? ==> Below(m.now, dir) == {}
    ensures !m.lies && !m.faulty && TreeShaped(old(m.now)) && dir !in old(m.now).files ==> e.Nil?
  {
    ghost var depth := Longest(Below(m.now, dir));
    e := ClearWithin(m, dir, depth);
  }

  // ----- why not os.RemoveAll -----

  /** b is a with files at and below p missing. */
  ghost predicate Pruned<X>(a: Disk<X>, b: Disk<X>, p: Path) {
    && b.rest == a.rest && b.dirs <= a.dirs
    && (forall q :: SameFile(a.files, b.files, q) || (p <= q && q !in b.files))
  }

  /** Nothing is left at or below p. */
  predicate Gone<X>(d: Disk<X>, p: Path) { p !in d.files && p !in d.dirs && Below(d, p) == {} }

  lemma GoneAll<X>(d: Disk<X>, p: Path)
    requires Gone(d, p)
    ensures forall q | q in d.files :: !(p <= q)
  {
    forall q | q in d.files && p <= q ensures q == p || q in Below(d, p) {}
  }

  /** os.RemoveAll: a plain Remove comes first and its success is the end of it; otherwise
      what is below goes one by one, in an order left open. Where rmdir of a directory that
      is not empty reports success it returns nil over every directory, and leaves it empty
      if and only if it was. */
  method RemoveAll<X>(m: Machine<X>, p: Path) returns (e: Err)
    requires m.Valid()
    modifies m
    ensures m.Valid() && old(m.history) <= m.history
    ensures forall k | |old(m.history)| <= k < |m.history| :: Pruned(old(m.now), m.history[k], p)
    ensures Pruned(old(m.now), m.now, p)
    ensures m.quiet && p !in old(m.now).files && Below(old(m.now), p) != {} ==> e.Nil? && m.now == old(m.now)
    ensures m.quiet && p !in old(m.now).files && !m.faulty ==>
              (Below(m.now, p) == {} <==> Below(old(m.now), p) == {})
    ensures !m.faulty ==> e.Nil?
    ensures e.Nil? && !m.lies && TreeShaped(old(m.now)) ==>
              Gone(m.now, p) || (m.now == old(m.now) && Below(m.now, p) != {})
  {
    e := m.Remove(p, {p});
    if !e.Fault? {
      IsDirIff(old(m.now), p);
      return Nil;
    }
    var todo := Below(m.now, p) + {p};
    e := Nil;
    while todo != {}
      invariant m.Valid() && old(m.history) <= m.history
      invariant forall q | q in todo :: p <= q
      invariant !m.lies ==> Below(m.now, p) <= todo && (p in m.now.files || p in m.now.dirs ==> p in todo)
      invariant Pruned(old(m.now), m.now, p)
      invariant forall k | |old(m.history)| <= k < |m.history| :: Pruned(old(m.now), m.history[k], p)
      decreases todo
    {
      var q :| q in todo;
      todo := todo - {q};
      var fails: bool := *;
      if m.faulty && fails { return Fault; }
      var silent: bool := *;
      if !(m.lies && silent) { m.Enter(m.now.(files := m.now.files - {q}, dirs := m.now.dirs - {q})); }
    }
  }

  /** On one and the same such store, for any directory with anything in it: RemoveAll
      returns nil and has removed nothing, clearArtifactDir returns nil and has emptied it. */
  method TrustedAgainstVerified<X>(d: Disk<X>, dir: Path) returns (trusted: Disk<X>, verified: Disk<X>, a: Err, b: Err)
    requires TreeShaped(d) && dir !in d.files && Below(d, dir) != {}
    ensures a.Nil? && trusted == d
    ensures b.Nil? && Below(verified, dir) == {} && Shrunk(d, verified, Below(d, dir))
  {
    var m := new Machine(d, false, false, true);
    a := RemoveAll(m, dir);
    trusted := m.now;
    m := new Machine(d, false, false, true);
    b := ClearArtifactDir(m, dir);
    verified := m.now;
  }
}
