/** The staging pre-warm with its pool: the workers of internal/artifact/prefetch.go copy
    different files at the same time, chunk by chunk, into one tree. */
module Staging {
  import opened Storage
  import opened Manifests
  import opened Commit
  import opened ImageSource
  import P = Prefetch

  /** The pool, how far each worker has written the file it is at, and the files. */
  datatype Joint = Joint(pool: P.Pool, written: seq<Option<nat>>, files: map<Path, Bytes>)

  /** A move of the pool, or of a worker inside fetchOne: unlink and create, or one write. */
  datatype Move = Pool(step: P.Step) | Open(w: nat) | Chunk(w: nat, n: nat)

  function Sizes(ts: seq<Transfer>): seq<nat> { seq(|ts|, i requires 0 <= i < |ts| => ts[i].f.size) }

  /** Worker w is at a file. */
  predicate At(ts: seq<Transfer>, s: Joint, w: nat) {
    w < |s.pool.workers| == |s.written| && s.pool.workers[w].Fetching? && s.pool.workers[w].file < |ts|
  }

  function Of(ts: seq<Transfer>, s: Joint, w: nat): Transfer
    requires At(ts, s, w)
  {
    ts[s.pool.workers[w].file]
  }

  /** The moves; base is the tree before the fetch, whose sources nothing writes. A fetch
      succeeds when the whole source has gone out and has the listed size. */
  predicate Next(base: map<Path, Bytes>, ts: seq<Transfer>, move: Move, a: Joint, b: Joint) {
    match move
    case Pool(step) =>
      && P.Typed(Sizes(ts), a.pool) && P.Enabled(Sizes(ts), a.pool, step)
      && b.pool == P.Apply(Sizes(ts), a.pool, step) && b.files == a.files
      && (if step.Hand? && step.w < |a.written| then b.written == a.written[step.w := None] else b.written == a.written)
      && (step.Succeed? ==>
            && At(ts, a, step.w)
            && var t := Of(ts, a, step.w);
            t.source in base && |base[t.source]| == t.f.size && a.written[step.w] == Some(|base[t.source]|))
    case Open(w) =>
      && At(ts, a, w) && a.written[w].None? && Of(ts, a, w).source in base
      && b == a.(written := a.written[w := Some(0)], files := a.files[Of(ts, a, w).staged := []])
    case Chunk(w, n) =>
      && At(ts, a, w) && a.written[w].Some? && Of(ts, a, w).source in base
      && var t, off := Of(ts, a, w), a.written[w].value;
      && off + n <= |base[t.source]|
      && b == a.(written := a.written[w := Some(off + n)],
              files := a.files[t.staged := Content(a.files, t.staged) + base[t.source][off..off + n]])
  }

  function Start(parallelism: int, base: map<Path, Bytes>, ts: seq<Transfer>): Joint {
    var pool := P.Start(parallelism, Sizes(ts));
    Joint(pool, seq(|pool.workers|, w => None), base)
  }

  ghost predicate DistinctTargets(ts: seq<Transfer>) {
    forall i, j | 0 <= i < j < |ts| :: ts[i].staged != ts[j].staged
  }

  /** What a worker has written is the front of its source. */
  predicate WorkerOk(base: map<Path, Bytes>, ts: seq<Transfer>, s: Joint, w: nat) {
    At(ts, s, w) && s.written[w].Some? ==>
      var t, off := Of(ts, s, w), s.written[w].value;
      && t.source in base && off <= |base[t.source]|
      && t.staged in s.files && s.files[t.staged] == base[t.source][..off]
  }

  predicate FileOk(base: map<Path, Bytes>, ts: seq<Transfer>, s: Joint, i: nat)
    requires i < |ts|
  {
    i < |s.pool.slots| && s.pool.slots[i].Fetched? ==>
      ts[i].source in base && |base[ts[i].source]| == ts[i].f.size && Holds(s.files, ts[i].staged, base[ts[i].source])
  }

  predicate Holds(files: map<Path, Bytes>, p: Path, data: Bytes) { p in files && files[p] == data }

  ghost predicate Inv(base: map<Path, Bytes>, ts: seq<Transfer>, s: Joint) {
    && P.Inv(Sizes(ts), s.pool) && |s.written| == |s.pool.workers|
    && (forall w | 0 <= w < |s.written| :: WorkerOk(base, ts, s, w))
    && (forall i | 0 <= i < |ts| :: FileOk(base, ts, s, i))
    && Alike(base, s.files, Targets(ts))
  }

  lemma StartOk(parallelism: int, base: map<Path, Bytes>, ts: seq<Transfer>)
    ensures Inv(base, ts, Start(parallelism, base, ts))
  {
    P.StartOk(parallelism, Sizes(ts));
  }

  /** A write at one worker's place leaves every other worker's and every finished file alone:
      the pool gives no file to two workers, and different files have different places. */
  lemma WriteApart(base: map<Path, Bytes>, ts: seq<Transfer>, a: Joint, w: nat, off: nat, data: Bytes)
    requires Inv(base, ts, a) && DistinctTargets(ts) && At(ts, a, w)
    requires var t := Of(ts, a, w);
             t.source in base && off <= |base[t.source]| && data == base[t.source][..off]
    ensures Inv(base, ts, a.(written := a.written[w := Some(off)], files := a.files[Of(ts, a, w).staged := data]))
  {
    var t := Of(ts, a, w);
    var b := a.(written := a.written[w := Some(off)], files := a.files[t.staged := data]);
    assert P.WorkerOk(a.pool, w);
    forall v | 0 <= v < |b.written| ensures WorkerOk(base, ts, b, v) {
      assert WorkerOk(base, ts, a, v) && P.WorkerOk(a.pool, v);
      P.OtherSlot(a.pool, w, v);
    }
    forall i | 0 <= i < |ts| ensures FileOk(base, ts, b, i) { assert FileOk(base, ts, a, i); }
    assert t.staged in Targets(ts);
    assert b.files - Targets(ts) == a.files - Targets(ts);
  }

  lemma PoolMoves(base: map<Path, Bytes>, ts: seq<Transfer>, step: P.Step, a: Joint, b: Joint)
    requires Inv(base, ts, a) && Next(base, ts, Pool(step), a, b)
    ensures Inv(base, ts, b)
  {
    P.StepKeeps(Sizes(ts), a.pool, step);
    forall w | 0 <= w < |b.written| ensures WorkerOk(base, ts, b, w) { assert WorkerOk(base, ts, a, w); }
    forall i | 0 <= i < |ts| ensures FileOk(base, ts, b, i) { PoolFile(base, ts, step, a, b, i); }
  }

  /** A file is counted as fetched only when its worker has written all of it. */
  lemma PoolFile(base: map<Path, Bytes>, ts: seq<Transfer>, step: P.Step, a: Joint, b: Joint, i: nat)
    requires Inv(base, ts, a) && Next(base, ts, Pool(step), a, b) && i < |ts|
    ensures FileOk(base, ts, b, i)
  {
    assert FileOk(base, ts, a, i);
    if step.Succeed? { assert WorkerOk(base, ts, a, step.w); }
    if step.Hand? || step.NoSend? { assert P.SlotOk(a.pool, a.pool.next); }
  }

  lemma NextKeeps(base: map<Path, Bytes>, ts: seq<Transfer>, move: Move, a: Joint, b: Joint)
    requires Inv(base, ts, a) && Next(base, ts, move, a, b) && DistinctTargets(ts)
    ensures Inv(base, ts, b)
  {
    match move {
      case Pool(step) => PoolMoves(base, ts, step, a, b);
      case Open(w) => WriteApart(base, ts, a, w, 0, []);
      case Chunk(w, n) =>
        var source, off := base[Of(ts, a, w).source], a.written[w].value;
        assert WorkerOk(base, ts, a, w);
        assert source[..off] + source[off..off + n] == source[..off + n];
        WriteApart(base, ts, a, w, off + n, source[..off + n]);
    }
  }

  ghost predicate Someone(base: map<Path, Bytes>, ts: seq<Transfer>, a: Joint, b: Joint) {
    exists move :: Next(base, ts, move, a, b)
  }

  ghost predicate Reached(parallelism: int, base: map<Path, Bytes>, ts: seq<Transfer>, history: seq<Joint>) {
    && history != [] && history[0] == Start(parallelism, base, ts)
    && forall k | 0 < k < |history| :: Someone(base, ts, history[k - 1], history[k])
  }

  lemma {:induction false} ReachedInv(parallelism: int, base: map<Path, Bytes>, ts: seq<Transfer>, history: seq<Joint>,
                                      k: nat)
    requires Reached(parallelism, base, ts, history) && DistinctTargets(ts) && k < |history|
    ensures Inv(base, ts, history[k])
  {
    if k == 0 {
      StartOk(parallelism, base, ts);
    } else {
      ReachedInv(parallelism, base, ts, history, k - 1);
      assert Someone(base, ts, history[k - 1], history[k]);
      var move :| Next(base, ts, move, history[k - 1], history[k]);
      NextKeeps(base, ts, move, history[k - 1], history[k]);
    }
  }

  lemma {:induction false} CarryElsewhere(files: map<Path, Bytes>, ts: seq<Transfer>, p: Path)
    requires p !in Targets(ts)
    ensures SameFile(files, Carry(files, ts), p)
  {
    if ts != [] {
      var n := |ts| - 1;
      assert ts[n].staged in Targets(ts);
      assert forall i | 0 <= i < n :: ts[..n][i].staged in Targets(ts) by {
        forall i | 0 <= i < n ensures ts[..n][i].staged in Targets(ts) { assert ts[i].staged in Targets(ts); }
      }
      CarryElsewhere(files, ts[..n], p);
    }
  }

  /** The tree with every source at its place is the one the transfers make one by one. */
  lemma CarryIs(base: map<Path, Bytes>, ts: seq<Transfer>, files: map<Path, Bytes>)
    requires OneWay(ts) && Alike(base, files, Targets(ts))
    requires forall i | 0 <= i < |ts| :: ts[i].source in base && Holds(files, ts[i].staged, base[ts[i].source])
    ensures files == Carry(base, ts)
  {
    forall p ensures SameFile(files, Carry(base, ts), p) {
      if p in Targets(ts) {
        var i :| 0 <= i < |ts| && ts[i].staged == p;
        CarryAt(base, ts, i);
      } else {
        CarryElsewhere(base, ts, p);
        AlikeAt(base, files, Targets(ts), p);
      }
    }
    SameFiles(files, Carry(base, ts));
  }

  lemma SameFiles(a: map<Path, Bytes>, b: map<Path, Bytes>)
    requires forall p :: SameFile(a, b, p)
    ensures a == b
  {
    forall p | p in a ensures p in b && a[p] == b[p] { assert SameFile(a, b, p); }
    forall p | p in b ensures p in a { assert SameFile(a, b, p); }
  }

  /** However many workers, in whatever order they take the files and interleave their
      writes: when the pool returns without an error the tree is what the transfers make one
      after the other. */
  lemma PoolStages(parallelism: int, base: map<Path, Bytes>, ts: seq<Transfer>, history: seq<Joint>, k: nat)
    requires OneWay(ts) && DistinctTargets(ts) && Reached(parallelism, base, ts, history) && k < |history|
    requires var p := history[k].pool.producer; p.Returned? && p.result.Done?
    ensures history[k].files == Carry(base, ts)
    ensures Fetched(base, ts)
  {
    var s := history[k];
    ReachedInv(parallelism, base, ts, history, k);
    P.ReturnMeans(Sizes(ts), s.pool);
    forall i | 0 <= i < |ts|
      ensures ts[i].source in base && |base[ts[i].source]| == ts[i].f.size
      ensures Holds(s.files, ts[i].staged, base[ts[i].source])
    {
      assert FileOk(base, ts, s, i) && s.pool.slots[i].Fetched?;
    }
    CarryIs(base, ts, s.files);
  }

  /** A manifest that lists no name twice stages different files at different places. */
  lemma TransfersDistinct(node: Node, man: Manifest)
    requires ListsNoMarker(man) && forall i, j | 0 <= i < j < |man.files| :: man.files[i].path != man.files[j].path
    ensures DistinctTargets(Transfers(node.mount, node.Stage(), man.files))
  {
    var ts := Transfers(node.mount, node.Stage(), man.files);
    forall i, j | 0 <= i < j < |ts| ensures ts[i].staged != ts[j].staged {
      if ts[i].staged == ts[j].staged { AtInjective(node.Stage(), man.files[i].path, man.files[j].path); }
    }
  }

  /** The concurrent staging of an artifact that lists no name twice, with the marker written
      after the pool's return, is this artifact's and complete. */
  lemma PooledComplete(c: Codec, node: Node, man: Manifest, parallelism: int, base: map<Path, Bytes>,
                       history: seq<Joint>, k: nat)
    requires Lawful(c) && Apart(node) && SourceOk(c, base, node, man) && k < |history|
    requires forall i, j | 0 <= i < j < |man.files| :: man.files[i].path != man.files[j].path
    requires Reached(parallelism, base, Transfers(node.mount, node.Stage(), man.files), history)
    requires var p := history[k].pool.producer; p.Returned? && p.result.Done?
    ensures var after := Publish(history[k].files, node.Stage(), c.encode(man));
            && Committed(c, after, node.Stage()) == Some(man) && Agrees(after, node.Stage(), man)
            && Copied(base, after, node, man)
  {
    TransfersDistinct(node, man);
    TransfersOneWay(node, man);
    PoolStages(parallelism, base, Transfers(node.mount, node.Stage(), man.files), history, k);
    StagedComplete(c, base, node, man);
  }
}
