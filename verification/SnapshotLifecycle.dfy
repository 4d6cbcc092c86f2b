/** The PodSnapshot lifecycle: the manager, its detached kubelet call and the three node
    agents race for one status object. Every actor reads a copy, works while the others go
    on, and writes back only over the version it read. */
module SnapshotLifecycle {
  import opened Paths
  import opened Manifests
  import opened Snapshots

  datatype Quiesce = Quiesce(dir: string, ready: bool)
  datatype Place = Place(node: string, podUID: string, container: string)

  /** The stored object; messages, times and the other conditions are left out. */
  datatype Snapshot = Snapshot(version: nat, phase: Phase, place: Option<Place>, uri: Option<string>,
                               quiesce: Option<Quiesce>, tar: Option<string>)

  /** Where one reconcile of the checkpoint agent is: not running, before and after it has
      found no commit marker, and past a marker it found or wrote. */
  datatype Stage = Off | Looking | Dumping | Done
  /** The same for one reconcile of the upload agent. */
  datatype Transfer = Idle | Busy | Landed

  /** The object, whether the artifact at its URI is committed, and the two agents that work
      on that artifact. */
  datatype Cluster = Cluster(snap: Snapshot, committed: bool, dump: Stage, upload: Transfer)

  datatype Actor = Manager | KubeletCall | QuiesceAgent | CheckpointAgent | UploadAgent

  // ----- who runs the dump -----

  /** What the routing goes by: the spec names the node agent as checkpointer, the URI parses
      as that of a directory artifact, and every look at the node finds its agent advertising
      that it can. */
  datatype Route = Route(asked: bool, directory: bool, capable: bool)

  /** owns of the node agent, for a snapshot of its node. */
  predicate Owns(r: Route, s: Snapshot) {
    s.phase == Checkpointing && r.asked && s.uri.Some?
  }

  /** agentCheckpoints of the manager; seen is what this look at the node found. */
  predicate AgentCheckpoints(r: Route, seen: bool, s: Snapshot) {
    r.asked && s.uri.Some? && r.directory && seen
  }

  /** What a look at the node can find. */
  predicate Sees(r: Route, seen: bool) { r.capable ==> seen }

  /** The two predicates agree. */
  predicate Agree(r: Route) { r.asked ==> r.directory && r.capable }

  /** At most one of them leads to a write of the artifact. */
  predicate OneWriter(r: Route) { r.asked && r.directory ==> r.capable }

  /** Some look makes the manager fall back to the kubelet call. */
  predicate FallsBack(r: Route) { !(r.asked && r.directory && r.capable) }

  /** The node agent and the manager agree on every look at the node if and only if an agent
      that is asked is asked for a directory on a node that can. */
  lemma RoutingsAgreeIff(r: Route, s: Snapshot)
    requires s.phase == Checkpointing && s.uri.Some?
    ensures (forall seen | Sees(r, seen) :: Owns(r, s) <==> AgentCheckpoints(r, seen, s)) <==> Agree(r)
    ensures (exists seen :: Sees(r, seen) && !AgentCheckpoints(r, seen, s)) <==> FallsBack(r)
  {
    assert Sees(r, r.capable) && (AgentCheckpoints(r, r.capable, s) <==> r.asked && r.directory && r.capable);
  }

  // ----- the steps -----

  function Rank(p: Phase): nat {
    match p
    case Unset => 0
    case Pending => 1
    case Quiescing => 2
    case Checkpointing => 3
    case Checkpointed => 4
    case Uploading => 5
    case Completed => 6
    case Failed => 6
  }

  predicate Terminal(p: Phase) { p == Completed || p == Failed }

  /** Everything but phase and version is as it was. */
  predicate SameFields(a: Snapshot, b: Snapshot) {
    b == a.(version := b.version, phase := b.phase)
  }

  predicate ManagerWrite(r: Route, a: Snapshot, b: Snapshot) {
    || (SameFields(a, b) && b.phase == a.phase && !Terminal(a.phase))
    || (SameFields(a, b) && a.phase == Unset && b.phase == Pending)
    || (SameFields(a, b) && a.phase == Quiescing && b.phase == Failed)
    || (a.phase == Pending && b.phase == Failed && b.quiesce == a.quiesce && b.tar == a.tar)
    || (SameFields(a, b) && a.phase == Checkpointing && FallsBack(r) && b.phase == Failed)
    || (a.phase == Pending && b.place.Some? && b.uri.Some? && (a.uri.Some? ==> b.uri == a.uri) && b.tar == a.tar
        && ((b.phase == Quiescing && b.quiesce.Some? && !b.quiesce.value.ready)
            || (b.phase == Checkpointing && b.quiesce == a.quiesce)))
  }

  predicate KubeletWrite(r: Route, a: Snapshot, b: Snapshot) {
    && FallsBack(r) && a.phase == Checkpointing
    && ((SameFields(a, b) && b.phase == Failed)
        || (b.phase == Checkpointed && b.tar.Some? && SameFields(a.(tar := b.tar), b)))
  }

  predicate QuiesceWrite(a: Snapshot, b: Snapshot) {
    && a.phase == Quiescing && b.phase == Checkpointing
    && a.quiesce.Some? && SameFields(a.(quiesce := Some(a.quiesce.value.(ready := true))), b)
  }

  /** The agent in the middle of a reconcile writes over whatever it has just re-read: it does
      not look at the phase again. */
  predicate CheckpointWrite(stage: Stage, a: Snapshot, b: Snapshot) {
    && stage != Off && SameFields(a, b)
    && if stage == Done then b.phase == Completed else b.phase == a.phase || b.phase == Failed
  }

  /** The upload agent writes only over the version it has read. */
  predicate UploadWrite(transfer: Transfer, a: Snapshot, b: Snapshot) {
    && SameFields(a, b)
    && if transfer == Idle then a.phase == Checkpointed && b.phase == Uploading
       else a.phase == Uploading && if transfer == Landed then b.phase == Completed else b.phase in {Uploading, Failed}
  }

  /** The status writes each actor may make; an agent's write ends its reconcile. */
  predicate Write(who: Actor, r: Route, a: Cluster, b: Cluster) {
    && b.snap.version > a.snap.version && b == After(who, a, b.snap)
    && match who
       case Manager => ManagerWrite(r, a.snap, b.snap)
       case KubeletCall => KubeletWrite(r, a.snap, b.snap)
       case QuiesceAgent => QuiesceWrite(a.snap, b.snap)
       case CheckpointAgent => CheckpointWrite(a.dump, a.snap, b.snap)
       case UploadAgent => UploadWrite(a.upload, a.snap, b.snap)
  }

  function After(who: Actor, a: Cluster, snap: Snapshot): Cluster {
    a.(snap := snap,
    dump := if who == CheckpointAgent then Off else a.dump,
    upload := if who == UploadAgent then Idle else a.upload)
  }

  /** The checkpoint agent's reconcile: it starts on a snapshot it owns; over a commit marker it
      is done; otherwise it clears, dumps and publishes; and it may die or give up at any time. */
  predicate DumpWork(r: Route, a: Cluster, b: Cluster) {
    || (a.dump == Off && Owns(r, a.snap) && b == a.(dump := Looking))
    || (a.dump == Looking && r.directory && b == a.(dump := if a.committed then Done else Dumping))
    || (a.dump == Dumping && b.dump in {Dumping, Done} && (b.dump == Done ==> b.committed)
        && b == a.(dump := b.dump, committed := b.committed))
    || b == a.(dump := Off)
  }

  /** The upload agent's reconcile: it un-commits what is there and commits the tar. */
  predicate UploadWork(a: Cluster, b: Cluster) {
    || (a.upload == Idle && a.snap.phase == Uploading && b == a.(upload := Busy))
    || (a.upload == Busy && b.upload in {Busy, Landed} && (b.upload == Landed ==> b.committed)
        && b == a.(upload := b.upload, committed := b.committed))
    || b == a.(upload := Idle)
  }

  /** One step of one actor: a status write, or work on the artifact. */
  predicate Step(who: Actor, r: Route, a: Cluster, b: Cluster) {
    || Write(who, r, a, b)
    || (who == CheckpointAgent && DumpWork(r, a, b))
    || (who == UploadAgent && UploadWork(a, b))
  }

  /** What holds of every reachable state, however the dump is routed. */
  predicate Base(r: Route, s: Cluster) {
    var p := s.snap.phase;
    && (p in {Unset, Pending} ==> s.snap.quiesce.None?)
    && (Rank(p) >= 2 && p != Failed ==> s.snap.place.Some? && s.snap.uri.Some?)
    && (p == Quiescing ==> s.snap.quiesce.Some?)
    && (s.snap.quiesce.Some? && p != Quiescing && p != Failed ==> s.snap.quiesce.value.ready)
    && (s.dump != Off ==> r.asked && Rank(p) >= 3 && s.snap.place.Some? && s.snap.uri.Some?
                          && (s.snap.quiesce.Some? ==> s.snap.quiesce.value.ready))
    && (s.dump in {Dumping, Done} ==> r.directory)
  }

  /** And what holds where at most one agent writes the artifact. */
  predicate Guarded(s: Cluster) {
    var p := s.snap.phase;
    && (p == Completed ==> s.committed && s.upload == Idle)
    && (s.dump in {Dumping, Done} ==> p == Checkpointing)
    && (s.dump == Done ==> s.committed)
    && (s.upload != Idle ==> p in {Uploading, Failed})
    && (s.upload == Landed ==> s.committed)
  }

  predicate Inv(r: Route, s: Cluster) {
    && Base(r, s)
    && (OneWriter(r) ==> Guarded(s))
    && (Agree(r) ==>
          (s.dump != Off ==> s.snap.phase == Checkpointing) && (s.upload != Idle ==> s.snap.phase == Uploading))
  }

  lemma StepKeepsInv(who: Actor, r: Route, a: Cluster, b: Cluster)
    requires Step(who, r, a, b) && Inv(r, a)
    ensures Inv(r, b)
    ensures Rank(a.snap.phase) <= Rank(b.snap.phase)
    ensures Agree(r) && Terminal(a.snap.phase) ==> b == a
    ensures OneWriter(r) && a.snap.phase == Failed ==> b.snap.phase == Failed
  {
  }

  /** A snapshot whose status nobody has written yet; something may be committed already. */
  predicate Start(s: Cluster) {
    s.snap == Snapshot(s.snap.version, Unset, None, None, None, None) && s.dump == Off && s.upload == Idle
  }

  /** From such a start, consecutive states are one step of some actor apart. */
  ghost predicate Reached(r: Route, history: seq<Cluster>) {
    && history != [] && Start(history[0])
    && (forall k | 0 < k < |history| :: Someone(r, history[k - 1], history[k]))
  }

  ghost predicate Someone(r: Route, a: Cluster, b: Cluster) {
    exists who :: Step(who, r, a, b)
  }

  /** Over any run, between any two of its states, however the dump is routed: the rank never
      falls, and a quiesce contract past Quiescing has been honoured unless the snapshot
      failed. Where the routings agree, Completed and Failed are absorbing and a state marked
      Completed has a committed artifact. */
  lemma {:induction false} Lifecycle(r: Route, history: seq<Cluster>, i: nat, j: nat)
    requires Reached(r, history) && i <= j < |history|
    ensures Inv(r, history[j])
    ensures Rank(history[i].snap.phase) <= Rank(history[j].snap.phase)
    ensures history[j].snap.quiesce.Some? && history[j].snap.phase !in {Quiescing, Failed} ==>
              history[j].snap.quiesce.value.ready
    ensures Agree(r) && Terminal(history[i].snap.phase) ==> history[j] == history[i]
    ensures OneWriter(r) && history[i].snap.phase == Failed ==> history[j].snap.phase == Failed
    ensures OneWriter(r) && history[j].snap.phase == Completed ==> history[j].committed
    decreases j
  {
    if j > 0 {
      assert Someone(r, history[j - 1], history[j]);
      var who :| Step(who, r, history[j - 1], history[j]);
      if i < j {
        Lifecycle(r, history, i, j - 1);
      } else {
        Lifecycle(r, history, j - 1, j - 1);
      }
      StepKeepsInv(who, r, history[j - 1], history[j]);
    }
  }

  // ----- what the routing agreement is worth -----

  ghost predicate TerminalAbsorbs(r: Route) {
    forall history: seq<Cluster>, i: nat, j: nat
      | Reached(r, history) && i <= j < |history| && Terminal(history[i].snap.phase) ::
      history[j].snap.phase == history[i].snap.phase
  }

  ghost predicate FailedAbsorbs(r: Route) {
    forall history: seq<Cluster>, i: nat, j: nat
      | Reached(r, history) && i <= j < |history| && history[i].snap.phase == Failed ::
      history[j].snap.phase == Failed
  }

  ghost predicate CompletedIsCommitted(r: Route) {
    forall history: seq<Cluster>, i: nat | Reached(r, history) && i < |history| && history[i].snap.phase == Completed ::
      history[i].committed
  }

  lemma RunMore(r: Route, history: seq<Cluster>, who: Actor, next: Cluster)
    requires Reached(r, history) && Step(who, r, history[|history| - 1], next)
    ensures Reached(r, history + [next])
  {
    var more := history + [next];
    forall k | 0 < k < |more| ensures Someone(r, more[k - 1], more[k]) {
      if k < |history| { assert Someone(r, history[k - 1], history[k]); }
    }
  }

  /** A snapshot in the given phase, as the runs below pass through it. */
  function At(version: nat, phase: Phase, tar: Option<string>): Snapshot {
    Snapshot(version, phase, Some(Place("node", "uid", "container")), Some("uri"), None, tar)
  }

  /** Every run below: the agent has started its reconcile. */
  lemma AgentStarts(r: Route) returns (history: seq<Cluster>)
    requires r.asked
    ensures Reached(r, history) && history[|history| - 1] == Cluster(At(2, Checkpointing, None), false, Looking, Idle)
  {
    history := [Cluster(Snapshot(0, Unset, None, None, None, None), false, Off, Idle)];
    var pending := Cluster(Snapshot(1, Pending, None, None, None, None), false, Off, Idle);
    RunMore(r, history, Manager, pending);
    history := history + [pending];
    var routed := Cluster(At(2, Checkpointing, None), false, Off, Idle);
    RunMore(r, history, Manager, routed);
    history := history + [routed];
    RunMore(r, history, CheckpointAgent, routed.(dump := Looking));
    history := history + [routed.(dump := Looking)];
  }

  /** The agent has published its dump and is about to record it. */
  lemma AgentPublishes(r: Route) returns (history: seq<Cluster>)
    requires r.asked && r.directory
    ensures Reached(r, history) && history[|history| - 1] == Cluster(At(2, Checkpointing, None), true, Done, Idle)
  {
    history := AgentStarts(r);
    var dumping := Cluster(At(2, Checkpointing, None), false, Dumping, Idle);
    RunMore(r, history, CheckpointAgent, dumping);
    history := history + [dumping];
    RunMore(r, history, CheckpointAgent, dumping.(dump := Done, committed := true));
    history := history + [dumping.(dump := Done, committed := true)];
  }

  /** The kubelet call has failed meanwhile; then the agent records its dump. */
  lemma RevivesFailed(r: Route) returns (history: seq<Cluster>)
    requires r.asked && r.directory && !r.capable
    ensures Reached(r, history) && |history| >= 2
    ensures history[|history| - 2].snap.phase == Failed && history[|history| - 1].snap.phase == Completed
  {
    history := AgentPublishes(r);
    var failed := Cluster(At(3, Failed, None), true, Done, Idle);
    RunMore(r, history, KubeletCall, failed);
    history := history + [failed];
    var completed := Cluster(At(4, Completed, None), true, Off, Idle);
    RunMore(r, history, CheckpointAgent, completed);
    history := history + [completed];
  }

  /** The kubelet call has succeeded meanwhile and the upload has claimed the snapshot. */
  lemma UploadClaims(r: Route, first: seq<Cluster>) returns (history: seq<Cluster>)
    requires Reached(r, first) && FallsBack(r)
    requires var last := first[|first| - 1]; last.snap == At(2, Checkpointing, None) && last.upload == Idle
    ensures Reached(r, history)
    ensures history[|history| - 1] == first[|first| - 1].(snap := At(4, Uploading, Some("tar")), upload := Busy)
  {
    history := first;
    var last := first[|first| - 1];
    var checkpointed := last.(snap := At(3, Checkpointed, Some("tar")));
    RunMore(r, history, KubeletCall, checkpointed);
    history := history + [checkpointed];
    var claimed := last.(snap := At(4, Uploading, Some("tar")));
    RunMore(r, history, UploadAgent, claimed);
    history := history + [claimed];
    RunMore(r, history, UploadAgent, claimed.(upload := Busy));
    history := history + [claimed.(upload := Busy)];
  }

  /** The upload completes the snapshot; then the agent records a failure. */
  lemma FailsCompleted(r: Route) returns (history: seq<Cluster>)
    requires r.asked && FallsBack(r)
    ensures Reached(r, history) && |history| >= 2
    ensures history[|history| - 2].snap.phase == Completed && history[|history| - 1].snap.phase == Failed
  {
    history := AgentStarts(r);
    history := UploadClaims(r, history);
    var landed := Cluster(At(4, Uploading, Some("tar")), true, Looking, Landed);
    RunMore(r, history, UploadAgent, landed);
    history := history + [landed];
    var completed := Cluster(At(5, Completed, Some("tar")), true, Looking, Idle);
    RunMore(r, history, UploadAgent, completed);
    history := history + [completed];
    var failed := Cluster(At(6, Failed, Some("tar")), true, Off, Idle);
    RunMore(r, history, CheckpointAgent, failed);
    history := history + [failed];
  }

  /** The upload un-commits the dump; then the agent records it as complete. */
  lemma CompletesUncommitted(r: Route) returns (history: seq<Cluster>)
    requires r.asked && r.directory && !r.capable
    ensures Reached(r, history)
    ensures history[|history| - 1].snap.phase == Completed && !history[|history| - 1].committed
  {
    history := AgentPublishes(r);
    history := UploadClaims(r, history);
    var cleared := Cluster(At(4, Uploading, Some("tar")), false, Done, Busy);
    RunMore(r, history, UploadAgent, cleared);
    history := history + [cleared];
    var completed := Cluster(At(5, Completed, Some("tar")), false, Off, Busy);
    RunMore(r, history, CheckpointAgent, completed);
    history := history + [completed];
  }

  /** Completed and Failed are absorbing in every run if and only if the two routings agree. */
  lemma TerminalAbsorbsIff(r: Route)
    ensures TerminalAbsorbs(r) <==> Agree(r)
  {
    if Agree(r) {
      forall history: seq<Cluster>, i: nat, j: nat
        | Reached(r, history) && i <= j < |history| && Terminal(history[i].snap.phase)
        ensures history[j].snap.phase == history[i].snap.phase
      {
        Lifecycle(r, history, i, j);
      }
    } else {
      var history := FailsCompleted(r);
      assert Terminal(history[|history| - 2].snap.phase);
    }
  }

  /** A snapshot never comes back from Failed if and only if no incapable node's agent is
      asked for a directory. */
  lemma FailedAbsorbsIff(r: Route)
    ensures FailedAbsorbs(r) <==> (r.asked && r.directory ==> r.capable)
  {
    if OneWriter(r) {
      forall history: seq<Cluster>, i: nat, j: nat
        | Reached(r, history) && i <= j < |history| && history[i].snap.phase == Failed
        ensures history[j].snap.phase == Failed
      {
        Lifecycle(r, history, i, j);
      }
    } else {
      var history := RevivesFailed(r);
      assert history[|history| - 2].snap.phase == Failed;
    }
  }

  /** The same condition decides whether Completed always means a committed artifact. */
  lemma CompletedIsCommittedIff(r: Route)
    ensures CompletedIsCommitted(r) <==> (r.asked && r.directory ==> r.capable)
  {
    if OneWriter(r) {
      forall history: seq<Cluster>, i: nat | Reached(r, history) && i < |history| && history[i].snap.phase == Completed
        ensures history[i].committed
      {
        Lifecycle(r, history, i, i);
      }
    } else {
      var history := CompletesUncommitted(r);
      assert history[|history| - 1].snap.phase == Completed;
    }
  }

  // ----- the actors -----

  /** What an actor still knows after the others have gone on: an equal version is an equal
      object, its own reconcile is where it was, and, where the routings agree, the agent
      whose phase it is keeps it. */
  predicate Since(who: Actor, r: Route, a: Cluster, b: Cluster) {
    && b.snap.version >= a.snap.version && (b.snap.version == a.snap.version ==> b.snap == a.snap)
    && (who == CheckpointAgent ==> b.dump == a.dump)
    && (who == UploadAgent ==> b.upload == a.upload)
    && (who == CheckpointAgent && Agree(r) && a.dump != Off ==>
          b.snap.phase == Checkpointing && b.committed == a.committed)
    && (who == UploadAgent && Agree(r) && a.upload != Idle ==> b.snap.phase == Uploading && b.committed == a.committed)
  }

  lemma SinceMore(who: Actor, other: Actor, r: Route, a: Cluster, b: Cluster, c: Cluster)
    requires Since(who, r, a, b) && other != who && Step(other, r, b, c) && Inv(r, a) && Inv(r, b)
    ensures Since(who, r, a, c)
  {
  }

  /** The API server, with every state the cluster has been in. */
  class Server {
    var now: Cluster
    ghost var history: seq<Cluster>
    const route: Route

    constructor (c: Cluster, route: Route)
      requires Start(c)
      ensures Valid() && now == c && history == [c] && this.route == route
    {
      now, history := c, [c];
      this.route := route;
    }

    ghost predicate Valid()
      reads this
    {
      Reached(route, history) && history[|history| - 1] == now && Inv(route, now)
    }

    method Enter(next: Cluster, who: Actor)
      requires Valid() && Step(who, route, now, next)
      modifies this
      ensures Valid() && now == next && history == old(history) + [next]
    {
      StepKeepsInv(who, route, now, next);
      RunMore(route, history, who, next);
      now, history := next, history + [next];
    }

    /** Anyone but who takes any number of steps. */
    method Others(who: Actor)
      requires Valid()
      modifies this
      ensures Valid() && old(history) <= history && Since(who, route, old(now), now)
    {
      var steps: nat := *;
      while steps > 0
        invariant Valid() && old(history) <= history && Since(who, route, old(now), now)
      {
        var other: Actor := *;
        var next: Cluster := *;
        if other != who && Step(other, route, now, next) {
          SinceMore(who, other, route, old(now), now, next);
          Enter(next, other);
        }
        steps := steps - 1;
      }
    }

    /** Status().Update of a copy: refused when the stored object has moved on. */
    method Update(who: Actor, copy: Snapshot) returns (ok: bool)
      requires Valid()
      requires now.snap.version == copy.version ==>
                 Write(who, route, now, After(who, now, copy.(version := copy.version + 1)))
      modifies this
      ensures Valid() && old(history) <= history
      ensures ok <==> old(now).snap.version == copy.version
      ensures ok ==> now == After(who, old(now), copy.(version := copy.version + 1))
      ensures !ok ==> now == old(now)
    {
      ok := now.snap.version == copy.version;
      if ok {
        Enter(After(who, now, copy.(version := copy.version + 1)), who);
      }
    }
  }

  /** What the manager sees of the pod a snapshot names. */
  datatype PodView =
    | NoPod
    | PodError
    | Pod(running: bool, node: string, uid: string, containers: seq<string>, mode: string, dir: string,
          timeout: Timeout)
  /** The quiesce-timeout annotation: absent, a positive duration, or anything else. */
  datatype Timeout = Unstated | Positive | Malformed

  const MODE_PRESENCE_FILE := "presence-file"
  const DEFAULT_QUIESCE_DIR := "/snapshot"

  datatype Resolved = NoQuiesce | BadQuiesce | Resolved(dir: string)

  /** resolveQuiesce: the contract the pod's annotations ask for. No mode is no contract; the
      one mode there is needs a rooted directory, or none, and a timeout that reads; and the
      recorded directory is the clean form of the one asked for. */
  function ResolveQuiesce(mode: string, dir: string, timeout: Timeout): (r: Resolved)
    ensures r.NoQuiesce? <==> mode == ""
    ensures r.Resolved? <==> mode == "presence-file" && (dir == "" || dir[0] == '/') && timeout != Malformed
    ensures r.Resolved? ==>
              && Rooted(r.dir) && Clean(r.dir) == r.dir && Segs(r.dir) == Segs(if dir == "" then "/snapshot" else dir)
  {
    if mode == "" then NoQuiesce
    else if mode != MODE_PRESENCE_FILE then BadQuiesce
    else
      var d := if dir == "" then DEFAULT_QUIESCE_DIR else dir;
      CleanKeepsSegs(d);
      if !Rooted(d) || timeout == Malformed then BadQuiesce else Resolved(Clean(d))
  }

  /** The container a snapshot means; None where the spec does not determine one. */
  function PickContainer(named: string, containers: seq<string>): (r: Option<string>)
    ensures r.Some? ==> r.value in containers && (named != "" ==> r.value == named)
    ensures r.None? <==> (if named == "" then |containers| != 1 else named !in containers)
  {
    if named == "" then (if |containers| != 1 then None else Some(containers[0]))
    else if named in containers then Some(named) else None
  }

  /** The spec names a container of the pod, or names none and there is only one. */
  ghost predicate Determined(named: string, containers: seq<string>, container: string) {
    container in containers && if named == "" then |containers| == 1 else container == named
  }

  /** The pod runs, the container is determined and the node is ready. */
  ghost predicate Prepared(named: string, pod: PodView, prereqs: bool) {
    pod.Pod? && pod.running && prereqs && exists container :: Determined(named, pod.containers, container)
  }

  /** What a landed write of reconcilePending has made of a pending snapshot: it waits for the
      pod or the node; it fails without a pod, a container or a URI; and otherwise it is placed,
      keeps the URI it has or gets the given one, and goes on as the annotations say. */
  ghost predicate PendingWritten(named: string, pod: PodView, prereqs: bool, uri: Option<string>, snap: Snapshot,
                                 now: Snapshot)
  {
    var determined := pod.Pod? && exists container :: Determined(named, pod.containers, container);
    && !pod.PodError?
    && (pod.NoPod? || (pod.running && !determined) || (Prepared(named, pod, prereqs) && uri.None?) ==>
          now == snap.(version := now.version, phase := Failed))
    && (pod.Pod? && (!pod.running || (determined && !prereqs)) ==> now == snap.(version := now.version))
    && (Prepared(named, pod, prereqs) && uri.Some? ==> Routed(named, pod, uri, snap, now))
  }

  /** Without a quiesce annotation the dump is next. With the one supported mode, a rooted
      directory or none, and a timeout that is not malformed, the workload is waited for in
      that directory, or in the default one. Anything else fails. */
  ghost predicate Routed(named: string, pod: PodView, uri: Option<string>, snap: Snapshot, now: Snapshot)
    requires pod.Pod?
  {
    && now.place.Some? && now.place.value.node == pod.node && now.place.value.podUID == pod.uid
    && Determined(named, pod.containers, now.place.value.container)
    && now.uri == (if snap.uri.Some? then snap.uri else uri) && now.tar == snap.tar
    && (if pod.mode == "" then now.phase == Checkpointing && now.quiesce == snap.quiesce
        else if pod.mode == "presence-file" && (pod.dir == "" || pod.dir[0] == '/') && !pod.timeout.Malformed? then
          && now.phase == Quiescing && now.quiesce.Some? && !now.quiesce.value.ready
          && Rooted(now.quiesce.value.dir) && Clean(now.quiesce.value.dir) == now.quiesce.value.dir
          && Segs(now.quiesce.value.dir) == Segs(if pod.dir == "" then "/snapshot" else pod.dir)
        else now.phase == Failed && now.quiesce == snap.quiesce)
  }

  /** reconcilePending up to the write. */
  method DecidePending(snap: Snapshot, named: string, pod: PodView, prereqs: bool, uri: Option<string>,
                       ghost r: Route)
    returns (copy: Snapshot)
    requires snap.phase == Pending && snap.quiesce.None? && !pod.PodError?
    ensures copy.version == snap.version && PendingWritten(named, pod, prereqs, uri, snap, copy)
    ensures ManagerWrite(r, snap, copy.(version := snap.version + 1))
  {
    copy := snap;
    match pod {
      case NoPod => copy := copy.(phase := Failed);
      case Pod(running, node, uid, containers, mode, dir, timeout) =>
        var container := PickContainer(named, containers);
        assert container.Some? ==> Determined(named, containers, container.value);
        if !running {
        } else if container.None? {
          copy := copy.(phase := Failed);
        } else if !prereqs {
        } else if uri.None? {
          copy := copy.(phase := Failed);
        } else {
          copy := copy.(place := Some(Place(node, uid, container.value)),
          uri := if copy.uri.None? then uri else copy.uri);
          var q := ResolveQuiesce(mode, dir, timeout);
          if q.BadQuiesce? {
            copy := copy.(phase := Failed);
          } else {
            copy := if q.Resolved? then copy.(quiesce := Some(Quiesce(q.dir, false)), phase := Quiescing)
            else copy.(phase := Checkpointing);
          }
        }
    }
  }

  /** reconcilePending: waits, fails, or places the snapshot and picks the next phase. Unless
      the pod cannot be read it writes, and loses only to somebody else's write. */
  method ReconcilePending(server: Server, snap: Snapshot, named: string, pod: PodView, prereqs: bool,
                          uri: Option<string>)
    returns (ok: bool)
    requires server.Valid() && snap.phase == Pending
    requires server.now.snap == snap
    modifies server
    ensures server.Valid() && old(server.history) <= server.history
    ensures pod.PodError? ==> !ok && server.now == old(server.now)
    ensures !pod.PodError? ==> server.now.snap.version > snap.version
    ensures ok ==> PendingWritten(named, pod, prereqs, uri, snap, server.now.snap)
  {
    ok := false;
    if pod.PodError? { return; }
    var copy := DecidePending(snap, named, pod, prereqs, uri, server.route);
    server.Others(Manager);
    ok := server.Update(Manager, copy);
  }

  /** reconcileQuiescing: the manager only enforces the deadline. */
  method ReconcileQuiescing(server: Server, snap: Snapshot, overdue: bool) returns (ok: bool)
    requires server.Valid() && snap.phase == Quiescing
    requires server.now.snap == snap
    modifies server
    ensures server.Valid() && old(server.history) <= server.history
    ensures !overdue ==> !ok && server.now == old(server.now)
    ensures overdue ==> server.now.snap.version > snap.version
    ensures ok ==> server.now.snap == snap.(version := snap.version + 1, phase := Failed)
  {
    if !overdue { return false; }
    server.Others(Manager);
    ok := server.Update(Manager, snap.(phase := Failed));
  }

  /** What one look at the node finds: whether its agent advertises the capability, whether
      the node can be read for the call, and whether it has an address. */
  datatype NodeLook = NodeLook(seen: bool, readable: bool, addressed: bool)

  /** reconcileCheckpointing: keeps out of the way of the agent it takes to own the phase,
      saying so once; otherwise it says once why not, and launches the kubelet call unless
      one is running. told says that the message is there already. */
  method ReconcileCheckpointing(server: Server, snap: Snapshot, look: NodeLook, told: bool, running: bool)
    returns (ok: bool, launch: bool)
    requires server.Valid() && snap.phase == Checkpointing && Sees(server.route, look.seen)
    requires server.now.snap == snap
    modifies server
    ensures server.Valid() && old(server.history) <= server.history
    ensures launch ==> FallsBack(server.route) && !running && look.readable && look.addressed
    ensures AgentCheckpoints(server.route, look.seen, snap) ==>
              && !launch && (ok ==> !told && server.now.snap == snap.(version := snap.version + 1))
              && (!told ==> server.now.snap.version > snap.version)
    ensures !AgentCheckpoints(server.route, look.seen, snap) && ok ==>
              && server.now.snap.phase == Failed && SameFields(snap, server.now.snap)
              && !running && look.readable && !look.addressed
    ensures !AgentCheckpoints(server.route, look.seen, snap) && !launch ==>
              || running || !look.readable || !look.addressed
              || (server.route.asked && snap.uri.Some? && !told && !ok)
    ensures !AgentCheckpoints(server.route, look.seen, snap) && !running && look.readable && !look.addressed ==>
              server.now.snap.version > snap.version
  {
    launch := false;
    var r, cur := server.route, snap;
    server.Others(Manager);
    if AgentCheckpoints(r, look.seen, snap) {
      if told { return false, false; }
      ok := server.Update(Manager, snap);
      return;
    }
    if r.asked && snap.uri.Some? && !told {
      ok := server.Update(Manager, snap);
      if !ok { return; }
      cur := server.now.snap;
      server.Others(Manager);
    }
    if running || !look.readable { return false, false; }
    if !look.addressed {
      ok := server.Update(Manager, cur.(phase := Failed));
      return;
    }
    return false, true;
  }

  /** The manager's Reconcile, by phase. */
  method Reconcile(server: Server, named: string, pod: PodView, prereqs: bool, uri: Option<string>, overdue: bool,
                   look: NodeLook, told: bool, running: bool)
    returns (ok: bool, launch: bool)
    requires server.Valid() && Sees(server.route, look.seen)
    modifies server
    ensures server.Valid() && old(server.history) <= server.history
    ensures launch ==>
              && FallsBack(server.route) && !running && old(server.now).snap.phase == Checkpointing
              && !AgentCheckpoints(server.route, look.seen, old(server.now).snap)
    ensures var was := old(server.now).snap;
            match was.phase
            case Unset => server.now.snap.version > was.version && (ok ==> server.now.snap.phase == Pending)
            case Pending =>
              && (!pod.PodError? ==> server.now.snap.version > was.version)
              && (ok ==> PendingWritten(named, pod, prereqs, uri, was, server.now.snap))
            case Quiescing =>
              && (overdue ==> server.now.snap.version > was.version)
              && (ok ==> overdue && server.now.snap.phase == Failed)
            case Checkpointing =>
              ok ==> SameFields(was, server.now.snap)
                     && (server.now.snap.phase == Checkpointing <==> AgentCheckpoints(server.route, look.seen, was))
            case _ => !ok && server.now == old(server.now)
  {
    launch, ok := false, false;
    var snap := server.now.snap;
    match snap.phase {
      case Unset =>
        server.Others(Manager);
        ok := server.Update(Manager, snap.(phase := Pending));
      case Pending => ok := ReconcilePending(server, snap, named, pod, prereqs, uri);
      case Quiescing => ok := ReconcileQuiescing(server, snap, overdue);
      case Checkpointing => ok, launch := ReconcileCheckpointing(server, snap, look, told, running);
      case _ =>
    }
  }

  /** The detached kubelet call: minutes later it reads the object again and gives up when
      the phase has moved on. */
  method CallKubelet(server: Server, tarPath: Option<string>) returns (ok: bool)
    requires server.Valid() && FallsBack(server.route)
    modifies server
    ensures server.Valid() && old(server.history) <= server.history
    ensures ok ==> server.now.snap.phase == if tarPath.Some? then Checkpointed else Failed
    ensures ok && tarPath.Some? ==> server.now.snap.tar == tarPath
    ensures old(server.now).snap.phase == Checkpointing ==> server.now.snap.version > old(server.now).snap.version
    ensures old(server.now).snap.phase != Checkpointing && server.now.snap.version == old(server.now).snap.version ==>
              !ok
  {
    server.Others(KubeletCall);
    var latest := server.now.snap;
    if latest.phase != Checkpointing { return false; }
    latest := if tarPath.None? then latest.(phase := Failed) else latest.(phase := Checkpointed, tar := tarPath);
    server.Others(KubeletCall);
    ok := server.Update(KubeletCall, latest);
  }

  /** The quiesce agent: the only step out of Quiescing towards a dump, and only after the
      ready file was seen. */
  method ReconcileQuiesce(server: Server, mine: bool, overdue: bool, resolved: bool, readyFile: bool) returns (ok: bool)
    requires server.Valid()
    modifies server
    ensures server.Valid() && old(server.history) <= server.history
    ensures ok ==>
              && readyFile && resolved && !overdue && old(server.now).snap.phase == Quiescing
              && server.now.snap.phase == Checkpointing && server.now.snap.quiesce.Some?
              && server.now.snap.quiesce.value.ready
              && server.now.snap.quiesce.value.dir == old(server.now).snap.quiesce.value.dir
    ensures mine && old(server.now).snap.phase == Quiescing && old(server.now).snap.quiesce.value.dir != ""
            && !overdue && resolved && readyFile ==>
              server.now.snap.version > old(server.now).snap.version
  {
    var snap := server.now.snap;
    if !mine || snap.phase != Quiescing { return false; }
    if snap.quiesce.None? || snap.quiesce.value.dir == "" { return false; }
    if overdue || !resolved || !readyFile { return false; }
    server.Others(QuiesceAgent);
    ok := server.Update(QuiesceAgent,
                        snap.(quiesce := Some(snap.quiesce.value.(ready := true)), phase := Checkpointing));
  }

  /** What the checkpoint agent writes over the copy it has just read. */
  function Marked(cur: Snapshot, phase: Option<Phase>): Snapshot {
    if phase.Some? then cur.(phase := phase.value) else cur
  }

  /** A status write of the checkpoint agent: re-read and retried on a conflict, so it is lost
      only to as many writes of others. The phase
      of the copy is not looked at: that it is still Checkpointing rests on the routing. */
  method WriteCheckpoint(server: Server, phase: Option<Phase>) returns (landed: bool)
    requires server.Valid() && server.now.dump != Off
    requires if server.now.dump == Done then phase == Some(Completed) else phase in {None, Some(Failed)}
    modifies server
    ensures server.Valid() && old(server.history) <= server.history
    ensures landed ==> server.now.dump == Off && (phase.Some? ==> server.now.snap.phase == phase.value)
    ensures !landed ==> server.now.dump == old(server.now).dump
    ensures !landed && Agree(server.route) ==> server.now.snap.phase == Checkpointing
    ensures server.now.snap.version >= old(server.now).snap.version + if landed then 1 else RETRIES
  {
    landed := false;
    var tries := 0;
    while tries < RETRIES && !landed
      invariant server.Valid() && old(server.history) <= server.history && 0 <= tries <= RETRIES
      invariant server.now.snap.version >= old(server.now).snap.version + tries && (landed ==> tries > 0)
      invariant !landed ==> server.now.dump == old(server.now).dump
      invariant landed ==> server.now.dump == Off && (phase.Some? ==> server.now.snap.phase == phase.value)
      decreases RETRIES - tries
    {
      server.Others(CheckpointAgent);
      var cur := server.now.snap;
      server.Others(CheckpointAgent);
      landed := server.Update(CheckpointAgent, Marked(cur, phase));
      tries := tries + 1;
    }
  }

  /** The work of one reconcile of the checkpoint agent, and the phase it then has to record:
      a tar is refused; the dump either is already committed, commits, or fails. */
  method WorkCheckpoint(server: Server, commits: bool, resolves: bool) returns (phase: Option<Phase>)
    requires server.Valid() && server.now.dump == Looking
    modifies server
    ensures server.Valid() && old(server.history) <= server.history && server.now.dump != Off
    ensures if server.now.dump == Done then phase == Some(Completed) else phase in {None, Some(Failed)}
    ensures !server.route.directory ==> phase == Some(Failed)
    ensures server.route.directory && commits && resolves ==> phase == Some(Completed)
    ensures server.route.directory && Agree(server.route) && old(server.now).committed ==> phase == Some(Completed)
    ensures server.route.directory && Agree(server.route) && !old(server.now).committed ==>
              phase == if !resolves then None else if commits then Some(Completed) else Some(Failed)
    ensures server.now.snap.version >= old(server.now).snap.version
  {
    server.Others(CheckpointAgent);
    if !server.route.directory { return Some(Failed); }
    if server.now.committed {
      server.Enter(server.now.(dump := Done), CheckpointAgent);
      return Some(Completed);
    }
    if !resolves { return None; }
    server.Enter(server.now.(dump := Dumping), CheckpointAgent);
    server.Others(CheckpointAgent);
    if !commits { return Some(Failed); }
    server.Enter(server.now.(committed := true, dump := Done), CheckpointAgent);
    phase := Some(Completed);
  }

  /** One reconcile of the checkpoint agent, as far as the object and the marker go. What
      happens to the files is in module Dump. */
  method ReconcileCheckpoint(server: Server, mine: bool, commits: bool, resolves: bool) returns (landed: bool)
    requires server.Valid() && server.now.dump == Off
    modifies server
    ensures server.Valid() && old(server.history) <= server.history && server.now.dump == Off
    ensures landed ==> mine && Owns(server.route, old(server.now).snap)
    ensures landed && !server.route.directory ==> server.now.snap.phase == Failed
    ensures landed && Agree(server.route) && old(server.now).committed ==> server.now.snap.phase == Completed
    ensures landed && commits && resolves && server.route.directory ==> server.now.snap.phase == Completed
    ensures landed && Agree(server.route) && !old(server.now).committed && resolves && !commits ==>
              server.now.snap.phase == Failed
    ensures mine && Owns(server.route, old(server.now).snap) ==>
              server.now.snap.version >= old(server.now).snap.version + if landed then 1 else RETRIES
  {
    if !mine || !Owns(server.route, server.now.snap) { return false; }
    server.Enter(server.now.(dump := Looking), CheckpointAgent);
    var phase := WorkCheckpoint(server, commits, resolves);
    landed := WriteCheckpoint(server, phase);
    if !landed { server.Enter(server.now.(dump := Off), CheckpointAgent); }
  }

  /** The work of one upload, and the phase it then has to record over the copy it read; clears
      says that it gets as far as un-committing what is there. */
  method WorkUpload(server: Server, fails: bool, clears: bool, commits: bool) returns (phase: Phase)
    requires server.Valid() && server.now.upload == Busy
    modifies server
    ensures server.Valid() && old(server.history) <= server.history
    ensures server.now.upload == if phase == Completed then Landed else Busy
    ensures phase == if fails then Failed else if commits then Completed else Uploading
    ensures server.now.snap.version >= old(server.now).snap.version
    ensures server.now.snap.version == old(server.now).snap.version ==> server.now.snap == old(server.now).snap
    ensures Agree(server.route) ==>
              (server.now.committed <==>
               phase == Completed || (old(server.now).committed && !(phase == Uploading && clears)))
  {
    if fails { return Failed; }
    if clears { server.Enter(server.now.(committed := false), UploadAgent); }
    server.Others(UploadAgent);
    if !commits { return Uploading; }
    server.Enter(server.now.(committed := true, upload := Landed), UploadAgent);
    phase := Completed;
  }

  /** One upload of a claimed snapshot. */
  method UploadClaimed(server: Server, fails: bool, clears: bool, commits: bool) returns (ok: bool)
    requires server.Valid() && server.now.upload == Idle && server.now.snap.phase == Uploading
    modifies server
    ensures server.Valid() && old(server.history) <= server.history && server.now.upload == Idle
    ensures ok ==> server.now.snap.phase == if fails then Failed else if commits then Completed else Uploading
    ensures server.now.snap.version > old(server.now).snap.version
    ensures ok && Agree(server.route) && !fails && !commits ==>
              (server.now.committed <==> old(server.now).committed && !clears)
  {
    var snap := server.now.snap;
    server.Enter(server.now.(upload := Busy), UploadAgent);
    var phase := WorkUpload(server, fails, clears, commits);
    server.Others(UploadAgent);
    ok := server.Update(UploadAgent, snap.(phase := phase));
    if !ok { server.Enter(server.now.(upload := Idle), UploadAgent); }
  }

  /** One reconcile of the upload agent: claim, or upload and record. */
  method ReconcileUpload(server: Server, mine: bool, fails: bool, clears: bool, commits: bool) returns (ok: bool)
    requires server.Valid() && server.now.upload == Idle
    modifies server
    ensures server.Valid() && old(server.history) <= server.history && server.now.upload == Idle
    ensures ok ==> mine && old(server.now).snap.phase in {Checkpointed, Uploading}
    ensures ok && old(server.now).snap.phase == Checkpointed ==> server.now.snap.phase == Uploading
    ensures ok && old(server.now).snap.phase == Uploading ==>
              server.now.snap.phase == (if fails then Failed else if commits then Completed else Uploading)
    ensures if mine && old(server.now).snap.phase in {Checkpointed, Uploading}
            then server.now.snap.version > old(server.now).snap.version else server.now == old(server.now)
  {
    var snap := server.now.snap;
    if !mine { return false; }
    match snap.phase {
      case Checkpointed =>
        server.Others(UploadAgent);
        ok := server.Update(UploadAgent, snap.(phase := Uploading));
      case Uploading => ok := UploadClaimed(server, fails, clears, commits);
      case _ => ok := false;
    }
  }

  /** Any number of reconciles of all five actors, in any order, each racing the others. The
      runs of the code are runs of the transition system, so what Lifecycle says of those
      holds of these. */
  method Run(server: Server, turns: nat)
    requires server.Valid()
    modifies server
    ensures server.Valid() && old(server.history) <= server.history
    ensures Agree(server.route) && Terminal(old(server.now).snap.phase) ==> server.now == old(server.now)
    ensures Agree(server.route) && server.now.snap.phase == Completed ==> server.now.committed
  {
    ghost var from := |server.history| - 1;
    for i := 0 to turns
      invariant server.Valid() && old(server.history) <= server.history
    {
      var who: Actor := *;
      Turn(server, who);
    }
    Lifecycle(server.route, server.history, from, |server.history| - 1);
  }

  method Turn(server: Server, who: Actor)
    requires server.Valid()
    modifies server
    ensures server.Valid() && old(server.history) <= server.history
  {
    var mine: bool := *;
    var a: bool := *;
    var b: bool := *;
    match who {
      case Manager =>
        var named: string := *;
        var pod: PodView := *;
        var uri: Option<string> := *;
        var look: NodeLook := *;
        var told: bool := *;
        if Sees(server.route, look.seen) {
          var ok, launch := Reconcile(server, named, pod, a, uri, b, look, told, mine);
        }
      case KubeletCall =>
        var tarPath: Option<string> := *;
        if FallsBack(server.route) { var ok := CallKubelet(server, tarPath); }
      case QuiesceAgent =>
        var readyFile: bool := *;
        var ok := ReconcileQuiesce(server, mine, a, b, readyFile);
      case CheckpointAgent =>
        if server.now.dump == Off { var ok := ReconcileCheckpoint(server, mine, a, b); }
      case UploadAgent =>
        var clears: bool := *;
        if server.now.upload == Idle { var ok := ReconcileUpload(server, mine, a, clears, b); }
    }
  }
}
