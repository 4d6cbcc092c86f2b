/** The PodRestore lifecycle (internal/controller/podrestore_controller.go,
    internal/agent/restore_controller.go). The phase graph has a cycle, Preparing to
    PreWarming and back, that only the PreWarmed condition breaks. */
module RestoreLifecycle {
  import opened Manifests
  import C = Compatibility

  datatype Phase = Unset | Pending | PreWarming | Preparing | Restoring | Running | Failed

  /** The stored object; empty strings are unset fields, and messages, times and the other
      conditions are left out. */
  datatype Restore = Restore(version: nat, phase: Phase, uri: string, targetNode: string, podName: string,
                             podUID: string, preWarmed: bool, tornDown: bool, container: string, compat: Option<C.Key>,
                             finalizer: bool, deleting: bool)

  /** What spec fixes: a pinned node, and whether to pre-warm. */
  datatype Spec = Spec(nodeName: string, prewarm: bool)

  datatype Actor = Manager | Agent | User

  /** Every phase change makes this smaller. */
  function Measure(r: Restore): nat {
    match r.phase
    case Unset => 7
    case Pending => 6
    case Preparing => if r.preWarmed then 3 else 5
    case PreWarming => 4
    case Restoring => 2
    case Running => 1
    case Failed => 0
  }

  /** The fields a phase change may rely on are as they were. */
  predicate SameFields(a: Restore, b: Restore) {
    b == a.(version := b.version, phase := b.phase, podName := b.podName, compat := b.compat)
  }

  predicate ManagerWrite(spec: Spec, a: Restore, b: Restore) {
    if a.deleting then
      // reconcileDelete: the finalizer waits for the agent's teardown
      && (a.container == "" || a.tornDown) && b == a.(version := b.version, finalizer := false)
    else
      || b == a.(version := b.version, finalizer := true)
      || (SameFields(a, b) && b.phase == a.phase)
      || (SameFields(a, b) && a.phase !in {Running, Failed} && b.phase == Failed)
      || (SameFields(a.(uri := b.uri), b) && a.phase == Pending && b.phase == Failed)
      || (SameFields(a, b) && a.phase == Unset && b.phase == Pending)
      || (a.phase == Pending && b.uri != "" &&
          (if spec.nodeName != "" && spec.prewarm then
             b.phase == PreWarming && SameFields(a.(uri := b.uri, targetNode := spec.nodeName), b)
           else b.phase == Preparing && SameFields(a.(uri := b.uri), b)))
      || (a.phase == Preparing && b.podUID != "" && b.targetNode != ""
          && SameFields(a.(podUID := b.podUID, targetNode := b.targetNode), b)
          && b.phase == if spec.prewarm && !a.preWarmed then PreWarming else Restoring)
  }

  predicate AgentWrite(a: Restore, b: Restore) {
    if a.deleting then b == a.(version := b.version, tornDown := true)
    else
      || b == a.(version := b.version)
      || (b == a.(version := b.version, phase := Failed) && a.phase in {PreWarming, Restoring, Running})
      || (a.phase == PreWarming
          && b == a.(version := b.version, preWarmed := true, phase := if a.podUID == "" then Preparing else Restoring))
      || (a.phase == Restoring && a.container == "" && b.container != ""
          && b == a.(version := b.version, container := b.container, phase := Running))
  }

  predicate Step(who: Actor, spec: Spec, a: Restore, b: Restore) {
    && b.version > a.version
    && match who
       case Manager => ManagerWrite(spec, a, b)
       case Agent => AgentWrite(a, b)
       case User => b == a.(version := b.version, deleting := true)
  }

  /** What holds of every reachable object. */
  predicate Inv(spec: Spec, r: Restore) {
    && (r.phase in {PreWarming, Preparing, Restoring, Running} ==> r.uri != "")
    && (r.phase in {PreWarming, Restoring, Running} ==> r.targetNode != "")
    && (r.phase in {Restoring, Running} ==> r.podUID != "" && (spec.prewarm ==> r.preWarmed))
    && (r.container != "" ==> r.phase in {Running, Failed})
    && (r.phase == Running ==> r.container != "")
    && (r.phase in {Unset, Pending} ==> !r.preWarmed)
  }

  /** What a write keeps and what it makes smaller. */
  predicate Keeps(spec: Spec, a: Restore, b: Restore) {
    && Inv(spec, b)
    && (if b.phase == a.phase then Measure(b) == Measure(a) else Measure(b) < Measure(a))
    && (a.deleting ==> b.deleting && b.phase == a.phase && b.container == a.container)
    && (a.finalizer && !b.finalizer ==> a.deleting && (b.container == "" || b.tornDown))
  }

  lemma ManagerKeeps(spec: Spec, a: Restore, b: Restore)
    requires ManagerWrite(spec, a, b) && Inv(spec, a)
    ensures Keeps(spec, a, b)
  {
  }

  lemma AgentKeeps(spec: Spec, a: Restore, b: Restore)
    requires AgentWrite(a, b) && Inv(spec, a)
    ensures Keeps(spec, a, b)
  {
  }

  /** Every write keeps the invariant; a phase change makes the measure smaller; deletion is
      final; and the finalizer goes only from a deleted restore whose container, if one was
      recorded, has been torn down. */
  lemma StepKeeps(who: Actor, spec: Spec, a: Restore, b: Restore)
    requires Step(who, spec, a, b) && Inv(spec, a)
    ensures Keeps(spec, a, b)
  {
    match who {
      case Manager => ManagerKeeps(spec, a, b);
      case Agent => AgentKeeps(spec, a, b);
      case User =>
    }
  }

  ghost predicate Someone(spec: Spec, a: Restore, b: Restore) {
    exists who :: Step(who, spec, a, b)
  }

  ghost predicate Reached(spec: Spec, history: seq<Restore>) {
    && history != [] && Inv(spec, history[0])
    && (forall k | 0 < k < |history| :: Someone(spec, history[k - 1], history[k]))
  }

  /** How often the phase has changed up to state n. */
  function Changes(history: seq<Restore>, n: nat): nat
    requires n < |history|
  {
    if n == 0 then 0 else Changes(history, n - 1) + if history[n].phase != history[n - 1].phase then 1 else 0
  }

  /** Every run changes phase at most as often as the measure allows, so at most seven
      times from a new object. */
  lemma {:induction false} BoundedChanges(spec: Spec, history: seq<Restore>, n: nat)
    requires Reached(spec, history) && n < |history|
    ensures Inv(spec, history[n])
    ensures Changes(history, n) + Measure(history[n]) <= Measure(history[0])
    ensures Changes(history, n) <= 7
  {
    if n > 0 {
      BoundedChanges(spec, history, n - 1);
      assert Someone(spec, history[n - 1], history[n]);
      var who :| Step(who, spec, history[n - 1], history[n]);
      StepKeeps(who, spec, history[n - 1], history[n]);
    }
  }

  /** The measure never grows between two states of a run. */
  lemma {:induction false} Descends(spec: Spec, history: seq<Restore>, i: nat, j: nat)
    requires Reached(spec, history) && i <= j < |history|
    ensures Inv(spec, history[i]) && Inv(spec, history[j])
    ensures Measure(history[j]) <= Measure(history[i])
    ensures Measure(history[j]) == Measure(history[i]) ==> history[j].phase == history[i].phase
    ensures history[i].deleting ==> history[j].deleting && history[j].phase == history[i].phase
    decreases j
  {
    if j > 0 {
      assert Someone(spec, history[j - 1], history[j]);
      var who :| Step(who, spec, history[j - 1], history[j]);
      if i < j { Descends(spec, history, i, j - 1); } else { Descends(spec, history, j - 1, j - 1); }
      StepKeeps(who, spec, history[j - 1], history[j]);
    }
  }

  /** The cycle is taken at most once: pre-warming, once left, is never entered again, and
      neither is restoring. */
  lemma NeverAgain(spec: Spec, history: seq<Restore>, i: nat, k: nat, j: nat)
    requires Reached(spec, history) && i <= k <= j < |history|
    requires history[i].phase == history[j].phase && history[i].phase != Preparing
    ensures history[k].phase == history[i].phase
  {
    Descends(spec, history, i, k);
    Descends(spec, history, k, j);
  }

  /** In every reachable object a restore that is Restoring or Running has its pod, its node
      and its artifact, and has been pre-warmed if that was asked for. */
  lemma RestoringHasFields(spec: Spec, history: seq<Restore>, i: nat)
    requires Reached(spec, history) && i < |history| && history[i].phase in {Restoring, Running}
    ensures history[i].podUID != "" && history[i].targetNode != "" && history[i].uri != ""
    ensures spec.prewarm ==> history[i].preWarmed
    ensures history[i].phase == Running ==> history[i].container != ""
  {
    Descends(spec, history, i, i);
  }

  /** Wherever the finalizer disappears in a run, the restore was being deleted, and had no
      container recorded or had it torn down. */
  lemma FinalizerWaits(spec: Spec, history: seq<Restore>, i: nat)
    requires Reached(spec, history) && 0 < i < |history| && history[i - 1].finalizer && !history[i].finalizer
    ensures history[i].deleting && (history[i].container == "" || history[i].tornDown)
  {
    Descends(spec, history, i - 1, i);
    assert Someone(spec, history[i - 1], history[i]);
    var who :| Step(who, spec, history[i - 1], history[i]);
    StepKeeps(who, spec, history[i - 1], history[i]);
  }

  // ----- the actors -----

  /** What an actor still knows after the others have gone on. */
  predicate Since(a: Restore, b: Restore) {
    b.version >= a.version && (b.version == a.version ==> b == a)
  }

  class Server {
    var now: Restore
    ghost var history: seq<Restore>
    const spec: Spec

    constructor (r: Restore, spec: Spec)
      requires Inv(spec, r)
      ensures Valid() && now == r && history == [r] && this.spec == spec
    {
      now, history := r, [r];
      this.spec := spec;
    }

    ghost predicate Valid()
      reads this
    {
      Reached(spec, history) && history[|history| - 1] == now && Inv(spec, now)
    }

    method Enter(next: Restore, who: Actor)
      requires Valid() && Step(who, spec, now, next)
      modifies this
      ensures Valid() && now == next && history == old(history) + [next]
    {
      StepKeeps(who, spec, now, next);
      assert Someone(spec, now, next);
      now, history := next, history + [next];
    }

    /** Anyone else takes any number of steps, deletion included. */
    method Others(who: Actor)
      requires Valid()
      modifies this
      ensures Valid() && old(history) <= history && Since(old(now), now)
    {
      var steps: nat := *;
      while steps > 0
        invariant Valid() && old(history) <= history && Since(old(now), now)
      {
        var other: Actor := *;
        var next: Restore := *;
        if other != who && Step(other, spec, now, next) {
          Enter(next, other);
        }
        steps := steps - 1;
      }
    }

    /** Update and Status().Update of a copy: refused when the stored object has moved on. */
    method Update(who: Actor, copy: Restore) returns (ok: bool)
      requires Valid()
      requires now.version == copy.version ==> Step(who, spec, now, copy.(version := copy.version + 1))
      modifies this
      ensures Valid() && old(history) <= history
      ensures ok <==> old(now).version == copy.version
      ensures ok ==> now == copy.(version := copy.version + 1)
      ensures !ok ==> now == old(now)
    {
      ok := now.version == copy.version;
      if ok {
        Enter(copy.(version := copy.version + 1), who);
      }
    }
  }

  /** A node as checkNodeCompatibility reads it. */
  datatype NodeView = NodeError | Unreported | Reported(annotation: string)
  datatype Verdict = Proceed | Abort | Reject

  /** The artifact's tuple is known, and so is the node: there is something to check. */
  predicate Checks(want: Option<C.Key>, nodeName: string) { want.Some? && nodeName != "" }

  /** The node reports an environment that contradicts the one the artifact was built in. */
  ghost predicate Refused(want: Option<C.Key>, nodeName: string, node: NodeView) {
    Checks(want, nodeName) && node.Reported? && C.Contradicts(want.value, node.annotation)
  }

  /** The node cannot be read, though there is something to check. */
  predicate Unread(want: Option<C.Key>, nodeName: string, node: NodeView) {
    Checks(want, nodeName) && node.NodeError?
  }

  /** checkNodeCompatibility: reject a node whose reported tuple contradicts the build's. */
  method CheckNodeCompatibility(want: Option<C.Key>, nodeName: string, node: NodeView) returns (v: Verdict)
    ensures v.Reject? <==>
            want.Some? && nodeName != "" && node.Reported? && C.Contradicts(want.value, node.annotation)
    ensures v.Abort? <==> want.Some? && nodeName != "" && node.NodeError?
  {
    if want.None? || nodeName == "" { return Proceed; }
    match node {
      case NodeError => v := Abort;
      case Unreported => v := Proceed;
      case Reported(annotation) =>
        var got := C.ParseCompatibility(annotation);
        C.ContradictsIff(want.value, annotation);
        v := if C.Matches(want.value, got).Some? then Reject else Proceed;
    }
  }

  /** Where the artifact URI comes from: the spec, a completed snapshot, or a completed build,
      which also says what its tuple is, if it recorded one. */
  datatype Source = Missing | Unreadable | Waiting | Found(uri: string, build: Option<Option<C.Key>>)

  /** What a manager write of pr that the code is about to make comes to. */
  predicate MayWrite(spec: Spec, pr: Restore, copy: Restore) {
    copy.version == pr.version && Step(Manager, spec, pr, copy.(version := pr.version + 1))
  }

  lemma PendingWrites(spec: Spec, pr: Restore, compat: Option<C.Key>)
    requires pr.phase == Pending && !pr.deleting
    ensures MayWrite(spec, pr, pr.(compat := compat)) && MayWrite(spec, pr, pr.(compat := compat, phase := Failed))
  {
  }

  lemma PendingMoves(spec: Spec, pr: Restore, compat: Option<C.Key>, uri: string)
    requires pr.phase == Pending && !pr.deleting && uri != ""
    ensures MayWrite(spec, pr, pr.(compat := compat, uri := uri, phase := Failed))
    ensures MayWrite(spec, pr, NextPending(spec, pr.(compat := compat, uri := uri)))
    ensures PendingOver(spec, pr, uri, NextPending(spec, pr.(compat := compat, uri := uri)))
  {
  }

  /** reconcilePending once the source is known. parses and template say that the URI and the
      pod template are acceptable, available that the artifact can be seen (or need not be). */
  method DecideFound(spec: Spec, pr: Restore, uri: string, build: Option<Option<C.Key>>, parses: bool, template: bool,
                     available: bool, node: NodeView)
    returns (go: bool, copy: Restore)
    requires pr.phase == Pending && !pr.deleting && (parses ==> uri != "")
    ensures go ==> MayWrite(spec, pr, copy)
    ensures copy.compat == if build.Some? then build.value else pr.compat
    ensures !parses || !template ==> go && copy == pr.(compat := copy.compat, phase := Failed)
    ensures parses && template && !available ==> go && copy == pr.(compat := copy.compat)
    ensures parses && template && available ==>
              && (!go <==> Unread(copy.compat, spec.nodeName, node))
              && (copy.phase == Failed <==> Refused(copy.compat, spec.nodeName, node))
              && (go ==> PendingOver(spec, pr, uri, copy))
  {
    copy := if build.Some? then pr.(compat := build.value) else pr;
    PendingWrites(spec, pr, copy.compat);
    if !parses || !template { return true, copy.(phase := Failed); }
    if !available { return true, copy; }
    go, copy := DecideAvailable(spec, pr, uri, copy.compat, node);
  }

  /** The artifact can be seen: the pinned node is looked at, and the next phase chosen. */
  method DecideAvailable(spec: Spec, pr: Restore, uri: string, want: Option<C.Key>, node: NodeView)
    returns (go: bool, copy: Restore)
    requires pr.phase == Pending && !pr.deleting && uri != ""
    ensures go ==> MayWrite(spec, pr, copy) && PendingOver(spec, pr, uri, copy)
    ensures copy.compat == want
    ensures !go <==> Unread(want, spec.nodeName, node)
    ensures copy.phase == Failed <==> Refused(want, spec.nodeName, node)
  {
    PendingMoves(spec, pr, want, uri);
    var v := CheckNodeCompatibility(want, spec.nodeName, node);
    copy := pr.(compat := want, uri := uri);
    if v.Abort? { return false, copy; }
    if v.Reject? { return true, copy.(phase := Failed); }
    go, copy := true, NextPending(spec, copy);
  }

  /** The node is pinned and to be pre-warmed, or the placeholder pod is to say which it is. */
  function NextPending(spec: Spec, copy: Restore): Restore {
    if spec.nodeName != "" && spec.prewarm then copy.(targetNode := spec.nodeName, phase := PreWarming)
    else copy.(phase := Preparing)
  }

  /** The artifact is recorded; and unless the restore has failed, a pinned node that is to be
      pre-warmed is the target and pre-warming comes next, else the placeholder pod. */
  predicate PendingOver(spec: Spec, pr: Restore, uri: string, copy: Restore) {
    && copy.uri == uri && copy.phase in {PreWarming, Preparing, Failed}
    && (copy.phase == PreWarming ==> spec.nodeName != "" && spec.prewarm)
    && (copy.phase == Preparing ==> !(spec.nodeName != "" && spec.prewarm))
    && copy.targetNode == (if copy.phase == PreWarming then spec.nodeName else pr.targetNode)
    && copy == pr.(compat := copy.compat, uri := uri, targetNode := copy.targetNode, phase := copy.phase)
  }

  /** reconcilePending up to the write; go is false where it returns an error instead. The
      tuple is the build's, if a build is the source, or the one stored. */
  method DecidePending(spec: Spec, pr: Restore, source: Source, parses: bool, template: bool, available: bool,
                       node: NodeView)
    returns (go: bool, copy: Restore)
    requires pr.phase == Pending && !pr.deleting
    requires source.Found? && parses ==> source.uri != ""
    ensures go ==> MayWrite(spec, pr, copy)
    ensures source.Missing? ==> go && copy == pr.(phase := Failed)
    ensures source.Unreadable? ==> !go
    ensures source.Waiting? ==> go && copy == pr
    ensures source.Found? ==> copy.compat == if source.build.Some? then source.build.value else pr.compat
    ensures source.Found? && (!parses || !template) ==> go && copy == pr.(compat := copy.compat, phase := Failed)
    ensures source.Found? && parses && template && !available ==> go && copy == pr.(compat := copy.compat)
    ensures source.Found? && parses && template && available ==>
              && (!go <==> Unread(copy.compat, spec.nodeName, node))
              && (copy.phase == Failed <==> Refused(copy.compat, spec.nodeName, node))
              && (go ==> PendingOver(spec, pr, source.uri, copy))
  {
    match source {
      case Missing => return true, pr.(phase := Failed);
      case Unreadable => return false, pr;
      case Waiting => return true, pr;
      case Found(uri, build) => go, copy := DecideFound(spec, pr, uri, build, parses, template, available, node);
    }
  }

  /** The placeholder pod as the manager finds it. */
  datatype PodView =
    | LookupError
    | NoPod(builds: bool, creates: bool)
    | Stale
    | PodPending
    | PodFailed
    | PodRunning(uid: string, node: string)

  /** reconcilePreparing up to the write: one placeholder pod of our own, then the next phase. */
  method DecidePreparing(spec: Spec, pr: Restore, name: string, pod: PodView, node: NodeView)
    returns (go: bool, copy: Restore)
    requires pr.phase == Preparing && !pr.deleting
    requires pod.PodRunning? ==> pod.uid != "" && pod.node != ""
    ensures go ==> MayWrite(spec, pr, copy)
    ensures !go <==>
            || pod.LookupError? || (pod.NoPod? && pod.builds && !pod.creates)
            || (pod.PodRunning? && Unread(pr.compat, pod.node, node))
    ensures go && (pod.PodPending? || (pod.NoPod? && pod.builds)) ==>
              && copy == pr.(podName := copy.podName)
              && copy.podName == (if pr.podName == "" then name + "-restored" else pr.podName)
    ensures pod.Stale? ==> copy == pr
    ensures pod.PodFailed? || (pod.NoPod? && !pod.builds) ==> copy == pr.(phase := Failed)
    ensures go && pod.PodRunning? ==>
              && (Refused(pr.compat, pod.node, node) ==> copy == pr.(phase := Failed))
              && (!Refused(pr.compat, pod.node, node) ==>
                    && copy.podName == (if pr.podName == "" then name + "-restored" else pr.podName)
                    && (copy.phase == Restoring <==> !spec.prewarm || pr.preWarmed)
                    && (copy.phase == PreWarming <==> spec.prewarm && !pr.preWarmed)
                    && copy == pr.(podName := copy.podName, podUID := pod.uid, targetNode := pod.node,
                               phase := copy.phase))
  {
    copy := pr;
    var podName := if pr.podName == "" then name + "-restored" else pr.podName;
    match pod {
      case LookupError => return false, copy;
      case NoPod(builds, creates) =>
        if !builds {
          copy := copy.(phase := Failed);
        } else if !creates {
          return false, copy;
        } else {
          copy := copy.(podName := podName);
        }
      case Stale =>
      case PodPending => copy := copy.(podName := podName);
      case PodFailed => copy := copy.(phase := Failed);
      case PodRunning(uid, nodeName) =>
        var v := CheckNodeCompatibility(copy.compat, nodeName, node);
        if v.Abort? { return false, copy; }
        if v.Reject? {
          copy := copy.(phase := Failed);
        } else {
          copy := copy.(podName := podName, podUID := uid, targetNode := nodeName,
          phase := if spec.prewarm && !pr.preWarmed then PreWarming else Restoring);
        }
    }
    go := true;
  }

  /** The write of a decision, after whatever the others have done meanwhile: it lands exactly
      when they have done nothing. */
  method Commit(server: Server, pr: Restore, copy: Restore) returns (ok: bool)
    requires server.Valid() && pr == server.now && MayWrite(server.spec, pr, copy)
    modifies server
    ensures server.Valid() && old(server.history) <= server.history && server.now.version > pr.version
    ensures ok ==> server.now == copy.(version := copy.version + 1)
  {
    server.Others(Manager);
    ok := server.Update(Manager, copy);
  }

  /** reconcileDelete: the finalizer goes only when the agent has torn down whatever it
      recorded, and after the placeholder pod. */
  method ReconcileDelete(server: Server, pr: Restore, podDeletes: bool) returns (removed: bool)
    requires server.Valid() && pr == server.now && pr.deleting
    modifies server
    ensures server.Valid() && old(server.history) <= server.history
    ensures removed ==> server.now == pr.(version := pr.version + 1, finalizer := false)
    ensures pr.finalizer && (pr.container == "" || pr.tornDown) && (pr.podName == "" || podDeletes) ==>
              server.now.version > pr.version
    ensures !(pr.finalizer && (pr.container == "" || pr.tornDown) && (pr.podName == "" || podDeletes)) ==>
              !removed && server.now == pr
  {
    if !pr.finalizer { return false; }
    if pr.container != "" && !pr.tornDown { return false; }
    if pr.podName != "" && !podDeletes { return false; }
    server.Others(Manager);
    removed := server.Update(Manager, pr.(finalizer := false));
  }

  /** What a landed write of reconcilePending has made of the phase. */
  ghost predicate PendingMoved(spec: Spec, stored: Option<C.Key>, source: Source, parses: bool, template: bool, available: bool,
                               node: NodeView, now: Restore)
  {
    && !source.Unreadable? && (now.phase in {Pending, Failed} || source.Found?)
    && (source.Missing? ==> now.phase == Failed) && (source.Waiting? ==> now.phase == Pending)
    && (source.Found? ==>
          && (var fits := parses && template;
              var want := if source.build.Some? then source.build.value else stored;
              && (now.phase == Failed <==> !fits || (available && Refused(want, spec.nodeName, node)))
              && (now.phase == Pending <==> fits && !available)
              && (now.phase == PreWarming ==> spec.prewarm && spec.nodeName == now.targetNode != "")
              && (now.phase == Preparing ==> !(spec.prewarm && spec.nodeName != ""))
              && (fits && available ==> now.uri == source.uri)))
  }

  /** What a landed write of reconcilePreparing has made of the phase. */
  ghost predicate PreparingMoved(spec: Spec, stored: Option<C.Key>, preWarmed: bool, pod: PodView, node: NodeView,
                                 now: Restore)
  {
    && (now.phase == Failed <==>
        || pod.PodFailed? || (pod.NoPod? && !pod.builds) || (pod.PodRunning? && Refused(stored, pod.node, node)))
    && (now.phase == Preparing <==> pod.Stale? || pod.PodPending? || (pod.NoPod? && pod.builds))
    && (now.phase == PreWarming ==> spec.prewarm && !preWarmed)
    && (now.phase == Restoring ==> !spec.prewarm || preWarmed)
    && (now.phase in {PreWarming, Restoring} ==>
          pod.PodRunning? && now.podUID == pod.uid && now.targetNode == pod.node)
  }

  method MovePending(server: Server, pr: Restore, source: Source, parses: bool, template: bool, available: bool,
                     node: NodeView)
    returns (moved: bool)
    requires server.Valid() && pr == server.now && pr.phase == Pending && !pr.deleting
    requires source.Found? && parses ==> source.uri != ""
    modifies server
    ensures server.Valid() && old(server.history) <= server.history && server.now.version >= pr.version
    ensures moved ==> PendingMoved(server.spec, pr.compat, source, parses, template, available, node, server.now)
    ensures server.now.version > pr.version <==>
            !source.Unreadable?
            && (source.Found? && parses && template && available ==>
                  !Unread(if source.build.Some? then source.build.value else pr.compat, server.spec.nodeName, node))
  {
    moved := false;
    var go, copy := DecidePending(server.spec, pr, source, parses, template, available, node);
    if go { moved := Commit(server, pr, copy); }
  }

  method MovePreparing(server: Server, pr: Restore, name: string, pod: PodView, node: NodeView) returns (moved: bool)
    requires server.Valid() && pr == server.now && pr.phase == Preparing && !pr.deleting
    requires pod.PodRunning? ==> pod.uid != "" && pod.node != ""
    modifies server
    ensures server.Valid() && old(server.history) <= server.history && server.now.version >= pr.version
    ensures moved ==> PreparingMoved(server.spec, pr.compat, pr.preWarmed, pod, node, server.now)
    ensures server.now.version > pr.version <==>
            !pod.LookupError? && !(pod.NoPod? && pod.builds && !pod.creates)
            && !(pod.PodRunning? && Unread(pr.compat, pod.node, node))
  {
    moved := false;
    var go, copy := DecidePreparing(server.spec, pr, name, pod, node);
    if go { moved := Commit(server, pr, copy); }
  }

  /** What a landed write of Reconcile has made of a live restore. */
  ghost predicate Moved(spec: Spec, was: Restore, overdue: bool, source: Source, parses: bool, template: bool,
                        available: bool, pod: PodView, node: NodeView, now: Restore)
  {
    if overdue && was.phase !in {Unset, Running, Failed} then now.phase == Failed
    else if was.phase == Unset then now.phase == Pending
    else if was.phase == Pending then PendingMoved(spec, was.compat, source, parses, template, available, node, now)
    else was.phase == Preparing && PreparingMoved(spec, was.compat, was.preWarmed, pod, node, now)
  }

  /** One step of a live restore with its finalizer: out of time, or by phase. */
  method Advance(server: Server, pr: Restore, overdue: bool, name: string, source: Source, parses: bool,
                 template: bool, available: bool, pod: PodView, node: NodeView)
    returns (moved: bool)
    requires server.Valid() && pr == server.now && !pr.deleting
    requires source.Found? && parses ==> source.uri != ""
    requires pod.PodRunning? ==> pod.uid != "" && pod.node != ""
    modifies server
    ensures server.Valid() && old(server.history) <= server.history && server.now.version >= pr.version
    ensures moved ==> Moved(server.spec, pr, overdue, source, parses, template, available, pod, node, server.now)
    ensures pr.phase == Unset || (overdue && pr.phase !in {Running, Failed}) ==> server.now.version > pr.version
  {
    moved := false;
    if overdue && pr.phase !in {Unset, Running, Failed} {
      server.Others(Manager);
      moved := server.Update(Manager, pr.(phase := Failed));
      return;
    }
    match pr.phase {
      case Unset =>
        server.Others(Manager);
        moved := server.Update(Manager, pr.(phase := Pending));
      case Pending =>
        moved := MovePending(server, pr, source, parses, template, available, node);
      case Preparing =>
        moved := MovePreparing(server, pr, name, pod, node);
      case _ =>
    }
  }

  /** The manager's Reconcile; moved says that a write other than that of the finalizer has
      landed. */
  method Reconcile(server: Server, overdue: bool, name: string, source: Source, parses: bool, template: bool,
                   available: bool,
                   pod: PodView, node: NodeView, podDeletes: bool)
    returns (moved: bool)
    requires server.Valid()
    requires source.Found? && parses ==> source.uri != ""
    requires pod.PodRunning? ==> pod.uid != "" && pod.node != ""
    modifies server
    ensures server.Valid() && old(server.history) <= server.history
    ensures moved && old(server.now).deleting ==>
              && !server.now.finalizer && (server.now.container == "" || server.now.tornDown)
              && server.now.phase == old(server.now).phase
    ensures moved && !old(server.now).deleting ==>
              Moved(server.spec, old(server.now), overdue, source, parses, template, available, pod, node, server.now)
    ensures !old(server.now).deleting && !old(server.now).finalizer ==> server.now.version > old(server.now).version
    ensures !old(server.now).deleting && (old(server.now).phase == Unset
                                          || (overdue && old(server.now).phase !in {Running, Failed})) ==>
              server.now.version > old(server.now).version
  {
    var pr := server.now;
    moved := false;
    if pr.deleting {
      moved := ReconcileDelete(server, pr, podDeletes);
      return;
    }
    var ok := AddFinalizer(server);
    if !ok { return; }
    ghost var version := server.now.version;
    moved := Advance(server, server.now, overdue, name, source, parses, template, available, pod, node);
    if moved {
      MovedFrom(server.spec, pr, version, overdue, source, parses, template, available, pod, node,
                server.now);
    }
  }

  method AddFinalizer(server: Server) returns (ok: bool)
    requires server.Valid() && !server.now.deleting
    modifies server
    ensures server.Valid() && old(server.history) <= server.history && server.now.version >= old(server.now).version
    ensures ok && server.now == old(server.now).(version := server.now.version, finalizer := true)
    ensures !old(server.now).finalizer ==> server.now.version > old(server.now).version
  {
    ok := true;
    if !server.now.finalizer { ok := server.Update(Manager, server.now.(finalizer := true)); }
  }

  /** The finalizer has no part in what is decided. */
  lemma MovedFrom(spec: Spec, was: Restore, version: nat, overdue: bool, source: Source, parses: bool, template: bool,
                  available: bool, pod: PodView, node: NodeView, now: Restore)
    requires Moved(spec, was.(version := version, finalizer := true), overdue, source, parses, template, available, pod,
                   node, now)
    ensures Moved(spec, was, overdue, source, parses, template, available, pod, node, now)
  {
  }

  /** What an attempt of the agent came to. */
  datatype Attempt = Transient | Fatal | Done | Unanswered

  /** The agent has something to write: a deleted restore is torn down, with a container only
      once that is killed; a live one is pre-warmed, restored or watched, as long as there is
      an answer, and a running one only if it has exited. */
  predicate Acts(pr: Restore, nodeName: string, attempt: Attempt) {
    && pr.targetNode == nodeName
    && (if pr.deleting then pr.container == "" || attempt.Done?
        else !attempt.Unanswered? && (pr.phase in {PreWarming, Restoring} || (pr.phase == Running && attempt.Fatal?)))
  }

  /** The agent's Reconcile: pre-warm, restore, watch, or tear down. Its write lands unless
      somebody else has written in between. */
  method ReconcileAgent(server: Server, nodeName: string, attempt: Attempt, container: string) returns (ok: bool)
    requires server.Valid() && container != ""
    modifies server
    ensures server.Valid() && old(server.history) <= server.history
    ensures if Acts(old(server.now), nodeName, attempt) then server.now.version > old(server.now).version
            else !ok && server.now == old(server.now)
    ensures ok && old(server.now).deleting ==>
              server.now == old(server.now).(version := server.now.version, tornDown := true)
    ensures ok && !old(server.now).deleting ==>
              AgentDone(old(server.now), attempt, container, server.now.(version := old(server.now).version))
  {
    ok := false;
    var acts, copy := DecideAgent(server.now, nodeName, attempt, container);
    if !acts { return; }
    server.Others(Agent);
    ok := server.Update(Agent, copy);
  }

  /** The agent's Reconcile up to the write. */
  method DecideAgent(pr: Restore, nodeName: string, attempt: Attempt, container: string)
    returns (acts: bool, copy: Restore)
    requires container != ""
    requires pr.container != "" ==> pr.phase != Restoring
    ensures acts <==> Acts(pr, nodeName, attempt)
    ensures acts ==> copy.version == pr.version && AgentWrite(pr, copy.(version := pr.version + 1))
    ensures acts && pr.deleting ==> copy == pr.(tornDown := true)
    ensures acts && !pr.deleting ==> AgentDone(pr, attempt, container, copy)
  {
    copy, acts := pr, false;
    if pr.targetNode != nodeName { return; }
    if pr.deleting {
      // a failed kill is tried again later
      if pr.container != "" && attempt != Done { return; }
      return true, copy.(tornDown := true);
    }
    if attempt == Unanswered { return; }
    match pr.phase {
      case PreWarming =>
        if attempt == Done {
          copy := copy.(preWarmed := true, phase := if pr.podUID == "" then Preparing else Restoring);
        } else if attempt == Fatal {
          copy := copy.(phase := Failed);
        }
      case Restoring =>
        if attempt == Done {
          copy := copy.(container := container, phase := Running);
        } else if attempt == Fatal {
          copy := copy.(phase := Failed);
        }
      case Running =>
        if attempt != Fatal { return; }
        copy := copy.(phase := Failed);
      case _ => return;
    }
    acts := true;
  }

  /** The outcome on a live restore: an attempt to be made again leaves it as it was, a final
      failure fails it, and a success is recorded with what it was for. */
  predicate AgentDone(was: Restore, attempt: Attempt, container: string, now: Restore) {
    match attempt
    case Transient => now == was
    case Fatal => now == was.(phase := Failed)
    case Done =>
      && (was.phase == PreWarming ==>
            && now == was.(preWarmed := true, phase := now.phase)
            && now.phase == (if was.podUID == "" then Preparing else Restoring))
      && (was.phase == Restoring ==> now == was.(container := container, phase := Running))
    case Unanswered => false
  }
}
