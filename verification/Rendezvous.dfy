/** The quiesce rendezvous from end to end: the workload's shim (hack/snapshot-shim.py), the
    node agent that waits for it, the dump, and the marker a restore writes. */
module Rendezvous {
  import opened Paths
  import opened Storage
  import opened Manifests
  import L = SnapshotLifecycle

  const READY_FILE := "ready-for-checkpoint"
  const RESUME_FILE := "restore-complete"

  function Ready(dir: Path): Path { dir + [READY_FILE] }
  function Resume(dir: Path): Path { dir + [RESUME_FILE] }

  lemma FilesApart(dir: Path)
    ensures Ready(dir) != Resume(dir)
  {
    assert Ready(dir)[|dir|] == READY_FILE && Resume(dir)[|dir|] == RESUME_FILE;
  }

  /** Where the shim is: before and after the stale marker is dealt with, in the poll loop,
      and past it, where the HTTP frontend starts. */
  datatype Stage = Starting | Cleared | Polling | Serving

  /** A container: its shim and the files it and the agent leave for each other. */
  datatype Proc = Proc(stage: Stage, files: set<Path>)

  /** One step of the shim. */
  predicate ShimStep(dir: Path, a: Proc, b: Proc) {
    match a.stage
    case Starting => b == Proc(Cleared, a.files - {Resume(dir)})
    case Cleared => b == Proc(Polling, a.files + {Ready(dir)})
    case Polling => b == (if Resume(dir) in a.files then a.(stage := Serving) else a)
    case Serving => b == a
  }

  /** The shim with every state its container has been in. */
  class Shim {
    var now: Proc
    ghost var history: seq<Proc>
    const dir: Path

    constructor (dir: Path, files: set<Path>)
      ensures Valid() && this.dir == dir && now == Proc(Starting, files) && history == [now]
    {
      this.dir := dir;
      now, history := Proc(Starting, files), [Proc(Starting, files)];
    }

    ghost predicate Valid()
      reads this
    {
      && history != [] && history[|history| - 1] == now
      && forall k | 0 < k < |history| :: ShimStep(dir, history[k - 1], history[k])
    }

    /** announce_ready: a marker of a previous life goes first, the ready file comes last. */
    method AnnounceReady()
      requires Valid() && now.stage == Starting
      modifies this
      ensures Valid() && now == Proc(Polling, old(now).files - {Resume(dir)} + {Ready(dir)})
      ensures Resume(dir) !in now.files && |history| == |old(history)| + 2
    {
      FilesApart(dir);
      var files := now.files;
      if Resume(dir) in files {
        files := files - {Resume(dir)};
      }
      assert files == now.files - {Resume(dir)};
      now := Proc(Cleared, files);
      history := history + [now];
      now := Proc(Polling, files + {Ready(dir)});
      history := history + [now];
    }

    /** wait_for_resume, for as many polls as the process is scheduled: the loop is left at
        the first poll that finds the marker, and not before. */
    method WaitForResume(polls: nat) returns (resumed: bool)
      requires Valid() && now.stage == Polling
      modifies this
      ensures Valid() && now.files == old(now).files
      ensures resumed <==> polls > 0 && Resume(dir) in old(now).files
      ensures now.stage == if resumed then Serving else Polling
    {
      var n := 0;
      resumed := false;
      while n < polls && !resumed
        invariant Valid() && now.files == old(now).files && n <= polls
        invariant now.stage == if resumed then Serving else Polling
        invariant resumed <==> n > 0 && Resume(dir) in now.files
      {
        resumed := Resume(dir) in now.files;
        if resumed { now := now.(stage := Serving); }
        history := history + [now];
        n := n + 1;
      }
    }
  }

  // ----- which directory -----

  type Annotations = map<string, string>

  const QUIESCE_ANNOTATION := "podsnapshot.io/quiesce"
  const QUIESCE_DIR_ANNOTATION := "podsnapshot.io/quiesce-dir"

  predicate OptsIn(a: Annotations) {
    QUIESCE_ANNOTATION in a && a[QUIESCE_ANNOTATION] == L.MODE_PRESENCE_FILE
  }

  function DirOf(a: Annotations): string {
    if QUIESCE_DIR_ANNOTATION in a && a[QUIESCE_DIR_ANNOTATION] != "" then a[QUIESCE_DIR_ANNOTATION]
    else L.DEFAULT_QUIESCE_DIR
  }

  /** The directory the shim polls: the pod's, or the default. */
  function ShimDir(podDir: string): string { if podDir == "" then L.DEFAULT_QUIESCE_DIR else podDir }

  /** resolveResumeDir: the restore's own annotation, then the pod template's, then what the
      artifact's manifest recorded; "" when none of them opts in. */
  function ResolveResumeDir(restore: Annotations, template: Annotations, man: Option<Manifest>): string {
    if OptsIn(restore) then DirOf(restore)
    else if OptsIn(template) then DirOf(template)
    else if man.Some? && man.value.quiesce.Some? && man.value.quiesce.value.mode == L.MODE_PRESENCE_FILE then
      (if man.value.quiesce.value.dir != "" then man.value.quiesce.value.dir else L.DEFAULT_QUIESCE_DIR)
    else ""
  }

  /** The scan over the three places in their order: a restore that opts in settles it,
      whatever the template and the manifest say; one that does not leaves it to the template;
      and only without either does the manifest count, if it records that contract. */
  method FindResumeDir(restore: Annotations, template: Annotations, man: Option<Manifest>) returns (dir: string)
    ensures dir == ResolveResumeDir(restore, template, man)
    ensures Asks(restore) ==> dir == AskedDir(restore)
    ensures !Asks(restore) && Asks(template) ==> dir == AskedDir(template)
    ensures !Asks(restore) && !Asks(template) ==>
              if man.Some? && man.value.quiesce.Some? && man.value.quiesce.value.mode == "presence-file" then
                dir == if man.value.quiesce.value.dir == "" then "/snapshot" else man.value.quiesce.value.dir
              else dir == ""
  {
    var places := [restore, template];
    assert places[0] == restore && places[1] == template;
    for i := 0 to |places|
      invariant forall j | 0 <= j < i :: !OptsIn(places[j])
    {
      if OptsIn(places[i]) {
        assert places[i] == if i == 0 then restore else template;
        return DirOf(places[i]);
      }
    }
    assert !OptsIn(places[0]) && !OptsIn(places[1]);
    if man.None? || man.value.quiesce.None? || man.value.quiesce.value.mode != L.MODE_PRESENCE_FILE { return ""; }
    dir := man.value.quiesce.value.dir;
    if dir == "" { dir := L.DEFAULT_QUIESCE_DIR; }
  }

  /** The annotation that opts in, and the directory that goes with it, by their names. */
  predicate Asks(a: Annotations) { "podsnapshot.io/quiesce" in a && a["podsnapshot.io/quiesce"] == "presence-file" }

  function AskedDir(a: Annotations): string {
    var name := "podsnapshot.io/quiesce-dir";
    if name !in a || a[name] == "" then "/snapshot" else a[name]
  }

  /** With no overriding annotation a restore resumes in the directory the snapshot recorded:
      the cleaned one of the pod's annotations, which is the directory the shim polls. */
  lemma ResumeDirIsRecorded(mode: string, podDir: string, timeout: L.Timeout, restore: Annotations,
                            template: Annotations, man: Manifest)
    requires !OptsIn(restore) && !OptsIn(template)
    requires L.ResolveQuiesce(mode, podDir, timeout).Resolved?
    requires man.quiesce == Some(QuiesceInfo(mode, L.ResolveQuiesce(mode, podDir, timeout).dir))
    ensures ResolveResumeDir(restore, template, Some(man)) == Clean(ShimDir(podDir))
    ensures ResolveResumeDir(restore, template, Some(man)) != ""
    ensures Segs(ResolveResumeDir(restore, template, Some(man))) == Segs(ShimDir(podDir))
  {
    CleanKeepsSegs(ShimDir(podDir));
    assert Rooted(Clean(ShimDir(podDir)));
  }

  // ----- the whole system -----

  /** The snapshot's phase as far as the rendezvous goes. */
  datatype Phase = Quiescing | Checkpointing | Dumped

  /** The pod being snapshotted, the snapshot, and the pod being restored into: whether the
      marker was written, and its container once runc restore has run. */
  datatype System = System(source: Proc, phase: Phase, image: Option<Stage>, target: set<Path>, marked: bool,
                           restored: Option<Proc>)

  datatype Step = SourceRuns | AgentLooks | Dump | Mark | RuncRestore | TargetRuns

  /** The steps, between the shim's directory in the snapshotted pod (shim), the recorded
      directory the agent looks in (recorded), and the one the restore writes to (resume). */
  predicate Next(step: Step, shim: Path, recorded: Path, resume: Path, a: System, b: System) {
    match step
    case SourceRuns => a.phase != Dumped && ShimStep(shim, a.source, b.source) && b == a.(source := b.source)
    case AgentLooks => a.phase == Quiescing && Ready(recorded) in a.source.files && b == a.(phase := Checkpointing)
    case Dump => a.phase == Checkpointing && b == a.(phase := Dumped, image := Some(a.source.stage))
    case Mark => a.phase == Dumped && b == a.(target := a.target + {Resume(resume)}, marked := true)
    case RuncRestore =>
      a.image.Some? && a.marked && a.restored.None? && b == a.(restored := Some(Proc(a.image.value, a.target)))
    case TargetRuns =>
      && a.restored.Some? && b.restored.Some? && ShimStep(shim, a.restored.value, b.restored.value)
      && b == a.(restored := b.restored)
  }

  /** A pod whose shim has not run yet, with whatever files are already in its rendezvous
      directory and in that of the pod to be restored into. */
  function Start(files: set<Path>, target: set<Path>): System {
    System(Proc(Starting, files), Quiescing, None, target, false, None)
  }

  ghost predicate Inv(shim: Path, s: System) {
    && (s.source.stage != Starting ==> Resume(shim) !in s.source.files)
    && s.source.stage != Serving
    && (s.source.stage in {Starting, Cleared} ==> Ready(shim) !in s.source.files)
    && (s.phase != Quiescing ==> s.source.stage == Polling)
    && (s.image.Some? ==> s.image.value == Polling)
    && (s.marked ==> Resume(shim) in s.target)
    && (s.restored.Some? ==>
          s.restored.value.stage in {Polling, Serving} && Resume(shim) in s.restored.value.files)
  }

  ghost predicate Reached(shim: Path, recorded: Path, resume: Path, files: set<Path>, target: set<Path>,
                          history: seq<System>) {
    && history != [] && history[0] == Start(files, target)
    && forall k | 0 < k < |history| :: Someone(shim, recorded, resume, history[k - 1], history[k])
  }

  ghost predicate Someone(shim: Path, recorded: Path, resume: Path, a: System, b: System) {
    exists step :: Next(step, shim, recorded, resume, a, b)
  }

  /** The shim's next step leaves the poll loop, whatever it finds. */
  ghost predicate LeavesNext(shim: Path, p: Proc) {
    forall next :: ShimStep(shim, p, next) ==> next.stage == Serving
  }

  lemma NextKeeps(step: Step, dir: Path, a: System, b: System)
    requires Inv(dir, a) && Next(step, dir, dir, dir, a, b)
    ensures Inv(dir, b)
  {
    FilesApart(dir);
  }

  /** Whatever a previous life left in the two directories, a stale resume marker included,
      as long as no ready file was left where the shim starts: a dump catches the shim after
      its ready file and before it has left the poll loop, so no frontend is in the image;
      and a restored process leaves the loop at its next poll. */
  lemma {:induction false} QuiesceThenResume(dir: Path, files: set<Path>, target: set<Path>,
                                             history: seq<System>, i: nat)
    requires Reached(dir, dir, dir, files, target, history) && i < |history| && Ready(dir) !in files
    ensures Inv(dir, history[i])
    ensures history[i].phase == Dumped ==> history[i].source.stage == Polling
    ensures history[i].image.Some? ==> history[i].image.value == Polling
    ensures history[i].restored.Some? && history[i].restored.value.stage == Polling ==>
              LeavesNext(dir, history[i].restored.value)
    decreases i
  {
    if i > 0 {
      QuiesceThenResume(dir, files, target, history, i - 1);
      assert Someone(dir, dir, dir, history[i - 1], history[i]);
      var step :| Next(step, dir, dir, dir, history[i - 1], history[i]);
      NextKeeps(step, dir, history[i - 1], history[i]);
    }
  }

  /** No run from these files has a frontend, or a shim yet to announce itself, in its image. */
  ghost predicate AlwaysQuiesced(dir: Path, files: set<Path>, target: set<Path>) {
    forall history: seq<System>, i: nat | Reached(dir, dir, dir, files, target, history) && i < |history| ::
      history[i].image.Some? ==> history[i].image.value == Polling
  }

  /** The exact condition on what the directory holds at the start: every run from it dumps a
      quiesced shim if and only if there is no ready file in it. */
  lemma QuiescedIff(dir: Path, files: set<Path>, target: set<Path>)
    ensures AlwaysQuiesced(dir, files, target) <==> Ready(dir) !in files
  {
    if Ready(dir) in files {
      var start := Start(files, target);
      var looked := start.(phase := Checkpointing);
      var dumped := looked.(phase := Dumped, image := Some(Starting));
      var history := [start, looked, dumped];
      assert Next(AgentLooks, dir, dir, dir, start, looked) && Next(Dump, dir, dir, dir, looked, dumped);
      assert Reached(dir, dir, dir, files, target, history) && history[2].image == Some(Starting);
    } else {
      forall history: seq<System>, i: nat | Reached(dir, dir, dir, files, target, history) && i < |history|
        ensures history[i].image.Some? ==> history[i].image.value == Polling
      {
        QuiesceThenResume(dir, files, target, history, i);
      }
    }
  }

  /** The three directories are one: what the shim was given, what the snapshot recorded and
      the agent looks in, and what the restore writes to. */
  lemma EndToEnd(mode: string, podDir: string, timeout: L.Timeout, restore: Annotations, template: Annotations,
                 man: Manifest, files: set<Path>, target: set<Path>, history: seq<System>, i: nat)
    requires !OptsIn(restore) && !OptsIn(template)
    requires L.ResolveQuiesce(mode, podDir, timeout).Resolved?
    requires man.quiesce == Some(QuiesceInfo(mode, L.ResolveQuiesce(mode, podDir, timeout).dir))
    requires Reached(Segs(ShimDir(podDir)), Segs(man.quiesce.value.dir),
                     Segs(ResolveResumeDir(restore, template, Some(man))), files, target, history)
    requires i < |history| && Ready(Segs(ShimDir(podDir))) !in files
    ensures history[i].image.Some? ==> history[i].image.value == Polling
    ensures history[i].restored.Some? ==> history[i].restored.value.stage in {Polling, Serving}
    ensures history[i].restored.Some? && history[i].restored.value.stage == Polling ==>
              LeavesNext(Segs(ShimDir(podDir)), history[i].restored.value)
  {
    ResumeDirIsRecorded(mode, podDir, timeout, restore, template, man);
    CleanKeepsSegs(ShimDir(podDir));
    QuiesceThenResume(Segs(ShimDir(podDir)), files, target, history, i);
  }
}
