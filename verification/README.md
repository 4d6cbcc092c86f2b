# pod-snapshotter: what a checkpoint survives

A running container is dumped once, its images are committed as an artifact, and another pod
is restored from them. Between the two stand controllers on several machines that learn of each
other only through a versioned status object, and a store that may keep the source of a rename,
leave old bytes behind an open that asked for none, or say that a full directory was removed.
The properties proved here are about that middle: what is still true in the state a crash
leaves, after a write that another writer has overtaken, and at the end of any number of tries.

## How the model is laid out

| file | what it models |
|---|---|
| `Paths.dfy` | splitting, joining and lexical cleaning of slash-separated names, and the names a manifest may list |
| `Storage.dfy` | the store as a class with a history of every state; each quirk is a nondeterministic choice, a crash is a return to an earlier state |
| `Manifest.dfy` | the commit record: decoding, sorting, totals, and what it means that a tree agrees with it |
| `Commit.dfy` | the file primitives (unlink first, remove after rename), the marker publish, and deletion |
| `Expand.dfy` | a kubelet tar expanded to a directory artifact |
| `Publish.dfy` | a directory artifact committed in place around the dump's images |
| `Clear.dfy` | the verified clear before a dump |
| `Snapshots.dfy`, `Dump.dfy` | the stored object with optimistic concurrency; the one-way dump over whole runs |
| `Upload.dfy` | the upload over whole runs |
| `SnapshotLifecycle.dfy`, `RestoreLifecycle.dfy` | the two lifecycles as interleaved processes |
| `Prefetch.dfy` | the prefetch worker pool as a labelled transition system |
| `ImageSource.dfy` | the pre-warm, and the directory a restore reads its images from |
| `Staging.dfy` | the pool's workers writing into the stage at the same time |
| `Uri.dfy` | artifact URIs, over the reference syntax of section 3 of RFC 3986 |
| `SpecRewrite.dfy` | the OCI spec rewrite |
| `Shm.dfy`, `Compatibility.dfy`, `Rendezvous.dfy` | shared memory carried along; tuples and UIDs that travel as text; the quiesce rendezvous from end to end |

A path is the sequence of its segments (`Storage.Path`); `Uri.dfy` ties that to the text of
paths. JSON, tar and sha256 are a `Codec`: encoding is inverted by parsing, a torn manifest
never reads as another one, and once enough of one is there to read, more of it reads the
same; a digest is the content it was taken over. In a `Machine`, `faulty` lets any operation
fail and `lies` lets any `Remove` report success and do nothing; the silent `rmdir` of a
non-empty directory is possible on every machine and happens every time on a `quiet` one. Outcomes that belong to the world (does runc
succeed, does a name resolve, who else writes the object) are either parameters or choices.

## Hypotheses

The following are not guaranteed by the code and appear as preconditions.

- The unlink of a file that reports success has removed it, everywhere except in the verified
  clear, which is proved on a store where it has not.
- runc either fails and leaves the container alive or writes every image and takes it, and the
  resolver errors once the container is gone (`Dump.TakeDump`, `Dump.Checkpoint`).
- One snapshot per artifact URI: the artifact directory is not committed before the snapshot's
  own dump (`Dump.Inv`).
- Only the agent that runs a phase writes Completed (`Snapshots.Interfere`); who that is comes
  from the routing, which is not assumed: `SnapshotLifecycle.Route` keeps what the manager's
  test and the agent's test go by, `capable` meaning that every look at the node finds the
  capability, and the three `...Iff` lemmas say exactly what is lost when the tests disagree.
- No name is listed twice in a manifest that is staged by the pool (`Staging.PooledComplete`).
- The files of a kubelet tar have distinct names, none of them that of the marker, of its
  temporary or of the shared-memory contribution (`Expand.Harmless`).
  `Expand.ExpansionAgreesIff` says exactly when the manifest is right without this.
- No temporary marker lies in a directory that is published in place.
  `PublishInPlace.ExactAgreesIff` says exactly what its presence breaks; the clear before the
  dump establishes its absence, which is how `Dump.Checkpoint` uses it.
- The source of an upload lies outside its destination; the scratch and stage directories lie
  outside the artifact.
- The shim is given the directory that the pod's annotations name, and no ready file is in it
  before the shim has started: `Rendezvous.QuiescedIff` shows that this is the exact condition.

## Where the code does less than its own documentation

- A capture that fails half-way is said to be left out, and is dropped from what is
  contributed, but its file stays and the walk lists it: it is published as far as it got
  (`PublishInPlace.CutCaptureListed`).
- `Store.Delete` returns nil without deleting anything exactly when it could not read the
  manifest, be that a fault, a torn marker or one of a newer version (`Commit.Delete`;
  `Commit.DeleteForeign` is the artifact of a newer publisher, reported deleted and still
  there).
- A publish can fail after its marker has landed, so a snapshot can be recorded as Failed
  although the artifact is committed: if and only if the store has faults
  (`Commit.FailsCommittedIff`). `Dump.FailedOverCommitted` is such a run; without faults
  `PublishInPlace.PublishDir` and `Dump.Checkpoint` never do that.
- The agent does not test what the manager tests before it stays away, so an agent that is
  asked for a tar, or on a node that does not advertise the capability, races the kubelet
  call. Then Completed can turn into Failed, and for a directory Failed into Completed, over
  an artifact the upload has taken back (`SnapshotLifecycle.TerminalAbsorbsIff`,
  `FailedAbsorbsIff`, `CompletedIsCommittedIff`).
- `Parse` does not undo `String` for every URI that `Parse` produces: `Uri.RoundTripIff` gives
  the exact condition. A root with a query or a fragment is accepted although no location
  built from it keeps its format: `Uri.DefaultURIParsesIff`.
- A shared-memory file whose name starts with two dots, which is only a name, makes the
  restore refuse the whole archive; so does a directory of that name in the target:
  `Shm.RoundTripIff`.
- The mounts appended from the dump's log keep their sources as recorded. One that lies in the
  old pod's volumes, under a place no mount of the spec names, is bound into the restored
  container (`SpecRewrite.BindsOldPod`); `SpecRewrite.LeavesOldPodIff` is the exact condition
  for that not to happen.
- The cache tier is trusted by `stat` sizes: a directory there with the name and the size of a
  listed file passes (`ImageSource.ResidentAgreesIff`).
- A compatibility hash stands for one tuple only while no field holds what reads as the start
  of a later field: `Compatibility.HashSeparatesIff`.

## Model

| member | source | states |
|---|---|---|
| Paths.CleanKeepsSegs | internal/artifact/manifest.go:105-121 | lexical cleaning keeps rootedness and segments, and is idempotent |
| Paths.ValidRelPathIff | internal/artifact/manifest.go:105-121 | the accepted manifest names are exactly "." and the joins of proper segments |
| Paths.CleanAppend | internal/artifact/expand.go:64-71 | appending a validated name to a clean rooted path is textual and appends its segments |
| Storage.Machine.Remove | internal/agent/checkpoint_controller.go:491-512 | what a Remove may do: nothing while reporting success, for a non-empty directory on every store and for anything on a lying one; on a quiet one the former every time |
| Storage.Machine.Create | internal/artifact/expand.go:186-203 | an open with truncation may leave the old content of an existing file |
| Storage.Machine.Rename | internal/artifact/expand.go:142-156 | rename moves, or copies and keeps its source, or fails, which only with faults leaves half a copy; a destination that was absent only grows |
| Manifests.NewManifest | internal/artifact/manifest.go:59-74 | the files come out sorted by path, none lost or repeated, and the total is the sum of their sizes; version, format, source and quiesce record are as given |
| Manifests.SortSorts | internal/artifact/manifest.go:60-61 | the sort of the listed files is ordered by path, byte by byte |
| Manifests.LessEqIff | internal/artifact/manifest.go:60-61 | the order is that of the texts: one is the start of the other, or smaller at the first place where they differ |
| Manifests.ManifestRoundTrip | internal/artifact/manifest.go:77-101 | a manifest over validated names decodes to itself |
| Manifests.DecodesIff | internal/artifact/manifest.go:84-101 | a manifest reads back as itself if and only if its version is known, it lists something and nothing but validated names; any other is refused |
| Manifests.TornIsSafe | internal/artifact/expand.go:115-140 | a torn or whole marker over a tree that agrees with its manifest is safe to read |
| Commit.WriteFile | internal/artifact/expand.go:194-227 | on success the file is exactly the streamed bytes, with their count and digest, everything else unchanged; without faults it succeeds |
| Commit.RenamePublish | internal/artifact/expand.go:148-156 | the destination is the temporary's content and the temporary is gone, whether rename moves or copies; without faults it does that or nothing at all |
| Commit.PublishFile | internal/artifact/expand.go:115-156 | same final state whatever the store does with truncation and rename; in between the destination is the old one or a prefix of the new one |
| Commit.WriteManifestDir | internal/artifact/expand.go:115-140 | the marker becomes exactly the encoded manifest, no temporary is left, nothing else changes; a marker that was absent only grows; without faults a failure leaves the marker as it was |
| Commit.FailsCommittedIff | internal/artifact/expand.go:148-156 | from a written temporary, a publish can report an error and have committed all the same if and only if the store has faults |
| Commit.ReadManifestDir | internal/artifact/expand.go:232-239 | a manifest is read exactly when the marker decodes; an error only without a marker, with a broken one, or on a fault |
| Commit.AgreesIff | internal/artifact/expand.go:64-109 | published sizes describe the tree if and only if duplicates agree in size, none is the temporary, and one over the marker has its size |
| Commit.PublishStateSafe | internal/artifact/expand.go:111-140 | every state of a marker publish over an agreeing tree is safe to read |
| Commit.DeleteListed | internal/artifact/store.go:102-111 | the listed files are removed one by one; no state on the way has a file that was not there |
| Commit.Delete | internal/artifact/store.go:88-112 | the marker goes first, so every state is safe to read; a nil result has deleted the artifact if and only if its marker could be read, otherwise nothing has happened; without faults that is if and only if the marker decodes, nothing is committed afterwards, and on a tree the result is nil |
| Commit.DeletedMeans | internal/artifact/store.go:98-111 | what is gone is the marker and the files it listed under a name; everything else is as it was |
| Commit.DeleteForeign | internal/artifact/store.go:93-98 | the artifact of a newer publisher is reported as deleted and still all there |
| Expand.ExpandMembers | internal/artifact/expand.go:52-97 | a complete pass has written exactly the archive's members in order and described each; anything unacceptable, or one entry too many, fails |
| Expand.CaptureShmMember | internal/agent/upload_controller.go:179-196 | at most one more file, described as it is on disk; it holds what was captured, and is there exactly when something was |
| Expand.ExpandTarToDir | internal/artifact/expand.go:34-109 | starting from any safe artifact every state is safe to read; success has unpacked the archive: each file lies at its name with its own bytes and is listed with their size and digest, the directories are there, and nothing else is listed but the captured shared memory, under its own name; unsupported kinds and invalid names never succeed; without faults an error leaves no marker, or everything as it was, and an archive that can be unpacked, with nothing in its way, succeeds |
| Expand.EmptyHasRoom | internal/artifact/expand.go:34-109 | an empty destination has room for any archive whose own entries are not in each other's way |
| Expand.ExpansionCommits | internal/artifact/expand.go:34-109 | the marker of an expansion decodes to the returned manifest, agrees with the tree, and every file of the archive is in place with its bytes and listed with their size and digest |
| Expand.ExpansionAgreesIff | internal/artifact/expand.go:64-84 | without hypotheses on the archive, the manifest agrees with the tree if and only if the members are faithful |
| PublishInPlace.Survey | internal/artifact/publish.go:144-197 | the walk and the checks accept a tree only if the manifest built over what they found is exact, with digests as asked for; without faults exactly if a file is a pages image and every image that is to have it starts with the magic, said of the paths |
| PublishInPlace.VerifyImageMagic | internal/artifact/publish.go:239-284 | a nil result means every checked image starts with the magic; without faults an error means one does not |
| PublishInPlace.ExactManifest | internal/artifact/publish.go:144-201 | the manifest lists every file but the marker exactly once, sorted, with its size, and sums the sizes |
| PublishInPlace.ExactAgreesIff | internal/artifact/publish.go:144-205 | a committed exact manifest agrees with the published tree if and only if no temporary marker lay in it |
| PublishInPlace.ExactDecodes | internal/artifact/manifest.go:84-101 | an exact manifest of a non-empty tree reads back as itself |
| PublishInPlace.ContributeBoth | internal/agent/checkpoint_controller.go:303-347 | each capture goes under its own name with its own bytes; failed ones are dropped from the list; what is listed is described as it is on disk, the first still so after the second |
| PublishInPlace.DiffListedIff | internal/artifact/publish.go:144-176 | the walk lists a diff exactly when its file is there, however its capture ended |
| PublishInPlace.CutCaptureListed | internal/artifact/publish.go:144-176 | so any capture cut off anywhere is published as far as it got |
| PublishInPlace.PublishDir | internal/artifact/publish.go:86-205 | every state is safe to read if no temporary marker was there; success has published, over a sound tree, the manifest of that tree, with the given quiesce record and digests as asked for, the metadata and the captures each under its own name with its own bytes; without faults it succeeds whenever the dump left its images and no directory is in the way, a failure leaves no marker, and incomplete options change nothing |
| PublishInPlace.PublishDirCommits | internal/artifact/publish.go:132-205 | after a success the marker decodes to the returned manifest, which lists exactly the files there are, with at least one pages image and every checked magic |
| Clear.ClearArtifactDir | internal/agent/checkpoint_controller.go:513-554 | on a store where any Remove may lie, nil means the directory is empty or absent, and no state on the way lost anything outside it; on an honest store it ends with nil |
| Clear.RemoveAll | internal/agent/checkpoint_controller.go:491-512 | on a store whose rmdir always reports success, os.RemoveAll returns nil over every directory and leaves it empty if and only if it was; on an honest store nil means that everything is gone, or that a plain rmdir reported success and nothing is |
| Clear.TrustedAgainstVerified | internal/agent/checkpoint_controller.go:491-554 | on the same such store, over the same directory, RemoveAll returns nil having removed nothing and the verified clear returns nil having emptied it |
| Snapshots.WriteStatus | internal/agent/checkpoint_controller.go:450-462 | a write that lands is the next version of the object stored just before, with only the phase set; only the stored object changes, whoever interferes; where nothing fails it is lost only to a deletion or to as many writes of others as there are retries |
| Dump.TakeDump | internal/agent/checkpoint_controller.go:190-210 | a dump that succeeds into a cleared directory leaves exactly its images there and takes a live container |
| Dump.Checkpoint | internal/agent/checkpoint_controller.go:104-267 | every state keeps the invariant and a nil return has recorded its outcome; Completed after a dump means that the committed artifact is what this dump produced: the quiesce record of the snapshot, images, log, metadata and spec each under its own name with its own bytes, each capture under its own, nothing else, all of it listed; entered over a committed artifact it only writes status, and without a container it never fails or writes; without faults, for an acceptable artifact, a landed write says Completed if and only if the artifact is committed, and Failed only if it is not |
| Dump.Run | internal/agent/checkpoint_controller.go:86-102 | the invariant over any number of reconciles, crashes, lost writes and exits of the container |
| Dump.DumpConservation | internal/agent/checkpoint_controller.go:104-297 | between any two states of a run: at most one dump, its images intact, a committed artifact stays committed by the same manifest over the same tree and lists every image, and a status that says Completed has a committed artifact under it |
| Dump.FailedOverCommitted | internal/agent/checkpoint_controller.go:239-249 | with one fault the run goes on to a recorded Failed over a committed, complete artifact: the rename copies and the temporary cannot be removed |
| Dump.CutOffStarts | internal/artifact/expand.go:115-140 | a dump of any one image with its temporary marker written is a state that run can start from |
| Upload.CopyAtomic | internal/agent/upload_controller.go:220-262 | the destination is the source, byte for byte, with its digest and size; no temporary is left and nothing else changes; without faults it succeeds where the file can be written |
| Upload.SourceApart | internal/agent/upload_controller.go:89-157 | nothing an upload writes is its own source |
| Upload.ExpansionLands | internal/agent/upload_controller.go:134-146 | an expansion commits the files of the tar, one by one, under the recorded quiesce contract |
| Upload.LandedWithout | internal/agent/upload_controller.go:155-160 | a landed artifact does not depend on the tar any more |
| Upload.Upload | internal/agent/upload_controller.go:89-174 | the tar's bytes are somewhere in every state; without a source, or for an unacceptable artifact, only status is written, and it says Failed; Completed is only written over an artifact that holds the tar's files with their own bytes and the captured shared memory, and the tar is then gone; a failed transfer keeps its source and is tried again; without faults, with room for the artifact, it lands |
| Upload.Run | internal/agent/upload_controller.go:59-87 | conservation over any number of reconciles, crashes and lost status writes, for tar and directory artifacts; a status that says Completed has a landed artifact under it |
| SnapshotLifecycle.RoutingsAgreeIff | internal/controller/podsnapshot_controller.go:215-238 | the agent's test and the manager's agree on every look at the node if and only if an agent that is asked is asked for a directory on a node that advertises the capability |
| SnapshotLifecycle.Lifecycle | internal/controller/podsnapshot_controller.go:66-366 | over any interleaving and any routing the rank never falls and a contract past Quiescing has been honoured; where the routings agree Completed and Failed absorb and Completed implies a committed artifact |
| SnapshotLifecycle.TerminalAbsorbsIff | internal/agent/checkpoint_controller.go:484-489 | Completed and Failed are absorbing in every run if and only if the two routings agree |
| SnapshotLifecycle.FailedAbsorbsIff | internal/agent/checkpoint_controller.go:271-297 | no run leaves Failed if and only if an agent asked for a directory is on a node that advertises the capability |
| SnapshotLifecycle.CompletedIsCommittedIff | internal/agent/checkpoint_controller.go:271-297 | the same condition decides whether Completed means a committed artifact in every run |
| SnapshotLifecycle.ReconcilePending | internal/controller/podsnapshot_controller.go:112-202 | over the pod's annotations: no mode goes on to the dump with the quiesce field untouched; the supported mode with a rooted or absent directory and a timeout that reads waits, in a directory with the segments of the one asked for or of the default; anything else fails; the snapshot is placed on the pod's own node, UID and container; it waits or fails exactly where the source does |
| SnapshotLifecycle.ReconcileCheckpointing | internal/controller/podsnapshot_controller.go:285-366 | the kubelet call is launched exactly when this look at the node falls back, none is running and the node can be read and addressed; a node without an address fails; when the agent is taken to own the phase, at most a message is written |
| SnapshotLifecycle.CallKubelet | internal/controller/podsnapshot_controller.go:333-363 | minutes later the call's result is written only if the phase has not moved on |
| SnapshotLifecycle.ReconcileQuiesce | internal/agent/quiesce_controller.go:44-85 | the phase moves to Checkpointing only after the ready file was seen, with ReadyAt set |
| SnapshotLifecycle.WriteCheckpoint | internal/agent/checkpoint_controller.go:271-297 | a write that lands sets the phase it was meant to, although the phase of the fresh copy is not looked at; it is lost only to as many writes of others as there are retries |
| SnapshotLifecycle.ReconcileUpload | internal/agent/upload_controller.go:59-87 | the claim, and the outcome recorded over it, lost only to a write of somebody else |
| SnapshotLifecycle.ReconcileCheckpoint | internal/agent/checkpoint_controller.go:86-267 | one reconcile of the agent: only of a snapshot it owns; a tar is refused; over a committed artifact, or after a dump that commits, Completed is recorded, after one that does not, Failed |
| SnapshotLifecycle.Run | internal/controller/podsnapshot_controller.go:66-110 | any number of reconciles of all five actors racing each other is a run of the transition system |
| RestoreLifecycle.StepKeeps | internal/controller/podrestore_controller.go:48-318 | every write keeps the invariant; a phase change makes the measure smaller; the finalizer goes only without a recorded container or after teardown |
| RestoreLifecycle.BoundedChanges | internal/controller/podrestore_controller.go:48-94 | every run changes phase at most as often as the measure allows, at most seven times |
| RestoreLifecycle.NeverAgain | internal/agent/restore_controller.go:222-239 | pre-warming, once left, is never entered again, so the cycle is taken at most once |
| RestoreLifecycle.RestoringHasFields | internal/controller/podrestore_controller.go:270-293 | a restore that is Restoring or Running has its pod, node and artifact, and was pre-warmed if asked to be |
| RestoreLifecycle.FinalizerWaits | internal/controller/podrestore_controller.go:295-318 | wherever the finalizer disappears in a run, the restore was deleted and had no container left to tear down |
| RestoreLifecycle.CheckNodeCompatibility | internal/controller/podrestore_controller.go:196-214 | a node is rejected exactly when, for some field the build recorded, the last entry of its annotation for that field says something else; it is an error exactly when the node cannot be read and there is something to check |
| RestoreLifecycle.DecidePending | internal/controller/podrestore_controller.go:96-186 | for every source: Failed exactly when it is missing, the URI or the template is unacceptable, or the pinned node's annotation contradicts the build's tuple (the stored one without a build); an error exactly when the source or the node to be checked cannot be read; otherwise waiting, or pre-warming exactly on a pinned node that asked for it, with artifact and node recorded, or the placeholder pod |
| RestoreLifecycle.DecidePreparing | internal/controller/podrestore_controller.go:216-293 | for every state of the placeholder pod: an error, a wait, Failed exactly for a failed or unbuildable pod or a node that contradicts the tuple, and otherwise restoring exactly when pre-warm is off or done, with the pod's UID and node |
| RestoreLifecycle.Reconcile | internal/controller/podrestore_controller.go:48-94 | a landed write has moved the phase as the two decisions say; an overdue restore fails; a new one becomes pending |
| RestoreLifecycle.ReconcileDelete | internal/controller/podrestore_controller.go:295-318 | the finalizer goes exactly when no container was recorded or it is torn down and the pod could be deleted; otherwise nothing is written |
| RestoreLifecycle.ReconcileAgent | internal/agent/restore_controller.go:83-239 | the agent acts exactly on a restore of its node in one of its phases, or one being deleted; a transient failure changes nothing, a final one fails it, a finished pre-warm sets the condition that breaks the cycle, a finished restore records the container, a torn down one the condition |
| Prefetch.StepKeeps | internal/artifact/prefetch.go:73-109 | every step of every goroutine keeps the invariant, and the first error is never replaced |
| Prefetch.StepDescends | internal/artifact/prefetch.go:83-111 | every step makes the measure smaller |
| Prefetch.Progress | internal/artifact/prefetch.go:83-111 | no deadlock: until it returns, some goroutine can move without an outside cancel |
| Prefetch.ReturnMeans | internal/artifact/prefetch.go:113-121 | nil exactly without failure and cancel, and then every file was fetched exactly once and the total is the sum of the sizes |
| Prefetch.CancelStops | internal/artifact/prefetch.go:98-111 | after a cancel, be it by the first failure or from outside, at most the one file already being offered is still handed out |
| Prefetch.Prefetch | internal/artifact/prefetch.go:62-122 | under any schedule, failure and cancel the pool returns, with a result that means the above, and with as many workers as asked for but no more than files |
| ImageSource.Probe | internal/artifact/nvmecache.go:92-102 | complete exactly when every listed name is there with its size; an error exactly when the first to offend has another size |
| ImageSource.ResidentAgreesIff | internal/artifact/nvmecache.go:92-102 | what passes the test holds every file at its size if and only if no listed name is that of a directory |
| ImageSource.Resolve | internal/artifact/nvmecache.go:80-103 | the tier is used exactly when it is configured, there and complete, under both its names; an error exactly when the first file to offend has another size |
| ImageSource.FetchOne | internal/artifact/prefetch.go:125-180 | a fetched file has the listed size and, when asked, digest, and its staged copy is the source; without faults such a file is fetched |
| ImageSource.StagedComplete | internal/agent/restore_controller.go:183-207 | a finished staging is this artifact's and complete, every file with the bytes of the artifact's |
| Staging.PoolStages | internal/artifact/prefetch.go:73-180 | however many workers, in whatever order they take the files and interleave their writes, a nil return leaves the tree the transfers make one after the other |
| Staging.PooledComplete | internal/agent/restore_controller.go:183-207 | with the manifest written after it, the stage is this artifact's and complete, every file with the bytes of the artifact's |
| ImageSource.Prewarm | internal/agent/restore_controller.go:113-239 | the status leaves PreWarming for success only over a stage that is absent or a complete copy; without faults it is retried exactly while there is no marker, and without a stage succeeds exactly if the bytes are local, on the tier, or have the listed digests where those are asked for |
| ImageSource.SelectImages | internal/agent/restore_controller.go:293-319 | in every reachable Restoring state the chosen directory holds every file of the manifest at its size, unless it is the tier and a listed name is a directory there; without faults it is the staged copy if there is one, else the tier if it has the artifact, else the mount |
| ImageSource.Restore | internal/agent/restore_controller.go:244-413 | the directory handed to runc is the chosen one, and clearing the scratch leaves the staged copy alone; the outcome recorded is nothing, a failure, or Running with the container |
| ImageSource.Teardown | internal/agent/restore_controller.go:433-454 | the scratch directory goes, the staged copy with it, before the condition that lets the finalizer go is set; a container that was not killed leaves everything |
| ImageSource.Run | internal/agent/restore_controller.go:83-111 | the invariant over any number of pre-warms, restores, liveness checks and teardowns, crashes and lost writes, while the artifact is published or deleted by others |
| Uri.ParseUsable | internal/artifact/uri.go:52-77 | what Parse accepts is rooted, clean, not the root and without traversal, under the scheme it was written with |
| Uri.FromPathIff | internal/artifact/uri.go:66-76 | a decoded path is accepted if and only if it is rooted, names something and is written without traversal; it keeps its segments, and the trailing slash makes the directory |
| Uri.HostRefused | internal/artifact/uri.go:62-64 | a reference with a host is refused, whatever follows it |
| Uri.RoundTripIff | internal/artifact/uri.go:52-87 | parsing what was written gives the URI back if and only if its path has no percent sign, question mark, hash or control character |
| Uri.ParseEscaped | internal/artifact/uri.go:52-77 | every usable URI is what some reference reads as: the one with the meaningful characters of its path escaped, in either case of digits and scheme |
| Uri.JoinLands | internal/artifact/uri.go:114-128 | for every listable name Join succeeds and lands strictly below the prefix |
| Uri.JoinIff | internal/artifact/uri.go:114-128 | for any text: refused exactly outside a directory, with traversal, or naming nothing; otherwise strictly below the prefix, at the segments of the text |
| Uri.JoinInjective | internal/artifact/uri.go:114-128 | two names that join to the same URI are the same |
| Uri.HostPathMeans | internal/artifact/uri.go:97-104 | a file URI is its own path; a fuse URI lies below the mount, at its segments |
| Uri.HostPathOfJoin | internal/artifact/store.go:102-107 | the file deleted for a name is the file the expander wrote for it, on either scheme |
| Uri.CommitPathIsMarker | internal/artifact/uri.go:133-138 | the commit object of a directory artifact is its MANIFEST, of a tar the tar |
| Uri.DefaultURIParsesIff | internal/artifact/uri.go:152-194 | under an accepted root and plain segments both formats parse back as requested if and only if the root has neither query nor fragment |
| Uri.DefaultParses | internal/artifact/uri.go:168-194 | then the location is the root's segments followed by namespace, name and container |
| Uri.CheckLocalRootIff | internal/artifact/uri.go:210-219 | the textual confinement test is the prefix test on segments |
| SpecRewrite.ReplaceKeepsLength | internal/restore/specrewrite.go:145-147 | the sandbox replacement keeps the length |
| SpecRewrite.ReplaceIdempotent | internal/restore/specrewrite.go:145-147 | and is idempotent, although neighbouring matches share a slash |
| SpecRewrite.ReplaceOnly | internal/restore/specrewrite.go:145-147 | the id of the only match is exchanged for any text, and nothing else |
| SpecRewrite.ReplaceSwaps | internal/restore/specrewrite.go:145-147 | in general exactly the leftmost matches that do not overlap get the new id |
| SpecRewrite.ChangedInId | internal/restore/specrewrite.go:48-49 | and changes only bytes of an id inside a match |
| SpecRewrite.EnsureOption | internal/restore/specrewrite.go:297-316 | the in-place filter and append compute the specified option list; the array is untouched when the option was there |
| SpecRewrite.EnsuredMeans | internal/restore/specrewrite.go:297-316 | the wanted option is there, the others keep their order, a second time changes nothing, and it is the sole propagation option exactly when it was missing or already was |
| SpecRewrite.ResolveVolumeDir | internal/restore/specrewrite.go:245-272 | the scan finds the only sibling with the generated name's prefix, or leaves the path alone |
| SpecRewrite.ResolvedSettles | internal/restore/specrewrite.go:245-272 | an existing path is kept; one that is gone gives way to the only entry with its stem, and is kept where there is none or more than one |
| SpecRewrite.ResolveIdempotent | internal/restore/specrewrite.go:245-272 | resolving twice on a fixed tree is resolving once |
| SpecRewrite.NvidiaIff | internal/restore/specrewrite.go:292-295 | the device nodes that must stay private, said of the path |
| SpecRewrite.NoOldPodSource | internal/restore/specrewrite.go:136-161 | with distinct UIDs and a keeper outside the old pod, no rewritten mount reads from the old pod's volumes |
| SpecRewrite.RewriteMounts | internal/restore/specrewrite.go:138-167 | the loop rewrites every mount where it stands, each to what its source and options are to become |
| SpecRewrite.VolumeSource | internal/restore/specrewrite.go:138-162 | a volume of the old pod becomes the same path in the new pod's directory if that exists, else its only sibling there, else stays; a bind mount whose source is gone after that takes the keeper's for its destination, if the keeper has one |
| SpecRewrite.SandboxSource | internal/restore/specrewrite.go:145-162 | a file of a sandbox becomes the same of the new sandbox, with the same last resort |
| SpecRewrite.OtherSource | internal/restore/specrewrite.go:138-162 | any other source stays, with the same last resort; one already in the new pod is only looked for among its siblings |
| SpecRewrite.ScanMounts | internal/restore/bundle.go:90-115 | one extra mount for each place the dump recorded but the root, what the first record there says; no place twice |
| SpecRewrite.AppendExtras | internal/restore/specrewrite.go:176-203 | appended mounts are wanted, new and pairwise distinct, and every wanted one is covered |
| SpecRewrite.RewriteNamespaces | internal/restore/specrewrite.go:84-101 | count and types are kept; network, ipc and uts are the sandbox's, pid and mount are fresh |
| SpecRewrite.RewriteSpec | internal/restore/specrewrite.go:72-208 | the whole rewritten spec: namespaces, cgroup, devices, labels, root, every mount with its source and options, the covered extra mounts; and when it fails |
| SpecRewrite.MountsMean | internal/restore/specrewrite.go:133-203 | the dumped mounts come first, in order, with their destinations and kinds, sources and options as they are to become, and none of them reads from the old pod; then new, distinct bind mounts of what the dump recorded and the host has, outside /proc; every such extra mount is there |
| SpecRewrite.LeavesOldPodIff | internal/restore/specrewrite.go:133-203 | no mount of the whole list reads from the old pod if and only if no wanted extra mount at a new place was recorded with a source there |
| SpecRewrite.BindsOldPod | internal/restore/specrewrite.go:181-203 | for any two pods and any place, a recorded mount of the old pod that still exists is bound into the restored container |
| Shm.CaptureShm | internal/restore/shm.go:50-101 | the first mount at /dev/shm is read; the archive is its regular files that were still there when opened; it fails exactly above the size limit, for a file that vanished before its size was read, or where spec or directory cannot be read |
| Shm.ExtractTar | internal/restore/bundle.go:244-328 | without a failing operation extraction succeeds exactly for a complete archive within the limits, with names that stay inside and nothing in the way, in the target or among the members; it has then written the members over what was there, and a tree stays a tree |
| Shm.TakesIff | internal/restore/bundle.go:244-328 | the condition on the plan is one on the archive: no name leaves the target, the limits hold, no file is in the way of a file or directory |
| Shm.PlanFills | internal/restore/bundle.go:244-328 | a plan carried out has every file at its name with its own bytes, every directory, and no other file touched |
| Shm.ApplyShm | internal/restore/shm.go:133-150 | without a mount at /dev/shm or an archive nothing happens; otherwise the archive goes to the source of the first such mount, file by file, exactly if the target takes it |
| Shm.RoundTripIff | internal/restore/shm.go:50-150 | what was captured can be extracted if and only if no captured name starts with two dots, the count is within the limit, no captured name is a directory of the target and no file lies on the way to it; the target is then overlaid by exactly the captured files |
| Shm.CarryShm | internal/restore/shm.go:50-150 | capture followed by apply, under exactly that condition on the second pod's directory |
| Compatibility.ParseCompatibility | api/v1alpha1/compatibility.go:36-53 | each field is the value of the last entry with its name, whatever spaces are around the name, and empty without one; other entries do not count; a rendered plain tuple comes back |
| Compatibility.TrimSpaceMeans | api/v1alpha1/compatibility.go:38-51 | only spaces are trimmed, from both ends, and none is left there |
| Compatibility.RoundTripIff | api/v1alpha1/compatibility.go:20-53 | the annotation gives back the node-side fields if and only if none holds the separator |
| Compatibility.RenderInjective | api/v1alpha1/compatibility.go:20-22 | rendering is injective on plain fields |
| Compatibility.RenderSeparatesIff | api/v1alpha1/compatibility.go:20-22 | a rendering belongs to one tuple only if and only if no field holds what reads as the start of a later one |
| Compatibility.HashSeparatesIff | api/v1alpha1/compatibility.go:26-32 | the same condition decides whether a hash belongs to one tuple only |
| Compatibility.HashImpliesMatch | api/v1alpha1/compatibility.go:26-32 | a node whose hash is that of such a build can restore it, whatever the node's own fields hold |
| Compatibility.HashCollides | api/v1alpha1/compatibility.go:20-32 | otherwise a build and a node that contradict each other may share a hash, for every choice of the texts around the separator |
| Compatibility.Matches | api/v1alpha1/snapshotbuild_types.go:56-67 | no mismatch exactly when every field agrees or is unrecorded on one side; a mismatch names a real contradiction |
| Compatibility.ContradictsIff | api/v1alpha1/snapshotbuild_types.go:56-67 | there is a mismatch with a parsed annotation if and only if the text's last entry for a recorded field says something else |
| Compatibility.PodUIDRoundTripIff | internal/restore/bundle.go:335-351 | the UID encoded in the container name is recovered, whatever the other parts hold, if and only if it has no underscore |
| Rendezvous.Shim.AnnounceReady | hack/snapshot-shim.py:64-73 | a stale marker goes first and the ready file comes last |
| Rendezvous.Shim.WaitForResume | hack/snapshot-shim.py:76-91 | the loop is left at the first poll that finds the marker, and not before |
| Rendezvous.FindResumeDir | internal/agent/restore_controller.go:509-525 | the restore's own annotation decides alone, then the pod template's, and only without either what the manifest records |
| Rendezvous.ResumeDirIsRecorded | internal/agent/restore_controller.go:509-526 | without an overriding annotation the restore resumes in the cleaned directory recorded at snapshot time, which is the one the shim polls |
| Rendezvous.QuiesceThenResume | hack/snapshot-shim.py:354-379 | whatever a previous life left in the directories but a ready file: a dump catches the shim after its ready file and before it leaves the poll loop, and a restored process leaves it at its next poll |
| Rendezvous.EndToEnd | internal/agent/restore_controller.go:383-400 | the same with the three directories as shim, snapshot and restore compute them |
| Rendezvous.QuiescedIff | hack/snapshot-shim.py:64-73 | every run from given files dumps a quiesced shim if and only if no ready file is among them |

## Left out

- Network and process plumbing: the kubelet, CRI, fuse-client and runc clients, the commands, and the environment tuning of dump and restore.
- The byte formats of JSON, tar and gzip, and sha256: a `Codec` with stated laws stands for them.
- Links inside archives, file modes, permissions, symlink resolution and read-only mounts on extraction.
- Clocks: timeouts and deadlines may expire at any time, and timestamps, messages and conditions other than PreWarmed, TornDown and Quiesced are not kept.
- The 64-bit width of sizes and totals: they are natural numbers here.
- A runc that outlives the agent that started it, and a container that runc restored before its status write was lost.
- Deletion of a snapshot while its dump or upload runs, and the deletion finalizer of snapshots.
- Staleness of the informer cache: a read returns the stored object.
- What fuse-client does behind the mount: pinning, verification through its API, eviction between a check and its use.
- SnapshotBuild and its controller, pod templates, the node prerequisite reporter, and generated code.
- Names are sequences of characters; bytes above 127 and the decoding of multi-byte escapes are not modelled.
- Manifests.NewManifest: the caller's slice is not modelled as sorted in place, and two entries with one name keep their order although the library sort leaves it open.
- ImageSource.FetchOne: the pre-warm's method stages one file after the other; that the pool's workers together come to the same tree is proved in `Staging`, the states in between are not part of `ImageSource.Run`.
- Upload.Upload: the sizes and digests recorded in the status are not carried; a lost final write ends in Failed with the bytes conserved, and completion is not claimed.
- PublishInPlace.PublishDir: an empty directory string has no path here, so that guard is not modelled.
- Shm.ExtractTar: the extractor is modelled for plain files and directories; links and devices are passed over.
