/** The part of a PodSnapshot's status the node agents race for, and the store that keeps it:
    a write is accepted only over the version it was computed from. */
module Snapshots {
  import opened Storage
  import opened Manifests

  datatype Phase = Unset | Pending | Quiescing | Checkpointing | Checkpointed | Uploading | Completed | Failed

  /** What the API server stores; None where the object has been deleted. */
  datatype Object = Object(version: nat, phase: Phase)

  /** The world outside the artifact files: the container, what a dump took from it, and
      the stored object. */
  datatype World = World(alive: bool, dumps: nat, taken: Option<map<Path, Bytes>>, stored: Option<Object>)

  /** b differs from a at most in the stored object. */
  ghost predicate OnlyObject(a: Disk<World>, b: Disk<World>) {
    b == a.(rest := a.rest.(stored := b.rest.stored))
  }

  predicate SaysCompleted(w: World) { w.stored.Some? && w.stored.value.phase == Completed }

  /** Completed is not said in any new state unless it was before, or was to be written. */
  ghost predicate NoNewCompleted(base: Disk<World>, history: seq<Disk<World>>, from: nat, phase: Option<Phase>) {
    forall k | from <= k < |history| && SaysCompleted(history[k].rest) ::
      SaysCompleted(base.rest) || phase == Some(Completed)
  }

  ghost predicate ObjectSteps(base: Disk<World>, history: seq<Disk<World>>, from: nat) {
    forall k | from <= k < |history| :: OnlyObject(base, history[k])
  }

  /** Another writer may get in between a read and the write computed from it. It may write
      any phase but Completed, which only the agent that runs the phase writes. */
  method Interfere(m: Machine<World>)
    requires m.Valid()
    modifies m
    ensures m.Valid() && old(m.history) <= m.history
    ensures OnlyObject(old(m.now), m.now) && ObjectSteps(old(m.now), m.history, |old(m.history)|)
    ensures NoNewCompleted(old(m.now), m.history, |old(m.history)|, None)
    ensures SaysCompleted(m.now.rest) ==> SaysCompleted(old(m.now).rest)
    ensures m.now.rest.stored.Some? ==> old(m.now).rest.stored.Some?
    ensures m.now == old(m.now) || m.now.rest.stored.None?
            || m.now.rest.stored.value.version > old(m.now).rest.stored.value.version
  {
    var o := m.now.rest.stored;
    var writes: bool := *;
    var deletes: bool := *;
    var phase: Phase := *;
    if o.Some? && writes && (phase == Completed ==> o.value.phase == Completed) {
      var next := if deletes then None else Some(Object(o.value.version + 1, phase));
      m.Enter(m.now.(rest := m.now.rest.(stored := next)));
    }
  }

  /** The next version of the very object that was stored before, with the phase set. */
  predicate Rewritten(a: Disk<World>, b: Disk<World>, phase: Option<Phase>) {
    && a.rest.stored.Some? && b.rest.stored.Some?
    && b == a.(rest := a.rest.(stored := b.rest.stored))
    && b.rest.stored.value == Object(a.rest.stored.value.version + 1,
                                     if phase.Some? then phase.value else a.rest.stored.value.phase)
  }

  const RETRIES := 5

  /** writeStatus and complete: re-read, mutate the fresh copy, update, and start again on a
      conflict. A deleted object is nobody left to tell. Where nothing fails the write is lost
      only to that, or to as many writes of others as there are retries. */
  method WriteStatus(m: Machine<World>, phase: Option<Phase>) returns (landed: bool, ok: bool)
    requires m.Valid()
    modifies m
    ensures m.Valid() && old(m.history) <= m.history
    ensures OnlyObject(old(m.now), m.now) && ObjectSteps(old(m.now), m.history, |old(m.history)|)
    ensures NoNewCompleted(old(m.now), m.history, |old(m.history)|, phase)
    ensures landed ==> |m.history| > |old(m.history)| && Rewritten(m.history[|m.history| - 2], m.now, phase)
    ensures !ok ==> !landed
    ensures ok && !landed ==> m.now.rest.stored.None?
    ensures !m.faulty && !landed ==> m.now.rest.stored.None? || |m.history| >= |old(m.history)| + RETRIES
  {
    var tries := 0;
    while tries < RETRIES
      invariant m.Valid() && old(m.history) <= m.history && |m.history| >= |old(m.history)| + tries
      invariant OnlyObject(old(m.now), m.now) && ObjectSteps(old(m.now), m.history, |old(m.history)|)
      invariant NoNewCompleted(old(m.now), m.history, |old(m.history)|, None)
      invariant SaysCompleted(m.now.rest) ==> SaysCompleted(old(m.now).rest)
    {
      var answers: bool := *;
      if m.faulty && !answers { return false, false; }
      if m.now.rest.stored.None? { return false, true; }
      var cur := m.now.rest.stored.value;
      Interfere(m);
      var accepted: bool := *;
      if m.now.rest.stored == Some(cur) {
        if m.faulty && !accepted { return false, false; }
        var next := Object(cur.version + 1, if phase.Some? then phase.value else cur.phase);
        m.Enter(m.now.(rest := m.now.rest.(stored := Some(next))));
        return true, true;
      }
      tries := tries + 1;
    }
    return false, false;
  }

  /** A plain status update computed from the copy cur: whoever wrote in between wins, and
      where nothing fails nobody else does. */
  method UpdateStatus(m: Machine<World>, cur: Object, phase: Option<Phase>) returns (landed: bool)
    requires m.Valid() && m.now.rest.stored == Some(cur)
    modifies m
    ensures m.Valid() && old(m.history) <= m.history
    ensures OnlyObject(old(m.now), m.now) && ObjectSteps(old(m.now), m.history, |old(m.history)|)
    ensures NoNewCompleted(old(m.now), m.history, |old(m.history)|, phase)
    ensures landed ==>
              m.now.rest.stored == Some(Object(cur.version + 1, if phase.Some? then phase.value else cur.phase))
    ensures !m.faulty && !landed ==> m.now.rest.stored != Some(cur)
  {
    Interfere(m);
    var accepted: bool := *;
    if m.now.rest.stored != Some(cur) || (m.faulty && !accepted) { return false; }
    var next := Object(cur.version + 1, if phase.Some? then phase.value else cur.phase);
    m.Enter(m.now.(rest := m.now.rest.(stored := Some(next))));
    landed := true;
  }
}
