/** The prefetch pool (internal/artifact/prefetch.go): one producer feeds an unbuffered
    channel, N workers take from it, the first failure cancels the rest. Every schedule of
    the goroutines is a sequence of the steps below. */
module Prefetch {
  import opened Manifests

  const DEFAULT_PARALLELISM := 4

  /** The producer: in its select, after it, closing the channel, in wg.Wait, returned. */
  datatype Producer = Selecting | Checking | Closing | Joining | Returned(result: Result)
  datatype Result = Done(total: nat) | Failed(file: nat) | Cancelled

  /** A worker: at the channel, in fetchOne, between its error and fail, between fail and
      cancel, gone. */
  datatype Worker = Idle | Fetching(file: nat) | Failing(file: nat) | Cancelling | Exited

  /** What has become of a file; bytes counts what a fetch moved before it failed. */
  datatype Slot = Unsent | Held(worker: nat) | Fetched | Broken(bytes: nat) | Skipped

  datatype Pool = Pool(producer: Producer, next: nat, closed: bool, workers: seq<Worker>, slots: seq<Slot>,
                       fetches: seq<nat>, total: nat, firstErr: Option<nat>, cancelled: bool, external: bool)

  datatype Step = Hand(w: nat) | NoSend | Check | Close | Succeed(w: nat) | Fail(w: nat, bytes: nat) | Record(w: nat)
                | Cancel(w: nat) | Leave(w: nat) | Return | Interrupt

  function Workers(parallelism: int, files: nat): nat {
    var n := if parallelism <= 0 then DEFAULT_PARALLELISM else parallelism;
    if n > files then files else n
  }

  function Start(parallelism: int, sizes: seq<nat>): Pool {
    Pool(if sizes == [] then Closing else Selecting, 0, false, seq(Workers(parallelism, |sizes|), i => Idle),
         seq(|sizes|, i => Unsent), seq(|sizes|, i => 0), 0, None, false, false)
  }

  predicate At(s: Pool, w: nat) { w < |s.workers| }

  predicate Enabled(sizes: seq<nat>, s: Pool, step: Step) {
    match step
    case Hand(w) => s.producer.Selecting? && s.next < |sizes| && At(s, w) && s.workers[w].Idle?
    case NoSend => s.producer.Selecting? && s.next < |sizes| && s.cancelled
    case Check => s.producer.Checking?
    case Close => s.producer.Closing?
    case Succeed(w) => At(s, w) && s.workers[w].Fetching?
    case Fail(w, bytes) => At(s, w) && s.workers[w].Fetching?
    case Record(w) => At(s, w) && s.workers[w].Failing?
    case Cancel(w) => At(s, w) && s.workers[w].Cancelling?
    case Leave(w) => At(s, w) && s.workers[w].Idle? && s.closed
    case Return => s.producer.Joining? && AllExited(s.workers)
    case Interrupt => !s.producer.Returned? && !s.external
  }

  predicate AllExited(ws: seq<Worker>) { forall w | 0 <= w < |ws| :: ws[w].Exited? }

  function Outcome(s: Pool): Result {
    if s.firstErr.Some? then Failed(s.firstErr.value) else if s.cancelled then Cancelled else Done(s.total)
  }

  function Apply(sizes: seq<nat>, s: Pool, step: Step): Pool
    requires Typed(sizes, s) && Enabled(sizes, s, step)
  {
    match step
    case Hand(w) =>
      s.(producer := Checking, next := s.next + 1, workers := s.workers[w := Fetching(s.next)],
      slots := s.slots[s.next := Held(w)])
    case NoSend => s.(producer := Checking, next := s.next + 1, slots := s.slots[s.next := Skipped])
    case Check => s.(producer := if s.cancelled || s.next == |sizes| then Closing else Selecting)
    case Close => s.(producer := Joining, closed := true)
    case Succeed(w) =>
      var i := s.workers[w].file;
      s.(workers := s.workers[w := Idle], slots := s.slots[i := Fetched], fetches := s.fetches[i := s.fetches[i] + 1],
      total := s.total + sizes[i])
    case Fail(w, bytes) =>
      var i := s.workers[w].file;
      s.(workers := s.workers[w := Failing(i)], slots := s.slots[i := Broken(bytes)], total := s.total + bytes)
    case Record(w) =>
      s.(workers := s.workers[w := Cancelling],
      firstErr := if s.firstErr.None? then Some(s.workers[w].file) else s.firstErr)
    case Cancel(w) => s.(workers := s.workers[w := Exited], cancelled := true)
    case Leave(w) => s.(workers := s.workers[w := Exited])
    case Return => s.(producer := Returned(Outcome(s)))
    case Interrupt => s.(cancelled := true, external := true)
  }

  /** Slots and counts are per file, and a worker that fetches has a file. */
  predicate Typed(sizes: seq<nat>, s: Pool) {
    && |s.slots| == |s.fetches| == |sizes|
    && forall w | 0 <= w < |s.workers| :: s.workers[w].Fetching? ==> s.workers[w].file < |sizes|
  }

  /** The bytes a slot accounts for. */
  function Bytes(size: nat, slot: Slot): nat {
    match slot
    case Fetched => size
    case Broken(n) => n
    case _ => 0
  }

  function Moved(sizes: seq<nat>, slots: seq<Slot>): nat
    requires |sizes| == |slots|
  {
    if sizes == [] then 0
    else Moved(sizes[..|sizes| - 1], slots[..|sizes| - 1]) + Bytes(sizes[|sizes| - 1], slots[|sizes| - 1])
  }

  /** What holds in every state of every schedule. */
  ghost predicate Inv(sizes: seq<nat>, s: Pool) {
    && Typed(sizes, s) && Shape(sizes, s)
    && (forall i | 0 <= i < |sizes| :: SlotOk(s, i) && BrokenOk(s, i))
    && (forall w | 0 <= w < |s.workers| :: WorkerOk(s, w))
    && (s.firstErr.Some? ==> Broke(s, s.firstErr.value))
    && s.total == Moved(sizes, s.slots)
  }

  predicate Broke(s: Pool, i: nat) { i < |s.slots| && s.slots[i].Broken? }

  predicate Shape(sizes: seq<nat>, s: Pool) {
    && s.next <= |sizes|
    && (sizes != [] ==> s.workers != [])
    && (s.external ==> s.cancelled)
    && (s.producer.Selecting? ==> s.next < |sizes|)
    && (s.closed <==> s.producer.Joining? || s.producer.Returned?)
    && (s.closed || s.producer.Closing? ==> s.cancelled || s.next == |sizes|)
    && (s.producer.Returned? ==> AllExited(s.workers) && s.producer.result == Outcome(s))
  }

  predicate SlotOk(s: Pool, i: nat) {
    && i < |s.slots| == |s.fetches|
    && (s.slots[i].Unsent? <==> i >= s.next)
    && s.fetches[i] == (if s.slots[i].Fetched? then 1 else 0)
    && (s.slots[i].Skipped? ==> s.cancelled)
    && (s.slots[i].Held? ==> s.slots[i].worker < |s.workers| && s.workers[s.slots[i].worker] == Fetching(i))
  }

  /** A broken file's error is recorded, or some worker is about to record it. */
  predicate BrokenOk(s: Pool, i: nat) {
    Broke(s, i) ==> s.firstErr.Some? || exists w | 0 <= w < |s.workers| :: s.workers[w] == Failing(i)
  }

  predicate WorkerOk(s: Pool, w: nat)
    requires w < |s.workers|
  {
    match s.workers[w]
    case Idle => true
    case Fetching(i) => i < |s.slots| && s.slots[i] == Held(w)
    case Failing(i) => Broke(s, i)
    case Cancelling => s.firstErr.Some?
    case Exited => s.closed || s.cancelled
  }

  lemma {:induction false} MovedAt(sizes: seq<nat>, slots: seq<Slot>, i: nat, slot: Slot)
    requires |sizes| == |slots| && i < |sizes|
    ensures Moved(sizes, slots[i := slot]) == Moved(sizes, slots) - Bytes(sizes[i], slots[i]) + Bytes(sizes[i], slot)
  {
    var n := |sizes| - 1;
    if i < n {
      MovedAt(sizes[..n], slots[..n], i, slot);
      assert slots[i := slot][..n] == slots[..n][i := slot];
    } else {
      assert slots[i := slot][..n] == slots[..n];
    }
  }

  lemma {:induction false} NothingMoved(sizes: seq<nat>, slots: seq<Slot>)
    requires |sizes| == |slots| && forall i | 0 <= i < |slots| :: slots[i].Unsent?
    ensures Moved(sizes, slots) == 0
  {
    if sizes != [] { NothingMoved(sizes[..|sizes| - 1], slots[..|sizes| - 1]); }
  }

  lemma StartOk(parallelism: int, sizes: seq<nat>)
    ensures Inv(sizes, Start(parallelism, sizes))
  {
    NothingMoved(sizes, Start(parallelism, sizes).slots);
  }

  lemma StepTotal(sizes: seq<nat>, s: Pool, step: Step)
    requires Inv(sizes, s) && Enabled(sizes, s, step)
    ensures |Apply(sizes, s, step).slots| == |sizes|
    ensures Apply(sizes, s, step).total == Moved(sizes, Apply(sizes, s, step).slots)
  {
    match step {
      case Hand(w) => MovedAt(sizes, s.slots, s.next, Held(w)); assert SlotOk(s, s.next);
      case NoSend => MovedAt(sizes, s.slots, s.next, Skipped); assert SlotOk(s, s.next);
      case Succeed(w) => assert WorkerOk(s, w); MovedAt(sizes, s.slots, s.workers[w].file, Fetched);
      case Fail(w, bytes) => assert WorkerOk(s, w); MovedAt(sizes, s.slots, s.workers[w].file, Broken(bytes));
      case _ =>
    }
  }

  lemma StepSlots(sizes: seq<nat>, s: Pool, step: Step, i: nat)
    requires Inv(sizes, s) && Enabled(sizes, s, step) && i < |sizes|
    ensures SlotOk(Apply(sizes, s, step), i)
  {
    assert SlotOk(s, i);
    if step.Hand? || step.NoSend? {
      SentSlots(sizes, s, step, i);
    } else if step.Succeed? || step.Fail? {
      DoneSlots(sizes, s, step, i);
    } else if step.Record? || step.Cancel? {
      assert WorkerOk(s, step.w);
    }
  }

  lemma SentSlots(sizes: seq<nat>, s: Pool, step: Step, i: nat)
    requires Inv(sizes, s) && Enabled(sizes, s, step) && i < |sizes| && (step.Hand? || step.NoSend?)
    ensures SlotOk(Apply(sizes, s, step), i)
  {
    assert SlotOk(s, i) && SlotOk(s, s.next);
  }

  lemma DoneSlots(sizes: seq<nat>, s: Pool, step: Step, i: nat)
    requires Inv(sizes, s) && Enabled(sizes, s, step) && i < |sizes| && (step.Succeed? || step.Fail?)
    ensures SlotOk(Apply(sizes, s, step), i)
  {
    assert SlotOk(s, i) && WorkerOk(s, step.w) && SlotOk(s, s.workers[step.w].file);
  }

  lemma StepBroken(sizes: seq<nat>, s: Pool, step: Step, i: nat)
    requires Inv(sizes, s) && Enabled(sizes, s, step) && i < |sizes|
    ensures BrokenOk(Apply(sizes, s, step), i)
  {
    var t := Apply(sizes, s, step);
    assert SlotOk(s, i) && BrokenOk(s, i);
    if step.Fail? && s.workers[step.w].file == i {
      assert t.workers[step.w] == Failing(i);
    } else if Broke(s, i) && s.firstErr.None? && t.firstErr.None? {
      var v :| 0 <= v < |s.workers| && s.workers[v] == Failing(i);
      assert t.workers[v] == Failing(i);
    }
  }

  lemma StepWorkers(sizes: seq<nat>, s: Pool, step: Step, v: nat)
    requires Inv(sizes, s) && Enabled(sizes, s, step) && v < |s.workers|
    ensures var t := Apply(sizes, s, step); |t.workers| == |s.workers| && WorkerOk(t, v)
  {
    assert WorkerOk(s, v);
    if step.Hand? || step.NoSend? {
      assert SlotOk(s, s.next);
    } else if step.Succeed? || step.Fail? {
      FetchEnds(sizes, s, step, v);
    } else if step.Record? || step.Cancel? {
      assert WorkerOk(s, step.w);
    }
  }

  lemma FetchEnds(sizes: seq<nat>, s: Pool, step: Step, v: nat)
    requires Inv(sizes, s) && Enabled(sizes, s, step) && v < |s.workers| && (step.Succeed? || step.Fail?)
    ensures var t := Apply(sizes, s, step); |t.workers| == |s.workers| && WorkerOk(t, v)
  {
    assert WorkerOk(s, v) && WorkerOk(s, step.w);
    OtherSlot(s, step.w, v);
  }

  /** Two workers never hold the same file. */
  lemma OtherSlot(s: Pool, w: nat, v: nat)
    requires w < |s.workers| && v < |s.workers| && WorkerOk(s, w) && WorkerOk(s, v) && s.workers[w].Fetching?
    ensures v != w && s.workers[v].Fetching? ==> s.workers[v].file != s.workers[w].file
    ensures s.workers[v].Failing? ==> s.workers[v].file != s.workers[w].file
  {
  }

  /** Every step keeps the invariant, and the first error, once set, is never changed. */
  lemma StepKeeps(sizes: seq<nat>, s: Pool, step: Step)
    requires Inv(sizes, s) && Enabled(sizes, s, step)
    ensures Inv(sizes, Apply(sizes, s, step))
    ensures s.firstErr.Some? ==> Apply(sizes, s, step).firstErr == s.firstErr
    ensures s.cancelled ==> Apply(sizes, s, step).cancelled
    ensures |Apply(sizes, s, step).workers| == |s.workers|
  {
    var t := Apply(sizes, s, step);
    StepTotal(sizes, s, step);
    forall i | 0 <= i < |sizes| ensures |t.slots| == |t.fetches| == |sizes| && SlotOk(t, i) && BrokenOk(t, i) {
      StepSlots(sizes, s, step, i);
      StepBroken(sizes, s, step, i);
    }
    forall v | 0 <= v < |s.workers| ensures |t.workers| == |s.workers| && WorkerOk(t, v) {
      StepWorkers(sizes, s, step, v);
    }
    StepShape(sizes, s, step);
    StepFirstErr(sizes, s, step);
  }

  lemma StepShape(sizes: seq<nat>, s: Pool, step: Step)
    requires Inv(sizes, s) && Enabled(sizes, s, step)
    ensures Shape(sizes, Apply(sizes, s, step)) && Typed(sizes, Apply(sizes, s, step))
  {
  }

  /** The recorded error is that of a broken file. */
  lemma StepFirstErr(sizes: seq<nat>, s: Pool, step: Step)
    requires Inv(sizes, s) && Enabled(sizes, s, step)
    ensures var t := Apply(sizes, s, step); t.firstErr.Some? ==> Broke(t, t.firstErr.value)
  {
    if step.Hand? || step.NoSend? {
      assert SlotOk(s, s.next);
    } else if OfWorker(step) {
      assert WorkerOk(s, step.w);
    }
  }

  // ----- progress -----

  function Weight(w: Worker): nat {
    match w
    case Idle => 1
    case Fetching(_) => 4
    case Failing(_) => 3
    case Cancelling => 2
    case Exited => 0
  }

  function Weights(ws: seq<Worker>): nat {
    if ws == [] then 0 else Weights(ws[..|ws| - 1]) + Weight(ws[|ws| - 1])
  }

  lemma {:induction false} WeightsAt(ws: seq<Worker>, w: nat, to: Worker)
    requires w < |ws|
    ensures Weights(ws[w := to]) == Weights(ws) - Weight(ws[w]) + Weight(to)
  {
    var n := |ws| - 1;
    if w < n {
      WeightsAt(ws[..n], w, to);
      assert ws[w := to][..n] == ws[..n][w := to];
    } else {
      assert ws[w := to][..n] == ws[..n];
    }
  }

  function Ahead(sizes: seq<nat>, s: Pool): nat
    requires s.next <= |sizes|
  {
    match s.producer
    case Selecting => 2 * (|sizes| - s.next) + 3
    case Checking => 2 * (|sizes| - s.next) + 4
    case Closing => 2
    case Joining => 1
    case Returned(_) => 0
  }

  /** What is left to do, in every schedule. */
  function Measure(sizes: seq<nat>, s: Pool): nat
    requires s.next <= |sizes|
  {
    5 * Ahead(sizes, s) + Weights(s.workers) + if s.external then 0 else 1
  }

  predicate OfWorker(step: Step) { step.Succeed? || step.Fail? || step.Record? || step.Cancel? || step.Leave? }

  predicate OfProducer(step: Step) { step.Hand? || step.NoSend? || step.Check? || step.Close? || step.Return? }

  lemma StepWeights(sizes: seq<nat>, s: Pool, step: Step)
    requires Typed(sizes, s) && Enabled(sizes, s, step)
    ensures OfWorker(step) ==> Weights(Apply(sizes, s, step).workers) < Weights(s.workers)
    ensures step.Hand? ==> Weights(Apply(sizes, s, step).workers) == Weights(s.workers) + 3
    ensures !OfWorker(step) && !step.Hand? ==> Apply(sizes, s, step).workers == s.workers
  {
    match step {
      case Hand(w) => WeightsAt(s.workers, w, Fetching(s.next));
      case Succeed(w) => WeightsAt(s.workers, w, Idle);
      case Fail(w, bytes) => WeightsAt(s.workers, w, Failing(s.workers[w].file));
      case Record(w) => WeightsAt(s.workers, w, Cancelling);
      case Cancel(w) => WeightsAt(s.workers, w, Exited);
      case Leave(w) => WeightsAt(s.workers, w, Exited);
      case _ =>
    }
  }

  lemma StepAhead(sizes: seq<nat>, s: Pool, step: Step)
    requires Typed(sizes, s) && Shape(sizes, s) && Enabled(sizes, s, step)
    ensures var t := Apply(sizes, s, step);
            t.next <= |sizes|
            && (if OfProducer(step) then Ahead(sizes, t) < Ahead(sizes, s) else Ahead(sizes, t) == Ahead(sizes, s))
  {
  }

  lemma StepDescends(sizes: seq<nat>, s: Pool, step: Step)
    requires Inv(sizes, s) && Enabled(sizes, s, step)
    ensures Apply(sizes, s, step).next <= |sizes|
    ensures Measure(sizes, Apply(sizes, s, step)) < Measure(sizes, s)
  {
    StepWeights(sizes, s, step);
    StepAhead(sizes, s, step);
  }

  /** The first worker that has not left, if there is one. */
  function Present(ws: seq<Worker>): (w: nat)
    ensures w <= |ws| && (w < |ws| ==> !ws[w].Exited?)
    ensures w == |ws| <==> AllExited(ws)
  {
    if ws == [] then 0
    else if !ws[0].Exited? then 0
    else
      var w := Present(ws[1..]);
      assert AllExited(ws[1..]) <==> AllExited(ws) by { assert forall v | 0 < v < |ws| :: ws[v] == ws[1..][v - 1]; }
      w + 1
  }

  /** The pool never deadlocks: until it returns, some goroutine can move, and it need not
      be the caller's cancel. */
  function Progress(sizes: seq<nat>, s: Pool): (step: Step)
    requires Inv(sizes, s) && !s.producer.Returned?
    ensures Enabled(sizes, s, step) && !step.Interrupt?
  {
    var w := Present(s.workers);
    if s.producer.Checking? then Check
    else if s.producer.Closing? then Close
    else if w == |s.workers| then
      if s.producer.Joining? then Return
      else
        assert WorkerOk(s, 0);
        NoSend
    else match s.workers[w]
         case Idle => if s.producer.Selecting? then Hand(w) else Leave(w)
         case Fetching(_) => Succeed(w)
         case Failing(_) => Record(w)
         case Cancelling => Cancel(w)
  }

  /** One step after the other, in any schedule. */
  ghost predicate Schedule(sizes: seq<nat>, history: seq<Pool>) {
    && history != [] && Inv(sizes, history[0])
    && forall k | 0 < k < |history| :: MovesAt(sizes, history, k)
  }

  ghost predicate MovesAt(sizes: seq<nat>, history: seq<Pool>, k: nat)
    requires 0 < k < |history|
  {
    Moves(sizes, history[k - 1], history[k])
  }

  ghost predicate Moves(sizes: seq<nat>, a: Pool, b: Pool) {
    Typed(sizes, a) && exists step :: Enabled(sizes, a, step) && b == Apply(sizes, a, step)
  }

  /** How many files have been handed out or passed over, or still will be once cancelled. */
  function Reach(s: Pool): nat { s.next + if s.producer.Selecting? then 1 else 0 }

  lemma StepReaches(sizes: seq<nat>, s: Pool, step: Step)
    requires Inv(sizes, s) && Enabled(sizes, s, step)
    ensures s.cancelled ==> Reach(Apply(sizes, s, step)) <= Reach(s)
  {
  }

  lemma MovesKeep(sizes: seq<nat>, a: Pool, b: Pool)
    requires Inv(sizes, a) && Moves(sizes, a, b)
    ensures Inv(sizes, b)
    ensures a.cancelled ==> b.cancelled && Reach(b) <= Reach(a)
  {
    var step :| Enabled(sizes, a, step) && b == Apply(sizes, a, step);
    StepKeeps(sizes, a, step);
    StepReaches(sizes, a, step);
  }

  /** Cancelling stops the pool: whatever comes after it, at most the one file the producer is
      already offering is still handed out. */
  lemma {:induction false} CancelStops(sizes: seq<nat>, history: seq<Pool>, i: nat, j: nat)
    requires Schedule(sizes, history) && i <= j < |history|
    ensures Inv(sizes, history[j])
    ensures history[i].cancelled ==>
              history[j].cancelled && Reach(history[j]) <= Reach(history[i]) <= history[i].next + 1
    decreases j
  {
    if j > 0 {
      CancelStops(sizes, history, if i < j then i else j - 1, j - 1);
      assert MovesAt(sizes, history, j);
      MovesKeep(sizes, history[j - 1], history[j]);
    }
  }

  function Sum(sizes: seq<nat>): nat {
    if sizes == [] then 0 else Sum(sizes[..|sizes| - 1]) + sizes[|sizes| - 1]
  }

  lemma {:induction false} AllFetched(sizes: seq<nat>, slots: seq<Slot>)
    requires |sizes| == |slots| && forall i | 0 <= i < |slots| :: slots[i].Fetched?
    ensures Moved(sizes, slots) == Sum(sizes)
  {
    if sizes != [] { AllFetched(sizes[..|sizes| - 1], slots[..|sizes| - 1]); }
  }

  /** What a return means: a nil error is returned exactly when nothing failed and nobody
      cancelled, and then every file was fetched exactly once and the total is the sum of
      the listed sizes; a broken file is reported as an error. */
  lemma ReturnMeans(sizes: seq<nat>, s: Pool)
    requires Inv(sizes, s) && s.producer.Returned?
    ensures s.producer.result.Done? <==> !s.cancelled && forall i | 0 <= i < |sizes| :: !s.slots[i].Broken?
    ensures s.producer.result.Done? ==>
              && s.producer.result.total == Sum(sizes)
              && forall i | 0 <= i < |sizes| :: s.slots[i].Fetched? && s.fetches[i] == 1
    ensures s.producer.result.Failed? ==> Broke(s, s.producer.result.file)
    ensures (exists i | 0 <= i < |sizes| :: s.slots[i].Broken?) ==> s.producer.result.Failed?
  {
    forall i | 0 <= i < |sizes| ensures SlotOk(s, i) && !s.slots[i].Held? {}
    if s.producer.result.Done? {
      forall i | 0 <= i < |sizes| ensures s.slots[i].Fetched? { assert SlotOk(s, i); }
      AllFetched(sizes, s.slots);
    }
  }

  /** Prefetch under any scheduler: the pool reaches a return whatever order the goroutines
      run in, whichever fetches fail, and whenever the caller cancels. */
  method Prefetch(sizes: seq<nat>, parallelism: int) returns (s: Pool)
    ensures Inv(sizes, s) && s.producer.Returned?
    ensures s.producer.result.Done? ==>
              s.producer.result.total == Sum(sizes) && forall i | 0 <= i < |sizes| :: s.fetches[i] == 1
    ensures s.external ==> !s.producer.result.Done?
    ensures s.firstErr.Some? ==> s.producer.result == Failed(s.firstErr.value)
    ensures |s.workers| <= |sizes| && |s.workers| <= (if parallelism > 0 then parallelism else 4)
    ensures |s.workers| in {|sizes|, if parallelism > 0 then parallelism else 4}
  {
    StartOk(parallelism, sizes);
    s := Start(parallelism, sizes);
    while !s.producer.Returned?
      invariant Inv(sizes, s) && |s.workers| == Workers(parallelism, |sizes|)
      decreases Measure(sizes, s)
    {
      var step: Step := *;
      if !Enabled(sizes, s, step) {
        step := Progress(sizes, s);
      }
      StepKeeps(sizes, s, step);
      StepDescends(sizes, s, step);
      s := Apply(sizes, s, step);
    }
    ReturnMeans(sizes, s);
  }
}
