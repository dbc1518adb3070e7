/** The synchronous fast path of a SQLite connection beside its worker: a client may run a
    query on its own thread while it holds `slot_mutex`, the worker runs queries without
    the mutex, and the destroyer closes the handle. Any number of clients take part. */
module SqliteExclusion {
  /** Whoever holds `slot_mutex` between steps. `Syncing(c)` is client c inside
      `sqlite3_*` calls of the fast path; the other holders only test and set fields. */
  datatype Lock = Unlocked | WorkerDeciding | Submitting(c: nat) | SyncTested(c: nat) | Syncing(c: nat)

  datatype Worker = Checking | Asleep | Running | Ran | Posting | Exited

  datatype Destroyer = Idle | FlagSet | Signalled | Joined | HandleClosed

  datatype State = State(filled: bool, shutdown: bool, lock: Lock, worker: Worker, destroyer: Destroyer)

  const INITIAL := State(false, false, Unlocked, Checking, Idle)

  datatype Step =
    | WorkerTest | WorkerSleep | SpuriousWakeup | WorkerRun | WorkerClear | WorkerPost
    | SubmitTest(c: nat) | SubmitCommit
    | SyncTest(c: nat) | SyncBegin | SyncEnd
    | SetFlag | SignalWorker | Join | CloseHandle

  /** A thread that may touch the connection's `sqlite3*` and write `last_result`. */
  datatype Thread = TheWorker | TheClient(c: nat) | TheDestroyer

  function Wake(w: Worker): Worker {
    if w.Asleep? then Checking else w
  }

  predicate Enabled(s: State, step: Step) {
    match step
    case WorkerTest => s.worker.Checking? && s.lock.Unlocked?
    case WorkerSleep => s.lock.WorkerDeciding?
    case SpuriousWakeup => s.worker.Asleep?
    case WorkerRun => s.worker.Running?
    case WorkerClear => s.worker.Ran? && s.lock.Unlocked?
    case WorkerPost => s.worker.Posting?
    case SubmitTest(_) => s.lock.Unlocked?
    case SubmitCommit => s.lock.Submitting?
    case SyncTest(_) => s.lock.Unlocked?
    case SyncBegin => s.lock.SyncTested?
    case SyncEnd => s.lock.Syncing?
    case SetFlag => s.destroyer.Idle?
    case SignalWorker => s.destroyer.FlagSet? && s.lock.Unlocked?
    case Join => s.destroyer.Signalled? && s.worker.Exited?
    case CloseHandle => s.destroyer.Joined?
  }

  function Apply(s: State, step: Step): State
    requires Enabled(s, step)
  {
    match step
    case WorkerTest =>
      if s.filled then s.(worker := Running)
      else if s.shutdown then s.(worker := Exited)
      else s.(lock := WorkerDeciding)
    case WorkerSleep => s.(worker := Asleep, lock := Unlocked)
    case SpuriousWakeup => s.(worker := Checking)
    case WorkerRun => s.(worker := Ran)
    case WorkerClear => s.(filled := false, worker := Posting)
    case WorkerPost => s.(worker := Checking)
    case SubmitTest(c) => if s.filled || s.shutdown then s else s.(lock := Submitting(c))
    case SubmitCommit => s.(filled := true, worker := Wake(s.worker), lock := Unlocked)
    case SyncTest(c) => if s.filled || s.shutdown then s else s.(lock := SyncTested(c))
    case SyncBegin => s.(lock := Syncing(s.lock.c))
    case SyncEnd => s.(lock := Unlocked)
    case SetFlag => s.(shutdown := true, destroyer := FlagSet)
    case SignalWorker => s.(worker := Wake(s.worker), destroyer := Signalled)
    case Join => s.(destroyer := Joined)
    case CloseHandle => s.(destroyer := HandleClosed)
  }

  ghost predicate Next(s: State, s': State) {
    exists step :: Enabled(s, step) && s' == Apply(s, step)
  }

  ghost predicate Behavior(b: seq<State>) {
    && |b| > 0 && b[0] == INITIAL
    && forall i :: 0 <= i < |b| - 1 ==> NextAt(b, i)
  }

  ghost predicate NextAt(b: seq<State>, i: nat)
    requires i + 1 < |b|
  {
    Next(b[i], b[i + 1])
  }

  /** The threads that are inside SQLite on this connection's handle. */
  ghost predicate UsesHandle(s: State, t: Thread) {
    match t
    case TheWorker => s.worker.Running?
    case TheClient(c) => s.lock == Syncing(c)
    case TheDestroyer => s.destroyer.Joined?
  }

  ghost predicate Inv(s: State) {
    && (s.shutdown <==> !s.destroyer.Idle?)
    && (s.worker.Running? || s.worker.Ran? ==> s.filled)
    && (!s.lock.Unlocked? ==> !s.filled && (s.destroyer.Idle? || s.destroyer.FlagSet?))
    && (s.lock.WorkerDeciding? ==> s.worker.Checking?)
    && (s.worker.Asleep? ==> !s.filled && (s.destroyer.Idle? || s.destroyer.FlagSet?))
    && (s.worker.Exited? ==> !s.filled && s.shutdown && !s.lock.Submitting?)
    && (s.destroyer.Joined? || s.destroyer.HandleClosed? ==> s.worker.Exited?)
  }

  lemma InvIsPreserved(s: State, step: Step)
    requires Inv(s) && Enabled(s, step)
    ensures Inv(Apply(s, step))
  {
  }

  lemma {:induction false} InvHolds(b: seq<State>, i: nat)
    requires Behavior(b) && i < |b|
    ensures Inv(b[i])
  {
    if i > 0 {
      InvHolds(b, i - 1);
      assert NextAt(b, i - 1);
      var step :| Enabled(b[i - 1], step) && b[i] == Apply(b[i - 1], step);
      InvIsPreserved(b[i - 1], step);
    }
  }

  /** In every interleaving at most one thread is inside SQLite on the handle: the worker only
      while the slot is filled, a client of the fast path only with the mutex held and the slot
      empty, and the destroyer only when it closes the handle; nobody enters afterwards. */
  lemma HandleIsExclusive(b: seq<State>, i: nat, t: Thread, u: Thread)
    requires Behavior(b) && i < |b| && UsesHandle(b[i], t)
    ensures UsesHandle(b[i], u) ==> t == u
    ensures !b[i].destroyer.HandleClosed?
    ensures t.TheWorker? ==> b[i].filled
    ensures t.TheClient? ==> b[i].lock == Syncing(t.c) && !b[i].filled
  {
    InvHolds(b, i);
  }

  /** The fast path loses no wakeup: whenever a request is in the slot the worker is awake, also
      when it was submitted right after a synchronous query released the mutex. */
  lemma FilledSlotHasAnAwakeWorker(b: seq<State>, i: nat)
    requires Behavior(b) && i < |b| && b[i].filled
    ensures !b[i].worker.Asleep? && !b[i].worker.Exited?
    ensures b[i].lock.Unlocked?
  {
    InvHolds(b, i);
  }

  /** The fast path turns a client away, and the submit likewise, exactly if a request is in the slot or
      shutdown has been asked for; nothing else happens then. */
  lemma RefusedExactlyWhenBusyOrShutDown(s: State, c: nat)
    requires s.lock.Unlocked?
    ensures Apply(s, SyncTest(c)) == if s.filled || s.shutdown then s else s.(lock := SyncTested(c))
    ensures Apply(s, SubmitTest(c)) == if s.filled || s.shutdown then s else s.(lock := Submitting(c))
  {
  }

  /** A worker that finds a request runs it, also after shutdown has been asked for. */
  lemma FilledSlotIsRun(s: State)
    requires s.filled && Enabled(s, WorkerTest)
    ensures UsesHandle(Apply(s, WorkerTest), TheWorker)
  {
  }

  // ----- Every request is run once -----

  /** A run together with the steps that were taken. */
  predicate Execution(b: seq<State>, steps: seq<Step>) {
    && |b| == |steps| + 1 && b[0] == INITIAL
    && forall i :: 0 <= i < |steps| ==> StepAt(b, steps, i)
  }

  predicate StepAt(b: seq<State>, steps: seq<Step>, i: nat)
    requires i < |steps| && i + 1 < |b|
  {
    Enabled(b[i], steps[i]) && b[i + 1] == Apply(b[i], steps[i])
  }

  function Submits(steps: seq<Step>, n: nat): nat
    requires n <= |steps|
  {
    if n == 0 then 0 else Submits(steps, n - 1) + if steps[n - 1].SubmitCommit? then 1 else 0
  }

  function Runs(steps: seq<Step>, n: nat): nat
    requires n <= |steps|
  {
    if n == 0 then 0 else Runs(steps, n - 1) + if steps[n - 1].WorkerRun? then 1 else 0
  }

  function Posts(steps: seq<Step>, n: nat): nat
    requires n <= |steps|
  {
    if n == 0 then 0 else Posts(steps, n - 1) + if steps[n - 1].WorkerPost? then 1 else 0
  }

  /** In every run each accepted request is run once by the worker and posted once: what has been accepted and
      not run is what is in the slot of a worker that has not run it, and what has been run and not posted
      is what the worker has in hand. */
  lemma {:induction false} EachRequestIsRunOnce(b: seq<State>, steps: seq<Step>, n: nat)
    requires Execution(b, steps) && n <= |steps|
    ensures Inv(b[n])
    ensures Submits(steps, n) == Runs(steps, n) + if b[n].filled && !b[n].worker.Ran? then 1 else 0
    ensures Runs(steps, n) == Posts(steps, n) + if b[n].worker.Ran? || b[n].worker.Posting? then 1 else 0
  {
    if n > 0 {
      EachRequestIsRunOnce(b, steps, n - 1);
      assert StepAt(b, steps, n - 1);
      InvIsPreserved(b[n - 1], steps[n - 1]);
    }
  }

  /** Any client can get onto the fast path. */
  lemma FastPathIsReachable(c: nat)
    ensures exists b: seq<State> :: Behavior(b) && UsesHandle(b[|b| - 1], TheClient(c))
  {
    var s1 := Apply(INITIAL, SyncTest(c));
    var s2 := Apply(s1, SyncBegin);
    var b := [INITIAL, s1, s2];
    assert Next(INITIAL, s1) && Next(s1, s2);
    assert NextAt(b, 0) && NextAt(b, 1);
    assert Behavior(b) && UsesHandle(b[|b| - 1], TheClient(c));
  }

  /** The handle can get closed. */
  lemma ClosingIsReachable()
    ensures exists b: seq<State> :: Behavior(b) && b[|b| - 1].destroyer.HandleClosed?
  {
    var s1 := Apply(INITIAL, SetFlag);
    var s2 := Apply(s1, SignalWorker);
    var s3 := Apply(s2, WorkerTest);
    var s4 := Apply(s3, Join);
    var s5 := Apply(s4, CloseHandle);
    assert Next(INITIAL, s1) && Next(s1, s2) && Next(s2, s3) && Next(s3, s4) && Next(s4, s5);
    var b := [INITIAL, s1, s2, s3, s4, s5];
    assert NextAt(b, 0) && NextAt(b, 1) && NextAt(b, 2) && NextAt(b, 3) && NextAt(b, 4);
    assert Behavior(b) && b[|b| - 1].destroyer.HandleClosed?;
  }

  // ----- The fast path without its test of the slot -----

  /** A fast path that locks the mutex and runs at once. */
  ghost predicate NextUntested(s: State, s': State) {
    Next(s, s') || (s.lock.Unlocked? && exists c :: s' == s.(lock := Syncing(c)))
  }

  /** The mutex alone would not do: without the test of `slot_filled` the worker and a client
      get into SQLite together. */
  lemma MutexAloneIsNotEnough()
    ensures exists b: seq<State> ::
      && |b| > 0 && b[0] == INITIAL
      && (forall i, j :: 0 <= i < |b| && 0 <= j < |b| && j == i + 1 ==> NextUntested(b[i], b[j]))
      && UsesHandle(b[|b| - 1], TheWorker) && UsesHandle(b[|b| - 1], TheClient(0))
  {
    var s1 := Apply(INITIAL, SubmitTest(0));
    var s2 := Apply(s1, SubmitCommit);
    var s3 := Apply(s2, WorkerTest);
    var s4 := s3.(lock := Syncing(0));
    assert Next(INITIAL, s1) && Next(s1, s2) && Next(s2, s3);
    var b := [INITIAL, s1, s2, s3, s4];
    assert b[|b| - 1] == s4;
  }
}
