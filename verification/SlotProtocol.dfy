/** The mailbox between the clients of one PostgreSQL connection and its worker
    thread, as a state machine over the atomic steps of all the threads involved:
    the submitters, the worker and the thread that destroys the pool.

    A section under `slot_mutex` is one step, except where the unlocked store to
    `shutdown_requested` can fall inside it: there the section is two steps and
    the mutex is held between them. */
module SlotProtocol {
  import opened Results

  /** One bound parameter of an Extended Protocol statement. */
  datatype Binding = Binding(oid: int, value: Option<string>, length: int, format: int)

  /** The call a client makes; one constructor for each submit entry point. */
  datatype Call =
    | Query(sql: string)
    | Pipeline(stmts: seq<string>)
    | MultiRead(stmts: seq<string>)
    | WithParams(sql: string, bindings: seq<Binding>, resultFormat: int)

  datatype Request = Request(call: Call, port: int, timeout: int)

  /** The slot fields of the connection. */
  datatype Slot = Slot(
    filled: bool, isPipeline: bool, isParams: bool, isMultiRead: bool,
    sql: seq<string>, bindings: seq<Binding>, resultFormat: int, port: int, timeout: int)

  const EMPTY := Slot(false, false, false, false, [], [], 0, 0, 0)

  /** One run of one of the worker's execution paths. */
  datatype Job =
    | RunSingle(sql: string, timeout: int)
    | RunPipeline(stmts: seq<string>, timeout: int)
    | RunMultiRead(stmts: seq<string>, timeout: int)
    | RunParams(sql: string, bindings: seq<Binding>, resultFormat: int, timeout: int)

  /** A job together with the port its outcome is posted to. */
  datatype Ticket = Ticket(port: int, job: Job)

  datatype Note = Note(ticket: Ticket, status: int)

  /** Requests the entry points do not reject before looking at the slot. */
  predicate Admissible(r: Request) {
    match r.call
    case Pipeline(stmts) => |stmts| > 0
    case MultiRead(stmts) => |stmts| > 0
    case _ => true
  }

  /** The fields `submit_locked` writes; it leaves the parameter fields alone. */
  function FillLocked(s: Slot, isPipeline: bool, isMultiRead: bool, sql: seq<string>, port: int, timeout: int): Slot {
    s.(filled := true, isPipeline := isPipeline, isMultiRead := isMultiRead, sql := sql, port := port, timeout := timeout)
  }

  /** The fields `pool_submit_query_params` writes; it leaves `is_multi_read` alone. */
  function FillParams(s: Slot, sql: string, bindings: seq<Binding>, resultFormat: int, port: int, timeout: int): Slot {
    s.(filled := true, isPipeline := false, isParams := true, sql := [sql], bindings := bindings,
       resultFormat := resultFormat, port := port, timeout := timeout)
  }

  function Fill(s: Slot, r: Request): Slot {
    match r.call
    case Query(sql) => FillLocked(s, false, false, [sql], r.port, r.timeout)
    case Pipeline(stmts) => FillLocked(s, true, false, stmts, r.port, r.timeout)
    case MultiRead(stmts) => FillLocked(s, false, true, stmts, r.port, r.timeout)
    case WithParams(sql, bindings, fmt) => FillParams(s, sql, bindings, fmt, r.port, r.timeout)
  }

  /** The worker's choice of execution path, from the mode flags it finds. */
  function Dispatch(s: Slot): Job
    requires |s.sql| > 0
  {
    if s.isParams then RunParams(s.sql[0], s.bindings, s.resultFormat, s.timeout)
    else if s.isMultiRead then RunMultiRead(s.sql, s.timeout)
    else if s.isPipeline then RunPipeline(s.sql, s.timeout)
    else RunSingle(s.sql[0], s.timeout)
  }

  /** What the client asked for, told by the entry point alone. */
  function Asked(r: Request): Ticket {
    Ticket(r.port,
           match r.call
           case Query(sql) => RunSingle(sql, r.timeout)
           case Pipeline(stmts) => RunPipeline(stmts, r.timeout)
           case MultiRead(stmts) => RunMultiRead(stmts, r.timeout)
           case WithParams(sql, bindings, fmt) => RunParams(sql, bindings, fmt, r.timeout))
  }

  /** Where the worker is.
      Checking: about to lock the mutex and test for work, at the loop head or after a wakeup.
      Deciding: holds the mutex, found no work and no shutdown, has not yet begun to wait.
      Finished: has run the job; the slot is not cleared yet.
      Posting: has cleared the slot; the notification is not sent yet. */
  datatype Worker =
    | Checking | Deciding | Asleep
    | Executing(t: Ticket) | Finished(t: Ticket, status: int) | Posting(t: Ticket, status: int)
    | Exited

  /** Who holds `slot_mutex` between steps. */
  datatype Lock = Unlocked | ByWorker | BySubmitter(r: Request)

  datatype Destroyer = Idle | FlagSet | Signalled | Joined

  /** `accepted` and `posted` record what has happened: the accepted requests and the sent notifications. */
  datatype State = State(
    slot: Slot, shutdown: bool, lock: Lock, worker: Worker, destroyer: Destroyer,
    accepted: seq<Request>, posted: seq<Note>)

  const INITIAL := State(EMPTY, false, Unlocked, Checking, Idle, [], [])

  datatype Step =
    | WorkerTest | WorkerSleep | SpuriousWakeup | WorkerFinish(status: int) | WorkerClear | WorkerPost
    | SubmitTest(r: Request) | SubmitOutOfMemory | SubmitCommit
    | DestroySetFlag | DestroySignal | DestroyJoin

  predicate IsWorkerStep(step: Step) {
    step.WorkerTest? || step.WorkerSleep? || step.WorkerFinish? || step.WorkerClear? || step.WorkerPost?
  }

  /** `pthread_cond_signal` on `slot_cond`; only the worker ever waits on it. */
  function Signal(w: Worker): Worker {
    if w.Asleep? then Checking else w
  }

  predicate Enabled(s: State, step: Step) {
    match step
    case WorkerTest => s.worker.Checking? && s.lock.Unlocked? && (s.slot.filled ==> |s.slot.sql| > 0)
    case WorkerSleep => s.worker.Deciding?
    case SpuriousWakeup => s.worker.Asleep?
    case WorkerFinish(_) => s.worker.Executing?
    case WorkerClear => s.worker.Finished? && s.lock.Unlocked?
    case WorkerPost => s.worker.Posting?
    case SubmitTest(r) => s.lock.Unlocked? && Admissible(r)
    case SubmitOutOfMemory => s.lock.BySubmitter?
    case SubmitCommit => s.lock.BySubmitter?
    case DestroySetFlag => s.destroyer.Idle?
    case DestroySignal => s.destroyer.FlagSet? && s.lock.Unlocked?
    case DestroyJoin => s.destroyer.Signalled? && s.worker.Exited?
  }

  function Apply(s: State, step: Step): State
    requires Enabled(s, step)
  {
    match step
    case WorkerTest =>
      if s.slot.filled then s.(worker := Executing(Ticket(s.slot.port, Dispatch(s.slot))))
      else if s.shutdown then s.(worker := Exited)
      else s.(worker := Deciding, lock := ByWorker)
    case WorkerSleep => s.(worker := Asleep, lock := Unlocked)
    case SpuriousWakeup => s.(worker := Checking)
    case WorkerFinish(status) => s.(worker := Finished(s.worker.t, status))
    case WorkerClear => s.(slot := EMPTY, worker := Posting(s.worker.t, s.worker.status))
    case WorkerPost => s.(posted := s.posted + [Note(s.worker.t, s.worker.status)], worker := Checking)
    case SubmitTest(r) => if s.slot.filled || s.shutdown then s else s.(lock := BySubmitter(r))
    case SubmitOutOfMemory => s.(lock := Unlocked)
    case SubmitCommit =>
      s.(slot := Fill(s.slot, s.lock.r), accepted := s.accepted + [s.lock.r],
         worker := Signal(s.worker), lock := Unlocked)
    case DestroySetFlag => s.(shutdown := true, destroyer := FlagSet)
    case DestroySignal => s.(worker := Signal(s.worker), destroyer := Signalled)
    case DestroyJoin => s.(destroyer := Joined)
  }

  ghost predicate Next(s: State, s': State) {
    exists step :: Enabled(s, step) && s' == Apply(s, step)
  }

  /** A run: any interleaving whatsoever, from the state in which the worker starts. */
  ghost predicate Behavior(b: seq<State>) {
    && |b| > 0
    && b[0] == INITIAL
    && forall i :: 0 <= i < |b| - 1 ==> NextAt(b, i)
  }

  ghost predicate NextAt(b: seq<State>, i: nat)
    requires i + 1 < |b|
  {
    Next(b[i], b[i + 1])
  }

  // ----- What is outstanding -----

  /** The request that a filled slot holds. */
  function InSlot(s: Slot): seq<Ticket> {
    if s.filled && |s.sql| > 0 then [Ticket(s.port, Dispatch(s))] else []
  }

  /** The requests accepted and not yet reported: first the one the worker has taken, whose
      slot stays filled until it has been run, then the one waiting in the slot. */
  function Outstanding(s: State): seq<Ticket> {
    match s.worker
    case Executing(t) => [t]
    case Finished(t, _) => [t]
    case Posting(t, _) => [t] + InSlot(s.slot)
    case _ => InSlot(s.slot)
  }

  function AskedAll(rs: seq<Request>): (ts: seq<Ticket>)
    ensures |ts| == |rs|
    ensures forall i :: 0 <= i < |rs| ==> ts[i] == Asked(rs[i])
  {
    if rs == [] then [] else AskedAll(rs[..|rs| - 1]) + [Asked(rs[|rs| - 1])]
  }

  function TicketsOf(ns: seq<Note>): (ts: seq<Ticket>)
    ensures |ts| == |ns|
    ensures forall i :: 0 <= i < |ns| ==> ts[i] == ns[i].ticket
  {
    if ns == [] then [] else TicketsOf(ns[..|ns| - 1]) + [ns[|ns| - 1].ticket]
  }

  ghost predicate Inv(s: State) {
    ControlInv(s) && Ledger(s)
  }

  ghost predicate Ledger(s: State) {
    AskedAll(s.accepted) == TicketsOf(s.posted) + Outstanding(s)
  }

  ghost predicate ControlInv(s: State) {
    && (s.shutdown <==> !s.destroyer.Idle?)
    && (s.lock.ByWorker? <==> s.worker.Deciding?)
    && (s.lock.BySubmitter? ==> !s.slot.filled && !Closed(s) && Admissible(s.lock.r))
    && (s.worker.Deciding? || s.worker.Asleep? ==> !s.slot.filled && !Closed(s))
    && (!s.slot.filled ==> s.slot == EMPTY)
    && (s.slot.filled ==> |s.accepted| > 0 && s.slot == Fill(EMPTY, s.accepted[|s.accepted| - 1]) && |s.slot.sql| > 0)
    && (s.worker.Executing? || s.worker.Finished? ==> s.slot.filled)
    && (s.worker.Exited? ==> !s.slot.filled && s.shutdown && !s.lock.BySubmitter?)
    && (s.destroyer.Joined? ==> s.worker.Exited?)
  }

  /** The destroyer has gone through the slot's lock. */
  predicate Closed(s: State) {
    s.destroyer.Signalled? || s.destroyer.Joined?
  }

  /** A cleared slot and one submit are enough for the flags to name the right path. */
  lemma FlagsNameTheEntryPoint(r: Request)
    requires Admissible(r)
    ensures var s := Fill(EMPTY, r); |s.sql| > 0 && Ticket(s.port, Dispatch(s)) == Asked(r)
  {
  }

  lemma ControlIsPreserved(s: State, step: Step)
    requires ControlInv(s) && Enabled(s, step)
    ensures ControlInv(Apply(s, step))
  {
  }

  lemma InvIsPreserved(s: State, step: Step)
    requires Inv(s) && Enabled(s, step)
    ensures Inv(Apply(s, step))
  {
    ControlIsPreserved(s, step);
    LedgerIsPreserved(s, step);
  }

  lemma LedgerIsPreserved(s: State, step: Step)
    requires Inv(s) && Enabled(s, step)
    ensures Ledger(Apply(s, step))
  {
    hide ControlInv, Outstanding, AskedAll, TicketsOf;
    if step.SubmitCommit? {
      CommitAddsItsTicket(s);
    } else if step.WorkerPost? {
      PostMovesItsTicket(s);
    } else {
      OthersKeepTheLedger(s, step);
    }
  }

  lemma CommitAddsItsTicket(s: State)
    requires ControlInv(s) && Enabled(s, SubmitCommit)
    ensures var s' := Apply(s, SubmitCommit);
      && AskedAll(s'.accepted) == AskedAll(s.accepted) + [Asked(s.lock.r)]
      && s'.posted == s.posted && Outstanding(s') == Outstanding(s) + [Asked(s.lock.r)]
  {
  }

  lemma PostMovesItsTicket(s: State)
    requires ControlInv(s) && Enabled(s, WorkerPost)
    ensures var s' := Apply(s, WorkerPost);
      && s'.accepted == s.accepted
      && TicketsOf(s'.posted) == TicketsOf(s.posted) + [s.worker.t]
      && Outstanding(s) == [s.worker.t] + Outstanding(s')
  {
  }

  lemma OthersKeepTheLedger(s: State, step: Step)
    requires ControlInv(s) && Enabled(s, step) && !step.SubmitCommit? && !step.WorkerPost?
    ensures var s' := Apply(s, step);
      s'.accepted == s.accepted && s'.posted == s.posted && Outstanding(s') == Outstanding(s)
  {
  }

  lemma {:induction false} InvHolds(b: seq<State>, i: nat)
    requires Behavior(b) && i < |b|
    ensures Inv(b[i])
  {
    if i > 0 {
      InvHolds(b, i - 1);
      assert NextAt(b, i - 1);
      var step :| Enabled(b[i - 1], step) && b[i] == Apply(b[i - 1], step);
      InvIsPreserved(b[i - 1], step);
    }
  }

  // ----- Main results -----

  /** In every state of every run the accepted requests are, in acceptance order, those
      already posted, then the one the worker has in hand, then the one waiting in the slot.
      The k-th notification goes to the port of the k-th accepted request and reports
      a run of the execution path its entry point asked for. */
  lemma EachAcceptedIsPostedOnceInOrder(b: seq<State>, i: nat)
    requires Behavior(b) && i < |b|
    ensures AskedAll(b[i].accepted) == TicketsOf(b[i].posted) + Outstanding(b[i])
    ensures |b[i].posted| <= |b[i].accepted| <= |b[i].posted| + 2
    ensures forall k :: 0 <= k < |b[i].posted| ==> b[i].posted[k].ticket == Asked(b[i].accepted[k])
  {
    InvHolds(b, i);
    var s := b[i];
    forall k | 0 <= k < |s.posted| ensures s.posted[k].ticket == Asked(s.accepted[k]) {
      assert AskedAll(s.accepted)[k] == TicketsOf(s.posted)[k];
    }
  }

  /** No lost wakeup: the worker sleeps only while the slot is empty and no destroyer has
      sent its signal; a destroyer that has set the flag can still send it, and a request in
      the slot of an unfinished worker always leaves the worker, or the holder of the mutex,
      a step to take. */
  lemma NoLostWakeup(b: seq<State>, i: nat)
    requires Behavior(b) && i < |b|
    ensures b[i].worker.Asleep? ==> !b[i].slot.filled && !Closed(b[i])
    ensures b[i].worker.Asleep? && b[i].shutdown && b[i].lock.Unlocked? ==> Enabled(b[i], DestroySignal)
    ensures b[i].slot.filled ==> exists step :: IsWorkerStep(step) && Enabled(b[i], step)
  {
    InvHolds(b, i);
    if b[i].slot.filled {
      var step := EnabledWorkerStep(b[i]);
    }
  }

  lemma EnabledWorkerStep(s: State) returns (step: Step)
    requires Inv(s) && (s.slot.filled || Closed(s)) && !s.worker.Exited?
    ensures IsWorkerStep(step) && Enabled(s, step)
  {
    step := match s.worker
      case Checking => WorkerTest
      case Executing(_) => WorkerFinish(1)
      case Finished(_, _) => WorkerClear
      case _ => WorkerPost;
  }

  /** Shutdown drains: when the worker has exited the slot is empty and every accepted
      request has been posted, and no request is accepted from then on. */
  lemma {:induction false} ExitDrains(b: seq<State>, i: nat, j: nat)
    requires Behavior(b) && i <= j < |b| && b[i].worker.Exited?
    ensures b[j].worker.Exited? && !b[j].slot.filled
    ensures b[j].accepted == b[i].accepted && b[j].posted == b[i].posted
    ensures TicketsOf(b[j].posted) == AskedAll(b[j].accepted)
  {
    if i < j {
      ExitDrains(b, i, j - 1);
      ExitIsFinal(b, j - 1);
    }
    ExitedWorkerIsDone(b, j);
  }

  lemma ExitIsFinal(b: seq<State>, i: nat)
    requires Behavior(b) && i + 1 < |b| && b[i].worker.Exited?
    ensures b[i + 1].worker.Exited? && b[i + 1].accepted == b[i].accepted && b[i + 1].posted == b[i].posted
  {
    InvHolds(b, i);
    assert NextAt(b, i);
    var step :| Enabled(b[i], step) && b[i + 1] == Apply(b[i], step);
  }

  lemma ExitedWorkerIsDone(b: seq<State>, i: nat)
    requires Behavior(b) && i < |b| && b[i].worker.Exited?
    ensures !b[i].slot.filled && TicketsOf(b[i].posted) == AskedAll(b[i].accepted)
  {
    InvHolds(b, i);
    assert Outstanding(b[i]) == [];
  }

  /** The number of worker steps left once the destroyer has passed the slot's lock. */
  function StepsLeft(s: State): nat {
    match s.worker
    case Exited => 0
    case Checking => if s.slot.filled then 5 else 1
    case Executing(_) => 4
    case Finished(_, _) => 3
    case Posting(_, _) => if s.slot.filled then 6 else 2
    case _ => 7
  }

  /** Shutdown is bounded: from the moment the destroyer has passed the slot's lock, the worker
      always has a step to take until it exits, each of its steps brings it closer to the exit,
      and no step of another thread takes it further away. */
  lemma ShutdownIsBounded(b: seq<State>, i: nat, step: Step)
    requires Behavior(b) && i < |b| && Closed(b[i]) && Enabled(b[i], step)
    ensures StepsLeft(b[i]) <= 6
    ensures StepsLeft(b[i]) == 0 || exists w :: IsWorkerStep(w) && Enabled(b[i], w)
    ensures IsWorkerStep(step) ==> StepsLeft(Apply(b[i], step)) < StepsLeft(b[i])
    ensures StepsLeft(Apply(b[i], step)) <= StepsLeft(b[i]) && Apply(b[i], step).accepted == b[i].accepted
    ensures Closed(Apply(b[i], step))
  {
    InvHolds(b, i);
    if !b[i].worker.Exited? {
      var w := EnabledWorkerStep(b[i]);
    }
  }

  /** A client whose notifications have all arrived finds the slot free, so that only
      shutdown (or the lack of memory) can refuse its next request. */
  lemma DrainedClientIsNeverBusy(b: seq<State>, i: nat, r: Request)
    requires Behavior(b) && i < |b| && |b[i].posted| == |b[i].accepted|
    requires Enabled(b[i], SubmitTest(r)) && !b[i].shutdown
    ensures !b[i].slot.filled && Apply(b[i], SubmitTest(r)).lock == BySubmitter(r)
  {
    InvHolds(b, i);
    assert |AskedAll(b[i].accepted)| == |TicketsOf(b[i].posted)| + |Outstanding(b[i])|;
  }

  /** A request is turned away, and nothing else happens, exactly if the slot is filled or shutdown has been
      asked for; else its submitter gets on with it under the lock. */
  lemma RefusedExactlyWhenBusyOrShutDown(s: State, r: Request)
    requires Enabled(s, SubmitTest(r))
    ensures Apply(s, SubmitTest(r)) == s <==> s.slot.filled || s.shutdown
    ensures Apply(s, SubmitTest(r)) != s ==> Apply(s, SubmitTest(r)) == s.(lock := BySubmitter(r))
  {
  }

  /** A pool that is destroyed at once: the whole way of the destroyer can be gone. */
  lemma DestroyIsReachable()
    ensures exists b: seq<State> :: Behavior(b) && b[|b| - 1].destroyer.Joined?
  {
    var s1 := Apply(INITIAL, DestroySetFlag);
    var s2 := Apply(s1, DestroySignal);
    var s3 := Apply(s2, WorkerTest);
    var s4 := Apply(s3, DestroyJoin);
    assert Next(INITIAL, s1) && Next(s1, s2) && Next(s2, s3) && Next(s3, s4);
    var b := [INITIAL, s1, s2, s3, s4];
    assert NextAt(b, 0) && NextAt(b, 1) && NextAt(b, 2) && NextAt(b, 3);
    assert Behavior(b) && b[|b| - 1].destroyer.Joined?;
  }

  // ----- The status that is posted -----

  /** A run together with the steps that were taken. */
  predicate Execution(b: seq<State>, steps: seq<Step>) {
    && |b| == |steps| + 1 && b[0] == INITIAL
    && forall i :: 0 <= i < |steps| ==> StepAt(b, steps, i)
  }

  predicate StepAt(b: seq<State>, steps: seq<Step>, i: nat)
    requires i < |steps| && i + 1 < |b|
  {
    Enabled(b[i], steps[i]) && b[i + 1] == Apply(b[i], steps[i])
  }

  lemma {:induction false} EveryBehaviorHasSteps(b: seq<State>) returns (steps: seq<Step>)
    requires Behavior(b)
    ensures Execution(b, steps)
  {
    if |b| == 1 {
      steps := [];
    } else {
      var n := |b| - 2;
      var earlier := b[..n + 1];
      forall i | 0 <= i < n ensures NextAt(earlier, i) {
        assert NextAt(b, i);
      }
      var before := EveryBehaviorHasSteps(earlier);
      assert NextAt(b, n);
      var step :| Enabled(b[n], step) && b[n + 1] == Apply(b[n], step);
      steps := before + [step];
      forall i | 0 <= i < |steps| ensures StepAt(b, steps, i) {
        assert i < n ==> StepAt(earlier, before, i);
      }
    }
  }

  /** The runs that have ended: the job that was being executed, and the status that its execution path
      returned. */
  function Ended(b: seq<State>, steps: seq<Step>, n: nat): seq<Note>
    requires n <= |steps| < |b|
  {
    if n == 0 then []
    else if steps[n - 1].WorkerFinish? && b[n - 1].worker.Executing?
    then Ended(b, steps, n - 1) + [Note(b[n - 1].worker.t, steps[n - 1].status)]
    else Ended(b, steps, n - 1)
  }

  /** The run that has ended and is not yet posted. */
  function Unposted(w: Worker): seq<Note> {
    match w
    case Finished(t, status) => [Note(t, status)]
    case Posting(t, status) => [Note(t, status)]
    case _ => []
  }

  lemma UnpostedStep(s: State, step: Step)
    requires Enabled(s, step)
    ensures var s' := Apply(s, step);
      s'.posted + Unposted(s'.worker) ==
      s.posted + Unposted(s.worker) + if step.WorkerFinish? then [Note(s.worker.t, step.status)] else []
  {
  }

  /** What is posted is what the runs returned: in every state of every run the notifications are the runs
      that have ended, in order and each with its own status, without the one not yet posted. */
  lemma {:induction false} EachNotificationReportsItsRun(b: seq<State>, steps: seq<Step>, n: nat)
    requires Execution(b, steps) && n <= |steps|
    ensures b[n].posted + Unposted(b[n].worker) == Ended(b, steps, n)
    ensures forall k :: 0 <= k < |b[n].posted| ==>
              k < |Ended(b, steps, n)| && b[n].posted[k] == Ended(b, steps, n)[k]
  {
    if n > 0 {
      EachNotificationReportsItsRun(b, steps, n - 1);
      assert StepAt(b, steps, n - 1);
      UnpostedStep(b[n - 1], steps[n - 1]);
    }
  }

  // ----- The other order of the last two worker steps -----

  /** The worker that posts first and clears the slot afterwards. */
  ghost predicate NextPostFirst(s: State, s': State) {
    || (exists step: Step :: !step.WorkerClear? && !step.WorkerPost? && Enabled(s, step) && s' == Apply(s, step))
    || (s.worker.Finished? &&
        s' == s.(posted := s.posted + [Note(s.worker.t, s.worker.status)], worker := Posting(s.worker.t, s.worker.status)))
    || (s.worker.Posting? && s.lock.Unlocked? && s' == s.(slot := EMPTY, worker := Checking))
  }

  ghost predicate BehaviorPostFirst(b: seq<State>) {
    && |b| > 0
    && b[0] == INITIAL
    && forall i, j :: 0 <= i < |b| && 0 <= j < |b| && j == i + 1 ==> NextPostFirst(b[i], b[j])
  }

  /** Every accepted request has been posted, no shutdown is asked for, and still `r` is refused. */
  predicate RefusedWhenDrained(s: State, r: Request) {
    && |s.accepted| == |s.posted| && !s.shutdown
    && Enabled(s, SubmitTest(r)) && Apply(s, SubmitTest(r)) == s
  }

  lemma OtherStepsAreTheSame(s: State, step: Step)
    requires Enabled(s, step) && !step.WorkerClear? && !step.WorkerPost?
    ensures NextPostFirst(s, Apply(s, step))
  {
  }

  /** Why the slot is cleared before the post: with the other order, some run of a client
      whose notifications have all arrived, with no shutdown, has its next request refused. */
  lemma PostFirstRefusesADrainedClient(r: Request)
    requires Admissible(r)
    ensures exists b: seq<State> ::
      BehaviorPostFirst(b) && RefusedWhenDrained(b[|b| - 1], r)
  {
    hide Fill, Dispatch, Asked, Admissible;
    FlagsNameTheEntryPoint(r);
    FillFills(r);
    var s1 := Apply(INITIAL, SubmitTest(r));
    var s2 := Apply(s1, SubmitCommit);
    var s3 := Apply(s2, WorkerTest);
    var s4 := Apply(s3, WorkerFinish(1));
    var s5 := s4.(posted := [Note(s4.worker.t, 1)], worker := Posting(s4.worker.t, 1));
    OtherStepsAreTheSame(INITIAL, SubmitTest(r));
    OtherStepsAreTheSame(s1, SubmitCommit);
    OtherStepsAreTheSame(s2, WorkerTest);
    OtherStepsAreTheSame(s3, WorkerFinish(1));
    assert NextPostFirst(s4, s5);
    assert RefusedWhenDrained(s5, r);
    hide NextPostFirst, Apply, Enabled, RefusedWhenDrained;
    var b := [INITIAL, s1, s2, s3, s4, s5];
    assert BehaviorPostFirst(b) && RefusedWhenDrained(b[|b| - 1], r);
  }

  lemma FillFills(r: Request)
    ensures Fill(EMPTY, r).filled
  {
  }
}
