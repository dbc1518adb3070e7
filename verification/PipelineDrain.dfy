/** The pipeline path of the worker: it sends n queries and a sync, and pulls n + 1 results by
    count. Between the results of two queries libpq hands out a NULL. */
module PipelineDrain {
  import opened Results
  import R = ResultChain

  /** What `PQgetResult` returns in pipeline mode; `Separator` is the NULL after each query. */
  datatype Item = Completed | Failed | Skipped | Sync | Separator

  datatype TxStatus = NoTransaction | InTransaction | InError

  /** The answer from query i on, when the query `failing` is the first to fail: the server skips
      the ones behind it up to the sync. */
  function AnswerFrom(i: nat, n: nat, failing: Option<nat>): seq<Item>
    requires i <= n
    decreases n - i
  {
    if i == n then [Sync]
    else [OutcomeOf(i, failing), Separator] + AnswerFrom(i + 1, n, failing)
  }

  function OutcomeOf(i: nat, failing: Option<nat>): Item {
    if failing.None? || i < failing.value then Completed else if i == failing.value then Failed else Skipped
  }

  /** The items that are not NULL. */
  function ResultsIn(items: seq<Item>): nat {
    if items == [] then 0 else (if items[0] == Separator then 0 else 1) + ResultsIn(items[1..])
  }

  /** Counting to n + 1 ends exactly behind the sync: the answer has that many results, wherever
      the first failure is, and the last of them is its end. */
  lemma {:induction false} AnswerHasOneResultEach(i: nat, n: nat, failing: Option<nat>)
    requires i <= n
    ensures ResultsIn(AnswerFrom(i, n, failing)) == n - i + 1
    ensures EndsInSync(AnswerFrom(i, n, failing))
    decreases n - i
  {
    if i < n {
      hide ResultsIn;
      AnswerHasOneResultEach(i + 1, n, failing);
      OneQueryMore(OutcomeOf(i, failing), AnswerFrom(i + 1, n, failing));
    } else {
      assert AnswerFrom(i, n, failing)[1..] == [];
    }
  }

  lemma OneQueryMore(outcome: Item, rest: seq<Item>)
    requires outcome != Separator
    ensures ResultsIn([outcome, Separator] + rest) == 1 + ResultsIn(rest)
  {
    var all := [outcome, Separator] + rest;
    assert all[1..] == [Separator] + rest && all[1..][1..] == rest;
  }

  /** The results come in the order of the queries: those before the first failure are complete, and
      those behind it are skipped. */
  lemma {:induction false} EachQueryHasItsOutcome(i: nat, n: nat, failing: Option<nat>, k: nat)
    requires i <= k < n
    ensures var answer := AnswerFrom(i, n, failing); var at := 2 * (k - i);
      && |answer| == 2 * (n - i) + 1 && answer[at + 1] == Separator
      && (failing.None? || k < failing.value ==> answer[at] == Completed)
      && (failing == Some(k) ==> answer[at] == Failed)
      && (failing.Some? && failing.value < k ==> answer[at] == Skipped)
    decreases n - i
  {
    var rest := AnswerFrom(i + 1, n, failing);
    if i < k {
      EachQueryHasItsOutcome(i + 1, n, failing, k);
    } else if i + 1 < n {
      EachQueryHasItsOutcome(i + 1, n, failing, i + 1);
    }
  }

  predicate EndsInSync(items: seq<Item>) {
    items != [] ==> items[|items| - 1] == Sync
  }

  /** With results to come the end is not reached, and without any there is nothing left. */
  lemma {:induction false} NothingBehindTheSync(items: seq<Item>)
    requires EndsInSync(items)
    ensures ResultsIn(items) == 0 <==> items == []
  {
    if items != [] {
      if |items| > 1 {
        assert items[1..][|items[1..]| - 1] == Sync;
      }
      NothingBehindTheSync(items[1..]);
    }
  }

  lemma PullOne(items: seq<Item>)
    requires items != [] && EndsInSync(items)
    ensures EndsInSync(items[1..])
    ensures ResultsIn(items[1..]) == ResultsIn(items) - if items[0] == Separator then 0 else 1
  {
    assert |items| > 1 ==> items[1..][|items[1..]| - 1] == items[|items| - 1];
  }

  /** A connection in pipeline mode: what is still to be pulled, how much of it has arrived, and
      what bounds the socket events until the rest has. */
  class PipeConn {
    var pipelineMode: bool
    var queue: seq<Item>
    var arrived: nat
    var traffic: nat
    var status: TxStatus

    constructor (status: TxStatus)
      ensures !pipelineMode && queue == [] && this.status == status
    {
      pipelineMode, queue, arrived, traffic, this.status := false, [], 0, 0, status;
    }

    predicate IsBusy()
      reads this
    {
      queue != [] && arrived == 0
    }

    ghost function ToWait(): nat
      reads this
    {
      traffic + if arrived >= |queue| then 0 else 1
    }

    /** Enters pipeline mode, sends the queries and the sync and flushes them. Any of these may fail,
        and then some queries may be queued already. */
    method Send(answer: seq<Item>, outcome: TxStatus, events: nat, calm: bool) returns (ok: bool)
      requires !pipelineMode && queue == []
      modifies this
      ensures calm ==> ok
      ensures ok ==> pipelineMode && queue == answer && status == outcome
    {
      var refused := R.Trouble(calm);
      ok := !refused;
      if ok {
        pipelineMode, queue, arrived, traffic, status := true, answer, 0, events, outcome;
      } else {
        pipelineMode := *;
        if pipelineMode {
          queue := *;
        }
      }
    }

    /** `select`, then `PQconsumeInput`; false if the deadline has expired or either fails. */
    method Wait(calm: bool) returns (ok: bool)
      requires IsBusy()
      modifies `arrived, `traffic
      ensures calm ==> ok
      ensures ok ==> ToWait() < old(ToWait())
    {
      var broken := R.Trouble(calm);
      if broken {
        return false;
      }
      if traffic == 0 {
        arrived := |queue|;
      } else {
        traffic := traffic - 1;
        arrived := *;
      }
      ok := true;
    }

    method GetResult() returns (r: Item)
      requires !IsBusy()
      modifies `queue, `arrived
      ensures if old(queue) == [] then r == Separator && queue == [] else old(queue) == [r] + queue
    {
      if queue == [] {
        return Separator;
      }
      r := queue[0];
      queue, arrived := queue[1..], arrived - 1;
    }

    /** `PQexitPipelineMode`, which is refused while results are pending. */
    method ExitPipelineMode()
      modifies `pipelineMode
      ensures pipelineMode == (old(pipelineMode) && queue != [])
    {
      if queue == [] {
        pipelineMode := false;
      }
    }

    /** Sends ROLLBACK if `PQtransactionStatus` reports a failed transaction, which it does only when
        no command is active, and drops the answer, which may be an error. */
    method ForceRollback(calm: bool)
      modifies `status
      ensures status == old(status) || (queue == [] && old(status) == InError && status == NoTransaction)
      ensures calm && queue == [] ==> status != InError
    {
      if queue == [] && status == InError {
        var failed := R.Trouble(calm);
        if !failed {
          status := NoTransaction;
        }
      }
    }
  }

  predicate Fails(n: nat, failing: Option<nat>) {
    failing.Some? && failing.value < n
  }

  /** The transaction status behind the sync. A failed query ends an implicit transaction and spoils an
      open one; a query that succeeds never leaves the transaction failed. */
  predicate CanEndIn(outcome: TxStatus, before: TxStatus, n: nat, failing: Option<nat>) {
    if n == 0 then outcome == before
    else if Fails(n, failing) then outcome != InTransaction
    else outcome != InError
  }

  /** The drain loop: pulls results by count, and never where it would block. */
  method Drain(conn: PipeConn, count: nat, calm: bool) returns (ok: bool, ghost pulled: seq<Item>)
    requires count == ResultsIn(conn.queue) && EndsInSync(conn.queue)
    modifies conn`queue, conn`arrived, conn`traffic
    ensures calm ==> ok
    ensures ok ==> conn.queue == [] && pulled == old(conn.queue)
  {
    hide EndsInSync, ResultsIn;
    pulled := [];
    var remaining := count;
    while remaining > 0
      invariant remaining == ResultsIn(conn.queue) && EndsInSync(conn.queue)
      invariant pulled + conn.queue == old(conn.queue)
      decreases |conn.queue|, conn.ToWait()
    {
      var shutdown := R.Trouble(calm);
      if shutdown {
        return false, pulled;
      }
      if conn.IsBusy() {
        var ready := conn.Wait(calm);
        if !ready {
          return false, pulled;
        }
      } else {
        NothingBehindTheSync(conn.queue);
        PullOne(conn.queue);
        var r := conn.GetResult();
        assert pulled + ([r] + conn.queue) == (pulled + [r]) + conn.queue;
        pulled := pulled + [r];
        if r != Separator {
          remaining := remaining - 1;
        }
      }
    }
    NothingBehindTheSync(conn.queue);
    ok := true;
  }

  /** `execute_pipeline`. The environment may end it in any round; a calm one does not, and then it
      succeeds, whichever query failed. After success the sync has been pulled, nothing is behind it,
      and the connection has left pipeline mode. Unless the ROLLBACK fails, a failed query then leaves
      no transaction at all, and a transaction that is open is one its caller may go on with. */
  method ExecutePipeline(conn: PipeConn, n: nat, failing: Option<nat>, outcome: TxStatus, events: nat, calm: bool)
    returns (ok: bool, ghost pulled: seq<Item>)
    requires !conn.pipelineMode && conn.queue == [] && CanEndIn(outcome, conn.status, n, failing)
    modifies conn
    ensures calm ==> ok
    ensures ok ==> pulled == AnswerFrom(0, n, failing)
    ensures ok ==> conn.queue == [] && !conn.pipelineMode
    ensures ok && calm ==> conn.status == if outcome == InError then NoTransaction else outcome
    ensures ok && calm && Fails(n, failing) ==> conn.status == NoTransaction
    ensures ok && calm && !Fails(n, failing) && n > 0 ==> conn.status == outcome != InError
    ensures ok && calm && n == 0 && old(conn.status) != InError ==> conn.status == old(conn.status)
    ensures ok ==> conn.status == outcome || (outcome == InError && conn.status == NoTransaction)
  {
    hide AnswerFrom, EndsInSync, ResultsIn;
    pulled := [];
    ok := conn.Send(AnswerFrom(0, n, failing), outcome, events, calm);
    if !ok {
      conn.ExitPipelineMode();
      return;
    }
    AnswerHasOneResultEach(0, n, failing);
    ok, pulled := Drain(conn, n + 1, calm);
    conn.ExitPipelineMode();
    conn.ForceRollback(calm);
  }
}
