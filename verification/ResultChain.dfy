/** The hand-off of multi-read results: the worker pulls every result out of libpq into a
    linked chain, the client polls them out again. Results are numbered; a ledger records the
    results in the order they were pulled from libpq, and what became of them. */
module ResultChain {
  import opened Results

  /** Something that may go wrong in the environment, unless it is calm. */
  method Trouble(calm: bool) returns (b: bool)
    ensures calm ==> !b
  {
    b := *;
    if calm {
      b := false;
    }
  }

  class Node {
    const result: nat
    var next: Node?

    constructor (r: nat)
      ensures result == r && next == null
    {
      result, next := r, null;
    }
  }

  /** What the worker's `select` reports. */
  datatype Event = Readable | Tick | Interrupted | Broken

  /** How one round of the drain loop ends. */
  datatype Round = Again | Finished | Failed

  /** A libpq connection as its caller sees it: the results of the command in progress that have
      not been pulled, and how many of them (the final NULL counts as one) have arrived.
      `traffic` bounds the socket events before the server's answer is complete. A connection
      that is no longer open has no socket. */
  class PgConn {
    var open: bool
    var active: bool
    var queue: seq<nat>
    var arrived: nat
    var traffic: nat

    constructor ()
      ensures open && !active && queue == []
    {
      open, active, queue, arrived, traffic := true, false, [], 0, 0;
    }

    predicate Complete()
      reads this
    {
      arrived > |queue|
    }

    /** `PQisBusy`: `PQgetResult` would block. */
    predicate IsBusy()
      reads this
    {
      active && arrived == 0
    }

    /** The rounds of the drain loop the connection can still cause. */
    ghost function ToPull(): nat
      reads this
    {
      |queue| + if active then 1 else 0
    }

    ghost function ToWait(): nat
      reads this
    {
      traffic + if Complete() then 0 else 1
    }

    /** The server goes away. */
    method Lose()
      modifies `open
      ensures !open
    {
      open := false;
    }

    /** `PQsendQuery`; `answer` is what the server will send. */
    method SendQuery(answer: seq<nat>, events: nat, calm: bool) returns (ok: bool)
      modifies `active, `queue, `arrived, `traffic
      ensures calm && !old(active) ==> ok
      ensures ok ==> active && queue == answer
      ensures !ok ==> active == old(active) && queue == old(queue)
    {
      var rejected := Trouble(calm);
      ok := !rejected && !active;
      if ok {
        active, queue, arrived, traffic := true, answer, 0, events;
      }
    }

    method Select(calm: bool) returns (e: Event)
      requires IsBusy()
      modifies `traffic
      ensures calm ==> !e.Broken?
      ensures (e.Tick? || e.Interrupted?) ==> traffic < old(traffic)
      ensures e.Readable? || e.Broken? ==> traffic == old(traffic)
    {
      var broken := Trouble(calm);
      e := *;
      if e.Broken? && !broken {
        e := Readable;
      }
      if e.Tick? || e.Interrupted? {
        if traffic == 0 {
          e := Readable;
        } else {
          traffic := traffic - 1;
        }
      }
    }

    /** `PQconsumeInput`: part of the answer arrives, and the rest of it when the traffic is over.
        A failure may cost the connection. */
    method ConsumeInput(calm: bool) returns (ok: bool)
      requires IsBusy()
      modifies `traffic, `arrived, `open
      ensures calm ==> ok
      ensures ok ==> ToWait() < old(ToWait())
    {
      var failed := Trouble(calm);
      ok := !failed;
      if ok {
        if traffic == 0 {
          arrived := |queue| + 1;
        } else {
          traffic := traffic - 1;
          arrived := *;
        }
      } else {
        open := *;
      }
    }

    /** `PQgetResult`, called only where it does not block. */
    method GetResult() returns (r: Option<nat>)
      requires !IsBusy()
      modifies `active, `queue, `arrived
      ensures r.None? ==> !active && queue == old(queue) && (old(active) ==> queue == [])
      ensures r.Some? ==> active && old(active) && old(queue) == [r.value] + queue
      ensures old(active) ==> ToPull() < old(ToPull())
      ensures !old(active) ==> r.None?
    {
      if !active {
        return None;
      }
      arrived := arrived - 1;
      if queue == [] {
        active := false;
        r := None;
      } else {
        r := Some(queue[0]);
        queue := queue[1..];
      }
    }

    /** `PQgetResult` where it may block: waits for the next part of the answer first. */
    method GetResultBlocking() returns (r: Option<nat>)
      modifies this
      ensures r.None? ==> !active && queue == old(queue) && (old(active) ==> queue == [])
      ensures r.Some? ==> active && old(active) && old(queue) == [r.value] + queue
      ensures !old(active) ==> r.None?
    {
      if IsBusy() {
        arrived := 1;
      }
      r := GetResult();
    }
  }

  ghost function ResultsOf(nodes: seq<Node>): (rs: seq<nat>)
    ensures |rs| == |nodes| && forall i :: 0 <= i < |rs| ==> rs[i] == nodes[i].result
  {
    seq(|nodes|, i requires 0 <= i < |nodes| => nodes[i].result)
  }

  /** What became of a result: handed to a caller, or cleared with `PQclear`. */
  datatype Fate = Returned | Cleared

  ghost function AllCleared(n: nat): (fates: seq<Fate>)
    ensures |fates| == n && forall i :: 0 <= i < n ==> fates[i] == Cleared
  {
    seq(n, _ => Cleared)
  }

  /** All results that had not met their fate have been cleared, and none is left over. */
  ghost predicate CleansUp(before: seq<Fate>, after: seq<Fate>, pulled: seq<nat>) {
    |before| <= |after| == |pulled| && after == before + AllCleared(|after| - |before|)
  }

  lemma ClearedAgain(before: seq<Fate>, n: nat, after: seq<Fate>, pulled: seq<nat>)
    requires CleansUp(before + AllCleared(n), after, pulled)
    ensures CleansUp(before, after, pulled)
  {
  }

  class Conn {
    const pg: PgConn
    var chainHead: Node?
    var chainTail: Node?

    ghost var nodes: seq<Node>
    ghost var pulled: seq<nat>
    ghost var fates: seq<Fate>

    /** The chain is the list of `nodes`, from the head to the tail. */
    ghost predicate Linked()
      reads `chainHead, `chainTail, `nodes, nodes
    {
      && (nodes == [] ==> chainHead == null && chainTail == null)
      && (nodes != [] ==> chainHead == nodes[0] && chainTail == nodes[|nodes| - 1] && chainTail.next == null)
      && (forall i :: 0 <= i < |nodes| - 1 ==> nodes[i].next == nodes[i + 1])
      && (forall i, j :: 0 <= i < j < |nodes| ==> nodes[i] != nodes[j])
    }

    /** The k-th result pulled has met the k-th fate, which is final; those without a fate yet
        are the chain, in the order they were pulled. */
    ghost predicate Balanced()
      reads `nodes, `pulled, `fates
    {
      |fates| <= |pulled| && Chain() == pulled[|fates|..]
    }

    ghost predicate Valid()
      reads this, nodes
    {
      Linked() && Balanced()
    }

    ghost function Chain(): seq<nat>
      reads `nodes
    {
      ResultsOf(nodes)
    }

    constructor (pg: PgConn)
      ensures Valid() && Chain() == [] && this.pg == pg && pulled == []
    {
      this.pg := pg;
      chainHead, chainTail, nodes := null, null, [];
      pulled, fates := [], [];
    }

    /** Walks the chain from its head, freeing every node; `freed` are the results cleared on the way. */
    method FreeNodes() returns (ghost freed: seq<nat>)
      requires Linked()
      ensures freed == Chain()
    {
      var node := chainHead;
      ghost var i := 0;
      freed := [];
      while node != null
        invariant 0 <= i <= |nodes|
        invariant node == if i < |nodes| then nodes[i] else null
        invariant freed == Chain()[..i]
        decreases |nodes| - i
      {
        var next := node.next;
        assert nodes[i].next == next;
        freed := freed + [node.result];
        node := next;
        i := i + 1;
      }
    }

    method FreeResultChain()
      requires Valid()
      modifies this
      ensures Valid() && nodes == [] && pulled == old(pulled)
      ensures fates == old(fates) + AllCleared(|old(Chain())|)
    {
      ghost var freed := FreeNodes();
      fates := fates + AllCleared(|freed|);
      chainHead := null;
      chainTail := null;
      nodes := [];
    }

    lemma EndsOfTheChain()
      requires Linked()
      ensures chainHead == null <==> Chain() == []
      ensures chainTail != null ==> chainTail in nodes
    {
    }

    /** Appends a result that was just pulled; fails without memory for the node. */
    method ChainAppend(result: nat, memory: bool) returns (ok: bool)
      requires Valid()
      modifies this, chainTail
      ensures ok == memory && Valid() && fates == old(fates)
      ensures if ok
              then chainTail != null && fresh(chainTail) && nodes == old(nodes) + [chainTail] && pulled == old(pulled) + [result]
              else nodes == old(nodes) && pulled == old(pulled)
    {
      if !memory {
        return false;
      }
      var node := new Node(result);
      if chainTail == null {
        chainHead := node;
        chainTail := node;
      } else {
        chainTail.next := node;
        chainTail := node;
      }
      nodes := nodes + [node];
      pulled := pulled + [result];
      assert Chain() == old(Chain()) + [result] == pulled[|fates|..];
      ok := true;
    }

    method PopHead() returns (r: nat)
      requires Valid() && chainHead != null
      modifies this
      ensures Valid() && old(Chain()) == [r] + Chain()
      ensures pulled == old(pulled) && fates == old(fates) + [Returned]
    {
      var node := chainHead;
      r := node.result;
      assert nodes[0].next == if |nodes| > 1 then nodes[1] else null;
      chainHead := node.next;
      if chainHead == null {
        chainTail := null;
      }
      nodes := nodes[1..];
      fates := fates + [Returned];
    }

    /** `poll_result`: the head of the chain, or what libpq still holds. */
    method PollResult() returns (r: Option<nat>)
      requires Valid()
      modifies this, pg
      ensures Valid()
      ensures old(Chain()) != [] ==>
        r.Some? && old(Chain()) == [r.value] + Chain() && pg.active == old(pg.active) && pg.queue == old(pg.queue)
      ensures old(Chain()) == [] ==> Chain() == []
      ensures old(Chain()) == [] && r.Some? ==> old(pg.active) && old(pg.queue) == [r.value] + pg.queue
      ensures old(Chain()) == [] && r.None? ==> !pg.active && (old(pg.active) ==> old(pg.queue) == [])
      ensures fates == old(fates) + if r.Some? then [Returned] else []
      ensures pulled == old(pulled) + if old(Chain()) == [] && r.Some? then [r.value] else []
    {
      EndsOfTheChain();
      if chainHead != null {
        var result := PopHead();
        return Some(result);
      }
      r := pg.GetResultBlocking();
      if r.Some? {
        pulled := pulled + [r.value];
        fates := fates + [Returned];
      }
    }

    /** `pool_release` and the teardown of the connection clear what nobody has polled: then
        every result ever pulled has met its fate. */
    method Release()
      requires Valid()
      modifies this
      ensures Valid() && Chain() == [] && pulled == old(pulled)
      ensures |fates| == |pulled| && fates == old(fates) + AllCleared(|old(Chain())|)
    {
      FreeResultChain();
    }

    /** Appends a pulled result or, without memory for it, clears it and the chain. */
    method Keep(result: nat, memory: bool)
      requires Valid()
      modifies this, chainTail
      ensures Valid() && pulled == old(pulled) + [result]
      ensures if memory
              then chainTail != null && fresh(chainTail) && nodes == old(nodes) + [chainTail] && fates == old(fates)
              else nodes == [] && fates == old(fates) + AllCleared(|old(Chain())|) + [Cleared]
    {
      var appended := ChainAppend(result, memory);
      if !appended {
        FreeResultChain();
        pulled := pulled + [result];
        fates := fates + [Cleared];
      }
    }

    /** Waits for the socket while libpq is busy; false if the deadline, the socket or libpq ends it. */
    method WaitForInput(calm: bool) returns (ok: bool)
      requires pg.IsBusy()
      modifies pg`traffic, pg`arrived, pg`open
      ensures calm ==> ok
      ensures ok ==> pg.ToWait() < old(pg.ToWait())
    {
      var expired := Trouble(calm);
      if expired {
        return false;
      }
      var event := pg.Select(calm);
      ok := !event.Broken?;
      if event.Readable? {
        ok := pg.ConsumeInput(calm);
      }
    }

    /** One round of the drain loop: waits while libpq is busy, else pulls one result without blocking.
        However it ends, every result that left libpq has been pulled; a failed round has cleared all
        of those that had not met their fate. */
    method DrainRound(calm: bool) returns (round: Round)
      requires Valid() && pg.active
      modifies this, chainTail, pg
      ensures calm ==> !round.Failed?
      ensures Valid() && forall n :: n in nodes ==> n in old(nodes) || fresh(n)
      ensures pulled + pg.queue == old(pulled) + old(pg.queue)
      ensures round.Failed? ==> Chain() == [] && CleansUp(old(fates), fates, pulled)
      ensures !round.Failed? ==> fates == old(fates)
      ensures round.Again? ==> pg.active
      ensures round.Again? ==>
        pg.ToPull() < old(pg.ToPull()) || (pg.ToPull() == old(pg.ToPull()) && pg.ToWait() < old(pg.ToWait()))
      ensures round.Finished? ==> !pg.active && pg.queue == [] && pulled == old(pulled)
    {
      hide Linked;
      var shutdown := Trouble(calm);
      var waiting := pg.IsBusy();
      var ok := !shutdown;
      if ok && waiting {
        ok := WaitForInput(calm);
      }
      if !ok {
        FreeResultChain();
        return Failed;
      }
      if waiting {
        return Again;
      }
      var result := pg.GetResult();
      if result.None? {
        return Finished;
      }
      var outOfMemory := Trouble(calm);
      Keep(result.value, !outOfMemory);
      round := if outOfMemory then Failed else Again;
    }

    /** `execute_multi_read`: `answer` is the result sequence the server sends for the joined
        statements, `events` the traffic before all of it is there; `sent` tells whether libpq
        accepted the statements. Shutdown, the deadline, the socket and the memory may each end it in
        any round; in a calm environment it succeeds. A failure empties the chain, with one exception:
        without a socket it returns before it frees what an earlier multi-read has left. */
    method ExecuteMultiRead(answer: seq<nat>, events: nat, calm: bool) returns (ok: bool, ghost sent: bool)
      requires Valid()
      modifies this, nodes, pg
      ensures calm && old(pg.open) && !old(pg.active) ==> ok
      ensures Valid() && forall n :: n in nodes ==> n in old(nodes) || fresh(n)
      ensures ok ==> sent && Chain() == answer && !pg.active && pg.queue == []
      ensures ok ==> fates == old(fates) + AllCleared(|old(Chain())|)
      ensures !ok ==> Chain() == if old(pg.open) then [] else old(Chain())
      ensures !ok ==> (Chain() == [] <==> old(Chain()) == [] || old(pg.open))
      ensures !ok && old(pg.open) ==> CleansUp(old(fates), fates, pulled)
      ensures !old(pg.open) ==> !ok && !sent && fates == old(fates)
      ensures if sent then pulled + pg.queue == old(pulled) + answer else pulled == old(pulled) && pg.queue == old(pg.queue)
    {
      hide Linked;
      if !pg.open {
        return false, false;
      }
      FreeResultChain();
      var accepted := pg.SendQuery(answer, events, calm);
      if !accepted {
        return false, false;
      }
      var unflushed := Trouble(calm);
      if unflushed {
        FreeResultChain();
        return false, true;
      }
      while true
        invariant Valid() && pg.active && pulled + pg.queue == old(pulled) + answer
        invariant fates == old(fates) + AllCleared(|old(Chain())|)
        invariant forall n :: n in nodes ==> fresh(n)
        decreases pg.ToPull(), pg.ToWait()
      {
        EndsOfTheChain();
        var round := DrainRound(calm);
        if round.Failed? {
          ClearedAgain(old(fates), |old(Chain())|, fates, pulled);
          return false, true;
        }
        if round.Finished? {
          assert pulled == pulled + [] == old(pulled) + answer;
          return true, true;
        }
      }
    }

    /** The client's drain: polls until there is nothing left. After a multi-read it gets the
        server's results, each once and in order, and NULL for ever after. */
    method Drain() returns (rs: seq<nat>)
      requires Valid() && !pg.active
      modifies this, pg
      ensures Valid() && Chain() == [] && !pg.active && pulled == old(pulled)
      ensures rs == old(Chain()) && |fates| == |pulled|
    {
      hide Linked;
      rs := [];
      while true
        invariant Valid() && !pg.active && pulled == old(pulled) && rs + Chain() == old(Chain())
        decreases |Chain()|
      {
        var r := PollResult();
        if r.None? {
          return;
        }
        rs := rs + [r.value];
      }
    }
  }

  /** The exception happens: a multi-read whose results are not polled, the server gone, and another
      multi-read. The second one fails, and what the client then polls is a result of the first. */
  method StaleResultIsPolled() returns (ok: bool, r: Option<nat>)
    ensures !ok && r == Some(1)
  {
    var pg := new PgConn();
    var conn := new Conn(pg);
    assert |conn.nodes| == |conn.Chain()| == 0;
    ghost var sent: bool;
    ok, sent := conn.ExecuteMultiRead([1, 2], 0, true);
    forall i | 0 <= i < |conn.nodes| ensures fresh(conn.nodes[i]) {
      assert conn.nodes[i] in conn.nodes;
    }
    pg.Lose();
    ok, sent := conn.ExecuteMultiRead([3], 0, true);
    r := conn.PollResult();
  }
}
