/** The mailbox fields of a PostgreSQL connection and the code that runs inside the
    critical sections of `slot_mutex`. Each method is tied to the step of `SlotProtocol`
    that stands for its section. `memory` is the number of allocations that succeed before
    one fails. */
module NativePool {
  import opened Results
  import P = SlotProtocol

  /** The strings of a vector without NULL entries. */
  function Strings(v: seq<Option<string>>): (r: seq<string>)
    requires NoNulls(v)
    ensures |r| == |v| && forall i :: 0 <= i < |v| ==> r[i] == v[i].value
  {
    seq(|v|, i requires 0 <= i < |v| => v[i].value)
  }

  predicate NoNulls(v: seq<Option<string>>) {
    forall i :: 0 <= i < |v| ==> v[i].Some?
  }

  /** One allocation for each entry that is not NULL. */
  function Buffers(v: seq<Option<string>>): (n: nat) {
    if v == [] then 0 else Buffers(v[..|v| - 1]) + if v[|v| - 1].Some? then 1 else 0
  }

  /** The caller's parallel arrays of an Extended Protocol statement; None is a NULL pointer. */
  datatype Params = Params(
    count: int, types: Option<seq<int>>, values: Option<seq<Option<string>>>,
    lengths: Option<seq<int>>, formats: Option<seq<int>>)
  {
    /** Arrays that are present hold `count` entries, and a binary value holds at least the bytes its length announces. */
    predicate Readable() {
      && (types.Some? ==> count <= |types.value|)
      && (values.Some? ==> count <= |values.value|)
      && (lengths.Some? ==> count <= |lengths.value|)
      && (formats.Some? ==> count <= |formats.value|)
      && (Supplied() ==> forall i :: 0 <= i < count && values.value[i].Some? && formats.value[i] != 0 ==>
            lengths.value[i] <= |values.value[i].value|)
    }

    /** No negative length for a binary value: as a size it is one that no allocation can meet. */
    predicate SizedAt(i: nat)
      requires i < count && Supplied()
    {
      values.value[i].Some? && formats.value[i] != 0 ==> lengths.value[i] >= 0
    }

    predicate Sized()
      requires Supplied()
    {
      forall i :: 0 <= i < count ==> SizedAt(i)
    }

    predicate Supplied() {
      values.Some? && lengths.Some? && formats.Some? &&
      count <= |values.value| && count <= |lengths.value| && count <= |formats.value|
    }

    /** What `pool_submit_query_params` allocates besides the statement: four arrays and the value buffers. */
    function Allocations(): nat
      requires count > 0 ==> Supplied()
    {
      if count > 0 then 4 + Buffers(values.value[..count]) else 0
    }
  }

  /** What the slot holds of a parameter is what the caller's arrays say at its index: text whole, of a
      binary value the bytes its length announces, and zero for a missing type. */
  ghost predicate Carries(b: P.Binding, p: Params, i: nat)
    requires i < p.count && p.Readable() && p.Supplied() && p.SizedAt(i)
  {
    && b.length == p.lengths.value[i]
    && b.format == p.formats.value[i]
    && b.oid == (if p.types.Some? then p.types.value[i] else 0)
    && (p.values.value[i].None? ==> b.value == None)
    && (p.values.value[i].Some? && b.format == 0 ==> b.value == p.values.value[i])
    && (p.values.value[i].Some? && b.format != 0 ==>
          b.value.Some? && |b.value.value| == b.length && b.value.value <= p.values.value[i].value)
  }

  /** The parameters hold all that the caller's arrays say, in order. */
  ghost predicate Holds(bindings: seq<P.Binding>, p: Params)
    requires p.Readable() && (p.count > 0 ==> p.Supplied() && p.Sized())
  {
    && (p.count >= 0 ==> |bindings| == p.count)
    && forall i :: 0 <= i < |bindings| && i < p.count ==> Carries(bindings[i], p, i)
  }

  lemma PrefixStep(v: seq<Option<string>>, i: nat)
    requires i < |v|
    ensures Buffers(v[..i + 1]) == Buffers(v[..i]) + if v[i].Some? then 1 else 0
  {
    assert v[..i + 1][..i] == v[..i];
  }

  lemma {:induction false} BuffersGrow(v: seq<Option<string>>, i: nat, j: nat)
    requires i <= j <= |v|
    ensures Buffers(v[..i]) <= Buffers(v[..j])
  {
    if i < j {
      BuffersGrow(v, i, j - 1);
      PrefixStep(v, j - 1);
    }
  }

  /** The copies of the parameters; None if an allocation fails. */
  method CopyParams(p: Params, memory: nat) returns (copied: Option<seq<P.Binding>>)
    requires p.Readable() && p.count > 0 && p.Supplied()
    ensures copied.Some? <==> p.Sized() && memory >= 2 + p.Allocations()
    ensures copied.Some? ==> Holds(copied.value, p)
  {
    var copies: seq<P.Binding> := [];
    var used := 6;
    if memory < used {
      return None;
    }
    for i := 0 to p.count
      invariant |copies| == i
      invariant forall j :: 0 <= j < i ==> p.SizedAt(j) && Carries(copies[j], p, j)
      invariant used == 6 + Buffers(p.values.value[..i]) <= memory
    {
      var value := p.values.value[i];
      PrefixStep(p.values.value, i);
      if value.Some? {
        if p.formats.value[i] != 0 && p.lengths.value[i] < 0 {
          assert !p.SizedAt(i);
          return None;
        }
        used := used + 1;
        if memory < used {
          BuffersGrow(p.values.value, i + 1, p.count);
          return None;
        }
        if p.formats.value[i] != 0 {
          value := Some(value.value[..p.lengths.value[i]]);
        }
      }
      var oid := if p.types.Some? then p.types.value[i] else 0;
      copies := copies + [P.Binding(oid, value, p.lengths.value[i], p.formats.value[i])];
    }
    copied := Some(copies);
  }

  class NativeConn {
    var slotFilled: bool
    var isPipeline: bool
    var isParams: bool
    var isMultiRead: bool
    var sql: seq<string>
    var bindings: seq<P.Binding>
    var resultFormat: int
    var portId: int
    var timeoutMs: int
    var shutdownRequested: bool

    /** The slot as the protocol sees it. */
    ghost function Slot(): P.Slot
      reads this
    {
      P.Slot(slotFilled, isPipeline, isParams, isMultiRead, sql, bindings, resultFormat, portId, timeoutMs)
    }

    constructor InitConn()
      ensures Slot() == P.EMPTY && !shutdownRequested
    {
      slotFilled, isPipeline, isParams, isMultiRead := false, false, false, false;
      sql, bindings, resultFormat := [], [], 0;
      portId, timeoutMs, shutdownRequested := 0, 0, false;
    }

    /** Resets every slot field but `slotFilled`. */
    method FreeSlotPayload()
      modifies this
      ensures Slot() == P.EMPTY.(filled := old(slotFilled)) && shutdownRequested == old(shutdownRequested)
    {
      sql := [];
      isPipeline := false;
      bindings := [];
      isParams := false;
      isMultiRead := false;
      resultFormat := 0;
      portId := 0;
      timeoutMs := 0;
    }

    method SubmitLocked(pipeline: bool, multiRead: bool, queries: Option<seq<Option<string>>>, port: int, timeout: int, memory: nat)
      returns (ok: bool)
      modifies this
      ensures shutdownRequested == old(shutdownRequested)
      ensures ok <==>
        && queries.Some? && |queries.value| > 0 && NoNulls(queries.value)
        && !old(slotFilled) && !shutdownRequested && memory > |queries.value|
      ensures Slot() ==
        if ok then P.FillLocked(old(Slot()), pipeline, multiRead, Strings(queries.value), port, timeout) else old(Slot())
    {
      if queries.None? || |queries.value| == 0 {
        return false;
      }
      if slotFilled || shutdownRequested {
        return false;
      }
      if memory < 1 {
        return false;
      }
      var copies: seq<string> := [];
      for i := 0 to |queries.value|
        invariant |copies| == i < memory
        invariant forall j :: 0 <= j < i ==> queries.value[j] == Some(copies[j])
      {
        if queries.value[i].None? || memory < i + 2 {
          return false;
        }
        copies := copies + [queries.value[i].value];
      }
      assert copies == Strings(queries.value);
      slotFilled := true;
      isPipeline := pipeline;
      isMultiRead := multiRead;
      sql := copies;
      portId := port;
      timeoutMs := timeout;
      ok := true;
    }

    method PoolSubmitQuery(query: Option<string>, port: int, timeout: int, memory: nat) returns (ok: bool)
      modifies this
      ensures shutdownRequested == old(shutdownRequested)
      ensures ok <==> query.Some? && !old(slotFilled) && !shutdownRequested && memory > 1
      ensures ok ==> P.Admissible(P.Request(P.Query(query.value), port, timeout))
      ensures Slot() == if ok then P.Fill(old(Slot()), P.Request(P.Query(query.value), port, timeout)) else old(Slot())
    {
      ok := SubmitLocked(false, false, Some([query]), port, timeout, memory);
      assert [query][0] == query;
      assert ok ==> Strings([query]) == [query.value];
    }

    method PoolSubmitPipeline(queries: Option<seq<Option<string>>>, port: int, timeout: int, memory: nat) returns (ok: bool)
      modifies this
      ensures shutdownRequested == old(shutdownRequested)
      ensures ok <==>
        && queries.Some? && |queries.value| > 0 && NoNulls(queries.value)
        && !old(slotFilled) && !shutdownRequested && memory > |queries.value|
      ensures Slot() ==
        if ok then P.Fill(old(Slot()), P.Request(P.Pipeline(Strings(queries.value)), port, timeout)) else old(Slot())
      ensures ok ==> P.Admissible(P.Request(P.Pipeline(Strings(queries.value)), port, timeout))
    {
      ok := SubmitLocked(true, false, queries, port, timeout, memory);
    }

    method PoolSubmitMultiRead(queries: Option<seq<Option<string>>>, port: int, timeout: int, memory: nat) returns (ok: bool)
      modifies this
      ensures shutdownRequested == old(shutdownRequested)
      ensures ok <==>
        && queries.Some? && |queries.value| > 0 && NoNulls(queries.value)
        && !old(slotFilled) && !shutdownRequested && memory > |queries.value|
      ensures Slot() ==
        if ok then P.Fill(old(Slot()), P.Request(P.MultiRead(Strings(queries.value)), port, timeout)) else old(Slot())
      ensures ok ==> P.Admissible(P.Request(P.MultiRead(Strings(queries.value)), port, timeout))
    {
      ok := SubmitLocked(false, true, queries, port, timeout, memory);
    }

    method PoolSubmitQueryParams(query: Option<string>, p: Params, format: int, port: int, timeout: int, memory: nat)
      returns (ok: bool)
      requires p.Readable()
      modifies this
      ensures shutdownRequested == old(shutdownRequested)
      ensures ok <==>
        && query.Some? && p.count >= 0 && (p.count > 0 ==> p.Supplied() && p.Sized())
        && !old(slotFilled) && !shutdownRequested && memory >= 2 + p.Allocations()
      ensures ok ==> |bindings| == p.count && forall i :: 0 <= i < p.count ==> Carries(bindings[i], p, i)
      ensures Slot() ==
        if ok then P.Fill(old(Slot()), P.Request(P.WithParams(query.value, bindings, format), port, timeout)) else old(Slot())
      ensures ok ==> P.Admissible(P.Request(P.WithParams(query.value, bindings, format), port, timeout))
    {
      hide Carries;
      if query.None? || p.count < 0 || (p.count > 0 && (p.values.None? || p.lengths.None? || p.formats.None?)) {
        return false;
      }
      if slotFilled || shutdownRequested || memory < 2 {
        return false;
      }
      var copies: seq<P.Binding> := [];
      if p.count > 0 {
        var copied := CopyParams(p, memory);
        if copied == None {
          return false;
        }
        copies := copied.value;
      }
      slotFilled := true;
      isPipeline := false;
      isParams := true;
      sql := [query.value];
      bindings := copies;
      resultFormat := format;
      portId := port;
      timeoutMs := timeout;
      ok := true;
    }

    /** The worker's snapshot of the slot and its choice of execution path. */
    method TakeJob() returns (ticket: P.Ticket)
      requires slotFilled && |sql| > 0
      ensures ticket == P.Ticket(portId, P.Dispatch(Slot()))
    {
      var job: P.Job;
      if isParams {
        job := P.RunParams(sql[0], bindings, resultFormat, timeoutMs);
      } else if isMultiRead {
        job := P.RunMultiRead(sql, timeoutMs);
      } else if isPipeline {
        job := P.RunPipeline(sql, timeoutMs);
      } else {
        job := P.RunSingle(sql[0], timeoutMs);
      }
      ticket := P.Ticket(portId, job);
    }

    /** The worker's section after a job. */
    method ClearSlot()
      modifies this
      ensures Slot() == P.EMPTY && shutdownRequested == old(shutdownRequested)
    {
      FreeSlotPayload();
      slotFilled := false;
    }
  }
}
