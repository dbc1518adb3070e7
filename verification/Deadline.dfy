/** The worker's deadline arithmetic: a deadline is a second and a nanosecond, waits are cut into
    slices of whole milliseconds, and C's division truncates towards zero. */
module Deadline {
  import opened Results

  const NS_PER_SEC := 1_000_000_000
  const NS_PER_MS := 1_000_000
  const SHUTDOWN_POLL_MS := 1000

  datatype Timespec = Timespec(sec: int, nsec: int)

  predicate Normalised(t: Timespec) {
    0 <= t.nsec < NS_PER_SEC
  }

  function Ns(t: Timespec): int {
    t.sec * NS_PER_SEC + t.nsec
  }

  function CDiv(a: int, b: int): int
    requires b > 0
  {
    if a >= 0 then a / b else -(-a / b)
  }

  // ----- The three helpers -----

  /** `compute_deadline`: exactly the timeout after now, and normalised. */
  method ComputeDeadline(now: Timespec, timeoutMs: nat) returns (out: Timespec)
    requires Normalised(now)
    ensures Normalised(out) && Ns(out) == Ns(now) + timeoutMs * NS_PER_MS
  {
    out := now;
    out := out.(sec := out.sec + timeoutMs / 1000);
    out := out.(nsec := out.nsec + timeoutMs % 1000 * 1_000_000);
    if out.nsec >= 1_000_000_000 {
      out := Timespec(out.sec + 1, out.nsec - 1_000_000_000);
    }
  }

  function MsUntil(deadline: Timespec, now: Timespec): int {
    (deadline.sec - now.sec) * 1000 + CDiv(deadline.nsec - now.nsec, 1_000_000)
  }

  /** The time left in nanoseconds. */
  function Left(deadline: Timespec, now: Timespec): int {
    Ns(deadline) - Ns(now)
  }

  /** The answer is off by less than a millisecond, on either side: down when the nanoseconds of
      the deadline are the larger, up when they are the smaller. */
  lemma MsUntilIsClose(deadline: Timespec, now: Timespec)
    requires Normalised(deadline) && Normalised(now)
    ensures -NS_PER_MS < MsUntil(deadline, now) * NS_PER_MS - Left(deadline, now) < NS_PER_MS
    ensures if deadline.nsec >= now.nsec then MsUntil(deadline, now) * NS_PER_MS <= Left(deadline, now)
            else MsUntil(deadline, now) * NS_PER_MS >= Left(deadline, now)
  {
  }

  datatype Timeval = Timeval(sec: int, usec: int)

  function Us(tv: Timeval): int {
    tv.sec * 1_000_000 + tv.usec
  }

  /** `next_select_tv`: the next slice, or None once the deadline has expired. */
  method NextSelectTv(deadline: Option<Timespec>, now: Timespec) returns (tv: Option<Timeval>)
    requires Normalised(now) && (deadline.Some? ==> Normalised(deadline.value))
    ensures tv == NextSlice(deadline, now)
  {
    var budgetMs;
    if deadline.Some? {
      budgetMs := MsUntil(deadline.value, now);
      if budgetMs <= 0 {
        return None;
      }
      if budgetMs > SHUTDOWN_POLL_MS {
        budgetMs := SHUTDOWN_POLL_MS;
      }
    } else {
      budgetMs := SHUTDOWN_POLL_MS;
    }
    tv := Some(Timeval(budgetMs / 1000, budgetMs % 1000 * 1000));
  }

  function NextSlice(deadline: Option<Timespec>, now: Timespec): Option<Timeval> {
    if deadline == None then Some(Timeval(1, 0))
    else if MsUntil(deadline.value, now) <= 0 then None
    else if MsUntil(deadline.value, now) >= SHUTDOWN_POLL_MS then Some(Timeval(1, 0))
    else Some(Timeval(0, MsUntil(deadline.value, now) * 1000))
  }

  /** A slice lasts from one to a thousand milliseconds, starts before the deadline, and ends less
      than a millisecond after it; and there is none only with less than a millisecond to go. */
  lemma SlicesRespectTheDeadline(deadline: Option<Timespec>, now: Timespec)
    requires Normalised(now) && (deadline.Some? ==> Normalised(deadline.value))
    ensures NextSlice(deadline, now).Some? ==>
              && 1000 <= Us(NextSlice(deadline, now).value) <= SHUTDOWN_POLL_MS * 1000
              && 0 <= NextSlice(deadline, now).value.usec < 1_000_000
    ensures deadline.Some? && NextSlice(deadline, now).Some? ==>
              && 0 < Left(deadline.value, now)
              && Us(NextSlice(deadline, now).value) * 1000 < Left(deadline.value, now) + NS_PER_MS
    ensures NextSlice(deadline, now) == None ==> deadline.Some? && Left(deadline.value, now) < NS_PER_MS
  {
  }

  // ----- The idle wait -----

  /** At most this many slices fit between a moment and the deadline: one for each whole second,
      one for the rest, and one because the rest may have been rounded down. */
  function MaxTicks(left: int): nat {
    if left <= 0 then 0
    else if left < NS_PER_MS then 1
    else left / NS_PER_SEC + 2
  }

  /** Each slice that runs out brings the bound down. */
  lemma TickBringsTheBoundDown(deadline: Timespec, now: Timespec, later: Timespec)
    requires Normalised(deadline) && Normalised(now) && Normalised(later)
    requires NextSlice(Some(deadline), now).Some?
    requires Ns(later) >= Ns(now) + Us(NextSlice(Some(deadline), now).value) * 1000
    ensures MaxTicks(Left(deadline, later)) < MaxTicks(Left(deadline, now))
  {
  }

  /** The realtime clock, which moves only forward here. */
  class Clock {
    var now: Timespec

    constructor (now: Timespec)
      requires Normalised(now)
      ensures Valid()
    {
      this.now := now;
    }

    ghost predicate Valid()
      reads this
    {
      Normalised(now)
    }

    /** `select` with no descriptor ready: it returns when the slice is over, or some time later. */
    method SelectRunsOut(tv: Timeval)
      requires Valid() && Us(tv) >= 0
      modifies this
      ensures Valid() && Ns(now) >= old(Ns(now)) + Us(tv) * 1000
    {
      var late: int :| late >= 0;
      var ns := Ns(now) + Us(tv) * 1000 + late;
      assert ns == ns / 1_000_000_000 * 1_000_000_000 + ns % 1_000_000_000;
      now := Timespec(ns / 1_000_000_000, ns % 1_000_000_000);
    }
  }

  /** A slice of the wait: when it starts and how long it is to last, in nanoseconds. */
  datatype Slice = Slice(start: int, length: int)

  predicate WithinDeadline(s: Slice, deadline: int) {
    && s.start < deadline
    && NS_PER_MS <= s.length <= SHUTDOWN_POLL_MS * NS_PER_MS
    && s.start + s.length < deadline + NS_PER_MS
  }

  /** The wait loop when nothing ever arrives. Unless a shutdown ends it earlier, it ends by the timeout, less
      than a millisecond early; in any case after at most one idle tick for each second of the timeout
      and two more. */
  method IdleWait(clock: Clock, timeoutMs: nat) returns (shutdown: bool, ticks: nat, ghost slices: seq<Slice>, ghost deadline: int)
    requires clock.Valid() && timeoutMs > 0
    modifies clock
    ensures deadline == old(Ns(clock.now)) + timeoutMs * NS_PER_MS
    ensures !shutdown ==> Ns(clock.now) > deadline - NS_PER_MS
    ensures |slices| == ticks && forall i :: 0 <= i < ticks ==> WithinDeadline(slices[i], deadline)
    ensures ticks <= timeoutMs / 1000 + 2
  {
    var limit := ComputeDeadline(clock.now, timeoutMs);
    deadline := Ns(limit);
    ticks, slices := 0, [];
    ghost var left := Left(limit, clock.now);
    assert MaxTicks(left) <= timeoutMs / 1000 + 2;
    while true
      invariant clock.Valid() && |slices| == ticks
      invariant forall i :: 0 <= i < ticks ==> WithinDeadline(slices[i], deadline)
      invariant ticks + MaxTicks(Left(limit, clock.now)) <= MaxTicks(left)
      decreases MaxTicks(Left(limit, clock.now))
    {
      shutdown := *;
      if shutdown {
        return;
      }
      var tv := NextSelectTv(Some(limit), clock.now);
      SlicesRespectTheDeadline(Some(limit), clock.now);
      if tv == None {
        return;
      }
      slices := slices + [Slice(Ns(clock.now), Us(tv.value) * 1000)];
      ghost var before := clock.now;
      clock.SelectRunsOut(tv.value);
      TickBringsTheBoundDown(limit, before, clock.now);
      ticks := ticks + 1;
    }
  }
}
