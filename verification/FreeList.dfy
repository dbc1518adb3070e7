/** The free list of a pool: `in_use` flags under `pool->mutex`, clients that wait on
    `free_cond`, and every interleaving of acquires, releases, wakeups and timeouts. */
module FreeList {
  import opened Results

  /** Where a client is.
      Scanning: in `pool_acquire`, about to lock the mutex for its first scan.
      Waiting: asleep on `free_cond`.
      Woken: woken by a signal or spuriously, about to lock the mutex and scan again. */
  datatype Client = Outside | Scanning | Waiting | Woken | Holding(conn: nat)

  datatype State = State(inUse: seq<bool>, clients: map<nat, Client>, shuttingDown: bool)

  /** `Scan(c, probe)` is one round of the loop of `pool_acquire` under the mutex;
      a non-blocking probe gives up where the others wait. `Release(c, w)` signals the
      waiter `w`, if there is one. */
  datatype Step =
    | Enter(c: nat)
    | Scan(c: nat, probe: bool)
    | Release(c: nat, woken: Option<nat>)
    | SpuriousWakeup(c: nat)
    | Timeout(c: nat)
    | ShutDown

  /** The lowest free index, if there is one. */
  function FirstFree(inUse: seq<bool>): (r: Option<nat>)
    ensures r.None? ==> forall i :: 0 <= i < |inUse| ==> inUse[i]
    ensures r.Some? ==> r.value < |inUse| && !inUse[r.value] && forall i :: 0 <= i < r.value ==> inUse[i]
  {
    FirstFreeFrom(inUse, 0)
  }

  function FirstFreeFrom(inUse: seq<bool>, from: nat): (r: Option<nat>)
    requires from <= |inUse| && forall i :: 0 <= i < from ==> inUse[i]
    ensures r.None? ==> forall i :: 0 <= i < |inUse| ==> inUse[i]
    ensures r.Some? ==> r.value < |inUse| && !inUse[r.value] && forall i :: 0 <= i < r.value ==> inUse[i]
    decreases |inUse| - from
  {
    if from == |inUse| then None
    else if !inUse[from] then Some(from)
    else FirstFreeFrom(inUse, from + 1)
  }

  predicate At(s: State, c: nat, where: Client) {
    c in s.clients && s.clients[c] == where
  }

  predicate Enabled(s: State, step: Step) {
    match step
    case Enter(c) => At(s, c, Outside) && !s.shuttingDown
    case Scan(c, _) => At(s, c, Scanning) || At(s, c, Woken)
    case Release(c, w) =>
      && c in s.clients && s.clients[c].Holding? && s.clients[c].conn < |s.inUse|
      && (if w.Some? then At(s, w.value, Waiting) else forall x | x in s.clients :: !s.clients[x].Waiting?)
    case SpuriousWakeup(c) => At(s, c, Waiting)
    case Timeout(c) => At(s, c, Waiting)
    case ShutDown => true
  }

  function Apply(s: State, step: Step): State
    requires Enabled(s, step)
  {
    match step
    case Enter(c) => s.(clients := s.clients[c := Scanning])
    case Scan(c, probe) =>
      var free := FirstFree(s.inUse);
      if s.shuttingDown then s.(clients := s.clients[c := Outside])
      else if free.Some? then s.(inUse := s.inUse[free.value := true], clients := s.clients[c := Holding(free.value)])
      else s.(clients := s.clients[c := if probe then Outside else Waiting])
    case Release(c, w) =>
      var clients := s.clients[c := Outside];
      s.(inUse := s.inUse[s.clients[c].conn := false],
         clients := if w.Some? then clients[w.value := Woken] else clients)
    case SpuriousWakeup(c) => s.(clients := s.clients[c := Woken])
    case Timeout(c) => s.(clients := s.clients[c := Outside])
    case ShutDown => s.(shuttingDown := true)
  }

  ghost predicate Initial(s: State) {
    && (forall i :: 0 <= i < |s.inUse| ==> !s.inUse[i])
    && (forall c :: c in s.clients ==> s.clients[c] == Outside)
    && !s.shuttingDown
  }

  ghost predicate Next(s: State, s': State) {
    exists step :: Enabled(s, step) && s' == Apply(s, step)
  }

  ghost predicate Behavior(b: seq<State>) {
    && |b| > 0 && Initial(b[0])
    && forall i :: 0 <= i < |b| - 1 ==> NextAt(b, i)
  }

  ghost predicate NextAt(b: seq<State>, i: nat)
    requires i + 1 < |b|
  {
    Next(b[i], b[i + 1])
  }

  // ----- Counting -----

  function Free(inUse: seq<bool>): set<nat> {
    set i | 0 <= i < |inUse| && !inUse[i]
  }

  function Held(s: State): set<nat> {
    set c | c in s.clients && s.clients[c].Holding? :: s.clients[c].conn
  }

  function Holders(s: State): set<nat> {
    set c | c in s.clients && s.clients[c].Holding?
  }

  function WokenClients(s: State): set<nat> {
    set c | c in s.clients && s.clients[c].Woken?
  }

  // ----- Safety: who holds what -----

  ghost predicate Ownership(s: State) {
    HoldersOwnDistinctly(s) && UsedAreHeld(s)
  }

  ghost predicate HoldersOwnDistinctly(s: State) {
    && (forall c :: c in s.clients && s.clients[c].Holding? ==>
          s.clients[c].conn < |s.inUse| && s.inUse[s.clients[c].conn])
    && (forall c, c' :: c in s.clients && c' in s.clients && s.clients[c].Holding? && s.clients[c] == s.clients[c'] ==> c == c')
  }

  ghost predicate UsedAreHeld(s: State) {
    forall i :: 0 <= i < |s.inUse| && s.inUse[i] ==> i in Held(s)
  }

  lemma TakingKeepsHoldersDistinct(s: State, c: nat, probe: bool)
    requires HoldersOwnDistinctly(s) && Enabled(s, Scan(c, probe))
    ensures HoldersOwnDistinctly(Apply(s, Scan(c, probe)))
  {
  }

  lemma ReturningKeepsHoldersDistinct(s: State, c: nat, w: Option<nat>)
    requires HoldersOwnDistinctly(s) && Enabled(s, Release(c, w))
    ensures HoldersOwnDistinctly(Apply(s, Release(c, w)))
  {
  }

  lemma DistinctHoldersArePreserved(s: State, step: Step)
    requires HoldersOwnDistinctly(s) && Enabled(s, step)
    ensures HoldersOwnDistinctly(Apply(s, step)) && |Apply(s, step).inUse| == |s.inUse|
  {
    match step
    case Scan(c, probe) => TakingKeepsHoldersDistinct(s, c, probe);
    case Release(c, w) => ReturningKeepsHoldersDistinct(s, c, w);
    case _ =>
  }

  lemma HeldArePreserved(s: State, step: Step, i: nat)
    requires HoldersOwnDistinctly(s) && UsedAreHeld(s) && Enabled(s, step)
    requires i < |s.inUse| == |Apply(s, step).inUse| && Apply(s, step).inUse[i]
    ensures i in Held(Apply(s, step))
  {
    var s' := Apply(s, step);
    if s.inUse[i] {
      var h :| h in s.clients && s.clients[h].Holding? && s.clients[h].conn == i;
      assert s'.clients[h] == s.clients[h];
    } else {
      assert s'.clients[step.c] == Holding(i);
    }
  }

  lemma OwnershipIsPreserved(s: State, step: Step)
    requires Ownership(s) && Enabled(s, step)
    ensures Ownership(Apply(s, step)) && |Apply(s, step).inUse| == |s.inUse|
  {
    DistinctHoldersArePreserved(s, step);
    forall i | 0 <= i < |s.inUse| && Apply(s, step).inUse[i] ensures i in Held(Apply(s, step)) {
      HeldArePreserved(s, step, i);
    }
  }

  // ----- Progress: a free connection and a sleeping client -----

  /** While a client sleeps, each free connection has a woken client coming for it. */
  ghost predicate Covered(s: State) {
    !s.shuttingDown && (exists c :: c in s.clients && s.clients[c].Waiting?) ==> |Free(s.inUse)| <= |WokenClients(s)|
  }

  lemma CoveredIsPreserved(s: State, step: Step)
    requires Ownership(s) && Covered(s) && Enabled(s, step)
    ensures Covered(Apply(s, step))
  {
    match step
    case Enter(c) => LeavesTheRestAsleep(s, step, c);
    case Timeout(c) => LeavesTheRestAsleep(s, step, c);
    case ShutDown =>
    case Scan(c, probe) => ScanKeepsCover(s, c, probe);
    case SpuriousWakeup(c) =>
      assert WokenClients(Apply(s, step)) == WokenClients(s) + {c};
      assert s.clients[c].Waiting?;
    case Release(c, w) => ReleaseKeepsCover(s, c, w);
  }

  lemma LeavesTheRestAsleep(s: State, step: Step, c: nat)
    requires Enabled(s, step) && (step == Enter(c) || step == Timeout(c))
    ensures WokenClients(Apply(s, step)) == WokenClients(s)
    ensures forall w :: w in s.clients && Apply(s, step).clients[w].Waiting? ==> s.clients[w].Waiting?
  {
  }

  lemma ScanTakesOneWoken(s: State, c: nat, probe: bool)
    requires Enabled(s, Scan(c, probe))
    ensures WokenClients(Apply(s, Scan(c, probe))) == WokenClients(s) - {c}
    ensures forall x :: x in s.clients && x != c ==> Apply(s, Scan(c, probe)).clients[x] == s.clients[x]
  {
  }

  lemma TakingOneFree(inUse: seq<bool>, k: nat)
    requires k < |inUse| && !inUse[k]
    ensures Free(inUse[k := true]) == Free(inUse) - {k} && k in Free(inUse)
  {
  }

  lemma ScanKeepsCover(s: State, c: nat, probe: bool)
    requires Covered(s) && Enabled(s, Scan(c, probe))
    ensures Covered(Apply(s, Scan(c, probe)))
  {
    hide Free, WokenClients, FirstFree;
    var s' := Apply(s, Scan(c, probe));
    var free := FirstFree(s.inUse);
    ScanTakesOneWoken(s, c, probe);
    if free.Some? {
      TakingOneFree(s.inUse, free.value);
      forall x | !s.shuttingDown && x in s'.clients && s'.clients[x].Waiting? ensures s.clients[x].Waiting? {
        assert x != c;
      }
    } else {
      NoneFree(s.inUse);
    }
  }

  lemma NoneFree(inUse: seq<bool>)
    requires forall i :: 0 <= i < |inUse| ==> inUse[i]
    ensures Free(inUse) == {}
  {
  }

  lemma ReleaseKeepsCover(s: State, c: nat, w: Option<nat>)
    requires Ownership(s) && Covered(s) && Enabled(s, Release(c, w))
    ensures Covered(Apply(s, Release(c, w)))
  {
    var s' := Apply(s, Release(c, w));
    if w.Some? {
      assert Free(s'.inUse) == Free(s.inUse) + {s.clients[c].conn};
      assert WokenClients(s') == WokenClients(s) + {w.value};
      assert s.clients[w.value].Waiting?;
    }
  }

  lemma {:induction false} InvariantsHold(b: seq<State>, i: nat)
    requires Behavior(b) && i < |b|
    ensures Ownership(b[i]) && Covered(b[i]) && |b[i].inUse| == |b[0].inUse|
  {
    if i > 0 {
      InvariantsHold(b, i - 1);
      assert NextAt(b, i - 1);
      var step :| Enabled(b[i - 1], step) && b[i] == Apply(b[i - 1], step);
      OwnershipIsPreserved(b[i - 1], step);
      CoveredIsPreserved(b[i - 1], step);
    }
  }

  // ----- Main results -----

  lemma FreeAndHeld(s: State)
    requires Ownership(s)
    ensures forall k :: 0 <= k < |s.inUse| ==> (s.inUse[k] <==> k in Held(s))
    ensures |Free(s.inUse)| + |Held(s)| == |s.inUse|
  {
    assert Free(s.inUse) + Held(s) == Below(|s.inUse|);
    assert Free(s.inUse) !! Held(s);
  }

  /** No two clients ever hold the same connection, a connection in use has a holder, and free
      and held connections always add up to the size of the pool. */
  lemma EachConnectionHasOneOwner(b: seq<State>, i: nat)
    requires Behavior(b) && i < |b|
    ensures forall c, c' :: c in b[i].clients && c' in b[i].clients && c != c' && b[i].clients[c].Holding? ==>
              b[i].clients[c] != b[i].clients[c']
    ensures forall k :: 0 <= k < |b[i].inUse| ==> (b[i].inUse[k] <==> k in Held(b[i]))
    ensures |Free(b[i].inUse)| + |Holders(b[i])| == |b[0].inUse|
  {
    hide Behavior, Free;
    InvariantsHold(b, i);
    FreeAndHeld(b[i]);
    HoldersAndHeld(b[i], Holders(b[i]));
    assert Held(b[i]) == set c | c in Holders(b[i]) :: b[i].clients[c].conn;
  }

  /** How a round of the scan ends: with the lowest free connection if there is one; else a probe gives
      up, and only a client that may block goes to sleep. During shutdown every client gives up. */
  lemma ScanOutcome(s: State, c: nat, probe: bool)
    requires Enabled(s, Scan(c, probe))
    ensures var s' := Apply(s, Scan(c, probe));
      && (s'.clients[c].Holding? <==> !s.shuttingDown && Free(s.inUse) != {})
      && (s'.clients[c].Waiting? <==> !s.shuttingDown && Free(s.inUse) == {} && !probe)
      && (s'.clients[c].Outside? <==> s.shuttingDown || (Free(s.inUse) == {} && probe))
      && (s'.clients[c].Holding? ==>
            && s'.clients[c].conn in Free(s.inUse) && (forall k :: k in Free(s.inUse) ==> s'.clients[c].conn <= k)
            && s' == s.(inUse := s.inUse[s'.clients[c].conn := true], clients := s'.clients))
      && (!s'.clients[c].Holding? ==> s' == s.(clients := s'.clients))
      && s'.clients == s.clients[c := s'.clients[c]]
  {
    var free := FirstFree(s.inUse);
    assert free.Some? ==> free.value in Free(s.inUse);
  }

  /** A release gives its connection back, wakes a sleeper if there is one, and touches nobody else. */
  lemma ReleaseOutcome(s: State, c: nat, w: Option<nat>)
    requires Enabled(s, Release(c, w))
    ensures Apply(s, Release(c, w)).inUse == s.inUse[s.clients[c].conn := false]
    ensures Apply(s, Release(c, w)).clients[c] == Outside
    ensures w.None? ==> forall x :: x in s.clients ==> !s.clients[x].Waiting?
    ensures w.Some? ==> s.clients[w.value].Waiting? && Apply(s, Release(c, w)).clients[w.value] == Woken
    ensures forall x :: x in s.clients && x != c && Some(x) != w ==> Apply(s, Release(c, w)).clients[x] == s.clients[x]
  {
  }

  /** A sleeper may wake without a signal and scan again, or time out and leave, at any time. */
  lemma SleeperMayWakeOrLeave(s: State, c: nat)
    requires At(s, c, Waiting)
    ensures Enabled(s, SpuriousWakeup(c)) && Apply(s, SpuriousWakeup(c)) == s.(clients := s.clients[c := Woken])
    ensures Enabled(Apply(s, SpuriousWakeup(c)), Scan(c, false))
    ensures Enabled(s, Timeout(c)) && Apply(s, Timeout(c)) == s.(clients := s.clients[c := Outside])
  {
  }

  lemma ShutdownBegins(s: State)
    ensures Apply(s, ShutDown) == State(s.inUse, s.clients, true)
  {
  }

  lemma ShutdownStep(s: State, step: Step, c: nat)
    requires s.shuttingDown && Enabled(s, step)
    ensures Apply(s, step).shuttingDown
    ensures At(s, c, Outside) ==> At(Apply(s, step), c, Outside)
    ensures c in Apply(s, step).clients && Apply(s, step).clients[c].Holding? ==> c in s.clients && s.clients[c] == Apply(s, step).clients[c]
  {
  }

  /** Shutdown is final: from then on nobody enters, and whoever holds a connection held it before. */
  lemma {:induction false} ShutdownIsFinal(b: seq<State>, i: nat, j: nat, c: nat)
    requires Behavior(b) && i <= j < |b| && b[i].shuttingDown
    ensures b[j].shuttingDown
    ensures At(b[i], c, Outside) ==> At(b[j], c, Outside)
    ensures c in b[j].clients && b[j].clients[c].Holding? ==> c in b[i].clients && b[i].clients[c] == b[j].clients[c]
  {
    if i < j {
      ShutdownIsFinal(b, i, j - 1, c);
      assert NextAt(b, j - 1);
      var step :| Enabled(b[j - 1], step) && b[j] == Apply(b[j - 1], step);
      ShutdownStep(b[j - 1], step, c);
    }
  }

  function Below(n: nat): (r: set<nat>)
    ensures |r| == n && forall k: nat :: k in r <==> k < n
  {
    if n == 0 then {} else Below(n - 1) + {n - 1}
  }

  lemma {:induction false} HoldersAndHeld(s: State, cs: set<nat>)
    requires Ownership(s) && cs <= Holders(s)
    ensures |set c | c in cs :: s.clients[c].conn| == |cs|
  {
    if cs != {} {
      var c :| c in cs;
      HoldersAndHeld(s, cs - {c});
      var rest := set x | x in cs - {c} :: s.clients[x].conn;
      assert (set x | x in cs :: s.clients[x].conn) == rest + {s.clients[c].conn};
      assert s.clients[c].conn !in rest;
    }
  }

  /** No client sleeps forever beside a free connection: as long as one sleeps and the pool is
      not shutting down, there are at least as many woken clients as free connections, and the
      next woken client to scan gets a connection. */
  lemma SleepersAreServed(b: seq<State>, i: nat)
    requires Behavior(b) && i < |b| && !b[i].shuttingDown
    requires exists c :: c in b[i].clients && b[i].clients[c].Waiting?
    ensures |Free(b[i].inUse)| <= |WokenClients(b[i])|
    ensures Free(b[i].inUse) != {} ==> exists c :: c in WokenClients(b[i])
    ensures forall c :: c in WokenClients(b[i]) && Free(b[i].inUse) != {} ==>
              Enabled(b[i], Scan(c, false)) && c in Apply(b[i], Scan(c, false)).clients &&
              Apply(b[i], Scan(c, false)).clients[c].Holding?
  {
    InvariantsHold(b, i);
    if WokenClients(b[i]) == {} {
      assert |Free(b[i].inUse)| == 0;
    }
  }

  /** Three clients and one connection. */
  function Three(used: bool, c0: Client, c1: Client, c2: Client): State {
    State([used], map[0 := c0, 1 := c1, 2 := c2], false)
  }

  lemma FirstTakesIt()
    ensures var s, s' := Three(false, Outside, Outside, Outside), Three(false, Scanning, Outside, Outside);
      && Enabled(s, Enter(0)) && Apply(s, Enter(0)) == s'
      && Enabled(s', Scan(0, false)) && Apply(s', Scan(0, false)) == Three(true, Holding(0), Outside, Outside)
  {
  }

  lemma SecondWaits()
    ensures var s, s' := Three(true, Holding(0), Outside, Outside), Three(true, Holding(0), Scanning, Outside);
      && Enabled(s, Enter(1)) && Apply(s, Enter(1)) == s'
      && Enabled(s', Scan(1, false)) && Apply(s', Scan(1, false)) == Three(true, Holding(0), Waiting, Outside)
  {
  }

  lemma ThirdWaits()
    ensures var s, s' := Three(true, Holding(0), Waiting, Outside), Three(true, Holding(0), Waiting, Scanning);
      && Enabled(s, Enter(2)) && Apply(s, Enter(2)) == s'
      && Enabled(s', Scan(2, false)) && Apply(s', Scan(2, false)) == Three(true, Holding(0), Waiting, Waiting)
  {
  }

  lemma FirstReleases()
    ensures var s := Three(true, Holding(0), Waiting, Waiting);
      Enabled(s, Release(0, Some(1))) && Apply(s, Release(0, Some(1))) == Three(false, Outside, Woken, Waiting)
  {
  }

  /** The first client takes the connection, the others fall asleep, and its release wakes one of them. */
  lemma OneWokenOneAsleep() returns (b: seq<State>)
    ensures b != [] && Behavior(b) && b[|b| - 1] == Three(false, Outside, Woken, Waiting)
  {
    b := [Three(false, Outside, Outside, Outside)];
    hide Enabled, Apply, NextAt;
    assert Behavior(b);
    hide Behavior, Three;
    FirstTakesIt();
    b := Extend(Extend(b, Enter(0)), Scan(0, false));
    SecondWaits();
    b := Extend(Extend(b, Enter(1)), Scan(1, false));
    ThirdWaits();
    b := Extend(Extend(b, Enter(2)), Scan(2, false));
    FirstReleases();
    b := Extend(b, Release(0, Some(1)));
  }

  /** The result needs `pthread_cond_timedwait` not to report a timeout to a client that has
      consumed a signal: a woken client that gave up without a scan would leave a sleeper
      beside a free connection with nobody coming for it. */
  lemma SignalledTimeoutStrandsASleeper()
    ensures exists b: seq<State> :: Behavior(b) && CanStrand(b[|b| - 1])
  {
    hide Behavior;
    var b := OneWokenOneAsleep();
    var s := b[|b| - 1];
    var s' := s.(clients := s.clients[1 := Outside]);
    assert s'.clients[2].Waiting? && 0 in Free(s'.inUse) && WokenClients(s') == {};
    assert Strands(s, 1) && CanStrand(s);
  }

  ghost predicate CanStrand(s: State) {
    exists c :: c in s.clients && Strands(s, c)
  }

  ghost predicate Strands(s: State, c: nat) {
    c in WokenClients(s) && !Covered(s.(clients := s.clients[c := Outside]))
  }

  ghost function Extend(b: seq<State>, step: Step): (b': seq<State>)
    requires b != [] && Behavior(b) && Enabled(b[|b| - 1], step)
    ensures b' != [] && Behavior(b') && b'[|b'| - 1] == Apply(b[|b| - 1], step)
  {
    var b' := b + [Apply(b[|b| - 1], step)];
    assert forall i :: 0 <= i < |b| - 1 ==> NextAt(b, i) ==> NextAt(b', i);
    assert NextAt(b', |b| - 1);
    b'
  }

  // ----- The code under the mutex -----

  /** The part of a pool that `pool->mutex` protects. */
  class Pool {
    const inUse: array<bool>

    constructor (size: nat)
      ensures fresh(inUse) && inUse.Length == size && forall i :: 0 <= i < size ==> !inUse[i]
    {
      inUse := new bool[size](_ => false);
    }

    /** The linear scan of `pool_acquire`. */
    method TryTake() returns (conn: Option<nat>)
      modifies inUse
      ensures conn == FirstFree(old(inUse[..]))
      ensures inUse[..] == if conn.Some? then old(inUse[..])[conn.value := true] else old(inUse[..])
    {
      for i := 0 to inUse.Length
        invariant inUse[..] == old(inUse[..])
        invariant forall k :: 0 <= k < i ==> inUse[k]
        invariant FirstFree(inUse[..]) == FirstFreeFrom(inUse[..], i)
      {
        if !inUse[i] {
          inUse[i] := true;
          return Some(i);
        }
      }
      conn := None;
    }

    /** The flag that `pool_release` clears; its signal on `free_cond` is the second half of the
        protocol's `Release` step. */
    method Release(conn: nat)
      requires conn < inUse.Length
      modifies inUse
      ensures inUse[..] == old(inUse[..])[conn := false]
    {
      inUse[conn] := false;
    }
  }
}
