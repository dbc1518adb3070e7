/** SQLite's multi-read: the loop over the joined text, the linked chain in which it leaves one result
    for each statement, and the polls that take them out again. */
module SqliteMultiRead {
  import opened Results
  import opened SqlJoin
  import opened SqlSplit

  // ----- What running commands means -----

  /** The result of a command, or None for an error, and the database behind it. */
  datatype Outcome<S, R> = Outcome(result: Option<R>, after: S)

  /** Preparing and stepping one command on a database. */
  datatype Engine<!S, !R> = Engine(run: (S, string) -> Outcome<S, R>)

  /** Runs the commands in order, each on the database the one before has left, up to the first error. */
  function RunAll<S, R>(commands: seq<string>, db: Engine<S, R>, s: S): Outcome<S, seq<R>> {
    if commands == [] then Outcome(Some([]), s)
    else
      var first := db.run(s, commands[0]);
      if first.result.None? then Outcome(None, first.after)
      else
        var rest := RunAll(commands[1..], db, first.after);
        Outcome(Behind([first.result.value], rest.result), rest.after)
  }

  function Behind<R>(head: seq<R>, more: Option<seq<R>>): Option<seq<R>> {
    var rest :- more;
    Some(head + rest)
  }

  /** The results obtained before the first error. */
  function ResultsUntilError<S, R>(commands: seq<string>, db: Engine<S, R>, s: S): seq<R> {
    if commands == [] || db.run(s, commands[0]).result.None? then []
    else
      var first := db.run(s, commands[0]);
      [first.result.value] + ResultsUntilError(commands[1..], db, first.after)
  }

  /** The database on which command i runs. */
  function StateAt<S, R>(commands: seq<string>, db: Engine<S, R>, s: S, i: nat): S
    requires i <= |commands|
  {
    if i == 0 then s else StateAt(commands[1..], db, db.run(s, commands[0]).after, i - 1)
  }

  /** There are results exactly if every command succeeds where it runs, and then command i has made
      result i. */
  lemma {:induction false} EachCommandHasItsResult<S, R>(commands: seq<string>, db: Engine<S, R>, s: S)
    ensures var all := RunAll(commands, db, s);
      && (all.result.Some? <==>
            forall i :: 0 <= i < |commands| ==> db.run(StateAt(commands, db, s, i), commands[i]).result.Some?)
      && (all.result.Some? ==> |all.result.value| == |commands| && all.after == StateAt(commands, db, s, |commands|))
      && (all.result.Some? ==> forall i :: 0 <= i < |commands| ==>
            db.run(StateAt(commands, db, s, i), commands[i]).result == Some(all.result.value[i]))
  {
    if commands != [] {
      var rest, s' := commands[1..], db.run(s, commands[0]).after;
      EachCommandHasItsResult(rest, db, s');
      assert db.run(StateAt(commands, db, s, 0), commands[0]) == db.run(s, commands[0]);
      forall i | 1 <= i < |commands|
        ensures StateAt(commands, db, s, i) == StateAt(rest, db, s', i - 1) && commands[i] == rest[i - 1]
      {
      }
      assert forall i :: 0 <= i < |rest| ==> rest[i] == commands[i + 1] && StateAt(commands, db, s, i + 1) == StateAt(rest, db, s', i);
    }
  }

  /** Joining statements that come apart and running the text is running the statements. */
  lemma JoinedStatementsRunInOrder<S, R>(stmts: seq<string>, db: Engine<S, R>, s: S)
    requires forall q :: q in stmts ==> OneStatement(q)
    requires Separable(stmts)
    ensures RunAll(Commands(Terminated(Present(stmts))), db, s) == RunAll(CommandsOf(stmts), db, s)
    ensures var results := RunAll(Commands(Terminated(Present(stmts))), db, s).result;
      results.Some? ==> |results.value| == |stmts| && forall i :: 0 <= i < |stmts| ==>
        db.run(StateAt(CommandsOf(stmts), db, s, i), CommandOf(stmts[i])).result == Some(results.value[i])
  {
    JoinedStatementsComeApart(stmts);
    EachCommandHasItsResult(CommandsOf(stmts), db, s);
  }

  // ----- The chain -----

  class Wrapper<R> {
    const value: R
    var next: Wrapper?<R>

    constructor (value: R)
      ensures this.value == value && next == null
    {
      this.value, next := value, null;
    }
  }

  /** The list of these nodes, from the head on. */
  ghost predicate Linked<R>(head: Wrapper?<R>, nodes: seq<Wrapper<R>>)
    reads nodes
  {
    && (head == if nodes == [] then null else nodes[0])
    && (nodes != [] ==> nodes[|nodes| - 1].next == null)
    && (forall i :: 0 <= i < |nodes| - 1 ==> nodes[i].next == nodes[i + 1])
    && (forall i, j :: 0 <= i < j < |nodes| ==> nodes[i] != nodes[j])
  }

  ghost function Values<R>(nodes: seq<Wrapper<R>>): (rs: seq<R>)
    ensures |rs| == |nodes| && forall i :: 0 <= i < |rs| ==> rs[i] == nodes[i].value
  {
    seq(|nodes|, i requires 0 <= i < |nodes| => nodes[i].value)
  }

  lemma RestIsLinked<R>(head: Wrapper?<R>, nodes: seq<Wrapper<R>>)
    requires Linked(head, nodes) && nodes != []
    ensures Linked(nodes[0].next, nodes[1..])
  {
    assert |nodes| > 1 ==> nodes[0].next == nodes[1];
    forall i | 0 <= i < |nodes| - 2 ensures nodes[1..][i].next == nodes[1..][i + 1] {
      assert nodes[i + 1].next == nodes[i + 2];
    }
  }

  /** `free_result_chain`: walks the chain and frees every node. */
  method FreeResultChain<R>(head: Wrapper?<R>, ghost nodes: seq<Wrapper<R>>) returns (ghost freed: seq<R>)
    requires Linked(head, nodes)
    ensures freed == Values(nodes)
  {
    var node := head;
    freed := [];
    ghost var i := 0;
    while node != null
      invariant 0 <= i <= |nodes| && freed == Values(nodes)[..i]
      invariant node == if i < |nodes| then nodes[i] else null
      decreases |nodes| - i
    {
      var next := node.next;
      assert i + 1 < |nodes| ==> nodes[i].next == nodes[i + 1];
      freed := freed + [node.value];
      node := next;
      i := i + 1;
    }
  }

  /** Links a result behind the tail of the chain. */
  method LinkBehind<R>(head: Wrapper?<R>, tail: Wrapper?<R>, w: Wrapper<R>, ghost nodes: seq<Wrapper<R>>)
    returns (head': Wrapper<R>, tail': Wrapper<R>)
    requires Linked(head, nodes) && w.next == null && w !in nodes
    requires tail == if nodes == [] then null else nodes[|nodes| - 1]
    modifies tail
    ensures Linked(head', nodes + [w]) && tail' == w
  {
    if head == null {
      head', tail' := w, w;
    } else {
      tail.next := w;
      head', tail' := head, w;
    }
  }

  class Conn<R> {
    var lastResult: Wrapper?<R>
    ghost var nodes: seq<Wrapper<R>>

    ghost predicate Valid()
      reads this, nodes
    {
      Linked(lastResult, nodes)
    }

    /** The results waiting for a client. */
    ghost function Chain(): seq<R>
      reads this
    {
      Values(nodes)
    }

    constructor ()
      ensures Valid() && nodes == []
    {
      lastResult, nodes := null, [];
    }

    /** `native_sqlite_poll_result`: hands the first node over. */
    method PollResult() returns (r: Wrapper?<R>)
      requires Valid()
      modifies this
      ensures Valid() && r == old(lastResult)
      ensures if r == null then old(Chain()) == Chain() == [] else old(Chain()) == [r.value] + Chain()
    {
      if nodes != [] {
        RestIsLinked(lastResult, nodes);
      }
      r := lastResult;
      lastResult := if r != null then r.next else null;
      nodes := if nodes == [] then [] else nodes[1..];
    }

    /** Any number of polls: the results in order, each once, and NULL ever after. */
    method Poll(n: nat) returns (answers: seq<Option<R>>)
      requires Valid()
      modifies this
      ensures Valid() && |answers| == n
      ensures forall i :: 0 <= i < n ==> answers[i] == if i < |old(Chain())| then Some(old(Chain())[i]) else None
      ensures Chain() == Without(old(Chain()), n)
    {
      hide Linked;
      answers := [];
      ghost var chain := Chain();
      for i := 0 to n
        invariant Valid() && |answers| == i && Chain() == Without(chain, i)
        invariant forall k :: 0 <= k < i ==> answers[k] == if k < |chain| then Some(chain[k]) else None
      {
        var r := PollResult();
        answers := answers + [if r == null then None else Some(r.value)];
      }
    }
  }

  /** What is left of a sequence after its first n elements. */
  function Without<T>(s: seq<T>, n: nat): seq<T> {
    if n < |s| then s[n..] else []
  }

  // ----- The loop -----

  lemma {:induction false} FromTokenIsSuffix(s: string)
    ensures s[|s| - |FromToken(s)|..] == FromToken(s)
    decreases |s|
  {
    if s != "" {
      if White(s[0]) || s[0] == ';' {
        FromTokenIsSuffix(s[1..]);
      } else if |s| > 1 && s[..2] == "--" {
        AfterLineIsSuffix(s[2..]);
        FromTokenIsSuffix(AfterLine(s[2..]));
      } else if |s| > 1 && s[..2] == "/*" {
        AfterBlockIsSuffix(s[2..]);
        FromTokenIsSuffix(AfterBlock(s[2..]));
      }
    }
  }

  lemma {:induction false} AfterLineIsSuffix(s: string)
    ensures s[|s| - |AfterLine(s)|..] == AfterLine(s)
  {
    if s != "" && s[0] != '\n' {
      AfterLineIsSuffix(s[1..]);
    }
  }

  lemma {:induction false} AfterBlockIsSuffix(s: string)
    ensures s[|s| - |AfterBlock(s)|..] == AfterBlock(s)
  {
    if |s| >= 2 && s[..2] != "*/" {
      AfterBlockIsSuffix(s[1..]);
    }
  }

  /** What `sqlite3_prepare_v2` makes of the text from the cursor: the next command, if there is one, and
      its tail pointer behind the ';' that ended it, or at the end of the text. */
  method Prepare(text: string, cursor: nat) returns (stmt: Option<string>, next: nat)
    requires cursor < |text|
    ensures cursor < next <= |text|
    ensures Commands(text[cursor..]) == if stmt.None? then [] else [stmt.value] + Commands(text[next..])
    ensures stmt.None? <==> FromToken(text[cursor..]) == ""
    ensures stmt.None? ==> next == |text| && Commands(text[next..]) == []
    ensures stmt.Some? ==> next == |text| || text[next - 1] == ';'
  {
    hide Commands, FromToken, End, Bare;
    var t := FromToken(text[cursor..]);
    FromTokenIsSuffix(text[cursor..]);
    FromTokenAgain(text[cursor..]);
    SameTokensSameCommands(text[cursor..], t);
    NothingJoined();
    assert text[|text|..] == "";
    if t == "" {
      return None, |text|;
    }
    var start := |text| - |t|;
    var e := End(Plain, t);
    next := if e < |t| then start + e + 1 else |text|;
    stmt := Some(Bare(t[..e]));
    OneCommand(t);
    if e < |t| {
      assert text[start..] == t && t[e + 1..] == text[next..] && t[e] == text[start + e];
    }
  }

  lemma SkipOne(text: string, cursor: nat)
    requires cursor < |text| && (White(text[cursor]) || text[cursor] == ';')
    ensures Commands(text[cursor..]) == Commands(text[cursor + 1..])
  {
    assert text[cursor..][1..] == text[cursor + 1..];
    SameTokensSameCommands(text[cursor..], text[cursor + 1..]);
  }

  lemma BehindOneMore<R>(head: seq<R>, r: R, more: Option<seq<R>>)
    ensures Behind(head, Behind([r], more)) == Behind(head + [r], more)
  {
    if more.Some? {
      assert head + ([r] + more.value) == head + [r] + more.value;
    }
  }

  /** Halfway through the text: these results have been obtained, and the rest is still to be run. */
  ghost predicate Remaining<S, R>(text: string, cursor: nat, db: Engine<S, R>, s: S, now: S, done: seq<R>)
    requires cursor <= |text|
  {
    var all, rest := Commands(text), Commands(text[cursor..]);
    && RunAll(all, db, s).after == RunAll(rest, db, now).after
    && RunAll(all, db, s).result == Behind(done, RunAll(rest, db, now).result)
    && ResultsUntilError(all, db, s) == done + ResultsUntilError(rest, db, now)
  }

  lemma StartOfRun<S, R>(text: string, db: Engine<S, R>, s: S)
    ensures Remaining(text, 0, db, s, s, [])
  {
    assert text[0..] == text;
    var all := RunAll(Commands(text), db, s).result;
    assert all.Some? ==> [] + all.value == all.value;
  }

  lemma EndOfRun<S, R>(text: string, cursor: nat, db: Engine<S, R>, s: S, now: S, done: seq<R>)
    requires cursor <= |text| && Remaining(text, cursor, db, s, now, done) && Commands(text[cursor..]) == []
    ensures RunAll(Commands(text), db, s) == Outcome(Some(done), now)
  {
    assert done + [] == done;
  }

  lemma OneMoreResult<S, R>(text: string, cursor: nat, next: nat, command: string, db: Engine<S, R>, s: S, now: S, done: seq<R>)
    requires cursor <= next <= |text| && Remaining(text, cursor, db, s, now, done)
    requires Commands(text[cursor..]) == [command] + Commands(text[next..])
    ensures var o := db.run(now, command);
      if o.result.None? then
        RunAll(Commands(text), db, s) == Outcome(None, o.after) && ResultsUntilError(Commands(text), db, s) == done
      else
        Remaining(text, next, db, s, o.after, done + [o.result.value])
  {
    hide Commands;
    var rest := Commands(text[next..]);
    var o := db.run(now, command);
    HeadAndTail([command] + rest, command, rest);
    if o.result.Some? {
      BehindOneMore(done, o.result.value, RunAll(rest, db, o.after).result);
    }
  }

  method SkipSeparators(text: string, cursor: nat) returns (next: nat)
    requires cursor <= |text|
    ensures cursor <= next <= |text| && Commands(text[next..]) == Commands(text[cursor..])
    ensures next == |text| ==> Commands(text[next..]) == []
  {
    hide Commands;
    next := cursor;
    while next < |text| && (text[next] == ' ' || text[next] == '\t' || text[next] == '\n' || text[next] == '\r' || text[next] == ';')
      invariant cursor <= next <= |text| && Commands(text[next..]) == Commands(text[cursor..])
      decreases |text| - next
    {
      SkipOne(text, next);
      next := next + 1;
    }
    NothingJoined();
    assert next == |text| ==> text[next..] == "";
  }

  /** The loop over the text: the cursor strictly advances, and every command is run in turn on the
      database the one before has left. Each result is linked behind the last; after an error the whole
      partial chain is freed. */
  method BuildChain<S, R>(text: string, db: Engine<S, R>, s: S)
    returns (ok: bool, after: S, head: Wrapper?<R>, ghost nodes: seq<Wrapper<R>>, ghost freed: seq<R>)
    ensures ok == RunAll(Commands(text), db, s).result.Some? && after == RunAll(Commands(text), db, s).after
    ensures fresh(nodes)
    ensures ok ==> Linked(head, nodes) && freed == [] && RunAll(Commands(text), db, s).result == Some(Values(nodes))
    ensures !ok ==> freed == ResultsUntilError(Commands(text), db, s)
  {
    hide Commands, FromToken, Linked, RunAll, ResultsUntilError, Remaining, Values;
    var tail: Wrapper?<R>, cursor := null, 0;
    head, nodes, after, freed := null, [], s, [];
    NoNodes<R>();
    StartOfRun(text, db, s);
    while cursor < |text|
      invariant 0 <= cursor <= |text| && freed == []
      invariant Linked(head, nodes) && tail == (if nodes == [] then null else nodes[|nodes| - 1])
      invariant fresh(nodes)
      invariant Remaining(text, cursor, db, s, after, Values(nodes))
      decreases |text| - cursor
    {
      var next := SkipSeparators(text, cursor);
      MoveOn(text, cursor, next, db, s, after, Values(nodes));
      cursor := next;
      if cursor == |text| {
        break;
      }
      var stmt;
      stmt, next := Prepare(text, cursor);
      if stmt == None {
        MoveOn(text, cursor, next, db, s, after, Values(nodes));
        cursor := next;
        continue;
      }
      OneMoreResult(text, cursor, next, stmt.value, db, s, after, Values(nodes));
      var outcome := db.run(after, stmt.value);
      after := outcome.after;
      if outcome.result == None {
        freed := FreeResultChain(head, nodes);
        return false, after, null, [], freed;
      }
      var w := new Wrapper<R>(outcome.result.value);
      head, tail := LinkBehind(head, tail, w, nodes);
      ValuesOneMore(nodes, w);
      nodes := nodes + [w];
      cursor := next;
    }
    assert text[|text|..] == "";
    NothingJoined();
    EndOfRun(text, cursor, db, s, after, Values(nodes));
    ok := true;
  }

  lemma ValuesOneMore<R>(nodes: seq<Wrapper<R>>, w: Wrapper<R>)
    ensures Values(nodes + [w]) == Values(nodes) + [w.value]
  {
  }

  lemma NoNodes<R>()
    ensures Linked<R>(null, []) && Values<R>([]) == []
  {
  }

  lemma MoveOn<S, R>(text: string, cursor: nat, next: nat, db: Engine<S, R>, s: S, now: S, done: seq<R>)
    requires cursor <= next <= |text| && Remaining(text, cursor, db, s, now, done)
    requires Commands(text[cursor..]) == Commands(text[next..])
    ensures Remaining(text, next, db, s, now, done)
  {
  }

  /** `execute_multi_read`: if all commands succeed their results become the connection's chain; after an
      error everything obtained so far has been freed and the connection keeps what it had. */
  method ExecuteMultiRead<S, R>(conn: Conn<R>, text: string, db: Engine<S, R>, s: S)
    returns (ok: bool, after: S, ghost freed: seq<R>)
    requires conn.Valid()
    modifies conn
    ensures conn.Valid()
    ensures ok == RunAll(Commands(text), db, s).result.Some? && after == RunAll(Commands(text), db, s).after
    ensures ok ==> RunAll(Commands(text), db, s).result == Some(conn.Chain()) && freed == []
    ensures !ok ==> conn.lastResult == old(conn.lastResult) && conn.nodes == old(conn.nodes)
    ensures !ok ==> freed == ResultsUntilError(Commands(text), db, s)
  {
    hide Commands, Linked, RunAll, ResultsUntilError;
    var head;
    ghost var nodes;
    ok, after, head, nodes, freed := BuildChain(text, db, s);
    if ok {
      conn.lastResult := head;
      conn.nodes := nodes;
    }
  }

  /** The whole way of a multi-read, from the submit over the worker to the polls: statements that come apart
      are joined, run, and polled for. It fails exactly if one of them fails on the database it runs on;
      else the i-th poll answers the result of the i-th statement on the database that those before
      it have left, and nothing remains. */
  method SubmitRunAndPoll<S, R>(conn: Conn<R>, stmts: seq<string>, db: Engine<S, R>, s: S)
    returns (ok: bool, after: S, answers: seq<Option<R>>)
    requires conn.Valid() && Separable(stmts) && forall q :: q in stmts ==> OneStatement(q)
    modifies conn
    ensures conn.Valid()
    ensures ok <==> forall i :: 0 <= i < |stmts| ==>
                      db.run(StateAt(CommandsOf(stmts), db, s, i), CommandOf(stmts[i])).result.Some?
    ensures ok ==> |answers| == |stmts| && forall i :: 0 <= i < |stmts| ==>
                      && answers[i].Some?
                      && answers[i] == db.run(StateAt(CommandsOf(stmts), db, s, i), CommandOf(stmts[i])).result
    ensures ok ==> conn.Chain() == [] && after == StateAt(CommandsOf(stmts), db, s, |stmts|)
    ensures !ok ==> answers == [] && conn.nodes == old(conn.nodes)
  {
    hide Commands, RunAll, ResultsUntilError, Separable, OneStatement, CommandOf, StateAt, Terminated, Linked;
    answers := [];
    var joined := SqliteJoin(Present(stmts));
    var text := joined[..joined.Length - 1];
    assert text == Terminated(Present(stmts));
    JoinedStatementsRunInOrder(stmts, db, s);
    EachCommandHasItsResult(CommandsOf(stmts), db, s);
    ghost var freed;
    ok, after, freed := ExecuteMultiRead(conn, text, db, s);
    if ok {
      answers := conn.Poll(|stmts|);
    }
  }
}
