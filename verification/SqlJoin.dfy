/** Several statements travel as one text joined with ';'. The three loops that join them stay
    inside the buffer they sized. */
module SqlJoin {
  import opened Results

  const NUL: char := '\0'

  // ----- The joined texts -----

  function Text(stmt: Option<string>): string {
    if stmt.None? then "" else stmt.value
  }

  /** Each statement followed by ';'. */
  function Terminated(stmts: seq<Option<string>>): string {
    if stmts == [] then "" else Terminated(stmts[..|stmts| - 1]) + Text(stmts[|stmts| - 1]) + ";"
  }

  /** The statements with ';' between them. */
  function Separated(stmts: seq<Option<string>>): string {
    if stmts == [] then ""
    else if |stmts| == 1 then Text(stmts[0])
    else Separated(stmts[..|stmts| - 1]) + ";" + Text(stmts[|stmts| - 1])
  }

  lemma {:induction false} TerminatedIsSeparated(stmts: seq<Option<string>>)
    requires stmts != []
    ensures Terminated(stmts) == Separated(stmts) + ";"
  {
    var n := |stmts| - 1;
    if n == 0 {
      assert Terminated(stmts[..0]) == "";
    } else {
      TerminatedIsSeparated(stmts[..n]);
    }
  }

  lemma NothingToJoin(stmts: seq<Option<string>>)
    ensures Terminated(stmts[..0]) == "" == Separated(stmts[..0])
  {
  }

  lemma LastStatement(stmts: seq<Option<string>>, n: nat)
    requires |stmts| == n + 1
    ensures Separated(stmts) == Terminated(stmts[..n]) + Text(stmts[n])
  {
    if n > 0 {
      TerminatedIsSeparated(stmts[..n]);
    }
  }

  lemma TerminatedStep(stmts: seq<Option<string>>, i: nat)
    requires i < |stmts|
    ensures Terminated(stmts[..i + 1]) == Terminated(stmts[..i]) + Text(stmts[i]) + ";"
  {
    assert stmts[..i + 1][..i] == stmts[..i];
  }

  lemma {:induction false} TerminatedFits(stmts: seq<Option<string>>, i: nat)
    requires i <= |stmts|
    ensures |Terminated(stmts[..i])| <= |Terminated(stmts)|
    decreases |stmts| - i
  {
    if i < |stmts| {
      TerminatedStep(stmts, i);
      TerminatedFits(stmts, i + 1);
    } else {
      assert stmts[..i] == stmts;
    }
  }

  /** What one round of a join adds, and that it fits into the buffer. */
  lemma OneMoreFits(stmts: seq<Option<string>>, i: nat)
    requires i < |stmts| && stmts[i].Some?
    ensures Terminated(stmts[..i + 1]) == Terminated(stmts[..i]) + stmts[i].value + ";"
    ensures |Terminated(stmts[..i])| + |stmts[i].value| + 1 <= |Terminated(stmts)|
    ensures i + 1 == |stmts| ==> Separated(stmts) == Terminated(stmts[..i]) + stmts[i].value
  {
    hide Terminated, Separated;
    TerminatedStep(stmts, i);
    TerminatedFits(stmts, i + 1);
    if i + 1 == |stmts| {
      LastStatement(stmts, i);
    }
  }

  /** `memcpy` at p, seen as appending to what lies before p. */
  method Memcpy(out: array<char>, p: nat, src: string)
    requires p + |src| <= out.Length
    modifies out
    ensures out[..p + |src|] == old(out[..p]) + src
  {
    for k := 0 to |src|
      invariant out[..p + k] == old(out[..p]) + src[..k]
    {
      out[p + k] := src[k];
      assert out[..p + k + 1] == out[..p + k] + [src[k]];
    }
  }

  method PutChar(out: array<char>, p: nat, c: char)
    requires p < out.Length
    modifies out
    ensures out[..p + 1] == old(out[..p]) + [c]
  {
    out[p] := c;
  }

  /** The buffer size, or None if a statement is missing. */
  method TotalSize(stmts: seq<Option<string>>) returns (total: Option<nat>)
    ensures total == if None in stmts then None else Some(1 + |Terminated(stmts)|)
  {
    var size := 1;
    for i := 0 to |stmts|
      invariant None !in stmts[..i] && size == 1 + |Terminated(stmts[..i])|
    {
      if stmts[i] == None {
        return None;
      }
      TerminatedStep(stmts, i);
      size := size + |stmts[i].value| + 1;
    }
    assert stmts[..|stmts|] == stmts;
    total := Some(size);
  }

  /** SQLite: a ';' after every statement; the buffer is filled to the last byte. */
  method SqliteJoin(stmts: seq<Option<string>>) returns (out: array?<char>)
    ensures out == null <==> None in stmts
    ensures out != null ==> out[..] == Terminated(stmts) + [NUL]
  {
    hide Terminated;
    NothingToJoin(stmts);
    var total := TotalSize(stmts);
    if total == None {
      return null;
    }
    out := new char[total.value](_ => NUL);
    var p := 0;
    for i := 0 to |stmts|
      invariant p == |Terminated(stmts[..i])| && fresh(out) && out.Length == total.value
      invariant 0 <= p < out.Length && out[..p] == Terminated(stmts[..i])
    {
      OneMoreFits(stmts, i);
      Memcpy(out, p, stmts[i].value);
      p := p + |stmts[i].value|;
      PutChar(out, p, ';');
      p := p + 1;
    }
    assert stmts[..|stmts|] == stmts;
    PutChar(out, p, NUL);
    assert out[..] == out[..p + 1];
  }

  /** MySQL: a ';' between the statements; the buffer has a byte to spare. */
  method MysqlJoin(stmts: seq<Option<string>>) returns (out: array?<char>)
    ensures out == null <==> None in stmts
    ensures out != null && stmts != [] ==>
              out.Length == |Separated(stmts)| + 2 && out[..out.Length - 1] == Separated(stmts) + [NUL]
  {
    hide Terminated, Separated, Text;
    NothingToJoin(stmts);
    var total := TotalSize(stmts);
    if total == None {
      return null;
    }
    out := new char[total.value](_ => NUL);
    var p := 0;
    var n := |stmts|;
    for i := 0 to n
      invariant fresh(out) && out.Length == total.value && 0 <= p < out.Length
      invariant out[..p] == if 0 < i == n then Separated(stmts) else Terminated(stmts[..i])
    {
      OneMoreFits(stmts, i);
      Memcpy(out, p, stmts[i].value);
      p := p + |stmts[i].value|;
      if i + 1 < n {
        PutChar(out, p, ';');
        p := p + 1;
      }
    }
    if n > 0 {
      TerminatedIsSeparated(stmts);
    }
    PutChar(out, p, NUL);
  }

  /** PostgreSQL: a ';' before every statement but the first; filled to the last byte. */
  method NativeJoin(queries: seq<string>) returns (out: array<char>)
    ensures out[..] == Separated(Present(queries)) + [NUL]
  {
    hide Separated;
    var stmts := Present(queries);
    NothingToJoin(stmts);
    var total := 1;
    for i := 0 to |queries|
      invariant total == 1 + |Separated(stmts[..i])|
    {
      SeparatedStep(stmts, i);
      total := total + |queries[i]|;
      if i > 0 {
        total := total + 1;
      }
    }
    assert stmts[..|stmts|] == stmts;
    out := new char[total](_ => NUL);
    var p := 0;
    for i := 0 to |queries|
      invariant fresh(out) && out.Length == total && 0 <= p < out.Length
      invariant out[..p] == Separated(stmts[..i])
    {
      SeparatedStep(stmts, i);
      SeparatedFits(stmts, i + 1);
      if i > 0 {
        PutChar(out, p, ';');
        p := p + 1;
      }
      Memcpy(out, p, queries[i]);
      p := p + |queries[i]|;
    }
    PutChar(out, p, NUL);
    assert out[..] == out[..p + 1];
  }

  function Present(queries: seq<string>): (stmts: seq<Option<string>>)
    ensures |stmts| == |queries| && forall i :: 0 <= i < |queries| ==> stmts[i] == Some(queries[i])
  {
    seq(|queries|, i requires 0 <= i < |queries| => Some(queries[i]))
  }

  lemma SeparatedStep(stmts: seq<Option<string>>, i: nat)
    requires i < |stmts|
    ensures Separated(stmts[..i + 1]) == Separated(stmts[..i]) + (if i > 0 then ";" else "") + Text(stmts[i])
  {
    assert stmts[..i + 1][..i] == stmts[..i];
  }

  lemma {:induction false} SeparatedFits(stmts: seq<Option<string>>, i: nat)
    requires i <= |stmts|
    ensures |Separated(stmts[..i])| <= |Separated(stmts)|
    decreases |stmts| - i
  {
    if i < |stmts| {
      SeparatedStep(stmts, i);
      SeparatedFits(stmts, i + 1);
    } else {
      assert stmts[..i] == stmts;
    }
  }

  /** Each statement followed by ';', from the front. */
  function Joined(stmts: seq<string>): string {
    if stmts == [] then "" else stmts[0] + ";" + Joined(stmts[1..])
  }

  lemma {:induction false} JoinedIsTerminated(stmts: seq<string>)
    ensures Joined(stmts) == Terminated(Present(stmts))
  {
    if stmts != [] {
      var n := |stmts| - 1;
      JoinedIsTerminated(stmts[..n]);
      assert Present(stmts)[..n] == Present(stmts[..n]);
      JoinedAtTheEnd(stmts[..n], stmts[n]);
      assert stmts[..n] + [stmts[n]] == stmts;
    }
  }

  lemma {:induction false} JoinedAtTheEnd(stmts: seq<string>, s: string)
    ensures Joined(stmts + [s]) == Joined(stmts) + s + ";"
  {
    if stmts == [] {
      assert Joined([s]) == s + ";" + Joined([]);
    } else {
      JoinedAtTheEnd(stmts[1..], s);
      assert (stmts + [s])[1..] == stmts[1..] + [s];
    }
  }
}
