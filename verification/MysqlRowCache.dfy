/** A stored MySQL result is read cell by cell through a cache of one row over a cursor. */
module MysqlRowCache {
  import opened Results

  type Byte = x: int | 0 <= x < 0x100
  /** A row as fetched: None stands for SQL NULL. */
  type Row = seq<Option<seq<Byte>>>

  /** A table with its number of columns. */
  datatype Table = Table(rows: seq<Row>, ncol: nat)

  predicate Rectangular(t: Table) {
    forall i :: 0 <= i < |t.rows| ==> |t.rows[i]| == t.ncol
  }

  function Lengths(row: Row): (r: seq<nat>)
    ensures |r| == |row|
    ensures forall c :: 0 <= c < |row| ==> r[c] == if row[c].None? then 0 else |row[c].value|
  {
    seq(|row|, c requires 0 <= c < |row| => if row[c].None? then 0 else |row[c].value|)
  }

  /** C's conversion of a length to `int`, which is 32 bits wide: exact only below 2 GiB. */
  function AsInt(n: nat): (size: int)
    ensures size == n <==> n < 0x8000_0000
    ensures -0x8000_0000 <= size < 0x8000_0000 && (n - size) % 0x1_0000_0000 == 0
  {
    var low := n % 0x1_0000_0000;
    if low < 0x8000_0000 then low else low - 0x1_0000_0000
  }

  // ----- What a reader should see -----

  datatype Read = Value(row: int, col: int) | Length(row: int, col: int)
  datatype Answer = Bytes(bytes: Option<seq<Byte>>) | Size(size: int)

  predicate RowExists(t: Option<Table>, row: int) {
    t.Some? && 0 <= row < |t.value.rows|
  }

  function CellOf(t: Option<Table>, row: int, col: int): Option<seq<Byte>>
    requires t.Some? ==> Rectangular(t.value)
  {
    if RowExists(t, row) && 0 <= col < t.value.ncol then t.value.rows[row][col] else None
  }

  /** The table's own answer, without any cache. */
  function AnswerOf(t: Option<Table>, read: Read): Answer
    requires t.Some? ==> Rectangular(t.value)
  {
    match read
    case Value(row, col) => Bytes(CellOf(t, row, col))
    case Length(row, col) =>
      match CellOf(t, row, col)
      case None => Size(0)
      case Some(bytes) => Size(AsInt(|bytes|))
  }

  // ----- The client library's result -----

  /** `MYSQL_RES` of a stored result: a cursor that can be moved to any row. */
  class StoredResult {
    const table: Table
    var cursor: nat
    ghost var fetches: nat

    constructor (table: Table)
      ensures this.table == table && cursor == 0 && fetches == 0
    {
      this.table, cursor, fetches := table, 0, 0;
    }

    method DataSeek(row: nat)
      modifies `cursor
      ensures cursor == row
    {
      cursor := row;
    }

    /** The row under the cursor, its lengths, and the cursor one further; no row at the end. */
    method FetchRow() returns (row: Option<Row>, lengths: seq<nat>)
      modifies this
      ensures fetches == old(fetches) + 1
      ensures old(cursor) < |table.rows| ==>
                row == Some(table.rows[old(cursor)]) && lengths == Lengths(table.rows[old(cursor)])
      ensures old(cursor) >= |table.rows| ==> row == None
    {
      fetches := fetches + 1;
      if cursor < |table.rows| {
        row, lengths := Some(table.rows[cursor]), Lengths(table.rows[cursor]);
        cursor := cursor + 1;
      } else {
        row, lengths := None, [];
      }
    }
  }

  /** `native_mysql_result_t`. Statements without a result set have no stored result. */
  class CachedResult {
    const res: StoredResult?
    const colCount: nat
    var cachedRow: int
    var row: Option<Row>
    var lengths: seq<nat>

    constructor (res: StoredResult?)
      requires res != null ==> Rectangular(res.table)
      ensures Valid() && cachedRow == -1 && this.res == res
    {
      this.res := res;
      colCount := if res == null then 0 else res.table.ncol;
      cachedRow, row, lengths := -1, None, [];
    }

    function Table(): Option<Table> {
      if res == null then None else Some(res.table)
    }

    ghost predicate Valid()
      reads this
    {
      && (res != null ==> Rectangular(res.table) && colCount == res.table.ncol)
      && cachedRow >= -1
      && (cachedRow >= 0 ==>
            && RowExists(Table(), cachedRow)
            && row == Some(Table().value.rows[cachedRow])
            && lengths == Lengths(Table().value.rows[cachedRow]))
    }

    ghost function Fetches(): nat
      reads this, res
    {
      if res == null then 0 else res.fetches
    }

    /** After success the cache holds the row asked for; the cursor moved only if it did not. */
    method EnsureRow(r: int) returns (rc: int)
      requires Valid()
      modifies this, res
      ensures Valid()
      ensures rc == if RowExists(Table(), r) then 0 else -1
      ensures cachedRow == NextCached(Table(), old(cachedRow), r)
      ensures Fetches() == old(Fetches()) + if cachedRow == old(cachedRow) then 0 else 1
    {
      if res == null {
        return -1;
      }
      if r < 0 || r >= |res.table.rows| {
        return -1;
      }
      if cachedRow == r && row != None {
        return 0;
      }
      res.DataSeek(r);
      var fetched, lens := res.FetchRow();
      row, lengths := fetched, lens;
      cachedRow := if row != None then r else -1;
      rc := if row != None then 0 else -1;
    }

    method RawValue(r: int, col: int) returns (value: Option<seq<Byte>>)
      requires Valid()
      modifies this, res
      ensures Valid()
      ensures Bytes(value) == AnswerOf(Table(), Value(r, col))
      ensures cachedRow == NextCached(Table(), old(cachedRow), r)
      ensures Fetches() == old(Fetches()) + if cachedRow == old(cachedRow) then 0 else 1
    {
      var rc := EnsureRow(r);
      if rc != 0 {
        return None;
      }
      if col < 0 || col >= colCount {
        return None;
      }
      value := row.value[col];
    }

    method RawLength(r: int, col: int) returns (length: int)
      requires Valid()
      modifies this, res
      ensures Valid()
      ensures Size(length) == AnswerOf(Table(), Length(r, col))
      ensures cachedRow == NextCached(Table(), old(cachedRow), r)
      ensures Fetches() == old(Fetches()) + if cachedRow == old(cachedRow) then 0 else 1
    {
      var rc := EnsureRow(r);
      if rc != 0 {
        return 0;
      }
      if col < 0 || col >= colCount {
        return 0;
      }
      if row.value[col] == None {
        return 0;
      }
      length := AsInt(lengths[col]);
    }

    /** Any sequence of reads is answered as by the table itself, with one fetch for each read of
        an existing row other than the last existing row read. */
    method ReadAll(asked: seq<Read>) returns (answers: seq<Answer>)
      requires Valid() && cachedRow == -1
      modifies this, res
      ensures |answers| == |asked|
      ensures forall i :: 0 <= i < |asked| ==> answers[i] == AnswerOf(Table(), asked[i])
      ensures Fetches() == old(Fetches()) + Switches(Table(), asked)
    {
      answers := [];
      for i := 0 to |asked|
        invariant Valid() && |answers| == i
        invariant forall k :: 0 <= k < i ==> answers[k] == AnswerOf(Table(), asked[k])
        invariant cachedRow == LastRow(Table(), asked[..i])
        invariant Fetches() == old(Fetches()) + Switches(Table(), asked[..i])
      {
        assert asked[..i + 1][..i] == asked[..i];
        match asked[i]
        case Value(r, col) =>
          var value := RawValue(r, col);
          answers := answers + [Bytes(value)];
        case Length(r, col) =>
          var length := RawLength(r, col);
          answers := answers + [Size(length)];
      }
      assert asked[..|asked|] == asked;
    }
  }

  // ----- How often a row is fetched -----

  function NextCached(t: Option<Table>, cached: int, row: int): int {
    if RowExists(t, row) then row else cached
  }

  /** The last existing row that the reads name, or -1. */
  function LastRow(t: Option<Table>, asked: seq<Read>): (last: int)
    ensures last == -1 || RowExists(t, last)
  {
    if asked == [] then -1
    else NextCached(t, LastRow(t, asked[..|asked| - 1]), asked[|asked| - 1].row)
  }

  /** The reads of an existing row that is not the last existing row read before. */
  function Switches(t: Option<Table>, asked: seq<Read>): nat {
    if asked == [] then 0
    else
      var before, row := asked[..|asked| - 1], asked[|asked| - 1].row;
      Switches(t, before) + if RowExists(t, row) && row != LastRow(t, before) then 1 else 0
  }

  /** The existing rows that are read. */
  function RowsRead(t: Option<Table>, asked: seq<Read>): set<int> {
    set i | 0 <= i < |asked| && RowExists(t, asked[i].row) :: asked[i].row
  }

  predicate Forward(t: Option<Table>, asked: seq<Read>) {
    forall i, j :: 0 <= i < j < |asked| && RowExists(t, asked[i].row) && RowExists(t, asked[j].row) ==>
      asked[i].row <= asked[j].row
  }

  /** A reader that never goes back to an earlier row fetches each row that it reads exactly once,
      however many of its cells and lengths are read and whatever else is asked in between. */
  lemma {:induction false} ForwardReadersFetchEachRowOnce(t: Option<Table>, asked: seq<Read>)
    requires Forward(t, asked)
    ensures Switches(t, asked) == |RowsRead(t, asked)|
  {
    if asked != [] {
      var before, row := asked[..|asked| - 1], asked[|asked| - 1].row;
      ForwardReadersFetchEachRowOnce(t, before);
      RowsReadSteps(t, asked);
      LastRowIsGreatest(t, before);
      if RowExists(t, row) && row in RowsRead(t, before) {
        var i :| 0 <= i < |before| && RowExists(t, before[i].row) && before[i].row == LastRow(t, before);
        assert asked[i].row <= asked[|asked| - 1].row;
      }
    }
  }

  lemma RowsReadSteps(t: Option<Table>, asked: seq<Read>)
    requires asked != []
    ensures RowsRead(t, asked) ==
            RowsRead(t, asked[..|asked| - 1]) + if RowExists(t, asked[|asked| - 1].row) then {asked[|asked| - 1].row} else {}
  {
    var before := asked[..|asked| - 1];
    forall i | 0 <= i < |asked| && RowExists(t, asked[i].row)
      ensures asked[i].row in RowsRead(t, before) || asked[i].row == asked[|asked| - 1].row
    {
      if i < |before| {
        assert before[i] == asked[i];
      }
    }
    forall r | r in RowsRead(t, before) ensures r in RowsRead(t, asked) {
      var i :| 0 <= i < |before| && RowExists(t, before[i].row) && before[i].row == r;
      assert asked[i].row == r;
    }
  }

  lemma {:induction false} LastRowIsGreatest(t: Option<Table>, asked: seq<Read>)
    requires Forward(t, asked)
    ensures forall r :: r in RowsRead(t, asked) ==> r <= LastRow(t, asked)
    ensures if RowsRead(t, asked) == {} then LastRow(t, asked) == -1 else LastRow(t, asked) in RowsRead(t, asked)
  {
    if asked != [] {
      var before, row := asked[..|asked| - 1], asked[|asked| - 1].row;
      LastRowIsGreatest(t, before);
      RowsReadSteps(t, asked);
      forall r | r in RowsRead(t, before) && RowExists(t, row) ensures r <= row {
        var i :| 0 <= i < |before| && RowExists(t, before[i].row) && before[i].row == r;
        assert asked[i].row <= asked[|asked| - 1].row;
      }
    }
  }
}
