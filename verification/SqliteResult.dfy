/** A SQLite result is copied, row by row, from a forward cursor into three parallel arrays that
    double when they are full; the accessors then read the arrays. */
module SqliteResult {
  import opened Results

  type Byte = x: int | 0 <= x < 0x100

  /** A column value of the row under the cursor. Numbers carry the image of their eight bytes. */
  datatype Cell =
    | Integer(image: seq<Byte>)
    | Float(image: seq<Byte>)
    | Text(bytes: seq<Byte>)
    | Blob(bytes: seq<Byte>)
    | Null

  predicate Stored(cell: Cell) {
    (cell.Integer? || cell.Float?) ==> |cell.image| == 8
  }

  const SQLITE_INTEGER := 1
  const SQLITE_FLOAT := 2
  const SQLITE_TEXT := 3
  const SQLITE_BLOB := 4
  const SQLITE_NULL := 5

  function TypeOf(cell: Cell): int {
    match cell
    case Integer(_) => SQLITE_INTEGER
    case Float(_) => SQLITE_FLOAT
    case Text(_) => SQLITE_TEXT
    case Blob(_) => SQLITE_BLOB
    case Null => SQLITE_NULL
  }

  /** The bytes of a value; SQL NULL has none, which is not the same as the empty string. */
  function DataOf(cell: Cell): Option<seq<Byte>> {
    match cell
    case Integer(image) => Some(image)
    case Float(image) => Some(image)
    case Text(bytes) => Some(bytes)
    case Blob(bytes) => Some(bytes)
    case Null => None
  }

  function LengthOf(cell: Cell): int {
    match DataOf(cell)
    case None => 0
    case Some(bytes) => |bytes|
  }

  predicate Rectangular(rows: seq<seq<Cell>>, ncol: nat) {
    forall i :: 0 <= i < |rows| ==> |rows[i]| == ncol && forall c :: 0 <= c < ncol ==> Stored(rows[i][c])
  }

  // ----- The cursor -----

  datatype Rc = ROW | DONE | ERROR

  /** A prepared statement: it steps through its rows and then ends, well or with an error. */
  class Statement {
    const rows: seq<seq<Cell>>
    const names: seq<Option<string>>
    const ncol: nat
    const end: Rc
    var pos: nat

    constructor (rows: seq<seq<Cell>>, names: seq<Option<string>>, end: Rc)
      ensures this.rows == rows && this.names == names && ncol == |names| && this.end == end && pos == 0
    {
      this.rows, this.names, ncol, this.end, pos := rows, names, |names|, end, 0;
    }

    ghost predicate Valid()
      reads this
    {
      Rectangular(rows, ncol) && |names| == ncol && pos <= |rows| && end != ROW
    }

    method Step() returns (rc: Rc)
      requires Valid()
      modifies this
      ensures Valid()
      ensures old(pos) < |rows| ==> rc == ROW && pos == old(pos) + 1
      ensures old(pos) == |rows| ==> rc == end && pos == old(pos)
    {
      if pos == |rows| {
        return end;
      }
      pos := pos + 1;
      rc := ROW;
    }

    function Column(c: nat): Cell
      reads this
      requires Valid() && 0 < pos && c < ncol
    {
      rows[pos - 1][c]
    }
  }

  // ----- The arrays in row-major order -----

  function Flat(rows: seq<seq<Cell>>): seq<Cell> {
    if rows == [] then [] else Flat(rows[..|rows| - 1]) + rows[|rows| - 1]
  }

  lemma OneMore(n: nat, ncol: nat)
    ensures (n + 1) * ncol == n * ncol + ncol
  {
  }

  lemma {:induction false} Before(row: nat, rows: nat, ncol: nat, col: nat)
    requires row < rows && col < ncol
    ensures 0 <= row * ncol + col < rows * ncol
    decreases rows
  {
    OneMore(rows - 1, ncol);
    if row < rows - 1 {
      Before(row, rows - 1, ncol, col);
    }
  }

  lemma Monotone(n: nat, m: nat, ncol: nat)
    requires n <= m
    ensures n * ncol <= m * ncol
  {
  }

  lemma RoomForOneMore(nrows: nat, cap: nat, ncol: nat)
    requires nrows < cap
    ensures nrows * ncol + ncol <= cap * ncol
  {
    OneMore(nrows, ncol);
    Monotone(nrows + 1, cap, ncol);
  }

  lemma {:induction false} FlatLength(rows: seq<seq<Cell>>, ncol: nat)
    requires Rectangular(rows, ncol)
    ensures |Flat(rows)| == |rows| * ncol
  {
    if rows != [] {
      var n := |rows| - 1;
      assert Rectangular(rows[..n], ncol);
      FlatLength(rows[..n], ncol);
      OneMore(n, ncol);
      assert |Flat(rows)| == |Flat(rows[..n])| + |rows[n]|;
    }
  }

  lemma FlatSteps(rows: seq<seq<Cell>>, ncol: nat, n: nat)
    requires Rectangular(rows, ncol) && n < |rows|
    ensures |Flat(rows[..n])| == n * ncol && |rows[n]| == ncol
    ensures Flat(rows[..n + 1]) == Flat(rows[..n]) + rows[n]
  {
    FlatLength(rows[..n], ncol);
    assert rows[..n + 1][..n] == rows[..n];
  }

  /** Row-major order: cell (row, col) lies at row * ncol + col. */
  lemma {:induction false} FlatAt(rows: seq<seq<Cell>>, ncol: nat, row: nat, col: nat)
    requires Rectangular(rows, ncol) && row < |rows| && col < ncol
    ensures 0 <= row * ncol + col < |Flat(rows)|
    ensures Flat(rows)[row * ncol + col] == rows[row][col]
  {
    var n := |rows| - 1;
    FlatLength(rows, ncol);
    FlatLength(rows[..n], ncol);
    Before(row, |rows|, ncol, col);
    if row < n {
      FlatAt(rows[..n], ncol, row, col);
    }
  }

  ghost predicate Filled(types: array<int>, lens: array<int>, data: array<Option<seq<Byte>>>, cells: seq<Cell>)
    reads types, lens, data
  {
    && types.Length == lens.Length == data.Length >= |cells|
    && forall k :: 0 <= k < |cells| ==>
         types[k] == TypeOf(cells[k]) && lens[k] == LengthOf(cells[k]) && data[k] == DataOf(cells[k])
  }

  lemma EmptyIsFilled(types: array<int>, lens: array<int>, data: array<Option<seq<Byte>>>, rows: seq<seq<Cell>>)
    requires types.Length == lens.Length == data.Length == 0
    ensures Filled(types, lens, data, Flat(rows[..0]))
  {
  }

  /** `native_sqlite_result_t`. */
  class Table {
    const rowCount: nat
    const colCount: nat
    const colNames: seq<string>
    const affected: int
    const cellTypes: array<int>
    const cellLens: array<int>
    const cellData: array<Option<seq<Byte>>>

    constructor (rowCount: nat, names: seq<string>, affected: int,
                 types: array<int>, lens: array<int>, data: array<Option<seq<Byte>>>)
      ensures this.rowCount == rowCount && colCount == |names| && colNames == names && this.affected == affected
      ensures cellTypes == types && cellLens == lens && cellData == data
    {
      this.rowCount, colCount, colNames, this.affected := rowCount, |names|, names, affected;
      cellTypes, cellLens, cellData := types, lens, data;
    }

    /** The table holds these rows. */
    ghost predicate Holds(rows: seq<seq<Cell>>, ncol: nat)
      reads cellTypes, cellLens, cellData
    {
      && rowCount == |rows| && colCount == ncol && Rectangular(rows, ncol)
      && Filled(cellTypes, cellLens, cellData, Flat(rows))
    }
  }

  function CellIndex(r: Table, row: int, col: int): int {
    row * r.colCount + col
  }

  predicate CellOk(r: Table?, row: int, col: int) {
    r != null && 0 <= row < r.rowCount && 0 <= col < r.colCount
  }

  /** The accessors, as they read the table `r` that holds the rows; a null table holds none. */
  method CellType(r: Table?, row: int, col: int, ghost rows: seq<seq<Cell>>, ghost ncol: nat) returns (ty: int)
    requires if r == null then rows == [] else r.Holds(rows, ncol)
    ensures 0 <= row < |rows| && 0 <= col < |rows[row]| ==>
              match rows[row][col]
              case Integer(_) => ty == 1
              case Float(_) => ty == 2
              case Text(_) => ty == 3
              case Blob(_) => ty == 4
              case Null => ty == 5
    ensures !(0 <= row < |rows| && 0 <= col < |rows[row]|) ==> ty == 5
  {
    if !CellOk(r, row, col) {
      return SQLITE_NULL;
    }
    FlatAt(rows, ncol, row, col);
    ty := r.cellTypes[CellIndex(r, row, col)];
  }

  method RawValue(r: Table?, row: int, col: int, ghost rows: seq<seq<Cell>>, ghost ncol: nat)
    returns (value: Option<seq<Byte>>)
    requires if r == null then rows == [] else r.Holds(rows, ncol)
    ensures value == if 0 <= row < |rows| && 0 <= col < |rows[row]| then DataOf(rows[row][col]) else None
  {
    if !CellOk(r, row, col) {
      return None;
    }
    FlatAt(rows, ncol, row, col);
    value := r.cellData[CellIndex(r, row, col)];
  }

  method RawLength(r: Table?, row: int, col: int, ghost rows: seq<seq<Cell>>, ghost ncol: nat) returns (len: int)
    requires if r == null then rows == [] else r.Holds(rows, ncol)
    ensures len == if 0 <= row < |rows| && 0 <= col < |rows[row]| then LengthOf(rows[row][col]) else 0
  {
    if !CellOk(r, row, col) {
      return 0;
    }
    FlatAt(rows, ncol, row, col);
    len := r.cellLens[CellIndex(r, row, col)];
  }

  /** The name of a column; NULL outside the columns. */
  method ColName(r: Table?, col: int) returns (name: Option<string>)
    requires r != null ==> |r.colNames| == r.colCount
    ensures name == if r != null && 0 <= col < |r.colNames| then Some(r.colNames[col]) else None
  {
    if r == null || r.colNames == [] {
      return None;
    }
    if col < 0 || col >= r.colCount {
      return None;
    }
    name := Some(r.colNames[col]);
  }

  // ----- Materialising -----

  /** The rows that fit after a number of doublings. */
  function Capacity(growths: nat): nat {
    if growths == 0 then 0 else if growths == 1 then 8 else 2 * Capacity(growths - 1)
  }

  lemma CapacityStep(g: nat)
    ensures Capacity(0) == 0 && Capacity(g + 1) == if g == 0 then 8 else 2 * Capacity(g)
    ensures g > 0 ==> Capacity(g) >= 8
  {
    if g > 1 {
      CapacityStep(g - 1);
    }
  }

  lemma {:induction false} CapacityGrows(g: nat, h: nat)
    requires g <= h
    ensures Capacity(g) <= Capacity(h)
  {
    if g < h {
      CapacityGrows(g, h - 1);
    }
  }

  /** A column without a name gets the empty one. */
  function NamesOf(names: seq<Option<string>>): (r: seq<string>)
    ensures |r| == |names| && forall c :: 0 <= c < |names| ==> r[c] == if names[c].None? then "" else names[c].value
  {
    seq(|names|, c requires 0 <= c < |names| => if names[c].None? then "" else names[c].value)
  }

  method Realloc<T>(a: array<T>, n: nat, fill: T) returns (b: array<T>)
    requires a.Length <= n
    ensures fresh(b) && b.Length == n && b[..a.Length] == a[..]
  {
    b := new T[n](_ => fill);
    for k := 0 to a.Length
      invariant forall m :: 0 <= m < k ==> b[m] == a[m]
    {
      b[k] := a[k];
    }
  }

  /** Copies the row under the cursor behind the cells already there. */
  method CopyRow(stmt: Statement, types: array<int>, lens: array<int>, data: array<Option<seq<Byte>>>,
                 nrows: nat, ghost before: seq<Cell>)
    requires stmt.Valid() && stmt.pos > 0 && |before| == nrows * stmt.ncol
    requires Filled(types, lens, data, before) && |before| + stmt.ncol <= types.Length
    requires types != lens
    modifies types, lens, data
    ensures Filled(types, lens, data, before + stmt.rows[stmt.pos - 1])
  {
    ghost var row := stmt.rows[stmt.pos - 1];
    for c := 0 to stmt.ncol
      invariant Filled(types, lens, data, before + row[..c])
    {
      var idx := nrows * stmt.ncol + c;
      var cell := stmt.Column(c);
      var ty := TypeOf(cell);
      types[idx] := ty;
      if ty == SQLITE_NULL {
        data[idx] := None;
        lens[idx] := 0;
      } else if ty == SQLITE_INTEGER || ty == SQLITE_FLOAT {
        data[idx] := Some(cell.image);
        lens[idx] := 8;
      } else {
        data[idx] := Some(cell.bytes);
        lens[idx] := |cell.bytes|;
      }
      assert row[..c + 1] == row[..c] + [row[c]];
      assert before + row[..c + 1] == (before + row[..c]) + [row[c]];
    }
    assert row[..stmt.ncol] == row;
  }

  /** `memory` is the number of doublings that succeed before one fails, and `wrapper` whether the table
      itself can be allocated; a table without columns needs no arrays. A statement yields a table with
      its rows and names exactly if it ends well and the memory is enough, else none. At no time
      are there more rows than capacity, and all the doublings together move at most two rows for each
      row stored. */
  method Materialize(stmt: Statement, changes: int, memory: nat, wrapper: bool) returns (res: Table?, ghost moved: nat)
    requires stmt.Valid() && stmt.pos == 0
    modifies stmt
    ensures res != null <==> stmt.end == DONE && wrapper && (stmt.ncol == 0 || |stmt.rows| <= Capacity(memory))
    ensures res != null ==> res.Holds(stmt.rows, stmt.ncol) && res.colNames == NamesOf(stmt.names) && res.affected == changes
    ensures moved <= 2 * |stmt.rows|
  {
    hide Filled, Rectangular, Flat, Stored, Capacity, NamesOf;
    CapacityStep(0);
    var ncol := stmt.ncol;
    var nrows, cap := 0, 0;
    var growths := 0;
    var types, lens, data := new int[0], new int[0], new Option<seq<Byte>>[0];
    EmptyIsFilled(types, lens, data, stmt.rows);
    moved := 0;
    var rc := stmt.Step();
    while rc == ROW
      invariant stmt.Valid() && nrows <= cap && cap == Capacity(growths)
      invariant ncol > 0 ==> growths <= memory
      invariant stmt.pos == if rc == ROW then nrows + 1 else nrows
      invariant rc == ROW || (nrows == |stmt.rows| && rc == stmt.end)
      invariant fresh(types) && fresh(lens) && fresh(data) && types != lens
      invariant types.Length == cap * ncol && Filled(types, lens, data, Flat(stmt.rows[..nrows]))
      invariant cap == 0 || moved + 8 == cap
      invariant cap == 0 ==> moved == 0 && growths == 0
      invariant cap > 8 ==> cap < 2 * nrows
      decreases |stmt.rows| - nrows, rc == ROW
    {
      FlatSteps(stmt.rows, ncol, nrows);
      CapacityStep(growths);
      if nrows == cap {
        if ncol > 0 && growths == memory {
          return null, moved;
        }
        types, lens, data, cap := Grow(types, lens, data, cap, ncol, Flat(stmt.rows[..nrows]));
        moved, growths := moved + nrows, growths + 1;
      }
      RoomForOneMore(nrows, cap, ncol);
      CopyRow(stmt, types, lens, data, nrows, Flat(stmt.rows[..nrows]));
      nrows := nrows + 1;
      rc := stmt.Step();
    }
    if ncol > 0 {
      CapacityGrows(growths, memory);
    }
    if rc != DONE || !wrapper {
      return null, moved;
    }
    assert stmt.rows[..nrows] == stmt.rows;
    res := new Table(nrows, NamesOf(stmt.names), changes, types, lens, data);
  }

  method Grow(types: array<int>, lens: array<int>, data: array<Option<seq<Byte>>>, cap: nat, ncol: nat, ghost cells: seq<Cell>)
    returns (types': array<int>, lens': array<int>, data': array<Option<seq<Byte>>>, cap': nat)
    requires Filled(types, lens, data, cells) && types.Length == cap * ncol
    ensures fresh(types') && fresh(lens') && fresh(data') && types' != lens' && types'.Length == cap' * ncol
    ensures cap' == if cap == 0 then 8 else cap * 2
    ensures Filled(types', lens', data', cells)
  {
    cap' := if cap == 0 then 8 else cap * 2;
    Monotone(cap, cap', ncol);
    var n := cap' * ncol;
    types' := Realloc(types, n, 0);
    lens' := Realloc(lens, n, 0);
    data' := Realloc(data, n, None);
    forall k | 0 <= k < |cells|
      ensures types'[k] == types[k] && lens'[k] == lens[k] && data'[k] == data[k]
    {
      assert types'[k] == types'[..types.Length][k];
      assert lens'[k] == lens'[..types.Length][k];
      assert data'[k] == data'[..types.Length][k];
    }
  }
}
