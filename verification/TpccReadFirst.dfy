/** The MySQL driver's NewOrder reads all prices and stock rows before it writes anything.
    When does that reach the database that the PostgreSQL driver's NewOrder reaches, which
    reads each row just before it writes it? */
module TpccReadFirst {
  import opened Results
  import opened Tpcc
  import opened TpccConsistency

  /** A line with the price and the stock row read for it. */
  datatype Cached = Cached(line: Line, price: int, row: Stock)

  function KeyOf(line: Line): SKey { SKey(line.supplyW, line.item) }

  function ReadLine(db: Db, line: Line): Option<Cached> {
    var price :- Lookup(db.item, line.item);
    var row :- Lookup(db.stock, KeyOf(line));
    Some(Cached(line, price, row))
  }

  function ReadLines(db: Db, lines: seq<Line>, n: nat): (r: Option<seq<Cached>>)
    requires n <= |lines|
    ensures r.Some? ==> |r.value| == n && forall i :: 0 <= i < n ==> ReadLine(db, lines[i]) == Some(r.value[i])
  {
    if n == 0 then Some([])
    else
      var cache :- ReadLines(db, lines, n - 1);
      var c :- ReadLine(db, lines[n - 1]);
      Some(cache + [c])
  }

  function WriteLine(db: Db, k: OKey, c: Cached, number: int): Option<Db> {
    var db1 :- UpdateStock(db, KeyOf(c.line), StockAfter(c.row, c.line, k.w));
    InsertOrderLine(db1, LKey(k.w, k.d, k.o, number),
                    OrderLine(c.line.item, c.line.supplyW, None, c.line.quantity, c.line.quantity * c.price, c.row.distInfo))
  }

  function WriteLines(db: Db, k: OKey, cache: seq<Cached>, n: nat): Option<Db>
    requires n <= |cache|
  {
    if n == 0 then Some(db)
    else
      var db1 :- WriteLines(db, k, cache, n - 1);
      WriteLine(db1, k, cache[n - 1], n)
  }

  function ReadFirstSpec(db: Db, p: NewOrderParams): Option<Db> {
    var district :- Lookup(db.district, DKey(p.w, p.d));
    var cache :- ReadLines(db, p.lines, |p.lines|);
    var (k, db1) :- OpenOrder(db, p);
    WriteLines(db1, k, cache, |p.lines|)
  }

  /** No two lines of the order take from the same stock row. */
  predicate Distinct(lines: seq<Line>) {
    forall i, j :: 0 <= i < j < |lines| ==> KeyOf(lines[i]) != KeyOf(lines[j])
  }

  function Count(lines: seq<Line>, s: SKey, n: nat): nat
    requires n <= |lines|
  {
    if n == 0 then 0 else Count(lines, s, n - 1) + if KeyOf(lines[n - 1]) == s then 1 else 0
  }

  // ----- Distinct rows: the same database -----

  /** After n lines a stock row has S_ORDER_CNT up by the lines that took from it, and is the
      same row as before if none did. */
  lemma {:induction false} Interleaved(db: Db, k: OKey, lines: seq<Line>, n: nat, s: SKey)
    requires n <= |lines| && AddLines(db, k, lines, n).Some? && s in db.stock
    ensures var db' := AddLines(db, k, lines, n).value;
      && db'.item == db.item && db'.stock.Keys == db.stock.Keys
      && db'.stock[s].orderCount == db.stock[s].orderCount + Count(lines, s, n)
      && (Count(lines, s, n) == 0 ==> db'.stock[s] == db.stock[s])
  {
    hide AddLine;
    if n > 0 {
      Interleaved(db, k, lines, n - 1, s);
      var db1 := AddLines(db, k, lines, n - 1).value;
      AddLineWrites(db1, k, lines[n - 1], n);
    }
  }

  /** Lines that can be added can be read beforehand. */
  lemma {:induction false} AddedLinesAreReadable(db: Db, db0: Db, k: OKey, lines: seq<Line>, n: nat)
    requires n <= |lines| && AddLines(db, k, lines, n).Some?
    requires db0.item == db.item && db0.stock == db.stock
    ensures ReadLines(db0, lines, n).Some?
  {
    if n > 0 {
      AddedLinesAreReadable(db, db0, k, lines, n - 1);
      AllLinesEntered(db, k, lines, n - 1);
      var db1 := AddLines(db, k, lines, n - 1).value;
      AddLineWrites(db1, k, lines[n - 1], n);
    }
  }

  lemma CountNone(lines: seq<Line>, s: SKey, n: nat)
    requires n <= |lines| && forall i :: 0 <= i < n ==> KeyOf(lines[i]) != s
    ensures Count(lines, s, n) == 0
  {
  }

  lemma CurrentRowWritesTheSame(db: Db, k: OKey, c: Cached, n: int)
    requires ReadLine(db, c.line) == Some(c)
    ensures WriteLine(db, k, c, n) == AddLine(db, k, c.line, n)
  {
  }

  /** A row that the first n lines have not touched reads as it did before them. */
  lemma UntouchedRowReadsTheSame(db: Db, k: OKey, lines: seq<Line>, n: nat)
    requires n < |lines| && Distinct(lines) && AddLines(db, k, lines, n).Some?
    ensures ReadLine(AddLines(db, k, lines, n).value, lines[n]) == ReadLine(db, lines[n])
  {
    var s := KeyOf(lines[n]);
    AllLinesEntered(db, k, lines, n);
    if s in db.stock {
      CountNone(lines, s, n);
      Interleaved(db, k, lines, n, s);
    }
  }

  lemma {:induction false} CachedRowsAreCurrent(db: Db, k: OKey, lines: seq<Line>, cache: seq<Cached>, n: nat)
    requires n <= |lines| == |cache| && Distinct(lines)
    requires forall i :: 0 <= i < |lines| ==> ReadLine(db, lines[i]) == Some(cache[i])
    ensures AddLines(db, k, lines, n) == WriteLines(db, k, cache, n)
  {
    hide AddLine, WriteLine;
    if n > 0 {
      CachedRowsAreCurrent(db, k, lines, cache, n - 1);
      if AddLines(db, k, lines, n - 1).Some? {
        UntouchedRowReadsTheSame(db, k, lines, n - 1);
        CurrentRowWritesTheSame(AddLines(db, k, lines, n - 1).value, k, cache[n - 1], n);
      }
    }
  }

  lemma OpeningKeepsRows(db: Db, p: NewOrderParams, line: Line)
    requires OpenOrder(db, p).Some?
    ensures ReadLine(OpenOrder(db, p).value.1, line) == ReadLine(db, line)
  {
  }

  lemma DistinctRowsGiveTheSameDatabase(db: Db, p: NewOrderParams)
    requires Distinct(p.lines)
    ensures ReadFirstSpec(db, p) == NewOrderSpec(db, p)
  {
    if OpenOrder(db, p).Some? {
      var (k, db1) := OpenOrder(db, p).value;
      if ReadLines(db, p.lines, |p.lines|).Some? {
        var cache := ReadLines(db, p.lines, |p.lines|).value;
        forall i | 0 <= i < |p.lines| ensures ReadLine(db1, p.lines[i]) == Some(cache[i]) {
          OpeningKeepsRows(db, p, p.lines[i]);
        }
        CachedRowsAreCurrent(db1, k, p.lines, cache, |p.lines|);
      } else if AddLines(db1, k, p.lines, |p.lines|).Some? {
        AddedLinesAreReadable(db1, db, k, p.lines, |p.lines|);
      }
    }
  }

  // ----- A row taken from twice: another database -----

  lemma {:induction false} WrittenOnce(db: Db, k: OKey, cache: seq<Cached>, lines: seq<Line>, n: nat, s: SKey)
    requires n <= |cache| == |lines| && WriteLines(db, k, cache, n).Some? && s in db.stock
    requires forall i :: 0 <= i < |cache| ==> cache[i].line == lines[i] && (KeyOf(lines[i]) == s ==> cache[i].row == db.stock[s])
    ensures var db' := WriteLines(db, k, cache, n).value;
      && db'.stock.Keys == db.stock.Keys && db'.district == db.district
      && db'.stock[s].orderCount == db.stock[s].orderCount + if Count(lines, s, n) > 0 then 1 else 0
  {
    if n > 0 {
      WrittenOnce(db, k, cache, lines, n - 1, s);
      var db1 := WriteLines(db, k, cache, n - 1).value;
      var db2 := UpdateStock(db1, KeyOf(cache[n - 1].line), StockAfter(cache[n - 1].row, cache[n - 1].line, k.w)).value;
      assert WriteLines(db, k, cache, n).value.stock == db2.stock;
    }
  }

  lemma {:induction false} CountTwo(lines: seq<Line>, i: nat, j: nat, n: nat)
    requires i < j < n <= |lines| && KeyOf(lines[i]) == KeyOf(lines[j])
    ensures Count(lines, KeyOf(lines[i]), n) >= 2
  {
    if n - 1 > j {
      CountTwo(lines, i, j, n - 1);
    } else {
      CountOne(lines, i, j);
    }
  }

  lemma {:induction false} CountOne(lines: seq<Line>, i: nat, n: nat)
    requires i < n <= |lines|
    ensures Count(lines, KeyOf(lines[i]), n) >= 1
  {
    if n - 1 > i {
      CountOne(lines, i, n - 1);
    }
  }

  /** Reading first loses updates: the row that two lines share counts fewer orders. */
  lemma SharedRowGivesAnotherDatabase(db: Db, p: NewOrderParams, i: nat, j: nat)
    requires i < j < |p.lines| && KeyOf(p.lines[i]) == KeyOf(p.lines[j])
    requires NewOrderSpec(db, p).Some? && ReadFirstSpec(db, p).Some?
    ensures var s, kept, lost := KeyOf(p.lines[i]), NewOrderSpec(db, p).value.stock, ReadFirstSpec(db, p).value.stock;
      s in kept && s in lost && kept[s].orderCount > lost[s].orderCount
  {
    var s := KeyOf(p.lines[i]);
    var (k, db1) := OpenOrder(db, p).value;
    var cache := ReadLines(db, p.lines, |p.lines|).value;
    assert ReadLine(db, p.lines[i]) == Some(cache[i]);
    forall m | 0 <= m < |cache| ensures cache[m].line == p.lines[m] && (KeyOf(p.lines[m]) == s ==> cache[m].row == db1.stock[s]) {
      assert ReadLine(db, p.lines[m]) == Some(cache[m]);
    }
    CountTwo(p.lines, i, j, |p.lines|);
    Interleaved(db1, k, p.lines, |p.lines|, s);
    WrittenOnce(db1, k, cache, p.lines, |p.lines|, s);
  }

  // ----- Main result -----

  function Final(db: Db, outcome: Option<Db>): Db {
    if outcome.Some? then outcome.value else db
  }

  lemma {:induction false} WritesKeepDistricts(db: Db, k: OKey, cache: seq<Cached>, n: nat)
    requires n <= |cache| && WriteLines(db, k, cache, n).Some?
    ensures WriteLines(db, k, cache, n).value.district == db.district
  {
    if n > 0 {
      WritesKeepDistricts(db, k, cache, n - 1);
    }
  }

  /** For an order that the interleaved transaction commits, the two drivers leave the same database exactly
      when no two of its lines share a stock row; for any order, then or when both fail and roll back. */
  lemma SameDatabaseExactlyWhenDistinct(db: Db, p: NewOrderParams)
    ensures Final(db, NewOrderSpec(db, p)) == Final(db, ReadFirstSpec(db, p)) <==>
            Distinct(p.lines) || (NewOrderSpec(db, p).None? && ReadFirstSpec(db, p).None?)
    ensures NewOrderSpec(db, p).Some? ==> (ReadFirstSpec(db, p) == NewOrderSpec(db, p) <==> Distinct(p.lines))
  {
    hide NewOrderSpec, ReadFirstSpec, Distinct;
    if Distinct(p.lines) {
      DistinctRowsGiveTheSameDatabase(db, p);
    } else if NewOrderSpec(db, p).Some? && ReadFirstSpec(db, p).Some? {
      SharedRowMatters(db, p);
    } else {
      CommitTakesAnId(db, p);
    }
  }

  lemma SharedRowMatters(db: Db, p: NewOrderParams)
    requires !Distinct(p.lines) && NewOrderSpec(db, p).Some? && ReadFirstSpec(db, p).Some?
    ensures NewOrderSpec(db, p).value != ReadFirstSpec(db, p).value
  {
    hide NewOrderSpec, ReadFirstSpec;
    var i, j :| 0 <= i < j < |p.lines| && KeyOf(p.lines[i]) == KeyOf(p.lines[j]);
    SharedRowGivesAnotherDatabase(db, p, i, j);
  }

  lemma CommitTakesAnId(db: Db, p: NewOrderParams)
    ensures NewOrderSpec(db, p).Some? ==> NewOrderSpec(db, p).value != db
    ensures ReadFirstSpec(db, p).Some? ==> ReadFirstSpec(db, p).value != db
  {
    hide AddLines, WriteLines, ReadLines;
    if NewOrderSpec(db, p).Some? {
      NewOrderEnters(db, p);
      assert NewOrderSpec(db, p).value.district != db.district;
    }
    if ReadFirstSpec(db, p).Some? {
      var (k, db1) := OpenOrder(db, p).value;
      WritesKeepDistricts(db1, k, ReadLines(db, p.lines, |p.lines|).value, |p.lines|);
      assert db1.district[DKey(p.w, p.d)] != db.district[DKey(p.w, p.d)];
    }
  }
}
