/** The stock rows over every serial run: the replenishment rule of Clause 2.4.2.2 of the TPC-C
    Standard Specification, and the year-to-date counters against the order lines. */
module TpccStock {
  import opened Sums
  import opened Tpcc
  import opened TpccConsistency

  /** Line quantities under which every stock level stays between 10 and 100; the workload draws 1 to 10. */
  predicate Orderable(quantity: int) {
    0 <= quantity <= 91
  }

  /** The replenishment rule keeps the range exactly for these quantities. */
  lemma RangeKeptExactly(ordered: int)
    ensures (forall q :: 10 <= q <= 100 ==> 10 <= Restocked(q, ordered) <= 100) <==> Orderable(ordered)
  {
    if ordered < 0 {
      assert Restocked(100, ordered) > 100;
    } else if ordered > 91 {
      assert Restocked(10, ordered) < 10;
    }
  }

  /** The level after the quantities ordered so far, in closed form. */
  function Level(initial: int, ordered: int): int {
    10 + (initial - 10 - ordered) % 91
  }

  lemma LevelSteps(initial: int, before: int, quantity: int)
    requires Orderable(quantity)
    ensures Restocked(Level(initial, before), quantity) == Level(initial, before + quantity)
  {
  }

  // ----- What the order lines say about a stock row -----

  /** What is counted over the lines that a stock row supplies. */
  datatype Measure = Quantity | Orders | RemoteOrders

  function Weight(m: Measure, l: LKey, row: OrderLine): int {
    match m
    case Quantity => row.quantity
    case Orders => 1
    case RemoteOrders => if l.w != row.supplyW then 1 else 0
  }

  /** The measure of each order line that stock row s supplies. */
  function Supplied(db: Db, s: SKey, m: Measure): map<LKey, int> {
    map l | l in db.orderLine && SKey(db.orderLine[l].supplyW, db.orderLine[l].item) == s :: Weight(m, l, db.orderLine[l])
  }

  /** A stock row against its initial quantity and the lines it has supplied. */
  ghost predicate RowAgrees(db: Db, seed: map<SKey, Stock>, s: SKey)
    requires s in db.stock && s in seed
  {
    var row := db.stock[s];
    && row.quantity == Level(seed[s].quantity, row.ytd)
    && row.ytd == Sum(Supplied(db, s, Quantity))
    && row.orderCount == Sum(Supplied(db, s, Orders))
    && row.remoteCount == Sum(Supplied(db, s, RemoteOrders))
  }

  ghost predicate StockAgrees(db: Db, seed: map<SKey, Stock>) {
    && db.stock.Keys == seed.Keys
    && forall s :: s in db.stock ==> RowAgrees(db, seed, s)
  }

  ghost predicate StockSeeded(db: Db) {
    && db.orderLine == map[]
    && forall s :: s in db.stock ==>
         10 <= db.stock[s].quantity <= 100 && db.stock[s].ytd == db.stock[s].orderCount == db.stock[s].remoteCount == 0
  }

  lemma SeedAgrees(db: Db)
    requires StockSeeded(db)
    ensures StockAgrees(db, db.stock)
  {
  }

  // ----- One order line -----

  lemma LineAdds(db: Db, k: OKey, line: Line, n: int, db': Db, s: SKey, m: Measure)
    requires LineWritten(db, k, line, n, db')
    ensures Sum(Supplied(db', s, m)) == Sum(Supplied(db, s, m)) +
              if SKey(line.supplyW, line.item) == s
              then Weight(m, LKey(k.w, k.d, k.o, n), db'.orderLine[LKey(k.w, k.d, k.o, n)]) else 0
  {
    var l := LKey(k.w, k.d, k.o, n);
    if SKey(line.supplyW, line.item) == s {
      var w := Weight(m, l, db'.orderLine[l]);
      SumInsert(Supplied(db, s, m), l, w);
      assert Supplied(db', s, m) == Supplied(db, s, m)[l := w];
    } else {
      assert Supplied(db', s, m) == Supplied(db, s, m);
    }
  }

  lemma LineKeepsRow(db: Db, seed: map<SKey, Stock>, k: OKey, line: Line, n: int, db': Db, s: SKey)
    requires s in db.stock && s in seed && s in db'.stock && RowAgrees(db, seed, s)
    requires Orderable(line.quantity) && LineWritten(db, k, line, n, db')
    ensures RowAgrees(db', seed, s)
  {
    hide Level, Supplied;
    LineAdds(db, k, line, n, db', s, Quantity);
    LineAdds(db, k, line, n, db', s, Orders);
    LineAdds(db, k, line, n, db', s, RemoteOrders);
    if SKey(line.supplyW, line.item) == s {
      LevelSteps(seed[s].quantity, db.stock[s].ytd, line.quantity);
      assert db'.stock[s] == StockAfter(db.stock[s], line, k.w);
    } else {
      assert db'.stock[s] == db.stock[s];
    }
  }

  lemma LineKeepsStock(db: Db, seed: map<SKey, Stock>, k: OKey, line: Line, n: int, db': Db)
    requires StockAgrees(db, seed) && Orderable(line.quantity) && LineWritten(db, k, line, n, db')
    ensures StockAgrees(db', seed)
  {
    assert db'.stock.Keys == db.stock.Keys;
    forall s | s in db'.stock ensures RowAgrees(db', seed, s) {
      LineKeepsRow(db, seed, k, line, n, db', s);
    }
  }

  // ----- Transactions and runs -----

  /** Every line of every order asks for a quantity the rule is made for. */
  ghost predicate OrderableLines(txs: seq<Tx>) {
    forall i, j :: 0 <= i < |txs| && txs[i].NewOrderTx? && 0 <= j < |txs[i].n.lines| ==> Orderable(txs[i].n.lines[j].quantity)
  }

  lemma {:induction false} LinesKeepStock(db: Db, seed: map<SKey, Stock>, k: OKey, lines: seq<Line>, n: nat)
    requires n <= |lines| && StockAgrees(db, seed) && AddLines(db, k, lines, n).Some?
    requires forall j :: 0 <= j < n ==> Orderable(lines[j].quantity)
    ensures StockAgrees(AddLines(db, k, lines, n).value, seed)
  {
    if n > 0 {
      LinesKeepStock(db, seed, k, lines, n - 1);
      var db1 := AddLines(db, k, lines, n - 1).value;
      AddLineWrites(db1, k, lines[n - 1], n);
      LineKeepsStock(db1, seed, k, lines[n - 1], n, AddLine(db1, k, lines[n - 1], n).value);
    }
  }

  /** The same lines, but for their delivery dates. */
  ghost predicate SameLines(db: Db, db': Db) {
    && db'.orderLine.Keys == db.orderLine.Keys
    && forall l :: l in db.orderLine ==> db'.orderLine[l] == db.orderLine[l].(delivered := db'.orderLine[l].delivered)
  }

  lemma SameSupplied(db: Db, db': Db, s: SKey, m: Measure)
    requires SameLines(db, db')
    ensures Supplied(db', s, m) == Supplied(db, s, m)
  {
  }

  lemma DatesDoNotMatter(db: Db, db': Db, seed: map<SKey, Stock>)
    requires StockAgrees(db, seed) && db'.stock == db.stock && SameLines(db, db')
    ensures StockAgrees(db', seed)
  {
    forall s | s in db'.stock ensures RowAgrees(db', seed, s) {
      assert RowAgrees(db, seed, s);
      SameSupplied(db, db', s, Quantity);
      SameSupplied(db, db', s, Orders);
      SameSupplied(db, db', s, RemoteOrders);
    }
  }

  lemma StampChangesDates(db: Db, k: OKey, carrier: int, now: int, db': Db)
    requires Delivered(db, k, carrier, now, db')
    ensures SameLines(db, db') && db'.stock == db.stock
  {
  }

  lemma {:induction false} DeliveryKeepsStock(db: Db, seed: map<SKey, Stock>, p: DeliveryParams, n: nat, now: int)
    requires StockAgrees(db, seed) && DeliverUpTo(db, p, n, now).Some?
    ensures StockAgrees(DeliverUpTo(db, p, n, now).value, seed)
  {
    if n > 0 {
      DeliveryKeepsStock(db, seed, p, n - 1, now);
      var db1 := DeliverUpTo(db, p, n - 1, now).value;
      match Oldest(db1, DKey(p.w, n))
      case None =>
      case Some(o) =>
        var db2 := DeliverOrder(db1, OKey(p.w, n, o), p.carrier, now).value;
        DeliverOrderDelivers(db1, OKey(p.w, n, o), p.carrier, now);
        StampChangesDates(db1, OKey(p.w, n, o), p.carrier, now, db2);
        DatesDoNotMatter(db1, db2, seed);
    }
  }

  lemma TransactionKeepsStock(db: Db, seed: map<SKey, Stock>, tx: Tx)
    requires StockAgrees(db, seed)
    requires tx.NewOrderTx? ==> forall j :: 0 <= j < |tx.n.lines| ==> Orderable(tx.n.lines[j].quantity)
    ensures StockAgrees(After(db, tx), seed)
  {
    if Outcome(db, tx).Some? {
      match tx
      case NewOrderTx(p) =>
        var (k, db1) := OpenOrder(db, p).value;
        DatesDoNotMatter(db, db1, seed);
        LinesKeepStock(db1, seed, k, p.lines, |p.lines|);
      case PaymentTx(p) =>
        PaymentPays(db, p);
        DatesDoNotMatter(db, After(db, tx), seed);
      case DeliveryTx(p, now) => DeliveryKeepsStock(db, seed, p, 10, now);
    }
  }

  /** After every serial run each stock row still lies between 10 and 100, its level is the
      closed form of its seeded level and S_YTD, and S_YTD, S_ORDER_CNT and S_REMOTE_CNT are the
      quantity, the number and the number from other warehouses of the lines it has supplied. */
  lemma {:induction false} EveryRunKeepsStock(db: Db, txs: seq<Tx>)
    requires StockSeeded(db) && OrderableLines(txs)
    ensures StockAgrees(Run(db, txs), db.stock)
    ensures forall s :: s in Run(db, txs).stock ==> 10 <= Run(db, txs).stock[s].quantity <= 100
  {
    if txs == [] {
      SeedAgrees(db);
    } else {
      var before := txs[..|txs| - 1];
      EveryRunKeepsStock(db, before);
      TransactionKeepsStock(Run(db, before), db.stock, txs[|txs| - 1]);
    }
    forall s | s in Run(db, txs).stock ensures 10 <= Run(db, txs).stock[s].quantity <= 100 {
      assert RowAgrees(Run(db, txs), db.stock, s);
    }
  }
}
