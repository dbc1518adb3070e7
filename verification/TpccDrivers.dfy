/** The benchmark drivers' transactions, one statement at a time on a connection that may be
    lost at any statement, inside `withTx`. */
module TpccDrivers {
  import opened Results
  import opened Sums
  import opened Tpcc
  import opened TpccReadFirst
  import opened TpccCommits

  /** A connection inside the database server. `alive` is the number of statements it will still answer. */
  class Connection {
    var db: Db
    var saved: Db
    var alive: nat

    constructor (initial: Db, statements: nat)
      ensures db == initial && alive == statements
    {
      db, saved, alive := initial, initial, statements;
    }

    method Begin() returns (ok: bool)
      modifies this
      ensures db == old(db) && saved == old(db)
      ensures ok <==> old(alive) > 0
      ensures alive == if ok then old(alive) - 1 else 0
    {
      saved := db;
      ok := alive > 0;
      if ok {
        alive := alive - 1;
      }
    }

    /** A SELECT; the caller looks at the tables itself. */
    method Query() returns (ok: bool)
      modifies this
      ensures db == old(db) && saved == old(saved)
      ensures ok <==> old(alive) > 0
      ensures alive == if ok then old(alive) - 1 else 0
    {
      ok := alive > 0;
      if ok {
        alive := alive - 1;
      }
    }

    /** A statement that writes; `effect` is None if the server rejects it. */
    method Exec(effect: Option<Db>) returns (ok: bool)
      modifies this
      ensures ok <==> old(alive) > 0 && effect.Some?
      ensures db == (if ok then effect.value else old(db)) && saved == old(saved)
      ensures alive == if old(alive) > 0 then old(alive) - 1 else 0
    {
      if alive == 0 {
        return false;
      }
      alive := alive - 1;
      if effect.Some? {
        db := effect.value;
      }
      ok := effect.Some?;
    }

    /** Commits, or rolls back if the body failed or the connection is gone. */
    method Finish(bodyOk: bool) returns (ok: bool)
      modifies this
      ensures ok <==> bodyOk && old(alive) > 0
      ensures db == if ok then old(db) else old(saved)
    {
      ok := bodyOk && alive > 0;
      if !ok {
        db := saved;
      }
    }
  }

  // ----- Payment -----

  const PAYMENT_STATEMENTS := 7

  method PaymentBody(conn: Connection, p: PaymentParams) returns (ok: bool)
    modifies conn
    ensures conn.saved == old(conn.saved)
    ensures ok ==> PaymentSpec(old(conn.db), p) == Some(conn.db) && conn.alive + PAYMENT_STATEMENTS == old(conn.alive)
    ensures !ok ==> PaymentSpec(old(conn.db), p).None? || old(conn.alive) < PAYMENT_STATEMENTS
  {
    ok := conn.Exec(AddWarehouseYtd(conn.db, p.w, p.amount));
    if !ok { return; }
    ok := conn.Query();
    if !ok { return; }
    ok := conn.Exec(AddDistrictYtd(conn.db, DKey(p.w, p.d), p.amount));
    if !ok { return; }
    ok := conn.Query();
    if !ok { return; }
    ok := conn.Query();
    if !ok { return; }
    ok := conn.Exec(ChargeCustomer(conn.db, CKey(p.w, p.d, p.c), p.amount));
    if !ok { return; }
    ok := conn.Exec(InsertHistory(conn.db, History(p.w, p.d, p.c, p.amount)));
  }

  /** A payment commits all of its effect or leaves the database as it was, and it commits exactly if the
      connection holds to the end and the numbers fit. */
  method Payment(conn: Connection, p: PaymentParams) returns (ok: bool)
    modifies conn
    ensures ok ==> PaymentSpec(old(conn.db), p) == Some(conn.db)
    ensures !ok ==> conn.db == old(conn.db)
    ensures ok <==> old(conn.alive) >= PAYMENT_STATEMENTS + 2 && PaymentFits(old(conn.db), p)
  {
    hide PaymentSpec, PaymentFits;
    PaymentCommitsExactly(conn.db, p);
    ok := conn.Begin();
    if !ok { return; }
    ok := PaymentBody(conn, p);
    ok := conn.Finish(ok);
  }

  // ----- NewOrder -----

  function NewOrderStatements(lines: nat): nat {
    6 + 4 * lines
  }

  method CheckAllLocal(p: NewOrderParams) returns (allLocal: bool)
    ensures allLocal == AllLocal(p)
  {
    allLocal := true;
    for i := 0 to |p.lines|
      invariant allLocal
      invariant forall j :: 0 <= j < i ==> p.lines[j].supplyW == p.w
    {
      if p.lines[i].supplyW != p.w {
        return false;
      }
    }
  }

  lemma {:induction false} FailureStays(db: Db, k: OKey, lines: seq<Line>, n: nat, m: nat)
    requires n <= m <= |lines| && AddLines(db, k, lines, n).None?
    ensures AddLines(db, k, lines, m).None?
  {
    hide AddLine;
    if n < m {
      FailureStays(db, k, lines, n, m - 1);
    }
  }

  /** The four statements of a line. */
  method NewOrderLine(conn: Connection, k: OKey, line: Line, number: int) returns (ok: bool)
    modifies conn
    ensures conn.saved == old(conn.saved)
    ensures ok ==> AddLine(old(conn.db), k, line, number) == Some(conn.db) && conn.alive + 4 == old(conn.alive)
    ensures !ok ==> AddLine(old(conn.db), k, line, number).None? || old(conn.alive) < 4
  {
    ok := conn.Query();
    if !ok { return; }
    if line.item !in conn.db.item {
      return false;
    }
    var price := conn.db.item[line.item];
    ok := conn.Query();
    if !ok { return; }
    var key := SKey(line.supplyW, line.item);
    if key !in conn.db.stock {
      return false;
    }
    var row := conn.db.stock[key];
    var newQty := row.quantity - line.quantity;
    if newQty < 10 {
      newQty := newQty + 91;
    }
    var remoteInc := 0;
    if line.supplyW != k.w {
      remoteInc := 1;
    }
    ok := conn.Exec(UpdateStock(conn.db, key, Stock(newQty, row.distInfo, row.ytd + line.quantity,
                                                    row.orderCount + 1, row.remoteCount + remoteInc)));
    if !ok { return; }
    ok := conn.Exec(InsertOrderLine(conn.db, LKey(k.w, k.d, k.o, number),
                                    OrderLine(line.item, line.supplyW, None, line.quantity, line.quantity * price, row.distInfo)));
  }

  /** The statements that open the order, once its district row has been read. */
  method OpenOrderStatements(conn: Connection, p: NewOrderParams) returns (ok: bool, k: OKey)
    requires DKey(p.w, p.d) in conn.db.district
    modifies conn
    ensures conn.saved == old(conn.saved)
    ensures ok ==> OpenOrder(old(conn.db), p) == Some((k, conn.db)) && conn.alive + 3 == old(conn.alive)
    ensures !ok ==> OpenOrder(old(conn.db), p).None? || old(conn.alive) < 3
  {
    k := OKey(p.w, p.d, conn.db.district[DKey(p.w, p.d)].nextOrder);
    var allLocal := CheckAllLocal(p);
    ok := conn.Exec(TakeOrderId(conn.db, DKey(p.w, p.d)));
    if !ok { return; }
    ok := conn.Exec(InsertOrder(conn.db, k, Order(p.c, None, |p.lines|, allLocal)));
    if !ok { return; }
    ok := conn.Exec(InsertNewOrder(conn.db, k));
  }

  method NewOrderLines(conn: Connection, k: OKey, lines: seq<Line>) returns (ok: bool)
    modifies conn
    ensures conn.saved == old(conn.saved)
    ensures ok ==> AddLines(old(conn.db), k, lines, |lines|) == Some(conn.db) && conn.alive + 4 * |lines| == old(conn.alive)
    ensures !ok ==> AddLines(old(conn.db), k, lines, |lines|).None? || old(conn.alive) < 4 * |lines|
  {
    hide AddLine;
    ok := true;
    for i := 0 to |lines|
      invariant conn.saved == old(conn.saved) && ok
      invariant AddLines(old(conn.db), k, lines, i) == Some(conn.db)
      invariant conn.alive + 4 * i == old(conn.alive)
    {
      ok := NewOrderLine(conn, k, lines[i], i + 1);
      if !ok {
        if AddLines(old(conn.db), k, lines, i + 1).None? {
          FailureStays(old(conn.db), k, lines, i + 1, |lines|);
        }
        return;
      }
    }
  }

  method NewOrderBody(conn: Connection, p: NewOrderParams) returns (ok: bool)
    modifies conn
    ensures conn.saved == old(conn.saved)
    ensures ok ==> NewOrderSpec(old(conn.db), p) == Some(conn.db) && conn.alive + NewOrderStatements(|p.lines|) == old(conn.alive)
    ensures !ok ==> NewOrderSpec(old(conn.db), p).None? || old(conn.alive) < NewOrderStatements(|p.lines|)
  {
    ok := conn.Query();
    if !ok { return; }
    ok := conn.Query();
    if !ok { return; }
    ok := conn.Query();
    if !ok { return; }
    if DKey(p.w, p.d) !in conn.db.district {
      return false;
    }
    var k: OKey;
    ok, k := OpenOrderStatements(conn, p);
    if !ok { return; }
    ok := NewOrderLines(conn, k, p.lines);
  }

  method NewOrder(conn: Connection, p: NewOrderParams) returns (ok: bool)
    modifies conn
    ensures ok ==> NewOrderSpec(old(conn.db), p) == Some(conn.db)
    ensures !ok ==> conn.db == old(conn.db)
    ensures ok <==> old(conn.alive) >= NewOrderStatements(|p.lines|) + 2 && NewOrderFits(old(conn.db), p)
  {
    hide NewOrderSpec, NewOrderFits;
    NewOrderCommitsExactly(conn.db, p);
    ok := conn.Begin();
    if !ok { return; }
    ok := NewOrderBody(conn, p);
    ok := conn.Finish(ok);
  }

  // ----- Delivery -----

  ghost predicate Undelivered(db: Db, k: DKey) {
    exists o :: OKey(k.w, k.d, o) in db.newOrder
  }

  /** Only the search for the oldest order if there is none, and seven statements if there is one. */
  ghost function DistrictStatements(db: Db, k: DKey): nat {
    if Undelivered(db, k) then 7 else 1
  }

  ghost function DeliveryStatements(db: Db, w: int, n: nat): nat {
    if n == 0 then 0 else DeliveryStatements(db, w, n - 1) + DistrictStatements(db, DKey(w, n))
  }

  lemma SameStatements(db: Db, p: DeliveryParams, n: nat, now: int)
    requires n > 0 && DeliverUpTo(db, p, n - 1, now).Some?
    ensures DistrictStatements(DeliverUpTo(db, p, n - 1, now).value, DKey(p.w, n)) == DistrictStatements(db, DKey(p.w, n))
  {
    hide DeliverUpTo;
    LaterDistrictsStay(db, p, n - 1, now, n);
    assert forall o :: DistrictOf(OKey(p.w, n, o)) == DKey(p.w, n);
  }

  lemma {:induction false} MoreDistrictsMoreStatements(db: Db, w: int, n: nat, m: nat)
    requires n <= m
    ensures DeliveryStatements(db, w, n) <= DeliveryStatements(db, w, m)
  {
    if n < m {
      MoreDistrictsMoreStatements(db, w, n, m - 1);
    }
  }

  method SelectOldest(db: Db, k: DKey) returns (oldest: Option<int>)
    ensures oldest == Oldest(db, k)
    ensures oldest.Some? <==> Undelivered(db, k)
  {
    oldest := None;
    var rest := db.newOrder;
    while rest != {}
      invariant rest <= db.newOrder
      invariant oldest.None? ==> forall j :: j in db.newOrder - rest ==> DistrictOf(j) != k
      invariant oldest.Some? ==> OKey(k.w, k.d, oldest.value) in db.newOrder
      invariant oldest.Some? ==> forall j :: j in db.newOrder - rest && DistrictOf(j) == k ==> oldest.value <= j.o
      decreases rest
    {
      var j :| j in rest;
      if DistrictOf(j) == k && (oldest.None? || j.o < oldest.value) {
        oldest := Some(j.o);
      }
      rest := rest - {j};
    }
    assert db.newOrder - rest == db.newOrder;
    if oldest.Some? {
      assert IsOldest(db, OKey(k.w, k.d, oldest.value));
      assert forall o :: IsOldest(db, OKey(k.w, k.d, o)) ==> o == oldest.value;
    }
  }

  method SelectSumAmount(db: Db, k: OKey) returns (sum: int)
    ensures sum == Sum(LineAmounts(db, k))
  {
    sum := 0;
    var rest := LineAmounts(db, k);
    while rest != map[]
      invariant sum + Sum(rest) == Sum(LineAmounts(db, k))
      decreases |rest|
    {
      var l :| l in rest;
      SumSplit(rest, l);
      sum := sum + rest[l];
      rest := rest - {l};
    }
  }

  method DeliverDistrictStatements(conn: Connection, k: DKey, carrier: int, now: int) returns (ok: bool)
    modifies conn
    ensures conn.saved == old(conn.saved)
    ensures ok ==> DeliverDistrict(old(conn.db), k, carrier, now) == Some(conn.db)
    ensures ok ==> conn.alive + DistrictStatements(old(conn.db), k) == old(conn.alive)
    ensures !ok ==> DeliverDistrict(old(conn.db), k, carrier, now).None? || old(conn.alive) < DistrictStatements(old(conn.db), k)
  {
    ok := conn.Query();
    if !ok { return; }
    var oldest := SelectOldest(conn.db, k);
    if oldest.None? { return; }
    var order := OKey(k.w, k.d, oldest.value);
    ok := conn.Exec(Some(conn.db.(newOrder := conn.db.newOrder - {order})));
    if !ok { return; }
    ok := conn.Query();
    if !ok { return; }
    if order !in conn.db.orders {
      return false;
    }
    var customer := CustomerOf(order, conn.db.orders[order]);
    ok := conn.Exec(SetCarrier(conn.db, order, carrier));
    if !ok { return; }
    ok := conn.Exec(Some(StampLines(conn.db, order, now)));
    if !ok { return; }
    ok := conn.Query();
    if !ok { return; }
    var amount := SelectSumAmount(conn.db, order);
    ok := conn.Exec(CreditCustomer(conn.db, customer, amount));
  }

  lemma {:induction false} DeliveryFailureStays(db: Db, p: DeliveryParams, n: nat, m: nat, now: int)
    requires n <= m && DeliverUpTo(db, p, n, now).None?
    ensures DeliverUpTo(db, p, m, now).None?
  {
    if n < m {
      DeliveryFailureStays(db, p, n, m - 1, now);
    }
  }

  method DeliveryBody(conn: Connection, p: DeliveryParams, now: int) returns (ok: bool)
    modifies conn
    ensures conn.saved == old(conn.saved)
    ensures ok ==> DeliverySpec(old(conn.db), p, now) == Some(conn.db)
    ensures ok ==> conn.alive + DeliveryStatements(old(conn.db), p.w, 10) == old(conn.alive)
    ensures !ok ==> DeliverySpec(old(conn.db), p, now).None? || old(conn.alive) < DeliveryStatements(old(conn.db), p.w, 10)
  {
    hide DeliverDistrict, DistrictStatements;
    ok := true;
    for d := 1 to 11
      invariant conn.saved == old(conn.saved) && ok
      invariant DeliverUpTo(old(conn.db), p, d - 1, now) == Some(conn.db)
      invariant conn.alive + DeliveryStatements(old(conn.db), p.w, d - 1) == old(conn.alive)
    {
      SameStatements(old(conn.db), p, d, now);
      MoreDistrictsMoreStatements(old(conn.db), p.w, d, 10);
      ok := DeliverDistrictStatements(conn, DKey(p.w, d), p.carrier, now);
      if !ok {
        if DeliverUpTo(old(conn.db), p, d, now).None? {
          DeliveryFailureStays(old(conn.db), p, d, 10, now);
        }
        return;
      }
    }
  }

  method Delivery(conn: Connection, p: DeliveryParams, now: int) returns (ok: bool)
    modifies conn
    ensures ok ==> DeliverySpec(old(conn.db), p, now) == Some(conn.db)
    ensures !ok ==> conn.db == old(conn.db)
    ensures ok <==> && old(conn.alive) >= DeliveryStatements(old(conn.db), p.w, 10) + 2
                    && forall d :: 1 <= d <= 10 ==> DeliveryFits(old(conn.db), DKey(p.w, d), p.carrier)
  {
    hide DeliverySpec, DeliveryFits, DeliveryStatements;
    DeliveryCommitsExactly(conn.db, p, now);
    ok := conn.Begin();
    if !ok { return; }
    ok := DeliveryBody(conn, p, now);
    ok := conn.Finish(ok);
  }

  // ----- NewOrder of the MySQL driver -----

  lemma {:induction false} UnreadableStays(db: Db, lines: seq<Line>, n: nat, m: nat)
    requires n <= m <= |lines| && ReadLines(db, lines, n).None?
    ensures ReadLines(db, lines, m).None?
  {
    if n < m {
      UnreadableStays(db, lines, n, m - 1);
    }
  }

  lemma {:induction false} WriteFailureStays(db: Db, k: OKey, cache: seq<Cached>, n: nat, m: nat)
    requires n <= m <= |cache| && WriteLines(db, k, cache, n).None?
    ensures WriteLines(db, k, cache, m).None?
  {
    hide WriteLine;
    if n < m {
      WriteFailureStays(db, k, cache, n, m - 1);
    }
  }

  method FillCache(conn: Connection, lines: seq<Line>) returns (ok: bool, cache: seq<Cached>)
    modifies conn
    ensures conn.saved == old(conn.saved) && conn.db == old(conn.db)
    ensures ok ==> ReadLines(conn.db, lines, |lines|) == Some(cache) && conn.alive + 2 * |lines| == old(conn.alive)
    ensures !ok ==> ReadLines(conn.db, lines, |lines|).None? || old(conn.alive) < 2 * |lines|
  {
    cache := [];
    ok := true;
    for i := 0 to |lines|
      invariant conn.saved == old(conn.saved) && conn.db == old(conn.db) && ok
      invariant ReadLines(conn.db, lines, i) == Some(cache)
      invariant conn.alive + 2 * i == old(conn.alive)
    {
      ok := conn.Query();
      if !ok { return; }
      if lines[i].item !in conn.db.item {
        assert ReadLines(conn.db, lines, i + 1).None?;
        UnreadableStays(conn.db, lines, i + 1, |lines|);
        return false, cache;
      }
      ok := conn.Query();
      if !ok { return; }
      if KeyOf(lines[i]) !in conn.db.stock {
        assert ReadLines(conn.db, lines, i + 1).None?;
        UnreadableStays(conn.db, lines, i + 1, |lines|);
        return false, cache;
      }
      cache := cache + [Cached(lines[i], conn.db.item[lines[i].item], conn.db.stock[KeyOf(lines[i])])];
    }
  }

  method WriteCachedLine(conn: Connection, k: OKey, c: Cached, number: int) returns (ok: bool)
    modifies conn
    ensures conn.saved == old(conn.saved)
    ensures ok ==> WriteLine(old(conn.db), k, c, number) == Some(conn.db) && conn.alive + 2 == old(conn.alive)
    ensures !ok ==> WriteLine(old(conn.db), k, c, number).None? || old(conn.alive) < 2
  {
    var newQty := c.row.quantity - c.line.quantity;
    if newQty < 10 {
      newQty := newQty + 91;
    }
    var remoteInc := 0;
    if c.line.supplyW != k.w {
      remoteInc := 1;
    }
    ok := conn.Exec(UpdateStock(conn.db, KeyOf(c.line), Stock(newQty, c.row.distInfo, c.row.ytd + c.line.quantity,
                                                              c.row.orderCount + 1, c.row.remoteCount + remoteInc)));
    if !ok { return; }
    ok := conn.Exec(InsertOrderLine(conn.db, LKey(k.w, k.d, k.o, number),
                                    OrderLine(c.line.item, c.line.supplyW, None, c.line.quantity, c.line.quantity * c.price,
                                              c.row.distInfo)));
  }

  method WriteCache(conn: Connection, k: OKey, cache: seq<Cached>) returns (ok: bool)
    modifies conn
    ensures conn.saved == old(conn.saved)
    ensures ok ==> WriteLines(old(conn.db), k, cache, |cache|) == Some(conn.db) && conn.alive + 2 * |cache| == old(conn.alive)
    ensures !ok ==> WriteLines(old(conn.db), k, cache, |cache|).None? || old(conn.alive) < 2 * |cache|
  {
    hide WriteLine;
    ok := true;
    for i := 0 to |cache|
      invariant conn.saved == old(conn.saved) && ok
      invariant WriteLines(old(conn.db), k, cache, i) == Some(conn.db)
      invariant conn.alive + 2 * i == old(conn.alive)
    {
      ok := WriteCachedLine(conn, k, cache[i], i + 1);
      if !ok {
        if WriteLines(old(conn.db), k, cache, i + 1).None? {
          WriteFailureStays(old(conn.db), k, cache, i + 1, |cache|);
        }
        return;
      }
    }
  }

  method ReadFirstBody(conn: Connection, p: NewOrderParams) returns (ok: bool)
    modifies conn
    ensures conn.saved == old(conn.saved)
    ensures ok ==> ReadFirstSpec(old(conn.db), p) == Some(conn.db) && conn.alive + NewOrderStatements(|p.lines|) == old(conn.alive)
    ensures !ok ==> ReadFirstSpec(old(conn.db), p).None? || old(conn.alive) < NewOrderStatements(|p.lines|)
  {
    ok := conn.Query();
    if !ok { return; }
    ok := conn.Query();
    if !ok { return; }
    ok := conn.Query();
    if !ok { return; }
    if DKey(p.w, p.d) !in conn.db.district {
      return false;
    }
    var cache: seq<Cached>;
    ok, cache := FillCache(conn, p.lines);
    if !ok { return; }
    var k: OKey;
    ok, k := OpenOrderStatements(conn, p);
    if !ok { return; }
    ok := WriteCache(conn, k, cache);
  }

  /** The MySQL NewOrder leaves the database the PostgreSQL one would leave when no two lines share a stock row. */
  method NewOrderReadFirst(conn: Connection, p: NewOrderParams) returns (ok: bool)
    modifies conn
    ensures ok ==> ReadFirstSpec(old(conn.db), p) == Some(conn.db)
    ensures ok && Distinct(p.lines) ==> NewOrderSpec(old(conn.db), p) == Some(conn.db)
    ensures !ok ==> conn.db == old(conn.db)
    ensures ok <==> old(conn.alive) >= NewOrderStatements(|p.lines|) + 2 && ReadFirstSpec(old(conn.db), p).Some?
    ensures Distinct(p.lines) ==>
              (ok <==> old(conn.alive) >= NewOrderStatements(|p.lines|) + 2 && NewOrderFits(old(conn.db), p))
  {
    hide NewOrderSpec, ReadFirstSpec, NewOrderFits;
    NewOrderCommitsExactly(conn.db, p);
    if Distinct(p.lines) {
      DistinctRowsGiveTheSameDatabase(conn.db, p);
    }
    ok := conn.Begin();
    if !ok { return; }
    ok := ReadFirstBody(conn, p);
    ok := conn.Finish(ok);
  }
}
