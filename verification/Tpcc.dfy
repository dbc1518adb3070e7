/** The TPC-C tables as the benchmark's schema declares them, the statements its drivers send,
    and the three transactions that write. Money is in cents. A statement that violates a
    key, a reference or a column's range fails; None is a failed statement. */
module Tpcc {
  import opened Results
  import opened Sums

  datatype DKey = DKey(w: int, d: int)
  datatype CKey = CKey(w: int, d: int, c: int)
  datatype OKey = OKey(w: int, d: int, o: int)
  datatype LKey = LKey(w: int, d: int, o: int, n: int)
  datatype SKey = SKey(w: int, i: int)

  datatype Warehouse = Warehouse(ytd: int)
  datatype District = District(ytd: int, nextOrder: int)
  datatype Customer = Customer(balance: int, ytdPayment: int, paymentCount: int, deliveryCount: int)
  datatype History = History(w: int, d: int, c: int, amount: int)
  datatype Order = Order(c: int, carrier: Option<int>, lineCount: int, allLocal: bool)
  datatype OrderLine = OrderLine(item: int, supplyW: int, delivered: Option<int>, quantity: int, amount: int, distInfo: string)
  datatype Stock = Stock(quantity: int, distInfo: string, ytd: int, orderCount: int, remoteCount: int)

  /** The database: each table is a map from primary keys; `history` has no key, and `item` maps to the price. */
  datatype Db = Db(
    warehouse: map<int, Warehouse>,
    district: map<DKey, District>,
    customer: map<CKey, Customer>,
    history: seq<History>,
    orders: map<OKey, Order>,
    newOrder: set<OKey>,
    orderLine: map<LKey, OrderLine>,
    item: map<int, int>,
    stock: map<SKey, Stock>)

  datatype Line = Line(item: int, supplyW: int, quantity: int)
  datatype NewOrderParams = NewOrderParams(w: int, d: int, c: int, lines: seq<Line>)
  datatype PaymentParams = PaymentParams(w: int, d: int, c: int, amount: int)
  datatype DeliveryParams = DeliveryParams(w: int, carrier: int)

  function DistrictOf(k: OKey): DKey { DKey(k.w, k.d) }
  function OrderOf(l: LKey): OKey { OKey(l.w, l.d, l.o) }
  function CustomerOf(k: OKey, row: Order): CKey { CKey(k.w, k.d, row.c) }

  // ----- Column ranges -----

  predicate Numeric12_2(cents: int) { -1_000_000_000_000 < cents < 1_000_000_000_000 }
  predicate Numeric6_2(cents: int) { -1_000_000 < cents < 1_000_000 }
  predicate Numeric8_0(n: int) { -100_000_000 < n < 100_000_000 }
  predicate Int4(n: int) { -0x8000_0000 <= n < 0x8000_0000 }

  // ----- Statements of Payment -----

  function AddWarehouseYtd(db: Db, w: int, amount: int): Option<Db> {
    if w !in db.warehouse then Some(db)
    else
      var ytd := db.warehouse[w].ytd + amount;
      if Numeric12_2(ytd) then Some(db.(warehouse := db.warehouse[w := Warehouse(ytd)])) else None
  }

  function AddDistrictYtd(db: Db, k: DKey, amount: int): Option<Db> {
    if k !in db.district then Some(db)
    else
      var ytd := db.district[k].ytd + amount;
      if Numeric12_2(ytd) then Some(db.(district := db.district[k := db.district[k].(ytd := ytd)])) else None
  }

  function ChargeCustomer(db: Db, k: CKey, amount: int): Option<Db> {
    if k !in db.customer then Some(db)
    else
      var row := db.customer[k];
      var row' := Customer(row.balance - amount, row.ytdPayment + amount, row.paymentCount + 1, row.deliveryCount);
      if Numeric12_2(row'.balance) && Numeric12_2(row'.ytdPayment) && Int4(row'.paymentCount)
      then Some(db.(customer := db.customer[k := row'])) else None
  }

  function InsertHistory(db: Db, row: History): Option<Db> {
    if Numeric6_2(row.amount) then Some(db.(history := db.history + [row])) else None
  }

  function PaymentSpec(db: Db, p: PaymentParams): Option<Db> {
    var db1 :- AddWarehouseYtd(db, p.w, p.amount);
    var db2 :- AddDistrictYtd(db1, DKey(p.w, p.d), p.amount);
    var db3 :- ChargeCustomer(db2, CKey(p.w, p.d, p.c), p.amount);
    InsertHistory(db3, History(p.w, p.d, p.c, p.amount))
  }

  // ----- Statements of NewOrder -----

  function Lookup<K, V>(m: map<K, V>, k: K): Option<V> {
    if k in m then Some(m[k]) else None
  }

  function TakeOrderId(db: Db, k: DKey): Option<Db> {
    if k !in db.district then Some(db)
    else
      var next := db.district[k].nextOrder + 1;
      if Int4(next) then Some(db.(district := db.district[k := db.district[k].(nextOrder := next)])) else None
  }

  function InsertOrder(db: Db, k: OKey, row: Order): Option<Db> {
    if k !in db.orders && CustomerOf(k, row) in db.customer then Some(db.(orders := db.orders[k := row])) else None
  }

  function InsertNewOrder(db: Db, k: OKey): Option<Db> {
    if k !in db.newOrder && k in db.orders then Some(db.(newOrder := db.newOrder + {k})) else None
  }

  /** The new quantity of a stock row: replenished by 91 where the order would leave fewer than 10. */
  function Restocked(quantity: int, ordered: int): int {
    var left := quantity - ordered;
    if left < 10 then left + 91 else left
  }

  function StockAfter(row: Stock, line: Line, homeW: int): Stock {
    Stock(Restocked(row.quantity, line.quantity), row.distInfo, row.ytd + line.quantity, row.orderCount + 1,
          row.remoteCount + if line.supplyW != homeW then 1 else 0)
  }

  function UpdateStock(db: Db, k: SKey, row: Stock): Option<Db> {
    if k !in db.stock then Some(db)
    else if Int4(row.quantity) && Numeric8_0(row.ytd) && Int4(row.orderCount) && Int4(row.remoteCount)
    then Some(db.(stock := db.stock[k := row])) else None
  }

  function InsertOrderLine(db: Db, k: LKey, row: OrderLine): Option<Db> {
    if k !in db.orderLine && OrderOf(k) in db.orders && Int4(row.quantity) && Numeric6_2(row.amount)
    then Some(db.(orderLine := db.orderLine[k := row])) else None
  }

  /** The four statements of one order line; the price and the stock row are read first. */
  function AddLine(db: Db, order: OKey, line: Line, number: int): Option<Db> {
    var price :- Lookup(db.item, line.item);
    var key := SKey(line.supplyW, line.item);
    var row :- Lookup(db.stock, key);
    var db1 :- UpdateStock(db, key, StockAfter(row, line, order.w));
    InsertOrderLine(db1, LKey(order.w, order.d, order.o, number),
                    OrderLine(line.item, line.supplyW, None, line.quantity, line.quantity * price, row.distInfo))
  }

  /** The first n lines, numbered from 1. */
  function AddLines(db: Db, order: OKey, lines: seq<Line>, n: nat): Option<Db>
    requires n <= |lines|
  {
    if n == 0 then Some(db)
    else
      var db1 :- AddLines(db, order, lines, n - 1);
      AddLine(db1, order, lines[n - 1], n)
  }

  predicate AllLocal(p: NewOrderParams) {
    forall i :: 0 <= i < |p.lines| ==> p.lines[i].supplyW == p.w
  }

  /** Everything before the lines: the order id, the order and its entry in NEW_ORDER. */
  function OpenOrder(db: Db, p: NewOrderParams): Option<(OKey, Db)> {
    var district :- Lookup(db.district, DKey(p.w, p.d));
    var k := OKey(p.w, p.d, district.nextOrder);
    var db1 :- TakeOrderId(db, DKey(p.w, p.d));
    var db2 :- InsertOrder(db1, k, Order(p.c, None, |p.lines|, AllLocal(p)));
    var db3 :- InsertNewOrder(db2, k);
    Some((k, db3))
  }

  function NewOrderSpec(db: Db, p: NewOrderParams): Option<Db> {
    var (k, db1) :- OpenOrder(db, p);
    AddLines(db1, k, p.lines, |p.lines|)
  }

  // ----- Statements of Delivery -----

  ghost predicate IsOldest(db: Db, k: OKey) {
    k in db.newOrder && forall k' :: k' in db.newOrder && DistrictOf(k') == DistrictOf(k) ==> k.o <= k'.o
  }

  /** `SELECT no_o_id ... ORDER BY no_o_id ASC LIMIT 1`. */
  ghost function Oldest(db: Db, k: DKey): Option<int> {
    if o :| IsOldest(db, OKey(k.w, k.d, o)) then Some(o) else None
  }

  function SetCarrier(db: Db, k: OKey, carrier: int): Option<Db> {
    if k !in db.orders then Some(db)
    else if Int4(carrier) then Some(db.(orders := db.orders[k := db.orders[k].(carrier := Some(carrier))]))
    else None
  }

  function StampLines(db: Db, k: OKey, now: int): Db {
    db.(orderLine := map l | l in db.orderLine ::
          if OrderOf(l) == k then db.orderLine[l].(delivered := Some(now)) else db.orderLine[l])
  }

  function LineAmounts(db: Db, k: OKey): map<LKey, int> {
    map l | l in db.orderLine && OrderOf(l) == k :: db.orderLine[l].amount
  }

  function CreditCustomer(db: Db, k: CKey, amount: int): Option<Db> {
    if k !in db.customer then Some(db)
    else
      var row := db.customer[k].(balance := db.customer[k].balance + amount, deliveryCount := db.customer[k].deliveryCount + 1);
      if Numeric12_2(row.balance) && Int4(row.deliveryCount) then Some(db.(customer := db.customer[k := row])) else None
  }

  /** Delivers one order: the six statements after its id is known. */
  ghost function DeliverOrder(db: Db, k: OKey, carrier: int, now: int): Option<Db> {
    var db1 := db.(newOrder := db.newOrder - {k});
    var order :- Lookup(db1.orders, k);
    var db2 :- SetCarrier(db1, k, carrier);
    var db3 := StampLines(db2, k, now);
    CreditCustomer(db3, CustomerOf(k, order), Sum(LineAmounts(db3, k)))
  }

  /** One round of the loop over the districts; without undelivered orders it does nothing. */
  ghost function DeliverDistrict(db: Db, k: DKey, carrier: int, now: int): Option<Db> {
    match Oldest(db, k)
    case None => Some(db)
    case Some(o) => DeliverOrder(db, OKey(k.w, k.d, o), carrier, now)
  }

  /** The districts 1 to n, in order. */
  ghost function DeliverUpTo(db: Db, p: DeliveryParams, n: nat, now: int): Option<Db> {
    if n == 0 then Some(db)
    else
      var db1 :- DeliverUpTo(db, p, n - 1, now);
      DeliverDistrict(db1, DKey(p.w, n), p.carrier, now)
  }

  ghost function DeliverySpec(db: Db, p: DeliveryParams, now: int): Option<Db> {
    DeliverUpTo(db, p, 10, now)
  }

  // ----- Serial runs -----

  datatype Tx = NewOrderTx(n: NewOrderParams) | PaymentTx(p: PaymentParams) | DeliveryTx(d: DeliveryParams, now: int)

  ghost function Outcome(db: Db, tx: Tx): Option<Db> {
    match tx
    case NewOrderTx(p) => NewOrderSpec(db, p)
    case PaymentTx(p) => PaymentSpec(db, p)
    case DeliveryTx(p, now) => DeliverySpec(db, p, now)
  }

  /** The database once the transaction has committed or, on an error, rolled back. */
  ghost function After(db: Db, tx: Tx): Db {
    match Outcome(db, tx)
    case Some(db') => db'
    case None => db
  }

  ghost function Run(db: Db, txs: seq<Tx>): Db {
    if txs == [] then db else After(Run(db, txs[..|txs| - 1]), txs[|txs| - 1])
  }
}
