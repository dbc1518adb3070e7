/** The consistency conditions of Clause 3.3.2 of the TPC-C Standard Specification,
    Revision 5.11, over every serial run of the benchmark's transactions. */
module TpccConsistency {
  import opened Results
  import opened Sums
  import opened Tpcc

  // ----- Sums over the history -----

  datatype Scope = OfWarehouse(w: int) | OfDistrict(k: DKey) | OfCustomer(c: CKey)

  predicate Concerns(h: History, scope: Scope) {
    match scope
    case OfWarehouse(w) => h.w == w
    case OfDistrict(k) => DKey(h.w, h.d) == k
    case OfCustomer(c) => CKey(h.w, h.d, h.c) == c
  }

  /** The sum of H_AMOUNT over the rows of a warehouse, a district or a customer. */
  function Paid(history: seq<History>, scope: Scope): int {
    if history == [] then 0
    else
      var last := history[|history| - 1];
      Paid(history[..|history| - 1], scope) + if Concerns(last, scope) then last.amount else 0
  }

  // ----- The conditions -----

  const WAREHOUSE_SEED := 30_000_000
  const DISTRICT_SEED := 3_000_000
  const PAYMENT_SEED := 1_000
  const FIRST_ORDER := 3001

  function DistrictYtds(db: Db, w: int): map<DKey, int> {
    map k | k in db.district && k.w == w :: db.district[k].ytd
  }

  /** The amounts of the delivered order lines of a customer's orders. */
  function DeliveredTo(db: Db, c: CKey): map<LKey, int> {
    map l | l in db.orderLine && db.orderLine[l].delivered.Some? && OrderOf(l) in db.orders &&
            CustomerOf(OrderOf(l), db.orders[OrderOf(l)]) == c :: db.orderLine[l].amount
  }

  /** Consistency condition 1 (Clause 3.3.2.1): W_YTD = sum(D_YTD). */
  ghost predicate YtdAddsUp(db: Db) {
    forall w :: w in db.warehouse ==> db.warehouse[w].ytd == Sum(DistrictYtds(db, w))
  }

  /** Consistency conditions 8 and 9 (Clauses 3.3.2.8, 3.3.2.9), with the seed values added:
      the seeded history is empty. */
  ghost predicate YtdIsHistory(db: Db) {
    && (forall w :: w in db.warehouse ==> db.warehouse[w].ytd == WAREHOUSE_SEED + Paid(db.history, OfWarehouse(w)))
    && (forall k :: k in db.district ==> db.district[k].ytd == DISTRICT_SEED + Paid(db.history, OfDistrict(k)))
  }

  /** Consistency conditions 10 and 12 (Clauses 3.3.2.10, 3.3.2.12), likewise. */
  ghost predicate Balanced(db: Db) {
    forall c :: c in db.customer ==>
      && db.customer[c].balance + db.customer[c].ytdPayment == Sum(DeliveredTo(db, c))
      && db.customer[c].ytdPayment == PAYMENT_SEED + Paid(db.history, OfCustomer(c))
  }

  ghost predicate References(db: Db) {
    && (forall k :: k in db.district ==> k.w in db.warehouse)
    && (forall c :: c in db.customer ==> DKey(c.w, c.d) in db.district)
    && (forall k :: k in db.orders ==> CustomerOf(k, db.orders[k]) in db.customer)
  }

  /** Consistency condition 2 (Clause 3.3.2.2), for orders: a district's ids are 3001 up to D_NEXT_O_ID. */
  ghost predicate OrderIds(db: Db) {
    && (forall k :: k in db.district ==> FIRST_ORDER <= db.district[k].nextOrder)
    && (forall k :: k in db.orders <==>
          DistrictOf(k) in db.district && FIRST_ORDER <= k.o < db.district[DistrictOf(k)].nextOrder)
  }

  /** Consistency condition 3 (Clause 3.3.2.3): the NEW_ORDER ids are the last of those ids, without a gap. */
  ghost predicate NewOrdersAreLast(db: Db) {
    && (forall k :: k in db.newOrder ==> k in db.orders)
    && (forall k, k' :: k in db.newOrder && k' in db.orders && DistrictOf(k) == DistrictOf(k') && k.o <= k'.o ==> k' in db.newOrder)
  }

  /** Consistency condition 5 (Clause 3.3.2.5): no carrier iff not delivered. */
  ghost predicate CarriersMatch(db: Db) {
    forall k :: k in db.orders ==> (db.orders[k].carrier.None? <==> k in db.newOrder)
  }

  /** Consistency conditions 4 and 6 (Clauses 3.3.2.4, 3.3.2.6): an order has exactly the lines 1 to O_OL_CNT. */
  ghost predicate LinesMatch(db: Db) {
    forall l :: l in db.orderLine <==> OrderOf(l) in db.orders && 1 <= l.n <= db.orders[OrderOf(l)].lineCount
  }

  /** Consistency condition 7 (Clause 3.3.2.7): a line has no delivery date iff its order has no carrier. */
  ghost predicate DatesMatch(db: Db) {
    forall l :: l in db.orderLine ==> (db.orderLine[l].delivered.None? <==> OrderOf(l) in db.newOrder)
  }

  ghost predicate Orderly(db: Db) {
    References(db) && OrderIds(db) && NewOrdersAreLast(db) && CarriersMatch(db) && LinesMatch(db) && DatesMatch(db)
  }

  ghost predicate Consistent(db: Db) {
    Orderly(db) && YtdAddsUp(db) && YtdIsHistory(db) && Balanced(db)
  }

  /** The database the seed script leaves: ten districts per warehouse, no orders, no history. */
  ghost predicate Seeded(db: Db) {
    && References(db)
    && (forall w :: w in db.warehouse ==> db.warehouse[w].ytd == 30_000_000)
    && (forall w, d :: w in db.warehouse ==> (DKey(w, d) in db.district <==> 1 <= d <= 10))
    && (forall k :: k in db.district ==> db.district[k] == District(3_000_000, 3001))
    && (forall c :: c in db.customer ==> db.customer[c] == Customer(-1_000, 1_000, 1, 0))
    && db.history == [] && db.orders == map[] && db.newOrder == {} && db.orderLine == map[]
  }

  /** The seeded D_YTD of the districts 1 to n of a warehouse. */
  function SeededYtds(w: int, n: nat): (m: map<DKey, int>)
    ensures forall k :: k in m <==> k.w == w && 1 <= k.d <= n
    ensures forall k :: k in m ==> m[k] == DISTRICT_SEED
  {
    if n == 0 then map[] else SeededYtds(w, n - 1)[DKey(w, n) := DISTRICT_SEED]
  }

  lemma {:induction false} SeededYtdsAddUp(w: int, n: nat)
    ensures Sum(SeededYtds(w, n)) == n * DISTRICT_SEED
  {
    if n > 0 {
      SeededYtdsAddUp(w, n - 1);
      SumInsert(SeededYtds(w, n - 1), DKey(w, n), DISTRICT_SEED);
    }
  }

  lemma SeedIsConsistent(db: Db)
    requires Seeded(db)
    ensures Consistent(db)
  {
    forall w | w in db.warehouse ensures db.warehouse[w].ytd == Sum(DistrictYtds(db, w)) {
      SeededYtdsAddUp(w, 10);
      SameEntries(DistrictYtds(db, w), SeededYtds(w, 10));
    }
    SeededBalances(db);
  }

  lemma SeededBalances(db: Db)
    requires Seeded(db)
    ensures Balanced(db)
  {
  }

  // ----- Payment -----

  /** The one way in which Payment harms the database: the warehouse is there, the district is
      not, and the amount is not zero. Its UPDATE of the district then changes no row, which is
      no error. */
  predicate MissesDistrict(db: Db, p: PaymentParams) {
    p.w in db.warehouse && DKey(p.w, p.d) !in db.district && p.amount != 0
  }

  /** What a committed Payment has done to the tables. */
  ghost predicate PaidInto(db: Db, p: PaymentParams, db': Db) {
    && db'.history == db.history + [History(p.w, p.d, p.c, p.amount)]
    && db'.orders == db.orders && db'.newOrder == db.newOrder && db'.orderLine == db.orderLine
    && db'.item == db.item && db'.stock == db.stock
    && db'.warehouse.Keys == db.warehouse.Keys
    && (forall w :: w in db.warehouse ==> db'.warehouse[w].ytd == db.warehouse[w].ytd + if w == p.w then p.amount else 0)
    && db'.district.Keys == db.district.Keys
    && (forall k :: k in db.district ==>
          db'.district[k] == District(db.district[k].ytd + if k == DKey(p.w, p.d) then p.amount else 0, db.district[k].nextOrder))
    && db'.customer.Keys == db.customer.Keys
    && (forall c :: c in db.customer ==> db'.customer[c] == Charged(db.customer[c], c == CKey(p.w, p.d, p.c), p.amount))
  }

  /** The row of a customer after a payment, which changes the row of the one who pays. */
  function Charged(row: Customer, pays: bool, amount: int): Customer {
    if pays then Customer(row.balance - amount, row.ytdPayment + amount, row.paymentCount + 1, row.deliveryCount) else row
  }

  /** The row of a customer after the delivery of an order, which changes the row of the one who ordered. */
  function Credited(row: Customer, ordered: bool, amount: int): Customer {
    if ordered then Customer(row.balance + amount, row.ytdPayment, row.paymentCount, row.deliveryCount + 1) else row
  }

  lemma WarehousePaid(db: Db, w: int, amount: int)
    requires AddWarehouseYtd(db, w, amount).Some?
    ensures var db' := AddWarehouseYtd(db, w, amount).value;
      && db' == db.(warehouse := db'.warehouse) && db'.warehouse.Keys == db.warehouse.Keys
      && forall v :: v in db.warehouse ==> db'.warehouse[v].ytd == db.warehouse[v].ytd + if v == w then amount else 0
  {
  }

  lemma DistrictPaid(db: Db, k: DKey, amount: int)
    requires AddDistrictYtd(db, k, amount).Some?
    ensures var db' := AddDistrictYtd(db, k, amount).value;
      && db' == db.(district := db'.district) && db'.district.Keys == db.district.Keys
      && forall j :: j in db.district ==>
           db'.district[j] == District(db.district[j].ytd + if j == k then amount else 0, db.district[j].nextOrder)
  {
  }

  lemma CustomerPaid(db: Db, k: CKey, amount: int)
    requires ChargeCustomer(db, k, amount).Some?
    ensures var db' := ChargeCustomer(db, k, amount).value;
      && db' == db.(customer := db'.customer) && db'.customer.Keys == db.customer.Keys
      && forall c :: c in db.customer ==> db'.customer[c] == Charged(db.customer[c], c == k, amount)
  {
    hide Numeric12_2, Int4;
  }

  lemma PaymentPays(db: Db, p: PaymentParams)
    requires PaymentSpec(db, p).Some?
    ensures PaidInto(db, p, PaymentSpec(db, p).value)
  {
    WarehousePaid(db, p.w, p.amount);
    var db1 := AddWarehouseYtd(db, p.w, p.amount).value;
    DistrictPaid(db1, DKey(p.w, p.d), p.amount);
    var db2 := AddDistrictYtd(db1, DKey(p.w, p.d), p.amount).value;
    CustomerPaid(db2, CKey(p.w, p.d, p.c), p.amount);
  }

  /** Payment keeps every condition exactly when it does not miss its district. */
  lemma PaymentKeepsConsistency(db: Db, p: PaymentParams)
    requires Consistent(db) && PaymentSpec(db, p).Some?
    ensures Consistent(PaymentSpec(db, p).value) <==> !MissesDistrict(db, p)
  {
    PaymentPays(db, p);
    var db' := PaymentSpec(db, p).value;
    PaymentKeepsOrder(db, p, db');
    PaymentAndTheYtds(db, p, db');
    PaymentKeepsHistory(db, p, db');
    PaymentKeepsBalances(db, p, db');
  }

  lemma PaymentKeepsOrder(db: Db, p: PaymentParams, db': Db)
    requires Orderly(db) && PaidInto(db, p, db')
    ensures Orderly(db')
  {
  }

  lemma PaymentKeepsHistory(db: Db, p: PaymentParams, db': Db)
    requires References(db) && YtdIsHistory(db) && PaidInto(db, p, db')
    ensures YtdIsHistory(db')
  {
  }

  lemma PaymentKeepsBalances(db: Db, p: PaymentParams, db': Db)
    requires Balanced(db) && PaidInto(db, p, db')
    ensures Balanced(db')
  {
  }

  lemma OtherYtdsStay(db: Db, p: PaymentParams, db': Db, w: int)
    requires PaidInto(db, p, db') && (w != p.w || DKey(p.w, p.d) !in db.district)
    ensures DistrictYtds(db', w) == DistrictYtds(db, w)
  {
  }

  lemma PaidYtdsGrow(db: Db, p: PaymentParams, db': Db)
    requires PaidInto(db, p, db') && DKey(p.w, p.d) in db.district
    ensures Sum(DistrictYtds(db', p.w)) == Sum(DistrictYtds(db, p.w)) + p.amount
  {
    var k := DKey(p.w, p.d);
    SumUpdate(DistrictYtds(db, p.w), k, db.district[k].ytd + p.amount);
    SameEntries(DistrictYtds(db', p.w), DistrictYtds(db, p.w)[k := db.district[k].ytd + p.amount]);
  }

  lemma PaymentAndTheYtds(db: Db, p: PaymentParams, db': Db)
    requires References(db) && YtdAddsUp(db) && PaidInto(db, p, db')
    ensures YtdAddsUp(db') <==> !MissesDistrict(db, p)
  {
    var k := DKey(p.w, p.d);
    if k in db.district {
      PaidYtdsGrow(db, p, db');
    } else {
      OtherYtdsStay(db, p, db', p.w);
    }
    forall w | w in db.warehouse && w != p.w
      ensures db'.warehouse[w].ytd == Sum(DistrictYtds(db', w))
    {
      OtherYtdsStay(db, p, db', w);
    }
  }

  // ----- NewOrder -----

  /** What a committed NewOrder has done to the tables; k is the new order. */
  ghost predicate Entered(db: Db, p: NewOrderParams, k: OKey, db': Db) {
    var dk := DKey(p.w, p.d);
    && dk in db.district && k == OKey(p.w, p.d, db.district[dk].nextOrder)
    && k !in db.orders && CKey(p.w, p.d, p.c) in db.customer
    && db' == db.(district := db.district[dk := District(db.district[dk].ytd, db.district[dk].nextOrder + 1)],
                  orders := db.orders[k := Order(p.c, None, |p.lines|, AllLocal(p))],
                  newOrder := db.newOrder + {k},
                  orderLine := db'.orderLine, stock := db'.stock)
    && LinesEntered(db, k, |p.lines|, db')
  }

  /** The order has got the lines 1 to n, undelivered; the other lines are as before. */
  ghost predicate LinesEntered(db: Db, k: OKey, n: nat, db': Db) {
    && db'.stock.Keys == db.stock.Keys
    && (forall l :: l in db'.orderLine <==> l in db.orderLine || (OrderOf(l) == k && 1 <= l.n <= n))
    && (forall l :: l in db.orderLine ==> db'.orderLine[l] == db.orderLine[l])
    && (forall l :: l in db'.orderLine && l !in db.orderLine ==> db'.orderLine[l].delivered.None?)
  }

  /** What one line has done to the tables. */
  ghost predicate LineWritten(db: Db, k: OKey, line: Line, n: int, db': Db) {
    var l, s := LKey(k.w, k.d, k.o, n), SKey(line.supplyW, line.item);
    && l !in db.orderLine && s in db.stock && line.item in db.item
    && db' == db.(
         orderLine := db.orderLine[l := OrderLine(line.item, line.supplyW, None, line.quantity,
                                                  line.quantity * db.item[line.item], db.stock[s].distInfo)],
         stock := db.stock[s := StockAfter(db.stock[s], line, k.w)])
  }

  lemma AddLineWrites(db: Db, k: OKey, line: Line, n: int)
    requires AddLine(db, k, line, n).Some?
    ensures LineWritten(db, k, line, n, AddLine(db, k, line, n).value)
  {
  }

  lemma {:induction false} AllLinesEntered(db: Db, k: OKey, lines: seq<Line>, n: nat)
    requires n <= |lines| && AddLines(db, k, lines, n).Some?
    ensures var db' := AddLines(db, k, lines, n).value;
      db' == db.(orderLine := db'.orderLine, stock := db'.stock) && LinesEntered(db, k, n, db')
  {
    hide AddLine;
    if n > 0 {
      AllLinesEntered(db, k, lines, n - 1);
      var db1 := AddLines(db, k, lines, n - 1).value;
      AddLineWrites(db1, k, lines[n - 1], n);
    }
  }

  lemma NewOrderEnters(db: Db, p: NewOrderParams)
    requires NewOrderSpec(db, p).Some?
    ensures DKey(p.w, p.d) in db.district
    ensures Entered(db, p, OKey(p.w, p.d, db.district[DKey(p.w, p.d)].nextOrder), NewOrderSpec(db, p).value)
  {
    var (k, db1) := OpenOrder(db, p).value;
    AllLinesEntered(db1, k, p.lines, |p.lines|);
  }

  lemma NewOrderKeepsIds(db: Db, p: NewOrderParams, k: OKey, db': Db)
    requires OrderIds(db) && NewOrdersAreLast(db) && References(db) && Entered(db, p, k, db')
    ensures OrderIds(db') && References(db')
  {
  }

  lemma NewOrderKeepsNewOrders(db: Db, p: NewOrderParams, k: OKey, db': Db)
    requires OrderIds(db) && NewOrdersAreLast(db) && CarriersMatch(db) && Entered(db, p, k, db')
    ensures NewOrdersAreLast(db') && CarriersMatch(db')
  {
  }

  lemma NewOrderKeepsLines(db: Db, p: NewOrderParams, k: OKey, db': Db)
    requires LinesMatch(db) && DatesMatch(db) && Entered(db, p, k, db')
    ensures LinesMatch(db') && DatesMatch(db')
  {
  }

  lemma NewOrderDeliversNothing(db: Db, p: NewOrderParams, k: OKey, db': Db, c: CKey)
    requires LinesMatch(db) && Entered(db, p, k, db')
    ensures DeliveredTo(db', c) == DeliveredTo(db, c)
  {
  }

  lemma NewOrderKeepsYtds(db: Db, p: NewOrderParams, k: OKey, db': Db, w: int)
    requires Entered(db, p, k, db')
    ensures DistrictYtds(db', w) == DistrictYtds(db, w)
  {
  }

  lemma NewOrderKeepsMoney(db: Db, p: NewOrderParams, k: OKey, db': Db)
    requires LinesMatch(db) && YtdAddsUp(db) && YtdIsHistory(db) && Balanced(db) && Entered(db, p, k, db')
    ensures YtdAddsUp(db') && YtdIsHistory(db') && Balanced(db')
  {
    hide DeliveredTo, DistrictYtds, Paid, LinesEntered;
    forall w | w in db'.warehouse ensures DistrictYtds(db', w) == DistrictYtds(db, w) {
      NewOrderKeepsYtds(db, p, k, db', w);
    }
    forall c | c in db'.customer ensures DeliveredTo(db', c) == DeliveredTo(db, c) {
      NewOrderDeliversNothing(db, p, k, db', c);
    }
  }

  lemma NewOrderKeepsConsistency(db: Db, p: NewOrderParams)
    requires Consistent(db) && NewOrderSpec(db, p).Some?
    ensures Consistent(NewOrderSpec(db, p).value)
  {
    NewOrderEnters(db, p);
    var db' := NewOrderSpec(db, p).value;
    var k := OKey(p.w, p.d, db.district[DKey(p.w, p.d)].nextOrder);
    NewOrderKeepsIds(db, p, k, db');
    NewOrderKeepsNewOrders(db, p, k, db');
    NewOrderKeepsLines(db, p, k, db');
    NewOrderKeepsMoney(db, p, k, db');
  }

  // ----- Delivery -----

  /** What the delivery of order k has done to the tables. */
  ghost predicate Delivered(db: Db, k: OKey, carrier: int, now: int, db': Db) {
    && k in db.orders
    && db' == db.(newOrder := db.newOrder - {k},
                  orders := db.orders[k := Order(db.orders[k].c, Some(carrier), db.orders[k].lineCount, db.orders[k].allLocal)],
                  orderLine := db'.orderLine,
                  customer := db'.customer)
    && db'.orderLine.Keys == db.orderLine.Keys
    && (forall l :: l in db.orderLine ==>
          db'.orderLine[l] == if OrderOf(l) == k then db.orderLine[l].(delivered := Some(now)) else db.orderLine[l])
    && db'.customer.Keys == db.customer.Keys
    && (forall c :: c in db.customer ==>
          db'.customer[c] == Credited(db.customer[c], c == CustomerOf(k, db.orders[k]), Sum(LineAmounts(db, k))))
  }

  lemma DeliverOrderDelivers(db: Db, k: OKey, carrier: int, now: int)
    requires DeliverOrder(db, k, carrier, now).Some?
    ensures Delivered(db, k, carrier, now, DeliverOrder(db, k, carrier, now).value)
  {
    hide Numeric12_2, Int4, LineAmounts;
    var db1 := db.(newOrder := db.newOrder - {k});
    var db2 := SetCarrier(db1, k, carrier).value;
    StampKeepsAmounts(db2, k, now);
    SameLinesSameAmounts(db, db2, k);
  }

  lemma StampKeepsAmounts(db: Db, k: OKey, now: int)
    ensures LineAmounts(StampLines(db, k, now), k) == LineAmounts(db, k)
  {
  }

  lemma SameLinesSameAmounts(db: Db, db': Db, k: OKey)
    requires db'.orderLine == db.orderLine
    ensures LineAmounts(db', k) == LineAmounts(db, k)
  {
  }

  lemma DeliveryKeepsIds(db: Db, k: OKey, carrier: int, now: int, db': Db)
    requires References(db) && OrderIds(db) && Delivered(db, k, carrier, now, db')
    ensures References(db') && OrderIds(db')
  {
  }

  lemma DeliveryKeepsNewOrders(db: Db, k: OKey, carrier: int, now: int, db': Db)
    requires NewOrdersAreLast(db) && CarriersMatch(db) && IsOldest(db, k) && Delivered(db, k, carrier, now, db')
    ensures NewOrdersAreLast(db') && CarriersMatch(db')
  {
  }

  lemma DeliveryKeepsLines(db: Db, k: OKey, carrier: int, now: int, db': Db)
    requires LinesMatch(db) && DatesMatch(db) && Delivered(db, k, carrier, now, db')
    ensures LinesMatch(db') && DatesMatch(db')
  {
  }

  lemma DeliveryKeepsYtds(db: Db, k: OKey, carrier: int, now: int, db': Db)
    requires YtdAddsUp(db) && YtdIsHistory(db) && Delivered(db, k, carrier, now, db')
    ensures YtdAddsUp(db') && YtdIsHistory(db')
  {
  }

  /** The lines that the delivery of order k adds to the delivered lines of a customer. */
  function LinesFor(db: Db, k: OKey, c: CKey): map<LKey, int>
    requires k in db.orders
  {
    if c == CustomerOf(k, db.orders[k]) then LineAmounts(db, k) else map[]
  }

  lemma LineAfterDelivery(db: Db, k: OKey, carrier: int, now: int, db': Db, c: CKey, l: LKey)
    requires Delivered(db, k, carrier, now, db')
    ensures l in DeliveredTo(db', c) <==> l in DeliveredTo(db, c) || l in LinesFor(db, k, c)
    ensures l in DeliveredTo(db', c) ==> DeliveredTo(db', c)[l] == db.orderLine[l].amount
    ensures l in LinesFor(db, k, c) ==> LinesFor(db, k, c)[l] == db.orderLine[l].amount
  {
  }

  lemma UndeliveredLinesAreNew(db: Db, k: OKey, c: CKey)
    requires DatesMatch(db) && k in db.newOrder && k in db.orders
    ensures DeliveredTo(db, c).Keys !! LinesFor(db, k, c).Keys
  {
  }

  /** The delivered lines of a customer grow by the lines of the order, if it is the customer's. */
  lemma DeliveredLinesGrow(db: Db, k: OKey, carrier: int, now: int, db': Db, c: CKey)
    requires DatesMatch(db) && k in db.newOrder && Delivered(db, k, carrier, now, db')
    ensures Sum(DeliveredTo(db', c)) == Sum(DeliveredTo(db, c)) + Sum(LinesFor(db, k, c))
  {
    var before, added, after := DeliveredTo(db, c), LinesFor(db, k, c), DeliveredTo(db', c);
    forall l: LKey
      ensures l in after <==> l in before + added
      ensures l in after ==> after[l] == (before + added)[l]
    {
      LineAfterDelivery(db, k, carrier, now, db', c, l);
    }
    SameEntries(after, before + added);
    UndeliveredLinesAreNew(db, k, c);
    SumUnion(before, added);
  }

  lemma DeliveryKeepsBalances(db: Db, k: OKey, carrier: int, now: int, db': Db)
    requires DatesMatch(db) && k in db.newOrder && Balanced(db) && Delivered(db, k, carrier, now, db')
    ensures Balanced(db')
  {
    forall c | c in db'.customer
      ensures db'.customer[c].balance + db'.customer[c].ytdPayment == Sum(DeliveredTo(db', c))
    {
      DeliveredLinesGrow(db, k, carrier, now, db', c);
    }
  }

  lemma DeliverDistrictKeepsConsistency(db: Db, k: DKey, carrier: int, now: int)
    requires Consistent(db) && DeliverDistrict(db, k, carrier, now).Some?
    ensures Consistent(DeliverDistrict(db, k, carrier, now).value)
  {
    match Oldest(db, k)
    case None =>
    case Some(o) =>
      var order := OKey(k.w, k.d, o);
      var db' := DeliverOrder(db, order, carrier, now).value;
      DeliverOrderDelivers(db, order, carrier, now);
      DeliveryKeepsIds(db, order, carrier, now, db');
      DeliveryKeepsNewOrders(db, order, carrier, now, db');
      DeliveryKeepsLines(db, order, carrier, now, db');
      DeliveryKeepsYtds(db, order, carrier, now, db');
      DeliveryKeepsBalances(db, order, carrier, now, db');
  }

  lemma {:induction false} DeliveryKeepsConsistency(db: Db, p: DeliveryParams, n: nat, now: int)
    requires Consistent(db) && DeliverUpTo(db, p, n, now).Some?
    ensures Consistent(DeliverUpTo(db, p, n, now).value)
  {
    if n > 0 {
      DeliveryKeepsConsistency(db, p, n - 1, now);
      DeliverDistrictKeepsConsistency(DeliverUpTo(db, p, n - 1, now).value, DKey(p.w, n), p.carrier, now);
    }
  }

  // ----- Serial runs -----

  /** No transaction of the run pays into a warehouse for a district it does not have. */
  ghost predicate HitsDistricts(db: Db, txs: seq<Tx>) {
    forall i :: 0 <= i < |txs| && txs[i].PaymentTx? ==> !MissesDistrict(db, txs[i].p)
  }

  lemma {:induction false} DeliveryKeepsKeys(db: Db, p: DeliveryParams, n: nat, now: int)
    requires DeliverUpTo(db, p, n, now).Some?
    ensures DeliverUpTo(db, p, n, now).value.warehouse == db.warehouse
    ensures DeliverUpTo(db, p, n, now).value.district == db.district
  {
    if n > 0 {
      DeliveryKeepsKeys(db, p, n - 1, now);
      var db1 := DeliverUpTo(db, p, n - 1, now).value;
      match Oldest(db1, DKey(p.w, n))
      case None =>
      case Some(o) => DeliverOrderDelivers(db1, OKey(p.w, n, o), p.carrier, now);
    }
  }

  lemma TransactionKeepsKeys(db: Db, tx: Tx)
    ensures After(db, tx).warehouse.Keys == db.warehouse.Keys && After(db, tx).district.Keys == db.district.Keys
  {
    if Outcome(db, tx).Some? {
      match tx
      case NewOrderTx(p) => NewOrderEnters(db, p);
      case PaymentTx(p) => PaymentPays(db, p);
      case DeliveryTx(p, now) => DeliveryKeepsKeys(db, p, 10, now);
    }
  }

  lemma TransactionKeepsConsistency(db: Db, tx: Tx)
    requires Consistent(db)
    requires tx.PaymentTx? ==> !MissesDistrict(db, tx.p)
    ensures Consistent(After(db, tx))
  {
    if Outcome(db, tx).Some? {
      match tx
      case NewOrderTx(p) => NewOrderKeepsConsistency(db, p);
      case PaymentTx(p) => PaymentKeepsConsistency(db, p);
      case DeliveryTx(p, now) => DeliveryKeepsConsistency(db, p, 10, now);
    }
  }

  /** Every serial run from the seeded database keeps every condition. */
  lemma {:induction false} EveryRunIsConsistent(db: Db, txs: seq<Tx>)
    requires Seeded(db) && HitsDistricts(db, txs)
    ensures Consistent(Run(db, txs))
    ensures Run(db, txs).warehouse.Keys == db.warehouse.Keys && Run(db, txs).district.Keys == db.district.Keys
  {
    if txs == [] {
      SeedIsConsistent(db);
    } else {
      var before := txs[..|txs| - 1];
      EveryRunIsConsistent(db, before);
      TransactionKeepsConsistency(Run(db, before), txs[|txs| - 1]);
      TransactionKeepsKeys(Run(db, before), txs[|txs| - 1]);
    }
  }

  /** A run that pays for a missing district does break a condition: one Payment is enough. */
  lemma MissedDistrictBreaksTheRun(db: Db, p: PaymentParams)
    requires Seeded(db) && MissesDistrict(db, p) && PaymentSpec(db, p).Some?
    ensures !Consistent(Run(db, [PaymentTx(p)]))
  {
    SeedIsConsistent(db);
    PaymentKeepsConsistency(db, p);
    assert [PaymentTx(p)][..0] == [];
  }

  /** Whatever the seed holds, its district 11 is such a district: the payment commits. */
  lemma EverySeedCanBeBroken(db: Db, w: int, c: int)
    requires Seeded(db) && w in db.warehouse
    ensures var p := PaymentParams(w, 11, c, 1);
      MissesDistrict(db, p) && PaymentSpec(db, p).Some? && !Consistent(Run(db, [PaymentTx(p)]))
  {
    var p := PaymentParams(w, 11, c, 1);
    assert DKey(w, 11) !in db.district && CKey(w, 11, c) !in db.customer;
    assert PaymentSpec(db, p).Some?;
    MissedDistrictBreaksTheRun(db, p);
  }

  /** A small seed: one warehouse with its ten districts and one customer. */
  function SmallSeed(): Db {
    Db(map[1 := Warehouse(WAREHOUSE_SEED)],
       map d | 1 <= d <= 10 :: DKey(1, d) := District(DISTRICT_SEED, FIRST_ORDER),
       map[CKey(1, 1, 1) := Customer(-PAYMENT_SEED, PAYMENT_SEED, 1, 0)],
       [], map[], {}, map[], map[], map[])
  }

  /** One cent paid to its warehouse for district 11. */
  lemma OneCentBreaksTheSmallSeed()
    ensures Seeded(SmallSeed()) && PaymentSpec(SmallSeed(), PaymentParams(1, 11, 1, 1)).Some?
    ensures !Consistent(Run(SmallSeed(), [PaymentTx(PaymentParams(1, 11, 1, 1))]))
  {
    EverySeedCanBeBroken(SmallSeed(), 1, 1);
  }

  // ----- The order of deliveries -----

  lemma {:induction false} OldestExists(db: Db, k: OKey)
    requires OrderIds(db) && NewOrdersAreLast(db) && k in db.newOrder
    ensures exists o :: o <= k.o && IsOldest(db, OKey(k.w, k.d, o))
    decreases k.o - FIRST_ORDER
  {
    if IsOldest(db, k) {
      assert IsOldest(db, OKey(k.w, k.d, k.o));
    } else {
      var k' :| k' in db.newOrder && DistrictOf(k') == DistrictOf(k) && k'.o < k.o;
      OldestExists(db, k');
    }
  }

  /** A district's undelivered orders are the ids from the one Delivery takes up to D_NEXT_O_ID;
      it takes none only when there are none. */
  lemma UndeliveredOrdersAreAnInterval(db: Db, k: DKey)
    requires Orderly(db) && k in db.district
    ensures Oldest(db, k).None? ==> forall o :: OKey(k.w, k.d, o) !in db.newOrder
    ensures Oldest(db, k).Some? ==>
              forall o :: OKey(k.w, k.d, o) in db.newOrder <==> Oldest(db, k).value <= o < db.district[k].nextOrder
  {
    match Oldest(db, k)
    case None =>
      forall o | OKey(k.w, k.d, o) in db.newOrder ensures false {
        OldestExists(db, OKey(k.w, k.d, o));
      }
    case Some(first) =>
      forall o ensures OKey(k.w, k.d, o) in db.newOrder <==> first <= o < db.district[k].nextOrder {
        assert DistrictOf(OKey(k.w, k.d, o)) == k == DistrictOf(OKey(k.w, k.d, first));
        assert OKey(k.w, k.d, o) in db.orders <==> FIRST_ORDER <= o < db.district[k].nextOrder;
      }
  }

  /** Deliveries go in creation order: one round takes the first undelivered order of its
      district and no other, and the next one becomes the first. */
  lemma DeliveryTakesTheNextOrder(db: Db, k: DKey, carrier: int, now: int)
    requires Orderly(db) && k in db.district && DeliverDistrict(db, k, carrier, now).Some?
    ensures var db' := DeliverDistrict(db, k, carrier, now).value;
      match Oldest(db, k)
      case None => db' == db
      case Some(first) =>
        && (forall o :: OKey(k.w, k.d, o) in db'.newOrder <==> first + 1 <= o < db.district[k].nextOrder)
        && (forall j :: DistrictOf(j) != k ==> (j in db'.newOrder <==> j in db.newOrder))
        && db'.orders[OKey(k.w, k.d, first)].carrier == Some(carrier)
        && (forall j :: j in db.orders && j != OKey(k.w, k.d, first) ==> db'.orders[j] == db.orders[j])
  {
  }

  /** A delivered order: it has its carrier and its lines their dates. */
  ghost predicate Settled(db: Db, k: OKey) {
    k in db.orders && db.orders[k].carrier.Some? && k !in db.newOrder
  }

  ghost predicate SameOrder(db: Db, db': Db, k: OKey) {
    && k in db.orders && k in db'.orders && db'.orders[k] == db.orders[k]
    && forall l :: OrderOf(l) == k && l in db.orderLine ==> l in db'.orderLine && db'.orderLine[l] == db.orderLine[l]
  }

  lemma {:induction false} DeliveryKeepsSettled(db: Db, p: DeliveryParams, n: nat, now: int, k: OKey)
    requires Settled(db, k) && DeliverUpTo(db, p, n, now).Some?
    ensures Settled(DeliverUpTo(db, p, n, now).value, k) && SameOrder(db, DeliverUpTo(db, p, n, now).value, k)
  {
    if n > 0 {
      DeliveryKeepsSettled(db, p, n - 1, now, k);
      var db1 := DeliverUpTo(db, p, n - 1, now).value;
      match Oldest(db1, DKey(p.w, n))
      case None =>
      case Some(o) => DeliverOrderDelivers(db1, OKey(p.w, n, o), p.carrier, now);
    }
  }

  /** An order is delivered at most once: from then on no transaction changes the order or its lines. */
  lemma SettledOrdersStay(db: Db, tx: Tx, k: OKey)
    requires Settled(db, k)
    ensures Settled(After(db, tx), k) && SameOrder(db, After(db, tx), k)
  {
    if Outcome(db, tx).Some? {
      match tx
      case NewOrderTx(p) => NewOrderEnters(db, p);
      case PaymentTx(p) => PaymentPays(db, p);
      case DeliveryTx(p, now) => DeliveryKeepsSettled(db, p, 10, now, k);
    }
  }

  lemma {:induction false} SettledForever(db: Db, txs: seq<Tx>, k: OKey)
    requires Settled(db, k)
    ensures Settled(Run(db, txs), k) && SameOrder(db, Run(db, txs), k)
  {
    if txs != [] {
      SettledForever(db, txs[..|txs| - 1], k);
      SettledOrdersStay(Run(db, txs[..|txs| - 1]), txs[|txs| - 1], k);
    }
  }
}
