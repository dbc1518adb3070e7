/** Exactly when each transaction commits, in terms of the rows of the tables and of the ranges of their
    columns: numeric(12,2), numeric(6,2), numeric(8,0) and int4. */
module TpccCommits {
  import opened Results
  import opened Sums
  import opened Tpcc
  import opened TpccConsistency
  import opened TpccStock

  // ----- Payment -----

  /** The rows that are there can take the amount, and so can the history. */
  predicate PaymentFits(db: Db, p: PaymentParams) {
    var d, c := DKey(p.w, p.d), CKey(p.w, p.d, p.c);
    && (p.w in db.warehouse ==> -1_000_000_000_000 < db.warehouse[p.w].ytd + p.amount < 1_000_000_000_000)
    && (d in db.district ==> -1_000_000_000_000 < db.district[d].ytd + p.amount < 1_000_000_000_000)
    && (c in db.customer ==>
          && -1_000_000_000_000 < db.customer[c].balance - p.amount < 1_000_000_000_000
          && -1_000_000_000_000 < db.customer[c].ytdPayment + p.amount < 1_000_000_000_000
          && -2_147_483_648 <= db.customer[c].paymentCount + 1 <= 2_147_483_647)
    && -1_000_000 < p.amount < 1_000_000
  }

  lemma WarehouseTakes(db: Db, w: int, amount: int)
    ensures AddWarehouseYtd(db, w, amount).Some? <==>
              (w in db.warehouse ==> -1_000_000_000_000 < db.warehouse[w].ytd + amount < 1_000_000_000_000)
    ensures AddWarehouseYtd(db, w, amount).Some? ==>
              var db' := AddWarehouseYtd(db, w, amount).value; db'.district == db.district && db'.customer == db.customer
  {
  }

  lemma DistrictTakes(db: Db, k: DKey, amount: int)
    ensures AddDistrictYtd(db, k, amount).Some? <==>
              (k in db.district ==> -1_000_000_000_000 < db.district[k].ytd + amount < 1_000_000_000_000)
    ensures AddDistrictYtd(db, k, amount).Some? ==> AddDistrictYtd(db, k, amount).value.customer == db.customer
  {
  }

  lemma CustomerPays(db: Db, k: CKey, amount: int)
    ensures ChargeCustomer(db, k, amount).Some? <==>
              (k in db.customer ==>
                && -1_000_000_000_000 < db.customer[k].balance - amount < 1_000_000_000_000
                && -1_000_000_000_000 < db.customer[k].ytdPayment + amount < 1_000_000_000_000
                && -2_147_483_648 <= db.customer[k].paymentCount + 1 <= 2_147_483_647)
  {
  }

  /** A Payment commits exactly if its numbers fit; that a row is missing does not stop it. */
  lemma PaymentCommitsExactly(db: Db, p: PaymentParams)
    ensures PaymentSpec(db, p).Some? <==> PaymentFits(db, p)
  {
    hide AddWarehouseYtd, AddDistrictYtd, ChargeCustomer;
    WarehouseTakes(db, p.w, p.amount);
    if AddWarehouseYtd(db, p.w, p.amount).Some? {
      var db1 := AddWarehouseYtd(db, p.w, p.amount).value;
      DistrictTakes(db1, DKey(p.w, p.d), p.amount);
      if AddDistrictYtd(db1, DKey(p.w, p.d), p.amount).Some? {
        CustomerPays(AddDistrictYtd(db1, DKey(p.w, p.d), p.amount).value, CKey(p.w, p.d, p.c), p.amount);
      }
    }
  }

  /** From the seed every amount that fits into the history commits. */
  lemma SeededPaymentCommits(db: Db, p: PaymentParams)
    requires Seeded(db)
    ensures PaymentSpec(db, p).Some? <==> -1_000_000 < p.amount < 1_000_000
  {
    hide PaymentSpec;
    PaymentCommitsExactly(db, p);
  }

  // ----- NewOrder -----

  /** A stock row after the first n lines of an order from warehouse home, as they take from it. */
  function Taken(row: Stock, s: SKey, home: int, lines: seq<Line>, n: nat): Stock
    requires n <= |lines|
  {
    if n == 0 then row
    else
      var line, r := lines[n - 1], Taken(row, s, home, lines, n - 1);
      if SKey(line.supplyW, line.item) != s then r
      else
        var left := r.quantity - line.quantity;
        Stock(if left >= 10 then left else left + 91, r.distInfo, r.ytd + line.quantity, r.orderCount + 1,
              if line.supplyW == home then r.remoteCount else r.remoteCount + 1)
  }

  predicate StockFits(row: Stock) {
    && -2_147_483_648 <= row.quantity <= 2_147_483_647
    && -100_000_000 < row.ytd < 100_000_000
    && -2_147_483_648 <= row.orderCount <= 2_147_483_647
    && -2_147_483_648 <= row.remoteCount <= 2_147_483_647
  }

  /** Line i (from 0) of an order: its item and stock row are there, its number is free, and its amount and the
      stock row after it fit. */
  predicate LineFits(db: Db, k: OKey, lines: seq<Line>, i: nat)
    requires i < |lines|
  {
    var line := lines[i];
    var s := SKey(line.supplyW, line.item);
    && line.item in db.item
    && s in db.stock
    && StockFits(Taken(db.stock[s], s, k.w, lines, i + 1))
    && LKey(k.w, k.d, k.o, i + 1) !in db.orderLine
    && -2_147_483_648 <= line.quantity <= 2_147_483_647
    && -1_000_000 < line.quantity * db.item[line.item] < 1_000_000
  }

  /** The district and the customer are there, the next order id is free, and the one after it and all lines fit. */
  predicate NewOrderFits(db: Db, p: NewOrderParams) {
    var d := DKey(p.w, p.d);
    && d in db.district
    && -2_147_483_648 <= db.district[d].nextOrder + 1 <= 2_147_483_647
    && CKey(p.w, p.d, p.c) in db.customer
    && var k := OKey(p.w, p.d, db.district[d].nextOrder);
       && k !in db.orders && k !in db.newOrder
       && forall i :: 0 <= i < |p.lines| ==> LineFits(db, k, p.lines, i)
  }

  lemma OpenExactly(db: Db, p: NewOrderParams)
    ensures OpenOrder(db, p).Some? <==>
              var d := DKey(p.w, p.d);
              && d in db.district && -2_147_483_648 <= db.district[d].nextOrder + 1 <= 2_147_483_647
              && CKey(p.w, p.d, p.c) in db.customer
              && OKey(p.w, p.d, db.district[d].nextOrder) !in db.orders
              && OKey(p.w, p.d, db.district[d].nextOrder) !in db.newOrder
    ensures OpenOrder(db, p).Some? ==>
              var (k, db1) := OpenOrder(db, p).value;
              && k == OKey(p.w, p.d, db.district[DKey(p.w, p.d)].nextOrder) && k in db1.orders
              && db1.item == db.item && db1.stock == db.stock && db1.orderLine == db.orderLine
  {
  }

  /** What the first n lines leave for the next ones. */
  lemma {:induction false} AfterLines(db: Db, k: OKey, lines: seq<Line>, n: nat, s: SKey)
    requires n <= |lines| && AddLines(db, k, lines, n).Some?
    ensures var db' := AddLines(db, k, lines, n).value;
      && db'.item == db.item && db'.orders == db.orders && db'.stock.Keys == db.stock.Keys
      && (s in db.stock ==> db'.stock[s] == Taken(db.stock[s], s, k.w, lines, n))
      && forall j :: j > n ==> (LKey(k.w, k.d, k.o, j) in db'.orderLine <==> LKey(k.w, k.d, k.o, j) in db.orderLine)
  {
    hide AddLine;
    if n > 0 {
      AfterLines(db, k, lines, n - 1, s);
      AddLineWrites(AddLines(db, k, lines, n - 1).value, k, lines[n - 1], n);
    }
  }

  lemma LineExactly(db: Db, k: OKey, line: Line, number: int)
    requires k in db.orders
    ensures var s := SKey(line.supplyW, line.item);
      AddLine(db, k, line, number).Some? <==>
        && line.item in db.item && s in db.stock
        && StockFits(Taken(db.stock[s], s, k.w, [line], 1))
        && LKey(k.w, k.d, k.o, number) !in db.orderLine
        && -2_147_483_648 <= line.quantity <= 2_147_483_647
        && -1_000_000 < line.quantity * db.item[line.item] < 1_000_000
  {
    var s := SKey(line.supplyW, line.item);
    if s in db.stock {
      assert Taken(db.stock[s], s, k.w, [line], 0) == db.stock[s];
      assert Taken(db.stock[s], s, k.w, [line], 1) == StockAfter(db.stock[s], line, k.w);
    }
  }

  lemma TakenStep(row: Stock, s: SKey, home: int, lines: seq<Line>, n: nat)
    requires n < |lines|
    ensures Taken(row, s, home, lines, n + 1) == Taken(Taken(row, s, home, lines, n), s, home, [lines[n]], 1)
  {
    assert Taken(Taken(row, s, home, lines, n), s, home, [lines[n]], 0) == Taken(row, s, home, lines, n);
  }

  lemma {:induction false} LinesExactly(db: Db, k: OKey, lines: seq<Line>, n: nat)
    requires n <= |lines| && k in db.orders
    ensures AddLines(db, k, lines, n).Some? <==> forall i :: 0 <= i < n ==> LineFits(db, k, lines, i)
  {
    hide AddLine, Taken, StockFits;
    if n > 0 {
      LinesExactly(db, k, lines, n - 1);
      if AddLines(db, k, lines, n - 1).Some? {
        var line := lines[n - 1];
        var s := SKey(line.supplyW, line.item);
        AfterLines(db, k, lines, n - 1, s);
        LineExactly(AddLines(db, k, lines, n - 1).value, k, line, n);
        if s in db.stock {
          TakenStep(db.stock[s], s, k.w, lines, n - 1);
        }
        assert AddLine(AddLines(db, k, lines, n - 1).value, k, line, n).Some? <==> LineFits(db, k, lines, n - 1);
      }
    }
  }

  /** A NewOrder commits exactly if the order can be opened and each of its lines fits. */
  lemma NewOrderCommitsExactly(db: Db, p: NewOrderParams)
    ensures NewOrderSpec(db, p).Some? <==> NewOrderFits(db, p)
  {
    hide OpenOrder, AddLines, LineFits;
    OpenExactly(db, p);
    if OpenOrder(db, p).Some? {
      var (k, db1) := OpenOrder(db, p).value;
      LinesExactly(db1, k, p.lines, |p.lines|);
      forall i | 0 <= i < |p.lines| ensures LineFits(db1, k, p.lines, i) <==> LineFits(db, k, p.lines, i) {
        SameLineFits(db, db1, k, p.lines, i);
      }
    }
  }

  lemma SameLineFits(db: Db, db': Db, k: OKey, lines: seq<Line>, i: nat)
    requires i < |lines| && db'.item == db.item && db'.stock == db.stock && db'.orderLine == db.orderLine
    ensures LineFits(db', k, lines, i) <==> LineFits(db, k, lines, i)
  {
  }

  /** Quantities that the rule is made for keep every level between 10 and 100 and let the counters grow by no
      more than 91 and 1 for each line. */
  lemma {:induction false} TakenStaysSmall(row: Stock, s: SKey, home: int, lines: seq<Line>, n: nat)
    requires n <= |lines| && forall j :: 0 <= j < n ==> Orderable(lines[j].quantity)
    requires 10 <= row.quantity <= 100
    ensures var r := Taken(row, s, home, lines, n);
      && 10 <= r.quantity <= 100 && row.ytd <= r.ytd <= row.ytd + 91 * n
      && row.orderCount <= r.orderCount <= row.orderCount + n && row.remoteCount <= r.remoteCount <= row.remoteCount + n
  {
    if n > 0 {
      TakenStaysSmall(row, s, home, lines, n - 1);
    }
  }

  predicate OrdinaryLine(db: Db, l: Line) {
    && l.item in db.item && 0 <= db.item[l.item] < 100_000
    && SKey(l.supplyW, l.item) in db.stock && 1 <= l.quantity <= 10
  }

  lemma AmountFits(quantity: int, price: int)
    requires 1 <= quantity <= 10 && 0 <= price < 100_000
    ensures -1_000_000 < quantity * price < 1_000_000
  {
    assert quantity * price <= 10 * price;
  }

  lemma SeededLineFits(db: Db, k: OKey, lines: seq<Line>, i: nat)
    requires StockSeeded(db) && i < |lines| <= 1_000_000 && forall j :: 0 <= j < |lines| ==> OrdinaryLine(db, lines[j])
    ensures LineFits(db, k, lines, i)
  {
    hide Taken;
    var line := lines[i];
    assert OrdinaryLine(db, line);
    var s := SKey(line.supplyW, line.item);
    TakenStaysSmall(db.stock[s], s, k.w, lines, i + 1);
    AmountFits(line.quantity, db.item[line.item]);
  }

  /** From the seed an order commits that names a customer there is, items and stock rows there are, prices
      that fit into numeric(5,2), and quantities from 1 to 10, for up to a million lines. */
  lemma SeededOrderCommits(db: Db, p: NewOrderParams)
    requires Seeded(db) && StockSeeded(db) && CKey(p.w, p.d, p.c) in db.customer && |p.lines| <= 1_000_000
    requires forall l :: l in p.lines ==> OrdinaryLine(db, l)
    ensures NewOrderSpec(db, p).Some?
  {
    hide NewOrderSpec, LineFits, StockSeeded, OrdinaryLine;
    assert DKey(p.w, p.d) in db.district;
    var k := OKey(p.w, p.d, db.district[DKey(p.w, p.d)].nextOrder);
    forall i | 0 <= i < |p.lines| ensures LineFits(db, k, p.lines, i) {
      SeededLineFits(db, k, p.lines, i);
    }
    NewOrderCommitsExactly(db, p);
  }

  // ----- Delivery -----

  /** The oldest undelivered order of a district, if there is one, has its row, the carrier fits, and the row
      of its customer, if there is one, can take the amount. */
  ghost predicate DeliveryFits(db: Db, k: DKey, carrier: int) {
    forall o :: IsOldest(db, OKey(k.w, k.d, o)) ==>
      var order := OKey(k.w, k.d, o);
      && order in db.orders
      && -2_147_483_648 <= carrier <= 2_147_483_647
      && var c := CKey(k.w, k.d, db.orders[order].c);
         c in db.customer ==>
           && -1_000_000_000_000 < db.customer[c].balance + Sum(LineAmounts(db, order)) < 1_000_000_000_000
           && -2_147_483_648 <= db.customer[c].deliveryCount + 1 <= 2_147_483_647
  }

  lemma OneOldest(db: Db, k: DKey, o: int)
    requires IsOldest(db, OKey(k.w, k.d, o))
    ensures Oldest(db, k) == Some(o)
  {
    var first := Oldest(db, k).value;
    assert IsOldest(db, OKey(k.w, k.d, first));
  }

  lemma DeliverOrderExactly(db: Db, k: OKey, carrier: int, now: int)
    ensures DeliverOrder(db, k, carrier, now).Some? <==>
              && k in db.orders
              && -2_147_483_648 <= carrier <= 2_147_483_647
              && var c := CKey(k.w, k.d, db.orders[k].c);
                 c in db.customer ==>
                   && -1_000_000_000_000 < db.customer[c].balance + Sum(LineAmounts(db, k)) < 1_000_000_000_000
                   && -2_147_483_648 <= db.customer[c].deliveryCount + 1 <= 2_147_483_647
  {
    hide LineAmounts, StampLines;
    var db1 := db.(newOrder := db.newOrder - {k});
    if SetCarrier(db1, k, carrier).Some? {
      var db2 := SetCarrier(db1, k, carrier).value;
      StampKeepsAmounts(db2, k, now);
      SameLinesSameAmounts(db, db2, k);
      StampKeepsCustomers(db2, k, now);
    }
  }

  lemma StampKeepsCustomers(db: Db, k: OKey, now: int)
    ensures StampLines(db, k, now) == db.(orderLine := StampLines(db, k, now).orderLine)
  {
  }

  lemma DeliverDistrictExactly(db: Db, k: DKey, carrier: int, now: int)
    ensures DeliverDistrict(db, k, carrier, now).Some? <==> DeliveryFits(db, k, carrier)
  {
    hide DeliverOrder, IsOldest;
    match Oldest(db, k)
    case None =>
      forall o ensures !IsOldest(db, OKey(k.w, k.d, o)) {
        if IsOldest(db, OKey(k.w, k.d, o)) {
          OneOldest(db, k, o);
        }
      }
    case Some(first) =>
      DeliverOrderExactly(db, OKey(k.w, k.d, first), carrier, now);
      forall o | IsOldest(db, OKey(k.w, k.d, o)) ensures o == first {
        OneOldest(db, k, o);
      }
      assert IsOldest(db, OKey(k.w, k.d, first));
  }

  /** One district of two databases looks the same. */
  ghost predicate SameDistrict(db: Db, db': Db, k: DKey) {
    && (forall j :: DistrictOf(j) == k ==> (j in db'.newOrder <==> j in db.newOrder))
    && (forall j :: DistrictOf(j) == k ==> (j in db'.orders <==> j in db.orders))
    && (forall j :: DistrictOf(j) == k && j in db.orders ==> db'.orders[j] == db.orders[j])
    && (forall l :: DistrictOf(OrderOf(l)) == k ==> (l in db'.orderLine <==> l in db.orderLine))
    && (forall l :: DistrictOf(OrderOf(l)) == k && l in db.orderLine ==> db'.orderLine[l] == db.orderLine[l])
    && (forall c: CKey :: DKey(c.w, c.d) == k ==> (c in db'.customer <==> c in db.customer))
    && (forall c: CKey :: DKey(c.w, c.d) == k && c in db.customer ==> db'.customer[c] == db.customer[c])
  }

  lemma SameAmounts(db: Db, db': Db, k: OKey)
    requires SameDistrict(db, db', DistrictOf(k))
    ensures Sum(LineAmounts(db', k)) == Sum(LineAmounts(db, k))
  {
    forall l: LKey
      ensures l in LineAmounts(db', k) <==> l in LineAmounts(db, k)
      ensures l in LineAmounts(db, k) ==> LineAmounts(db', k)[l] == LineAmounts(db, k)[l]
    {
      assert OrderOf(l) == k ==> DistrictOf(OrderOf(l)) == DistrictOf(k);
    }
    SameEntries(LineAmounts(db', k), LineAmounts(db, k));
  }

  lemma SameOldest(db: Db, db': Db, k: DKey, o: int)
    requires SameDistrict(db, db', k)
    ensures IsOldest(db', OKey(k.w, k.d, o)) <==> IsOldest(db, OKey(k.w, k.d, o))
  {
    assert DistrictOf(OKey(k.w, k.d, o)) == k;
  }

  lemma SameDeliveryFits(db: Db, db': Db, k: DKey, carrier: int)
    requires SameDistrict(db, db', k)
    ensures DeliveryFits(db', k, carrier) <==> DeliveryFits(db, k, carrier)
  {
    hide IsOldest, LineAmounts;
    forall o
      ensures IsOldest(db', OKey(k.w, k.d, o)) <==> IsOldest(db, OKey(k.w, k.d, o))
      ensures Sum(LineAmounts(db', OKey(k.w, k.d, o))) == Sum(LineAmounts(db, OKey(k.w, k.d, o)))
      ensures DistrictOf(OKey(k.w, k.d, o)) == k
    {
      SameOldest(db, db', k, o);
      SameAmounts(db, db', OKey(k.w, k.d, o));
    }
  }

  lemma OtherDistrictsStay(db: Db, k: OKey, carrier: int, now: int, db': Db, other: DKey)
    requires Delivered(db, k, carrier, now, db') && other != DistrictOf(k)
    ensures SameDistrict(db, db', other)
  {
    hide LineAmounts;
  }

  lemma {:induction false} LaterDistrictsStay(db: Db, p: DeliveryParams, n: nat, now: int, d: int)
    requires n < d && DeliverUpTo(db, p, n, now).Some?
    ensures SameDistrict(db, DeliverUpTo(db, p, n, now).value, DKey(p.w, d))
  {
    if n > 0 {
      hide DeliverOrder, LineAmounts, Delivered;
      LaterDistrictsStay(db, p, n - 1, now, d);
      var db1 := DeliverUpTo(db, p, n - 1, now).value;
      match Oldest(db1, DKey(p.w, n))
      case None =>
      case Some(o) =>
        var k := OKey(p.w, n, o);
        DeliverOrderDelivers(db1, k, p.carrier, now);
        OtherDistrictsStay(db1, k, p.carrier, now, DeliverOrder(db1, k, p.carrier, now).value, DKey(p.w, d));
    }
  }

  lemma {:induction false} DeliveriesExactly(db: Db, p: DeliveryParams, n: nat, now: int)
    ensures DeliverUpTo(db, p, n, now).Some? <==> forall d :: 1 <= d <= n ==> DeliveryFits(db, DKey(p.w, d), p.carrier)
  {
    if n > 0 {
      hide DeliveryFits, SameDistrict, DeliverDistrict;
      DeliveriesExactly(db, p, n - 1, now);
      if DeliverUpTo(db, p, n - 1, now).Some? {
        var db1 := DeliverUpTo(db, p, n - 1, now).value;
        LaterDistrictsStay(db, p, n - 1, now, n);
        DeliverDistrictExactly(db1, DKey(p.w, n), p.carrier, now);
        SameDeliveryFits(db, db1, DKey(p.w, n), p.carrier);
      }
    }
  }

  /** A Delivery commits exactly if the oldest order of each of the ten districts can be delivered in the
      database it finds; the districts do not get in each other's way. */
  lemma DeliveryCommitsExactly(db: Db, p: DeliveryParams, now: int)
    ensures DeliverySpec(db, p, now).Some? <==> forall d :: 1 <= d <= 10 ==> DeliveryFits(db, DKey(p.w, d), p.carrier)
  {
    DeliveriesExactly(db, p, 10, now);
  }
}
