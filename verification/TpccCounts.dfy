/** The two counters of a customer over every serial run: C_PAYMENT_CNT against the history and
    C_DELIVERY_CNT against the orders. */
module TpccCounts {
  import opened Results
  import opened Tpcc
  import opened TpccConsistency

  /** The history rows of a customer. */
  function Payments(history: seq<History>, c: CKey): nat {
    if history == [] then 0
    else
      var last := history[|history| - 1];
      Payments(history[..|history| - 1], c) + if CKey(last.w, last.d, last.c) == c then 1 else 0
  }

  /** The orders of a customer that have a carrier. */
  function Carried(db: Db, c: CKey): set<OKey> {
    set k | k in db.orders && CustomerOf(k, db.orders[k]) == c && db.orders[k].carrier.Some?
  }

  /** The seeded customers have made one payment each, which is not in the history. */
  ghost predicate Counted(db: Db) {
    forall c :: c in db.customer ==>
      && db.customer[c].paymentCount == 1 + Payments(db.history, c)
      && db.customer[c].deliveryCount == |Carried(db, c)|
  }

  lemma SeedIsCounted(db: Db)
    requires Seeded(db)
    ensures Counted(db)
  {
    forall c | c in db.customer ensures Carried(db, c) == {} {}
  }

  lemma PaymentCounts(db: Db, p: PaymentParams, db': Db)
    requires Counted(db) && PaidInto(db, p, db')
    ensures Counted(db')
  {
    forall c | c in db'.customer
      ensures db'.customer[c].paymentCount == 1 + Payments(db'.history, c)
      ensures db'.customer[c].deliveryCount == |Carried(db', c)|
    {
      assert db'.history[..|db'.history| - 1] == db.history;
      assert Carried(db', c) == Carried(db, c);
    }
  }

  lemma NewOrderCounts(db: Db, p: NewOrderParams, k: OKey, db': Db)
    requires Counted(db) && Entered(db, p, k, db')
    ensures Counted(db')
  {
    hide LinesEntered;
    forall c | c in db'.customer ensures Carried(db', c) == Carried(db, c) {}
  }

  lemma DeliveryCarries(db: Db, k: OKey, carrier: int, now: int, db': Db, c: CKey)
    requires CarriersMatch(db) && k in db.newOrder && Delivered(db, k, carrier, now, db')
    ensures k !in Carried(db, c)
    ensures Carried(db', c) == Carried(db, c) + if CustomerOf(k, db.orders[k]) == c then {k} else {}
  {
    hide LineAmounts, Credited;
  }

  lemma DeliveryCounts(db: Db, k: OKey, carrier: int, now: int, db': Db)
    requires Counted(db) && CarriersMatch(db) && k in db.newOrder && Delivered(db, k, carrier, now, db')
    ensures Counted(db')
  {
    hide LineAmounts, CarriersMatch, Carried;
    forall c | c in db'.customer
      ensures db'.customer[c].paymentCount == 1 + Payments(db'.history, c)
      ensures db'.customer[c].deliveryCount == |Carried(db', c)|
    {
      DeliveryCarries(db, k, carrier, now, db', c);
    }
  }

  lemma DeliverDistrictCounts(db: Db, k: DKey, carrier: int, now: int)
    requires Counted(db) && Orderly(db) && DeliverDistrict(db, k, carrier, now).Some?
    ensures Counted(DeliverDistrict(db, k, carrier, now).value) && Orderly(DeliverDistrict(db, k, carrier, now).value)
  {
    match Oldest(db, k)
    case None =>
    case Some(o) =>
      var order := OKey(k.w, k.d, o);
      var db' := DeliverOrder(db, order, carrier, now).value;
      hide Counted;
      DeliverOrderDelivers(db, order, carrier, now);
      DeliveryKeepsIds(db, order, carrier, now, db');
      DeliveryKeepsNewOrders(db, order, carrier, now, db');
      DeliveryKeepsLines(db, order, carrier, now, db');
      DeliveryCounts(db, order, carrier, now, db');
  }

  lemma {:induction false} DeliveriesCount(db: Db, p: DeliveryParams, n: nat, now: int)
    requires Counted(db) && Orderly(db) && DeliverUpTo(db, p, n, now).Some?
    ensures Counted(DeliverUpTo(db, p, n, now).value) && Orderly(DeliverUpTo(db, p, n, now).value)
  {
    if n > 0 {
      hide Counted, Orderly;
      DeliveriesCount(db, p, n - 1, now);
      DeliverDistrictCounts(DeliverUpTo(db, p, n - 1, now).value, DKey(p.w, n), p.carrier, now);
    }
  }

  lemma NewOrderKeepsOrder(db: Db, p: NewOrderParams, k: OKey, db': Db)
    requires Orderly(db) && Entered(db, p, k, db')
    ensures Orderly(db')
  {
    NewOrderKeepsIds(db, p, k, db');
    NewOrderKeepsNewOrders(db, p, k, db');
    NewOrderKeepsLines(db, p, k, db');
  }

  lemma TransactionCounts(db: Db, tx: Tx)
    requires Counted(db) && Orderly(db)
    ensures Counted(After(db, tx)) && Orderly(After(db, tx))
  {
    hide Counted, Orderly, NewOrderSpec, PaymentSpec;
    if Outcome(db, tx).Some? {
      var db' := Outcome(db, tx).value;
      match tx
      case NewOrderTx(p) =>
        NewOrderEnters(db, p);
        var k := OKey(p.w, p.d, db.district[DKey(p.w, p.d)].nextOrder);
        NewOrderKeepsOrder(db, p, k, db');
        NewOrderCounts(db, p, k, db');
      case PaymentTx(p) =>
        PaymentPays(db, p);
        PaymentKeepsOrder(db, p, db');
        PaymentCounts(db, p, db');
      case DeliveryTx(p, now) =>
        DeliveriesCount(db, p, 10, now);
    }
  }

  /** After every serial run from the seed, also one that pays for missing districts, C_PAYMENT_CNT is one more
      than the customer's history rows and C_DELIVERY_CNT is the number of the customer's orders that have
      a carrier. */
  lemma {:induction false} EveryRunCountsRight(db: Db, txs: seq<Tx>)
    requires Seeded(db)
    ensures Counted(Run(db, txs)) && Orderly(Run(db, txs))
  {
    if txs == [] {
      SeedIsConsistent(db);
      SeedIsCounted(db);
    } else {
      hide Counted, Orderly, Seeded;
      EveryRunCountsRight(db, txs[..|txs| - 1]);
      TransactionCounts(Run(db, txs[..|txs| - 1]), txs[|txs| - 1]);
    }
  }
}
