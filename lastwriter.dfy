/** What a finished order import leaves in the store, key by key: the last
    row that wrote a key decides its value. Re-importing the same sheet is
    therefore idempotent. */
module LastWriter {
  import opened Wrappers
  import opened Coercion
  import opened Records
  import opened Tables
  import opened Spreadsheet
  import opened Handlers

  /** Row `r` is processed and upserts the customer with phone `p`. */
  predicate WritesCustomer(r: Row, p: string) {
    IsOrderRow(r) && Cell(r, PhoneHeader) == Some(p)
  }

  /** Row `r` is processed, upserts customer `p` and submits an address. */
  predicate WritesAddress(r: Row, p: string) {
    WritesCustomer(r, p) && Truthy(Cell(r, AddressHeader))
  }

  /** Row `r` is processed and upserts the order with order id `k`. */
  predicate WritesOrder(r: Row, k: string) {
    IsOrderRow(r) && Cell(r, OrderIdHeader) == Some(k)
  }

  /** The last row of `xs` that upserts customer `p`. */
  function LastCustomerRow(xs: seq<Row>, p: string): (r: Option<Row>)
    ensures r.Some? ==> WritesCustomer(r.value, p)
    decreases |xs|
  {
    if xs == [] then None
    else if WritesCustomer(xs[|xs| - 1], p) then Some(xs[|xs| - 1])
    else LastCustomerRow(xs[..|xs| - 1], p)
  }

  /** The last row of `xs` that writes customer `p`'s address. */
  function LastAddressRow(xs: seq<Row>, p: string): (r: Option<Row>)
    ensures r.Some? ==> WritesAddress(r.value, p) && LastCustomerRow(xs, p).Some?
    decreases |xs|
  {
    if xs == [] then None
    else if WritesAddress(xs[|xs| - 1], p) then Some(xs[|xs| - 1])
    else LastAddressRow(xs[..|xs| - 1], p)
  }

  /** The last row of `xs` that upserts order `k`. */
  function LastOrderRow(xs: seq<Row>, k: string): (r: Option<Row>)
    ensures r.Some? ==> WritesOrder(r.value, k)
    decreases |xs|
  {
    if xs == [] then None
    else if WritesOrder(xs[|xs| - 1], k) then Some(xs[|xs| - 1])
    else LastOrderRow(xs[..|xs| - 1], k)
  }

  /** The phones the processed rows of `xs` carry. */
  function Phones(xs: seq<Row>): set<string>
    decreases |xs|
  {
    if xs == [] then {}
    else
      var last := xs[|xs| - 1];
      Phones(xs[..|xs| - 1]) + (if IsOrderRow(last) then {last[PhoneHeader]} else {})
  }

  /** The order ids the processed rows of `xs` carry. */
  function OrderKeys(xs: seq<Row>): set<string>
    decreases |xs|
  {
    if xs == [] then {}
    else
      var last := xs[|xs| - 1];
      OrderKeys(xs[..|xs| - 1]) + (if IsOrderRow(last) then {last[OrderIdHeader]} else {})
  }

  /** A phone is among the sheet's phones exactly when some row upserts it. */
  lemma {:induction false} PhonesHaveWriters(xs: seq<Row>, p: string)
    ensures p in Phones(xs) <==> LastCustomerRow(xs, p).Some?
    decreases |xs|
  {
    if xs != [] {
      PhonesHaveWriters(xs[..|xs| - 1], p);
    }
  }

  /** An order id is among the sheet's ids exactly when some row upserts it. */
  lemma {:induction false} OrderKeysHaveWriters(xs: seq<Row>, k: string)
    ensures k in OrderKeys(xs) <==> LastOrderRow(xs, k).Some?
    decreases |xs|
  {
    if xs != [] {
      OrderKeysHaveWriters(xs[..|xs| - 1], k);
    }
  }

  /** Customer `c`, stored under phone `p` after importing `xs` into `db`,
      has the name of the last row for `p`, the address of the last row for
      `p` that has one, and otherwise what `db` had. */
  ghost predicate CustomerAfter(db: Db, xs: seq<Row>, p: string, c: Customer) {
    && c.phone == p
    && (p in db.customers ==>
          c.id == db.customers[p].id && c.symptoms == db.customers[p].symptoms &&
          c.createdAt == db.customers[p].createdAt)
    && (LastCustomerRow(xs, p).Some? ==> c.name == ToText(Cell(LastCustomerRow(xs, p).value, NameHeader)))
    && (LastCustomerRow(xs, p).None? && p in db.customers ==> c.name == db.customers[p].name)
    && (LastAddressRow(xs, p).Some? ==> c.address == Cell(LastAddressRow(xs, p).value, AddressHeader))
    && (LastAddressRow(xs, p).None? ==> c.address == if p in db.customers then db.customers[p].address else None)
  }

  /** The order stored under `k` in `e` after importing `xs` into `db` is
      the payload of the last row for `k`, joined with the customer of that
      row's phone, and otherwise what `db` had. */
  ghost predicate OrderAfter(db: Db, xs: seq<Row>, e: Db, k: string)
    requires k in e.orders
  {
    var o := e.orders[k];
    && (k in db.orders ==> o.id == db.orders[k].id)
    && (LastOrderRow(xs, k).Some? ==>
          var r := LastOrderRow(xs, k).value;
          r[PhoneHeader] in e.customers && RowOrder(r, o.id, e.customers[r[PhoneHeader]].id) == Ok(o))
    && (LastOrderRow(xs, k).None? && k in db.orders ==> o == db.orders[k])
  }

  /** The store `e` is what importing `xs` into `db` leaves, key by key:
      the keys of `db` plus the keys the rows carry, every value decided by
      the last row that wrote it, and the counters untouched when no row
      created a record. */
  ghost predicate After(db: Db, xs: seq<Row>, e: Db) {
    && e.customers.Keys == db.customers.Keys + Phones(xs)
    && e.orders.Keys == db.orders.Keys + OrderKeys(xs)
    && (Phones(xs) <= db.customers.Keys ==> e.nextCustomerId == db.nextCustomerId)
    && (OrderKeys(xs) <= db.orders.Keys ==> e.nextOrderId == db.nextOrderId)
    && (forall p :: p in e.customers ==> CustomerAfter(db, xs, p, e.customers[p]))
    && (forall k :: k in e.orders ==> OrderAfter(db, xs, e, k))
  }

  /** An import into an untouched store: nothing decided yet. */
  lemma AfterNothing(db: Db)
    requires Valid(db)
    ensures After(db, [], db)
  {
  }

  /** A skipped row changes neither the store nor who wrote last. */
  lemma AfterSkip(db: Db, xs: seq<Row>, e: Db)
    requires |xs| > 0 && !IsOrderRow(xs[|xs| - 1])
    requires After(db, xs[..|xs| - 1], e)
    ensures After(db, xs, e)
  {
    var init := xs[..|xs| - 1];
    assert Phones(xs) == Phones(init);
    assert OrderKeys(xs) == OrderKeys(init);
    forall p | p in e.customers ensures CustomerAfter(db, xs, p, e.customers[p]) {
      assert CustomerAfter(db, init, p, e.customers[p]);
      assert LastCustomerRow(xs, p) == LastCustomerRow(init, p);
      assert LastAddressRow(xs, p) == LastAddressRow(init, p);
    }
    forall k | k in e.orders ensures OrderAfter(db, xs, e, k) {
      assert LastOrderRow(xs, k) == LastOrderRow(init, k);
      assert OrderAfter(db, init, e, k);
    }
  }

  /** The customer a processed row upserts is decided by that row. */
  lemma UpsertedCustomerAfter(db: Db, xs: seq<Row>, e: Db, today: int)
    requires |xs| > 0 && IsOrderRow(xs[|xs| - 1])
    requires e.customers.Keys == db.customers.Keys + Phones(xs[..|xs| - 1])
    requires forall p :: p in e.customers ==> CustomerAfter(db, xs[..|xs| - 1], p, e.customers[p])
    ensures var x := xs[|xs| - 1];
      CustomerAfter(db, xs, x[PhoneHeader], UpsertRowCustomer(e, x, today).0.customers[x[PhoneHeader]])
  {
    var n := |xs| - 1;
    var init := xs[..n];
    var x := xs[n];
    var p := x[PhoneHeader];
    assert LastCustomerRow(xs, p) == Some(x);
    if WritesAddress(x, p) {
      assert LastAddressRow(xs, p) == Some(x);
    } else {
      assert LastAddressRow(xs, p) == LastAddressRow(init, p);
      if p !in e.customers {
        PhonesHaveWriters(init, p);
      }
    }
  }

  /** A customer the row does not name keeps the row that decided it. */
  lemma OtherCustomerAfter(db: Db, xs: seq<Row>, p: string, c: Customer)
    requires |xs| > 0 && Cell(xs[|xs| - 1], PhoneHeader) != Some(p)
    requires CustomerAfter(db, xs[..|xs| - 1], p, c)
    ensures CustomerAfter(db, xs, p, c)
  {
    var init := xs[..|xs| - 1];
    assert LastCustomerRow(xs, p) == LastCustomerRow(init, p);
    assert LastAddressRow(xs, p) == LastAddressRow(init, p);
  }

  /** The customer upsert of a processed row adds its phone to the keys
      and draws a customer id only for a new phone. */
  lemma CustomerKeysStep(db: Db, xs: seq<Row>, e: Db, e1: Db)
    requires |xs| > 0 && IsOrderRow(xs[|xs| - 1])
    requires e.customers.Keys == db.customers.Keys + Phones(xs[..|xs| - 1])
    requires Phones(xs[..|xs| - 1]) <= db.customers.Keys ==> e.nextCustomerId == db.nextCustomerId
    requires e1.customers.Keys == e.customers.Keys + {xs[|xs| - 1][PhoneHeader]}
    requires xs[|xs| - 1][PhoneHeader] in e.customers ==> e1.nextCustomerId == e.nextCustomerId
    ensures e1.customers.Keys == db.customers.Keys + Phones(xs)
    ensures Phones(xs) <= db.customers.Keys ==> e1.nextCustomerId == db.nextCustomerId
  {
    assert Phones(xs) == Phones(xs[..|xs| - 1]) + {xs[|xs| - 1][PhoneHeader]};
  }

  /** The customer upsert of a processed row makes that row the last
      writer of its phone and leaves every other customer as it was. */
  lemma CustomerValuesStep(db: Db, xs: seq<Row>, e: Db, today: int)
    requires |xs| > 0 && IsOrderRow(xs[|xs| - 1])
    requires e.customers.Keys == db.customers.Keys + Phones(xs[..|xs| - 1])
    requires forall p :: p in e.customers ==> CustomerAfter(db, xs[..|xs| - 1], p, e.customers[p])
    ensures var e1 := UpsertRowCustomer(e, xs[|xs| - 1], today).0;
      forall p :: p in e1.customers ==> CustomerAfter(db, xs, p, e1.customers[p])
  {
    var x := xs[|xs| - 1];
    var phone := x[PhoneHeader];
    var e1 := UpsertRowCustomer(e, x, today).0;
    UpsertedCustomerAfter(db, xs, e, today);
    forall p | p in e1.customers ensures CustomerAfter(db, xs, p, e1.customers[p]) {
      if p != phone {
        OtherCustomerAfter(db, xs, p, e.customers[p]);
      }
    }
  }

  /** The customer upsert keeps the id of every customer already stored. */
  lemma UpsertKeepsIds(e: Db, x: Row, today: int)
    requires Truthy(Cell(x, PhoneHeader))
    ensures var e1 := UpsertRowCustomer(e, x, today).0;
      && e1.customers.Keys == e.customers.Keys + {x[PhoneHeader]}
      && e1.nextCustomerId == (if x[PhoneHeader] in e.customers then e.nextCustomerId else e.nextCustomerId + 1)
      && (forall p :: p in e.customers ==> e1.customers[p].id == e.customers[p].id)
  {
  }

  /** The order a processed row writes is decided by that row. */
  lemma WrittenOrderAfter(db: Db, xs: seq<Row>, e: Db, today: int)
    requires |xs| > 0 && IsOrderRow(xs[|xs| - 1])
    requires ImportOrderRow(e, xs[|xs| - 1], today).Written?
    requires xs[|xs| - 1][OrderIdHeader] in db.orders ==>
      xs[|xs| - 1][OrderIdHeader] in e.orders && e.orders[xs[|xs| - 1][OrderIdHeader]].id == db.orders[xs[|xs| - 1][OrderIdHeader]].id
    ensures var e2 := ImportOrderRow(e, xs[|xs| - 1], today).db;
      var k := xs[|xs| - 1][OrderIdHeader];
      k in e2.orders && OrderAfter(db, xs, e2, k)
  {
    var x := xs[|xs| - 1];
    var k := x[OrderIdHeader];
    var (e1, c) := UpsertRowCustomer(e, x, today);
    var e2 := ImportOrderRow(e, x, today).db;
    WrittenRow(e, x, today);
    assert LastOrderRow(xs, k) == Some(x);
    assert e2.customers[x[PhoneHeader]] == c;
  }

  /** An order the row does not name keeps the row that decided it, and
      that row's customer keeps its id. */
  lemma OtherOrderAfter(db: Db, xs: seq<Row>, e: Db, e2: Db, k: string)
    requires |xs| > 0 && Cell(xs[|xs| - 1], OrderIdHeader) != Some(k)
    requires k in e.orders && OrderAfter(db, xs[..|xs| - 1], e, k)
    requires k in e2.orders && e2.orders[k] == e.orders[k]
    requires forall p :: p in e.customers ==> p in e2.customers && e2.customers[p].id == e.customers[p].id
    ensures OrderAfter(db, xs, e2, k)
  {
    assert LastOrderRow(xs, k) == LastOrderRow(xs[..|xs| - 1], k);
  }

  /** The order upsert of a processed row adds its order id to the keys
      and draws an order id only for a new one. */
  lemma OrderKeysStep(db: Db, xs: seq<Row>, e: Db, e2: Db)
    requires |xs| > 0 && IsOrderRow(xs[|xs| - 1])
    requires e.orders.Keys == db.orders.Keys + OrderKeys(xs[..|xs| - 1])
    requires OrderKeys(xs[..|xs| - 1]) <= db.orders.Keys ==> e.nextOrderId == db.nextOrderId
    requires e2.orders.Keys == e.orders.Keys + {xs[|xs| - 1][OrderIdHeader]}
    requires xs[|xs| - 1][OrderIdHeader] in e.orders ==> e2.nextOrderId == e.nextOrderId
    ensures e2.orders.Keys == db.orders.Keys + OrderKeys(xs)
    ensures OrderKeys(xs) <= db.orders.Keys ==> e2.nextOrderId == db.nextOrderId
  {
    assert OrderKeys(xs) == OrderKeys(xs[..|xs| - 1]) + {xs[|xs| - 1][OrderIdHeader]};
  }

  /** The order upsert of a processed row makes that row the last writer
      of its order id; every other order keeps its last writer. */
  lemma OrderValuesStep(db: Db, xs: seq<Row>, e: Db, today: int)
    requires |xs| > 0 && IsOrderRow(xs[|xs| - 1])
    requires forall k :: k in e.orders ==> OrderAfter(db, xs[..|xs| - 1], e, k)
    requires e.orders.Keys == db.orders.Keys + OrderKeys(xs[..|xs| - 1])
    requires ImportOrderRow(e, xs[|xs| - 1], today).Written?
    ensures var e2 := ImportOrderRow(e, xs[|xs| - 1], today).db;
      forall k :: k in e2.orders ==> OrderAfter(db, xs, e2, k)
  {
    var x := xs[|xs| - 1];
    var key := x[OrderIdHeader];
    var e2 := ImportOrderRow(e, x, today).db;
    WrittenRow(e, x, today);
    UpsertKeepsIds(e, x, today);
    if key in db.orders {
      assert OrderAfter(db, xs[..|xs| - 1], e, key);
    }
    WrittenOrderAfter(db, xs, e, today);
    forall k | k in e2.orders ensures OrderAfter(db, xs, e2, k) {
      if k != key {
        OtherOrderAfter(db, xs, e, e2, k);
      }
    }
  }

  /** The whole step: the store after one more processed row is what the
      longer sheet decides. */
  lemma AfterStep(db: Db, xs: seq<Row>, e: Db, today: int)
    requires |xs| > 0 && IsOrderRow(xs[|xs| - 1])
    requires After(db, xs[..|xs| - 1], e)
    requires ImportOrderRow(e, xs[|xs| - 1], today).Written?
    ensures After(db, xs, ImportOrderRow(e, xs[|xs| - 1], today).db)
  {
    var x := xs[|xs| - 1];
    var e1 := UpsertRowCustomer(e, x, today).0;
    var e2 := ImportOrderRow(e, x, today).db;
    UpsertKeepsIds(e, x, today);
    WrittenRow(e, x, today);
    CustomerKeysStep(db, xs, e, e1);
    CustomerValuesStep(db, xs, e, today);
    OrderKeysStep(db, xs, e, e2);
    OrderValuesStep(db, xs, e, today);
  }

  /** A processed row fails when its date does not parse, or when it has
      an arrival date that does not parse. */
  predicate RowFails(r: Row) {
    IsOrderRow(r) &&
    (ParseDay(Cell(r, DateHeader)).None? || DateOrNull(Cell(r, ArrivalHeader)).Err?)
  }

  /** Whatever the store, one more row ends the run exactly when the run
      had not ended and the row fails. */
  lemma StepFinishesIffRowPasses(prev: ImportRun, row: Row, today: int)
    ensures ImportStep(prev, row, today).failure.None? <==> prev.failure.None? && !RowFails(row)
  {
  }

  /** The order import finishes exactly when no processed row has an
      invalid date, whatever the store. */
  lemma {:induction false} ImportFinishesIffNoRowFails(db: Db, xs: seq<Row>, today: int)
    ensures ImportOrders(db, xs, today).failure.None? <==> forall i :: 0 <= i < |xs| ==> !RowFails(xs[i])
    decreases |xs|
  {
    if xs != [] {
      var n := |xs| - 1;
      var init := xs[..n];
      ImportFinishesIffNoRowFails(db, init, today);
      var prev := ImportOrders(db, init, today);
      assert ImportOrders(db, xs, today) == ImportStep(prev, xs[n], today);
      StepFinishesIffRowPasses(prev, xs[n], today);
      if ImportOrders(db, xs, today).failure.None? {
        forall i | 0 <= i < |xs| ensures !RowFails(xs[i]) {
          if i < n {
            assert init[i] == xs[i];
          }
        }
      } else if prev.failure.Some? {
        var j :| 0 <= j < n && RowFails(init[j]);
        assert init[j] == xs[j];
      }
    }
  }

  /** After a finished import, every key is decided by the last row that
      wrote it. */
  lemma {:induction false} LastWriterWins(db: Db, xs: seq<Row>, today: int)
    requires Valid(db)
    requires ImportOrders(db, xs, today).failure.None?
    ensures After(db, xs, ImportOrders(db, xs, today).db)
    decreases |xs|
  {
    if xs == [] {
      AfterNothing(db);
    } else {
      var n := |xs| - 1;
      var prev := ImportOrders(db, xs[..n], today);
      assert ImportOrders(db, xs, today) == ImportStep(prev, xs[n], today);
      LastWriterWins(db, xs[..n], today);
      if IsOrderRow(xs[n]) {
        AfterStep(db, xs, prev.db, today);
      } else {
        AfterSkip(db, xs, prev.db);
      }
    }
  }

  /** Deciding the same sheet a second time changes nothing. */
  lemma AfterTwice(db: Db, xs: seq<Row>, d: Db, d2: Db)
    requires After(db, xs, d) && After(d, xs, d2)
    ensures d2 == d
  {
    forall p | p in d.customers ensures d2.customers[p] == d.customers[p] {
      assert CustomerAfter(db, xs, p, d.customers[p]);
      assert CustomerAfter(d, xs, p, d2.customers[p]);
    }
    assert d2.customers == d.customers;
    forall k | k in d.orders ensures d2.orders[k] == d.orders[k] {
      assert OrderAfter(db, xs, d, k);
      assert OrderAfter(d, xs, d2, k);
    }
    assert d2.orders == d.orders;
  }

  /** Importing the same sheet twice gives what importing it once gave:
      the same store and the same count. */
  lemma ImportOrdersIdempotent(db: Db, xs: seq<Row>, today: int)
    requires Valid(db)
    requires ImportOrders(db, xs, today).failure.None?
    ensures var once := ImportOrders(db, xs, today);
      ImportOrders(once.db, xs, today) == once
  {
    var once := ImportOrders(db, xs, today);
    ImportFinishesIffNoRowFails(db, xs, today);
    ImportFinishesIffNoRowFails(once.db, xs, today);
    LastWriterWins(db, xs, today);
    ImportOrdersKeepsValid(db, xs, today);
    LastWriterWins(once.db, xs, today);
    AfterTwice(db, xs, once.db, ImportOrders(once.db, xs, today).db);
    ImportOrdersCount(db, xs, today);
    ImportOrdersCount(once.db, xs, today);
  }
}
