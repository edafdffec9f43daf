/** What a spreadsheet round trip and a repeated import do to the store. */
module ImportLaws {
  import opened Wrappers
  import opened Coercion
  import opened Records
  import opened Spreadsheet

  /** The stored form of an order after export and re-import: empty texts
      become null and a zero quantity becomes 1. */
  function Normalize(o: Order): Order {
    o.(channel := OrNull(o.channel),
       productName := OrNull(o.productName),
       quantity := if o.quantity == 0 then 1 else o.quantity,
       logistics := OrNull(o.logistics),
       afterSalesNotes := OrNull(o.afterSalesNotes),
       remarks := OrNull(o.remarks))
  }

  /** Every stored order has a non-empty order id and a customer with a
      non-empty phone, so none of its export rows is skipped. */
  predicate Exportable(db: Db) {
    "" !in db.customers && "" !in db.orders
  }

  /** A row carrying `c`'s cells upserts `c` onto itself when `c` is
      stored under its phone. */
  lemma UpsertOfCarriedCustomer(d: Db, row: Row, o: Order, c: Customer, today: int)
    requires c.phone in d.customers && d.customers[c.phone] == c && c.phone != ""
    requires CarriesOrder(row, o, c)
    ensures UpsertRowCustomer(d, row, today) == (d, c)
  {
    assert d.customers[c.phone := c] == d.customers;
  }

  /** A row carrying `o`'s cells yields `Normalize(o)`. */
  lemma RowOrderOfCarriedOrder(row: Row, o: Order, c: Customer)
    requires CarriesOrder(row, o, c) && o.orderId != ""
    ensures RowOrder(row, o.id, o.customerId) == Ok(Normalize(o))
  {
    ParseDayOfDayToText(o.date);
    if o.arrivalDate.Some? {
      ParseDayOfDayToText(o.arrivalDate.value);
    }
    ToNumberOfIntToText(o.quantity);
    ToNumberOfIntToText(o.amount);
    ToNumberOfIntToText(o.shippingFee);
  }

  /** Importing a row that carries order `o` and its customer `c`, with `c`
      stored under its phone, writes `Normalize(o)` under `o`'s order id,
      keeps its internal id and touches nothing else. */
  lemma ReimportOrderRow(d: Db, row: Row, o: Order, c: Customer, today: int)
    requires CarriesOrder(row, o, c)
    requires c.phone in d.customers && d.customers[c.phone] == c && o.customerId == c.id
    requires o.orderId in d.orders && d.orders[o.orderId].id == o.id
    requires o.orderId != "" && c.phone != ""
    ensures ImportOrderRow(d, row, today) == Written(d.(orders := d.orders[o.orderId := Normalize(o)]))
  {
    UpsertOfCarriedCustomer(d, row, o, c, today);
    RowOrderOfCarriedOrder(row, o, c);
  }

  /** The same at the level of a stored order: its export row reads back
      as its normal form, and an order already in normal form reads back
      to the very same store. */
  lemma ReimportExportedOrder(db: Db, o: Order, today: int)
    requires Valid(db) && Exportable(db) && o in db.orders.Values
    ensures HasCustomer(db.customers, o.customerId)
    ensures var row := ExportOrderRow(o, CustomerWithId(db.customers, o.customerId));
      && ImportOrderRow(db, row, today) == Written(db.(orders := db.orders[o.orderId := Normalize(o)]))
      && (Normalize(o) == o ==> ImportOrderRow(db, row, today) == Written(db))
  {
    var k :| k in db.orders && db.orders[k] == o;
    assert o.orderId == k && HasCustomer(db.customers, o.customerId);
    var c := CustomerWithId(db.customers, o.customerId);
    var p :| p in db.customers && db.customers[p] == c;
    assert c.phone == p;
    ExportOrderRowCells(o, c);
    ReimportOrderRow(db, ExportOrderRow(o, c), o, c, today);
    if Normalize(o) == o {
      RewriteStored(db, k);
    }
  }

  /** Writing a stored order back onto its own key leaves the store as it was. */
  lemma RewriteStored(db: Db, k: string)
    requires k in db.orders
    ensures db.(orders := db.orders[k := db.orders[k]]) == db
  {
    assert db.orders[k := db.orders[k]] == db.orders;
  }

  /** The store with the orders whose ids are in `keys` normalized. */
  ghost function NormalizeOrders(db: Db, keys: set<string>): Db {
    db.(orders := map k | k in db.orders :: if k in keys then Normalize(db.orders[k]) else db.orders[k])
  }

  /** Normalizing one more order is writing its normal form. */
  lemma NormalizeOneMore(db: Db, keys: set<string>, k: string)
    requires k in db.orders && db.orders[k].orderId == k
    ensures var d := NormalizeOrders(db, keys);
      d.(orders := d.orders[k := Normalize(db.orders[k])]) == NormalizeOrders(db, keys + {k})
  {
    var d := NormalizeOrders(db, keys);
    var e := NormalizeOrders(db, keys + {k});
    assert d.orders[k := Normalize(db.orders[k])] == e.orders;
  }

  /** The order ids of `os`. */
  function OrderIds(os: seq<Order>): set<string>
    decreases |os|
  {
    if os == [] then {} else OrderIds(os[..|os| - 1]) + {os[|os| - 1].orderId}
  }

  /** Every order of `os` has its id among them. */
  lemma {:induction false} OrderIdsHas(os: seq<Order>, i: nat)
    requires i < |os|
    ensures os[i].orderId in OrderIds(os)
    decreases |os|
  {
    if i < |os| - 1 {
      OrderIdsHas(os[..|os| - 1], i);
    }
  }

  /** Row `row` carries stored order `o` and the customer it refers to. */
  ghost predicate Carried(db: Db, row: Row, o: Order) {
    && o in db.orders.Values && HasCustomer(db.customers, o.customerId)
    && CarriesOrder(row, o, CustomerWithId(db.customers, o.customerId))
  }

  /** Each row of `rows` carries the stored order at its position in `os`. */
  ghost predicate CarriesAll(db: Db, rows: seq<Row>, os: seq<Order>)
    decreases |os|
  {
    && |rows| == |os|
    && (os != [] ==>
          && CarriesAll(db, rows[..|rows| - 1], os[..|os| - 1])
          && Carried(db, rows[|rows| - 1], os[|os| - 1]))
  }

  lemma {:induction false} CarriesAllOfEach(db: Db, rows: seq<Row>, os: seq<Order>)
    requires |rows| == |os|
    requires forall i :: 0 <= i < |os| ==> Carried(db, rows[i], os[i])
    ensures CarriesAll(db, rows, os)
    decreases |os|
  {
    if os != [] {
      var n := |os| - 1;
      var init, inits := rows[..n], os[..n];
      forall i | 0 <= i < n ensures Carried(db, init[i], inits[i]) {
        assert init[i] == rows[i] && inits[i] == os[i];
      }
      CarriesAllOfEach(db, init, inits);
    }
  }

  /** One more carried row normalizes one more stored order. */
  lemma ReimportNext(db: Db, keys: set<string>, row: Row, o: Order, today: int)
    requires Valid(db) && Exportable(db) && Carried(db, row, o)
    ensures ImportOrderRow(NormalizeOrders(db, keys), row, today) ==
      Written(NormalizeOrders(db, keys + {o.orderId}))
  {
    var d := NormalizeOrders(db, keys);
    var c := CustomerWithId(db.customers, o.customerId);
    var k :| k in db.orders && db.orders[k] == o;
    var p :| p in db.customers && db.customers[p] == c;
    ReimportOrderRow(d, row, o, c, today);
    NormalizeOneMore(db, keys, k);
  }

  /** Re-importing rows that carry a sequence of stored orders normalizes
      exactly those orders, counts every row and never fails. */
  lemma {:induction false} ReimportRows(db: Db, rows: seq<Row>, os: seq<Order>, today: int)
    requires Valid(db) && Exportable(db) && CarriesAll(db, rows, os)
    ensures ImportOrders(db, rows, today) == ImportRun(NormalizeOrders(db, OrderIds(os)), |os|, None)
    decreases |os|
  {
    if os == [] {
      assert NormalizeOrders(db, {}).orders == db.orders;
    } else {
      var n := |os| - 1;
      var init, inits := rows[..n], os[..n];
      var keys := OrderIds(inits);
      ReimportRows(db, init, inits, today);
      var prev := ImportOrders(db, init, today);
      ReimportNext(db, keys, rows[n], os[n], today);
      assert OrderIds(os) == keys + {os[n].orderId};
      assert ImportOrders(db, rows, today) == ImportStep(prev, rows[n], today);
    }
  }

  /** Normalizing a set of keys that covers the store is normalizing
      every stored order. */
  lemma NormalizeCovering(db: Db, keys: set<string>)
    requires db.orders.Keys <= keys
    ensures var d := NormalizeOrders(db, keys);
      && d.customers == db.customers
      && d.nextCustomerId == db.nextCustomerId && d.nextOrderId == db.nextOrderId
      && d.orders.Keys == db.orders.Keys
      && (forall k :: k in db.orders ==> d.orders[k] == Normalize(db.orders[k]))
  {
  }

  /** Every order in normal form: normalizing changes nothing. */
  ghost predicate InNormalForm(db: Db) {
    forall k :: k in db.orders ==> Normalize(db.orders[k]) == db.orders[k]
  }

  lemma NormalizeNormal(db: Db, keys: set<string>)
    requires InNormalForm(db)
    ensures NormalizeOrders(db, keys) == db
  {
    assert NormalizeOrders(db, keys).orders == db.orders;
  }

  /** The export visits every stored order id. */
  lemma ExportVisitsEveryOrder(db: Db)
    requires Valid(db)
    ensures db.orders.Keys <= OrderIds(OrdersByDate(db))
  {
    var os := OrdersByDate(db);
    forall k | k in db.orders ensures k in OrderIds(os) {
      assert db.orders[k] in db.orders.Values;
      var i :| 0 <= i < |os| && os[i] == db.orders[k];
      OrderIdsHas(os, i);
    }
  }

  /** The export rows carry the stored orders, in export order. */
  lemma ExportCarriesOrders(db: Db)
    requires Valid(db)
    ensures var os := OrdersByDate(db);
      var rows := ExportOrders(db);
      && |rows| == |os|
      && forall i :: 0 <= i < |os| ==> Carried(db, rows[i], os[i])
  {
    var os := OrdersByDate(db);
    var rows := ExportOrders(db);
    forall i | 0 <= i < |os| ensures Carried(db, rows[i], os[i]) {
      assert os[i] in os;
      var k :| k in db.orders && db.orders[k] == os[i];
      ExportOrderRowCells(os[i], CustomerWithId(db.customers, os[i].customerId));
    }
  }

  /** Exporting the orders and importing the sheet back normalizes every
      order and changes nothing else; a store whose orders are already in
      normal form comes back unchanged. */
  lemma ReimportOrderExport(db: Db, today: int)
    requires Valid(db) && Exportable(db)
    ensures var r := ImportOrders(db, ExportOrders(db), today);
      && r.failure.None? && r.count == |db.orders|
      && r.db.customers == db.customers
      && r.db.nextCustomerId == db.nextCustomerId && r.db.nextOrderId == db.nextOrderId
      && r.db.orders.Keys == db.orders.Keys
      && (forall k :: k in db.orders ==> r.db.orders[k] == Normalize(db.orders[k]))
      && (InNormalForm(db) ==> r.db == db)
  {
    var os := OrdersByDate(db);
    ExportCarriesOrders(db);
    CarriesAllOfEach(db, ExportOrders(db), os);
    ReimportRows(db, ExportOrders(db), os, today);
    ExportVisitsEveryOrder(db);
    NormalizeCovering(db, OrderIds(os));
    if InNormalForm(db) {
      NormalizeNormal(db, OrderIds(os));
    }
  }

  /** Importing a row that carries a stored customer's cells changes
      nothing. */
  lemma ReimportCustomerRow(db: Db, row: Row, c: Customer, today: int)
    requires Valid(db) && c in db.customers.Values && CarriesCustomer(row, c)
    ensures ImportCustomerRow(db, row, today) == db
  {
    var p :| p in db.customers && db.customers[p] == c;
    if IsCustomerRow(row) {
      assert db.customers[c.phone := c] == db.customers;
    }
  }

  /** Importing rows that each carry a stored customer's cells changes
      nothing. */
  lemma {:induction false} ReimportCustomerRows(db: Db, rows: seq<Row>, cs: seq<Customer>, today: int)
    requires Valid(db) && |rows| == |cs|
    requires forall i :: 0 <= i < |cs| ==> cs[i] in db.customers.Values && CarriesCustomer(rows[i], cs[i])
    ensures ImportCustomers(db, rows, today).db == db
    decreases |cs|
  {
    if cs != [] {
      var n := |cs| - 1;
      ReimportCustomerRows(db, rows[..n], cs[..n], today);
      ReimportCustomerRow(db, rows[n], cs[n], today);
    }
  }

  /** Exporting the customers and importing the sheet back leaves the store
      exactly as it was. */
  lemma ReimportCustomerExport(db: Db, today: int)
    requires Valid(db)
    ensures ImportCustomers(db, ExportCustomers(db), today).db == db
  {
    var cs := CustomersByNewest(db);
    var rows := ExportCustomers(db);
    forall i | 0 <= i < |cs| ensures cs[i] in db.customers.Values && CarriesCustomer(rows[i], cs[i]) {
      assert cs[i] in cs;
      ExportCustomerRowCells(cs[i], OrderCount(db.orders, cs[i].id));
    }
    ReimportCustomerRows(db, rows, cs, today);
  }
}
