/** The spreadsheet routes: the two exports project stored records onto
    header -> cell rows, and the two imports fold a sheet's rows into the
    store one upsert at a time, counting the rows they write. */
module Spreadsheet {
  import opened Wrappers
  import opened Coercion
  import opened Records
  import opened Tables
  import opened Handlers

  /** One sheet row as the reader returns it: header -> cell text; an empty
      cell has no entry. */
  type Row = map<string, string>

  /** The value destructured from a row for one header. */
  function Cell(row: Row, header: string): JsString {
    if header in row then Some(row[header]) else None
  }

  const OrderIdHeader := "訂單編號"
  const DateHeader := "日期"
  const NameHeader := "姓名"
  const PhoneHeader := "電話"
  const AddressHeader := "地址"
  const ChannelHeader := "通路"
  const ProductHeader := "商品名稱"
  const QuantityHeader := "數量"
  const AmountHeader := "銷售金額"
  const ShippingHeader := "運費"
  const LogisticsHeader := "物流"
  const ArrivalHeader := "到貨日期"
  const NotesHeader := "售後關懷(+D5)"
  const RemarksHeader := "備註"
  const SymptomsHeader := "症狀"
  const OrderCountHeader := "訂單總數"
  const CreatedHeader := "建立日期"

  /** The fourteen headers the order import reads. */
  const OrderImportHeaders: set<string> := {
    OrderIdHeader, DateHeader, NameHeader, PhoneHeader, AddressHeader, ChannelHeader,
    ProductHeader, QuantityHeader, AmountHeader, ShippingHeader, LogisticsHeader,
    ArrivalHeader, NotesHeader, RemarksHeader}

  /** The four headers the customer import reads. */
  const CustomerImportHeaders: set<string> := {NameHeader, PhoneHeader, AddressHeader, SymptomsHeader}

  // ---------------------------------------------------------------------
  // Export

  /** `x || ''` on a nullable text column. */
  function OrEmpty(x: Option<string>): string {
    x.GetOr("")
  }

  /** A nullable date column as a cell: the day, or ''. */
  function DateCell(d: Option<int>): string {
    if d.Some? then DayToText(d.value) else ""
  }

  /** One row of `GET /api/export/orders`: the order joined with its
      customer. It writes exactly the headers the order import reads. */
  function ExportOrderRow(o: Order, c: Customer): (row: Row)
    ensures row.Keys == OrderImportHeaders
  {
    map[OrderIdHeader := o.orderId,
        DateHeader := DayToText(o.date),
        NameHeader := c.name,
        AddressHeader := OrEmpty(c.address),
        PhoneHeader := c.phone,
        ChannelHeader := OrEmpty(o.channel),
        ProductHeader := OrEmpty(o.productName),
        QuantityHeader := IntToText(o.quantity),
        AmountHeader := IntToText(o.amount),
        ShippingHeader := IntToText(o.shippingFee),
        LogisticsHeader := OrEmpty(o.logistics),
        ArrivalHeader := DateCell(o.arrivalDate),
        NotesHeader := OrEmpty(o.afterSalesNotes),
        RemarksHeader := OrEmpty(o.remarks)]
  }

  /** The cells the order export writes for order `o` and its customer
      `c`, under the headers the order import reads. */
  predicate CarriesOrder(row: Row, o: Order, c: Customer) {
    && Cell(row, OrderIdHeader) == Some(o.orderId)
    && Cell(row, DateHeader) == Some(DayToText(o.date))
    && Cell(row, NameHeader) == Some(c.name)
    && Cell(row, AddressHeader) == Some(OrEmpty(c.address))
    && Cell(row, PhoneHeader) == Some(c.phone)
    && Cell(row, ChannelHeader) == Some(OrEmpty(o.channel))
    && Cell(row, ProductHeader) == Some(OrEmpty(o.productName))
    && Cell(row, QuantityHeader) == Some(IntToText(o.quantity))
    && Cell(row, AmountHeader) == Some(IntToText(o.amount))
    && Cell(row, ShippingHeader) == Some(IntToText(o.shippingFee))
    && Cell(row, LogisticsHeader) == Some(OrEmpty(o.logistics))
    && Cell(row, ArrivalHeader) == Some(DateCell(o.arrivalDate))
    && Cell(row, NotesHeader) == Some(OrEmpty(o.afterSalesNotes))
    && Cell(row, RemarksHeader) == Some(OrEmpty(o.remarks))
  }

  /** An order export row carries its order's and its customer's cells. */
  lemma ExportOrderRowCells(o: Order, c: Customer)
    ensures CarriesOrder(ExportOrderRow(o, c), o, c)
  {
  }

  /** The number of orders of customer `id` (`_count.orders`). */
  function OrderCount(orders: map<string, Order>, id: nat): (n: nat)
    ensures n <= |orders|
  {
    CountWhereAtMostSize(orders, (o: Order) => o.customerId == id);
    CountWhere(orders, (o: Order) => o.customerId == id)
  }

  /** One row of `GET /api/export/customers`. It writes every header the
      customer import reads, plus the order count and the creation day. */
  function ExportCustomerRow(c: Customer, orderCount: nat): (row: Row)
    ensures row.Keys == CustomerImportHeaders + {OrderCountHeader, CreatedHeader}
  {
    map[NameHeader := c.name,
        AddressHeader := OrEmpty(c.address),
        PhoneHeader := c.phone,
        SymptomsHeader := OrEmpty(c.symptoms),
        OrderCountHeader := IntToText(orderCount),
        CreatedHeader := DayToText(c.createdAt)]
  }

  /** The cells the customer export writes for `c` under the headers the
      customer import reads. */
  predicate CarriesCustomer(row: Row, c: Customer) {
    && Cell(row, NameHeader) == Some(c.name)
    && Cell(row, PhoneHeader) == Some(c.phone)
    && Cell(row, AddressHeader) == Some(OrEmpty(c.address))
    && Cell(row, SymptomsHeader) == Some(OrEmpty(c.symptoms))
  }

  /** A customer export row carries its customer's cells. */
  lemma ExportCustomerRowCells(c: Customer, orderCount: nat)
    ensures CarriesCustomer(ExportCustomerRow(c, orderCount), c)
  {
  }

  /** The customer an order refers to. */
  ghost function CustomerWithId(customers: map<string, Customer>, id: nat): (c: Customer)
    requires HasCustomer(customers, id)
    ensures c in customers.Values
    ensures c.id == id
  {
    var p :| p in customers && customers[p].id == id; customers[p]
  }

  /** In a valid store an order's customer is the one stored customer with
      its id. */
  lemma CustomerWithIdUnique(db: Db, c: Customer)
    requires Valid(db) && c in db.customers.Values
    ensures HasCustomer(db.customers, c.id) && CustomerWithId(db.customers, c.id) == c
  {
    var p :| p in db.customers && db.customers[p] == c;
  }

  /** The stored orders, latest order date first. */
  ghost function OrdersByDate(db: Db): (os: seq<Order>)
    ensures |os| == |db.orders|
    ensures forall o :: o in os <==> o in db.orders.Values
    ensures forall i, j :: 0 <= i < j < |os| ==> os[i].date >= os[j].date
  {
    var key := (o: Order) => -o.date;
    var os := SortBy(Scan(db.orders), key);
    assert |os| == |multiset(os)| == |multiset(Scan(db.orders))|;
    assert forall o :: o in os <==> o in multiset(os);
    assert SortedBy(os, key);
    os
  }

  /** The export rows of `os`, in order. */
  ghost function OrderRows(customers: map<string, Customer>, os: seq<Order>): (rows: seq<Row>)
    requires forall o :: o in os ==> HasCustomer(customers, o.customerId)
    ensures |rows| == |os|
    ensures forall i :: 0 <= i < |os| ==>
      rows[i] == ExportOrderRow(os[i], CustomerWithId(customers, os[i].customerId))
  {
    if os == [] then []
    else [ExportOrderRow(os[0], CustomerWithId(customers, os[0].customerId))] + OrderRows(customers, os[1..])
  }

  /** `GET /api/export/orders`: one row per stored order, latest first. */
  ghost function ExportOrders(db: Db): (rows: seq<Row>)
    requires Valid(db)
    ensures |rows| == |db.orders|
  {
    var os := OrdersByDate(db);
    assert forall o :: o in os ==> HasCustomer(db.customers, o.customerId) by {
      forall o | o in os ensures HasCustomer(db.customers, o.customerId) {
        var k :| k in db.orders && db.orders[k] == o;
      }
    }
    OrderRows(db.customers, os)
  }

  /** The order date a row carries, as the import reads it. */
  function RowDate(row: Row): Option<int> {
    ParseDay(Cell(row, DateHeader))
  }

  lemma RowDateOfExport(o: Order, c: Customer)
    ensures RowDate(ExportOrderRow(o, c)) == Some(o.date)
  {
    ExportOrderRowCells(o, c);
    ParseDayOfDayToText(o.date);
  }

  /** Read back, the date column of the order export never increases. */
  lemma ExportOrdersByDate(db: Db)
    requires Valid(db)
    ensures var rows := ExportOrders(db);
      forall i, j :: 0 <= i < j < |rows| ==>
        RowDate(rows[i]).Some? && RowDate(rows[j]).Some? && RowDate(rows[i]).value >= RowDate(rows[j]).value
  {
    var os := OrdersByDate(db);
    var rows := ExportOrders(db);
    assert rows == OrderRows(db.customers, os);
    forall i, j | 0 <= i < j < |rows|
      ensures RowDate(rows[i]).Some? && RowDate(rows[j]).Some? && RowDate(rows[i]).value >= RowDate(rows[j]).value
    {
      RowDateOfExport(os[i], CustomerWithId(db.customers, os[i].customerId));
      RowDateOfExport(os[j], CustomerWithId(db.customers, os[j].customerId));
      assert os[i].date >= os[j].date;
    }
  }

  /** The stored customers, newest first. */
  ghost function CustomersByNewest(db: Db): (cs: seq<Customer>)
    ensures |cs| == |db.customers|
    ensures forall c :: c in cs <==> c in db.customers.Values
    ensures forall i, j :: 0 <= i < j < |cs| ==> cs[i].createdAt >= cs[j].createdAt
  {
    var key := (c: Customer) => -c.createdAt;
    var cs := SortBy(Scan(db.customers), key);
    assert |cs| == |multiset(cs)| == |multiset(Scan(db.customers))|;
    assert forall c :: c in cs <==> c in multiset(cs);
    assert SortedBy(cs, key);
    cs
  }

  /** The export rows of `cs`, in order, each with its order count. */
  function CustomerRows(orders: map<string, Order>, cs: seq<Customer>): (rows: seq<Row>)
    ensures |rows| == |cs|
    ensures forall i :: 0 <= i < |cs| ==> rows[i] == ExportCustomerRow(cs[i], OrderCount(orders, cs[i].id))
  {
    if cs == [] then []
    else [ExportCustomerRow(cs[0], OrderCount(orders, cs[0].id))] + CustomerRows(orders, cs[1..])
  }

  /** `GET /api/export/customers`: one row per stored customer, newest
      first, each with its number of orders. */
  ghost function ExportCustomers(db: Db): (rows: seq<Row>)
    ensures |rows| == |db.customers|
  {
    CustomerRows(db.orders, CustomersByNewest(db))
  }

  // ---------------------------------------------------------------------
  // Import

  /** The result of importing one row. */
  datatype RowStep = Skipped | Written(db: Db) | Aborted(db: Db, failure: Failure)

  /** The store after a run, the rows counted, and the error that ended the
      run early, if any. */
  datatype ImportRun = ImportRun(db: Db, count: nat, failure: Option<Failure>)

  /** The order import processes only rows with a phone and an order id. */
  predicate IsOrderRow(row: Row) {
    Truthy(Cell(row, PhoneHeader)) && Truthy(Cell(row, OrderIdHeader))
  }

  /** The customer upsert of one order row: keyed by phone, the name is
      always written (`String(name)`), the address only when non-empty. */
  function UpsertRowCustomer(db: Db, row: Row, today: int): (r: (Db, Customer))
    requires Truthy(Cell(row, PhoneHeader))
  {
    var phone := row[PhoneHeader];
    var name := ToText(Cell(row, NameHeader));
    var address := Cell(row, AddressHeader);
    if phone in db.customers then
      var existing := db.customers[phone];
      var c := existing.(name := name, address := if Truthy(address) then address else existing.address);
      (db.(customers := db.customers[phone := c]), c)
    else
      var c := Customer(db.nextCustomerId, name, phone, OrNull(address), None, today);
      (db.(customers := db.customers[phone := c], nextCustomerId := db.nextCustomerId + 1), c)
  }

  /** The order payload of one row, shared by the update and the create
      branch of the order upsert. */
  function RowOrder(row: Row, id: nat, customerId: nat): (r: Result<Order, Failure>)
    requires Truthy(Cell(row, OrderIdHeader))
    ensures r.Ok? ==> r.value.id == id && r.value.customerId == customerId && r.value.orderId == row[OrderIdHeader]
    ensures r.Err? <==> RowOrder(row, 0, 0).Err?
  {
    match ParseDay(Cell(row, DateHeader))
    case None => Err(InvalidDate("date"))
    case Some(date) =>
      match DateOrNull(Cell(row, ArrivalHeader))
      case Err(f) => Err(f)
      case Ok(arrival) =>
        Ok(Order(
          id,
          row[OrderIdHeader],
          date,
          OrNull(Cell(row, ChannelHeader)),
          OrNull(Cell(row, ProductHeader)),
          NumberOr(Cell(row, QuantityHeader), 1),
          NumberOr(Cell(row, AmountHeader), 0),
          NumberOr(Cell(row, ShippingHeader), 0),
          OrNull(Cell(row, LogisticsHeader)),
          arrival,
          OrNull(Cell(row, NotesHeader)),
          OrNull(Cell(row, RemarksHeader)),
          customerId))
  }

  /** One pass of the order import loop: skip, or upsert the customer and
      then the order. An invalid date aborts after the customer upsert. */
  function ImportOrderRow(db: Db, row: Row, today: int): RowStep {
    if !IsOrderRow(row) then Skipped
    else
      var (db1, c) := UpsertRowCustomer(db, row, today);
      var key := row[OrderIdHeader];
      var present := key in db1.orders;
      var id := if present then db1.orders[key].id else db1.nextOrderId;
      match RowOrder(row, id, c.id)
      case Err(f) => Aborted(db1, f)
      case Ok(o) =>
        Written(db1.(orders := db1.orders[key := o],
                     nextOrderId := if present then db1.nextOrderId else db1.nextOrderId + 1))
  }

  /** A written row upserts its customer, then writes its order under its
      order id with the payload the row carries; every other order stays. */
  lemma WrittenRow(db: Db, row: Row, today: int)
    requires ImportOrderRow(db, row, today).Written?
    ensures IsOrderRow(row)
    ensures var (db1, c) := UpsertRowCustomer(db, row, today);
      var d := ImportOrderRow(db, row, today).db;
      var key := row[OrderIdHeader];
      && d.customers == db1.customers && d.nextCustomerId == db1.nextCustomerId
      && d.orders.Keys == db.orders.Keys + {key}
      && (forall k :: k in db.orders && k != key ==> d.orders[k] == db.orders[k])
      && d.nextOrderId == (if key in db.orders then db.nextOrderId else db.nextOrderId + 1)
      && RowOrder(row, d.orders[key].id, c.id) == Ok(d.orders[key])
      && (key in db.orders ==> d.orders[key].id == db.orders[key].id)
  {
  }

  /** A row that fails keeps its customer upsert and writes no order. */
  lemma AbortedRow(db: Db, row: Row, today: int)
    requires ImportOrderRow(db, row, today).Aborted?
    ensures IsOrderRow(row) && ImportOrderRow(db, row, today).db == UpsertRowCustomer(db, row, today).0
  {
  }

  /** The run after one more row: an ended run stays as it is, a written
      row is counted, a failed row ends the run. */
  function ImportStep(prev: ImportRun, row: Row, today: int): ImportRun {
    if prev.failure.Some? then prev
    else match ImportOrderRow(prev.db, row, today)
      case Skipped => prev
      case Written(d) => ImportRun(d, prev.count + 1, None)
      case Aborted(d, f) => ImportRun(d, prev.count, Some(f))
  }

  /** `POST /api/import/orders` over the rows of the first sheet. */
  function ImportOrders(db: Db, rows: seq<Row>, today: int): ImportRun
    decreases |rows|
  {
    if rows == [] then ImportRun(db, 0, None)
    else ImportStep(ImportOrders(db, rows[..|rows| - 1], today), rows[|rows| - 1], today)
  }

  /** The customer import processes only rows with a phone and a name. */
  predicate IsCustomerRow(row: Row) {
    Truthy(Cell(row, PhoneHeader)) && Truthy(Cell(row, NameHeader))
  }

  /** One pass of the customer import loop: an upsert by phone that writes
      the name, and the address and symptoms only when non-empty. */
  function ImportCustomerRow(db: Db, row: Row, today: int): Db {
    if !IsCustomerRow(row) then db
    else
      var phone := row[PhoneHeader];
      var name := row[NameHeader];
      var address := Cell(row, AddressHeader);
      var symptoms := Cell(row, SymptomsHeader);
      if phone in db.customers then
        var existing := db.customers[phone];
        var c := existing.(name := name,
                           address := if Truthy(address) then address else existing.address,
                           symptoms := if Truthy(symptoms) then symptoms else existing.symptoms);
        db.(customers := db.customers[phone := c])
      else
        var c := Customer(db.nextCustomerId, name, phone, OrNull(address), OrNull(symptoms), today);
        db.(customers := db.customers[phone := c], nextCustomerId := db.nextCustomerId + 1)
  }

  /** `POST /api/import/customers` over the rows of the first sheet; it has
      no failing step. */
  function ImportCustomers(db: Db, rows: seq<Row>, today: int): (r: ImportRun)
    ensures r.failure.None?
    decreases |rows|
  {
    if rows == [] then ImportRun(db, 0, None)
    else
      var prev := ImportCustomers(db, rows[..|rows| - 1], today);
      var row := rows[|rows| - 1];
      if IsCustomerRow(row) then ImportRun(ImportCustomerRow(prev.db, row, today), prev.count + 1, None)
      else prev
  }

  // ---------------------------------------------------------------------
  // Laws of the import loops

  /** The customer upsert of an order row keeps the store invariant, leaves
      orders alone, and never renumbers or drops an existing customer. */
  lemma UpsertRowCustomerKeepsValid(db: Db, row: Row, today: int)
    requires Valid(db) && Truthy(Cell(row, PhoneHeader))
    ensures var (db1, c) := UpsertRowCustomer(db, row, today);
      && Valid(db1) && db1.orders == db.orders && db1.nextOrderId == db.nextOrderId
      && row[PhoneHeader] in db1.customers && db1.customers[row[PhoneHeader]] == c
      && db1.customers.Keys == db.customers.Keys + {row[PhoneHeader]}
      && (forall p :: p in db.customers ==> db1.customers[p].id == db.customers[p].id)
      && (row[PhoneHeader] in db.customers ==> db1.nextCustomerId == db.nextCustomerId)
  {
    var (db1, c) := UpsertRowCustomer(db, row, today);
    assert c.phone == row[PhoneHeader];
    assert db1 == PutCustomer(db, c);
    PutCustomerKeepsValid(db, c);
  }

  lemma ImportOrderRowKeepsValid(db: Db, row: Row, today: int)
    requires Valid(db)
    ensures match ImportOrderRow(db, row, today)
      case Skipped => true
      case Written(d) => Valid(d)
      case Aborted(d, _) => Valid(d)
  {
    if IsOrderRow(row) {
      UpsertRowCustomerKeepsValid(db, row, today);
      var (db1, c) := UpsertRowCustomer(db, row, today);
      var key := row[OrderIdHeader];
      var id := if key in db1.orders then db1.orders[key].id else db1.nextOrderId;
      match RowOrder(row, id, c.id)
      case Err(_) =>
      case Ok(o) =>
        assert HasCustomer(db1.customers, o.customerId) by {
          assert db1.customers[row[PhoneHeader]].id == o.customerId;
        }
        PutOrderKeepsValid(db1, o);
    }
  }

  /** Every run of the order import, finished or aborted, leaves a store
      that satisfies the invariant. */
  lemma {:induction false} ImportOrdersKeepsValid(db: Db, rows: seq<Row>, today: int)
    requires Valid(db)
    ensures Valid(ImportOrders(db, rows, today).db)
    decreases |rows|
  {
    if rows != [] {
      var prev := ImportOrders(db, rows[..|rows| - 1], today);
      ImportOrdersKeepsValid(db, rows[..|rows| - 1], today);
      ImportOrderRowKeepsValid(prev.db, rows[|rows| - 1], today);
    }
  }

  /** A run continued over more rows: nothing after an error is applied. */
  function Resume(r: ImportRun, rows: seq<Row>, today: int): ImportRun {
    if r.failure.Some? then r
    else
      var r2 := ImportOrders(r.db, rows, today);
      ImportRun(r2.db, r.count + r2.count, r2.failure)
  }

  /** Importing `a + b` is importing `a` and then, unless `a` ended in an
      error, importing `b` into the result. */
  lemma {:induction false} ImportOrdersAppend(db: Db, a: seq<Row>, b: seq<Row>, today: int)
    ensures ImportOrders(db, a + b, today) == Resume(ImportOrders(db, a, today), b, today)
    decreases |b|
  {
    if b == [] {
      assert a + b == a;
    } else {
      var b' := b[..|b| - 1];
      assert (a + b)[..|a + b| - 1] == a + b';
      assert (a + b)[|a + b| - 1] == b[|b| - 1];
      ImportOrdersAppend(db, a, b', today);
    }
  }

  /** An error on row `k` ends the run: the store keeps what rows before
      `k` wrote and the customer upsert of row `k`, and no later row is
      applied. */
  lemma AbortStopsImport(db: Db, rows: seq<Row>, k: nat, today: int)
    requires k < |rows|
    requires ImportOrders(db, rows[..k], today).failure.None?
    requires ImportOrderRow(ImportOrders(db, rows[..k], today).db, rows[k], today).Aborted?
    ensures var prev := ImportOrders(db, rows[..k], today);
      var r := ImportOrders(db, rows, today);
      && r.failure == Some(ImportOrderRow(prev.db, rows[k], today).failure)
      && r.count == prev.count
      && r.db == UpsertRowCustomer(prev.db, rows[k], today).0
  {
    var prev := ImportOrders(db, rows[..k], today);
    assert rows[..k + 1][..k] == rows[..k];
    assert ImportOrders(db, rows[..k + 1], today) == ImportStep(prev, rows[k], today);
    AbortedRow(prev.db, rows[k], today);
    EndedRunStays(db, rows, k + 1, today);
  }

  /** Once a prefix of the rows has ended the run, the rest of the sheet
      changes nothing. */
  lemma EndedRunStays(db: Db, rows: seq<Row>, k: nat, today: int)
    requires k <= |rows|
    requires ImportOrders(db, rows[..k], today).failure.Some?
    ensures ImportOrders(db, rows, today) == ImportOrders(db, rows[..k], today)
  {
    assert rows == rows[..k] + rows[k..];
    ImportOrdersAppend(db, rows[..k], rows[k..], today);
  }

  /** Rows without a phone or an order id are skipped: the import of a
      sheet is the import of its active rows alone. */
  lemma {:induction false} ImportOrdersSkipsInactive(db: Db, rows: seq<Row>, today: int)
    ensures ImportOrders(db, rows, today) == ImportOrders(db, Filter(rows, IsOrderRow), today)
    decreases |rows|
  {
    if rows != [] {
      var init := rows[..|rows| - 1];
      var last := rows[|rows| - 1];
      assert rows == init + [last];
      FilterAppend(init, [last], IsOrderRow);
      assert Filter([last], IsOrderRow) == if IsOrderRow(last) then [last] else [] by {
        assert [last][1..] == [];
      }
      ImportOrdersSkipsInactive(db, init, today);
      var f := Filter(init, IsOrderRow);
      var prev := ImportOrders(db, init, today);
      assert ImportOrders(db, rows, today) == ImportStep(prev, last, today);
      if IsOrderRow(last) {
        var g := f + [last];
        assert g[..|g| - 1] == f && g[|g| - 1] == last;
        assert Filter(rows, IsOrderRow) == g;
        assert ImportOrders(db, g, today) == ImportStep(ImportOrders(db, f, today), last, today);
      } else {
        assert Filter(rows, IsOrderRow) == f;
        assert ImportStep(prev, last, today) == prev;
      }
    }
  }

  /** The count is the number of active rows, or fewer when a row ended
      the run. */
  lemma {:induction false} ImportOrdersCount(db: Db, rows: seq<Row>, today: int)
    ensures var r := ImportOrders(db, rows, today);
      && r.count <= |Filter(rows, IsOrderRow)|
      && (r.failure.None? ==> r.count == |Filter(rows, IsOrderRow)|)
    decreases |rows|
  {
    if rows != [] {
      var init := rows[..|rows| - 1];
      var last := rows[|rows| - 1];
      assert rows == init + [last];
      FilterAppend(init, [last], IsOrderRow);
      assert Filter([last], IsOrderRow) == if IsOrderRow(last) then [last] else [] by {
        assert [last][1..] == [];
      }
      ImportOrdersCount(db, init, today);
    }
  }

  lemma ImportCustomerRowKeepsValid(db: Db, row: Row, today: int)
    requires Valid(db)
    ensures var d := ImportCustomerRow(db, row, today);
      && Valid(d) && d.orders == db.orders
      && db.customers.Keys <= d.customers.Keys
      && (forall p :: p in db.customers ==> d.customers[p].id == db.customers[p].id)
  {
    var d := ImportCustomerRow(db, row, today);
    if IsCustomerRow(row) {
      var phone := row[PhoneHeader];
      var c := d.customers[phone];
      assert c.phone == phone;
      assert d == PutCustomer(db, c);
      PutCustomerKeepsValid(db, c);
    }
  }

  lemma {:induction false} ImportCustomersKeepsValid(db: Db, rows: seq<Row>, today: int)
    requires Valid(db)
    ensures Valid(ImportCustomers(db, rows, today).db)
    decreases |rows|
  {
    if rows != [] {
      ImportCustomersKeepsValid(db, rows[..|rows| - 1], today);
      ImportCustomerRowKeepsValid(ImportCustomers(db, rows[..|rows| - 1], today).db, rows[|rows| - 1], today);
    }
  }

  /** The customer import counts exactly the rows with a phone and a name. */
  lemma {:induction false} ImportCustomersCount(db: Db, rows: seq<Row>, today: int)
    ensures ImportCustomers(db, rows, today).count == |Filter(rows, IsCustomerRow)|
    decreases |rows|
  {
    if rows != [] {
      var init := rows[..|rows| - 1];
      var last := rows[|rows| - 1];
      assert rows == init + [last];
      FilterAppend(init, [last], IsCustomerRow);
      assert Filter([last], IsCustomerRow) == if IsCustomerRow(last) then [last] else [] by {
        assert [last][1..] == [];
      }
      ImportCustomersCount(db, init, today);
    }
  }
}
