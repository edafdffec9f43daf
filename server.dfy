/** The store as the server holds it: two tables and their autoincrement
    counters, changed in place by the route handlers and the import loops,
    each method proved to leave the state its handler function describes. */
module Server {
  import opened Wrappers
  import opened Coercion
  import opened Records
  import opened Handlers
  import opened Spreadsheet

  class Store {
    var customers: map<string, Customer>
    var orders: map<string, Order>
    var nextCustomerId: nat
    var nextOrderId: nat

    /** The tables as a value. */
    function State(): Db
      reads this
    {
      Db(customers, orders, nextCustomerId, nextOrderId)
    }

    /** The store invariant holds of the tables. */
    ghost predicate Valid()
      reads this
    {
      Records.Valid(State())
    }

    /** A fresh database: empty tables, ids starting at 1. */
    constructor()
      ensures State() == EmptyDb && Valid()
    {
      customers := map[];
      orders := map[];
      nextCustomerId := 1;
      nextOrderId := 1;
    }

    /** The key of the order with internal id `id`, searched key by key. */
    method FindOrderKey(id: nat) returns (k: Option<string>)
      ensures k.Some? <==> HasOrder(orders, id)
      ensures k.Some? ==> k.value in orders && orders[k.value].id == id
    {
      var todo := orders.Keys;
      while todo != {}
        invariant todo <= orders.Keys
        invariant forall l :: l in orders && l !in todo ==> orders[l].id != id
        decreases |todo|
      {
        var l :| l in todo;
        if orders[l].id == id {
          return Some(l);
        }
        todo := todo - {l};
      }
      return None;
    }

    /** The key of the customer with internal id `id`, searched key by key. */
    method FindCustomerKey(id: nat) returns (p: Option<string>)
      ensures p.Some? <==> HasCustomer(customers, id)
      ensures p.Some? ==> p.value in customers && customers[p.value].id == id
    {
      var todo := customers.Keys;
      while todo != {}
        invariant todo <= customers.Keys
        invariant forall q :: q in customers && q !in todo ==> customers[q].id != id
        decreases |todo|
      {
        var q :| q in todo;
        if customers[q].id == id {
          return Some(q);
        }
        todo := todo - {q};
      }
      return None;
    }

    /** The customer upsert of `POST /api/orders`. */
    method UpsertOrderCustomer(req: NewOrder, today: int) returns (r: Result<Customer, Failure>)
      modifies this
      ensures match Handlers.UpsertOrderCustomer(old(State()), req, today)
        case Err(f) => r == Err(f) && State() == old(State())
        case Ok((db1, c)) => r == Ok(c) && State() == db1
    {
      if req.phone.None? {
        return Err(MissingUniqueKey);
      }
      var phone := req.phone.value;
      if phone in customers {
        var existing := customers[phone];
        var c := existing.(name := req.name.GetOr(existing.name),
                           address := if Truthy(req.address) then req.address else existing.address);
        customers := customers[phone := c];
        return Ok(c);
      }
      if req.name.None? {
        return Err(MissingRequired("name"));
      }
      var c := Customer(nextCustomerId, req.name.value, phone, req.address, None, today);
      customers := customers[phone := c];
      nextCustomerId := nextCustomerId + 1;
      return Ok(c);
    }

    /** `POST /api/orders`: the customer upsert, then the order create, as
      two writes. */
    method CreateOrder(req: NewOrder, today: int, clock: nat) returns (result: Result<Order, Failure>)
      modifies this
      ensures Outcome(State(), result) == Handlers.CreateOrder(old(State()), req, today, clock)
      ensures old(Valid()) ==> Valid()
    {
      ghost var db := State();
      if Records.Valid(db) {
        CreateOrderKeepsValid(db, req, today, clock);
      }
      var upsert := UpsertOrderCustomer(req, today);
      if upsert.Err? {
        return Err(upsert.error);
      }
      var c := upsert.value;
      var row := NewOrderRow(req, nextOrderId, c.id, today, clock);
      if row.Err? {
        return Err(row.error);
      }
      var o := row.value;
      if o.orderId in orders {
        return Err(UniqueViolation("orderId"));
      }
      orders := orders[o.orderId := o];
      nextOrderId := nextOrderId + 1;
      return Ok(o);
    }

    /** `PUT /api/orders/:id`. */
    method UpdateOrder(id: nat, patch: OrderPatch<string>) returns (result: Result<Order, Failure>)
      requires Valid()
      modifies this
      ensures Outcome(State(), result) == Handlers.UpdateOrder(old(State()), id, patch)
      ensures Valid()
    {
      ghost var db := State();
      UpdateOrderKeepsValid(db, id, patch);
      var v := ValidateOrderPatch(patch);
      if v.Err? {
        return Err(v.error);
      }
      var found := FindOrderKey(id);
      if found.None? {
        return Err(RecordNotFound);
      }
      var k := found.value;
      assert k == OrderKey(db.orders, id);
      var o := ApplyOrderPatch(orders[k], v.value);
      if o.orderId != k && o.orderId in orders {
        return Err(UniqueViolation("orderId"));
      }
      if o.id != id && HasOrder(orders, o.id) {
        return Err(UniqueViolation("id"));
      }
      if !HasCustomer(customers, o.customerId) {
        return Err(ForeignKeyViolation);
      }
      orders := (orders - {k})[o.orderId := o];
      nextOrderId := CounterAfter(nextOrderId, o.id);
      return Ok(o);
    }

    /** `PUT /api/customers/:id`. */
    method UpdateCustomer(id: nat, patch: CustomerPatch) returns (result: Result<Customer, Failure>)
      requires Valid()
      modifies this
      ensures Outcome(State(), result) == Handlers.UpdateCustomer(old(State()), id, patch)
      ensures Valid()
    {
      ghost var db := State();
      UpdateCustomerKeepsValid(db, id, patch);
      if patch.name.Null? {
        return Err(MissingRequired("name"));
      }
      if patch.phone.Null? {
        return Err(MissingRequired("phone"));
      }
      var found := FindCustomerKey(id);
      if found.None? {
        return Err(RecordNotFound);
      }
      var p := found.value;
      assert p == CustomerKey(db.customers, id);
      var c := ApplyCustomerPatch(customers[p], patch);
      if c.phone != p && c.phone in customers {
        return Err(UniqueViolation("phone"));
      }
      customers := (customers - {p})[c.phone := c];
      return Ok(c);
    }

    /** The customer upsert of one order-import row. */
    method UpsertRowCustomer(row: Row, today: int) returns (c: Customer)
      requires Truthy(Cell(row, PhoneHeader))
      modifies this
      ensures (State(), c) == Spreadsheet.UpsertRowCustomer(old(State()), row, today)
    {
      var phone := row[PhoneHeader];
      var name := ToText(Cell(row, NameHeader));
      var address := Cell(row, AddressHeader);
      if phone in customers {
        var existing := customers[phone];
        c := existing.(name := name, address := if Truthy(address) then address else existing.address);
        customers := customers[phone := c];
      } else {
        c := Customer(nextCustomerId, name, phone, OrNull(address), None, today);
        customers := customers[phone := c];
        nextCustomerId := nextCustomerId + 1;
      }
    }

    /** One pass of the order import loop: skip the row, or upsert its
      customer and then its order, which may fail on a bad date. */
    method ImportOrderRow(row: Row, today: int) returns (written: bool, failure: Option<Failure>)
      modifies this
      ensures match Spreadsheet.ImportOrderRow(old(State()), row, today)
        case Skipped => !written && failure.None? && State() == old(State())
        case Written(d) => written && failure.None? && State() == d
        case Aborted(d, f) => !written && failure == Some(f) && State() == d
    {
      if !IsOrderRow(row) {
        return false, None;
      }
      var c := UpsertRowCustomer(row, today);
      var key := row[OrderIdHeader];
      var present := key in orders;
      var id := if present then orders[key].id else nextOrderId;
      var o := RowOrder(row, id, c.id);
      if o.Err? {
        return false, Some(o.error);
      }
      orders := orders[key := o.value];
      if !present {
        nextOrderId := nextOrderId + 1;
      }
      return true, None;
    }

    /** `POST /api/import/orders`: the loop over the sheet's rows, counting
      the rows written and stopping at the first error. */
    method ImportOrders(rows: seq<Row>, today: int) returns (count: nat, failure: Option<Failure>)
      modifies this
      ensures ImportRun(State(), count, failure) == Spreadsheet.ImportOrders(old(State()), rows, today)
      ensures old(Valid()) ==> Valid()
    {
      ghost var db := State();
      count := 0;
      failure := None;
      var i := 0;
      while i < |rows|
        invariant 0 <= i <= |rows|
        invariant failure.None?
        invariant Spreadsheet.ImportOrders(db, rows[..i], today) == ImportRun(State(), count, None)
      {
        ghost var prev := ImportRun(State(), count, None);
        assert rows[..i + 1][..i] == rows[..i];
        assert Spreadsheet.ImportOrders(db, rows[..i + 1], today) == ImportStep(prev, rows[i], today);
        ghost var step := Spreadsheet.ImportOrderRow(State(), rows[i], today);
        var written;
        written, failure := ImportOrderRow(rows[i], today);
        if failure.Some? {
          assert step.Aborted? && ImportStep(prev, rows[i], today) == ImportRun(State(), count, failure);
          EndedRunStays(db, rows, i + 1, today);
          if Records.Valid(db) {
            ImportOrdersKeepsValid(db, rows, today);
          }
          return;
        }
        if written {
          count := count + 1;
        }
        i := i + 1;
      }
      assert rows[..i] == rows;
      if Records.Valid(db) {
        ImportOrdersKeepsValid(db, rows, today);
      }
    }

    /** `POST /api/import/customers`: the loop over the sheet's rows,
      counting the rows written. */
    method ImportCustomers(rows: seq<Row>, today: int) returns (count: nat)
      modifies this
      ensures ImportRun(State(), count, None) == Spreadsheet.ImportCustomers(old(State()), rows, today)
      ensures old(Valid()) ==> Valid()
    {
      ghost var db := State();
      count := 0;
      var i := 0;
      while i < |rows|
        invariant 0 <= i <= |rows|
        invariant Spreadsheet.ImportCustomers(db, rows[..i], today) == ImportRun(State(), count, None)
      {
        var row := rows[i];
        assert rows[..i + 1][..i] == rows[..i];
        if IsCustomerRow(row) {
          var phone := row[PhoneHeader];
          var name := row[NameHeader];
          var address := Cell(row, AddressHeader);
          var symptoms := Cell(row, SymptomsHeader);
          if phone in customers {
            var existing := customers[phone];
            var c := existing.(name := name,
                               address := if Truthy(address) then address else existing.address,
                               symptoms := if Truthy(symptoms) then symptoms else existing.symptoms);
            customers := customers[phone := c];
          } else {
            var c := Customer(nextCustomerId, name, phone, OrNull(address), OrNull(symptoms), today);
            customers := customers[phone := c];
            nextCustomerId := nextCustomerId + 1;
          }
          count := count + 1;
        }
        i := i + 1;
      }
      assert rows[..i] == rows;
      if Records.Valid(db) {
        ImportCustomersKeepsValid(db, rows, today);
      }
    }
  }
}
