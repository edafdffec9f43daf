/** The route handlers that write to the store, as functions from the store
    before the request to the store after it and the response:
    `POST /api/orders`, `PUT /api/orders/:id`, `PUT /api/customers/:id`. */
module Handlers {
  import opened Wrappers
  import opened Coercion
  import opened Records
  import opened AfterSales

  /** What a handler leaves in the store and sends back. */
  datatype Outcome<T> = Outcome(db: Db, result: Result<T, Failure>)

  // ---------------------------------------------------------------------
  // POST /api/orders

  /** The body of `POST /api/orders`; None is an absent (or null) field. */
  datatype NewOrder = NewOrder(
    orderId: JsString,
    date: JsString,
    name: JsString,
    phone: JsString,
    address: JsString,
    channel: JsString,
    productName: JsString,
    quantity: JsString,
    amount: JsString,
    shippingFee: JsString,
    logistics: JsString,
    arrivalDate: JsString,
    afterSalesNotes: JsString,
    remarks: JsString)

  /** `AUTO-${Date.now()}`, with the clock reading passed in. */
  function AutoOrderId(clock: nat): (id: string)
    ensures |id| > 5 && id[..5] == "AUTO-"
    ensures AllDigits(id[5..]) && DigitsValue(id[5..]) == clock
  {
    DigitsValueOfNatToText(clock);
    assert ("AUTO-" + NatToText(clock))[5..] == NatToText(clock);
    "AUTO-" + NatToText(clock)
  }

  /** Distinct clock readings give distinct automatic order ids. */
  lemma AutoOrderIdInjective(a: nat, b: nat)
    ensures AutoOrderId(a) == AutoOrderId(b) ==> a == b
  {
  }

  /** `x ? new Date(x) : null`: falsy is null, a truthy value must be a date. */
  function DateOrNull(x: JsString): (r: Result<Option<int>, Failure>)
    ensures !Truthy(x) ==> r == Ok(None)
    ensures Truthy(x) ==> (r.Ok? <==> ParseDay(x).Some?)
    ensures r.Ok? && r.value.Some? ==> ParseDay(x) == r.value
  {
    if !Truthy(x) then Ok(None)
    else match ParseDay(x)
      case Some(day) => Ok(Some(day))
      case None => Err(InvalidDate("arrivalDate"))
  }

  /** The customer upsert of `POST /api/orders`: an existing customer takes
      the submitted name and, when one is given, the submitted address; a
      new one is created with both as submitted. */
  function UpsertOrderCustomer(db: Db, req: NewOrder, today: int): (r: Result<(Db, Customer), Failure>)
  {
    if req.phone.None? then Err(MissingUniqueKey)
    else
      var phone := req.phone.value;
      if phone in db.customers then
        var existing := db.customers[phone];
        var c := existing.(name := req.name.GetOr(existing.name),
                           address := if Truthy(req.address) then req.address else existing.address);
        Ok((db.(customers := db.customers[phone := c]), c))
      else if req.name.None? then Err(MissingRequired("name"))
      else
        var c := Customer(db.nextCustomerId, req.name.value, phone, req.address, None, today);
        Ok((db.(customers := db.customers[phone := c], nextCustomerId := db.nextCustomerId + 1), c))
  }

  /** The data object of the order create, with its defaults. */
  function NewOrderRow(req: NewOrder, id: nat, customerId: nat, today: int, clock: nat): (r: Result<Order, Failure>)
  {
    var date := if Truthy(req.date) then ParseDay(req.date) else Some(today);
    if date.None? then Err(InvalidDate("date"))
    else match DateOrNull(req.arrivalDate)
      case Err(f) => Err(f)
      case Ok(arrival) =>
        Ok(Order(
          id,
          if Truthy(req.orderId) then req.orderId.value else AutoOrderId(clock),
          date.value,
          OrNull(req.channel),
          OrNull(req.productName),
          NumberOr(req.quantity, 1),
          NumberOr(req.amount, 0),
          NumberOr(req.shippingFee, 0),
          OrNull(req.logistics),
          arrival,
          OrNull(req.afterSalesNotes),
          OrNull(req.remarks),
          customerId))
  }

  /** `POST /api/orders`: upsert the customer, then create the order. The
      two writes are separate, so a failed create keeps the upsert. */
  function CreateOrder(db: Db, req: NewOrder, today: int, clock: nat): (out: Outcome<Order>)
  {
    match UpsertOrderCustomer(db, req, today)
    case Err(f) => Outcome(db, Err(f))
    case Ok((db1, c)) =>
      match NewOrderRow(req, db1.nextOrderId, c.id, today, clock)
      case Err(f) => Outcome(db1, Err(f))
      case Ok(o) =>
        if o.orderId in db1.orders then Outcome(db1, Err(UniqueViolation("orderId")))
        else Outcome(db1.(orders := db1.orders[o.orderId := o], nextOrderId := db1.nextOrderId + 1), Ok(o))
  }

  /** The upsert leaves exactly one customer with the submitted phone: an
      existing one keeps its id, takes the new name, and changes its
      address only when a non-empty one is submitted. The new order belongs
      to that customer. */
  lemma CreateOrderUpsertsByPhone(db: Db, req: NewOrder, today: int, clock: nat)
    requires Valid(db)
    requires CreateOrder(db, req, today, clock).result.Ok?
    ensures var out := CreateOrder(db, req, today, clock);
      var phone := req.phone.value;
      var c := out.db.customers[phone];
      && req.phone.Some? && phone in out.db.customers
      && (forall p :: p in out.db.customers && out.db.customers[p].phone == phone ==> p == phone)
      && out.result.value.customerId == c.id
      && (req.name.Some? ==> c.name == req.name.value)
      && (phone in db.customers ==>
            && c.id == db.customers[phone].id
            && c.address == (if Truthy(req.address) then req.address else db.customers[phone].address))
      && (phone in db.customers ==>
            c.symptoms == db.customers[phone].symptoms && c.createdAt == db.customers[phone].createdAt)
      && (phone !in db.customers ==>
            && c.id == db.nextCustomerId && c.address == req.address
            && c.symptoms == None && c.createdAt == today)
      && (forall p :: p in db.customers && p != phone ==> p in out.db.customers && out.db.customers[p] == db.customers[p])
      && out.result.value.id == db.nextOrderId
      && out.db.orders == db.orders[out.result.value.orderId := out.result.value]
  {
    CreateOrderKeepsValid(db, req, today, clock);
  }

  /** The columns of a new order: a submitted truthy text or date is
      stored as submitted, a numeric non-zero number as its value; the
      defaults are quantity 1 for a missing, zero or non-numeric quantity,
      0 for amount and shipping fee, null for empty optional text, today
      for a missing date, and an automatic id when none is given. */
  lemma CreateOrderDefaults(db: Db, req: NewOrder, today: int, clock: nat)
    requires CreateOrder(db, req, today, clock).result.Ok?
    ensures var o := CreateOrder(db, req, today, clock).result.value;
      && o.quantity != 0
      && ((req.quantity.None? || ToNumber(req.quantity.value).None? || ToNumber(req.quantity.value) == Some(0)) ==>
            o.quantity == 1)
      && (req.quantity.Some? && ToNumber(req.quantity.value).Some? && ToNumber(req.quantity.value) != Some(0) ==>
            Some(o.quantity) == ToNumber(req.quantity.value))
      && (!Truthy(req.amount) ==> o.amount == 0)
      && (!Truthy(req.shippingFee) ==> o.shippingFee == 0)
      && ((req.amount.None? || ToNumber(req.amount.value).None? || ToNumber(req.amount.value) == Some(0)) ==>
            o.amount == 0)
      && (req.amount.Some? && ToNumber(req.amount.value).Some? && ToNumber(req.amount.value) != Some(0) ==>
            Some(o.amount) == ToNumber(req.amount.value))
      && ((req.shippingFee.None? || ToNumber(req.shippingFee.value).None? || ToNumber(req.shippingFee.value) == Some(0)) ==>
            o.shippingFee == 0)
      && (req.shippingFee.Some? && ToNumber(req.shippingFee.value).Some? && ToNumber(req.shippingFee.value) != Some(0) ==>
            Some(o.shippingFee) == ToNumber(req.shippingFee.value))
      && (Truthy(req.channel) ==> o.channel == req.channel)
      && (Truthy(req.productName) ==> o.productName == req.productName)
      && (Truthy(req.logistics) ==> o.logistics == req.logistics)
      && (Truthy(req.afterSalesNotes) ==> o.afterSalesNotes == req.afterSalesNotes)
      && (Truthy(req.remarks) ==> o.remarks == req.remarks)
      && (Truthy(req.date) ==> Some(o.date) == ParseDay(req.date))
      && (Truthy(req.arrivalDate) ==> o.arrivalDate == ParseDay(req.arrivalDate))
      && (o.channel == None <==> !Truthy(req.channel))
      && (o.productName == None <==> !Truthy(req.productName))
      && (o.logistics == None <==> !Truthy(req.logistics))
      && (o.remarks == None <==> !Truthy(req.remarks))
      && (o.afterSalesNotes == None <==> !Truthy(req.afterSalesNotes))
      && (o.arrivalDate == None <==> !Truthy(req.arrivalDate))
      && (!Truthy(req.date) ==> o.date == today)
      && (Truthy(req.orderId) ==> o.orderId == req.orderId.value)
      && (!Truthy(req.orderId) ==> o.orderId == AutoOrderId(clock))
  {
  }

  /** A create that fails after the upsert (a duplicate order id, an
      invalid date) leaves the upserted customer in the store and adds no
      order. */
  lemma FailedCreateKeepsUpsert(db: Db, req: NewOrder, today: int, clock: nat)
    requires UpsertOrderCustomer(db, req, today).Ok?
    requires CreateOrder(db, req, today, clock).result.Err?
    ensures var out := CreateOrder(db, req, today, clock);
      && out.db == UpsertOrderCustomer(db, req, today).value.0
      && out.db.orders == db.orders
      && req.phone.value in out.db.customers
  {
  }

  /** A duplicate order id is refused, even with an otherwise valid body. */
  lemma DuplicateOrderIdRefused(db: Db, req: NewOrder, today: int, clock: nat)
    requires Truthy(req.orderId) && req.orderId.value in db.orders
    ensures CreateOrder(db, req, today, clock).result.Err?
    ensures CreateOrder(db, req, today, clock).db.orders == db.orders
  {
  }

  lemma CreateOrderKeepsValid(db: Db, req: NewOrder, today: int, clock: nat)
    requires Valid(db)
    ensures Valid(CreateOrder(db, req, today, clock).db)
  {
    match UpsertOrderCustomer(db, req, today)
    case Err(_) =>
    case Ok((db1, c)) =>
      UpsertKeepsValid(db, req, today);
      assert Valid(db1);
      match NewOrderRow(req, db1.nextOrderId, c.id, today, clock)
      case Err(_) =>
      case Ok(o) =>
        if o.orderId !in db1.orders {
          assert o.id == db1.nextOrderId && o.customerId == c.id;
          assert HasCustomer(db1.customers, o.customerId) by {
            assert db1.customers[req.phone.value] == c;
          }
          PutOrderKeepsValid(db1, o);
        }
  }

  lemma UpsertKeepsValid(db: Db, req: NewOrder, today: int)
    requires Valid(db)
    requires UpsertOrderCustomer(db, req, today).Ok?
    ensures var (db1, c) := UpsertOrderCustomer(db, req, today).value;
      && Valid(db1) && db1.orders == db.orders && db1.customers[req.phone.value] == c
      && db1.customers.Keys == db.customers.Keys + {req.phone.value}
      && (forall p :: p in db.customers ==> db1.customers[p].id == db.customers[p].id)
      && (forall p :: p in db.customers && p != req.phone.value ==> db1.customers[p] == db.customers[p])
      && (req.phone.value !in db.customers ==>
            && c.id == db.nextCustomerId && db1.nextCustomerId == db.nextCustomerId + 1
            && c.symptoms == None && c.createdAt == today)
      && (req.phone.value in db.customers ==> db1.nextCustomerId == db.nextCustomerId)
  {
    var (db1, c) := UpsertOrderCustomer(db, req, today).value;
    assert c.phone == req.phone.value;
    assert db1 == PutCustomer(db, c);
    PutCustomerKeepsValid(db, c);
  }

  // ---------------------------------------------------------------------
  // PUT /api/orders/:id and PUT /api/customers/:id

  /** One field of a JSON body: absent, null, or a value. */
  datatype Field<T> = Omitted | Null | Value(value: T)

  /** The new value of a non-null column (a null was refused earlier). */
  function Keep<T>(f: Field<T>, current: T): T {
    if f.Value? then f.value else current
  }

  /** The new value of a nullable column. */
  function KeepNullable<T>(f: Field<T>, current: Option<T>): Option<T> {
    match f
    case Omitted => current
    case Null => None
    case Value(v) => Some(v)
  }

  /** The order columns a PUT body may set; dates are as the body carries
      them (`D` is string) or after conversion (`D` is the day number). */
  datatype OrderPatch<D> = OrderPatch(
    id: Field<nat>,
    orderId: Field<string>,
    date: Field<D>,
    channel: Field<string>,
    productName: Field<string>,
    quantity: Field<int>,
    amount: Field<int>,
    shippingFee: Field<int>,
    logistics: Field<string>,
    arrivalDate: Field<D>,
    afterSalesNotes: Field<string>,
    remarks: Field<string>,
    customerId: Field<nat>)

  /** `if (data.x) data.x = new Date(data.x)`, then the store's check of the
      value: a truthy string must be a valid date; "" is left as is and
      refused; null passes through. */
  function ConvertDate(f: Field<string>, name: string): (r: Result<Field<int>, Failure>)
    ensures f.Omitted? ==> r == Ok(Omitted)
    ensures f.Null? ==> r == Ok(Null)
    ensures r.Ok? && r.value.Value? ==> f.Value? && ParseDay(Some(f.value)) == Some(r.value.value)
  {
    match f
    case Omitted => Ok(Omitted)
    case Null => Ok(Null)
    case Value(s) =>
      match ParseDay(Some(s))
      case Some(day) => Ok(Value(day))
      case None => Err(InvalidDate(name))
  }

  /** The store's validation of an update body: dates converted, and no
      null for a column that cannot be null. */
  function ValidateOrderPatch(p: OrderPatch<string>): (r: Result<OrderPatch<int>, Failure>)
    ensures r.Ok? ==>
      && !r.value.id.Null? && !r.value.orderId.Null? && !r.value.date.Null? && !r.value.quantity.Null?
      && !r.value.amount.Null? && !r.value.shippingFee.Null? && !r.value.customerId.Null?
  {
    match ConvertDate(p.date, "date")
    case Err(f) => Err(f)
    case Ok(date) =>
      match ConvertDate(p.arrivalDate, "arrivalDate")
      case Err(f) => Err(f)
      case Ok(arrival) =>
        if p.id.Null? then Err(MissingRequired("id"))
        else if p.orderId.Null? then Err(MissingRequired("orderId"))
        else if date.Null? then Err(MissingRequired("date"))
        else if p.quantity.Null? then Err(MissingRequired("quantity"))
        else if p.amount.Null? then Err(MissingRequired("amount"))
        else if p.shippingFee.Null? then Err(MissingRequired("shippingFee"))
        else if p.customerId.Null? then Err(MissingRequired("customerId"))
        else Ok(OrderPatch(p.id, p.orderId, date, p.channel, p.productName, p.quantity, p.amount,
          p.shippingFee, p.logistics, arrival, p.afterSalesNotes, p.remarks, p.customerId))
  }

  /** The order with the submitted columns written and the others kept. */
  function ApplyOrderPatch(o: Order, p: OrderPatch<int>): Order {
    o.(id := Keep(p.id, o.id),
       orderId := Keep(p.orderId, o.orderId),
       date := Keep(p.date, o.date),
       channel := KeepNullable(p.channel, o.channel),
       productName := KeepNullable(p.productName, o.productName),
       quantity := Keep(p.quantity, o.quantity),
       amount := Keep(p.amount, o.amount),
       shippingFee := Keep(p.shippingFee, o.shippingFee),
       logistics := KeepNullable(p.logistics, o.logistics),
       arrivalDate := KeepNullable(p.arrivalDate, o.arrivalDate),
       afterSalesNotes := KeepNullable(p.afterSalesNotes, o.afterSalesNotes),
       remarks := KeepNullable(p.remarks, o.remarks),
       customerId := Keep(p.customerId, o.customerId))
  }

  /** Some order has internal id `id`. */
  predicate HasOrder(orders: map<string, Order>, id: nat) {
    exists k :: k in orders && orders[k].id == id
  }

  /** The key of the order with internal id `id`. */
  ghost function OrderKey(orders: map<string, Order>, id: nat): (k: string)
    requires HasOrder(orders, id)
    ensures k in orders && orders[k].id == id
  {
    var k :| k in orders && orders[k].id == id; k
  }

  /** In a valid store the internal id picks out one order: the key found
      is the only key holding that id. */
  lemma OrderKeyUnique(db: Db, id: nat, k: string)
    requires Valid(db) && k in db.orders && db.orders[k].id == id
    ensures HasOrder(db.orders, id) && OrderKey(db.orders, id) == k
  {
  }

  /** `PUT /api/orders/:id`: validate, find the order by id, write the
      submitted columns, and enforce the unique order id, the unique
      internal id and the customer foreign key. Any failure leaves the store
      as it was. */
  ghost function UpdateOrder(db: Db, id: nat, patch: OrderPatch<string>): (out: Outcome<Order>)
    ensures out.result.Err? ==> out.db == db
  {
    match ValidateOrderPatch(patch)
    case Err(f) => Outcome(db, Err(f))
    case Ok(p) =>
      if !HasOrder(db.orders, id) then Outcome(db, Err(RecordNotFound))
      else
        var k := OrderKey(db.orders, id);
        var o := ApplyOrderPatch(db.orders[k], p);
        if o.orderId != k && o.orderId in db.orders then Outcome(db, Err(UniqueViolation("orderId")))
        else if o.id != id && HasOrder(db.orders, o.id) then Outcome(db, Err(UniqueViolation("id")))
        else if !HasCustomer(db.customers, o.customerId) then Outcome(db, Err(ForeignKeyViolation))
        else Outcome(db.(orders := (db.orders - {k})[o.orderId := o],
                         nextOrderId := CounterAfter(db.nextOrderId, o.id)), Ok(o))
  }

  /** An order update writes only the submitted columns of that one order
      and never touches customers or other orders. Its internal id is kept,
      or is the submitted one, which no other order holds; only an explicit
      id at or past the counter moves the counter. */
  lemma UpdateOrderWritesOnlySubmitted(db: Db, id: nat, patch: OrderPatch<string>)
    requires Valid(db)
    requires UpdateOrder(db, id, patch).result.Ok?
    ensures var out := UpdateOrder(db, id, patch);
      var k := OrderKey(db.orders, id);
      var after := out.result.value;
      && out.db.customers == db.customers
      && out.db.nextCustomerId == db.nextCustomerId
      && (patch.id.Omitted? ==> after.id == id && out.db.nextOrderId == db.nextOrderId)
      && (patch.id.Value? ==> after.id == patch.id.value)
      && after.id < out.db.nextOrderId && db.nextOrderId <= out.db.nextOrderId
      && after.orderId in out.db.orders && out.db.orders[after.orderId] == after
      && (forall l :: l in out.db.orders && l != after.orderId ==> out.db.orders[l].id != after.id)
      && (forall l :: l in db.orders && l != k ==> l in out.db.orders && out.db.orders[l] == db.orders[l])
      && out.db.orders.Keys == db.orders.Keys - {k} + {after.orderId}
  {
    var k := OrderKey(db.orders, id);
    var out := UpdateOrder(db, id, patch);
    var after := out.result.value;
    forall l | l in db.orders && l != k ensures l in out.db.orders && out.db.orders[l] == db.orders[l] {
      assert db.orders[l].orderId == l;
      assert l != after.orderId;
    }
    forall l | l in out.db.orders && l != after.orderId ensures out.db.orders[l].id != after.id {
      assert l in db.orders && l != k && out.db.orders[l] == db.orders[l];
      if after.id == id {
        assert db.orders[k].id == id;
      } else {
        assert !HasOrder(db.orders, after.id);
      }
    }
  }

  /** The updated order has every column the body omits as it was, the
      submitted value of every column the body sets, and null in every
      nullable column the body sets to null. */
  lemma UpdateOrderKeepsOmitted(db: Db, id: nat, patch: OrderPatch<string>)
    requires UpdateOrder(db, id, patch).result.Ok?
    ensures var before := db.orders[OrderKey(db.orders, id)];
      var after := UpdateOrder(db, id, patch).result.value;
      && (patch.id.Omitted? ==> after.id == before.id)
      && (patch.orderId.Omitted? ==> after.orderId == before.orderId)
      && (patch.date.Omitted? ==> after.date == before.date)
      && (patch.channel.Omitted? ==> after.channel == before.channel)
      && (patch.productName.Omitted? ==> after.productName == before.productName)
      && (patch.quantity.Omitted? ==> after.quantity == before.quantity)
      && (patch.amount.Omitted? ==> after.amount == before.amount)
      && (patch.shippingFee.Omitted? ==> after.shippingFee == before.shippingFee)
      && (patch.logistics.Omitted? ==> after.logistics == before.logistics)
      && (patch.arrivalDate.Omitted? ==> after.arrivalDate == before.arrivalDate)
      && (patch.afterSalesNotes.Omitted? ==> after.afterSalesNotes == before.afterSalesNotes)
      && (patch.remarks.Omitted? ==> after.remarks == before.remarks)
      && (patch.customerId.Omitted? ==> after.customerId == before.customerId)
      && (patch.orderId.Value? ==> after.orderId == patch.orderId.value)
      && (patch.channel.Value? ==> after.channel == Some(patch.channel.value))
      && (patch.channel.Null? ==> after.channel == None)
      && (patch.quantity.Value? ==> after.quantity == patch.quantity.value)
      && (patch.amount.Value? ==> after.amount == patch.amount.value)
      && (patch.customerId.Value? ==> after.customerId == patch.customerId.value)
      && (patch.afterSalesNotes.Value? ==> after.afterSalesNotes == Some(patch.afterSalesNotes.value))
      && (patch.afterSalesNotes.Null? ==> after.afterSalesNotes == None)
      && (patch.arrivalDate.Null? ==> after.arrivalDate == None)
      && (patch.id.Value? ==> after.id == patch.id.value)
      && (patch.date.Value? ==> Some(after.date) == ParseDay(Some(patch.date.value)))
      && (patch.arrivalDate.Value? ==> after.arrivalDate == ParseDay(Some(patch.arrivalDate.value)))
      && (patch.productName.Value? ==> after.productName == Some(patch.productName.value))
      && (patch.productName.Null? ==> after.productName == None)
      && (patch.shippingFee.Value? ==> after.shippingFee == patch.shippingFee.value)
      && (patch.logistics.Value? ==> after.logistics == Some(patch.logistics.value))
      && (patch.logistics.Null? ==> after.logistics == None)
      && (patch.remarks.Value? ==> after.remarks == Some(patch.remarks.value))
      && (patch.remarks.Null? ==> after.remarks == None)
  {
  }

  /** Recording a non-empty after-sales note takes the order off the
      pending list for every `now`. */
  lemma NoteEndsPending(db: Db, id: nat, patch: OrderPatch<string>, now: int)
    requires UpdateOrder(db, id, patch).result.Ok?
    requires patch.afterSalesNotes.Value? && patch.afterSalesNotes.value != ""
    ensures var out := UpdateOrder(db, id, patch);
      && !IsPending(out.result.value, now)
      && out.result.value.orderId in out.db.orders
      && !IsPending(out.db.orders[out.result.value.orderId], now)
  {
  }

  lemma UpdateOrderKeepsValid(db: Db, id: nat, patch: OrderPatch<string>)
    requires Valid(db)
    ensures Valid(UpdateOrder(db, id, patch).db)
  {
    var out := UpdateOrder(db, id, patch);
    if out.result.Ok? {
      var k := OrderKey(db.orders, id);
      var o := out.result.value;
      var orders := out.db.orders;
      UpdateOrderWritesOnlySubmitted(db, id, patch);
      forall a, b | a in orders && b in orders && a != b ensures orders[a].id != orders[b].id {
        if a == o.orderId {
          assert b in db.orders && b != k && orders[b] == db.orders[b];
        } else if b == o.orderId {
          assert a in db.orders && a != k && orders[a] == db.orders[a];
        } else {
          assert a in db.orders && b in db.orders;
        }
      }
    }
  }

  /** The customer columns `PUT /api/customers/:id` reads from its body. */
  datatype CustomerPatch = CustomerPatch(
    name: Field<string>,
    phone: Field<string>,
    address: Field<string>,
    symptoms: Field<string>)

  /** The key of the customer with internal id `id`. */
  ghost function CustomerKey(customers: map<string, Customer>, id: nat): (p: string)
    requires HasCustomer(customers, id)
    ensures p in customers && customers[p].id == id
  {
    var p :| p in customers && customers[p].id == id; p
  }

  /** In a valid store the internal id picks out one customer: the key
      found is the only key holding that id. */
  lemma CustomerKeyUnique(db: Db, id: nat, p: string)
    requires Valid(db) && p in db.customers && db.customers[p].id == id
    ensures HasCustomer(db.customers, id) && CustomerKey(db.customers, id) == p
  {
  }

  /** The customer with the submitted columns written and the others kept. */
  function ApplyCustomerPatch(c: Customer, p: CustomerPatch): Customer {
    c.(name := Keep(p.name, c.name),
       phone := Keep(p.phone, c.phone),
       address := KeepNullable(p.address, c.address),
       symptoms := KeepNullable(p.symptoms, c.symptoms))
  }

  /** `PUT /api/customers/:id`: a null name or phone is refused, a phone
      that another customer already has is refused, and otherwise the
      submitted columns are written. */
  ghost function UpdateCustomer(db: Db, id: nat, patch: CustomerPatch): (out: Outcome<Customer>)
    ensures out.result.Err? ==> out.db == db
  {
    if patch.name.Null? then Outcome(db, Err(MissingRequired("name")))
    else if patch.phone.Null? then Outcome(db, Err(MissingRequired("phone")))
    else if !HasCustomer(db.customers, id) then Outcome(db, Err(RecordNotFound))
    else
      var p := CustomerKey(db.customers, id);
      var c := ApplyCustomerPatch(db.customers[p], patch);
      if c.phone != p && c.phone in db.customers then Outcome(db, Err(UniqueViolation("phone")))
      else Outcome(db.(customers := (db.customers - {p})[c.phone := c]), Ok(c))
  }

  /** A customer update writes the submitted columns of that customer, a
      null clearing a nullable one, and only those: its id, its omitted
      columns, the orders and every other customer stay as they were. */
  lemma UpdateCustomerWritesOnlySubmitted(db: Db, id: nat, patch: CustomerPatch)
    requires Valid(db)
    requires UpdateCustomer(db, id, patch).result.Ok?
    ensures var out := UpdateCustomer(db, id, patch);
      var p := CustomerKey(db.customers, id);
      var before := db.customers[p];
      var after := out.result.value;
      && out.db.orders == db.orders
      && after.id == before.id && after.createdAt == before.createdAt
      && after.phone in out.db.customers && out.db.customers[after.phone] == after
      && (forall q :: q in db.customers && q != p ==> q in out.db.customers && out.db.customers[q] == db.customers[q])
      && (patch.name.Omitted? ==> after.name == before.name)
      && (patch.phone.Omitted? ==> after.phone == before.phone)
      && (patch.address.Omitted? ==> after.address == before.address)
      && (patch.symptoms.Omitted? ==> after.symptoms == before.symptoms)
      && (patch.name.Value? ==> after.name == patch.name.value)
      && (patch.phone.Value? ==> after.phone == patch.phone.value)
      && (patch.address.Value? ==> after.address == Some(patch.address.value))
      && (patch.address.Null? ==> after.address == None)
      && (patch.symptoms.Value? ==> after.symptoms == Some(patch.symptoms.value))
      && (patch.symptoms.Null? ==> after.symptoms == None)
  {
    var p := CustomerKey(db.customers, id);
    var out := UpdateCustomer(db, id, patch);
    var after := out.result.value;
    forall q | q in db.customers && q != p ensures q in out.db.customers && out.db.customers[q] == db.customers[q] {
      assert db.customers[q].phone == q;
      assert q != after.phone;
    }
  }

  lemma UpdateCustomerKeepsValid(db: Db, id: nat, patch: CustomerPatch)
    requires Valid(db)
    ensures Valid(UpdateCustomer(db, id, patch).db)
  {
    var out := UpdateCustomer(db, id, patch);
    if out.result.Ok? {
      var p := CustomerKey(db.customers, id);
      var c := out.result.value;
      var cs := out.db.customers;
      UpdateCustomerWritesOnlySubmitted(db, id, patch);
      forall a, b | a in cs && b in cs && a != b ensures cs[a].id != cs[b].id {
        if a == c.phone {
          assert b in db.customers && b != p;
        } else if b == c.phone {
          assert a in db.customers && a != p;
        } else {
          assert a in db.customers && b in db.customers;
        }
      }
      forall k | k in out.db.orders ensures HasCustomer(cs, out.db.orders[k].customerId) {
        var q :| q in db.customers && db.customers[q].id == db.orders[k].customerId;
        if q == p {
          assert cs[c.phone].id == db.orders[k].customerId;
        } else {
          assert cs[q] == db.customers[q];
        }
      }
    }
  }
}
