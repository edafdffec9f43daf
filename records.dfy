/** The two tables of the CRM store and the store invariant that the
    database's unique indexes, foreign key and autoincrement ids maintain. */
module Records {
  import opened Wrappers

  /** A customer row; `phone` is the unique business key. */
  datatype Customer = Customer(
    id: nat,
    name: string,
    phone: string,
    address: Option<string>,
    symptoms: Option<string>,
    createdAt: int)

  /** An order row; `orderId` is the unique business key and `customerId`
      refers to a customer's `id`. Dates are day numbers. */
  datatype Order = Order(
    id: nat,
    orderId: string,
    date: int,
    channel: Option<string>,
    productName: Option<string>,
    quantity: int,
    amount: int,
    shippingFee: int,
    logistics: Option<string>,
    arrivalDate: Option<int>,
    afterSalesNotes: Option<string>,
    remarks: Option<string>,
    customerId: nat)

  /** The store: customers keyed by phone, orders keyed by orderId, and the
      next value of each autoincrement id. */
  datatype Db = Db(
    customers: map<string, Customer>,
    orders: map<string, Order>,
    nextCustomerId: nat,
    nextOrderId: nat)

  /** The errors a handler can end with. All but PhoneRequired reach the
      client as status 500 with the store's message. */
  datatype Failure =
    | PhoneRequired
    | MissingUniqueKey
    | MissingRequired(field: string)
    | InvalidDate(field: string)
    | InvalidNumber(param: string)
    | NegativeSkip
    | RecordNotFound
    | UniqueViolation(field: string)
    | ForeignKeyViolation

  function Status(f: Failure): (code: int)
    ensures code == 400 || code == 500
    ensures code == 400 <==> f.PhoneRequired?
  {
    if f.PhoneRequired? then 400 else 500
  }

  /** Some customer has internal id `id`. */
  predicate HasCustomer(customers: map<string, Customer>, id: nat) {
    exists p :: p in customers && customers[p].id == id
  }

  /** The store invariant: keys agree with the key columns, internal ids are
      distinct and below the next autoincrement value, and every order
      refers to an existing customer. */
  ghost predicate Valid(db: Db) {
    && (forall p :: p in db.customers ==>
          db.customers[p].phone == p && db.customers[p].id < db.nextCustomerId)
    && (forall p, q :: p in db.customers && q in db.customers && p != q ==>
          db.customers[p].id != db.customers[q].id)
    && (forall k :: k in db.orders ==>
          && db.orders[k].orderId == k
          && db.orders[k].id < db.nextOrderId
          && HasCustomer(db.customers, db.orders[k].customerId))
    && (forall k, l :: k in db.orders && l in db.orders && k != l ==>
          db.orders[k].id != db.orders[l].id)
  }

  /** The autoincrement counter after a row is written with internal id
      `id`: an autoincrement column never hands out an id at or below one
      that a row of the table has held. */
  function CounterAfter(next: nat, id: nat): (r: nat)
    ensures id < r && next <= r
    ensures id < next ==> r == next
  {
    if id < next then next else id + 1
  }

  /** A fresh store; autoincrement ids start at 1. */
  const EmptyDb := Db(map[], map[], 1, 1)

  /** The store after writing customer `c` under its phone: an existing
      customer keeps its id, a new one takes the next id. */
  function PutCustomer(db: Db, c: Customer): Db {
    db.(customers := db.customers[c.phone := c],
        nextCustomerId := if c.phone in db.customers then db.nextCustomerId else db.nextCustomerId + 1)
  }

  /** Writing a customer with the id the store gives it keeps the store
      invariant and every stored customer's id. */
  lemma PutCustomerKeepsValid(db: Db, c: Customer)
    requires Valid(db)
    requires c.id == if c.phone in db.customers then db.customers[c.phone].id else db.nextCustomerId
    ensures var d := PutCustomer(db, c);
      && Valid(d) && d.orders == db.orders && d.nextOrderId == db.nextOrderId
      && d.customers.Keys == db.customers.Keys + {c.phone}
      && (forall p :: p in db.customers ==> d.customers[p].id == db.customers[p].id)
  {
    var d := PutCustomer(db, c);
    forall p | p in db.customers ensures d.customers[p].id == db.customers[p].id {
      if p != c.phone {
        assert d.customers[p] == db.customers[p];
      }
    }
    forall p, q | p in d.customers && q in d.customers && p != q
      ensures d.customers[p].id != d.customers[q].id
    {
      if p != c.phone && q != c.phone {
        assert d.customers[p] == db.customers[p] && d.customers[q] == db.customers[q];
      } else if p == c.phone {
        assert d.customers[q] == db.customers[q];
      } else {
        assert d.customers[p] == db.customers[p];
      }
    }
    forall k | k in d.orders ensures HasCustomer(d.customers, d.orders[k].customerId) {
      var p :| p in db.customers && db.customers[p].id == db.orders[k].customerId;
      assert d.customers[p].id == db.customers[p].id;
    }
  }

  /** The store after writing order `o` under its order id: an existing
      order keeps its id, a new one takes the next id. */
  function PutOrder(db: Db, o: Order): Db {
    db.(orders := db.orders[o.orderId := o],
        nextOrderId := if o.orderId in db.orders then db.nextOrderId else db.nextOrderId + 1)
  }

  /** Writing an order of an existing customer, with the id the store gives
      it, keeps the store invariant. */
  lemma PutOrderKeepsValid(db: Db, o: Order)
    requires Valid(db) && HasCustomer(db.customers, o.customerId)
    requires o.id == if o.orderId in db.orders then db.orders[o.orderId].id else db.nextOrderId
    ensures Valid(PutOrder(db, o))
  {
    var d := PutOrder(db, o);
    forall k, l | k in d.orders && l in d.orders && k != l
      ensures d.orders[k].id != d.orders[l].id
    {
      if k != o.orderId && l != o.orderId {
        assert d.orders[k] == db.orders[k] && d.orders[l] == db.orders[l];
      } else if k == o.orderId {
        assert d.orders[l] == db.orders[l];
      } else {
        assert d.orders[k] == db.orders[k];
      }
    }
  }
}
