/** The customer and order list routes (substring search, newest first,
    page/limit pagination with a total count) and the lookup by phone. */
module Listing {
  import opened Wrappers
  import opened Coercion
  import opened Records
  import opened Tables

  /** `sub` occurs in `s` starting at index `i`. */
  predicate OccursAt(s: string, sub: string, i: int) {
    0 <= i && i + |sub| <= |s| && s[i..i + |sub|] == sub
  }

  /** The store's `contains` filter: a case-sensitive substring test. */
  predicate Contains(s: string, sub: string) {
    exists i :: 0 <= i <= |s| - |sub| && OccursAt(s, sub, i)
  }

  /** Customer search: name or phone contains the text. An absent or
      empty search applies no filter. */
  predicate CustomerMatches(c: Customer, search: JsString) {
    !Truthy(search) || Contains(c.name, search.value) || Contains(c.phone, search.value)
  }

  /** Order search: order id, or the name or phone of the order's customer,
      contains the text. */
  predicate OrderMatches(customers: map<string, Customer>, o: Order, search: JsString) {
    || !Truthy(search)
    || Contains(o.orderId, search.value)
    || exists p :: p in customers && customers[p].id == o.customerId &&
         (Contains(customers[p].name, search.value) || Contains(customers[p].phone, search.value))
  }

  /** The query string of a list route. */
  datatype ListQuery = ListQuery(search: JsString, page: JsString, limit: JsString)

  datatype Pagination = Pagination(total: nat, page: int, limit: int, totalPages: Option<int>)

  /** A list response: one page of rows and its pagination block. */
  datatype Listing<T> = Listing(data: seq<T>, pagination: Pagination)

  const DefaultPage: int := 1
  const DefaultLimit: int := 20

  /** A numeric query parameter: its default when absent, an error when
      it is not a number (the store rejects a NaN skip or take). */
  function NumericParam(x: JsString, default: int, name: string): (r: Result<int, Failure>)
    ensures x.None? ==> r == Ok(default)
    ensures x.Some? ==> (r.Ok? <==> ToNumber(x.value).Some?)
    ensures x.Some? && r.Ok? ==> r.value == ToNumber(x.value).value
  {
    if x.None? then Ok(default)
    else match ToNumber(x.value)
      case Some(n) => Ok(n)
      case None => Err(InvalidNumber(name))
  }

  function Min(a: int, b: int): int { if a <= b then a else b }
  function Max(a: int, b: int): int { if a >= b then a else b }

  /** First index that `skip`/`take` select from `n` ordered rows. A
      negative take selects the last |take| rows before the skipped ones,
      counted from the end. */
  function WindowStart(n: nat, skip: nat, take: int): (lo: nat)
  {
    if take >= 0 then Min(skip, n) else Max(n - Min(skip, n) + take, 0)
  }

  /** One past the last index that `skip`/`take` select. */
  function WindowEnd(n: nat, skip: nat, take: int): (hi: nat)
    ensures WindowStart(n, skip, take) <= hi <= n
  {
    if take >= 0 then Min(skip + take, n) else n - Min(skip, n)
  }

  /** The rows a `findMany` returns for `skip` and `take`. */
  function Window<T>(rows: seq<T>, skip: nat, take: int): (w: seq<T>)
    ensures take >= 0 ==> |w| <= take
    ensures take < 0 ==> |w| <= -take
    ensures forall x :: x in w ==> x in rows
  {
    rows[WindowStart(|rows|, skip, take)..WindowEnd(|rows|, skip, take)]
  }

  lemma WindowSorted<T>(rows: seq<T>, skip: nat, take: int, key: T -> int)
    requires SortedBy(rows, key)
    ensures SortedBy(Window(rows, skip, take), key)
  {
    var lo := WindowStart(|rows|, skip, take);
    var w := Window(rows, skip, take);
    forall i, j | 0 <= i < j < |w| ensures key(w[i]) <= key(w[j]) {
      assert w[i] == rows[lo + i] && w[j] == rows[lo + j];
    }
  }

  /** `Math.ceil(total / limit)`; null when the division is by zero (JSON
      has no Infinity or NaN). */
  function TotalPages(total: nat, limit: int): (r: Option<int>)
    ensures r.None? <==> limit == 0
    ensures limit > 0 && total == 0 ==> r == Some(0)
    ensures limit > 0 && total > 0 ==> (r.value - 1) * limit < total <= r.value * limit
  {
    if limit == 0 then None
    else if limit > 0 then
      var q := (total + limit - 1) / limit;
      assert (total + limit - 1) == q * limit + (total + limit - 1) % limit;
      Some(q)
    else Some(-(total / -limit))
  }

  /** `skip = (page - 1) * limit`. */
  function Skip(page: int, limit: int): int {
    (page - 1) * limit
  }

  /** One page of the ordered matches and the pagination block; the store
      rejects a negative skip. */
  function Paginate<T>(rows: seq<T>, total: nat, page: int, limit: int): (r: Result<Listing<T>, Failure>)
    ensures r.Err? <==> Skip(page, limit) < 0
    ensures r.Ok? ==> r.value.pagination == Pagination(total, page, limit, TotalPages(total, limit))
    ensures r.Ok? && limit >= 0 ==> |r.value.data| <= limit
    ensures r.Ok? ==> forall x :: x in r.value.data ==> x in rows
  {
    var skip := Skip(page, limit);
    if skip < 0 then Err(NegativeSkip)
    else Ok(Listing(Window(rows, skip, limit), Pagination(total, page, limit, TotalPages(total, limit))))
  }

  /** With a positive limit, page p holds exactly the rows at positions
      (p-1)*limit up to p*limit. */
  lemma PageIsSlice<T>(rows: seq<T>, page: int, limit: int)
    requires limit > 0 && page >= 1
    ensures Paginate(rows, |rows|, page, limit).Ok?
    ensures Paginate(rows, |rows|, page, limit).value.data ==
      rows[Min((page - 1) * limit, |rows|)..Min(page * limit, |rows|)]
  {
    assert (page - 1) * limit >= 0 by { MulMonotone(0, page - 1, limit); }
    assert (page - 1) * limit + limit == page * limit;
  }

  /** Every row appears on the page its position says, at the offset its
      position says, and that page is within `totalPages`. */
  lemma {:induction false} EveryRowOnItsPage<T>(rows: seq<T>, limit: nat, i: nat)
    requires 0 < limit && i < |rows|
    ensures var r := Paginate(rows, |rows|, i / limit + 1, limit);
      && r.Ok?
      && i % limit < |r.value.data|
      && r.value.data[i % limit] == rows[i]
      && r.value.pagination.totalPages.Some?
      && i / limit + 1 <= r.value.pagination.totalPages.value
  {
    var q := i / limit;
    var page := q + 1;
    var skip := q * limit;
    assert Skip(page, limit) == skip;
    assert i == skip + i % limit;
    MulMonotone(0, q, limit);
    PageIsSlice(rows, page, limit);
    assert page * limit == skip + limit;
    var r := Paginate(rows, |rows|, page, limit);
    assert r.value.data == rows[skip..Min(skip + limit, |rows|)];
    var tp := r.value.pagination.totalPages.value;
    assert |rows| <= tp * limit;
    if tp < page {
      MulMonotone(tp, q, limit);
      assert false;
    }
  }

  lemma MulMonotone(a: int, b: int, c: nat)
    requires a <= b
    ensures a * c <= b * c
  {
    assert b * c - a * c == (b - a) * c;
  }

  /** All matches of a `findMany`, in `orderBy` order. */
  ghost function Matches<V(!new)>(m: map<string, V>, matches: V -> bool, key: V -> int): (rows: seq<V>)
    ensures SortedBy(rows, key)
    ensures forall x :: x in rows <==> x in m.Values && matches(x)
    ensures |rows| == CountWhere(m, matches)
  {
    var found := Filter(Scan(m), matches);
    var rows := SortBy(found, key);
    assert forall x :: x in rows <==> x in found by {
      forall x ensures x in rows <==> x in found {
        assert x in rows <==> x in multiset(rows);
        assert x in found <==> x in multiset(found);
      }
    }
    CountWhereIsFilteredScanLength(m, matches);
    assert |multiset(rows)| == |multiset(found)|;
    rows
  }

  /** The page and limit a query asks for. */
  function PageParams(q: ListQuery): (r: Result<(int, int), Failure>)
  {
    match NumericParam(q.page, DefaultPage, "page")
    case Err(f) => Err(f)
    case Ok(page) =>
      match NumericParam(q.limit, DefaultLimit, "limit")
      case Err(f) => Err(f)
      case Ok(limit) => Ok((page, limit))
  }

  /** The shared shape of both list routes: a `findMany` with `where`,
      `orderBy`, `skip` and `take`, and a `count` with the same `where`. */
  ghost function ListPage<V(!new)>(m: map<string, V>, matches: V -> bool, key: V -> int, q: ListQuery)
    : (r: Result<Listing<V>, Failure>)
    ensures r.Ok? ==> r.value.pagination.total == |Matches(m, matches, key)|
    ensures r.Ok? ==> forall x :: x in r.value.data ==> x in m.Values && matches(x)
    ensures r.Ok? ==> SortedBy(r.value.data, key)
    ensures r.Ok? && r.value.pagination.limit >= 0 ==> |r.value.data| <= r.value.pagination.limit
  {
    match PageParams(q)
    case Err(f) => Err(f)
    case Ok((page, limit)) =>
      var rows := Matches(m, matches, key);
      var r := Paginate(rows, CountWhere(m, matches), page, limit);
      if r.Ok? then
        WindowSorted(rows, Skip(page, limit), limit, key);
        r
      else r
  }

  /** The query strings of a list request for a given page and limit. */
  lemma ListPageOfNumbers<V(!new)>(m: map<string, V>, matches: V -> bool, key: V -> int,
                                   search: JsString, page: int, limit: int)
    ensures ListPage(m, matches, key, ListQuery(search, Some(IntToText(page)), Some(IntToText(limit))))
      == Paginate(Matches(m, matches, key), |Matches(m, matches, key)|, page, limit)
  {
    ToNumberOfIntToText(page);
    ToNumberOfIntToText(limit);
  }

  /** `GET /api/customers`: newest customers first. */
  ghost function ListCustomers(db: Db, q: ListQuery): (r: Result<Listing<Customer>, Failure>)
    ensures r.Ok? ==> forall c :: c in r.value.data ==> c in db.customers.Values && CustomerMatches(c, q.search)
    ensures r.Ok? ==> forall i, j :: 0 <= i < j < |r.value.data| ==>
      r.value.data[i].createdAt >= r.value.data[j].createdAt
  {
    var key := (c: Customer) => -c.createdAt;
    var r := ListPage(db.customers, (c: Customer) => CustomerMatches(c, q.search), key, q);
    assert r.Ok? ==> SortedBy(r.value.data, key);
    r
  }

  /** `GET /api/orders`: latest order date first. */
  ghost function ListOrders(db: Db, q: ListQuery): (r: Result<Listing<Order>, Failure>)
    ensures r.Ok? ==> forall o :: o in r.value.data ==> o in db.orders.Values && OrderMatches(db.customers, o, q.search)
    ensures r.Ok? ==> forall i, j :: 0 <= i < j < |r.value.data| ==> r.value.data[i].date >= r.value.data[j].date
  {
    var key := (o: Order) => -o.date;
    var r := ListPage(db.orders, (o: Order) => OrderMatches(db.customers, o, q.search), key, q);
    assert r.Ok? ==> SortedBy(r.value.data, key);
    r
  }

  /** `GET /api/customers/lookup`: an exact-key lookup; a missing or empty
      phone is a 400 error. */
  function LookupByPhone(db: Db, phone: JsString): (r: Result<Option<Customer>, Failure>)
    requires Valid(db)
    ensures r.Err? <==> !Truthy(phone)
    ensures r.Err? ==> r.error == PhoneRequired && Status(r.error) == 400
    ensures r.Ok? ==> (r.value.Some? <==> exists c :: c in db.customers.Values && c.phone == phone.value)
    ensures r.Ok? && r.value.Some? ==> r.value.value in db.customers.Values && r.value.value.phone == phone.value
  {
    if !Truthy(phone) then Err(PhoneRequired)
    else if phone.value in db.customers then Ok(Some(db.customers[phone.value]))
    else Ok(None)
  }
}
