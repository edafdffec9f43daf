/** The after-sales follow-up rule: an order is due for a follow-up contact
    once it arrived at least five days ago and no after-sales note has been
    recorded. The dashboard counts these orders and a dedicated list shows
    them, oldest arrival first. */
module AfterSales {
  import opened Wrappers
  import opened Records
  import opened Tables

  /** Days between arrival and the follow-up contact. */
  const FollowUpDays: int := 5

  /** `getAfterSalesDueDate`: no date while the goods are in transit. */
  function DueDate(arrival: Option<int>): (due: Option<int>)
  {
    match arrival
    case None => None
    case Some(day) => Some(day + FollowUpDays)
  }

  /** No note recorded yet: the note is null or empty. */
  predicate NotContacted(o: Order) {
    o.afterSalesNotes.None? || o.afterSalesNotes.value == ""
  }

  /** The `where` filter shared by the dashboard count and the pending list:
      arrival set, arrival on or before five days ago, no note. */
  predicate IsPending(o: Order, now: int) {
    && o.arrivalDate.Some?
    && o.arrivalDate.value <= now - FollowUpDays
    && NotContacted(o)
  }

  /** The filter is the due-date rule: pending exactly when a due date
      exists, it has been reached, and nobody has been contacted. */
  lemma PendingIffDue(o: Order, now: int)
    ensures IsPending(o, now) <==>
      (DueDate(o.arrivalDate).Some? && DueDate(o.arrivalDate).value <= now && NotContacted(o))
    ensures o.arrivalDate.None? <==> DueDate(o.arrivalDate).None?
    ensures o.arrivalDate.Some? ==> DueDate(o.arrivalDate).value - o.arrivalDate.value == FollowUpDays
  {
  }

  /** The window boundaries: arrival exactly five days ago is due, four days
      ago is not, and a recorded note or a missing arrival never is. */
  lemma PendingBoundaries(o: Order, now: int)
    ensures IsPending(o.(arrivalDate := Some(now - 5), afterSalesNotes := Some("")), now)
    ensures IsPending(o.(arrivalDate := Some(now - 5), afterSalesNotes := None), now)
    ensures !IsPending(o.(arrivalDate := Some(now - 4)), now)
    ensures !IsPending(o.(arrivalDate := None), now)
    ensures forall n :: n != "" ==> !IsPending(o.(afterSalesNotes := Some(n)), now)
  {
  }

  /** The dashboard's figures. */
  datatype DashboardStats = DashboardStats(
    totalCustomers: nat,
    totalOrders: nat,
    pendingAfterSalesCount: nat)

  /** `GET /api/dashboard` (without the sales sum). */
  function Dashboard(db: Db, now: int): (r: DashboardStats)
    ensures r.totalCustomers == |db.customers| && r.totalOrders == |db.orders|
    ensures r.pendingAfterSalesCount <= r.totalOrders
  {
    var p := (o: Order) => IsPending(o, now);
    CountWhereAtMostSize(db.orders, p);
    DashboardStats(|db.customers|, |db.orders|, CountWhere(db.orders, p))
  }

  /** Sort key of the pending list: the arrival day (every pending order
      has one). */
  function ArrivalKey(o: Order): int {
    if o.arrivalDate.Some? then o.arrivalDate.value else 0
  }

  /** `GET /api/orders/pending-after-sales`: the pending orders, arrival
      ascending. */
  ghost function PendingList(db: Db, now: int): (r: seq<Order>)
    ensures forall o :: o in r <==> o in db.orders.Values && IsPending(o, now)
    ensures forall i, j :: 0 <= i < j < |r| ==> ArrivalKey(r[i]) <= ArrivalKey(r[j])
  {
    var matches := Filter(Scan(db.orders), (o: Order) => IsPending(o, now));
    var r := SortBy(matches, ArrivalKey);
    assert forall o :: o in r <==> o in matches by {
      forall o ensures o in r <==> o in matches {
        assert o in r <==> o in multiset(r);
        assert o in matches <==> o in multiset(matches);
      }
    }
    r
  }

  /** The dashboard count and the pending list never disagree: for the same
      `now`, the count is the list's length. */
  lemma DashboardCountIsPendingListLength(db: Db, now: int)
    ensures Dashboard(db, now).pendingAfterSalesCount == |PendingList(db, now)|
  {
    var p := (o: Order) => IsPending(o, now);
    var matches := Filter(Scan(db.orders), p);
    CountWhereIsFilteredScanLength(db.orders, p);
    assert |multiset(SortBy(matches, ArrivalKey))| == |multiset(matches)|;
  }
}
