/**
 * The periodic business report: one row that CROSS JOINs four aggregate
 * sub-queries over a date window (sales, delivery performance, customer
 * satisfaction and new customers), and the report page's guard that only
 * runs the query when both dates are chosen.
 *
 * The two dates reach the query as parameters compared against timestamps,
 * so each stands for the midnight that opens it; a missing parameter is SQL
 * NULL, and then every comparison with it is NULL and selects no row.
 */
module Report {
  import opened Facts

  // ---------------------------------------------------------------------
  // Calendar dates
  // ---------------------------------------------------------------------

  /** A calendar date (proleptic Gregorian), as Python's `date`. */
  datatype Date = Date(year: int, month: int, day: int)

  predicate Leap(y: int)
  {
    y % 4 == 0 && (y % 100 != 0 || y % 400 == 0)
  }

  function DaysIn(y: int, m: int): (n: int)
    ensures 28 <= n <= 31
    ensures m == 2 ==> (n == 29 <==> Leap(y))
  {
    if m == 2 then (if Leap(y) then 29 else 28)
    else if m == 4 || m == 6 || m == 9 || m == 11 then 30
    else 31
  }

  /** The dates Python's `date` accepts: years 1..9999 and a day that the
      month has. */
  predicate ValidDate(d: Date)
  {
    1 <= d.year <= 9999 && 1 <= d.month <= 12 && 1 <= d.day <= DaysIn(d.year, d.month)
  }

  function YearLength(y: int): int
  {
    if Leap(y) then 366 else 365
  }

  /** Days in the years before y. */
  function DaysBeforeYear(y: int): int
  {
    var p := y - 1;
    365 * p + p / 4 - p / 100 + p / 400
  }

  /** Days in the months of year y before month m. */
  function DaysBeforeMonth(y: int, m: int): int
    decreases m
  {
    if m <= 1 then 0 else DaysBeforeMonth(y, m - 1) + DaysIn(y, m - 1)
  }

  /** The day number of a date, 1 for 0001-01-01 (Python's `toordinal`). */
  function Ordinal(d: Date): int
  {
    DaysBeforeYear(d.year) + DaysBeforeMonth(d.year, d.month) + d.day
  }

  /** Date order: by year, then month, then day. */
  predicate DateBefore(a: Date, b: Date)
  {
    a.year < b.year || (a.year == b.year && (a.month < b.month || (a.month == b.month && a.day < b.day)))
  }

  lemma {:induction false} DaysBeforeYearNext(y: int)
    ensures DaysBeforeYear(y + 1) == DaysBeforeYear(y) + YearLength(y)
  {
    DivNext(y, 4);
    DivNext(y, 100);
    DivNext(y, 400);
    MultipleOfMultiple(y);
  }

  /** Stepping y - 1 to y steps (y - 1) / k exactly when y is a multiple of k. */
  lemma DivNext(y: int, k: int)
    requires k == 4 || k == 100 || k == 400
    ensures y / k == (y - 1) / k + (if y % k == 0 then 1 else 0)
  {
    var q, r := (y - 1) / k, (y - 1) % k;
    assert y - 1 == k * q + r && 0 <= r < k;
    if r == k - 1 {
      assert y == k * (q + 1);
    } else {
      assert y == k * q + (r + 1);
    }
  }

  /** A multiple of 400 is one of 100, and a multiple of 100 one of 4. */
  lemma MultipleOfMultiple(y: int)
    ensures y % 400 == 0 ==> y % 100 == 0
    ensures y % 100 == 0 ==> y % 4 == 0
  {
    if y % 400 == 0 {
      MultipleOf400(y);
    }
    if y % 100 == 0 {
      MultipleOf100(y);
    }
  }

  lemma MultipleOf400(y: int)
    requires y % 400 == 0
    ensures y % 100 == 0
  {
    var q, a, r := y / 400, y / 100, y % 100;
    assert y == 400 * q && y == 100 * a + r;
    assert 100 * (4 * q - a) == r;
  }

  lemma MultipleOf100(y: int)
    requires y % 100 == 0
    ensures y % 4 == 0
  {
    var q, a, r := y / 100, y / 4, y % 4;
    assert y == 100 * q && y == 4 * a + r;
    assert 4 * (25 * q - a) == r;
  }

  lemma {:induction false} DaysBeforeMonthGrows(y: int, m: int, n: int)
    requires 1 <= m <= n
    ensures DaysBeforeMonth(y, n) >= DaysBeforeMonth(y, m) + 28 * (n - m)
    decreases n - m
  {
    if m < n {
      DaysBeforeMonthGrows(y, m, n - 1);
    }
  }

  lemma {:induction false} DaysBeforeMonthYear(y: int, m: int)
    requires 1 <= m <= 12
    ensures DaysBeforeMonth(y, m) + DaysIn(y, m) <= YearLength(y)
  {
    assert DaysBeforeMonth(y, 13) == YearLength(y) by {
      assert DaysBeforeMonth(y, 2) == 31;
      assert DaysBeforeMonth(y, 3) == 31 + DaysIn(y, 2);
    }
    if m < 12 {
      DaysBeforeMonthGrows(y, m + 1, 13);
    }
  }

  lemma {:induction false} DaysBeforeYearGrows(y: int, z: int)
    requires y <= z
    ensures DaysBeforeYear(z) >= DaysBeforeYear(y) + 365 * (z - y)
    decreases z - y
  {
    if y < z {
      DaysBeforeYearGrows(y, z - 1);
      DaysBeforeYearNext(z - 1);
    }
  }

  /** Day numbers follow the calendar: an earlier date has a smaller day
      number, so comparing midnights compares dates. */
  lemma OrdinalOrder(a: Date, b: Date)
    requires ValidDate(a) && ValidDate(b)
    ensures DateBefore(a, b) <==> Ordinal(a) < Ordinal(b)
  {
    if DateBefore(a, b) {
      OrdinalBefore(a, b);
    } else if DateBefore(b, a) {
      OrdinalBefore(b, a);
    } else {
      assert a == b;
    }
  }

  lemma OrdinalBefore(a: Date, b: Date)
    requires ValidDate(a) && ValidDate(b) && DateBefore(a, b)
    ensures Ordinal(a) < Ordinal(b)
  {
    if a.year < b.year {
      OrdinalYearBefore(a, b);
    } else if a.month < b.month {
      OrdinalMonthBefore(a, b);
    }
  }

  /** A date of an earlier month of the same year. */
  lemma OrdinalMonthBefore(a: Date, b: Date)
    requires ValidDate(a) && ValidDate(b) && a.year == b.year && a.month < b.month
    ensures Ordinal(a) < Ordinal(b)
  {
    DaysBeforeMonthGrows(a.year, a.month + 1, b.month);
    assert DaysBeforeMonth(a.year, a.month + 1) == DaysBeforeMonth(a.year, a.month) + DaysIn(a.year, a.month);
  }

  /** A date of an earlier year: the rest of a's year already separates
      the two days. */
  lemma OrdinalYearBefore(a: Date, b: Date)
    requires ValidDate(a) && ValidDate(b) && a.year < b.year
    ensures Ordinal(a) < Ordinal(b)
  {
    var endOfYear := DaysBeforeYear(a.year) + YearLength(a.year);
    assert Ordinal(a) <= endOfYear by {
      DaysBeforeMonthYear(a.year, a.month);
    }
    assert endOfYear <= DaysBeforeYear(b.year) by {
      DaysBeforeYearNext(a.year);
      DaysBeforeYearGrows(a.year + 1, b.year);
    }
    assert DaysBeforeMonth(b.year, b.month) >= 0 by {
      DaysBeforeMonthGrows(b.year, 1, b.month);
    }
  }

  /** The timestamp of the midnight that opens a date. */
  function MidnightOf(d: Date): int
  {
    Midnight(Ordinal(d))
  }

  // ---------------------------------------------------------------------
  // Date parameters
  // ---------------------------------------------------------------------

  /** The two query parameters as timestamps; None is SQL NULL. */
  datatype Bounds = Bounds(lo: Option<int>, hi: Option<int>)

  function BoundsOf(start: Option<Date>, end: Option<Date>): (b: Bounds)
    ensures b.lo.Some? <==> start.Some?
    ensures b.hi.Some? <==> end.Some?
    ensures start.Some? ==> b.lo.value == MidnightOf(start.value)
    ensures end.Some? ==> b.hi.value == MidnightOf(end.value)
  {
    Bounds(
      if start.Some? then Some(MidnightOf(start.value)) else None,
      if end.Some? then Some(MidnightOf(end.value)) else None)
  }

  /** A NULL bound: then no `BETWEEN` against the window is true. */
  predicate Open(b: Bounds)
  {
    b.lo.None? || b.hi.None?
  }

  predicate Between(ts: int, b: Bounds)
  {
    b.lo.Some? && b.hi.Some? && b.lo.value <= ts <= b.hi.value
  }

  /** `ts < lo`, never true against a NULL bound. */
  predicate Before(ts: int, b: Bounds)
  {
    b.lo.Some? && ts < b.lo.value
  }

  /** `SUM(CASE WHEN p THEN 1 ELSE 0 END)`: NULL over zero rows. */
  function SumCase<T(!new)>(xs: seq<T>, p: T -> bool): (r: Option<nat>)
    ensures r.Some? <==> |xs| > 0
    ensures r.Some? ==> r.value == |Where(xs, p)| <= |xs|
  {
    if xs == [] then None else Some(|Where(xs, p)|)
  }

  // ---------------------------------------------------------------------
  // Sales
  // ---------------------------------------------------------------------

  /** The item rows of orders purchased in the window. */
  function SaleLines(orders: seq<Order>, items: seq<Item>, b: Bounds): (ls: seq<Line>)
    ensures forall l :: l in ls <==>
      l.order in orders && l.item in items && l.item.order == l.order.id && Between(l.order.purchase, b)
    ensures Open(b) ==> ls == []
  {
    var inWindow := (l: Line) => Between(l.order.purchase, b);
    assert Open(b) ==> Where(Lines(orders, items), inWindow) == [] by {
      if Open(b) { WhereNone(Lines(orders, items), inWindow); }
    }
    Where(Lines(orders, items), inWindow)
  }

  function LineValue(l: Line): real
  {
    l.item.price + l.item.freight
  }

  function LineValues(ls: seq<Line>): (r: seq<real>)
    ensures |r| == |ls|
    ensures forall k :: 0 <= k < |ls| ==> r[k] == LineValue(ls[k])
  {
    seq(|ls|, k requires 0 <= k < |ls| => LineValue(ls[k]))
  }

  /** COUNT(DISTINCT o.order_id) and COUNT(DISTINCT c.customer_unique_id)
      range over these sets. */
  function OrderIds(ls: seq<Line>): set<int>
  {
    set l | l in ls :: l.order.id
  }

  function Customers(ls: seq<Line>): set<int>
  {
    set l | l in ls :: l.order.customer
  }

  datatype Sales = Sales(totalOrders: nat, totalRevenue: Option<real>, uniqueCustomers: nat, avgOrderValue: Option<real>)

  /** Orders and customers are counted once each; revenue adds price and
      freight of every item row, and the average divides it by the number
      of item rows, not by the number of orders. */
  function SalesOf(ls: seq<Line>): (s: Sales)
    ensures s.totalOrders == |OrderIds(ls)| <= |ls|
    ensures s.uniqueCustomers == |Customers(ls)| <= |ls|
    ensures s.totalRevenue.Some? <==> |ls| > 0
    ensures s.totalRevenue.Some? ==> s.totalOrders >= 1 && s.uniqueCustomers >= 1
    ensures s.avgOrderValue.Some? <==> |ls| > 0
    ensures s.totalRevenue.Some? ==> s.totalRevenue.value == Sum(LineValues(ls))
    ensures s.avgOrderValue.Some? ==> s.avgOrderValue.value * |ls| as real == s.totalRevenue.value
  {
    DistinctCounts(ls);
    assert ls != [] ==> ls[0].order.id in OrderIds(ls);
    assert ls != [] ==> ls[0].order.customer in Customers(ls);
    var vs := LineValues(ls);
    AvgTimesCount(vs);
    Sales(
      |OrderIds(ls)|,
      if ls == [] then None else Some(Sum(vs)),
      |Customers(ls)|,
      Avg(vs))
  }

  /** Item rows carry no more distinct orders, or customers, than rows. */
  lemma {:induction false} DistinctCounts(ls: seq<Line>)
    ensures |OrderIds(ls)| <= |ls|
    ensures |Customers(ls)| <= |ls|
  {
    if ls != [] {
      DistinctCounts(ls[1..]);
      assert forall l :: l in ls <==> l == ls[0] || l in ls[1..];
      assert OrderIds(ls) == {ls[0].order.id} + OrderIds(ls[1..]);
      assert Customers(ls) == {ls[0].order.customer} + Customers(ls[1..]);
    }
  }

  // ---------------------------------------------------------------------
  // Delivery performance
  // ---------------------------------------------------------------------

  /** Delivered orders whose delivery date falls in the window (the
      purchase date plays no part here). */
  predicate DeliveredIn(o: Order, b: Bounds)
  {
    o.status == "delivered" && o.delivered.Some? && Between(o.delivered.value, b)
  }

  function Delivered(orders: seq<Order>, b: Bounds): (ds: seq<Order>)
    ensures forall o :: o in ds <==> o in orders && DeliveredIn(o, b)
    ensures Open(b) ==> ds == []
  {
    var delivered := (o: Order) => DeliveredIn(o, b);
    assert Open(b) ==> Where(orders, delivered) == [] by {
      if Open(b) { WhereNone(orders, delivered); }
    }
    Where(orders, delivered)
  }

  /** Later than estimated; a NULL estimate makes the comparison NULL, so
      such an order is not late. */
  predicate Late(o: Order)
  {
    o.delivered.Some? && o.estimated.Some? && o.delivered.value > o.estimated.value
  }

  /** Days from purchase to delivery, with the fraction of a day. */
  function DeliveryDays(o: Order): real
  {
    if o.delivered.Some? then (o.delivered.value - o.purchase) as real / 86400.0 else 0.0
  }

  function DeliveryDaysOf(ds: seq<Order>): (r: seq<real>)
    ensures |r| == |ds|
    ensures forall k :: 0 <= k < |ds| ==> r[k] == DeliveryDays(ds[k])
  {
    seq(|ds|, k requires 0 <= k < |ds| => DeliveryDays(ds[k]))
  }

  datatype Delivery = Delivery(totalDelivered: nat, lateDeliveries: Option<nat>, avgDeliveryDays: Option<real>)

  /** Late deliveries are among the delivered ones; both aggregates are
      NULL when nothing was delivered in the window. */
  function DeliveryOf(ds: seq<Order>): (d: Delivery)
    ensures d.totalDelivered == |ds|
    ensures d.lateDeliveries.Some? <==> |ds| > 0
    ensures d.avgDeliveryDays.Some? <==> |ds| > 0
    ensures d.lateDeliveries.Some? ==> d.lateDeliveries.value <= d.totalDelivered
    ensures d.lateDeliveries.Some? ==> d.lateDeliveries.value == |Where(ds, Late)|
  {
    Delivery(|ds|, SumCase(ds, Late), Avg(DeliveryDaysOf(ds)))
  }

  /** The average delivery time times the number of deliveries is the
      total delivery time. */
  lemma DeliveryAverage(ds: seq<Order>)
    ensures var d := DeliveryOf(ds);
      d.avgDeliveryDays.Some? ==> d.avgDeliveryDays.value * |ds| as real == Sum(DeliveryDaysOf(ds))
  {
    AvgTimesCount(DeliveryDaysOf(ds));
  }

  // ---------------------------------------------------------------------
  // Customer satisfaction
  // ---------------------------------------------------------------------

  /** One row of `order_reviews`; the score may be NULL. */
  datatype Review = Review(order: int, score: Option<int>)

  /** The orders a review joins, restricted to purchases in the window. */
  function Reviewed(orders: seq<Order>, r: Review, b: Bounds): (os: seq<Order>)
    ensures forall o :: o in os <==> o in orders && o.id == r.order && Between(o.purchase, b)
    ensures Open(b) ==> os == []
  {
    var joins := (o: Order) => o.id == r.order && Between(o.purchase, b);
    assert Open(b) ==> Where(orders, joins) == [] by {
      if Open(b) { WhereNone(orders, joins); }
    }
    Where(orders, joins)
  }

  /** `order_reviews r JOIN orders o ON r.order_id = o.order_id WHERE
      o.order_purchase_timestamp BETWEEN ...`: each review once per
      matching order. */
  function ReviewRows(reviews: seq<Review>, orders: seq<Order>, b: Bounds): (rs: seq<Review>)
    ensures forall r :: r in rs <==> r in reviews && exists o :: o in orders && o.id == r.order && Between(o.purchase, b)
    ensures Open(b) ==> rs == []
  {
    if reviews == [] then []
    else
      var r := reviews[0];
      var n := |Reviewed(orders, r, b)|;
      var here := seq(n, _ => r);
      assert n > 0 ==> here[0] == r;
      assert forall x :: x in here <==> x == r && n > 0;
      assert n > 0 <==> exists o :: o in orders && o.id == r.order && Between(o.purchase, b) by {
        if n > 0 {
          assert Reviewed(orders, r, b)[0] in Reviewed(orders, r, b);
        }
      }
      here + ReviewRows(reviews[1..], orders, b)
  }

  predicate Positive(r: Review)
  {
    r.score.Some? && r.score.value >= 4
  }

  predicate Negative(r: Review)
  {
    r.score.Some? && r.score.value <= 2
  }

  /** The scores AVG sees: it skips NULL scores. */
  function Scores(rs: seq<Review>): (r: seq<real>)
    ensures |r| <= |rs|
    ensures |r| > 0 <==> exists x :: x in rs && x.score.Some?
  {
    if rs == [] then []
    else
      var rest := Scores(rs[1..]);
      assert forall x :: x in rs <==> x == rs[0] || x in rs[1..];
      (if rs[0].score.Some? then [rs[0].score.value as real] else []) + rest
  }

  datatype Satisfaction = Satisfaction(avgReviewScore: Option<real>, totalReviews: nat, positiveReviews: Option<nat>, negativeReviews: Option<nat>)

  /** Positive (4 and up) and negative (2 and below) reviews are disjoint
      parts of all reviews; the counts are NULL over no reviews, and the
      average is NULL when no review has a score. */
  function SatisfactionOf(rs: seq<Review>): (s: Satisfaction)
    ensures s.totalReviews == |rs|
    ensures s.positiveReviews.Some? <==> |rs| > 0
    ensures s.negativeReviews.Some? <==> |rs| > 0
    ensures s.positiveReviews.Some? ==> s.positiveReviews.value == |Where(rs, Positive)|
    ensures s.negativeReviews.Some? ==> s.negativeReviews.value == |Where(rs, Negative)|
    ensures s.positiveReviews.Some? && s.negativeReviews.Some? ==>
      s.positiveReviews.value + s.negativeReviews.value <= s.totalReviews
    ensures s.avgReviewScore.Some? <==> exists x :: x in rs && x.score.Some?
  {
    WhereDisjoint(rs, Positive, Negative);
    Satisfaction(Avg(Scores(rs)), |rs|, SumCase(rs, Positive), SumCase(rs, Negative))
  }

  // ---------------------------------------------------------------------
  // New customers
  // ---------------------------------------------------------------------

  /** Customers with an order purchased in the window. */
  function WindowCustomers(orders: seq<Order>, b: Bounds): set<int>
  {
    set o | o in orders && Between(o.purchase, b) :: o.customer
  }

  /** No order of customer c was purchased before the start. */
  predicate NoEarlierOrder(orders: seq<Order>, c: int, b: Bounds)
  {
    forall o :: o in orders && o.customer == c ==> !Before(o.purchase, b)
  }

  /** The `new_customers` sub-query: customers of window orders for whom
      `NOT EXISTS` an order before the start. */
  function NewCustomers(orders: seq<Order>, b: Bounds): (cs: set<int>)
    ensures cs <= WindowCustomers(orders, b)
  {
    set o | o in orders && Between(o.purchase, b) && NoEarlierOrder(orders, o.customer, b) :: o.customer
  }

  function PurchasesOf(orders: seq<Order>, c: int): (ts: seq<int>)
    ensures forall t :: t in ts <==> exists o :: o in orders && o.customer == c && o.purchase == t
  {
    if orders == [] then []
    else
      var rest := PurchasesOf(orders[1..], c);
      assert forall o :: o in orders <==> o == orders[0] || o in orders[1..];
      (if orders[0].customer == c then [orders[0].purchase] else []) + rest
  }

  /** A customer's first purchase over the whole history. */
  function FirstPurchase(orders: seq<Order>, c: int): (t: int)
    requires exists o :: o in orders && o.customer == c
    ensures exists o :: o in orders && o.customer == c && o.purchase == t
    ensures forall o :: o in orders && o.customer == c ==> t <= o.purchase
  {
    var o :| o in orders && o.customer == c;
    assert forall e :: e in orders && e.customer == c ==> e.purchase in PurchasesOf(orders, c);
    MinOf(PurchasesOf(orders, c))
  }

  /** A customer is new exactly when they bought in the window and their
      first purchase ever is not before the start. */
  lemma NewCustomerRule(orders: seq<Order>, b: Bounds, c: int)
    ensures c in NewCustomers(orders, b) <==>
      c in WindowCustomers(orders, b) && b.lo.Some? && FirstPurchase(orders, c) >= b.lo.value
  {
    if c in WindowCustomers(orders, b) {
      var o :| o in orders && Between(o.purchase, b) && o.customer == c;
      var t := FirstPurchase(orders, c);
      if t >= b.lo.value {
        assert NoEarlierOrder(orders, c, b);
        assert c in NewCustomers(orders, b);
      } else {
        var e :| e in orders && e.customer == c && e.purchase == t;
        assert !NoEarlierOrder(orders, c, b);
        assert forall x :: x in orders && Between(x.purchase, b) && x.customer == c ==> !NoEarlierOrder(orders, x.customer, b);
      }
    }
  }

  // ---------------------------------------------------------------------
  // The report row
  // ---------------------------------------------------------------------

  datatype Report = Report(
    start: Option<Date>,
    end: Option<Date>,
    sales: Sales,
    newCustomerCount: nat,
    delivery: Delivery,
    satisfaction: Satisfaction)

  /** The satisfaction figures of a database without `order_reviews`. */
  const NoReviews := Satisfaction(None, 0, Some(0), Some(0))

  /** The report query over the two date parameters. `reviewsTable` says
      whether the satisfaction sub-query reads `order_reviews` or is the
      constant row used when that table does not exist. */
  function ReportOf(orders: seq<Order>, items: seq<Item>, reviews: seq<Review>, reviewsTable: bool,
                    start: Option<Date>, end: Option<Date>): (r: Report)
    ensures r.start == start && r.end == end
    ensures r.sales == SalesOf(SaleLines(orders, items, BoundsOf(start, end)))
    ensures r.delivery == DeliveryOf(Delivered(orders, BoundsOf(start, end)))
    ensures r.newCustomerCount == |NewCustomers(orders, BoundsOf(start, end))|
    ensures r.newCustomerCount <= |WindowCustomers(orders, BoundsOf(start, end))|
    ensures reviewsTable ==> r.satisfaction == SatisfactionOf(ReviewRows(reviews, orders, BoundsOf(start, end)))
    ensures !reviewsTable ==> r.satisfaction == Satisfaction(None, 0, Some(0), Some(0))
  {
    var b := BoundsOf(start, end);
    SubsetCard(NewCustomers(orders, b), WindowCustomers(orders, b));
    Report(
      start, end,
      SalesOf(SaleLines(orders, items, b)),
      |NewCustomers(orders, b)|,
      DeliveryOf(Delivered(orders, b)),
      if reviewsTable then SatisfactionOf(ReviewRows(reviews, orders, b)) else NoReviews)
  }

  /** Without one of the dates the query selects nothing: no orders, no
      deliveries, no reviews, no new customers, and NULL sums. */
  lemma MissingDateSelectsNothing(orders: seq<Order>, items: seq<Item>, reviews: seq<Review>, reviewsTable: bool,
                                  start: Option<Date>, end: Option<Date>)
    requires start.None? || end.None?
    ensures var r := ReportOf(orders, items, reviews, reviewsTable, start, end);
      r.sales == Sales(0, None, 0, None) && r.newCustomerCount == 0 &&
      r.delivery == Delivery(0, None, None) && r.satisfaction.totalReviews == 0
  {
    var b := BoundsOf(start, end);
    assert OrderIds([]) == {} && Customers([]) == {};
    assert WindowCustomers(orders, b) == {};
  }

  // ---------------------------------------------------------------------
  // The report page
  // ---------------------------------------------------------------------

  /** The window holds at least one item line and at least one delivery. */
  predicate HasActivity(orders: seq<Order>, items: seq<Item>, b: Bounds)
  {
    |SaleLines(orders, items, b)| > 0 && |Delivered(orders, b)| > 0
  }

  /** Some review of an order in the window has a score. */
  predicate HasScores(reviews: seq<Review>, orders: seq<Order>, b: Bounds)
  {
    exists x :: x in ReviewRows(reviews, orders, b) && x.score.Some?
  }

  datatype PageOutcome = Shown(report: Report) | FormatError | InvalidDates

  /** The figures the page's table formats with a fixed number of
      decimals and no text for NULL: formatting a NULL among them raises,
      and the page shows the error instead of the table. */
  predicate Displayable(r: Report)
  {
    && r.sales.totalRevenue.Some?
    && r.sales.avgOrderValue.Some?
    && r.satisfaction.avgReviewScore.Some?
    && r.delivery.avgDeliveryDays.Some?
  }

  /** The page runs the report (which always reads `order_reviews`) only
      when both dates are set, and otherwise shows an error. The table is
      shown when the window has item lines, deliveries and a scored
      review; otherwise formatting a NULL figure raises. */
  function GenerateReport(orders: seq<Order>, items: seq<Item>, reviews: seq<Review>,
                          start: Option<Date>, end: Option<Date>): (p: PageOutcome)
    ensures p.InvalidDates? <==> start.None? || end.None?
    ensures p.Shown? <==>
      start.Some? && end.Some? &&
      HasActivity(orders, items, BoundsOf(start, end)) && HasScores(reviews, orders, BoundsOf(start, end))
    ensures p.Shown? ==> p.report == ReportOf(orders, items, reviews, true, start, end)
  {
    if start.Some? && end.Some? then
      var r := ReportOf(orders, items, reviews, true, start, end);
      if Displayable(r) then Shown(r) else FormatError
    else InvalidDates
  }
}
