/**
 * Cohort retention (`load_cohort_data`, identical in the two cohort
 * pages): customers grouped by the month of their first purchase, the
 * month offset of each later purchase, active customers and revenue per
 * (cohort, offset), and retention = active / cohort size * 100.
 */
module Cohorts {
  import opened Facts

  /** DATE_TRUNC('month', ts) as a month index year * 12 + (month - 1):
      EXTRACT(YEAR) * 12 + EXTRACT(MONTH) differences are differences of
      this index. The civil calendar itself is a parameter. */
  type Calendar = int -> int

  /** A later timestamp never falls in an earlier month. */
  ghost predicate MonotoneCalendar(cal: Calendar)
  {
    forall a, b :: a <= b ==> cal(a) <= cal(b)
  }

  // ---------------------------------------------------------------------
  // first_purchases
  // ---------------------------------------------------------------------

  datatype FirstPurchase = FirstPurchase(customer: int, first: int, cohort: int)

  function CustomerIds(os: seq<Order>): (cs: seq<int>)
    ensures forall c :: c in cs <==> exists o :: o in os && o.customer == c
  {
    var cs := seq(|os|, i requires 0 <= i < |os| => os[i].customer);
    assert forall o :: o in os ==> o.customer in cs by {
      forall o | o in os ensures o.customer in cs {
        var i :| 0 <= i < |os| && os[i] == o;
        assert cs[i] == o.customer;
      }
    }
    cs
  }

  function PurchaseTimes(os: seq<Order>): (ps: seq<int>)
    ensures forall p :: p in ps <==> exists o :: o in os && o.purchase == p
  {
    var ps := seq(|os|, i requires 0 <= i < |os| => os[i].purchase);
    assert forall o :: o in os ==> o.purchase in ps by {
      forall o | o in os ensures o.purchase in ps {
        var i :| 0 <= i < |os| && os[i] == o;
        assert ps[i] == o.purchase;
      }
    }
    ps
  }

  /** The orders the `{date_filter}` keeps. */
  function WindowOrders(orders: seq<Order>, w: Option<Window>): (ws: seq<Order>)
    ensures forall o :: o in ws <==> o in orders && InWindow(o.purchase, w)
  {
    Where(orders, (o: Order) => InWindow(o.purchase, w))
  }

  function OrdersOf(os: seq<Order>, c: int): (r: seq<Order>)
    ensures forall o :: o in r <==> o in os && o.customer == c
  {
    Where(os, (o: Order) => o.customer == c)
  }

  /** The purchase that opens a customer's cohort, among the orders `os`. */
  predicate IsFirstPurchase(os: seq<Order>, fp: FirstPurchase, cal: Calendar)
  {
    && fp.cohort == cal(fp.first)
    && (exists o :: o in os && o.customer == fp.customer && o.purchase == fp.first)
    && (forall o :: o in os && o.customer == fp.customer ==> fp.first <= o.purchase)
  }

  function FirstPurchaseOf(os: seq<Order>, c: int, cal: Calendar): (fp: FirstPurchase)
    requires c in CustomerIds(os)
    ensures fp.customer == c && IsFirstPurchase(os, fp, cal)
  {
    var i :| 0 <= i < |os| && CustomerIds(os)[i] == c;
    var mine := OrdersOf(os, c);
    assert os[i] in mine;
    var first := MinOf(PurchaseTimes(mine));
    assert forall o :: o in os && o.customer == c ==> first <= o.purchase by {
      forall o | o in os && o.customer == c ensures first <= o.purchase {
        assert o in mine;
        assert o.purchase in PurchaseTimes(mine);
      }
    }
    FirstPurchase(c, first, cal(first))
  }

  function Members(fps: seq<FirstPurchase>): seq<int>
  {
    seq(|fps|, i requires 0 <= i < |fps| => fps[i].customer)
  }

  /** The `first_purchases` CTE: one row per customer with an order in the
      window, holding the earliest of those orders and its month. */
  function FirstPurchases(orders: seq<Order>, w: Option<Window>, cal: Calendar): (fps: seq<FirstPurchase>)
    ensures NoDup(Members(fps))
    ensures forall c :: c in Members(fps) <==> exists o :: o in orders && InWindow(o.purchase, w) && o.customer == c
    ensures forall fp :: fp in fps ==> IsFirstPurchase(WindowOrders(orders, w), fp, cal)
  {
    var ws := WindowOrders(orders, w);
    var cs := DistinctKeys(CustomerIds(ws));
    var fps := seq(|cs|, i requires 0 <= i < |cs| => FirstPurchaseOf(ws, cs[i], cal));
    assert Members(fps) == cs;
    fps
  }

  // ---------------------------------------------------------------------
  // customer_activity
  // ---------------------------------------------------------------------

  /** One row of `customer_activity`: a customer's purchases at one
      timestamp, priced by their items. */
  datatype Activity = Activity(customer: int, cohort: int, at: int, monthNumber: int, value: real)

  datatype ActKey = ActKey(customer: int, cohort: int, at: int)

  /** A joined row (first purchase, order, item) yields this key. */
  predicate Joins(fp: FirstPurchase, l: Line, k: ActKey)
  {
    l.order.customer == fp.customer && k == ActKey(fp.customer, fp.cohort, l.order.purchase)
  }

  function CustomerLines(ls: seq<Line>, c: int): (r: seq<Line>)
    ensures forall l :: l in r <==> l in ls && l.order.customer == c
  {
    Where(ls, (l: Line) => l.order.customer == c)
  }

  function KeysFor(fp: FirstPurchase, ls: seq<Line>): (ks: seq<ActKey>)
    ensures forall k :: k in ks <==> exists l :: l in ls && Joins(fp, l, k)
  {
    var cl := CustomerLines(ls, fp.customer);
    var ks := seq(|cl|, i requires 0 <= i < |cl| => ActKey(fp.customer, fp.cohort, cl[i].order.purchase));
    assert forall k :: k in ks ==> exists l :: l in ls && Joins(fp, l, k) by {
      forall k | k in ks ensures exists l :: l in ls && Joins(fp, l, k) {
        var i :| 0 <= i < |ks| && ks[i] == k;
        assert Joins(fp, cl[i], k);
      }
    }
    assert forall k :: (exists l :: l in ls && Joins(fp, l, k)) ==> k in ks by {
      forall k | exists l :: l in ls && Joins(fp, l, k) ensures k in ks {
        var l :| l in ls && Joins(fp, l, k);
        var i :| 0 <= i < |cl| && cl[i] == l;
        assert ks[i] == k;
      }
    }
    ks
  }

  /** The GROUP BY keys of first_purchases JOIN orders JOIN order_items. */
  function JoinKeys(fps: seq<FirstPurchase>, ls: seq<Line>): (ks: seq<ActKey>)
    ensures forall k :: k in ks <==> exists fp, l :: fp in fps && l in ls && Joins(fp, l, k)
  {
    if fps == [] then []
    else
      var rest := JoinKeys(fps[1..], ls);
      assert forall fp :: fp in fps <==> fp == fps[0] || fp in fps[1..];
      KeysFor(fps[0], ls) + rest
  }

  function LinesAt(ls: seq<Line>, c: int, at: int): seq<Line>
  {
    Where(ls, (l: Line) => l.order.customer == c && l.order.purchase == at)
  }

  function Prices(ls: seq<Line>): seq<real>
  {
    seq(|ls|, i requires 0 <= i < |ls| => ls[i].item.price)
  }

  function ActKeyOf(a: Activity): ActKey
  {
    ActKey(a.customer, a.cohort, a.at)
  }

  /** Every activity row comes from a first purchase joined with one of
      its customer's item lines, and its offset is the month difference. */
  predicate FromJoin(fps: seq<FirstPurchase>, ls: seq<Line>, cal: Calendar, a: Activity)
  {
    ActKeyOf(a) in JoinKeys(fps, ls) && a.monthNumber == cal(a.at) - a.cohort
  }

  /** The `customer_activity` CTE: one row per join key, whose value is
      the sum of the prices of the customer's lines at that purchase
      timestamp. The join reads every order of a cohort member, not only
      those inside the window. */
  function ActivityRows(fps: seq<FirstPurchase>, ls: seq<Line>, cal: Calendar): (acts: seq<Activity>)
    ensures forall a :: a in acts ==> FromJoin(fps, ls, cal, a)
    ensures forall a :: a in acts ==> a.value == Sum(Prices(LinesAt(ls, a.customer, a.at)))
    ensures forall k :: k in JoinKeys(fps, ls) ==> exists a :: a in acts && ActKeyOf(a) == k
  {
    var keys := DistinctKeys(JoinKeys(fps, ls));
    var acts := seq(|keys|, i requires 0 <= i < |keys| =>
      Activity(keys[i].customer, keys[i].cohort, keys[i].at, cal(keys[i].at) - keys[i].cohort,
               Sum(Prices(LinesAt(ls, keys[i].customer, keys[i].at)))));
    assert forall a :: a in acts ==> FromJoin(fps, ls, cal, a) && a.value == Sum(Prices(LinesAt(ls, a.customer, a.at))) by {
      forall a | a in acts ensures FromJoin(fps, ls, cal, a) && a.value == Sum(Prices(LinesAt(ls, a.customer, a.at))) {
        var i :| 0 <= i < |keys| && acts[i] == a;
        assert keys[i] in keys;
      }
    }
    assert forall i :: 0 <= i < |keys| ==> ActKeyOf(acts[i]) == keys[i];
    assert forall k :: k in JoinKeys(fps, ls) ==> exists a :: a in acts && ActKeyOf(a) == k by {
      forall k | k in JoinKeys(fps, ls) ensures exists a :: a in acts && ActKeyOf(a) == k {
        var i :| 0 <= i < |keys| && keys[i] == k;
        assert acts[i] in acts;
      }
    }
    acts
  }

  // ---------------------------------------------------------------------
  // cohort_size, cohort_retention and the final SELECT
  // ---------------------------------------------------------------------

  /** COUNT(DISTINCT customer_unique_id) of a cohort in `first_purchases`. */
  function CohortMembers(fps: seq<FirstPurchase>, cohort: int): set<int>
  {
    set fp | fp in fps && fp.cohort == cohort :: fp.customer
  }

  /** COUNT(DISTINCT customer_unique_id) of one (cohort, offset) group. */
  function ActiveSet(acts: seq<Activity>, cohort: int, m: int): set<int>
  {
    set a | a in acts && a.cohort == cohort && a.monthNumber == m :: a.customer
  }

  datatype RetKey = RetKey(cohort: int, monthNumber: int)

  function RetKeys(acts: seq<Activity>): seq<RetKey>
  {
    seq(|acts|, i requires 0 <= i < |acts| => RetKey(acts[i].cohort, acts[i].monthNumber))
  }

  function InGroup(acts: seq<Activity>, k: RetKey): seq<Activity>
  {
    Where(acts, (a: Activity) => a.cohort == k.cohort && a.monthNumber == k.monthNumber)
  }

  function Values(acts: seq<Activity>): seq<real>
  {
    seq(|acts|, i requires 0 <= i < |acts| => acts[i].value)
  }

  /** One output row. `retentionRate` is before ROUND(..., 2);
      `avgRevenue` is NULL when NULLIF sees zero active customers. */
  datatype CohortRow = CohortRow(
    cohort: int,
    originalSize: nat,
    monthNumber: int,
    active: nat,
    revenue: real,
    retentionRate: real,
    avgRevenue: Option<real>)

  /** What every output row satisfies. */
  predicate RowBounds(row: CohortRow, limit: int)
  {
    && row.monthNumber <= limit
    && 1 <= row.active <= row.originalSize
    && row.retentionRate == row.active as real / row.originalSize as real * 100.0
    && 0.0 < row.retentionRate <= 100.0
    && row.avgRevenue == Some(row.revenue / row.active as real)
  }

  /** Activity rows of a cohort belong to members of that cohort. */
  lemma ActiveWithinCohort(fps: seq<FirstPurchase>, ls: seq<Line>, cal: Calendar, acts: seq<Activity>, k: RetKey)
    requires forall a :: a in acts ==> FromJoin(fps, ls, cal, a)
    ensures ActiveSet(acts, k.cohort, k.monthNumber) <= CohortMembers(fps, k.cohort)
  {
    forall c | c in ActiveSet(acts, k.cohort, k.monthNumber) ensures c in CohortMembers(fps, k.cohort) {
      var a :| a in acts && a.cohort == k.cohort && a.monthNumber == k.monthNumber && a.customer == c;
      assert FromJoin(fps, ls, cal, a);
      var fp, l :| fp in fps && l in ls && Joins(fp, l, ActKeyOf(a));
      assert fp.customer == c && fp.cohort == k.cohort;
    }
  }

  /** The row of one (cohort, month_number) group joined with its
      cohort's size. */
  function RetentionRow(fps: seq<FirstPurchase>, ls: seq<Line>, cal: Calendar, acts: seq<Activity>, k: RetKey, limit: int): (row: CohortRow)
    requires forall a :: a in acts ==> FromJoin(fps, ls, cal, a)
    requires k in RetKeys(acts) && k.monthNumber <= limit
    ensures row.cohort == k.cohort && row.monthNumber == k.monthNumber
    ensures row.originalSize == |CohortMembers(fps, k.cohort)|
    ensures row.active == |ActiveSet(acts, k.cohort, k.monthNumber)|
    ensures row.revenue == Sum(Values(InGroup(acts, k)))
    ensures RowBounds(row, limit)
  {
    var i :| 0 <= i < |acts| && RetKeys(acts)[i] == k;
    var actives := ActiveSet(acts, k.cohort, k.monthNumber);
    var members := CohortMembers(fps, k.cohort);
    assert acts[i].customer in actives;
    ActiveWithinCohort(fps, ls, cal, acts, k);
    SubsetCard(actives, members);
    var active := |actives|;
    var size := |members|;
    var revenue := Sum(Values(InGroup(acts, k)));
    var rate := active as real / size as real * 100.0;
    ShareBounds(active, size);
    CohortRow(k.cohort, size, k.monthNumber, active, revenue, rate,
              if active == 0 then None else Some(revenue / active as real))
  }

  function RetentionRows(fps: seq<FirstPurchase>, ls: seq<Line>, cal: Calendar, acts: seq<Activity>, keys: seq<RetKey>, limit: int): (rows: seq<CohortRow>)
    requires forall a :: a in acts ==> FromJoin(fps, ls, cal, a)
    requires forall k :: k in keys ==> k in RetKeys(acts) && k.monthNumber <= limit
    ensures |rows| == |keys|
    ensures forall i :: 0 <= i < |keys| ==> RetKey(rows[i].cohort, rows[i].monthNumber) == keys[i]
    ensures forall row :: row in rows ==>
      && RowBounds(row, limit)
      && row.originalSize == |CohortMembers(fps, row.cohort)|
      && row.active == |ActiveSet(acts, row.cohort, row.monthNumber)|
      && row.revenue == Sum(Values(InGroup(acts, RetKey(row.cohort, row.monthNumber))))
  {
    seq(|keys|, i requires 0 <= i < |keys| => RetentionRow(fps, ls, cal, acts, keys[i], limit))
  }

  /** Rows made one per key reach every activity row the keys cover. */
  lemma RowsCoverKeys(acts: seq<Activity>, keys: seq<RetKey>, rows: seq<CohortRow>, limit: int)
    requires forall k :: k in RetKeys(acts) && k.monthNumber <= limit ==> k in keys
    requires |rows| == |keys|
    requires forall i :: 0 <= i < |keys| ==> RetKey(rows[i].cohort, rows[i].monthNumber) == keys[i]
    ensures forall a :: a in acts && a.monthNumber <= limit ==>
      exists row :: row in rows && row.cohort == a.cohort && row.monthNumber == a.monthNumber
  {
    forall a | a in acts && a.monthNumber <= limit
      ensures exists row :: row in rows && row.cohort == a.cohort && row.monthNumber == a.monthNumber {
      var i :| 0 <= i < |acts| && acts[i] == a;
      var k := RetKey(a.cohort, a.monthNumber);
      assert RetKeys(acts)[i] == k;
      var j :| 0 <= j < |keys| && keys[j] == k;
      assert rows[j] in rows;
    }
  }

  /** The offset groups of the activity rows with month_number <= limit,
      each joined with the size of its cohort. */
  function CohortRowsOf(fps: seq<FirstPurchase>, ls: seq<Line>, cal: Calendar, limit: int): (rows: seq<CohortRow>)
    ensures forall row :: row in rows ==> RowBounds(row, limit)
    ensures forall i, j :: 0 <= i < j < |rows| ==>
      RetKey(rows[i].cohort, rows[i].monthNumber) != RetKey(rows[j].cohort, rows[j].monthNumber)
    ensures forall row :: row in rows ==>
      && row.originalSize == |CohortMembers(fps, row.cohort)|
      && row.active == |ActiveSet(ActivityRows(fps, ls, cal), row.cohort, row.monthNumber)|
      && row.revenue == Sum(Values(InGroup(ActivityRows(fps, ls, cal), RetKey(row.cohort, row.monthNumber))))
    ensures forall a :: a in ActivityRows(fps, ls, cal) && a.monthNumber <= limit ==>
      exists row :: row in rows && row.cohort == a.cohort && row.monthNumber == a.monthNumber
  {
    var acts := ActivityRows(fps, ls, cal);
    var keys := Where(DistinctKeys(RetKeys(acts)), (k: RetKey) => k.monthNumber <= limit);
    assert NoDup(keys) by {
      DistinctWhere(DistinctKeys(RetKeys(acts)), (k: RetKey) => k.monthNumber <= limit);
    }
    var rows := RetentionRows(fps, ls, cal, acts, keys, limit);
    RowsCoverKeys(acts, keys, rows, limit);
    rows
  }

  /** `load_cohort_data(start, end, months_limit)`: the rows of
      cohort_retention JOIN cohort_size with month_number <= months_limit.
      (ORDER BY cohort_month, month_number is not modelled.) */
  function CohortData(orders: seq<Order>, items: seq<Item>, w: Option<Window>, cal: Calendar, limit: int): (rows: seq<CohortRow>)
    ensures forall row :: row in rows ==> RowBounds(row, limit)
    ensures forall i, j :: 0 <= i < j < |rows| ==>
      RetKey(rows[i].cohort, rows[i].monthNumber) != RetKey(rows[j].cohort, rows[j].monthNumber)
    ensures forall row :: row in rows ==> row.originalSize == |CohortMembers(FirstPurchases(orders, w, cal), row.cohort)|
    ensures forall row :: row in rows ==>
      row.active == |ActiveSet(ActivityRows(FirstPurchases(orders, w, cal), Lines(orders, items), cal), row.cohort, row.monthNumber)|
    ensures forall row :: row in rows ==>
      row.revenue == Sum(Values(InGroup(ActivityRows(FirstPurchases(orders, w, cal), Lines(orders, items), cal),
                                        RetKey(row.cohort, row.monthNumber))))
    ensures forall a :: a in ActivityRows(FirstPurchases(orders, w, cal), Lines(orders, items), cal) && a.monthNumber <= limit ==>
      exists row :: row in rows && row.cohort == a.cohort && row.monthNumber == a.monthNumber
  {
    CohortRowsOf(FirstPurchases(orders, w, cal), Lines(orders, items), cal, limit)
  }

  // ---------------------------------------------------------------------
  // Properties of the offsets
  // ---------------------------------------------------------------------

  /** The purchase that opens a cohort sits at offset 0. */
  lemma FirstPurchaseAtOffsetZero(fps: seq<FirstPurchase>, ls: seq<Line>, cal: Calendar, fp: FirstPurchase, l: Line)
    requires fp in fps && fp.cohort == cal(fp.first)
    requires l in ls && l.order.customer == fp.customer && l.order.purchase == fp.first
    ensures exists a :: a in ActivityRows(fps, ls, cal) && a.customer == fp.customer && a.monthNumber == 0
  {
    var acts := ActivityRows(fps, ls, cal);
    var k := ActKey(fp.customer, fp.cohort, l.order.purchase);
    assert Joins(fp, l, k);
    assert k in JoinKeys(fps, ls);
    var a :| a in acts && ActKeyOf(a) == k;
    assert FromJoin(fps, ls, cal, a);
  }

  /** Offsets are >= 0 when every first purchase precedes all the item
      lines of its customer. */
  lemma OffsetsFromEarliest(fps: seq<FirstPurchase>, ls: seq<Line>, cal: Calendar, limit: int)
    requires MonotoneCalendar(cal)
    requires forall fp :: fp in fps ==> fp.cohort == cal(fp.first)
    requires forall fp, l :: fp in fps && l in ls && l.order.customer == fp.customer ==> fp.first <= l.order.purchase
    ensures forall row :: row in CohortRowsOf(fps, ls, cal, limit) ==> row.monthNumber >= 0
  {
    var acts := ActivityRows(fps, ls, cal);
    forall row | row in CohortRowsOf(fps, ls, cal, limit) ensures row.monthNumber >= 0 {
      var actives := ActiveSet(acts, row.cohort, row.monthNumber);
      assert actives != {};
      var c :| c in actives;
      var a :| a in acts && a.cohort == row.cohort && a.monthNumber == row.monthNumber && a.customer == c;
      ActivityAfterFirst(fps, ls, cal, a);
    }
  }

  /** An activity row of a join whose line is not before the first
      purchase has offset >= 0. */
  lemma ActivityAfterFirst(fps: seq<FirstPurchase>, ls: seq<Line>, cal: Calendar, a: Activity)
    requires MonotoneCalendar(cal)
    requires forall fp :: fp in fps ==> fp.cohort == cal(fp.first)
    requires forall fp, l :: fp in fps && l in ls && l.order.customer == fp.customer ==> fp.first <= l.order.purchase
    requires FromJoin(fps, ls, cal, a)
    ensures a.monthNumber >= 0
  {
    var fp, l :| fp in fps && l in ls && Joins(fp, l, ActKeyOf(a));
    assert a.at == l.order.purchase && a.cohort == cal(fp.first);
    assert cal(fp.first) <= cal(l.order.purchase);
  }

  /** Without a date filter every offset is >= 0: the first purchase is
      then the earliest of all the customer's orders. */
  lemma UnfilteredOffsetsNonNegative(orders: seq<Order>, items: seq<Item>, cal: Calendar, limit: int)
    requires MonotoneCalendar(cal)
    ensures forall row :: row in CohortData(orders, items, None, cal, limit) ==> row.monthNumber >= 0
  {
    var fps := FirstPurchases(orders, None, cal);
    var ls := Lines(orders, items);
    assert forall fp, l :: fp in fps && l in ls && l.order.customer == fp.customer ==> fp.first <= l.order.purchase by {
      forall fp, l | fp in fps && l in ls && l.order.customer == fp.customer ensures fp.first <= l.order.purchase {
        assert IsFirstPurchase(WindowOrders(orders, None), fp, cal);
        assert l.order in WindowOrders(orders, None);
      }
    }
    OffsetsFromEarliest(fps, ls, cal, limit);
  }

  /** Every item line of a cohort member appears in the output at its
      offset, as long as that offset is within the horizon. */
  lemma LineReachesOutput(fps: seq<FirstPurchase>, ls: seq<Line>, cal: Calendar, limit: int, fp: FirstPurchase, l: Line)
      returns (row: CohortRow)
    requires fp in fps && l in ls && l.order.customer == fp.customer
    requires cal(l.order.purchase) - fp.cohort <= limit
    ensures row in CohortRowsOf(fps, ls, cal, limit)
    ensures row.cohort == fp.cohort && row.monthNumber == cal(l.order.purchase) - fp.cohort
  {
    var a := LineReachesActivity(fps, ls, cal, fp, l);
    var rows := CohortRowsOf(fps, ls, cal, limit);
    row :| row in rows && row.cohort == a.cohort && row.monthNumber == a.monthNumber;
  }

  lemma LineReachesActivity(fps: seq<FirstPurchase>, ls: seq<Line>, cal: Calendar, fp: FirstPurchase, l: Line) returns (a: Activity)
    requires fp in fps && l in ls && l.order.customer == fp.customer
    ensures a in ActivityRows(fps, ls, cal)
    ensures a.cohort == fp.cohort && a.monthNumber == cal(l.order.purchase) - fp.cohort
  {
    var acts := ActivityRows(fps, ls, cal);
    var jk := ActKey(fp.customer, fp.cohort, l.order.purchase);
    assert Joins(fp, l, jk);
    assert jk in JoinKeys(fps, ls);
    a :| a in acts && ActKeyOf(a) == jk;
    assert FromJoin(fps, ls, cal, a);
  }

  /** With a date filter the cohort comes from the window but the activity
      reads every order, so an order before the window yields a negative
      offset, which `month_number <= months_limit` keeps. Customer 1 buys
      in month 0 and in month 1; the window holds only the second order. */
  lemma FilteredOffsetCanBeNegative(orders: seq<Order>, items: seq<Item>, w: Option<Window>)
    requires orders == ExampleOrders() && items == ExampleItems() && w == Some(Window(100, 199))
    ensures exists row :: row in CohortData(orders, items, w, ExampleCalendar, 6) && row.monthNumber == -1
  {
    var fp := ExampleFirstPurchase(FirstPurchases(orders, w, ExampleCalendar), orders, w);
    var l := ExampleEarlyLine();
    var row := OffsetRow(orders, items, w, ExampleCalendar, 6, fp, l);
  }

  /** Any joined line of a cohort member within the limit gives an output
      row at its offset. */
  lemma OffsetRow(orders: seq<Order>, items: seq<Item>, w: Option<Window>, cal: Calendar, limit: int,
                  fp: FirstPurchase, l: Line) returns (row: CohortRow)
    requires fp in FirstPurchases(orders, w, cal) && l in Lines(orders, items)
    requires l.order.customer == fp.customer && cal(l.order.purchase) - fp.cohort <= limit
    ensures row in CohortData(orders, items, w, cal, limit)
    ensures row.cohort == fp.cohort && row.monthNumber == cal(l.order.purchase) - fp.cohort
  {
    row := LineReachesOutput(FirstPurchases(orders, w, cal), Lines(orders, items), cal, limit, fp, l);
  }

  /** Customer 1's order at 50 joined with its item. */
  lemma ExampleEarlyLine() returns (l: Line)
    ensures l in Lines(ExampleOrders(), ExampleItems())
    ensures l.order.customer == 1 && l.order.purchase == 50
  {
    var orders := ExampleOrders();
    var items := ExampleItems();
    l := Line(orders[0], items[0]);
    assert orders[0] in orders && items[0] in items;
  }

  /** In the example the only first purchase is customer 1's order at 150. */
  lemma ExampleFirstPurchase(fps: seq<FirstPurchase>, orders: seq<Order>, w: Option<Window>) returns (fp: FirstPurchase)
    requires orders == ExampleOrders() && w == Some(Window(100, 199))
    requires fps == FirstPurchases(orders, w, ExampleCalendar)
    ensures fp in fps && fp == FirstPurchase(1, 150, 1)
  {
    assert orders[1] in orders && InWindow(orders[1].purchase, w);
    assert 1 in Members(fps);
    var i :| 0 <= i < |fps| && Members(fps)[i] == 1;
    fp := fps[i];
    assert IsFirstPurchase(WindowOrders(orders, w), fp, ExampleCalendar);
    assert forall o :: o in WindowOrders(orders, w) ==> o == orders[1];
  }

  /** Months of 100 seconds each, enough for the example. */
  function ExampleCalendar(ts: int): int
  {
    ts / 100
  }

  function ExampleOrders(): seq<Order>
  {
    [Order(10, 1, "", "", "delivered", 50, None, None),
     Order(11, 1, "", "", "delivered", 150, None, None)]
  }

  function ExampleItems(): seq<Item>
  {
    [Item(10, 20.0, 5.0), Item(11, 30.0, 5.0)]
  }

  // ---------------------------------------------------------------------
  // Month-0 retention
  // ---------------------------------------------------------------------

  /** Cohort members with an order that has items in the given month. */
  function ActiveMembers(fps: seq<FirstPurchase>, ls: seq<Line>, cal: Calendar, cohort: int, m: int): set<int>
  {
    set fp, l | fp in fps && fp.cohort == cohort && l in ls && l.order.customer == fp.customer
      && cal(l.order.purchase) - cohort == m :: fp.customer
  }

  /** COUNT(DISTINCT) of an offset group is exactly the set of cohort
      members with an item-bearing order at that offset. */
  lemma ActiveSetMeaning(fps: seq<FirstPurchase>, ls: seq<Line>, cal: Calendar, cohort: int, m: int)
    ensures ActiveSet(ActivityRows(fps, ls, cal), cohort, m) == ActiveMembers(fps, ls, cal, cohort, m)
  {
    forall c | c in ActiveSet(ActivityRows(fps, ls, cal), cohort, m) ensures c in ActiveMembers(fps, ls, cal, cohort, m) {
      ActiveIsMember(fps, ls, cal, cohort, m, c);
    }
    forall c | c in ActiveMembers(fps, ls, cal, cohort, m) ensures c in ActiveSet(ActivityRows(fps, ls, cal), cohort, m) {
      MemberIsActive(fps, ls, cal, cohort, m, c);
    }
  }

  lemma ActiveIsMember(fps: seq<FirstPurchase>, ls: seq<Line>, cal: Calendar, cohort: int, m: int, c: int)
    requires c in ActiveSet(ActivityRows(fps, ls, cal), cohort, m)
    ensures c in ActiveMembers(fps, ls, cal, cohort, m)
  {
    var acts := ActivityRows(fps, ls, cal);
    var a :| a in acts && a.cohort == cohort && a.monthNumber == m && a.customer == c;
    assert FromJoin(fps, ls, cal, a);
    var fp, l :| fp in fps && l in ls && Joins(fp, l, ActKeyOf(a));
    assert fp.customer == c;
  }

  lemma MemberIsActive(fps: seq<FirstPurchase>, ls: seq<Line>, cal: Calendar, cohort: int, m: int, c: int)
    requires c in ActiveMembers(fps, ls, cal, cohort, m)
    ensures c in ActiveSet(ActivityRows(fps, ls, cal), cohort, m)
  {
    var acts := ActivityRows(fps, ls, cal);
    var fp, l :| fp in fps && fp.cohort == cohort && l in ls && l.order.customer == fp.customer
      && cal(l.order.purchase) - cohort == m && fp.customer == c;
    var k := ActKey(fp.customer, fp.cohort, l.order.purchase);
    assert Joins(fp, l, k);
    assert k in JoinKeys(fps, ls);
    var a :| a in acts && ActKeyOf(a) == k;
    assert FromJoin(fps, ls, cal, a);
  }

  lemma ActiveMembersWithin(fps: seq<FirstPurchase>, ls: seq<Line>, cal: Calendar, cohort: int, m: int)
    ensures ActiveMembers(fps, ls, cal, cohort, m) <= CohortMembers(fps, cohort)
  {
    forall c | c in ActiveMembers(fps, ls, cal, cohort, m) ensures c in CohortMembers(fps, cohort) {
      var fp, l :| fp in fps && fp.cohort == cohort && l in ls && l.order.customer == fp.customer
        && cal(l.order.purchase) - cohort == m && fp.customer == c;
    }
  }

  /** Every cohort member has an item line in the cohort month. */
  predicate AllBuyInCohortMonth(fps: seq<FirstPurchase>, ls: seq<Line>, cal: Calendar, cohort: int)
  {
    forall fp :: fp in fps && fp.cohort == cohort ==>
      exists l :: l in ls && l.order.customer == fp.customer && cal(l.order.purchase) == cohort
  }

  lemma AllActiveIff(fps: seq<FirstPurchase>, ls: seq<Line>, cal: Calendar, cohort: int)
    ensures CohortMembers(fps, cohort) <= ActiveMembers(fps, ls, cal, cohort, 0) <==> AllBuyInCohortMonth(fps, ls, cal, cohort)
  {
    var members := CohortMembers(fps, cohort);
    var actives := ActiveMembers(fps, ls, cal, cohort, 0);
    if members <= actives {
      forall fp | fp in fps && fp.cohort == cohort
        ensures exists l :: l in ls && l.order.customer == fp.customer && cal(l.order.purchase) == cohort {
        assert fp.customer in actives;
        var fp', l :| fp' in fps && fp'.cohort == cohort && l in ls && l.order.customer == fp'.customer
          && cal(l.order.purchase) - cohort == 0 && fp'.customer == fp.customer;
        assert l.order.customer == fp.customer;
      }
    }
    if AllBuyInCohortMonth(fps, ls, cal, cohort) {
      forall c | c in members ensures c in actives {
        var fp :| fp in fps && fp.cohort == cohort && fp.customer == c;
        var l :| l in ls && l.order.customer == fp.customer && cal(l.order.purchase) == cohort;
      }
    }
  }

  /** Retention at month 0 is 100 exactly when every member of the cohort
      has an order with items in the cohort month; a member whose only
      cohort-month orders lack items leaves it below 100. */
  lemma MonthZeroRetention(fps: seq<FirstPurchase>, ls: seq<Line>, cal: Calendar, limit: int, row: CohortRow)
    requires row in CohortRowsOf(fps, ls, cal, limit)
    requires row.monthNumber == 0
    ensures row.retentionRate == 100.0 <==> AllBuyInCohortMonth(fps, ls, cal, row.cohort)
  {
    var members := CohortMembers(fps, row.cohort);
    var actives := ActiveMembers(fps, ls, cal, row.cohort, 0);
    ActiveSetMeaning(fps, ls, cal, row.cohort, 0);
    ActiveMembersWithin(fps, ls, cal, row.cohort, 0);
    AllActiveIff(fps, ls, cal, row.cohort);
    assert row.active == |actives| && row.originalSize == |members|;
    assert RowBounds(row, limit);
    RateIsFull(row.active, row.originalSize);
    FullIffSubset(actives, members);
  }

  lemma FullIffSubset<T>(actives: set<T>, members: set<T>)
    requires actives <= members
    ensures |actives| == |members| <==> members <= actives
  {
    if |actives| == |members| {
      SubsetEqualCard(actives, members);
    }
    if members <= actives {
      assert actives == members;
    }
  }

  lemma RateIsFull(active: nat, size: nat)
    requires 1 <= size
    ensures active as real / size as real * 100.0 == 100.0 <==> active == size
  {
  }
}
