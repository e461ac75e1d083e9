/**
 * Customer value metrics of the two customer pages: per-customer order
 * counts, spend and lifespan over delivered orders, average order value,
 * monthly purchase frequency, estimated annual value and its segment; the
 * per-segment summary, the purchase-frequency buckets, the per-state
 * geography and the page filters.
 */
module Customers {
  import opened Facts

  // ---------------------------------------------------------------------
  // The rows every customer query reads
  // ---------------------------------------------------------------------

  function IsDelivered(o: Order): bool
  {
    o.status == "delivered"
  }

  /** `orders JOIN order_items JOIN customers WHERE order_status =
      'delivered'`, inside the purchase-date filter when one is set. */
  function DeliveredLines(orders: seq<Order>, items: seq<Item>, w: Option<Window>): (ls: seq<Line>)
    ensures forall l :: l in ls <==>
      l in Lines(orders, items) && IsDelivered(l.order) && InWindow(l.order.purchase, w)
  {
    Where(Lines(orders, items), (l: Line) => IsDelivered(l.order) && InWindow(l.order.purchase, w))
  }

  /** `orders JOIN customers WHERE order_status = 'delivered'`: the
      frequency query does not join the items. */
  function DeliveredOrders(orders: seq<Order>, w: Option<Window>): (os: seq<Order>)
    ensures forall o :: o in os <==> o in orders && IsDelivered(o) && InWindow(o.purchase, w)
  {
    Where(orders, (o: Order) => IsDelivered(o) && InWindow(o.purchase, w))
  }

  /** What a customer query needs of one joined row. */
  datatype Purchase = Purchase(order: int, customer: int, at: int)

  function OfLines(ls: seq<Line>): (ps: seq<Purchase>)
    ensures |ps| == |ls|
    ensures forall i :: 0 <= i < |ls| ==> ps[i] == Purchase(ls[i].order.id, ls[i].order.customer, ls[i].order.purchase)
  {
    seq(|ls|, i requires 0 <= i < |ls| => Purchase(ls[i].order.id, ls[i].order.customer, ls[i].order.purchase))
  }

  function OfOrders(os: seq<Order>): (ps: seq<Purchase>)
    ensures |ps| == |os|
    ensures forall i :: 0 <= i < |os| ==> ps[i] == Purchase(os[i].id, os[i].customer, os[i].purchase)
  {
    seq(|os|, i requires 0 <= i < |os| => Purchase(os[i].id, os[i].customer, os[i].purchase))
  }

  // ---------------------------------------------------------------------
  // customer_orders: GROUP BY customer_unique_id
  // ---------------------------------------------------------------------

  /** GREATEST(1, (MAX - MIN) in days). */
  function LifespanDays(first: int, last: int): (d: real)
    ensures d >= 1.0 && d >= (last - first) as real / 86400.0
    ensures d == 1.0 || d == (last - first) as real / 86400.0
  {
    var days := (last - first) as real / 86400.0;
    if days > 1.0 then days else 1.0
  }

  function Buyers(ps: seq<Purchase>): set<int>
  {
    set p | p in ps :: p.customer
  }

  /** COUNT(DISTINCT order_id) of a customer. */
  function OrdersOf(ps: seq<Purchase>, c: int): set<int>
  {
    set p | p in ps && p.customer == c :: p.order
  }

  function CustomerIds(ps: seq<Purchase>): (cs: seq<int>)
    ensures NoDup(cs)
    ensures forall c :: c in cs <==> c in Buyers(ps)
    ensures |cs| == |Buyers(ps)|
  {
    var all := seq(|ps|, i requires 0 <= i < |ps| => ps[i].customer);
    var cs := DistinctKeys(all);
    assert forall c :: c in cs <==> c in Buyers(ps) by {
      forall c ensures c in cs <==> c in Buyers(ps) {
        if c in Buyers(ps) {
          var p :| p in ps && p.customer == c;
          var i :| 0 <= i < |ps| && ps[i] == p;
          assert all[i] == c;
        }
      }
    }
    assert (set c | c in cs) == Buyers(ps);
    SetOfSeqCard(cs);
    cs
  }

  /** The span of one customer's purchases. */
  datatype Span = Span(orderCount: nat, first: int, last: int, lifespan: real)

  predicate IsSpanOf(ps: seq<Purchase>, c: int, s: Span)
  {
    && s.orderCount == |OrdersOf(ps, c)|
    && s.orderCount >= 1
    && s.first <= s.last
    && (forall p :: p in ps && p.customer == c ==> s.first <= p.at <= s.last)
    && (exists p :: p in ps && p.customer == c && p.at == s.first)
    && (exists p :: p in ps && p.customer == c && p.at == s.last)
    && s.lifespan == LifespanDays(s.first, s.last)
  }

  function TimesOf(ps: seq<Purchase>): (ts: seq<int>)
    ensures |ts| == |ps|
    ensures forall i :: 0 <= i < |ps| ==> ts[i] == ps[i].at
  {
    seq(|ps|, i requires 0 <= i < |ps| => ps[i].at)
  }

  function SpanOf(ps: seq<Purchase>, c: int): (s: Span)
    requires c in Buyers(ps)
    ensures IsSpanOf(ps, c, s)
  {
    var g := Where(ps, (p: Purchase) => p.customer == c);
    var p0 :| p0 in ps && p0.customer == c;
    assert p0 in g;
    var ts := TimesOf(g);
    assert |ts| > 0;
    var first := MinOf(ts);
    var last := MaxOf(ts);
    assert p0.order in OrdersOf(ps, c);
    forall p | p in ps && p.customer == c ensures first <= p.at <= last {
      assert p in g;
      var i :| 0 <= i < |g| && g[i] == p;
      assert ts[i] == p.at && ts[i] in ts;
    }
    assert exists p :: p in ps && p.customer == c && p.at == first by {
      var i :| 0 <= i < |ts| && ts[i] == first;
      assert g[i] in g;
    }
    assert exists p :: p in ps && p.customer == c && p.at == last by {
      var i :| 0 <= i < |ts| && ts[i] == last;
      assert g[i] in g;
    }
    Span(|OrdersOf(ps, c)|, first, last, LifespanDays(first, last))
  }

  // ---------------------------------------------------------------------
  // customer_value: average order value, frequency, annual value
  // ---------------------------------------------------------------------

  datatype ValueSegment = Premium | HighValue | MediumValue | Standard

  /** The CASE on estimated_annual_value: strict lower cutoffs, first
      match wins. */
  function SegmentOf(annual: real): (s: ValueSegment)
    ensures s == Premium <==> annual > 500.0
    ensures s == HighValue <==> 200.0 < annual <= 500.0
    ensures s == MediumValue <==> 100.0 < annual <= 200.0
    ensures s == Standard <==> annual <= 100.0
  {
    if annual > 500.0 then Premium
    else if annual > 200.0 then HighValue
    else if annual > 100.0 then MediumValue
    else Standard
  }

  function Rank(s: ValueSegment): nat
  {
    match s
    case Standard => 0
    case MediumValue => 1
    case HighValue => 2
    case Premium => 3
  }

  /** A higher annual value never gets a lower segment. */
  lemma SegmentMonotone(a: real, b: real)
    requires a <= b
    ensures Rank(SegmentOf(a)) <= Rank(SegmentOf(b))
  {
  }

  /** The cutoffs themselves belong to the segment below. */
  lemma CutoffsBelongBelow()
    ensures SegmentOf(500.0) == HighValue && SegmentOf(200.0) == MediumValue && SegmentOf(100.0) == Standard
  {
  }

  /** One output row of `load_customer_lifetime_value`, before the
      numeric(10,2) casts. */
  datatype CustomerValue = CustomerValue(
    customer: int,
    orderCount: nat,
    totalSpend: real,
    first: int,
    last: int,
    lifespan: real,
    averageOrderValue: real,
    frequency: real,
    annualValue: real,
    segment: ValueSegment)

  /** customer_value for one customer_orders row. NULLIF(order_count, 0)
      never fires: the WHERE order_count > 0 keeps only rows that have
      orders, and GREATEST keeps the lifespan at one day or more. */
  function ValueOf(customer: int, spend: real, s: Span): (v: CustomerValue)
    requires s.orderCount > 0 && s.lifespan >= 1.0
    ensures v.customer == customer && v.totalSpend == spend
    ensures SpanOfValue(v) == s
    ensures ValueFormulas(v)
  {
    var n := s.orderCount as real;
    var aov := spend / n;
    var freq := if s.orderCount <= 1 then 1.0 else n / (s.lifespan / 30.0);
    var annual := if s.orderCount <= 1 then spend else aov * freq * 12.0;
    assert s.orderCount > 1 ==> freq * s.lifespan == n * 30.0 && annual * s.lifespan == spend * 360.0 by {
      if s.orderCount > 1 {
        AnnualValueIdentity(spend, n, s.lifespan);
      }
    }
    CustomerValue(customer, s.orderCount, spend, s.first, s.last, s.lifespan, aov, freq, annual, SegmentOf(annual))
  }

  function SpanOfValue(v: CustomerValue): Span
  {
    Span(v.orderCount, v.first, v.last, v.lifespan)
  }

  /** How a customer_value row's derived columns relate to its counts:
      AOV times orders is the spend; a single order counts as one order a
      month and its spend as the annual value; otherwise the frequency is
      orders per 30 days of lifespan and the annual value is the spend
      scaled to 360 days. */
  predicate ValueFormulas(v: CustomerValue)
  {
    && v.averageOrderValue * v.orderCount as real == v.totalSpend
    && (v.orderCount == 1 ==> v.frequency == 1.0 && v.annualValue == v.totalSpend)
    && (v.orderCount > 1 ==>
          v.frequency * v.lifespan == v.orderCount as real * 30.0
          && v.annualValue * v.lifespan == v.totalSpend * 360.0)
    && v.segment == SegmentOf(v.annualValue)
  }

  /** (spend / n) * (n / (L / 30)) * 12 is spend * 360 / L. */
  lemma AnnualValueIdentity(spend: real, n: real, l: real)
    requires n > 0.0 && l >= 1.0
    ensures (n / (l / 30.0)) * l == n * 30.0
    ensures (spend / n) * (n / (l / 30.0)) * 12.0 * l == spend * 360.0
  {
    var f := n / (l / 30.0);
    assert f == n * 30.0 / l;
    assert f * l == n * 30.0;
    var a := spend / n;
    assert a * n == spend;
    calc {
      a * f * 12.0 * l;
      == a * (f * l) * 12.0;
      == a * (n * 30.0) * 12.0;
      == (a * n) * 360.0;
      == spend * 360.0;
    }
  }

  // ---------------------------------------------------------------------
  // load_customer_lifetime_value
  // ---------------------------------------------------------------------

  function LinePrices(ls: seq<Line>): seq<real>
  {
    seq(|ls|, i requires 0 <= i < |ls| => ls[i].item.price)
  }

  /** SUM(oi.price) of a customer. */
  function SpendOf(ls: seq<Line>, c: int): real
  {
    Sum(LinePrices(Where(ls, (l: Line) => l.order.customer == c)))
  }

  /** One customer_value row per customer of the joined rows, in the order
      of their first appearance. */
  function ValueRows(ls: seq<Line>, cs: seq<int>): (vs: seq<CustomerValue>)
    requires forall c :: c in cs ==> c in Buyers(OfLines(ls))
    ensures |vs| == |cs|
    ensures forall i :: 0 <= i < |cs| ==> vs[i].customer == cs[i]
    ensures forall v :: v in vs ==> Measures(ls, v) && v.orderCount > 0
  {
    if cs == [] then []
    else [ValueFor(ls, cs[0])] + ValueRows(ls, cs[1..])
  }

  function ValueFor(ls: seq<Line>, c: int): (v: CustomerValue)
    requires c in Buyers(OfLines(ls))
    ensures v.customer == c && Measures(ls, v) && v.orderCount > 0
  {
    ValueOf(c, SpendOf(ls, c), SpanOf(OfLines(ls), c))
  }

  /** What a customer_value row states about the customer's joined rows. */
  predicate Measures(ls: seq<Line>, v: CustomerValue)
  {
    && v.customer in Buyers(OfLines(ls))
    && IsSpanOf(OfLines(ls), v.customer, SpanOfValue(v))
    && v.totalSpend == SpendOf(ls, v.customer)
    && ValueFormulas(v)
  }

  function AnnualKey(v: CustomerValue): real
  {
    v.annualValue
  }

  /** `load_customer_lifetime_value(start, end)`: one row per customer with
      delivered, itemised orders in the window, highest annual value first. */
  function CustomerLifetimeValue(orders: seq<Order>, items: seq<Item>, w: Option<Window>): (vs: seq<CustomerValue>)
    ensures SortedDesc(vs, AnnualKey)
    ensures |vs| == |Buyers(OfLines(DeliveredLines(orders, items, w)))|
    ensures forall v :: v in vs ==> Measures(DeliveredLines(orders, items, w), v)
  {
    var ls := DeliveredLines(orders, items, w);
    var rows := ValueRows(ls, CustomerIds(OfLines(ls)));
    var kept := Where(rows, (v: CustomerValue) => v.orderCount > 0);
    WhereAll(rows, (v: CustomerValue) => v.orderCount > 0);
    SortDescMembers(kept, AnnualKey);
    SortDesc(kept, AnnualKey)
  }

  /** Every customer with a delivered, itemised order in the window has a row. */
  lemma EveryBuyerValued(orders: seq<Order>, items: seq<Item>, w: Option<Window>, c: int)
    requires c in Buyers(OfLines(DeliveredLines(orders, items, w)))
    ensures exists v :: v in CustomerLifetimeValue(orders, items, w) && v.customer == c
  {
    var ls := DeliveredLines(orders, items, w);
    var cs := CustomerIds(OfLines(ls));
    var rows := ValueRows(ls, cs);
    var kept := Where(rows, (v: CustomerValue) => v.orderCount > 0);
    WhereAll(rows, (v: CustomerValue) => v.orderCount > 0);
    SortDescMembers(kept, AnnualKey);
    var i :| 0 <= i < |cs| && cs[i] == c;
    assert rows[i] in rows && rows[i] in CustomerLifetimeValue(orders, items, w);
  }

  // ---------------------------------------------------------------------
  // load_customer_segments_summary
  // ---------------------------------------------------------------------

  /** One output row, before ROUND. */
  datatype SegmentRow = SegmentRow(
    segment: ValueSegment,
    customerCount: nat,
    avgOrders: real,
    avgTotalSpend: real,
    avgLifespanDays: real,
    avgOrderValue: real,
    avgPurchaseFrequency: real,
    avgAnnualValue: real,
    totalAnnualValue: real)

  function SegmentsOf(vs: seq<CustomerValue>): seq<ValueSegment>
  {
    seq(|vs|, i requires 0 <= i < |vs| => vs[i].segment)
  }

  function InSegment(vs: seq<CustomerValue>, s: ValueSegment): seq<CustomerValue>
  {
    Where(vs, (v: CustomerValue) => v.segment == s)
  }

  function Annuals(vs: seq<CustomerValue>): seq<real>
  {
    seq(|vs|, i requires 0 <= i < |vs| => vs[i].annualValue)
  }

  function OrderCounts(vs: seq<CustomerValue>): seq<real>
  {
    seq(|vs|, i requires 0 <= i < |vs| => vs[i].orderCount as real)
  }

  function Spends(vs: seq<CustomerValue>): seq<real>
  {
    seq(|vs|, i requires 0 <= i < |vs| => vs[i].totalSpend)
  }

  function Lifespans(vs: seq<CustomerValue>): seq<real>
  {
    seq(|vs|, i requires 0 <= i < |vs| => vs[i].lifespan)
  }

  function OrderValues(vs: seq<CustomerValue>): seq<real>
  {
    seq(|vs|, i requires 0 <= i < |vs| => vs[i].averageOrderValue)
  }

  function Frequencies(vs: seq<CustomerValue>): seq<real>
  {
    seq(|vs|, i requires 0 <= i < |vs| => vs[i].frequency)
  }

  /** Every row carries the label its annual value gets. */
  predicate Labelled(vs: seq<CustomerValue>)
  {
    forall v :: v in vs ==> v.segment == SegmentOf(v.annualValue)
  }

  lemma {:induction false} InSegmentCount(vs: seq<CustomerValue>, s: ValueSegment)
    ensures |InSegment(vs, s)| == Count(SegmentsOf(vs), s)
  {
    if vs != [] {
      InSegmentCount(vs[1..], s);
      assert SegmentsOf(vs)[1..] == SegmentsOf(vs[1..]);
    }
  }

  /** The average of annual values of one segment falls in that segment:
      each segment is an interval of annual values. */
  lemma MeanInSegment(xs: seq<real>, s: ValueSegment)
    requires |xs| > 0
    requires forall i :: 0 <= i < |xs| ==> SegmentOf(xs[i]) == s
    ensures SegmentOf(Mean(xs)) == s
  {
    match s
    case Premium =>
      MeanAbove(xs, 500.0);
    case HighValue =>
      MeanAbove(xs, 200.0);
      MeanAtMost(xs, 500.0);
    case MediumValue =>
      MeanAbove(xs, 100.0);
      MeanAtMost(xs, 200.0);
    case Standard =>
      MeanAtMost(xs, 100.0);
  }

  /** What one summary row reports about the customer_value rows. */
  predicate Summarises(vs: seq<CustomerValue>, row: SegmentRow)
  {
    && row.customerCount == Count(SegmentsOf(vs), row.segment)
    && row.customerCount >= 1
    && row.totalAnnualValue == Sum(Annuals(InSegment(vs, row.segment)))
    && Avg(OrderCounts(InSegment(vs, row.segment))) == Some(row.avgOrders)
    && Avg(Spends(InSegment(vs, row.segment))) == Some(row.avgTotalSpend)
    && Avg(Lifespans(InSegment(vs, row.segment))) == Some(row.avgLifespanDays)
    && Avg(OrderValues(InSegment(vs, row.segment))) == Some(row.avgOrderValue)
    && Avg(Frequencies(InSegment(vs, row.segment))) == Some(row.avgPurchaseFrequency)
    && Avg(Annuals(InSegment(vs, row.segment))) == Some(row.avgAnnualValue)
    && SegmentOf(row.avgAnnualValue) == row.segment
  }

  /** The mean annual value times the number of rows is their total. */
  lemma AnnualMean(g: seq<CustomerValue>)
    requires g != []
    ensures Mean(Annuals(g)) * |g| as real == Sum(Annuals(g))
  {
    var xs := Annuals(g);
    assert |xs| == |g|;
    MeanTimesCount(xs);
  }

  function SegmentRowOf(vs: seq<CustomerValue>, s: ValueSegment): (row: SegmentRow)
    requires Labelled(vs) && s in SegmentsOf(vs)
    ensures row.segment == s
    ensures row.customerCount == Count(SegmentsOf(vs), s) && row.customerCount >= 1
    ensures row.totalAnnualValue == Sum(Annuals(InSegment(vs, s)))
    ensures Avg(OrderCounts(InSegment(vs, s))) == Some(row.avgOrders)
    ensures Avg(Spends(InSegment(vs, s))) == Some(row.avgTotalSpend)
    ensures Avg(Lifespans(InSegment(vs, s))) == Some(row.avgLifespanDays)
    ensures Avg(OrderValues(InSegment(vs, s))) == Some(row.avgOrderValue)
    ensures Avg(Frequencies(InSegment(vs, s))) == Some(row.avgPurchaseFrequency)
    ensures Avg(Annuals(InSegment(vs, s))) == Some(row.avgAnnualValue)
    ensures SegmentOf(row.avgAnnualValue) == s
  {
    var g := InSegment(vs, s);
    InSegmentCount(vs, s);
    CountPositive(SegmentsOf(vs), s);
    var xs := Annuals(g);
    assert forall i :: 0 <= i < |xs| ==> SegmentOf(xs[i]) == s by {
      forall i | 0 <= i < |xs| ensures SegmentOf(xs[i]) == s {
        assert g[i] in g;
      }
    }
    MeanInSegment(xs, s);
    SegmentRow(s, |g|, Mean(OrderCounts(g)), Mean(Spends(g)), Mean(Lifespans(g)),
               Mean(OrderValues(g)), Mean(Frequencies(g)), Mean(xs), Sum(xs))
  }

  function SegmentRows(keys: seq<ValueSegment>, vs: seq<CustomerValue>): (rows: seq<SegmentRow>)
    requires Labelled(vs)
    requires forall s :: s in keys ==> s in SegmentsOf(vs)
    ensures |rows| == |keys|
    ensures forall i :: 0 <= i < |keys| ==> rows[i].segment == keys[i] && Summarises(vs, rows[i])
    ensures SumOf(rows, (x: SegmentRow) => x.customerCount) == GroupSizes(keys, SegmentsOf(vs))
  {
    if keys == [] then []
    else [SegmentRowOf(vs, keys[0])] + SegmentRows(keys[1..], vs)
  }

  function AvgAnnualKey(x: SegmentRow): real
  {
    x.avgAnnualValue
  }

  predicate DistinctSegments(rows: seq<SegmentRow>)
  {
    forall i, j :: 0 <= i < j < |rows| ==> rows[i].segment != rows[j].segment
  }

  lemma DistinctSegmentsPermuted(a: seq<SegmentRow>, b: seq<SegmentRow>)
    requires DistinctSegments(a) && multiset(a) == multiset(b)
    ensures DistinctSegments(b)
  {
    NoDupPermutation(a, b);
    forall i, j | 0 <= i < j < |b| ensures b[i].segment != b[j].segment {
      assert b[i] in multiset(a) && b[j] in multiset(a);
      var p :| 0 <= p < |a| && a[p] == b[i];
      var q :| 0 <= q < |a| && a[q] == b[j];
      assert p != q;
    }
  }

  /** GROUP BY customer_segment, before ORDER BY. */
  function GroupedSegments(vs: seq<CustomerValue>): (rows: seq<SegmentRow>)
    requires Labelled(vs)
    ensures SumOf(rows, (x: SegmentRow) => x.customerCount) == |vs|
    ensures forall s :: s in SegmentsOf(vs) <==> exists row :: row in rows && row.segment == s
    ensures forall row :: row in rows ==> Summarises(vs, row)
    ensures DistinctSegments(rows)
  {
    var keys := DistinctKeys(SegmentsOf(vs));
    var rows := SegmentRows(keys, vs);
    GroupSizesTotal(keys, SegmentsOf(vs));
    KeyedRows(keys, vs, rows);
    rows
  }

  lemma KeyedRows(keys: seq<ValueSegment>, vs: seq<CustomerValue>, rows: seq<SegmentRow>)
    requires NoDup(keys) && forall s :: s in keys <==> s in SegmentsOf(vs)
    requires |rows| == |keys|
    requires forall i :: 0 <= i < |keys| ==> rows[i].segment == keys[i] && Summarises(vs, rows[i])
    ensures forall s :: s in SegmentsOf(vs) <==> exists row :: row in rows && row.segment == s
    ensures forall row :: row in rows ==> Summarises(vs, row)
    ensures DistinctSegments(rows)
  {
    forall s | s in SegmentsOf(vs) ensures exists row :: row in rows && row.segment == s {
      var i :| 0 <= i < |keys| && keys[i] == s;
      assert rows[i] in rows;
    }
    forall row | row in rows ensures Summarises(vs, row) && row.segment in SegmentsOf(vs) {
      var i :| 0 <= i < |rows| && rows[i] == row;
    }
    forall i, j | 0 <= i < j < |rows| ensures rows[i].segment != rows[j].segment {
      assert rows[i].segment == keys[i] && rows[j].segment == keys[j];
    }
  }

  /** `load_customer_segments_summary`: one row per segment present,
      ordered by average annual value; the counts add up to the customers
      and, since every segment is an interval, the rows come out from
      Premium down to Standard. */
  function SegmentSummary(vs: seq<CustomerValue>): (rows: seq<SegmentRow>)
    requires Labelled(vs)
    ensures SortedDesc(rows, AvgAnnualKey)
    ensures SumOf(rows, (x: SegmentRow) => x.customerCount) == |vs|
    ensures forall s :: s in SegmentsOf(vs) <==> exists row :: row in rows && row.segment == s
    ensures forall row :: row in rows ==> Summarises(vs, row)
    ensures forall i, j :: 0 <= i < j < |rows| ==> Rank(rows[i].segment) > Rank(rows[j].segment)
  {
    var rows := GroupedSegments(vs);
    var sorted := SortDesc(rows, AvgAnnualKey);
    SumOfSort(rows, AvgAnnualKey, (x: SegmentRow) => x.customerCount);
    SortDescMembers(rows, AvgAnnualKey);
    DistinctSegmentsPermuted(rows, sorted);
    RankOrder(vs, sorted);
    sorted
  }

  lemma RankOrder(vs: seq<CustomerValue>, rows: seq<SegmentRow>)
    requires SortedDesc(rows, AvgAnnualKey) && DistinctSegments(rows)
    requires forall row :: row in rows ==> Summarises(vs, row)
    ensures forall i, j :: 0 <= i < j < |rows| ==> Rank(rows[i].segment) > Rank(rows[j].segment)
  {
    forall i, j | 0 <= i < j < |rows| ensures Rank(rows[i].segment) > Rank(rows[j].segment) {
      assert rows[i] in rows && rows[j] in rows;
      SegmentMonotone(rows[j].avgAnnualValue, rows[i].avgAnnualValue);
    }
  }

  /** The summary is computed from the same customer_value rows as the
      per-customer table. */
  function CustomerSegmentsSummary(orders: seq<Order>, items: seq<Item>, w: Option<Window>): (rows: seq<SegmentRow>)
    ensures SumOf(rows, (x: SegmentRow) => x.customerCount) == |Buyers(OfLines(DeliveredLines(orders, items, w)))|
    ensures forall row :: row in rows ==> Summarises(CustomerLifetimeValue(orders, items, w), row)
    ensures forall i, j :: 0 <= i < j < |rows| ==> Rank(rows[i].segment) > Rank(rows[j].segment)
  {
    var vs := CustomerLifetimeValue(orders, items, w);
    assert Labelled(vs) by {
      forall v | v in vs ensures v.segment == SegmentOf(v.annualValue) {
        assert Measures(DeliveredLines(orders, items, w), v);
      }
    }
    SegmentSummary(vs)
  }

  // ---------------------------------------------------------------------
  // load_customer_geography
  // ---------------------------------------------------------------------

  /** The GROUP BY key of customer_locations: a customer who bought from
      two addresses forms two groups. */
  datatype Location = Location(customer: int, city: string, state: string)

  function LocationOf(l: Line): Location
  {
    Location(l.order.customer, l.order.city, l.order.state)
  }

  function LocationsOf(ls: seq<Line>): seq<Location>
  {
    seq(|ls|, i requires 0 <= i < |ls| => LocationOf(ls[i]))
  }

  function LinesAt(ls: seq<Line>, loc: Location): seq<Line>
  {
    Where(ls, (l: Line) => LocationOf(l) == loc)
  }

  /** One customer_locations row. */
  datatype LocationRow = LocationRow(loc: Location, orderCount: nat, totalSpend: real, avgOrderValue: real)

  predicate Locates(ls: seq<Line>, r: LocationRow)
  {
    && r.loc in LocationsOf(ls)
    && r.orderCount == |set l | l in LinesAt(ls, r.loc) :: l.order.id|
    && r.orderCount >= 1
    && r.totalSpend == Sum(LinePrices(LinesAt(ls, r.loc)))
    && r.avgOrderValue * r.orderCount as real == r.totalSpend
  }

  function LocationRowOf(ls: seq<Line>, loc: Location): (r: LocationRow)
    requires loc in LocationsOf(ls)
    ensures r.loc == loc && Locates(ls, r)
  {
    var g := LinesAt(ls, loc);
    var i :| 0 <= i < |ls| && LocationsOf(ls)[i] == loc;
    assert ls[i] in g;
    var ids := set l | l in g :: l.order.id;
    assert ls[i].order.id in ids;
    var spend := Sum(LinePrices(g));
    LocationRow(loc, |ids|, spend, spend / |ids| as real)
  }

  /** customer_locations: one row per distinct location, in any order. */
  function CustomerLocations(ls: seq<Line>): (rs: seq<LocationRow>)
    ensures forall r :: r in rs ==> Locates(ls, r)
    ensures forall loc :: loc in LocationsOf(ls) <==> exists r :: r in rs && r.loc == loc
    ensures |rs| == |set loc | loc in LocationsOf(ls)|
  {
    var keys := DistinctKeys(LocationsOf(ls));
    var rs := seq(|keys|, i requires 0 <= i < |keys| => LocationRowOf(ls, keys[i]));
    assert forall loc :: loc in LocationsOf(ls) ==> exists r :: r in rs && r.loc == loc by {
      forall loc | loc in LocationsOf(ls) ensures exists r :: r in rs && r.loc == loc {
        var i :| 0 <= i < |keys| && keys[i] == loc;
        assert rs[i] in rs;
      }
    }
    assert (set k | k in keys) == (set loc | loc in LocationsOf(ls));
    SetOfSeqCard(keys);
    rs
  }

  /** One output row, before ROUND. */
  datatype StateRow = StateRow(
    state: string,
    customerCount: nat,
    avgOrders: real,
    avgTotalSpend: real,
    avgOrderValue: real,
    totalStateSpend: real)

  function StatesOf(rs: seq<LocationRow>): seq<string>
  {
    seq(|rs|, i requires 0 <= i < |rs| => rs[i].loc.state)
  }

  function InState(rs: seq<LocationRow>, st: string): seq<LocationRow>
  {
    Where(rs, (r: LocationRow) => r.loc.state == st)
  }

  function LocationOrders(rs: seq<LocationRow>): seq<real>
  {
    seq(|rs|, i requires 0 <= i < |rs| => rs[i].orderCount as real)
  }

  function LocationSpends(rs: seq<LocationRow>): seq<real>
  {
    seq(|rs|, i requires 0 <= i < |rs| => rs[i].totalSpend)
  }

  function LocationOrderValues(rs: seq<LocationRow>): seq<real>
  {
    seq(|rs|, i requires 0 <= i < |rs| => rs[i].avgOrderValue)
  }

  lemma {:induction false} InStateCount(rs: seq<LocationRow>, st: string)
    ensures |InState(rs, st)| == Count(StatesOf(rs), st)
  {
    if rs != [] {
      InStateCount(rs[1..], st);
      assert StatesOf(rs)[1..] == StatesOf(rs[1..]);
    }
  }

  /** What one state row reports about the customer_locations rows. */
  predicate Aggregates(rs: seq<LocationRow>, row: StateRow)
  {
    && row.customerCount == Count(StatesOf(rs), row.state)
    && row.customerCount >= 1
    && row.totalStateSpend == Sum(LocationSpends(InState(rs, row.state)))
    && Avg(LocationOrders(InState(rs, row.state))) == Some(row.avgOrders)
    && Avg(LocationSpends(InState(rs, row.state))) == Some(row.avgTotalSpend)
    && Avg(LocationOrderValues(InState(rs, row.state))) == Some(row.avgOrderValue)
    && row.avgOrders >= 1.0
  }

  /** The state's mean spend times its customer count is its total spend. */
  lemma StateMeanSpend(g: seq<LocationRow>)
    requires g != []
    ensures Mean(LocationSpends(g)) * |g| as real == Sum(LocationSpends(g))
  {
    var xs := LocationSpends(g);
    assert |xs| == |g|;
    MeanTimesCount(xs);
  }

  function StateRowOf(rs: seq<LocationRow>, st: string): (row: StateRow)
    requires forall r :: r in rs ==> r.orderCount >= 1
    requires st in StatesOf(rs)
    ensures row.state == st && Aggregates(rs, row)
  {
    var g := InState(rs, st);
    InStateCount(rs, st);
    CountPositive(StatesOf(rs), st);
    var os := LocationOrders(g);
    assert forall i :: 0 <= i < |os| ==> 1.0 <= os[i] by {
      forall i | 0 <= i < |os| ensures 1.0 <= os[i] {
        assert g[i] in g;
      }
    }
    MeanAtLeast(os, 1.0);
    var total := Sum(LocationSpends(g));
    StateRow(st, |g|, Mean(os), Mean(LocationSpends(g)), Mean(LocationOrderValues(g)), total)
  }

  function StateRows(keys: seq<string>, rs: seq<LocationRow>): (rows: seq<StateRow>)
    requires forall r :: r in rs ==> r.orderCount >= 1
    requires forall st :: st in keys ==> st in StatesOf(rs)
    ensures |rows| == |keys|
    ensures forall i :: 0 <= i < |keys| ==> rows[i].state == keys[i] && Aggregates(rs, rows[i])
    ensures SumOf(rows, (x: StateRow) => x.customerCount) == GroupSizes(keys, StatesOf(rs))
  {
    if keys == [] then []
    else [StateRowOf(rs, keys[0])] + StateRows(keys[1..], rs)
  }

  predicate DistinctStates(rows: seq<StateRow>)
  {
    forall i, j :: 0 <= i < j < |rows| ==> rows[i].state != rows[j].state
  }

  lemma DistinctStatesPermuted(a: seq<StateRow>, b: seq<StateRow>)
    requires DistinctStates(a) && multiset(a) == multiset(b)
    ensures DistinctStates(b)
  {
    NoDupPermutation(a, b);
    forall i, j | 0 <= i < j < |b| ensures b[i].state != b[j].state {
      assert b[i] in multiset(a) && b[j] in multiset(a);
      var p :| 0 <= p < |a| && a[p] == b[i];
      var q :| 0 <= q < |a| && a[q] == b[j];
      assert p != q;
    }
  }

  /** GROUP BY customer_state, before ORDER BY. */
  function GroupedStates(rs: seq<LocationRow>): (rows: seq<StateRow>)
    requires forall r :: r in rs ==> r.orderCount >= 1
    ensures SumOf(rows, (x: StateRow) => x.customerCount) == |rs|
    ensures forall st :: st in StatesOf(rs) <==> exists row :: row in rows && row.state == st
    ensures forall row :: row in rows ==> Aggregates(rs, row)
    ensures DistinctStates(rows)
  {
    var keys := DistinctKeys(StatesOf(rs));
    var rows := StateRows(keys, rs);
    GroupSizesTotal(keys, StatesOf(rs));
    KeyedStateRows(keys, rs, rows);
    rows
  }

  lemma KeyedStateRows(keys: seq<string>, rs: seq<LocationRow>, rows: seq<StateRow>)
    requires NoDup(keys) && forall st :: st in keys <==> st in StatesOf(rs)
    requires |rows| == |keys|
    requires forall i :: 0 <= i < |keys| ==> rows[i].state == keys[i] && Aggregates(rs, rows[i])
    ensures forall st :: st in StatesOf(rs) <==> exists row :: row in rows && row.state == st
    ensures forall row :: row in rows ==> Aggregates(rs, row)
    ensures DistinctStates(rows)
  {
    forall st | st in StatesOf(rs) ensures exists row :: row in rows && row.state == st {
      var i :| 0 <= i < |keys| && keys[i] == st;
      assert rows[i] in rows;
    }
    forall row | row in rows ensures Aggregates(rs, row) && row.state in StatesOf(rs) {
      var i :| 0 <= i < |rows| && rows[i] == row;
    }
    forall i, j | 0 <= i < j < |rows| ensures rows[i].state != rows[j].state {
      assert rows[i].state == keys[i] && rows[j].state == keys[j];
    }
  }

  function StateSpendKey(x: StateRow): real
  {
    x.totalStateSpend
  }

  /** `load_customer_geography(start, end)`: one row per state a delivered
      purchase in the window was shipped to, ordered by the state's spend;
      the customer counts add up to the number of (customer, city, state)
      groups, so a customer seen at two addresses is counted twice. */
  function CustomerGeography(orders: seq<Order>, items: seq<Item>, w: Option<Window>): (rows: seq<StateRow>)
    ensures SortedDesc(rows, StateSpendKey)
    ensures DistinctStates(rows)
    ensures SumOf(rows, (x: StateRow) => x.customerCount) ==
      |set loc | loc in LocationsOf(DeliveredLines(orders, items, w))|
    ensures forall st :: HasState(rows, st) <==> ShippedTo(DeliveredLines(orders, items, w), st)
    ensures forall row :: row in rows ==> Aggregates(CustomerLocations(DeliveredLines(orders, items, w)), row)
  {
    var ls := DeliveredLines(orders, items, w);
    var rs := CustomerLocations(ls);
    StatesReached(ls, rs);
    StatesRanked(rs)
  }

  /** ORDER BY total_state_spend DESC over the state groups. */
  function StatesRanked(rs: seq<LocationRow>): (rows: seq<StateRow>)
    requires forall r :: r in rs ==> r.orderCount >= 1
    ensures SortedDesc(rows, StateSpendKey)
    ensures DistinctStates(rows)
    ensures SumOf(rows, (x: StateRow) => x.customerCount) == |rs|
    ensures forall st :: st in StatesOf(rs) <==> HasState(rows, st)
    ensures forall row :: row in rows ==> Aggregates(rs, row)
  {
    var grouped := GroupedStates(rs);
    var sorted := SortDesc(grouped, StateSpendKey);
    SumOfSort(grouped, StateSpendKey, (x: StateRow) => x.customerCount);
    SortDescMembers(grouped, StateSpendKey);
    DistinctStatesPermuted(grouped, sorted);
    assert forall st :: HasState(sorted, st) <==> HasState(grouped, st);
    sorted
  }

  /** Some row is the state's. */
  predicate HasState(rows: seq<StateRow>, st: string)
  {
    exists row :: row in rows && row.state == st
  }

  /** Some line was shipped to the state. */
  predicate ShippedTo(ls: seq<Line>, st: string)
  {
    exists l :: l in ls && l.order.state == st
  }

  /** A state has a location row exactly when some line was shipped there. */
  lemma StatesReached(ls: seq<Line>, rs: seq<LocationRow>)
    requires forall r :: r in rs ==> Locates(ls, r)
    requires forall loc :: loc in LocationsOf(ls) <==> exists r :: r in rs && r.loc == loc
    ensures forall st :: ShippedTo(ls, st) <==> st in StatesOf(rs)
  {
    forall st ensures ShippedTo(ls, st) <==> st in StatesOf(rs) {
      if l :| l in ls && l.order.state == st {
        var i :| 0 <= i < |ls| && ls[i] == l;
        assert LocationsOf(ls)[i] == LocationOf(l);
        assert LocationOf(l) in LocationsOf(ls);
        var r :| r in rs && r.loc == LocationOf(l);
        var k :| 0 <= k < |rs| && rs[k] == r;
        assert StatesOf(rs)[k] == st;
      }
      if st in StatesOf(rs) {
        var k :| 0 <= k < |rs| && StatesOf(rs)[k] == st;
        assert rs[k] in rs;
        var i :| 0 <= i < |ls| && LocationsOf(ls)[i] == rs[k].loc;
        assert ls[i] in ls && ls[i].order.state == st;
      }
    }
  }

  // ---------------------------------------------------------------------
  // load_customer_purchase_frequency
  // ---------------------------------------------------------------------

  datatype FrequencyBucket = OneTime | TwoToThree | FourToSix | SevenPlus

  /** The CASE on order_count. */
  function BucketOf(n: int): (b: FrequencyBucket)
    ensures n >= 1 ==>
      && (b == OneTime <==> n == 1)
      && (b == TwoToThree <==> 2 <= n <= 3)
      && (b == FourToSix <==> 4 <= n <= 6)
      && (b == SevenPlus <==> n >= 7)
  {
    if n == 1 then OneTime
    else if 2 <= n <= 3 then TwoToThree
    else if 4 <= n <= 6 then FourToSix
    else SevenPlus
  }

  /** The ORDER BY CASE on the bucket label. */
  function Position(b: FrequencyBucket): nat
  {
    match b
    case OneTime => 1
    case TwoToThree => 2
    case FourToSix => 3
    case SevenPlus => 4
  }

  /** More orders never fall into an earlier bucket. */
  lemma BucketsFollowCounts(a: int, b: int)
    requires 1 <= a <= b
    ensures Position(BucketOf(a)) <= Position(BucketOf(b))
  {
  }

  datatype CustomerSpan = CustomerSpan(customer: int, span: Span)

  function SpansOf(ps: seq<Purchase>, cs: seq<int>): (r: seq<CustomerSpan>)
    requires forall c :: c in cs ==> c in Buyers(ps)
    ensures |r| == |cs|
    ensures forall i :: 0 <= i < |cs| ==> r[i].customer == cs[i] && IsSpanOf(ps, cs[i], r[i].span)
  {
    seq(|cs|, i requires 0 <= i < |cs| => CustomerSpan(cs[i], SpanOf(ps, cs[i])))
  }

  function BucketsOf(xs: seq<CustomerSpan>): seq<FrequencyBucket>
  {
    seq(|xs|, i requires 0 <= i < |xs| => BucketOf(xs[i].span.orderCount))
  }

  function InBucket(xs: seq<CustomerSpan>, b: FrequencyBucket): seq<CustomerSpan>
  {
    Where(xs, (x: CustomerSpan) => BucketOf(x.span.orderCount) == b)
  }

  function SpanLifespans(xs: seq<CustomerSpan>): seq<real>
  {
    seq(|xs|, i requires 0 <= i < |xs| => xs[i].span.lifespan)
  }

  lemma {:induction false} InBucketCount(xs: seq<CustomerSpan>, b: FrequencyBucket)
    ensures |InBucket(xs, b)| == Count(BucketsOf(xs), b)
  {
    if xs != [] {
      InBucketCount(xs[1..], b);
      assert BucketsOf(xs)[1..] == BucketsOf(xs[1..]);
    }
  }

  datatype FrequencyRow = FrequencyRow(bucket: FrequencyBucket, customerCount: nat, avgLifespanDays: real)

  /** Every customer of the population has a lifespan of a day or more. */
  predicate LongLived(xs: seq<CustomerSpan>)
  {
    forall x :: x in xs ==> x.span.lifespan >= 1.0
  }

  predicate Tallies(xs: seq<CustomerSpan>, row: FrequencyRow)
  {
    && row.customerCount == Count(BucketsOf(xs), row.bucket)
    && row.customerCount >= 1
    && Avg(SpanLifespans(InBucket(xs, row.bucket))) == Some(row.avgLifespanDays)
    && row.avgLifespanDays >= 1.0
  }

  function FrequencyRowOf(xs: seq<CustomerSpan>, b: FrequencyBucket): (row: FrequencyRow)
    requires LongLived(xs) && b in BucketsOf(xs)
    ensures row.bucket == b && Tallies(xs, row)
  {
    var g := InBucket(xs, b);
    InBucketCount(xs, b);
    CountPositive(BucketsOf(xs), b);
    var ds := SpanLifespans(g);
    assert forall i :: 0 <= i < |ds| ==> 1.0 <= ds[i] by {
      forall i | 0 <= i < |ds| ensures 1.0 <= ds[i] {
        assert g[i] in g;
      }
    }
    MeanAtLeast(ds, 1.0);
    FrequencyRow(b, |g|, Mean(ds))
  }

  predicate Ascending(bs: seq<FrequencyBucket>)
  {
    forall i, j :: 0 <= i < j < |bs| ==> Position(bs[i]) < Position(bs[j])
  }

  /** The GROUP BY rows of the buckets in `bs`, in that order; a bucket no
      customer falls in yields no row. */
  function FrequencyRows(bs: seq<FrequencyBucket>, xs: seq<CustomerSpan>): (rows: seq<FrequencyRow>)
    requires LongLived(xs)
    ensures forall row :: row in rows ==> row.bucket in bs && Tallies(xs, row)
  {
    if bs == [] then []
    else
      var rest := FrequencyRows(bs[1..], xs);
      assert forall row :: row in rest ==> row.bucket in bs;
      if bs[0] in BucketsOf(xs) then [FrequencyRowOf(xs, bs[0])] + rest else rest
  }

  predicate HasRow(rows: seq<FrequencyRow>, b: FrequencyBucket)
  {
    exists row :: row in rows && row.bucket == b
  }

  /** Every bucket some customer falls in has its row. */
  lemma {:induction false} FrequencyRowsCover(bs: seq<FrequencyBucket>, xs: seq<CustomerSpan>, b: FrequencyBucket)
    requires LongLived(xs) && b in bs && b in BucketsOf(xs)
    ensures HasRow(FrequencyRows(bs, xs), b)
  {
    var rows := FrequencyRows(bs, xs);
    if b == bs[0] {
      assert rows[0] in rows && rows[0].bucket == b;
    } else {
      assert b in bs[1..];
      FrequencyRowsCover(bs[1..], xs, b);
      var row :| row in FrequencyRows(bs[1..], xs) && row.bucket == b;
      assert row in rows;
    }
  }

  predicate RowsAscending(rows: seq<FrequencyRow>)
  {
    forall i, j :: 0 <= i < j < |rows| ==> Position(rows[i].bucket) < Position(rows[j].bucket)
  }

  /** The rows come in the order of the buckets. */
  lemma {:induction false} FrequencyRowsOrdered(bs: seq<FrequencyBucket>, xs: seq<CustomerSpan>)
    requires LongLived(xs) && Ascending(bs)
    ensures RowsAscending(FrequencyRows(bs, xs))
  {
    if bs != [] {
      assert Ascending(bs[1..]) by {
        assert forall i :: 0 <= i < |bs[1..]| ==> bs[1..][i] == bs[i + 1];
      }
      FrequencyRowsOrdered(bs[1..], xs);
      var rest := FrequencyRows(bs[1..], xs);
      if bs[0] in BucketsOf(xs) {
        var first := FrequencyRowOf(xs, bs[0]);
        forall row | row in rest ensures Position(first.bucket) < Position(row.bucket) {
          RestAfterFirst(bs, xs, row);
        }
        ConsAscending(first, rest);
      }
    }
  }

  lemma ConsAscending(first: FrequencyRow, rest: seq<FrequencyRow>)
    requires RowsAscending(rest)
    requires forall row :: row in rest ==> Position(first.bucket) < Position(row.bucket)
    ensures RowsAscending([first] + rest)
  {
    var rows := [first] + rest;
    forall i, j | 0 <= i < j < |rows| ensures Position(rows[i].bucket) < Position(rows[j].bucket) {
      assert rows[j] == rest[j - 1];
      if i > 0 {
        assert rows[i] == rest[i - 1];
      } else {
        assert rest[j - 1] in rest;
      }
    }
  }

  lemma RestAfterFirst(bs: seq<FrequencyBucket>, xs: seq<CustomerSpan>, row: FrequencyRow)
    requires LongLived(xs) && Ascending(bs) && bs != []
    requires row in FrequencyRows(bs[1..], xs)
    ensures Position(bs[0]) < Position(row.bucket)
  {
    var k :| 0 <= k < |bs[1..]| && bs[1..][k] == row.bucket;
    assert bs[k + 1] == row.bucket;
  }

  /** The rows count every customer whose bucket is among `bs`. */
  lemma {:induction false} FrequencyRowsTotal(bs: seq<FrequencyBucket>, xs: seq<CustomerSpan>)
    requires LongLived(xs)
    ensures SumOf(FrequencyRows(bs, xs), (r: FrequencyRow) => r.customerCount) == GroupSizes(bs, BucketsOf(xs))
  {
    if bs != [] {
      FrequencyRowsTotal(bs[1..], xs);
      if bs[0] !in BucketsOf(xs) {
        CountAbsent(BucketsOf(xs), bs[0]);
      }
    }
  }

  /** The CASE's buckets, in their ORDER BY order. */
  const FrequencyBuckets: seq<FrequencyBucket> := [OneTime, TwoToThree, FourToSix, SevenPlus]

  /** Every bucket is listed once, in ascending position. */
  lemma FrequencyBucketsListed()
    ensures Ascending(FrequencyBuckets) && NoDup(FrequencyBuckets)
    ensures forall b: FrequencyBucket :: b in FrequencyBuckets
  {
    forall b: FrequencyBucket ensures b in FrequencyBuckets {
      assert FrequencyBuckets[Position(b) - 1] == b;
    }
  }

  /** The delivered orders of the window (items are not joined). */
  function FrequencyPurchases(orders: seq<Order>, w: Option<Window>): seq<Purchase>
  {
    OfOrders(DeliveredOrders(orders, w))
  }

  /** One span per customer of those orders. */
  function FrequencySpans(orders: seq<Order>, w: Option<Window>): (xs: seq<CustomerSpan>)
    ensures LongLived(xs)
  {
    var ps := FrequencyPurchases(orders, w);
    var cs := CustomerIds(ps);
    SpansLongLived(ps, cs);
    SpansOf(ps, cs)
  }

  lemma SpansLongLived(ps: seq<Purchase>, cs: seq<int>)
    requires forall c :: c in cs ==> c in Buyers(ps)
    ensures LongLived(SpansOf(ps, cs))
  {
    var xs := SpansOf(ps, cs);
    forall x | x in xs ensures x.span.lifespan >= 1.0 {
      var i :| 0 <= i < |xs| && xs[i] == x;
    }
  }

  /** `load_customer_purchase_frequency(start, end)`: the customers with a
      delivered order in the window, counted per bucket, in bucket order. */
  function PurchaseFrequency(orders: seq<Order>, w: Option<Window>): (rows: seq<FrequencyRow>)
    ensures RowsAscending(rows)
    ensures forall row :: row in rows ==> row.customerCount >= 1 && row.avgLifespanDays >= 1.0
    ensures forall row :: row in rows ==> Tallies(FrequencySpans(orders, w), row)
  {
    FrequencyBucketsListed();
    FrequencyRowsOrdered(FrequencyBuckets, FrequencySpans(orders, w));
    FrequencyRows(FrequencyBuckets, FrequencySpans(orders, w))
  }

  /** The rows add up to all customers with a delivered order in the window. */
  lemma PurchaseFrequencyTotal(orders: seq<Order>, w: Option<Window>)
    ensures SumOf(PurchaseFrequency(orders, w), (r: FrequencyRow) => r.customerCount)
      == |Buyers(FrequencyPurchases(orders, w))|
  {
    var ps := FrequencyPurchases(orders, w);
    var xs := FrequencySpans(orders, w);
    FrequencyRowsTotal(FrequencyBuckets, xs);
    FrequencyBucketsListed();
    GroupSizesTotal(FrequencyBuckets, BucketsOf(xs));
    assert |BucketsOf(xs)| == |CustomerIds(ps)| == |Buyers(ps)|;
  }

  /** Each row counts exactly the customers whose number of delivered
      orders falls in its bucket. */
  lemma PurchaseFrequencyCounts(orders: seq<Order>, w: Option<Window>, row: FrequencyRow)
    requires row in PurchaseFrequency(orders, w)
    ensures row.customerCount == |set c | c in Buyers(FrequencyPurchases(orders, w)) &&
      BucketOf(|OrdersOf(FrequencyPurchases(orders, w), c)|) == row.bucket|
  {
    var ps := FrequencyPurchases(orders, w);
    var cs := CustomerIds(ps);
    BucketMembers(ps, cs, FrequencySpans(orders, w), row.bucket);
  }

  /** The number of spans in a bucket is the number of buyers whose order
      count falls in it. */
  lemma BucketMembers(ps: seq<Purchase>, cs: seq<int>, xs: seq<CustomerSpan>, b: FrequencyBucket)
    requires NoDup(cs) && forall c :: c in cs <==> c in Buyers(ps)
    requires |xs| == |cs|
    requires forall i :: 0 <= i < |cs| ==> xs[i].customer == cs[i] && IsSpanOf(ps, cs[i], xs[i].span)
    ensures Count(BucketsOf(xs), b) == |set c | c in Buyers(ps) && BucketOf(|OrdersOf(ps, c)|) == b|
  {
    var chosen := set c | c in Buyers(ps) && BucketOf(|OrdersOf(ps, c)|) == b;
    var sel := Where(cs, (c: int) => BucketOf(|OrdersOf(ps, c)|) == b);
    DistinctWhere(cs, (c: int) => BucketOf(|OrdersOf(ps, c)|) == b);
    SetOfSeqCard(sel);
    SelectedBuyers(ps, cs, sel, b);
    CountMatches(ps, cs, xs, b);
  }

  lemma SelectedBuyers(ps: seq<Purchase>, cs: seq<int>, sel: seq<int>, b: FrequencyBucket)
    requires forall c :: c in cs <==> c in Buyers(ps)
    requires forall c :: c in sel <==> c in cs && BucketOf(|OrdersOf(ps, c)|) == b
    ensures (set c | c in sel) == (set c | c in Buyers(ps) && BucketOf(|OrdersOf(ps, c)|) == b)
  {
    var lhs := set c | c in sel;
    var rhs := set c | c in Buyers(ps) && BucketOf(|OrdersOf(ps, c)|) == b;
    forall c ensures c in lhs <==> c in rhs {
    }
  }

  lemma {:induction false} CountMatches(ps: seq<Purchase>, cs: seq<int>, xs: seq<CustomerSpan>, b: FrequencyBucket)
    requires |xs| == |cs|
    requires forall i :: 0 <= i < |cs| ==> xs[i].span.orderCount == |OrdersOf(ps, cs[i])|
    ensures Count(BucketsOf(xs), b) == |Where(cs, (c: int) => BucketOf(|OrdersOf(ps, c)|) == b)|
  {
    if cs != [] {
      assert forall i :: 0 <= i < |cs[1..]| ==> cs[1..][i] == cs[i + 1] && xs[1..][i] == xs[i + 1];
      CountMatches(ps, cs[1..], xs[1..], b);
      assert BucketsOf(xs)[1..] == BucketsOf(xs[1..]);
    }
  }

  // ---------------------------------------------------------------------
  // The page's filters and headline metrics
  // ---------------------------------------------------------------------

  /** The multiselect's options, all selected by default. */
  const AllSegments: seq<ValueSegment> := [Premium, HighValue, MediumValue, Standard]

  /** An empty selection applies no segment filter. */
  predicate Selected(selected: seq<ValueSegment>, s: ValueSegment)
  {
    |selected| == 0 || s in selected
  }

  /** The segment `isin` filter, then `order_count >= min_orders`. */
  function FilterCustomers(vs: seq<CustomerValue>, selected: seq<ValueSegment>, minOrders: int): (out: seq<CustomerValue>)
    ensures forall v :: v in out <==> v in vs && Selected(selected, v.segment) && v.orderCount >= minOrders
    ensures |out| <= |vs|
    ensures SortedDesc(vs, AnnualKey) ==> SortedDesc(out, AnnualKey)
  {
    var bySegment := if |selected| > 0 then Where(vs, (v: CustomerValue) => v.segment in selected) else vs;
    var out := Where(bySegment, (v: CustomerValue) => v.orderCount >= minOrders);
    assert SortedDesc(vs, AnnualKey) ==> SortedDesc(out, AnnualKey) by {
      if SortedDesc(vs, AnnualKey) {
        if |selected| > 0 {
          WhereSorted(vs, (v: CustomerValue) => v.segment in selected, AnnualKey);
        }
        WhereSorted(bySegment, (v: CustomerValue) => v.orderCount >= minOrders, AnnualKey);
      }
    }
    out
  }

  /** Every row of customer_value has a label and at least one order. */
  predicate Shaped(vs: seq<CustomerValue>)
  {
    Labelled(vs) && forall v :: v in vs ==> v.orderCount >= 1
  }

  lemma LifetimeValueShaped(orders: seq<Order>, items: seq<Item>, w: Option<Window>)
    ensures Shaped(CustomerLifetimeValue(orders, items, w))
  {
    var ls := DeliveredLines(orders, items, w);
    var vs := CustomerLifetimeValue(orders, items, w);
    forall v | v in vs ensures v.segment == SegmentOf(v.annualValue) && v.orderCount >= 1 {
      assert Measures(ls, v);
    }
  }

  /** With the widgets at their defaults the table is shown whole. */
  lemma DefaultFiltersKeepAll(vs: seq<CustomerValue>)
    requires Shaped(vs)
    ensures FilterCustomers(vs, AllSegments, 1) == vs
  {
    var all := (v: CustomerValue) => v.segment in AllSegments;
    var many := (v: CustomerValue) => v.orderCount >= 1;
    assert forall v: CustomerValue :: v.segment in AllSegments by {
      forall v: CustomerValue ensures v.segment in AllSegments {
        assert AllSegments[3 - Rank(v.segment)] == v.segment;
      }
    }
    WhereAll(vs, all);
    WhereAll(vs, many);
  }

  /** The four metric cards, shown only for a non-empty table. */
  datatype CustomerMetrics = CustomerMetrics(customers: nat, avgSpend: real, avgFrequency: real, avgAnnualValue: real)

  function MetricsOf(vs: seq<CustomerValue>): (m: Option<CustomerMetrics>)
    ensures m.Some? <==> |vs| > 0
    ensures m.Some? ==> m.value.customers == |vs|
    ensures m.Some? ==> m.value.avgSpend * |vs| as real == Sum(Spends(vs))
    ensures m.Some? ==> m.value.avgFrequency * |vs| as real == Sum(Frequencies(vs))
    ensures m.Some? ==> m.value.avgAnnualValue * |vs| as real == Sum(Annuals(vs))
  {
    if vs == [] then None
    else Some(CustomerMetrics(|vs|, Mean(Spends(vs)), Mean(Frequencies(vs)), Mean(Annuals(vs))))
  }

  /** Narrowing the table to one segment shows an average annual value
      inside that segment's range. */
  lemma OneSegmentAverage(vs: seq<CustomerValue>, s: ValueSegment, minOrders: int)
    requires Shaped(vs)
    requires FilterCustomers(vs, [s], minOrders) != []
    ensures var m := MetricsOf(FilterCustomers(vs, [s], minOrders));
      m.Some? && SegmentOf(m.value.avgAnnualValue) == s
  {
    var out := FilterCustomers(vs, [s], minOrders);
    var xs := Annuals(out);
    forall i | 0 <= i < |xs| ensures SegmentOf(xs[i]) == s {
      assert out[i] in out;
    }
    MeanInSegment(xs, s);
  }

  /** The same `isin` filter on the summary rows. */
  function FilterSummary(rows: seq<SegmentRow>, selected: seq<ValueSegment>): (out: seq<SegmentRow>)
    ensures forall row :: row in out <==> row in rows && Selected(selected, row.segment)
    ensures SortedDesc(rows, AvgAnnualKey) ==> SortedDesc(out, AvgAnnualKey)
  {
    if |selected| > 0 then
      var out := Where(rows, (row: SegmentRow) => row.segment in selected);
      assert SortedDesc(rows, AvgAnnualKey) ==> SortedDesc(out, AvgAnnualKey) by {
        if SortedDesc(rows, AvgAnnualKey) {
          WhereSorted(rows, (row: SegmentRow) => row.segment in selected, AvgAnnualKey);
        }
      }
      out
    else rows
  }
}
