/**
 * Seller performance ranking of the sellers page: the per-seller metrics
 * over the order-detail view, PERCENT_RANK on three axes among sellers
 * with at least five orders, the category ladder, the page filters, the
 * category distribution table and the per-state aggregation.
 */
module Sellers {
  import opened Facts

  /** One row of vw_order_details: an order item with its seller, product
      category, delivery time in days, review score and on-time flag. */
  datatype Detail = Detail(
    seller: Option<int>,
    order: int,
    product: int,
    category: Option<string>,
    price: real,
    deliveryDays: Option<real>,
    review: Option<int>,
    onTime: Option<bool>,
    purchase: int)

  // ---------------------------------------------------------------------
  // seller_metrics
  // ---------------------------------------------------------------------

  /** WHERE seller_id IS NOT NULL {date_filter}. */
  function SellerDetails(ds: seq<Detail>, w: Option<Window>): (r: seq<Detail>)
    ensures forall d :: d in r <==> d in ds && d.seller.Some? && InWindow(d.purchase, w)
  {
    Where(ds, (d: Detail) => d.seller.Some? && InWindow(d.purchase, w))
  }

  /** The rows of one seller's group. */
  function OfSeller(ds: seq<Detail>, s: int): seq<Detail>
  {
    Where(ds, (d: Detail) => d.seller == Some(s))
  }

  function SellerKey(d: Detail): int
  {
    if d.seller.Some? then d.seller.value else 0
  }

  function SellerSet(ds: seq<Detail>): set<int>
  {
    set d | d in ds && d.seller.Some? :: d.seller.value
  }

  /** The GROUP BY seller_id keys, each once. */
  function SellerIds(ds: seq<Detail>): (ids: seq<int>)
    requires forall d :: d in ds ==> d.seller.Some?
    ensures NoDup(ids)
    ensures forall s :: s in ids <==> s in SellerSet(ds)
  {
    var all := seq(|ds|, i requires 0 <= i < |ds| => SellerKey(ds[i]));
    var ids := DistinctKeys(all);
    assert forall s :: s in ids <==> s in SellerSet(ds) by {
      forall s ensures s in ids <==> s in SellerSet(ds) {
        if s in SellerSet(ds) {
          var d :| d in ds && d.seller == Some(s);
          var i :| 0 <= i < |ds| && ds[i] == d;
          assert all[i] == s;
        }
        if s in ids {
          var i :| 0 <= i < |ds| && all[i] == s;
          assert ds[i] in ds;
        }
      }
    }
    ids
  }

  function OrderIds(g: seq<Detail>): set<int>
  {
    set d | d in g :: d.order
  }

  function ProductIds(g: seq<Detail>): set<int>
  {
    set d | d in g :: d.product
  }

  /** COUNT(DISTINCT product_category_name_english) skips NULL. */
  function CategoryNames(g: seq<Detail>): set<string>
  {
    set d | d in g && d.category.Some? :: d.category.value
  }

  function Prices(g: seq<Detail>): seq<real>
  {
    seq(|g|, i requires 0 <= i < |g| => g[i].price)
  }

  /** The non-NULL delivery times, which AVG averages. */
  function DeliveryDays(g: seq<Detail>): seq<real>
  {
    if g == [] then []
    else (if g[0].deliveryDays.Some? then [g[0].deliveryDays.value] else []) + DeliveryDays(g[1..])
  }

  /** The non-NULL review scores. */
  function Scores(g: seq<Detail>): seq<int>
  {
    if g == [] then []
    else (if g[0].review.Some? then [g[0].review.value] else []) + Scores(g[1..])
  }

  function AsReals(xs: seq<int>): seq<real>
  {
    seq(|xs|, i requires 0 <= i < |xs| => xs[i] as real)
  }

  /** COUNT(CASE WHEN delivered_on_time THEN 1 END): NULL counts as not on time. */
  function OnTimeCount(g: seq<Detail>): nat
  {
    |Where(g, (d: Detail) => d.onTime == Some(true))|
  }

  function PositiveCount(scores: seq<int>): nat
  {
    |Where(scores, (x: int) => x >= 4)|
  }

  function NegativeCount(scores: seq<int>): nat
  {
    |Where(scores, (x: int) => x <= 2)|
  }

  /** k / NULLIF(n, 0) * 100. */
  function Percentage(k: nat, n: nat): (r: Option<real>)
    ensures r.Some? <==> n > 0
    ensures r.Some? && k <= n ==> 0.0 <= r.value <= 100.0
  {
    if n == 0 then None else Some(k as real / n as real * 100.0)
  }

  /** Two shares of disjoint subsets of the same rows add up to 100 or less. */
  lemma PercentagesOfDisjoint(a: nat, b: nat, n: nat)
    requires a + b <= n && n > 0
    ensures Percentage(a, n).value + Percentage(b, n).value <= 100.0
  {
    var x := a as real / n as real;
    var y := b as real / n as real;
    assert x + y == (a + b) as real / n as real;
    assert (a + b) as real / n as real <= 1.0;
  }

  /** One seller_metrics row. */
  datatype SellerMetrics = SellerMetrics(
    seller: int,
    totalOrders: nat,
    uniqueProducts: nat,
    productCategories: nat,
    totalRevenue: real,
    averagePrice: real,
    avgDeliveryTime: Option<real>,
    avgReview: Option<real>,
    onTimePercentage: real,
    positivePercentage: Option<real>,
    negativePercentage: Option<real>)

  /** The rates of a metrics row lie where percentages of its rows must. */
  predicate RatesWithin(m: SellerMetrics)
  {
    && 0.0 <= m.onTimePercentage <= 100.0
    && (m.positivePercentage.Some? <==> m.negativePercentage.Some?)
    && (m.positivePercentage.Some? ==>
          && 0.0 <= m.positivePercentage.value <= 100.0
          && 0.0 <= m.negativePercentage.value <= 100.0
          && m.positivePercentage.value + m.negativePercentage.value <= 100.0)
  }

  /** The aggregates of one seller's group of rows. */
  function MetricsOf(g: seq<Detail>, s: int): (m: SellerMetrics)
    requires g != []
    ensures m.seller == s
  {
    var scores := Scores(g);
    SellerMetrics(s, |OrderIds(g)|, |ProductIds(g)|, |CategoryNames(g)|,
                  Sum(Prices(g)), Mean(Prices(g)), Avg(DeliveryDays(g)), Avg(AsReals(scores)),
                  Percentage(OnTimeCount(g), |g|).value,
                  Percentage(PositiveCount(scores), |scores|),
                  Percentage(NegativeCount(scores), |scores|))
  }

  /** What the aggregates of a seller's rows state: the order count is at
      least one, the shares are the percentages of rows on time and of
      positive and negative reviews among the reviewed rows, and together
      they lie within 0..100. */
  lemma MetricsMeaning(g: seq<Detail>, s: int)
    requires g != []
    ensures var m := MetricsOf(g, s);
      && m.totalOrders == |OrderIds(g)| && m.totalOrders >= 1
      && m.totalRevenue == Sum(Prices(g)) && m.averagePrice == Mean(Prices(g))
      && Percentage(OnTimeCount(g), |g|) == Some(m.onTimePercentage)
      && (m.avgReview.Some? <==> |Scores(g)| > 0)
      && m.positivePercentage == Percentage(PositiveCount(Scores(g)), |Scores(g)|)
      && m.negativePercentage == Percentage(NegativeCount(Scores(g)), |Scores(g)|)
      && RatesWithin(m)
  {
    assert g[0] in g;
    assert g[0].order in OrderIds(g);
    var scores := Scores(g);
    WhereDisjoint(scores, (x: int) => x >= 4, (x: int) => x <= 2);
    if |scores| > 0 {
      PercentagesOfDisjoint(PositiveCount(scores), NegativeCount(scores), |scores|);
    }
  }

  /** The average price times the number of rows is the revenue. */
  lemma AveragePrice(g: seq<Detail>)
    requires g != []
    ensures Mean(Prices(g)) * |g| as real == Sum(Prices(g))
  {
    var prices := Prices(g);
    assert |prices| == |g|;
    MeanTimesCount(prices);
  }

  /** The row of a seller is the metrics of that seller's rows. */
  predicate SellerRow(ds: seq<Detail>, m: SellerMetrics)
  {
    OfSeller(ds, m.seller) != [] && m == MetricsOf(OfSeller(ds, m.seller), m.seller)
  }

  /** The metrics of the sellers `ids`, in that order. */
  function TableOf(ds: seq<Detail>, ids: seq<int>): (t: seq<SellerMetrics>)
    requires forall s :: s in ids ==> OfSeller(ds, s) != []
    ensures |t| == |ids|
    ensures forall i :: 0 <= i < |ids| ==> t[i].seller == ids[i] && t[i] == MetricsOf(OfSeller(ds, ids[i]), ids[i])
  {
    seq(|ids|, i requires 0 <= i < |ids| => MetricsOf(OfSeller(ds, ids[i]), ids[i]))
  }

  /** A row per key, in key order, gives each key exactly one row. */
  lemma KeyedOnce(ids: seq<int>, keys: set<int>, table: seq<SellerMetrics>)
    requires NoDup(ids) && forall s :: s in ids <==> s in keys
    requires |table| == |ids| && forall i :: 0 <= i < |ids| ==> table[i].seller == ids[i]
    ensures forall s :: s in keys <==> exists m :: m in table && m.seller == s
    ensures forall i, j :: 0 <= i < j < |table| ==> table[i].seller != table[j].seller
  {
    forall s | s in keys ensures exists m :: m in table && m.seller == s {
      var i :| 0 <= i < |ids| && ids[i] == s;
      assert table[i] in table;
    }
    forall m | m in table ensures m.seller in keys {
      var i :| 0 <= i < |table| && table[i] == m;
      assert ids[i] in ids;
    }
  }

  /** seller_metrics: one row per seller of the (filtered) rows. */
  function SellerTable(ds: seq<Detail>): (table: seq<SellerMetrics>)
    requires forall d :: d in ds ==> d.seller.Some?
    ensures forall s :: s in SellerSet(ds) <==> exists m :: m in table && m.seller == s
    ensures forall i, j :: 0 <= i < j < |table| ==> table[i].seller != table[j].seller
    ensures forall m :: m in table ==> SellerRow(ds, m)
  {
    var ids := SellerIds(ds);
    SellersHaveRows(ds, ids);
    var table := TableOf(ds, ids);
    KeyedOnce(ids, SellerSet(ds), table);
    RowsOfTable(ds, ids, table);
    table
  }

  lemma SellersHaveRows(ds: seq<Detail>, ids: seq<int>)
    requires forall s :: s in ids ==> s in SellerSet(ds)
    ensures forall s :: s in ids ==> OfSeller(ds, s) != []
  {
    forall s | s in ids ensures OfSeller(ds, s) != [] {
      var d :| d in ds && d.seller == Some(s);
      assert d in OfSeller(ds, s);
    }
  }

  lemma RowsOfTable(ds: seq<Detail>, ids: seq<int>, table: seq<SellerMetrics>)
    requires forall s :: s in ids ==> OfSeller(ds, s) != []
    requires |table| == |ids|
    requires forall i :: 0 <= i < |ids| ==> table[i].seller == ids[i] && table[i] == MetricsOf(OfSeller(ds, ids[i]), ids[i])
    ensures forall m :: m in table ==> SellerRow(ds, m)
  {
    forall m | m in table ensures SellerRow(ds, m) {
      var i :| 0 <= i < |table| && table[i] == m;
      assert m.seller == ids[i];
    }
  }

  // ---------------------------------------------------------------------
  // PERCENT_RANK() OVER (ORDER BY x DESC)
  // ---------------------------------------------------------------------

  /** `a` sorts strictly before `b` under ORDER BY ... DESC, where
      PostgreSQL places NULL first. */
  predicate Ahead(a: Option<real>, b: Option<real>)
  {
    (a.None? && b.Some?) || (a.Some? && b.Some? && a.value > b.value)
  }

  /** rank - 1: the rows sorting strictly before `v`. */
  function AheadOf(col: seq<Option<real>>, v: Option<real>): seq<Option<real>>
  {
    Where(col, (a: Option<real>) => Ahead(a, v))
  }

  /** (rank - 1) / (rows - 1), and 0 for a single row. Tied values share
      their rank, so the result depends on the value alone. */
  function PercentRank(col: seq<Option<real>>, v: Option<real>): real
  {
    if |col| <= 1 then 0.0 else |AheadOf(col, v)| as real / (|col| - 1) as real
  }

  /** A value never sorts before itself, so at most the other rows do. */
  lemma AheadBound(col: seq<Option<real>>, v: Option<real>)
    requires v in col
    ensures |AheadOf(col, v)| <= |col| - 1
  {
    WhereMonotone(col, (a: Option<real>) => Ahead(a, v), (a: Option<real>) => true);
    WhereAll(col, (a: Option<real>) => true);
  }

  lemma PercentRankRange(col: seq<Option<real>>, v: Option<real>)
    requires v in col
    ensures 0.0 <= PercentRank(col, v) <= 1.0
  {
    if |col| > 1 {
      AheadBound(col, v);
      RatioBounds(|AheadOf(col, v)|, |col| - 1);
    }
  }

  /** The rank is 0 exactly for a value nothing sorts before. */
  lemma PercentRankZero(col: seq<Option<real>>, v: Option<real>)
    ensures PercentRank(col, v) == 0.0 <==> |col| <= 1 || forall a :: a in col ==> !Ahead(a, v)
  {
    if |col| > 1 {
      if forall a :: a in col ==> !Ahead(a, v) {
        WhereNone(col, (a: Option<real>) => Ahead(a, v));
      } else {
        var a :| a in col && Ahead(a, v);
        assert a in AheadOf(col, v);
      }
    }
  }

  lemma AheadTransitive(x: Option<real>, a: Option<real>, b: Option<real>)
    requires Ahead(x, a) && Ahead(a, b)
    ensures Ahead(x, b)
  {
  }

  /** Lower means better: a value sorting before another gets a strictly
      smaller rank. */
  lemma PercentRankOrder(col: seq<Option<real>>, a: Option<real>, b: Option<real>)
    requires a in col && b in col && Ahead(a, b)
    ensures PercentRank(col, a) < PercentRank(col, b)
  {
    forall x | x in col && Ahead(x, a) ensures Ahead(x, b) {
      AheadTransitive(x, a, b);
    }
    assert !Ahead(a, a);
    WhereMonotone(col, (x: Option<real>) => Ahead(x, a), (x: Option<real>) => Ahead(x, b));
    var na := |AheadOf(col, a)|;
    var nb := |AheadOf(col, b)|;
    assert na < nb;
    AheadBound(col, b);
    assert |col| > 1;
    DivideMonotone(na as real, nb as real, (|col| - 1) as real);
  }

  lemma DivideMonotone(x: real, y: real, n: real)
    requires x < y && n > 0.0
    ensures x / n < y / n
  {
  }

  // ---------------------------------------------------------------------
  // The category ladder
  // ---------------------------------------------------------------------

  datatype Performance = Elite | HighPerformer | Good | Average | NeedsImprovement

  function Max3(a: real, b: real, c: real): real
  {
    if a >= b && a >= c then a else if b >= c then b else c
  }

  /** The CASE over the three fractions; each rung asks all three to be
      under its threshold, so only the largest of them decides. */
  function CategoryOf(r: real, v: real, d: real): (c: Performance)
    ensures c == Elite <==> Max3(r, v, d) <= 0.2
    ensures c == HighPerformer <==> 0.2 < Max3(r, v, d) <= 0.4
    ensures c == Good <==> 0.4 < Max3(r, v, d) <= 0.6
    ensures c == Average <==> 0.6 < Max3(r, v, d) <= 0.8
    ensures c == NeedsImprovement <==> 0.8 < Max3(r, v, d)
  {
    if r <= 0.2 && v <= 0.2 && d <= 0.2 then Elite
    else if r <= 0.4 && v <= 0.4 && d <= 0.4 then HighPerformer
    else if r <= 0.6 && v <= 0.6 && d <= 0.6 then Good
    else if r <= 0.8 && v <= 0.8 && d <= 0.8 then Average
    else NeedsImprovement
  }

  /** Position in the fixed category order of the page. */
  function Tier(c: Performance): nat
  {
    match c
    case Elite => 0
    case HighPerformer => 1
    case Good => 2
    case Average => 3
    case NeedsImprovement => 4
  }

  /** A seller better on every axis never lands in a worse category. */
  lemma CategoryMonotone(r: real, v: real, d: real, r': real, v': real, d': real)
    requires r <= r' && v <= v' && d <= d'
    ensures Tier(CategoryOf(r, v, d)) <= Tier(CategoryOf(r', v', d'))
  {
  }

  // ---------------------------------------------------------------------
  // seller_rankings and the final SELECT
  // ---------------------------------------------------------------------

  /** One output row; the percentiles are reported times 100. */
  datatype SellerRank = SellerRank(
    metrics: SellerMetrics,
    revenuePercentile: real,
    reviewPercentile: real,
    deliveryPercentile: real,
    category: Performance)

  function Revenues(pop: seq<SellerMetrics>): seq<Option<real>>
  {
    seq(|pop|, i requires 0 <= i < |pop| => Some(pop[i].totalRevenue))
  }

  function Reviews(pop: seq<SellerMetrics>): seq<Option<real>>
  {
    seq(|pop|, i requires 0 <= i < |pop| => pop[i].avgReview)
  }

  function Punctuality(pop: seq<SellerMetrics>): seq<Option<real>>
  {
    seq(|pop|, i requires 0 <= i < |pop| => Some(pop[i].onTimePercentage))
  }

  /** The percentiles of `m` within the ranked population already carry
      the reported scale. */
  predicate RankedAmong(pop: seq<SellerMetrics>, r: SellerRank)
  {
    && r.revenuePercentile == PercentRank(Revenues(pop), Some(r.metrics.totalRevenue)) * 100.0
    && r.reviewPercentile == PercentRank(Reviews(pop), r.metrics.avgReview) * 100.0
    && r.deliveryPercentile == PercentRank(Punctuality(pop), Some(r.metrics.onTimePercentage)) * 100.0
  }

  predicate PercentilesWithin(r: SellerRank)
  {
    && 0.0 <= r.revenuePercentile <= 100.0
    && 0.0 <= r.reviewPercentile <= 100.0
    && 0.0 <= r.deliveryPercentile <= 100.0
  }

  /** What the final SELECT reports for one ranked seller. */
  predicate Scored(pop: seq<SellerMetrics>, r: SellerRank)
  {
    && r.metrics in pop
    && RankedAmong(pop, r)
    && PercentilesWithin(r)
    && r.category == CategoryOf(r.revenuePercentile / 100.0, r.reviewPercentile / 100.0, r.deliveryPercentile / 100.0)
  }

  function RankOf(pop: seq<SellerMetrics>, m: SellerMetrics): (r: SellerRank)
    requires m in pop
    ensures r.metrics == m && Scored(pop, r)
  {
    var i :| 0 <= i < |pop| && pop[i] == m;
    assert Revenues(pop)[i] == Some(m.totalRevenue);
    assert Reviews(pop)[i] == m.avgReview;
    assert Punctuality(pop)[i] == Some(m.onTimePercentage);
    var rp := PercentRank(Revenues(pop), Some(m.totalRevenue));
    var vp := PercentRank(Reviews(pop), m.avgReview);
    var dp := PercentRank(Punctuality(pop), Some(m.onTimePercentage));
    PercentRankRange(Revenues(pop), Some(m.totalRevenue));
    PercentRankRange(Reviews(pop), m.avgReview);
    PercentRankRange(Punctuality(pop), Some(m.onTimePercentage));
    assert rp * 100.0 / 100.0 == rp && vp * 100.0 / 100.0 == vp && dp * 100.0 / 100.0 == dp;
    SellerRank(m, rp * 100.0, vp * 100.0, dp * 100.0, CategoryOf(rp, vp, dp))
  }

  /** WHERE total_orders >= 5. */
  function Eligible(table: seq<SellerMetrics>): seq<SellerMetrics>
  {
    Where(table, (m: SellerMetrics) => m.totalOrders >= 5)
  }

  /** ORDER BY the mean of the three percentiles, ascending. */
  function CompositeKey(r: SellerRank): real
  {
    -(r.revenuePercentile + r.reviewPercentile + r.deliveryPercentile) / 3.0
  }

  /** Every member of the population, scored, in population order. */
  function Ranked(pop: seq<SellerMetrics>): (t: seq<SellerRank>)
    ensures |t| == |pop|
    ensures forall i :: 0 <= i < |pop| ==> t[i].metrics == pop[i] && Scored(pop, t[i])
  {
    seq(|pop|, i requires 0 <= i < |pop| => RankOf(pop, pop[i]))
  }

  lemma RankedCovers(pop: seq<SellerMetrics>, t: seq<SellerRank>)
    requires |t| == |pop| && forall i :: 0 <= i < |pop| ==> t[i].metrics == pop[i] && Scored(pop, t[i])
    ensures forall m :: m in pop ==> exists r :: r in t && r.metrics == m
    ensures forall r :: r in t ==> Scored(pop, r)
  {
    forall m | m in pop ensures exists r :: r in t && r.metrics == m {
      var i :| 0 <= i < |pop| && pop[i] == m;
      assert t[i] in t;
    }
    forall r | r in t ensures Scored(pop, r) {
      var i :| 0 <= i < |t| && t[i] == r;
    }
  }

  /** The ranking of a seller_metrics table: the sellers with five orders
      or more, each scored against exactly those. */
  function RankTable(table: seq<SellerMetrics>): (rows: seq<SellerRank>)
    ensures SortedDesc(rows, CompositeKey)
    ensures |rows| == |Eligible(table)|
    ensures forall m :: m in Eligible(table) ==> exists r :: r in rows && r.metrics == m
    ensures forall r :: r in rows ==> Scored(Eligible(table), r)
  {
    var pop := Eligible(table);
    var ranked := Ranked(pop);
    RankedCovers(pop, ranked);
    var rows := SortDesc(ranked, CompositeKey);
    SortDescMembers(ranked, CompositeKey);
    rows
  }

  /** A seller with fewer than five orders changes nobody's ranking. */
  lemma SmallSellersIgnored(table: seq<SellerMetrics>, m: SellerMetrics)
    requires m.totalOrders < 5
    ensures RankTable(table + [m]) == RankTable(table)
  {
    WhereAppend(table, [m], (x: SellerMetrics) => x.totalOrders >= 5);
    assert Where([m], (x: SellerMetrics) => x.totalOrders >= 5) == [];
    assert Eligible(table + [m]) == Eligible(table);
  }

  /** `load_seller_performance(start, end)`: every seller with five
      orders or more in the window, once each, in the order of the mean
      percentile. */
  function SellerPerformance(ds: seq<Detail>, w: Option<Window>): (rows: seq<SellerRank>)
    ensures SortedDesc(rows, CompositeKey)
    ensures forall r :: r in rows ==>
      r.metrics in SellerTable(SellerDetails(ds, w)) && Scored(Eligible(SellerTable(SellerDetails(ds, w))), r)
    ensures forall s :: s in SellerSet(SellerDetails(ds, w)) && |OrderIds(OfSeller(SellerDetails(ds, w), s))| >= 5 ==>
      exists r :: r in rows && r.metrics.seller == s
    ensures forall i, j :: 0 <= i < j < |rows| ==> rows[i].metrics.seller != rows[j].metrics.seller
  {
    var sd := SellerDetails(ds, w);
    var table := SellerTable(sd);
    var rows := RankTable(table);
    assert forall r :: r in rows ==> r.metrics in table by {
      forall r | r in rows ensures r.metrics in table {
        assert Scored(Eligible(table), r);
      }
    }
    EligibleRanked(sd, table, rows);
    DistinctRanked(table, rows);
    rows
  }

  lemma EligibleRanked(sd: seq<Detail>, table: seq<SellerMetrics>, rows: seq<SellerRank>)
    requires forall d :: d in sd ==> d.seller.Some?
    requires table == SellerTable(sd) && rows == RankTable(table)
    ensures forall s :: s in SellerSet(sd) && |OrderIds(OfSeller(sd, s))| >= 5 ==>
      exists r :: r in rows && r.metrics.seller == s
  {
    forall s | s in SellerSet(sd) && |OrderIds(OfSeller(sd, s))| >= 5
      ensures exists r :: r in rows && r.metrics.seller == s {
      var m :| m in table && m.seller == s;
      assert SellerRow(sd, m);
      MetricsMeaning(OfSeller(sd, s), s);
      assert m.totalOrders >= 5;
      assert m in Eligible(table);
    }
  }

  /** What a row of the ranking says about its seller's rows in the window. */
  lemma RankedSeller(ds: seq<Detail>, w: Option<Window>, r: SellerRank)
    requires r in SellerPerformance(ds, w)
    ensures |OrderIds(OfSeller(SellerDetails(ds, w), r.metrics.seller))| >= 5
    ensures r.metrics == MetricsOf(OfSeller(SellerDetails(ds, w), r.metrics.seller), r.metrics.seller)
    ensures RatesWithin(r.metrics) && PercentilesWithin(r)
  {
    var sd := SellerDetails(ds, w);
    var table := SellerTable(sd);
    var s := r.metrics.seller;
    assert Scored(Eligible(table), r);
    assert r.metrics in table && SellerRow(sd, r.metrics);
    MetricsMeaning(OfSeller(sd, s), s);
  }

  /** Each seller is ranked once. */
  lemma DistinctRanked(table: seq<SellerMetrics>, rows: seq<SellerRank>)
    requires forall i, j :: 0 <= i < j < |table| ==> table[i].seller != table[j].seller
    requires rows == RankTable(table)
    ensures forall i, j :: 0 <= i < j < |rows| ==> rows[i].metrics.seller != rows[j].metrics.seller
  {
    var pop := Eligible(table);
    DistinctSellersWhere(table);
    DistinctAfterSort(pop, Ranked(pop), rows);
  }

  lemma DistinctAfterSort(pop: seq<SellerMetrics>, ranked: seq<SellerRank>, rows: seq<SellerRank>)
    requires forall i, j :: 0 <= i < j < |pop| ==> pop[i].seller != pop[j].seller
    requires |ranked| == |pop| && forall i :: 0 <= i < |pop| ==> ranked[i].metrics.seller == pop[i].seller
    requires multiset(ranked) == multiset(rows)
    ensures forall i, j :: 0 <= i < j < |rows| ==> rows[i].metrics.seller != rows[j].metrics.seller
  {
    assert NoDup(ranked) by {
      forall i, j | 0 <= i < j < |ranked| ensures ranked[i] != ranked[j] {
        assert ranked[i].metrics.seller == pop[i].seller && ranked[j].metrics.seller == pop[j].seller;
      }
    }
    NoDupPermutation(ranked, rows);
    forall i, j | 0 <= i < j < |rows| ensures rows[i].metrics.seller != rows[j].metrics.seller {
      assert rows[i] in multiset(ranked) && rows[j] in multiset(ranked);
      var p :| 0 <= p < |ranked| && ranked[p] == rows[i];
      var q :| 0 <= q < |ranked| && ranked[q] == rows[j];
      assert p != q;
      assert ranked[p].metrics.seller == pop[p].seller && ranked[q].metrics.seller == pop[q].seller;
    }
  }

  /** No seller appears in two rows of t. */
  predicate DistinctSellers(t: seq<SellerMetrics>)
  {
    forall i, j :: 0 <= i < j < |t| ==> t[i].seller != t[j].seller
  }

  lemma DistinctTail(t: seq<SellerMetrics>)
    requires t != [] && DistinctSellers(t)
    ensures DistinctSellers(t[1..])
    ensures forall m :: m in t[1..] ==> m.seller != t[0].seller
  {
    var u := t[1..];
    assert forall i :: 0 <= i < |u| ==> u[i] == t[i + 1];
    forall m | m in u ensures m.seller != t[0].seller {
      var k :| 0 <= k < |u| && u[k] == m;
    }
  }

  lemma DistinctCons(m: SellerMetrics, t: seq<SellerMetrics>)
    requires DistinctSellers(t)
    requires forall x :: x in t ==> x.seller != m.seller
    ensures DistinctSellers([m] + t)
  {
    var c := [m] + t;
    forall i, j | 0 <= i < j < |c| ensures c[i].seller != c[j].seller {
      assert c[j] == t[j - 1] && t[j - 1] in t;
      if i > 0 {
        assert c[i] == t[i - 1];
      }
    }
  }

  lemma {:induction false} DistinctSellersWhere(table: seq<SellerMetrics>)
    requires DistinctSellers(table)
    ensures DistinctSellers(Eligible(table))
  {
    if table != [] {
      var t := table[1..];
      DistinctTail(table);
      DistinctSellersWhere(t);
      if table[0].totalOrders >= 5 {
        assert Eligible(table) == [table[0]] + Eligible(t);
        DistinctCons(table[0], Eligible(t));
      } else {
        assert Eligible(table) == Eligible(t);
      }
    }
  }

  // ---------------------------------------------------------------------
  // The page: filters, distribution table, state aggregation
  // ---------------------------------------------------------------------

  /** The multiselect's options, in the page's fixed order. */
  const AllCategories: seq<Performance> := [Elite, HighPerformer, Good, Average, NeedsImprovement]

  predicate Selected(selected: seq<Performance>, c: Performance)
  {
    |selected| == 0 || c in selected
  }

  /** The category `isin` filter (skipped for an empty selection), then
      `total_orders >= min_orders`. */
  function FilterSellers(rows: seq<SellerRank>, selected: seq<Performance>, minOrders: int): (out: seq<SellerRank>)
    ensures forall r :: r in out <==> r in rows && Selected(selected, r.category) && r.metrics.totalOrders >= minOrders
    ensures SortedDesc(rows, CompositeKey) ==> SortedDesc(out, CompositeKey)
    ensures |out| <= |rows|
  {
    var byCategory := if |selected| > 0 then Where(rows, (r: SellerRank) => r.category in selected) else rows;
    var out := Where(byCategory, (r: SellerRank) => r.metrics.totalOrders >= minOrders);
    assert SortedDesc(rows, CompositeKey) ==> SortedDesc(out, CompositeKey) by {
      if SortedDesc(rows, CompositeKey) {
        if |selected| > 0 {
          WhereSorted(rows, (r: SellerRank) => r.category in selected, CompositeKey);
        }
        WhereSorted(byCategory, (r: SellerRank) => r.metrics.totalOrders >= minOrders, CompositeKey);
      }
    }
    out
  }

  datatype CategoryCount = CategoryCount(category: Performance, count: nat)

  function CategoriesOf(rows: seq<SellerRank>): seq<Performance>
  {
    seq(|rows|, i requires 0 <= i < |rows| => rows[i].category)
  }

  function CountRows(keys: seq<Performance>, cats: seq<Performance>): (t: seq<CategoryCount>)
    ensures |t| == |keys|
    ensures forall i :: 0 <= i < |keys| ==> t[i] == CategoryCount(keys[i], Count(cats, keys[i]))
    ensures SumOf(t, (x: CategoryCount) => x.count) == GroupSizes(keys, cats)
  {
    if keys == [] then []
    else [CategoryCount(keys[0], Count(cats, keys[0]))] + CountRows(keys[1..], cats)
  }

  /** `value_counts` merged onto the five categories with `fillna(0)` and
      sorted in the fixed order; shown only for a non-empty table. */
  function Distribution(rows: seq<SellerRank>): (t: Option<seq<CategoryCount>>)
    ensures t.Some? <==> |rows| > 0
    ensures t.Some? ==> |t.value| == 5
    ensures t.Some? ==> forall i :: 0 <= i < 5 ==>
      t.value[i].category == AllCategories[i] && t.value[i].count == Count(CategoriesOf(rows), AllCategories[i])
    ensures t.Some? ==> SumOf(t.value, (x: CategoryCount) => x.count) == |rows|
  {
    if rows == [] then None
    else
      var cats := CategoriesOf(rows);
      assert forall c :: c in cats ==> c in AllCategories by {
        forall c | c in cats ensures c in AllCategories {
          assert AllCategories[Tier(c)] == c;
        }
      }
      GroupSizesTotal(AllCategories, cats);
      Some(CountRows(AllCategories, cats))
  }

  /** After the page filter, a category left out of a non-empty selection
      counts no seller. */
  lemma UnselectedCategoriesEmpty(rows: seq<SellerRank>, selected: seq<Performance>, minOrders: int, i: nat)
    requires |selected| > 0 && i < 5 && AllCategories[i] !in selected
    requires FilterSellers(rows, selected, minOrders) != []
    ensures Distribution(FilterSellers(rows, selected, minOrders)).value[i].count == 0
  {
    var out := FilterSellers(rows, selected, minOrders);
    var cats := CategoriesOf(out);
    assert AllCategories[i] !in cats by {
      forall k | 0 <= k < |cats| ensures cats[k] != AllCategories[i] {
        assert out[k] in out;
      }
    }
    CountAbsent(cats, AllCategories[i]);
  }

  /** One row of seller_geo (load_seller_geolocation's result). */
  datatype GeoRow = GeoRow(seller: int, city: string, state: string, totalOrders: int, totalRevenue: real, avgReview: Option<real>)

  /** One row of the per-state aggregation. */
  datatype StateRow = StateRow(state: string, totalOrders: int, totalRevenue: real, avgReview: Option<real>, sellerCount: nat)

  function InState(geo: seq<GeoRow>, st: string): seq<GeoRow>
  {
    Group(geo, StateOf, st)
  }

  function GeoRevenues(geo: seq<GeoRow>): seq<real>
  {
    seq(|geo|, i requires 0 <= i < |geo| => geo[i].totalRevenue)
  }

  /** pandas' `mean` skips NaN. */
  function PresentReviews(geo: seq<GeoRow>): seq<real>
  {
    if geo == [] then []
    else (if geo[0].avgReview.Some? then [geo[0].avgReview.value] else []) + PresentReviews(geo[1..])
  }

  function GeoStates(geo: seq<GeoRow>): seq<string>
  {
    seq(|geo|, i requires 0 <= i < |geo| => geo[i].state)
  }

  function GeoOrders(g: GeoRow): int
  {
    g.totalOrders
  }

  function StateOf(g: GeoRow): string
  {
    g.state
  }

  predicate AggregatesState(geo: seq<GeoRow>, row: StateRow)
  {
    && row.state in GeoStates(geo)
    && row.totalOrders == SumOf(InState(geo, row.state), GeoOrders)
    && row.totalRevenue == Sum(GeoRevenues(InState(geo, row.state)))
    && row.avgReview == Avg(PresentReviews(InState(geo, row.state)))
    && row.sellerCount == |set g | g in geo && g.state == row.state :: g.seller|
    && row.sellerCount >= 1
  }

  function StateRowOf(geo: seq<GeoRow>, st: string): (row: StateRow)
    requires st in GeoStates(geo)
    ensures row.state == st && AggregatesState(geo, row)
  {
    var g := InState(geo, st);
    var i :| 0 <= i < |geo| && GeoStates(geo)[i] == st;
    var ids := set x | x in geo && x.state == st :: x.seller;
    assert geo[i] in geo && geo[i].seller in ids;
    StateRow(st, SumOf(g, GeoOrders), Sum(GeoRevenues(g)), Avg(PresentReviews(g)), |ids|)
  }

  /** `groupby("seller_state").agg(...)`: one row per state of seller_geo,
      whose order totals add up to those of all its rows. */
  function StateAggregation(geo: seq<GeoRow>): (rows: seq<StateRow>)
    ensures forall row :: row in rows ==> AggregatesState(geo, row)
    ensures forall st :: st in GeoStates(geo) <==> exists row :: row in rows && row.state == st
    ensures forall i, j :: 0 <= i < j < |rows| ==> rows[i].state != rows[j].state
  {
    var keys := DistinctKeys(GeoStates(geo));
    var rows := seq(|keys|, i requires 0 <= i < |keys| => StateRowOf(geo, keys[i]));
    assert forall st :: st in GeoStates(geo) ==> exists row :: row in rows && row.state == st by {
      forall st | st in GeoStates(geo) ensures exists row :: row in rows && row.state == st {
        var i :| 0 <= i < |keys| && keys[i] == st;
        assert rows[i] in rows;
      }
    }
    rows
  }

  /** The state rows share out all the orders of the seller rows. */
  lemma StateAggregationTotal(geo: seq<GeoRow>)
    ensures SumOf(StateAggregation(geo), (r: StateRow) => r.totalOrders) == SumOf(geo, GeoOrders)
  {
    StateTotals(geo, DistinctKeys(GeoStates(geo)), StateAggregation(geo));
  }

  lemma StateTotals(geo: seq<GeoRow>, keys: seq<string>, rows: seq<StateRow>)
    requires NoDup(keys) && forall st :: st in keys <==> st in GeoStates(geo)
    requires |rows| == |keys| && forall i :: 0 <= i < |keys| ==> rows[i] == StateRowOf(geo, keys[i])
    ensures SumOf(rows, (r: StateRow) => r.totalOrders) == SumOf(geo, GeoOrders)
  {
    RowsSum(geo, keys, rows);
    assert forall g :: g in geo ==> g.state in keys by {
      forall g | g in geo ensures g.state in keys {
        var i :| 0 <= i < |geo| && geo[i] == g;
        assert GeoStates(geo)[i] == g.state;
      }
    }
    KeyedSumsAll(keys, geo, StateOf, GeoOrders);
  }

  lemma {:induction false} RowsSum(geo: seq<GeoRow>, keys: seq<string>, rows: seq<StateRow>)
    requires forall st :: st in keys ==> st in GeoStates(geo)
    requires |rows| == |keys| && forall i :: 0 <= i < |keys| ==> rows[i] == StateRowOf(geo, keys[i])
    ensures SumOf(rows, (r: StateRow) => r.totalOrders) == KeyedSums(keys, geo, StateOf, GeoOrders)
  {
    if keys != [] {
      assert forall i :: 0 <= i < |keys[1..]| ==> rows[1..][i] == rows[i + 1] && keys[1..][i] == keys[i + 1];
      RowsSum(geo, keys[1..], rows[1..]);
    }
  }
}
