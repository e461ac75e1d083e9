/**
 * RFM scoring and segmentation (`load_rfm_segments`, identical in the two
 * cohort pages): per-customer recency / frequency / monetary measures,
 * NTILE(5) scores, the ten-rule first-match segment table and the
 * per-segment summary.
 */
module Rfm {
  import opened Facts

  // ---------------------------------------------------------------------
  // customer_rfm: one row per (customer_unique_id, city, state)
  // ---------------------------------------------------------------------

  datatype GroupKey = GroupKey(customer: int, city: string, state: string)

  /** One row of the `customer_rfm` CTE. */
  datatype CustomerRfm = CustomerRfm(
    customer: int,
    city: string,
    state: string,
    recencyDays: real,
    frequency: nat,
    monetary: real)

  function KeyOf(l: Line): GroupKey
  {
    GroupKey(l.order.customer, l.order.city, l.order.state)
  }

  function Purchases(orders: seq<Order>): (ps: seq<int>)
    ensures |ps| == |orders|
    ensures forall o :: o in orders ==> o.purchase in ps
  {
    var ps := seq(|orders|, i requires 0 <= i < |orders| => orders[i].purchase);
    assert forall i :: 0 <= i < |orders| ==> orders[i].purchase in ps by {
      forall i | 0 <= i < |orders| ensures orders[i].purchase in ps {
        assert ps[i] == orders[i].purchase;
      }
    }
    ps
  }

  function LinePurchases(ls: seq<Line>): (ps: seq<int>)
    ensures |ps| == |ls|
    ensures forall p :: p in ps ==> exists l :: l in ls && l.order.purchase == p
  {
    seq(|ls|, i requires 0 <= i < |ls| => ls[i].order.purchase)
  }

  function LineOrderIds(ls: seq<Line>): seq<int>
  {
    seq(|ls|, i requires 0 <= i < |ls| => ls[i].order.id)
  }

  function LinePrices(ls: seq<Line>): seq<real>
  {
    seq(|ls|, i requires 0 <= i < |ls| => ls[i].item.price)
  }

  /** The joined rows the query reads: every order with its items, inside
      the purchase-date filter when one is set. */
  function WindowLines(orders: seq<Order>, items: seq<Item>, w: Option<Window>): (ls: seq<Line>)
    ensures forall l :: l in ls <==> l in Lines(orders, items) && InWindow(l.order.purchase, w)
  {
    Where(Lines(orders, items), (l: Line) => InWindow(l.order.purchase, w))
  }

  /** The measures of one group. `latest` is MAX(order_purchase_timestamp)
      over the whole orders table, which the date filter does not touch. */
  function Measure(k: GroupKey, group: seq<Line>, latest: int): (row: CustomerRfm)
    requires |group| > 0
    requires forall l :: l in group ==> l.order.purchase <= latest
    ensures row.recencyDays >= 0.0 && row.frequency >= 1
    ensures row.customer == k.customer && row.city == k.city && row.state == k.state
    ensures Measures(group, latest, row)
  {
    var last := MaxOf(LinePurchases(group));
    LastPurchase(group);
    DistinctOrders(group);
    var ids := set l | l in group :: l.order.id;
    assert group[0].order.id in ids;
    assert |ids| >= 1 by {
      assert ids != {};
    }
    CustomerRfm(k.customer, k.city, k.state,
                (latest - last) as real / 86400.0,
                CountDistinct(LineOrderIds(group)),
                Sum(LinePrices(group)))
  }

  /** The distinct orders of a group of lines. */
  function OrdersIn(group: seq<Line>): set<int>
  {
    set l | l in group :: l.order.id
  }

  /** What a customer_rfm row says about its group: recency is the days
      from the group's last purchase to `latest`, frequency the number of
      distinct orders, monetary the sum of the item prices. */
  predicate Measures(group: seq<Line>, latest: int, row: CustomerRfm)
  {
    && group != []
    && (exists l :: l in group && row.recencyDays == (latest - l.order.purchase) as real / 86400.0
          && forall l' :: l' in group ==> l'.order.purchase <= l.order.purchase)
    && row.frequency == |OrdersIn(group)|
    && row.monetary == Sum(LinePrices(group))
  }

  lemma LastPurchase(group: seq<Line>)
    requires |group| > 0
    ensures exists l :: l in group && l.order.purchase == MaxOf(LinePurchases(group))
    ensures forall l :: l in group ==> l.order.purchase <= MaxOf(LinePurchases(group))
  {
    var ps := LinePurchases(group);
    var m := MaxOf(ps);
    assert m in ps;
    forall l | l in group ensures l.order.purchase <= m {
      var i :| 0 <= i < |group| && group[i] == l;
      assert ps[i] == l.order.purchase;
      assert ps[i] in ps;
    }
  }

  lemma DistinctOrders(group: seq<Line>)
    ensures (set x | x in LineOrderIds(group)) == OrdersIn(group)
  {
    forall x | x in LineOrderIds(group) ensures x in OrdersIn(group) {
      var i :| 0 <= i < |group| && LineOrderIds(group)[i] == x;
      assert group[i] in group;
    }
    forall x | x in OrdersIn(group) ensures x in LineOrderIds(group) {
      var l :| l in group && l.order.id == x;
      var i :| 0 <= i < |group| && group[i] == l;
      assert LineOrderIds(group)[i] == x;
    }
  }

  function KeysOf(ls: seq<Line>): seq<GroupKey>
  {
    seq(|ls|, i requires 0 <= i < |ls| => KeyOf(ls[i]))
  }

  function GroupOf(ls: seq<Line>, k: GroupKey): seq<Line>
  {
    Where(ls, (l: Line) => KeyOf(l) == k)
  }

  lemma KeysOfMembers(ls: seq<Line>)
    ensures forall l :: l in ls ==> KeyOf(l) in KeysOf(ls)
    ensures forall k :: k in KeysOf(ls) ==> exists l :: l in ls && KeyOf(l) == k
  {
    forall l | l in ls ensures KeyOf(l) in KeysOf(ls) {
      var i :| 0 <= i < |ls| && ls[i] == l;
      assert KeysOf(ls)[i] == KeyOf(l);
    }
    forall k | k in KeysOf(ls) ensures exists l :: l in ls && KeyOf(l) == k {
      var i :| 0 <= i < |ls| && KeysOf(ls)[i] == k;
      assert ls[i] in ls;
    }
  }

  /** The row of one GROUP BY key present in the joined rows. */
  function RowFor(ls: seq<Line>, k: GroupKey, latest: int): (row: CustomerRfm)
    requires k in KeysOf(ls)
    requires forall l :: l in ls ==> l.order.purchase <= latest
    ensures row.recencyDays >= 0.0 && row.frequency >= 1
    ensures GroupKey(row.customer, row.city, row.state) == k
    ensures Measures(GroupOf(ls, k), latest, row)
  {
    KeysOfMembers(ls);
    var l :| l in ls && KeyOf(l) == k;
    var g := GroupOf(ls, k);
    assert l in g;
    Measure(k, g, latest)
  }

  predicate DistinctGroups(rows: seq<CustomerRfm>)
  {
    forall i, j :: 0 <= i < j < |rows| ==>
      GroupKey(rows[i].customer, rows[i].city, rows[i].state) != GroupKey(rows[j].customer, rows[j].city, rows[j].state)
  }

  predicate Covers(rows: seq<CustomerRfm>, ls: seq<Line>)
  {
    forall l :: l in ls ==>
      exists i :: 0 <= i < |rows| && GroupKey(rows[i].customer, rows[i].city, rows[i].state) == KeyOf(l)
  }

  predicate WellFormed(rows: seq<CustomerRfm>)
  {
    forall i :: 0 <= i < |rows| ==> rows[i].recencyDays >= 0.0 && rows[i].frequency >= 1
  }

  function RowKey(row: CustomerRfm): GroupKey
  {
    GroupKey(row.customer, row.city, row.state)
  }

  /** Every row belongs to a group key of `ls` and measures that group. */
  predicate MeasuresGroups(rows: seq<CustomerRfm>, ls: seq<Line>, latest: int)
  {
    forall i :: 0 <= i < |rows| ==>
      RowKey(rows[i]) in KeysOf(ls) && Measures(GroupOf(ls, RowKey(rows[i])), latest, rows[i])
  }

  lemma RowsMeasure(ls: seq<Line>, latest: int, keys: seq<GroupKey>, rows: seq<CustomerRfm>)
    requires forall l :: l in ls ==> l.order.purchase <= latest
    requires forall i :: 0 <= i < |keys| ==> keys[i] in KeysOf(ls)
    requires |rows| == |keys|
    requires forall i :: 0 <= i < |keys| ==> rows[i] == RowFor(ls, keys[i], latest)
    ensures MeasuresGroups(rows, ls, latest)
  {
    forall i | 0 <= i < |rows|
      ensures RowKey(rows[i]) in KeysOf(ls) && Measures(GroupOf(ls, RowKey(rows[i])), latest, rows[i])
    {
      assert RowKey(rows[i]) == keys[i];
    }
  }

  lemma RowsCover(ls: seq<Line>, keys: seq<GroupKey>, rows: seq<CustomerRfm>)
    requires NoDup(keys)
    requires forall k :: k in keys <==> k in KeysOf(ls)
    requires |rows| == |keys|
    requires forall i :: 0 <= i < |keys| ==> RowKey(rows[i]) == keys[i]
    ensures DistinctGroups(rows) && Covers(rows, ls)
  {
    KeysOfMembers(ls);
    forall l | l in ls ensures exists i :: 0 <= i < |rows| && GroupKey(rows[i].customer, rows[i].city, rows[i].state) == KeyOf(l) {
      var i :| 0 <= i < |keys| && keys[i] == KeyOf(l);
      assert GroupKey(rows[i].customer, rows[i].city, rows[i].state) == RowKey(rows[i]);
    }
  }

  /** GROUP BY over the joined rows, given the global latest purchase. */
  function Grouped(ls: seq<Line>, latest: int): (rows: seq<CustomerRfm>)
    requires forall l :: l in ls ==> l.order.purchase <= latest
    ensures WellFormed(rows) && DistinctGroups(rows) && Covers(rows, ls)
    ensures MeasuresGroups(rows, ls, latest)
  {
    var keys := DistinctKeys(KeysOf(ls));
    var rows := seq(|keys|, i requires 0 <= i < |keys| => RowFor(ls, keys[i], latest));
    RowsMeasure(ls, latest, keys, rows);
    RowsCover(ls, keys, rows);
    rows
  }

  /** The `customer_rfm` CTE: one row per group key of the joined rows,
      none twice, each measuring its group against the latest purchase of
      all orders. */
  function CustomerRfmRows(orders: seq<Order>, items: seq<Item>, w: Option<Window>): (rows: seq<CustomerRfm>)
    ensures WellFormed(rows)
    ensures DistinctGroups(rows)
    ensures Covers(rows, WindowLines(orders, items, w))
    ensures rows != [] ==> |orders| > 0 && MeasuresGroups(rows, WindowLines(orders, items, w), MaxOf(Purchases(orders)))
  {
    var ls := WindowLines(orders, items, w);
    if ls == [] then []
    else
      assert ls[0] in ls;
      var latest := MaxOf(Purchases(orders));
      assert forall l :: l in ls ==> l.order.purchase <= latest by {
        forall l | l in ls ensures l.order.purchase <= latest {
          assert l.order in orders;
        }
      }
      Grouped(ls, latest)
  }

  // ---------------------------------------------------------------------
  // NTILE(5) OVER (ORDER BY ...)
  // ---------------------------------------------------------------------

  /** First 0-based sort position of bucket b (1..5) among n rows; bucket 6
      starts at n. NTILE gives each of the n % 5 leading buckets one row
      more than the n / 5 of the others. */
  function BucketStart(n: nat, b: nat): nat
    requires 1 <= b <= 6
  {
    var q := n / 5;
    var r := n % 5;
    if b == 1 then 0
    else if b == 2 then q + (if r >= 1 then 1 else r)
    else if b == 3 then 2 * q + (if r >= 2 then 2 else r)
    else if b == 4 then 3 * q + (if r >= 3 then 3 else r)
    else if b == 5 then 4 * q + (if r >= 4 then 4 else r)
    else n
  }

  /** NTILE(5) of the row at 0-based sort position i among n rows. */
  function Ntile5(n: nat, i: nat): (b: nat)
    requires i < n
    ensures 1 <= b <= 5 && b <= n
    ensures BucketStart(n, b) <= i < BucketStart(n, b + 1)
  {
    if i < BucketStart(n, 2) then 1
    else if i < BucketStart(n, 3) then 2
    else if i < BucketStart(n, 4) then 3
    else if i < BucketStart(n, 5) then 4
    else 5
  }

  /** Bucket sizes differ by at most one, the larger buckets come first,
      and together they hold all n rows. */
  lemma Ntile5BucketSizes(n: nat, b: nat, c: nat)
    requires 1 <= b < c <= 5
    ensures BucketStart(n, 1) == 0 && BucketStart(n, 6) == n
    ensures n / 5 <= BucketStart(n, b + 1) - BucketStart(n, b) <= n / 5 + 1
    ensures BucketStart(n, c + 1) - BucketStart(n, c) <= BucketStart(n, b + 1) - BucketStart(n, b)
  {
  }

  lemma BucketStartMonotone(n: nat, b: nat, c: nat)
    requires 1 <= b <= c <= 6
    ensures BucketStart(n, b) <= BucketStart(n, c)
  {
  }

  /** A position inside bucket b's interval gets bucket b. */
  lemma PositionInBucket(n: nat, p: int, b: nat)
    requires 1 <= b <= 5
    requires BucketStart(n, b) <= p < BucketStart(n, b + 1)
    ensures 0 <= p < n && Ntile5(n, p) == b
  {
    BucketStartMonotone(n, b + 1, 6);
    var c := Ntile5(n, p);
    if c < b {
      BucketStartMonotone(n, c + 1, b);
    } else if c > b {
      BucketStartMonotone(n, b + 1, c);
    }
  }

  /** Scores never decrease along the sort order. */
  lemma Ntile5Monotone(n: nat, i: nat, j: nat)
    requires i <= j < n
    ensures Ntile5(n, i) <= Ntile5(n, j)
  {
  }

  /** `pos[i]` is the 0-based place of row i in the window's sort: the
      engine may order equal keys either way, so any bijection onto
      0..n-1 that puts earlier-sorting keys first is a valid ordering. */
  predicate IsOrdering(keys: seq<real>, pos: seq<nat>, desc: bool)
  {
    && |pos| == |keys|
    && (forall i :: 0 <= i < |pos| ==> pos[i] < |pos|)
    && (forall i, j :: 0 <= i < |pos| && 0 <= j < |pos| && i != j ==> pos[i] != pos[j])
    && (forall i, j :: 0 <= i < |pos| && 0 <= j < |pos| && SortsBefore(keys[i], keys[j], desc) ==> pos[i] < pos[j])
  }

  predicate SortsBefore(a: real, b: real, desc: bool)
  {
    if desc then a > b else a < b
  }

  function RecencyKeys(rows: seq<CustomerRfm>): seq<real>
  {
    seq(|rows|, i requires 0 <= i < |rows| => rows[i].recencyDays)
  }

  function FrequencyKeys(rows: seq<CustomerRfm>): seq<real>
  {
    seq(|rows|, i requires 0 <= i < |rows| => rows[i].frequency as real)
  }

  function MonetaryKeys(rows: seq<CustomerRfm>): seq<real>
  {
    seq(|rows|, i requires 0 <= i < |rows| => rows[i].monetary)
  }

  // ---------------------------------------------------------------------
  // One concrete ordering: a stable sort
  // ---------------------------------------------------------------------

  /** Number of the first m keys that sort strictly before t. */
  function CountBefore(keys: seq<real>, t: real, desc: bool, m: nat): nat
    requires m <= |keys|
  {
    if m == 0 then 0
    else CountBefore(keys, t, desc, m - 1) + (if SortsBefore(keys[m - 1], t, desc) then 1 else 0)
  }

  /** Number of the first m keys equal to t. */
  function CountEqual(keys: seq<real>, t: real, m: nat): nat
    requires m <= |keys|
  {
    if m == 0 then 0
    else CountEqual(keys, t, m - 1) + (if keys[m - 1] == t then 1 else 0)
  }

  lemma {:induction false} BeforeAndEqualBound(keys: seq<real>, t: real, desc: bool, m: nat)
    requires m <= |keys|
    ensures CountBefore(keys, t, desc, m) + CountEqual(keys, t, m) <= m
  {
    if m > 0 {
      BeforeAndEqualBound(keys, t, desc, m - 1);
    }
  }

  lemma {:induction false} EqualGrows(keys: seq<real>, i: nat, m: nat)
    requires i < m <= |keys|
    ensures CountEqual(keys, keys[i], i) + 1 <= CountEqual(keys, keys[i], m)
  {
    if m > i + 1 {
      EqualGrows(keys, i, m - 1);
    }
  }

  lemma {:induction false} BeforeGrows(keys: seq<real>, s: real, t: real, desc: bool, m: nat)
    requires m <= |keys|
    requires SortsBefore(s, t, desc)
    ensures CountBefore(keys, s, desc, m) + CountEqual(keys, s, m) <= CountBefore(keys, t, desc, m)
  {
    if m > 0 {
      BeforeGrows(keys, s, t, desc, m - 1);
    }
  }

  /** Stable sort positions: the rows sorting strictly before, plus the
      equal rows earlier in the input. */
  function StablePositions(keys: seq<real>, desc: bool): (pos: seq<nat>)
    ensures IsOrdering(keys, pos, desc)
  {
    var n := |keys|;
    var pos := seq(n, i requires 0 <= i < n => CountBefore(keys, keys[i], desc, n) + CountEqual(keys, keys[i], i));
    assert forall i :: 0 <= i < n ==> pos[i] < n by {
      forall i | 0 <= i < n ensures pos[i] < n {
        EqualGrows(keys, i, n);
        BeforeAndEqualBound(keys, keys[i], desc, n);
      }
    }
    assert forall i, j :: 0 <= i < n && 0 <= j < n && SortsBefore(keys[i], keys[j], desc) ==> pos[i] < pos[j] by {
      forall i, j | 0 <= i < n && 0 <= j < n && SortsBefore(keys[i], keys[j], desc) ensures pos[i] < pos[j] {
        EqualGrows(keys, i, n);
        BeforeGrows(keys, keys[i], keys[j], desc, n);
      }
    }
    assert forall i, j :: 0 <= i < n && 0 <= j < n && i != j ==> pos[i] != pos[j] by {
      forall i, j | 0 <= i < n && 0 <= j < n && i != j ensures pos[i] != pos[j] {
        if keys[i] == keys[j] {
          if i < j {
            EqualGrows(keys, i, j);
          } else {
            EqualGrows(keys, j, i);
          }
        } else if SortsBefore(keys[i], keys[j], desc) {
          EqualGrows(keys, i, n);
          BeforeGrows(keys, keys[i], keys[j], desc, n);
        } else {
          EqualGrows(keys, j, n);
          BeforeGrows(keys, keys[j], keys[i], desc, n);
        }
      }
    }
    pos
  }

  // ---------------------------------------------------------------------
  // rfm_segments: the first-match rule table
  // ---------------------------------------------------------------------

  datatype Segment =
    | Champions
    | LoyalCustomers
    | PotentialLoyalists
    | NewCustomers
    | AtRiskCustomers
    | NeedAttention
    | CannotLoseThem
    | Hibernating
    | LostCustomers
    | Others

  /** The CASE of `rfm_segments`, evaluated top to bottom. */
  function SegmentOf(r: int, f: int, m: int): Segment
  {
    if r >= 4 && f >= 4 && m >= 4 then Champions
    else if r >= 3 && f >= 3 && m >= 3 then LoyalCustomers
    else if r >= 3 && f >= 1 && m >= 2 then PotentialLoyalists
    else if r >= 4 && f <= 2 && m <= 2 then NewCustomers
    else if r <= 2 && f >= 4 && m >= 4 then AtRiskCustomers
    else if r <= 2 && f >= 3 && m >= 3 then NeedAttention
    else if r <= 1 && f >= 4 && m >= 4 then CannotLoseThem
    else if r <= 1 && f <= 2 && m >= 3 then Hibernating
    else if r <= 1 && f <= 1 && m <= 1 then LostCustomers
    else Others
  }

  predicate IsScore(s: int)
  {
    1 <= s <= 5
  }

  /** The region of score space each label really covers once precedence
      is taken into account; the regions are pairwise disjoint. */
  function SegmentRegion(r: int, f: int, m: int): Segment
    requires IsScore(r) && IsScore(f) && IsScore(m)
  {
    match (r >= 4 && f >= 4 && m >= 4,
           r >= 3 && f >= 3 && m >= 3 && !(r >= 4 && f >= 4 && m >= 4),
           r >= 3 && m >= 2 && !(f >= 3 && m >= 3),
           r >= 4 && f <= 2 && m == 1,
           r <= 2 && f >= 4 && m >= 4,
           r <= 2 && f >= 3 && m >= 3 && !(f >= 4 && m >= 4),
           r == 1 && f <= 2 && m >= 3,
           r == 1 && f == 1 && m == 1)
    case (true, _, _, _, _, _, _, _) => Champions
    case (_, true, _, _, _, _, _, _) => LoyalCustomers
    case (_, _, true, _, _, _, _, _) => PotentialLoyalists
    case (_, _, _, true, _, _, _, _) => NewCustomers
    case (_, _, _, _, true, _, _, _) => AtRiskCustomers
    case (_, _, _, _, _, true, _, _) => NeedAttention
    case (_, _, _, _, _, _, true, _) => Hibernating
    case (_, _, _, _, _, _, _, true) => LostCustomers
    case _ => Others
  }

  /** Over the 125 score triples, the first-match table assigns exactly the
      disjoint regions; in particular 'Cannot Lose Them' is never assigned. */
  lemma SegmentTableMatchesRegions(r: int, f: int, m: int)
    requires IsScore(r) && IsScore(f) && IsScore(m)
    ensures SegmentOf(r, f, m) == SegmentRegion(r, f, m)
    ensures SegmentOf(r, f, m) != CannotLoseThem
  {
  }

  /** 'At Risk Customers' (r <= 2, f >= 4, m >= 4) is listed before
      'Cannot Lose Them' (r <= 1, f >= 4, m >= 4) and covers all of it. */
  lemma CannotLoseThemUnreachable(r: int, f: int, m: int)
    ensures SegmentOf(r, f, m) != CannotLoseThem
  {
  }

  /** 'Potential Loyalists' (r >= 3, f >= 1, m >= 2) shadows every
      'New Customers' triple with m = 2, so that label needs m = 1. */
  lemma NewCustomersNeedLowestMonetary(r: int, f: int, m: int)
    requires IsScore(r) && IsScore(f) && IsScore(m)
    ensures SegmentOf(r, f, m) == NewCustomers <==> r >= 4 && f <= 2 && m == 1
  {
  }

  lemma SegmentExamples()
    ensures SegmentOf(5, 5, 5) == Champions
    ensures SegmentOf(1, 1, 1) == LostCustomers
    ensures SegmentOf(4, 1, 2) == PotentialLoyalists
    ensures SegmentOf(3, 3, 3) == LoyalCustomers
  {
  }

  // ---------------------------------------------------------------------
  // rfm_scores + rfm_segments
  // ---------------------------------------------------------------------

  datatype Scored = Scored(row: CustomerRfm, r: nat, f: nat, m: nat, segment: Segment)

  /** NTILE(5) of every row for one window ordering: scores lie in 1..5,
      never exceed the row count, and follow the sort order. */
  function Ntiles(keys: seq<real>, pos: seq<nat>, desc: bool): (s: seq<nat>)
    requires IsOrdering(keys, pos, desc)
    ensures |s| == |keys|
    ensures forall i :: 0 <= i < |s| ==> 1 <= s[i] <= 5 && s[i] <= |s|
    ensures forall i :: 0 <= i < |s| ==> s[i] == Ntile5(|s|, pos[i])
    ensures forall i, j :: 0 <= i < |s| && 0 <= j < |s| && SortsBefore(keys[i], keys[j], desc) ==> s[i] <= s[j]
  {
    var n := |keys|;
    var s := seq(n, i requires 0 <= i < n => Ntile5(n, pos[i]));
    assert forall i, j :: 0 <= i < n && 0 <= j < n && SortsBefore(keys[i], keys[j], desc) ==> s[i] <= s[j] by {
      forall i, j | 0 <= i < n && 0 <= j < n && SortsBefore(keys[i], keys[j], desc) ensures s[i] <= s[j] {
        Ntile5Monotone(n, pos[i], pos[j]);
      }
    }
    s
  }

  /** The rows given score b. */
  function WithScore(s: seq<nat>, b: nat): set<int>
  {
    set i | 0 <= i < |s| && s[i] == b
  }

  /** Distinct positions below n, one per row, are all of 0..n-1. */
  lemma PositionsOnto(pos: seq<nat>)
    requires forall i :: 0 <= i < |pos| ==> pos[i] < |pos|
    requires forall i, j :: 0 <= i < |pos| && 0 <= j < |pos| && i != j ==> pos[i] != pos[j]
    ensures Image(Interval(0, |pos|), pos) == Interval(0, |pos|)
  {
    var all := Interval(0, |pos|);
    InjectiveImageCard(all, pos);
    SubsetEqualCard(Image(all, pos), all);
  }

  /** The row at a given position, for positions that cover 0..n-1. */
  lemma RowAt(pos: seq<nat>, p: int) returns (i: int)
    requires Image(Interval(0, |pos|), pos) == Interval(0, |pos|)
    requires 0 <= p < |pos|
    ensures 0 <= i < |pos| && pos[i] == p
  {
    assert p in Image(Interval(0, |pos|), pos);
    i :| i in Interval(0, |pos|) && pos[i] as int == p;
  }

  /** Rows whose positions lie in [lo, hi) have their positions there. */
  lemma ImageWithin(a: set<int>, pos: seq<nat>, lo: int, hi: int)
    requires forall i :: i in a ==> 0 <= i < |pos| && lo <= pos[i] < hi
    ensures Image(a, pos) <= Interval(lo, hi)
  {
    forall p | p in Image(a, pos) ensures lo <= p < hi {
      var i :| i in a && pos[i] as int == p;
    }
  }

  /** A row scored b puts its position in the image of those rows. */
  lemma ScoredMember(pos: seq<nat>, s: seq<nat>, b: nat, i: int)
    requires |s| == |pos| && 0 <= i < |s| && s[i] == b
    ensures pos[i] as int in Image(WithScore(s, b), pos)
  {
    assert i in WithScore(s, b);
  }

  /** Every position in [lo, hi) is taken by a row scored b. */
  lemma WithinImage(pos: seq<nat>, s: seq<nat>, b: nat, lo: int, hi: int)
    requires |s| == |pos|
    requires Image(Interval(0, |pos|), pos) == Interval(0, |pos|)
    requires 0 <= lo <= hi <= |pos|
    requires forall i :: 0 <= i < |s| ==> (s[i] == b <==> lo <= pos[i] < hi)
    ensures Interval(lo, hi) <= Image(WithScore(s, b), pos)
  {
    forall p | lo <= p < hi ensures p in Image(WithScore(s, b), pos) {
      var i := RowAt(pos, p);
      ScoredMember(pos, s, b, i);
    }
  }

  /** For distinct positions covering 0..n-1, the rows whose position
      lies in [lo, hi) are hi - lo many. */
  lemma CountByPositions(pos: seq<nat>, s: seq<nat>, b: nat, lo: int, hi: int)
    requires |s| == |pos|
    requires forall i :: 0 <= i < |pos| ==> pos[i] < |pos|
    requires forall i, j :: 0 <= i < |pos| && 0 <= j < |pos| && i != j ==> pos[i] != pos[j]
    requires 0 <= lo <= hi <= |pos|
    requires forall i :: 0 <= i < |s| ==> (s[i] == b <==> lo <= pos[i] < hi)
    ensures |WithScore(s, b)| == hi - lo
  {
    var a := WithScore(s, b);
    PositionsOnto(pos);
    InjectiveImageCard(a, pos);
    ImageWithin(a, pos, lo, hi);
    WithinImage(pos, s, b, lo, hi);
    assert Image(a, pos) == Interval(lo, hi);
  }

  /** Scores given by bucket of position, for distinct positions: the rows
      with score b are as many as the positions of bucket b. */
  lemma BucketCount(pos: seq<nat>, s: seq<nat>, b: nat)
    requires |s| == |pos|
    requires forall i :: 0 <= i < |pos| ==> pos[i] < |pos|
    requires forall i, j :: 0 <= i < |pos| && 0 <= j < |pos| && i != j ==> pos[i] != pos[j]
    requires forall i :: 0 <= i < |s| ==> s[i] == Ntile5(|s|, pos[i])
    requires 1 <= b <= 5
    ensures |WithScore(s, b)| == BucketStart(|s|, b + 1) - BucketStart(|s|, b)
  {
    var n := |s|;
    var lo := BucketStart(n, b);
    var hi := BucketStart(n, b + 1);
    BucketStartMonotone(n, b, b + 1);
    BucketStartMonotone(n, b + 1, 6);
    forall i | 0 <= i < n ensures s[i] == b <==> lo <= pos[i] < hi {
      if lo <= pos[i] < hi {
        PositionInBucket(n, pos[i], b);
      }
    }
    CountByPositions(pos, s, b, lo, hi);
  }

  /** Over any admissible ordering, NTILE(5) gives score b to exactly as
      many rows as bucket b's interval of sort positions holds: so the
      score counts differ by at most one, larger first (Ntile5BucketSizes). */
  lemma NtileCounts(keys: seq<real>, pos: seq<nat>, desc: bool, b: nat)
    requires IsOrdering(keys, pos, desc)
    requires 1 <= b <= 5
    ensures |WithScore(Ntiles(keys, pos, desc), b)| == BucketStart(|keys|, b + 1) - BucketStart(|keys|, b)
  {
    BucketCount(pos, Ntiles(keys, pos, desc), b);
  }

  /** NTILE(5) OVER (ORDER BY recency_days DESC / frequency / monetary_value)
      for the three given sort orders, and the segment of each triple. */
  function ScoreRows(rows: seq<CustomerRfm>, rPos: seq<nat>, fPos: seq<nat>, mPos: seq<nat>): (scored: seq<Scored>)
    requires IsOrdering(RecencyKeys(rows), rPos, true)
    requires IsOrdering(FrequencyKeys(rows), fPos, false)
    requires IsOrdering(MonetaryKeys(rows), mPos, false)
    ensures |scored| == |rows|
    ensures forall i :: 0 <= i < |rows| ==> scored[i].row == rows[i]
    ensures forall i :: 0 <= i < |rows| ==>
      && 1 <= scored[i].r <= 5 && scored[i].r <= |rows|
      && 1 <= scored[i].f <= 5 && scored[i].f <= |rows|
      && 1 <= scored[i].m <= 5 && scored[i].m <= |rows|
    ensures forall i :: 0 <= i < |rows| ==>
      && scored[i].r == Ntile5(|rows|, rPos[i])
      && scored[i].f == Ntile5(|rows|, fPos[i])
      && scored[i].m == Ntile5(|rows|, mPos[i])
    ensures forall i :: 0 <= i < |rows| ==> scored[i].segment == SegmentOf(scored[i].r, scored[i].f, scored[i].m)
  {
    var n := |rows|;
    var rs := Ntiles(RecencyKeys(rows), rPos, true);
    var fs := Ntiles(FrequencyKeys(rows), fPos, false);
    var ms := Ntiles(MonetaryKeys(rows), mPos, false);
    seq(n, i requires 0 <= i < n => Scored(rows[i], rs[i], fs[i], ms[i], SegmentOf(rs[i], fs[i], ms[i])))
  }

  /** R scores r, F scores f and M scores m. */
  function RScores(scored: seq<Scored>): (r: seq<nat>)
    ensures |r| == |scored| && forall i :: 0 <= i < |r| ==> r[i] == scored[i].r
  {
    seq(|scored|, i requires 0 <= i < |scored| => scored[i].r)
  }

  function FScores(scored: seq<Scored>): (r: seq<nat>)
    ensures |r| == |scored| && forall i :: 0 <= i < |r| ==> r[i] == scored[i].f
  {
    seq(|scored|, i requires 0 <= i < |scored| => scored[i].f)
  }

  function MScores(scored: seq<Scored>): (r: seq<nat>)
    ensures |r| == |scored| && forall i :: 0 <= i < |r| ==> r[i] == scored[i].m
  {
    seq(|scored|, i requires 0 <= i < |scored| => scored[i].m)
  }

  /** Each of the three scores puts exactly the NTILE(5) bucket sizes in
      each score: the first n % 5 scores get one row more than the rest. */
  lemma ScoreCounts(rows: seq<CustomerRfm>, rPos: seq<nat>, fPos: seq<nat>, mPos: seq<nat>, b: nat)
    requires IsOrdering(RecencyKeys(rows), rPos, true)
    requires IsOrdering(FrequencyKeys(rows), fPos, false)
    requires IsOrdering(MonetaryKeys(rows), mPos, false)
    requires 1 <= b <= 5
    ensures var scored := ScoreRows(rows, rPos, fPos, mPos);
      && |WithScore(RScores(scored), b)| == BucketStart(|rows|, b + 1) - BucketStart(|rows|, b)
      && |WithScore(FScores(scored), b)| == BucketStart(|rows|, b + 1) - BucketStart(|rows|, b)
      && |WithScore(MScores(scored), b)| == BucketStart(|rows|, b + 1) - BucketStart(|rows|, b)
  {
    var scored := ScoreRows(rows, rPos, fPos, mPos);
    BucketCount(rPos, RScores(scored), b);
    BucketCount(fPos, FScores(scored), b);
    BucketCount(mPos, MScores(scored), b);
  }

  /** A more recent customer never has a lower recency score, and more
      orders or more spending never a lower frequency or monetary score. */
  lemma ScoresMonotone(rows: seq<CustomerRfm>, rPos: seq<nat>, fPos: seq<nat>, mPos: seq<nat>, i: int, j: int)
    requires IsOrdering(RecencyKeys(rows), rPos, true)
    requires IsOrdering(FrequencyKeys(rows), fPos, false)
    requires IsOrdering(MonetaryKeys(rows), mPos, false)
    requires 0 <= i < |rows| && 0 <= j < |rows|
    ensures var scored := ScoreRows(rows, rPos, fPos, mPos);
      && (rows[i].recencyDays > rows[j].recencyDays ==> scored[i].r <= scored[j].r)
      && (rows[i].frequency < rows[j].frequency ==> scored[i].f <= scored[j].f)
      && (rows[i].monetary < rows[j].monetary ==> scored[i].m <= scored[j].m)
  {
    assert RecencyKeys(rows)[i] == rows[i].recencyDays && RecencyKeys(rows)[j] == rows[j].recencyDays;
    assert FrequencyKeys(rows)[i] == rows[i].frequency as real && FrequencyKeys(rows)[j] == rows[j].frequency as real;
    assert MonetaryKeys(rows)[i] == rows[i].monetary && MonetaryKeys(rows)[j] == rows[j].monetary;
  }

  /** With fewer than four customers no score reaches 4, so no label that
      needs a 4 is ever assigned. */
  lemma SmallPopulationLabels(rows: seq<CustomerRfm>, rPos: seq<nat>, fPos: seq<nat>, mPos: seq<nat>, i: nat)
    requires IsOrdering(RecencyKeys(rows), rPos, true)
    requires IsOrdering(FrequencyKeys(rows), fPos, false)
    requires IsOrdering(MonetaryKeys(rows), mPos, false)
    requires |rows| <= 3 && i < |rows|
    ensures ScoreRows(rows, rPos, fPos, mPos)[i].segment !in {Champions, NewCustomers, AtRiskCustomers, CannotLoseThem}
  {
  }

  /** Three customers A (recency 2, 5 orders, 1000), B (300, 1, 50) and
      C (60, 3, 400): whatever order the engine picks, A scores (3,3,3) and is
      a Loyal Customer, B scores (1,1,1) and is Lost, C scores (2,2,2). */
  lemma ThreeCustomerExample(rPos: seq<nat>, fPos: seq<nat>, mPos: seq<nat>)
    requires IsOrdering(RecencyKeys(ExampleRows()), rPos, true)
    requires IsOrdering(FrequencyKeys(ExampleRows()), fPos, false)
    requires IsOrdering(MonetaryKeys(ExampleRows()), mPos, false)
    ensures var s := ScoreRows(ExampleRows(), rPos, fPos, mPos);
      && s[0].r == 3 && s[0].f == 3 && s[0].m == 3 && s[0].segment == LoyalCustomers
      && s[1].r == 1 && s[1].f == 1 && s[1].m == 1 && s[1].segment == LostCustomers
      && s[2].r == 2 && s[2].f == 2 && s[2].m == 2 && s[2].segment == Others
  {
    var rows := ExampleRows();
    ForcedOrder(RecencyKeys(rows), rPos, true);
    ForcedOrder(FrequencyKeys(rows), fPos, false);
    ForcedOrder(MonetaryKeys(rows), mPos, false);
  }

  /** Three keys with key[1] sorting first, key[2] second and key[0] last
      leave the engine a single ordering. */
  lemma ForcedOrder(keys: seq<real>, pos: seq<nat>, desc: bool)
    requires |keys| == 3 && IsOrdering(keys, pos, desc)
    requires SortsBefore(keys[1], keys[2], desc) && SortsBefore(keys[2], keys[0], desc)
    ensures pos == [2, 0, 1]
  {
    assert pos[1] < pos[2] < pos[0] < 3;
  }

  function ExampleRows(): seq<CustomerRfm>
  {
    [CustomerRfm(1, "", "", 2.0, 5, 1000.0),
     CustomerRfm(2, "", "", 300.0, 1, 50.0),
     CustomerRfm(3, "", "", 60.0, 3, 400.0)]
  }

  // ---------------------------------------------------------------------
  // The per-segment summary
  // ---------------------------------------------------------------------

  datatype SegmentSummary = SegmentSummary(
    segment: Segment,
    customerCount: nat,
    percentage: real,
    avgRecencyDays: real,
    avgFrequency: real,
    avgMonetary: real,
    totalMonetary: real,
    revenuePercentage: real)

  function SegmentsOf(scored: seq<Scored>): seq<Segment>
  {
    seq(|scored|, i requires 0 <= i < |scored| => scored[i].segment)
  }

  function MonetaryOf(scored: seq<Scored>): seq<real>
  {
    seq(|scored|, i requires 0 <= i < |scored| => scored[i].row.monetary)
  }

  function RecencyOf(scored: seq<Scored>): seq<real>
  {
    seq(|scored|, i requires 0 <= i < |scored| => scored[i].row.recencyDays)
  }

  function FrequencyOf(scored: seq<Scored>): seq<real>
  {
    seq(|scored|, i requires 0 <= i < |scored| => scored[i].row.frequency as real)
  }

  function InSegment(scored: seq<Scored>, s: Segment): seq<Scored>
  {
    Where(scored, (c: Scored) => c.segment == s)
  }

  lemma {:induction false} InSegmentCount(scored: seq<Scored>, s: Segment)
    ensures |InSegment(scored, s)| == Count(SegmentsOf(scored), s)
  {
    if scored != [] {
      InSegmentCount(scored[1..], s);
      assert SegmentsOf(scored)[1..] == SegmentsOf(scored[1..]);
    }
  }

  /** What one summary row reports about its segment. */
  predicate Describes(scored: seq<Scored>, row: SegmentSummary)
    requires |scored| > 0 && Sum(MonetaryOf(scored)) != 0.0
  {
    && row.customerCount == Count(SegmentsOf(scored), row.segment)
    && row.customerCount >= 1
    && row.percentage == row.customerCount as real / |scored| as real * 100.0
    && row.totalMonetary == Sum(MonetaryOf(InSegment(scored, row.segment)))
    && Avg(RecencyOf(InSegment(scored, row.segment))) == Some(row.avgRecencyDays)
    && Avg(FrequencyOf(InSegment(scored, row.segment))) == Some(row.avgFrequency)
    && Avg(MonetaryOf(InSegment(scored, row.segment))) == Some(row.avgMonetary)
    && row.revenuePercentage == row.totalMonetary / Sum(MonetaryOf(scored)) * 100.0
  }

  /** One output row of the summary, before ORDER BY. */
  function SummaryRow(scored: seq<Scored>, s: Segment): (row: SegmentSummary)
    requires |scored| > 0 && Sum(MonetaryOf(scored)) != 0.0
    requires s in SegmentsOf(scored)
    ensures row.segment == s
    ensures Describes(scored, row)
  {
    var g := InSegment(scored, s);
    InSegmentCount(scored, s);
    CountPositive(SegmentsOf(scored), s);
    var k := |g| as real;
    var total := Sum(MonetaryOf(g));
    SegmentSummary(
      s, |g|,
      k / |scored| as real * 100.0,
      Sum(RecencyOf(g)) / k,
      Sum(FrequencyOf(g)) / k,
      total / k,
      total,
      total / Sum(MonetaryOf(scored)) * 100.0)
  }

  function SummaryRows(keys: seq<Segment>, scored: seq<Scored>): (rows: seq<SegmentSummary>)
    requires |scored| > 0 && Sum(MonetaryOf(scored)) != 0.0
    requires forall s :: s in keys ==> s in SegmentsOf(scored)
    ensures |rows| == |keys|
    ensures forall i :: 0 <= i < |keys| ==> rows[i].segment == keys[i] && Describes(scored, rows[i])
    ensures SumOf(rows, (x: SegmentSummary) => x.customerCount) == GroupSizes(keys, SegmentsOf(scored))
  {
    if keys == [] then []
    else [SummaryRow(scored, keys[0])] + SummaryRows(keys[1..], scored)
  }

  function RevenueKey(x: SegmentSummary): real
  {
    x.revenuePercentage
  }

  /** The summary rows of a non-empty population, sorted. */
  function SortedSummary(scored: seq<Scored>): (rows: seq<SegmentSummary>)
    requires |scored| > 0 && Sum(MonetaryOf(scored)) != 0.0
    ensures SortedDesc(rows, RevenueKey)
    ensures SumOf(rows, (x: SegmentSummary) => x.customerCount) == |scored|
    ensures forall s :: s in SegmentsOf(scored) <==> exists row :: row in rows && row.segment == s
    ensures forall row :: row in rows ==> Describes(scored, row)
  {
    var keys := DistinctKeys(SegmentsOf(scored));
    var rows := SummaryRows(keys, scored);
    var sorted := SortDesc(rows, RevenueKey);
    GroupSizesTotal(keys, SegmentsOf(scored));
    SumOfSort(rows, RevenueKey, (x: SegmentSummary) => x.customerCount);
    SortDescMembers(rows, RevenueKey);
    RowPerKey(keys, rows);
    sorted
  }

  /** Rows made one per key hold a row for every key. */
  lemma RowPerKey(keys: seq<Segment>, rows: seq<SegmentSummary>)
    requires |rows| == |keys| && forall i :: 0 <= i < |keys| ==> rows[i].segment == keys[i]
    ensures forall s :: s in keys ==> exists row :: row in rows && row.segment == s
  {
    forall s | s in keys ensures exists row :: row in rows && row.segment == s {
      var i :| 0 <= i < |keys| && keys[i] == s;
      assert rows[i] in rows;
    }
  }

  /** The final SELECT ... GROUP BY customer_segment ORDER BY
      revenue_percentage DESC. `None` is the engine's division-by-zero
      error, raised when customers exist but their spend totals zero. */
  function Summarize(scored: seq<Scored>): (r: Option<seq<SegmentSummary>>)
    ensures r.None? <==> |scored| > 0 && Sum(MonetaryOf(scored)) == 0.0
    ensures |scored| == 0 ==> r == Some([])
    ensures r.Some? && |scored| > 0 ==>
      && SortedDesc(r.value, RevenueKey)
      && SumOf(r.value, (x: SegmentSummary) => x.customerCount) == |scored|
      && (forall s :: s in SegmentsOf(scored) <==> exists row :: row in r.value && row.segment == s)
      && (forall row :: row in r.value ==> Describes(scored, row))
  {
    if scored == [] then Some([])
    else if Sum(MonetaryOf(scored)) == 0.0 then None
    else Some(SortedSummary(scored))
  }
}
