/**
 * Shared vocabulary of the dashboard's queries: the source tables the pages
 * read (orders, order items), inclusive date windows, and the relational
 * building blocks the SQL uses (WHERE, COUNT, COUNT(DISTINCT), SUM, AVG,
 * GROUP BY keys, ORDER BY ... DESC) as functions over sequences of rows.
 */
module Facts {

  datatype Option<T> = None | Some(value: T)

  // ---------------------------------------------------------------------
  // Source tables
  // ---------------------------------------------------------------------

  /** One row of `orders` joined with its `customers` row
      (`customer` is the customer_unique_id; timestamps are in seconds). */
  datatype Order = Order(
    id: int,
    customer: int,
    city: string,
    state: string,
    status: string,
    purchase: int,
    delivered: Option<int>,
    estimated: Option<int>)

  /** One row of `order_items`. */
  datatype Item = Item(order: int, price: real, freight: real)

  /** One row of `orders JOIN order_items ON o.order_id = oi.order_id`. */
  datatype Line = Line(order: Order, item: Item)

  /** The items of one order, in table order. */
  function ItemsOf(items: seq<Item>, id: int): (r: seq<Item>)
    ensures forall it :: it in r <==> it in items && it.order == id
  {
    if items == [] then []
    else (if items[0].order == id then [items[0]] else []) + ItemsOf(items[1..], id)
  }

  function LinesOfOrder(o: Order, its: seq<Item>): (r: seq<Line>)
    ensures |r| == |its|
    ensures forall k :: 0 <= k < |r| ==> r[k] == Line(o, its[k])
  {
    seq(|its|, k requires 0 <= k < |its| => Line(o, its[k]))
  }

  /** The inner join of orders with their items: an order without items
      contributes no line. */
  function Lines(orders: seq<Order>, items: seq<Item>): (r: seq<Line>)
    ensures forall l :: l in r <==> l.order in orders && l.item in items && l.item.order == l.order.id
  {
    if orders == [] then []
    else
      var here := LinesOfOrder(orders[0], ItemsOf(items, orders[0].id));
      assert forall l: Line :: l in here <==> l.order == orders[0] && l.item in ItemsOf(items, orders[0].id) by {
        forall l: Line | l in here ensures l.order == orders[0] && l.item in ItemsOf(items, orders[0].id) {
          var k :| 0 <= k < |here| && here[k] == l;
        }
        forall l: Line | l.order == orders[0] && l.item in ItemsOf(items, orders[0].id) ensures l in here {
          var its := ItemsOf(items, orders[0].id);
          var k :| 0 <= k < |its| && its[k] == l.item;
          assert here[k] == l;
        }
      }
      here + Lines(orders[1..], items)
  }

  /** ItemsOf keeps each item of the order as often as the table holds it. */
  lemma {:induction false} ItemsOfMultiplicity(items: seq<Item>, id: int, it: Item)
    ensures multiset(ItemsOf(items, id))[it] == if it.order == id then multiset(items)[it] else 0
  {
    if items != [] {
      ItemsOfMultiplicity(items[1..], id, it);
      OccursCons(items, it);
    }
  }

  /** The multiplicity of x in a non-empty sequence: its head, then its tail. */
  lemma OccursCons<T>(xs: seq<T>, x: T)
    requires xs != []
    ensures multiset(xs)[x] == (if xs[0] == x then 1 else 0) + multiset(xs[1..])[x]
  {
    assert xs == [xs[0]] + xs[1..];
  }

  /** LinesOfOrder pairs the order with each item as often as it occurs. */
  lemma {:induction false} LinesOfOrderMultiplicity(o: Order, its: seq<Item>, l: Line)
    ensures multiset(LinesOfOrder(o, its))[l] == if l.order == o then multiset(its)[l.item] else 0
  {
    if its != [] {
      LinesOfOrderMultiplicity(o, its[1..], l);
      LinesOfOrderCons(o, its);
      OccursCons(LinesOfOrder(o, its), l);
      OccursCons(its, l.item);
    }
  }

  lemma LinesOfOrderCons(o: Order, its: seq<Item>)
    requires its != []
    ensures LinesOfOrder(o, its)[0] == Line(o, its[0])
    ensures LinesOfOrder(o, its)[1..] == LinesOfOrder(o, its[1..])
  {
  }

  /** The join holds each matching (order, item) pair once for every
      occurrence of the order times every occurrence of the item, and no
      other line: a bag-semantics inner join. */
  lemma {:induction false} LinesMultiplicity(orders: seq<Order>, items: seq<Item>, l: Line)
    ensures multiset(Lines(orders, items))[l] ==
      if l.item.order == l.order.id then multiset(orders)[l.order] * multiset(items)[l.item] else 0
  {
    if orders != [] {
      var o := orders[0];
      var its := ItemsOf(items, o.id);
      LinesStep(orders, items, l);
      LinesMultiplicity(orders[1..], items, l);
      LinesOfOrderMultiplicity(o, its, l);
      ItemsOfMultiplicity(items, o.id, l.item);
      OccursCons(orders, l.order);
      JoinCount(multiset(Lines(orders, items))[l], multiset(LinesOfOrder(o, its))[l],
                multiset(Lines(orders[1..], items))[l], multiset(orders)[l.order],
                multiset(orders[1..])[l.order], multiset(items)[l.item],
                l.order == o, l.item.order == l.order.id);
    }
  }

  /** One step of the join: the first order's lines, then the rest's. */
  lemma LinesStep(orders: seq<Order>, items: seq<Item>, l: Line)
    requires orders != []
    ensures multiset(Lines(orders, items))[l] ==
      multiset(LinesOfOrder(orders[0], ItemsOf(items, orders[0].id)))[l] + multiset(Lines(orders[1..], items))[l]
  {
  }

  /** The arithmetic of one join step. */
  lemma JoinCount(total: int, h: int, r: int, all: int, rest: nat, mi: nat, same: bool, matches: bool)
    requires total == h + r
    requires r == if matches then rest * mi else 0
    requires h == if same && matches then mi else 0
    requires all == (if same then 1 else 0) + rest
    ensures total == if matches then all * mi else 0
  {
    if same && matches {
      assert (rest + 1) * mi == rest * mi + mi;
    }
  }

  /** An inclusive `BETWEEN start AND end` window on timestamps. */
  datatype Window = Window(start: int, end: int)

  /** A date 'YYYY-MM-DD' compared with a timestamp is its midnight. */
  function Midnight(day: int): int { day * 86400 }

  /** The window the pages build from two dates: BETWEEN the midnights of
      both days, so the end day itself counts only at 00:00:00. */
  function DateWindow(startDay: int, endDay: int): (w: Window)
    ensures w.start == Midnight(startDay) && w.end == Midnight(endDay)
  {
    Window(Midnight(startDay), Midnight(endDay))
  }

  /** An absent filter (`date_filter = ""`) keeps every row. */
  predicate InWindow(ts: int, w: Option<Window>)
  {
    w.None? || (w.value.start <= ts && ts <= w.value.end)
  }

  // ---------------------------------------------------------------------
  // Relational helpers
  // ---------------------------------------------------------------------

  /** WHERE p: the rows satisfying p, in their original order. */
  function Where<T(!new)>(xs: seq<T>, p: T -> bool): (r: seq<T>)
    ensures |r| <= |xs|
    ensures forall x :: x in r <==> x in xs && p(x)
  {
    if xs == [] then [] else (if p(xs[0]) then [xs[0]] else []) + Where(xs[1..], p)
  }

  /** Number of occurrences of x in xs (COUNT(*) of a group). */
  function Count<T(==)>(xs: seq<T>, x: T): nat
  {
    if xs == [] then 0 else (if xs[0] == x then 1 else 0) + Count(xs[1..], x)
  }

  /** A value absent from xs occurs in it zero times. */
  lemma {:induction false} CountAbsent<T>(xs: seq<T>, x: T)
    requires x !in xs
    ensures Count(xs, x) == 0
  {
    if xs != [] {
      assert forall y :: y in xs[1..] ==> y in xs;
      CountAbsent(xs[1..], x);
    }
  }

  /** Number of elements of xs that lie in s. */
  function CountIn<T(==)>(xs: seq<T>, s: set<T>): nat
  {
    if xs == [] then 0 else (if xs[0] in s then 1 else 0) + CountIn(xs[1..], s)
  }

  /** COUNT(DISTINCT e). */
  function CountDistinct<T(==,!new)>(xs: seq<T>): nat
  {
    |set x | x in xs|
  }

  predicate NoDup<T(==)>(xs: seq<T>)
  {
    forall i, j :: 0 <= i < j < |xs| ==> xs[i] != xs[j]
  }

  /** The GROUP BY keys of a column: each value once. */
  function DistinctKeys<T(==,!new)>(xs: seq<T>): (r: seq<T>)
    ensures NoDup(r)
    ensures forall x :: x in r <==> x in xs
    ensures |r| <= |xs|
  {
    if xs == [] then []
    else if xs[0] in xs[1..] then DistinctKeys(xs[1..])
    else [xs[0]] + DistinctKeys(xs[1..])
  }

  /** SUM of a column of reals (0 for no rows; callers model NULL). */
  function Sum(xs: seq<real>): real
  {
    if xs == [] then 0.0 else xs[0] + Sum(xs[1..])
  }

  /** Sum of an integer-valued weight over the rows. */
  function SumOf<T>(xs: seq<T>, w: T -> int): int
  {
    if xs == [] then 0 else w(xs[0]) + SumOf(xs[1..], w)
  }

  /** AVG of a non-empty column. */
  function Mean(xs: seq<real>): real
    requires |xs| > 0
  {
    Sum(xs) / |xs| as real
  }

  /** AVG over possibly empty rows: NULL for no rows. */
  function Avg(xs: seq<real>): (r: Option<real>)
    ensures r.Some? <==> |xs| > 0
  {
    if xs == [] then None else Some(Mean(xs))
  }

  function MaxOf(xs: seq<int>): (m: int)
    requires |xs| > 0
    ensures m in xs
    ensures forall x :: x in xs ==> x <= m
  {
    if |xs| == 1 then xs[0]
    else
      var rest := MaxOf(xs[1..]);
      assert forall x :: x in xs ==> x == xs[0] || x in xs[1..];
      if xs[0] >= rest then xs[0] else rest
  }

  function MinOf(xs: seq<int>): (m: int)
    requires |xs| > 0
    ensures m in xs
    ensures forall x :: x in xs ==> m <= x
  {
    if |xs| == 1 then xs[0]
    else
      var rest := MinOf(xs[1..]);
      assert forall x :: x in xs ==> x == xs[0] || x in xs[1..];
      if xs[0] <= rest then xs[0] else rest
  }

  // ---------------------------------------------------------------------
  // ORDER BY key DESC
  // ---------------------------------------------------------------------

  predicate SortedDesc<T>(xs: seq<T>, key: T -> real)
  {
    forall i, j :: 0 <= i < j < |xs| ==> key(xs[i]) >= key(xs[j])
  }

  function InsertDesc<T(!new)>(x: T, s: seq<T>, key: T -> real): (r: seq<T>)
    requires SortedDesc(s, key)
    ensures |r| == |s| + 1
    ensures multiset(r) == multiset(s) + multiset{x}
    ensures SortedDesc(r, key)
  {
    if s == [] || key(x) >= key(s[0]) then [x] + s
    else
      var rest := InsertDesc(x, s[1..], key);
      InsertDescStep(x, s, rest, key);
      [s[0]] + rest
  }

  /** The step of InsertDesc that keeps the head in front. */
  lemma InsertDescStep<T>(x: T, s: seq<T>, rest: seq<T>, key: T -> real)
    requires SortedDesc(s, key) && s != [] && key(x) < key(s[0])
    requires SortedDesc(rest, key)
    requires multiset(rest) == multiset(s[1..]) + multiset{x}
    ensures multiset([s[0]] + rest) == multiset(s) + multiset{x}
    ensures SortedDesc([s[0]] + rest, key)
  {
    assert s == [s[0]] + s[1..];
    forall e | e in rest ensures key(e) <= key(s[0]) {
      assert e in multiset(rest);
      if e != x {
        assert e in multiset(s[1..]);
        var j :| 0 <= j < |s[1..]| && s[1..][j] == e;
        assert e == s[j + 1];
      }
    }
    ConsSorted(s[0], rest, key);
  }

  /** A stable-free insertion sort: rows in non-increasing order of key,
      the same rows as the input. */
  function SortDesc<T(!new)>(xs: seq<T>, key: T -> real): (r: seq<T>)
    ensures |r| == |xs|
    ensures multiset(r) == multiset(xs)
    ensures SortedDesc(r, key)
  {
    if xs == [] then []
    else
      assert xs == [xs[0]] + xs[1..];
      InsertDesc(xs[0], SortDesc(xs[1..], key), key)
  }

  // ---------------------------------------------------------------------
  // Lemmas about the helpers
  // ---------------------------------------------------------------------

  lemma {:induction false} SumOfAppend<T>(a: seq<T>, b: seq<T>, w: T -> int)
    ensures SumOf(a + b, w) == SumOf(a, w) + SumOf(b, w)
  {
    if a == [] {
      assert a + b == b;
    } else {
      assert (a + b)[1..] == a[1..] + b;
      SumOfAppend(a[1..], b, w);
    }
  }

  lemma {:induction false} SumOfInsert<T(!new)>(x: T, s: seq<T>, key: T -> real, w: T -> int)
    requires SortedDesc(s, key)
    ensures SumOf(InsertDesc(x, s, key), w) == w(x) + SumOf(s, w)
  {
    if s == [] || key(x) >= key(s[0]) {
    } else {
      SumOfInsert(x, s[1..], key, w);
    }
  }

  /** Sorting does not change a column total. */
  lemma {:induction false} SumOfSort<T(!new)>(xs: seq<T>, key: T -> real, w: T -> int)
    ensures SumOf(SortDesc(xs, key), w) == SumOf(xs, w)
  {
    if xs != [] {
      SumOfSort(xs[1..], key, w);
      SumOfInsert(xs[0], SortDesc(xs[1..], key), key, w);
    }
  }

  lemma {:induction false} CountInSplit<T>(xs: seq<T>, s: set<T>, k: T)
    requires k !in s
    ensures CountIn(xs, s + {k}) == CountIn(xs, s) + Count(xs, k)
  {
    if xs != [] {
      CountInSplit(xs[1..], s, k);
    }
  }

  lemma {:induction false} CountInAll<T>(xs: seq<T>, s: set<T>)
    requires forall x :: x in xs ==> x in s
    ensures CountIn(xs, s) == |xs|
  {
    if xs != [] {
      CountInAll(xs[1..], s);
    }
  }

  lemma {:induction false} CountInBound<T>(xs: seq<T>, s: set<T>)
    ensures CountIn(xs, s) <= |xs|
  {
    if xs != [] {
      CountInBound(xs[1..], s);
    }
  }

  /** Sum over distinct keys of the size of their groups. */
  function GroupSizes<T(==)>(keys: seq<T>, xs: seq<T>): nat
  {
    if keys == [] then 0 else Count(xs, keys[0]) + GroupSizes(keys[1..], xs)
  }

  lemma {:induction false} GroupSizesCountIn<T>(keys: seq<T>, xs: seq<T>)
    requires NoDup(keys)
    ensures GroupSizes(keys, xs) == CountIn(xs, set k | k in keys)
  {
    if keys == [] {
      assert (set k | k in keys) == {};
      CountInNone(xs);
    } else {
      GroupSizesCountIn(keys[1..], xs);
      var rest := set k | k in keys[1..];
      assert keys[0] !in rest by {
        assert forall j :: 0 <= j < |keys[1..]| ==> keys[1..][j] == keys[j + 1] != keys[0];
      }
      assert (set k | k in keys) == rest + {keys[0]} by {
        assert forall k :: k in keys <==> k == keys[0] || k in keys[1..];
      }
      CountInSplit(xs, rest, keys[0]);
    }
  }

  lemma {:induction false} CountInNone<T>(xs: seq<T>)
    ensures CountIn(xs, {}) == 0
  {
    if xs != [] {
      CountInNone(xs[1..]);
    }
  }

  /** GROUP BY partitions the rows: when every row's key is one of the
      distinct keys, the group sizes add up to the number of rows. */
  lemma GroupSizesTotal<T>(keys: seq<T>, xs: seq<T>)
    requires NoDup(keys)
    requires forall x :: x in xs ==> x in keys
    ensures GroupSizes(keys, xs) == |xs|
  {
    GroupSizesCountIn(keys, xs);
    CountInAll(xs, set k | k in keys);
  }

  /** The groups of distinct keys never hold more rows than there are. */
  lemma GroupSizesBound<T>(keys: seq<T>, xs: seq<T>)
    requires NoDup(keys)
    ensures GroupSizes(keys, xs) <= |xs|
  {
    GroupSizesCountIn(keys, xs);
    CountInBound(xs, set k | k in keys);
  }

  lemma {:induction false} CountPositive<T>(xs: seq<T>, x: T)
    requires x in xs
    ensures Count(xs, x) >= 1
  {
    if xs[0] != x {
      CountPositive(xs[1..], x);
    }
  }

  /** A subset never has more elements. */
  lemma {:induction false} SubsetCard<T>(a: set<T>, b: set<T>)
    requires a <= b
    ensures |a| <= |b|
    decreases |b|
  {
    if a != {} {
      var x :| x in a;
      SubsetCard(a - {x}, b - {x});
    }
  }

  /** A subset with as many elements is the whole set. */
  lemma SubsetEqualCard<T>(a: set<T>, b: set<T>)
    requires a <= b && |a| == |b|
    ensures a == b
  {
    if a != b {
      var x :| x in b && x !in a;
      SubsetCard(a, b - {x});
    }
  }

  /** The integers lo, lo + 1, .., hi - 1. */
  function Interval(lo: int, hi: int): (r: set<int>)
    ensures forall p :: p in r <==> lo <= p < hi
    ensures lo <= hi ==> |r| == hi - lo
    decreases hi - lo
  {
    if lo >= hi then {} else Interval(lo, hi - 1) + {hi - 1}
  }

  /** The positions a sequence gives to a set of its indices. */
  function Image(a: set<int>, f: seq<nat>): set<int>
    requires forall i :: i in a ==> 0 <= i < |f|
  {
    set i | i in a :: f[i] as int
  }

  /** Some member of a non-empty set. */
  lemma Pick<T>(a: set<T>) returns (x: T)
    requires a != {}
    ensures x in a
  {
    x :| x in a;
  }

  /** An injective sequence maps a set of its indices onto a set of the
      same size. */
  lemma {:induction false} InjectiveImageCard(a: set<int>, f: seq<nat>)
    requires forall i :: i in a ==> 0 <= i < |f|
    requires forall i, j :: i in a && j in a && i != j ==> f[i] != f[j]
    ensures |Image(a, f)| == |a|
  {
    if a != {} {
      var x := Pick(a);
      var rest := a - {x};
      InjectiveImageCard(rest, f);
      assert Image(a, f) == Image(rest, f) + {f[x] as int};
      assert f[x] as int !in Image(rest, f);
    } else {
      assert Image(a, f) == {};
    }
  }

  lemma {:induction false} SumBounds(xs: seq<real>, lo: real, hi: real)
    requires forall i :: 0 <= i < |xs| ==> lo <= xs[i] <= hi
    ensures |xs| as real * lo <= Sum(xs) <= |xs| as real * hi
  {
    if xs != [] {
      SumBounds(xs[1..], lo, hi);
    }
  }

  /** The average times the number of rows gives back the sum. */
  lemma MeanTimesCount(xs: seq<real>)
    requires |xs| > 0
    ensures Mean(xs) * |xs| as real == Sum(xs)
  {
    var n := |xs| as real;
    var t := Sum(xs);
    assert (t / n) * n == t;
  }

  lemma AvgTimesCount(xs: seq<real>)
    ensures Avg(xs).Some? ==> Avg(xs).value * |xs| as real == Sum(xs)
  {
    if xs != [] {
      var n := |xs| as real;
      var t := Sum(xs);
      assert (t / n) * n == t;
    }
  }

  /** An average lies between any bounds of its column. */
  lemma MeanBounds(xs: seq<real>, lo: real, hi: real)
    requires |xs| > 0
    requires forall i :: 0 <= i < |xs| ==> lo <= xs[i] <= hi
    ensures lo <= Mean(xs) <= hi
  {
    SumBounds(xs, lo, hi);
    var n := |xs| as real;
    assert n > 0.0;
    assert Sum(xs) / n <= hi by {
      assert Sum(xs) <= n * hi;
    }
    assert lo <= Sum(xs) / n by {
      assert n * lo <= Sum(xs);
    }
  }

  /** A part of a whole, as a percentage, is above 0 and at most 100. */
  /** A count over a larger positive count is a fraction in [0, 1]. */
  lemma RatioBounds(part: nat, whole: nat)
    requires 1 <= whole && part <= whole
    ensures 0.0 <= part as real / whole as real <= 1.0
  {
    var q := part as real / whole as real;
    assert q * whole as real == part as real;
  }

  lemma ShareBounds(part: int, whole: int)
    requires 1 <= part <= whole
    ensures 0.0 < part as real / whole as real * 100.0 <= 100.0
  {
    var p, w := part as real, whole as real;
    assert p / w <= 1.0 by {
      assert p <= w;
    }
    assert p / w > 0.0;
  }

  /** A positive total over some rows has a positive mean. */
  lemma MeanPositive(xs: seq<real>)
    requires |xs| > 0 && Sum(xs) > 0.0
    ensures Mean(xs) > 0.0
  {
    var n := |xs| as real;
    var t := Sum(xs);
    assert t / n > 0.0;
  }

  lemma {:induction false} SumNonNeg(xs: seq<real>)
    requires forall i :: 0 <= i < |xs| ==> xs[i] >= 0.0
    ensures Sum(xs) >= 0.0
  {
    if xs != [] {
      SumNonNeg(xs[1..]);
    }
  }

  /** The distinct values of a column are no more than its rows, and
      exactly as many when the column holds no duplicate. */
  lemma {:induction false} SetOfSeqCard<T>(xs: seq<T>)
    ensures |set x | x in xs| <= |xs|
    ensures NoDup(xs) ==> |set x | x in xs| == |xs|
  {
    if xs != [] {
      SetOfSeqCard(xs[1..]);
      assert (set x | x in xs) == {xs[0]} + (set x | x in xs[1..]);
      if NoDup(xs) {
        assert NoDup(xs[1..]) by {
          assert forall i, j :: 0 <= i < j < |xs[1..]| ==> xs[1..][i] == xs[i + 1] && xs[1..][j] == xs[j + 1];
        }
        assert xs[0] !in xs[1..] by {
          assert forall j :: 0 <= j < |xs[1..]| ==> xs[1..][j] == xs[j + 1] != xs[0];
        }
      }
    }
  }

  lemma {:induction false} NoDupMultiplicity<T>(xs: seq<T>, x: T)
    requires NoDup(xs)
    ensures multiset(xs)[x] <= 1
  {
    if xs != [] {
      assert xs == [xs[0]] + xs[1..];
      assert NoDup(xs[1..]) by {
        assert forall i, j :: 0 <= i < j < |xs[1..]| ==> xs[1..][i] == xs[i + 1] && xs[1..][j] == xs[j + 1];
      }
      NoDupMultiplicity(xs[1..], x);
      if xs[0] == x {
        assert x !in xs[1..] by {
          assert forall j :: 0 <= j < |xs[1..]| ==> xs[1..][j] == xs[j + 1] != xs[0];
        }
      }
    }
  }

  /** Reordering a column without duplicates leaves it without duplicates. */
  lemma NoDupPermutation<T>(a: seq<T>, b: seq<T>)
    requires NoDup(a) && multiset(a) == multiset(b)
    ensures NoDup(b)
  {
    forall i, j | 0 <= i < j < |b| ensures b[i] != b[j] {
      if b[i] == b[j] {
        var x := b[i];
        assert b == b[..j] + b[j..];
        assert x in b[..j];
        assert x in b[j..];
        assert multiset(b)[x] == multiset(b[..j])[x] + multiset(b[j..])[x];
        NoDupMultiplicity(a, x);
        assert false;
      }
    }
  }

  /** A WHERE every row passes keeps the table as it is. */
  lemma {:induction false} WhereAll<T(!new)>(xs: seq<T>, p: T -> bool)
    requires forall x :: x in xs ==> p(x)
    ensures Where(xs, p) == xs
  {
    if xs != [] {
      assert xs[0] in xs;
      assert forall x :: x in xs[1..] ==> x in xs;
      WhereAll(xs[1..], p);
    }
  }

  lemma {:induction false} SumAbove(xs: seq<real>, lo: real)
    requires |xs| > 0
    requires forall i :: 0 <= i < |xs| ==> lo < xs[i]
    ensures |xs| as real * lo < Sum(xs)
  {
    if |xs| > 1 {
      SumAbove(xs[1..], lo);
    } else {
      assert Sum(xs[1..]) == 0.0;
    }
  }

  /** An average of values all above a bound is above it. */
  lemma MeanAbove(xs: seq<real>, lo: real)
    requires |xs| > 0
    requires forall i :: 0 <= i < |xs| ==> lo < xs[i]
    ensures lo < Mean(xs)
  {
    SumAbove(xs, lo);
    var n := |xs| as real;
    assert n * lo < Sum(xs);
  }

  /** Sorting neither adds nor drops a row. */
  lemma SortDescMembers<T(!new)>(xs: seq<T>, key: T -> real)
    ensures forall x :: x in SortDesc(xs, key) <==> x in xs
  {
    var r := SortDesc(xs, key);
    forall x ensures x in r <==> x in xs {
      assert x in r <==> x in multiset(r);
      assert x in xs <==> x in multiset(xs);
    }
  }

  /** An average of values all at most a bound is at most it. */
  lemma MeanAtMost(xs: seq<real>, hi: real)
    requires |xs| > 0
    requires forall i :: 0 <= i < |xs| ==> xs[i] <= hi
    ensures Mean(xs) <= hi
  {
    SumAtMost(xs, hi);
    var n := |xs| as real;
    assert Sum(xs) <= n * hi;
  }

  lemma {:induction false} SumAtMost(xs: seq<real>, hi: real)
    requires forall i :: 0 <= i < |xs| ==> xs[i] <= hi
    ensures Sum(xs) <= |xs| as real * hi
  {
    if xs != [] {
      SumAtMost(xs[1..], hi);
    }
  }

  /** A WHERE keeps a column free of duplicates. */
  lemma {:induction false} DistinctWhere<T(!new)>(xs: seq<T>, p: T -> bool)
    requires NoDup(xs)
    ensures NoDup(Where(xs, p))
  {
    if xs != [] {
      DistinctWhere(xs[1..], p);
      assert xs[0] !in xs[1..] by {
        assert forall j :: 0 <= j < |xs[1..]| ==> xs[1..][j] == xs[j + 1] != xs[0];
      }
    }
  }

  /** An average of values all at least a bound is at least it. */
  lemma MeanAtLeast(xs: seq<real>, lo: real)
    requires |xs| > 0
    requires forall i :: 0 <= i < |xs| ==> lo <= xs[i]
    ensures lo <= Mean(xs)
  {
    SumAtLeast(xs, lo);
    var n := |xs| as real;
    assert n * lo <= Sum(xs);
  }

  lemma {:induction false} SumAtLeast(xs: seq<real>, lo: real)
    requires forall i :: 0 <= i < |xs| ==> lo <= xs[i]
    ensures |xs| as real * lo <= Sum(xs)
  {
    if xs != [] {
      SumAtLeast(xs[1..], lo);
    }
  }

  /** A WHERE keeps the ORDER BY of its input. */
  lemma {:induction false} WhereSorted<T(!new)>(xs: seq<T>, p: T -> bool, key: T -> real)
    requires SortedDesc(xs, key)
    ensures SortedDesc(Where(xs, p), key)
  {
    if xs != [] {
      assert SortedDesc(xs[1..], key) by {
        assert forall i :: 0 <= i < |xs[1..]| ==> xs[1..][i] == xs[i + 1];
      }
      WhereSorted(xs[1..], p, key);
      var rest := Where(xs[1..], p);
      if p(xs[0]) {
        forall y | y in rest ensures key(y) <= key(xs[0]) {
          var k :| 0 <= k < |xs[1..]| && xs[1..][k] == y;
          assert xs[k + 1] == y;
        }
        ConsSorted(xs[0], rest, key);
      }
    }
  }

  lemma ConsSorted<T>(x: T, rest: seq<T>, key: T -> real)
    requires SortedDesc(rest, key)
    requires forall y :: y in rest ==> key(y) <= key(x)
    ensures SortedDesc([x] + rest, key)
  {
    var r := [x] + rest;
    forall i, j | 0 <= i < j < |r| ensures key(r[i]) >= key(r[j]) {
      assert r[j] == rest[j - 1] && rest[j - 1] in rest;
      if i > 0 {
        assert r[i] == rest[i - 1];
      }
    }
  }

  lemma {:induction false} WhereAppend<T(!new)>(a: seq<T>, b: seq<T>, p: T -> bool)
    ensures Where(a + b, p) == Where(a, p) + Where(b, p)
  {
    if a != [] {
      assert (a + b)[1..] == a[1..] + b;
      WhereAppend(a[1..], b, p);
    } else {
      assert a + b == b;
    }
  }

  /** Two conditions no row meets together select at most all rows. */
  lemma {:induction false} WhereDisjoint<T(!new)>(xs: seq<T>, p: T -> bool, q: T -> bool)
    requires forall x :: x in xs ==> !(p(x) && q(x))
    ensures |Where(xs, p)| + |Where(xs, q)| <= |xs|
  {
    if xs != [] {
      assert forall x :: x in xs[1..] ==> x in xs;
      WhereDisjoint(xs[1..], p, q);
      assert xs[0] in xs;
    }
  }

  /** A weaker condition selects at least as many rows, and strictly more
      when some row meets only the weaker one. */
  lemma {:induction false} WhereMonotone<T(!new)>(xs: seq<T>, p: T -> bool, q: T -> bool)
    requires forall x :: x in xs && p(x) ==> q(x)
    ensures |Where(xs, p)| <= |Where(xs, q)|
    ensures (exists x :: x in xs && q(x) && !p(x)) ==> |Where(xs, p)| < |Where(xs, q)|
  {
    if xs != [] {
      assert forall x :: x in xs[1..] ==> x in xs;
      WhereMonotone(xs[1..], p, q);
      assert xs[0] in xs;
      if x :| x in xs && q(x) && !p(x) {
        if x != xs[0] {
          assert x in xs[1..];
        }
      }
    }
  }

  /** The rows of one GROUP BY group. */
  function Group<T(!new), K(==)>(xs: seq<T>, key: T -> K, k: K): seq<T>
  {
    Where(xs, (x: T) => key(x) == k)
  }

  /** The sum over a group of keys of each key's rows. */
  function KeyedSums<T(!new), K(==)>(keys: seq<K>, xs: seq<T>, key: T -> K, w: T -> int): int
  {
    if keys == [] then 0
    else SumOf(Group(xs, key, keys[0]), w) + KeyedSums(keys[1..], xs, key, w)
  }

  /** When every row's key is listed, the groups' sums add up to the sum
      over all rows. */
  lemma KeyedSumsAll<T(!new), K>(keys: seq<K>, xs: seq<T>, key: T -> K, w: T -> int)
    requires NoDup(keys)
    requires forall x :: x in xs ==> key(x) in keys
    ensures KeyedSums(keys, xs, key, w) == SumOf(xs, w)
  {
    KeyedSumsTotal(keys, xs, key, w);
    WhereAll(xs, (x: T) => key(x) in keys);
  }

  lemma {:induction false} SumOfEither<T(!new)>(xs: seq<T>, p: T -> bool, q: T -> bool, r: T -> bool, w: T -> int)
    requires forall x :: x in xs ==> (r(x) <==> p(x) || q(x)) && !(p(x) && q(x))
    ensures SumOf(Where(xs, r), w) == SumOf(Where(xs, p), w) + SumOf(Where(xs, q), w)
  {
    if xs != [] {
      assert forall x :: x in xs[1..] ==> x in xs;
      SumOfEither(xs[1..], p, q, r, w);
      assert xs[0] in xs;
      SumOfHead(xs, r, w);
      SumOfHead(xs, p, w);
      SumOfHead(xs, q, w);
    }
  }

  lemma SumOfHead<T(!new)>(xs: seq<T>, p: T -> bool, w: T -> int)
    requires xs != []
    ensures SumOf(Where(xs, p), w) == (if p(xs[0]) then w(xs[0]) else 0) + SumOf(Where(xs[1..], p), w)
  {
    var rest := Where(xs[1..], p);
    if p(xs[0]) {
      assert Where(xs, p) == [xs[0]] + rest;
      assert ([xs[0]] + rest)[1..] == rest;
    } else {
      assert Where(xs, p) == rest;
    }
  }

  lemma {:induction false} WhereNone<T(!new)>(xs: seq<T>, p: T -> bool)
    requires forall x :: x in xs ==> !p(x)
    ensures Where(xs, p) == []
  {
    if xs != [] {
      assert xs[0] in xs;
      assert forall x :: x in xs[1..] ==> x in xs;
      WhereNone(xs[1..], p);
    }
  }

  /** GROUP BY a key keeps every row in exactly one group, so the groups'
      sums add up to the sum over the rows whose key is listed. */
  lemma {:induction false} KeyedSumsTotal<T(!new), K>(keys: seq<K>, xs: seq<T>, key: T -> K, w: T -> int)
    requires NoDup(keys)
    ensures KeyedSums(keys, xs, key, w) == SumOf(Where(xs, (x: T) => key(x) in keys), w)
  {
    if keys == [] {
      WhereNone(xs, (x: T) => key(x) in keys);
    } else {
      assert NoDup(keys[1..]) by {
        assert forall i :: 0 <= i < |keys[1..]| ==> keys[1..][i] == keys[i + 1];
      }
      KeyedSumsTotal(keys[1..], xs, key, w);
      assert keys[0] !in keys[1..] by {
        assert forall j :: 0 <= j < |keys[1..]| ==> keys[1..][j] == keys[j + 1] != keys[0];
      }
      assert forall k :: k in keys <==> k == keys[0] || k in keys[1..];
      SumOfEither(xs, (x: T) => key(x) == keys[0], (x: T) => key(x) in keys[1..], (x: T) => key(x) in keys, w);
    }
  }
}
