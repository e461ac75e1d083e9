/**
 * Post-processing of the cohort table in the two cohort pages: the
 * 'YYYY-MM' cohort labels and their order, the "N most recent cohorts"
 * filter, the headline metrics, the twelve-cohort chronology and the
 * quarter / semester keys.
 */
module CohortPage {
  import opened Facts
  import opened Cohorts

  // ---------------------------------------------------------------------
  // Cohort labels: strftime('%Y-%m') on the cohort month
  // ---------------------------------------------------------------------

  function Digit(d: int): (c: char)
    requires 0 <= d <= 9
    ensures '0' <= c <= '9'
    ensures c as int - '0' as int == d
  {
    ('0' as int + d) as char
  }

  function DigitValue(c: char): int
  {
    c as int - '0' as int
  }

  /** %Y for a four-digit year. */
  function Year4(y: int): (s: string)
    requires 1000 <= y <= 9999
    ensures |s| == 4
    ensures y == 1000 * DigitValue(s[0]) + 100 * DigitValue(s[1]) + 10 * DigitValue(s[2]) + DigitValue(s[3])
    ensures forall i :: 0 <= i < 4 ==> 0 <= DigitValue(s[i]) <= 9
  {
    var r := y % 1000;
    [Digit(y / 1000), Digit(r / 100), Digit(r % 100 / 10), Digit(r % 100 % 10)]
  }

  /** %m: the month number 1..12 on two digits. */
  function Month2(m: int): (s: string)
    requires 1 <= m <= 12
    ensures |s| == 2
  {
    [Digit(m / 10), Digit(m % 10)]
  }

  /** A cohort month index is year * 12 + (month - 1). */
  predicate LabelledMonth(mi: int)
  {
    1000 * 12 <= mi < 10000 * 12
  }

  function MonthLabel(mi: int): (s: string)
    requires LabelledMonth(mi)
    ensures |s| == 7 && s[4] == '-'
  {
    Year4(mi / 12) + "-" + Month2(mi % 12 + 1)
  }

  /** Python's `<` on strings: the first difference decides, and a proper
      prefix comes first. */
  predicate LessAt(s: string, t: string, k: int)
  {
    0 <= k <= |s| && k <= |t| && s[..k] == t[..k] && (if k == |s| then k < |t| else k < |t| && s[k] < t[k])
  }

  predicate LexLess(s: string, t: string)
  {
    exists k :: 0 <= k <= |s| && LessAt(s, t, k)
  }

  lemma LexLessIrreflexive(s: string)
    ensures !LexLess(s, s)
  {
  }

  lemma LexLessAsymmetric(s: string, t: string)
    requires LexLess(s, t)
    ensures !LexLess(t, s)
  {
    var k :| 0 <= k <= |s| && LessAt(s, t, k);
    forall j | 0 <= j <= |t| ensures !LessAt(t, s, j) {
      if j < k {
        assert s[..k][j] == s[j] && t[..k][j] == t[j];
      } else if k < j && j <= |s| {
        assert s[..j][k] == s[k] && t[..j][k] == t[k];
      }
    }
  }

  /** Two labels that agree up to position k and differ there. */
  lemma LessAtWitness(s: string, t: string, k: int)
    requires 0 <= k < |s| && k < |t|
    requires forall i :: 0 <= i < k ==> s[i] == t[i]
    requires s[k] < t[k]
    ensures LexLess(s, t)
  {
    assert s[..k] == t[..k];
    assert LessAt(s, t, k);
  }

  lemma YearOrder(a: int, b: int, x: string, y: string)
    requires 1000 <= a < b <= 9999
    ensures LexLess(Year4(a) + x, Year4(b) + y)
  {
    var p, q := Year4(a), Year4(b);
    var s, t := p + x, q + y;
    assert forall i :: 0 <= i < 4 ==> s[i] == p[i] && t[i] == q[i];
    var k := FirstLargerDigit(p, q);
    LessAtWitness(s, t, k);
  }

  /** The value of four decimal digits. */
  function FourDigits(s: string): int
    requires |s| == 4
  {
    1000 * DigitValue(s[0]) + 100 * DigitValue(s[1]) + 10 * DigitValue(s[2]) + DigitValue(s[3])
  }

  /** Of two four-digit numbers, the smaller has the smaller digit at the
      first position where they differ. */
  lemma FirstLargerDigit(p: string, q: string) returns (k: int)
    requires |p| == 4 && |q| == 4
    requires forall i :: 0 <= i < 4 ==> 0 <= DigitValue(p[i]) <= 9 && 0 <= DigitValue(q[i]) <= 9
    requires FourDigits(p) < FourDigits(q)
    ensures 0 <= k < 4
    ensures forall i :: 0 <= i < k ==> p[i] == q[i]
    ensures p[k] < q[k]
  {
    if p[0] != q[0] {
      k := 0;
    } else if p[1] != q[1] {
      k := 1;
    } else if p[2] != q[2] {
      k := 2;
    } else {
      k := 3;
    }
  }

  lemma MonthOrder(y: int, m: int, n: int)
    requires 1000 <= y <= 9999 && 1 <= m < n <= 12
    ensures LexLess(Year4(y) + "-" + Month2(m), Year4(y) + "-" + Month2(n))
  {
    var s, t := Year4(y) + "-" + Month2(m), Year4(y) + "-" + Month2(n);
    if m / 10 < n / 10 {
      LessAtWitness(s, t, 5);
    } else {
      LessAtWitness(s, t, 6);
    }
  }

  /** The lexical order of 'YYYY-MM' labels is the chronological order of
      the months: this is why `sorted(unique_cohorts, reverse=True)` puts
      the most recent cohorts first, and why the model ranks cohorts by
      their month index. */
  lemma LabelOrderIsChronological(a: int, b: int)
    requires LabelledMonth(a) && LabelledMonth(b)
    ensures a < b <==> LexLess(MonthLabel(a), MonthLabel(b))
    ensures a == b <==> MonthLabel(a) == MonthLabel(b)
  {
    if a < b {
      LabelBefore(a, b);
    } else if b < a {
      LabelBefore(b, a);
      LexLessAsymmetric(MonthLabel(b), MonthLabel(a));
      assert MonthLabel(a) != MonthLabel(b) by {
        LexLessIrreflexive(MonthLabel(a));
      }
    }
  }

  lemma LabelBefore(a: int, b: int)
    requires LabelledMonth(a) && LabelledMonth(b) && a < b
    ensures LexLess(MonthLabel(a), MonthLabel(b))
  {
    if a / 12 < b / 12 {
      LabelYearBefore(a, b);
    } else {
      MonthOrder(a / 12, a % 12 + 1, b % 12 + 1);
    }
  }

  /** Months of different years: the four year digits decide. */
  lemma LabelYearBefore(a: int, b: int)
    requires LabelledMonth(a) && LabelledMonth(b) && a / 12 < b / 12
    ensures LexLess(MonthLabel(a), MonthLabel(b))
  {
    YearOrder(a / 12, b / 12, "-" + Month2(a % 12 + 1), "-" + Month2(b % 12 + 1));
    assert MonthLabel(a) == Year4(a / 12) + ("-" + Month2(a % 12 + 1));
    assert MonthLabel(b) == Year4(b / 12) + ("-" + Month2(b % 12 + 1));
  }

  // ---------------------------------------------------------------------
  // "Show only the N most recent cohorts"
  // ---------------------------------------------------------------------

  function CohortsIn(rows: seq<CohortRow>): seq<int>
  {
    seq(|rows|, i requires 0 <= i < |rows| => rows[i].cohort)
  }

  function CohortSet(rows: seq<CohortRow>): set<int>
  {
    set r | r in rows :: r.cohort
  }

  function Min(a: int, b: int): int
  {
    if a <= b then a else b
  }

  function MonthKey(k: int): real
  {
    k as real
  }

  /** `sorted(keys, reverse=True)[:n]`. */
  function MostRecent(keys: seq<int>, n: nat): (r: seq<int>)
    requires NoDup(keys)
    ensures |r| == Min(n, |keys|) && NoDup(r)
    ensures forall k :: k in r ==> k in keys
    ensures forall a, b :: a in r && b in keys && b > a ==> b in r
  {
    var s := SortDesc(keys, MonthKey);
    PrefixOfSorted(keys, s, Min(n, |s|));
    s[..Min(n, |s|)]
  }

  /** A prefix of the keys sorted in descending order holds every key
      greater than one of its members. */
  lemma PrefixOfSorted(keys: seq<int>, s: seq<int>, m: nat)
    requires NoDup(keys) && multiset(s) == multiset(keys) && SortedDesc(s, MonthKey) && m <= |s|
    ensures NoDup(s[..m])
    ensures forall k :: k in s[..m] ==> k in keys
    ensures forall a, b :: a in s[..m] && b in keys && b > a ==> b in s[..m]
  {
    var r := s[..m];
    forall k | k in r ensures k in keys {
      assert k in multiset(s);
    }
    forall a, b | a in r && b in keys && b > a ensures b in r {
      assert b in multiset(s);
      var i :| 0 <= i < |r| && r[i] == a;
      var j :| 0 <= j < |s| && s[j] == b;
      assert MonthKey(s[i]) < MonthKey(s[j]);
      assert j < i;
      assert r[j] == b;
    }
    NoDupPermutation(keys, s);
    assert forall i, j :: 0 <= i < j < |r| ==> r[i] == s[i] && r[j] == s[j];
  }

  /** `cohort_month_str.unique()`: each cohort of the table once. */
  function CohortKeys(rows: seq<CohortRow>): (keys: seq<int>)
    ensures NoDup(keys)
    ensures forall c :: c in keys <==> c in CohortSet(rows)
    ensures |keys| == |CohortSet(rows)|
  {
    var keys := DistinctKeys(CohortsIn(rows));
    assert forall c :: c in keys <==> c in CohortSet(rows) by {
      forall c ensures c in keys <==> c in CohortSet(rows) {
        if c in CohortSet(rows) {
          var r :| r in rows && r.cohort == c;
          var i :| 0 <= i < |rows| && rows[i] == r;
          assert CohortsIn(rows)[i] == c;
        }
      }
    }
    assert (set k | k in keys) == CohortSet(rows);
    SetOfSeqCard(keys);
    keys
  }

  /** `cohort_data[cohort_data['cohort_month_str'].isin(selected)]`. */
  function RowsOfCohorts(rows: seq<CohortRow>, selected: seq<int>): (kept: seq<CohortRow>)
    requires NoDup(selected)
    requires forall c :: c in selected ==> c in CohortSet(rows)
    ensures forall r :: r in kept <==> r in rows && r.cohort in selected
    ensures |CohortSet(kept)| == |selected|
    ensures NoDup(rows) ==> NoDup(kept)
  {
    var kept := Where(rows, (r: CohortRow) => r.cohort in selected);
    assert CohortSet(kept) == set k | k in selected by {
      forall c | c in selected ensures c in CohortSet(kept) {
        assert c in CohortSet(rows);
        var r :| r in rows && r.cohort == c;
        assert r in kept;
      }
    }
    SetOfSeqCard(selected);
    assert NoDup(rows) ==> NoDup(kept) by {
      if NoDup(rows) {
        DistinctWhere(rows, (r: CohortRow) => r.cohort in selected);
      }
    }
    kept
  }

  /** The cohort-limit filter of both cohort pages: when the display is
      limited and the table holds more than `limit` distinct cohorts, keep
      the rows of the `limit` most recent ones. A zero limit is falsy and
      switches the filter off like `show_all_cohorts`. */
  function KeepRecentCohorts(rows: seq<CohortRow>, showAll: bool, limit: nat): (kept: seq<CohortRow>)
    ensures forall r :: r in kept ==> r in rows
    ensures forall r, q :: r in rows && q in kept && r.cohort >= q.cohort ==> r in kept
    ensures !showAll && limit > 0 ==> |CohortSet(kept)| == Min(limit, |CohortSet(rows)|)
    ensures showAll || limit == 0 || |CohortSet(rows)| <= limit ==> kept == rows
    ensures NoDup(rows) ==> NoDup(kept)
  {
    var keys := CohortKeys(rows);
    if showAll || limit == 0 || |keys| <= limit then rows
    else
      var top := MostRecent(keys, limit);
      var kept := RowsOfCohorts(rows, top);
      NewerKept(rows, keys, top, kept);
      kept
  }

  lemma NewerKept(rows: seq<CohortRow>, keys: seq<int>, top: seq<int>, kept: seq<CohortRow>)
    requires forall c :: c in keys <==> c in CohortSet(rows)
    requires forall a, b :: a in top && b in keys && b > a ==> b in top
    requires forall r :: r in kept <==> r in rows && r.cohort in top
    ensures forall r, q :: r in rows && q in kept && r.cohort >= q.cohort ==> r in kept
  {
    forall r, q | r in rows && q in kept && r.cohort >= q.cohort ensures r in kept {
      assert r.cohort in CohortSet(rows);
    }
  }

  /** The "last 12 cohorts" chronology: `np.sort(unique)[-12:]` keeps the
      same twelve cohorts as the filter above with a limit of 12. */
  function LatestTwelve(rows: seq<CohortRow>): (kept: seq<CohortRow>)
    ensures forall r :: r in kept ==> r in rows
    ensures |CohortSet(kept)| == Min(12, |CohortSet(rows)|)
    ensures forall r, q :: r in rows && q in kept && r.cohort >= q.cohort ==> r in kept
  {
    KeepRecentCohorts(rows, false, 12)
  }

  // ---------------------------------------------------------------------
  // Headline metrics
  // ---------------------------------------------------------------------

  datatype Headline = Headline(
    totalCustomers: int,
    avgRetention1m: Option<real>,
    avgRetention3m: real,
    avgRevenuePerCustomer: Option<real>)

  function AtMonth(rows: seq<CohortRow>, m: int): (r: seq<CohortRow>)
    ensures forall x :: x in r <==> x in rows && x.monthNumber == m
  {
    Where(rows, (x: CohortRow) => x.monthNumber == m)
  }

  function Rates(rows: seq<CohortRow>): seq<real>
  {
    seq(|rows|, i requires 0 <= i < |rows| => rows[i].retentionRate)
  }

  /** pandas' `mean` skips NULLs: the column of present values. */
  function Present(xs: seq<Option<real>>): (r: seq<real>)
    ensures |r| <= |xs|
    ensures forall v :: v in r <==> Some(v) in xs
  {
    if xs == [] then []
    else (if xs[0].Some? then [xs[0].value] else []) + Present(xs[1..])
  }

  function AvgRevenues(rows: seq<CohortRow>): seq<Option<real>>
  {
    seq(|rows|, i requires 0 <= i < |rows| => rows[i].avgRevenue)
  }

  function Size(r: CohortRow): int
  {
    r.originalSize
  }

  /** The four metrics above the cohort charts. A mean over no rows is
      NaN, modelled as None; the three-month mean falls back to 0 when no
      row has offset 3. */
  function HeadlineOf(rows: seq<CohortRow>): (h: Headline)
    ensures h.totalCustomers == SumOf(AtMonth(rows, 0), Size)
    ensures h.avgRetention1m.Some? <==> exists r :: r in rows && r.monthNumber == 1
    ensures h.avgRetention1m == Avg(Rates(AtMonth(rows, 1)))
    ensures (exists r :: r in rows && r.monthNumber == 3) ==> Avg(Rates(AtMonth(rows, 3))) == Some(h.avgRetention3m)
    ensures !(exists r :: r in rows && r.monthNumber == 3) ==> h.avgRetention3m == 0.0
    ensures h.avgRevenuePerCustomer == Avg(Present(AvgRevenues(AtMonth(rows, 0))))
    ensures h.totalCustomers >= 0
    ensures RatesWithin(rows) ==>
      && (h.avgRetention1m.Some? ==> 0.0 < h.avgRetention1m.value <= 100.0)
      && 0.0 <= h.avgRetention3m <= 100.0
  {
    var m1 := Rates(AtMonth(rows, 1));
    var m3 := Rates(AtMonth(rows, 3));
    MonthPresent(rows, 1);
    MonthPresent(rows, 3);
    SizesNonNegative(AtMonth(rows, 0));
    MeanRateWithin(rows, 1);
    MeanRateWithin(rows, 3);
    Headline(
      SumOf(AtMonth(rows, 0), Size),
      Avg(m1),
      if |m3| > 0 then Mean(m3) else 0.0,
      Avg(Present(AvgRevenues(AtMonth(rows, 0)))))
  }

  /** Every row's retention rate lies in (0, 100], as `RowBounds` states
      for each row of the cohort query. */
  predicate RatesWithin(rows: seq<CohortRow>)
  {
    forall r :: r in rows ==> 0.0 < r.retentionRate <= 100.0
  }

  lemma MonthPresent(rows: seq<CohortRow>, m: int)
    ensures |Rates(AtMonth(rows, m))| > 0 <==> exists r :: r in rows && r.monthNumber == m
  {
    if exists r :: r in rows && r.monthNumber == m {
      var r :| r in rows && r.monthNumber == m;
      assert r in AtMonth(rows, m);
    }
    if |AtMonth(rows, m)| > 0 {
      assert AtMonth(rows, m)[0] in AtMonth(rows, m);
    }
  }

  lemma MeanRateWithin(rows: seq<CohortRow>, m: int)
    ensures RatesWithin(rows) && |Rates(AtMonth(rows, m))| > 0 ==>
      0.0 < Mean(Rates(AtMonth(rows, m))) <= 100.0
  {
    var xs := Rates(AtMonth(rows, m));
    if RatesWithin(rows) && |xs| > 0 {
      forall i | 0 <= i < |xs| ensures 0.0 < xs[i] <= 100.0 {
        assert AtMonth(rows, m)[i] in AtMonth(rows, m);
      }
      MeanBounds(xs, 0.0, 100.0);
      PositiveSum(xs);
      MeanPositive(xs);
    }
  }

  lemma {:induction false} SizesNonNegative(rows: seq<CohortRow>)
    ensures SumOf(rows, Size) >= 0
  {
    if rows != [] {
      SizesNonNegative(rows[1..]);
    }
  }

  lemma {:induction false} PositiveSum(xs: seq<real>)
    requires |xs| > 0
    requires forall i :: 0 <= i < |xs| ==> 0.0 < xs[i] <= 100.0
    ensures Sum(xs) > 0.0
  {
    if |xs| > 1 {
      PositiveSum(xs[1..]);
    } else {
      assert Sum(xs[1..]) == 0.0;
    }
  }

  /** Two cohorts hold no customer in common, since each customer has one
      first purchase. */
  lemma CohortsDisjoint(fps: seq<FirstPurchase>, c1: int, c2: int)
    requires NoDup(Members(fps)) && c1 != c2
    ensures CohortMembers(fps, c1) !! CohortMembers(fps, c2)
  {
    forall x | x in CohortMembers(fps, c1) ensures x !in CohortMembers(fps, c2) {
      var f1 :| f1 in fps && f1.cohort == c1 && f1.customer == x;
      var i :| 0 <= i < |fps| && fps[i] == f1;
      forall f2 | f2 in fps && f2.customer == x ensures f2.cohort == c1 {
        var j :| 0 <= j < |fps| && fps[j] == f2;
        assert Members(fps)[i] == Members(fps)[j];
        assert i == j;
      }
    }
  }

  predicate SizedFrom(fps: seq<FirstPurchase>, rows: seq<CohortRow>)
  {
    forall r :: r in rows ==> r.originalSize == |CohortMembers(fps, r.cohort)|
  }

  predicate DistinctCohorts(rows: seq<CohortRow>)
  {
    forall i, j :: 0 <= i < j < |rows| ==> rows[i].cohort != rows[j].cohort
  }

  lemma {:induction false} SizesWithin(fps: seq<FirstPurchase>, rows: seq<CohortRow>, pool: set<int>)
    requires NoDup(Members(fps)) && SizedFrom(fps, rows) && DistinctCohorts(rows)
    requires forall r :: r in rows ==> CohortMembers(fps, r.cohort) <= pool
    ensures SumOf(rows, Size) <= |pool|
  {
    if rows != [] {
      var here := CohortMembers(fps, rows[0].cohort);
      var rest := rows[1..];
      forall r | r in rest ensures CohortMembers(fps, r.cohort) <= pool - here {
        var j :| 0 <= j < |rest| && rest[j] == r;
        assert rows[j + 1] == r;
        CohortsDisjoint(fps, rows[0].cohort, r.cohort);
      }
      assert DistinctCohorts(rest) by {
        assert forall i, j :: 0 <= i < j < |rest| ==> rest[i] == rows[i + 1] && rest[j] == rows[j + 1];
      }
      assert rows[0] in rows;
      SizesWithin(fps, rest, pool - here);
      assert |pool - here| == |pool| - |here|;
    }
  }

  /** `total_customers` never exceeds the number of customers with a first
      purchase in the window, whatever cohort filter the page applied. */
  lemma TotalCustomersBound(orders: seq<Order>, items: seq<Item>, w: Option<Window>, cal: Calendar, limit: int, showAll: bool, n: nat)
    ensures HeadlineOf(KeepRecentCohorts(CohortData(orders, items, w, cal, limit), showAll, n)).totalCustomers
      <= |FirstPurchases(orders, w, cal)|
  {
    TotalWithin(FirstPurchases(orders, w, cal), CohortData(orders, items, w, cal, limit), showAll, n);
  }

  lemma TotalWithin(fps: seq<FirstPurchase>, all: seq<CohortRow>, showAll: bool, n: nat)
    requires NoDup(Members(fps)) && SizedFrom(fps, all)
    requires forall i, j :: 0 <= i < j < |all| ==>
      RetKey(all[i].cohort, all[i].monthNumber) != RetKey(all[j].cohort, all[j].monthNumber)
    ensures HeadlineOf(KeepRecentCohorts(all, showAll, n)).totalCustomers <= |fps|
  {
    var kept := KeepRecentCohorts(all, showAll, n);
    var zero := AtMonth(kept, 0);
    assert NoDup(all) by {
      forall i, j | 0 <= i < j < |all| ensures all[i] != all[j] {
        assert RetKey(all[i].cohort, all[i].monthNumber) != RetKey(all[j].cohort, all[j].monthNumber);
      }
    }
    MonthRowsDistinct(all, kept, zero);
    var pool := set c | c in Members(fps);
    forall r | r in zero ensures CohortMembers(fps, r.cohort) <= pool {
      forall x | x in CohortMembers(fps, r.cohort) ensures x in pool {
        var f :| f in fps && f.cohort == r.cohort && f.customer == x;
        var i :| 0 <= i < |fps| && fps[i] == f;
        assert Members(fps)[i] == x;
      }
    }
    SizesWithin(fps, zero, pool);
    SetOfSeqCard(Members(fps));
  }

  /** Among rows with distinct (cohort, offset) keys, the rows of one
      offset have distinct cohorts. */
  lemma MonthRowsDistinct(all: seq<CohortRow>, kept: seq<CohortRow>, zero: seq<CohortRow>)
    requires forall i, j :: 0 <= i < j < |all| ==>
      RetKey(all[i].cohort, all[i].monthNumber) != RetKey(all[j].cohort, all[j].monthNumber)
    requires forall r :: r in kept ==> r in all
    requires NoDup(kept)
    requires zero == AtMonth(kept, 0)
    ensures DistinctCohorts(zero)
  {
    DistinctWhere(kept, (x: CohortRow) => x.monthNumber == 0);
    forall i, j | 0 <= i < j < |zero| ensures zero[i].cohort != zero[j].cohort {
      assert zero[i] in kept && zero[j] in kept;
      var p :| 0 <= p < |all| && all[p] == zero[i];
      var q :| 0 <= q < |all| && all[q] == zero[j];
      assert p != q;
      if p < q {
        assert RetKey(all[p].cohort, all[p].monthNumber) != RetKey(all[q].cohort, all[q].monthNumber);
      } else {
        assert RetKey(all[q].cohort, all[q].monthNumber) != RetKey(all[p].cohort, all[p].monthNumber);
      }
    }
  }

  // ---------------------------------------------------------------------
  // Quarter and semester keys of the cohort-comparison views
  // ---------------------------------------------------------------------

  datatype Period = Period(year: int, part: int)

  /** `to_period('Q')`: the quarter holding a cohort month. */
  function QuarterOf(mi: int): (p: Period)
    ensures 1 <= p.part <= 4
    ensures p.year * 12 + 3 * (p.part - 1) <= mi < p.year * 12 + 3 * p.part
  {
    Period(mi / 12, mi % 12 / 3 + 1)
  }

  /** `year + '-' + ((month - 1) // 6 + 1)`: the half-year of a cohort month. */
  function SemesterOf(mi: int): (p: Period)
    ensures 1 <= p.part <= 2
    ensures p.year * 12 + 6 * (p.part - 1) <= mi < p.year * 12 + 6 * p.part
  {
    Period(mi / 12, mi % 12 / 6 + 1)
  }

  predicate PeriodBefore(p: Period, q: Period)
  {
    p.year < q.year || (p.year == q.year && p.part < q.part)
  }

  /** Quarters 1-2 make the first semester and 3-4 the second. */
  lemma SemesterHoldsQuarter(mi: int)
    ensures SemesterOf(mi) == Period(QuarterOf(mi).year, (QuarterOf(mi).part + 1) / 2)
  {
  }

  /** A later month never falls in an earlier quarter or semester. */
  lemma PeriodsFollowMonths(a: int, b: int)
    requires a <= b
    ensures QuarterOf(a) == QuarterOf(b) || PeriodBefore(QuarterOf(a), QuarterOf(b))
    ensures SemesterOf(a) == SemesterOf(b) || PeriodBefore(SemesterOf(a), SemesterOf(b))
  {
  }

  predicate LabelledPeriod(p: Period, parts: int)
  {
    1000 <= p.year <= 9999 && 1 <= p.part <= parts <= 9
  }

  /** The labels '2017Q1' and '2017-1'. */
  function QuarterLabel(p: Period): (s: string)
    requires LabelledPeriod(p, 4)
    ensures |s| == 6 && s[4] == 'Q'
  {
    Year4(p.year) + "Q" + [Digit(p.part)]
  }

  function SemesterLabel(p: Period): (s: string)
    requires LabelledPeriod(p, 2)
    ensures |s| == 6 && s[4] == '-'
  {
    Year4(p.year) + "-" + [Digit(p.part)]
  }

  lemma PartOrder(y: int, sep: char, m: int, n: int)
    requires 1000 <= y <= 9999 && 1 <= m < n <= 9
    ensures LexLess(Year4(y) + [sep] + [Digit(m)], Year4(y) + [sep] + [Digit(n)])
  {
    LessAtWitness(Year4(y) + [sep] + [Digit(m)], Year4(y) + [sep] + [Digit(n)], 5);
  }

  lemma PeriodLabelBefore(p: Period, q: Period, sep: char, parts: int)
    requires LabelledPeriod(p, parts) && LabelledPeriod(q, parts) && PeriodBefore(p, q)
    ensures LexLess(Year4(p.year) + [sep] + [Digit(p.part)], Year4(q.year) + [sep] + [Digit(q.part)])
  {
    if p.year < q.year {
      YearOrder(p.year, q.year, [sep] + [Digit(p.part)], [sep] + [Digit(q.part)]);
      assert Year4(p.year) + [sep] + [Digit(p.part)] == Year4(p.year) + ([sep] + [Digit(p.part)]);
      assert Year4(q.year) + [sep] + [Digit(q.part)] == Year4(q.year) + ([sep] + [Digit(q.part)]);
    } else {
      PartOrder(p.year, sep, p.part, q.part);
    }
  }

  /** `sorted(...)` on quarter and semester labels is chronological. */
  lemma PeriodLabelsAreChronological(p: Period, q: Period)
    requires LabelledPeriod(p, 4) && LabelledPeriod(q, 4)
    ensures PeriodBefore(p, q) <==> LexLess(QuarterLabel(p), QuarterLabel(q))
    ensures LabelledPeriod(p, 2) && LabelledPeriod(q, 2) ==>
      (PeriodBefore(p, q) <==> LexLess(SemesterLabel(p), SemesterLabel(q)))
  {
    if PeriodBefore(p, q) {
      PeriodLabelBefore(p, q, 'Q', 4);
      if LabelledPeriod(p, 2) && LabelledPeriod(q, 2) {
        PeriodLabelBefore(p, q, '-', 2);
      }
    } else if PeriodBefore(q, p) {
      PeriodLabelBefore(q, p, 'Q', 4);
      LexLessAsymmetric(QuarterLabel(q), QuarterLabel(p));
      if LabelledPeriod(p, 2) && LabelledPeriod(q, 2) {
        PeriodLabelBefore(q, p, '-', 2);
        LexLessAsymmetric(SemesterLabel(q), SemesterLabel(p));
      }
    } else {
      assert p == q;
      LexLessIrreflexive(QuarterLabel(p));
      if LabelledPeriod(p, 2) {
        LexLessIrreflexive(SemesterLabel(p));
      }
    }
  }
}
