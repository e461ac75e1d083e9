# Olist e-commerce dashboard: a verified model of its analytics core

The Olist dashboard presents analyses of a Brazilian marketplace's orders
in a Streamlit app over a PostgreSQL database. Each analysis page is a
parameterised SQL query followed by a little pandas post-processing. This
project models those queries as Dafny functions over sequences of table
rows and proves what each result means. The modelled analyses are:

- the RFM segmentation: recency, frequency and monetary scores from
  `NTILE(5)`, a segment from a fixed rule table, and a per-segment summary;
- the cohort retention table: first-purchase month cohorts, activity by
  month offset and retention rates, plus the page's cohort-selection,
  headline-metric and quarter/semester grouping steps;
- the customer value metrics: lifespan, order value, monthly frequency,
  estimated annual value and value segment per customer, then the segment
  summary, the state geography, the purchase-frequency buckets and the
  page's filters and averages;
- the seller ranking: per-seller metrics, `PERCENT_RANK` over revenue,
  review and punctuality, the performance-category ladder, the page's
  filters, the category distribution and the per-state aggregation;
- the periodic report: sales, delivery, satisfaction and new-customer
  figures over a date window, the report page's date guard, the failure
  of both the page and the weekly script on a NULL figure, and the weekly
  script's date parsing and no-reviews fallback;
- the column cleaning of `src/data_cleaning.py`: text columns stripped and
  title-cased, and missing numbers filled with the median or the mean.
  This part is imperative: a `Frame` class whose frame is copied, and two
  methods that update the copy column by column in a `while` loop.

The French and English pages (`3_Analyses_clients.py` and
`3_Customers.py`, `4_Analyses_cohortes.py` and `4_Cohorts.py`) run the
same queries. Each query is modelled once, and the table cites the file
whose lines were modelled.

Modelling conventions:

- Timestamps are integer seconds.
- A date bound `'YYYY-MM-DD'` stands for the midnight that opens that day.
  `BETWEEN` is inclusive at both ends.
- SQL `NULL` is `None` of an `Option`. An aggregate over zero rows is
  `NULL`, except `COUNT`.
- `EXTRACT(YEAR) * 12 + EXTRACT(MONTH)` is a month index. The civil
  calendar that maps a timestamp to its month index is a parameter.
- Where the engine may order equal sort keys either way (`NTILE`), the
  order is a parameter. Every lemma holds for every admissible order.
- Any exception the database raises is an `Option`'s `None`.

The model follows the code. Where the code does something a reader might
not expect, the model does that too, and a lemma states the behaviour:

- `Rfm.CannotLoseThemUnreachable`: the 'Cannot Lose Them' segment can
  never be assigned.
- `Cohorts.FilteredOffsetCanBeNegative`: with a date filter, a cohort can
  have negative month offsets.
- `Cohorts.MonthZeroRetention`: month-0 retention is below 100 when a
  member's cohort-month orders have no items.

## Model

| member | source | states |
|---|---|---|
| Facts.Lines | olist-dashboard/pages/4_Analyses_cohortes.py:281-282 | a line is exactly an order paired with one of its items (the inner join of orders and order_items) |
| Facts.LinesMultiplicity | olist-dashboard/pages/4_Analyses_cohortes.py:281-282 | the join holds each matching (order, item) pair as many times as the order occurs times the item occurs, and no other line (bag semantics of JOIN) |
| Facts.DateWindow | olist-dashboard/pages/4_Analyses_cohortes.py:320-322 | the date filter spans from the midnight of the start day to the midnight of the end day |
| Rfm.WindowLines | olist-dashboard/pages/4_Analyses_cohortes.py:344-348 | the rows RFM reads are the order-item lines whose purchase lies in the window (every line without a filter) |
| Rfm.Measure | olist-dashboard/pages/4_Analyses_cohortes.py:338-343 | a group's row: recency is the days from its last purchase to the latest purchase of the whole table (non-negative), frequency the number of its distinct orders (at least 1), monetary the sum of its item prices |
| Rfm.Grouped | olist-dashboard/pages/4_Analyses_cohortes.py:338-349 | one row per (customer, city, state) group, no group twice, every line's group present, and every row is the measure of its own group |
| Rfm.RowFor | olist-dashboard/pages/4_Analyses_cohortes.py:338-349 | the row of a group key present in the lines carries that key and measures that key's group |
| Rfm.CustomerRfmRows | olist-dashboard/pages/4_Analyses_cohortes.py:332-350 | customer_rfm: one row per group of the window's lines, none twice, covering every line, each measuring its group against the latest purchase of all orders |
| Rfm.Ntile5 | olist-dashboard/pages/4_Analyses_cohortes.py:360-362 | NTILE(5) gives the i-th of n rows a bucket from 1 to min(5, n), lying between that bucket's start and the next |
| Rfm.Ntile5BucketSizes | olist-dashboard/pages/4_Analyses_cohortes.py:360-362 | the buckets cover all n rows; each holds n/5 or n/5+1 rows, and earlier buckets are never smaller |
| Rfm.Ntile5Monotone | olist-dashboard/pages/4_Analyses_cohortes.py:360-362 | a later row never gets a lower bucket |
| Rfm.StablePositions | olist-dashboard/pages/4_Analyses_cohortes.py:360-362 | an order consistent with the sort keys always exists (a bijection onto positions that sends strictly-before keys to earlier positions) |
| Rfm.Ntiles | olist-dashboard/pages/4_Analyses_cohortes.py:360-362 | each row's score is the NTILE(5) bucket of its position in the ORDER BY; scores lie in 1..5, never exceed the row count, and follow the sort order |
| Rfm.NtileCounts | olist-dashboard/pages/4_Analyses_cohortes.py:360-362 | over any admissible ordering, exactly as many rows get score b as NTILE(5)'s bucket b holds positions |
| Rfm.ScoreRows | olist-dashboard/pages/4_Analyses_cohortes.py:360-389 | each row's r, f and m scores are the NTILE(5) buckets of its positions in the three orderings (in range), and its segment is the rule table applied to them |
| Rfm.ScoreCounts | olist-dashboard/pages/4_Analyses_cohortes.py:360-362 | for each of r, f and m, the number of rows scored b is the size of NTILE(5)'s bucket b |
| Rfm.ScoresMonotone | olist-dashboard/pages/4_Analyses_cohortes.py:360-362 | a more recent buyer never has a lower r score; more orders or more spend never give a lower f or m score |
| Rfm.SmallPopulationLabels | olist-dashboard/pages/4_Cohorts.py:280-282 | with three customers or fewer, no segment that needs a score of 4 or 5 can be assigned |
| Rfm.ThreeCustomerExample | olist-dashboard/pages/4_Analyses_cohortes.py:360-389 | for a three-customer sample, every order the engine may pick gives (3,3,3) Loyal Customers, (1,1,1) Lost Customers and (2,2,2) Others |
| Rfm.ForcedOrder | olist-dashboard/pages/4_Analyses_cohortes.py:360-362 | three distinct sort keys leave the engine only one order |
| Rfm.SegmentTableMatchesRegions | olist-dashboard/pages/4_Analyses_cohortes.py:378-389 | the first-match CASE ladder equals a description by disjoint regions of the score cube |
| Rfm.CannotLoseThemUnreachable | olist-dashboard/pages/4_Analyses_cohortes.py:383-385 | 'Cannot Lose Them' is never assigned, since the 'At Risk' rung catches all its cases first |
| Rfm.NewCustomersNeedLowestMonetary | olist-dashboard/pages/4_Analyses_cohortes.py:379-382 | 'New Customers' is assigned exactly when r >= 4, f <= 2 and m = 1 |
| Rfm.SegmentExamples | olist-dashboard/pages/4_Analyses_cohortes.py:378-389 | sample score triples land in Champions, Lost, Potential Loyalists and Loyal Customers |
| Rfm.SummaryRow | olist-dashboard/pages/4_Analyses_cohortes.py:392-401 | a summary row holds its segment's count, its share of customers, the averages of recency, frequency and monetary value over the segment, its total and its share of revenue |
| Rfm.SummaryRows | olist-dashboard/pages/4_Analyses_cohortes.py:392-402 | one row per segment key, and their counts total the group sizes of the keys |
| Rfm.SortedSummary | olist-dashboard/pages/4_Analyses_cohortes.py:392-403 | the summary is sorted by revenue share, has a row exactly for each present segment, and its counts total the customers |
| Rfm.Summarize | olist-dashboard/pages/4_Analyses_cohortes.py:392-403 | the summary fails (division by zero) exactly when customers exist but total spend is zero; otherwise it is the sorted summary |
| Cohorts.WindowOrders | olist-dashboard/pages/4_Analyses_cohortes.py:263 | the orders the first-purchase sub-query reads are those purchased in the window |
| Cohorts.FirstPurchaseOf | olist-dashboard/pages/4_Analyses_cohortes.py:254-265 | a customer's first purchase is one of their orders, no later than any other, with its month as the cohort |
| Cohorts.FirstPurchases | olist-dashboard/pages/4_Analyses_cohortes.py:254-265 | one first purchase per customer, for exactly the customers with an order in the window |
| Cohorts.JoinKeys | olist-dashboard/pages/4_Analyses_cohortes.py:266-288 | the activity keys are exactly the joins of a cohort member with one of their item lines |
| Cohorts.ActivityRows | olist-dashboard/pages/4_Analyses_cohortes.py:266-288 | every activity row comes from such a join, with the month difference as its offset and the sum of the customer's item prices at that purchase as its value; every join key has a row |
| Cohorts.ActiveWithinCohort | olist-dashboard/pages/4_Analyses_cohortes.py:296-304 | a cohort's active customers at an offset are members of that cohort |
| Cohorts.RetentionRow | olist-dashboard/pages/4_Analyses_cohortes.py:305-316 | a row holds the cohort size, the distinct active customers and their revenue; its rate lies in 0..100 |
| Cohorts.RetentionRows | olist-dashboard/pages/4_Analyses_cohortes.py:305-316 | one row per retention key, each with the size of its cohort, its active count and the revenue of its offset group |
| Cohorts.CohortRowsOf | olist-dashboard/pages/4_Analyses_cohortes.py:296-317 | rows are distinct by (cohort, offset) and in bounds, each carries its cohort size, active count and group revenue, and every activity within the horizon shows up in a row |
| Cohorts.CohortData | olist-dashboard/pages/4_Analyses_cohortes.py:252-326 | load_cohort_data: distinct in-bounds rows, each with the size of its cohort among the window's first purchases and the number of distinct active customers and the summed revenue of its offset group; every activity row within the limit has its row |
| Cohorts.FirstPurchaseAtOffsetZero | olist-dashboard/pages/4_Analyses_cohortes.py:272-274 | a first purchase that has items makes its customer active at offset 0 |
| Cohorts.OffsetsFromEarliest | olist-dashboard/pages/4_Analyses_cohortes.py:272-274 | when the first purchase precedes all the customer's lines, no offset is negative |
| Cohorts.UnfilteredOffsetsNonNegative | olist-dashboard/pages/4_Analyses_cohortes.py:252-326 | without a date filter, every month offset is non-negative |
| Cohorts.FilteredOffsetCanBeNegative | olist-dashboard/pages/4_Analyses_cohortes.py:263 | with a date filter, an order before the window gives an offset of -1, which the horizon filter keeps |
| Cohorts.OffsetRow | olist-dashboard/pages/4_Analyses_cohortes.py:316 | a member's line at offset <= months_limit appears in the output at that offset |
| Cohorts.ActiveSetMeaning | olist-dashboard/pages/4_Analyses_cohortes.py:296-304 | the active customers of a cohort at offset m are exactly its members with an item line in that month |
| Cohorts.ActiveMembersWithin | olist-dashboard/pages/4_Analyses_cohortes.py:296-304 | active members are cohort members |
| Cohorts.AllActiveIff | olist-dashboard/pages/4_Analyses_cohortes.py:296-304 | all members are active at offset 0 iff each has an item line in the cohort month |
| Cohorts.MonthZeroRetention | olist-dashboard/pages/4_Analyses_cohortes.py:311 | month-0 retention is 100 exactly when every member has an item line in the cohort month |
| CohortPage.MonthLabel | olist-dashboard/pages/4_Analyses_cohortes.py:518-519 | the 'YYYY-MM' label of a month has seven characters with '-' at index 4 |
| CohortPage.LabelOrderIsChronological | olist-dashboard/pages/4_Analyses_cohortes.py:518-528 | string order of 'YYYY-MM' labels is chronological order, and equal labels are equal months |
| CohortPage.MostRecent | olist-dashboard/pages/4_Analyses_cohortes.py:522-528 | the kept cohort keys are the n newest, distinct, with every newer key kept too |
| CohortPage.CohortKeys | olist-dashboard/pages/4_Analyses_cohortes.py:522-528 | the distinct cohort keys of the rows, each once |
| CohortPage.RowsOfCohorts | olist-dashboard/pages/4_Analyses_cohortes.py:528 | isin keeps exactly the rows of the selected cohorts |
| CohortPage.KeepRecentCohorts | olist-dashboard/pages/4_Analyses_cohortes.py:522-528 | with a limit, it keeps the rows of the min(limit, #cohorts) newest cohorts, closed under newer; otherwise it changes nothing |
| CohortPage.LatestTwelve | olist-dashboard/pages/4_Analyses_cohortes.py:608-611 | the chronology view keeps the rows of the twelve newest cohorts |
| CohortPage.AtMonth | olist-dashboard/pages/4_Analyses_cohortes.py:532-535 | selects exactly the rows at a given offset |
| CohortPage.HeadlineOf | olist-dashboard/pages/4_Analyses_cohortes.py:531-535 | total customers sums the month-0 cohort sizes; the 1-month figure is the mean month-1 rate, present iff a month-1 row is; the 3-month figure is the mean month-3 rate, or 0 without a month-3 row; the revenue figure is the mean of the present month-0 revenues; both rates lie within 0..100 when every rate does |
| CohortPage.MonthPresent | olist-dashboard/pages/4_Analyses_cohortes.py:533-534 | an offset has rates to average iff some row has that offset |
| CohortPage.Present | olist-dashboard/pages/4_Analyses_cohortes.py:535 | the values pandas' mean sees are exactly the present ones, never more than the rows |
| CohortPage.MeanRateWithin | olist-dashboard/pages/4_Analyses_cohortes.py:533 | a mean of retention rates lies within 0..100 |
| CohortPage.CohortsDisjoint | olist-dashboard/pages/4_Analyses_cohortes.py:254-265 | two different cohorts share no customer |
| CohortPage.TotalCustomersBound | olist-dashboard/pages/4_Analyses_cohortes.py:532 | the headline total never exceeds the number of first purchases |
| CohortPage.QuarterOf | olist-dashboard/pages/4_Analyses_cohortes.py:627 | a quarter part in 1..4 whose three months contain the month |
| CohortPage.SemesterOf | olist-dashboard/pages/4_Analyses_cohortes.py:643-644 | a semester part in 1..2 whose six months contain the month |
| CohortPage.SemesterHoldsQuarter | olist-dashboard/pages/4_Analyses_cohortes.py:643-644 | a month's semester is the semester that holds its quarter |
| CohortPage.PeriodsFollowMonths | olist-dashboard/pages/4_Analyses_cohortes.py:627-649 | a later month never falls in an earlier quarter or semester |
| CohortPage.PeriodLabelsAreChronological | olist-dashboard/pages/4_Analyses_cohortes.py:632-649 | 'YYYYQn' and 'YYYY-n' labels sort as their periods do |
| Customers.DeliveredLines | olist-dashboard/pages/3_Analyses_clients.py:248-262 | exactly the lines of delivered orders purchased in the window |
| Customers.LifespanDays | olist-dashboard/pages/3_Analyses_clients.py:255 | GREATEST(1, days from first to last order): at least 1, and equal to 1 or to the day difference |
| Customers.SpanOf | olist-dashboard/pages/3_Analyses_clients.py:248-262 | a customer's order count, first and last purchase and lifespan, taken from their orders |
| Customers.SegmentOf | olist-dashboard/pages/3_Analyses_clients.py:293-298 | Premium above 500, High Value in (200, 500], Medium in (100, 200], Standard at 100 or below |
| Customers.SegmentMonotone | olist-dashboard/pages/3_Analyses_clients.py:293-298 | a higher annual value never gives a lower segment |
| Customers.CutoffsBelongBelow | olist-dashboard/pages/3_Analyses_clients.py:293-298 | each cutoff value belongs to the segment below it |
| Customers.ValueOf | olist-dashboard/pages/3_Analyses_clients.py:263-282 | a customer's value row: the order value, monthly frequency and annual value formulas over their span |
| Customers.AnnualValueIdentity | olist-dashboard/pages/3_Analyses_clients.py:271-279 | annual value times lifespan is 360 times total spend |
| Customers.ValueRows | olist-dashboard/pages/3_Analyses_clients.py:263-282 | one row per buyer with their measures and at least one order |
| Customers.CustomerLifetimeValue | olist-dashboard/pages/3_Analyses_clients.py:246-309 | rows sorted by annual value, one per buyer of a delivered order in the window, each measuring that buyer |
| Customers.EveryBuyerValued | olist-dashboard/pages/3_Analyses_clients.py:281 | every such buyer has a row |
| Customers.MeanInSegment | olist-dashboard/pages/3_Analyses_clients.py:368-380 | a mean of annual values of one segment falls in that segment |
| Customers.SegmentRowOf | olist-dashboard/pages/3_Analyses_clients.py:368-380 | a segment's row: member count, total annual value, and the averages of orders, total spend, lifespan, order value, purchase frequency and annual value over its members; the average annual value lies within the segment |
| Customers.SegmentSummary | olist-dashboard/pages/3_Analyses_clients.py:368-380 | sorted by average annual value, one row per present segment, counts total the customers, and segments appear from Premium down |
| Customers.RankOrder | olist-dashboard/pages/3_Analyses_clients.py:380 | sorting by average annual value puts higher segments first |
| Customers.CustomerSegmentsSummary | olist-dashboard/pages/3_Analyses_clients.py:312-389 | load_customer_segments_summary: counts total the buyers, every row holds its segment's count, total and six averages over the value table, higher segments first |
| Customers.CustomerLocations | olist-dashboard/pages/3_Analyses_clients.py:394-408 | one row per (customer, city, state) of the lines with its orders and spend |
| Customers.StateRowOf | olist-dashboard/pages/3_Analyses_clients.py:409-418 | a state row: customer count, total spend, and the averages of orders (at least 1), spend and order value over its location rows |
| Customers.CustomerGeography | olist-dashboard/pages/3_Analyses_clients.py:392-427 | sorted by total spend, states distinct, a row exactly for each state shipped to, counts total the locations, every row holds its state's count, total and averages |
| Customers.StatesReached | olist-dashboard/pages/3_Analyses_clients.py:409-418 | the states of the location rows are exactly the states shipped to |
| Customers.BucketOf | olist-dashboard/pages/3_Analyses_clients.py:447-452 | for at least one order: 'One-time' for 1, then 2-3, 4-6 and 7 or more orders |
| Customers.BucketsFollowCounts | olist-dashboard/pages/3_Analyses_clients.py:447-452 | more orders never give an earlier bucket |
| Customers.FrequencyRowsOrdered | olist-dashboard/pages/3_Analyses_clients.py:469-475 | rows come in bucket order |
| Customers.FrequencyRowsTotal | olist-dashboard/pages/3_Analyses_clients.py:456-462 | the bucket counts total the group sizes of the buckets |
| Customers.FrequencyBucketsListed | olist-dashboard/pages/3_Analyses_clients.py:469-475 | the bucket list names every bucket once, in ascending order |
| Customers.PurchaseFrequency | olist-dashboard/pages/3_Analyses_clients.py:430-484 | buckets in ascending order, each non-empty, counting its bucket's customers, with the average lifespan of those customers (at least one day) |
| Customers.PurchaseFrequencyTotal | olist-dashboard/pages/3_Analyses_clients.py:456-462 | the bucket counts total the buyers of delivered orders in the window |
| Customers.PurchaseFrequencyCounts | olist-dashboard/pages/3_Analyses_clients.py:456-462 | a bucket's count is the number of buyers whose order count falls in it |
| Customers.FilterCustomers | olist-dashboard/pages/3_Analyses_clients.py:629-633 | keeps exactly the rows of a selected segment (all if none is selected) with at least min_orders orders, in order |
| Customers.DefaultFiltersKeepAll | olist-dashboard/pages/3_Analyses_clients.py:600-613 | the default selection and min_orders = 1 keep every row |
| Customers.MetricsOf | olist-dashboard/pages/3_Analyses_clients.py:635-681 | the metrics exist iff rows do; average spend, frequency and annual value times the count are the totals |
| Customers.OneSegmentAverage | olist-dashboard/pages/3_Analyses_clients.py:672 | filtering to one segment gives an average annual value inside that segment |
| Customers.FilterSummary | olist-dashboard/pages/3_Analyses_clients.py:696-697 | keeps exactly the summary rows of selected segments |
| Sellers.SellerDetails | olist-dashboard/pages/2_Analyses_vendeurs.py:262-263 | exactly the rows with a seller whose purchase lies in the window |
| Sellers.SellerIds | olist-dashboard/pages/2_Analyses_vendeurs.py:264 | the GROUP BY keys: each seller of the rows once |
| Sellers.Percentage | olist-dashboard/pages/2_Analyses_vendeurs.py:258-260 | k / NULLIF(n, 0) * 100 is NULL iff n = 0, and within 0..100 when k <= n |
| Sellers.PercentagesOfDisjoint | olist-dashboard/pages/2_Analyses_vendeurs.py:259-260 | positive and negative shares together are at most 100 |
| Sellers.MetricsMeaning | olist-dashboard/pages/2_Analyses_vendeurs.py:248-265 | a seller's distinct orders (at least one), revenue, average price, on-time share and review shares are those of their rows, and the shares lie in 0..100 |
| Sellers.AveragePrice | olist-dashboard/pages/2_Analyses_vendeurs.py:255 | the average price times the row count is the revenue |
| Sellers.SellerTable | olist-dashboard/pages/2_Analyses_vendeurs.py:248-265 | seller_metrics: one row per seller, no seller twice, each row the metrics of that seller's rows |
| Sellers.PercentRankRange | olist-dashboard/pages/2_Analyses_vendeurs.py:279-281 | PERCENT_RANK lies in 0..1 |
| Sellers.PercentRankZero | olist-dashboard/pages/2_Analyses_vendeurs.py:279-281 | the rank is 0 iff there is at most one row or nothing sorts before the value |
| Sellers.PercentRankOrder | olist-dashboard/pages/2_Analyses_vendeurs.py:279-281 | a value sorting strictly before another has a strictly smaller rank |
| Sellers.CategoryOf | olist-dashboard/pages/2_Analyses_vendeurs.py:300-306 | the category is fixed by the worst of the three percentiles: Elite at <= 0.2, then steps of 0.2 |
| Sellers.CategoryMonotone | olist-dashboard/pages/2_Analyses_vendeurs.py:300-306 | a seller better on every axis never lands in a worse category |
| Sellers.RankOf | olist-dashboard/pages/2_Analyses_vendeurs.py:285-306 | a ranked row carries the seller's metrics, percentiles times 100 within 0..100, and its category |
| Sellers.RankTable | olist-dashboard/pages/2_Analyses_vendeurs.py:266-308 | ranks exactly the sellers with five orders or more, sorted by composite key, each scored against them |
| Sellers.SmallSellersIgnored | olist-dashboard/pages/2_Analyses_vendeurs.py:283 | adding a seller with fewer than five orders changes nobody's rank |
| Sellers.SellerPerformance | olist-dashboard/pages/2_Analyses_vendeurs.py:246-317 | load_seller_performance: sorted, each seller once, exactly the window's sellers with five or more orders |
| Sellers.RankedSeller | olist-dashboard/pages/2_Analyses_vendeurs.py:246-317 | a ranked row has five or more orders, the metrics of its rows and rates and percentiles in range |
| Sellers.DistinctSellersWhere | olist-dashboard/pages/2_Analyses_vendeurs.py:283 | the five-orders filter keeps sellers distinct |
| Sellers.FilterSellers | olist-dashboard/pages/2_Analyses_vendeurs.py:503-508 | keeps exactly the rows of a selected category (all if none is selected) with at least min_orders, in order |
| Sellers.CountRows | olist-dashboard/pages/2_Analyses_vendeurs.py:700-704 | one count per category key, totalling the group sizes |
| Sellers.Distribution | olist-dashboard/pages/2_Analyses_vendeurs.py:694-712 | for non-empty rows, five counts in category order that total the rows |
| Sellers.UnselectedCategoriesEmpty | olist-dashboard/pages/2_Analyses_vendeurs.py:704 | a category left out of the selection counts 0 |
| Sellers.StateRowOf | olist-dashboard/pages/2_Analyses_vendeurs.py:1034-1043 | a state row: seller count, total orders and revenue, mean review of its sellers |
| Sellers.StateAggregation | olist-dashboard/pages/2_Analyses_vendeurs.py:1034-1043 | one row exactly for each seller state, states distinct |
| Sellers.StateAggregationTotal | olist-dashboard/pages/2_Analyses_vendeurs.py:1034-1043 | the state rows share out all orders of the seller rows |
| Report.DaysIn | olist-dashboard/pages/6_Rapport.py:222 | a month has 28 to 31 days; February has 29 iff the year is a leap year |
| Report.OrdinalOrder | olist-dashboard/pages/6_Rapport.py:222 | day numbers follow calendar order |
| Report.BoundsOf | olist-dashboard/pages/6_Rapport.py:222 | each present date bound is its midnight timestamp; a missing one is NULL |
| Report.SaleLines | olist-dashboard/pages/6_Rapport.py:219-222 | the order-item lines of orders purchased in the window; none when a bound is NULL |
| Report.SalesOf | olist-dashboard/pages/6_Rapport.py:214-218 | distinct orders and customers; revenue is the sum of price plus freight, NULL for no lines; mean times lines is revenue |
| Report.DistinctCounts | olist-dashboard/pages/6_Rapport.py:215-217 | distinct orders and customers never outnumber lines |
| Report.Delivered | olist-dashboard/pages/6_Rapport.py:229-231 | exactly the delivered orders delivered in the window |
| Report.DeliveryOf | olist-dashboard/pages/6_Rapport.py:225-228 | the late count is the late deliveries, at most the total, NULL for none |
| Report.DeliveryAverage | olist-dashboard/pages/6_Rapport.py:228 | average days times deliveries is total days |
| Report.ReviewRows | olist-dashboard/pages/6_Rapport.py:239-241 | exactly the reviews of orders purchased in the window |
| Report.SatisfactionOf | olist-dashboard/pages/6_Rapport.py:234-238 | counts of positive (>= 4) and negative (<= 2) reviews, NULL for none, together at most the total |
| Report.NewCustomers | olist-dashboard/pages/6_Rapport.py:243-256 | new customers are among the window's customers |
| Report.FirstPurchase | olist-dashboard/pages/6_Rapport.py:249-255 | a customer's earliest purchase over the whole history |
| Report.NewCustomerRule | olist-dashboard/pages/6_Rapport.py:243-256 | new iff they bought in the window and their first purchase is not before the start |
| Report.ReportOf | olist-dashboard/pages/6_Rapport.py:211-276 | the report row is the four sub-query results over the same bounds, with the fallback row when there is no reviews table |
| Report.MissingDateSelectsNothing | utils/generate_weekly_report.py:132-135 | a NULL date selects nothing: zero orders, NULL sums, no new customers |
| Report.GenerateReport | olist-dashboard/pages/6_Rapport.py:326-388 | an invalid-dates error iff a date is unset; the table iff both are set and the window has item lines, deliveries and a scored review (else formatting a NULL figure raises), and it is then the report row |
| WeeklyReport.ParseDate | utils/generate_weekly_report.py:48-51 | strptime with '%Y-%m-%d' gives only valid dates |
| WeeklyReport.IsoFormat | utils/generate_weekly_report.py:141 | a date's text has ten characters |
| WeeklyReport.ParseFormat | utils/generate_weekly_report.py:48-51 | writing a date and parsing it gives the date back |
| WeeklyReport.FormatParse | utils/generate_weekly_report.py:48-51 | canonical text that parses is the text of its date |
| WeeklyReport.ParseExamples | utils/generate_weekly_report.py:48-51 | single-digit fields and a space-padded day are accepted; Feb 29 of a common year and extra digits are refused |
| WeeklyReport.Resolve | utils/generate_weekly_report.py:48-51 | text is parsed (or fails), a date object is kept, and a missing date is NULL |
| WeeklyReport.WeeklyBusinessReport | utils/generate_weekly_report.py:26-178 | a report iff both dates resolve and the window has item lines and deliveries (else writing a NULL figure raises), equal to the report row; the no-reviews row otherwise; positive and negative counts at most the total |
| WeeklyReport.CommandLineReport | utils/generate_weekly_report.py:180-192 | from the command line, a report is produced iff both dates are valid text and the window between them has item lines and deliveries |
| WeeklyReport.SameReportAsPage | utils/generate_weekly_report.py:72-178 | with the reviews table present, when the page shows the table the script returns the same report; the script reports iff the window has item lines and deliveries; without them the page meets a formatting error |
| WeeklyReport.TextOrDate | utils/generate_weekly_report.py:48-51 | a date and its text give the same report |
| WeeklyReport.MissingDateNoReport | utils/generate_weekly_report.py:26-178 | without one of the dates the script returns no report |
| Cleaning.Frame.constructor | src/data_cleaning.py:50 | a frame holds the given columns |
| Cleaning.Frame.Copy | src/data_cleaning.py:50 | df.copy(): a fresh frame with the same columns |
| Cleaning.StripSlice | src/data_cleaning.py:61 | strip keeps a slice of the text between its leading and trailing whitespace |
| Cleaning.StripCutsSpace | src/data_cleaning.py:61 | everything strip removes is whitespace |
| Cleaning.TitleFromMeaning | src/data_cleaning.py:62 | title keeps length and characters up to case, capitalises word starts and lower-cases the rest |
| Cleaning.TitleFromTwice | src/data_cleaning.py:62 | title is idempotent |
| Cleaning.TitleStripped | src/data_cleaning.py:62 | title of stripped text is still stripped |
| Cleaning.CleanCellMeaning | src/data_cleaning.py:55-63 | a cleaned cell is text: '' for missing, otherwise the stripped, title-cased text of the value |
| Cleaning.CleanCellTwice | src/data_cleaning.py:55-63 | cleaning a cleaned cell changes nothing |
| Cleaning.CleanTextColumn | src/data_cleaning.py:55-63 | a cleaned column has text dtype, the same length, and only stripped text |
| Cleaning.CleanTextColumnTwice | src/data_cleaning.py:55-63 | cleaning a column twice is cleaning it once |
| Cleaning.CleanTextColumns | src/data_cleaning.py:43-65 | the input is untouched; on the fresh copy every listed column present is cleaned and all others unchanged |
| Cleaning.Present | src/data_cleaning.py:78-80 | the values median and mean see are exactly the present numbers |
| Cleaning.MedianBounds | src/data_cleaning.py:78 | the median lies between any bounds of the values, and is one of them for an odd count |
| Cleaning.FillValue | src/data_cleaning.py:76-83 | a fill value exists iff the column has a present value (the mean for 'mean', the median otherwise) |
| Cleaning.FillValueBounds | src/data_cleaning.py:76-83 | the fill value lies within the bounds of the values |
| Cleaning.FillColumnMeaning | src/data_cleaning.py:86 | present cells stay; missing ones take the fill value, or stay missing when there is none |
| Cleaning.FillColumnTwice | src/data_cleaning.py:86 | filling a filled column changes nothing |
| Cleaning.HandleNumericNan | src/data_cleaning.py:67-90 | the input is untouched; on the fresh copy every listed numeric column present is filled and all others unchanged |

## Left out

- Streamlit rendering, charts, CSS, caching (`st.cache_data`) and the
  database connection are left out. Each query's result is a function of
  the table rows it reads.
- Column order and column names of the result frames are left out. A row
  is a datatype with one field per column.
- `ROUND(...)` and casts to `numeric` in the SELECT lists are left out:
  values are exact reals. Floating-point rounding in pandas is left out too.
- `ORDER BY cohort_month, month_number` in the cohort query is not
  modelled: the rows are a sequence whose order is not stated.
- The tie order of `NTILE` and of `ORDER BY` on equal keys is an input
  (`rPos`, `fPos`, `mPos`), because PostgreSQL does not fix it.
- `PERCENT_RANK ... ORDER BY avg_review DESC` sorts `NULL` reviews first,
  as PostgreSQL does. Collations and other engines are left out.
- The civil calendar that maps a timestamp to its month index is the
  parameter `cal`. Time zones are left out.
- `load_seller_geolocation` is an input: the state aggregation reads the
  rows it returns. Its own query is not modelled.
- The pandas `groupby` order of the seller state aggregation is not
  stated; only its rows are.
- The presets of the date pickers, the sliders and the multiselects are
  inputs, except the default selections that `DefaultFiltersKeepAll` pins
  down.
- The report page's `generate_report` has no `total_reviews` column.
  `Report.ReportOf` computes it anyway, and the page ignores it.
- The `new_customers` sub-query joins orders and customers but not
  items, and the model follows that.
- The weekly script's files, `check_table_columns`, the `print`/`logging`
  calls and `argparse` are left out. Only the returned data frame is
  modelled, and of the markdown file only the fact that it formats total
  revenue, average order value and average delivery days with two
  decimals, which raises on a NULL. The `except` branch, which returns
  None, covers both that failure and a date that does not parse: these
  are the two ways `WeeklyReport.WeeklyBusinessReport` returns `None`.
  A failure to create the engine, connect or write a file is not
  modelled.
- A NULL figure is taken to reach the formatting as Python's `None`,
  which a fixed-decimals format refuses. This holds for the one-row frames
  of the report page and the weekly script, whose NULL columns hold no
  other values.
- WeeklyReport.ParseDate: only ASCII digits are accepted, whereas Python's
  `strptime` also takes other Unicode decimal digits.
- Cleaning.TitleFrom: case mapping covers ASCII and Latin-1 letters only.
  `ª`, `µ` and `º` count as cased, as in Python. Python maps the title case
  of `µ` to `Μ`, of `ÿ` to `Ÿ` and of `ß` to `Ss`; the model leaves these
  three letters unchanged. Wider Unicode case rules are left out.
- Cleaning.CleanCell: the text `astype(str)` makes of a number is the
  parameter `render`. Python's float formatting is not modelled.
- `pd.api.types.is_numeric_dtype` is a flag stored with each column.
- `load_data`, `save_cleaned_data` and the rest of `src/data_cleaning.py`
  (database I/O) are left out.
- The forecasting page, the category pages and the home page are not part
  of this model.
