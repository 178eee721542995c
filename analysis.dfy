// analyze_data: the filter, the scalar metrics, the six breakdowns and the
// price-variation report, computed from one filtered table.

module Analysis {
  import opened Sales
  import opened Filtering
  import opened Grouping
  import opened Ranking

  /** Row limit of the product, client and price-variation tables (`head(10)`). */
  const TopN: nat := 10

  function Min(a: int, b: int): int {
    if a <= b then a else b
  }

  // ---------------------------------------------------------------------
  // Scalar metrics
  // ---------------------------------------------------------------------

  datatype Metrics = Metrics(totalVentas: int, totalCantidad: int, numTransacciones: nat, ticketPromedio: real)

  /** Sums, row count, and the mean sale amount guarded against an empty table. */
  function ComputeMetrics(rows: seq<Row>): (m: Metrics)
    ensures m.totalVentas == Total(rows, SaleAmount)
    ensures m.totalCantidad == Total(rows, Quantity)
    ensures m.numTransacciones == |rows|
    ensures m.numTransacciones == 0 ==> m.ticketPromedio == 0.0
    ensures m.numTransacciones > 0 ==> m.ticketPromedio * (m.numTransacciones as real) == m.totalVentas as real
  {
    var total := Total(rows, SaleAmount);
    var average := if |rows| > 0 then total as real / |rows| as real else 0.0;
    Metrics(total, Total(rows, Quantity), |rows|, average)
  }

  // ---------------------------------------------------------------------
  // Sum breakdowns (line, channel, client, salesperson, day)
  // ---------------------------------------------------------------------

  /** One row of a breakdown: a key with its summed Importe_Venta and Cantidad. */
  datatype SalesGroup = SalesGroup(key: GroupKey, importeVenta: int, cantidad: int)

  function GroupAmount(g: SalesGroup): int { g.importeVenta }
  function GroupQuantity(g: SalesGroup): int { g.cantidad }
  function GroupKeyOf(g: SalesGroup): GroupKey { g.key }

  /** One bucket summed: its key with the totals of its sale amounts and quantities. */
  function Summarize(b: Bucket): SalesGroup {
    SalesGroup(b.key, Total(b.rows, SaleAmount), Total(b.rows, Quantity))
  }

  function Summaries(bs: seq<Bucket>): (gs: seq<SalesGroup>)
    ensures |gs| == |bs|
    ensures forall i :: 0 <= i < |bs| ==> gs[i] == Summarize(bs[i])
  {
    if bs == [] then [] else [Summarize(bs[0])] + Summaries(bs[1..])
  }

  /** `g` sums exactly the rows whose key is `g.key`, and there is at least one. */
  predicate IsGroupOf(g: SalesGroup, rows: seq<Row>, d: Dimension) {
    var members := RowsWithKey(rows, d, g.key);
    members != [] && g.importeVenta == Total(members, SaleAmount) && g.cantidad == Total(members, Quantity)
  }

  /** A correct group-by table: every entry is the group of its key, every
      key of the data has an entry, and no key has two. */
  predicate IsGroupBy(gs: seq<SalesGroup>, rows: seq<Row>, d: Dimension) {
    && (forall g :: g in gs ==> IsGroupOf(g, rows, d))
    && (forall r :: r in rows ==> exists g :: g in gs && g.key == KeyOf(r, d))
    && DistinctBy(gs, GroupKeyOf)
  }

  /** The group-by table of a dimension, one summed row per bucket, before sorting. */
  function Aggregate(rows: seq<Row>, d: Dimension): seq<SalesGroup> {
    Summaries(Split(rows, d))
  }

  lemma {:induction false} SummariesTotals(bs: seq<Bucket>)
    ensures SumBy(Summaries(bs), GroupAmount) == BucketsTotal(bs, SaleAmount)
    ensures SumBy(Summaries(bs), GroupQuantity) == BucketsTotal(bs, Quantity)
  {
    if bs != [] {
      SummariesTotals(bs[1..]);
      assert Summaries(bs)[1..] == Summaries(bs[1..]);
    }
  }

  /** The aggregated table is the group-by of the rows and conserves both sums. */
  lemma AggregateIsGroupBy(rows: seq<Row>, d: Dimension)
    ensures IsGroupBy(Aggregate(rows, d), rows, d)
    ensures SumBy(Aggregate(rows, d), GroupAmount) == Total(rows, SaleAmount)
    ensures SumBy(Aggregate(rows, d), GroupQuantity) == Total(rows, Quantity)
  {
    var bs := Split(rows, d);
    var gs := Aggregate(rows, d);
    forall g | g in gs
      ensures IsGroupOf(g, rows, d)
    {
      var i :| 0 <= i < |gs| && gs[i] == g;
      RowsOfDistinct(bs, i);
      KeysMembership(bs, bs[i].key);
    }
    forall r | r in rows
      ensures exists g :: g in gs && g.key == KeyOf(r, d)
    {
      RowsWithKeyNonEmpty(rows, d, KeyOf(r, d));
      KeysMembership(bs, KeyOf(r, d));
      var i :| 0 <= i < |bs| && bs[i].key == KeyOf(r, d);
      assert gs[i] in gs;
    }
    forall i, j | 0 <= i < j < |gs|
      ensures GroupKeyOf(gs[i]) != GroupKeyOf(gs[j])
    {
      DistinctKeysPairwise(bs, i, j);
    }
    SummariesTotals(bs);
    SplitConserves(rows, d, SaleAmount);
    SplitConserves(rows, d, Quantity);
  }

  /** Reordering a group-by table keeps it a group-by table. */
  lemma PermutationIsGroupBy(xs: seq<SalesGroup>, ys: seq<SalesGroup>, rows: seq<Row>, d: Dimension)
    requires multiset(xs) == multiset(ys) && IsGroupBy(xs, rows, d)
    ensures IsGroupBy(ys, rows, d)
  {
    forall g | g in ys
      ensures IsGroupOf(g, rows, d)
    {
      assert g in multiset(xs);
    }
    forall r | r in rows
      ensures exists g :: g in ys && g.key == KeyOf(r, d)
    {
      var g :| g in xs && g.key == KeyOf(r, d);
      assert g in multiset(ys);
    }
    PermutationKeepsDistinct(xs, ys, GroupKeyOf);
  }

  /** The line, channel and salesperson breakdowns: the group-by table of the
      dimension ordered by summed sale amount, largest first. */
  function RankedByAmount(rows: seq<Row>, d: Dimension): (r: seq<SalesGroup>)
    ensures IsGroupBy(r, rows, d)
    ensures SortedBy(r, GroupAmount, true)
    ensures SumBy(r, GroupAmount) == Total(rows, SaleAmount)
    ensures SumBy(r, GroupQuantity) == Total(rows, Quantity)
    ensures |r| == |Split(rows, d)|
  {
    var gs := Aggregate(rows, d);
    AggregateIsGroupBy(rows, d);
    var sorted := SortBy(gs, GroupAmount, true);
    PermutationIsGroupBy(gs, sorted, rows, d);
    SortBySum(gs, GroupAmount, true, GroupAmount);
    SortBySum(gs, GroupAmount, true, GroupQuantity);
    sorted
  }

  /** The client breakdown: the ranked table cut to its first TopN rows. */
  function TopByAmount(rows: seq<Row>, d: Dimension): (r: seq<SalesGroup>)
    ensures |r| == Min(TopN, |Split(rows, d)|)
    ensures SortedBy(r, GroupAmount, true)
    ensures DistinctBy(r, GroupKeyOf)
    ensures forall g :: g in r ==> IsGroupOf(g, rows, d)
    ensures forall g, h :: g in Aggregate(rows, d) && g !in r && h in r ==> GroupAmount(g) <= GroupAmount(h)
  {
    var gs := Aggregate(rows, d);
    AggregateIsGroupBy(rows, d);
    TopIsDistinct(gs, GroupAmount, TopN, GroupKeyOf);
    TopAreLargest(gs, GroupAmount, TopN);
    var ranked := SortBy(gs, GroupAmount, true);
    HeadSorted(ranked, GroupAmount, true, TopN);
    var r := Head(ranked, TopN);
    forall g | g in r
      ensures IsGroupOf(g, rows, d)
    {
      assert g in gs;
    }
    r
  }

  /** The client breakdown has min(10, number of distinct clients) rows, and
      the uncut line, channel and salesperson breakdowns one row per distinct value. */
  lemma BreakdownSizes(rows: seq<Row>, d: Dimension)
    ensures |TopByAmount(rows, d)| == Min(TopN, |KeySet(rows, d)|)
    ensures |RankedByAmount(rows, d)| == |KeySet(rows, d)|
  {
    SplitCountsKeys(rows, d);
  }

  lemma {:induction false} TotalNonNegative(rows: seq<Row>, m: Measure)
    requires forall x :: x in rows ==> Value(x, m) >= 0
    ensures Total(rows, m) >= 0
  {
    if rows != [] {
      TotalNonNegative(rows[..|rows| - 1], m);
    }
  }

  /** A group holds exactly the rows of the table that carry its key. */
  lemma {:induction false} RowsWithKeyAreRows(rows: seq<Row>, d: Dimension, k: GroupKey)
    ensures forall x :: x in RowsWithKey(rows, d, k) <==> x in rows && KeyOf(x, d) == k
  {
    if rows != [] {
      RowsWithKeyAreRows(rows[..|rows| - 1], d, k);
      assert rows == rows[..|rows| - 1] + [rows[|rows| - 1]];
    }
  }

  lemma {:induction false} RowInItsGroup(rows: seq<Row>, d: Dimension, x: Row)
    requires x in rows
    ensures x in RowsWithKey(rows, d, KeyOf(x, d))
  {
    var init := rows[..|rows| - 1];
    if x != rows[|rows| - 1] {
      assert rows == init + [rows[|rows| - 1]];
      RowInItsGroup(init, d, x);
    }
  }

  /** With no negative sale amounts, the kept top rows sum to at most the total. */
  lemma TopSumBounded(rows: seq<Row>, d: Dimension)
    requires forall x :: x in rows ==> x.amount >= 0
    ensures SumBy(TopByAmount(rows, d), GroupAmount) <= Total(rows, SaleAmount)
  {
    var ranked := RankedByAmount(rows, d);
    forall g | g in ranked
      ensures GroupAmount(g) >= 0
    {
      var members := RowsWithKey(rows, d, g.key);
      RowsWithKeyAreRows(rows, d, g.key);
      TotalNonNegative(members, SaleAmount);
    }
    HeadSumBounded(ranked, TopN, GroupAmount);
  }

  /** The day of the month of a day-breakdown row. */
  function DayNumber(g: SalesGroup): int {
    match g.key
    case DayOfMonth(n) => n
    case _ => 0
  }

  /** The day breakdown: `groupby(Fecha.dt.day)`, whose keys come out in
      ascending order; days of different months share one group. */
  function SalesByDay(rows: seq<Row>): (r: seq<SalesGroup>)
    ensures IsGroupBy(r, rows, ByDay)
    ensures forall i, j :: 0 <= i < j < |r| ==> DayNumber(r[i]) < DayNumber(r[j])
    ensures SumBy(r, GroupAmount) == Total(rows, SaleAmount)
    ensures SumBy(r, GroupQuantity) == Total(rows, Quantity)
    ensures |r| == |Split(rows, ByDay)|
  {
    var gs := Aggregate(rows, ByDay);
    AggregateIsGroupBy(rows, ByDay);
    var sorted := SortBy(gs, DayNumber, false);
    PermutationIsGroupBy(gs, sorted, rows, ByDay);
    SortBySum(gs, DayNumber, false, GroupAmount);
    SortBySum(gs, DayNumber, false, GroupQuantity);
    DayKeysAreDays(sorted, rows);
    sorted
  }

  /** In a day group-by table the key is the day number, so day numbers are
      distinct, and a table sorted by them is strictly ascending. */
  lemma DayKeysAreDays(gs: seq<SalesGroup>, rows: seq<Row>)
    requires IsGroupBy(gs, rows, ByDay) && SortedBy(gs, DayNumber, false)
    ensures forall i, j :: 0 <= i < j < |gs| ==> DayNumber(gs[i]) < DayNumber(gs[j])
  {
    DayKeysOfRows(gs, rows);
    forall i, j | 0 <= i < j < |gs|
      ensures DayNumber(gs[i]) < DayNumber(gs[j])
    {
      assert gs[i] in gs && gs[j] in gs;
      assert GroupKeyOf(gs[i]) != GroupKeyOf(gs[j]);
    }
  }

  /** Every key of a day group-by table is the day of some row. */
  lemma DayKeysOfRows(gs: seq<SalesGroup>, rows: seq<Row>)
    requires IsGroupBy(gs, rows, ByDay)
    ensures forall g :: g in gs ==> exists x :: x in rows && g.key == KeyOf(x, ByDay)
  {
    forall g | g in gs
      ensures exists x :: x in rows && g.key == KeyOf(x, ByDay)
    {
      var members := RowsWithKey(rows, ByDay, g.key);
      RowsWithKeyAreRows(rows, ByDay, g.key);
      assert members[0] in members;
    }
  }

  /** With valid dates, a day breakdown has its rows among the days 1..31. */
  lemma DayNumbersInRange(gs: seq<SalesGroup>, rows: seq<Row>)
    requires IsGroupBy(gs, rows, ByDay)
    requires forall x :: x in rows ==> ValidDate(x.fecha.date)
    ensures forall g :: g in gs ==> 1 <= DayNumber(g) <= 31
  {
    DayKeysOfRows(gs, rows);
  }

  /** Rows with the same day of the month fall into one entry of a day
      breakdown whatever their month or year. */
  lemma DayGroupSpansMonths(gs: seq<SalesGroup>, rows: seq<Row>, x: Row, y: Row)
    requires IsGroupBy(gs, rows, ByDay)
    requires x in rows && y in rows && x.fecha.date.day == y.fecha.date.day
    ensures exists g :: g in gs && g.key == DayOfMonth(x.fecha.date.day)
              && x in RowsWithKey(rows, ByDay, g.key) && y in RowsWithKey(rows, ByDay, g.key)
  {
    var g := SharedGroup(gs, rows, ByDay, x, y);
  }

  /** Two rows with the same key on a dimension share one entry of its
      group-by table, and both are among that entry's rows. */
  lemma SharedGroup(gs: seq<SalesGroup>, rows: seq<Row>, d: Dimension, x: Row, y: Row) returns (g: SalesGroup)
    requires IsGroupBy(gs, rows, d) && x in rows && y in rows && KeyOf(x, d) == KeyOf(y, d)
    ensures g in gs && g.key == KeyOf(x, d)
    ensures x in RowsWithKey(rows, d, g.key) && y in RowsWithKey(rows, d, g.key)
  {
    g := GroupOfRow(gs, rows, d, x);
    RowInItsGroup(rows, d, x);
    RowInItsGroup(rows, d, y);
  }

  /** The entry of a group-by table that a given row falls into. */
  lemma GroupOfRow(gs: seq<SalesGroup>, rows: seq<Row>, d: Dimension, x: Row) returns (g: SalesGroup)
    requires IsGroupBy(gs, rows, d) && x in rows
    ensures g in gs && g.key == KeyOf(x, d)
  {
    g :| g in gs && g.key == KeyOf(x, d);
  }

  // ---------------------------------------------------------------------
  // Product breakdown
  // ---------------------------------------------------------------------

  /** A product-breakdown row: the summed group and the number of distinct
      unit prices (`Precio_Unitario: nunique`). */
  datatype ProductSales = ProductSales(group: SalesGroup, preciosDistintos: nat)

  function ProductAmount(p: ProductSales): int { p.group.importeVenta }
  function ProductKey(p: ProductSales): GroupKey { p.group.key }

  /** The set of unit prices of some rows. */
  function Prices(rows: seq<Row>): set<int> {
    set x | x in rows :: x.unitPrice
  }

  function ProductSummaries(bs: seq<Bucket>): (ps: seq<ProductSales>)
    ensures |ps| == |bs|
    ensures forall i :: 0 <= i < |bs| ==> ps[i] == ProductSales(Summarize(bs[i]), |Prices(bs[i].rows)|)
  {
    if bs == [] then [] else [ProductSales(Summarize(bs[0]), |Prices(bs[0].rows)|)] + ProductSummaries(bs[1..])
  }

  /** The product table before sorting: per (product, description) bucket, the two
      totals and the number of distinct unit prices. */
  function ProductTable(rows: seq<Row>): seq<ProductSales> {
    ProductSummaries(Split(rows, ByProduct))
  }

  /** Every product row is the group of its (product, description) key and
      counts that group's distinct unit prices; no key repeats. */
  predicate IsProductRow(p: ProductSales, rows: seq<Row>) {
    IsGroupOf(p.group, rows, ByProduct)
    && p.preciosDistintos == |Prices(RowsWithKey(rows, ByProduct, p.group.key))|
  }

  lemma ProductTableCorrect(rows: seq<Row>)
    ensures forall p :: p in ProductTable(rows) ==> IsProductRow(p, rows)
    ensures forall x :: x in rows ==> exists p :: p in ProductTable(rows) && ProductKey(p) == KeyOf(x, ByProduct)
    ensures DistinctBy(ProductTable(rows), ProductKey)
  {
    var bs := Split(rows, ByProduct);
    var ps := ProductTable(rows);
    forall x | x in rows
      ensures exists p :: p in ps && ProductKey(p) == KeyOf(x, ByProduct)
    {
      RowsWithKeyNonEmpty(rows, ByProduct, KeyOf(x, ByProduct));
      KeysMembership(bs, KeyOf(x, ByProduct));
      var i :| 0 <= i < |bs| && bs[i].key == KeyOf(x, ByProduct);
      assert ps[i] in ps;
    }
    forall p | p in ps
      ensures IsProductRow(p, rows)
    {
      var i :| 0 <= i < |ps| && ps[i] == p;
      RowsOfDistinct(bs, i);
      KeysMembership(bs, bs[i].key);
    }
    forall i, j | 0 <= i < j < |ps|
      ensures ProductKey(ps[i]) != ProductKey(ps[j])
    {
      DistinctKeysPairwise(bs, i, j);
    }
  }

  /** The product breakdown: sorted by summed amount, cut to TopN rows, which
      are the products with the largest amounts. */
  function SalesByProduct(rows: seq<Row>): (r: seq<ProductSales>)
    ensures |r| == Min(TopN, |Split(rows, ByProduct)|)
    ensures SortedBy(r, ProductAmount, true)
    ensures DistinctBy(r, ProductKey)
    ensures forall p :: p in r ==> IsProductRow(p, rows)
    ensures forall p, q :: p in ProductTable(rows) && p !in r && q in r ==> ProductAmount(p) <= ProductAmount(q)
  {
    var ps := ProductTable(rows);
    ProductTableCorrect(rows);
    TopIsDistinct(ps, ProductAmount, TopN, ProductKey);
    TopAreLargest(ps, ProductAmount, TopN);
    var sorted := SortBy(ps, ProductAmount, true);
    HeadSorted(sorted, ProductAmount, true, TopN);
    var r := Head(sorted, TopN);
    forall p | p in r
      ensures IsProductRow(p, rows)
    {
      assert p in ps;
    }
    r
  }

  /** The product breakdown has min(10, number of distinct (product,
      description) pairs) rows. */
  lemma ProductBreakdownSize(rows: seq<Row>)
    ensures |SalesByProduct(rows)| == Min(TopN, |KeySet(rows, ByProduct)|)
  {
    SplitCountsKeys(rows, ByProduct);
  }

  // ---------------------------------------------------------------------
  // Price-variation report
  // ---------------------------------------------------------------------

  /** One row of variacion_precios: the product key, its distinct unit prices,
      its row count (`Cantidad: count`) and the num_precios column. */
  datatype PriceVariation = PriceVariation(key: GroupKey, precios: set<int>, cantidad: nat, numPrecios: nat)

  function VariationKey(v: PriceVariation): GroupKey { v.key }
  function VariationCount(v: PriceVariation): int { v.cantidad }

  /** The grouped table before num_precios is added (that column still 0). */
  function PriceGroups(bs: seq<Bucket>): (vs: seq<PriceVariation>)
    ensures |vs| == |bs|
    ensures forall i :: 0 <= i < |bs| ==> vs[i] == PriceVariation(bs[i].key, Prices(bs[i].rows), |bs[i].rows|, 0)
  {
    if bs == [] then [] else [PriceVariation(bs[0].key, Prices(bs[0].rows), |bs[0].rows|, 0)] + PriceGroups(bs[1..])
  }

  /** One row with its num_precios column set to the number of distinct prices. */
  function WithNumPrices(v: PriceVariation): PriceVariation {
    v.(numPrecios := |v.precios|)
  }

  /** The grouped table once num_precios has been filled in. */
  function VariationTable(rows: seq<Row>): seq<PriceVariation> {
    var gs := PriceGroups(Split(rows, ByProduct));
    seq(|gs|, i requires 0 <= i < |gs| => WithNumPrices(gs[i]))
  }

  /** A row of the variation table: the product's rows are non-empty, its
      prices are their unit prices, its count is their number. */
  predicate IsVariationOf(v: PriceVariation, rows: seq<Row>) {
    var members := RowsWithKey(rows, ByProduct, v.key);
    members != [] && v.precios == Prices(members) && v.cantidad == |members| && v.numPrecios == |v.precios|
  }

  lemma VariationTableCorrect(rows: seq<Row>)
    ensures forall v :: v in VariationTable(rows) ==> IsVariationOf(v, rows)
    ensures forall x :: x in rows ==> exists v :: v in VariationTable(rows) && v.key == KeyOf(x, ByProduct)
    ensures DistinctBy(VariationTable(rows), VariationKey)
  {
    var bs := Split(rows, ByProduct);
    var vs := VariationTable(rows);
    forall v | v in vs
      ensures IsVariationOf(v, rows)
    {
      var i :| 0 <= i < |vs| && vs[i] == v;
      RowsOfDistinct(bs, i);
      KeysMembership(bs, bs[i].key);
    }
    forall x | x in rows
      ensures exists v :: v in vs && v.key == KeyOf(x, ByProduct)
    {
      RowsWithKeyNonEmpty(rows, ByProduct, KeyOf(x, ByProduct));
      KeysMembership(bs, KeyOf(x, ByProduct));
      var i :| 0 <= i < |bs| && bs[i].key == KeyOf(x, ByProduct);
      assert vs[i] in vs;
    }
    forall i, j | 0 <= i < j < |vs|
      ensures VariationKey(vs[i]) != VariationKey(vs[j])
    {
      DistinctKeysPairwise(bs, i, j);
    }
  }

  /** The rows of the variation table with more than one distinct price, in order. */
  function KeepVarying(vs: seq<PriceVariation>): (r: seq<PriceVariation>)
    ensures forall v :: v in r <==> v in vs && v.numPrecios > 1
    ensures DistinctBy(vs, VariationKey) ==> DistinctBy(r, VariationKey)
  {
    if vs == [] then []
    else
      var rest := KeepVarying(vs[1..]);
      assert DistinctBy(vs, VariationKey) ==> DistinctBy(vs[1..], VariationKey);
      assert DistinctBy(vs, VariationKey) ==> forall w :: w in vs[1..] ==> w.key != vs[0].key;
      if vs[0].numPrecios > 1 then [vs[0]] + rest else rest
  }

  /** The products sold at two or more distinct unit prices. */
  function VaryingProducts(rows: seq<Row>): seq<PriceVariation> {
    KeepVarying(VariationTable(rows))
  }

  /** A product with at least two distinct unit prices is a varying product. */
  lemma VaryingProductsComplete(rows: seq<Row>, x: Row)
    requires x in rows && |Prices(RowsWithKey(rows, ByProduct, KeyOf(x, ByProduct)))| >= 2
    ensures exists v :: v in VaryingProducts(rows) && v.key == KeyOf(x, ByProduct)
  {
    VariationTableCorrect(rows);
    var v :| v in VariationTable(rows) && v.key == KeyOf(x, ByProduct);
    assert v in VaryingProducts(rows);
  }

  /** The product keys of a table whose rows carry at least two distinct unit prices. */
  function VaryingKeys(rows: seq<Row>): set<GroupKey> {
    set x | x in rows && |Prices(RowsWithKey(rows, ByProduct, KeyOf(x, ByProduct)))| >= 2 :: KeyOf(x, ByProduct)
  }

  /** There is one varying product per (product, description) pair sold at two
      or more distinct unit prices. */
  lemma VaryingProductsCount(rows: seq<Row>)
    ensures |VaryingProducts(rows)| == |VaryingKeys(rows)|
  {
    var table := VariationTable(rows);
    var vs := KeepVarying(table);
    VariationTableCorrect(rows);
    assert DistinctBy(vs, VariationKey);
    DistinctByCount(vs, VariationKey);
    forall x | x in rows && |Prices(RowsWithKey(rows, ByProduct, KeyOf(x, ByProduct)))| >= 2
      ensures exists v :: v in vs && v.key == KeyOf(x, ByProduct)
    {
      VaryingProductsComplete(rows, x);
    }
    VaryingKeysOf(rows, vs);
    assert vs == VaryingProducts(rows);
  }

  /** A list of variation rows, each with two or more prices and covering every
      product with two or more prices, carries exactly the varying keys. */
  lemma VaryingKeysOf(rows: seq<Row>, vs: seq<PriceVariation>)
    requires forall v :: v in vs ==> IsVariationOf(v, rows) && v.numPrecios > 1
    requires forall x :: x in rows && |Prices(RowsWithKey(rows, ByProduct, KeyOf(x, ByProduct)))| >= 2 ==>
               exists v :: v in vs && v.key == KeyOf(x, ByProduct)
    ensures KeysOf(vs, VariationKey) == VaryingKeys(rows)
  {
    forall k | k in KeysOf(vs, VariationKey)
      ensures k in VaryingKeys(rows)
    {
      var v :| v in vs && v.key == k;
      var members := RowsWithKey(rows, ByProduct, k);
      RowsWithKeyAreRows(rows, ByProduct, k);
      assert members[0] in members;
    }
    forall k | k in VaryingKeys(rows)
      ensures k in KeysOf(vs, VariationKey)
    {
      var x :| x in rows && |Prices(RowsWithKey(rows, ByProduct, KeyOf(x, ByProduct)))| >= 2 && KeyOf(x, ByProduct) == k;
      var v :| v in vs && v.key == k;
      assert VariationKey(v) == k;
    }
  }

  /** The report: varying products sorted by row count, descending, first TopN. */
  function PriceVariationReport(rows: seq<Row>): (r: seq<PriceVariation>)
    ensures |r| == Min(TopN, |VaryingProducts(rows)|)
    ensures SortedBy(r, VariationCount, true)
    ensures DistinctBy(r, VariationKey)
    ensures forall v :: v in r ==> IsVariationOf(v, rows) && v.numPrecios >= 2
    ensures forall v, w :: v in VaryingProducts(rows) && v !in r && w in r ==> VariationCount(v) <= VariationCount(w)
  {
    var varying := VaryingProducts(rows);
    VariationTableCorrect(rows);
    TopIsDistinct(varying, VariationCount, TopN, VariationKey);
    TopAreLargest(varying, VariationCount, TopN);
    var sorted := SortBy(varying, VariationCount, true);
    HeadSorted(sorted, VariationCount, true, TopN);
    var r := Head(sorted, TopN);
    forall v | v in r
      ensures IsVariationOf(v, rows) && v.numPrecios >= 2
    {
      assert v in varying;
    }
    r
  }

  /** The report has min(10, number of products sold at two or more distinct
      unit prices) rows. */
  lemma VariationReportSize(rows: seq<Row>)
    ensures |PriceVariationReport(rows)| == Min(TopN, |VaryingKeys(rows)|)
  {
    VaryingProductsCount(rows);
  }

  // ---------------------------------------------------------------------
  // The whole analysis
  // ---------------------------------------------------------------------

  /** The dictionary analyze_data returns. */
  datatype Result = Result(
    filtered: seq<Row>,
    metrics: Metrics,
    byLinea: seq<SalesGroup>,
    byProducto: seq<ProductSales>,
    byGiro: seq<SalesGroup>,
    byCliente: seq<SalesGroup>,
    byVendedor: seq<SalesGroup>,
    byDia: seq<SalesGroup>,
    variacionPrecios: seq<PriceVariation>
  )

  /** What analyze_data computes for a table and a filter. */
  function Analyze(table: seq<Row>, s: FilterSpec): Result {
    var f := Filter(table, s);
    Result(
      f,
      ComputeMetrics(f),
      RankedByAmount(f, ByLine),
      SalesByProduct(f),
      RankedByAmount(f, ByChannel),
      TopByAmount(f, ByClient),
      RankedByAmount(f, BySalesperson),
      SalesByDay(f),
      PriceVariationReport(f))
  }

  /** num_precios := number of distinct prices, written in place into every
      row of the grouped variation table. */
  method AddNumPrices(variacion: array<PriceVariation>)
    modifies variacion
    ensures forall j :: 0 <= j < variacion.Length ==> variacion[j] == WithNumPrices(old(variacion[j]))
  {
    for i := 0 to variacion.Length
      invariant forall j :: 0 <= j < i ==> variacion[j] == WithNumPrices(old(variacion[j]))
      invariant forall j :: i <= j < variacion.Length ==> variacion[j] == old(variacion[j])
    {
      variacion[i] := variacion[i].(numPrecios := |variacion[i].precios|);
    }
  }

  /** The price-variation block of analyze_data: group by product, write
      the num_precios column into each row of the grouped table in place,
      then keep the rows with more than one price, sort by count and cut. */
  method DetectPriceVariation(rows: seq<Row>) returns (report: seq<PriceVariation>)
    ensures report == PriceVariationReport(rows)
  {
    var grouped := PriceGroups(Split(rows, ByProduct));
    var variacion := new PriceVariation[|grouped|](i requires 0 <= i < |grouped| => grouped[i]);
    AddNumPrices(variacion);
    var table := variacion[..];
    assert |table| == |VariationTable(rows)|;
    assert forall j :: 0 <= j < |table| ==> table[j] == VariationTable(rows)[j];
    assert table == VariationTable(rows);
    report := Head(SortBy(KeepVarying(table), VariationCount, true), TopN);
  }

  /** analyze_data step by step: the mask filter, the metrics and breakdowns,
      and the variation table whose num_precios column is written in place
      before it is filtered, sorted and cut. */
  method AnalyzeData(table: seq<Row>, s: FilterSpec) returns (result: Result)
    ensures result == Analyze(table, s)
  {
    var filtered := FilterRows(table, s);
    var metrics := ComputeMetrics(filtered);
    var byLinea := RankedByAmount(filtered, ByLine);
    var byProducto := SalesByProduct(filtered);
    var byGiro := RankedByAmount(filtered, ByChannel);
    var byCliente := TopByAmount(filtered, ByClient);
    var byVendedor := RankedByAmount(filtered, BySalesperson);
    var byDia := SalesByDay(filtered);

    var report := DetectPriceVariation(filtered);
    result := Result(filtered, metrics, byLinea, byProducto, byGiro, byCliente, byVendedor, byDia, report);
  }

  /** An empty selection is not an error: every metric is zero and every
      table is empty. */
  lemma EmptySelection(table: seq<Row>, s: FilterSpec)
    requires Filter(table, s) == []
    ensures var a := Analyze(table, s);
      && a.metrics == Metrics(0, 0, 0, 0.0)
      && a.byLinea == [] && a.byProducto == [] && a.byGiro == []
      && a.byCliente == [] && a.byVendedor == [] && a.byDia == []
      && a.variacionPrecios == []
  {
    var empty: seq<Row> := [];
    assert VariationTable(empty) == [];
  }

  /** The untruncated breakdowns share out the metrics' totals exactly. */
  lemma BreakdownsConserveTotals(table: seq<Row>, s: FilterSpec)
    ensures var a := Analyze(table, s);
      && SumBy(a.byLinea, GroupAmount) == a.metrics.totalVentas
      && SumBy(a.byGiro, GroupAmount) == a.metrics.totalVentas
      && SumBy(a.byVendedor, GroupAmount) == a.metrics.totalVentas
      && SumBy(a.byDia, GroupAmount) == a.metrics.totalVentas
      && SumBy(a.byLinea, GroupQuantity) == a.metrics.totalCantidad
      && SumBy(a.byGiro, GroupQuantity) == a.metrics.totalCantidad
      && SumBy(a.byVendedor, GroupQuantity) == a.metrics.totalCantidad
      && SumBy(a.byDia, GroupQuantity) == a.metrics.totalCantidad
  {
  }

  /** Analysing the already-filtered table with the same filter gives the
      same result. */
  lemma ReanalysisIsStable(table: seq<Row>, s: FilterSpec)
    ensures Analyze(Filter(table, s), s) == Analyze(table, s)
  {
    FilterIdempotent(table, s);
  }
}
