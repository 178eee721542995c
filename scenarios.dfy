// Concrete tables evaluated by lemmas: a two-row table of one product sold
// at two prices, and a price-variation example with a product whose
// price never changes. Money is in cents.

module Scenarios {
  import opened Sales
  import opened Filtering
  import opened Grouping
  import opened Ranking
  import opened Analysis

  /** A sale of the PASTAS line on a January 2026 day. */
  function Sale(day: int, product: string, amount: int, quantity: int, price: int): Row {
    Row(Timestamp(Date(2026, 1, day), 0), "C1", "V1", "G1", product, "Pasta", "PASTAS", quantity, amount, price)
  }

  const First: Row := Sale(1, "P1", 10000, 10, 1000)
  const Second: Row := Sale(2, "P1", 22000, 20, 1100)

  /** No categorical constraint, and a range covering both dates. */
  const Everything: FilterSpec :=
    FilterSpec(AllLines, AllOthers, AllOthers, AllOthers, AllOthers, Date(2026, 1, 1), Date(2026, 1, 2))

  /** Both rows pass the filter, and the metrics are 320.00 in sales, 30
      units, 2 transactions and an average ticket of 160.00. */
  lemma TwoRowMetrics()
    ensures Filter([First, Second], Everything) == [First, Second]
    ensures ComputeMetrics([First, Second]) == Metrics(32000, 30, 2, 16000.0)
  {
    var t := [First, Second];
    NoConstraintKeepsAll(t, Everything);
    assert t[..1] == [First];
    assert [First][..0] == [];
    assert Total([First], SaleAmount) == Total([First][..0], SaleAmount) + Value(First, SaleAmount);
    assert Total([First], Quantity) == Total([First][..0], Quantity) + Value(First, Quantity);
    assert Total([First], SaleAmount) == 10000 && Total([First], Quantity) == 10;
    assert Total(t, SaleAmount) == 32000 && Total(t, Quantity) == 30;
  }

  /** Both rows fall into the one bucket of product P1. */
  lemma TwoRowSplit()
    ensures Split([First, Second], ByProduct) == [Bucket(Item("P1", "Pasta"), [First, Second])]
  {
    var k := Item("P1", "Pasta");
    assert [First, Second][..1] == [First];
    assert [First][..0] == [];
    assert KeyOf(First, ByProduct) == k && KeyOf(Second, ByProduct) == k;
    var none: seq<Row> := [];
    assert Split(none, ByProduct) == [];
    var one := Split([First], ByProduct);
    assert one == Place([], First, ByProduct);
    assert one == [Bucket(k, [First])];
    assert Split([First, Second], ByProduct) == Place(one, Second, ByProduct);
    assert one[1..] == [] && [First] + [Second] == [First, Second];
    assert Place(one, Second, ByProduct) == [Bucket(k, [First] + [Second])] + one[1..];
  }

  /** The product breakdown has the single row (P1, 320.00, 30) with its
      two distinct unit prices. */
  lemma TwoRowProducts()
    ensures SalesByProduct([First, Second]) ==
              [ProductSales(SalesGroup(Item("P1", "Pasta"), 32000, 30), 2)]
  {
    TwoRowSplit();
    TwoRowMetrics();
    assert Prices([First, Second]) == {1000, 1100};
  }

  /** The variation report has one entry for P1, with the prices
      {10.00, 11.00} and a count of 2. */
  lemma TwoRowVariation()
    ensures PriceVariationReport([First, Second]) ==
              [PriceVariation(Item("P1", "Pasta"), {1000, 1100}, 2, 2)]
  {
    var t := [First, Second];
    var k := Item("P1", "Pasta");
    var v := PriceVariation(k, {1000, 1100}, 2, 2);
    TwoRowSplit();
    assert Prices(t) == {1000, 1100};
    assert PriceGroups(Split(t, ByProduct)) == [v.(numPrecios := 0)];
    assert VariationTable(t) == [v];
    assert KeepVarying([v]) == [v];
    assert SortBy([v], VariationCount, true) == [v];
  }

  const P1a: Row := Sale(1, "P1", 10000, 1, 10000)
  const P1b: Row := Sale(2, "P1", 10000, 1, 10000)
  const P1c: Row := Sale(3, "P1", 10100, 1, 10100)
  const P2: Row := Sale(4, "P2", 5000, 1, 5000)

  lemma VariationSplit()
    ensures Split([P1a, P1b, P1c, P2], ByProduct) ==
              [Bucket(Item("P1", "Pasta"), [P1a, P1b, P1c]), Bucket(Item("P2", "Pasta"), [P2])]
  {
    var k1 := Item("P1", "Pasta");
    var k2 := Item("P2", "Pasta");
    var none: seq<Row> := [];
    assert [P1a, P1b, P1c, P2][..3] == [P1a, P1b, P1c];
    assert [P1a, P1b, P1c][..2] == [P1a, P1b];
    assert [P1a, P1b][..1] == [P1a];
    assert [P1a][..0] == none;
    assert Split(none, ByProduct) == [];
    var s1 := Split([P1a], ByProduct);
    assert s1 == Place([], P1a, ByProduct) == [Bucket(k1, [P1a])];
    var s2 := Split([P1a, P1b], ByProduct);
    assert s2 == Place(s1, P1b, ByProduct);
    assert s1[1..] == [] && [P1a] + [P1b] == [P1a, P1b];
    assert s2 == [Bucket(k1, [P1a, P1b])];
    var s3 := Split([P1a, P1b, P1c], ByProduct);
    assert s3 == Place(s2, P1c, ByProduct);
    assert s2[1..] == [] && [P1a, P1b] + [P1c] == [P1a, P1b, P1c];
    assert s3 == [Bucket(k1, [P1a, P1b, P1c])];
    assert Split([P1a, P1b, P1c, P2], ByProduct) == Place(s3, P2, ByProduct);
    var rest := Place(s3[1..], P2, ByProduct);
    assert s3[1..] == [];
    assert rest == [Bucket(k2, [P2])];
    assert Place(s3, P2, ByProduct) == [s3[0]] + rest;
  }

  lemma ExamplePrices()
    ensures Prices([P1a, P1b, P1c]) == {10000, 10100}
    ensures Prices([P2]) == {5000}
  {
    assert P1a.unitPrice == 10000 && P1c.unitPrice == 10100;
  }

  /** The grouped table with its num_precios column: P1 has two prices over
      three rows, P2 one price over one row. */
  lemma VariationTableOfExample()
    ensures VariationTable([P1a, P1b, P1c, P2]) ==
              [PriceVariation(Item("P1", "Pasta"), {10000, 10100}, 3, 2),
               PriceVariation(Item("P2", "Pasta"), {5000}, 1, 1)]
  {
    var v1 := PriceVariation(Item("P1", "Pasta"), {10000, 10100}, 3, 2);
    var v2 := PriceVariation(Item("P2", "Pasta"), {5000}, 1, 1);
    VariationSplit();
    ExamplePrices();
    assert PriceGroups(Split([P1a, P1b, P1c, P2], ByProduct)) == [v1.(numPrecios := 0), v2.(numPrecios := 0)];
  }

  /** P1, sold at 100.00, 100.00 and 101.00, is reported once with two
      distinct prices and a count of 3; P2, always sold at 50.00, is not. */
  lemma VariationDetected()
    ensures PriceVariationReport([P1a, P1b, P1c, P2]) ==
              [PriceVariation(Item("P1", "Pasta"), {10000, 10100}, 3, 2)]
  {
    var v1 := PriceVariation(Item("P1", "Pasta"), {10000, 10100}, 3, 2);
    var v2 := PriceVariation(Item("P2", "Pasta"), {5000}, 1, 1);
    VariationTableOfExample();
    assert [v1, v2][1..] == [v2] && [v2][1..] == [];
    assert KeepVarying([v2]) == [];
    assert KeepVarying([v1, v2]) == [v1];
    assert SortBy([v1], VariationCount, true) == [v1];
  }
}
