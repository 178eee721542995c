// The group-by of analyze_data: rows are split into one bucket per key of
// the chosen dimension, and columns are summed per bucket.

module Grouping {
  import opened Sales

  /** The two summed columns. */
  datatype Measure = SaleAmount | Quantity

  function Value(r: Row, m: Measure): int {
    match m
    case SaleAmount => r.amount
    case Quantity => r.quantity
  }

  /** Column sum (`.sum()`): 0 for no rows. */
  function Total(rows: seq<Row>, m: Measure): int {
    if rows == [] then 0 else Total(rows[..|rows| - 1], m) + Value(rows[|rows| - 1], m)
  }

  /** The dimensions that analyze_data groups by. */
  datatype Dimension = ByLine | ByProduct | ByChannel | ByClient | BySalesperson | ByDay

  /** A group key: a single text column, the (Producto, Descripcion) pair,
      or the day of the month of Fecha. */
  datatype GroupKey = Name(text: string) | Item(code: string, description: string) | DayOfMonth(day: int)

  function KeyOf(r: Row, d: Dimension): GroupKey {
    match d
    case ByLine => Name(r.line)
    case ByProduct => Item(r.product, r.description)
    case ByChannel => Name(r.channel)
    case ByClient => Name(r.client)
    case BySalesperson => Name(r.salesperson)
    case ByDay => DayOfMonth(r.fecha.date.day)
  }

  /** The rows of one group, in table order. */
  datatype Bucket = Bucket(key: GroupKey, rows: seq<Row>)

  function Keys(bs: seq<Bucket>): (ks: seq<GroupKey>)
    ensures |ks| == |bs|
  {
    if bs == [] then [] else [bs[0].key] + Keys(bs[1..])
  }

  /** No key heads two buckets. */
  predicate DistinctKeys(bs: seq<Bucket>) {
    bs == [] || (bs[0].key !in Keys(bs[1..]) && DistinctKeys(bs[1..]))
  }

  /** The rows filed under key `k` (none when there is no such bucket). */
  function RowsOf(bs: seq<Bucket>, k: GroupKey): seq<Row> {
    if bs == [] then [] else if bs[0].key == k then bs[0].rows else RowsOf(bs[1..], k)
  }

  /** The rows of a table whose key on dimension `d` is `k`, in table order. */
  function RowsWithKey(rows: seq<Row>, d: Dimension, k: GroupKey): seq<Row> {
    if rows == [] then []
    else RowsWithKey(rows[..|rows| - 1], d, k)
         + (if KeyOf(rows[|rows| - 1], d) == k then [rows[|rows| - 1]] else [])
  }

  lemma {:induction false} KeysMembership(bs: seq<Bucket>, k: GroupKey)
    ensures k in Keys(bs) <==> exists i :: 0 <= i < |bs| && bs[i].key == k
  {
    if bs != [] {
      KeysMembership(bs[1..], k);
      if k in Keys(bs[1..]) {
        var i :| 0 <= i < |bs[1..]| && bs[1..][i].key == k;
        assert bs[i + 1].key == k;
      }
    }
  }

  /** File row `r` into the bucket of its key, opening a new bucket at the end
      when the key has not been seen. */
  function Place(bs: seq<Bucket>, r: Row, d: Dimension): (res: seq<Bucket>)
    ensures |res| == |bs| || |res| == |bs| + 1
    ensures forall k :: k in Keys(res) <==> k in Keys(bs) || k == KeyOf(r, d)
    ensures forall k :: RowsOf(res, k) == RowsOf(bs, k) + (if k == KeyOf(r, d) then [r] else [])
    ensures DistinctKeys(bs) ==> DistinctKeys(res)
  {
    if bs == [] then [Bucket(KeyOf(r, d), [r])]
    else if bs[0].key == KeyOf(r, d) then [bs[0].(rows := bs[0].rows + [r])] + bs[1..]
    else
      var rest := Place(bs[1..], r, d);
      assert ([bs[0]] + rest)[1..] == rest;
      [bs[0]] + rest
  }

  /** `groupby(d)`: one bucket per distinct key, in order of first appearance. */
  function Split(rows: seq<Row>, d: Dimension): (bs: seq<Bucket>)
    ensures DistinctKeys(bs)
    ensures forall k :: RowsOf(bs, k) == RowsWithKey(rows, d, k)
    ensures forall k :: k in Keys(bs) <==> RowsWithKey(rows, d, k) != []
  {
    if rows == [] then []
    else Place(Split(rows[..|rows| - 1], d), rows[|rows| - 1], d)
  }

  /** In a table with distinct keys each bucket is the one its key finds. */
  lemma {:induction false} RowsOfDistinct(bs: seq<Bucket>, i: int)
    requires DistinctKeys(bs) && 0 <= i < |bs|
    ensures RowsOf(bs, bs[i].key) == bs[i].rows
  {
    if i > 0 {
      RowsOfDistinct(bs[1..], i - 1);
      KeysMembership(bs[1..], bs[i].key);
    }
  }

  /** Distinct keys, stated position by position. */
  lemma {:induction false} DistinctKeysPairwise(bs: seq<Bucket>, i: int, j: int)
    requires DistinctKeys(bs) && 0 <= i < j < |bs|
    ensures bs[i].key != bs[j].key
  {
    if i > 0 {
      DistinctKeysPairwise(bs[1..], i - 1, j - 1);
    } else {
      KeysMembership(bs[1..], bs[j].key);
    }
  }

  /** A key heads a group exactly when some row carries it. */
  lemma {:induction false} RowsWithKeyNonEmpty(rows: seq<Row>, d: Dimension, k: GroupKey)
    ensures RowsWithKey(rows, d, k) != [] <==> exists r :: r in rows && KeyOf(r, d) == k
  {
    if rows != [] {
      var init := rows[..|rows| - 1];
      RowsWithKeyNonEmpty(init, d, k);
      assert rows == init + [rows[|rows| - 1]];
    }
  }

  /** The distinct keys that the rows of a table carry on dimension `d`. */
  function KeySet(rows: seq<Row>, d: Dimension): set<GroupKey> {
    set r | r in rows :: KeyOf(r, d)
  }

  /** Buckets with distinct keys are as many as their keys. */
  lemma {:induction false} DistinctKeysCount(bs: seq<Bucket>)
    requires DistinctKeys(bs)
    ensures |set k | k in Keys(bs)| == |bs|
  {
    if bs != [] {
      DistinctKeysCount(bs[1..]);
      var rest := set k | k in Keys(bs[1..]);
      assert Keys(bs) == [bs[0].key] + Keys(bs[1..]);
      assert (set k | k in Keys(bs)) == {bs[0].key} + rest;
      assert bs[0].key !in rest;
    }
  }

  /** `groupby` yields exactly one bucket per distinct key value of the table. */
  lemma SplitCountsKeys(rows: seq<Row>, d: Dimension)
    ensures |Split(rows, d)| == |KeySet(rows, d)|
  {
    var bs := Split(rows, d);
    DistinctKeysCount(bs);
    forall k
      ensures k in Keys(bs) <==> k in KeySet(rows, d)
    {
      RowsWithKeyNonEmpty(rows, d, k);
    }
    assert (set k | k in Keys(bs)) == KeySet(rows, d);
  }

  /** Sum of a column over the buckets' rows. */
  function BucketsTotal(bs: seq<Bucket>, m: Measure): int {
    if bs == [] then 0 else Total(bs[0].rows, m) + BucketsTotal(bs[1..], m)
  }

  lemma {:induction false} PlaceTotal(bs: seq<Bucket>, r: Row, d: Dimension, m: Measure)
    ensures BucketsTotal(Place(bs, r, d), m) == BucketsTotal(bs, m) + Value(r, m)
  {
    if bs == [] {
      assert [r][..0] == [];
      assert Total([r], m) == Value(r, m);
      assert Place(bs, r, d) == [Bucket(KeyOf(r, d), [r])];
    } else if bs[0].key == KeyOf(r, d) {
      var rs := bs[0].rows;
      assert (rs + [r])[..|rs|] == rs;
      assert ([bs[0].(rows := rs + [r])] + bs[1..])[1..] == bs[1..];
    } else {
      PlaceTotal(bs[1..], r, d, m);
      assert ([bs[0]] + Place(bs[1..], r, d))[1..] == Place(bs[1..], r, d);
    }
  }

  /** Grouping loses and invents nothing: the buckets' sums add up to the table's sum. */
  lemma {:induction false} SplitConserves(rows: seq<Row>, d: Dimension, m: Measure)
    ensures BucketsTotal(Split(rows, d), m) == Total(rows, m)
  {
    if rows != [] {
      SplitConserves(rows[..|rows| - 1], d, m);
      PlaceTotal(Split(rows[..|rows| - 1], d), rows[|rows| - 1], d, m);
    }
  }
}
