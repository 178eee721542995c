// The first step of analyze_data: a boolean mask over the table, narrowed
// once per active filter, then used to select the matching rows.

module Filtering {
  import opened Sales

  /** The calendar date of a row (`Fecha.dt.date`): the time of day is dropped. */
  function DateOf(r: Row): Date {
    r.fecha.date
  }

  /** Every categorical filter is either its sentinel or equal to the row's value. */
  predicate PassesCategorical(s: FilterSpec, r: Row) {
    && (s.linea == AllLines || r.line == s.linea)
    && (s.producto == AllOthers || r.product == s.producto)
    && (s.giro == AllOthers || r.channel == s.giro)
    && (s.cliente == AllOthers || r.client == s.cliente)
    && (s.vendedor == AllOthers || r.salesperson == s.vendedor)
  }

  /** fecha_inicio <= date <= fecha_fin, both ends included. */
  predicate InDateRange(s: FilterSpec, r: Row) {
    DateLe(s.fechaInicio, DateOf(r)) && DateLe(DateOf(r), s.fechaFin)
  }

  /** The final value of the mask at a row. */
  predicate Matches(s: FilterSpec, r: Row) {
    PassesCategorical(s, r) && InDateRange(s, r)
  }

  /** The rows the mask keeps, in table order (`df[mask]`). */
  function Filter(table: seq<Row>, s: FilterSpec): (f: seq<Row>)
    ensures |f| <= |table|
  {
    if table == [] then []
    else
      var last := table[|table| - 1];
      Filter(table[..|table| - 1], s) + (if Matches(s, last) then [last] else [])
  }

  /** `a` can be obtained from `b` by deleting elements: same values, same order. */
  predicate IsSubsequence(a: seq<Row>, b: seq<Row>)
    decreases |b|
  {
    if b == [] then a == []
    else
      || (a != [] && a[|a| - 1] == b[|b| - 1] && IsSubsequence(a[..|a| - 1], b[..|b| - 1]))
      || IsSubsequence(a, b[..|b| - 1])
  }

  /** A row is kept exactly when it is in the table and every filter lets it through. */
  lemma {:induction false} FilterMembership(table: seq<Row>, s: FilterSpec, r: Row)
    ensures r in Filter(table, s) <==> r in table && Matches(s, r)
  {
    if table != [] {
      var init := table[..|table| - 1];
      FilterMembership(init, s, r);
      assert table == init + [table[|table| - 1]];
    }
  }

  /** Each matching row is kept as often as it occurs; other rows never are. */
  lemma {:induction false} FilterCounts(table: seq<Row>, s: FilterSpec, r: Row)
    ensures multiset(Filter(table, s))[r] == if Matches(s, r) then multiset(table)[r] else 0
  {
    if table != [] {
      var init := table[..|table| - 1];
      FilterCounts(init, s, r);
      assert table == init + [table[|table| - 1]];
    }
  }

  /** The kept rows are the table's own rows, unchanged and in their original order. */
  lemma {:induction false} FilterIsSubsequence(table: seq<Row>, s: FilterSpec)
    ensures IsSubsequence(Filter(table, s), table)
  {
    if table != [] {
      var init := table[..|table| - 1];
      var last := table[|table| - 1];
      FilterIsSubsequence(init, s);
      var kept := Filter(init, s);
      if Matches(s, last) {
        assert Filter(table, s) == kept + [last];
        assert (kept + [last])[..|kept|] == kept;
      } else {
        assert Filter(table, s) == kept;
      }
    }
  }

  /** Filtering a second time with the same filter changes nothing. */
  lemma {:induction false} FilterIdempotent(table: seq<Row>, s: FilterSpec)
    ensures Filter(Filter(table, s), s) == Filter(table, s)
  {
    if table != [] {
      var init := table[..|table| - 1];
      var last := table[|table| - 1];
      FilterIdempotent(init, s);
      var kept := Filter(init, s);
      if Matches(s, last) {
        assert Filter(table, s) == kept + [last];
        assert (kept + [last])[..|kept|] == kept;
      } else {
        assert Filter(table, s) == kept;
      }
    }
  }

  /** A range whose end precedes its start keeps nothing. */
  lemma {:induction false} InvertedRangeKeepsNothing(table: seq<Row>, s: FilterSpec)
    requires DateLt(s.fechaFin, s.fechaInicio)
    ensures Filter(table, s) == []
  {
    if table != [] {
      InvertedRangeKeepsNothing(table[..|table| - 1], s);
    }
  }

  /** With every sentinel selected and a range covering all dates, the whole table is kept. */
  lemma {:induction false} NoConstraintKeepsAll(table: seq<Row>, s: FilterSpec)
    requires s.linea == AllLines && s.producto == AllOthers && s.giro == AllOthers
    requires s.cliente == AllOthers && s.vendedor == AllOthers
    requires forall r :: r in table ==> InDateRange(s, r)
    ensures Filter(table, s) == table
  {
    if table != [] {
      var init := table[..|table| - 1];
      NoConstraintKeepsAll(init, s);
      assert table == init + [table[|table| - 1]];
    }
  }

  /** Both ends of the date range are included. */
  lemma RangeEndsIncluded(s: FilterSpec, r: Row)
    requires PassesCategorical(s, r) && DateLe(s.fechaInicio, s.fechaFin)
    requires DateOf(r) == s.fechaInicio || DateOf(r) == s.fechaFin
    ensures Matches(s, r)
  {
  }

  /** A row dated the day before fecha_inicio is excluded. */
  lemma DayBeforeStartExcluded(s: FilterSpec, r: Row)
    requires ValidDate(DateOf(r)) && NextDay(DateOf(r)) == s.fechaInicio
    ensures !Matches(s, r)
  {
  }

  /** Only the date of the timestamp is compared: the time of day never matters. */
  lemma TimeOfDayIgnored(s: FilterSpec, r: Row, t: nat)
    ensures Matches(s, r.(fecha := Timestamp(r.fecha.date, t))) == Matches(s, r)
  {
  }

  /** `mask &= keep(row)`, elementwise over the table. */
  method Narrow(mask: array<bool>, table: seq<Row>, keep: Row -> bool)
    requires mask.Length == |table|
    modifies mask
    ensures forall i :: 0 <= i < |table| ==> mask[i] == (old(mask[i]) && keep(table[i]))
  {
    for i := 0 to mask.Length
      invariant forall j :: 0 <= j < i ==> mask[j] == (old(mask[j]) && keep(table[j]))
      invariant forall j :: i <= j < mask.Length ==> mask[j] == old(mask[j])
    {
      mask[i] := mask[i] && keep(table[i]);
    }
  }

  /** The mask of analyze_data: all true, narrowed by each active categorical
      filter and by both ends of the date range, then applied to the table. */
  method FilterRows(table: seq<Row>, s: FilterSpec) returns (filtered: seq<Row>)
    ensures filtered == Filter(table, s)
  {
    var mask := new bool[|table|](i => true);
    if s.linea != AllLines {
      Narrow(mask, table, (r: Row) => r.line == s.linea);
    }
    if s.producto != AllOthers {
      Narrow(mask, table, (r: Row) => r.product == s.producto);
    }
    if s.giro != AllOthers {
      Narrow(mask, table, (r: Row) => r.channel == s.giro);
    }
    if s.cliente != AllOthers {
      Narrow(mask, table, (r: Row) => r.client == s.cliente);
    }
    if s.vendedor != AllOthers {
      Narrow(mask, table, (r: Row) => r.salesperson == s.vendedor);
    }
    Narrow(mask, table, r => DateLe(s.fechaInicio, DateOf(r)));
    Narrow(mask, table, r => DateLe(DateOf(r), s.fechaFin));

    filtered := [];
    for i := 0 to |table|
      invariant forall j :: 0 <= j < |table| ==> mask[j] == Matches(s, table[j])
      invariant filtered == Filter(table[..i], s)
    {
      assert table[..i + 1][..i] == table[..i];
      if mask[i] {
        filtered := filtered + [table[i]];
      }
    }
    assert table[..|table|] == table;
  }
}
