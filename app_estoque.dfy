/**
 * The metrics of the branch-3 stock dashboard: the three KPI cards, the
 * top-15 ranking by monthly sales and the Pareto (cumulative sales) curve,
 * computed from the sales table the loader returns. Only the values behind
 * the cards, charts and tables are modelled, not their rendering.
 */
module AppEstoque {
  import opened Frame

  datatype Option<T> = None | Some(value: T)

  /** Number of products in the sales ranking tab. */
  const RankingSize: nat := 15

  /** Percentage factor of the "% Acumulada" column. */
  const Hundred: real := 100.0

  /** The `n` rows with the highest monthly sales, highest first; which of
      several rows with equal sales is kept is left unspecified. */
  function TopN(rows: seq<Row>, n: nat): (r: seq<Row>)
    ensures |r| == if n < |rows| then n else |rows|
    ensures multiset(r) <= multiset(rows)
    ensures SortedBySalesDesc(r)
    ensures forall x, y | x in multiset(rows) - multiset(r) && y in r :: x.sales <= y.sales
  {
    var sorted := SortDesc(rows);
    var m := if n < |rows| then n else |rows|;
    TopNSplit(sorted, m);
    sorted[..m]
  }

  /** In a table sorted by descending sales, no row after position `m` sells
      more than a row before it. */
  lemma {:induction false} SortedSplit(s: seq<Row>, m: nat)
    requires SortedBySalesDesc(s)
    requires m <= |s|
    ensures forall x, y | x in s[m..] && y in s[..m] :: x.sales <= y.sales
  {
  }

  /** Cutting a sorted table after `m` rows keeps a sub-multiset, and every
      row cut off sells no more than any row kept. */
  lemma {:induction false} TopNSplit(sorted: seq<Row>, m: nat)
    requires SortedBySalesDesc(sorted)
    requires m <= |sorted|
    ensures multiset(sorted[..m]) <= multiset(sorted)
    ensures forall x, y | x in multiset(sorted) - multiset(sorted[..m]) && y in sorted[..m] :: x.sales <= y.sales
  {
    assert sorted == sorted[..m] + sorted[m..];
    assert multiset(sorted) - multiset(sorted[..m]) == multiset(sorted[m..]);
    SortedSplit(sorted, m);
    forall x | x in multiset(sorted) - multiset(sorted[..m]) ensures x in sorted[m..] {
    }
  }

  /** `part` as a percentage of `total`, in the order the dashboard computes
      it: divide, then multiply by 100. */
  function Percent(part: real, total: real): (r: real)
    requires total != 0.0
    ensures r * total == part * Hundred
  {
    PercentScales(part, total);
    part / total * Hundred
  }

  /** Scaling the quotient back by the divisor gives the percentage of the
      whole. */
  lemma {:induction false} PercentScales(part: real, total: real)
    requires total != 0.0
    ensures part / total * Hundred * total == part * Hundred
  {
    assert part / total * total == part;
  }

  /** One line of the Pareto table: the row, its "Venda Acumulada" and its
      "% Acumulada". The percentage is None when the sales total is zero,
      where the division has no real value. */
  datatype ParetoRow = ParetoRow(row: Row, accumulated: real, percent: Option<real>)

  function RowsOf(p: seq<ParetoRow>): (s: seq<Row>)
    ensures |s| == |p|
    ensures forall i :: 0 <= i < |p| ==> s[i] == p[i].row
  {
    seq(|p|, i requires 0 <= i < |p| => p[i].row)
  }

  /** The Pareto table: a copy of the table sorted by descending monthly
      sales, with the running sum of sales and that running sum as a
      percentage of the sales total. */
  function ParetoTable(rows: seq<Row>): (p: seq<ParetoRow>)
    ensures |p| == |rows|
    ensures forall i :: 0 <= i < |p| ==> (p[i].percent.Some? <==> Total(rows, Sales) != 0.0)
  {
    var sorted := SortDesc(rows);
    var acc := Cumsum(sorted);
    var total := Total(sorted, Sales);
    TotalPermutation(sorted, rows, Sales);
    seq(|sorted|, i requires 0 <= i < |sorted| =>
      ParetoRow(sorted[i], acc[i], if total != 0.0 then Some(Percent(acc[i], total)) else None))
  }

  /** The Pareto table holds exactly the input rows, sorted by descending
      monthly sales. */
  lemma {:induction false} ParetoIsSortedPermutation(rows: seq<Row>)
    ensures multiset(RowsOf(ParetoTable(rows))) == multiset(rows)
    ensures SortedBySalesDesc(RowsOf(ParetoTable(rows)))
  {
    assert RowsOf(ParetoTable(rows)) == SortDesc(rows);
  }

  /** "Venda Acumulada" at line `i` is the sales sum of lines `0..i` of the
      sorted copy. */
  lemma {:induction false} ParetoAccumulatedAt(rows: seq<Row>, i: nat)
    requires i < |rows|
    ensures ParetoTable(rows)[i].accumulated == Total(RowsOf(ParetoTable(rows))[..i + 1], Sales)
  {
    assert RowsOf(ParetoTable(rows)) == SortDesc(rows);
    ParetoAt(rows, i);
  }

  /** The last "Venda Acumulada" is the sales total of the original table. */
  lemma {:induction false} ParetoAccumulatedEndsAtTotal(rows: seq<Row>)
    requires rows != []
    ensures ParetoTable(rows)[|rows| - 1].accumulated == Total(rows, Sales)
  {
    var sorted := SortDesc(rows);
    var n := |rows| - 1;
    assert Cumsum(sorted)[n] == Total(sorted, Sales);
    ParetoAt(rows, n);
    TotalPermutation(sorted, rows, Sales);
  }

  /** With non-negative sales and a non-zero total, "% Acumulada" never
      decreases along the sort order and stays within 0..100. */
  lemma {:induction false} ParetoPercentMonotone(rows: seq<Row>, i: nat, j: nat)
    requires NonNegativeSales(rows)
    requires Total(rows, Sales) != 0.0
    requires i <= j < |rows|
    ensures ParetoTable(rows)[i].percent.Some? && ParetoTable(rows)[j].percent.Some?
    ensures 0.0 <= ParetoTable(rows)[i].percent.value <= ParetoTable(rows)[j].percent.value <= Hundred
  {
    var p := ParetoTable(rows);
    var sorted := SortDesc(rows);
    NonNegativePermutation(rows, sorted);
    TotalPermutation(sorted, rows, Sales);
    ParetoAt(rows, i);
    ParetoAt(rows, j);
    ParetoPercentAt(rows, i);
    ParetoPercentAt(rows, j);
    CumsumBounds(sorted, i, j);
    PercentBetween(p[i].accumulated, p[j].accumulated, Total(rows, Sales));
  }

  /** With a non-zero total, the last "% Acumulada" is exactly 100. */
  lemma {:induction false} ParetoPercentEndsAtHundred(rows: seq<Row>)
    requires Total(rows, Sales) != 0.0
    ensures |ParetoTable(rows)| > 0
    ensures ParetoTable(rows)[|rows| - 1].percent == Some(Hundred)
  {
    assert rows != [];
    var p := ParetoTable(rows);
    var total := Total(rows, Sales);
    var n := |rows| - 1;
    assert p[n].accumulated == total by {
      ParetoAccumulatedEndsAtTotal(rows);
    }
    assert p[n].percent == Some(Percent(p[n].accumulated, total)) by {
      ParetoPercentAt(rows, n);
    }
    WholeLine(p[n], total);
  }

  /** A line whose running sum has reached the total shows 100 percent. */
  lemma {:induction false} WholeLine(line: ParetoRow, total: real)
    requires total != 0.0
    requires line.accumulated == total
    requires line.percent == Some(Percent(line.accumulated, total))
    ensures line.percent == Some(Hundred)
  {
    PercentOfWhole(total);
  }

  /** Line `i` of the Pareto table, written out. */
  lemma {:induction false} ParetoAt(rows: seq<Row>, i: nat)
    requires i < |rows|
    ensures ParetoTable(rows)[i].row == SortDesc(rows)[i]
    ensures ParetoTable(rows)[i].accumulated == Cumsum(SortDesc(rows))[i]
  {
  }

  /** "% Acumulada" at line `i`, written out for a non-zero total. */
  lemma {:induction false} ParetoPercentAt(rows: seq<Row>, i: nat)
    requires Total(rows, Sales) != 0.0
    requires i < |rows|
    ensures ParetoTable(rows)[i].percent == Some(Percent(ParetoTable(rows)[i].accumulated, Total(rows, Sales)))
  {
    TotalPermutation(SortDesc(rows), rows, Sales);
  }

  lemma {:induction false} NonNegativePermutation(a: seq<Row>, b: seq<Row>)
    requires NonNegativeSales(a)
    requires multiset(a) == multiset(b)
    ensures NonNegativeSales(b)
  {
    forall r | r in b ensures Value(r, Sales) >= 0.0 {
      assert r in multiset(a);
    }
  }

  lemma {:induction false} PercentBetween(a: real, b: real, total: real)
    requires 0.0 <= a <= b <= total
    requires total > 0.0
    ensures 0.0 <= Percent(a, total) <= Percent(b, total) <= Hundred
  {
    DivMonotone(0.0, a, total);
    DivMonotone(a, b, total);
    DivMonotone(b, total, total);
    PercentOfWhole(total);
  }

  /** The whole is 100 percent of itself. */
  lemma {:induction false} PercentOfWhole(t: real)
    requires t != 0.0
    ensures Percent(t, t) == Hundred
  {
    assert t / t == 1.0;
  }

  /** Dividing by a positive number keeps the order. */
  lemma {:induction false} DivMonotone(a: real, b: real, t: real)
    requires a <= b
    requires t > 0.0
    ensures a / t <= b / t
  {
  }

  /** The three KPI cards: "Total de Itens", "Volume Venda Mês" and
      "Estoque Disponível Total". */
  datatype Kpis = Kpis(itemCount: nat, salesTotal: real, stockTotal: real)

  /** Everything the dashboard shows once data is loaded. */
  datatype Report = Report(
    kpis: Kpis,
    ranking: seq<Row>,
    paretoTotal: real,
    pareto: seq<ParetoRow>,
    loadedCount: nat)

  /** The dashboard's metrics for what the loader returned; nothing is
      computed when it returned no data. */
  function Dashboard(loaded: Option<seq<Row>>): (r: Option<Report>)
    ensures r.Some? <==> loaded.Some?
    ensures loaded.Some? ==>
      r.value.kpis.itemCount == |loaded.value| && r.value.loadedCount == |loaded.value|
    ensures loaded.Some? ==>
      r.value.kpis.salesTotal == Total(loaded.value, Sales) &&
      r.value.kpis.stockTotal == Total(loaded.value, Stock)
    ensures loaded.Some? ==>
      r.value.paretoTotal == Total(SortDesc(loaded.value), Sales) &&
      r.value.paretoTotal == r.value.kpis.salesTotal
    ensures loaded.Some? ==>
      |r.value.ranking| == if |loaded.value| < RankingSize then |loaded.value| else RankingSize
    ensures loaded.Some? ==> r.value.ranking == TopN(loaded.value, RankingSize)
    ensures loaded.Some? ==> r.value.pareto == ParetoTable(loaded.value)
  {
    match loaded
    case None => None
    case Some(rows) =>
      var kpis := Kpis(|rows|, Total(rows, Sales), Total(rows, Stock));
      var totalSorted := Total(SortDesc(rows), Sales);
      TotalPermutation(SortDesc(rows), rows, Sales);
      Some(Report(kpis, TopN(rows, RankingSize), totalSorted, ParetoTable(rows), |rows|))
  }
}
