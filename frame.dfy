/**
 * The sales table of the stock dashboard, and the three column operations the
 * dashboard applies to it: the column sum, the descending sort on the monthly
 * sales column and the running sum of that column.
 *
 * Monetary and weight quantities are exact reals: the floating-point rounding
 * of the dashboard's column arithmetic is not modelled.
 */
module Frame {

  /** One row of the sales table: product key, description ("Descrição"),
      monthly sales in kg ("Venda Mês") and available stock in kg
      ("Estoque Disponível"). */
  datatype Row = Row(code: int, description: string, sales: real, stock: real)

  /** The numeric columns the dashboard sums. */
  datatype Column = Sales | Stock

  function Value(r: Row, c: Column): real {
    match c
    case Sales => r.sales
    case Stock => r.stock
  }

  /** No row has a negative value in column `c`. */
  predicate NonNegative(rows: seq<Row>, c: Column) {
    forall r | r in rows :: Value(r, c) >= 0.0
  }

  /** Sum of one column over a table; a column without negative values has a
      non-negative sum. */
  function Total(rows: seq<Row>, c: Column): (r: real)
    ensures NonNegative(rows, c) ==> r >= 0.0
  {
    if rows == [] then 0.0
    else
      NonNegativeTail(rows, c);
      Value(rows[0], c) + Total(rows[1..], c)
  }

  /** A column without negative values has none in the first row nor in the
      rest of the table. */
  lemma {:induction false} NonNegativeTail(rows: seq<Row>, c: Column)
    requires rows != []
    ensures NonNegative(rows, c) ==> Value(rows[0], c) >= 0.0 && NonNegative(rows[1..], c)
  {
    if NonNegative(rows, c) {
      assert rows[0] in rows;
      forall r | r in rows[1..] ensures Value(r, c) >= 0.0 {
        assert r in rows;
      }
    }
  }

  /** Rows appear in non-increasing order of monthly sales. */
  predicate SortedBySalesDesc(s: seq<Row>) {
    forall i, j :: 0 <= i < j < |s| ==> s[i].sales >= s[j].sales
  }

  /** No row has negative monthly sales. */
  predicate NonNegativeSales(rows: seq<Row>) {
    NonNegative(rows, Sales)
  }

  /** Places `x` into a table already sorted by descending sales. */
  function Insert(x: Row, s: seq<Row>): (r: seq<Row>)
    requires SortedBySalesDesc(s)
    ensures multiset(r) == multiset(s) + multiset{x}
    ensures SortedBySalesDesc(r)
    ensures s != [] ==> r[0] == x || r[0] == s[0]
  {
    if s == [] then [x]
    else if x.sales >= s[0].sales then
      SortedCons(x, s);
      [x] + s
    else
      assert SortedBySalesDesc(s[1..]);
      var t := Insert(x, s[1..]);
      assert s[0].sales >= t[0].sales;
      SortedCons(s[0], t);
      assert s == [s[0]] + s[1..];
      [s[0]] + t
  }

  /** A row that sells at least as much as the head of a sorted table can go
      in front of it. */
  lemma {:induction false} SortedCons(y: Row, t: seq<Row>)
    requires SortedBySalesDesc(t)
    requires t != [] ==> y.sales >= t[0].sales
    ensures SortedBySalesDesc([y] + t)
  {
  }

  /** The table sorted by descending monthly sales; among rows with equal
      sales the order is left unspecified. */
  function SortDesc(rows: seq<Row>): (r: seq<Row>)
    ensures multiset(r) == multiset(rows)
    ensures |r| == |rows|
    ensures SortedBySalesDesc(r)
  {
    if rows == [] then []
    else
      assert rows == [rows[0]] + rows[1..];
      Insert(rows[0], SortDesc(rows[1..]))
  }

  /** Running sum of the sales column, each entry offset by `acc`. */
  function CumsumFrom(acc: real, rows: seq<Row>): (r: seq<real>)
    ensures |r| == |rows|
    decreases rows
  {
    if rows == [] then []
    else [acc + rows[0].sales] + CumsumFrom(acc + rows[0].sales, rows[1..])
  }

  /** Running sum of the sales column: entry `i` is the sales sum of rows
      `0..i`, so the last entry is the column total. */
  function Cumsum(rows: seq<Row>): (r: seq<real>)
    ensures |r| == |rows|
    ensures forall i :: 0 <= i < |rows| ==> r[i] == Total(rows[..i + 1], Sales)
    ensures rows != [] ==> r[|rows| - 1] == Total(rows, Sales)
  {
    CumsumFromPrefixes(0.0, rows);
    assert rows[..|rows|] == rows;
    CumsumFrom(0.0, rows)
  }

  lemma {:induction false} TotalAppend(a: seq<Row>, b: seq<Row>, c: Column)
    ensures Total(a + b, c) == Total(a, c) + Total(b, c)
  {
    if a == [] {
      assert a + b == b;
    } else {
      assert (a + b)[1..] == a[1..] + b;
      TotalAppend(a[1..], b, c);
    }
  }

  /** Taking row `k` out of a table lowers a column sum by that row's value. */
  lemma {:induction false} TotalRemove(b: seq<Row>, k: nat, c: Column)
    requires k < |b|
    ensures Total(b, c) == Value(b[k], c) + Total(b[..k] + b[k + 1..], c)
  {
    assert b == b[..k] + [b[k]] + b[k + 1..];
    TotalAppend(b[..k] + [b[k]], b[k + 1..], c);
    TotalAppend(b[..k], [b[k]], c);
    TotalAppend(b[..k], b[k + 1..], c);
  }

  /** Taking row `k` out of a table removes one copy of it from the multiset. */
  lemma {:induction false} MultisetRemove(b: seq<Row>, k: nat)
    requires k < |b|
    ensures multiset(b[..k] + b[k + 1..]) == multiset(b) - multiset{b[k]}
  {
    assert b == b[..k] + [b[k]] + b[k + 1..];
  }

  /** Removing the first row of `a` and a matching row of its permutation `b`
      leaves two permutations of each other. */
  lemma {:induction false} PermutationTail(a: seq<Row>, b: seq<Row>, k: nat)
    requires multiset(a) == multiset(b)
    requires 0 < |a| && k < |b| && b[k] == a[0]
    ensures multiset(a[1..]) == multiset(b[..k] + b[k + 1..])
  {
    assert a == [a[0]] + a[1..];
    assert multiset(a[1..]) == multiset(a) - multiset{a[0]};
    MultisetRemove(b, k);
  }

  /** A column sum does not depend on the order of the rows. */
  lemma {:induction false} TotalPermutation(a: seq<Row>, b: seq<Row>, c: Column)
    requires multiset(a) == multiset(b)
    ensures Total(a, c) == Total(b, c)
    decreases |a|
  {
    if a == [] {
      assert |b| == |multiset(b)| == 0;
    } else {
      assert a[0] in multiset(b);
      var k :| 0 <= k < |b| && b[k] == a[0];
      PermutationTail(a, b, k);
      TotalPermutation(a[1..], b[..k] + b[k + 1..], c);
      TotalRemove(b, k, c);
    }
  }

  /** With non-negative sales, a longer prefix never has a smaller sales sum. */
  lemma {:induction false} PrefixTotalMonotone(rows: seq<Row>, i: nat, j: nat)
    requires NonNegativeSales(rows)
    requires i <= j <= |rows|
    ensures 0.0 <= Total(rows[..i], Sales) <= Total(rows[..j], Sales)
  {
    assert rows[..j] == rows[..i] + rows[i..j];
    TotalAppend(rows[..i], rows[i..j], Sales);
    SliceNonNegative(rows, 0, i);
    SliceNonNegative(rows, i, j);
  }

  /** A slice of a table without negative sales has none either. */
  lemma {:induction false} SliceNonNegative(rows: seq<Row>, i: nat, j: nat)
    requires NonNegativeSales(rows)
    requires i <= j <= |rows|
    ensures NonNegativeSales(rows[i..j])
  {
    forall r | r in rows[i..j] ensures Value(r, Sales) >= 0.0 {
      assert r in rows;
    }
  }

  /** Entry `i` of the offset running sum is the offset plus the sum of the
      first `i + 1` sales. */
  lemma {:induction false} CumsumFromAt(acc: real, rows: seq<Row>, i: nat)
    requires i < |rows|
    ensures CumsumFrom(acc, rows)[i] == acc + Total(rows[..i + 1], Sales)
    decreases i
  {
    assert rows[..i + 1][1..] == rows[1..][..i];
    if i > 0 {
      CumsumFromAt(acc + rows[0].sales, rows[1..], i - 1);
    }
  }

  /** Every entry of the offset running sum is the offset plus a prefix sum. */
  lemma {:induction false} CumsumFromPrefixes(acc: real, rows: seq<Row>)
    ensures forall i :: 0 <= i < |rows| ==> CumsumFrom(acc, rows)[i] == acc + Total(rows[..i + 1], Sales)
  {
    forall i | 0 <= i < |rows|
      ensures CumsumFrom(acc, rows)[i] == acc + Total(rows[..i + 1], Sales)
    {
      CumsumFromAt(acc, rows, i);
    }
  }

  /** With non-negative sales the running sum starts at or above zero, never
      decreases, and never exceeds the column total. */
  lemma {:induction false} CumsumBounds(rows: seq<Row>, i: nat, j: nat)
    requires NonNegativeSales(rows)
    requires i <= j < |rows|
    ensures 0.0 <= Cumsum(rows)[i] <= Cumsum(rows)[j] <= Total(rows, Sales)
  {
    PrefixTotalMonotone(rows, i + 1, j + 1);
    PrefixTotalMonotone(rows, j + 1, |rows|);
    assert rows[..|rows|] == rows;
  }
}
