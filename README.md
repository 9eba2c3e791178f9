# Stock dashboard metrics (branch 3, fiscal sector)

This project models the metrics behind the single-page stock dashboard in
`app_estoque.py`. The dashboard loads the sales table `df_vendas`, one row per
product. When the loader returns a table, the dashboard shows:

- three KPI cards: the number of items ("Total de Itens"), the sum of the
  monthly sales column "Venda Mês" and the sum of the available stock column
  "Estoque Disponível";
- a ranking of the 15 products with the highest monthly sales
  (`nlargest(15, 'Venda Mês')`);
- a Pareto curve. A copy of the table is sorted by descending monthly sales.
  Its running sum is "Venda Acumulada", and that running sum divided by the
  sales total and multiplied by 100 is "% Acumulada";
- a status line repeating the number of rows loaded.

The model has two modules:

- `Frame` (`frame.dfy`) holds the table row, the column sum `Total`, the
  descending sort `SortDesc` (an insertion sort built on `Insert`) and the
  running sum `Cumsum`, with lemmas about them.
- `AppEstoque` (`app_estoque.dfy`) holds the ranking `TopN`, the Pareto table
  `ParetoTable` and the whole dashboard `Dashboard`, whose input is an
  `Option` standing for the loader's result. `None` is the "no data" branch
  and computes nothing.

Quantities are exact `real`s. With reals the last "% Acumulada" is exactly
100 and the Pareto total equals the KPI total exactly, not just up to
floating-point rounding.

Both the ranking and the Pareto curve use monthly sales; the sort promises
no tie order.

## Model

| member | source | states |
|---|---|---|
| `Frame.Insert` | app_estoque.py:34 | Inserting a row into a table sorted by descending sales yields a sorted table holding exactly the old rows plus the new one |
| `Frame.SortDesc` | app_estoque.py:34 | The sorted copy is a permutation of the table (same multiset of rows, so no row added or dropped) and is in non-increasing order of monthly sales |
| `Frame.TotalPermutation` | app_estoque.py:36 | A column sum is the same for any reordering of the rows, so `total_vendas` on the sorted copy equals `venda_total` on the original table (line 14) |
| `Frame.TotalAppend` | app_estoque.py:14 | The sum of a column over two concatenated tables is the sum of the two sums |
| `Frame.Total` | app_estoque.py:14-17 | The column sum behind "Volume Venda Mês" (line 14), "Estoque Disponível Total" (line 17) and `total_vendas` (line 36); a column with no negative values has a non-negative sum. Its order independence is `TotalPermutation`, its split over concatenation `TotalAppend` |
| `Frame.Cumsum` | app_estoque.py:35 | The running sum has one entry per row, entry `i` equals the sales sum of rows `0..i`, and the last entry equals the sales total; its bounds are `CumsumBounds` |
| `Frame.CumsumBounds` | app_estoque.py:35 | With no negative sales, running-sum entries `i <= j` satisfy `0 <= cumsum[i] <= cumsum[j] <= total` |
| `AppEstoque.TopN` | app_estoque.py:28 | The ranking has `min(n, rows)` rows, all taken from the table (sub-multiset), in non-increasing order of sales, and every row left out sells no more than any row kept |
| `AppEstoque.Percent` | app_estoque.py:37 | For a non-zero total, the percentage `r` of `part` satisfies `r * total == part * 100`; `PercentOfWhole` gives 100 for the whole and `PercentBetween` keeps order and the 0..100 range |
| `AppEstoque.ParetoTable` | app_estoque.py:34-37 | The Pareto table has one line per input row, for every table, including the empty one; each line has a "% Acumulada" exactly when the sales total is non-zero. Its rows, running sums and percentages are described by the lemmas below |
| `AppEstoque.ParetoIsSortedPermutation` | app_estoque.py:34 | The rows of the Pareto table are exactly the input rows, sorted by descending monthly sales |
| `AppEstoque.ParetoAccumulatedAt` | app_estoque.py:35 | "Venda Acumulada" at line `i` is the sum of sales of lines `0..i` of the sorted copy |
| `AppEstoque.ParetoAccumulatedEndsAtTotal` | app_estoque.py:35-36 | The last "Venda Acumulada" equals the sales total of the original table |
| `AppEstoque.ParetoPercentMonotone` | app_estoque.py:37 | With no negative sales and a non-zero total, for any lines `i <= j` of the Pareto table, `0 <= pct[i] <= pct[j] <= 100`: "% Acumulada" never decreases along the sort order and stays within 0..100 |
| `AppEstoque.ParetoPercentEndsAtHundred` | app_estoque.py:37 | With a non-zero total, the last "% Acumulada" is present and exactly 100 |
| `AppEstoque.Dashboard` | app_estoque.py:8-44 | No metrics without data. With data, "Total de Itens" and the count in the status line both equal the number of rows; "Volume Venda Mês" is the sum of monthly sales and "Estoque Disponível Total" the sum of available stock over the loaded table; the Pareto total, summed over the sorted copy, equals the "Volume Venda Mês" KPI; the ranking holds `min(15, rows)` rows and is `TopN(rows, 15)`; the Pareto table is `ParetoTable(rows)`, so the lemmas above apply to what the dashboard shows |

## Left out

- Rendering: page setup, titles, columns, metric cards, tabs, bar and line
  charts, the data table, the info and success messages. They have no
  behaviour beyond display.
- The loader `carregar_dados_completos` (database fetch and spreadsheet
  join) is not part of this model. Its result is the `Option<seq<Row>>`
  input of `Dashboard`. How "Estoque Disponível" is derived also happens in
  the loader, so only its sum is modelled.
- Number formatting (`:,.2f kg`) and floating-point rounding in `cumsum` and
  in the division. The model uses exact reals.
- The "Curva A up to 80%" note is text only. No row is classified by it.
- TopN: does not promise the tie order of `nlargest` with `keep='first'`.
  Among rows with equal sales, which are kept and in what order is left
  unspecified. The same holds for the descending sort (`SortDesc`), which
  stands for pandas' default sort.
- ParetoTable: when the sales total is zero and the table is not empty,
  pandas divides by zero and fills "% Acumulada" with `inf`/`NaN`, which
  reals cannot represent. The model keeps the sorted copy and "Venda
  Acumulada" and gives each line an absent percentage (`None`) instead. An
  empty table gives an empty Pareto table, as in pandas. A negative total is
  divided by like any other.
- ParetoPercentMonotone: assumes no negative monthly sales. The source does
  not check this. With a negative sale the curve can go down or leave 0..100.
