# Harris County finance dashboard: the data layer, modelled in Dafny

`app.py` is a dashboard over three tables: campaign-finance reports of
Harris County officials, registered lobbyists and county vendors. Below its
widgets sits a small, deterministic data layer, and this project models
that layer and proves properties of it:

- **Roster** (`roster.dfy`): the fixed map from position to the officials
  holding it, and `get_official_names`, which flattens it with a loop. The
  loop is a method proved against a specification function.
- **Loading** (`normalize.dfy`): the finance table is a class whose money
  columns are rewritten in place by the coercion loop of `load_data`. A cell
  that is not a number becomes NaN (`Missing`). Coercion never fails, and
  running it twice changes nothing.
- **Key Insights** (`insights.dfy`, `ranking.dfy`): the latest period is the
  period of the *first* row, not the largest one. The tab keeps that
  period's rows, then the rows of officials on the roster. It totals Raised,
  Spent and Cash on Hand, skipping NaN. It ranks the top five by Raised and
  by Cash on Hand with `nlargest`, and it flags deficit spenders
  (`Spent > Raised`). The Cash on Hand Trends tab selects the same rows with
  one combined mask.
- **Campaign Finance** (`campaign.dfy`, `ordering.dfy`): the official/year
  filter and the two option lists. Names are sorted ascending in Python's
  string order and years descending, each without duplicates. The official
  selector is compared with the string `"All"`, so an official whose name
  is exactly "All" cannot be singled out; choosing it shows every row.
- **Lobbyists & Vendors** (`categories.dfy`): `value_counts()` of the
  Category column.
- `seqs.dfy` holds boolean-mask row selection (`Filter`) and "order-preserving
  subsequence". `records.dfy` holds the row types. `wrappers.dfy` holds
  `Option`, where `None` stands for NaN.

Money is whole dollars (`int`). `None` is NaN. A comparison with NaN is
false, and a sum skips NaN. Selecting the latest period of an empty table
raises `IndexError` in the source; here it is the `None` result of
`LatestPeriod`, `LatestRows`, `LatestCurrent` and `ComputeKeyInsights`.

`nlargest` follows pandas: rows are ordered by value, largest first. Rows
whose value is NaN rank below every number, so they are only returned when
there are fewer than five rows with a number. Rows with equal values keep
their table order.

`app.py` never checks that amounts are non-negative, so the model does not
assume it. The totals run over all latest roster rows, with no per-official
aggregation. A deficit is reported only for rows with `Spent > Raised`.

## Model

| member | source | states |
|---|---|---|
| `Roster.Flatten` | app.py:52-57 | the roster's name lists concatenated in roster order; its length and members are stated by `Roster.FlattenLength` and `Roster.FlattenMembers` |
| `Roster.GetOfficialNames` | app.py:52-57 | the loop returns the roster's name lists concatenated in roster order (`Flatten`) |
| `Roster.FlattenLength` | app.py:52-57 | the flattened list is as long as all name lists together |
| `Roster.FlattenMembers` | app.py:52-57 | a name is returned exactly when some position lists it |
| `Roster.CurrentOfficialsCount` | app.py:44-50 | the current roster flattens to its five officials in order, so "Officials Tracked" is 5 |
| `Normalize.ToNumeric` | app.py:68 | coercing a cell never fails: the result is a number or missing, and numeric cells are kept as they are |
| `Normalize.ParseNumber` | app.py:68 | the text-to-number step of the coercion; text coerces to n exactly when it is an optional sign, leading zeros and the decimal form of n, as `Normalize.ParseNumberExactly` states with `Normalize.ParseNumberCanonical` and `Normalize.ParseSignedDecimal` as its two halves |
| `Normalize.ZeroValueIsZeros` | app.py:68 | a digit string whose value is 0 consists of zeros only |
| `Normalize.DigitsAreShown` | app.py:68 | a digit string is the decimal form of its value after some leading zeros |
| `Normalize.ParseNumberCanonical` | app.py:68 | text that coerces to n is the decimal form of n after an optional sign and leading zeros; '-' only for n <= 0, and required for n < 0 |
| `Normalize.ParseShowRoundTrip` | app.py:68 | every integer written in decimal coerces back to itself |
| `Normalize.ZerosValue` | app.py:68 | a string of zeros has value 0 |
| `Normalize.LeadingZerosValue` | app.py:68 | leading zeros do not change the value of a digit string |
| `Normalize.ParseSignedDecimal` | app.py:68 | every signed decimal form of n ("+5", "007", "-007", "-0") coerces to n |
| `Normalize.ParseNumberExactly` | app.py:68 | text coerces to n if and only if it is a signed decimal form of n |
| `Normalize.CoerceColumn` | app.py:68 | the coercion applied cell by cell; stated by `Normalize.CoerceColumnNumeric` |
| `Normalize.CoerceColumnNumeric` | app.py:68 | a coerced column keeps its length and holds only numbers and missing values; a text cell becomes the number it parses to, or missing; coercing again changes nothing |
| `Normalize.FinanceFrame.CoerceMoneyColumns` | app.py:66-68 | each of Raised, Spent, Loans and CashOnHand that the table has is replaced by its coercion; the other columns and the set of columns are unchanged; afterwards every money column is numeric |
| `Normalize.FinanceFrame.Records` | app.py:65-68 | the loaded rows keep each row's Name, Position, ReportPeriod and Year, and each money field is the number in its coerced cell, or missing |
| `Seqs.Filter` | app.py:104 | a boolean-mask selection is no longer than the table and holds only rows the mask accepts |
| `Seqs.FilterExact` | app.py:104-106 | a mask selection is an order-preserving subsequence, holds only accepted rows, and drops no accepted row |
| `Seqs.FilterFusion` | app.py:232-235 | two successive masks select the same rows as their conjunction |
| `Insights.LatestPeriod` | app.py:103 | the period of the first row, `None` for an empty table; stated by `Insights.LatestRowsExact` |
| `Insights.LatestRows` | app.py:103-104 | latest rows exist exactly when the table is non-empty, and they include the first row |
| `Insights.LatestCurrent` | app.py:103-106 | the latest roster rows exist exactly when the table is non-empty |
| `Insights.LatestRowsExact` | app.py:103-104 | the latest period is the first row's period; the latest rows are exactly the rows of that period, in table order |
| `Insights.LatestCurrentExact` | app.py:105-106 | the latest roster rows are an order-preserving subsequence of the latest rows holding exactly those whose name is on the roster |
| `Insights.LatestCurrentCombined` | app.py:232-235 | the one-mask selection of the Cash on Hand tab; stated by `Insights.LatestCurrentTabsAgree` |
| `Insights.LatestCurrentTabsAgree` | app.py:232-235 | the combined mask of the Cash on Hand tab selects the same rows, in the same order, as the two steps of the Key Insights tab |
| `Insights.Total` | app.py:113-119 | a column sum skipping missing values; stated by `Insights.TotalAppend`, `Insights.TotalPermutation` and `Insights.TotalSkipsMissing` |
| `Insights.SummaryTotals` | app.py:113-119 | Total Raised, Total Spent and Total Cash on Hand, each the `Total` of its column over the given rows |
| `Insights.TotalAppend` | app.py:113-119 | the total over two row lists is the sum of their totals |
| `Insights.TotalPermutation` | app.py:113-119 | a column total does not depend on the order of the rows |
| `Insights.TotalSkipsMissing` | app.py:113-119 | missing values contribute nothing: the total equals the total over the rows that have a value |
| `Insights.DeficitSpenders` | app.py:145-150 | one entry per row with `Spent > Raised`, in table order, each with deficit `Spent - Raised`, which is strictly positive |
| `Insights.DeficitSpendersExact` | app.py:145-150 | a row is flagged exactly when it is one of the rows and both values are present with `Spent > Raised`; a row with a missing value is never flagged |
| `Insights.ComputeKeyInsights` | app.py:102-150 | the tab has a result exactly when the table is non-empty; its period is the first row's; its rows are the latest roster rows; its totals, top lists and deficit spenders are computed from those rows; it tracks as many officials as the roster names; each top list has at most five rows, drawn from the latest roster rows, largest first |
| `Ranking.Insert` | app.py:131 | inserting into the ranking adds exactly that row |
| `Ranking.SortDesc` | app.py:131 | the ranking is a permutation of the rows |
| `Ranking.InsertSorted` | app.py:131 | inserting into a ranking keeps it in non-increasing order |
| `Ranking.SortDescSorted` | app.py:131 | the ranking is in non-increasing order, missing values last |
| `Ranking.NLargest` | app.py:131-137 | the first n rows of the stable ranking; stated by `Ranking.NLargestSpec` |
| `Ranking.NLargestSpec` | app.py:131-137 | top-n returns min(n, rows) rows drawn from the input, in non-increasing order, and no omitted row ranks strictly above a returned one |
| `Ordering.InsertUnique` | app.py:167 | adding a value to an option list adds exactly that value |
| `Ordering.SortedUnique` | app.py:167 | the option list holds exactly the values of the column |
| `Ordering.InsertUniqueSorted` | app.py:167 | adding a value keeps the option list strictly sorted |
| `Ordering.SortedUniqueSpec` | app.py:167-172 | the option list is strictly increasing in the chosen order, hence free of duplicates |
| `Ordering.LexLessIrreflexive` | app.py:167 | no string sorts before itself |
| `Ordering.LexLessTotal` | app.py:167 | of two different strings, one sorts before the other |
| `Ordering.LexLessTransitive` | app.py:167 | string order is transitive |
| `Ordering.LexLessIsStrictTotalOrder` | app.py:167 | Python's string order is a strict total order |
| `Ordering.GreaterIsStrictTotalOrder` | app.py:172 | descending integer order is a strict total order |
| `CampaignFinance.Names` | app.py:167 | the Name column holds exactly the names of the rows |
| `CampaignFinance.Years` | app.py:172 | the Year column holds exactly the years of the rows |
| `CampaignFinance.FilterFinance` | app.py:176-180 | the two selector filters; stated by `CampaignFinance.FilterFinanceIsOneMask` and `CampaignFinance.FilterFinanceExact` |
| `CampaignFinance.FilterFinanceIsOneMask` | app.py:176-180 | the two successive selector filters equal one mask matching both selectors |
| `CampaignFinance.FilterFinanceExact` | app.py:176-180 | with both selectors at "All" the table is unchanged; otherwise an order-preserving subsequence whose every row matches, with no matching row dropped |
| `CampaignFinance.OfficialOptions` | app.py:165-168 | "All" followed by the sorted distinct names; stated by `CampaignFinance.OfficialOptionsSpec` |
| `CampaignFinance.YearOptions` | app.py:170-173 | "All" followed by the distinct years, latest first; stated by `CampaignFinance.YearOptionsSpec` |
| `CampaignFinance.OfficialOptionsSpec` | app.py:165-168 | the official options are "All" followed by every name of the table once, in ascending string order |
| `CampaignFinance.YearOptionsSpec` | app.py:170-173 | the year options are "All" followed by every year of the table once, latest first |
| `Categories.CountCategories` | app.py:262 | each present category is counted exactly as often as it occurs; missing categories are not counted |
| `Categories.CountCategoriesPermutation` | app.py:262 | the counts do not depend on the order of the rows |
| `Categories.CategoryColumn` | app.py:262 | the Category column holds each row's category, in table order |
| `Categories.CategoryOccurrences` | app.py:262 | a category occurs in the column as often as there are rows that carry it |
| `Categories.LobbyistsByCategory` | app.py:262 | the lobbyist counts cover exactly the categories that occur, and each count is the number of lobbyists with that category |
| `Categories.VendorsByCategory` | app.py:273 | the vendor counts cover exactly the categories that occur, and each count is the number of vendors with that category |

## Left out

- Page configuration, CSS, tabs, columns, metrics, tables, selectboxes and download buttons (app.py:13-41, 90-96, 108-139, 183-187, 288-316): user interface.
- Plotly figures and the orderings done only for them (app.py:192, 194-208, 216-228, 237-247, 263, 274): rendering. `Insights.OnRoster` is the same roster mask as the trend chart's input.
- Reading and writing CSV files, file paths, the cache decorator and the error message on a failed load (app.py:59-65, 71-76, 83-87): I/O. The loader is modelled from the table the CSV reader produces.
- Currency formatting of the metrics and tables (app.py:114-120, 132, 138, 150): presentation.
- The Rodney Ellis "largest war chest" sentence (app.py:152-156): fixed text, not a computed maximum.
- Normalize.ParseNumber: models only an optional sign followed by decimal digits. pandas also accepts decimals, exponents and surrounding blanks and yields floats; money here is whole dollars, so such text becomes missing in the model.
- Normalize.FinanceFrame.Records: requires all four money columns. When one is absent, the source raises `KeyError` later instead: in the Key Insights tab (app.py:113-119) for Raised, Spent or CashOnHand, and in the Campaign Finance tab (app.py:184) for Loans.
- Name, Position, ReportPeriod and Year cells are taken as present values; NaN in those columns is not modelled.
- Ranking.NLargest: ties are returned in table order by construction, but no lemma states this.
- Categories.CountCategories: returns a map from category to count. The order of `value_counts()` output (largest count first) is not modelled; only the pie charts use it.
- Lobbyist and vendor rows: only the Category column is analysed; the other columns are only displayed.
- Roster.GetOfficialNames: takes the roster as a parameter instead of reading the module-level constant; `Roster.CurrentOfficials` is that constant.
