# Taiwan stock symbol list — table normalisation

`getStockList.py` builds the list of ordinary shares traded in Taiwan. For each market, it reads
the securities table from the ISIN registry page:
- mode 2 is the exchange-listed (TWSE) market;
- mode 4 is the over-the-counter (TPEx) market.

It then cleans each table, refines it to the equity rows, and gives each table's rows the ticker that the market-data provider expects (`.TW` or `.TWO`). Finally it stacks the two tables.

This project models the part of that program that works on tables: everything after the page has
been fetched and parsed. It is spread over four modules.

- `Strings` (`strings.dfy`) covers Python's `str.split(sep)` and `sep.join(parts)` for a one-character
  separator. It keeps empty pieces, so a string with k separators yields k + 1 pieces. Both round trips are proved.
- `Frames` (`frames.dfy`) is the slice of a pandas DataFrame that the pipeline uses:
  - column labels, index labels and rows of cells;
  - a cell is text or the padding (`None`) that `str.split(..., expand=True)` leaves;
  - lookup by label (first occurrence), boolean masks, and the errors the pipeline can raise as a `Result`.
- `Crawler` (`crawler.dfy`) is `stock_symbol_crawler` after the fetch, plus `split_symbol_name`:
  - the mode guard;
  - the header row and the banner rows;
  - the split of the compound first column on U+3000, with columns named by splitting the compound header on `及`;
  - the per-row repair, which splits on an ordinary space if the symbol holds one, and otherwise on U+3000.
- `Symbols` (`symbols.dfy`) is `get_stock_symbols` after the fetches:
  - the `CFICode == "ESVUFR"` filter, the four-column drop, the rename, the ticker column, the concatenation and the index reset;
  - the pure function `StockSymbols` is the specification;
  - the method `GetStockSymbols` runs the same steps the source's way. It changes `DataFrame` objects in place (the `inplace=True` drop and rename, and the column assignment) and is proved equal to `StockSymbols`.

The page table is an input (`raw`): rows of cell texts, all the same width, with row 0 the row that the source
adopts as the header. The source's `sys.exit(1)` and the exceptions pandas raises become an `Error` value.

A symbol cell that holds ordinary spaces, such as `1234 Example Co`, is split on every space
(`getStockList.py:103`), and only the second piece, `Example`, becomes the name (line 110); the
rest of the text is dropped. `Crawler.SpaceSeparatedValue` states this. The comment at line 101
speaks of the full-width space, but line 102 tests the ordinary space first, and the model does
what the code does.

## Model

| member | source | states |
|---|---|---|
| `Strings.Occurrences` | getStockList.py:102 | the count of a character is positive exactly when the character occurs (the `in` test of line 102) |
| `Strings.Split` | getStockList.py:85 | `str.split` yields one more piece than there are separators, and no piece holds the separator |
| `Strings.JoinSplit` | getStockList.py:87 | joining the pieces with the separator gives back the original string, so the split loses no text |
| `Strings.SplitJoin` | getStockList.py:103 | splitting what was joined from separator-free pieces gives the pieces back |
| `Strings.SplitPair` | getStockList.py:85 | two `及`-free labels joined by `及` split back into exactly those two labels |
| `Strings.FirstTwoPieces` | getStockList.py:103-110 | when the separator occurs, the first two pieces with a separator between them begin the string, followed by its end or another separator |
| `Frames.IndexOf` | getStockList.py:102 | a label lookup finds the first column carrying the label, and fails exactly when no column carries it |
| `Frames.AsText` | getStockList.py:44 | `astype(str)`: a present cell gives its own text, the padding gives `None` |
| `Frames.Where` | getStockList.py:27 | a boolean mask: exactly the positions whose element satisfies the test, in increasing order |
| `Frames.Pick` | getStockList.py:27 | selecting by positions gives one element per position, the element found there, in the order of the positions |
| `Frames.Filter` | getStockList.py:30-33 | an order-keeping filter: every element kept satisfies the test, and every element that satisfies it is kept |
| `Frames.PickWhere` | getStockList.py:27-33 | selecting at the positions of a mask gives exactly the order-keeping filter, so selection keeps order |
| `Crawler.AdoptHeader` | getStockList.py:80-81 | row 0 becomes the header; only an empty table fails (`iloc[0]`) |
| `Crawler.HeaderAdoption` | getStockList.py:80-81 | for modes 2 and 4, the first two rows go, and the rest keep their order and their original positions as index labels |
| `Crawler.FirstColumnParts` | getStockList.py:87 | the parts of row i are the U+3000 split of row i's first cell, one entry per row (its contract is this definition; `Widest` and `SplitCompound` state what is built from it) |
| `Crawler.Widest` | getStockList.py:87 | the expansion is as wide as the largest piece count over the rows, and as wide as some row's piece count |
| `Crawler.SplitCompound` | getStockList.py:84-92 | it fails exactly when there are no columns, the compound label is duplicated, the header has fewer than two `及` pieces, or the widest U+3000 split is not exactly two. Otherwise the two new columns take the compound column's place, a one-piece value gets a `None` name, and every other column follows unchanged |
| `Crawler.ExpandedCells` | getStockList.py:87-88 | an expanded row has two cells: the first piece, then the second piece, or the `None` padding exactly when the value had one piece |
| `Crawler.UniformSplit` | getStockList.py:84-92 | if every value holds exactly one U+3000, the split succeeds, no name is padding, and symbol, U+3000 and name rebuild the value |
| `Crawler.RepairSeparator` | getStockList.py:102-105 | the repair splits on the ordinary space exactly when the symbol holds one, and on U+3000 otherwise |
| `Crawler.SplitSymbolName` | getStockList.py:100-111 | a repaired row keeps its width; the only failures are a missing symbol column, a `None` symbol, or a missing name column |
| `Crawler.RepairSplitsSymbol` | getStockList.py:100-111 | what the repair does: the separator is an ordinary space if present, otherwise U+3000. If the symbol lacks it, the row is unchanged. Otherwise the symbol and name become the first two pieces, both free of the separator, and together they begin the old text; no other cell changes. It also covers every failure |
| `Crawler.RepairRows` | getStockList.py:95 | `apply(axis=1)` succeeds exactly when every row's repair does, and then holds each row's repair. On failure the error is that of the first failing row |
| `Crawler.CleanTable` | getStockList.py:84-95 | the split and the repair keep the row count and index. The columns are the two halves of the compound header, then the remaining columns |
| `Crawler.StockSymbolCrawler` | getStockList.py:62-97 | a mode other than 2 or 4 yields the mode error; 2 and 4 never do. On success the table has the input's rows minus two, indexed from 2, under the two split names followed by the other headers |
| `Crawler.InvalidModeIgnoresTable` | getStockList.py:62-64 | a rejected mode gives the same error whatever the page holds, so the guard comes before any use of the page |
| `Crawler.CleanKeepsOtherColumns` | getStockList.py:91-95 | with the page's own compound header, every cell after the first two columns is the original cell one column to the left |
| `Crawler.CrawlerKeepsOtherColumns` | getStockList.py:80-95 | the same for the whole crawler, in terms of the page's rows (row i of the result is page row i + 2) |
| `Crawler.RepairIdempotent` | getStockList.py:100-111 | a row whose symbol holds no U+3000 is stable: repairing the repaired row changes nothing |
| `Crawler.CrawlerRowsStayRepaired` | getStockList.py:95 | every row the crawler returns is already repaired; a second repair changes nothing |
| `Crawler.CompoundHeaderColumns` | getStockList.py:84-92 | when the first header cell is two `及`-free labels joined by `及`, the cleaned table is headed by those two labels, then the other header cells in order |
| `Crawler.PageHeaderParts` | getStockList.py:84-88 | the page's compound label `有價證券代號及名稱` is the symbol and name labels around `及`, neither holding it, and splitting it in place gives the eight-label cleaned header |
| `Crawler.PageHeaderColumns` | getStockList.py:80-92 | on the page's own header row, a successful crawl is headed `有價證券代號, 名稱`, then the ISIN code, listing date, market, industry, `CFICode` and remarks labels, in that order |
| `Crawler.SpaceSeparatedValue` | getStockList.py:102-110 | a value of the form `symbol name rest`, split on ordinary spaces, gives that symbol and only that name; the rest is discarded |
| `Symbols.EquityPositions` | getStockList.py:27 | exactly the positions of the rows whose `CFICode` is `ESVUFR`, in increasing order |
| `Symbols.FilterEquity` | getStockList.py:27-28 | the filter fails exactly without a `CFICode` column. Otherwise it keeps the equity rows and their index labels, in order, under the same columns |
| `Symbols.FilterKeepsExactlyEquityRows` | getStockList.py:27-28 | every kept row carries `ESVUFR`, and every input row that carries it is kept with its index label |
| `Symbols.Without` | getStockList.py:30-33 | the labels left after a drop are at most as many as before (the order-keeping definition; `WithoutMembers` and `WithoutIsFilter` state what they are) |
| `Symbols.WithoutMembers` | getStockList.py:30-33 | a label is left exactly when it was present and is not listed |
| `Symbols.WithoutIsFilter` | getStockList.py:30-33 | the labels left are the order-keeping filter of the labels by "not listed" |
| `Symbols.Remaining` | getStockList.py:32-33 | removing the listed columns keeps the index and the row count, and leaves the header `Without` gives, in order |
| `Symbols.DropColumns` | getStockList.py:30-33 | the drop fails exactly when a listed label is absent, naming exactly the absent labels. Otherwise rows and index are kept, and the header is the old header without the listed labels, in its order |
| `Symbols.DropKeepsOtherColumns` | getStockList.py:30-33 | after the drop, a label remains exactly when it was present and not listed, with all of its cells |
| `Symbols.RenameColumns` | getStockList.py:35-42 | each label the mapping knows is replaced by its new name, and every other label, the rows and the index stay |
| `Symbols.ProviderSymbols` | getStockList.py:44-45 | the ticker of each row is its symbol as text followed by the suffix; it fails exactly without a `symbol` column |
| `Symbols.AssignColumn` | getStockList.py:44-45 | assigning a column overwrites an existing one or appends a new one at the end; rows and index are kept |
| `Symbols.AssignColumnCells` | getStockList.py:44-45 | after the assignment, the column holds the values, and every other column keeps its cells |
| `Symbols.AddProviderSymbol` | getStockList.py:44-45 | adding the ticker column fails exactly without a `symbol` column, with that error. Otherwise it keeps the index and row count, and `yf_symbol` is appended to the header unless already there |
| `Symbols.ProviderSymbolFollowsSymbol` | getStockList.py:44-45 | in the result, every row's `yf_symbol` is its `symbol` text followed by the suffix |
| `Symbols.Finish` | getStockList.py:41-45 | rename then ticker column: the only failure is a missing `symbol` column; on success index and row count are kept |
| `Symbols.Trim` | getStockList.py:32-45 | drop, rename, ticker column: a missing dropped label fails with the not-found error, the only other failure is a missing `symbol` column, and index and row count are kept |
| `Symbols.Refine` | getStockList.py:27-45 | one table through lines 27-45: without `CFICode` it fails with that error, and its only other failures are the drop's and the ticker's. `RefineKeepsEquityRows` states the rows and tickers it gives |
| `Symbols.FilterCell` | getStockList.py:27-28 | row j of the filtered table holds, under every label, the cell of the j-th equity row of the input |
| `Symbols.FinishCell` | getStockList.py:41-45 | a label found at its own position before and after the rename, other than `yf_symbol`, keeps its cells under its new name through the rename and the ticker column |
| `Symbols.TrimCell` | getStockList.py:32-45 | when the drop leaves the four kept page labels, the k-th output label of the trimmed table holds the cells of the k-th kept label |
| `Symbols.RefinedCells` | getStockList.py:27-45 | on the page layout, the `symbol`, `name`, `market` and `industry` cells of refined row j are the `有價證券代號`, `名稱`, `市場別` and `產業別` cells of the j-th equity row of the crawled table |
| `Symbols.RefineKeepsEquityRows` | getStockList.py:27-45 | a refined table keeps exactly the equity rows' index labels, in order, and every ticker is the symbol plus the suffix |
| `Symbols.Aligned` | getStockList.py:48 | a row laid out under the combined labels holds the row's cell under each label the row's table has |
| `Symbols.NewLabels` | getStockList.py:48 | the labels the second table adds are exactly those of the second table that the first lacks, each once |
| `Symbols.Concat` | getStockList.py:48 | the stacked table has both row counts summed, index 0 to n - 1. With equal labels, it has the first table's rows and then the second's |
| `Symbols.ConcatLabels` | getStockList.py:48 | the stacked table carries exactly the labels of either table |
| `Symbols.ConcatKeepsCells` | getStockList.py:48 | the first table's rows come first, with their cells under their labels, then the second table's rows with theirs |
| `Symbols.DropOnPageHeader` | getStockList.py:30-33 | on the cleaned page header, the drop leaves `有價證券代號, 名稱, 市場別, 產業別`, in that order |
| `Symbols.PageHeaderHoldsDropped` | getStockList.py:27-33 | the cleaned page header holds `CFICode` and every label of the drop list, so neither the filter nor the drop fails on it |
| `Symbols.RenamedPageLabels` | getStockList.py:35-45 | the rename turns those four labels into `symbol, name, market, industry`, which hold `symbol` and not `yf_symbol` |
| `Symbols.RefinedHeader` | getStockList.py:27-45 | a table under the cleaned page header always gets through lines 27-45 and comes out headed `symbol, name, market, industry, yf_symbol` |
| `Symbols.StockSymbols` | getStockList.py:17-50 | a failed exchange-listed crawl is the result; otherwise a failed over-the-counter crawl is; a success is indexed 0 to n - 1. `StockSymbolsStacksRefinedTables` and `CombinedListing` state its content |
| `Symbols.FilterBoth` | getStockList.py:27-48 | without `CFICode` in either table, the error is the missing `CFICode`; a success is indexed 0 to n - 1. `FilterBothStacks` states its content |
| `Symbols.DropBoth` | getStockList.py:30-48 | a missing dropped label in the first table fails with the not-found error; the only failures are the drop's and the missing `symbol` column; a success holds both row counts, indexed 0 to n - 1. `DropBothStacks` states its content |
| `Symbols.TickerBoth` | getStockList.py:44-48 | it fails exactly when either table lacks a `symbol` column, with that error; a success holds both row counts, indexed 0 to n - 1 |
| `Symbols.DropBothStacks` | getStockList.py:30-48 | the interleaved drop, rename and ticker steps succeed exactly when each table gets through them on its own. The result is the two outcomes stacked |
| `Symbols.FilterBothStacks` | getStockList.py:27-48 | the same from the filter on |
| `Symbols.StockSymbolsStacksRefinedTables` | getStockList.py:17-50 | the whole pipeline succeeds exactly when both crawls and both refinements do, and is then the two refined tables stacked |
| `Symbols.StandardHeader` | getStockList.py:17-50 | when both pages carry the registry's header row and both crawls succeed, the whole pipeline succeeds and the list is headed `symbol, name, market, industry, yf_symbol` |
| `Symbols.CombinedListing` | getStockList.py:17-50 | the combined table has one row per equity row of either market, exchange-listed first, indexed 0 to n - 1. Each ticker is the symbol plus `.TW` in the first part and `.TWO` in the second |
| `Symbols.DataFrame.constructor` | getStockList.py:27 | the new object holds the given table |
| `Symbols.DataFrame.Drop` | getStockList.py:32-33 | the in-place drop leaves the table `DropColumns` gives, or on failure reports its error and leaves the table as it was |
| `Symbols.DataFrame.Rename` | getStockList.py:41-42 | the in-place rename leaves the renamed table |
| `Symbols.DataFrame.Assign` | getStockList.py:44-45 | the in-place assignment leaves the table `AssignColumn` gives |
| `Symbols.RefineInPlace` | getStockList.py:30-48 | changing the two tables in place returns exactly what the interleaved drop, rename, ticker and stack steps give |
| `Symbols.TickersInPlace` | getStockList.py:44-48 | assigning the two ticker columns in place and stacking returns exactly what `TickerBoth` gives for the two tables as they were; each object afterwards holds its table with the ticker column added, or is left as it was when its own step or an earlier one failed |
| `Symbols.GetStockSymbols` | getStockList.py:17-50 | the step-by-step, in-place run returns exactly `StockSymbols`, error included |

## Left out

- The page fetch (`getStockList.py:71-77`) is not modelled. This covers the URL built from the mode, `session.get` and `pd.read_html`: they are network I/O and a foreign HTML parser, and the parsed table is an input. As a consequence, `InvalidModeIgnoresTable` states that a rejected mode never depends on the page, rather than that no request is made.
- The rate-limited session (lines 19-20, 66-68) and the `tenacity` retry (lines 53-54, five attempts two seconds apart) are left out: they are timing wrappers from other libraries, and fetches are taken to have succeeded.
- The `print` diagnostic and `sys.exit(1)` of the mode guard are the `InvalidMode` error value; no output is modelled.
- Every cell of the page table is text. `read_html`'s type inference, such as numeric columns and NaN for empty cells, is not modelled.
- Lookups by a label that several columns carry take the first such column; pandas would return all of them and behave differently. The one exception is the compound first column, where a duplicate is reported as `AmbiguousColumn`, because `.str` is not available on the several-column result.
- `Crawler.SplitSymbolName`: when the symbol must be split but the table has no `名稱` column, the model reports `MissingColumn`. pandas would add the label to the row and widen the table. That cannot happen on the page's own layout.
- `Crawler.SplitSymbolName`: its own contract states only the width and the failure kinds. The full behaviour is stated by `RepairSplitsSymbol`.
- `Frames.AsText`: `astype(str)` of the split padding is modelled as the text `None`. Padding that `pd.concat` introduces (NaN in pandas) is the same `Missing` cell, and its text form is not modelled.
- `Symbols.Concat`: tables whose differing label sets contain a duplicated label would make pandas raise; the model aligns them by first occurrence. Only the default outer join is modelled, with labels in order of first appearance.
- `Crawler.AdoptHeader` models the one-row banner skip for modes from 11 up. After the mode guard it is unreachable, and `HeaderAdoption` states the two-row case.
- `Crawler.SpaceSeparatedValue` is stated for a value written `symbol + ([' '] + (name + ([' '] + rest)))`, which is `symbol name rest`.
