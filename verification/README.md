# Video game sales: cleaning script and Sales Trends dashboard, in Dafny

This project models the two pieces of row logic in a small video-game-sales repository.

- **The offline cleaning script** (`src/data_cleaning.py`) turns the raw `vgsales.csv` rows into the cleaned rows it writes. It does five things:
  - drops rows with a missing Year or Global_Sales;
  - fills a missing Publisher with `"Unknown"`;
  - drops later duplicates of the key (Name, Platform);
  - normalises the Name, Platform, Genre and Publisher text with `clean_text`;
  - derives the Decade, FranchiseTag and Total_Regional_Sales columns.
- **The dashboard** (`app.py`) checks that the required columns are present, then dispatches the sidebar choice to a page. The Sales Trends page:
  - drops rows without a year;
  - filters by an inclusive year range, the selected genres and the selected platforms;
  - sums Global_Sales per Year, Genre or Platform;
  - lists the 15 best-selling filtered games, showing the columns that exist.

Rows are immutable datatypes whose cells are `Option`s, because pandas cells may be missing. Operations are pure functions over sequences of rows. Sales are integers in hundredths of the CSV's million-unit figures. Text is ASCII. The Streamlit widget values are plain inputs.

Modules, one file each:

| file | module | models |
|---|---|---|
| `wrappers.dfy` | `Wrappers` | `Option`, a cell that may be missing |
| `seqs.dfy` | `Seqs` | order-preserving subsequences; `Filter`, a boolean mask applied to a frame |
| `text.dfy` | `Text` | `clean_text`: Python's `lower`, `strip` and the `[^a-z0-9\s]` deletion, on ASCII |
| `franchise.dfy` | `Franchise` | the FranchiseTag regex `\b(ii|iii|iv|v|[2-9])\b`, and a word-based reference definition |
| `cleaning.dfy` | `Cleaning` | the whole cleaning script |
| `order.dfy` | `Order` | the key order of `groupby`: integers numerically, strings as Python compares them |
| `trends.dfy` | `Trends` | `render_sales_trends` |
| `app.dfy` | `App` | `main`: the column check and the page dispatch |

Behaviour worth knowing, each proved:

- `clean_text` strips before it deletes, so it is not idempotent. `"! a"` becomes `" a"`, and a second pass gives `"a"`. A second pass only strips, and a third pass changes nothing.
- Deduplication runs on the raw text, before normalisation. Two raw names that differ only in case both survive and are written with the same cleaned (Name, Platform).
- A missing publisher is written as `"unknown"`, because the fill value `"Unknown"` is itself normalised.
- The sidebar never reaches the prediction page. The dispatch compares the choice with `"Prediction (Prototype)"`, which is not one of the options, so both `"Prediction (stub)"` and `"Feature Insights (stub)"` open the feature-insights page.
- If no row has a year, the page fails before it draws any filter, because `min()` of an empty list raises.

## Model

| member | source | states |
|---|---|---|
| `Seqs.Filter` | app.py:114-119 | a boolean mask keeps an order-preserving subsequence; each row appears exactly as often as in the input if it passes the mask, and not at all otherwise |
| `Seqs.FilterFilter` | app.py:72-119 | dropping rows and then masking equals one mask with the conjunction of both conditions |
| `Cleaning.DropIncomplete` | src/data_cleaning.py:14 | every surviving row has a Year and a Global_Sales; every complete row survives with its multiplicity; order is kept |
| `Cleaning.FillPublisher` | src/data_cleaning.py:15 | the Publisher is "Unknown" where it was missing and unchanged where present; no other cell changes |
| `Cleaning.DedupeFrom` | src/data_cleaning.py:23 | keep-first deduplication after some keys were already seen: an order-preserving subsequence with pairwise distinct keys, none of them seen before; it covers every unseen key; each kept row is the first row with its key, and the kept rows appear in the order of those first occurrences |
| `Cleaning.Dedupe` | src/data_cleaning.py:23 | `drop_duplicates(subset=["Name","Platform"])`: the output is an order-preserving subsequence with pairwise distinct (Name, Platform) keys; every input key appears; each kept row is the first input row with its key; kept rows appear in the order of their first occurrences |
| `Cleaning.DropDuplicates` | src/data_cleaning.py:23 | a single pass with a set of seen keys computes the same rows as the keep-first reference |
| `Cleaning.DistinctKeysCount` | src/data_cleaning.py:23 | rows with pairwise distinct keys have as many keys as rows |
| `Text.Lower` | src/data_cleaning.py:30 | `str.lower` on ASCII: same length, and no upper-case letter is left |
| `Text.TrimStart` | src/data_cleaning.py:30 | `lstrip` removes exactly the leading whitespace |
| `Text.TrimEnd` | src/data_cleaning.py:30 | `rstrip` removes exactly the trailing whitespace |
| `Text.Strip` | src/data_cleaning.py:30 | `strip` yields the infix with no whitespace at either end; everything removed is whitespace |
| `Text.DeleteUnkept` | src/data_cleaning.py:31 | after the substitution every character is in `a-z`, `0-9` or whitespace; every such character of the input survives, as often as it occurs; the result is a subsequence of its input, so the order is kept |
| `Text.CleanText` | src/data_cleaning.py:27-32 | a missing value becomes ""; every output character is in `a-z`, `0-9` or whitespace; each such character of the lowered, stripped input is kept as often as it occurs; the output is a subsequence of that text, so it is no longer than the input |
| `Text.CleanTextNotIdempotent` | src/data_cleaning.py:30-31 | `clean_text("! a")` is `" a"`, and `clean_text(" a")` is `"a"` |
| `Text.CleanTextTwice` | src/data_cleaning.py:30-31 | a second pass over cleaned text only strips it |
| `Text.CleanTextOfCleaned` | src/data_cleaning.py:30-31 | on text made only of `a-z`, `0-9` and whitespace, `clean_text` is `strip` |
| `Text.CleanTextStable` | src/data_cleaning.py:30-31 | a third pass changes nothing |
| `Text.CaseInsensitive` | src/data_cleaning.py:30 | text and its lower-cased form clean to the same value |
| `Text.CleanTextFixed` | src/data_cleaning.py:30-31 | cleaned text without whitespace at either end is a fixed point |
| `Text.StripIdempotent` | src/data_cleaning.py:30 | stripping twice is stripping once |
| `Cleaning.Decade` | src/data_cleaning.py:39 | the decade is a multiple of 10 with `Decade <= Year < Decade + 10`, using floor division |
| `Cleaning.DecadeUnique` | src/data_cleaning.py:39 | any multiple of 10 within ten below the year is the decade |
| `Franchise.FranchiseTag` | src/data_cleaning.py:40-42 | the tag is 0 or 1; on a cleaned name it is 1 exactly when some whitespace-separated word is `ii`, `iii`, `iv`, `v` or a digit 2-9 |
| `Franchise.RegexAgreesWithTokens` | src/data_cleaning.py:41 | on cleaned text, the regex search with `\b` boundaries succeeds exactly when a maximal non-whitespace run equals an alternative |
| `Franchise.MatchIsToken` | src/data_cleaning.py:41 | every regex match of an alternative on cleaned text is one of its words |
| `Franchise.TokenIsMatch` | src/data_cleaning.py:41 | every word of cleaned text is a regex match at some position |
| `Franchise.NotFranchiseExamples` | src/data_cleaning.py:40-42 | "10" and "vi" get tag 0 |
| `Franchise.FranchiseExample` | src/data_cleaning.py:40-42 | "halo 3" gets tag 1 |
| `Cleaning.RegionalTotal` | src/data_cleaning.py:43 | Total_Regional_Sales is NA + EU + JP + Other, with a missing region counting 0 as pandas' row sum skips it |
| `Cleaning.Derive` | src/data_cleaning.py:34-43 | a derived row has cleaned text, the decade property, a 0/1 tag that agrees with the word rule, and the regional total; Year, Global_Sales and regional figures pass through unchanged |
| `Cleaning.Survivors` | src/data_cleaning.py:14-23 | every row reaching normalisation has a Year, a Global_Sales and a Publisher; their (Name, Platform) keys are pairwise distinct and are exactly the keys of the complete raw rows |
| `Cleaning.CleanDataset` | src/data_cleaning.py:14-43 | the i-th written row is derived from the i-th survivor, so there is one written row per distinct raw (Name, Platform) among complete rows; every written row meets the text, decade, tag and total invariants |
| `Cleaning.CleanDatasetTrace` | src/data_cleaning.py:14-43 | each written row is derived from the first complete raw row with its key, with the publisher filled |
| `Cleaning.MissingPublisherIsUnknown` | src/data_cleaning.py:15 | a missing publisher is written as "unknown" |
| `Cleaning.SameCleanedKeys` | src/data_cleaning.py:23-35 | when every surviving raw name is one of two spellings that clean alike, on one platform, every written row has the same cleaned Name and Platform |
| `Cleaning.CleanedKeysMayRepeat` | src/data_cleaning.py:23-35 | raw names "A" and "a" on one platform both survive and are written with equal Name and Platform |
| `App.MissingColumns` | app.py:43-44 | the missing set is exactly the required columns minus the present ones; it is empty exactly when all four are present |
| `App.Dispatch` | app.py:56-61 | only "Sales Trends" opens the trends page; only "Prediction (Prototype)" opens the prediction page; everything else opens the feature-insights stub |
| `App.PredictionUnreachable` | app.py:50-61 | no radio option reaches the prediction page; both stub options open feature insights |
| `App.RunApp` | app.py:43-61 | the app stops with a warning exactly when a required column is missing, naming exactly the missing ones; the trends page opens exactly for "Sales Trends" and shows `render_sales_trends` of the loaded frame; the feature-insights page opens for every other choice except the unreachable prediction label; no option shows the prediction page |
| `Trends.DropMissingYear` | app.py:72 | rows without a year are removed; every row with one is kept as often as it occurs, in order |
| `Trends.ApplyFilters` | app.py:72-119 | an order-preserving subsequence keeping a row, with its multiplicity, iff `lo <= Year <= hi`, its Genre is selected and its Platform is selected |
| `Trends.MinYear` | app.py:79-80 | the smallest year, attained by some row |
| `Trends.MaxYear` | app.py:79-80 | the largest year, attained by some row |
| `Trends.DefaultSelection` | app.py:79-104 | widget defaults exist exactly when some row has a year |
| `Trends.DefaultsKeepCompleteRows` | app.py:79-119 | with the defaults, the filter keeps exactly the rows whose Year, Genre and Platform are all present |
| `Order.SortedDistinct` | app.py:127 | groupby's keys: strictly ascending, exactly the keys that occur |
| `Order.InsertKey` | app.py:127 | inserting into ascending distinct keys keeps them ascending and adds exactly the new key |
| `Order.StrLessTransitive` | app.py:130-133 | Python's string order is transitive |
| `Order.StrLessTotal` | app.py:130-133 | any two different strings are ordered one way or the other |
| `Trends.PresentKeys` | app.py:126-134 | the keys of the aggregation column present in the rows |
| `Trends.GroupBySum` | app.py:126-136 | one group per distinct present key, keys strictly ascending, each total the sum of Global_Sales over the rows with that key |
| `Trends.GroupTotalsSum` | app.py:126-136 | the group totals add up to the sales of all keyed rows |
| `Trends.GroupsPartitionSales` | app.py:126-136 | summing per-key totals over distinct keys that cover every present key gives the keyed total |
| `Trends.AllKeyedSales` | app.py:126-136 | when every row has all three columns, no sales are dropped by grouping |
| `Trends.SalesOfKeyIsFilteredTotal` | app.py:126-136 | a group's total equals the total of the rows selected by `df[df[key] == k]` |
| `Trends.InsertBySales` | app.py:161 | inserting into a sales-descending list keeps it descending and adds exactly one row |
| `Trends.SortBySalesDesc` | app.py:161 | a permutation of the rows with non-increasing Global_Sales |
| `Trends.TopGames` | app.py:160-164 | `min(15, n)` rows drawn from the filtered rows, Global_Sales non-increasing, and no omitted row sells more than the last one shown |
| `Trends.ColumnsToShow` | app.py:158-159 | exactly those of Name, Platform, Year, Genre, Global_Sales that are present, in that order |
| `Trends.BuildReport` | app.py:126-164 | for filtered rows the report holds their group-by, whose totals add up to their total sales, the top-games table of those rows (at most 15, best sellers first, none left out selling more than the last shown), and the present table columns |
| `Trends.RenderSalesTrends` | app.py:66-164 | a page without any year fails; an empty filter result gives a warning and nothing else; otherwise the groups are the group-by of the filtered rows, their totals sum to the filtered total, and the top table is the top-games table of the filtered rows |

## Left out

- Streamlit rendering: titles, captions, `st.dataframe(df.head(10))`, columns, `st.cache_data` and `st.stop`. The widget values (year range, selections, aggregation level, page choice) are parameters.
- Plotly chart construction (`px.line`, `px.bar`). The model keeps the grouped data the chart is drawn from.
- Reading and writing CSV files, the `DATA_PATH.exists()` check, the load-failure branch and the summary `print`s. These are file I/O.
- Sales_Ratio, because it is floating-point division and rounding.
- Floating point in general: sales are integers in hundredths, and the float-to-int cast of Year is not modelled, since Year is an integer here.
- Unicode: `str.lower`, `str.strip`, `\s` and `\w` are modelled on ASCII only.
- The Rank column and other columns the script passes through untouched.
- The prediction form with its JSON echo, and the feature-insights markdown. These are static pages with no logic; the model records only which page opens.
- Trends.AppRow: Global_Sales is a present integer. The dashboard reads the file the cleaning script writes, and that script drops rows with a missing Global_Sales.
- Trends.SortBySalesDesc: fixes one order among equal sales. No contract states a tie order, because pandas' default sort is not stable.
- Trends.RenderSalesTrends: does not constrain the year range to the slider's bounds, since the filter behaves the same for any range.
