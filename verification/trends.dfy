/**
 * The Sales Trends page of the dashboard (`render_sales_trends` in app.py): drop rows without
 * a year, filter by an inclusive year range and the selected genres and platforms, sum
 * Global_Sales per value of the chosen column, and list the best-selling games.
 * The widget values are inputs; charts and tables are represented by the data they show.
 */
module Trends {
  import opened Wrappers
  import opened Seqs
  import opened Order
  import Cleaning

  /** The page reads the file the cleaning script writes, with the same sales unit. */
  type Sales = Cleaning.Sales

  /** One row of the cleaned dataset as the page reads it. */
  datatype AppRow = AppRow(
    name: Option<string>,
    platform: Option<string>,
    year: Option<int>,
    genre: Option<string>,
    globalSales: Sales)

  /** The values of the year slider and the two multiselects. */
  datatype Selection = Selection(yearLo: int, yearHi: int, genres: set<string>, platforms: set<string>)

  /** The "Aggregate by" radio. */
  datatype Dimension = ByYear | ByGenre | ByPlatform

  // Filtering.

  predicate HasYear(r: AppRow) {
    r.year.Some?
  }

  /** `Year.between(lo, hi) & Genre.isin(genres) & Platform.isin(platforms)`; a missing cell
      is never between two bounds nor in a selection. */
  predicate InMask(sel: Selection, r: AppRow) {
    && r.year.Some? && sel.yearLo <= r.year.value <= sel.yearHi
    && r.genre.Some? && r.genre.value in sel.genres
    && r.platform.Some? && r.platform.value in sel.platforms
  }

  /** `df.dropna(subset=["Year"])`. */
  function DropMissingYear(rows: seq<AppRow>): (out: seq<AppRow>)
    ensures forall i :: 0 <= i < |out| ==> HasYear(out[i])
    ensures forall r :: r in out <==> r in rows && HasYear(r)
    ensures forall r :: multiset(out)[r] == if HasYear(r) then multiset(rows)[r] else 0
    ensures IsSubseq(out, rows)
  {
    var out := Filter(rows, HasYear);
    assert forall r :: r in out <==> r in rows && HasYear(r) by {
      forall r ensures r in out <==> r in rows && HasYear(r) {
        FilterMembership(rows, HasYear, r);
      }
    }
    out
  }

  /** The rows shown after dropping missing years and applying the mask: an order-preserving
      subsequence holding every row of the frame that passes the mask, as often as it occurs. */
  function ApplyFilters(rows: seq<AppRow>, sel: Selection): (out: seq<AppRow>)
    ensures IsSubseq(out, rows)
    ensures forall r :: multiset(out)[r] == if InMask(sel, r) then multiset(rows)[r] else 0
    ensures forall i :: 0 <= i < |out| ==> InMask(sel, out[i])
  {
    var mask := (r: AppRow) => InMask(sel, r);
    FilterFilter(rows, HasYear, mask, mask);
    Filter(DropMissingYear(rows), mask)
  }

  // Widget defaults.

  predicate AllHaveYear(rows: seq<AppRow>) {
    forall i :: 0 <= i < |rows| ==> rows[i].year.Some?
  }

  /** `min(years)`. */
  function MinYear(rows: seq<AppRow>): (m: int)
    requires |rows| > 0 && AllHaveYear(rows)
    ensures forall i :: 0 <= i < |rows| ==> m <= rows[i].year.value
    ensures exists i :: 0 <= i < |rows| && rows[i].year.value == m
    decreases |rows|
  {
    if |rows| == 1 then rows[0].year.value
    else
      var m := MinYear(rows[1..]);
      assert forall i :: 1 <= i < |rows| ==> rows[i] == rows[1..][i - 1];
      if rows[0].year.value <= m then rows[0].year.value else m
  }

  /** `max(years)`. */
  function MaxYear(rows: seq<AppRow>): (m: int)
    requires |rows| > 0 && AllHaveYear(rows)
    ensures forall i :: 0 <= i < |rows| ==> rows[i].year.value <= m
    ensures exists i :: 0 <= i < |rows| && rows[i].year.value == m
    decreases |rows|
  {
    if |rows| == 1 then rows[0].year.value
    else
      var m := MaxYear(rows[1..]);
      assert forall i :: 1 <= i < |rows| ==> rows[i] == rows[1..][i - 1];
      if rows[0].year.value >= m then rows[0].year.value else m
  }

  /** `df["Genre"].dropna().unique()`. */
  function GenresOf(rows: seq<AppRow>): set<string> {
    set i | 0 <= i < |rows| && rows[i].genre.Some? :: rows[i].genre.value
  }

  /** `df["Platform"].dropna().unique()`. */
  function PlatformsOf(rows: seq<AppRow>): set<string> {
    set i | 0 <= i < |rows| && rows[i].platform.Some? :: rows[i].platform.value
  }

  /** The widgets' initial values: the full year range, every genre and every platform of the
      rows that have a year. Without any year `min()` of an empty list raises: `None`. */
  function DefaultSelection(rows: seq<AppRow>): (sel: Option<Selection>)
    ensures sel.None? <==> forall i :: 0 <= i < |rows| ==> rows[i].year.None?
  {
    var withYear := DropMissingYear(rows);
    if |withYear| == 0 then
      assert forall i :: 0 <= i < |rows| ==> rows[i] !in withYear;
      None
    else
      Some(Selection(MinYear(withYear), MaxYear(withYear), GenresOf(withYear), PlatformsOf(withYear)))
  }

  predicate IsComplete(r: AppRow) {
    r.year.Some? && r.genre.Some? && r.platform.Some?
  }

  /** With the default widget values the page keeps exactly the rows whose Year, Genre and
      Platform are all present. */
  lemma DefaultsKeepCompleteRows(rows: seq<AppRow>)
    requires DefaultSelection(rows).Some?
    ensures ApplyFilters(rows, DefaultSelection(rows).value) == Filter(rows, IsComplete)
  {
    var sel := DefaultSelection(rows).value;
    var withYear := DropMissingYear(rows);
    var mask := (r: AppRow) => InMask(sel, r);
    forall r | r in rows ensures IsComplete(r) == (HasYear(r) && mask(r)) {
      if IsComplete(r) {
        assert r in withYear;
        var i :| 0 <= i < |withYear| && withYear[i] == r;
        assert MinYear(withYear) <= r.year.value <= MaxYear(withYear);
        assert r.genre.value in GenresOf(withYear);
        assert r.platform.value in PlatformsOf(withYear);
      }
    }
    FilterFilter(rows, HasYear, mask, IsComplete);
  }

  // Group-by-sum.

  /** The value of the aggregation column, missing when the cell is. */
  function GroupKeyOf(dim: Dimension, r: AppRow): Option<GroupKey> {
    match dim
    case ByYear => if r.year.Some? then Some(YearKey(r.year.value)) else None
    case ByGenre => if r.genre.Some? then Some(TextKey(r.genre.value)) else None
    case ByPlatform => if r.platform.Some? then Some(TextKey(r.platform.value)) else None
  }

  /** The present keys of `rows`, in row order, with repetitions. */
  function PresentKeys(rows: seq<AppRow>, dim: Dimension): (ks: seq<GroupKey>)
    ensures forall k :: k in ks <==> exists j :: 0 <= j < |rows| && GroupKeyOf(dim, rows[j]) == Some(k)
    decreases |rows|
  {
    if |rows| == 0 then []
    else
      var rest := PresentKeys(rows[1..], dim);
      assert forall j :: 1 <= j < |rows| ==> rows[j] == rows[1..][j - 1];
      match GroupKeyOf(dim, rows[0])
      case Some(k) => [k] + rest
      case None => rest
  }

  /** Sum of Global_Sales over all rows. */
  function TotalSales(rows: seq<AppRow>): Sales {
    if |rows| == 0 then 0 else rows[0].globalSales + TotalSales(rows[1..])
  }

  /** Sum of Global_Sales over the rows whose key is `k`. */
  function SalesOfKey(rows: seq<AppRow>, dim: Dimension, k: GroupKey): Sales {
    if |rows| == 0 then 0
    else (if GroupKeyOf(dim, rows[0]) == Some(k) then rows[0].globalSales else 0) + SalesOfKey(rows[1..], dim, k)
  }

  /** Sum of Global_Sales over the rows that have a key (groupby drops missing keys). */
  function KeyedSales(rows: seq<AppRow>, dim: Dimension): Sales {
    if |rows| == 0 then 0
    else (if GroupKeyOf(dim, rows[0]).Some? then rows[0].globalSales else 0) + KeyedSales(rows[1..], dim)
  }

  /** One row of the grouped frame: a key and its Total_Global_Sales. */
  datatype Group = Group(key: GroupKey, total: Sales)

  function MakeGroups(rows: seq<AppRow>, dim: Dimension, ks: seq<GroupKey>): (gs: seq<Group>)
    ensures |gs| == |ks|
    ensures forall i :: 0 <= i < |ks| ==> gs[i] == Group(ks[i], SalesOfKey(rows, dim, ks[i]))
    decreases |ks|
  {
    if |ks| == 0 then [] else [Group(ks[0], SalesOfKey(rows, dim, ks[0]))] + MakeGroups(rows, dim, ks[1..])
  }

  /** `df.groupby(key, as_index=False)["Global_Sales"].sum()`: one group per distinct present
      key, keys ascending, each total the sum over the rows with that key. */
  function GroupBySum(rows: seq<AppRow>, dim: Dimension): (gs: seq<Group>)
    ensures forall i, j :: 0 <= i < j < |gs| ==> KeyLess(gs[i].key, gs[j].key)
    ensures forall k :: (exists i :: 0 <= i < |gs| && gs[i].key == k) <==>
      (exists j :: 0 <= j < |rows| && GroupKeyOf(dim, rows[j]) == Some(k))
    ensures forall i :: 0 <= i < |gs| ==> gs[i].total == SalesOfKey(rows, dim, gs[i].key)
  {
    var ks := SortedDistinct(PresentKeys(rows, dim));
    var gs := MakeGroups(rows, dim, ks);
    assert forall k :: (exists i :: 0 <= i < |gs| && gs[i].key == k) <==> k in ks by {
      forall k ensures (exists i :: 0 <= i < |gs| && gs[i].key == k) <==> k in ks {
        if k in ks {
          var i :| 0 <= i < |ks| && ks[i] == k;
          assert gs[i].key == k;
        }
      }
    }
    gs
  }

  function SumTotals(gs: seq<Group>): Sales {
    if |gs| == 0 then 0 else gs[0].total + SumTotals(gs[1..])
  }

  /** The sales of one row counted once for every key of `ks` the row has. */
  function Indicator(r: AppRow, dim: Dimension, ks: seq<GroupKey>): Sales {
    if |ks| == 0 then 0
    else (if GroupKeyOf(dim, r) == Some(ks[0]) then r.globalSales else 0) + Indicator(r, dim, ks[1..])
  }

  lemma {:induction false} IndicatorOnce(r: AppRow, dim: Dimension, ks: seq<GroupKey>)
    requires Distinct(ks)
    ensures Indicator(r, dim, ks) ==
      if GroupKeyOf(dim, r).Some? && GroupKeyOf(dim, r).value in ks then r.globalSales else 0
    decreases |ks|
  {
    if |ks| > 0 {
      assert Distinct(ks[1..]);
      assert ks[0] !in ks[1..];
      assert forall k :: k in ks <==> k == ks[0] || k in ks[1..];
      IndicatorOnce(r, dim, ks[1..]);
    }
  }

  lemma {:induction false} SplitFirstRow(rows: seq<AppRow>, dim: Dimension, ks: seq<GroupKey>)
    requires |rows| > 0
    ensures SumTotals(MakeGroups(rows, dim, ks)) ==
      Indicator(rows[0], dim, ks) + SumTotals(MakeGroups(rows[1..], dim, ks))
    decreases |ks|
  {
    if |ks| > 0 {
      SplitFirstRow(rows, dim, ks[1..]);
    }
  }

  lemma {:induction false} NoRowsNoSales(rows: seq<AppRow>, dim: Dimension, ks: seq<GroupKey>)
    requires |rows| == 0
    ensures SumTotals(MakeGroups(rows, dim, ks)) == 0
    decreases |ks|
  {
    if |ks| > 0 {
      NoRowsNoSales(rows, dim, ks[1..]);
    }
  }

  /** Summing the groups over distinct keys that cover every present key gives back the
      sales of all keyed rows. */
  lemma {:induction false} GroupsPartitionSales(rows: seq<AppRow>, dim: Dimension, ks: seq<GroupKey>)
    requires Distinct(ks)
    requires forall j :: 0 <= j < |rows| && GroupKeyOf(dim, rows[j]).Some? ==> GroupKeyOf(dim, rows[j]).value in ks
    ensures SumTotals(MakeGroups(rows, dim, ks)) == KeyedSales(rows, dim)
    decreases |rows|
  {
    if |rows| == 0 {
      NoRowsNoSales(rows, dim, ks);
    } else {
      SplitFirstRow(rows, dim, ks);
      IndicatorOnce(rows[0], dim, ks);
      assert forall j :: 1 <= j < |rows| ==> rows[j] == rows[1..][j - 1];
      GroupsPartitionSales(rows[1..], dim, ks);
    }
  }

  /** The group totals add up to the sales of all rows with a key. */
  lemma GroupTotalsSum(rows: seq<AppRow>, dim: Dimension)
    ensures SumTotals(GroupBySum(rows, dim)) == KeyedSales(rows, dim)
  {
    var ks := SortedDistinct(PresentKeys(rows, dim));
    AscendingIsDistinct(ks);
    forall j | 0 <= j < |rows| && GroupKeyOf(dim, rows[j]).Some?
      ensures GroupKeyOf(dim, rows[j]).value in ks
    {
      assert GroupKeyOf(dim, rows[j]).value in PresentKeys(rows, dim);
    }
    GroupsPartitionSales(rows, dim, ks);
  }

  /** When every row has a key, as every filtered row does, nothing is dropped. */
  lemma {:induction false} AllKeyedSales(rows: seq<AppRow>, dim: Dimension)
    requires forall i :: 0 <= i < |rows| ==> IsComplete(rows[i])
    ensures KeyedSales(rows, dim) == TotalSales(rows)
    decreases |rows|
  {
    if |rows| > 0 {
      AllKeyedSales(rows[1..], dim);
    }
  }

  /** A group's total is the total of the rows a `df[df[key] == k]` mask selects. */
  lemma {:induction false} SalesOfKeyIsFilteredTotal(rows: seq<AppRow>, dim: Dimension, k: GroupKey)
    ensures SalesOfKey(rows, dim, k) == TotalSales(Filter(rows, (r: AppRow) => GroupKeyOf(dim, r) == Some(k)))
    decreases |rows|
  {
    if |rows| > 0 {
      SalesOfKeyIsFilteredTotal(rows[1..], dim, k);
      var p := (r: AppRow) => GroupKeyOf(dim, r) == Some(k);
      if p(rows[0]) {
        assert Filter(rows, p) == [rows[0]] + Filter(rows[1..], p);
        assert ([rows[0]] + Filter(rows[1..], p))[1..] == Filter(rows[1..], p);
      }
    }
  }

  // Top games.

  /** How many rows `head()` keeps in the top-games table. */
  const TopN: nat := 15

  predicate NonIncreasing(rows: seq<AppRow>) {
    forall i, j :: 0 <= i < j < |rows| ==> rows[i].globalSales >= rows[j].globalSales
  }

  function InsertBySales(r: AppRow, sorted: seq<AppRow>): (out: seq<AppRow>)
    requires NonIncreasing(sorted)
    ensures NonIncreasing(out)
    ensures multiset(out) == multiset(sorted) + multiset{r}
    decreases |sorted|
  {
    if |sorted| == 0 || r.globalSales >= sorted[0].globalSales then [r] + sorted
    else
      var rest := InsertBySales(r, sorted[1..]);
      BoundedByHead(r, sorted, rest);
      assert sorted == [sorted[0]] + sorted[1..];
      [sorted[0]] + rest
  }

  lemma BoundedByHead(r: AppRow, sorted: seq<AppRow>, rest: seq<AppRow>)
    requires |sorted| > 0 && NonIncreasing(sorted) && r.globalSales < sorted[0].globalSales
    requires multiset(rest) == multiset(sorted[1..]) + multiset{r}
    ensures forall x :: x in rest ==> x.globalSales <= sorted[0].globalSales
  {
    forall x | x in rest ensures x.globalSales <= sorted[0].globalSales {
      assert x in multiset(rest);
      if x != r {
        assert x in multiset(sorted[1..]);
        var j :| 0 <= j < |sorted[1..]| && sorted[1..][j] == x;
        assert sorted[j + 1] == x;
      }
    }
  }

  /** `sort_values("Global_Sales", ascending=False)`. The order among equal sales is not
      specified, since pandas' default sort is not stable. */
  function SortBySalesDesc(rows: seq<AppRow>): (out: seq<AppRow>)
    ensures NonIncreasing(out)
    ensures multiset(out) == multiset(rows)
    decreases |rows|
  {
    if |rows| == 0 then []
    else
      assert rows == [rows[0]] + rows[1..];
      InsertBySales(rows[0], SortBySalesDesc(rows[1..]))
  }

  /** No row of `rows` left out of a non-empty `top` sells more than the last row of `top`. */
  predicate NothingHigherLeftOut(rows: seq<AppRow>, top: seq<AppRow>) {
    |top| > 0 ==> forall x :: x in multiset(rows) - multiset(top) ==> x.globalSales <= top[|top| - 1].globalSales
  }

  /** The top-games table: at most `TopN` rows drawn from the filtered rows, sales
      non-increasing, and no row left out sells more than the last one shown. */
  function TopGames(rows: seq<AppRow>): (top: seq<AppRow>)
    ensures |top| == if |rows| < TopN then |rows| else TopN
    ensures multiset(top) <= multiset(rows)
    ensures NonIncreasing(top)
    ensures NothingHigherLeftOut(rows, top)
  {
    var sorted := SortBySalesDesc(rows);
    var m := if |rows| < TopN then |rows| else TopN;
    SortedPrefix(rows, sorted, m);
    sorted[..m]
  }

  /** A prefix of a sorted permutation of `rows` is non-increasing, is drawn from `rows`, and
      leaves out nothing that sells more than its last row. */
  lemma SortedPrefix(rows: seq<AppRow>, sorted: seq<AppRow>, m: nat)
    requires NonIncreasing(sorted) && multiset(sorted) == multiset(rows) && m <= |rows|
    ensures m <= |sorted|
    ensures NonIncreasing(sorted[..m]) && multiset(sorted[..m]) <= multiset(rows)
    ensures NothingHigherLeftOut(rows, sorted[..m])
  {
    assert |sorted| == |multiset(rows)| == |rows|;
    PrefixNonIncreasing(sorted, m);
    assert sorted == sorted[..m] + sorted[m..];
    if m > 0 {
      OmittedBelowShown(sorted, m);
    }
  }

  lemma PrefixNonIncreasing(sorted: seq<AppRow>, m: int)
    requires NonIncreasing(sorted) && 0 <= m <= |sorted|
    ensures NonIncreasing(sorted[..m])
  {
    forall i, j | 0 <= i < j < m
      ensures sorted[..m][i].globalSales >= sorted[..m][j].globalSales
    {
      assert sorted[..m][i] == sorted[i] && sorted[..m][j] == sorted[j];
    }
  }

  /** Cutting a sorted sequence after `m` rows leaves out nothing that sells more than the
      last row kept. */
  lemma OmittedBelowShown(sorted: seq<AppRow>, m: int)
    requires NonIncreasing(sorted) && 0 < m <= |sorted|
    ensures multiset(sorted[..m]) <= multiset(sorted)
    ensures forall x :: x in multiset(sorted) - multiset(sorted[..m]) ==> x.globalSales <= sorted[m - 1].globalSales
  {
    assert sorted == sorted[..m] + sorted[m..];
    assert multiset(sorted) == multiset(sorted[..m]) + multiset(sorted[m..]);
    forall x | x in multiset(sorted) - multiset(sorted[..m])
      ensures x.globalSales <= sorted[m - 1].globalSales
    {
      assert x in multiset(sorted[m..]);
      var j :| 0 <= j < |sorted[m..]| && sorted[m..][j] == x;
      assert sorted[m + j] == x;
    }
  }

  /** Columns of the top-games table, in this order when present. */
  const ShownColumns: seq<string> := ["Name", "Platform", "Year", "Genre", "Global_Sales"]

  /** `[c for c in cols_to_show if c in df_filtered.columns]`. */
  function ColumnsToShow(columns: seq<string>): (cols: seq<string>)
    ensures IsSubseq(cols, ShownColumns)
    ensures forall c :: c in cols <==> c in ShownColumns && c in columns
  {
    var present := (c: string) => c in columns;
    var cols := Filter(ShownColumns, present);
    assert forall c :: c in cols <==> c in ShownColumns && c in columns by {
      forall c ensures c in cols <==> c in ShownColumns && c in columns {
        FilterMembership(ShownColumns, present, c);
      }
    }
    cols
  }

  // The page.

  /** What the page shows below its filter widgets. */
  datatype TrendsView =
    | YearRangeError
    | NoDataWarning
    | Report(groups: seq<Group>, columns: seq<string>, topGames: seq<AppRow>)

  /** `render_sales_trends` for the given widget values. Without any year the slider's bounds
      cannot be computed (`min()` of an empty list raises); an empty filter result ends the page
      with a warning before any grouping or ranking. */
  function RenderSalesTrends(columns: seq<string>, rows: seq<AppRow>, sel: Selection, dim: Dimension): (v: TrendsView)
    ensures v.YearRangeError? <==> forall i :: 0 <= i < |rows| ==> rows[i].year.None?
    ensures v.NoDataWarning? <==> !v.YearRangeError? && |ApplyFilters(rows, sel)| == 0
    ensures v.Report? ==>
      var shown := ApplyFilters(rows, sel);
      && |shown| > 0
      && v.groups == GroupBySum(shown, dim)
      && SumTotals(v.groups) == TotalSales(shown)
      && |v.topGames| <= TopN && multiset(v.topGames) <= multiset(shown)
      && v.topGames == TopGames(shown)
      && v.columns == ColumnsToShow(columns)
  {
    if DefaultSelection(rows).None? then YearRangeError
    else
      var shown := ApplyFilters(rows, sel);
      if |shown| == 0 then NoDataWarning
      else BuildReport(columns, shown, dim)
  }

  /** The charts and table drawn for a non-empty filter result. */
  function BuildReport(columns: seq<string>, shown: seq<AppRow>, dim: Dimension): (v: TrendsView)
    requires forall i :: 0 <= i < |shown| ==> IsComplete(shown[i])
    ensures v.Report?
    ensures v.groups == GroupBySum(shown, dim) && SumTotals(v.groups) == TotalSales(shown)
    ensures |v.topGames| <= TopN && multiset(v.topGames) <= multiset(shown)
    ensures v.topGames == TopGames(shown)
    ensures v.columns == ColumnsToShow(columns)
  {
    GroupTotalsSum(shown, dim);
    AllKeyedSales(shown, dim);
    Report(GroupBySum(shown, dim), ColumnsToShow(columns), TopGames(shown))
  }
}
