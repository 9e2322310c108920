/**
 * `main` of the dashboard: the sanity check on the columns, then the sidebar navigation
 * that dispatches to one of three pages.
 */
module App {
  import opened Trends

  /** The columns the dashboard cannot do without. */
  const RequiredColumns: set<string> := {"Year", "Genre", "Platform", "Global_Sales"}

  /** `required_cols - set(df.columns)`. */
  function MissingColumns(columns: seq<string>): (missing: set<string>)
    ensures forall c :: c in missing <==> c in RequiredColumns && c !in columns
    ensures missing == {} <==> forall c :: c in RequiredColumns ==> c in columns
  {
    set c | c in RequiredColumns && c !in columns
  }

  /** The pages a sidebar choice can lead to. */
  datatype Page = SalesTrends | Prediction | FeatureInsights

  /** The options of the "Go to" radio, in display order. */
  const PageOptions: seq<string> := ["Sales Trends", "Prediction (stub)", "Feature Insights (stub)"]

  /** The label the prediction branch compares against; it is not one of `PageOptions`. */
  const PredictionLabel: string := "Prediction (Prototype)"

  /** The `if`/`elif`/`else` on the chosen page. */
  function Dispatch(choice: string): (p: Page)
    ensures p == SalesTrends <==> choice == PageOptions[0]
    ensures p == Prediction <==> choice == PredictionLabel
    ensures p == FeatureInsights <==> choice != PageOptions[0] && choice != PredictionLabel
  {
    if choice == "Sales Trends" then SalesTrends
    else if choice == PredictionLabel then Prediction
    else FeatureInsights
  }

  /** No option of the radio reaches the prediction page: both stub options open the
      feature-insights page. */
  lemma PredictionUnreachable()
    ensures forall i :: 0 <= i < |PageOptions| ==> Dispatch(PageOptions[i]) != Prediction
    ensures Dispatch(PageOptions[0]) == SalesTrends
    ensures Dispatch(PageOptions[1]) == FeatureInsights
    ensures Dispatch(PageOptions[2]) == FeatureInsights
  {
    assert PredictionLabel !in PageOptions by {
      assert PredictionLabel[12] == 'P' && PageOptions[1][12] == 's';
      assert |PredictionLabel| != |PageOptions[0]| && |PredictionLabel| != |PageOptions[2]|;
    }
  }

  /** The data frame the dashboard loaded. */
  datatype Frame = Frame(columns: seq<string>, rows: seq<AppRow>)

  /** What `main` ends up showing. */
  datatype Screen =
    | MissingColumnsWarning(missing: set<string>)
    | SalesTrendsPage(view: TrendsView)
    | PredictionPage
    | FeatureInsightsPage

  /** One run of `main` for a loaded frame and the widget values. */
  function RunApp(frame: Frame, choice: string, sel: Selection, dim: Dimension): (s: Screen)
    ensures s.MissingColumnsWarning? <==> exists c :: c in RequiredColumns && c !in frame.columns
    ensures s.MissingColumnsWarning? ==> s.missing == MissingColumns(frame.columns) && s.missing != {}
    ensures s.SalesTrendsPage? <==> !s.MissingColumnsWarning? && choice == PageOptions[0]
    ensures choice in PageOptions ==> !s.PredictionPage?
    ensures s.SalesTrendsPage? ==> s.view == RenderSalesTrends(frame.columns, frame.rows, sel, dim)
    ensures s.FeatureInsightsPage? <==>
      !s.MissingColumnsWarning? && choice != PageOptions[0] && choice != PredictionLabel
  {
    PredictionUnreachable();
    var missing := MissingColumns(frame.columns);
    if missing != {} then MissingColumnsWarning(missing)
    else
      match Dispatch(choice)
      case SalesTrends => SalesTrendsPage(RenderSalesTrends(frame.columns, frame.rows, sel, dim))
      case Prediction => PredictionPage
      case FeatureInsights => FeatureInsightsPage
  }
}
