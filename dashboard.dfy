/** The script from the upload onwards: coerce the numeric columns, compute
    the KPIs, then the views the charts draw, one after another. Streamlit
    shows each element as the script reaches it, and an exception ends the
    run with whatever was shown so far; the page is modelled that way, as
    the panels shown in order and the error that stopped the run, if any. */
module Dashboard {
  import opened Table
  import opened Coercion
  import opened Aggregation
  import opened Ranking

  /** The columns `px.scatter` names: x, y, size, color and hover data. */
  const ScatterColumns: seq<string> := ["Discount", "Profit", "Sales", "Category", "Product Name"]

  /** What the page shows, element by element. */
  datatype Panel =
    | Kpis(totalSales: real, totalProfit: real, profitMargin: real)
    | CategoryBar(groups: seq<Group>)     // sales by Category
    | RegionBar(groups: seq<Group>)       // sales by Region
    | SubCategoryBar(groups: seq<Group>)  // top ten sub-categories by profit
    | DiscountScatter                     // drawn from the frame itself; its plotting is not modelled
    | StateMap(groups: seq<Group>)        // sales by State

  datatype Page =
    | UploadPrompt                                          // nothing uploaded: only the hint
    | Rendered(panels: seq<Panel>, stoppedBy: Option<Error>)

  /** `m` is profit as a percentage of sales when there are sales, and 0 when there are none. */
  predicate IsMargin(m: real, totalSales: real, totalProfit: real)
  {
    && (totalSales != 0.0 ==> m * totalSales == totalProfit * 100.0)
    && (totalSales == 0.0 ==> m == 0.0)
  }

  /** The guarded division of the KPI panel. */
  function ProfitMargin(totalSales: real, totalProfit: real): (m: real)
    ensures IsMargin(m, totalSales, totalProfit)
  {
    if totalSales != 0.0 then totalProfit / totalSales * 100.0 else 0.0
  }

  /** A marker size plotly accepts: a number no smaller than 0. A missing
      (NaN) or negative size is rejected with an error. */
  predicate ValidSize(c: Cell)
  {
    c.Num? && c.value >= 0.0
  }

  /** Whether row `i` reaches the scatter plot. `color="Category"` splits the
      rows into one trace per category with a group-by that leaves out rows
      whose category is missing; only when the column holds a single distinct
      value (all missing counting as one) is the whole frame one trace. */
  predicate Plotted(rows: seq<Row>, i: int)
    requires 0 <= i < |rows|
  {
    !Get(rows[i], "Category").Missing? || forall j :: 0 <= j < |rows| ==> Get(rows[j], "Category").Missing?
  }

  /** The scatter plot takes its marker sizes from Sales: every row it draws
      must hold a valid size there. */
  predicate ValidSizes(rows: seq<Row>)
  {
    forall i :: 0 <= i < |rows| && Plotted(rows, i) ==> ValidSize(Get(rows[i], "Sales"))
  }

  /** Everything after the coercion step, on the coerced frame. */
  function Summarize(f: Frame): Page
  {
    var rows := f.rows;
    var totalSales := ColumnSum(rows, "Sales");
    var totalProfit := ColumnSum(rows, "Profit");
    var shown := [Kpis(totalSales, totalProfit, ProfitMargin(totalSales, totalProfit))];
    if "Category" !in f.columns then Rendered(shown, Some(KeyError("Category")))
    else
      var shown := shown + [CategoryBar(GroupSum(rows, "Category", "Sales"))];
      if "Region" !in f.columns then Rendered(shown, Some(KeyError("Region")))
      else
        var shown := shown + [RegionBar(GroupSum(rows, "Region", "Sales"))];
        if "Sub-Category" !in f.columns then Rendered(shown, Some(KeyError("Sub-Category")))
        else
          var shown := shown + [SubCategoryBar(Top(GroupSum(rows, "Sub-Category", "Profit")))];
          var k := FirstAbsent(f.columns, ScatterColumns);
          if k < |ScatterColumns| then Rendered(shown, Some(PlotColumnError(ScatterColumns[k])))
          else if !ValidSizes(rows) then Rendered(shown, Some(PlotValueError("Sales")))
          else
            var shown := shown + [DiscountScatter];
            if "State" in f.columns then Rendered(shown + [StateMap(GroupSum(rows, "State", "Sales"))], None)
            else Rendered(shown, None)
  }

  /** The whole script: nothing is computed without an upload, and a frame
      lacking a numeric column stops at the coercion step before anything is shown. */
  function Dashboard(upload: Option<Frame>): (p: Page)
    ensures upload.None? <==> p.UploadPrompt?
    ensures upload.Some? && (exists j :: 0 <= j < |NumericColumns| && NumericColumns[j] !in upload.value.columns)
      ==> p.Rendered? && p.panels == [] && p.stoppedBy.Some? && p.stoppedBy.value.KeyError?
    ensures p.Rendered? && p.panels != [] ==> p.panels[0].Kpis?
  {
    match upload
    case None => UploadPrompt
    case Some(f) =>
      match Coerce(f)
      case Failure(e) => Rendered([], Some(e))
      case Success(g) => Summarize(g)
  }

  /** The script's top level as it runs: `df` is created from the upload and
      coerced in place, then summarised. */
  method Run(upload: Option<Frame>) returns (page: Page)
    ensures page == Dashboard(upload)
  {
    if upload.None? {
      return UploadPrompt;
    }
    var df := new DataFrame(upload.value);
    var err := df.CoerceNumericColumns();
    if err.Some? {
      return Rendered([], err);
    }
    page := Summarize(df.Value());
  }

  predicate HasColumns(f: Frame, cols: seq<string>)
  {
    forall j :: 0 <= j < |cols| ==> cols[j] in f.columns
  }

  /** With the four numeric columns present, the coercion step succeeds,
      keeps the header, and the run goes on to summarise the coerced frame. */
  lemma CoercionPasses(f: Frame)
    requires HasColumns(f, NumericColumns)
    ensures Coerce(f).Success? && Coerce(f).value.columns == f.columns
    ensures Dashboard(Some(f)) == Summarize(Coerce(f).value)
  {
  }

  /** A frame lacking a group-by column stops at that group-by: the views
      before it are shown, none after it. */
  lemma StopsAtMissingGroupColumn(f: Frame)
    requires HasColumns(f, NumericColumns)
    ensures var p := Dashboard(Some(f));
      && p.Rendered?
      && ("Category" !in f.columns ==>
            |p.panels| == 1 && p.stoppedBy == Some(KeyError("Category")))
      && ("Category" in f.columns && "Region" !in f.columns ==>
            |p.panels| == 2 && p.panels[1].CategoryBar? && p.stoppedBy == Some(KeyError("Region")))
      && ("Category" in f.columns && "Region" in f.columns && "Sub-Category" !in f.columns ==>
            |p.panels| == 3 && p.panels[2].RegionBar? && p.stoppedBy == Some(KeyError("Sub-Category")))
  {
    CoercionPasses(f);
  }

  /** The other columns the run needs to reach its end: the three group-by
      keys and the scatter plot's hover column. */
  const ViewColumns: seq<string> := ["Category", "Region", "Sub-Category", "Product Name"]

  lemma ScatterPasses(g: Frame)
    requires HasColumns(g, NumericColumns) && HasColumns(g, ViewColumns)
    ensures FirstAbsent(g.columns, ScatterColumns) == |ScatterColumns|
  {
    assert ScatterColumns == [NumericColumns[2], NumericColumns[1], NumericColumns[0], ViewColumns[0], ViewColumns[3]];
  }

  lemma KpiPanel(g: Frame)
    ensures var ts := ColumnSum(g.rows, "Sales");
      var tp := ColumnSum(g.rows, "Profit");
      var p := Summarize(g);
      p.Rendered? && |p.panels| >= 1 && p.panels[0] == Kpis(ts, tp, ProfitMargin(ts, tp))
  {
  }

  lemma CategoryPanel(g: Frame)
    requires "Category" in g.columns
    ensures var p := Summarize(g);
      p.Rendered? && |p.panels| >= 2 && p.panels[1] == CategoryBar(GroupSum(g.rows, "Category", "Sales"))
  {
  }

  lemma RegionPanel(g: Frame)
    requires "Category" in g.columns && "Region" in g.columns
    ensures var p := Summarize(g);
      p.Rendered? && |p.panels| >= 3 && p.panels[2] == RegionBar(GroupSum(g.rows, "Region", "Sales"))
  {
  }

  lemma SubCategoryPanel(g: Frame)
    requires "Category" in g.columns && "Region" in g.columns && "Sub-Category" in g.columns
    ensures var p := Summarize(g);
      p.Rendered? && |p.panels| >= 4 && p.panels[3] == SubCategoryBar(Top(GroupSum(g.rows, "Sub-Category", "Profit")))
  {
  }

  lemma FinalPanels(g: Frame)
    requires HasColumns(g, NumericColumns) && HasColumns(g, ViewColumns) && ValidSizes(g.rows)
    ensures var p := Summarize(g);
      && p.Rendered? && p.stoppedBy.None?
      && |p.panels| == (if "State" in g.columns then 6 else 5)
      && p.panels[4] == DiscountScatter
      && ("State" in g.columns ==> p.panels[5] == StateMap(GroupSum(g.rows, "State", "Sales")))
  {
    ScatterPasses(g);
    assert ViewColumns[0] == "Category" && ViewColumns[1] == "Region" && ViewColumns[2] == "Sub-Category";
  }

  lemma SizesRejected(g: Frame)
    requires HasColumns(g, NumericColumns) && HasColumns(g, ViewColumns) && !ValidSizes(g.rows)
    ensures var p := Summarize(g);
      && p.Rendered? && |p.panels| == 4 && p.stoppedBy == Some(PlotValueError("Sales"))
      && p.panels[0].Kpis? && p.panels[1].CategoryBar? && p.panels[2].RegionBar? && p.panels[3].SubCategoryBar?
      && forall j :: 0 <= j < |p.panels| ==> !p.panels[j].StateMap?
  {
    ScatterPasses(g);
    assert ViewColumns[0] == "Category" && ViewColumns[1] == "Region" && ViewColumns[2] == "Sub-Category";
    var p := Summarize(g);
    forall j | 0 <= j < |p.panels| ensures !p.panels[j].StateMap? {
      assert j == 0 || j == 1 || j == 2 || j == 3;
    }
  }

  /** Coercion leaves the Category column as it was. */
  lemma CategoryKept(f: Frame)
    requires HasColumns(f, NumericColumns)
    ensures Coerce(f).Success? && |Coerce(f).value.rows| == |f.rows|
    ensures forall j :: 0 <= j < |f.rows| ==> Get(Coerce(f).value.rows[j], "Category") == Get(f.rows[j], "Category")
  {
    assert "Category" !in NumericColumns;
  }

  /** A plotted row whose Sales cell coerces to missing or to a negative
      number makes the coerced rows fail the size check. */
  lemma SalesSizeAt(f: Frame, i: nat)
    requires HasColumns(f, NumericColumns) && i < |f.rows|
    requires !ValidSize(ToNumeric(Get(f.rows[i], "Sales"))) && Plotted(f.rows, i)
    ensures Coerce(f).Success? && !ValidSizes(Coerce(f).value.rows)
  {
    CategoryKept(f);
    var g := Coerce(f).value;
    assert "Sales" in NumericColumns;
    assert Get(g.rows[i], "Sales") == ToNumeric(Get(f.rows[i], "Sales"));
    assert Plotted(g.rows, i);
  }

  /** A Sales cell that coerces to missing or to a negative number, in a row
      the scatter plot draws, makes the plot fail: the run stops after the
      top-ten view, and the State map is never drawn, whatever the columns. */
  lemma StopsAtInvalidSize(f: Frame, i: nat)
    requires HasColumns(f, NumericColumns) && HasColumns(f, ViewColumns)
    requires i < |f.rows|
    requires !ValidSize(ToNumeric(Get(f.rows[i], "Sales"))) && Plotted(f.rows, i)
    ensures var p := Dashboard(Some(f));
      && p.Rendered? && |p.panels| == 4 && p.stoppedBy == Some(PlotValueError("Sales"))
      && forall j :: 0 <= j < |p.panels| ==> !p.panels[j].StateMap?
  {
    SalesSizeAt(f, i);
    CoercionPasses(f);
    SizesRejected(Coerce(f).value);
  }

  /** With every column it needs present, the run completes exactly when the
      coerced rows pass the size check. */
  lemma CompletesIffValidSizes(f: Frame)
    requires HasColumns(f, NumericColumns) && HasColumns(f, ViewColumns)
    ensures var p := Dashboard(Some(f));
      p.Rendered? && (p.stoppedBy.None? <==> ValidSizes(Coerce(f).value.rows))
  {
    CoercionPasses(f);
    var g := Coerce(f).value;
    if ValidSizes(g.rows) {
      FinalPanels(g);
    } else {
      SizesRejected(g);
    }
  }

  /** Missing or negative Sales cells only in rows whose category is missing
      do not stop the run when some row has a category: the colour split
      leaves those rows out of every trace. */
  lemma UnplottedSizesIgnored(f: Frame)
    requires HasColumns(f, NumericColumns) && HasColumns(f, ViewColumns)
    requires exists j :: 0 <= j < |f.rows| && !Get(f.rows[j], "Category").Missing?
    requires forall i :: 0 <= i < |f.rows| && !ValidSize(ToNumeric(Get(f.rows[i], "Sales"))) ==>
      Get(f.rows[i], "Category").Missing?
    ensures var p := Dashboard(Some(f));
      p.Rendered? && p.stoppedBy.None? && |p.panels| >= 5 && p.panels[4] == DiscountScatter
  {
    CoercionPasses(f);
    CategoryKept(f);
    var g := Coerce(f).value;
    forall i | 0 <= i < |g.rows| && Plotted(g.rows, i)
      ensures ValidSize(Get(g.rows[i], "Sales"))
    {
      assert "Sales" in NumericColumns;
      assert Get(g.rows[i], "Sales") == ToNumeric(Get(f.rows[i], "Sales"));
      var j :| 0 <= j < |f.rows| && !Get(f.rows[j], "Category").Missing?;
      assert !Get(g.rows[j], "Category").Missing?;
    }
    FinalPanels(g);
  }

  /** The scatter plot's hover column is the last column it names. */
  lemma MissingScatterColumn(g: Frame)
    requires HasColumns(g, NumericColumns)
    requires "Category" in g.columns && "Region" in g.columns && "Sub-Category" in g.columns
    requires "Product Name" !in g.columns
    ensures var p := Summarize(g);
      && p.Rendered? && |p.panels| == 4 && p.stoppedBy == Some(PlotColumnError("Product Name"))
      && p.panels[0].Kpis? && p.panels[1].CategoryBar? && p.panels[2].RegionBar? && p.panels[3].SubCategoryBar?
  {
    assert ScatterColumns == [NumericColumns[2], NumericColumns[1], NumericColumns[0], "Category", "Product Name"];
    assert forall j :: 0 <= j < 4 ==> ScatterColumns[j] in g.columns;
    assert ScatterColumns[4] !in g.columns;
  }

  /** A frame with the numeric and group-by columns but no Product Name
      column stops at the scatter plot, after the top-ten view, with no
      State map. */
  lemma StopsAtMissingScatterColumn(f: Frame)
    requires HasColumns(f, NumericColumns)
    requires "Category" in f.columns && "Region" in f.columns && "Sub-Category" in f.columns
    requires "Product Name" !in f.columns
    ensures var p := Dashboard(Some(f));
      && p.Rendered? && |p.panels| == 4 && p.stoppedBy == Some(PlotColumnError("Product Name"))
      && forall j :: 0 <= j < |p.panels| ==> !p.panels[j].StateMap?
  {
    CoercionPasses(f);
    var g := Coerce(f).value;
    MissingScatterColumn(g);
    var p := Summarize(g);
    forall j | 0 <= j < |p.panels| ensures !p.panels[j].StateMap? {
      assert j == 0 || j == 1 || j == 2 || j == 3;
    }
  }

  /** Without a State column, no panel of the summary is a State map. */
  lemma NoStateMapWithout(g: Frame)
    requires "State" !in g.columns
    ensures var p := Summarize(g);
      p.Rendered? && forall i :: 0 <= i < |p.panels| ==> !p.panels[i].StateMap?
  {
    var p := Summarize(g);
    forall i | 0 <= i < |p.panels| ensures !p.panels[i].StateMap? {
      if i == 0 {
        KpiPanel(g);
      } else if i == 1 {
        assert "Category" in g.columns;
        CategoryPanel(g);
      } else if i == 2 {
        assert "Category" in g.columns && "Region" in g.columns;
        RegionPanel(g);
      } else if i == 3 {
        assert "Category" in g.columns && "Region" in g.columns && "Sub-Category" in g.columns;
        SubCategoryPanel(g);
      } else {
        assert i == 4;
      }
    }
  }

  /** Whatever is uploaded, a State map is shown only when the frame has a
      State column. */
  lemma StateMapOnlyWithColumn(upload: Option<Frame>)
    ensures var p := Dashboard(upload);
      p.Rendered? && (exists i :: 0 <= i < |p.panels| && p.panels[i].StateMap?) ==>
        upload.Some? && "State" in upload.value.columns
  {
    if upload.Some? && "State" !in upload.value.columns && Coerce(upload.value).Success? {
      NoStateMapWithout(Coerce(upload.value).value);
    }
  }

  /** With every column it needs present and every Sales cell a valid marker
      size, the run completes, and the State map is drawn if and only if the
      frame has a State column. */
  lemma StateViewIffColumn(f: Frame)
    requires HasColumns(f, NumericColumns) && HasColumns(f, ViewColumns)
    requires ValidSizes(Coerce(f).value.rows)
    ensures var p := Dashboard(Some(f));
      && p.Rendered? && p.stoppedBy.None?
      && ((exists i :: 0 <= i < |p.panels| && p.panels[i].StateMap?) <==> "State" in f.columns)
  {
    CoercionPasses(f);
    var g := Coerce(f).value;
    FinalPanels(g);
    var p := Summarize(g);
    if "State" !in f.columns {
      forall i | 0 <= i < |p.panels| ensures !p.panels[i].StateMap? {
        if i == 0 {
          KpiPanel(g);
        } else if i == 1 {
          CategoryPanel(g);
        } else if i == 2 {
          RegionPanel(g);
        } else if i == 3 {
          SubCategoryPanel(g);
        }
      }
    }
  }

  /** The KPI panel: total sales and total profit are the sums of the numbers
      the coerced columns hold, and the margin is profit as a percentage of
      sales, exactly 0 when total sales is 0. */
  lemma KpiTotals(f: Frame)
    requires HasColumns(f, NumericColumns)
    ensures var p := Dashboard(Some(f));
      var g := Coerce(f).value;
      && p.Rendered? && |p.panels| >= 1 && p.panels[0].Kpis?
      && p.panels[0].totalSales == Sum(Present(g.rows, "Sales"))
      && p.panels[0].totalProfit == Sum(Present(g.rows, "Profit"))
      && IsMargin(p.panels[0].profitMargin, p.panels[0].totalSales, p.panels[0].totalProfit)
  {
    CoercionPasses(f);
    KpiPanel(Coerce(f).value);
  }

  /** What the dashboard promises of a view grouped by `keyCol`: one entry per
      distinct key, each the sum of `valCol` over that key's rows, and, when
      no row lacks a key, entries adding up to the column's total. */
  ghost predicate IsGroupView(rows: seq<Row>, gs: seq<Group>, keyCol: string, valCol: string)
  {
    && GroupsOf(rows, gs, keyCol, valCol)
    && |gs| == |KeysOf(rows, keyCol)|
    && ((forall i :: 0 <= i < |rows| ==> !Get(rows[i], keyCol).Missing?) ==>
          GroupTotal(gs) == ColumnSum(rows, valCol))
  }

  lemma GroupView(rows: seq<Row>, keyCol: string, valCol: string)
    ensures IsGroupView(rows, GroupSum(rows, keyCol, valCol), keyCol, valCol)
  {
    GroupSumSpec(rows, keyCol, valCol);
    if forall i :: 0 <= i < |rows| ==> !Get(rows[i], keyCol).Missing? {
      GroupSumCoversTotal(rows, keyCol, valCol);
    }
  }

  /** The Category view has one entry per distinct category, each the sum of
      the sales of that category's rows; when no row lacks a category the
      entries add up to the total sales shown in the KPI panel. */
  lemma CategoryView(f: Frame)
    requires HasColumns(f, NumericColumns) && "Category" in f.columns
    ensures var p := Dashboard(Some(f));
      var g := Coerce(f).value;
      && p.Rendered? && |p.panels| >= 2 && p.panels[0].Kpis? && p.panels[1].CategoryBar?
      && IsGroupView(g.rows, p.panels[1].groups, "Category", "Sales")
      && p.panels[0].totalSales == ColumnSum(g.rows, "Sales")
  {
    CoercionPasses(f);
    var g := Coerce(f).value;
    KpiPanel(g);
    CategoryPanel(g);
    GroupView(g.rows, "Category", "Sales");
  }

  /** The Region view, likewise by region. */
  lemma RegionView(f: Frame)
    requires HasColumns(f, NumericColumns) && "Category" in f.columns && "Region" in f.columns
    ensures var p := Dashboard(Some(f));
      var g := Coerce(f).value;
      && p.Rendered? && |p.panels| >= 3 && p.panels[0].Kpis? && p.panels[2].RegionBar?
      && IsGroupView(g.rows, p.panels[2].groups, "Region", "Sales")
      && p.panels[0].totalSales == ColumnSum(g.rows, "Sales")
  {
    CoercionPasses(f);
    var g := Coerce(f).value;
    KpiPanel(g);
    RegionPanel(g);
    GroupView(g.rows, "Region", "Sales");
  }

  /** The State map, when the frame has that column, likewise by state. */
  lemma StateView(f: Frame)
    requires HasColumns(f, NumericColumns) && HasColumns(f, ViewColumns) && "State" in f.columns
    requires ValidSizes(Coerce(f).value.rows)
    ensures var p := Dashboard(Some(f));
      var g := Coerce(f).value;
      && p.Rendered? && |p.panels| == 6 && p.panels[0].Kpis? && p.panels[5].StateMap?
      && IsGroupView(g.rows, p.panels[5].groups, "State", "Sales")
      && p.panels[0].totalSales == ColumnSum(g.rows, "Sales")
  {
    CoercionPasses(f);
    var g := Coerce(f).value;
    KpiPanel(g);
    FinalPanels(g);
    GroupView(g.rows, "State", "Sales");
  }

  /** An entry occurs at most once in a list of groups with distinct keys. */
  lemma {:induction false} OccursOnce(gs: seq<Group>, x: Group)
    requires DistinctKeys(gs)
    ensures multiset(gs)[x] <= 1
    decreases |gs|
  {
    if gs != [] {
      var init := gs[..|gs| - 1];
      assert gs == init + [gs[|gs| - 1]];
      OccursOnce(init, x);
      if gs[|gs| - 1] == x {
        assert forall j :: 0 <= j < |init| ==> init[j].key != gs[|gs| - 1].key;
        assert x !in init;
      }
    }
  }

  /** Part of a list of groups with distinct keys has distinct keys too. */
  lemma SubListDistinct(all: seq<Group>, t: seq<Group>)
    requires DistinctKeys(all) && multiset(t) <= multiset(all)
    ensures DistinctKeys(t)
  {
    forall i, j | 0 <= i < j < |t|
      ensures t[i].key != t[j].key
    {
      assert t[i] in multiset(t) && t[j] in multiset(t);
      if t[i] == t[j] {
        assert t == t[..j] + [t[j]] + t[j + 1..];
        assert t[i] in t[..j];
        OccursOnce(all, t[i]);
      }
    }
  }

  /** What the dashboard promises of the top-ten view of the `valCol` totals
      per `keyCol`: min(10, number of distinct keys) entries, largest first,
      each a distinct key with the sum of `valCol` over its rows, and any
      group left out no larger than the last entry listed. */
  ghost predicate IsTopView(rows: seq<Row>, t: seq<Group>, keyCol: string, valCol: string)
  {
    var n := |KeysOf(rows, keyCol)|;
    && |t| == (if n < TopCount then n else TopCount)
    && NonIncreasing(t)
    && DistinctKeys(t)
    && (forall i :: 0 <= i < |t| ==>
          t[i].key in KeysOf(rows, keyCol) &&
          t[i].total == ColumnSum(WithKey(rows, keyCol, t[i].key), valCol))
    && (forall x :: x in GroupSum(rows, keyCol, valCol) && x !in t ==>
          t != [] && x.total <= t[|t| - 1].total)
  }

  lemma TopView(rows: seq<Row>, keyCol: string, valCol: string)
    ensures IsTopView(rows, Top(GroupSum(rows, keyCol, valCol)), keyCol, valCol)
  {
    var all := GroupSum(rows, keyCol, valCol);
    var t := Top(all);
    GroupSumSpec(rows, keyCol, valCol);
    TopSpec(all);
    SubListDistinct(all, t);
    forall i | 0 <= i < |t|
      ensures t[i].key in KeysOf(rows, keyCol)
      ensures t[i].total == ColumnSum(WithKey(rows, keyCol, t[i].key), valCol)
    {
      TopMembers(all, t[i]);
      GroupEntry(rows, keyCol, valCol, t[i]);
    }
  }

  /** The sub-category view: the ten sub-categories with the largest summed
      profit (fewer when there are fewer), largest first. */
  lemma SubCategoryView(f: Frame)
    requires HasColumns(f, NumericColumns)
    requires "Category" in f.columns && "Region" in f.columns && "Sub-Category" in f.columns
    ensures var p := Dashboard(Some(f));
      && p.Rendered? && |p.panels| >= 4 && p.panels[3].SubCategoryBar?
      && IsTopView(Coerce(f).value.rows, p.panels[3].groups, "Sub-Category", "Profit")
  {
    CoercionPasses(f);
    var g := Coerce(f).value;
    SubCategoryPanel(g);
    TopView(g.rows, "Sub-Category", "Profit");
  }
}
