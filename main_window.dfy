/**
 * The desktop application's main window and its risk dashboard: the toolbar
 * actions that change the register (new project from the functional
 * architecture, add a row, guided analysis, delete the selected rows) and the
 * dashboard's KPIs, sunburst with its legend, and colour-graded cross table.
 */
module MainWindow {
  import opened Wrappers
  import opened Schema
  import opened Ordering
  import opened Ids
  import opened Table
  import opened Aggregation
  import Analyses
  import CoreRegister
  import ApiRegister
  import Architect

  // ---------------------------------------------------------------------------
  // Sunburst legend
  // ---------------------------------------------------------------------------

  /** The legend's classification entries: each of `cats` some drawn row has, in order, with its row count. */
  function LegendOf(drawn: seq<Entry>, cats: seq<string>): (legend: seq<CategoryCount>)
    ensures forall c :: c in Labels(legend) <==> c in cats && Count(drawn, HasCategory(c)) > 0
    ensures forall k :: 0 <= k < |legend| ==> legend[k].count == Count(drawn, HasCategory(legend[k].category))
  {
    if cats == [] then []
    else
      var n := |cats| - 1;
      var c := cats[n];
      assert cats == cats[..n] + [c];
      var front := LegendOf(drawn, cats[..n]);
      var k := Count(drawn, HasCategory(c));
      if k > 0 then
        var legend := front + [CategoryCount(c, k)];
        assert Labels(legend) == Labels(front) + [c];
        legend
      else
        front
  }

  /** Rows of one of `fns` classified as `c`. */
  function InFunctions(fns: seq<string>, c: string): Entry -> bool
  {
    (e: Entry) => e.level1 in fns && e.category == c
  }

  /** Per function of `fns`, its number of rows classified as `c`: the outer-ring slice, 0 where none is drawn. */
  function ColumnCounts(rows: seq<Entry>, fns: seq<string>, c: string): (counts: seq<nat>)
    ensures |counts| == |fns|
  {
    seq(|fns|, i requires 0 <= i < |fns| => CrossCount(rows, fns[i], c))
  }

  /** Over distinct functions, the slices of one classification add up to its rows in any of them. */
  lemma {:induction false} SumColumnCounts(rows: seq<Entry>, fns: seq<string>, c: string)
    requires forall i, j :: 0 <= i < j < |fns| ==> fns[i] != fns[j]
    ensures Sum(ColumnCounts(rows, fns, c)) == Count(rows, InFunctions(fns, c))
  {
    if fns == [] {
      CountPositive(rows, InFunctions(fns, c));
    } else {
      var n := |fns| - 1;
      var f := fns[n];
      var front := fns[..n];
      SumColumnCounts(rows, front, c);
      assert ColumnCounts(rows, fns, c)[..n] == ColumnCounts(rows, front, c);
      assert f !in front;
      CountDisjoint(rows, InFunctions(front, c), InCell(f, c));
      assert forall x :: x in fns <==> x in front || x == f by { assert fns == front + [f]; }
      CountSame(rows, Or(InFunctions(front, c), InCell(f, c)), InFunctions(fns, c));
    }
  }

  /**
   * A legend entry counts every drawn row of its classification: the sum,
   * over the functions of the inner ring, of that classification's slice.
   */
  lemma {:induction false} LegendSumsSlices(rows: seq<Entry>, c: string)
    ensures var drawn := Drawn(rows);
      Count(drawn, HasCategory(c)) == Sum(ColumnCounts(drawn, FunctionNames(drawn), c))
  {
    var drawn := Drawn(rows);
    var fns := FunctionNames(drawn);
    forall i, j | 0 <= i < j < |fns| ensures fns[i] != fns[j] {
      StrictlyIncreasingDistinct(fns, i, j);
    }
    SumColumnCounts(drawn, fns, c);
    CountSame(drawn, InFunctions(fns, c), HasCategory(c));
  }

  // ---------------------------------------------------------------------------
  // The dashboard
  // ---------------------------------------------------------------------------

  /**
   * The sunburst panel: a "no data" note when no row is drawn, else the
   * inner ring (one node per function with its slices; the outer ring is
   * their slices in node order) and the classification legend.
   */
  datatype DesktopSunburst = NoSunburstData | Chart(functions: seq<SunburstNode>, legend: seq<CategoryCount>)

  function SunburstChart(rows: seq<Entry>): (s: DesktopSunburst)
    ensures s.NoSunburstData? <==> forall e :: e in rows ==> !IsDrawn()(e)
  {
    var drawn := Drawn(rows);
    assert drawn != [] ==> drawn[0] in drawn;
    if drawn == [] then NoSunburstData else Chart(Sunburst(rows), LegendOf(drawn, RingCategories))
  }

  /** `refresh_dashboard`: cleared for an empty register, else the three panels. */
  datatype DesktopDashboard = Cleared | Shown(kpis: Kpis, sunburst: DesktopSunburst, cross: CrossAnalysis)

  function RefreshDashboard(rows: seq<Entry>): (d: DesktopDashboard)
    ensures d.Cleared? <==> rows == []
  {
    if rows == [] then Cleared else Shown(GetKpis(rows), SunburstChart(rows), AnalyzeCross(rows))
  }

  /**
   * On the same register the desktop dashboard and the web service's agree:
   * both are empty together, the KPIs and the cross-analysis coincide, both
   * sunbursts are missing together, and otherwise they list the same
   * functions in the same order with the same totals (all their drawn rows).
   */
  lemma {:induction false} DesktopAgreesWithWeb(rows: seq<Entry>)
    ensures var d := RefreshDashboard(rows);
      var w := ApiRegister.GetDashboardData(rows);
      && (d.Cleared? <==> w.NoData?)
      && (d.Shown? ==> d.kpis == w.kpis && d.cross == w.cross)
      && (d.Shown? ==> (d.sunburst.NoSunburstData? <==> w.sunburst.None?))
      && (d.Shown? && d.sunburst.Chart? ==>
            && |d.sunburst.functions| == |w.sunburst.value|
            && forall i :: 0 <= i < |d.sunburst.functions| ==>
                 && d.sunburst.functions[i].name == w.sunburst.value[i].name
                 && d.sunburst.functions[i].total == Total(w.sunburst.value[i].children))
  {
    var drawn := Drawn(rows);
    if rows != [] && drawn != [] {
      var fns := FunctionNames(drawn);
      forall i | 0 <= i < |fns| ensures Count(drawn, OfFunction(fns[i])) == Total(Children(drawn, fns[i])) {
        ChildrenMeaning(rows, fns[i]);
      }
    }
  }

  /** A highlighted cell's alpha: 50 plus 40 per row, capped at 255 (reached from six rows on). */
  function CellIntensity(count: nat): (alpha: nat)
    requires count > 0
    ensures 90 <= alpha <= 255
    ensures alpha == 255 <==> count >= 6
  {
    if 50 + count * 40 < 255 then 50 + count * 40 else 255
  }

  /** A cross-table cell as shown: the count as text, highlighted (with an alpha) when positive. */
  datatype TableCell = TableCell(text: string, highlight: Option<nat>)

  function ShowCell(count: nat): (cell: TableCell)
  {
    TableCell(DecimalDigits(count), if count > 0 then Some(CellIntensity(count)) else None)
  }

  /** A shown cell reads back as its count, and is highlighted exactly when the count is positive. */
  lemma {:induction false} ShowCellReadsBack(count: nat)
    ensures AllDigits(ShowCell(count).text) && DecimalValue(ShowCell(count).text) == count
    ensures ShowCell(count).highlight.Some? <==> count > 0
  {
    DecimalRoundTrip(count);
  }

  /** The cross table is a grid of the table's shape. */
  ghost predicate WellShaped(t: CrossTab)
  {
    |t.data| == |t.index| && forall r :: 0 <= r < |t.data| ==> |t.data[r]| == |t.columns|
  }

  /** The fill loop of `_update_cross_analysis`: every cell of the table shown, row by row. */
  method FillCrossTable(t: CrossTab) returns (grid: seq<seq<TableCell>>)
    requires WellShaped(t)
    ensures |grid| == |t.index|
    ensures forall r :: 0 <= r < |grid| ==> |grid[r]| == |t.columns|
    ensures forall r, c :: 0 <= r < |grid| && 0 <= c < |t.columns| ==> grid[r][c] == ShowCell(t.data[r][c])
  {
    grid := [];
    for r := 0 to |t.index|
      invariant |grid| == r
      invariant forall i :: 0 <= i < r ==> |grid[i]| == |t.columns|
      invariant forall i, c :: 0 <= i < r && 0 <= c < |t.columns| ==> grid[i][c] == ShowCell(t.data[i][c])
    {
      var row := FillRow(t.data[r]);
      grid := grid + [row];
    }
  }

  method FillRow(counts: seq<nat>) returns (row: seq<TableCell>)
    ensures |row| == |counts|
    ensures forall c :: 0 <= c < |counts| ==> row[c] == ShowCell(counts[c])
  {
    row := [];
    for c := 0 to |counts|
      invariant |row| == c
      invariant forall j :: 0 <= j < c ==> row[j] == ShowCell(counts[j])
    {
      row := row + [ShowCell(counts[c])];
    }
  }

  // ---------------------------------------------------------------------------
  // Deletion order
  // ---------------------------------------------------------------------------

  /** Dropping by label depends only on which labels are listed, not on their order or repetition. */
  lemma {:induction false} DroppedOrderFree(rows: seq<Entry>, xs: seq<int>, ys: seq<int>)
    requires forall x :: x in xs <==> x in ys
    ensures Dropped(rows, xs) == Dropped(rows, ys)
  {
    assert AsSet(xs) == AsSet(ys) by {
      assert forall x :: x in AsSet(xs) <==> x in AsSet(ys);
    }
    assert xs == [] <==> ys == [] by {
      assert xs != [] ==> xs[0] in ys;
      assert ys != [] ==> ys[0] in xs;
    }
    if exists j :: 0 <= j < |xs| && !(0 <= xs[j] < |rows|) {
      var j :| 0 <= j < |xs| && !(0 <= xs[j] < |rows|);
      assert xs[j] in ys;
    }
    if exists j :: 0 <= j < |ys| && !(0 <= ys[j] < |rows|) {
      var j :| 0 <= j < |ys| && !(0 <= ys[j] < |rows|);
      assert ys[j] in xs;
    }
  }

  /** Sorting the selection in reverse before dropping it changes nothing. */
  lemma {:induction false} ReverseSortedDrop(rows: seq<Entry>, selected: seq<int>)
    ensures Dropped(rows, SortedDescending(selected)) == Dropped(rows, selected)
  {
    var sorted := SortedDescending(selected);
    assert forall x :: x in sorted <==> x in selected by {
      forall x ensures x in sorted <==> x in selected {
        assert x in sorted <==> x in multiset(sorted);
        assert x in selected <==> x in multiset(selected);
      }
    }
    DroppedOrderFree(rows, sorted, selected);
  }

  // ---------------------------------------------------------------------------
  // The main window
  // ---------------------------------------------------------------------------

  class MainWindow {
    /** The register the window shows and edits. */
    var model: CoreRegister.Register

    constructor()
      ensures fresh(model) && model.rows == [] && model.nextId == 1
    {
      model := new CoreRegister.Register();
    }

    /**
     * `new_project`: with rows on the table the user must confirm first
     * (`declined` is the "No" answer); if the functional-architecture dialog
     * is then accepted, the register restarts with one row per checked cell.
     */
    method NewProject(declined: bool, dialog: Architect.ArchitectDialog, accepted: bool) returns (created: nat)
      requires dialog.Valid()
      modifies model
      ensures (old(model.rows) != [] && declined) || !accepted ==>
        model.rows == old(model.rows) && model.nextId == old(model.nextId) && created == 0
      ensures !(old(model.rows) != [] && declined) && accepted ==>
        && model.rows == Appended([], ApiRegister.SkeletonRecords(dialog.Checked()))
        && model.nextId == |model.rows| + 1
        && created == |dialog.Checked()|
    {
      if model.rows != [] && declined {
        return 0;
      }
      if !accepted {
        return 0;
      }
      model.NewProject();
      var skeleton := dialog.GetFhaSkeleton();
      model.AddFhaEntries(ApiRegister.SkeletonRecords(skeleton));
      created := |skeleton|;
    }

    /** `add_new_row`: one blank row appended and the table renumbered. */
    method AddNewRow()
      modifies model
      ensures model.rows == Appended(old(model.rows), [map[]])
      ensures model.nextId == |model.rows| + 1
    {
      model.AddFhaEntries([map[]]);
    }

    /**
     * `start_analysis_wizard`: nothing without a selected row; the first
     * selected row is read (raising when the table has no such row) and the
     * wizard run on it; if it is accepted with results, the row is replaced
     * by one row per result. A cancelled or empty run changes nothing.
     */
    method StartAnalysisWizard(selected: seq<nat>, accepted: bool, results: seq<Analyses.Analysis>) returns (outcome: Outcome)
      modifies model
      ensures outcome.Raised? <==> selected != [] && selected[0] >= |old(model.rows)|
      ensures outcome.Raised? || selected == [] || !accepted || results == [] ==>
        model.rows == old(model.rows) && model.nextId == old(model.nextId)
      ensures outcome.Done? && selected != [] && accepted && results != [] ==>
        && model.rows == Expanded(old(model.rows), selected[0], Analyses.AnalysisRecords(results)).value
        && model.nextId == |model.rows| + 1
    {
      if selected == [] {
        return Done;
      }
      var source := selected[0];
      if source >= |model.rows| {
        return Raised(OutOfRange);
      }
      if !accepted || results == [] {
        return Done;
      }
      outcome := model.UpdateFromWizard(source, Analyses.AnalysisRecords(results));
    }

    /**
     * `delete_selected_rows`: nothing without a selection or without the
     * user's confirmation; otherwise the selected rows, sorted in reverse,
     * are dropped by label and the rest renumbered.
     */
    method DeleteSelectedRows(selected: seq<nat>, confirmed: bool) returns (outcome: Outcome)
      modifies model
      ensures outcome.Raised? <==> confirmed && Dropped(old(model.rows), selected).None?
      ensures outcome.Raised? || selected == [] || !confirmed ==>
        model.rows == old(model.rows) && model.nextId == old(model.nextId)
      ensures outcome.Done? && selected != [] && confirmed ==>
        && model.rows == Dropped(old(model.rows), selected).value
        && model.nextId == |model.rows| + 1
    {
      if selected == [] || !confirmed {
        return Done;
      }
      var labels := SortedDescending(selected);
      ReverseSortedDrop(model.rows, selected);
      assert labels != [] by {
        assert selected[0] in multiset(selected);
      }
      outcome := model.DeleteRows(labels);
    }
  }
}
