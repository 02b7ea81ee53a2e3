/**
 * The web service's hazard register (the `FHA_Model` behind the REST
 * endpoints): one table whose every structural change renumbers the rows, the
 * "new project" endpoint, and the filtered read of the table.
 */
module ApiRegister {
  import opened Wrappers
  import opened Schema
  import opened Ids
  import opened Table
  import opened Text
  import Aggregation

  /**
   * The register. Its index is always the positions 0..n-1 (every mutation
   * resets it), so a row's label and its position coincide.
   */
  class Register {
    var rows: seq<Entry>

    /** An empty twelve-column table. */
    constructor()
      ensures rows == []
    {
      rows := [];
    }

    /** `load_dataframe`: the parsed rows reindexed onto the schema, missing cells "", then renumbered. */
    method LoadDataframe(records: seq<Record>)
      modifies this
      ensures rows == Renumbered(ProjectAll(records))
    {
      rows := ProjectAll(records);
      ReNumberIds();
    }

    /**
     * `update_cell`: raises for a row the table does not have or a column
     * outside the schema, leaving the table as it was; otherwise writes that
     * one cell. No renumbering.
     */
    method UpdateCell(row: nat, column: string, value: string) returns (outcome: Outcome)
      modifies this
      ensures outcome.Raised? <==> CellUpdated(old(rows), row, column, value).None?
      ensures outcome.Raised? ==> rows == old(rows)
      ensures outcome.Done? ==> rows == CellUpdated(old(rows), row, column, value).value
    {
      if row >= |rows| {
        return Raised(OutOfRange);
      }
      var c := ColumnOf(column);
      if c.None? {
        return Raised(UnknownField);
      }
      rows := rows[row := With(rows[row], c.value, value)];
      return Done;
    }

    /**
     * `delete_rows`: keeps, in order, the rows whose position is not listed,
     * then renumbers; an empty list or an empty table changes nothing.
     */
    method DeleteRows(positions: seq<int>)
      modifies this
      ensures rows == Deleted(old(rows), positions)
    {
      if positions == [] || rows == [] {
        return;
      }
      var kept := SurvivingRows(rows, AsSet(positions));
      rows := kept;
      ReNumberIds();
    }

    /** `add_fha_entries`: the records projected onto the schema and appended in order, then renumbered. */
    method AddFhaEntries(records: seq<Record>)
      modifies this
      ensures rows == Appended(old(rows), records)
    {
      if records == [] {
        return;
      }
      rows := rows + ProjectAll(records);
      ReNumberIds();
    }

    /**
     * `update_fha_entries_from_wizard`: the source row replaced by one copy
     * per result, each updated by its result, then renumbered. No results
     * changes nothing; a source position the table does not have raises
     * before anything changes.
     */
    method UpdateFromWizard(source: int, results: seq<Record>) returns (outcome: Outcome)
      modifies this
      ensures outcome.Raised? <==> Expanded(old(rows), source, results).None?
      ensures outcome.Raised? ==> rows == old(rows)
      ensures outcome.Done? ==> rows == Expanded(old(rows), source, results).value
    {
      if results == [] {
        return Done;
      }
      if !(0 <= source < |rows|) {
        return Raised(OutOfRange);
      }
      var derived := DeriveRows(rows[source], results);
      ghost var spliced := Splice(rows, source, derived);
      rows := rows[..source] + derived + rows[source + 1..];
      assert rows == spliced;
      ReNumberIds();
      return Done;
    }

    /** `re_number_ids`: row i gets identifier FHA-pad3(i+1); nothing else changes. */
    method ReNumberIds()
      modifies this
      ensures rows == Renumbered(old(rows))
    {
      if |rows| == 0 {
        return;
      }
      var i := 0;
      while i < |rows|
        invariant 0 <= i <= |rows| == |old(rows)|
        invariant forall k :: 0 <= k < i ==> rows[k] == old(rows)[k].(id := FormatId(k + 1))
        invariant forall k :: i <= k < |rows| ==> rows[k] == old(rows)[k]
      {
        rows := rows[i := rows[i].(id := FormatId(i + 1))];
        i := i + 1;
      }
    }
  }

  /** The rows whose position is not doomed, in order: the list `delete_rows` keeps. */
  method SurvivingRows(rows: seq<Entry>, doomed: set<int>) returns (kept: seq<Entry>)
    ensures kept == Survivors(rows, doomed)
  {
    ghost var spared := Spared(doomed);
    kept := [];
    var i := 0;
    while i < |rows|
      invariant 0 <= i <= |rows|
      invariant kept == Select(rows[..i], spared)
    {
      SelectExtend(rows, spared, i);
      assert spared(i) == (i !in doomed);
      if i !in doomed {
        kept := kept + [rows[i]];
      }
      i := i + 1;
    }
    assert rows[..|rows|] == rows;
  }

  // ---------------------------------------------------------------------------
  // New project
  // ---------------------------------------------------------------------------

  /** The skeleton items as the dictionaries the register appends. */
  function SkeletonRecords(entries: seq<Skeleton>): (records: seq<Record>)
    ensures |records| == |entries|
  {
    seq(|entries|, j requires 0 <= j < |entries| => SkeletonRecord(entries[j]))
  }

  /**
   * `new_project`: the register emptied and refilled from the skeleton items;
   * returns the new row count.
   */
  method NewProject(model: Register, entries: seq<Skeleton>) returns (total: nat)
    modifies model
    ensures model.rows == Appended([], SkeletonRecords(entries))
    ensures total == |entries|
  {
    model.rows := [];
    model.AddFhaEntries(SkeletonRecords(entries));
    total := |model.rows|;
  }

  /**
   * A new project holds one numbered row per skeleton item, in order, with
   * the item's five values and every analysis column empty.
   */
  lemma {:induction false} NewProjectTable(entries: seq<Skeleton>)
    ensures var r := Appended([], SkeletonRecords(entries));
      && |r| == |entries|
      && Numbered(r)
      && forall j :: 0 <= j < |entries| ==> SkeletonShaped(r[j].(id := ""), entries[j])
  {
    var records := SkeletonRecords(entries);
    var r := Appended([], records);
    if entries != [] {
      forall j | 0 <= j < |entries| ensures SkeletonShaped(r[j].(id := ""), entries[j]) {
        SkeletonProjected(entries[j]);
        assert ([] + ProjectAll(records))[j] == Project(SkeletonRecord(entries[j]));
      }
    }
  }

  // ---------------------------------------------------------------------------
  // Filtered read
  // ---------------------------------------------------------------------------

  /**
   * The row filter of `get_fha_data`. An empty filter value means the filter
   * was not given (Python treats "" like None there). The category must match
   * exactly; the function name must occur, ignoring ASCII case, in one of the
   * three function levels.
   */
  predicate RowMatches(e: Entry, hazardCategory: string, functionName: string)
  {
    && (hazardCategory == "" || e.category == hazardCategory)
    && (functionName == ""
        || ContainsIgnoringCase(e.level1, functionName)
        || ContainsIgnoringCase(e.level2, functionName)
        || ContainsIgnoringCase(e.level3, functionName))
  }

  /** The positions of `rows` whose row passes the filter. */
  function Matching(rows: seq<Entry>, hazardCategory: string, functionName: string): nat -> bool
  {
    (p: nat) => p < |rows| && RowMatches(rows[p], hazardCategory, functionName)
  }

  /** `get_fha_data`: the rows that pass the filter, in table order. */
  function GetFhaData(rows: seq<Entry>, hazardCategory: string, functionName: string): (r: seq<Entry>)
    ensures forall j :: 0 <= j < |r| ==> r[j] in rows && RowMatches(r[j], hazardCategory, functionName)
  {
    var keep := Matching(rows, hazardCategory, functionName);
    var ps := Positions(|rows|, keep);
    assert forall j :: 0 <= j < |ps| ==> ps[j] in ps;
    Select(rows, keep)
  }

  /**
   * The filtered read is exactly the matching rows as an order-preserving
   * subsequence: every row it returns matches, every matching row is in it,
   * in table order; with neither filter it is the whole table.
   */
  lemma {:induction false} GetFhaDataExact(rows: seq<Entry>, hazardCategory: string, functionName: string)
    ensures var keep := Matching(rows, hazardCategory, functionName);
      SubsequenceAt(GetFhaData(rows, hazardCategory, functionName), rows, Positions(|rows|, keep))
    ensures forall i :: 0 <= i < |rows| && RowMatches(rows[i], hazardCategory, functionName) ==>
      rows[i] in GetFhaData(rows, hazardCategory, functionName)
    ensures hazardCategory == "" && functionName == "" ==> GetFhaData(rows, hazardCategory, functionName) == rows
  {
    var keep := Matching(rows, hazardCategory, functionName);
    var ps := Positions(|rows|, keep);
    var r := GetFhaData(rows, hazardCategory, functionName);
    SelectIsSubsequence(rows, keep);
    forall i | 0 <= i < |rows| && RowMatches(rows[i], hazardCategory, functionName) ensures rows[i] in r {
      assert keep(i);
      var k :| 0 <= k < |ps| && ps[k] == i;
      assert r[k] == rows[i];
    }
    if hazardCategory == "" && functionName == "" {
      SelectEverything(rows, keep);
    }
  }

  // ---------------------------------------------------------------------------
  // Dashboard
  // ---------------------------------------------------------------------------

  /**
   * `get_dashboard_data`: nothing to analyse for an empty table; otherwise
   * the KPIs, the cross-analysis (table and summary, or nothing analysed
   * yet) and the sunburst (nothing when no row is drawn).
   */
  datatype Dashboard =
    | NoData
    | Dashboard(kpis: Aggregation.Kpis, cross: Aggregation.CrossAnalysis, sunburst: Option<seq<Aggregation.FunctionNode>>)

  function GetDashboardData(rows: seq<Entry>): (d: Dashboard)
    ensures d.NoData? <==> rows == []
    ensures d.Dashboard? ==> (d.sunburst.None? <==> forall e :: e in rows ==> !Aggregation.IsDrawn()(e))
    ensures d.Dashboard? ==> (d.cross.NothingAnalyzed? <==> forall e :: e in rows ==> e.level1 == "" || e.category == "")
  {
    if rows == [] then NoData
    else Dashboard(Aggregation.GetKpis(rows), Aggregation.AnalyzeCross(rows), Aggregation.FunctionSunburst(rows))
  }
}
