/**
 * The multi-project web service: an in-memory store of projects, each with
 * its own desktop-style register, and the endpoints that guard and forward to
 * it. An HTTP error is a `Reply` other than `Ok`: 404 for an unknown project
 * or entry, 400 for an index list that does not parse, 500 for an exception
 * the endpoint does not catch.
 */
module ProjectStore {
  import opened Wrappers
  import opened Schema
  import opened Table
  import opened Indices
  import opened Analyses
  import opened Aggregation
  import CoreRegister

  datatype Reply<T> = Ok(value: T) | NotFound | BadRequest | ServerError

  /** One stored project: its name, its own register and its creation time. */
  datatype Project = Project(name: string, model: CoreRegister.Register, createdAt: int)

  // ---------------------------------------------------------------------------
  // Updating one entry
  // ---------------------------------------------------------------------------

  /** The fields of an update request; None is a field the request leaves alone. */
  datatype EntryUpdate = EntryUpdate(
    level1: Option<string>, level2: Option<string>, level3: Option<string>,
    functionType: Option<string>, flightPhase: Option<string>, failureState: Option<string>,
    aircraftEffect: Option<string>, airspaceEffect: Option<string>,
    groundCrewEffect: Option<string>, category: Option<string>, rationale: Option<string>)

  /** The value the request gives for column `c`; the identifier is never part of a request. */
  function Requested(u: EntryUpdate, c: Column): Option<string>
  {
    match c
    case Id => None
    case Level1 => u.level1
    case Level2 => u.level2
    case Level3 => u.level3
    case FunctionType => u.functionType
    case FlightPhase => u.flightPhase
    case FailureState => u.failureState
    case AircraftEffect => u.aircraftEffect
    case AirspaceEffect => u.airspaceEffect
    case GroundCrewEffect => u.groundCrewEffect
    case HazardCategory => u.category
    case Rationale => u.rationale
  }

  function Choose(o: Option<string>, current: string): string
  {
    if o.Some? then o.value else current
  }

  /** The row after the request: every field it gives is written, every other cell kept. */
  function Written(e: Entry, u: EntryUpdate): (r: Entry)
    ensures forall c: Column :: Get(r, c) == Choose(Requested(u, c), Get(e, c))
  {
    Entry(e.id, Choose(u.level1, e.level1), Choose(u.level2, e.level2), Choose(u.level3, e.level3),
      Choose(u.functionType, e.functionType), Choose(u.flightPhase, e.flightPhase),
      Choose(u.failureState, e.failureState), Choose(u.aircraftEffect, e.aircraftEffect),
      Choose(u.airspaceEffect, e.airspaceEffect), Choose(u.groundCrewEffect, e.groundCrewEffect),
      Choose(u.category, e.category), Choose(u.rationale, e.rationale))
  }

  /**
   * The row as the endpoint actually leaves it: the airspace-effect and
   * rationale values are written under the request model's own field names,
   * which are not table columns, so those two cells never change.
   */
  function WrittenAsWritten(e: Entry, u: EntryUpdate): (r: Entry)
    ensures r.airspaceEffect == e.airspaceEffect && r.rationale == e.rationale
  {
    Written(e, u.(airspaceEffect := None, rationale := None))
  }

  /** A request that gives a new airspace effect is lost as written and kept once corrected. */
  lemma {:induction false} AirspaceUpdateLost(e: Entry, u: EntryUpdate)
    requires u.airspaceEffect.Some? && u.airspaceEffect.value != e.airspaceEffect
    ensures WrittenAsWritten(e, u).airspaceEffect != u.airspaceEffect.value
    ensures Written(e, u).airspaceEffect == u.airspaceEffect.value
  {
    assert Get(Written(e, u), AirspaceEffect) == u.airspaceEffect.value;
  }

  /** The row cell by cell, one requested field at a time in the request's field order. */
  method WriteFields(e: Entry, u: EntryUpdate) returns (r: Entry)
    ensures r == Written(e, u)
  {
    r := e;
    for k := 0 to |Columns|
      invariant forall c: Column ::
        Get(r, c) == (if c in Columns[..k] then Choose(Requested(u, c), Get(e, c)) else Get(e, c))
    {
      var c := Columns[k];
      assert Columns[..k + 1] == Columns[..k] + [c];
      match Requested(u, c)
      case Some(v) => r := With(r, c, v);
      case None =>
    }
    forall c: Column ensures Get(r, c) == Get(Written(e, u), c) {
      ColumnsComplete(c);
      assert Columns[..|Columns|] == Columns;
    }
    EntryExtensionality(r, Written(e, u));
  }

  // ---------------------------------------------------------------------------
  // The wizard endpoint
  // ---------------------------------------------------------------------------

  /**
   * The wizard endpoint as written: past the position guard, assembling the
   * response reads two attributes the request model does not have, so any
   * non-empty result list fails before the register is touched.
   */
  function WizardAsWritten(rows: seq<Entry>, source: int, results: seq<Analysis>): (r: Reply<seq<Entry>>)
    ensures r.Ok? ==> r.value == rows
    ensures r.Ok? <==> source < |rows| && results == []
  {
    if source >= |rows| then NotFound
    else if results != [] then ServerError
    else Ok(rows)
  }

  /**
   * The wizard endpoint as intended: 404 for a position at or past the end;
   * empty results change nothing; otherwise the source row is replaced by
   * one derived row per result (a negative position fails the row lookup).
   */
  function WizardOutcome(rows: seq<Entry>, source: int, results: seq<Analysis>): (r: Reply<seq<Entry>>)
    ensures r.NotFound? <==> source >= |rows|
    ensures r.ServerError? <==> source < 0 && results != []
    ensures r.Ok? && results != [] ==> |r.value| == |rows| - 1 + |results|
  {
    if source >= |rows| then NotFound
    else if results == [] then Ok(rows)
    else if source < 0 then ServerError
    else
      ExpandedShape(rows, source, AnalysisRecords(results));
      Ok(Expanded(rows, source, AnalysisRecords(results)).value)
  }

  /**
   * Every valid non-empty request fails as written; once corrected the
   * derived rows carry the source row's function and phase with each
   * result's six analysis fields, and the other rows keep their content.
   */
  lemma {:induction false} WizardFinding(rows: seq<Entry>, source: nat, results: seq<Analysis>)
    requires source < |rows| && results != []
    ensures WizardAsWritten(rows, source, results) == ServerError
    ensures var r := WizardOutcome(rows, source, results);
      && r.Ok?
      && Numbered(r.value)
      && (forall i :: 0 <= i < source ==> r.value[i].(id := "") == rows[i].(id := ""))
      && (forall i :: source + |results| <= i < |r.value| ==>
            r.value[i].(id := "") == rows[i - |results| + 1].(id := ""))
      && forall j :: 0 <= j < |results| ==>
           Carries(r.value[source + j], rows[source].(id := r.value[source + j].id), results[j])
  {
    var records := AnalysisRecords(results);
    ExpandedShape(rows, source, records);
    var r := Expanded(rows, source, records).value;
    forall j | 0 <= j < |results|
      ensures Carries(r[source + j], rows[source].(id := r[source + j].id), results[j])
    {
      DerivedRowCarries(rows, source, results, j);
    }
  }

  /** Derived row `j` of a splice is the source row overwritten by result `j`. */
  lemma {:induction false} DerivedRowCarries(rows: seq<Entry>, source: nat, results: seq<Analysis>, j: nat)
    requires source < |rows| && j < |results|
    ensures Expanded(rows, source, AnalysisRecords(results)).Some?
    ensures var r := Expanded(rows, source, AnalysisRecords(results)).value;
      && source + j < |r|
      && Carries(r[source + j], rows[source].(id := r[source + j].id), results[j])
  {
    var records := AnalysisRecords(results);
    ExpandedShape(rows, source, records);
    var e := Expanded(rows, source, records).value[source + j];
    assert records[j] == AnalysisRecord(results[j]);
    AnalysisKeys(results[j]);
    OverrideRenumbered(e, rows[source], records[j]);
    AnalysisOverride(rows[source].(id := e.id), results[j]);
  }

  /** The response's echo of the results: one six-key dictionary per result. */
  function WizardEcho(results: seq<Analysis>): seq<Record>
  {
    AnalysisRecords(results)
  }

  // ---------------------------------------------------------------------------
  // The store
  // ---------------------------------------------------------------------------

  datatype ProjectInfo = ProjectInfo(id: string, name: string, createdAt: int)

  /** The KPI, sunburst and cross-analysis answers. */
  datatype CrossAnswer = CrossAnswer(matrix: seq<MatrixRow>, summary: Option<Summary>)

  class Store {
    var projects: map<string, Project>

    /** No two projects share a register. */
    ghost predicate Valid()
      reads this
    {
      forall a, b :: a in projects && b in projects && a != b ==> projects[a].model != projects[b].model
    }

    /** The registers reachable from the store. */
    ghost function Models(id: string): set<object>
      reads this
    {
      if id in projects then {projects[id].model} else {}
    }

    constructor()
      ensures projects == map[] && Valid()
    {
      projects := map[];
    }

    /**
     * `create_project`: a new entry under `id` (the generated identifier,
     * supplied by the caller) with its own empty register; nothing else
     * changes.
     */
    method CreateProject(id: string, name: string, createdAt: int) returns (info: ProjectInfo)
      requires Valid()
      modifies this
      ensures Valid()
      ensures id in projects && fresh(projects[id].model)
      ensures projects[id].name == name && projects[id].createdAt == createdAt
      ensures projects[id].model.rows == [] && projects[id].model.nextId == 1
      ensures forall k :: k in old(projects) && k != id ==> k in projects && projects[k] == old(projects)[k]
      ensures projects.Keys == old(projects).Keys + {id}
      ensures info == ProjectInfo(id, name, createdAt)
    {
      var model := new CoreRegister.Register();
      projects := projects[id := Project(name, model, createdAt)];
      info := ProjectInfo(id, name, createdAt);
    }

    /** `delete_project`: 404 for an unknown id; otherwise only that key is removed. */
    method DeleteProject(id: string) returns (reply: Reply<()>)
      requires Valid()
      modifies this
      ensures Valid()
      ensures reply.NotFound? <==> id !in old(projects)
      ensures reply.Ok? <==> id in old(projects)
      ensures projects == old(projects) - {id}
    {
      if id !in projects {
        return NotFound;
      }
      projects := projects - {id};
      return Ok(());
    }

    /** `get_project_model`: the project's register, or 404. */
    function GetProjectModel(id: string): (r: Reply<CoreRegister.Register>)
      reads this
      ensures r.NotFound? <==> id !in projects
      ensures r.Ok? ==> id in projects && r.value == projects[id].model
    {
      if id in projects then Ok(projects[id].model) else NotFound
    }

    /** `new_project`: the project's register emptied, its counter back to 1. */
    method NewProject(id: string) returns (reply: Reply<()>)
      requires Valid()
      modifies Models(id)
      ensures reply.NotFound? <==> id !in projects
      ensures reply.Ok? ==> projects[id].model.rows == [] && projects[id].model.nextId == 1
    {
      if id !in projects {
        return NotFound;
      }
      projects[id].model.NewProject();
      return Ok(());
    }

    /**
     * `update_entry`: 404 for an unknown project or a position at or past
     * the end, with nothing changed; otherwise that one row gets every field
     * the request gives, with no renumbering and nothing else changed.
     */
    method UpdateEntry(id: string, index: nat, u: EntryUpdate) returns (reply: Reply<()>)
      requires Valid()
      modifies Models(id)
      ensures reply.NotFound? <==> id !in projects || index >= |old(projects[id].model.rows)|
      ensures reply.NotFound? ==> id !in projects || unchanged(projects[id].model)
      ensures reply.Ok? ==>
        && projects[id].model.rows == old(projects[id].model.rows)[index := Written(old(projects[id].model.rows)[index], u)]
        && projects[id].model.nextId == old(projects[id].model.nextId)
    {
      if id !in projects {
        return NotFound;
      }
      var model := projects[id].model;
      if index >= |model.rows| {
        return NotFound;
      }
      var row := WriteFields(model.rows[index], u);
      model.rows := model.rows[index := row];
      return Ok(());
    }

    /**
     * `delete_entries`: 404 for an unknown project; 400 when some
     * comma-separated part is not an integer, before the register is
     * touched; 500 when a parsed position is not in the table (the label
     * drop raises and nothing changes); otherwise those rows are dropped.
     */
    method DeleteEntries(id: string, text: string) returns (reply: Reply<seq<int>>)
      requires Valid()
      modifies Models(id)
      ensures reply.NotFound? <==> id !in projects
      ensures id in projects ==> (reply.BadRequest? <==> ParseIndices(text).None?)
      ensures reply.BadRequest? ==> unchanged(projects[id].model)
      ensures reply.ServerError? <==>
        id in projects && ParseIndices(text).Some? && Dropped(old(projects[id].model.rows), ParseIndices(text).value).None?
      ensures reply.ServerError? ==>
        projects[id].model.rows == old(projects[id].model.rows) && projects[id].model.nextId == old(projects[id].model.nextId)
      ensures reply.Ok? ==>
        && reply.value == ParseIndices(text).value
        && projects[id].model.rows == Dropped(old(projects[id].model.rows), reply.value).value
        && projects[id].model.nextId == |projects[id].model.rows| + 1
    {
      if id !in projects {
        return NotFound;
      }
      var model := projects[id].model;
      var indices := ParseIndices(text);
      if indices.None? {
        return BadRequest;
      }
      var outcome := model.DeleteRows(indices.value);
      if outcome.Raised? {
        return ServerError;
      }
      return Ok(indices.value);
    }

    /** The functional-architecture endpoint: the register emptied, then the skeleton appended. */
    method CreateFromArchitect(id: string, skeleton: seq<Record>) returns (reply: Reply<nat>)
      requires Valid()
      modifies Models(id)
      ensures reply.NotFound? <==> id !in projects
      ensures reply.Ok? ==> reply.value == |skeleton| && projects[id].model.rows == Appended([], skeleton)
      ensures reply.Ok? ==> projects[id].model.nextId == |skeleton| + 1
    {
      if id !in projects {
        return NotFound;
      }
      var model := projects[id].model;
      model.NewProject();
      model.AddFhaEntries(skeleton);
      return Ok(|skeleton|);
    }

    /**
     * `run_analysis_wizard`, with the result fields read under their real
     * names: 404 for an unknown project or a position at or past the end;
     * otherwise the register becomes the corrected outcome and the response
     * echoes the results.
     */
    method RunAnalysisWizard(id: string, source: int, results: seq<Analysis>) returns (reply: Reply<seq<Record>>)
      requires Valid()
      modifies Models(id)
      ensures reply.NotFound? <==> id !in projects || source >= |old(projects[id].model.rows)|
      ensures id in projects ==>
        var outcome := WizardOutcome(old(projects[id].model.rows), source, results);
        && (reply.ServerError? <==> outcome.ServerError?)
        && (reply.Ok? <==> outcome.Ok?)
        && (reply.Ok? ==> reply.value == WizardEcho(results) && projects[id].model.rows == outcome.value)
        && (reply.Ok? && results != [] ==> projects[id].model.nextId == |outcome.value| + 1)
        && (!reply.Ok? || results == [] ==> unchanged(projects[id].model))
    {
      if id !in projects {
        return NotFound;
      }
      var model := projects[id].model;
      if source >= |model.rows| {
        return NotFound;
      }
      var echo := AssembleEcho(results);
      if results == [] {
        return Ok(echo);
      }
      if source < 0 {
        return ServerError;
      }
      var outcome := model.UpdateFromWizard(source, echo);
      return Ok(echo);
    }

    /** `get_dashboard_kpis`: 404, or the KPI block of the project's rows. */
    function GetDashboardKpis(id: string): (r: Reply<Kpis>)
      reads this, Models(id)
      ensures r.NotFound? <==> id !in projects
      ensures r.Ok? ==> r.value == GetKpis(projects[id].model.rows)
    {
      if id in projects then Ok(GetKpis(projects[id].model.rows)) else NotFound
    }

    /** `get_sunburst_data`: 404, or the fixed-ring sunburst of the project's rows. */
    method GetSunburstData(id: string) returns (r: Reply<seq<SunburstNode>>)
      ensures r.NotFound? <==> id !in projects
      ensures r.Ok? ==> r.value == Sunburst(projects[id].model.rows)
    {
      if id !in projects {
        return NotFound;
      }
      var nodes := BuildSunburst(projects[id].model.rows);
      return Ok(nodes);
    }

    /**
     * `get_cross_analysis_data`: 404; an empty matrix and the fixed message
     * when no row is analyzed; otherwise the matrix rows and the summary.
     */
    method GetCrossAnalysisData(id: string) returns (r: Reply<CrossAnswer>)
      ensures r.NotFound? <==> id !in projects
      ensures r.Ok? ==>
        var analyzed := Keep(projects[id].model.rows, IsAnalyzed());
        if analyzed == [] then r.value == CrossAnswer([], None)
        else r.value == CrossAnswer(MatrixRows(analyzed), Some(Summarize(analyzed)))
    {
      if id !in projects {
        return NotFound;
      }
      var analyzed := Keep(projects[id].model.rows, IsAnalyzed());
      if analyzed == [] {
        return Ok(CrossAnswer([], None));
      }
      var matrix := BuildMatrixRows(analyzed);
      return Ok(CrossAnswer(matrix, Some(Summarize(analyzed))));
    }
  }

  /** The response's list of result dictionaries, assembled one result at a time. */
  method AssembleEcho(results: seq<Analysis>) returns (echo: seq<Record>)
    ensures echo == WizardEcho(results)
  {
    echo := [];
    for j := 0 to |results|
      invariant echo == AnalysisRecords(results)[..j]
    {
      echo := echo + [AnalysisRecord(results[j])];
    }
    assert AnalysisRecords(results)[..|results|] == AnalysisRecords(results);
  }
}
