/**
 * One wizard result: what the analyst entered for one failure mode. Both the
 * desktop wizard and the web wizard endpoint hand the register a list of
 * these as six-key dictionaries, each of which overrides a copy of the source
 * row.
 */
module Analyses {
  import opened Schema

  datatype Analysis = Analysis(failureState: string, aircraftEffect: string, airspaceEffect: string,
                               groundCrewEffect: string, category: string, rationale: string)

  /** The six-key dictionary of one result. */
  function AnalysisRecord(a: Analysis): (r: Record)
    ensures forall k :: k in r ==> ColumnOf(k).Some?
  {
    map[FailureStateName := a.failureState, AircraftEffectName := a.aircraftEffect,
        AirspaceEffectName := a.airspaceEffect, GroundCrewEffectName := a.groundCrewEffect,
        HazardCategoryName := a.category, RationaleName := a.rationale]
  }

  /** `src` with the six analysis columns taken from `a`; the identifier and the skeleton columns kept. */
  ghost predicate Carries(e: Entry, src: Entry, a: Analysis)
  {
    && e.id == src.id && e.level1 == src.level1 && e.level2 == src.level2 && e.level3 == src.level3
    && e.functionType == src.functionType && e.flightPhase == src.flightPhase
    && e.failureState == a.failureState && e.aircraftEffect == a.aircraftEffect
    && e.airspaceEffect == a.airspaceEffect && e.groundCrewEffect == a.groundCrewEffect
    && e.category == a.category && e.rationale == a.rationale
  }

  /** Overriding a row by a result keeps its identity and skeleton and takes all six analysis fields. */
  lemma {:induction false} AnalysisOverride(src: Entry, a: Analysis)
    ensures Carries(Override(src, AnalysisRecord(a)), src, a)
  {
    AnalysisKeys(a);
    AnalysisValues(a);
    OverrideSixKeys(src, AnalysisRecord(a), a);
  }

  /** The schema columns a result does not name. */
  lemma {:induction false} AnalysisKeys(a: Analysis)
    ensures var r := AnalysisRecord(a);
      && IdName !in r && Level1Name !in r && Level2Name !in r && Level3Name !in r
      && FunctionTypeName !in r && FlightPhaseName !in r
  {
  }

  /** The schema columns a result names, with their values. */
  lemma {:induction false} AnalysisValues(a: Analysis)
    ensures var r := AnalysisRecord(a);
      && FailureStateName in r && r[FailureStateName] == a.failureState
      && AircraftEffectName in r && r[AircraftEffectName] == a.aircraftEffect
      && AirspaceEffectName in r && r[AirspaceEffectName] == a.airspaceEffect
      && GroundCrewEffectName in r && r[GroundCrewEffectName] == a.groundCrewEffect
      && HazardCategoryName in r && r[HazardCategoryName] == a.category
      && RationaleName in r && r[RationaleName] == a.rationale
  {
  }

  lemma {:induction false} OverrideSixKeys(src: Entry, r: Record, a: Analysis)
    requires && FailureStateName in r && r[FailureStateName] == a.failureState
      && AircraftEffectName in r && r[AircraftEffectName] == a.aircraftEffect
      && AirspaceEffectName in r && r[AirspaceEffectName] == a.airspaceEffect
      && GroundCrewEffectName in r && r[GroundCrewEffectName] == a.groundCrewEffect
      && HazardCategoryName in r && r[HazardCategoryName] == a.category
      && RationaleName in r && r[RationaleName] == a.rationale
    requires && IdName !in r && Level1Name !in r && Level2Name !in r && Level3Name !in r
      && FunctionTypeName !in r && FlightPhaseName !in r
    ensures Carries(Override(src, r), src, a)
  {
  }

  /** Every result of a list as its dictionary, in order. */
  function AnalysisRecords(results: seq<Analysis>): (rs: seq<Record>)
    ensures |rs| == |results|
  {
    seq(|results|, j requires 0 <= j < |results| => AnalysisRecord(results[j]))
  }
}
