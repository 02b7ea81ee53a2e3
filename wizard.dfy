/**
 * The guided analysis wizard of the desktop application: choose failure
 * modes for one register row, then, one mode at a time, its effects and its
 * hazard assessment; the last step assembles one analysis per chosen mode.
 */
module Wizard {
  import opened Wrappers
  import opened Schema
  import opened Analyses
  import FailureModes

  /** The three effect texts entered for one mode. */
  datatype Effects = Effects(aircraft: string, airspace: string, groundCrew: string)

  /** The category and the rationale entered for one mode. */
  datatype Hazard = Hazard(category: string, rationale: string)

  const BlankEffects := Effects("", "", "")
  const BlankHazard := Hazard("", "")

  /**
   * One press of Next on a per-mode page (`validatePage`): the inputs are
   * saved into the slot of the current mode if there is such a slot; then
   * the page moves on to the next mode and stays (done == false), or, at
   * the last of the `n` modes, it is done.
   */
  function Step<T>(slots: seq<T>, index: nat, n: int, x: T): (r: (seq<T>, nat, bool))
  {
    var saved := if index < |slots| then slots[index := x] else slots;
    if index < n - 1 then (saved, index + 1, false) else (saved, index, true)
  }

  /** Pressing Next once per input, in order, starting from a page state. */
  function Steps<T>(slots: seq<T>, index: nat, n: int, xs: seq<T>): (r: (seq<T>, nat, seq<bool>))
    decreases |xs|
  {
    if xs == [] then (slots, index, [])
    else
      var s := Step(slots, index, n, xs[0]);
      var rest := Steps(s.0, s.1, n, xs[1..]);
      (rest.0, rest.1, [s.2] + rest.2)
  }

  /**
   * From mode `i` on, one input per remaining mode fills the remaining slots
   * with those inputs, leaves the earlier ones alone, stops at the last
   * mode, and only the last press finishes the page.
   */
  lemma {:induction false} StepsFrom<T>(slots: seq<T>, i: nat, xs: seq<T>)
    requires i < |slots| && |xs| == |slots| - i
    ensures var r := Steps(slots, i, |slots|, xs);
      && r.0 == slots[..i] + xs
      && r.1 == |slots| - 1
      && |r.2| == |xs| && r.2[|xs| - 1]
      && forall k :: 0 <= k < |xs| - 1 ==> !r.2[k]
    decreases |xs|
  {
    var n := |slots|;
    var s := Step(slots, i, n, xs[0]);
    if i == n - 1 {
      assert s == (slots[i := xs[0]], i, true);
      assert xs[1..] == [];
      assert slots[i := xs[0]] == slots[..i] + xs;
    } else {
      assert s == (slots[i := xs[0]], i + 1, false);
      StepsFrom(slots[i := xs[0]], i + 1, xs[1..]);
      assert slots[i := xs[0]][..i + 1] + xs[1..] == slots[..i] + xs;
    }
  }

  /** A whole pass over a page freshly initialised for n >= 1 modes records the n inputs exactly. */
  lemma {:induction false} FullPass<T>(blank: T, xs: seq<T>)
    requires |xs| >= 1
    ensures var r := Steps(seq(|xs|, _ => blank), 0, |xs|, xs);
      r.0 == xs && r.1 == |xs| - 1 && |r.2| == |xs| && r.2[|xs| - 1] && forall k :: 0 <= k < |xs| - 1 ==> !r.2[k]
  {
    StepsFrom(seq(|xs|, _ => blank), 0, xs);
  }

  /** The analysis of mode i, read off the three pages. */
  function AnalysisAt(modes: seq<string>, effects: seq<Effects>, hazards: seq<Hazard>, i: nat): Analysis
    requires i < |modes| && i < |effects| && i < |hazards|
  {
    Analysis(modes[i], effects[i].aircraft, effects[i].airspace, effects[i].groundCrew,
             hazards[i].category, hazards[i].rationale)
  }

  class AnalysisWizard {
    /** The function type of the row under analysis (`通用` when the row has none). */
    var functionType: string
    var selectedModes: seq<string>
    var effects: seq<Effects>
    var hazards: seq<Hazard>
    var effectsIndex: nat
    var hazardIndex: nat
    var finalResults: seq<Analysis>

    /** A wizard for one register row, every page empty. */
    constructor(row: Record)
      ensures functionType == (if FunctionTypeName in row then row[FunctionTypeName] else FailureModes.GenericType)
      ensures selectedModes == [] && effects == [] && hazards == [] && finalResults == []
      ensures effectsIndex == 0 && hazardIndex == 0
    {
      functionType := if FunctionTypeName in row then row[FunctionTypeName] else FailureModes.GenericType;
      selectedModes := [];
      effects := [];
      hazards := [];
      effectsIndex := 0;
      hazardIndex := 0;
      finalResults := [];
    }

    /** The modes the first page lists: sorted, each once, generic and type-specific together. */
    function Offered(): (modes: seq<string>)
      reads this
      ensures forall m :: m in modes <==> m in FailureModes.Lookup(FailureModes.GenericType) || m in FailureModes.Lookup(functionType)
    {
      FailureModes.Offered(functionType)
    }

    /** The user's selection on the first page, in selection order. */
    method SelectModes(modes: seq<string>)
      requires forall m :: m in modes ==> m in Offered()
      modifies this
      ensures selectedModes == modes
      ensures functionType == old(functionType) && effects == old(effects) && hazards == old(hazards)
      ensures effectsIndex == old(effectsIndex) && hazardIndex == old(hazardIndex) && finalResults == old(finalResults)
    {
      selectedModes := modes;
    }

    /** The first page lets the user go on exactly when some mode is selected. */
    function IsComplete(): (ok: bool)
      reads this
      ensures ok <==> exists m :: m in selectedModes
    {
      assert selectedModes != [] ==> selectedModes[0] in selectedModes;
      |selectedModes| > 0
    }

    /** Entering the effects page: a blank slot per selected mode, the first mode current. */
    method InitEffects()
      modifies this
      ensures effects == seq(|selectedModes|, _ => BlankEffects) && effectsIndex == 0
      ensures functionType == old(functionType) && selectedModes == old(selectedModes) && hazards == old(hazards)
      ensures hazardIndex == old(hazardIndex) && finalResults == old(finalResults)
    {
      effects := seq(|selectedModes|, _ => BlankEffects);
      effectsIndex := 0;
    }

    /** Next on the effects page with the texts entered for the current mode. */
    method ValidateEffects(current: Effects) returns (done: bool)
      modifies this
      ensures (effects, effectsIndex, done) == Step(old(effects), old(effectsIndex), |selectedModes|, current)
      ensures functionType == old(functionType) && selectedModes == old(selectedModes) && hazards == old(hazards)
      ensures hazardIndex == old(hazardIndex) && finalResults == old(finalResults)
    {
      if effectsIndex < |effects| {
        effects := effects[effectsIndex := current];
      }
      if effectsIndex < |selectedModes| - 1 {
        effectsIndex := effectsIndex + 1;
        return false;
      }
      return true;
    }

    /** Entering the hazard page: a blank slot per selected mode, the first mode current. */
    method InitHazards()
      modifies this
      ensures hazards == seq(|selectedModes|, _ => BlankHazard) && hazardIndex == 0
      ensures functionType == old(functionType) && selectedModes == old(selectedModes) && effects == old(effects)
      ensures effectsIndex == old(effectsIndex) && finalResults == old(finalResults)
    {
      hazards := seq(|selectedModes|, _ => BlankHazard);
      hazardIndex := 0;
    }

    /**
     * Next on the hazard page; at the last mode the final results are
     * assembled as well, and an outcome other than Done is the IndexError
     * that assembling raises.
     */
    method ValidateHazards(current: Hazard) returns (done: bool, outcome: Outcome)
      modifies this
      ensures (hazards, hazardIndex, done) == Step(old(hazards), old(hazardIndex), |selectedModes|, current)
      ensures !done ==> outcome == Done && finalResults == old(finalResults)
      ensures done ==> Assembled(outcome)
      ensures functionType == old(functionType) && selectedModes == old(selectedModes) && effects == old(effects)
      ensures effectsIndex == old(effectsIndex)
    {
      if hazardIndex < |hazards| {
        hazards := hazards[hazardIndex := current];
      }
      if hazardIndex < |selectedModes| - 1 {
        hazardIndex := hazardIndex + 1;
        return false, Done;
      }
      outcome := AssembleFinalResults();
      return true, outcome;
    }

    /**
     * What assembling leaves behind: one analysis per selected mode, in
     * order, as far as both the effects and the hazards reach; it raises
     * exactly when one of them falls short of the modes.
     */
    ghost predicate Assembled(outcome: Outcome)
      reads this
    {
      var k := if |effects| < |hazards| then |effects| else |hazards|;
      && (outcome.Raised? <==> k < |selectedModes|)
      && (outcome.Raised? ==> outcome.failure == OutOfRange)
      && |finalResults| == (if k < |selectedModes| then k else |selectedModes|)
      && forall i :: 0 <= i < |finalResults| ==> finalResults[i] == AnalysisAt(selectedModes, effects, hazards, i)
    }

    /** `_assemble_final_results`. */
    method AssembleFinalResults() returns (outcome: Outcome)
      modifies this
      ensures Assembled(outcome)
      ensures functionType == old(functionType) && selectedModes == old(selectedModes)
      ensures effects == old(effects) && hazards == old(hazards)
      ensures effectsIndex == old(effectsIndex) && hazardIndex == old(hazardIndex)
    {
      finalResults := [];
      var i := 0;
      while i < |selectedModes|
        invariant i <= |selectedModes| && i <= |effects| && i <= |hazards|
        invariant |finalResults| == i
        invariant functionType == old(functionType) && selectedModes == old(selectedModes)
        invariant effects == old(effects) && hazards == old(hazards)
        invariant effectsIndex == old(effectsIndex) && hazardIndex == old(hazardIndex)
        invariant forall j :: 0 <= j < i ==> finalResults[j] == AnalysisAt(selectedModes, effects, hazards, j)
      {
        if i >= |effects| || i >= |hazards| {
          return Raised(OutOfRange);
        }
        finalResults := finalResults + [AnalysisAt(selectedModes, effects, hazards, i)];
        i := i + 1;
      }
      return Done;
    }
  }

  /** The analyses of a wizard run in which every page was filled for the same modes. */
  function Results(modes: seq<string>, effects: seq<Effects>, hazards: seq<Hazard>): (rs: seq<Analysis>)
    requires |effects| == |modes| && |hazards| == |modes|
    ensures |rs| == |modes|
    ensures forall i :: 0 <= i < |rs| ==>
      && rs[i].failureState == modes[i]
      && rs[i].aircraftEffect == effects[i].aircraft && rs[i].airspaceEffect == effects[i].airspace
      && rs[i].groundCrewEffect == effects[i].groundCrew
      && rs[i].category == hazards[i].category && rs[i].rationale == hazards[i].rationale
  {
    seq(|modes|, i requires 0 <= i < |modes| => AnalysisAt(modes, effects, hazards, i))
  }

  /**
   * A complete run: for n >= 1 selected modes, entering one set of effects
   * and one hazard per mode ends both pages with exactly those inputs, and
   * so `Results` pairs each mode with its own effects and hazard.
   */
  lemma {:induction false} CompleteRun(modes: seq<string>, es: seq<Effects>, hs: seq<Hazard>)
    requires |modes| >= 1 && |es| == |modes| && |hs| == |modes|
    ensures Steps(seq(|modes|, _ => BlankEffects), 0, |modes|, es).0 == es
    ensures Steps(seq(|modes|, _ => BlankHazard), 0, |modes|, hs).0 == hs
  {
    FullPass(BlankEffects, es);
    FullPass(BlankHazard, hs);
  }
}
