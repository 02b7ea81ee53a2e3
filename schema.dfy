/**
 * The fixed table schema of the hazard register: the twelve columns in table
 * order, an entry as one text cell per column, the raw records that the
 * register receives from its callers (name-to-text dictionaries), and the
 * ARP4761 failure-condition classifications in their canonical order.
 */
module Schema {
  import opened Wrappers

  /** The twelve schema columns, in table order. */
  datatype Column =
    | Id                  // 编号, derived by renumbering
    | Level1              // 一级功能
    | Level2              // 二级功能
    | Level3              // 三级功能
    | FunctionType        // 功能类型
    | FlightPhase         // 飞行阶段
    | FailureState        // 失效状态
    | AircraftEffect      // 对于飞行器的影响
    | AirspaceEffect      // 对于地面/空域的影响
    | GroundCrewEffect    // 对于地面控制组的影响
    | HazardCategory      // 危害性分类
    | Rationale           // 理由/备注

  /** One register row: every schema column holds text, "" when empty. */
  datatype Entry = Entry(
    id: string, level1: string, level2: string, level3: string,
    functionType: string, flightPhase: string, failureState: string,
    aircraftEffect: string, airspaceEffect: string, groundCrewEffect: string,
    category: string, rationale: string)

  /** A row as callers hand it over: column name to text, any keys at all. */
  type Record = map<string, string>

  const Columns: seq<Column> := [Id, Level1, Level2, Level3, FunctionType, FlightPhase,
    FailureState, AircraftEffect, AirspaceEffect, GroundCrewEffect, HazardCategory, Rationale]

  const IdName := "编号"
  const Level1Name := "一级功能"
  const Level2Name := "二级功能"
  const Level3Name := "三级功能"
  const FunctionTypeName := "功能类型"
  const FlightPhaseName := "飞行阶段"
  const FailureStateName := "失效状态"
  const AircraftEffectName := "对于飞行器的影响"
  const AirspaceEffectName := "对于地面/空域的影响"
  const GroundCrewEffectName := "对于地面控制组的影响"
  const HazardCategoryName := "危害性分类"
  const RationaleName := "理由/备注"

  /** The column header the table uses for `c`. */
  function ColumnName(c: Column): string
  {
    match c
    case Id => IdName
    case Level1 => Level1Name
    case Level2 => Level2Name
    case Level3 => Level3Name
    case FunctionType => FunctionTypeName
    case FlightPhase => FlightPhaseName
    case FailureState => FailureStateName
    case AircraftEffect => AircraftEffectName
    case AirspaceEffect => AirspaceEffectName
    case GroundCrewEffect => GroundCrewEffectName
    case HazardCategory => HazardCategoryName
    case Rationale => RationaleName
  }

  /**
   * The header row of the table: the column names in schema order. Each
   * header reads back as its own column, so no header is repeated.
   */
  function ColumnNames(): (names: seq<string>)
    ensures |names| == |Columns| == 12
    ensures forall i :: 0 <= i < |Columns| ==> names[i] == ColumnName(Columns[i])
    ensures forall i :: 0 <= i < |names| ==> ColumnOf(names[i]) == Some(Columns[i])
    ensures forall i, j :: 0 <= i < j < |names| ==> names[i] != names[j]
  {
    HeadersReadBack();
    seq(|Columns|, i requires 0 <= i < |Columns| => ColumnName(Columns[i]))
  }

  /** Every header in the schema order reads back as the column at its place. */
  lemma {:induction false} HeadersReadBack()
    ensures forall i :: 0 <= i < |Columns| ==> ColumnOf(ColumnName(Columns[i])) == Some(Columns[i])
  {
    forall i | 0 <= i < |Columns|
      ensures ColumnOf(ColumnName(Columns[i])) == Some(Columns[i])
    {
      ColumnOfName(Columns[i]);
    }
  }

  lemma {:induction false} ColumnsComplete(c: Column)
    ensures c in Columns
  {
    match c
    case Id => assert Columns[0] == c;
    case Level1 => assert Columns[1] == c;
    case Level2 => assert Columns[2] == c;
    case Level3 => assert Columns[3] == c;
    case FunctionType => assert Columns[4] == c;
    case FlightPhase => assert Columns[5] == c;
    case FailureState => assert Columns[6] == c;
    case AircraftEffect => assert Columns[7] == c;
    case AirspaceEffect => assert Columns[8] == c;
    case GroundCrewEffect => assert Columns[9] == c;
    case HazardCategory => assert Columns[10] == c;
    case Rationale => assert Columns[11] == c;
  }

  /**
   * The column a header names, if it is a schema column: the membership test
   * `column_name in dataframe.columns` on a table that has exactly the schema.
   */
  function ColumnOf(name: string): (r: Option<Column>)
    ensures r.Some? ==> ColumnName(r.value) == name
    ensures r.None? <==> forall c: Column :: ColumnName(c) != name
  {
    if name == IdName then Some(Id)
    else if name == Level1Name then Some(Level1)
    else if name == Level2Name then Some(Level2)
    else if name == Level3Name then Some(Level3)
    else if name == FunctionTypeName then Some(FunctionType)
    else if name == FlightPhaseName then Some(FlightPhase)
    else if name == FailureStateName then Some(FailureState)
    else if name == AircraftEffectName then Some(AircraftEffect)
    else if name == AirspaceEffectName then Some(AirspaceEffect)
    else if name == GroundCrewEffectName then Some(GroundCrewEffect)
    else if name == HazardCategoryName then Some(HazardCategory)
    else if name == RationaleName then Some(Rationale)
    else None
  }

  /** Looking up a column's own header finds that column. */
  lemma {:induction false} ColumnOfName(c: Column)
    ensures ColumnOf(ColumnName(c)) == Some(c)
  {
    match c
    case Id =>
    case Level1 =>
    case Level2 =>
    case Level3 =>
    case FunctionType =>
    case FlightPhase =>
    case FailureState =>
    case AircraftEffect =>
    case AirspaceEffect =>
    case GroundCrewEffect =>
    case HazardCategory =>
    case Rationale =>
  }

  /** Distinct columns have distinct headers, so a header determines its column. */
  lemma {:induction false} ColumnNameInjective(c: Column, d: Column)
    requires ColumnName(c) == ColumnName(d)
    ensures c == d
  {
    ColumnOfName(c);
    ColumnOfName(d);
  }

  /** The text in column `c` of `e`. */
  function Get(e: Entry, c: Column): string
  {
    match c
    case Id => e.id
    case Level1 => e.level1
    case Level2 => e.level2
    case Level3 => e.level3
    case FunctionType => e.functionType
    case FlightPhase => e.flightPhase
    case FailureState => e.failureState
    case AircraftEffect => e.aircraftEffect
    case AirspaceEffect => e.airspaceEffect
    case GroundCrewEffect => e.groundCrewEffect
    case HazardCategory => e.category
    case Rationale => e.rationale
  }

  /** Every field but the identifier reads the same whatever the identifier is. */
  lemma GetIgnoresId(e: Entry, c: Column)
    requires c != Id
    ensures Get(e, c) == Get(e.(id := ""), c)
  {
  }

  /** Two entries that agree on every column are the same entry. */
  lemma {:induction false} EntryExtensionality(a: Entry, b: Entry)
    requires forall c: Column :: Get(a, c) == Get(b, c)
    ensures a == b
  {
    assert Get(a, Id) == Get(b, Id) && Get(a, Level1) == Get(b, Level1);
    assert Get(a, Level2) == Get(b, Level2) && Get(a, Level3) == Get(b, Level3);
    assert Get(a, FunctionType) == Get(b, FunctionType) && Get(a, FlightPhase) == Get(b, FlightPhase);
    assert Get(a, FailureState) == Get(b, FailureState) && Get(a, AircraftEffect) == Get(b, AircraftEffect);
    assert Get(a, AirspaceEffect) == Get(b, AirspaceEffect) && Get(a, GroundCrewEffect) == Get(b, GroundCrewEffect);
    assert Get(a, HazardCategory) == Get(b, HazardCategory) && Get(a, Rationale) == Get(b, Rationale);
  }

  /** `e` with the cell in column `c` overwritten by `v` (a `loc[row, column] = v` write). */
  function With(e: Entry, c: Column, v: string): (r: Entry)
    ensures Get(r, c) == v
    ensures forall d: Column :: d != c ==> Get(r, d) == Get(e, d)
  {
    match c
    case Id => e.(id := v)
    case Level1 => e.(level1 := v)
    case Level2 => e.(level2 := v)
    case Level3 => e.(level3 := v)
    case FunctionType => e.(functionType := v)
    case FlightPhase => e.(flightPhase := v)
    case FailureState => e.(failureState := v)
    case AircraftEffect => e.(aircraftEffect := v)
    case AirspaceEffect => e.(airspaceEffect := v)
    case GroundCrewEffect => e.(groundCrewEffect := v)
    case HazardCategory => e.(category := v)
    case Rationale => e.(rationale := v)
  }

  /** The value a record gives for column `c`, "" when it has no such key. */
  function Cell(r: Record, c: Column): string
  {
    if ColumnName(c) in r then r[ColumnName(c)] else ""
  }

  /**
   * A record reindexed onto the schema: keys outside the schema are dropped and
   * every schema column the record lacks becomes "" (reindex + fillna('')).
   */
  function Project(r: Record): (e: Entry)
    ensures forall c: Column :: Get(e, c) == (if ColumnName(c) in r then r[ColumnName(c)] else "")
  {
    Entry(Cell(r, Id), Cell(r, Level1), Cell(r, Level2), Cell(r, Level3),
      Cell(r, FunctionType), Cell(r, FlightPhase), Cell(r, FailureState),
      Cell(r, AircraftEffect), Cell(r, AirspaceEffect), Cell(r, GroundCrewEffect),
      Cell(r, HazardCategory), Cell(r, Rationale))
  }

  /** The entry whose every cell is "": what an empty record `{}` becomes. */
  const Blank := Entry("", "", "", "", "", "", "", "", "", "", "", "")

  /** The value the override record gives for `c`, else the source row's own. */
  function Pick(src: Entry, r: Record, c: Column): string
  {
    if ColumnName(c) in r then r[ColumnName(c)] else Get(src, c)
  }

  /**
   * A copy of `src` updated by record `r` (pandas `Series.update` of a row by
   * a dictionary): the schema columns `r` names take its values, every other
   * column keeps the source's value, and keys outside the schema are ignored.
   */
  function Override(src: Entry, r: Record): (e: Entry)
    ensures forall c: Column :: Get(e, c) == (if ColumnName(c) in r then r[ColumnName(c)] else Get(src, c))
  {
    Entry(Pick(src, r, Id), Pick(src, r, Level1), Pick(src, r, Level2), Pick(src, r, Level3),
      Pick(src, r, FunctionType), Pick(src, r, FlightPhase), Pick(src, r, FailureState),
      Pick(src, r, AircraftEffect), Pick(src, r, AirspaceEffect), Pick(src, r, GroundCrewEffect),
      Pick(src, r, HazardCategory), Pick(src, r, Rationale))
  }

  /** An entry exported as a record (one `to_dict` row): exactly the twelve headers. */
  function ToRecord(e: Entry): (r: Record)
    ensures forall c: Column :: ColumnName(c) in r && r[ColumnName(c)] == Get(e, c)
    ensures forall k :: k in r ==> ColumnOf(k).Some?
  {
    map[IdName := e.id, Level1Name := e.level1, Level2Name := e.level2, Level3Name := e.level3,
        FunctionTypeName := e.functionType, FlightPhaseName := e.flightPhase,
        FailureStateName := e.failureState, AircraftEffectName := e.aircraftEffect,
        AirspaceEffectName := e.airspaceEffect, GroundCrewEffectName := e.groundCrewEffect,
        HazardCategoryName := e.category, RationaleName := e.rationale]
  }

  /**
   * One function-skeleton item: the three function levels, the function type
   * and one flight phase. It is what the architecture dialog produces per
   * checked (leaf, phase) cell and what a new project is built from.
   */
  datatype Skeleton = Skeleton(level1: string, level2: string, level3: string,
                               functionType: string, flightPhase: string)

  /** A skeleton item as the five-key dictionary the register appends. */
  function SkeletonRecord(s: Skeleton): (r: Record)
    ensures forall k :: k in r ==> ColumnOf(k).Some?
  {
    map[Level1Name := s.level1, Level2Name := s.level2, Level3Name := s.level3,
        FunctionTypeName := s.functionType, FlightPhaseName := s.flightPhase]
  }

  /** An entry whose five skeleton columns hold `s`'s values and whose every other column is "". */
  ghost predicate SkeletonShaped(e: Entry, s: Skeleton)
  {
    && e.level1 == s.level1 && e.level2 == s.level2 && e.level3 == s.level3
    && e.functionType == s.functionType && e.flightPhase == s.flightPhase
    && e.id == "" && e.failureState == "" && e.aircraftEffect == "" && e.airspaceEffect == ""
    && e.groundCrewEffect == "" && e.category == "" && e.rationale == ""
  }

  /** A skeleton item lands in its five columns; every other column, the identifier included, is "". */
  lemma {:induction false} SkeletonProjected(s: Skeleton)
    ensures SkeletonShaped(Project(SkeletonRecord(s)), s)
  {
    SkeletonKeys(s);
    SkeletonValues(s);
    ProjectFiveKeys(SkeletonRecord(s), s);
  }

  /** The schema columns a skeleton item does not name. */
  lemma {:induction false} SkeletonKeys(s: Skeleton)
    ensures var r := SkeletonRecord(s);
      && IdName !in r && FailureStateName !in r && AircraftEffectName !in r && AirspaceEffectName !in r
      && GroundCrewEffectName !in r && HazardCategoryName !in r && RationaleName !in r
  {
  }

  /** The schema columns a skeleton item names, with their values. */
  lemma {:induction false} SkeletonValues(s: Skeleton)
    ensures var r := SkeletonRecord(s);
      && Level1Name in r && r[Level1Name] == s.level1
      && Level2Name in r && r[Level2Name] == s.level2
      && Level3Name in r && r[Level3Name] == s.level3
      && FunctionTypeName in r && r[FunctionTypeName] == s.functionType
      && FlightPhaseName in r && r[FlightPhaseName] == s.flightPhase
  {
  }

  lemma {:induction false} ProjectFiveKeys(r: Record, s: Skeleton)
    requires && Level1Name in r && r[Level1Name] == s.level1
      && Level2Name in r && r[Level2Name] == s.level2
      && Level3Name in r && r[Level3Name] == s.level3
      && FunctionTypeName in r && r[FunctionTypeName] == s.functionType
      && FlightPhaseName in r && r[FlightPhaseName] == s.flightPhase
    requires && IdName !in r && FailureStateName !in r && AircraftEffectName !in r
      && AirspaceEffectName !in r && GroundCrewEffectName !in r && HazardCategoryName !in r
      && RationaleName !in r
    ensures SkeletonShaped(Project(r), s)
  {
  }

  /** Importing an exported row gives back the same entry. */
  lemma {:induction false} ProjectToRecord(e: Entry)
    ensures Project(ToRecord(e)) == e
  {
    EntryExtensionality(Project(ToRecord(e)), e);
  }

  /** Projecting twice is projecting once: a projected row exports to a record that re-imports unchanged. */
  lemma {:induction false} ProjectIdempotent(r: Record)
    ensures Project(ToRecord(Project(r))) == Project(r)
  {
    ProjectToRecord(Project(r));
  }

  /** An override by a record with no schema keys leaves the source row as it is. */
  lemma {:induction false} OverrideWithoutSchemaKeys(src: Entry, r: Record)
    requires forall k :: k in r ==> ColumnOf(k).None?
    ensures Override(src, r) == src
  {
    forall c: Column ensures Get(Override(src, r), c) == Get(src, c) {
      assert ColumnName(c) !in r;
    }
    EntryExtensionality(Override(src, r), src);
  }

  /**
   * A row that agrees with `src` overridden by `r` on every column but the
   * identifier is that override of `src` carrying the row's own identifier.
   */
  lemma {:induction false} OverrideRenumbered(e: Entry, src: Entry, r: Record)
    requires IdName !in r
    requires forall c: Column :: c != Id ==> Get(e, c) == Pick(src, r, c)
    ensures e == Override(src.(id := e.id), r)
  {
    var o := Override(src.(id := e.id), r);
    forall c: Column ensures Get(e, c) == Get(o, c) {
      if c != Id {
        assert Get(src.(id := e.id), c) == Get(src, c);
      }
    }
    EntryExtensionality(e, o);
  }

  // ---------------------------------------------------------------------------
  // ARP4761 failure-condition classifications
  // ---------------------------------------------------------------------------

  const Unset := ""
  const Catastrophic := "灾难的 (Catastrophic)"
  const Hazardous := "危险的 (Hazardous)"
  const Major := "严重的 (Major)"
  const Minor := "轻微的 (Minor)"
  const NoSafetyEffect := "无安全影响 (No Safety Effect)"

  /** The classification list in canonical order: unset first, then most to least severe. */
  const Arp4761Categories: seq<string> := [Unset, Catastrophic, Hazardous, Major, Minor, NoSafetyEffect]

  /** The five classifications proper (everything but unset), in canonical order. */
  const SeverityLevels: seq<string> := Arp4761Categories[1..]

  /** The two most severe classifications, the "high risk" ones. */
  predicate IsHighRisk(category: string)
  {
    category == Catastrophic || category == Hazardous
  }

  /** The text of a label before its first space (`label.split(' ')[0]`). */
  function ShortLabel(text: string): (s: string)
    ensures s <= text
    ensures ' ' !in s
    ensures |s| < |text| ==> text[|s|] == ' '
  {
    if text == [] || text[0] == ' ' then [] else [text[0]] + ShortLabel(text[1..])
  }

  /** The severity levels are pairwise distinct and none of them is unset. */
  lemma {:induction false} SeverityLevelsDistinct()
    ensures |SeverityLevels| == 5
    ensures SeverityLevels == [Catastrophic, Hazardous, Major, Minor, NoSafetyEffect]
    ensures forall i, j :: 0 <= i < j < |SeverityLevels| ==> SeverityLevels[i] != SeverityLevels[j]
    ensures Unset !in SeverityLevels
  {
    assert Catastrophic[0] != Hazardous[0] && Catastrophic[0] != Major[0];
    assert Catastrophic[0] != Minor[0] && Catastrophic[0] != NoSafetyEffect[0];
    assert Hazardous[0] != Major[0] && Hazardous[0] != Minor[0] && Hazardous[0] != NoSafetyEffect[0];
    assert Major[0] != Minor[0] && Major[0] != NoSafetyEffect[0] && Minor[0] != NoSafetyEffect[0];
  }
}
