/**
 * The read-only risk aggregation the dashboards show: KPI counts, the
 * function x severity cross-tabulation with its summary and "top function",
 * and the function -> severity breakdown drawn as a sunburst.
 *
 * pandas' `groupby` and `crosstab` sort their keys, so functions come in
 * ascending code-point order (`SortedSet`); cross-tab columns come in the
 * canonical order of the ARP4761 classifications.
 */
module Aggregation {
  import opened Wrappers
  import opened Schema
  import opened Ordering

  // ---------------------------------------------------------------------------
  // Counting and filtering rows
  // ---------------------------------------------------------------------------

  /** How many rows satisfy `p`. */
  function Count(rows: seq<Entry>, p: Entry -> bool): (n: nat)
    ensures n <= |rows|
  {
    if rows == [] then 0
    else Count(rows[..|rows| - 1], p) + (if p(rows[|rows| - 1]) then 1 else 0)
  }

  /** The positions whose row satisfies `p`. */
  ghost function Where(rows: seq<Entry>, p: Entry -> bool): set<nat>
  {
    set i: nat | i < |rows| && p(rows[i])
  }

  /** The count is the number of positions whose row satisfies `p`. */
  lemma {:induction false} CountIsCardinality(rows: seq<Entry>, p: Entry -> bool)
    ensures Count(rows, p) == |Where(rows, p)|
  {
    if rows != [] {
      var n := |rows| - 1;
      CountIsCardinality(rows[..n], p);
      var before := Where(rows[..n], p);
      assert before == set i: nat | i < n && p(rows[i]);
      if p(rows[n]) {
        assert Where(rows, p) == before + {n};
      } else {
        assert Where(rows, p) == before;
      }
    }
  }

  /** The rows that satisfy `p`, in order (a boolean-mask selection). */
  function Keep(rows: seq<Entry>, p: Entry -> bool): (r: seq<Entry>)
    ensures |r| == Count(rows, p)
    ensures forall e :: e in r <==> e in rows && p(e)
  {
    if rows == [] then []
    else
      var last := rows[|rows| - 1];
      assert rows == rows[..|rows| - 1] + [last];
      Keep(rows[..|rows| - 1], p) + (if p(last) then [last] else [])
  }

  /** Predicates that agree on every row count the same. */
  lemma {:induction false} CountSame(rows: seq<Entry>, p: Entry -> bool, q: Entry -> bool)
    requires forall e :: e in rows ==> p(e) == q(e)
    ensures Count(rows, p) == Count(rows, q)
  {
    if rows != [] {
      var n := |rows| - 1;
      assert forall e :: e in rows[..n] ==> e in rows;
      CountSame(rows[..n], p, q);
      assert rows[n] in rows;
    }
  }

  function Or(p: Entry -> bool, q: Entry -> bool): Entry -> bool
  {
    (e: Entry) => p(e) || q(e)
  }

  function And(p: Entry -> bool, q: Entry -> bool): Entry -> bool
  {
    (e: Entry) => p(e) && q(e)
  }

  /** Counts of predicates no row satisfies together add up to the count of either. */
  lemma {:induction false} CountDisjoint(rows: seq<Entry>, p: Entry -> bool, q: Entry -> bool)
    requires forall e :: e in rows && p(e) ==> !q(e)
    ensures Count(rows, p) + Count(rows, q) == Count(rows, Or(p, q))
  {
    if rows != [] {
      var n := |rows| - 1;
      assert forall e :: e in rows[..n] ==> e in rows;
      CountDisjoint(rows[..n], p, q);
      assert rows[n] in rows;
    }
  }

  /** Counting within a selection is counting both conditions at once. */
  lemma {:induction false} CountKeep(rows: seq<Entry>, p: Entry -> bool, q: Entry -> bool)
    ensures Count(Keep(rows, p), q) == Count(rows, And(p, q))
  {
    if rows != [] {
      var n := |rows| - 1;
      var last := rows[n];
      CountKeep(rows[..n], p, q);
      var kept := Keep(rows[..n], p);
      if p(last) {
        assert (kept + [last])[..|kept|] == kept;
      } else {
        assert kept + [] == kept;
      }
    }
  }

  // ---------------------------------------------------------------------------
  // Row predicates
  // ---------------------------------------------------------------------------

  /** A failure state has been entered. */
  function FailureStated(): Entry -> bool
  {
    (e: Entry) => e.failureState != ""
  }

  /** The row's classification is exactly `c`. */
  function HasCategory(c: string): Entry -> bool
  {
    (e: Entry) => e.category == c
  }

  /** The row names a first-level function and carries a classification. */
  function IsAnalyzed(): Entry -> bool
  {
    (e: Entry) => e.level1 != "" && e.category != ""
  }

  /** An analyzed row whose classification is not "No Safety Effect": what the sunburst draws. */
  function IsDrawn(): Entry -> bool
  {
    (e: Entry) => e.level1 != "" && e.category != "" && e.category != NoSafetyEffect
  }

  /** The row belongs to first-level function `f`. */
  function OfFunction(f: string): Entry -> bool
  {
    (e: Entry) => e.level1 == f
  }

  /** The row falls in cross-tab cell (`f`, `c`). */
  function InCell(f: string, c: string): Entry -> bool
  {
    (e: Entry) => e.level1 == f && e.category == c
  }

  /** The row belongs to `f` and its classification is one of `cols`. */
  function InCells(f: string, cols: seq<string>): Entry -> bool
  {
    (e: Entry) => e.level1 == f && e.category in cols
  }

  /** The row is Catastrophic or Hazardous. */
  function HighRisk(): Entry -> bool
  {
    (e: Entry) => IsHighRisk(e.category)
  }

  // ---------------------------------------------------------------------------
  // KPIs
  // ---------------------------------------------------------------------------

  datatype Kpis = Kpis(totalItems: nat, catastrophicCount: nat, hazardousCount: nat)

  /**
   * The KPI block: rows with a failure state entered, and the rows whose
   * classification is exactly Catastrophic, resp. Hazardous, over all rows.
   */
  function GetKpis(rows: seq<Entry>): (k: Kpis)
    ensures k.totalItems <= |rows|
    ensures k.catastrophicCount + k.hazardousCount <= |rows|
  {
    CountDisjoint(rows, HasCategory(Catastrophic), HasCategory(Hazardous));
    Kpis(Count(rows, FailureStated()),
         Count(rows, HasCategory(Catastrophic)),
         Count(rows, HasCategory(Hazardous)))
  }

  /** Each KPI is the number of positions whose row qualifies; all are 0 on an empty register. */
  lemma {:induction false} KpisExact(rows: seq<Entry>)
    ensures GetKpis(rows).totalItems == |set i: nat | i < |rows| && rows[i].failureState != ""|
    ensures GetKpis(rows).catastrophicCount == |set i: nat | i < |rows| && rows[i].category == Catastrophic|
    ensures GetKpis(rows).hazardousCount == |set i: nat | i < |rows| && rows[i].category == Hazardous|
    ensures rows == [] ==> GetKpis(rows) == Kpis(0, 0, 0)
  {
    CountIsCardinality(rows, FailureStated());
    CountIsCardinality(rows, HasCategory(Catastrophic));
    CountIsCardinality(rows, HasCategory(Hazardous));
    assert Where(rows, FailureStated()) == set i: nat | i < |rows| && rows[i].failureState != "";
    assert Where(rows, HasCategory(Catastrophic)) == set i: nat | i < |rows| && rows[i].category == Catastrophic;
    assert Where(rows, HasCategory(Hazardous)) == set i: nat | i < |rows| && rows[i].category == Hazardous;
  }

  /** A row satisfying `p` is counted exactly when one exists. */
  lemma {:induction false} CountPositive(rows: seq<Entry>, p: Entry -> bool)
    ensures Count(rows, p) > 0 <==> exists e :: e in rows && p(e)
  {
    if rows != [] {
      var n := |rows| - 1;
      CountPositive(rows[..n], p);
      assert rows == rows[..n] + [rows[n]];
    }
  }

  // ---------------------------------------------------------------------------
  // Sums
  // ---------------------------------------------------------------------------

  function Sum(xs: seq<nat>): nat
  {
    if xs == [] then 0 else Sum(xs[..|xs| - 1]) + xs[|xs| - 1]
  }

  /** The number of rows of function `f` in each of the classifications `cols`. */
  function CellCounts(rows: seq<Entry>, f: string, cols: seq<string>): (counts: seq<nat>)
    ensures |counts| == |cols|
  {
    seq(|cols|, j requires 0 <= j < |cols| => Count(rows, InCell(f, cols[j])))
  }

  /**
   * Over distinct classifications, the per-classification counts of one
   * function add up to the number of its rows classified as any of them.
   */
  lemma {:induction false} SumCellCounts(rows: seq<Entry>, f: string, cols: seq<string>)
    requires forall i, j :: 0 <= i < j < |cols| ==> cols[i] != cols[j]
    ensures Sum(CellCounts(rows, f, cols)) == Count(rows, InCells(f, cols))
  {
    if cols == [] {
      CountPositive(rows, InCells(f, cols));
    } else {
      var n := |cols| - 1;
      var c := cols[n];
      var front := cols[..n];
      SumCellCounts(rows, f, front);
      assert CellCounts(rows, f, cols)[..n] == CellCounts(rows, f, front);
      assert c !in front;
      CountDisjoint(rows, InCells(f, front), InCell(f, c));
      assert forall x :: x in cols <==> x in front || x == c by { assert cols == front + [c]; }
      CountSame(rows, Or(InCells(f, front), InCell(f, c)), InCells(f, cols));
    }
  }

  // ---------------------------------------------------------------------------
  // Distinct values of a column
  // ---------------------------------------------------------------------------

  function Levels1(rows: seq<Entry>): (r: seq<string>)
    ensures forall f :: f in r <==> exists e :: e in rows && e.level1 == f
  {
    var r := seq(|rows|, i requires 0 <= i < |rows| => rows[i].level1);
    assert forall e :: e in rows ==> e.level1 in r by {
      forall e | e in rows ensures e.level1 in r {
        var i :| 0 <= i < |rows| && rows[i] == e;
        assert r[i] == e.level1;
      }
    }
    r
  }

  function Categories(rows: seq<Entry>): (r: seq<string>)
    ensures forall c :: c in r <==> exists e :: e in rows && e.category == c
  {
    var r := seq(|rows|, i requires 0 <= i < |rows| => rows[i].category);
    assert forall e :: e in rows ==> e.category in r by {
      forall e | e in rows ensures e.category in r {
        var i :| 0 <= i < |rows| && rows[i] == e;
        assert r[i] == e.category;
      }
    }
    r
  }

  /** The distinct first-level functions, in the sorted order `groupby` and `crosstab` use. */
  function FunctionNames(rows: seq<Entry>): (fns: seq<string>)
    ensures StrictlyIncreasing(fns)
    ensures forall f :: f in fns <==> exists e :: e in rows && e.level1 == f
    ensures rows != [] ==> fns != []
  {
    assert rows != [] ==> rows[0].level1 in Levels1(rows);
    SortedSet(Levels1(rows))
  }

  // ---------------------------------------------------------------------------
  // The cross-tabulation
  // ---------------------------------------------------------------------------

  /** `xs` is `ys` with some elements left out, order kept. */
  ghost predicate IsSubsequence(xs: seq<string>, ys: seq<string>)
    decreases |ys|
  {
    xs == [] ||
    (ys != [] &&
     if xs[|xs| - 1] == ys[|ys| - 1] then IsSubsequence(xs[..|xs| - 1], ys[..|ys| - 1])
     else IsSubsequence(xs, ys[..|ys| - 1]))
  }

  /** The labels of `xs` that are non-empty and occur in `cats`, in the order of `xs`. */
  function Present(xs: seq<string>, cats: seq<string>): (r: seq<string>)
    ensures forall c :: c in r <==> c in xs && c != "" && c in cats
    ensures IsSubsequence(r, xs)
  {
    if xs == [] then []
    else
      var n := |xs| - 1;
      var x := xs[n];
      assert xs == xs[..n] + [x];
      var front := Present(xs[..n], cats);
      if x != "" && x in cats then
        assert (front + [x])[..|front|] == front;
        front + [x]
      else
        assert x !in front;
        assert front != [] ==> front[|front| - 1] != x;
        front
  }

  /**
   * The cross-tab columns: the ARP4761 classifications present among the
   * rows, in canonical order (the unset label never is a column).
   */
  function PresentColumns(rows: seq<Entry>): (cols: seq<string>)
    ensures forall c :: c in cols <==> c in SeverityLevels && exists e :: e in rows && e.category == c
    ensures IsSubsequence(cols, Arp4761Categories)
  {
    SeverityLevelsDistinct();
    assert Arp4761Categories == [Unset] + SeverityLevels;
    Present(Arp4761Categories, Categories(rows))
  }

  /** The number of rows in cross-tab cell (`f`, `c`). */
  function CrossCount(rows: seq<Entry>, f: string, c: string): nat
  {
    Count(rows, InCell(f, c))
  }

  /** `pd.crosstab(level1, category)` reindexed to the present canonical columns. */
  datatype CrossTab = CrossTab(index: seq<string>, columns: seq<string>, data: seq<seq<nat>>)

  function Tabulate(analyzed: seq<Entry>): (t: CrossTab)
    ensures t.index == FunctionNames(analyzed) && t.columns == PresentColumns(analyzed)
    ensures |t.data| == |t.index|
    ensures forall i :: 0 <= i < |t.data| ==> |t.data[i]| == |t.columns|
  {
    var fns := FunctionNames(analyzed);
    var cols := PresentColumns(analyzed);
    CrossTab(fns, cols, seq(|fns|, i requires 0 <= i < |fns| => CellCounts(analyzed, fns[i], cols)))
  }

  /** The column headers shown: each label up to its first space. */
  function ShortLabels(cols: seq<string>): (labels: seq<string>)
    ensures |labels| == |cols|
    ensures forall j :: 0 <= j < |cols| ==> labels[j] <= cols[j] && ' ' !in labels[j]
  {
    seq(|cols|, j requires 0 <= j < |cols| => ShortLabel(cols[j]))
  }

  /**
   * Each cell is the number of positions holding a row of that function and
   * classification, and a function's row adds up to its rows carrying any
   * ARP4761 classification.
   */
  lemma {:induction false} TabulateCells(analyzed: seq<Entry>, i: nat, j: nat)
    requires i < |Tabulate(analyzed).index| && j < |Tabulate(analyzed).columns|
    ensures Tabulate(analyzed).data[i][j] ==
      |set p: nat | p < |analyzed| && analyzed[p].level1 == Tabulate(analyzed).index[i]
                                  && analyzed[p].category == Tabulate(analyzed).columns[j]|
    ensures Sum(Tabulate(analyzed).data[i]) == Count(analyzed, InCells(Tabulate(analyzed).index[i], SeverityLevels))
  {
    var t := Tabulate(analyzed);
    var f, c := t.index[i], t.columns[j];
    CountIsCardinality(analyzed, InCell(f, c));
    assert Where(analyzed, InCell(f, c)) ==
      set p: nat | p < |analyzed| && analyzed[p].level1 == f && analyzed[p].category == c;
    SeverityLevelsDistinct();
    assert forall a, b :: 0 <= a < b < |t.columns| ==> t.columns[a] != t.columns[b] by {
      forall a, b | 0 <= a < b < |t.columns| ensures t.columns[a] != t.columns[b] {
        SubsequenceDistinct(t.columns, Arp4761Categories, a, b);
      }
    }
    SumCellCounts(analyzed, f, t.columns);
    CountSame(analyzed, InCells(f, t.columns), InCells(f, SeverityLevels));
  }

  /** A subsequence of the ARP4761 list holds each label at most once. */
  lemma {:induction false} SubsequenceDistinct(xs: seq<string>, ys: seq<string>, a: nat, b: nat)
    requires IsSubsequence(xs, ys)
    requires forall i, j :: 0 <= i < j < |ys| ==> ys[i] != ys[j]
    requires a < b < |xs|
    ensures xs[a] != xs[b]
    decreases |ys|
  {
    SubsequenceMembers(xs, ys);
    var n := |ys| - 1;
    var m := |xs| - 1;
    if xs[m] == ys[n] {
      SubsequenceMembers(xs[..m], ys[..n]);
      if b == m {
        assert xs[a] in xs[..m];
        assert ys[n] !in ys[..n];
      } else {
        SubsequenceDistinct(xs[..m], ys[..n], a, b);
      }
    } else {
      SubsequenceDistinct(xs, ys[..n], a, b);
    }
  }

  /** Every element of a subsequence is an element of the whole. */
  lemma {:induction false} SubsequenceMembers(xs: seq<string>, ys: seq<string>)
    requires IsSubsequence(xs, ys)
    ensures forall x :: x in xs ==> x in ys
    decreases |ys|
  {
    if xs != [] {
      var n := |ys| - 1;
      var m := |xs| - 1;
      if xs[m] == ys[n] {
        SubsequenceMembers(xs[..m], ys[..n]);
        assert xs == xs[..m] + [xs[m]];
      } else {
        SubsequenceMembers(xs, ys[..n]);
      }
      assert ys == ys[..n] + [ys[n]];
    }
  }

  // ---------------------------------------------------------------------------
  // The summary below the cross-tab
  // ---------------------------------------------------------------------------

  /** The function most of whose rows are high risk, with its two counts. */
  datatype TopFunction = TopFunction(name: string, catastrophicCount: nat, hazardousCount: nat)

  datatype Summary = Summary(highRiskCount: nat, top: Option<TopFunction>)

  /** `cross_tab.loc[f, c]` when `c` is a column, else 0. */
  function ColumnValue(analyzed: seq<Entry>, cols: seq<string>, f: string, c: string): nat
  {
    if c in cols then CrossCount(analyzed, f, c) else 0
  }

  /** `cross_tab[high_risk_cols].sum(axis=1)`: per function, its Catastrophic plus Hazardous cells. */
  function RiskScores(analyzed: seq<Entry>, fns: seq<string>, cols: seq<string>): (scores: seq<nat>)
    ensures |scores| == |fns|
  {
    seq(|fns|, i requires 0 <= i < |fns| =>
      ColumnValue(analyzed, cols, fns[i], Catastrophic) + ColumnValue(analyzed, cols, fns[i], Hazardous))
  }

  /** `idxmax`: the first position holding the largest value. */
  function FirstArgMax(xs: seq<nat>): (k: nat)
    requires xs != []
    ensures k < |xs|
    ensures forall i :: 0 <= i < |xs| ==> xs[i] <= xs[k]
    ensures forall i :: 0 <= i < k ==> xs[i] < xs[k]
  {
    if |xs| == 1 then 0
    else
      var k := FirstArgMax(xs[..|xs| - 1]);
      if xs[|xs| - 1] > xs[k] then |xs| - 1 else k
  }

  /**
   * The high-risk count and, when a Catastrophic or Hazardous column exists,
   * the function with the most such rows (ties to the first in sorted order).
   */
  function Summarize(analyzed: seq<Entry>): Summary
    requires analyzed != []
  {
    var t := Tabulate(analyzed);
    var high := Count(analyzed, HighRisk());
    if Catastrophic in t.columns || Hazardous in t.columns then
      var f := t.index[FirstArgMax(RiskScores(analyzed, t.index, t.columns))];
      Summary(high, Some(TopFunction(f, ColumnValue(analyzed, t.columns, f, Catastrophic),
                                        ColumnValue(analyzed, t.columns, f, Hazardous))))
    else
      Summary(high, None)
  }

  /** Catastrophic plus Hazardous rows of function `f`. */
  function Risk(analyzed: seq<Entry>, f: string): nat
  {
    CrossCount(analyzed, f, Catastrophic) + CrossCount(analyzed, f, Hazardous)
  }

  /** A classification with no column has no rows, so reading it as 0 loses nothing. */
  lemma {:induction false} ColumnValueExact(analyzed: seq<Entry>, f: string, c: string)
    requires c in SeverityLevels
    ensures ColumnValue(analyzed, PresentColumns(analyzed), f, c) == CrossCount(analyzed, f, c)
  {
    if c !in PresentColumns(analyzed) {
      CountPositive(analyzed, InCell(f, c));
    }
  }

  /**
   * The summary counts the Catastrophic and Hazardous rows, and it names a
   * top function exactly when there is at least one such row.
   */
  lemma {:induction false} SummaryHighRisk(analyzed: seq<Entry>)
    requires analyzed != []
    ensures Summarize(analyzed).highRiskCount ==
      Count(analyzed, HasCategory(Catastrophic)) + Count(analyzed, HasCategory(Hazardous))
    ensures Summarize(analyzed).top.None? <==> Summarize(analyzed).highRiskCount == 0
  {
    var t := Tabulate(analyzed);
    SeverityLevelsDistinct();
    CountDisjoint(analyzed, HasCategory(Catastrophic), HasCategory(Hazardous));
    CountSame(analyzed, Or(HasCategory(Catastrophic), HasCategory(Hazardous)), HighRisk());
    CountPositive(analyzed, HighRisk());
    assert Catastrophic in t.columns <==> exists e :: e in analyzed && e.category == Catastrophic;
    assert Hazardous in t.columns <==> exists e :: e in analyzed && e.category == Hazardous;
  }

  /**
   * The top function is a function of the table, its counts are its true
   * Catastrophic and Hazardous counts, no function has more high-risk rows,
   * and every function sorted before it has fewer.
   */
  lemma {:induction false} SummaryTop(analyzed: seq<Entry>)
    requires analyzed != []
    requires Summarize(analyzed).top.Some?
    ensures var top := Summarize(analyzed).top.value;
      && (exists e :: e in analyzed && e.level1 == top.name)
      && top.catastrophicCount == CrossCount(analyzed, top.name, Catastrophic)
      && top.hazardousCount == CrossCount(analyzed, top.name, Hazardous)
      && (forall g :: g in FunctionNames(analyzed) ==> Risk(analyzed, g) <= Risk(analyzed, top.name))
      && (forall g :: g in FunctionNames(analyzed) && Below(g, top.name) ==> Risk(analyzed, g) < Risk(analyzed, top.name))
  {
    var t := Tabulate(analyzed);
    var fns := t.index;
    var scores := RiskScores(analyzed, fns, t.columns);
    var k := FirstArgMax(scores);
    var f := fns[k];
    assert Summarize(analyzed).top.value.name == f;
    assert f in fns;
    RiskScoresExact(analyzed, fns);
    ArgMaxFirstInOrder(fns, scores, k);
    forall g | g in fns ensures Risk(analyzed, g) <= Risk(analyzed, f)
      && (Below(g, f) ==> Risk(analyzed, g) < Risk(analyzed, f))
    {
      var i :| 0 <= i < |fns| && fns[i] == g;
      assert scores[i] == Risk(analyzed, g);
    }
    ColumnValueExact(analyzed, f, Catastrophic);
    ColumnValueExact(analyzed, f, Hazardous);
  }

  /** With the present columns, each score is its function's true high-risk count. */
  lemma {:induction false} RiskScoresExact(analyzed: seq<Entry>, fns: seq<string>)
    ensures forall i :: 0 <= i < |fns| ==> RiskScores(analyzed, fns, PresentColumns(analyzed))[i] == Risk(analyzed, fns[i])
  {
    forall i | 0 <= i < |fns| ensures RiskScores(analyzed, fns, PresentColumns(analyzed))[i] == Risk(analyzed, fns[i]) {
      ColumnValueExact(analyzed, fns[i], Catastrophic);
      ColumnValueExact(analyzed, fns[i], Hazardous);
    }
  }

  /** The first largest score belongs to a name no earlier name in the sorted list ties with. */
  lemma {:induction false} ArgMaxFirstInOrder(fns: seq<string>, scores: seq<nat>, k: nat)
    requires StrictlyIncreasing(fns) && |scores| == |fns| && scores != []
    requires k == FirstArgMax(scores)
    ensures forall i :: 0 <= i < |fns| ==> scores[i] <= scores[k]
    ensures forall i :: 0 <= i < |fns| && Below(fns[i], fns[k]) ==> scores[i] < scores[k]
  {
    forall i | 0 <= i < |fns| && Below(fns[i], fns[k]) ensures scores[i] < scores[k]
    {
      if k <= i {
        BelowIrreflexive(fns[i]);
        assert k < i;
        BelowAsymmetric(fns[i], fns[k]);
      }
    }
  }

  /** The cross-analysis answer: a table and summary, or none when nothing is analyzed yet. */
  datatype CrossAnalysis = NothingAnalyzed | Analysis(table: CrossTab, summary: Summary)

  function AnalyzeCross(rows: seq<Entry>): (a: CrossAnalysis)
    ensures a.NothingAnalyzed? <==> forall e :: e in rows ==> e.level1 == "" || e.category == ""
    ensures a.Analysis? ==> a.table == Tabulate(Keep(rows, IsAnalyzed()))
  {
    var analyzed := Keep(rows, IsAnalyzed());
    assert analyzed != [] ==> analyzed[0] in analyzed;
    if analyzed == [] then NothingAnalyzed else Analysis(Tabulate(analyzed), Summarize(analyzed))
  }

  // ---------------------------------------------------------------------------
  // Sunbursts
  // ---------------------------------------------------------------------------

  /** The ring's classifications, in the order they are drawn. */
  const RingCategories: seq<string> := [Catastrophic, Hazardous, Major, Minor]

  datatype CategoryCount = CategoryCount(category: string, count: nat)

  function Labels(ccs: seq<CategoryCount>): (r: seq<string>)
    ensures |r| == |ccs|
  {
    seq(|ccs|, k requires 0 <= k < |ccs| => ccs[k].category)
  }

  function Total(ccs: seq<CategoryCount>): nat
  {
    if ccs == [] then 0 else Total(ccs[..|ccs| - 1]) + ccs[|ccs| - 1].count
  }

  /** The rows the sunburst draws. */
  function Drawn(rows: seq<Entry>): seq<Entry>
  {
    Keep(rows, IsDrawn())
  }

  lemma LabelsSnoc(ccs: seq<CategoryCount>, cc: CategoryCount)
    ensures Labels(ccs + [cc]) == Labels(ccs) + [cc.category]
  {
  }

  /** Appending the same name to both sides keeps a subsequence one. */
  lemma SubsequenceSnoc(xs: seq<string>, ys: seq<string>, c: string)
    requires IsSubsequence(xs, ys)
    ensures IsSubsequence(xs + [c], ys + [c])
  {
    assert (xs + [c])[..|xs|] == xs;
    assert (ys + [c])[..|ys|] == ys;
  }

  /** Appending a name the subsequence does not hold keeps it a subsequence. */
  lemma SubsequenceSkip(xs: seq<string>, ys: seq<string>, c: string)
    requires IsSubsequence(xs, ys) && c !in xs
    ensures IsSubsequence(xs, ys + [c])
  {
    assert (ys + [c])[..|ys|] == ys;
  }

  /** Function `f`'s slices: the classifications of `cats` it has rows in, in the order of `cats`. */
  function Ring(drawn: seq<Entry>, f: string, cats: seq<string>): (ring: seq<CategoryCount>)
    requires forall i, j :: 0 <= i < j < |cats| ==> cats[i] != cats[j]
    ensures forall c :: c in Labels(ring) <==> c in cats && CrossCount(drawn, f, c) > 0
    ensures IsSubsequence(Labels(ring), cats)
    ensures forall k :: 0 <= k < |ring| ==> ring[k].count == CrossCount(drawn, f, ring[k].category)
  {
    if cats == [] then []
    else
      var n := |cats| - 1;
      var c := cats[n];
      assert cats == cats[..n] + [c];
      var front := Ring(drawn, f, cats[..n]);
      var k := CrossCount(drawn, f, c);
      assert c !in cats[..n];
      if k > 0 then
        LabelsSnoc(front, CategoryCount(c, k));
        SubsequenceSnoc(Labels(front), cats[..n], c);
        front + [CategoryCount(c, k)]
      else
        SubsequenceSkip(Labels(front), cats[..n], c);
        front
  }

  /** One function of the fixed-ring sunburst: its drawn rows and its slices. */
  datatype SunburstNode = SunburstNode(name: string, total: nat, categories: seq<CategoryCount>)

  /** The sunburst data: one node per function with drawn rows, in sorted order. */
  function Sunburst(rows: seq<Entry>): (nodes: seq<SunburstNode>)
  {
    var drawn := Drawn(rows);
    SunburstFor(drawn, FunctionNames(drawn))
  }

  /** One node per listed function, in the order listed. */
  function SunburstFor(drawn: seq<Entry>, fns: seq<string>): (nodes: seq<SunburstNode>)
  {
    assert RingCategories == SeverityLevels[..4] by { SeverityLevelsDistinct(); }
    seq(|fns|, i requires 0 <= i < |fns| =>
      SunburstNode(fns[i], Count(drawn, OfFunction(fns[i])), Ring(drawn, fns[i], RingCategories)))
  }


  /** The ring classifications are pairwise distinct. */
  lemma RingCategoriesDistinct()
    ensures forall i, j :: 0 <= i < j < |RingCategories| ==> RingCategories[i] != RingCategories[j]
  {
    SeverityLevelsDistinct();
    assert RingCategories == SeverityLevels[..4];
  }

  /** Slices of positive counts add up to all the cells they were taken from. */
  lemma {:induction false} RingTotal(drawn: seq<Entry>, f: string, cats: seq<string>)
    requires forall i, j :: 0 <= i < j < |cats| ==> cats[i] != cats[j]
    ensures Total(Ring(drawn, f, cats)) == Sum(CellCounts(drawn, f, cats))
  {
    if cats != [] {
      var n := |cats| - 1;
      RingTotal(drawn, f, cats[..n]);
      assert CellCounts(drawn, f, cats)[..n] == CellCounts(drawn, f, cats[..n]);
      var front := Ring(drawn, f, cats[..n]);
      if CrossCount(drawn, f, cats[n]) > 0 {
        assert (front + [CategoryCount(cats[n], CrossCount(drawn, f, cats[n]))])[..|front|] == front;
      }
    }
  }

  /**
   * The nodes name exactly the functions with drawn rows, in sorted order; a
   * node's total is its slices plus its rows outside the four ring
   * classifications; the slices follow the ring order and show every ring
   * classification the function has rows in.
   */
  lemma {:induction false} SunburstMeaning(rows: seq<Entry>, i: nat)
    requires i < |Sunburst(rows)|
    ensures var node := Sunburst(rows)[i];
      && (exists e :: e in rows && IsDrawn()(e) && e.level1 == node.name)
      && node.total == Total(node.categories)
                       + Count(Drawn(rows), And(OfFunction(node.name), (e: Entry) => e.category !in RingCategories))
      && IsSubsequence(Labels(node.categories), RingCategories)
      && (forall c :: c in Labels(node.categories) <==> c in RingCategories && CrossCount(Drawn(rows), node.name, c) > 0)
  {
    var drawn := Drawn(rows);
    var f := Sunburst(rows)[i].name;
    var outside := And(OfFunction(f), (e: Entry) => e.category !in RingCategories);
    assert f in FunctionNames(drawn);
    var e0 :| e0 in drawn && e0.level1 == f;
    assert e0 in rows && IsDrawn()(e0);
    RingCategoriesDistinct();
    RingTotal(drawn, f, RingCategories);
    SumCellCounts(drawn, f, RingCategories);
    CountDisjoint(drawn, InCells(f, RingCategories), outside);
    CountSame(drawn, Or(InCells(f, RingCategories), outside), OfFunction(f));
  }

  /** The fixed-ring sunburst is empty exactly when no row is drawn. */
  lemma SunburstEmpty(rows: seq<Entry>)
    ensures Sunburst(rows) == [] <==> forall e :: e in rows ==> !IsDrawn()(e)
  {
    var drawn := Drawn(rows);
    assert drawn != [] ==> drawn[0] in drawn;
  }

  /** One function of the API sunburst: its classifications in sorted order with their counts. */
  datatype FunctionNode = FunctionNode(name: string, children: seq<CategoryCount>)

  function Slices(drawn: seq<Entry>, f: string, cats: seq<string>): (ccs: seq<CategoryCount>)
    ensures Labels(ccs) == cats
  {
    seq(|cats|, j requires 0 <= j < |cats| => CategoryCount(cats[j], CrossCount(drawn, f, cats[j])))
  }

  /** A function's groups in `groupby([level1, category])` order: its categories sorted. */
  function Children(drawn: seq<Entry>, f: string): seq<CategoryCount>
  {
    Slices(drawn, f, SortedSet(Categories(Keep(drawn, OfFunction(f)))))
  }

  /** The API sunburst: nothing when no row is drawn, else one node per function in sorted order. */
  function FunctionSunburst(rows: seq<Entry>): (r: Option<seq<FunctionNode>>)
    ensures r.None? <==> forall e :: e in rows ==> !IsDrawn()(e)
    ensures r.Some? ==> |r.value| == |FunctionNames(Drawn(rows))|
  {
    var drawn := Drawn(rows);
    var fns := FunctionNames(drawn);
    assert drawn != [] ==> drawn[0] in drawn;
    if drawn == [] then None
    else Some(seq(|fns|, i requires 0 <= i < |fns| => FunctionNode(fns[i], Children(drawn, fns[i]))))
  }

  lemma {:induction false} SlicesTotal(drawn: seq<Entry>, f: string, cats: seq<string>)
    ensures Total(Slices(drawn, f, cats)) == Sum(CellCounts(drawn, f, cats))
  {
    if cats != [] {
      var n := |cats| - 1;
      SlicesTotal(drawn, f, cats[..n]);
      assert Slices(drawn, f, cats)[..n] == Slices(drawn, f, cats[..n]);
      assert CellCounts(drawn, f, cats)[..n] == CellCounts(drawn, f, cats[..n]);
    }
  }

  /**
   * A function's children are exactly the classifications it has drawn rows
   * in, sorted and each with a positive count, never "No Safety Effect", and
   * their counts add up to all its drawn rows.
   */
  lemma {:induction false} ChildrenMeaning(rows: seq<Entry>, f: string)
    ensures var children := Children(Drawn(rows), f);
      && StrictlyIncreasing(Labels(children))
      && (forall c :: c in Labels(children) <==> exists e :: e in rows && IsDrawn()(e) && e.level1 == f && e.category == c)
      && (forall k :: 0 <= k < |children| ==> children[k].count > 0 && children[k].category != NoSafetyEffect)
      && Total(children) == Count(Drawn(rows), OfFunction(f))
  {
    var drawn := Drawn(rows);
    var cats := SortedSet(Categories(Keep(drawn, OfFunction(f))));
    var children := Children(drawn, f);
    forall k | 0 <= k < |children| ensures children[k].count > 0 && children[k].category != NoSafetyEffect {
      assert cats[k] in cats;
      CountPositive(drawn, InCell(f, cats[k]));
    }
    forall i, j | 0 <= i < j < |cats| ensures cats[i] != cats[j] {
      StrictlyIncreasingDistinct(cats, i, j);
    }
    SlicesTotal(drawn, f, cats);
    SumCellCounts(drawn, f, cats);
    CountSame(drawn, InCells(f, cats), OfFunction(f));
  }

  // ---------------------------------------------------------------------------
  // Building the answers row by row
  // ---------------------------------------------------------------------------

  /** One row of the JSON cross-analysis matrix: the function and its (short label, count) cells. */
  datatype MatrixRow = MatrixRow(name: string, cells: seq<(string, nat)>)

  /** Function `f`'s cells: each present column's short label with the count of `f`'s rows in it. */
  function MatrixCells(analyzed: seq<Entry>, f: string, cols: seq<string>): (cells: seq<(string, nat)>)
    ensures |cells| == |cols|
    ensures forall j :: 0 <= j < |cols| ==> cells[j].0 == ShortLabel(cols[j])
  {
    seq(|cols|, j requires 0 <= j < |cols| => (ShortLabel(cols[j]), CrossCount(analyzed, f, cols[j])))
  }

  /** The matrix rows, one per function of the cross-tab. */
  function MatrixRows(analyzed: seq<Entry>): seq<MatrixRow>
  {
    MatrixRowsFor(analyzed, FunctionNames(analyzed), PresentColumns(analyzed))
  }

  /** The rows of functions `fns` over columns `cols`, in the order of `fns`. */
  function MatrixRowsFor(analyzed: seq<Entry>, fns: seq<string>, cols: seq<string>): seq<MatrixRow>
  {
    seq(|fns|, i requires 0 <= i < |fns| => MatrixRow(fns[i], MatrixCells(analyzed, fns[i], cols)))
  }

  /** Each matrix row carries its function's cells of the cross-tab, under the short column labels. */
  lemma MatrixRowsMeaning(analyzed: seq<Entry>)
    ensures var t := Tabulate(analyzed);
      var matrix := MatrixRows(analyzed);
      && |matrix| == |t.index|
      && forall i :: 0 <= i < |matrix| ==>
           && matrix[i].name == t.index[i]
           && |matrix[i].cells| == |t.columns|
           && forall j :: 0 <= j < |t.columns| ==> matrix[i].cells[j] == (ShortLabel(t.columns[j]), t.data[i][j])
  {
  }

  /** The JSON matrix, row by row and cell by cell. */
  method BuildMatrixRows(analyzed: seq<Entry>) returns (matrix: seq<MatrixRow>)
    ensures matrix == MatrixRows(analyzed)
  {
    matrix := BuildRowsFor(analyzed, FunctionNames(analyzed), PresentColumns(analyzed));
  }

  /** The rows of the listed functions, one at a time. */
  method BuildRowsFor(analyzed: seq<Entry>, fns: seq<string>, cols: seq<string>) returns (matrix: seq<MatrixRow>)
    ensures matrix == MatrixRowsFor(analyzed, fns, cols)
  {
    ghost var spec := MatrixRowsFor(analyzed, fns, cols);
    matrix := [];
    for i := 0 to |fns|
      invariant matrix == spec[..i]
    {
      var cells := BuildCells(analyzed, fns[i], cols);
      assert spec[..i + 1] == spec[..i] + [MatrixRow(fns[i], cells)];
      matrix := matrix + [MatrixRow(fns[i], cells)];
    }
    assert spec[..|fns|] == spec;
  }

  /** One function's row of the matrix, column by column. */
  method BuildCells(analyzed: seq<Entry>, f: string, cols: seq<string>) returns (cells: seq<(string, nat)>)
    ensures cells == MatrixCells(analyzed, f, cols)
  {
    cells := [];
    for j := 0 to |cols|
      invariant cells == MatrixCells(analyzed, f, cols)[..j]
    {
      var c := cols[j];
      cells := cells + [(ShortLabel(c), Count(analyzed, InCell(f, c)))];
    }
    assert MatrixCells(analyzed, f, cols)[..|cols|] == MatrixCells(analyzed, f, cols);
  }

  /** The fixed-ring sunburst, node by node. */
  method BuildSunburst(rows: seq<Entry>) returns (nodes: seq<SunburstNode>)
    ensures nodes == Sunburst(rows)
  {
    var drawn := Drawn(rows);
    nodes := BuildNodes(drawn, FunctionNames(drawn));
  }

  /** The nodes of the listed functions, one at a time. */
  method BuildNodes(drawn: seq<Entry>, fns: seq<string>) returns (nodes: seq<SunburstNode>)
    ensures nodes == SunburstFor(drawn, fns)
  {
    ghost var spec := SunburstFor(drawn, fns);
    nodes := [];
    for i := 0 to |fns|
      invariant nodes == spec[..i]
    {
      var f := fns[i];
      var ring := BuildRing(drawn, f);
      var node := SunburstNode(f, Count(drawn, OfFunction(f)), ring);
      assert spec[..i + 1] == spec[..i] + [node];
      nodes := nodes + [node];
    }
    assert spec[..|fns|] == spec;
  }

  /** One function's slices, classification by classification in ring order. */
  method BuildRing(drawn: seq<Entry>, f: string) returns (ring: seq<CategoryCount>)
    ensures ring == Ring(drawn, f, RingCategories)
  {
    RingCategoriesDistinct();
    ring := [];
    for k := 0 to |RingCategories|
      invariant ring == Ring(drawn, f, RingCategories[..k])
    {
      var c := RingCategories[k];
      assert RingCategories[..k + 1] == RingCategories[..k] + [c];
      var size := CrossCount(drawn, f, c);
      if size > 0 {
        ring := ring + [CategoryCount(c, size)];
      }
    }
    assert RingCategories[..|RingCategories|] == RingCategories;
  }

  /** The API sunburst: for each function, one child per (function, classification) group. */
  method BuildFunctionSunburst(rows: seq<Entry>) returns (r: Option<seq<FunctionNode>>)
    ensures r == FunctionSunburst(rows)
  {
    var drawn := Keep(rows, IsDrawn());
    if drawn == [] {
      return None;
    }
    var fns := FunctionNames(drawn);
    ghost var spec := FunctionSunburst(rows).value;
    var nodes: seq<FunctionNode> := [];
    for i := 0 to |fns|
      invariant nodes == spec[..i]
    {
      var f := fns[i];
      var cats := SortedSet(Categories(Keep(drawn, OfFunction(f))));
      var children: seq<CategoryCount> := [];
      for j := 0 to |cats|
        invariant children == Slices(drawn, f, cats)[..j]
      {
        children := children + [CategoryCount(cats[j], Count(drawn, InCell(f, cats[j])))];
      }
      assert Slices(drawn, f, cats)[..|cats|] == Slices(drawn, f, cats);
      nodes := nodes + [FunctionNode(f, children)];
    }
    assert spec[..|fns|] == spec;
    r := Some(nodes);
  }
}
