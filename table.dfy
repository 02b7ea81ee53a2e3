/**
 * The register's table as a value: the specification functions that the two
 * register classes are proved against, and the lemmas that state what every
 * structural operation promises (identifiers renumbered, survivors kept in
 * order, the wizard's splice keeping the rows around the source row).
 */
module Table {
  import opened Wrappers
  import opened Schema
  import opened Ids

  // ---------------------------------------------------------------------------
  // Renumbering
  // ---------------------------------------------------------------------------

  /** Every row's identifier is the one its position calls for: row i is FHA-pad3(i+1). */
  ghost predicate Numbered(rows: seq<Entry>)
  {
    forall i :: 0 <= i < |rows| ==> rows[i].id == FormatId(i + 1)
  }

  /** Two tables of the same length that differ at most in their identifiers. */
  ghost predicate SameExceptIds(a: seq<Entry>, b: seq<Entry>)
  {
    |a| == |b| && forall i :: 0 <= i < |a| ==> a[i].(id := "") == b[i].(id := "")
  }

  /** `re_number_ids`: the same rows, each given the identifier of its position. */
  function Renumbered(rows: seq<Entry>): (r: seq<Entry>)
    ensures Numbered(r) && SameExceptIds(rows, r)
  {
    seq(|rows|, i requires 0 <= i < |rows| => rows[i].(id := FormatId(i + 1)))
  }

  /** Renumbering a numbered table changes nothing, so renumbering twice is renumbering once. */
  lemma {:induction false} RenumberedFixesNumbered(rows: seq<Entry>)
    requires Numbered(rows)
    ensures Renumbered(rows) == rows
  {
    assert forall i :: 0 <= i < |rows| ==> rows[i].(id := FormatId(i + 1)) == rows[i];
  }

  /** Renumbering depends only on what is not an identifier. */
  lemma {:induction false} RenumberedIgnoresIds(a: seq<Entry>, b: seq<Entry>)
    requires SameExceptIds(a, b)
    ensures Renumbered(a) == Renumbered(b)
  {
    forall i | 0 <= i < |a| ensures Renumbered(a)[i] == Renumbered(b)[i] {
      assert a[i].(id := "").(id := FormatId(i + 1)) == b[i].(id := "").(id := FormatId(i + 1));
    }
  }

  /** In a numbered table no two rows share an identifier. */
  lemma {:induction false} NumberedIdsDistinct(rows: seq<Entry>, i: int, j: int)
    requires Numbered(rows)
    requires 0 <= i < |rows| && 0 <= j < |rows| && i != j
    ensures rows[i].id != rows[j].id
  {
    if rows[i].id == rows[j].id { FormatIdInjective(i + 1, j + 1); }
  }

  // ---------------------------------------------------------------------------
  // Loading and appending
  // ---------------------------------------------------------------------------

  /** Records reindexed onto the schema, one entry per record, in order. */
  function ProjectAll(records: seq<Record>): (rows: seq<Entry>)
    ensures |rows| == |records|
    ensures forall i, c :: 0 <= i < |records| ==> Get(rows[i], c) == Cell(records[i], c)
  {
    seq(|records|, i requires 0 <= i < |records| => Project(records[i]))
  }

  /** Exporting a table and loading the export gives the same table back. */
  lemma {:induction false} ProjectAllExported(rows: seq<Entry>)
    ensures ProjectAll(seq(|rows|, i requires 0 <= i < |rows| => ToRecord(rows[i]))) == rows
  {
    var records := seq(|rows|, i requires 0 <= i < |rows| => ToRecord(rows[i]));
    forall i | 0 <= i < |rows| ensures ProjectAll(records)[i] == rows[i] {
      ProjectToRecord(rows[i]);
    }
  }

  /** The table after appending `records` and renumbering (`add_fha_entries`); nothing happens for none. */
  function Appended(rows: seq<Entry>, records: seq<Record>): (r: seq<Entry>)
  {
    if records == [] then rows else Renumbered(rows + ProjectAll(records))
  }

  /**
   * Appending keeps every earlier row except for its identifier, puts the
   * projected records after them in input order, and leaves the table numbered.
   */
  lemma {:induction false} AppendedShape(rows: seq<Entry>, records: seq<Record>)
    requires records != []
    ensures |Appended(rows, records)| == |rows| + |records|
    ensures Numbered(Appended(rows, records))
    ensures SameExceptIds(Appended(rows, records)[..|rows|], rows)
    ensures forall j, c :: 0 <= j < |records| && c != Id ==>
      Get(Appended(rows, records)[|rows| + j], c) == Cell(records[j], c)
  {
    var r := Appended(rows, records);
    var all := rows + ProjectAll(records);
    forall j, c | 0 <= j < |records| && c != Id
      ensures Get(r[|rows| + j], c) == Cell(records[j], c)
    {
      assert all[|rows| + j] == Project(records[j]);
      assert r[|rows| + j] == all[|rows| + j].(id := FormatId(|rows| + j + 1));
      assert Get(r[|rows| + j], c) == Get(With(all[|rows| + j], Id, FormatId(|rows| + j + 1)), c);
    }
    forall i | 0 <= i < |rows| ensures r[..|rows|][i].(id := "") == rows[i].(id := "") {
      assert all[i] == rows[i];
    }
  }

  // ---------------------------------------------------------------------------
  // Deleting
  // ---------------------------------------------------------------------------

  /** The positions below `n` that `keep` accepts, in increasing order. */
  function Positions(n: nat, keep: nat -> bool): (ps: seq<nat>)
    ensures forall j :: 0 <= j < |ps| ==> ps[j] < n
    ensures forall j, k :: 0 <= j < k < |ps| ==> ps[j] < ps[k]
    ensures forall p: nat :: p in ps <==> p < n && keep(p)
  {
    if n == 0 then []
    else
      var before := Positions(n - 1, keep);
      if keep(n - 1) then before + [n - 1] else before
  }

  /** The rows at the positions `keep` accepts, in their original relative order. */
  function Select(rows: seq<Entry>, keep: nat -> bool): (r: seq<Entry>)
    ensures |r| == |Positions(|rows|, keep)|
    ensures forall j :: 0 <= j < |r| ==> r[j] == rows[Positions(|rows|, keep)[j]]
  {
    var ps := Positions(|rows|, keep);
    seq(|ps|, j requires 0 <= j < |ps| => rows[ps[j]])
  }

  /**
   * `r` is the subsequence of `rows` at the increasing positions `ps`: what a
   * boolean-mask row selection returns.
   */
  ghost predicate SubsequenceAt(r: seq<Entry>, rows: seq<Entry>, ps: seq<nat>)
  {
    && |ps| == |r|
    && (forall j :: 0 <= j < |ps| ==> ps[j] < |rows| && r[j] == rows[ps[j]])
    && (forall j, k :: 0 <= j < k < |ps| ==> ps[j] < ps[k])
  }

  /**
   * A selection is the order-preserving subsequence of the accepted rows: it
   * holds a row at position p exactly when `keep(p)`, and in table order.
   */
  lemma {:induction false} SelectIsSubsequence(rows: seq<Entry>, keep: nat -> bool)
    ensures SubsequenceAt(Select(rows, keep), rows, Positions(|rows|, keep))
    ensures forall p: nat :: p < |rows| ==> (keep(p) <==> p in Positions(|rows|, keep))
  {
  }

  /** Selecting from one more row adds that row at the end when it is accepted. */
  lemma {:induction false} SelectExtend(rows: seq<Entry>, keep: nat -> bool, i: nat)
    requires i < |rows|
    ensures Select(rows[..i + 1], keep) == Select(rows[..i], keep) + (if keep(i) then [rows[i]] else [])
  {
    var ps := Positions(i, keep);
    var qs := Positions(i + 1, keep);
    assert qs == if keep(i) then ps + [i] else ps;
    var a, b := Select(rows[..i + 1], keep), Select(rows[..i], keep);
    var extra := if keep(i) then [rows[i]] else [];
    assert |a| == |b| + |extra|;
    forall j | 0 <= j < |a| ensures a[j] == (b + extra)[j] {
      if j < |ps| {
        assert qs[j] == ps[j] && ps[j] < i;
        assert a[j] == rows[ps[j]] == b[j];
      } else {
        assert qs[j] == i;
      }
    }
  }

  /** Selection looks only at the positions the table has. */
  lemma {:induction false} PositionsInRange(n: nat, keep: nat -> bool, other: nat -> bool)
    requires forall p: nat :: p < n ==> keep(p) == other(p)
    ensures Positions(n, keep) == Positions(n, other)
  {
    if n > 0 { PositionsInRange(n - 1, keep, other); }
  }

  /** Accepting every position selects the whole table. */
  lemma {:induction false} SelectEverything(rows: seq<Entry>, keep: nat -> bool)
    requires forall p: nat :: p < |rows| ==> keep(p)
    ensures Select(rows, keep) == rows
  {
    PositionsEverything(|rows|, keep);
  }

  lemma {:induction false} PositionsEverything(n: nat, keep: nat -> bool)
    requires forall p: nat :: p < n ==> keep(p)
    ensures |Positions(n, keep)| == n
    ensures forall i :: 0 <= i < n ==> Positions(n, keep)[i] == i
  {
    if n > 0 { PositionsEverything(n - 1, keep); }
  }

  /** Accepting no position selects nothing. */
  lemma {:induction false} SelectNothing(rows: seq<Entry>, keep: nat -> bool)
    requires forall p: nat :: p < |rows| ==> !keep(p)
    ensures Select(rows, keep) == []
  {
    EmptyIffNoMember(Positions(|rows|, keep));
  }

  lemma {:induction false} EmptyIffNoMember<T>(s: seq<T>)
    ensures s == [] <==> forall x :: x !in s
  {
    if s != [] { assert s[0] in s; }
  }

  /** The test that keeps a row through a deletion: its position is not doomed. */
  function Spared(doomed: set<int>): nat -> bool
  {
    p => p !in doomed
  }

  /** The rows whose position is not doomed, in their original relative order. */
  function Survivors(rows: seq<Entry>, doomed: set<int>): (r: seq<Entry>)
    ensures forall j :: 0 <= j < |r| ==> r[j] in rows
  {
    Select(rows, Spared(doomed))
  }

  /** A doomed set that names none of the table's positions deletes nothing. */
  lemma {:induction false} SurvivorsOfNothing(rows: seq<Entry>, doomed: set<int>)
    requires forall p :: p in doomed ==> p < 0 || p >= |rows|
    ensures Survivors(rows, doomed) == rows
  {
    SelectEverything(rows, Spared(doomed));
  }

  /** Dooming every position leaves no row. */
  lemma {:induction false} SurvivorsOfEverything(rows: seq<Entry>, doomed: set<int>)
    requires forall p :: 0 <= p < |rows| ==> p in doomed
    ensures Survivors(rows, doomed) == []
  {
    SelectNothing(rows, Spared(doomed));
  }

  /** How many rows survive: all of them minus the doomed positions the table has. */
  lemma {:induction false} SurvivorsCount(n: nat, doomed: set<int>)
    ensures |Positions(n, Spared(doomed))| == n - |DoomedInRange(n, doomed)|
  {
    if n > 0 {
      SurvivorsCount(n - 1, doomed);
      var lower := DoomedInRange(n - 1, doomed);
      var upper := DoomedInRange(n, doomed);
      if n - 1 in doomed {
        assert upper == lower + {n - 1};
        assert n - 1 !in lower;
      } else {
        assert upper == lower;
      }
    } else {
      assert DoomedInRange(n, doomed) == {};
    }
  }

  /** The doomed positions that the table of length `n` has. */
  function DoomedInRange(n: nat, doomed: set<int>): (s: set<int>)
    ensures forall p :: p in s <==> p in doomed && 0 <= p < n
  {
    set p | p in doomed && 0 <= p < n
  }

  /** The values a list holds, as a set (`set(xs)`). */
  function AsSet(xs: seq<int>): (s: set<int>)
    ensures forall x :: x in s <==> x in xs
  {
    set x | x in xs
  }

  /**
   * The web model's `delete_rows`: an empty position list or an empty table
   * changes nothing; otherwise the rows at positions not listed survive in order
   * and are renumbered. Positions the table does not have, and repeats, are ignored.
   */
  function Deleted(rows: seq<Entry>, positions: seq<int>): seq<Entry>
  {
    if positions == [] || rows == [] then rows
    else Renumbered(Survivors(rows, AsSet(positions)))
  }

  /**
   * After a deletion the table is numbered, holds the survivors in their
   * original order apart from identifiers, and has lost exactly the listed
   * positions it had.
   */
  lemma {:induction false} DeletedShape(rows: seq<Entry>, positions: seq<int>)
    requires positions != [] && rows != []
    ensures Numbered(Deleted(rows, positions))
    ensures SameExceptIds(Survivors(rows, AsSet(positions)), Deleted(rows, positions))
    ensures |Deleted(rows, positions)| == |rows| - |DoomedInRange(|rows|, AsSet(positions))|
  {
    SurvivorsCount(|rows|, AsSet(positions));
  }

  /** Listing only positions the table does not have just renumbers it. */
  lemma {:induction false} DeletedOutOfRange(rows: seq<Entry>, positions: seq<int>)
    requires positions != [] && rows != []
    requires forall j :: 0 <= j < |positions| ==> positions[j] < 0 || positions[j] >= |rows|
    ensures Deleted(rows, positions) == Renumbered(rows)
  {
    SurvivorsOfNothing(rows, AsSet(positions));
  }

  /** Listing every position empties the table. */
  lemma {:induction false} DeletedEverything(rows: seq<Entry>, positions: seq<int>)
    requires forall p :: 0 <= p < |rows| ==> p in positions
    requires positions != []
    ensures Deleted(rows, positions) == []
  {
    if rows != [] { SurvivorsOfEverything(rows, AsSet(positions)); }
  }

  /**
   * The desktop model's `delete_rows`, a label-based drop: an empty list
   * changes nothing; a listed position the table does not have raises with the
   * table untouched; otherwise the listed rows go, the rest close up in order
   * and are renumbered. Repeats are allowed.
   */
  function Dropped(rows: seq<Entry>, positions: seq<int>): (r: Option<seq<Entry>>)
    ensures r.None? <==> exists j :: 0 <= j < |positions| && !(0 <= positions[j] < |rows|)
  {
    if positions == [] then Some(rows)
    else if exists j :: 0 <= j < |positions| && !(0 <= positions[j] < |rows|) then None
    else Some(Renumbered(Survivors(rows, AsSet(positions))))
  }

  /** Where the label-based drop succeeds on a non-empty list it agrees with the web model's deletion. */
  lemma {:induction false} DroppedAgreesWithDeleted(rows: seq<Entry>, positions: seq<int>)
    requires positions != []
    requires Dropped(rows, positions).Some?
    ensures Dropped(rows, positions).value == Deleted(rows, positions)
  {
    var doomed := AsSet(positions);
    assert |Survivors(rows, doomed)| == |Positions(|rows|, Spared(doomed))|;
  }

  /** Dropping every position that is listed loses exactly the distinct positions named. */
  lemma {:induction false} DroppedCount(rows: seq<Entry>, positions: seq<int>)
    requires positions != []
    requires Dropped(rows, positions).Some?
    ensures |Dropped(rows, positions).value| == |rows| - |AsSet(positions)|
  {
    SurvivorsCount(|rows|, AsSet(positions));
    assert DoomedInRange(|rows|, AsSet(positions)) == AsSet(positions);
  }

  // ---------------------------------------------------------------------------
  // Updating one cell
  // ---------------------------------------------------------------------------

  /**
   * `update_cell`: a row position the table does not have or a column name
   * outside the schema raises; otherwise exactly that cell takes the value.
   * Nothing is renumbered, so writing the identifier column is allowed.
   */
  function CellUpdated(rows: seq<Entry>, row: nat, column: string, value: string): (r: Option<seq<Entry>>)
    ensures r.None? <==> row >= |rows| || ColumnOf(column).None?
  {
    if row >= |rows| || ColumnOf(column).None? then None
    else Some(rows[row := With(rows[row], ColumnOf(column).value, value)])
  }

  /** Only the named cell changes: same length, other rows and other columns as before. */
  lemma {:induction false} CellUpdatedShape(rows: seq<Entry>, row: nat, c: Column, value: string)
    requires row < |rows|
    ensures CellUpdated(rows, row, ColumnName(c), value).Some?
    ensures var r := CellUpdated(rows, row, ColumnName(c), value).value;
      && |r| == |rows|
      && Get(r[row], c) == value
      && (forall d: Column :: d != c ==> Get(r[row], d) == Get(rows[row], d))
      && (forall i :: 0 <= i < |rows| && i != row ==> r[i] == rows[i])
  {
    ColumnOfName(c);
  }

  /** Updating any column but the identifier keeps a numbered table numbered. */
  lemma {:induction false} CellUpdatedKeepsNumbered(rows: seq<Entry>, row: nat, column: string, value: string)
    requires Numbered(rows)
    requires CellUpdated(rows, row, column, value).Some?
    requires column != IdName
    ensures Numbered(CellUpdated(rows, row, column, value).value)
  {
    var c := ColumnOf(column).value;
    assert c != Id;
    assert Get(With(rows[row], c, value), Id) == Get(rows[row], Id);
  }

  // ---------------------------------------------------------------------------
  // The wizard's splice
  // ---------------------------------------------------------------------------

  /** One derived row per wizard result: the source row updated by that result. */
  function Derived(src: Entry, results: seq<Record>): (d: seq<Entry>)
    ensures |d| == |results|
    ensures forall j, c :: 0 <= j < |results| ==>
      Get(d[j], c) == (if ColumnName(c) in results[j] then results[j][ColumnName(c)] else Get(src, c))
  {
    seq(|results|, j requires 0 <= j < |results| => Override(src, results[j]))
  }

  /** The rows a wizard run derives from the source row, one per result, in order. */
  method DeriveRows(src: Entry, results: seq<Record>) returns (derived: seq<Entry>)
    ensures derived == Derived(src, results)
  {
    derived := [];
    var j := 0;
    while j < |results|
      invariant 0 <= j <= |results|
      invariant derived == Derived(src, results)[..j]
    {
      derived := derived + [Override(src, results[j])];
      j := j + 1;
    }
  }

  /** The rows before the source, the derived rows, then the rows after it. */
  function Splice(rows: seq<Entry>, source: nat, derived: seq<Entry>): (r: seq<Entry>)
    requires source < |rows|
  {
    rows[..source] + derived + rows[source + 1..]
  }

  /**
   * `update_fha_entries_from_wizard`: nothing happens for no results, a source
   * label the table does not have (past the end, or negative, which the
   * `.loc` lookup on the 0..n-1 index rejects) raises, and otherwise the
   * source row is replaced by its derived rows and the table renumbered.
   */
  function Expanded(rows: seq<Entry>, source: int, results: seq<Record>): (r: Option<seq<Entry>>)
    ensures r.None? <==> results != [] && !(0 <= source < |rows|)
    ensures r.Some? && results == [] ==> r.value == rows
  {
    if results == [] then Some(rows)
    else if !(0 <= source < |rows|) then None
    else Some(Renumbered(Splice(rows, source, Derived(rows[source], results))))
  }

  /**
   * The splice contract: length n - 1 + k; the rows before the source and the
   * rows after it keep their order and content except identifiers; row
   * `source + j` is the source row overridden by result j; all numbered.
   */
  lemma {:induction false} ExpandedShape(rows: seq<Entry>, source: nat, results: seq<Record>)
    requires source < |rows| && results != []
    ensures Expanded(rows, source, results).Some?
    ensures var r := Expanded(rows, source, results).value;
      && |r| == |rows| - 1 + |results|
      && Numbered(r)
      && (forall i :: 0 <= i < source ==> r[i].(id := "") == rows[i].(id := ""))
      && (forall i :: source + |results| <= i < |r| ==>
            r[i].(id := "") == rows[i - |results| + 1].(id := ""))
      && forall j, c :: 0 <= j < |results| && c != Id ==>
           Get(r[source + j], c) == Pick(rows[source], results[j], c)
  {
    var d := Derived(rows[source], results);
    var r := Renumbered(Splice(rows, source, d));
    RenumberedSplice(rows, source, d);
    forall j, c | 0 <= j < |results| && c != Id
      ensures Get(r[source + j], c) == Pick(rows[source], results[j], c)
    {
      GetIgnoresId(r[source + j], c);
      GetIgnoresId(d[j], c);
    }
  }

  /** Renumbering a splice keeps the rows before it, the spliced rows and the rows after it, up to identifiers. */
  lemma {:induction false} RenumberedSplice(rows: seq<Entry>, source: nat, d: seq<Entry>)
    requires source < |rows|
    ensures var r := Renumbered(Splice(rows, source, d));
      && |r| == |rows| - 1 + |d|
      && (forall i :: 0 <= i < source ==> r[i].(id := "") == rows[i].(id := ""))
      && (forall j :: 0 <= j < |d| ==> r[source + j].(id := "") == d[j].(id := ""))
      && (forall i :: source + |d| <= i < |r| ==> r[i].(id := "") == rows[i - |d| + 1].(id := ""))
  {
    var s := Splice(rows, source, d);
    var r := Renumbered(s);
    forall i | 0 <= i < |s| ensures r[i].(id := "") == s[i].(id := "") {
      SameExceptIdsAt(s, r, i);
    }
    SpliceAt(rows, source, d);
  }

  lemma SameExceptIdsAt(a: seq<Entry>, b: seq<Entry>, i: nat)
    requires SameExceptIds(a, b) && i < |a|
    ensures b[i].(id := "") == a[i].(id := "")
  {
  }

  /** Where each row of a splice comes from. */
  lemma {:induction false} SpliceAt(rows: seq<Entry>, source: nat, d: seq<Entry>)
    requires source < |rows|
    ensures var s := Splice(rows, source, d);
      && |s| == |rows| - 1 + |d|
      && (forall i :: 0 <= i < source ==> s[i] == rows[i])
      && (forall j :: 0 <= j < |d| ==> s[source + j] == d[j])
      && (forall i :: source + |d| <= i < |s| ==> s[i] == rows[i - |d| + 1])
  {
    var before, after := rows[..source], rows[source + 1..];
    var s := Splice(rows, source, d);
    assert s == before + d + after;
    ConcatAt(before, d, after);
    forall i | source + |d| <= i < |s| ensures s[i] == rows[i - |d| + 1] {
      var k := i - source - |d|;
      assert s[source + |d| + k] == after[k];
    }
  }

  /** Positions in a three-part concatenation. */
  lemma ConcatAt<T>(a: seq<T>, b: seq<T>, c: seq<T>)
    ensures var s := a + b + c;
      && (forall i :: 0 <= i < |a| ==> s[i] == a[i])
      && (forall j :: 0 <= j < |b| ==> s[|a| + j] == b[j])
      && (forall k :: 0 <= k < |c| ==> s[|a| + |b| + k] == c[k])
  {
  }

  /** A result that names only non-schema keys derives a row equal to the source apart from its identifier. */
  lemma {:induction false} ExpandedSingleNeutral(rows: seq<Entry>, source: nat, result: Record)
    requires source < |rows|
    requires forall k :: k in result ==> ColumnOf(k).None?
    ensures Expanded(rows, source, [result]) == Some(Renumbered(rows))
  {
    OverrideWithoutSchemaKeys(rows[source], result);
    var s := Splice(rows, source, Derived(rows[source], [result]));
    assert s == rows;
  }

  // ---------------------------------------------------------------------------
  // The desktop model's `next_id` after a load
  // ---------------------------------------------------------------------------

  /** The largest number carried by any identifier, or nothing when none carries one. */
  function MaxIdNumber(rows: seq<Entry>): (r: Option<nat>)
    ensures r.None? <==> forall i :: 0 <= i < |rows| ==> IdNumber(rows[i].id).None?
    ensures r.Some? ==> exists i :: 0 <= i < |rows| && IdNumber(rows[i].id) == r
    ensures r.Some? ==> forall i :: 0 <= i < |rows| && IdNumber(rows[i].id).Some? ==>
      IdNumber(rows[i].id).value <= r.value
  {
    if rows == [] then None
    else
      var rest := MaxIdNumber(rows[..|rows| - 1]);
      var last := IdNumber(rows[|rows| - 1].id);
      assert forall i :: 0 <= i < |rows| - 1 ==> rows[..|rows| - 1][i] == rows[i];
      if last.None? then rest
      else if rest.None? || rest.value < last.value then last
      else rest
  }

  /** `next_id` after `load_dataframe`: one past the largest number found, 1 when there is none. */
  function NextIdAfterLoad(rows: seq<Entry>): (n: nat)
    ensures n >= 1
  {
    match MaxIdNumber(rows)
    case None => 1
    case Some(m) => m + 1
  }

  /**
   * Loading a numbered table (for instance one that was exported after any
   * structural change) sets `next_id` to the table length + 1, the same value
   * `re_number_ids` leaves behind.
   */
  lemma {:induction false} NextIdAfterLoadOfNumbered(rows: seq<Entry>)
    requires Numbered(rows)
    ensures NextIdAfterLoad(rows) == |rows| + 1
  {
    if rows == [] {
    } else {
      forall i | 0 <= i < |rows| ensures IdNumber(rows[i].id) == Some(i + 1) {
        IdNumberRoundTrip(i + 1);
      }
      var m := MaxIdNumber(rows);
      assert IdNumber(rows[|rows| - 1].id).Some?;
      var i :| 0 <= i < |rows| && IdNumber(rows[i].id) == m;
      assert m.value <= |rows|;
      assert IdNumber(rows[|rows| - 1].id).value <= m.value;
    }
  }
}
