/**
 * The desktop application's hazard register (`FHA_Model` of the core logic):
 * the same table as the web service's, plus the `next_id` counter. Unlike the
 * web register, loading does not renumber (the counter is instead derived from
 * the numbers found in the loaded identifiers), and deletion is by label, so a
 * position the table does not have raises.
 */
module CoreRegister {
  import opened Wrappers
  import opened Schema
  import opened Ids
  import opened Table

  class Register {
    var rows: seq<Entry>
    /** The number the next identifier would carry. */
    var nextId: nat

    /** A fresh model: an empty table and the counter at 1. */
    constructor()
      ensures rows == [] && nextId == 1
    {
      rows := [];
      nextId := 1;
    }

    /** `new_project`: back to an empty table and the counter at 1. */
    method NewProject()
      modifies this
      ensures rows == [] && nextId == 1
    {
      rows := [];
      nextId := 1;
    }

    /**
     * `load_dataframe`: the parsed rows reindexed onto the schema with missing
     * cells "", identifiers kept as they are; the counter becomes one past the
     * largest number found in an identifier, or 1 when none carries a digit.
     */
    method LoadDataframe(records: seq<Record>)
      modifies this
      ensures rows == ProjectAll(records)
      ensures nextId == NextIdAfterLoad(ProjectAll(records))
    {
      rows := ProjectAll(records);
      if rows != [] {
        nextId := NextIdAfterLoad(rows);
      } else {
        nextId := 1;
      }
    }

    /**
     * `add_fha_entries`: every entry cut down to the schema keys (a missing
     * one becoming ""), appended in order, then renumbered. No entries
     * changes nothing.
     */
    method AddFhaEntries(records: seq<Record>)
      modifies this
      ensures rows == Appended(old(rows), records)
      ensures nextId == if records == [] then old(nextId) else |rows| + 1
    {
      if records == [] {
        return;
      }
      var newRows: seq<Entry> := [];
      var j := 0;
      while j < |records|
        invariant 0 <= j <= |records|
        invariant newRows == ProjectAll(records)[..j]
      {
        newRows := newRows + [Project(records[j])];
        j := j + 1;
      }
      rows := rows + newRows;
      ReNumberIds();
    }

    /**
     * `update_fha_entries_from_wizard`: the same splice as the web register's.
     * The source row is looked up before anything changes, so a position the
     * table does not have raises with the table and counter untouched.
     */
    method UpdateFromWizard(source: int, results: seq<Record>) returns (outcome: Outcome)
      modifies this
      ensures outcome.Raised? <==> Expanded(old(rows), source, results).None?
      ensures outcome.Raised? || results == [] ==> rows == old(rows) && nextId == old(nextId)
      ensures outcome.Done? ==> rows == Expanded(old(rows), source, results).value
      ensures outcome.Done? && results != [] ==> nextId == |rows| + 1
    {
      if results == [] {
        return Done;
      }
      if !(0 <= source < |rows|) {
        return Raised(OutOfRange);
      }
      var derived := DeriveRows(rows[source], results);
      ghost var spliced := Splice(rows, source, derived);
      rows := rows[..source] + derived + rows[source + 1..];
      assert rows == spliced;
      ReNumberIds();
      return Done;
    }

    /**
     * `delete_rows`: an empty list changes nothing; a listed position the
     * table does not have raises with nothing changed; otherwise the listed
     * rows are dropped, the rest close up in order and are renumbered.
     */
    method DeleteRows(positions: seq<int>) returns (outcome: Outcome)
      modifies this
      ensures outcome.Raised? <==> Dropped(old(rows), positions).None?
      ensures outcome.Raised? || positions == [] ==> rows == old(rows) && nextId == old(nextId)
      ensures outcome.Done? ==> rows == Dropped(old(rows), positions).value
      ensures outcome.Done? && positions != [] ==> nextId == |rows| + 1
    {
      if positions == [] {
        return Done;
      }
      if exists j :: 0 <= j < |positions| && !(0 <= positions[j] < |rows|) {
        return Raised(OutOfRange);
      }
      rows := Survivors(rows, AsSet(positions));
      ReNumberIds();
      return Done;
    }

    /** `re_number_ids`: row i gets identifier FHA-pad3(i+1); the counter becomes the row count + 1. */
    method ReNumberIds()
      modifies this
      ensures rows == Renumbered(old(rows))
      ensures nextId == |rows| + 1
    {
      var i := 0;
      while i < |rows|
        invariant 0 <= i <= |rows| == |old(rows)|
        invariant forall k :: 0 <= k < i ==> rows[k] == old(rows)[k].(id := FormatId(k + 1))
        invariant forall k :: i <= k < |rows| ==> rows[k] == old(rows)[k]
      {
        rows := rows[i := rows[i].(id := FormatId(i + 1))];
        i := i + 1;
      }
      nextId := |rows| + 1;
    }
  }

  /**
   * The counter agrees with the table: it is one past the last row's number
   * and the table is numbered. Every structural change that does something
   * establishes it, and loading a table saved in that state re-establishes it.
   */
  ghost predicate Consistent(rows: seq<Entry>, nextId: nat)
  {
    Numbered(rows) && nextId == |rows| + 1
  }

  /** Loading a consistent table keeps its rows and recomputes the same counter. */
  lemma {:induction false} LoadConsistent(rows: seq<Entry>)
    requires Numbered(rows)
    ensures ProjectAll(seq(|rows|, i requires 0 <= i < |rows| => ToRecord(rows[i]))) == rows
    ensures Consistent(rows, NextIdAfterLoad(rows))
  {
    ProjectAllExported(rows);
    NextIdAfterLoadOfNumbered(rows);
  }
}
