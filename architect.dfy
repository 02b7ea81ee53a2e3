/**
 * The functional-architecture dialog of the desktop application: a tree of
 * functions (each with a function type), the matrix of leaf functions by
 * mission phase whose checked cells become the skeleton of a new project.
 */
module Architect {
  import opened Wrappers
  import opened Schema
  import opened Text

  /** The mission phases, the matrix's columns, in order. */
  const MissionPhases: seq<string> := ["地面检查", "启动", "垂直起飞", "过渡飞行", "巡航", "悬停作业", "返航", "垂直降落", "关机"]

  /** A function of the tree: its name, its type and its sub-functions in order. */
  datatype Item = Item(name: string, funcType: string, children: seq<Item>)

  /**
   * A leaf as the matrix keeps it: the names met walking up from the leaf to
   * its top-level function (the leaf's own name first), and the leaf's type.
   */
  datatype Leaf = Leaf(up: seq<string>, funcType: string)

  // ---------------------------------------------------------------------------
  // Leaves
  // ---------------------------------------------------------------------------

  /** The chain `up` continues with the names `above`: a leaf lies strictly below them. */
  predicate EndsWith(up: seq<string>, above: seq<string>)
  {
    |up| > |above| && up[|up| - |above|..] == above
  }

  /** A chain that continues with `[x] + above` continues with `above`. */
  lemma {:induction false} AllEndWith(rows: seq<Leaf>, x: string, above: seq<string>)
    requires forall k :: 0 <= k < |rows| ==> EndsWith(rows[k].up, [x] + above)
    ensures forall k :: 0 <= k < |rows| ==> EndsWith(rows[k].up, above)
  {
    forall k | 0 <= k < |rows| ensures EndsWith(rows[k].up, above) {
      var up := rows[k].up;
      assert up[|up| - |above|..] == up[|up| - |above| - 1..][1..];
    }
  }

  /**
   * The leaves under a list of siblings, depth first, left to right; `above`
   * holds the names of their ancestors, nearest first. The invisible root is
   * never a leaf: an empty tree has none.
   */
  function LeafRows(items: seq<Item>, above: seq<string>): (rows: seq<Leaf>)
    ensures forall k :: 0 <= k < |rows| ==> EndsWith(rows[k].up, above)
    decreases items
  {
    if items == [] then []
    else LeafRowsOf(items[0], above) + LeafRows(items[1..], above)
  }

  function LeafRowsOf(it: Item, above: seq<string>): (rows: seq<Leaf>)
    ensures forall k :: 0 <= k < |rows| ==> EndsWith(rows[k].up, above)
    decreases it
  {
    if it.children == [] then [Leaf([it.name] + above, it.funcType)]
    else
      var rows := LeafRows(it.children, [it.name] + above);
      AllEndWith(rows, it.name, above);
      rows
  }

  /** Every item under a list of siblings, depth first, each with its upward chain of names. */
  function Preorder(items: seq<Item>, above: seq<string>): seq<(Item, seq<string>)>
    decreases items
  {
    if items == [] then []
    else PreorderOf(items[0], above) + Preorder(items[1..], above)
  }

  function PreorderOf(it: Item, above: seq<string>): seq<(Item, seq<string>)>
    decreases it
  {
    [(it, [it.name] + above)] + Preorder(it.children, [it.name] + above)
  }

  /** The childless items of a preorder listing, as leaves. */
  function Childless(nodes: seq<(Item, seq<string>)>): seq<Leaf>
  {
    if nodes == [] then []
    else (if nodes[0].0.children == [] then [Leaf(nodes[0].1, nodes[0].0.funcType)] else []) + Childless(nodes[1..])
  }

  lemma {:induction false} ChildlessConcat(a: seq<(Item, seq<string>)>, b: seq<(Item, seq<string>)>)
    ensures Childless(a + b) == Childless(a) + Childless(b)
  {
    if a != [] {
      assert (a + b)[1..] == a[1..] + b;
      ChildlessConcat(a[1..], b);
    } else {
      assert a + b == b;
    }
  }

  /** The leaves are exactly the childless items, in depth-first left-to-right order. */
  lemma {:induction false} LeavesAreChildless(items: seq<Item>, above: seq<string>)
    ensures LeafRows(items, above) == Childless(Preorder(items, above))
    decreases items
  {
    if items != [] {
      LeafOfIsChildless(items[0], above);
      LeavesAreChildless(items[1..], above);
      ChildlessConcat(PreorderOf(items[0], above), Preorder(items[1..], above));
    }
  }

  lemma {:induction false} LeafOfIsChildless(it: Item, above: seq<string>)
    ensures LeafRowsOf(it, above) == Childless(PreorderOf(it, above))
    decreases it
  {
    var head := [(it, [it.name] + above)];
    var rest := Preorder(it.children, [it.name] + above);
    ChildlessConcat(head, rest);
    if it.children == [] {
      assert rest == [];
    } else {
      LeavesAreChildless(it.children, [it.name] + above);
    }
  }

  // ---------------------------------------------------------------------------
  // Paths
  // ---------------------------------------------------------------------------

  function Reversed(s: seq<string>): (r: seq<string>)
    ensures |r| == |s|
    ensures forall i :: 0 <= i < |s| ==> r[i] == s[|s| - 1 - i]
  {
    if s == [] then [] else Reversed(s[1..]) + [s[0]]
  }

  /**
   * `_get_full_path`: walking up from the item, each name is put in front of
   * those collected so far, and the names are joined by " / " — the path from
   * the top-level function down to the item.
   */
  method FullPath(up: seq<string>) returns (text: string)
    ensures text == Join(Reversed(up), PathSeparator)
  {
    var path: seq<string> := [];
    for i := 0 to |up|
      invariant path == Reversed(up[..i])
    {
      assert up[..i + 1][1..] == up[1..i + 1];
      ReversedSnoc(up[..i], up[i]);
      assert up[..i + 1] == up[..i] + [up[i]];
      path := [up[i]] + path;
    }
    assert up[..|up|] == up;
    text := Join(path, PathSeparator);
  }

  lemma {:induction false} ReversedSnoc(s: seq<string>, x: string)
    ensures Reversed(s + [x]) == [x] + Reversed(s)
  {
    assert |Reversed(s + [x])| == |[x] + Reversed(s)|;
    forall i | 0 <= i < |s| + 1 ensures Reversed(s + [x])[i] == ([x] + Reversed(s))[i] {
      if i > 0 {
        assert (s + [x])[|s| - i] == s[|s| - i];
      }
    }
  }

  // ---------------------------------------------------------------------------
  // The skeleton
  // ---------------------------------------------------------------------------

  function Level(parts: seq<string>, k: nat): string
  {
    if k < |parts| then parts[k] else ""
  }

  /**
   * The entry for one checked cell: the leaf's path split at " / " gives the
   * first three levels ("" for a level the path does not reach), then the
   * leaf's type and the phase.
   */
  function SkeletonItem(leaf: Leaf, phase: string): Skeleton
  {
    var parts := Split(Join(Reversed(leaf.up), PathSeparator), PathSeparator);
    Skeleton(Level(parts, 0), Level(parts, 1), Level(parts, 2), leaf.funcType, phase)
  }

  /**
   * When no function name holds a '/', the levels are the leaf's top three
   * ancestors from the top down, the leaf itself among them when it is at
   * most three deep; deeper levels are dropped.
   */
  lemma {:induction false} SkeletonItemLevels(leaf: Leaf, phase: string)
    requires |leaf.up| >= 1
    requires forall k :: 0 <= k < |leaf.up| ==> NoSlash(leaf.up[k])
    ensures var down := Reversed(leaf.up);
      var s := SkeletonItem(leaf, phase);
      && s.level1 == down[0] && s.level2 == Level(down, 1) && s.level3 == Level(down, 2)
      && s.functionType == leaf.funcType && s.flightPhase == phase
  {
    var down := Reversed(leaf.up);
    assert forall k :: 0 <= k < |down| ==> NoSlash(down[k]);
    SplitJoin(down);
  }

  /** The entries of one matrix row: one per checked phase, in phase order. */
  function RowItems(leaf: Leaf, flags: seq<bool>): (items: seq<Skeleton>)
    requires |flags| <= |MissionPhases|
  {
    if flags == [] then []
    else
      var n := |flags| - 1;
      RowItems(leaf, flags[..n]) + (if flags[n] then [SkeletonItem(leaf, MissionPhases[n])] else [])
  }

  /** The checkbox matrix is shaped like the leaves by the phases. */
  ghost predicate Shaped(rows: seq<Leaf>, checked: seq<seq<bool>>)
  {
    |checked| == |rows| && forall r :: 0 <= r < |checked| ==> |checked[r]| == |MissionPhases|
  }

  /** All entries, row by row: row-major order over the checked cells. */
  function SkeletonOf(rows: seq<Leaf>, checked: seq<seq<bool>>): seq<Skeleton>
    requires Shaped(rows, checked)
  {
    if rows == [] then []
    else
      var n := |rows| - 1;
      SkeletonOf(rows[..n], checked[..n]) + RowItems(rows[n], checked[n])
  }

  /** The entries of a row are exactly the items of its checked phases. */
  lemma {:induction false} RowItemsMembers(leaf: Leaf, flags: seq<bool>)
    requires |flags| <= |MissionPhases|
    ensures forall s :: s in RowItems(leaf, flags) <==>
      exists c :: 0 <= c < |flags| && flags[c] && s == SkeletonItem(leaf, MissionPhases[c])
    ensures |RowItems(leaf, flags)| <= |flags|
  {
    if flags != [] {
      var n := |flags| - 1;
      var front := RowItems(leaf, flags[..n]);
      var last := if flags[n] then [SkeletonItem(leaf, MissionPhases[n])] else [];
      assert RowItems(leaf, flags) == front + last;
      RowItemsMembers(leaf, flags[..n]);
      forall s | s in front + last
        ensures exists c :: 0 <= c < |flags| && flags[c] && s == SkeletonItem(leaf, MissionPhases[c])
      {
        if s in front {
          var c :| 0 <= c < n && flags[..n][c] && s == SkeletonItem(leaf, MissionPhases[c]);
          assert flags[c];
        } else {
          assert s in last;
        }
      }
      forall s, c | 0 <= c < |flags| && flags[c] && s == SkeletonItem(leaf, MissionPhases[c])
        ensures s in front + last
      {
        if c < n {
          assert flags[..n][c];
          assert s in front;
        } else {
          assert s == last[0];
        }
      }
    }
  }

  /** `s` is the item of a checked cell of the matrix. */
  ghost predicate FromCheckedCell(rows: seq<Leaf>, checked: seq<seq<bool>>, s: Skeleton)
    requires Shaped(rows, checked)
  {
    exists r, c :: 0 <= r < |rows| && 0 <= c < |MissionPhases| && checked[r][c]
                   && s == SkeletonItem(rows[r], MissionPhases[c])
  }

  /** The skeleton holds exactly the items of the checked cells. */
  lemma {:induction false} SkeletonMembers(rows: seq<Leaf>, checked: seq<seq<bool>>)
    requires Shaped(rows, checked)
    ensures forall s :: s in SkeletonOf(rows, checked) <==> FromCheckedCell(rows, checked, s)
  {
    if rows != [] {
      var n := |rows| - 1;
      SkeletonMembers(rows[..n], checked[..n]);
      RowItemsMembers(rows[n], checked[n]);
      forall s ensures s in SkeletonOf(rows, checked) <==> FromCheckedCell(rows, checked, s) {
        SkeletonMembersStep(rows, checked, s);
      }
    }
  }

  lemma SkeletonMembersStep(rows: seq<Leaf>, checked: seq<seq<bool>>, s: Skeleton)
    requires Shaped(rows, checked) && rows != []
    requires s in SkeletonOf(rows[..|rows| - 1], checked[..|rows| - 1]) <==> FromCheckedCell(rows[..|rows| - 1], checked[..|rows| - 1], s)
    requires s in RowItems(rows[|rows| - 1], checked[|rows| - 1]) <==>
      exists c :: 0 <= c < |MissionPhases| && checked[|rows| - 1][c] && s == SkeletonItem(rows[|rows| - 1], MissionPhases[c])
    ensures s in SkeletonOf(rows, checked) <==> FromCheckedCell(rows, checked, s)
  {
    var n := |rows| - 1;
    assert SkeletonOf(rows, checked) == SkeletonOf(rows[..n], checked[..n]) + RowItems(rows[n], checked[n]);
    if FromCheckedCell(rows[..n], checked[..n], s) {
      EarlierCell(rows, checked, s);
    }
    if FromCheckedCell(rows, checked, s) {
      var r, c :| 0 <= r < |rows| && 0 <= c < |MissionPhases| && checked[r][c]
                  && s == SkeletonItem(rows[r], MissionPhases[c]);
      if r < n {
        assert checked[..n][r][c] && rows[..n][r] == rows[r];
        assert FromCheckedCell(rows[..n], checked[..n], s);
      }
    }
  }

  lemma EarlierCell(rows: seq<Leaf>, checked: seq<seq<bool>>, s: Skeleton)
    requires Shaped(rows, checked) && rows != []
    requires FromCheckedCell(rows[..|rows| - 1], checked[..|rows| - 1], s)
    ensures FromCheckedCell(rows, checked, s)
  {
    var n := |rows| - 1;
    var r, c :| 0 <= r < n && 0 <= c < |MissionPhases| && checked[..n][r][c]
                && s == SkeletonItem(rows[..n][r], MissionPhases[c]);
    assert checked[r][c] && rows[r] == rows[..n][r];
  }

  /** The dialog: the function tree under the invisible root, the leaf rows and their checkboxes. */
  class ArchitectDialog {
    var roots: seq<Item>
    /** The leaf of each matrix row; None until the matrix is first built. */
    var mapping: Option<seq<Leaf>>
    var checked: seq<seq<bool>>

    ghost predicate Valid()
      reads this
    {
      mapping.Some? ==> Shaped(mapping.value, checked)
    }

    constructor(roots: seq<Item>)
      ensures this.roots == roots && mapping == None && checked == [] && Valid()
    {
      this.roots := roots;
      mapping := None;
      checked := [];
    }

    /** `update_matrix`: one row per leaf, in leaf order, every checkbox cleared. */
    method UpdateMatrix()
      modifies this
      ensures Valid() && roots == old(roots)
      ensures mapping == Some(LeafRows(roots, []))
      ensures forall r, c :: 0 <= r < |checked| && 0 <= c < |checked[r]| ==> !checked[r][c]
    {
      var rows := LeafRows(roots, []);
      mapping := Some(rows);
      checked := seq(|rows|, r requires 0 <= r < |rows| => seq(|MissionPhases|, c requires 0 <= c < |MissionPhases| => false));
    }

    /** The user ticks or clears one checkbox. */
    method SetChecked(r: nat, c: nat, value: bool)
      requires Valid() && mapping.Some? && r < |checked| && c < |MissionPhases|
      modifies this
      ensures Valid() && roots == old(roots) && mapping == old(mapping)
      ensures checked == old(checked)[r := old(checked)[r][c := value]]
    {
      checked := checked[r := checked[r][c := value]];
    }

    /** The entries the checked cells stand for: none before the matrix exists. */
    ghost function Checked(): seq<Skeleton>
      reads this
      requires Valid()
    {
      if mapping.None? then [] else SkeletonOf(mapping.value, checked)
    }

    /** `get_fha_skeleton`: [] before the matrix exists, else one entry per checked cell, row by row. */
    method GetFhaSkeleton() returns (skeleton: seq<Skeleton>)
      requires Valid()
      ensures mapping.None? ==> skeleton == []
      ensures mapping.Some? ==> skeleton == SkeletonOf(mapping.value, checked)
      ensures skeleton == Checked()
    {
      if mapping.None? {
        return [];
      }
      var rows := mapping.value;
      skeleton := [];
      for r := 0 to |rows|
        invariant skeleton == SkeletonOf(rows[..r], checked[..r])
      {
        assert rows[..r + 1][..r] == rows[..r] && checked[..r + 1][..r] == checked[..r];
        var items := CheckedItems(rows[r], checked[r]);
        skeleton := skeleton + items;
      }
      assert rows[..|rows|] == rows && checked[..|checked|] == checked;
    }
  }

  /** One matrix row's entries, phase by phase, the path read off the leaf's chain of names. */
  method CheckedItems(leaf: Leaf, flags: seq<bool>) returns (items: seq<Skeleton>)
    requires |flags| == |MissionPhases|
    ensures items == RowItems(leaf, flags)
  {
    items := [];
    for c := 0 to |MissionPhases|
      invariant items == RowItems(leaf, flags[..c])
    {
      assert flags[..c + 1][..c] == flags[..c];
      if flags[c] {
        var text := FullPath(leaf.up);
        var path := Split(text, PathSeparator);
        items := items + [Skeleton(Level(path, 0), Level(path, 1), Level(path, 2), leaf.funcType, MissionPhases[c])];
      }
    }
    assert flags[..|flags|] == flags;
  }
}
