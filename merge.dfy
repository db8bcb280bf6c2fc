/**
 * `pd.concat(all_dfs, ignore_index=True)` (process_data.py, line 49): the
 * merged table has the union of the files' columns, in order of first
 * appearance, and their rows file by file, each aligned to the merged
 * columns with a missing cell wherever its own file lacks the column. The
 * original row labels are dropped, and rows carry no labels in this model.
 */
module Merge {
  import opened Tables

  /** Appends to `acc`, in order, each name of `names` that it does not hold yet. */
  function AddColumns(acc: seq<string>, names: seq<string>): (r: seq<string>)
    ensures |acc| <= |r| && r[..|acc|] == acc
    ensures forall c :: c in r <==> c in acc || c in names
    ensures Distinct(acc) ==> Distinct(r)
    decreases |names|
  {
    if names == [] then acc
    else
      var acc' := if names[0] in acc then acc else acc + [names[0]];
      assert forall c :: c in names <==> c == names[0] || c in names[1..];
      var r := AddColumns(acc', names[1..]);
      assert r[..|acc|] == r[..|acc'|][..|acc|];
      r
  }

  /** The merged column list: the union of every file's columns, in order of first appearance. */
  function MergedColumns(tables: seq<Table>): (names: seq<string>)
    ensures Distinct(names)
    ensures forall c :: c in names <==> exists i :: 0 <= i < |tables| && c in tables[i].columns
  {
    if tables == [] then []
    else
      var init := tables[..|tables| - 1];
      assert forall i :: 0 <= i < |init| ==> init[i] == tables[i];
      AddColumns(MergedColumns(init), tables[|tables| - 1].columns)
  }

  /** When the first file's header has no repeated name, the merged columns start with it. */
  lemma {:induction false} MergedColumnsStartWithFirst(tables: seq<Table>)
    requires |tables| > 0 && Distinct(tables[0].columns)
    ensures |tables[0].columns| <= |MergedColumns(tables)|
    ensures MergedColumns(tables)[..|tables[0].columns|] == tables[0].columns
  {
    if |tables| == 1 {
      assert tables[..0] == [];
      assert MergedColumns(tables) == AddColumns([], tables[0].columns);
      AddColumnsFresh([], tables[0].columns);
    } else {
      var init := tables[..|tables| - 1];
      MergedColumnsStartWithFirst(init);
      var m := MergedColumns(init);
      var r := AddColumns(m, tables[|tables| - 1].columns);
      assert r[..|tables[0].columns|] == r[..|m|][..|tables[0].columns|];
    }
  }

  /** Adding names that are new and do not repeat appends them unchanged. */
  lemma {:induction false} AddColumnsFresh(acc: seq<string>, names: seq<string>)
    requires Distinct(acc + names)
    ensures AddColumns(acc, names) == acc + names
    decreases |names|
  {
    if names != [] {
      var all := acc + names;
      forall p | 0 <= p < |acc|
        ensures acc[p] != names[0]
      {
        assert all[p] == acc[p];
        assert all[|acc|] == names[0];
      }
      assert names[0] !in acc;
      assert acc + names == (acc + [names[0]]) + names[1..];
      AddColumnsFresh(acc + [names[0]], names[1..]);
    }
  }

  /** Adding names that are all present already changes nothing. */
  lemma {:induction false} AddColumnsKnown(acc: seq<string>, names: seq<string>)
    requires forall c :: c in names ==> c in acc
    ensures AddColumns(acc, names) == acc
    decreases |names|
  {
    if names != [] {
      assert names[0] in acc;
      AddColumnsKnown(acc, names[1..]);
    }
  }

  /** Files that share one header without repeats merge to that header. */
  lemma {:induction false} MergedColumnsSameHeader(tables: seq<Table>, header: seq<string>)
    requires |tables| > 0 && Distinct(header)
    requires forall i :: 0 <= i < |tables| ==> tables[i].columns == header
    ensures MergedColumns(tables) == header
  {
    var init := tables[..|tables| - 1];
    if init == [] {
      assert header == [] + header;
      AddColumnsFresh([], header);
    } else {
      MergedColumnsSameHeader(init, header);
      AddColumnsKnown(header, header);
    }
  }

  /** Every file's column names, file after file, repeats included. */
  function AllColumns(tables: seq<Table>): seq<string> {
    if tables == [] then [] else AllColumns(tables[..|tables| - 1]) + tables[|tables| - 1].columns
  }

  /** The index of the first occurrence of `name` in `names`, or `|names|` when it does not occur. */
  function FirstIndex(names: seq<string>, name: string): (i: nat)
    ensures i <= |names|
    ensures i < |names| <==> name in names
    ensures i < |names| ==> names[i] == name
    ensures forall j :: 0 <= j < i ==> names[j] != name
    decreases |names|
  {
    if names == [] then 0
    else if names[0] == name then 0
    else 1 + FirstIndex(names[1..], name)
  }

  /** The names `AddColumns` appends are never among those it started from. */
  lemma {:induction false} AddColumnsNew(acc: seq<string>, names: seq<string>)
    ensures forall k :: |acc| <= k < |AddColumns(acc, names)| ==> AddColumns(acc, names)[k] !in acc
    decreases |names|
  {
    if names != [] {
      var acc' := if names[0] in acc then acc else acc + [names[0]];
      AddColumnsNew(acc', names[1..]);
      var r := AddColumns(acc, names);
      assert r == AddColumns(acc', names[1..]);
      forall k | |acc| <= k < |r|
        ensures r[k] !in acc
      {
        if k < |acc'| {
          assert r[k] == r[..|acc'|][k] == acc'[k] == names[0];
        }
      }
    }
  }

  /** The names `AddColumns` appends come in the order in which they first occur in `names`. */
  lemma {:induction false} AddColumnsOrder(acc: seq<string>, names: seq<string>, k: nat, l: nat)
    requires |acc| <= k < l < |AddColumns(acc, names)|
    ensures FirstIndex(names, AddColumns(acc, names)[k]) < FirstIndex(names, AddColumns(acc, names)[l])
    decreases |names|
  {
    var r := AddColumns(acc, names);
    assert names != [];
    var acc' := if names[0] in acc then acc else acc + [names[0]];
    assert r == AddColumns(acc', names[1..]);
    AddColumnsNew(acc', names[1..]);
    if names[0] !in acc && k == |acc| {
      assert r[k] == r[..|acc'|][k] == names[0];
      assert r[l] !in acc';
    } else {
      AddColumnsOrder(acc', names[1..], k, l);
    }
  }

  /** Adding two lists of names one after the other is adding their concatenation. */
  lemma {:induction false} AddColumnsAppend(acc: seq<string>, a: seq<string>, b: seq<string>)
    ensures AddColumns(AddColumns(acc, a), b) == AddColumns(acc, a + b)
    decreases |a|
  {
    if a == [] {
      assert a + b == b;
    } else {
      var acc' := if a[0] in acc then acc else acc + [a[0]];
      assert (a + b)[0] == a[0] && (a + b)[1..] == a[1..] + b;
      AddColumnsAppend(acc', a[1..], b);
    }
  }

  /** Merging file by file is one pass over all the files' names. */
  lemma {:induction false} MergedColumnsAll(tables: seq<Table>)
    ensures MergedColumns(tables) == AddColumns([], AllColumns(tables))
  {
    if tables != [] {
      var init := tables[..|tables| - 1];
      MergedColumnsAll(init);
      AddColumnsAppend([], AllColumns(init), tables[|tables| - 1].columns);
    }
  }

  /**
   * The merged columns come in order of first appearance: of two merged
   * columns, the earlier one occurs first in the files' headers read file
   * after file.
   */
  lemma MergedColumnsOrder(tables: seq<Table>, k: nat, l: nat)
    requires k < l < |MergedColumns(tables)|
    ensures FirstIndex(AllColumns(tables), MergedColumns(tables)[l]) < |AllColumns(tables)|
    ensures FirstIndex(AllColumns(tables), MergedColumns(tables)[k]) < FirstIndex(AllColumns(tables), MergedColumns(tables)[l])
  {
    MergedColumnsAll(tables);
    AddColumnsOrder([], AllColumns(tables), k, l);
  }

  /** The cell of `row` (laid out by `header`) under `name`; missing when the header lacks it. */
  function Lookup(header: seq<string>, row: Row, name: string): (c: Cell)
    ensures name !in header ==> c == Null
    ensures name in header ==>
              exists i :: 0 <= i < |header| && header[i] == name && c == CellAt(row, i) &&
                forall j :: 0 <= j < i ==> header[j] != name
  {
    var ps := Positions(header, name);
    if ps == [] then Null else CellAt(row, ps[0])
  }

  /** A file's row realigned to the merged columns. */
  function ReindexRow(header: seq<string>, row: Row, names: seq<string>): (r: Row)
    ensures |r| == |names|
  {
    seq(|names|, k requires 0 <= k < |names| => Lookup(header, row, names[k]))
  }

  /**
   * A realigned cell is missing when the file lacks the column, and is the
   * file's own cell when the file has it (file headers never repeat a name).
   */
  lemma ReindexRowCell(header: seq<string>, row: Row, names: seq<string>, k: nat)
    requires k < |names|
    ensures names[k] !in header ==> ReindexRow(header, row, names)[k] == Null
    ensures forall i :: Distinct(header) && 0 <= i < |header| && header[i] == names[k] ==>
              ReindexRow(header, row, names)[k] == CellAt(row, i)
  {
    forall i | Distinct(header) && 0 <= i < |header| && header[i] == names[k]
      ensures ReindexRow(header, row, names)[k] == CellAt(row, i)
    {
      DistinctPositions(header, i);
    }
  }

  /** The number of rows across all files. */
  function TotalRows(tables: seq<Table>): nat {
    if tables == [] then 0 else TotalRows(tables[..|tables| - 1]) + |tables[|tables| - 1].rows|
  }

  /** All rows of one file realigned to `names`, in order. */
  function Realigned(t: Table, names: seq<string>): (rows: seq<Row>)
    ensures |rows| == |t.rows|
    ensures forall j :: 0 <= j < |t.rows| ==> rows[j] == ReindexRow(t.columns, t.rows[j], names)
  {
    seq(|t.rows|, j requires 0 <= j < |t.rows| => ReindexRow(t.columns, t.rows[j], names))
  }

  /** Every file's rows realigned to `names`, file after file. */
  function StackRows(tables: seq<Table>, names: seq<string>): (rows: seq<Row>)
    ensures |rows| == TotalRows(tables)
    ensures forall r :: r in rows ==> |r| == |names|
  {
    if tables == [] then []
    else
      StackRows(tables[..|tables| - 1], names) + Realigned(tables[|tables| - 1], names)
  }

  /** `pd.concat(all_dfs, ignore_index=True)`. */
  function Concat(tables: seq<Table>): (t: Table)
    ensures Rectangular(t)
    ensures |t.rows| == TotalRows(tables)
    ensures Distinct(t.columns)
  {
    var names := MergedColumns(tables);
    Table(names, StackRows(tables, names))
  }

  /** Row `j` of file `i` sits after all rows of the earlier files, realigned. */
  lemma {:induction false} StackRowsAt(tables: seq<Table>, names: seq<string>, i: nat, j: nat)
    requires i < |tables| && j < |tables[i].rows|
    ensures TotalRows(tables[..i]) + j < |StackRows(tables, names)|
    ensures StackRows(tables, names)[TotalRows(tables[..i]) + j]
         == ReindexRow(tables[i].columns, tables[i].rows[j], names)
  {
    var init := tables[..|tables| - 1];
    if i == |tables| - 1 {
      assert tables[..i] == init;
    } else {
      assert init[..i] == tables[..i];
      assert init[i] == tables[i];
      StackRowsAt(init, names, i, j);
    }
  }

  /**
   * The merged table lists the files' rows file by file and, within a file,
   * in row order; a cell keeps its value when the file has the column and is
   * missing when it does not.
   */
  lemma ConcatRowOrder(tables: seq<Table>, i: nat, j: nat, k: nat)
    requires i < |tables| && j < |tables[i].rows|
    requires Distinct(tables[i].columns)
    requires k < |Concat(tables).columns|
    ensures TotalRows(tables[..i]) + j < |Concat(tables).rows|
    ensures var cell := Concat(tables).rows[TotalRows(tables[..i]) + j][k];
            var name := Concat(tables).columns[k];
            && (name !in tables[i].columns ==> cell == Null)
            && (forall c :: 0 <= c < |tables[i].columns| && tables[i].columns[c] == name
                  ==> cell == CellAt(tables[i].rows[j], c))
  {
    StackRowsAt(tables, MergedColumns(tables), i, j);
    ReindexRowCell(tables[i].columns, tables[i].rows[j], MergedColumns(tables), k);
  }
}
