/**
 * Filtering and cleaning of the merged table (process_data.py, lines 52-64):
 * strip the column names, keep the rows whose receiver type is "station" and
 * whose current station is "soc 5" (ignoring case), project onto the ten
 * published columns, and replace every missing cell with the empty string.
 */
module Cleaning {
  import opened Wrappers
  import opened Text
  import opened Tables

  const ReceiverType: string := "Receiver type"
  const CurrentStation: string := "Current Station"

  /** The columns that are uploaded, in order. */
  const UploadColumns: seq<string> := [
    "TO Number", "SPX Tracking Number", "Receiver Name", "TO Order Quantity",
    "Operator", "Create Time", "Complete Time", "Remark", "Receive Status", "Staging Area ID"
  ]

  datatype ColumnError =
    /** pandas' KeyError: the listed names are not columns. */
    | MissingColumns(names: seq<string>)
    /** The name labels several columns, so `df[name]` is a DataFrame and has no `.str`. */
    | DuplicateColumn(name: string)

  /** `df.columns.str.strip()`: every name with surrounding whitespace removed. */
  function StripNames(names: seq<string>): (r: seq<string>)
    ensures |r| == |names|
    ensures forall i :: 0 <= i < |names| ==> r[i] == Strip(names[i])
  {
    seq(|names|, i requires 0 <= i < |names| => Strip(names[i]))
  }

  /** No stripped name starts or ends with whitespace, so lookups see the bare names. */
  lemma StripNamesTrimmed(names: seq<string>)
    ensures forall name :: name in StripNames(names) ==>
              name == [] || (!IsSpace(name[0]) && !IsSpace(name[|name| - 1]))
  {
  }

  /** Stripping the names a second time changes nothing. */
  lemma StripNamesIdempotent(names: seq<string>)
    ensures StripNames(StripNames(names)) == StripNames(names)
  {
    var once := StripNames(names);
    forall i | 0 <= i < |once|
      ensures Strip(once[i]) == once[i]
    {
      StripIdempotent(names[i]);
    }
  }

  /** `df.columns = df.columns.str.strip()`. */
  function StripColumns(t: Table): (r: Table)
    ensures r.rows == t.rows && |r.columns| == |t.columns|
    ensures forall i :: 0 <= i < |t.columns| ==> r.columns[i] == Strip(t.columns[i])
  {
    Table(StripNames(t.columns), t.rows)
  }

  /** `df[name]` as a single column: its position, or the error pandas raises. */
  function Column(t: Table, name: string): (res: Result<nat, ColumnError>)
    ensures res.Success? ==> res.value < |t.columns| && t.columns[res.value] == name
    ensures res.Success? <==> |Positions(t.columns, name)| == 1
    ensures res == Failure(MissingColumns([name])) <==> name !in t.columns
    ensures res == Failure(DuplicateColumn(name)) <==> |Positions(t.columns, name)| > 1
  {
    var ps := Positions(t.columns, name);
    if ps == [] then Failure(MissingColumns([name]))
    else if |ps| == 1 then Success(ps[0])
    else Failure(DuplicateColumn(name))
  }

  /** The mask of lines 55-56 for one row, given its receiver-type and current-station cells. */
  predicate Keep(receiver: Cell, station: Cell)
    ensures Keep(receiver, station) ==>
              receiver.Text? && station.Text? && |receiver.s| == |"station"| && |station.s| == |"soc 5"|
  {
    Lower(TextOf(receiver)) == "station" && Lower(TextOf(station)) == "soc 5"
  }

  /** A missing cell prints as "nan" and so never satisfies either comparison. */
  lemma NullNeverKept(c: Cell)
    ensures !Keep(Null, c) && !Keep(c, Null)
  {
    assert Lower("nan") == "nan";
  }

  /** `STATION` with `soc 5` is kept; `Station` with `SOC 4` is refused. */
  lemma KeepExamples()
    ensures Keep(Text("STATION"), Text("soc 5"))
    ensures !Keep(Text("Station"), Text("SOC 4"))
  {
    assert Lower("STATION") == "station";
    assert Lower("soc 5") == "soc 5";
    assert Lower("SOC 4") == "soc 4";
  }

  /** The rows the mask keeps, in their original order (`df[mask]`). */
  function FilterRows(rows: seq<Row>, ri: nat, ci: nat): (kept: seq<Row>)
    ensures |kept| <= |rows|
    ensures forall r :: r in kept ==> r in rows && Keep(CellAt(r, ri), CellAt(r, ci))
    ensures forall r :: r in rows && Keep(CellAt(r, ri), CellAt(r, ci)) ==> r in kept
  {
    if rows == [] then []
    else
      var last := rows[|rows| - 1];
      var init := rows[..|rows| - 1];
      assert forall r :: r in rows <==> r in init || r == last;
      FilterRows(init, ri, ci) + (if Keep(CellAt(last, ri), CellAt(last, ci)) then [last] else [])
  }

  /** Filtering distributes over concatenation, so kept rows keep their relative order. */
  lemma {:induction false} FilterRowsAppend(a: seq<Row>, b: seq<Row>, ri: nat, ci: nat)
    ensures FilterRows(a + b, ri, ci) == FilterRows(a, ri, ci) + FilterRows(b, ri, ci)
    decreases |b|
  {
    if b == [] {
      assert a + b == a;
    } else {
      var b' := b[..|b| - 1];
      assert (a + b)[..|a + b| - 1] == a + b';
      assert (a + b)[|a + b| - 1] == b[|b| - 1];
      FilterRowsAppend(a, b', ri, ci);
    }
  }

  /** A single row is kept exactly when the mask holds for it. */
  lemma FilterRowsSingle(r: Row, ri: nat, ci: nat)
    ensures FilterRows([r], ri, ci) == if Keep(CellAt(r, ri), CellAt(r, ci)) then [r] else []
  {
    assert [r][..0] == [];
  }

  /** The wanted names that are not columns, in the order they are wanted. */
  function MissingNames(names: seq<string>, wanted: seq<string>): (missing: seq<string>)
    ensures forall w :: w in missing <==> w in wanted && w !in names
  {
    if wanted == [] then []
    else
      var last := wanted[|wanted| - 1];
      var init := wanted[..|wanted| - 1];
      assert forall w :: w in wanted <==> w in init || w == last;
      MissingNames(names, init) + (if last in names then [] else [last])
  }

  /** The column positions `df[cols]` selects: every position of each wanted name, name by name. */
  function SelectIndices(names: seq<string>, wanted: seq<string>): (idx: seq<nat>)
    ensures forall k :: 0 <= k < |idx| ==> idx[k] < |names|
    ensures (forall w :: w in wanted ==> |Positions(names, w)| == 1) ==>
              |idx| == |wanted| && forall k :: 0 <= k < |idx| ==> names[idx[k]] == wanted[k]
  {
    if wanted == [] then []
    else
      var init := wanted[..|wanted| - 1];
      assert forall w :: w in init ==> w in wanted;
      SelectIndices(names, init) + Positions(names, wanted[|wanted| - 1])
  }

  /** The cells of `r` at the selected positions. */
  function ProjectRow(r: Row, idx: seq<nat>): (p: Row)
    ensures |p| == |idx|
    ensures forall k :: 0 <= k < |idx| ==> p[k] == CellAt(r, idx[k])
  {
    seq(|idx|, k requires 0 <= k < |idx| => CellAt(r, idx[k]))
  }

  /** The rows of `rows` cut down to the selected positions. */
  function ProjectRows(rows: seq<Row>, idx: seq<nat>): (ps: seq<Row>)
    ensures |ps| == |rows|
    ensures forall p :: p in ps ==> |p| == |idx|
    ensures forall i :: 0 <= i < |rows| ==> ps[i] == ProjectRow(rows[i], idx)
  {
    seq(|rows|, i requires 0 <= i < |rows| => ProjectRow(rows[i], idx))
  }

  /** The header of the projected table: the names at the selected positions. */
  function ProjectHeader(names: seq<string>, idx: seq<nat>): (h: seq<string>)
    requires forall k :: 0 <= k < |idx| ==> idx[k] < |names|
    ensures |h| == |idx|
    ensures forall k :: 0 <= k < |idx| ==> h[k] == names[idx[k]]
  {
    seq(|idx|, k requires 0 <= k < |idx| => names[idx[k]])
  }

  /** `df[cols]`: a KeyError naming the absent columns, or the projected table. */
  function Project(t: Table, wanted: seq<string>): (res: Result<Table, ColumnError>)
    ensures res.Failure? <==> exists w :: w in wanted && w !in t.columns
    ensures res.Failure? ==> res.error == MissingColumns(MissingNames(t.columns, wanted))
    ensures res.Success? ==> Rectangular(res.value) && |res.value.rows| == |t.rows|
    ensures res.Success? ==>
              forall i :: 0 <= i < |t.rows| ==> res.value.rows[i] == ProjectRow(t.rows[i], SelectIndices(t.columns, wanted))
    ensures res.Success? && (forall w :: w in wanted ==> |Positions(t.columns, w)| == 1) ==>
              res.value.columns == wanted
  {
    var missing := MissingNames(t.columns, wanted);
    if missing != [] then
      assert missing[0] in missing;
      Failure(MissingColumns(missing))
    else
      var idx := SelectIndices(t.columns, wanted);
      Success(Table(ProjectHeader(t.columns, idx), ProjectRows(t.rows, idx)))
  }

  /** `fillna('')` on one cell. */
  function FillCell(c: Cell): (d: Cell)
    ensures d.Text?
    ensures c.Text? ==> d == c
    ensures c.Null? ==> d == Text("")
  {
    if c.Null? then Text("") else c
  }

  function FillRow(r: Row): (f: Row)
    ensures |f| == |r|
    ensures forall k :: 0 <= k < |r| ==> f[k] == FillCell(r[k])
  {
    seq(|r|, k requires 0 <= k < |r| => FillCell(r[k]))
  }

  /** `filtered_df.fillna('')`: no cell is missing afterwards, and present cells are unchanged. */
  function FillNulls(t: Table): (r: Table)
    ensures r.columns == t.columns && |r.rows| == |t.rows|
    ensures NoNulls(r.rows)
    ensures forall i :: 0 <= i < |t.rows| ==> |r.rows[i]| == |t.rows[i]|
    ensures forall i, k :: 0 <= i < |t.rows| && 0 <= k < |t.rows[i]| && t.rows[i][k].Text? ==>
              r.rows[i][k] == t.rows[i][k]
    ensures forall i, k :: 0 <= i < |t.rows| && 0 <= k < |t.rows[i]| && t.rows[i][k].Null? ==>
              r.rows[i][k] == Text("")
    ensures Rectangular(t) ==> Rectangular(r)
  {
    Table(t.columns, seq(|t.rows|, i requires 0 <= i < |t.rows| => FillRow(t.rows[i])))
  }

  /** Lines 55-64, on a table whose column names are already stripped. */
  function Clean(df: Table): (res: Result<Table, ColumnError>)
    ensures res.Success? <==> HeaderAccepted(df.columns)
  {
    match Column(df, ReceiverType)
    case Failure(e) => Failure(e)
    case Success(ri) =>
      match Column(df, CurrentStation)
      case Failure(e) => Failure(e)
      case Success(ci) =>
        match Project(Table(df.columns, FilterRows(df.rows, ri, ci)), UploadColumns)
        case Failure(e) => Failure(e)
        case Success(projected) => Success(FillNulls(projected))
  }

  /** Lines 52-64: from the merged table to the table that is uploaded. */
  function Transform(raw: Table): (res: Result<Table, ColumnError>)
    ensures res.Success? <==> HeaderAccepted(StripNames(raw.columns))
  {
    Clean(StripColumns(raw))
  }

  /** The header passes every lookup: each mask column once, each published column at least once. */
  predicate HeaderAccepted(names: seq<string>) {
    && |Positions(names, ReceiverType)| == 1
    && |Positions(names, CurrentStation)| == 1
    && forall w :: w in UploadColumns ==> w in names
  }

  /**
   * Which error stops the run, in the order pandas meets them: the receiver-type
   * lookup, the current-station lookup, then the projection.
   */
  lemma CleanErrors(df: Table)
    ensures Clean(df).Success? <==> HeaderAccepted(df.columns)
    ensures ReceiverType !in df.columns ==> Clean(df) == Failure(MissingColumns([ReceiverType]))
    ensures |Positions(df.columns, ReceiverType)| > 1 ==> Clean(df) == Failure(DuplicateColumn(ReceiverType))
    ensures |Positions(df.columns, ReceiverType)| == 1 && CurrentStation !in df.columns ==>
              Clean(df) == Failure(MissingColumns([CurrentStation]))
    ensures |Positions(df.columns, ReceiverType)| == 1 && |Positions(df.columns, CurrentStation)| > 1 ==>
              Clean(df) == Failure(DuplicateColumn(CurrentStation))
    ensures |Positions(df.columns, ReceiverType)| == 1 && |Positions(df.columns, CurrentStation)| == 1 &&
            (exists w :: w in UploadColumns && w !in df.columns) ==>
              Clean(df) == Failure(MissingColumns(MissingNames(df.columns, UploadColumns)))
  {
  }

  /**
   * The uploaded table: one cell per column in every row, no missing cell, no
   * more rows than the merged table, and exactly the ten published columns in
   * order whenever none of them is repeated in the header.
   */
  lemma CleanShape(df: Table)
    requires HeaderAccepted(df.columns)
    ensures Clean(df).Success?
    ensures var t := Clean(df).value;
            && Rectangular(t)
            && NoNulls(t.rows)
            && |t.rows| <= |df.rows|
    ensures (forall w :: w in UploadColumns ==> |Positions(df.columns, w)| == 1) ==>
              Clean(df).value.columns == UploadColumns
  {
    CleanErrors(df);
  }

  /** Whether the mask keeps row `r` of a table whose header is `names`. */
  predicate Kept(names: seq<string>, r: Row)
    requires HeaderAccepted(names)
  {
    Keep(CellAt(r, Positions(names, ReceiverType)[0]), CellAt(r, Positions(names, CurrentStation)[0]))
  }

  /** What one kept row becomes: projected onto the published columns, missing cells filled. */
  function CleanRow(names: seq<string>, r: Row): (c: Row)
    ensures |c| == |SelectIndices(names, UploadColumns)|
    ensures forall k :: 0 <= k < |c| ==> c[k].Text?
  {
    FillRow(ProjectRow(r, SelectIndices(names, UploadColumns)))
  }

  /**
   * When each published column occurs once in the header, a cleaned row holds
   * the ten published columns in order: cell `k` is the row's cell under the
   * `k`-th of them, with a missing cell filled with the empty string.
   */
  lemma CleanRowCell(names: seq<string>, r: Row, k: nat)
    requires forall w :: w in UploadColumns ==> |Positions(names, w)| == 1
    requires k < |UploadColumns|
    ensures |CleanRow(names, r)| == |UploadColumns|
    ensures CleanRow(names, r)[k] == FillCell(CellAt(r, Positions(names, UploadColumns[k])[0]))
  {
    var idx := SelectIndices(names, UploadColumns);
    var ps := Positions(names, UploadColumns[k]);
    assert idx[k] in ps;
    assert ps[0] == idx[k];
  }

  /** Every row of `rows` cleaned, in order. */
  function CleanAll(names: seq<string>, rows: seq<Row>): (cs: seq<Row>)
    ensures |cs| == |rows|
    ensures forall i :: 0 <= i < |rows| ==> cs[i] == CleanRow(names, rows[i])
  {
    seq(|rows|, i requires 0 <= i < |rows| => CleanRow(names, rows[i]))
  }

  lemma CleanAllAppend(names: seq<string>, a: seq<Row>, b: seq<Row>)
    ensures CleanAll(names, a + b) == CleanAll(names, a) + CleanAll(names, b)
  {
    var whole, parts := CleanAll(names, a + b), CleanAll(names, a) + CleanAll(names, b);
    forall i | 0 <= i < |whole|
      ensures whole[i] == parts[i]
    {
      if i < |a| {
        assert (a + b)[i] == a[i];
      } else {
        assert (a + b)[i] == b[i - |a|];
      }
    }
  }

  /** The cleaned rows, whenever the header is accepted, in terms of the rows the mask keeps. */
  lemma CleanRows(df: Table)
    requires HeaderAccepted(df.columns)
    ensures Clean(df).Success?
    ensures Clean(df).value.rows
         == CleanAll(df.columns, FilterRows(df.rows, Positions(df.columns, ReceiverType)[0], Positions(df.columns, CurrentStation)[0]))
  {
    CleanErrors(df);
  }

  /** Cleaning `a + b` yields the cleaned rows of `a` followed by those of `b`. */
  lemma CleanAppend(names: seq<string>, a: seq<Row>, b: seq<Row>)
    requires HeaderAccepted(names)
    ensures Clean(Table(names, a)).Success? && Clean(Table(names, b)).Success?
    ensures Clean(Table(names, a + b)).Success?
    ensures Clean(Table(names, a + b)).value.rows
         == Clean(Table(names, a)).value.rows + Clean(Table(names, b)).value.rows
  {
    CleanRows(Table(names, a));
    CleanRows(Table(names, b));
    CleanRows(Table(names, a + b));
    var ri, ci := Positions(names, ReceiverType)[0], Positions(names, CurrentStation)[0];
    FilterRowsAppend(a, b, ri, ci);
    CleanAllAppend(names, FilterRows(a, ri, ci), FilterRows(b, ri, ci));
  }

  /** A table of one row yields that row cleaned when the mask keeps it, and nothing otherwise. */
  lemma CleanSingle(names: seq<string>, r: Row)
    requires HeaderAccepted(names)
    ensures Clean(Table(names, [r])).Success?
    ensures Clean(Table(names, [r])).value.rows == if Kept(names, r) then [CleanRow(names, r)] else []
  {
    CleanRows(Table(names, [r]));
    FilterRowsSingle(r, Positions(names, ReceiverType)[0], Positions(names, CurrentStation)[0]);
  }
}
