/**
 * An abstract pandas DataFrame: an ordered list of column names and rows of
 * cells addressed by position. A cell is either missing (pandas NaN) or text.
 */
module Tables {
  import opened Text

  datatype Cell = Null | Text(s: string)

  type Row = seq<Cell>

  datatype Table = Table(columns: seq<string>, rows: seq<Row>)

  /** The cell of `r` in column position `i`; a short row reads as missing there. */
  function CellAt(r: Row, i: nat): Cell {
    if i < |r| then r[i] else Null
  }

  /** `astype(str)`: a missing cell prints as "nan", text is itself. */
  function TextOf(c: Cell): (s: string)
    ensures c.Text? ==> s == c.s
    ensures c.Null? ==> s == "nan"
  {
    match c
    case Null => "nan"
    case Text(s) => s
  }

  /** Every row has exactly one cell per column. */
  predicate Rectangular(t: Table) {
    forall r :: r in t.rows ==> |r| == |t.columns|
  }

  /** No cell of the table is missing. */
  predicate NoNulls(rows: seq<Row>) {
    forall r, c :: r in rows && c in r ==> c.Text?
  }

  /** No column name occurs twice. */
  predicate Distinct(names: seq<string>) {
    forall i, j :: 0 <= i < j < |names| ==> names[i] != names[j]
  }

  /** All positions, in ascending order, at which `name` is a column. */
  function Positions(names: seq<string>, name: string): (ps: seq<nat>)
    ensures forall k :: 0 <= k < |ps| ==> ps[k] < |names| && names[ps[k]] == name
    ensures forall i :: 0 <= i < |names| && names[i] == name ==> i in ps
    ensures forall k, l :: 0 <= k < l < |ps| ==> ps[k] < ps[l]
    ensures ps == [] <==> name !in names
  {
    if names == [] then []
    else
      var last := |names| - 1;
      var ps' := Positions(names[..last], name);
      assert forall i :: 0 <= i < last ==> names[..last][i] == names[i];
      if names[last] == name then ps' + [last] else ps'
  }

  /** In a list without repeats, a present name sits at exactly one position. */
  lemma DistinctPositions(names: seq<string>, i: nat)
    requires Distinct(names) && i < |names|
    ensures Positions(names, names[i]) == [i]
  {
    var ps := Positions(names, names[i]);
    assert i in ps;
    if |ps| > 1 {
      assert false;
    }
  }
}
