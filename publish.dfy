/**
 * The upload and the notification (process_data.py, lines 71-85): the
 * payload of header and rows, the worksheet that is cleared and then written
 * from cell A1, and the text of the message posted to the chat webhook.
 */
module Publish {
  import opened Text
  import opened Tables

  /** Worksheet contents by row, then column; a cell past the end of its row is blank. */
  type Grid = seq<seq<Cell>>

  /** The header row: the column names as text cells. */
  function HeaderRow(names: seq<string>): (h: seq<Cell>)
    ensures |h| == |names|
    ensures forall k :: 0 <= k < |names| ==> h[k] == Text(names[k])
  {
    seq(|names|, k requires 0 <= k < |names| => Text(names[k]))
  }

  /**
   * `[filtered_df.columns.values.tolist()] + filtered_df.values.tolist()`:
   * the header first, then the data rows in order; with no missing cell in
   * the table there is none in the payload.
   */
  function Payload(t: Table): (p: Grid)
    ensures |p| == 1 + |t.rows|
    ensures p[0] == HeaderRow(t.columns)
    ensures forall i :: 0 <= i < |t.rows| ==> p[i + 1] == t.rows[i]
    ensures NoNulls(t.rows) ==> NoNulls(p)
    ensures Rectangular(t) ==> forall r :: r in p ==> |r| == |p[0]|
  {
    [HeaderRow(t.columns)] + t.rows
  }

  /** One row of the sheet after a row of new values is written over it from column A. */
  function OverlayRow(before: seq<Cell>, after: seq<Cell>): (r: seq<Cell>)
    ensures |r| == if |before| > |after| then |before| else |after|
    ensures forall j :: 0 <= j < |after| ==> r[j] == after[j]
    ensures forall j :: |after| <= j < |before| ==> r[j] == before[j]
  {
    if |before| > |after| then after + before[|after|..] else after
  }

  /**
   * The sheet after `update('A1', data)`: the block of `data` anchored at the
   * first row and column replaces what was there; every other cell stays.
   */
  function Overlay(grid: Grid, data: Grid): (r: Grid)
    ensures |r| == if |grid| > |data| then |grid| else |data|
    ensures forall i :: 0 <= i < |data| ==> r[i] == OverlayRow(if i < |grid| then grid[i] else [], data[i])
    ensures forall i :: |data| <= i < |grid| ==> r[i] == grid[i]
  {
    seq(if |grid| > |data| then |grid| else |data|,
        i requires 0 <= i < (if |grid| > |data| then |grid| else |data|) =>
          if i < |data| then OverlayRow(if i < |grid| then grid[i] else [], data[i]) else grid[i])
  }

  /** Writing at A1 over a cleared sheet leaves exactly the payload. */
  lemma OverlayOntoCleared(data: Grid)
    ensures Overlay([], data) == data
  {
  }

  /** Without the clear, rows below the payload would survive from the previous run. */
  lemma StaleRowsSurvive(grid: Grid, data: Grid)
    requires |grid| > |data|
    ensures Overlay(grid, data) != data
    ensures Overlay(grid, data)[|data|..] == grid[|data|..]
  {
  }

  /** The first worksheet of the destination spreadsheet. */
  class Worksheet {
    var cells: Grid

    constructor (initial: Grid)
      ensures cells == initial
    {
      cells := initial;
    }

    /** `worksheet.clear()`: every cell becomes blank. */
    method Clear()
      modifies this
      ensures cells == []
    {
      cells := [];
    }

    /** `worksheet.update('A1', data)`. */
    method Update(data: Grid)
      modifies this
      ensures cells == Overlay(old(cells), data)
    {
      cells := Overlay(cells, data);
    }
  }

  /** The chat webhook, seen as the list of message contents posted to it. */
  class Webhook {
    var posted: seq<string>

    constructor ()
      ensures posted == []
    {
      posted := [];
    }

    /** `requests.post(SEATALK_URL, json=msg)`, recording the message's content. */
    method Post(content: string)
      modifies this
      ensures posted == old(posted) + [content]
    {
      posted := posted + [content];
    }
  }

  /** The opening of the message, as the source spells it (a mis-decoded check mark). */
  const Banner: string := "\U{00E2}\U{0153}\U{2026} Dashboard Updated!\nFile: "
  const RowsLabel: string := "\nFiltered Rows: "

  /** The content of the notification for archive `file` and `rows` uploaded rows. */
  function Message(file: string, rows: nat): (m: string)
    ensures |Banner| + |file| <= |m|
    ensures m[..|Banner|] == Banner && m[|Banner|..|Banner| + |file|] == file
  {
    Banner + file + RowsLabel + Decimal(rows)
  }

  /** The message names the archive and ends with the row count, which reads back exactly. */
  lemma MessageReports(file: string, rows: nat)
    ensures var m := Message(file, rows);
            && |Banner| + |file| + |RowsLabel| < |m|
            && m[|Banner|..|Banner| + |file|] == file
            && AllDigits(m[|Banner| + |file| + |RowsLabel|..])
            && DigitsValue(m[|Banner| + |file| + |RowsLabel|..]) == rows
  {
    var m := Message(file, rows);
    assert m[|Banner|..|Banner| + |file|] == file;
    assert m[|Banner| + |file| + |RowsLabel|..] == Decimal(rows);
    DecimalRoundTrip(rows);
  }

  /** Two messages about the same archive differ whenever their row counts do. */
  lemma MessageDeterminesCount(file: string, m: nat, n: nat)
    requires Message(file, m) == Message(file, n)
    ensures m == n
  {
    MessageReports(file, m);
    MessageReports(file, n);
  }
}
