/**
 * One run of `main` (process_data.py, lines 20-85) once the newest archive
 * has been located and downloaded: stop when there is no archive (lines
 * 27-29) or no CSV entry (line 48); otherwise merge, filter and clean the
 * tables, clear the worksheet, write the payload at A1 and post the message.
 */
module Job {
  import opened Wrappers
  import opened Text
  import opened Tables
  import opened Archive
  import opened Merge
  import opened Cleaning
  import opened Publish

  /** The newest archive of the folder: its display name and its parsed entries. */
  datatype ZipFile = ZipFile(name: string, archive: Archive)

  datatype Outcome =
    /** The folder query returned no file. */
    | NoZip
    /** The archive holds no entry named `*.csv` in any case. */
    | NoCsv
    /** A column lookup raised; nothing is written and nothing is posted. */
    | Failed(error: ColumnError)
    /** The sheet now holds `payload`, and `message` was posted. */
    | Uploaded(payload: Grid, message: string)

  /** The header of the merged table once its names are stripped. */
  function MergedHeader(zip: ZipFile): (h: seq<string>)
    ensures |h| == |MergedColumns(SelectCsv(zip.archive))|
    ensures forall k :: 0 <= k < |h| ==> h[k] == Strip(MergedColumns(SelectCsv(zip.archive))[k])
    ensures forall k :: 0 <= k < |h| ==> Strip(h[k]) == h[k]
  {
    var merged := MergedColumns(SelectCsv(zip.archive));
    StripNamesIdempotent(merged);
    StripNames(merged)
  }

  /** What one run does with the newest archive, if there is one. */
  function Main(newest: Option<ZipFile>): (o: Outcome)
    ensures o.NoZip? <==> newest.None?
    ensures o.NoCsv? <==> newest.Some? && SelectCsv(newest.value.archive) == []
    ensures o.Uploaded? <==> newest.Some? && SelectCsv(newest.value.archive) != [] && HeaderAccepted(MergedHeader(newest.value))
  {
    match newest
    case None => NoZip
    case Some(zip) =>
      var allDfs := SelectCsv(zip.archive);
      SelectCsvCount(zip.archive);
      if allDfs == [] then NoCsv
      else
        CleanErrors(StripColumns(Concat(allDfs)));
        match Transform(Concat(allDfs))
        case Failure(e) => Failed(e)
        case Success(t) => Uploaded(Payload(t), Message(zip.name, |t.rows|))
  }

  /** With CSV entries and an accepted header, the run reaches the upload. */
  lemma Uploads(zip: ZipFile)
    requires SelectCsv(zip.archive) != [] && HeaderAccepted(MergedHeader(zip))
    ensures Main(Some(zip)).Uploaded?
  {
  }

  /**
   * A completed run uploads the header followed by the kept rows, with no
   * missing cell and one cell per column in every row; the message names
   * the archive and counts exactly the uploaded data rows, which are never
   * more than the rows of all CSV files together. When no uploaded column is
   * repeated in the stripped header, the header row is the ten columns.
   */
  lemma MainUploaded(zip: ZipFile)
    requires SelectCsv(zip.archive) != [] && HeaderAccepted(MergedHeader(zip))
    ensures Main(Some(zip)).Uploaded?
    ensures var o := Main(Some(zip));
            && |o.payload| >= 1
            && o.message == Message(zip.name, |o.payload| - 1)
            && NoNulls(o.payload)
            && (forall r :: r in o.payload ==> |r| == |o.payload[0]|)
            && |o.payload| - 1 <= TotalRows(SelectCsv(zip.archive))
    ensures (forall w :: w in UploadColumns ==> |Positions(MergedHeader(zip), w)| == 1) ==>
              Main(Some(zip)).payload[0] == HeaderRow(UploadColumns)
  {
    Uploads(zip);
    var tables := SelectCsv(zip.archive);
    var df := StripColumns(Concat(tables));
    assert df.columns == MergedHeader(zip);
    assert |df.rows| == TotalRows(tables);
    CleanShape(df);
    var t := Clean(df).value;
    assert Transform(Concat(tables)) == Success(t);
    assert Main(Some(zip)) == Uploaded(Payload(t), Message(zip.name, |t.rows|));
  }

  /** The rows the mask keeps from one file, cleaned, against the merged header. */
  function FileRows(t: Table, names: seq<string>): (rows: seq<Row>)
    ensures |rows| <= |t.rows| && NoNulls(rows)
    ensures HeaderAccepted(StripNames(names)) ==> rows == Clean(Table(StripNames(names), Realigned(t, names))).value.rows
  {
    var df := Table(StripNames(names), Realigned(t, names));
    if HeaderAccepted(df.columns) then
      CleanShape(df);
      Clean(df).value.rows
    else
      []
  }

  /** The kept rows of every file, file after file. */
  function RowsByFile(tables: seq<Table>, names: seq<string>): (rows: seq<Row>)
    ensures |rows| <= TotalRows(tables) && NoNulls(rows)
  {
    if tables == [] then []
    else RowsByFile(tables[..|tables| - 1], names) + FileRows(tables[|tables| - 1], names)
  }

  /** Cleaning the stacked rows is cleaning each file's rows and stacking the results. */
  lemma {:induction false} CleanStacked(tables: seq<Table>, names: seq<string>)
    requires HeaderAccepted(StripNames(names))
    ensures Clean(Table(StripNames(names), StackRows(tables, names))).Success?
    ensures Clean(Table(StripNames(names), StackRows(tables, names))).value.rows == RowsByFile(tables, names)
  {
    var header := StripNames(names);
    if tables == [] {
      CleanRows(Table(header, []));
    } else {
      var init, last := tables[..|tables| - 1], tables[|tables| - 1];
      CleanStacked(init, names);
      CleanAppend(header, StackRows(init, names), Realigned(last, names));
    }
  }

  /**
   * The uploaded data rows are the kept rows of the first CSV file, then those
   * of the second, and so on, each file's rows in their own order.
   */
  lemma MainRowsByFile(zip: ZipFile)
    requires SelectCsv(zip.archive) != [] && HeaderAccepted(MergedHeader(zip))
    ensures Main(Some(zip)).Uploaded?
    ensures var tables := SelectCsv(zip.archive);
            Main(Some(zip)).payload[1..] == RowsByFile(tables, MergedColumns(tables))
  {
    Uploads(zip);
    var tables := SelectCsv(zip.archive);
    var names := MergedColumns(tables);
    CleanStacked(tables, names);
    var t := Clean(Table(StripNames(names), StackRows(tables, names))).value;
    assert Transform(Concat(tables)) == Success(t);
    assert Main(Some(zip)) == Uploaded(Payload(t), Message(zip.name, |t.rows|));
  }

  /** The outcome of a run on an archive, step by step as `main` reaches it. */
  lemma MainSteps(zip: ZipFile)
    ensures SelectCsv(zip.archive) == [] ==> Main(Some(zip)) == NoCsv
    ensures SelectCsv(zip.archive) != [] && Transform(Concat(SelectCsv(zip.archive))).Failure? ==>
              Main(Some(zip)) == Failed(Transform(Concat(SelectCsv(zip.archive))).error)
    ensures SelectCsv(zip.archive) != [] && Transform(Concat(SelectCsv(zip.archive))).Success? ==>
              var t := Transform(Concat(SelectCsv(zip.archive))).value;
              Main(Some(zip)) == Uploaded(Payload(t), Message(zip.name, |t.rows|))
  {
  }

  /**
   * Lines 41-71 of `main` on a downloaded archive: gather the CSV tables with
   * the loop of lines 41-46, stop at line 48 when there are none, then merge,
   * clean and build the payload and message. Nothing outside is touched yet.
   */
  method Prepare(zip: ZipFile) returns (o: Outcome)
    ensures o == Main(Some(zip))
    ensures !o.NoZip?
  {
    MainSteps(zip);
    var allDfs := CollectCsv(zip.archive);
    if allDfs == [] {
      return NoCsv;
    }
    var filtered := Transform(Concat(allDfs));
    if filtered.Failure? {
      return Failed(filtered.error);
    }
    var data := Payload(filtered.value);
    var content := Message(zip.name, |filtered.value.rows|);
    return Uploaded(data, content);
  }

  /**
   * Lines 73-85: clear the worksheet, write the payload from A1 and post the
   * message. The cleared sheet ends up holding exactly the payload.
   */
  method Deliver(data: Grid, content: string, sheet: Worksheet, hook: Webhook)
    modifies sheet, hook
    ensures sheet.cells == data
    ensures hook.posted == old(hook.posted) + [content]
  {
    sheet.Clear();
    sheet.Update(data);
    OverlayOntoCleared(data);
    hook.Post(content);
  }

  /**
   * `main` against a worksheet and a webhook: the early exits and a failed
   * column lookup leave both untouched; a completed run clears the sheet,
   * writes the payload at A1, so the sheet holds exactly the payload, and
   * posts the message once.
   */
  method Run(newest: Option<ZipFile>, sheet: Worksheet, hook: Webhook) returns (o: Outcome)
    modifies sheet, hook
    ensures o == Main(newest)
    ensures o.Uploaded? ==> sheet.cells == o.payload && hook.posted == old(hook.posted) + [o.message]
    ensures !o.Uploaded? ==> sheet.cells == old(sheet.cells) && hook.posted == old(hook.posted)
  {
    if newest.None? {
      return NoZip;
    }
    o := Prepare(newest.value);
    if o.Uploaded? {
      Deliver(o.payload, o.message, sheet, hook);
    }
  }
}
