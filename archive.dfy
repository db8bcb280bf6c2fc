/**
 * The downloaded ZIP archive, already decompressed and parsed: its entries in
 * `namelist()` order, each with the table `pd.read_csv` would produce for what
 * `z.open(name)` yields for its name, and the loop that gathers the tables of the `.csv` entries
 * (process_data.py, lines 41-46).
 */
module Archive {
  import opened Text
  import opened Tables

  datatype Entry = Entry(name: string, table: Table)

  type Archive = seq<Entry>

  /** `filename.lower().endswith('.csv')`. */
  predicate IsCsvName(name: string)
    ensures IsCsvName(name) <==> |name| >= 4 && Lower(name[|name| - 4..]) == ".csv"
  {
    var lower := Lower(name);
    assert |name| >= 4 ==> lower[|name| - 4..] == Lower(name[|name| - 4..]);
    EndsWith(lower, ".csv")
  }

  /** The tables of the `.csv` entries, in archive order. */
  function SelectCsv(archive: Archive): (tables: seq<Table>)
    ensures |tables| <= |archive|
    ensures forall t :: t in tables ==>
              exists i :: 0 <= i < |archive| && IsCsvName(archive[i].name) && archive[i].table == t
  {
    if archive == [] then []
    else
      var last := archive[|archive| - 1];
      SelectCsv(archive[..|archive| - 1]) + (if IsCsvName(last.name) then [last.table] else [])
  }

  /** Selection distributes over the concatenation of two parts of an archive. */
  lemma {:induction false} SelectCsvAppend(a: Archive, b: Archive)
    ensures SelectCsv(a + b) == SelectCsv(a) + SelectCsv(b)
  {
    if b == [] {
      assert a + b == a;
    } else {
      var b' := b[..|b| - 1];
      assert (a + b)[..|a + b| - 1] == a + b';
      assert (a + b)[|a + b| - 1] == b[|b| - 1];
      SelectCsvAppend(a, b');
    }
  }

  /** Only `.csv` entries are read, and every one of them is. */
  lemma {:induction false} SelectCsvSingle(e: Entry)
    ensures SelectCsv([e]) == if IsCsvName(e.name) then [e.table] else []
  {
    assert [e][..0] == [];
  }

  /** Number of `.csv` entries in an archive. */
  function CsvCount(archive: Archive): nat {
    if archive == [] then 0
    else CsvCount(archive[..|archive| - 1]) + (if IsCsvName(archive[|archive| - 1].name) then 1 else 0)
  }

  /** One table per `.csv` entry; none at all exactly when no entry is a `.csv` file. */
  lemma {:induction false} SelectCsvCount(archive: Archive)
    ensures |SelectCsv(archive)| == CsvCount(archive)
    ensures SelectCsv(archive) == [] <==> forall i :: 0 <= i < |archive| ==> !IsCsvName(archive[i].name)
  {
    if archive != [] {
      var init := archive[..|archive| - 1];
      SelectCsvCount(init);
      assert forall i :: 0 <= i < |init| ==> init[i] == archive[i];
    }
  }

  /** An upper-case extension is accepted; another extension is skipped. */
  lemma SelectCsvExample(t: Table, u: Table)
    ensures SelectCsv([Entry("A.CSV", t), Entry("a.txt", u)]) == [t]
  {
    assert SelectCsv([Entry("A.CSV", t)]) == [t] by {
      assert "A.CSV"[1..] == ".CSV";
      assert Lower(".CSV") == ".csv";
      SelectCsvSingle(Entry("A.CSV", t));
    }
    assert SelectCsv([Entry("a.txt", u)]) == [] by {
      assert "a.txt"[1..] == ".txt";
      assert Lower(".txt")[1] == 't';
      SelectCsvSingle(Entry("a.txt", u));
    }
    SelectCsvAppend([Entry("A.CSV", t)], [Entry("a.txt", u)]);
    assert [Entry("A.CSV", t)] + [Entry("a.txt", u)] == [Entry("A.CSV", t), Entry("a.txt", u)];
  }


  /** The `for filename in z.namelist()` loop that appends each CSV table to `all_dfs`. */
  method CollectCsv(archive: Archive) returns (allDfs: seq<Table>)
    ensures allDfs == SelectCsv(archive)
  {
    allDfs := [];
    for i := 0 to |archive|
      invariant allDfs == SelectCsv(archive[..i])
    {
      assert archive[..i + 1][..i] == archive[..i];
      if IsCsvName(archive[i].name) {
        allDfs := allDfs + [archive[i].table];
      }
    }
    assert archive[..|archive|] == archive;
  }
}
