# Dashboard refresh job, modelled in Dafny

`process_data.py` runs one job. It finds the newest ZIP archive in a Drive
folder and reads every `.csv` entry of it into a table. It stacks those tables
into one, strips the column names and keeps the rows whose `Receiver type` is
`station` and whose `Current Station` is `soc 5`, ignoring case. It cuts those
rows down to ten columns and fills missing cells with the empty string. Then
it clears the first worksheet of a spreadsheet, writes the header and the rows
from cell A1, and posts a message that names the archive and counts the rows.

The model follows that path from the downloaded archive to the sheet and the
message:

- `Text`: the string operations the job uses (`lower`, `strip`, `endswith`,
  and the decimal rendering of a count).
- `Tables`: cells, rows and tables with positional column names. A name may
  occur more than once, because stripping can make two names equal.
- `Archive`: choosing the `.csv` entries in archive order. `CollectCsv` is the
  loop of lines 41-46.
- `Merge`: `pd.concat(..., ignore_index=True)`. The columns are the union of
  the files' columns in order of first appearance. Each file's rows are
  realigned to that union, with a missing cell wherever a file lacks a column.
- `Cleaning`: lines 52-64. This covers the strip, the mask, the projection
  onto the ten columns and `fillna('')`, together with the errors that pandas
  raises when a column is absent or repeated.
- `Publish`: the payload, the worksheet (`Worksheet.Clear`,
  `Worksheet.Update`), the webhook (`Webhook.Post`) and the message text.
- `Job`: `main` as a function of the newest archive (`Main`), and as a method
  that acts on a worksheet and a webhook (`Run`).

Three details of the code shape the model:

- When the archive holds no CSV entry, line 48 returns before the sheet is
  touched. Nothing is cleared and nothing is posted.
- `astype(str)` turns a missing cell into `"nan"`, so such a row never passes
  the mask.
- The message starts with the characters that the source file holds at
  line 81, `U+00E2 U+0153 U+2026`. These are a mis-decoded check mark, and the
  model keeps them as written (`Publish.Banner`).

## Model

| member | source | states |
|---|---|---|
| Text.Lower | process_data.py:44 | `lower()` keeps the length, maps each upper-case ASCII letter to its lower-case letter and leaves every other character unchanged |
| Text.EndsWith | process_data.py:44 | `s.endswith(suffix)` holds exactly when the suffix is no longer than `s` and matches its last characters one by one |
| Text.IsSpace | process_data.py:52 | the characters `str.strip()` removes: exactly the 29 characters for which Python's `str.isspace` holds (tab, line feed, U+000B, U+000C, carriage return, U+001C-U+001F, space, U+0085, U+00A0, U+1680, U+2000-U+200A, U+2028, U+2029, U+202F, U+205F, U+3000); the contract records that no ASCII letter or digit is among them |
| Text.Strip | process_data.py:52 | the result is the infix of the name that starts after its leading whitespace; it neither starts nor ends with whitespace, and every character removed is whitespace |
| Text.StripIdempotent | process_data.py:52 | stripping a stripped name changes nothing |
| Text.Decimal | process_data.py:81 | the rendered count is a non-empty run of digits with no leading zero: 0 is written as the single digit `0` |
| Text.DecimalRoundTrip | process_data.py:81 | reading the rendered count back gives the count |
| Tables.TextOf | process_data.py:55-56 | `astype(str)` gives a text cell's own text and `"nan"` for a missing cell |
| Tables.Positions | process_data.py:55-61 | all positions of a column name, ascending and complete; empty exactly when the name is not a column |
| Tables.DistinctPositions | process_data.py:55-61 | in a header with no repeated name, each name sits at exactly its own position |
| Archive.IsCsvName | process_data.py:44 | a name is a CSV name exactly when its last four characters, lower-cased, are `.csv` |
| Archive.SelectCsv | process_data.py:43-46 | the selected tables are no more than the entries, and each is the table of an entry with a CSV name |
| Archive.SelectCsvAppend | process_data.py:43-46 | selecting from two parts of an archive is selecting from each part and concatenating the results, so archive order is kept |
| Archive.SelectCsvSingle | process_data.py:44-46 | an entry is read exactly when its lower-cased name ends with `.csv` |
| Archive.SelectCsvCount | process_data.py:43-48 | one table per `.csv` entry; the list is empty exactly when no entry is a `.csv` file (the exit of line 48) |
| Archive.SelectCsvExample | process_data.py:44 | `A.CSV` is read and `a.txt` is skipped |
| Archive.CollectCsv | process_data.py:41-46 | the loop over `namelist()` appends exactly the selected tables, in archive order |
| Merge.AddColumns | process_data.py:49 | adding a file's columns keeps the columns so far as a prefix, adds exactly the new names, and never repeats a name |
| Merge.MergedColumns | process_data.py:49 | the merged columns have no repeats and are exactly the names that occur in some file's header |
| Merge.MergedColumnsStartWithFirst | process_data.py:49 | when the first file's header has no repeats, the merged columns start with it |
| Merge.AddColumnsFresh | process_data.py:49 | adding names that are all new, with no repeats, appends them unchanged |
| Merge.AddColumnsKnown | process_data.py:49 | adding names that are already present changes nothing |
| Merge.MergedColumnsSameHeader | process_data.py:49 | files that share one header with no repeats merge to that header |
| Merge.AddColumnsNew | process_data.py:49 | the names that adding a header appends are never among the columns gathered so far |
| Merge.AddColumnsOrder | process_data.py:49 | the appended names come in the order in which they first occur in the added names |
| Merge.AddColumnsAppend | process_data.py:49 | adding two lists of names one after the other is adding their concatenation |
| Merge.MergedColumnsAll | process_data.py:49 | merging file by file is one pass over all the files' column names, file after file |
| Merge.MergedColumnsOrder | process_data.py:49 | the merged columns come in order of first appearance: of two merged columns, the earlier first occurs earlier in the headers read file after file |
| Merge.Lookup | process_data.py:49 | a cell taken under a column name is missing when the file lacks the name, and otherwise is the row's cell at the first column with that name |
| Merge.ReindexRow | process_data.py:49 | a realigned row has exactly one cell per merged column |
| Merge.ReindexRowCell | process_data.py:49 | a realigned row has a missing cell under each column its file lacks, and the file's own cell under each column it has |
| Merge.Realigned | process_data.py:49 | a file keeps its row count and each row is realigned to the merged columns |
| Merge.StackRows | process_data.py:49 | the stacked rows number the total of all files' rows, each as wide as the merged header |
| Merge.Concat | process_data.py:49 | the concatenated table is rectangular, has no repeated column and holds every row of every file |
| Merge.StackRowsAt | process_data.py:49 | row `j` of file `i` sits at index (rows of files before `i`) + `j`, realigned |
| Merge.ConcatRowOrder | process_data.py:49 | in the concatenated table, each file's cells appear under their own column names at that index, and columns the file lacks are missing |
| Cleaning.StripColumns | process_data.py:52 | stripping the header keeps every row and the number of columns, and strips each column name |
| Cleaning.StripNames | process_data.py:52 | stripping the names keeps their number and strips each one |
| Cleaning.StripNamesTrimmed | process_data.py:52 | no stripped name starts or ends with whitespace |
| Cleaning.StripNamesIdempotent | process_data.py:52 | stripping the names twice is stripping them once |
| Cleaning.Column | process_data.py:55-56 | `df[name]` succeeds exactly when the name labels one column, at the position returned; it raises a KeyError when the name is absent and fails when the name is repeated |
| Cleaning.Keep | process_data.py:55-56 | a kept row has text in both mask columns, of the lengths of `station` and `soc 5` |
| Cleaning.NullNeverKept | process_data.py:55-56 | a row with a missing receiver-type or station cell is never kept |
| Cleaning.KeepExamples | process_data.py:55-56 | a row with `STATION` and `soc 5` is kept; a row with `Station` and `SOC 4` is refused |
| Cleaning.FilterRows | process_data.py:61 | `df[mask]` keeps exactly the rows that satisfy the mask and no more rows than it was given |
| Cleaning.FilterRowsAppend | process_data.py:61 | filtering distributes over concatenation, so kept rows keep their relative order |
| Cleaning.FilterRowsSingle | process_data.py:61 | a single row is kept exactly when the mask holds for it |
| Cleaning.MissingNames | process_data.py:58-61 | the names reported missing are exactly the wanted names that are not columns |
| Cleaning.SelectIndices | process_data.py:58-61 | selected positions are valid; when each wanted name occurs once, they are those names' positions in the wanted order |
| Cleaning.ProjectRow | process_data.py:61 | a projected row has the cells at the selected positions |
| Cleaning.ProjectRows | process_data.py:61 | projection keeps the row count and gives every row the selected width |
| Cleaning.ProjectHeader | process_data.py:61 | the projected header has the names at the selected positions |
| Cleaning.Project | process_data.py:58-61 | `df[cols]` fails exactly when some wanted name is absent and then reports every absent name; otherwise row `i` of the result is row `i` of the input cut down to the selected positions, the result is rectangular, and it has exactly the ten columns when each occurs once |
| Cleaning.FillCell | process_data.py:64 | after `fillna('')` a cell is text: a missing cell becomes the empty string, and text cells are unchanged |
| Cleaning.FillRow | process_data.py:64 | filling a row fills each of its cells |
| Cleaning.FillNulls | process_data.py:64 | `fillna('')` turns every missing cell into the empty string and leaves no missing cell; it keeps the header, the row count, every row's width and every present cell |
| Cleaning.Clean | process_data.py:55-64 | cleaning a table with a stripped header succeeds exactly when the header is accepted: each mask column once and each published column at least once |
| Cleaning.Transform | process_data.py:52-64 | the whole transformation succeeds exactly when the stripped header is accepted |
| Cleaning.CleanErrors | process_data.py:55-64 | cleaning succeeds exactly when the header is accepted; otherwise it fails with the first error the source meets, in the order receiver type, current station, the ten columns |
| Cleaning.CleanShape | process_data.py:55-64 | a cleaned table is rectangular, has no missing cell and no more rows than its input; its header is the ten columns when each occurs once |
| Cleaning.CleanRow | process_data.py:61-64 | a cleaned row has the projected width and no missing cell |
| Cleaning.CleanRowCell | process_data.py:58-64 | when each published column occurs once, a cleaned row has ten cells, and cell `k` is the row's cell under the `k`-th published column with a missing cell turned into the empty string |
| Cleaning.CleanAll | process_data.py:61-64 | cleaning rows keeps their count and cleans each row |
| Cleaning.CleanAllAppend | process_data.py:61-64 | cleaning rows distributes over concatenation |
| Cleaning.CleanRows | process_data.py:55-64 | with an accepted header, the cleaned rows are the kept rows, each cleaned, in order |
| Cleaning.CleanAppend | process_data.py:55-64 | cleaning two blocks of rows is cleaning each block and concatenating the results |
| Cleaning.CleanSingle | process_data.py:55-64 | a single row yields its cleaned row exactly when the mask keeps it |
| Publish.HeaderRow | process_data.py:71 | the header row holds each column name as text, in order |
| Publish.Payload | process_data.py:71 | the payload is the header followed by the data rows in order; it has no missing cell and is rectangular when the table is |
| Publish.OverlayRow | process_data.py:74 | a row written from column A replaces the cells it covers and keeps the rest |
| Publish.Overlay | process_data.py:74 | `update('A1', data)` replaces the block that the data covers and keeps every other cell |
| Publish.OverlayOntoCleared | process_data.py:73-74 | after clearing, the update leaves exactly the payload |
| Publish.StaleRowsSurvive | process_data.py:73-74 | without the clear, rows below a shorter payload would remain from the previous contents |
| Publish.Worksheet.Clear | process_data.py:73 | the worksheet is empty afterwards |
| Publish.Worksheet.Update | process_data.py:74 | the worksheet becomes its previous contents overlaid with the data at A1 |
| Publish.Webhook.Post | process_data.py:85 | the posted message is appended to what the webhook has received |
| Publish.Message | process_data.py:81 | the message starts with the banner, followed by the archive name |
| Publish.MessageReports | process_data.py:81 | the message carries the archive name after the banner and ends with digits that read back as the row count |
| Publish.MessageDeterminesCount | process_data.py:81 | two messages about one archive are equal only when they report the same count |
| Job.MergedHeader | process_data.py:49-52 | name `k` of the header is the `k`-th merged column stripped, one per merged column, and no name changes when stripped again |
| Job.Main | process_data.py:27-81 | no archive gives the early exit of lines 27-29; an archive from which no table is selected gives the exit of line 48 (which `Archive.SelectCsvCount` ties to no `.csv` entry); the upload happens exactly when tables are selected and the stripped merged header passes every lookup |
| Job.Uploads | process_data.py:48-74 | with CSV entries and an accepted stripped header, the run reaches the upload |
| Job.MainUploaded | process_data.py:71-81 | an upload is a header plus at most the total number of CSV rows, with no missing cell and one cell per column; the message counts exactly the uploaded data rows; the header is the ten columns when each occurs once |
| Job.FileRows | process_data.py:55-64 | one file's contribution has no missing cell and no more rows than the file; with an accepted header it is the file's realigned rows, cleaned |
| Job.RowsByFile | process_data.py:49-64 | the files' contributions together have no missing cell and no more rows than all the files |
| Job.CleanStacked | process_data.py:49-64 | cleaning the stacked rows of all files is cleaning each file's rows and stacking the results |
| Job.MainRowsByFile | process_data.py:41-71 | the uploaded rows are the kept rows of the first CSV file, then those of the second, and so on, each in its own order |
| Job.Prepare | process_data.py:41-71 | gathering the CSV tables with the loop, then merging, cleaning and building the payload gives the outcome of `Main`, and never the no-archive exit |
| Job.Deliver | process_data.py:73-85 | after clearing, writing at A1 and posting, the sheet holds exactly the payload and the message has been posted once |
| Job.Run | process_data.py:20-85 | the run returns the outcome of `Main`; on upload the sheet holds exactly the payload and the message is posted once; on every other outcome the sheet and webhook are unchanged |

## Left out

- The environment variables and service-account authorisation (lines 9-18). They are configuration that does not affect what the job computes.
- The Drive query (lines 22-25) and the chunked download (lines 35-39). Their result is the `Option<ZipFile>` that `Job.Main` and `Job.Run` take as input.
- ZIP decompression and `pd.read_csv` parsing: the BOM, type inference and pandas' renaming of duplicate header names while parsing. Each entry arrives already as a table of text and missing cells.
- Numeric cells. A number read from a CSV and compared through `astype(str)` is modelled as its text; only the missing value is treated specially, as `"nan"`.
- Opening the spreadsheet and choosing its first worksheet (lines 67-68). The worksheet is a parameter of `Job.Run`.
- The HTTP request, the JSON envelope of the message (`tag`, `at_all`) and the console output (lines 28, 32, 75). Only the message content is modelled.
- Failures of the network, Drive, Sheets or the webhook. `Job.Run` models only the column errors that pandas raises.
- Text.Lower: only ASCII letters are lower-cased, where Python's `str.lower` also folds other letters. The job compares only with `station`, `soc 5` and `.csv`, and no non-ASCII character lower-cases to one of their characters (U+0130 lower-cases to two characters, `i` followed by U+0307). So the comparisons come out as in Python.
- Cleaning.Project: the error records the missing names but not the wording of pandas' KeyError message.
- Merge.Concat: an empty list of tables gives an empty table, where pandas raises. That case cannot arise, because line 48 returns first.
- Archive: an entry's table is the one that `z.open(name)` yields for its listed name. When an archive lists the same name twice, Python's `zipfile` opens the last entry with that name both times; the model does not derive this from the archive's raw entries.
- Merge.Lookup: when one file's header repeats a name, the cell is taken from the first such column. The model does not reproduce how pandas aligns duplicate labels across files.
