# never-miss-a-bill-again: bill table, commands and due-day matcher in Dafny

This project models the core of a personal bill tracker. The tracker keeps
recurring bills in a local database. Each bill has an id, a name, a recipient,
a monthly due day, an amount and a paid flag. Its command line lists, adds,
edits, marks, removes, imports and exports bills. It also reminds the user of
unpaid bills that fall due within a lookahead window.

What is modelled:

- `Models`: the `bills` and `config` rows. Amounts are integer cents.
- `Table`: the bills table as a sequence of rows in scan order (ascending id),
  with the row updates the program performs. Each update is also described
  through `Table.Lookup`, the view from id to bill. The lemmas state frame
  conditions in that view: "this id changed like so, no other id changed".
- `Crud`: the class `Database` (both tables, updated in place) with the
  repository functions of `nmba/data/crud.py` as methods.
- `Cli`: the commands of `nmba/cli.py` as methods on a `Database`. "exit 1"
  becomes an error outcome. Prompts, today's day of the month and the
  contents of a CSV file are parameters.
- `Notify`: the due-day window on the fixed 1..31 ring, the unpaid-and-due
  filter, the digest text and the list of notification targets.
- `CsvRows`: the row logic of CSV import and export. A row is a map from
  column name to cell text. `int(...)` and `float(...)` are partial functions
  passed in as parameters.
- `Format`: decimal text for `str(n)` and for an amount printed with `:.2f`.

Edge cases of the code that the model keeps as written:

- A lookahead of zero or less gives an empty window, so `notify` selects
  nothing, not even bills due today (`Notify.NoWindowNoBills`).
- A lookahead over 31 repeats days (`Notify.DueDaysRepeat`) instead of
  stopping at 31 distinct days.
- No write path checks that a due day lies in 1..31. `due_day` is any integer,
  and the window lemmas about a bill ask for 1..31 themselves.

Ids: the primary key is the row id. A new row gets one more than the largest
id, and a scan without ORDER BY returns rows in id order. `Table.Ordered`
states this (ids positive and strictly ascending), and every method keeps it.

## Model

| member | source | states |
|---|---|---|
| `Table.IndexOf` | nmba/cli.py:151 | position of the first row with the id; None exactly when no row has it |
| `Table.Lookup` | nmba/data/crud.py:10-11 | the bill returned has the id and is in the table; None exactly when no bill has the id |
| `Table.LookupIff` | nmba/data/crud.py:10-11 | in an ordered table, lookup by id yields b iff b is a stored row carrying that id |
| `Table.NewId` | nmba/data/models.py:9 | the id given to a new row is positive and larger than every stored id |
| `Table.NewIdFresh` | nmba/data/crud.py:14-19 | the new id names no stored bill |
| `Table.Insert` | nmba/data/crud.py:14-19 | insertion keeps the earlier rows and appends one row with the given fields and an id above every stored id |
| `Table.Remove` | nmba/data/crud.py:22-27 | deletion removes at most one row and adds none |
| `Table.Replace` | nmba/cli.py:216-233 | writing back keeps the length; each row is either unchanged or is the new row in the place of the row with its id |
| `Table.SetPaid` | nmba/data/crud.py:30-36 | keeps the length; each row is unchanged or is the row with the id with its flag set |
| `Table.SetAllPaid` | nmba/cli.py:258 | keeps the length; every row has the flag, its id, and otherwise its fields |
| `Table.RemoveAt` | nmba/data/crud.py:22-27 | cutting one row out of an ordered table keeps it ordered and leaves exactly the rows with a different id |
| `Table.InsertSpec` | nmba/data/crud.py:14-19 | insertion keeps ids ordered, adds one row with the new id and the given fields, and leaves every other id's bill unchanged |
| `Table.RemoveSpec` | nmba/data/crud.py:22-27 | deletion keeps order, removes exactly the rows with the id (one fewer row if it existed, none otherwise), and leaves every other id's bill unchanged |
| `Table.ReplaceSpec` | nmba/cli.py:216-233 | writing back a changed row puts it under its id; length, order and other ids' bills are unchanged; an unknown id changes nothing |
| `Table.SetPaidSpec` | nmba/data/crud.py:30-36 | setting the flag changes only the target bill's flag; a missing id leaves the table equal to before |
| `Table.SetPaidIdempotent` | nmba/data/crud.py:30-36 | setting the same flag twice on the same id equals setting it once |
| `Table.SetAllPaidSpec` | nmba/cli.py:258 | the bulk update keeps ids, order and length, every row gets the flag, and each id's bill differs only in its flag |
| `Table.SetAllPaidIdempotent` | nmba/cli.py:255-260 | the bulk update applied twice equals applying it once |
| `Crud.Database.GetBills` | nmba/data/crud.py:6-7 | returns every stored bill, in ascending id order |
| `Crud.Database.GetBill` | nmba/data/crud.py:10-11 | returns a stored bill with the id, or None exactly when no stored bill has it |
| `Crud.Database.CreateBill` | nmba/data/crud.py:14-19 | appends exactly one bill with the given fields and an id no stored bill had; returns it; config unchanged |
| `Crud.Database.DeleteBill` | nmba/data/crud.py:22-27 | returns the bill that had the id and removes exactly it (size minus one); a missing id returns None and changes nothing; other ids unchanged |
| `Crud.Database.MarkBillPaid` | nmba/data/crud.py:30-36 | sets the flag on the target bill only and returns it updated; a missing id returns None and changes nothing |
| `Format.NatToString` | nmba/cli.py:353 | the text of a number is non-empty, all decimal digits, and has no leading zero |
| `Format.NatToStringValue` | nmba/cli.py:353 | reading the digits back gives the number |
| `Format.IntToString` | nmba/cli.py:118 | `str(n)`: a minus sign exactly for a negative number, followed by the digits of its magnitude; only digits and `-` |
| `Format.FormatCents` | nmba/cli.py:354 | the `:.2f` text has at least four characters, a point third from the end, a leading minus exactly for a negative amount, and only digits, `-` and `.` |
| `Format.FormatCentsValue` | nmba/cli.py:354 | the `:.2f` text is a sign exactly for a negative amount, then units, a point and two digits that read back to the amount in cents |
| `CsvRows.TrimStart` | nmba/cli.py:311 | the result is no longer than the input and starts with a non-space character, or is empty |
| `CsvRows.TrimStartDropsSpace` | nmba/cli.py:311 | the leading trim keeps a suffix of the text and everything it drops is whitespace |
| `CsvRows.TrimEnd` | nmba/cli.py:311 | the result is a prefix of the input, everything it drops is whitespace, and it ends with a non-space character or is empty |
| `CsvRows.Strip` | nmba/cli.py:311-312 | a stripped cell has no surrounding whitespace and is no longer than the cell |
| `CsvRows.StripRemovesOnlySpace` | nmba/cli.py:311-312 | `strip()` keeps one contiguous piece of the cell; everything before it and everything after it is whitespace |
| `CsvRows.StripIdentity` | nmba/cli.py:311-312 | stripping leaves a text unchanged iff it has no surrounding whitespace |
| `CsvRows.Lower` | nmba/cli.py:315 | same length; each ASCII capital becomes the lower-case letter at the same place in the alphabet; every other character is kept |
| `CsvRows.IsTruthy` | nmba/cli.py:315 | a cell that is empty or all whitespace (also the absent `paid` cell, read as "") is not truthy |
| `CsvRows.PaidCell` | nmba/cli.py:355 | `str(bool(paid))` has no surrounding whitespace |
| `CsvRows.PaidCellStripped` | nmba/cli.py:355 | stripping the exported flag text leaves it unchanged |
| `CsvRows.PaidRoundTrip` | nmba/cli.py:315 | the exported flag text `"True"`/`"False"` (line 355) imports as the same boolean |
| `CsvRows.MissingColumns` | nmba/cli.py:305-306 | a required column is reported missing iff the header lacks it |
| `CsvRows.ParseRow` | nmba/cli.py:310-328 | a row yields a bill iff all four required cells are present and due_day and amount parse; the bill's name and recipient are the stripped cells, due_day and amount are the parsed values, and paid is the truthy test of the paid cell, or of "" when it is absent |
| `CsvRows.Imported` | nmba/cli.py:309-325 | an import adds at most one bill per row |
| `CsvRows.ImportAccounts` | nmba/cli.py:301-327 | added plus skipped equals the number of data rows |
| `CsvRows.ImportAllValid` | nmba/cli.py:309-325 | when every row parses, every row is added and none skipped |
| `CsvRows.Skipped` | nmba/cli.py:326-327 | an import skips at most one row per data row |
| `CsvRows.ImportedPrefixSnoc` | nmba/cli.py:309-325 | when row i parses, the first i+1 rows import as the first i rows followed by its bill, with no more skips |
| `CsvRows.SkippedPrefixSnoc` | nmba/cli.py:326-327 | when row i does not parse, the first i+1 rows import as the first i rows, with one more skip |
| `CsvRows.SkippedRowAddsNothing` | nmba/cli.py:326-327 | a row that fails to parse adds no bill and counts one skip |
| `CsvRows.ImportedSnoc` | nmba/cli.py:316-325 | a row that parses appends its bill after the bills of the rows before it |
| `CsvRows.ExportRow` | nmba/cli.py:349-357 | an exported row has exactly the five exported columns |
| `CsvRows.ExportRows` | nmba/cli.py:348-357 | one exported row per bill |
| `CsvRows.ExportHeaderComplete` | nmba/cli.py:345 | the exported header has every column an import requires |
| `CsvRows.RowRoundTrip` | nmba/cli.py:349-357 | an exported row imports as the bill's own fields when name and recipient have no surrounding whitespace and the number parsers read back `str`/`:.2f` text |
| `CsvRows.RowRoundTripLosesWhitespace` | nmba/cli.py:311 | a name with surrounding whitespace does not survive export and import |
| `CsvRows.ExportImportRoundTrip` | nmba/cli.py:342-357 | exporting a table and importing the file gives back every bill's fields, in table order, and skips no row |
| `Notify.DueDays` | nmba/cli.py:91 | the window has max(n, 0) days, each in 1..31, and the first is today |
| `Notify.DayOffset` | nmba/cli.py:91 | the i-th day of the window lies i mod 31 days after today on the ring |
| `Notify.DueDaysSuccessor` | nmba/cli.py:91 | each day of the window is the ring successor of the previous one (31 wraps to 1) |
| `Notify.DayAtOffset` | nmba/cli.py:91 | the day o days forward of today, o below 31, is the window's entry at index o |
| `Notify.InWindowNear` | nmba/cli.py:91 | every day of the window lies fewer than n days forward of today |
| `Notify.DueDaysMembership` | nmba/cli.py:91 | a day 1..31 is in the window iff it lies fewer than n days forward of today on the ring |
| `Notify.DueDaysDistinct` | nmba/cli.py:91 | a window of at most 31 days names no day twice |
| `Notify.DueDaysRepeat` | nmba/cli.py:91 | a window longer than 31 days repeats: its 32nd day is today again |
| `Notify.DueDaysCoverAll` | nmba/cli.py:91 | a window of 31 or more days contains every day 1..31 |
| `Notify.WrapExample` | nmba/cli.py:91 | day 30 with a three-day window gives 30, 31, 1 |
| `Notify.DueSoon` | nmba/cli.py:92-99 | a bill is selected iff it is stored, unpaid and its due day is in the window |
| `Notify.DueSoonOrdered` | nmba/cli.py:92-99 | the selection keeps table order (ascending ids) |
| `Notify.PaidNeverDue` | nmba/cli.py:95 | a paid bill is never selected, whatever its due day and the window |
| `Notify.NoWindowNoBills` | nmba/cli.py:91-99 | with lookahead at most 0 nothing is selected |
| `Notify.DueSoonWindow` | nmba/cli.py:91-99 | an unpaid stored bill with due day 1..31 is selected iff its due day lies fewer than n days forward of today |
| `Notify.RentExample` | nmba/cli.py:91-99 | a bill due on day 5 is selected on day 4 with a two-day window iff it is unpaid |
| `Notify.DigestLine` | nmba/cli.py:118 | the line is the name, " to ", the recipient, " due on day ", the `str` text of the due day, " for $" and the `:.2f` text of the amount, in that order; no line break unless the name or recipient has one |
| `Notify.Digest` | nmba/cli.py:116-121 | one line per selected bill, in order, each starting with that bill's name |
| `Notify.JoinLines` | nmba/cli.py:116 | `"\n".join`: the text starts with the first line and ends with the last; `SplitJoinRoundTrip` pins down the rest |
| `Notify.SplitLines` | nmba/cli.py:116 | `str.split("\n")` yields at least one piece |
| `Notify.SplitSingle` | nmba/cli.py:116 | a text without a line break splits into itself alone |
| `Notify.SplitStep` | nmba/cli.py:116 | a line without a line break followed by "\n" splits off as the first piece |
| `Notify.SplitJoinRoundTrip` | nmba/cli.py:116 | splitting the joined text at its line breaks gives back every line, in order, when no line holds a line break |
| `Notify.LineBreaksAppend` | nmba/cli.py:116 | the line breaks of two joined texts add up |
| `Notify.JoinLinesBreaks` | nmba/cli.py:116 | joining k lines without line breaks gives k - 1 line breaks |
| `Notify.DigestOneLinePerBill` | nmba/cli.py:115-122 | the reminder body for k selected bills splits at its line breaks into exactly their digest lines, in selection order, and has k - 1 line breaks, when no name or recipient contains a line break |
| `Notify.NotifyTargets` | nmba/cli.py:41 | a value is listed iff a `notify_target` row holds it |
| `Notify.NotifyTargetsAppend` | nmba/cli.py:49-54 | adding a target appends it after the earlier targets |
| `Cli.NotifyDue` | nmba/cli.py:89-122 | no reminder iff nothing is selected (always so for lookahead at most 0); otherwise the reminder lists exactly the unpaid bills due in the window, in table order, with title "Upcoming Bills Reminder", one digest line per bill joined by newlines, addressed to every configured target |
| `Cli.AddBill` | nmba/cli.py:129-143 | the prompted fields are stored as one new unpaid bill with a fresh id |
| `Cli.RemoveBill` | nmba/cli.py:148-157 | a missing id gives not-found with the table unchanged; otherwise exactly that bill is removed |
| `Cli.MarkPaid` | nmba/cli.py:188-197 | a missing id gives not-found with the table unchanged; otherwise only that bill becomes paid |
| `Cli.MarkUnpaid` | nmba/cli.py:241-250 | a missing id gives not-found with the table unchanged; otherwise only that bill becomes unpaid |
| `Cli.ApplyEdit` | nmba/cli.py:216-231 | each supplied option replaces its field, every other field and the id stay; no option, no change |
| `Cli.ApplyEditIdempotent` | nmba/cli.py:216-231 | applying the same edit twice equals applying it once |
| `Cli.EditBill` | nmba/cli.py:212-236 | a missing id gives not-found with no change; otherwise the bill becomes the edit of the old one, no other bill changes, and the outcome is "updated" iff some option was supplied |
| `Cli.MarkAllPaid` | nmba/cli.py:255-260 | every bill becomes paid; the count equals the number of bills |
| `Cli.MarkAllUnpaid` | nmba/cli.py:265-270 | every bill becomes unpaid; the count equals the number of bills |
| `Cli.RemoveAllBills` | nmba/cli.py:275-280 | the table ends empty; the count is its former size |
| `Cli.ImportCsv` | nmba/cli.py:294-330 | `--overwrite` empties the table first and reports its size; a header missing a required column fails with exactly the missing ones and adds nothing, after the deletion; otherwise the earlier rows are kept, the new rows carry the parsed rows' fields in order, and added plus skipped equals the data rows |
| `Cli.AppendedFields` | nmba/cli.py:316-325 | appending a bill after the imported rows extends their fields by the bill's fields and keeps the earlier rows |
| `Cli.AddRows` | nmba/cli.py:301-329 | the row loop keeps the existing rows, appends the bills of the rows that parse, and counts adds and skips |
| `Cli.ExportCsv` | nmba/cli.py:341-358 | the export has the five-column header, which an import accepts, and one row per bill in table order |
| `Cli.ConfigSetNotifyTarget` | nmba/cli.py:49-54 | a `notify_target` row is appended; the target list gains the URL at its end; bills unchanged |
| `Cli.ConfigShow` | nmba/cli.py:59-66 | shows exactly the configured targets, in insertion order |

## Left out

- Notification delivery through the Apprise library is not modelled. This
  covers `setup_apprise`'s `add`, `notify`, and all of
  `nmba/notice/notifications.py` (foreign library, threads, environment
  variables). `Cli.NotifyDue` returns the reminder (targets, title, body) that
  would be handed to it. It does not report delivery success.
- Schema creation and migrations are not modelled: `init`,
  `nmba/data/migrations.py`, the alembic versions and `nmba/data/database.py`
  only do database setup and file-system work.
- `version` is not modelled: it only looks up package metadata.
- Console output is not modelled. This covers Rich tables, messages and the
  `list-bills` rendering; the data `list-bills` shows is `Crud.Database.GetBills`.
  typer prompts become parameters. The `concise_errors` wrapper becomes the
  error outcomes.
- Opening, reading and writing CSV files is not modelled, and neither is
  quoting. An import takes the header and the rows `csv.DictReader` would
  yield. A file that cannot be opened is not modelled; in the source that
  failure also comes after an `--overwrite` deletion.
- Amounts are integer cents, not floats. Float rounding, NaN and infinities
  are not modelled.
- Python's `int(...)` and `float(...)` are not defined here. They are the
  `CsvRows.NumberParsers` parameter. The round-trip lemmas assume that these
  parsers read back the exported text (`CsvRows.ReadsBack`).
- `CsvRows.Lower`: lower-cases ASCII letters only. Python's Unicode case
  mapping is not modelled.
- SQL NULL in the `paid` column is not modelled. Every write path stores a
  boolean, so `paid` is a `bool`.
- The unique constraint on `config.key` is not modelled. `notify_target` is
  treated as a list that new targets are appended to.
- Transactions are not modelled. Each change counts as committed when made.
  With `--overwrite`, the deletion is committed before the header is checked;
  the missing-column error after it is modelled (`Cli.ImportCsv`), and the
  table stays empty.
- Failures at commit time are not modelled. In the source the final commit
  of `import-csv`, and the commits of `add-bill` and `edit-bill`, can fail
  after the earlier steps; the command then exits with an error and adds or
  changes nothing, while an `--overwrite` deletion before it stays done. The
  model always commits.
- Integer width is not modelled. SQLite stores `due_day` and the ids as
  64-bit integers, so a due day of 2^63 or more typed at a prompt or read
  from a CSV cell fails at commit in the source. In the model `due_day` and
  ids are unbounded integers, and such a value is stored.
- Storage errors (an unreachable or corrupt database file) are not modelled.
