# Fixture management backend: allocation engine and guarded rules

This project models the logic of the fixture-management HTTP backend in
Dafny. The backend tracks manufacturing test fixtures, their usage, and
machine models.

At its centre is the **max-stations allocation**. For one machine model it
reads the requirement rows (station, fixture code, required quantity) and
a stock dictionary built from the fixtures (fixture name to `life_value`).
It then answers, for each station, the smallest `stock // required`
over that station's rows: a station is bottlenecked by its scarcest
fixture. A model without requirement rows is answered with 404.

Around it sit smaller rules, each also modelled here:

- the four summary counts over the fixture rows;
- the spreadsheet import of the fixture-model and machine-model catalogs;
- the CSV export of the usage log;
- the SMTP settings upsert;
- the login credential check and the protected `admin` account.

The relational store is modelled by values: each table is a `seq` of
datatype rows, and the settings table is a `map` keyed by
(category, key). Each endpoint that loops is a method whose loop carries
invariants. Its result is tied to a specification function, and lemmas
state what the source promises about that function.

Modules:

- `Tables` (tables.dfy): the row datatypes, `Option`/`Result`, the error
  taxonomy with HTTP statuses, and `SqlEq`. `SqlEq` is string equality as
  the store's default case-insensitive collation decides it in `WHERE`
  clauses.
- `Allocation` (allocation.dfy): the max-stations computation.
- `Stats` (stats.dfy): the summary counts.
- `SheetImport` (sheet_import.dfy): the catalog imports.
- `LogExport` (log_export.dfy): the log export.
- `SmtpSettings` (smtp_settings.dfy): saving and reading the SMTP settings.
- `Users` (users.dfy): login and user deletion.

Two places where the code and its documented behaviour disagree:

- Rows "missing" a code or name are documented as skipped by the import.
  In the code, an empty spreadsheet cell is read as NaN, and NaN becomes
  the text `"nan"`. So such rows are not skipped (see Findings).
- Deleting an unknown user is documented as a not-found error. The code
  answers `{"ok": true}` whatever was deleted. Both delete members follow
  the code here: an unknown name succeeds with an unchanged table.

Each of the two Findings below is modelled twice. The member as written
follows the code. The corrected member carries the evidently intended
behaviour:

- Import: the import members take `blankText`, the text an empty cell
  reads as. With `"nan"` they are the code as written. With `""` they are
  the corrected reading, under which rows missing a code or name are
  skipped.
- Delete: `Users.DeleteUserAsWritten` is the code as written.
  `Users.DeleteUser` is the corrected guard.

## Model

| member | source | states |
|---|---|---|
| `Tables.SqlEqIgnoresCase` | main.py:94-101 | Two usernames that differ only in the case of a letter are equal for the store's default utf8mb4 collation, though they are different strings. |
| `Allocation.FloorDiv` | main.py:591 | Python's `//`: the quotient is rounded down. For a positive divisor, q·b ≤ a < q·b + b. For a negative divisor, the inequalities are mirrored. |
| `Allocation.RequirementsFor` | main.py:566-571 | The fetched requirement rows are exactly the table rows whose model code matches, and no more rows than the table holds. |
| `Allocation.StockMap` | main.py:579-580 | The stock dictionary has exactly the fixture names as keys. |
| `Allocation.StockLastWins` | main.py:580 | When several fixtures share a name, the stock is the `life_value` of the last of them. |
| `Allocation.StockOf` | main.py:590 | A fixture code absent from the stock dictionary has stock 0. A present one has its dictionary value. |
| `Allocation.QtyOf` | main.py:589 | A NULL quantity counts as 0. Otherwise the quantity is the stored value. |
| `Allocation.Possible` | main.py:587-591 | A zero or NULL quantity gives 0. A fixture absent from stock gives 0. For a positive quantity, the value is the largest count whose total need the stock covers: need·p ≤ have < need·(p+1). It is non-negative when the stock is. |
| `Allocation.PossibleValues` | main.py:585-592 | A station's list is non-empty exactly when the station occurs among the rows. |
| `Allocation.PossibleValuesMembers` | main.py:585-592 | A station's list holds exactly the `possible` values of that station's rows. |
| `Allocation.StationTableSnoc` | main.py:588-592 | Grouping one more row appends its value to its own station's list, creating the list if needed, and leaves every other list alone. |
| `Allocation.MinOf` | main.py:594 | `min` of a non-empty list is an element of it and is at most every element. |
| `Allocation.MinPerStation` | main.py:594 | The result has exactly the grouped stations as keys. |
| `Allocation.ComputeMaxStations` | main.py:559-595 | The grouping loop equals the specification `MaxStationsSpec`. Failure (404, `NoRequirements`) happens exactly when no row has the model code. On success, the model code is echoed and the keys are exactly the stations of the model's rows. |
| `Allocation.NotFoundWithoutRequirements` | main.py:572-576 | The specification fails exactly when the model has no requirement rows, and then with status 404. |
| `Allocation.StationIsBottleneck` | main.py:585-594 | Stations in the answer are exactly the stations of the model's rows. Each station's count is one of its rows' values and is ≤ every other one. So it is the minimum, and the `else 0` default never applies. |
| `Allocation.ZeroQuantityCapsStation` | main.py:589-591 | A row with quantity 0 or NULL contributes 0 whatever the stock, so its station's count is ≤ 0. |
| `Allocation.MissingFixtureHasNoStock` | main.py:590-591 | A requirement whose fixture code names no fixture row is computed against stock 0. It contributes 0, so its station's count is ≤ 0. |
| `Allocation.CountsNonNegative` | main.py:585-594 | With no negative stock and no negative quantity, every station count in a successful answer is ≥ 0. |
| `Allocation.WorkedExample` | main.py:585-594 | A station needing 2 of A and 5 of B, with 10 A and 12 B in stock, can be opened min(10//2, 12//5) = 2 times. |
| `Stats.CountWhere` | main.py:546-547 | A count is at most the number of rows. It is 0 exactly when no row qualifies. |
| `Stats.StatsSummary` | main.py:549-552 | The total is the row count and active ≤ total. Under-lifespan + need-replacement equals the number of `count`-type rows and is ≤ total. |
| `Stats.CountSplit` | main.py:551-552 | The two lifespan classes partition the `count`-type rows. |
| `Stats.AddFixture` | main.py:549-552 | One more fixture row raises the total by 1. Each other count rises by 1 exactly when the new row is in that class. |
| `SheetImport.Trim` | main.py:405-408 | Stripping gives "" exactly when the text is all whitespace. Otherwise the result neither starts nor ends with whitespace. It is the slice of the input left after removing a prefix and a suffix that are all whitespace. |
| `SheetImport.TrimIdempotent` | main.py:405-408 | Stripping twice is stripping once. |
| `SheetImport.ColumnIndex` | main.py:398 | Every key of the header lookup maps to a column whose lower-cased name is that key. |
| `SheetImport.ColumnIndexCovers` | main.py:398 | Every column's lower-cased name is a key of the lookup. |
| `SheetImport.ColumnIndexLastWins` | main.py:398 | When several columns lower to the same name, the lookup maps it to the last of them. |
| `SheetImport.Field` | main.py:405-408 | A column absent from the header gives "". Any non-empty field neither starts nor ends with whitespace. |
| `SheetImport.Keep` | main.py:409 | A row can be kept only when the header has both `code` and `name`. |
| `SheetImport.MissingRequired` | main.py:399-402 | There is no error exactly when both `code` and `name` are present. Otherwise the error is a 400. |
| `SheetImport.FixtureModelsFrom` | main.py:403-410 | At most one model row per sheet row. |
| `SheetImport.FixtureModelsFromMembers` | main.py:403-410 | A fixture model is inserted exactly when some sheet row passing the filter yields it. Every inserted model has a non-empty code and name. |
| `SheetImport.MachineModelsFrom` | main.py:437-442 | At most one model row per sheet row. |
| `SheetImport.MachineModelsFromMembers` | main.py:437-442 | A machine model is inserted exactly when some sheet row passing the filter yields it. Every inserted model has a non-empty code and name. |
| `SheetImport.KeepIffPresent` | main.py:404-409 | Corrected reading: with empty cells read as "", a row is kept exactly when its code and name cells both hold non-blank text. |
| `SheetImport.ImportedRowsHaveCodeAndName` | main.py:403-410 | Corrected reading (empty cells as ""): every imported fixture model comes from a row whose code and name cells both hold a value. Rows missing either are skipped. |
| `SheetImport.BlankCodeRowKept` | main.py:404-409 | As written, a row whose code cell is empty passes the filter, with the code "nan". |
| `SheetImport.BlankCodeImportedAsNan` | main.py:404-410 | As written, a row with an empty code cell is imported with the code "nan". |
| `SheetImport.InsertFixtureModels` | main.py:403-410 | The insert loop appends exactly the filtered rows, in file order. Empty cells read as `blankText`: "nan" as written, "" in the corrected reading. |
| `SheetImport.ImportFixtureModels` | main.py:393-413 | A header lacking `code` or `name` is rejected with that column's error, and the table is left alone. Otherwise the table becomes the old rows followed by the filtered rows, in file order. Empty cells read as `blankText`: "nan" as written, "" in the corrected reading. |
| `SheetImport.InsertMachineModels` | main.py:437-442 | The insert loop appends exactly the filtered rows, in file order. Empty cells read as `blankText`: "nan" as written, "" in the corrected reading. |
| `SheetImport.ImportMachineModels` | main.py:427-444 | As for fixture models, with the machine-model columns and the same `blankText` reading of empty cells. |
| `LogExport.OrEmpty` | main.py:511 | A present value is written as itself. NULL is written as "". |
| `LogExport.Record` | main.py:511 | Each log record has as many fields as the header. |
| `LogExport.RecordRoundTrip` | main.py:511 | For a log row with no empty-string value, reading its record back gives the row (its id aside). NULL and "" are both written as "", so the round trip needs that restriction. |
| `LogExport.ExportLogs` | main.py:500-516 | The output starts with U+FEFF. Then comes the header record, then one record per log row in the given order, with nulls as "". There are exactly rows + 1 records, all four fields wide. |
| `SmtpSettings.NatToDecimal` | main.py:535 | Decimal text is non-empty, all digits, without a leading zero. |
| `SmtpSettings.IntToDecimal` | main.py:535 | `str(port)` is non-empty and starts with '-' exactly for a negative port. |
| `SmtpSettings.NatDecimalRoundTrip` | main.py:535 | Parsing the decimal text of n gives back n. |
| `SmtpSettings.IntDecimalRoundTrip` | main.py:535 | Parsing the stored port text gives back the port, negatives included. |
| `SmtpSettings.SmtpPairs` | main.py:535 | Five pairs, keyed host, port, user, pass, sender in that order. |
| `SmtpSettings.SmtpEntries` | main.py:535-538 | The written rows are exactly ("smtp", k) for the five keys, each holding its form value, the port as decimal text. |
| `SmtpSettings.SaveSmtpSettings` | main.py:526-540 | The upsert loop leaves the old table overridden by the five smtp rows. |
| `SmtpSettings.SaveSetsOnlySmtpKeys` | main.py:535-538 | After saving, the keys are the old keys plus the five smtp keys. Every other (category, key) entry keeps its presence and value. |
| `SmtpSettings.SaveIdempotent` | main.py:536-538 | Saving the same form twice gives the same table as saving it once. |
| `SmtpSettings.GetSmtpSettings` | main.py:518-524 | The settings page shows exactly the keys under "smtp", with their stored values. |
| `SmtpSettings.SaveThenGet` | main.py:518-538 | After saving, the settings page shows the old smtp entries overridden by the five form values. The port reads back as the number saved. |
| `Users.HashPassword` | main.py:88 | The stored hash of a missing password is the hash of "". For a given password it is the hash of that password. |
| `Users.FindUser` | main.py:289-291 | The lookup returns a matching row from the table. It returns none exactly when no row matches. |
| `Users.Login` | main.py:286-296 | Every failure is a 401. An unknown username fails with `NoSuchAccount`. A success answers with a matching row's name and role, whose stored hash equals the hash of the password given. |
| `Users.LoginChecksTheAccount` | main.py:289-296 | With unique usernames, logging in as an account succeeds exactly when the hash of the password equals that account's stored hash, and answers with its name and role. Otherwise it fails with `WrongPassword`. |
| `Users.RemoveUser` | main.py:344-345 | Deleting by name keeps exactly the rows whose name does not match. |
| `Users.AdminDeletedThroughCaseVariant` | main.py:340-347 | As written, asking to delete "Admin" passes the guard and removes the admin row. |
| `Users.DeleteUserAsWritten` | main.py:340-347 | As written: deletion fails exactly for the name "admin", spelled exactly. Otherwise it keeps exactly the rows whose name the store does not match. |
| `Users.DeleteUser` | main.py:340-347 | Corrected guard: deletion fails (400) exactly for a name equal to "admin" under the store's comparison. Otherwise it keeps exactly the rows whose name does not match. |
| `Users.AdminSurvivesDelete` | main.py:342-345 | After any successful delete, every admin row is still present. |

## Left out

- Connection handling (ten connection attempts two seconds apart), schema
  creation and the admin seed are not modelled. They are I/O and depend on
  the database.
- The self-healing fallback of the statistics endpoint is not modelled.
  That fallback re-creates the tables and answers zeros when a query fails.
- The two reads of the allocation endpoint are treated as one consistent
  snapshot. Concurrent requests are not modelled.
- Routing, CORS, static mounts and startup output are framework plumbing
  and are not modelled.
- The plain insert, update, list and delete endpoints are left out. This
  covers fixtures, catalogs, receipts, returns, logs and user
  creation/update. Each is a single SQL statement with no logic.
- Substring filtering with `LIKE` and `LIMIT`/`OFFSET` paging are left out.
  They are query semantics of the store.
- Spreadsheet parsing is represented by its result: a header and rows of
  cells, each cell either the text `str()` gives for its value or empty.
  An empty cell's text is the parameter `blankText` ("nan" in the code as
  written).
  How numbers and dates turn into that text is not modelled. Neither is
  the parser turning texts such as "N/A" into empty cells.
- Non-text header cells are not modelled. A number or a date in the header
  row makes `c.lower()` fail (main.py:398, 431). The upload then fails
  with a server error before any insert. The header is a sequence of
  strings, so it cannot hold such a cell.
- Partial imports are not modelled. Each row is inserted by its own
  statement (main.py:410, 442) on an autocommit connection (main.py:77).
  A store error part-way through, such as a code longer than the 100
  characters the column allows (main.py:120, 157), leaves the earlier rows
  inserted. In the model an import either appends every kept row or
  fails before inserting any.
- NULL `station`, `fixture_code` or `model_code` in requirement rows are
  not modelled. The columns allow NULL (main.py:136-148). Python would
  then group under a `None` station (main.py:592), which the model's
  `string` fields cannot hold. No endpoint writes that table.
- The CSV writer's quoting and line endings are not modelled. The export
  is modelled as a prefix and a list of records of fields.
- The `ORDER BY id DESC` of the log query happens in the store. `ExportLogs`
  takes the rows in the order the store returns them.
- The server-assigned `created_at` is represented by its text, or NULL.
- SHA-256 is the function parameter `hash`, about which nothing is
  assumed.
- `SqlEq`: the store's collation folds only ASCII letters in this model.
  The real collations also fold other letters and accents. Under some
  collations they also ignore trailing spaces.
- `SheetImport.ColumnIndex`: lower-cases ASCII letters only. Python's
  `str.lower` lower-cases all of Unicode.
- `SmtpSettings.GetSmtpSettings`: the settings map is keyed by exact
  strings. Stored rows whose category or key differ from "smtp" or the
  five keys only in letter case are assumed absent.
- `fixtures.used` and `fixtures.life_value` are modelled as integers, never
  NULL. Every write path gives them an integer. A NULL stock would make
  the allocation endpoint fail with a type error, and this is not
  modelled.
- The 32-bit width of SQL `INT` columns is not modelled. No modelled
  operation can overflow: floor division of two 32-bit values cannot
  overflow in Python, whose integers are unbounded.

## Findings

| source | as written | input that shows it | evidently intended | confidence | as-written member | corrected member |
|---|---|---|---|---|---|---|
| main.py:404-409 | An empty spreadsheet cell arrives as NaN. Its text is "nan", which is non-empty after stripping, so the row passes the `code and name` test. | A sheet with columns Code, Name and one row (empty, "Jig-7") imports a fixture model with code "nan". | Rows missing a code or a name are skipped. | medium: not executed; rests on the spreadsheet reader's standard NaN filling | `SheetImport.BlankCodeImportedAsNan` | `SheetImport.ImportedRowsHaveCodeAndName` |
| main.py:342-345 | The admin guard compares the name exactly. The DELETE matches names under the table's case-insensitive default collation. | Deleting "Admin" from a table holding user "admin" passes the guard and removes that row. | The default admin account can never be deleted. | medium: not executed; rests on the database's default case-insensitive collation for utf8mb4 | `Users.AdminDeletedThroughCaseVariant` | `Users.AdminSurvivesDelete` |
