/** Bulk import of the fixture-model and machine-model catalogs from a parsed
    spreadsheet: a header of column names and rows of cells. */
module SheetImport {
  import opened Tables

  /** A spreadsheet cell as the parser yields it: some value, whose `str()`
      is `text`, or an empty cell. */
  datatype Cell = Text(text: string) | Blank

  datatype Sheet = Sheet(columns: seq<string>, rows: seq<seq<Cell>>)

  datatype FixtureModel = FixtureModel(code: string, name: string, spec: string, note: string)

  datatype MachineModel = MachineModel(code: string, name: string, note: string)

  /** The characters Python's `str.strip()` removes (those with `isspace()`). */
  predicate IsSpace(c: char) {
    || c == ' ' || '\t' <= c <= '\r' || '\U{1C}' <= c <= '\U{1F}'
    || c == '\U{85}' || c == '\U{A0}' || c == '\U{1680}' || '\U{2000}' <= c <= '\U{200A}'
    || c == '\U{2028}' || c == '\U{2029}' || c == '\U{202F}' || c == '\U{205F}' || c == '\U{3000}'
  }

  predicate AllSpace(s: string) {
    forall k :: 0 <= k < |s| ==> IsSpace(s[k])
  }

  /** Index of the first non-space character (|s| if there is none). */
  function TrimStart(s: string): (i: nat)
    ensures i <= |s|
    ensures forall k :: 0 <= k < i ==> IsSpace(s[k])
    ensures i < |s| ==> !IsSpace(s[i])
  {
    if |s| == 0 || !IsSpace(s[0]) then 0 else 1 + TrimStart(s[1..])
  }

  /** Index just past the last non-space character (0 if there is none). */
  function TrimEnd(s: string): (j: nat)
    ensures j <= |s|
    ensures forall k :: j <= k < |s| ==> IsSpace(s[k])
    ensures j > 0 ==> !IsSpace(s[j - 1])
  {
    if |s| == 0 || !IsSpace(s[|s| - 1]) then |s| else TrimEnd(s[..|s| - 1])
  }

  /** `str.strip()`: the text between the leading and trailing whitespace. */
  function Trim(s: string): (t: string)
    ensures t == [] <==> AllSpace(s)
    ensures t != [] ==> !IsSpace(t[0]) && !IsSpace(t[|t| - 1])
    ensures exists i, j :: 0 <= i <= j <= |s| && t == s[i..j] && AllSpace(s[..i]) && AllSpace(s[j..])
  {
    var i, j := TrimStart(s), TrimEnd(s);
    if j <= i then
      assert AllSpace(s);
      assert s[0..0] == [] && s[..0] == [] && s[0..] == s;
      []
    else
      assert AllSpace(s[..i]) && AllSpace(s[j..]);
      s[i..j]
  }

  lemma TrimIdempotent(s: string)
    ensures Trim(Trim(s)) == Trim(s)
  {
    var t := Trim(s);
    if t != [] {
      assert TrimStart(t) == 0;
      assert TrimEnd(t) == |t|;
      assert t[0..|t|] == t;
    }
  }

  /** The header lookup: each lower-cased column name maps to the
      position of the last column that lowers to it. */
  function ColumnIndex(columns: seq<string>): (cols: map<string, nat>)
    ensures forall k {:trigger cols[k]} :: k in cols ==> cols[k] < |columns| && Lower(columns[cols[k]]) == k
  {
    if |columns| == 0 then map[]
    else
      var n := |columns| - 1;
      var init := ColumnIndex(columns[..n]);
      init[Lower(columns[n]) := n]
  }

  /** Every column is reachable by its lower-cased name. */
  lemma ColumnIndexCovers(columns: seq<string>)
    ensures forall i :: 0 <= i < |columns| ==> Lower(columns[i]) in ColumnIndex(columns)
  {
    forall i | 0 <= i < |columns| ensures Lower(columns[i]) in ColumnIndex(columns) {
      ColumnIndexHas(columns, i);
    }
  }

  lemma {:induction false} ColumnIndexHas(columns: seq<string>, i: nat)
    requires i < |columns|
    ensures Lower(columns[i]) in ColumnIndex(columns)
  {
    var n := |columns| - 1;
    if i < n {
      ColumnIndexHas(columns[..n], i);
      assert columns[..n][i] == columns[i];
    }
  }

  /** A name shared by several columns reaches the last of them. */
  lemma {:induction false} ColumnIndexLastWins(columns: seq<string>, k: string, i: nat)
    requires k in ColumnIndex(columns) && ColumnIndex(columns)[k] < i < |columns|
    ensures Lower(columns[i]) != k
  {
    var n := |columns| - 1;
    var init := columns[..n];
    if k != Lower(columns[n]) && i < n {
      assert ColumnIndex(columns)[k] == ColumnIndex(init)[k];
      ColumnIndexLastWins(init, k, i);
      assert init[i] == columns[i];
    }
  }

  /** The error raised for the first of `code`, `name` missing from the
      header, if any. */
  function MissingRequired(cols: map<string, nat>): (e: Option<Error>)
    ensures e == None <==> "code" in cols && "name" in cols
    ensures e.Some? ==> Status(e.value) == 400
  {
    if "code" !in cols then Some(MissingColumn("code"))
    else if "name" !in cols then Some(MissingColumn("name"))
    else None
  }

  function CellAt(row: seq<Cell>, i: nat): Cell {
    if i < |row| then row[i] else Blank
  }

  /** `str(cell)`; an empty cell reads as `blankText`. */
  function CellText(c: Cell, blankText: string): string {
    match c
    case Text(s) => s
    case Blank => blankText
  }

  /** The trimmed text of column `key`, or "" when the sheet has no such column. */
  function Field(row: seq<Cell>, cols: map<string, nat>, key: string, blankText: string): (f: string)
    ensures key !in cols ==> f == ""
    ensures f != "" ==> !IsSpace(f[0]) && !IsSpace(f[|f| - 1])
  {
    if key in cols then Trim(CellText(CellAt(row, cols[key]), blankText)) else ""
  }

  /** The row filter: both trimmed values are non-empty. */
  predicate Keep(row: seq<Cell>, cols: map<string, nat>, blankText: string): (b: bool)
    ensures b ==> "code" in cols && "name" in cols
  {
    Field(row, cols, "code", blankText) != "" && Field(row, cols, "name", blankText) != ""
  }

  function ToFixtureModel(row: seq<Cell>, cols: map<string, nat>, blankText: string): FixtureModel {
    FixtureModel(Field(row, cols, "code", blankText), Field(row, cols, "name", blankText),
                 Field(row, cols, "spec", blankText), Field(row, cols, "note", blankText))
  }

  function ToMachineModel(row: seq<Cell>, cols: map<string, nat>, blankText: string): MachineModel {
    MachineModel(Field(row, cols, "code", blankText), Field(row, cols, "name", blankText),
                 Field(row, cols, "note", blankText))
  }

  /** The fixture-model rows inserted for `rows`, in file order. */
  function FixtureModelsFrom(rows: seq<seq<Cell>>, cols: map<string, nat>, blankText: string)
    : (out: seq<FixtureModel>)
    ensures |out| <= |rows|
  {
    if |rows| == 0 then []
    else
      var last := rows[|rows| - 1];
      assert rows == rows[..|rows| - 1] + [last];
      FixtureModelsFrom(rows[..|rows| - 1], cols, blankText)
        + (if Keep(last, cols, blankText) then [ToFixtureModel(last, cols, blankText)] else [])
  }

  /** One pass of the insert loop keeps the table equal to the old rows
      followed by the rows filtered so far. */
  lemma FixtureModelsFromStep(table: seq<FixtureModel>, rows: seq<seq<Cell>>, i: nat, cols: map<string, nat>,
                              blankText: string, out: seq<FixtureModel>)
    requires i < |rows| && out == table + FixtureModelsFrom(rows[..i], cols, blankText)
    ensures (if Keep(rows[i], cols, blankText) then out + [ToFixtureModel(rows[i], cols, blankText)] else out)
         == table + FixtureModelsFrom(rows[..i + 1], cols, blankText)
  {
    assert rows[..i + 1][..i] == rows[..i];
  }

  /** The machine-model rows inserted for `rows`, in file order. */
  function MachineModelsFrom(rows: seq<seq<Cell>>, cols: map<string, nat>, blankText: string)
    : (out: seq<MachineModel>)
    ensures |out| <= |rows|
  {
    if |rows| == 0 then []
    else
      var last := rows[|rows| - 1];
      assert rows == rows[..|rows| - 1] + [last];
      MachineModelsFrom(rows[..|rows| - 1], cols, blankText)
        + (if Keep(last, cols, blankText) then [ToMachineModel(last, cols, blankText)] else [])
  }

  /** One pass of the insert loop keeps the table equal to the old rows
      followed by the rows filtered so far. */
  lemma MachineModelsFromStep(table: seq<MachineModel>, rows: seq<seq<Cell>>, i: nat, cols: map<string, nat>,
                              blankText: string, out: seq<MachineModel>)
    requires i < |rows| && out == table + MachineModelsFrom(rows[..i], cols, blankText)
    ensures (if Keep(rows[i], cols, blankText) then out + [ToMachineModel(rows[i], cols, blankText)] else out)
         == table + MachineModelsFrom(rows[..i + 1], cols, blankText)
  {
    assert rows[..i + 1][..i] == rows[..i];
  }

  /** A model row is inserted exactly when some sheet row that passes the
      filter yields it. */
  lemma {:induction false} FixtureModelsFromMembers(rows: seq<seq<Cell>>, cols: map<string, nat>, blankText: string, m: FixtureModel)
    ensures m in FixtureModelsFrom(rows, cols, blankText)
        <==> exists row :: row in rows && Keep(row, cols, blankText) && ToFixtureModel(row, cols, blankText) == m
    ensures m in FixtureModelsFrom(rows, cols, blankText) ==> m.code != "" && m.name != ""
  {
    if |rows| > 0 {
      var init := rows[..|rows| - 1];
      assert rows == init + [rows[|rows| - 1]];
      FixtureModelsFromMembers(init, cols, blankText, m);
    }
  }

  lemma {:induction false} MachineModelsFromMembers(rows: seq<seq<Cell>>, cols: map<string, nat>, blankText: string, m: MachineModel)
    ensures m in MachineModelsFrom(rows, cols, blankText)
        <==> exists row :: row in rows && Keep(row, cols, blankText) && ToMachineModel(row, cols, blankText) == m
    ensures m in MachineModelsFrom(rows, cols, blankText) ==> m.code != "" && m.name != ""
  {
    if |rows| > 0 {
      var init := rows[..|rows| - 1];
      assert rows == init + [rows[|rows| - 1]];
      MachineModelsFromMembers(init, cols, blankText, m);
    }
  }

  /** A cell that holds a value with a non-space character in it. */
  predicate Present(c: Cell) {
    c.Text? && !AllSpace(c.text)
  }

  /** With empty cells read as "", a row is kept exactly when its code and
      name cells both hold a value after trimming. */
  lemma KeepIffPresent(row: seq<Cell>, cols: map<string, nat>)
    requires "code" in cols && "name" in cols
    ensures Keep(row, cols, "")
        <==> Present(CellAt(row, cols["code"])) && Present(CellAt(row, cols["name"]))
  {
  }

  /** Text with no whitespace at either end is left as it is by trimming. */
  lemma TrimUnpadded(s: string)
    requires s != [] && !IsSpace(s[0]) && !IsSpace(s[|s| - 1])
    ensures Trim(s) == s
  {
    assert TrimStart(s) == 0 && TrimEnd(s) == |s|;
    assert s[0..|s|] == s;
  }

  /** With empty cells read as "", every imported fixture model comes from a
      row whose code and name cells both hold a value: rows missing either
      are skipped. */
  lemma ImportedRowsHaveCodeAndName(rows: seq<seq<Cell>>, cols: map<string, nat>, m: FixtureModel)
    requires "code" in cols && "name" in cols
    requires m in FixtureModelsFrom(rows, cols, "")
    ensures exists row :: row in rows && ToFixtureModel(row, cols, "") == m
                       && Present(CellAt(row, cols["code"])) && Present(CellAt(row, cols["name"]))
  {
    FixtureModelsFromMembers(rows, cols, "", m);
    var row :| row in rows && Keep(row, cols, "") && ToFixtureModel(row, cols, "") == m;
    KeepIffPresent(row, cols);
  }

  lemma HeaderExample()
    ensures ColumnIndex(["Code", "Name"]) == map["code" := 0, "name" := 1]
  {
    assert Lower("Code") == "code";
    assert Lower("Name") == "name";
    assert ["Code", "Name"][..1] == ["Code"];
  }

  /** A cell holding unpadded text yields that text as its field. */
  lemma FieldOfUnpadded(row: seq<Cell>, cols: map<string, nat>, key: string, blankText: string, v: string)
    requires key in cols && cols[key] < |row| && CellText(row[cols[key]], blankText) == v
    requires v != [] && !IsSpace(v[0]) && !IsSpace(v[|v| - 1])
    ensures Field(row, cols, key, blankText) == v
  {
    TrimUnpadded(v);
  }

  /** With empty cells read as `str(NaN)`, a row whose code cell is empty
      passes the filter, with the code "nan". */
  lemma BlankCodeRowKept(cols: map<string, nat>)
    requires "code" in cols && cols["code"] == 0 && "name" in cols && cols["name"] == 1
    requires "spec" !in cols && "note" !in cols
    ensures Keep([Blank, Text("Jig-7")], cols, "nan")
    ensures ToFixtureModel([Blank, Text("Jig-7")], cols, "nan") == FixtureModel("nan", "Jig-7", "", "")
  {
    var row := [Blank, Text("Jig-7")];
    FieldOfUnpadded(row, cols, "code", "nan", "nan");
    FieldOfUnpadded(row, cols, "name", "nan", "Jig-7");
  }

  /** So a sheet whose only row has an empty code cell imports one fixture
      model, coded "nan". */
  lemma BlankCodeImportedAsNan()
    ensures var sheet := Sheet(["Code", "Name"], [[Blank, Text("Jig-7")]]);
            var cols := ColumnIndex(sheet.columns);
            FixtureModelsFrom(sheet.rows, cols, "nan") == [FixtureModel("nan", "Jig-7", "", "")]
  {
    HeaderExample();
    var cols := map["code" := 0, "name" := 1];
    var row := [Blank, Text("Jig-7")];
    assert "spec"[0] != "code"[0] && "spec"[0] != "name"[0];
    assert "note"[0] != "code"[0] && "note"[1] != "name"[1];
    BlankCodeRowKept(cols);
    assert [row][..0] == [];
  }

  /** The insert loop of import_fixtures_xlsx: each row that passes the
      filter is appended to the table, in file order. */
  method InsertFixtureModels(table: seq<FixtureModel>, rows: seq<seq<Cell>>, cols: map<string, nat>, blankText: string)
    returns (out: seq<FixtureModel>)
    ensures out == table + FixtureModelsFrom(rows, cols, blankText)
  {
    out := table;
    for i := 0 to |rows|
      invariant out == table + FixtureModelsFrom(rows[..i], cols, blankText)
    {
      FixtureModelsFromStep(table, rows, i, cols, blankText, out);
      if Keep(rows[i], cols, blankText) {
        out := out + [ToFixtureModel(rows[i], cols, blankText)];
      }
    }
    assert rows[..|rows|] == rows;
  }

  /** import_fixtures_xlsx: reject a header lacking `code` or `name` before
      touching the table; otherwise append, in file order, every row whose
      trimmed code and name are both non-empty. */
  method ImportFixtureModels(table: seq<FixtureModel>, sheet: Sheet, blankText: string)
    returns (res: Result<seq<FixtureModel>, Error>)
    ensures var cols := ColumnIndex(sheet.columns);
            && (res.Failure? <==> !("code" in cols && "name" in cols))
            && (res.Failure? ==> Some(res.error) == MissingRequired(cols))
            && (res.Success? ==> res.value == table + FixtureModelsFrom(sheet.rows, cols, blankText))
  {
    var cols := ColumnIndex(sheet.columns);
    var missing := MissingRequired(cols);
    if missing.Some? {
      return Failure(missing.value);
    }
    var out := InsertFixtureModels(table, sheet.rows, cols, blankText);
    res := Success(out);
  }

  /** The insert loop of import_machines_xlsx. */
  method InsertMachineModels(table: seq<MachineModel>, rows: seq<seq<Cell>>, cols: map<string, nat>, blankText: string)
    returns (out: seq<MachineModel>)
    ensures out == table + MachineModelsFrom(rows, cols, blankText)
  {
    out := table;
    for i := 0 to |rows|
      invariant out == table + MachineModelsFrom(rows[..i], cols, blankText)
    {
      MachineModelsFromStep(table, rows, i, cols, blankText, out);
      if Keep(rows[i], cols, blankText) {
        out := out + [ToMachineModel(rows[i], cols, blankText)];
      }
    }
    assert rows[..|rows|] == rows;
  }

  /** import_machines_xlsx: as for fixture models, without a `spec` column. */
  method ImportMachineModels(table: seq<MachineModel>, sheet: Sheet, blankText: string)
    returns (res: Result<seq<MachineModel>, Error>)
    ensures var cols := ColumnIndex(sheet.columns);
            && (res.Failure? <==> !("code" in cols && "name" in cols))
            && (res.Failure? ==> Some(res.error) == MissingRequired(cols))
            && (res.Success? ==> res.value == table + MachineModelsFrom(sheet.rows, cols, blankText))
  {
    var cols := ColumnIndex(sheet.columns);
    var missing := MissingRequired(cols);
    if missing.Some? {
      return Failure(missing.value);
    }
    var out := InsertMachineModels(table, sheet.rows, cols, blankText);
    res := Success(out);
  }
}
