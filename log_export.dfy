/** The usage-log export: a byte-order mark, a header record, then one
    record per log row, nulls written as empty fields. */
module LogExport {
  import opened Tables

  const Bom: char := '\U{FEFF}'

  /** The header record: time, fixture, type, note. */
  const Header: seq<string> := ["時間", "治具", "類型", "備註"]

  /** The exported document: its leading text and its records (field
      encoding by the CSV writer is not part of this model). */
  datatype CsvDocument = CsvDocument(prefix: string, records: seq<seq<string>>)

  /** A NULL (or empty) column is written as "". */
  function OrEmpty(v: Option<string>): (s: string)
    ensures v.Some? ==> s == v.value
    ensures v.None? ==> s == ""
  {
    v.GetOr("")
  }

  /** The record written for one log row. */
  function Record(r: LogRow): (rec: seq<string>)
    ensures |rec| == |Header|
  {
    [OrEmpty(r.createdAt), OrEmpty(r.fixture), OrEmpty(r.kind), OrEmpty(r.note)]
  }

  /** Reading a record back: an empty field stands for a missing value. */
  function ParseRecord(rec: seq<string>): (r: LogRow)
    requires |rec| == |Header|
  {
    LogRow(0, FromField(rec[0]), FromField(rec[1]), FromField(rec[2]), FromField(rec[3]))
  }

  function FromField(s: string): Option<string> {
    if s == "" then None else Some(s)
  }

  /** A log row with no empty-string column. */
  predicate NoEmptyText(r: LogRow) {
    r.createdAt != Some("") && r.fixture != Some("") && r.kind != Some("") && r.note != Some("")
  }

  /** Every column survives the export: reading the record back gives the row
      (its id aside), since the only value written as "" is NULL. */
  lemma RecordRoundTrip(r: LogRow)
    requires NoEmptyText(r)
    ensures ParseRecord(Record(r)) == r.(id := 0)
  {
  }

  /** export_logs over the log rows in the order the store returns them
      (newest id first). */
  method ExportLogs(rows: seq<LogRow>) returns (doc: CsvDocument)
    ensures doc.prefix == [Bom]
    ensures |doc.records| == |rows| + 1
    ensures doc.records[0] == Header
    ensures forall i :: 0 <= i < |rows| ==> doc.records[i + 1] == Record(rows[i])
    ensures forall i :: 1 <= i < |doc.records| ==> |doc.records[i]| == |Header|
  {
    var buf := [Header];
    for i := 0 to |rows|
      invariant |buf| == i + 1
      invariant buf[0] == Header
      invariant forall k :: 0 <= k < i ==> buf[k + 1] == Record(rows[k])
    {
      buf := buf + [Record(rows[i])];
    }
    forall i | 1 <= i < |buf| ensures |buf[i]| == |Header| {
      assert buf[(i - 1) + 1] == Record(rows[i - 1]);
    }
    doc := CsvDocument([Bom], buf);
  }
}
