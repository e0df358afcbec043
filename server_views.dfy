/**
 * scripts/server.js: the export of an edited table (`POST /api/export-excel`) and a customer
 * site's file listing (`GET /api/files`).
 */
module ServerViews {
  import opened Wrappers
  import opened JsText
  import opened Cells
  import Seqs
  import Sorting
  import Store
  import MagicExtract

  // ---------------------------------------------------------------------------
  // Export
  // ---------------------------------------------------------------------------

  /** `item[col] || ''`: the value when present and truthy, otherwise the empty string. */
  function ExportCell(item: Store.Record, col: string): (v: Scalar)
  {
    if col in item && Truthy(item[col]) then item[col] else SText("")
  }

  /** `columns.map(col => item[col] || '')`. */
  function ExportRow(columns: seq<string>, item: Store.Record): (r: seq<Scalar>)
    ensures |r| == |columns|
    ensures forall j | 0 <= j < |columns| :: r[j] == ExportCell(item, columns[j])
  {
    Seqs.Map(columns, (col: string) => ExportCell(item, col))
  }

  /** The worksheet `Exported Data`: the column names as row 1, then one row per item. */
  function Exported(columns: seq<string>, data: seq<Store.Record>): seq<seq<Scalar>>
  {
    [Seqs.Map(columns, (c: string) => SText(c))] + Seqs.Map(data, (item: Store.Record) => ExportRow(columns, item))
  }

  const MissingInput := "Missing columns or data"

  /**
   * `POST /api/export-excel` up to writing the workbook: 400 when `columns` or `data` is
   * missing (an empty array is truthy and accepted), otherwise the sheet with its rows added
   * one `addRow` at a time.
   */
  method ExportExcel(columns: Option<seq<string>>, data: Option<seq<Store.Record>>)
    returns (status: nat, r: Result<seq<seq<Scalar>>, string>)
    ensures columns.None? || data.None? ==> status == 400 && r == Err(MissingInput)
    ensures columns.Some? && data.Some? ==> status == 200 && r == Ok(Exported(columns.value, data.value))
  {
    if columns.None? || data.None? {
      return 400, Err(MissingInput);
    }
    var cols := columns.value;
    var items := data.value;
    var sheet := [Seqs.Map(cols, (c: string) => SText(c))];
    var i := 0;
    while i < |items|
      invariant 0 <= i <= |items|
      invariant |sheet| == i + 1 && sheet[0] == Seqs.Map(cols, (c: string) => SText(c))
      invariant forall k | 0 <= k < i :: sheet[k + 1] == ExportRow(cols, items[k])
    {
      sheet := sheet + [ExportRow(cols, items[i])];
      i := i + 1;
    }
    var want := Exported(cols, items);
    assert |want| == |sheet|;
    forall k | 0 <= k < |sheet| ensures sheet[k] == want[k] {
      if k > 0 {
        assert want[k] == ExportRow(cols, items[k - 1]);
      }
    }
    assert sheet == want;
    status, r := 200, Ok(sheet);
  }

  /**
   * Row 1 holds the column names; below it row k + 2 is item k, with exactly one cell per
   * column: the item's value for that column when present and truthy, otherwise "".
   */
  lemma ExportedShape(columns: seq<string>, data: seq<Store.Record>)
    ensures var sheet := Exported(columns, data);
      |sheet| == |data| + 1 &&
      (forall k | 0 <= k < |sheet| :: |sheet[k]| == |columns|) &&
      (forall j | 0 <= j < |columns| :: sheet[0][j] == SText(columns[j])) &&
      forall k, j | 0 <= k < |data| && 0 <= j < |columns| ::
        sheet[k + 1][j] == (if columns[j] in data[k] && Truthy(data[k][columns[j]]) then data[k][columns[j]] else SText(""))
  {
    var sheet := Exported(columns, data);
    forall k, j | 0 <= k < |data| && 0 <= j < |columns|
      ensures sheet[k + 1][j] == ExportCell(data[k], columns[j])
    {
      assert sheet[k + 1] == ExportRow(columns, data[k]);
    }
  }

  /** A record whose values are all non-empty strings. */
  ghost predicate FilledRecord(item: Store.Record)
  {
    forall c | c in item :: item[c].SText? && item[c].s != ""
  }

  /** A row object whose quantity, unit price and total are non-empty. */
  ghost predicate FilledRow(r: MagicExtract.LineRow)
  {
    r.quantity != "" && r.unitPrice != "" && r.total != ""
  }

  /** Responses built from non-empty lines and filled row objects hold only non-empty strings. */
  lemma RespondFilled(lines: seq<string>, parsed: seq<MagicExtract.LineRow>)
    requires forall i | 0 <= i < |lines| :: lines[i] != ""
    requires forall i | 0 <= i < |parsed| :: FilledRow(parsed[i])
    ensures var ex := MagicExtract.Respond(lines, parsed);
      forall i | 0 <= i < |ex.data| :: FilledRecord(ex.data[i])
  {
    var ex := MagicExtract.Respond(lines, parsed);
    MagicExtract.RespondOutcome(lines, parsed);
    if ex.columns == MagicExtract.ProductColumns {
      var kept := Seqs.Filter(parsed, MagicExtract.Usable);
      forall i | 0 <= i < |ex.data| ensures FilledRecord(ex.data[i]) {
        assert kept[i] in parsed;
        assert ex.data[i] == MagicExtract.RowRecord(kept[i]);
        RowRecordFilled(kept[i]);
      }
    } else {
      forall i | 0 <= i < |ex.data| ensures FilledRecord(ex.data[i]) {
        assert ex.data[i] == MagicExtract.RawRecord(lines[i]);
        RawRecordFilled(lines[i]);
      }
    }
  }

  /** A usable, filled row object makes a record of non-empty strings. */
  lemma RowRecordFilled(r: MagicExtract.LineRow)
    requires MagicExtract.Usable(r) && FilledRow(r)
    ensures FilledRecord(MagicExtract.RowRecord(r))
  {
  }

  /** A non-empty line makes a record of one non-empty string. */
  lemma RawRecordFilled(line: string)
    requires line != ""
    ensures FilledRecord(MagicExtract.RawRecord(line))
  {
  }

  /** Every record magic-extract answers with holds only non-empty strings. */
  lemma ExtractionFilled(text: string)
    requires text != ""
    ensures var ex := MagicExtract.Extract(Some(text)).value;
      forall i | 0 <= i < |ex.data| :: FilledRecord(ex.data[i])
  {
    var lines := MagicExtract.CandidateLines(text);
    var parsed := Seqs.Map(lines, MagicExtract.LineRowOf);
    ParsedFilled(lines);
    forall i | 0 <= i < |lines| ensures lines[i] != "" {
      assert MagicExtract.Candidate(lines[i]);
    }
    RespondFilled(lines, parsed);
    assert MagicExtract.Extract(Some(text)).value == MagicExtract.Respond(lines, parsed);
  }

  /** Every row object the heuristic builds has its three number fields filled. */
  lemma ParsedFilled(lines: seq<string>)
    ensures var parsed := Seqs.Map(lines, MagicExtract.LineRowOf);
      forall i | 0 <= i < |parsed| :: FilledRow(parsed[i])
  {
    forall i | 0 <= i < |lines| ensures FilledRow(MagicExtract.LineRowOf(lines[i])) {
      MagicExtract.LineRowFields(lines[i]);
    }
  }

  /** Exporting a response whose records hold only non-empty strings reproduces every value of it. */
  lemma ExportOfFilled(ex: MagicExtract.Extraction)
    requires forall i | 0 <= i < |ex.data| :: FilledRecord(ex.data[i])
    requires forall i | 0 <= i < |ex.data| :: ex.data[i].Keys == set c | c in ex.columns
    ensures var sheet := Exported(ex.columns, ex.data);
      |sheet| == |ex.data| + 1 &&
      forall k, j | 0 <= k < |ex.data| && 0 <= j < |ex.columns| ::
        ex.columns[j] in ex.data[k] && sheet[k + 1][j] == ex.data[k][ex.columns[j]]
  {
    ExportedShape(ex.columns, ex.data);
    forall k, j | 0 <= k < |ex.data| && 0 <= j < |ex.columns| ensures ex.columns[j] in ex.data[k] {
      assert ex.columns[j] in set c | c in ex.columns;
    }
  }

  /**
   * Exporting what magic-extract answered loses nothing: every cell below the header row is
   * the extracted record's value for that column.
   */
  lemma ExportOfExtraction(text: string)
    requires text != ""
    ensures var ex := MagicExtract.Extract(Some(text)).value;
      var sheet := Exported(ex.columns, ex.data);
      |sheet| == |ex.data| + 1 &&
      forall k, j | 0 <= k < |ex.data| && 0 <= j < |ex.columns| ::
        ex.columns[j] in ex.data[k] && sheet[k + 1][j] == ex.data[k][ex.columns[j]]
  {
    var lines := MagicExtract.CandidateLines(text);
    ExtractionFilled(text);
    MagicExtract.RespondKeys(lines, Seqs.Map(lines, MagicExtract.LineRowOf));
    ExportOfFilled(MagicExtract.Extract(Some(text)).value);
  }

  // ---------------------------------------------------------------------------
  // File listing
  // ---------------------------------------------------------------------------

  /** `GET /api/files`: the `.xlsx` names of the upload folder, sorted by modification time, newest first. */
  function ListFiles(entries: seq<Sorting.FileStat>): seq<string>
  {
    Seqs.Map(Sorting.SortDesc(Sorting.WithExtension(entries, ".xlsx"), Sorting.TimeOf), Sorting.NameOf)
  }

  /**
   * The listing names every `.xlsx` entry as often as it occurs and nothing else, in
   * non-increasing modification time, and begins with the newest file.
   */
  lemma ListFilesOrder(entries: seq<Sorting.FileStat>)
    ensures var xlsx := Sorting.WithExtension(entries, ".xlsx");
      var sorted := Sorting.SortDesc(xlsx, Sorting.TimeOf);
      ListFiles(entries) == Seqs.Map(sorted, Sorting.NameOf) &&
      multiset(sorted) == multiset(xlsx) &&
      multiset(ListFiles(entries)) == multiset(Seqs.Map(xlsx, Sorting.NameOf)) &&
      (forall i, j | 0 <= i < j < |sorted| :: sorted[i].time >= sorted[j].time) &&
      (forall i | 0 <= i < |ListFiles(entries)| :: EndsWith(ListFiles(entries)[i], ".xlsx")) &&
      (xlsx != [] ==> Sorting.Newest(xlsx) == Some(ListFiles(entries)[0]))
  {
    var xlsx := Sorting.WithExtension(entries, ".xlsx");
    var sorted := Sorting.SortDesc(xlsx, Sorting.TimeOf);
    Sorting.SortDescMapMultiset(xlsx, Sorting.TimeOf, Sorting.NameOf);
    forall i | 0 <= i < |sorted| ensures EndsWith(sorted[i].name, ".xlsx") {
      assert sorted[i] in multiset(xlsx);
    }
  }
}
