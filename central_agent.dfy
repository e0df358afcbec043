/**
 * scripts/customer_to_central_agent.js: the agent that takes each customer site's newest
 * upload, renames its columns to the central schema `id, item_name, total_price, date`
 * through the customer's mapping table, and uploads the result to the central dashboard.
 */
module CentralAgent {
  import opened Wrappers
  import opened JsText
  import opened Cells
  import Seqs

  /** A customer's `mapping` object: its (source header, canonical name) entries in key order. */
  type Mapping = seq<(string, string)>

  /** `{ 'ID': 'id', 'Product': 'item_name', 'Amount': 'total_price', 'Date': 'date' }`. */
  const DefaultMapping: Mapping := [("ID", "id"), ("Product", "item_name"), ("Amount", "total_price"), ("Date", "date")]

  /** One `CONFIG` entry. */
  datatype CustomerConfig = CustomerConfig(id: string, mapping: Mapping)

  /** `CONFIG`, in its key order. */
  const Config: seq<CustomerConfig> := [
    CustomerConfig("customer1", DefaultMapping),
    CustomerConfig("customer2", DefaultMapping),
    CustomerConfig("customer3", DefaultMapping)]

  /** `standardHeaders`. */
  const StandardHeaders: seq<string> := ["id", "item_name", "total_price", "date"]

  // ---------------------------------------------------------------------------
  // The column projection
  // ---------------------------------------------------------------------------

  /** `Object.keys(mapping).find(key => mapping[key] === sh)`: None stands for `undefined`. */
  function SourceHeader(mapping: Mapping, sh: string): Option<string>
  {
    var k := Seqs.FindIndex(mapping, (e: (string, string)) => e.1 == sh);
    if k == -1 then None else Some(mapping[k].0)
  }

  /** The reverse lookup finds the key of the first entry whose value is sh, and nothing when none has it. */
  lemma SourceHeaderFirst(mapping: Mapping, sh: string)
    ensures SourceHeader(mapping, sh).None? <==> forall i | 0 <= i < |mapping| :: mapping[i].1 != sh
    ensures SourceHeader(mapping, sh).Some? ==>
      exists i | 0 <= i < |mapping| :: mapping[i] == (SourceHeader(mapping, sh).value, sh) &&
        forall j | 0 <= j < i :: mapping[j].1 != sh
  {
    var k := Seqs.FindIndex(mapping, (e: (string, string)) => e.1 == sh);
    if k != -1 {
      assert mapping[k] == (SourceHeader(mapping, sh).value, sh);
    }
  }

  /** Row 1 of a sheet; `getRow(1)` of a sheet without rows is an empty row. */
  function FirstRow(sheet: Sheet): Row
  {
    if sheet == [] then [] else sheet[0]
  }

  /** `sheet.getRow(1).values.filter(v => v)`: the truthy header values, in column order. */
  function Headers(sheet: Sheet): (hs: seq<Cell>)
    ensures forall i | 0 <= i < |hs| :: CellTruthy(hs[i])
  {
    Seqs.Filter(FirstRow(sheet), CellTruthy)
  }

  /** `headers.indexOf(h)`: strict equality holds only for a string cell spelling h; `undefined` is never found. */
  function IndexOf(headers: seq<Cell>, h: Option<string>): (r: int)
    ensures -1 <= r < |headers|
    ensures r == -1 <==> h.None? || forall i | 0 <= i < |headers| :: headers[i] != Plain(SText(h.value))
    ensures r >= 0 ==> (h.Some? && headers[r] == Plain(SText(h.value)) &&
      forall i | 0 <= i < r :: headers[i] != Plain(SText(h.value)))
  {
    if h.None? then -1 else Seqs.FindIndex(headers, (c: Cell) => c == Plain(SText(h.value)))
  }

  /**
   * The cell pushed for canonical name sh: `vals[colIndex + 1]`, the row's cell at the
   * 1-based position colIndex + 1 (empty past the row's end), or '' when the header is missing.
   */
  function MappedCell(mapping: Mapping, headers: seq<Cell>, row: Row, sh: string): Cell
  {
    var col := IndexOf(headers, SourceHeader(mapping, sh));
    if col == -1 then Plain(SText("")) else CellAt(row, col + 1)
  }

  /** `newRow` for one data row. */
  function CentralRow(mapping: Mapping, headers: seq<Cell>, row: Row): (r: Row)
    ensures |r| == |StandardHeaders|
    ensures forall j | 0 <= j < |r| :: r[j] == MappedCell(mapping, headers, row, StandardHeaders[j])
  {
    Seqs.Map(StandardHeaders, (sh: string) => MappedCell(mapping, headers, row, sh))
  }

  /** `centralSheet.addRow(standardHeaders)`. */
  function CentralHeaderRow(): (r: Row)
  {
    Seqs.Map(StandardHeaders, (sh: string) => Plain(SText(sh)))
  }

  /** The conversion of one data row, as a function to map over the rows. */
  function ToCentral(mapping: Mapping, headers: seq<Cell>): Row -> Row
  {
    (row: Row) => CentralRow(mapping, headers, row)
  }

  /** The whole `Standardized Data` sheet. */
  function Converted(mapping: Mapping, sheet: Sheet): Sheet
  {
    [CentralHeaderRow()] + Seqs.Map(DataRows(sheet), ToCentral(mapping, Headers(sheet)))
  }

  /**
   * A missing canonical name gives '' for that cell only; a present one gives the cell at one
   * past the first position, among the truthy headers, of a string header equal to the key
   * of the first mapping entry for that name.
   */
  lemma MappedCellCases(mapping: Mapping, headers: seq<Cell>, row: Row, sh: string)
    ensures var h := SourceHeader(mapping, sh); var col := IndexOf(headers, h);
      (col == -1 <==> h.None? || forall i | 0 <= i < |headers| :: headers[i] != Plain(SText(h.value))) &&
      (col == -1 ==> MappedCell(mapping, headers, row, sh) == Plain(SText(""))) &&
      (col >= 0 ==> MappedCell(mapping, headers, row, sh) == CellAt(row, col + 1))
  {
  }

  /**
   * The converted sheet is one canonical header row and then one four-cell row per data row
   * of the source (its header row is not copied); each cell is resolved on its own.
   */
  lemma ConvertedShape(mapping: Mapping, sheet: Sheet)
    ensures var out := Converted(mapping, sheet); var rows := DataRows(sheet);
      |out| == |rows| + 1 &&
      out[0] == [Plain(SText("id")), Plain(SText("item_name")), Plain(SText("total_price")), Plain(SText("date"))] &&
      (forall k | 0 <= k < |out| :: |out[k]| == 4) &&
      forall k, j | 0 <= k < |rows| && 0 <= j < 4 ::
        out[k + 1][j] == MappedCell(mapping, Headers(sheet), rows[k], StandardHeaders[j])
  {
    var out := Converted(mapping, sheet);
    var rows := DataRows(sheet);
    forall k | 0 <= k < |rows| ensures out[k + 1] == CentralRow(mapping, Headers(sheet), rows[k]) {
    }
  }

  /**
   * The lookup uses a header's position among the truthy header cells. It reads the column
   * under the header exactly when no falsy cell precedes it in row 1: when the first string
   * cell spelling the key is at 1-based column p and every cell before it is truthy, the
   * value read is the row's cell at column p.
   */
  lemma GapFreeHeaderReadsItsColumn(mapping: Mapping, sheet: Sheet, row: Row, sh: string, p: nat)
    requires SourceHeader(mapping, sh).Some? && SourceHeader(mapping, sh).value != ""
    requires 1 <= p <= |FirstRow(sheet)|
    requires FirstRow(sheet)[p - 1] == Plain(SText(SourceHeader(mapping, sh).value))
    requires forall i | 0 <= i < p - 1 ::
      (CellTruthy(FirstRow(sheet)[i]) && FirstRow(sheet)[i] != Plain(SText(SourceHeader(mapping, sh).value)))
    ensures MappedCell(mapping, Headers(sheet), row, sh) == CellAt(row, p)
  {
    var key := SourceHeader(mapping, sh).value;
    TruthyPosition(FirstRow(sheet), key, p);
    var pre := FirstRow(sheet)[..p - 1];
    Seqs.FilterAll(pre, CellTruthy);
    Seqs.FilterPartition(pre, CellTruthy, CellFalsy);
  }

  /** A row-1 cell that `filter(v => v)` drops. */
  predicate CellFalsy(c: Cell)
  {
    !CellTruthy(c)
  }

  /**
   * In general the lookup reads as many columns to the left of the header as there are
   * falsy cells before it in row 1: with the first string cell spelling the key at 1-based
   * column p and g falsy cells among columns 1 .. p - 1, the value read is the row's cell
   * at column p - g.
   */
  lemma HeaderGapsShiftColumn(mapping: Mapping, sheet: Sheet, row: Row, sh: string, p: nat)
    requires SourceHeader(mapping, sh).Some? && SourceHeader(mapping, sh).value != ""
    requires 1 <= p <= |FirstRow(sheet)|
    requires FirstRow(sheet)[p - 1] == Plain(SText(SourceHeader(mapping, sh).value))
    requires forall i | 0 <= i < p - 1 :: FirstRow(sheet)[i] != Plain(SText(SourceHeader(mapping, sh).value))
    ensures var g := |Seqs.Filter(FirstRow(sheet)[..p - 1], CellFalsy)|;
      g <= p - 1 && MappedCell(mapping, Headers(sheet), row, sh) == CellAt(row, p - g)
  {
    TruthyPosition(FirstRow(sheet), SourceHeader(mapping, sh).value, p);
  }

  /** A cell's position among the truthy cells is its own position less the falsy cells before it. */
  lemma TruthyPosition(r1: Row, key: string, p: nat)
    requires key != "" && 1 <= p <= |r1| && r1[p - 1] == Plain(SText(key))
    requires forall i | 0 <= i < p - 1 :: r1[i] != Plain(SText(key))
    ensures var g := |Seqs.Filter(r1[..p - 1], CellFalsy)|;
      g <= p - 1 && IndexOf(Seqs.Filter(r1, CellTruthy), Some(key)) == p - 1 - g
  {
    var c := Plain(SText(key));
    assert CellTruthy(c);
    var pre, rest := r1[..p - 1], r1[p - 1..];
    assert r1 == pre + rest;
    assert rest == [c] + rest[1..];
    Seqs.FilterAppend(pre, rest, CellTruthy);
    Seqs.FilterCons(c, rest[1..], CellTruthy);
    Seqs.FilterPartition(pre, CellTruthy, CellFalsy);
    var fp := Seqs.Filter(pre, CellTruthy);
    var hs := Seqs.Filter(r1, CellTruthy);
    assert hs == fp + ([c] + Seqs.Filter(rest[1..], CellTruthy));
    assert forall j | 0 <= j < |pre| :: pre[j] != c;
    forall i | 0 <= i < |fp| ensures hs[i] != c {
      assert hs[i] == fp[i] && fp[i] in pre;
    }
    assert hs[|fp|] == c;
  }

  /**
   * A header row with an empty cell before a mapped header shifts the lookup: with `ID`
   * in column 1, column 2 empty and `Product` in column 3, `item_name` is read from column 2.
   */
  lemma HeaderGapShiftsColumn()
    ensures var sheet := [[Plain(SText("ID")), Empty, Plain(SText("Product"))],
                          [Plain(SText("A1")), Plain(SText("x")), Plain(SText("Widget"))]];
      MappedCell(DefaultMapping, Headers(sheet), sheet[1], "item_name") == Plain(SText("x"))
  {
    var sheet := [[Plain(SText("ID")), Empty, Plain(SText("Product"))],
                  [Plain(SText("A1")), Plain(SText("x")), Plain(SText("Widget"))]];
    var hs := Headers(sheet);
    assert hs == [Plain(SText("ID")), Plain(SText("Product"))] by {
      var r1 := FirstRow(sheet);
      assert r1[1..][1..] == [Plain(SText("Product"))];
      assert r1[1..][1..][1..] == [];
    }
    assert SourceHeader(DefaultMapping, "item_name") == Some("Product") by {
      assert DefaultMapping[0].1 != "item_name" && DefaultMapping[1].1 == "item_name";
    }
    assert IndexOf(hs, Some("Product")) == 1 by {
      assert hs[0] != Plain(SText("Product"));
    }
  }

  /** With the configured mapping every canonical name is found, under its configured header. */
  lemma DefaultMappingResolves()
    ensures SourceHeader(DefaultMapping, "id") == Some("ID")
    ensures SourceHeader(DefaultMapping, "item_name") == Some("Product")
    ensures SourceHeader(DefaultMapping, "total_price") == Some("Amount")
    ensures SourceHeader(DefaultMapping, "date") == Some("Date")
  {
    assert DefaultMapping[0].1 == "id";
    assert DefaultMapping[1].1 == "item_name" && DefaultMapping[0].1 != "item_name";
    assert DefaultMapping[2].1 == "total_price" && DefaultMapping[1].1 != "total_price" && DefaultMapping[0].1 != "total_price";
    assert DefaultMapping[3].1 == "date" && DefaultMapping[2].1 != "date" && DefaultMapping[1].1 != "date" && DefaultMapping[0].1 != "date";
  }

  // ---------------------------------------------------------------------------
  // The conversion and the per-customer loop
  // ---------------------------------------------------------------------------

  /** The `eachRow` loop of the conversion, one converted row pushed per data row. */
  method ConvertSheet(mapping: Mapping, sheet: Sheet) returns (out: Sheet)
    ensures out == Converted(mapping, sheet)
  {
    var headers := Headers(sheet);
    var rows := DataRows(sheet);
    ghost var f := ToCentral(mapping, headers);
    out := [CentralHeaderRow()];
    var k := 0;
    while k < |rows|
      invariant 0 <= k <= |rows|
      invariant out == [CentralHeaderRow()] + Seqs.Map(rows[..k], f)
    {
      var newRow := ConvertRow(mapping, headers, rows[k]);
      Seqs.TakeSnoc(rows, k);
      Seqs.MapAppend(rows[..k], [rows[k]], f);
      assert Seqs.Map([rows[k]], f) == [newRow];
      out := out + [newRow];
      k := k + 1;
    }
    Seqs.TakeAll(rows);
  }

  /** The `eachRow` callback: `standardHeaders.forEach` building `newRow` by `push`. */
  method ConvertRow(mapping: Mapping, headers: seq<Cell>, row: Row) returns (newRow: Row)
    ensures newRow == CentralRow(mapping, headers, row)
  {
    newRow := [];
    var j := 0;
    while j < |StandardHeaders|
      invariant 0 <= j <= |StandardHeaders|
      invariant |newRow| == j
      invariant forall i | 0 <= i < j :: newRow[i] == MappedCell(mapping, headers, row, StandardHeaders[i])
    {
      var colIndex := IndexOf(headers, SourceHeader(mapping, StandardHeaders[j]));
      if colIndex != -1 {
        newRow := newRow + [CellAt(row, colIndex + 1)];
      } else {
        newRow := newRow + [Plain(SText(""))];
      }
      j := j + 1;
    }
  }

  /**
   * What one customer's site and the central dashboard answer: the file list of
   * `GET /api/files`, the downloaded workbook's first sheet, and the upload's HTTP status.
   * None stands for a request or a read that throws.
   */
  datatype Source = Source(files: Option<seq<string>>, sheet: Option<Sheet>, uploadStatus: Option<nat>)

  /** How one customer's iteration ends. */
  datatype AgentOutcome =
    | NoFiles                                                  // `Skipping.`
    | Uploaded(file: string, central: Sheet, confirmed: bool)  // confirmed: the upload answered 200
    | Failed                                                   // the error was caught and logged

  /** One iteration of the loop over `CONFIG`. */
  function OutcomeOf(cfg: CustomerConfig, src: Source): AgentOutcome
  {
    if src.files.None? then Failed
    else if src.files.value == [] then NoFiles
    else if src.sheet.None? || src.uploadStatus.None? then Failed
    else Uploaded(src.files.value[0], Converted(cfg.mapping, src.sheet.value), src.uploadStatus.value == 200)
  }

  /**
   * An empty file list skips the customer; otherwise the first listed file (the newest, as the
   * site lists them) is converted with the customer's own mapping; any failure ends only that
   * customer's iteration.
   */
  lemma OutcomeCases(cfg: CustomerConfig, src: Source)
    ensures OutcomeOf(cfg, src) == NoFiles <==> src.files == Some([])
    ensures OutcomeOf(cfg, src).Uploaded? <==>
      src.files.Some? && src.files.value != [] && src.sheet.Some? && src.uploadStatus.Some?
    ensures OutcomeOf(cfg, src).Uploaded? ==>
      OutcomeOf(cfg, src).file == src.files.value[0] &&
      OutcomeOf(cfg, src).central == Converted(cfg.mapping, src.sheet.value) &&
      (OutcomeOf(cfg, src).confirmed <==> src.uploadStatus == Some(200))
  {
  }

  /** `runAgent`: the customers in `CONFIG` order, each with what its requests answer. */
  method RunAgent(runs: seq<(CustomerConfig, Source)>) returns (outcomes: seq<AgentOutcome>)
    ensures |outcomes| == |runs|
    ensures forall i | 0 <= i < |runs| :: outcomes[i] == OutcomeOf(runs[i].0, runs[i].1)
  {
    outcomes := [];
    var i := 0;
    while i < |runs|
      invariant 0 <= i <= |runs|
      invariant |outcomes| == i
      invariant forall m | 0 <= m < i :: outcomes[m] == OutcomeOf(runs[m].0, runs[m].1)
    {
      var (cfg, src) := runs[i];
      var outcome: AgentOutcome;
      if src.files.None? {
        outcome := Failed;
      } else if |src.files.value| == 0 {
        outcome := NoFiles;
      } else {
        var latestFile := src.files.value[0];
        if src.sheet.None? || src.uploadStatus.None? {
          outcome := Failed;
        } else {
          var central := ConvertSheet(cfg.mapping, src.sheet.value);
          outcome := Uploaded(latestFile, central, src.uploadStatus.value == 200);
        }
      }
      outcomes := outcomes + [outcome];
      i := i + 1;
    }
  }
}
