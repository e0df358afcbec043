/**
 * Worksheet cells as ExcelJS hands them to the scripts: a cell value is `null`, a
 * primitive (string, number, boolean), a Date, or one of ExcelJS's value objects
 * (formula, hyperlink, rich text, error). A worksheet is a sequence of rows, row 1 first.
 */
module Cells {
  import opened Wrappers
  import opened JsText
  import Seqs

  /**
   * A JavaScript Date, given by its two renderings: `toISOString()` (None for an invalid
   * date, where it throws) and `toString()`.
   */
  datatype Date = Date(iso: Option<string>, shown: string)

  /** A primitive value, a Date, or an ExcelJS error value `{ error: code }`. */
  datatype Scalar =
    | SText(s: string)
    | SNumber(n: int)
    | SBoolean(b: bool)
    | SDate(d: Date)
    | SError(code: string)

  /** The `value` of an ExcelJS cell. */
  datatype Cell =
    | Empty                                              // null or undefined
    | Plain(v: Scalar)
    | Formula(formula: string, result: Option<Scalar>)   // { formula, result }
    | Hyperlink(text: string, hyperlink: string)         // { text, hyperlink }
    | RichText(runs: seq<string>)                        // { richText: [{ text }, ...] }

  /** JavaScript truthiness of a value (objects and Dates are always truthy). */
  predicate Truthy(v: Scalar)
  {
    match v
    case SText(s) => s != ""
    case SNumber(n) => n != 0
    case SBoolean(b) => b
    case SDate(_) => true
    case SError(_) => true
  }

  /** JavaScript truthiness of a raw cell value. */
  predicate CellTruthy(c: Cell)
  {
    match c
    case Empty => false
    case Plain(v) => Truthy(v)
    case _ => true
  }

  /** `String(v)`. */
  function ToJsString(v: Scalar): string
  {
    match v
    case SText(s) => s
    case SNumber(n) => IntToString(n)
    case SBoolean(b) => if b then "true" else "false"
    case SDate(d) => d.shown
    case SError(_) => "[object Object]"
  }

  /** `cell.value.toString()` for a non-empty cell value. */
  function CellToString(c: Cell): string
  {
    match c
    case Plain(v) => ToJsString(v)
    case _ => "[object Object]"
  }

  function HexDigit(d: nat): char
    requires d < 16
  {
    if d < 10 then DigitChar(d) else ('a' as int + (d - 10)) as char
  }

  /** How `JSON.stringify` writes one character inside a string literal. */
  function EscapeJsonChar(c: char): string
  {
    if c == '"' then "\\\""
    else if c == '\\' then "\\\\"
    else if c == '\U{0008}' then "\\b"
    else if c == '\U{000C}' then "\\f"
    else if c == '\n' then "\\n"
    else if c == '\r' then "\\r"
    else if c == '\t' then "\\t"
    else if c < ' ' then "\\u00" + [HexDigit(c as int / 16), HexDigit(c as int % 16)]
    else [c]
  }

  /** `JSON.stringify(s)` for a string: the quoted, escaped literal. */
  function QuoteJson(s: string): (r: string)
    ensures |r| >= 2 && r[0] == '"' && r[|r| - 1] == '"'
  {
    "\"" + Seqs.Flatten(Seqs.Map(s, EscapeJsonChar)) + "\""
  }

  /** `JSON.stringify(v)`; a Date serialises through `toJSON`, which is `null` when invalid. */
  function ScalarJson(v: Scalar): string
  {
    match v
    case SText(s) => QuoteJson(s)
    case SNumber(n) => IntToString(n)
    case SBoolean(b) => if b then "true" else "false"
    case SDate(d) => if d.iso.Some? then QuoteJson(d.iso.value) else "null"
    case SError(code) => "{\"error\":" + QuoteJson(code) + "}"
  }

  /** `JSON.stringify(cell.value)`. */
  function CellJson(c: Cell): string
  {
    match c
    case Empty => "null"
    case Plain(v) => ScalarJson(v)
    case Formula(f, r) =>
      "{\"formula\":" + QuoteJson(f) + (if r.Some? then ",\"result\":" + ScalarJson(r.value) else "") + "}"
    case Hyperlink(t, h) => "{\"text\":" + QuoteJson(t) + ",\"hyperlink\":" + QuoteJson(h) + "}"
    case RichText(runs) =>
      "{\"richText\":[" + Join(Seqs.Map(runs, (t: string) => "{\"text\":" + QuoteJson(t) + "}"), ',') + "]}"
  }

  type Row = seq<Cell>

  /** A worksheet: `sheet[0]` is row 1. */
  type Sheet = seq<Row>

  /** `row.getCell(col).value` for a 1-based column; a column past the row's end is empty. */
  function CellAt(row: Row, col: int): (c: Cell)
  {
    if 1 <= col <= |row| then row[col - 1] else Empty
  }

  /** ExcelJS `row.hasValues`: some cell of the row holds a value. */
  predicate HasValues(row: Row)
  {
    exists i | 0 <= i < |row| :: row[i] != Empty
  }

  /**
   * The rows a `sheet.eachRow` callback that returns on `rowNumber === 1` handles:
   * every row after row 1 that holds a value (eachRow skips empty rows), in order.
   */
  function DataRows(sheet: Sheet): seq<Row>
    decreases |sheet|
  {
    if |sheet| <= 1 then []
    else
      var last := sheet[|sheet| - 1];
      DataRows(sheet[..|sheet| - 1]) + (if HasValues(last) then [last] else [])
  }

  /** The data rows are exactly the rows after the first that hold a value, in order. */
  lemma {:induction false} DataRowsIsFilter(sheet: Sheet)
    ensures DataRows(sheet) == if |sheet| <= 1 then [] else Seqs.Filter(sheet[1..], HasValues)
    decreases |sheet|
  {
    if |sheet| > 1 {
      var init := sheet[..|sheet| - 1];
      var last := sheet[|sheet| - 1];
      DataRowsIsFilter(init);
      Seqs.SuffixSnoc(sheet, 1);
      Seqs.FilterAppend(init[1..], [last], HasValues);
      assert [last][1..] == [];
      assert Seqs.Filter([last], HasValues) == if HasValues(last) then [last] else [];
      if |init| <= 1 {
        assert init[1..] == [];
      }
    }
  }

  /** Extending the sheet by one row extends its data rows by that row exactly when it holds a value. */
  lemma DataRowsSnoc(sheet: Sheet, i: nat)
    requires 1 <= i < |sheet|
    ensures DataRows(sheet[..i + 1]) == DataRows(sheet[..i]) + (if HasValues(sheet[i]) then [sheet[i]] else [])
  {
    assert sheet[..i + 1][..i] == sheet[..i];
  }
}
