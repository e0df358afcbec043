/**
 * scripts/server.js, `getCellValue`: the central dashboard's cell normaliser. Unlike the
 * processor's, it always yields a primitive: Dates become their ISO calendar date and rich
 * text becomes the concatenation of its runs.
 */
module ServerCells {
  import opened Wrappers
  import opened JsText
  import opened Cells
  import Seqs
  import Processor

  /** A JSON primitive (string, number or boolean): what the normaliser always returns. */
  predicate IsPrimitive(v: Scalar)
  {
    v.SText? || v.SNumber? || v.SBoolean?
  }

  /** `val.toISOString().split('T')[0]`, or `val.toString()` when toISOString throws. */
  function DateText(d: Date): string
  {
    if d.iso.Some? then Split(d.iso.value, 'T')[0] else d.shown
  }

  /** The second half of `getCellValue`: a Date is rendered, any other object serialised. */
  function Render(v: Scalar): (r: Scalar)
    ensures IsPrimitive(r)
    ensures IsPrimitive(v) ==> r == v
  {
    match v
    case SDate(d) => SText(DateText(d))
    case SError(_) => SText(ScalarJson(v))
    case _ => v
  }

  /** `getCellValue(cell)`: unwrap `result`, then `text`, then the joined `richText`, and render. */
  function CellValue(c: Cell): (r: Scalar)
    ensures IsPrimitive(r)
  {
    match c
    case Empty => SText("")
    case Plain(v) => Render(v)
    case Formula(_, res) => if res.Some? then Render(res.value) else SText(CellJson(c))
    case Hyperlink(t, _) => SText(t)
    case RichText(runs) => SText(Seqs.Flatten(runs))
  }

  /**
   * An empty cell reads as "", a primitive unchanged, a Date as its rendering, a formula as
   * its rendered result, a hyperlink as its text (even when empty), rich text as its joined
   * runs; an error value, or a formula without a result, as its JSON serialisation.
   */
  lemma CellValueCases(c: Cell)
    ensures c == Empty ==> CellValue(c) == SText("")
    ensures c.Plain? && IsPrimitive(c.v) ==> CellValue(c) == c.v
    ensures c.Plain? && c.v.SDate? ==> CellValue(c) == SText(DateText(c.v.d))
    ensures c.Formula? && c.result.Some? ==> CellValue(c) == Render(c.result.value)
    ensures c.Hyperlink? ==> CellValue(c) == SText(c.text)
    ensures c.RichText? ==> CellValue(c) == SText(Seqs.Flatten(c.runs))
    ensures ((c.Plain? && c.v.SError?) || (c.Formula? && c.result.None?)) ==> CellValue(c) == SText(CellJson(c))
  {
  }

  /** A valid Date whose ISO string is `ymd + "T" + rest` reads as its calendar date `ymd`. */
  lemma DateReadsAsCalendarDay(ymd: string, rest: string, shown: string)
    requires 'T' !in ymd
    ensures CellValue(Plain(SDate(Date(Some(ymd + "T" + rest), shown)))) == SText(ymd)
  {
    SplitAtSep(ymd, rest, 'T');
  }

  /** An invalid Date (toISOString throws) reads as its `toString()` rendering. */
  lemma InvalidDateReadsAsShown(shown: string)
    ensures CellValue(Plain(SDate(Date(None, shown)))) == SText(shown)
  {
  }

  /**
   * The two normalisers agree up to rendering, except on rich text (joined here, serialised
   * by the processor) and on a hyperlink with empty text ("" here, serialised there).
   */
  lemma AgreesWithProcessor(c: Cell)
    ensures !c.RichText? && !(c.Hyperlink? && c.text == "") ==> CellValue(c) == Render(Processor.CellValue(c))
    ensures c.Hyperlink? && c.text == "" ==>
      CellValue(c) == SText("") && Processor.CellValue(c) == SText(CellJson(c))
    ensures c.RichText? ==>
      CellValue(c) == SText(Seqs.Flatten(c.runs)) && Processor.CellValue(c) == SText(CellJson(c))
  {
    Processor.CellValueCases(c);
  }
}
