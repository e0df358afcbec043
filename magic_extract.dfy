/**
 * scripts/server.js, `POST /api/magic-extract`: a line heuristic that turns pasted text into
 * table rows. Each candidate line is scanned with the amount pattern
 * `(\$|£|€)?\s?\d+(\.\d+)?` (global) and the quantity pattern `\b\d+\s?(unit|qty|x|pcs)?\b`
 * (case-insensitive); when no line yields a usable item name, the raw lines are returned.
 * The two patterns are written out as scanners, each proved to find the match the
 * ECMAScript matcher reports: the leftmost start, and at that start the longest match.
 */
module MagicExtract {
  import opened Wrappers
  import opened JsText
  import opened Cells
  import Seqs
  import Store

  // ---------------------------------------------------------------------------
  // The amount pattern (\$|£|€)?\s?\d+(\.\d+)?
  // ---------------------------------------------------------------------------

  predicate IsCurrency(c: char)
  {
    c == '$' || c == '£' || c == '€'
  }

  /** The length of the run of digits that starts at p. */
  function DigitRun(s: string, p: nat): (n: nat)
    requires p <= |s|
    ensures p + n <= |s|
    ensures forall k | p <= k < p + n :: IsDigit(s[k])
    ensures p + n == |s| || !IsDigit(s[p + n])
    decreases |s| - p
  {
    if p < |s| && IsDigit(s[p]) then 1 + DigitRun(s, p + 1) else 0
  }

  /** s[b..e] matches `\d+(\.\d+)?`. */
  ghost predicate IsNumberAt(s: string, b: int, e: int)
  {
    0 <= b < e <= |s| &&
    ((forall k | b <= k < e :: IsDigit(s[k])) ||
     exists m | b < m < e - 1 :: s[m] == '.' && (forall k | b <= k < m :: IsDigit(s[k])) && (forall k | m < k < e :: IsDigit(s[k])))
  }

  /**
   * Where `\d+` begins when the pattern is tried at p: after a currency sign and then a
   * white-space character, each taken when present. The three classes are disjoint, so the
   * optional parts are forced and no other way of matching exists.
   */
  function AmountDigits(s: string, p: nat): (b: nat)
    requires p <= |s|
    ensures p <= b <= p + 2 && b <= |s|
  {
    var a := if p < |s| && IsCurrency(s[p]) then p + 1 else p;
    if a < |s| && IsSpace(s[a]) then a + 1 else a
  }

  /** s[p..e] matches the whole amount pattern. */
  ghost predicate IsAmountAt(s: string, p: int, e: int)
  {
    0 <= p <= |s| && IsNumberAt(s, AmountDigits(s, p), e)
  }

  /** The end of the match of the amount pattern tried at p, greedy as the regex engine is. */
  function AmountEnd(s: string, p: nat): (r: Option<nat>)
    requires p <= |s|
    ensures r.Some? ==> p < r.value <= |s|
  {
    var b := AmountDigits(s, p);
    if b < |s| && IsDigit(s[b]) then
      var e := b + DigitRun(s, b);
      if e + 1 < |s| && s[e] == '.' && IsDigit(s[e + 1]) then Some(e + 1 + DigitRun(s, e + 1)) else Some(e)
    else None
  }

  /** Every number match from b stops within the greedy digit run, or at the fraction's end. */
  lemma NumberAtMost(s: string, b: nat, e: int)
    requires IsNumberAt(s, b, e)
    ensures var d := b + DigitRun(s, b);
      e <= d || (d + 1 < |s| && s[d] == '.' && IsDigit(s[d + 1]) && e <= d + 1 + DigitRun(s, d + 1))
  {
    var d := b + DigitRun(s, b);
    if !(forall k | b <= k < e :: IsDigit(s[k])) {
      var m :| b < m < e - 1 && s[m] == '.' && (forall k | b <= k < m :: IsDigit(s[k])) && (forall k | m < k < e :: IsDigit(s[k]));
    }
  }

  /** The scanner's end is an end of a match of the amount pattern. */
  lemma AmountEndMatches(s: string, p: nat)
    requires p <= |s| && AmountEnd(s, p).Some?
    ensures IsAmountAt(s, p, AmountEnd(s, p).value)
  {
    var b := AmountDigits(s, p);
    var d := b + DigitRun(s, b);
    if d + 1 < |s| && s[d] == '.' && IsDigit(s[d + 1]) {
      var f := d + 1 + DigitRun(s, d + 1);
      assert s[d] == '.' && (forall k | b <= k < d :: IsDigit(s[k])) && (forall k | d < k < f :: IsDigit(s[k]));
      assert IsNumberAt(s, b, f);
    } else {
      assert IsNumberAt(s, b, d);
    }
  }

  /** Every match of the amount pattern at p ends no later than the scanner's end. */
  lemma AmountEndBoundsMatches(s: string, p: nat, e: int)
    requires p <= |s| && IsAmountAt(s, p, e)
    ensures AmountEnd(s, p).Some? && e <= AmountEnd(s, p).value
  {
    var b := AmountDigits(s, p);
    assert IsDigit(s[b]);
    NumberAtMost(s, b, e);
  }

  /**
   * The scanner finds the amount match at p exactly when one exists, and it is the longest
   * one: the match the backtracking engine reports for greedy quantifiers.
   */
  lemma AmountEndIsLongestMatch(s: string, p: nat)
    requires p <= |s|
    ensures AmountEnd(s, p).None? <==> forall e | p < e <= |s| :: !IsAmountAt(s, p, e)
    ensures AmountEnd(s, p).Some? ==>
      IsAmountAt(s, p, AmountEnd(s, p).value) &&
      forall e | AmountEnd(s, p).value < e <= |s| :: !IsAmountAt(s, p, e)
  {
    if AmountEnd(s, p).Some? {
      AmountEndMatches(s, p);
    }
    forall e | p < e <= |s| && IsAmountAt(s, p, e)
      ensures AmountEnd(s, p).Some? && e <= AmountEnd(s, p).value
    {
      AmountEndBoundsMatches(s, p, e);
    }
  }

  /** The `[start, end)` spans of `s.match(/(\$|£|€)?\s?\d+(\.\d+)?/g)`, scanning from `from`. */
  function AmountSpans(s: string, from: nat): (spans: seq<(nat, nat)>)
    requires from <= |s|
    ensures forall i | 0 <= i < |spans| :: from <= spans[i].0 < spans[i].1 <= |s|
    ensures forall i | 0 < i < |spans| :: spans[i - 1].1 <= spans[i].0
    decreases |s| - from
  {
    if from == |s| then []
    else
      match AmountEnd(s, from)
      case Some(e) => [(from, e)] + AmountSpans(s, e)
      case None => AmountSpans(s, from + 1)
  }

  /** Every reported span is the amount match the engine finds at its start. */
  lemma {:induction false} AmountSpansAreMatches(s: string, from: nat)
    requires from <= |s|
    ensures forall i | 0 <= i < |AmountSpans(s, from)| ::
      AmountEnd(s, AmountSpans(s, from)[i].0) == Some(AmountSpans(s, from)[i].1)
    decreases |s| - from
  {
    if from < |s| {
      match AmountEnd(s, from)
      case Some(e) =>
        AmountSpansAreMatches(s, e);
        var rest := AmountSpans(s, e);
        var spans := [(from, e)] + rest;
        assert AmountSpans(s, from) == spans;
        forall i | 0 <= i < |spans| ensures AmountEnd(s, spans[i].0) == Some(spans[i].1) {
          if i > 0 {
            assert spans[i] == rest[i - 1];
          }
        }
      case None =>
        AmountSpansAreMatches(s, from + 1);
    }
  }

  /** q lies inside one of the spans. */
  predicate InSomeSpan(spans: seq<(nat, nat)>, q: nat)
  {
    exists i | 0 <= i < |spans| :: spans[i].0 <= q < spans[i].1
  }

  lemma InSomeSpanCons(x: (nat, nat), rest: seq<(nat, nat)>, q: nat)
    requires (x.0 <= q < x.1) || InSomeSpan(rest, q)
    ensures InSomeSpan([x] + rest, q)
  {
    var spans := [x] + rest;
    if x.0 <= q < x.1 {
      assert spans[0] == x;
    } else {
      var i :| 0 <= i < |rest| && rest[i].0 <= q < rest[i].1;
      assert spans[i + 1] == rest[i];
    }
  }

  /** A position where an amount match could start lies inside one of the reported matches. */
  lemma {:induction false} AmountSpansMissNothing(s: string, from: nat, q: nat)
    requires from <= q < |s| && AmountEnd(s, q).Some?
    ensures InSomeSpan(AmountSpans(s, from), q)
    decreases |s| - from
  {
    match AmountEnd(s, from)
    case Some(e) =>
      assert AmountSpans(s, from) == [(from, e)] + AmountSpans(s, e);
      if q >= e {
        AmountSpansMissNothing(s, e, q);
      }
      InSomeSpanCons((from, e), AmountSpans(s, e), q);
    case None =>
      assert AmountSpans(s, from) == AmountSpans(s, from + 1);
      AmountSpansMissNothing(s, from + 1, q);
  }

  /** The matched texts, `s.match(/.../g)` (an empty list standing for `null`). */
  function Amounts(s: string): (r: seq<string>)
    ensures forall i | 0 <= i < |r| :: r[i] != ""
  {
    var spans := AmountSpans(s, 0);
    seq(|spans|, i requires 0 <= i < |spans| => s[spans[i].0..spans[i].1])
  }

  /** `s.replace(/(\$|£|€)?\s?\d+(\.\d+)?/g, '')` on the part of s from `from`: the gaps between matches. */
  function StripAmounts(s: string, from: nat): string
    requires from <= |s|
    decreases |s| - from
  {
    if from == |s| then ""
    else
      match AmountEnd(s, from)
      case Some(e) => StripAmounts(s, e)
      case None => [s[from]] + StripAmounts(s, from + 1)
  }

  /** No digit survives the stripping: a digit where no match starts would start one. */
  lemma {:induction false} StripLeavesNoDigit(s: string, from: nat)
    requires from <= |s|
    ensures forall i | 0 <= i < |StripAmounts(s, from)| :: !IsDigit(StripAmounts(s, from)[i])
    decreases |s| - from
  {
    if from < |s| {
      match AmountEnd(s, from)
      case Some(e) =>
        StripLeavesNoDigit(s, e);
      case None =>
        StripLeavesNoDigit(s, from + 1);
        var rest := StripAmounts(s, from + 1);
        assert StripAmounts(s, from) == [s[from]] + rest;
        assert !IsDigit(s[from]);
    }
  }

  /** The total length of a list of spans. */
  function Covered(spans: seq<(nat, nat)>): int
  {
    if spans == [] then 0 else spans[0].1 - spans[0].0 + Covered(spans[1..])
  }

  /** The position the scan for amounts goes on from after trying one at from. */
  function ScanNext(s: string, from: nat): (n: nat)
    requires from < |s|
    ensures from < n <= |s|
  {
    match AmountEnd(s, from)
    case Some(e) => e
    case None => from + 1
  }

  /** Stripping removes exactly the characters of the reported matches. */
  lemma {:induction false} StripRemovesMatches(s: string, from: nat)
    requires from <= |s|
    ensures |StripAmounts(s, from)| + Covered(AmountSpans(s, from)) == |s| - from
    decreases |s| - from
  {
    if from < |s| {
      StripRemovesMatches(s, ScanNext(s, from));
      StripStep(s, from);
    }
  }

  /** One step of StripRemovesMatches: over the match at from, or over the character at from. */
  lemma StripStep(s: string, from: nat)
    requires from < |s|
    requires |StripAmounts(s, ScanNext(s, from))| + Covered(AmountSpans(s, ScanNext(s, from))) == |s| - ScanNext(s, from)
    ensures |StripAmounts(s, from)| + Covered(AmountSpans(s, from)) == |s| - from
  {
    match AmountEnd(s, from)
    case Some(e) =>
      var rest := AmountSpans(s, e);
      assert AmountSpans(s, from) == [(from, e)] + rest;
      assert ([(from, e)] + rest)[1..] == rest;
    case None =>
  }

  // ---------------------------------------------------------------------------
  // The quantity pattern \b\d+\s?(unit|qty|x|pcs)?\b, case-insensitive
  // ---------------------------------------------------------------------------

  /** `\b` at position i. */
  predicate Boundary(s: string, i: nat)
    requires i <= |s|
  {
    (i > 0 && IsWordChar(s[i - 1])) != (i < |s| && IsWordChar(s[i]))
  }

  /**
   * s[i..i + |u|] spells the lower-case word u ignoring case. Without the unicode flag the
   * case-insensitive matcher never maps a non-ASCII character to an ASCII one, so comparing
   * the ASCII-lower-cased character is exact.
   */
  predicate WordAt(s: string, i: nat, u: string)
  {
    i + |u| <= |s| && forall k | 0 <= k < |u| :: LowerChar(s[i + k]) == u[k]
  }

  /** `(unit|qty|x|pcs)` matches s[i..e]. */
  predicate UnitSpan(s: string, i: nat, e: int)
  {
    (e == i + 4 && WordAt(s, i, "unit")) || (e == i + 3 && WordAt(s, i, "qty")) ||
    (e == i + 1 && WordAt(s, i, "x")) || (e == i + 3 && WordAt(s, i, "pcs"))
  }

  /** `\s?(unit|qty|x|pcs)?` matches s[q..e]. */
  ghost predicate QtyTail(s: string, q: nat, e: int)
  {
    e == q || UnitSpan(s, q, e) ||
    (q < e && q < |s| && IsSpace(s[q]) && (e == q + 1 || UnitSpan(s, q + 1, e)))
  }

  /** The whole quantity pattern matches s[p..e]. */
  ghost predicate IsQtyAt(s: string, p: int, e: int)
  {
    0 <= p < e <= |s| && Boundary(s, p) && Boundary(s, e) &&
    exists q | p < q <= e :: (forall k | p <= k < q :: IsDigit(s[k])) && QtyTail(s, q, e)
  }

  /**
   * The unit alternatives tried at i in pattern order, each followed by the final `\b`.
   * They begin with different letters, so at most one of them spells out at i.
   */
  function UnitThenBoundary(s: string, i: nat): (r: Option<nat>)
    requires i <= |s|
    ensures r.Some? ==> i < r.value <= |s| && UnitSpan(s, i, r.value) && Boundary(s, r.value)
    ensures r.None? ==> forall e | i <= e <= |s| :: !(UnitSpan(s, i, e) && Boundary(s, e))
  {
    if WordAt(s, i, "unit") && Boundary(s, i + 4) then Some(i + 4)
    else if WordAt(s, i, "qty") && Boundary(s, i + 3) then Some(i + 3)
    else if WordAt(s, i, "x") && Boundary(s, i + 1) then Some(i + 1)
    else if WordAt(s, i, "pcs") && Boundary(s, i + 3) then Some(i + 3)
    else None
  }

  /**
   * The end of the quantity match tried at p, in the engine's backtracking order: all the
   * digits, then the space with a unit, the space alone, and without the space; a shorter
   * digit run would put `\b` between two digits, so it never matches.
   */
  function QtyEnd(s: string, p: nat): (r: Option<nat>)
    requires p <= |s|
    ensures r.Some? ==> p < r.value <= |s|
  {
    if !(p < |s| && IsDigit(s[p]) && Boundary(s, p)) then None
    else
      var d := p + DigitRun(s, p);
      if d < |s| && IsSpace(s[d]) then
        match UnitThenBoundary(s, d + 1)
        case Some(e) => Some(e)
        case None => if Boundary(s, d + 1) then Some(d + 1) else Some(d)
      else
        match UnitThenBoundary(s, d)
        case Some(e) => Some(e)
        case None => if Boundary(s, d) then Some(d) else None
  }

  /** A unit begins with an ASCII letter. */
  lemma UnitSpanStartsWithLetter(s: string, i: nat, e: int)
    requires UnitSpan(s, i, e)
    ensures i < |s| && !IsDigit(s[i]) && !IsSpace(s[i])
  {
    var c := s[i];
    if WordAt(s, i, "unit") {
      assert LowerChar(s[i + 0]) == "unit"[0] == 'u';
    } else if WordAt(s, i, "qty") {
      assert LowerChar(s[i + 0]) == "qty"[0] == 'q';
    } else if WordAt(s, i, "x") {
      assert LowerChar(s[i + 0]) == "x"[0] == 'x';
    } else {
      assert LowerChar(s[i + 0]) == "pcs"[0] == 'p';
    }
  }

  /** The units begin with different letters: at most one of them spells out at i. */
  lemma UnitSpanUnique(s: string, i: nat, e1: int, e2: int)
    requires UnitSpan(s, i, e1) && UnitSpan(s, i, e2)
    ensures e1 == e2
  {
    var c := LowerChar(s[i + 0]);
    assert WordAt(s, i, "unit") ==> c == "unit"[0] == 'u';
    assert WordAt(s, i, "qty") ==> c == "qty"[0] == 'q';
    assert WordAt(s, i, "x") ==> c == "x"[0] == 'x';
    assert WordAt(s, i, "pcs") ==> c == "pcs"[0] == 'p';
  }

  /** Any quantity match at p uses the whole digit run. */
  lemma QtyUsesAllDigits(s: string, p: nat, e: int, q: nat)
    requires 0 <= p < e <= |s| && Boundary(s, e) && p < q <= e
    requires forall k | p <= k < q :: IsDigit(s[k])
    requires QtyTail(s, q, e)
    ensures q == p + DigitRun(s, p)
  {
    var d := p + DigitRun(s, p);
    if q < d {
      assert IsDigit(s[q]) && IsDigit(s[q - 1]);
      if UnitSpan(s, q, e) {
        UnitSpanStartsWithLetter(s, q, e);
      }
    }
  }

  /** The scanner's end is an end of a match of the quantity pattern. */
  lemma QtyEndMatches(s: string, p: nat)
    requires p <= |s| && QtyEnd(s, p).Some?
    ensures IsQtyAt(s, p, QtyEnd(s, p).value)
  {
    var d := p + DigitRun(s, p);
    assert QtyTail(s, d, QtyEnd(s, p).value);
  }

  /** Every match of the quantity pattern at p ends no later than the scanner's end. */
  lemma QtyEndBoundsMatches(s: string, p: nat, e: int)
    requires p <= |s| && IsQtyAt(s, p, e)
    ensures QtyEnd(s, p).Some? && e <= QtyEnd(s, p).value
  {
    var q :| p < q <= e && (forall k | p <= k < q :: IsDigit(s[k])) && QtyTail(s, q, e);
    QtyUsesAllDigits(s, p, e, q);
    QtyTailAtMost(s, q, e);
  }

  /**
   * The scanner finds the quantity match at p exactly when one exists, and it is the longest
   * one: the match the backtracking engine reports.
   */
  lemma QtyEndIsLongestMatch(s: string, p: nat)
    requires p <= |s|
    ensures QtyEnd(s, p).None? <==> forall e | p < e <= |s| :: !IsQtyAt(s, p, e)
    ensures QtyEnd(s, p).Some? ==>
      IsQtyAt(s, p, QtyEnd(s, p).value) &&
      forall e | QtyEnd(s, p).value < e <= |s| :: !IsQtyAt(s, p, e)
  {
    if QtyEnd(s, p).Some? {
      QtyEndMatches(s, p);
    }
    forall e | p < e <= |s| && IsQtyAt(s, p, e)
      ensures QtyEnd(s, p).Some? && e <= QtyEnd(s, p).value
    {
      QtyEndBoundsMatches(s, p, e);
    }
  }

  /** The longest tail the scanner can pick after the digit run ending at d bounds every match. */
  lemma QtyTailAtMost(s: string, d: nat, e: int)
    requires 0 < d <= |s| && IsDigit(s[d - 1]) && (d == |s| || !IsDigit(s[d]))
    requires d <= e <= |s| && Boundary(s, e) && QtyTail(s, d, e)
    ensures var r := (if d < |s| && IsSpace(s[d]) then
        (match UnitThenBoundary(s, d + 1)
         case Some(x) => Some(x)
         case None => if Boundary(s, d + 1) then Some(d + 1) else Some(d))
      else
        (match UnitThenBoundary(s, d)
         case Some(x) => Some(x)
         case None => if Boundary(s, d) then Some(d) else None));
      r.Some? && e <= r.value
  {
    if UnitSpan(s, d, e) {
      UnitSpanStartsWithLetter(s, d, e);
    }
    if d < |s| && IsSpace(s[d]) {
      var u := UnitThenBoundary(s, d + 1);
      if u.Some? && UnitSpan(s, d + 1, e) {
        UnitSpanUnique(s, d + 1, e, u.value);
      }
    } else {
      var u := UnitThenBoundary(s, d);
      if u.Some? && UnitSpan(s, d, e) {
        UnitSpanUnique(s, d, e, u.value);
      }
    }
  }

  /** `s.match(/\b\d+\s?(unit|qty|x|pcs)?\b/i)` from `from`: the first start with a match, and its end. */
  function FirstQty(s: string, from: nat): (r: Option<(nat, nat)>)
    requires from <= |s|
    ensures r.Some? ==> from <= r.value.0 < r.value.1 <= |s| && QtyEnd(s, r.value.0) == Some(r.value.1)
    ensures r.Some? ==> forall q | from <= q < r.value.0 :: QtyEnd(s, q).None?
    ensures r.None? ==> forall q | from <= q <= |s| :: QtyEnd(s, q).None?
    decreases |s| - from
  {
    if from == |s| then None
    else
      match QtyEnd(s, from)
      case Some(e) => Some((from, e))
      case None => FirstQty(s, from + 1)
  }

  /** `s.replace(/\b\d+\s?(unit|qty|x|pcs)?\b/i, '')`: the first match removed. */
  function RemoveFirstQty(s: string): string
  {
    match FirstQty(s, 0)
    case None => s
    case Some((p, e)) => s[..p] + s[e..]
  }

  /** Text without digits holds no quantity match, so removing the first one changes nothing. */
  lemma RemoveFirstQtyWithoutDigits(s: string)
    requires forall i | 0 <= i < |s| :: !IsDigit(s[i])
    ensures RemoveFirstQty(s) == s
  {
    assert FirstQty(s, 0).None?;
  }

  // ---------------------------------------------------------------------------
  // Rows
  // ---------------------------------------------------------------------------

  /** The four fields the heuristic reads from one line. */
  datatype LineRow = LineRow(name: string, quantity: string, unitPrice: string, total: string)

  /** The row object built for one line. */
  function LineRowOf(line: string): LineRow
  {
    var amounts := Amounts(line);
    var qty := FirstQty(line, 0);
    LineRow(
      Trim(RemoveFirstQty(StripAmounts(line, 0))),
      if qty.Some? then line[qty.value.0..qty.value.1] else "1",
      if |amounts| > 0 then amounts[0] else "0",
      if |amounts| > 1 then amounts[|amounts| - 1] else if |amounts| > 0 then amounts[0] else "0")
  }

  /**
   * The quantity is the first quantity match or `'1'`; the unit price is the first amount
   * or `'0'`; the total is the last amount when there are two or more, else the unit price.
   * The item name holds no digit (every digit belongs to an amount match), so the quantity
   * removal applied to it never changes it. Every field is a non-empty string.
   */
  lemma LineRowFields(line: string)
    ensures var r := LineRowOf(line); var amounts := Amounts(line);
      (r.quantity == "1" <==> FirstQty(line, 0).None? || line[FirstQty(line, 0).value.0..FirstQty(line, 0).value.1] == "1") &&
      (FirstQty(line, 0).Some? ==> IsDigit(r.quantity[0])) &&
      (r.unitPrice == (if amounts == [] then "0" else amounts[0])) &&
      (|amounts| >= 2 ==> r.total == amounts[|amounts| - 1]) &&
      (|amounts| < 2 ==> r.total == r.unitPrice) &&
      r.quantity != "" && r.unitPrice != "" && r.total != "" &&
      (forall i | 0 <= i < |r.name| :: !IsDigit(r.name[i])) &&
      r.name == Trim(StripAmounts(line, 0))
  {
    var stripped := StripAmounts(line, 0);
    StripLeavesNoDigit(line, 0);
    RemoveFirstQtyWithoutDigits(stripped);
    var name := Trim(stripped);
    forall i | 0 <= i < |name| ensures !IsDigit(name[i]) {
      assert name[i] == stripped[LeadingSpace(stripped) + i];
    }
  }

  /** `row['Item Name'].length > 2`, in UTF-16 code units: the row is kept. */
  predicate Usable(r: LineRow)
  {
    Utf16Length(r.name) > 2
  }

  const NameColumn := "Item Name"
  const QuantityColumn := "Quantity"
  const UnitPriceColumn := "Unit Price"
  const TotalColumn := "Total"
  const RawColumn := "Original Text"

  /** `columns`: the product structure the heuristic aims for. */
  const ProductColumns: seq<string> := [NameColumn, QuantityColumn, UnitPriceColumn, TotalColumn]

  /** The row object of a line as JSON. */
  function RowRecord(r: LineRow): Store.Record
  {
    map[NameColumn := SText(r.name), QuantityColumn := SText(r.quantity),
        UnitPriceColumn := SText(r.unitPrice), TotalColumn := SText(r.total)]
  }

  /** `{ 'Original Text': l }`. */
  function RawRecord(line: string): Store.Record
  {
    map[RawColumn := SText(line)]
  }

  /** `l.trim().length > 3`, the length in UTF-16 code units. */
  predicate Candidate(l: string)
  {
    Utf16Length(Trim(l)) > 3
  }

  /** `text.split('\n').filter(l => l.trim().length > 3)`. */
  function CandidateLines(text: string): (lines: seq<string>)
    ensures forall i | 0 <= i < |lines| :: Candidate(lines[i]) && '\n' !in lines[i] && lines[i] in Split(text, '\n')
    ensures forall i | 0 <= i < |Split(text, '\n')| && Candidate(Split(text, '\n')[i]) :: Split(text, '\n')[i] in lines
  {
    Seqs.Filter(Split(text, '\n'), Candidate)
  }

  /** `dataRows` after the `forEach` over the lines' row objects. */
  function Rows(parsed: seq<LineRow>): seq<Store.Record>
    decreases |parsed|
  {
    if parsed == [] then []
    else
      var last := parsed[|parsed| - 1];
      Rows(parsed[..|parsed| - 1]) + (if Usable(last) then [RowRecord(last)] else [])
  }

  /** The rows are the records of the usable row objects, in line order. */
  lemma {:induction false} RowsOfUsable(parsed: seq<LineRow>)
    ensures Rows(parsed) == Seqs.Map(Seqs.Filter(parsed, Usable), RowRecord)
    decreases |parsed|
  {
    if parsed != [] {
      var init := parsed[..|parsed| - 1];
      var last := parsed[|parsed| - 1];
      RowsOfUsable(init);
      assert init + [last] == parsed;
      Seqs.FilterAppend(init, [last], Usable);
      var tail := if Usable(last) then [last] else [];
      assert Seqs.Filter([last], Usable) == tail by {
        assert [last][1..] == [];
      }
      Seqs.MapAppend(Seqs.Filter(init, Usable), tail, RowRecord);
      assert Seqs.Map(tail, RowRecord) == if Usable(last) then [RowRecord(last)] else [];
    }
  }

  /** A response body: the column names and the records. */
  datatype Extraction = Extraction(columns: seq<string>, data: seq<Store.Record>)

  /** The heuristic on the request's `text` (None when missing); `Err` is the 400 answer. */
  function Extract(text: Option<string>): Result<Extraction, string>
  {
    if text.None? || text.value == "" then Err("No text provided")
    else
      var lines := CandidateLines(text.value);
      Ok(Respond(lines, Seqs.Map(lines, LineRowOf)))
  }

  /** The response for the candidate lines and their row objects. */
  function Respond(lines: seq<string>, parsed: seq<LineRow>): Extraction
  {
    var rows := Rows(parsed);
    if rows == [] then Extraction([RawColumn], Seqs.Map(lines, RawRecord))
    else Extraction(ProductColumns, rows)
  }

  /**
   * The product columns are answered exactly when some row object is usable, and then the
   * records are those of the usable row objects in order; otherwise the raw lines are.
   */
  lemma RespondOutcome(lines: seq<string>, parsed: seq<LineRow>)
    ensures var ex := Respond(lines, parsed);
      (ex.columns == ProductColumns || ex.columns == [RawColumn]) &&
      (ex.columns == ProductColumns <==> exists i | 0 <= i < |parsed| :: Usable(parsed[i])) &&
      (ex.columns == ProductColumns ==> ex.data == Seqs.Map(Seqs.Filter(parsed, Usable), RowRecord)) &&
      (ex.columns == [RawColumn] ==> ex.data == Seqs.Map(lines, RawRecord))
  {
    RowsOfUsable(parsed);
    RowsEmpty(parsed);
  }

  /** Every record of a response has exactly the response's columns as keys. */
  lemma RespondKeys(lines: seq<string>, parsed: seq<LineRow>)
    ensures var ex := Respond(lines, parsed);
      forall i | 0 <= i < |ex.data| :: ex.data[i].Keys == set c | c in ex.columns
  {
    var ex := Respond(lines, parsed);
    if ex.columns == ProductColumns {
      RowsKeys(parsed);
      assert (set c | c in ProductColumns) == {NameColumn, QuantityColumn, UnitPriceColumn, TotalColumn};
    } else {
      assert (set c | c in [RawColumn]) == {RawColumn};
    }
  }

  /** Every row record has the four product columns as keys. */
  lemma {:induction false} RowsKeys(parsed: seq<LineRow>)
    ensures forall i | 0 <= i < |Rows(parsed)| :: Rows(parsed)[i].Keys == {NameColumn, QuantityColumn, UnitPriceColumn, TotalColumn}
    decreases |parsed|
  {
    if parsed != [] {
      RowsKeys(parsed[..|parsed| - 1]);
    }
  }

  /** No row is produced exactly when no row object is usable. */
  lemma {:induction false} RowsEmpty(parsed: seq<LineRow>)
    ensures Rows(parsed) == [] <==> forall i | 0 <= i < |parsed| :: !Usable(parsed[i])
    decreases |parsed|
  {
    if parsed != [] {
      var init := parsed[..|parsed| - 1];
      RowsEmpty(init);
      assert forall i | 0 <= i < |init| :: init[i] == parsed[i];
    }
  }

  /** The initial line scan that builds `dataRows`, one `push` per kept line. */
  method CollectRows(lines: seq<string>) returns (rows: seq<Store.Record>)
    ensures rows == Rows(Seqs.Map(lines, LineRowOf))
  {
    ghost var parsed := Seqs.Map(lines, LineRowOf);
    rows := [];
    var i := 0;
    while i < |lines|
      invariant 0 <= i <= |lines|
      invariant rows == Rows(parsed[..i])
    {
      Seqs.TakeSnoc(parsed, i);
      assert parsed[..i + 1][..i] == parsed[..i];
      var row := LineRowOf(lines[i]);
      assert row == parsed[i];
      if Utf16Length(row.name) > 2 {
        rows := rows + [RowRecord(row)];
      }
      i := i + 1;
    }
    Seqs.TakeAll(parsed);
  }

  /** `POST /api/magic-extract`: 400 without text, otherwise 200 with the extraction. */
  method MagicExtract(text: Option<string>) returns (status: nat, r: Result<Extraction, string>)
    ensures r == Extract(text)
    ensures status == if r.Err? then 400 else 200
  {
    if text.None? || text.value == "" {
      return 400, Err("No text provided");
    }
    var lines := CandidateLines(text.value);
    var rows := CollectRows(lines);
    var ex := if rows == [] then Extraction([RawColumn], Seqs.Map(lines, RawRecord)) else Extraction(ProductColumns, rows);
    status, r := 200, Ok(ex);
  }

  /**
   * Only a missing or empty text is refused. Otherwise either some line yields a usable row
   * object and the columns are the product columns, one record per such line in line order;
   * or none does and the single column `Original Text` holds every candidate line, one
   * record each. Every record has exactly the response's columns as keys.
   */
  lemma ExtractOutcome(text: Option<string>)
    ensures Extract(text).Err? <==> text.None? || text.value == ""
    ensures Extract(text).Ok? ==>
      var ex := Extract(text).value; var lines := CandidateLines(text.value);
      var parsed := Seqs.Map(lines, LineRowOf);
      (ex.columns == ProductColumns || ex.columns == [RawColumn]) &&
      (ex.columns == ProductColumns <==> exists i | 0 <= i < |parsed| :: Usable(parsed[i])) &&
      (ex.columns == ProductColumns ==> ex.data == Seqs.Map(Seqs.Filter(parsed, Usable), RowRecord)) &&
      (ex.columns == [RawColumn] ==> ex.data == Seqs.Map(lines, RawRecord)) &&
      forall i | 0 <= i < |ex.data| :: ex.data[i].Keys == set c | c in ex.columns
  {
    if text.Some? && text.value != "" {
      var lines := CandidateLines(text.value);
      RespondOutcome(lines, Seqs.Map(lines, LineRowOf));
      RespondKeys(lines, Seqs.Map(lines, LineRowOf));
    }
  }
}
