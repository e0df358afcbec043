/**
 * scripts/processor.js: converts each customer's newest downloaded workbook into the
 * desktop template. Composite product cells (`A/B`) become one output row per item, and
 * identifiers are regenerated as a zero-padded sequence seeded from the first source
 * identifier that ends in digits.
 */
module Processor {
  import opened Wrappers
  import opened JsText
  import opened Cells
  import Seqs
  import Sorting

  /** The clean value of a cell (`getCellValue`, kept as a value; Dates stay Dates). */
  function CellValue(c: Cell): Scalar
  {
    match c
    case Empty => SText("")
    case Plain(v) => if v.SError? then SText(CellJson(c)) else v
    case Formula(_, r) => if r.Some? then r.value else SText(CellJson(c))
    case Hyperlink(t, _) => if t != "" then SText(t) else SText(CellJson(c))
    case RichText(_) => SText(CellJson(c))
  }

  /**
   * An empty cell reads as "", a primitive or Date unchanged, a formula as its cached result,
   * a hyperlink as its non-empty text; anything else is its JSON serialisation.
   */
  lemma CellValueCases(c: Cell)
    ensures c == Empty ==> CellValue(c) == SText("")
    ensures c.Plain? && !c.v.SError? ==> CellValue(c) == c.v
    ensures c.Formula? && c.result.Some? ==> CellValue(c) == c.result.value
    ensures c.Hyperlink? && c.text != "" ==> CellValue(c) == SText(c.text)
    ensures ((c.Plain? && c.v.SError?) || (c.Formula? && c.result.None?) ||
             (c.Hyperlink? && c.text == "") || c.RichText?) ==> CellValue(c) == SText(CellJson(c))
  {
  }

  // ---------------------------------------------------------------------------
  // Identifier state
  // ---------------------------------------------------------------------------

  /** `idPrefix`, `globalIdCounter` and `idPadding` once they have been set. */
  datatype IdState = IdState(prefix: string, counter: nat, padding: nat)

  /** The number of decimal digits at the end of s. */
  function TrailingDigitCount(s: string): (n: nat)
    ensures n <= |s|
    ensures AllDigits(s[|s| - n..])
    ensures n == |s| || !IsDigit(s[|s| - n - 1])
    decreases |s|
  {
    if s != [] && IsDigit(s[|s| - 1]) then
      var n := 1 + TrailingDigitCount(s[..|s| - 1]);
      assert s[|s| - n..] == s[..|s| - 1][|s| - n..] + [s[|s| - 1]];
      n
    else 0
  }

  /** Splitting s at i gives a match of `^(.*?)(\d+)$`: a non-empty digit run to the end, no line break before it. */
  ghost predicate IsNumberSplit(s: string, i: int)
  {
    0 <= i < |s| && AllDigits(s[i..]) && forall k | 0 <= k < i :: !IsLineTerminator(s[k])
  }

  /**
   * `s.match(/^(.*?)(\d+)$/)` as the pair (match[1], match[2]): the prefix before the
   * trailing digit run, when there is one and no line break precedes it.
   */
  function MatchTrailingNumber(s: string): (m: Option<(string, string)>)
    ensures m.Some? ==> m.value.0 + m.value.1 == s
  {
    var n := TrailingDigitCount(s);
    var i := |s| - n;
    if n == 0 || exists k | 0 <= k < i :: IsLineTerminator(s[k]) then None
    else Some((s[..i], s[i..]))
  }

  /**
   * The match agrees with the regular expression: it fails exactly when no split of s is a
   * match, and otherwise the lazy prefix is the shortest one, so match[2] is the whole
   * trailing digit run.
   */
  lemma MatchTrailingNumberIsLazyMatch(s: string)
    ensures var m := MatchTrailingNumber(s);
      (m.None? <==> forall i | 0 <= i < |s| :: !IsNumberSplit(s, i)) &&
      (m.Some? ==> var i := |m.value.0|;
        IsNumberSplit(s, i) && m.value == (s[..i], s[i..]) &&
        forall j | 0 <= j < i :: !IsNumberSplit(s, j))
  {
    var n := TrailingDigitCount(s);
    var i := |s| - n;
    if n == 0 {
      forall j | 0 <= j < |s| ensures !IsNumberSplit(s, j) {
        assert s[j..][|s| - 1 - j] == s[|s| - 1];
      }
    } else if exists k | 0 <= k < i :: IsLineTerminator(s[k]) {
      forall j | 0 <= j < |s| ensures !IsNumberSplit(s, j) {
        if j < i {
          assert s[j..][i - 1 - j] == s[i - 1];
        }
      }
    } else {
      forall j | 0 <= j < i ensures !IsNumberSplit(s, j) {
        assert s[j..][i - 1 - j] == s[i - 1];
      }
      assert IsNumberSplit(s, i);
    }
  }

  /** A prefix not ending in a digit (and free of line breaks) followed by digits splits there. */
  lemma MatchPrefixDigits(p: string, d: string)
    requires d != [] && AllDigits(d)
    requires p == [] || !IsDigit(p[|p| - 1])
    requires forall k | 0 <= k < |p| :: !IsLineTerminator(p[k])
    ensures MatchTrailingNumber(p + d) == Some((p, d))
  {
    var s := p + d;
    MatchTrailingNumberIsLazyMatch(s);
    assert s[..|p|] == p && s[|p|..] == d;
    assert IsNumberSplit(s, |p|);
    forall j | 0 <= j < |p| ensures !IsNumberSplit(s, j) {
      assert s[j..][|p| - 1 - j] == p[|p| - 1];
    }
  }

  /** The ID-initialisation step for one row (`globalIdCounter === -1 && rawId`, then the match). */
  function InitState(st: Option<IdState>, rawId: Scalar): Option<IdState>
  {
    if st.Some? || !Truthy(rawId) then st
    else
      match MatchTrailingNumber(ToJsString(rawId))
      case None => None
      case Some((p, d)) => Some(IdState(p, ParseDigits(d), |d|))
  }

  /** `idPrefix + String(globalIdCounter).padStart(idPadding, '0')`. */
  function FormatId(st: IdState): string
  {
    st.prefix + PadStart(NatToString(st.counter), st.padding, '0')
  }

  /** The state after n more identifiers have been drawn. */
  function Advance(st: Option<IdState>, n: nat): Option<IdState>
  {
    if st.Some? then Some(st.value.(counter := st.value.counter + n)) else None
  }

  /** `finalId`: the regenerated identifier, or the raw one while no state is set. */
  function IdFor(st: Option<IdState>, rawId: Scalar): Scalar
  {
    if st.Some? then SText(FormatId(st.value)) else rawId
  }

  // ---------------------------------------------------------------------------
  // One source row
  // ---------------------------------------------------------------------------

  function RawId(row: Row): Scalar { CellValue(CellAt(row, 1)) }

  /** `String(getCellValue(row.getCell(2)) || '')`. */
  function ProductText(row: Row): string
  {
    var v := CellValue(CellAt(row, 2));
    if Truthy(v) then ToJsString(v) else ""
  }

  function Price(row: Row): Scalar { CellValue(CellAt(row, 3)) }

  function SaleDate(row: Row): Scalar { CellValue(CellAt(row, 4)) }

  predicate NonEmpty(s: string) { s != "" }

  /** `itemsToProcess`: the trimmed, non-empty `/`-separated segments, or the whole value. */
  function Items(product: string): seq<string>
  {
    if '/' in product then Seqs.Filter(Seqs.Map(Split(product, '/'), Trim), NonEmpty) else [product]
  }

  /** Without a `/` the product is one item; with one, every item is non-empty, trimmed and `/`-free. */
  lemma ItemsShape(product: string)
    ensures '/' !in product ==> Items(product) == [product]
    ensures '/' in product ==> forall i | 0 <= i < |Items(product)| ::
      Items(product)[i] != "" && Trim(Items(product)[i]) == Items(product)[i] && '/' !in Items(product)[i]
  {
    if '/' in product {
      var segments := Split(product, '/');
      var trimmed := Seqs.Map(segments, Trim);
      var items := Seqs.Filter(trimmed, NonEmpty);
      forall i | 0 <= i < |items| ensures Trim(items[i]) == items[i] && '/' !in items[i] {
        assert items[i] in trimmed;
        var j :| 0 <= j < |trimmed| && trimmed[j] == items[i];
        TrimIdempotent(segments[j]);
      }
    }
  }

  /** Two trimmed, non-empty names joined by `/` come back as exactly those two items. */
  lemma ItemsOfTwo(a: string, b: string)
    requires '/' !in a && '/' !in b && a != "" && b != ""
    requires !IsSpace(a[0]) && !IsSpace(a[|a| - 1]) && !IsSpace(b[0]) && !IsSpace(b[|b| - 1])
    ensures Items(a + ['/'] + b) == [a, b]
  {
    var product := a + ['/'] + b;
    assert product[|a|] == '/';
    SplitAtSep(a, b, '/');
    SplitNoSep(b, '/');
    TrimUnpadded(a);
    TrimUnpadded(b);
    var trimmed := Seqs.Map([a, b], Trim);
    assert trimmed == [a, b];
    assert trimmed[1..] == [b];
    assert trimmed[1..][1..] == [];
    assert Seqs.Filter(trimmed[1..][1..], NonEmpty) == [];
    assert Seqs.Filter(trimmed[1..], NonEmpty) == [b];
    assert Seqs.Filter(trimmed, NonEmpty) == [a, b];
  }

  /** Every character of a `split` segment is a character of the input. */
  lemma {:induction false} SplitChars(s: string, sep: char, i: nat, k: nat)
    requires i < |Split(s, sep)| && k < |Split(s, sep)[i]|
    ensures Split(s, sep)[i][k] in s
    decreases |s|
  {
    if s != [] {
      var rest := Split(s[1..], sep);
      if s[0] == sep {
        if i > 0 {
          SplitChars(s[1..], sep, i - 1, k);
        }
      } else if i > 0 {
        SplitChars(s[1..], sep, i, k);
      } else if k > 0 {
        SplitChars(s[1..], sep, 0, k - 1);
      }
    }
  }

  /** A product cell made only of `/` and white space (with at least one `/`) yields no item, hence no row. */
  lemma OnlySeparatorsYieldNothing(product: string)
    requires '/' in product
    requires forall k | 0 <= k < |product| :: product[k] == '/' || IsSpace(product[k])
    ensures Items(product) == []
  {
    var segments := Split(product, '/');
    var trimmed := Seqs.Map(segments, Trim);
    forall j | 0 <= j < |trimmed| ensures trimmed[j] == "" {
      var seg := segments[j];
      forall k | 0 <= k < |seg| ensures IsSpace(seg[k]) {
        SplitChars(product, '/', j, k);
      }
    }
  }

  /** What the conversion reads from one source row: cells 1 to 4, the product split into items. */
  datatype RowView = RowView(rawId: Scalar, items: seq<string>, price: Scalar, date: Scalar)

  function View(row: Row): RowView
  {
    RowView(RawId(row), Items(ProductText(row)), Price(row), SaleDate(row))
  }

  function Views(rows: seq<Row>): (vs: seq<RowView>)
    ensures |vs| == |rows|
  {
    seq(|rows|, i requires 0 <= i < |rows| => View(rows[i]))
  }

  lemma ViewsSnoc(rows: seq<Row>, row: Row)
    ensures Views(rows + [row]) == Views(rows) + [View(row)]
  {
  }

  /** One output record before it is laid out on the template's columns. */
  datatype Item = Item(id: Scalar, name: string, price: Scalar, date: Scalar)

  /** The records of one source row, given the state after its ID-initialisation step. */
  function RowItems(st: Option<IdState>, v: RowView): (items: seq<Item>)
    ensures |items| == |v.items|
  {
    seq(|v.items|, k requires 0 <= k < |v.items| => Item(IdFor(Advance(st, k), v.rawId), v.items[k], v.price, v.date))
  }

  /** Every record from one source row carries that row's item name, cell-3 price and cell-4 date, unchanged. */
  lemma RowItemsShareFinancials(st: Option<IdState>, row: Row)
    ensures var items := RowItems(st, View(row));
      |items| == |Items(ProductText(row))| &&
      forall k | 0 <= k < |items| ::
        items[k].name == Items(ProductText(row))[k] &&
        items[k].price == CellValue(CellAt(row, 3)) && items[k].date == CellValue(CellAt(row, 4))
  {
  }

  // ---------------------------------------------------------------------------
  // The batch
  // ---------------------------------------------------------------------------

  /** The state after the ID-initialisation step of the row following rows vs. */
  function StateAfter(st: Option<IdState>, vs: seq<RowView>): Option<IdState>
    decreases |vs|
  {
    if vs == [] then st
    else
      var last := vs[|vs| - 1];
      Advance(InitState(StateAfter(st, vs[..|vs| - 1]), last.rawId), |last.items|)
  }

  /** The records the data rows produce, starting from identifier state st. */
  function Batch(st: Option<IdState>, vs: seq<RowView>): seq<Item>
    decreases |vs|
  {
    if vs == [] then []
    else
      var init := vs[..|vs| - 1];
      var last := vs[|vs| - 1];
      Batch(st, init) + RowItems(InitState(StateAfter(st, init), last.rawId), last)
  }

  /** One more row: its records follow, and the state takes its initialisation step and one step per item. */
  lemma BatchSnoc(st: Option<IdState>, vs: seq<RowView>, v: RowView)
    ensures Batch(st, vs + [v]) == Batch(st, vs) + RowItems(InitState(StateAfter(st, vs), v.rawId), v)
    ensures StateAfter(st, vs + [v]) == Advance(InitState(StateAfter(st, vs), v.rawId), |v.items|)
  {
    assert (vs + [v])[..|vs|] == vs;
  }

  /** The number of items of each row, summed. */
  function TotalItems(vs: seq<RowView>): nat
    decreases |vs|
  {
    if vs == [] then 0 else TotalItems(vs[..|vs| - 1]) + |vs[|vs| - 1].items|
  }

  /** Each source row contributes exactly as many records as it has items. */
  lemma {:induction false} BatchLength(st: Option<IdState>, vs: seq<RowView>)
    ensures |Batch(st, vs)| == TotalItems(vs)
    decreases |vs|
  {
    if vs != [] {
      BatchLength(st, vs[..|vs| - 1]);
    }
  }

  /** The state after rows a then rows b is the state after a + b. */
  lemma {:induction false} StateAfterAppend(st: Option<IdState>, a: seq<RowView>, b: seq<RowView>)
    ensures StateAfter(st, a + b) == StateAfter(StateAfter(st, a), b)
    decreases |b|
  {
    if b == [] {
      assert a + b == a;
    } else {
      var b' := b[..|b| - 1];
      assert (a + b)[..|a + b| - 1] == a + b';
      assert (a + b)[|a + b| - 1] == b[|b| - 1];
      StateAfterAppend(st, a, b');
    }
  }

  /** Handling rows a then rows b is handling a + b, with the state carried across. */
  lemma {:induction false} BatchAppend(st: Option<IdState>, a: seq<RowView>, b: seq<RowView>)
    ensures Batch(st, a + b) == Batch(st, a) + Batch(StateAfter(st, a), b)
    decreases |b|
  {
    if b == [] {
      assert a + b == a;
    } else {
      var b' := b[..|b| - 1];
      var last := b[|b| - 1];
      assert (a + b)[..|a + b| - 1] == a + b';
      assert (a + b)[|a + b| - 1] == last;
      BatchAppend(st, a, b');
      StateAfterAppend(st, a, b');
      var mid := StateAfter(st, a);
      var t := RowItems(InitState(StateAfter(mid, b'), last.rawId), last);
      calc {
        Batch(st, a + b);
        Batch(st, a + b') + t;
        Batch(st, a) + Batch(mid, b') + t;
        Batch(st, a) + (Batch(mid, b') + t);
        Batch(st, a) + Batch(mid, b);
      }
    }
  }

  /**
   * Once the identifier state is set, the j-th record gets `prefix + (counter + j)` padded
   * to the recorded width: the counter goes up by one per emitted record, not per source row.
   */
  lemma {:induction false} IdsConsecutive(s: IdState, vs: seq<RowView>)
    ensures StateAfter(Some(s), vs) == Some(s.(counter := s.counter + |Batch(Some(s), vs)|))
    ensures forall j | 0 <= j < |Batch(Some(s), vs)| ::
      Batch(Some(s), vs)[j].id == SText(FormatId(s.(counter := s.counter + j)))
    decreases |vs|
  {
    if vs != [] {
      var init := vs[..|vs| - 1];
      IdsConsecutive(s, init);
      var before := Batch(Some(s), init);
      var last := vs[|vs| - 1];
      var st1 := InitState(StateAfter(Some(s), init), last.rawId);
      assert st1 == Some(s.(counter := s.counter + |before|));
      var items := RowItems(st1, last);
      assert Batch(Some(s), vs) == before + items;
      forall j | 0 <= j < |Batch(Some(s), vs)|
        ensures Batch(Some(s), vs)[j].id == SText(FormatId(s.(counter := s.counter + j)))
      {
        if j >= |before| {
          assert Batch(Some(s), vs)[j] == items[j - |before|];
        } else {
          assert Batch(Some(s), vs)[j] == before[j];
        }
      }
    }
  }

  /** Whether a row's raw identifier seeds the identifier state. */
  predicate Seeds(v: RowView)
  {
    InitState(None, v.rawId).Some?
  }

  /** A row's records while no identifier state exists: each carries the row's raw identifier. */
  function PassThrough(v: RowView): seq<Item>
  {
    seq(|v.items|, k requires 0 <= k < |v.items| => Item(v.rawId, v.items[k], v.price, v.date))
  }

  /** While no row has seeded the state, records keep their raw identifiers and the state stays unset. */
  lemma {:induction false} RawIdsUntilSeeded(vs: seq<RowView>)
    requires forall i | 0 <= i < |vs| :: !Seeds(vs[i])
    ensures StateAfter(None, vs) == None
    ensures Batch(None, vs) == Seqs.Flatten(Seqs.Map(vs, PassThrough))
    decreases |vs|
  {
    if vs != [] {
      var init := vs[..|vs| - 1];
      RawIdsUntilSeeded(init);
      var last := vs[|vs| - 1];
      assert Seqs.Map(vs, PassThrough) == Seqs.Map(init, PassThrough) + [PassThrough(last)];
      Seqs.FlattenAppend(Seqs.Map(init, PassThrough), [PassThrough(last)]);
      assert Seqs.Flatten([PassThrough(last)]) == PassThrough(last);
      assert RowItems(None, last) == PassThrough(last);
    }
  }

  /** From no state, a seeding row behaves as if its own seed had already been set. */
  lemma SeedingRowAlike(v: RowView)
    requires Seeds(v)
    ensures Batch(None, [v]) == Batch(InitState(None, v.rawId), [v])
    ensures StateAfter(None, [v]) == StateAfter(InitState(None, v.rawId), [v])
  {
    assert [v][..0] == [];
  }

  /**
   * The batch splits at the first row that seeds the state: before it raw identifiers pass
   * through, from it on identifiers are regenerated from that row's prefix, number and width.
   */
  lemma SplitAtFirstSeed(vs: seq<RowView>, k: nat)
    requires k < |vs| && Seeds(vs[k])
    requires forall i | 0 <= i < k :: !Seeds(vs[i])
    ensures Batch(None, vs) == Seqs.Flatten(Seqs.Map(vs[..k], PassThrough)) + Batch(InitState(None, vs[k].rawId), vs[k..])
  {
    var pre := vs[..k];
    var tail := vs[k..];
    RawIdsUntilSeeded(pre);
    Seqs.TakeDrop(vs, k);
    BatchAppend(None, pre, tail);
    var s := InitState(None, vs[k].rawId);
    var one := [vs[k]];
    var rest := tail[1..];
    Seqs.HeadTail(tail);
    BatchAppend(None, one, rest);
    BatchAppend(s, one, rest);
    SeedingRowAlike(vs[k]);
    calc {
      Batch(None, vs);
      Batch(None, pre) + Batch(None, tail);
      Seqs.Flatten(Seqs.Map(pre, PassThrough)) + (Batch(None, one) + Batch(StateAfter(None, one), rest));
      Seqs.Flatten(Seqs.Map(pre, PassThrough)) + (Batch(s, one) + Batch(StateAfter(s, one), rest));
      Seqs.Flatten(Seqs.Map(pre, PassThrough)) + Batch(s, tail);
    }
  }

  /**
   * The first regenerated identifier reproduces the raw identifier's text exactly: the
   * prefix, then the digits zero-padded back to their original width.
   */
  lemma FirstIdReproducesRaw(rawId: Scalar)
    requires InitState(None, rawId).Some?
    ensures FormatId(InitState(None, rawId).value) == ToJsString(rawId)
  {
    var t := ToJsString(rawId);
    var m := MatchTrailingNumber(t);
    PadRoundTrip(m.value.1);
    assert t == m.value.0 + m.value.1;
  }

  // ---------------------------------------------------------------------------
  // Template columns
  // ---------------------------------------------------------------------------

  /** What a template column receives. */
  datatype Role = IdColumn | NameColumn | ProductColumn | PriceColumn | DateColumn | Unmapped

  /** The keyword rule table, in priority order. */
  const Rules: seq<(seq<string>, Role)> := [
    (["ID"], IdColumn),
    (["NAME", "CUSTOMER"], NameColumn),
    (["PRODUCT", "DESC"], ProductColumn),
    (["PRICE", "AMOUNT"], PriceColumn),
    (["DATE"], DateColumn)
  ]

  predicate AnyKeyword(h: string, keywords: seq<string>)
  {
    exists i | 0 <= i < |keywords| :: Contains(h, keywords[i])
  }

  /** The role of the first rule with a keyword contained in h; Unmapped when none matches. */
  function Dispatch(h: string, rules: seq<(seq<string>, Role)>): Role
    decreases |rules|
  {
    if rules == [] then Unmapped
    else if AnyKeyword(h, rules[0].0) then rules[0].1
    else Dispatch(h, rules[1..])
  }

  /** The role of a template header, matched on its upper-cased text. */
  function RoleOf(header: string): Role
  {
    Dispatch(Upper(header), Rules)
  }

  /** The rule table is first-match: each role is chosen exactly when its keywords match and no earlier rule's do. */
  lemma RoleOfFirstMatch(header: string)
    ensures var h := Upper(header);
      var id := Contains(h, "ID");
      var name := Contains(h, "NAME") || Contains(h, "CUSTOMER");
      var product := Contains(h, "PRODUCT") || Contains(h, "DESC");
      var price := Contains(h, "PRICE") || Contains(h, "AMOUNT");
      var date := Contains(h, "DATE");
      (RoleOf(header) == IdColumn <==> id) &&
      (RoleOf(header) == NameColumn <==> !id && name) &&
      (RoleOf(header) == ProductColumn <==> !id && !name && product) &&
      (RoleOf(header) == PriceColumn <==> !id && !name && !product && price) &&
      (RoleOf(header) == DateColumn <==> !id && !name && !product && !price && date) &&
      (RoleOf(header) == Unmapped <==> !id && !name && !product && !price && !date)
  {
    var h := Upper(header);
    assert AnyKeyword(h, ["ID"]) <==> Contains(h, "ID") by {
      assert ["ID"][0] == "ID";
    }
    assert AnyKeyword(h, ["NAME", "CUSTOMER"]) <==> Contains(h, "NAME") || Contains(h, "CUSTOMER") by {
      assert ["NAME", "CUSTOMER"][0] == "NAME";
      assert ["NAME", "CUSTOMER"][1] == "CUSTOMER";
    }
    assert AnyKeyword(h, ["PRODUCT", "DESC"]) <==> Contains(h, "PRODUCT") || Contains(h, "DESC") by {
      assert ["PRODUCT", "DESC"][0] == "PRODUCT";
      assert ["PRODUCT", "DESC"][1] == "DESC";
    }
    assert AnyKeyword(h, ["PRICE", "AMOUNT"]) <==> Contains(h, "PRICE") || Contains(h, "AMOUNT") by {
      assert ["PRICE", "AMOUNT"][0] == "PRICE";
      assert ["PRICE", "AMOUNT"][1] == "AMOUNT";
    }
    assert AnyKeyword(h, ["DATE"]) <==> Contains(h, "DATE") by {
      assert ["DATE"][0] == "DATE";
    }
    assert Rules[1..][1..][1..][1..][1..] == [];
  }

  /** The value a column of the given role receives for a record. */
  function CellFor(role: Role, customer: string, item: Item): Scalar
  {
    match role
    case IdColumn => item.id
    case NameColumn => SText(Upper(customer))
    case ProductColumn => SText(item.name)
    case PriceColumn => item.price
    case DateColumn => item.date
    case Unmapped => SText("")
  }

  /** `rowData`: one entry per template header, in header order. */
  function FillRow(headers: seq<string>, customer: string, item: Item): (row: seq<Scalar>)
    ensures |row| == |headers|
  {
    seq(|headers|, j requires 0 <= j < |headers| => CellFor(RoleOf(headers[j]), customer, item))
  }

  function FillRows(headers: seq<string>, customer: string, items: seq<Item>): (rows: seq<seq<Scalar>>)
    ensures |rows| == |items|
  {
    seq(|items|, k requires 0 <= k < |items| => FillRow(headers, customer, items[k]))
  }

  lemma FillRowsSnoc(headers: seq<string>, customer: string, items: seq<Item>, k: nat)
    requires k < |items|
    ensures FillRows(headers, customer, items[..k + 1]) == FillRows(headers, customer, items[..k]) + [FillRow(headers, customer, items[k])]
  {
  }

  lemma FillRowsAppend(headers: seq<string>, customer: string, a: seq<Item>, b: seq<Item>)
    ensures FillRows(headers, customer, a + b) == FillRows(headers, customer, a) + FillRows(headers, customer, b)
  {
  }

  function HeaderRow(headers: seq<string>): seq<Scalar>
  {
    seq(|headers|, j requires 0 <= j < |headers| => SText(headers[j]))
  }

  /** The converted worksheet: the template headers, then one row per record of the batch. */
  function DesktopSheet(headers: seq<string>, customer: string, sheet: Sheet): seq<seq<Scalar>>
  {
    [HeaderRow(headers)] + FillRows(headers, customer, Batch(None, Views(DataRows(sheet))))
  }

  /**
   * The converted worksheet has a header row and one row per item of every data row,
   * each with exactly one entry per template header; the source's header row is not copied.
   */
  lemma DesktopSheetShape(headers: seq<string>, customer: string, sheet: Sheet)
    ensures var out := DesktopSheet(headers, customer, sheet);
      |out| == 1 + TotalItems(Views(DataRows(sheet))) &&
      out[0] == HeaderRow(headers) &&
      forall k | 0 <= k < |out| :: |out[k]| == |headers|
  {
    BatchLength(None, Views(DataRows(sheet)));
  }

  /** The template's own headers (`getRow(1).values.filter(v => v)`). */
  function TemplateHeaders(row1: seq<string>): seq<string>
  {
    Seqs.Filter(row1, NonEmpty)
  }

  // ---------------------------------------------------------------------------
  // The conversion loop
  // ---------------------------------------------------------------------------

  /** The mutable variables `idPrefix`, `globalIdCounter` (`-1`: unset) and `idPadding` hold st. */
  ghost predicate Encodes(st: Option<IdState>, idPrefix: string, globalIdCounter: int, idPadding: nat)
  {
    if st.None? then globalIdCounter == -1
    else globalIdCounter >= 0 && st.value == IdState(idPrefix, globalIdCounter, idPadding)
  }

  /**
   * `sheet.eachRow(...)`: the per-row loop with its mutable identifier state. The rows the
   * callback handles past its `rowNumber === 1` guard are `DataRows(sheet)`.
   */
  method ConvertSheet(headers: seq<string>, customer: string, sheet: Sheet) returns (out: seq<seq<Scalar>>)
    ensures out == DesktopSheet(headers, customer, sheet)
  {
    out := [HeaderRow(headers)];
    var globalIdCounter: int := -1;
    var idPrefix := "";
    var idPadding: nat := 0;
    var data := DataRows(sheet);
    var i := 0;
    while i < |data|
      invariant 0 <= i <= |data|
      invariant out == [HeaderRow(headers)] + FillRows(headers, customer, Batch(None, Views(data[..i])))
      invariant Encodes(StateAfter(None, Views(data[..i])), idPrefix, globalIdCounter, idPadding)
    {
      var row := data[i];
      ghost var done := Views(data[..i]);
      ghost var v := View(row);
      Seqs.TakeSnoc(data, i);
      ViewsSnoc(data[..i], row);
      ghost var st := StateAfter(None, done);
      var rows;
      rows, idPrefix, globalIdCounter, idPadding := ConvertRow(headers, customer, row, st, idPrefix, globalIdCounter, idPadding);
      BatchSnoc(None, done, v);
      FillRowsAppend(headers, customer, Batch(None, done), RowItems(InitState(st, v.rawId), v));
      Seqs.AppendAssoc([HeaderRow(headers)], FillRows(headers, customer, Batch(None, done)), rows);
      out := out + rows;
      i := i + 1;
    }
    Seqs.TakeAll(data);
  }

  /** The body of `eachRow` for one data row: the ID-initialisation step, then one output row per item. */
  method ConvertRow(headers: seq<string>, customer: string, row: Row, ghost st: Option<IdState>,
                    idPrefix0: string, globalIdCounter0: int, idPadding0: nat)
    returns (rows: seq<seq<Scalar>>, idPrefix: string, globalIdCounter: int, idPadding: nat)
    requires Encodes(st, idPrefix0, globalIdCounter0, idPadding0)
    ensures rows == FillRows(headers, customer, RowItems(InitState(st, RawId(row)), View(row)))
    ensures Encodes(Advance(InitState(st, RawId(row)), |Items(ProductText(row))|), idPrefix, globalIdCounter, idPadding)
  {
    var rawId := CellValue(CellAt(row, 1));
    idPrefix, globalIdCounter, idPadding := InitIds(rawId, st, idPrefix0, globalIdCounter0, idPadding0);
    var itemsToProcess := Items(ProductText(row));
    rows, globalIdCounter := EmitItems(headers, customer, RowView(rawId, itemsToProcess, Price(row), SaleDate(row)),
                                       InitState(st, rawId), idPrefix, globalIdCounter, idPadding);
  }

  /** `if (globalIdCounter === -1 && rawId)`: the first truthy identifier ending in digits seeds the state. */
  method InitIds(rawId: Scalar, ghost st: Option<IdState>, idPrefix0: string, globalIdCounter0: int, idPadding0: nat)
    returns (idPrefix: string, globalIdCounter: int, idPadding: nat)
    requires Encodes(st, idPrefix0, globalIdCounter0, idPadding0)
    ensures Encodes(InitState(st, rawId), idPrefix, globalIdCounter, idPadding)
  {
    idPrefix, globalIdCounter, idPadding := idPrefix0, globalIdCounter0, idPadding0;
    if globalIdCounter == -1 && Truthy(rawId) {
      var m := MatchTrailingNumber(ToJsString(rawId));
      if m.Some? {
        idPrefix := m.value.0;
        globalIdCounter := ParseDigits(m.value.1);
        idPadding := |m.value.1|;
      }
    }
  }

  /** `itemsToProcess.forEach(...)`: one output row per item, drawing one identifier per item once the state is set. */
  method EmitItems(headers: seq<string>, customer: string, v: RowView, ghost st1: Option<IdState>,
                   idPrefix: string, globalIdCounter0: int, idPadding: nat)
    returns (rows: seq<seq<Scalar>>, globalIdCounter: int)
    requires Encodes(st1, idPrefix, globalIdCounter0, idPadding)
    ensures rows == FillRows(headers, customer, RowItems(st1, v))
    ensures Encodes(Advance(st1, |v.items|), idPrefix, globalIdCounter, idPadding)
  {
    globalIdCounter := globalIdCounter0;
    ghost var recs := RowItems(st1, v);
    rows := [];
    var k := 0;
    while k < |v.items|
      invariant 0 <= k <= |v.items|
      invariant rows == FillRows(headers, customer, recs[..k])
      invariant Encodes(Advance(st1, k), idPrefix, globalIdCounter, idPadding)
    {
      var finalId := v.rawId;
      if globalIdCounter != -1 {
        finalId := SText(idPrefix + PadStart(NatToString(globalIdCounter), idPadding, '0'));
        globalIdCounter := globalIdCounter + 1;
      }
      var rowData := FillRowLoop(headers, customer, finalId, v.items[k], v.price, v.date);
      assert recs[k] == Item(finalId, v.items[k], v.price, v.date);
      FillRowsSnoc(headers, customer, recs, k);
      rows := rows + [rowData];
      k := k + 1;
    }
    assert recs[..k] == recs;
  }

  /** `headers.forEach(header => ...)`: the if-chain of keyword tests pushing one value per header. */
  method FillRowLoop(headers: seq<string>, customer: string, finalId: Scalar, item: string, price: Scalar, date: Scalar)
    returns (rowData: seq<Scalar>)
    ensures rowData == FillRow(headers, customer, Item(finalId, item, price, date))
  {
    rowData := [];
    var j := 0;
    while j < |headers|
      invariant 0 <= j <= |headers|
      invariant rowData == FillRow(headers[..j], customer, Item(finalId, item, price, date))
    {
      var h := Upper(headers[j]);
      RoleOfFirstMatch(headers[j]);
      var v;
      if Contains(h, "ID") {
        v := finalId;
      } else if Contains(h, "NAME") || Contains(h, "CUSTOMER") {
        v := SText(Upper(customer));
      } else if Contains(h, "PRODUCT") || Contains(h, "DESC") {
        v := SText(item);
      } else if Contains(h, "PRICE") || Contains(h, "AMOUNT") {
        v := price;
      } else if Contains(h, "DATE") {
        v := date;
      } else {
        v := SText("");
      }
      assert v == CellFor(RoleOf(headers[j]), customer, Item(finalId, item, price, date));
      rowData := rowData + [v];
      j := j + 1;
      assert headers[..j][..j - 1] == headers[..j - 1];
    }
    assert headers[..j] == headers;
  }

  // ---------------------------------------------------------------------------
  // The per-customer driver
  // ---------------------------------------------------------------------------

  const Customers: seq<string> := ["customer1", "customer2", "customer3"]

  /** `processed_<customer>.xlsx`. */
  function OutputName(customer: string): string
  {
    "processed_" + customer + ".xlsx"
  }

  /** A converted workbook and the file it is written to. */
  datatype Output = Output(file: string, rows: seq<seq<Scalar>>)

  /**
   * What the driver produces for one customer: nothing when the customer's download
   * directory is missing or holds no `.xlsx` file, otherwise the conversion of the newest one.
   */
  function CustomerOutput(headers: seq<string>, customer: string, dirs: map<string, seq<Sorting.FileStat>>,
                          read: (string, string) -> Sheet): Option<Output>
  {
    if customer !in dirs then None
    else
      match Sorting.Newest(Sorting.WithExtension(dirs[customer], ".xlsx"))
      case None => None
      case Some(latest) => Some(Output(OutputName(customer), DesktopSheet(headers, customer, read(customer, latest))))
  }

  function Outputs(headers: seq<string>, customers: seq<string>, dirs: map<string, seq<Sorting.FileStat>>,
                   read: (string, string) -> Sheet): seq<Output>
    decreases |customers|
  {
    if customers == [] then []
    else
      var init := customers[..|customers| - 1];
      var o := CustomerOutput(headers, customers[|customers| - 1], dirs, read);
      Outputs(headers, init, dirs, read) + (if o.Some? then [o.value] else [])
  }

  lemma OutputsSnoc(headers: seq<string>, cs: seq<string>, c: string, dirs: map<string, seq<Sorting.FileStat>>,
                    read: (string, string) -> Sheet)
    ensures var o := CustomerOutput(headers, c, dirs, read);
      Outputs(headers, cs + [c], dirs, read) == Outputs(headers, cs, dirs, read) + (if o.Some? then [o.value] else [])
  {
    assert (cs + [c])[..|cs|] == cs;
  }

  /**
   * `convertToDesktopFormat`: one workbook per customer that has a newest `.xlsx` file.
   * `dirs` maps a customer to the listing of its download directory (absent: no directory);
   * `read(customer, file)` is the first worksheet of that file.
   */
  method ConvertToDesktopFormat(templateRow: seq<string>, dirs: map<string, seq<Sorting.FileStat>>,
                                read: (string, string) -> Sheet)
    returns (outputs: seq<Output>)
    ensures outputs == Outputs(TemplateHeaders(templateRow), Customers, dirs, read)
  {
    var headers := TemplateHeaders(templateRow);
    outputs := [];
    var c := 0;
    while c < |Customers|
      invariant 0 <= c <= |Customers|
      invariant outputs == Outputs(headers, Customers[..c], dirs, read)
    {
      var customer := Customers[c];
      Seqs.TakeSnoc(Customers, c);
      OutputsSnoc(headers, Customers[..c], customer, dirs, read);
      var o := ConvertCustomer(headers, customer, dirs, read);
      if o.Some? {
        outputs := outputs + [o.value];
      }
      c := c + 1;
    }
    Seqs.TakeAll(Customers);
  }

  /** One customer's turn: skip a missing directory or one without `.xlsx` files, else convert the newest file. */
  method ConvertCustomer(headers: seq<string>, customer: string, dirs: map<string, seq<Sorting.FileStat>>,
                         read: (string, string) -> Sheet)
    returns (o: Option<Output>)
    ensures o == CustomerOutput(headers, customer, dirs, read)
  {
    if customer !in dirs {
      return None;
    }
    var latest := Sorting.Newest(Sorting.WithExtension(dirs[customer], ".xlsx"));
    if latest.None? {
      return None;
    }
    var rows := ConvertSheet(headers, customer, read(customer, latest.value));
    o := Some(Output(OutputName(customer), rows));
  }

  /** Each produced workbook is named after a distinct customer it was made for. */
  lemma {:induction false} OutputsNamedPerCustomer(headers: seq<string>, customers: seq<string>,
                                                   dirs: map<string, seq<Sorting.FileStat>>, read: (string, string) -> Sheet)
    ensures |Outputs(headers, customers, dirs, read)| <= |customers|
    ensures forall o | o in Outputs(headers, customers, dirs, read) ::
      exists c | c in customers :: c in dirs && o.file == OutputName(c)
    decreases |customers|
  {
    if customers != [] {
      var init := customers[..|customers| - 1];
      OutputsNamedPerCustomer(headers, init, dirs, read);
      forall o | o in Outputs(headers, customers, dirs, read)
        ensures exists c | c in customers :: c in dirs && o.file == OutputName(c)
      {
        if o in Outputs(headers, init, dirs, read) {
          var c :| c in init && c in dirs && o.file == OutputName(c);
          assert c in customers;
        } else {
          assert customers[|customers| - 1] in customers;
        }
      }
    }
  }

  /** Different customers get different output files. */
  lemma OutputNameInjective(a: string, b: string)
    requires a != b
    ensures OutputName(a) != OutputName(b)
  {
    assert OutputName(a)[10..|OutputName(a)| - 5] == a;
    assert OutputName(b)[10..|OutputName(b)| - 5] == b;
  }

  /** With no customer listed twice, no two produced workbooks share a file name. */
  lemma {:induction false} OutputsDistinctFiles(headers: seq<string>, customers: seq<string>,
                                                dirs: map<string, seq<Sorting.FileStat>>, read: (string, string) -> Sheet)
    requires forall i, j | 0 <= i < j < |customers| :: customers[i] != customers[j]
    ensures var outs := Outputs(headers, customers, dirs, read);
      forall i, j | 0 <= i < j < |outs| :: outs[i].file != outs[j].file
    decreases |customers|
  {
    if customers != [] {
      var init := customers[..|customers| - 1];
      var last := customers[|customers| - 1];
      OutputsDistinctFiles(headers, init, dirs, read);
      OutputsNamedPerCustomer(headers, init, dirs, read);
      var prev := Outputs(headers, init, dirs, read);
      var outs := Outputs(headers, customers, dirs, read);
      var o := CustomerOutput(headers, last, dirs, read);
      assert outs == prev + (if o.Some? then [o.value] else []);
      forall i, j | 0 <= i < j < |outs|
        ensures outs[i].file != outs[j].file
      {
        if j >= |prev| {
          assert outs[i] in prev;
          var c :| c in init && c in dirs && outs[i].file == OutputName(c);
          assert c != last by {
            var k :| 0 <= k < |init| && init[k] == c;
            assert customers[k] == c;
          }
          OutputNameInjective(c, last);
        }
      }
    }
  }

  /** The fixed customer list names three different customers, so the driver writes distinct files. */
  lemma DesktopFilesDistinct(templateRow: seq<string>, dirs: map<string, seq<Sorting.FileStat>>,
                             read: (string, string) -> Sheet)
    ensures var outs := Outputs(TemplateHeaders(templateRow), Customers, dirs, read);
      forall i, j | 0 <= i < j < |outs| :: outs[i].file != outs[j].file
  {
    forall i, j | 0 <= i < j < |Customers| ensures Customers[i] != Customers[j] {
      assert Customers[i][8] != Customers[j][8];
    }
    OutputsDistinctFiles(TemplateHeaders(templateRow), Customers, dirs, read);
  }
}
