/**
 * scripts/server.js: the central dashboard's in-memory record store (`dataStore`) and its
 * processing history (`processingHistory`). Each is an array of JSON objects that the
 * request handlers push to, reassign or sort in place. Persistence to disk (`saveData`,
 * `saveHistory`) only mirrors these arrays and is not modelled.
 */
module Store {
  import opened Wrappers
  import opened JsText
  import opened Cells
  import Seqs
  import Sorting
  import ServerCells

  /** A JSON object held by the store or the history: field name to value. */
  type Record = map<string, Scalar>

  /** `{ ...a, ...b }`: every field of either object, the fields of b winning. */
  function Merge(a: Record, b: Record): (m: Record)
    ensures m.Keys == a.Keys + b.Keys
    ensures forall k | k in b :: m[k] == b[k]
    ensures forall k | k in a && k !in b :: m[k] == a[k]
  {
    a + b
  }

  /** `r.id === id` for an id taken from the request path. */
  predicate HasId(r: Record, id: string)
  {
    "id" in r && r["id"] == SText(id)
  }

  // ---------------------------------------------------------------------------
  // Upload
  // ---------------------------------------------------------------------------

  /** An entry of `headers`: a header cell's value and its 1-based column. */
  datatype Header = Header(name: Cell, col: nat)

  /** `row.eachCell((cell, colNumber) => ...)`: the non-empty cells of the row with their columns. */
  function HeaderCells(row: Row): seq<Header>
    decreases |row|
  {
    if row == [] then []
    else
      var last := row[|row| - 1];
      HeaderCells(row[..|row| - 1]) + (if last != Empty then [Header(last, |row|)] else [])
  }

  /** Each visited cell is a non-empty cell of the row at its column, and the columns increase. */
  lemma {:induction false} HeaderCellsSound(row: Row)
    ensures forall i | 0 <= i < |HeaderCells(row)| ::
      var h := HeaderCells(row)[i]; 1 <= h.col <= |row| && h.name == row[h.col - 1] && h.name != Empty
    ensures forall i, j | 0 <= i < j < |HeaderCells(row)| :: HeaderCells(row)[i].col < HeaderCells(row)[j].col
    decreases |row|
  {
    if row != [] {
      var init := row[..|row| - 1];
      HeaderCellsSound(init);
      var hs := HeaderCells(init);
      var last := row[|row| - 1];
      var tail := if last != Empty then [Header(last, |row|)] else [];
      assert HeaderCells(row) == hs + tail;
      forall i | 0 <= i < |hs|
        ensures hs[i].col <= |init| && hs[i].name == row[hs[i].col - 1]
      {
        assert init[hs[i].col - 1] == row[hs[i].col - 1];
      }
    }
  }

  /** Every non-empty cell of the row is visited, with its column. */
  lemma {:induction false} HeaderCellsComplete(row: Row)
    ensures forall k | 0 <= k < |row| && row[k] != Empty :: Header(row[k], k + 1) in HeaderCells(row)
    decreases |row|
  {
    if row != [] {
      var init := row[..|row| - 1];
      HeaderCellsComplete(init);
      assert forall k | 0 <= k < |init| :: init[k] == row[k];
    }
  }

  /** The headers of the upload handler, read from row 1 (none for an empty sheet). */
  function Headers(sheet: Sheet): seq<Header>
  {
    if sheet == [] then [] else HeaderCells(sheet[0])
  }

  /** `h.name.toString().toLowerCase().replace(/ /g, '_')`. */
  function KeyOf(name: Cell): string
  {
    ReplaceAll(Lower(CellToString(name)), ' ', '_')
  }

  /** A key is the header text with ASCII letters lower-cased and spaces turned into `_`. */
  lemma KeyOfShape(name: Cell)
    ensures |KeyOf(name)| == |CellToString(name)|
    ensures forall i | 0 <= i < |KeyOf(name)| :: KeyOf(name)[i] != ' ' && !('A' <= KeyOf(name)[i] <= 'Z')
    ensures forall i | 0 <= i < |KeyOf(name)| ::
      var c := CellToString(name)[i];
      KeyOf(name)[i] == if c == ' ' then '_' else LowerChar(c)
  {
  }

  /** A field the upload writes: the key derived from a header and the column it reads. */
  datatype Field = Field(key: string, col: nat)

  /** The fields of the headers, in header order. */
  function Fields(hs: seq<Header>): (fs: seq<Field>)
    ensures |fs| == |hs|
    ensures forall i | 0 <= i < |hs| :: fs[i] == Field(KeyOf(hs[i].name), hs[i].col)
  {
    Seqs.Map(hs, (h: Header) => Field(KeyOf(h.name), h.col))
  }

  /** `getCellValue(row.getCell(col))`. */
  function FieldValue(f: Field, row: Row): Scalar
  {
    ServerCells.CellValue(CellAt(row, f.col))
  }

  /** The keys the fields write. */
  function Keys(fs: seq<Field>): (ks: set<string>)
    ensures forall i | 0 <= i < |fs| :: fs[i].key in ks
    ensures forall k | k in ks :: exists i | 0 <= i < |fs| :: fs[i].key == k
    decreases |fs|
  {
    if fs == [] then {}
    else
      var ks := Keys(fs[..|fs| - 1]);
      assert forall k | k in ks :: exists i | 0 <= i < |fs| - 1 :: fs[i].key == k;
      ks + {fs[|fs| - 1].key}
  }

  /** No field after position i has the same key: field i's value is the one that stays. */
  ghost predicate LastWithKey(fs: seq<Field>, i: int)
    requires 0 <= i < |fs|
  {
    forall j | i < j < |fs| :: fs[j].key != fs[i].key
  }

  /** `headers.forEach(h => record[key] = value)` applied to `base`. */
  function FillRecord(base: Record, fs: seq<Field>, row: Row): Record
    decreases |fs|
  {
    if fs == [] then base
    else FillRecord(base, fs[..|fs| - 1], row)[fs[|fs| - 1].key := FieldValue(fs[|fs| - 1], row)]
  }

  /** The filled record has the base's keys and every field's key, and no other. */
  lemma {:induction false} FillRecordKeys(base: Record, fs: seq<Field>, row: Row)
    ensures FillRecord(base, fs, row).Keys == base.Keys + Keys(fs)
    decreases |fs|
  {
    if fs != [] {
      FillRecordKeys(base, fs[..|fs| - 1], row);
    }
  }

  /** A key no field writes keeps the base's value. */
  lemma {:induction false} FillRecordKeeps(base: Record, fs: seq<Field>, row: Row, k: string)
    requires k in base && k !in Keys(fs)
    ensures k in FillRecord(base, fs, row) && FillRecord(base, fs, row)[k] == base[k]
    decreases |fs|
  {
    if fs != [] {
      FillRecordKeeps(base, fs[..|fs| - 1], row, k);
    }
  }

  /** Each key holds the value of the last field that writes it. */
  lemma {:induction false} FillRecordLastWins(base: Record, fs: seq<Field>, row: Row, i: nat)
    requires i < |fs| && LastWithKey(fs, i)
    ensures fs[i].key in FillRecord(base, fs, row) && FillRecord(base, fs, row)[fs[i].key] == FieldValue(fs[i], row)
    decreases |fs|
  {
    var init := fs[..|fs| - 1];
    if i < |init| {
      assert init[i] == fs[i];
      assert LastWithKey(init, i);
      assert fs[|fs| - 1].key != fs[i].key;
      FillRecordLastWins(base, init, row, i);
    }
  }

  /**
   * The record built for one data row: an id, the upper-cased customer, then one field per
   * header. A header whose key is `id` or `customer` overwrites that field.
   */
  function NewRecord(id: string, customer: string, hs: seq<Header>, row: Row): Record
  {
    FillRecord(map["id" := SText(id), "customer" := SText(Upper(customer))], Fields(hs), row)
  }

  /**
   * The record of a data row has the keys `id`, `customer` and one per header; `customer` is
   * the upper-cased customer and `id` the drawn id unless a header key overwrites them, and
   * each header key holds the normalised cell of the last header with that key.
   */
  lemma NewRecordShape(id: string, customer: string, hs: seq<Header>, row: Row)
    ensures NewRecord(id, customer, hs, row).Keys == {"id", "customer"} + Keys(Fields(hs))
    ensures "customer" !in Keys(Fields(hs)) ==> NewRecord(id, customer, hs, row)["customer"] == SText(Upper(customer))
    ensures "id" !in Keys(Fields(hs)) ==> NewRecord(id, customer, hs, row)["id"] == SText(id)
    ensures forall i | 0 <= i < |hs| && LastWithKey(Fields(hs), i) ::
      KeyOf(hs[i].name) in NewRecord(id, customer, hs, row) &&
      NewRecord(id, customer, hs, row)[KeyOf(hs[i].name)] == ServerCells.CellValue(CellAt(row, hs[i].col))
  {
    var base := map["id" := SText(id), "customer" := SText(Upper(customer))];
    var fs := Fields(hs);
    var r := NewRecord(id, customer, hs, row);
    assert r == FillRecord(base, fs, row);
    FillRecordKeys(base, fs, row);
    if "customer" !in Keys(fs) {
      FillRecordKeeps(base, fs, row, "customer");
    }
    if "id" !in Keys(fs) {
      FillRecordKeeps(base, fs, row, "id");
    }
    forall i | 0 <= i < |hs| && LastWithKey(fs, i)
      ensures KeyOf(hs[i].name) in r && r[KeyOf(hs[i].name)] == ServerCells.CellValue(CellAt(row, hs[i].col))
    {
      assert fs[i] == Field(KeyOf(hs[i].name), hs[i].col);
      FillRecordLastWins(base, fs, row, i);
    }
  }

  /** The records an upload appends, one per data row, each with the id drawn for it. */
  function Uploaded(sheet: Sheet, customer: string, ids: seq<string>): seq<Record>
    requires |ids| == |DataRows(sheet)|
  {
    var data := DataRows(sheet);
    seq(|data|, i requires 0 <= i < |data| => NewRecord(ids[i], customer, Headers(sheet), data[i]))
  }

  // ---------------------------------------------------------------------------
  // Queries and deletions
  // ---------------------------------------------------------------------------

  /** `customer && customer !== 'all'`: whether a listing is narrowed to one customer. */
  predicate Narrows(customer: Option<string>)
  {
    customer.Some? && customer.value != "" && customer.value != "all"
  }

  /** `r.customer.toLowerCase()` can be evaluated: the record has a string customer. */
  predicate HasCustomerText(r: Record)
  {
    "customer" in r && r["customer"].SText?
  }

  /** `r.customer.toLowerCase() === c.toLowerCase()`. */
  predicate BelongsTo(r: Record, c: string)
  {
    HasCustomerText(r) && Lower(r["customer"].s) == Lower(c)
  }

  /** The status of a handler that throws (express answers 500). */
  const Failed: nat := 500

  /**
   * The customer filter of `GET /api/data` and `GET /api/processing-history`: everything when
   * not narrowed, otherwise the records of that customer compared case-insensitively, in
   * order. A record without a string customer makes the filter throw.
   */
  function ByCustomer(records: seq<Record>, customer: Option<string>): (r: Result<seq<Record>, nat>)
    ensures !Narrows(customer) ==> r == Ok(records)
    ensures Narrows(customer) ==> (r.Err? <==> exists i | 0 <= i < |records| :: !HasCustomerText(records[i]))
    ensures r.Err? ==> r.error == Failed
    ensures Narrows(customer) && r.Ok? ==>
      (forall x | x in r.value :: x in records && BelongsTo(x, customer.value)) &&
      (forall i | 0 <= i < |records| && BelongsTo(records[i], customer.value) :: records[i] in r.value)
    ensures Narrows(customer) && r.Ok? ==> r.value == Seqs.Filter(records, (x: Record) => BelongsTo(x, customer.value))
  {
    if !Narrows(customer) then Ok(records)
    else if exists i | 0 <= i < |records| :: !HasCustomerText(records[i]) then Err(Failed)
    else Ok(Seqs.Filter(records, (x: Record) => BelongsTo(x, customer.value)))
  }

  /** `records.filter(r => r.id !== id)`. */
  function WithoutId(records: seq<Record>, id: string): (r: seq<Record>)
    ensures forall x | x in r :: x in records && !HasId(x, id)
    ensures forall i | 0 <= i < |records| && !HasId(records[i], id) :: records[i] in r
  {
    Seqs.Filter(records, (x: Record) => !HasId(x, id))
  }

  /** Deleting by id removes exactly the records with that id and leaves the rest in order. */
  lemma DeleteRemovesExactly(records: seq<Record>, id: string)
    ensures multiset(WithoutId(records, id)) + multiset(Seqs.Filter(records, (x: Record) => HasId(x, id))) == multiset(records)
    ensures (forall i | 0 <= i < |records| :: !HasId(records[i], id)) ==> WithoutId(records, id) == records
    ensures forall a, b | |a| + |b| == |records| && a + b == records ::
      WithoutId(a + b, id) == WithoutId(a, id) + WithoutId(b, id)
  {
    var keep := (x: Record) => !HasId(x, id);
    Seqs.FilterPartition(records, keep, (x: Record) => HasId(x, id));
    if forall i | 0 <= i < |records| :: !HasId(records[i], id) {
      Seqs.FilterAll(records, keep);
    }
    forall a, b | |a| + |b| == |records| && a + b == records
      ensures WithoutId(a + b, id) == WithoutId(a, id) + WithoutId(b, id)
    {
      Seqs.FilterAppend(a, b, keep);
    }
  }

  /** `!ids.includes(r.id)`: the record has no id, or one not listed. */
  predicate NotListed(r: Record, ids: seq<Scalar>)
  {
    "id" !in r || r["id"] !in ids
  }

  /** `records.filter(r => !ids.includes(r.id))`. */
  function WithoutIds(records: seq<Record>, ids: seq<Scalar>): (r: seq<Record>)
    ensures forall x | x in r :: x in records && NotListed(x, ids)
    ensures forall i | 0 <= i < |records| && NotListed(records[i], ids) :: records[i] in r
  {
    Seqs.Filter(records, (x: Record) => NotListed(x, ids))
  }

  /**
   * A bulk delete removes exactly the listed records, each as often as stored, and leaves
   * the rest in order; an empty list removes nothing.
   */
  lemma BulkDeleteRemovesExactly(records: seq<Record>, ids: seq<Scalar>)
    ensures |WithoutIds(records, ids)| + |Seqs.Filter(records, (x: Record) => !NotListed(x, ids))| == |records|
    ensures multiset(WithoutIds(records, ids)) + multiset(Seqs.Filter(records, (x: Record) => !NotListed(x, ids))) == multiset(records)
    ensures ids == [] ==> WithoutIds(records, ids) == records
    ensures forall a, b | |a| + |b| == |records| && a + b == records ::
      WithoutIds(a + b, ids) == WithoutIds(a, ids) + WithoutIds(b, ids)
  {
    var keep := (x: Record) => NotListed(x, ids);
    Seqs.FilterPartition(records, keep, (x: Record) => !NotListed(x, ids));
    if ids == [] {
      Seqs.FilterAll(records, keep);
    }
    forall a, b | |a| + |b| == |records| && a + b == records
      ensures WithoutIds(a + b, ids) == WithoutIds(a, ids) + WithoutIds(b, ids)
    {
      Seqs.FilterAppend(a, b, keep);
    }
  }

  /**
   * `PUT /api/data/:id`: None (404) when no record has the id; otherwise the first record
   * with it is merged with the body and every other record is left as it was.
   */
  function Updated(records: seq<Record>, id: string, body: Record): (r: Option<seq<Record>>)
    ensures r.None? <==> forall i | 0 <= i < |records| :: !HasId(records[i], id)
    ensures r.Some? ==> (|r.value| == |records| &&
      exists k | 0 <= k < |records| ::
        HasId(records[k], id) && (forall i | 0 <= i < k :: !HasId(records[i], id)) &&
        r.value[k] == Merge(records[k], body) &&
        forall i | 0 <= i < |records| && i != k :: r.value[i] == records[i])
  {
    var k := Seqs.FindIndex(records, (x: Record) => HasId(x, id));
    if k == -1 then None else Some(records[k := Merge(records[k], body)])
  }

  /** `dataStore`: the records of the central dashboard. */
  class DataStore {
    var records: seq<Record>

    /** The store as `loadData` reads it. */
    constructor (initial: seq<Record>)
      ensures records == initial
    {
      records := initial;
    }

    /** `DELETE /api/data/clear`. */
    method Clear() returns (status: nat, message: string)
      modifies this
      ensures records == [] && status == 200 && message == "All data cleared"
    {
      records := [];
      status, message := 200, "All data cleared";
    }

    /**
     * `POST /api/upload`: one record per data row, pushed in row order. A missing customer
     * throws on the first data row (`customer.toUpperCase()`), before anything is pushed.
     */
    method Upload(sheet: Sheet, customer: Option<string>, ids: seq<string>) returns (status: nat, message: string)
      requires |ids| == |DataRows(sheet)|
      modifies this
      ensures customer.None? && DataRows(sheet) != [] ==>
        status == Failed && message == "Processing failed" && records == old(records)
      ensures customer.Some? || DataRows(sheet) == [] ==>
        status == 200 && message == "Upload successful" &&
        records == old(records) + Uploaded(sheet, customer.GetOr(""), ids)
    {
      var hs := Headers(sheet);
      var data := DataRows(sheet);
      ghost var added := Uploaded(sheet, customer.GetOr(""), ids);
      var i := 0;
      while i < |data|
        invariant 0 <= i <= |data|
        invariant customer.None? ==> i == 0
        invariant records == old(records) + added[..i]
      {
        if customer.None? {
          return Failed, "Processing failed";
        }
        var record := BuildRecord(ids[i], customer.value, hs, data[i]);
        assert record == added[i];
        Seqs.TakeSnoc(added, i);
        Seqs.AppendAssoc(old(records), added[..i], [record]);
        records := records + [record];
        i := i + 1;
      }
      Seqs.TakeAll(added);
      status, message := 200, "Upload successful";
    }

    /** The record for one data row, built field by field as the header loop does. */
    static method BuildRecord(id: string, customer: string, hs: seq<Header>, row: Row) returns (record: Record)
      ensures record == NewRecord(id, customer, hs, row)
    {
      var base := map["id" := SText(id), "customer" := SText(Upper(customer))];
      ghost var fs := Fields(hs);
      record := base;
      var j := 0;
      while j < |hs|
        invariant 0 <= j <= |hs|
        invariant record == FillRecord(base, fs[..j], row)
      {
        Seqs.TakeSnoc(fs, j);
        var key := KeyOf(hs[j].name);
        record := record[key := ServerCells.CellValue(CellAt(row, hs[j].col))];
        j := j + 1;
      }
      Seqs.TakeAll(fs);
    }

    /** `GET /api/data`. */
    method Query(customer: Option<string>) returns (r: Result<seq<Record>, nat>)
      ensures r == ByCustomer(records, customer)
    {
      r := ByCustomer(records, customer);
    }

    /** `DELETE /api/data/:id`. */
    method Delete(id: string) returns (status: nat, message: string)
      modifies this
      ensures records == WithoutId(old(records), id) && status == 200 && message == "Deleted"
    {
      records := WithoutId(records, id);
      status, message := 200, "Deleted";
    }

    /** `POST /api/data/bulk-delete`: `ids` is None when the body's `ids` is not an array (400). */
    method BulkDelete(ids: Option<seq<Scalar>>) returns (status: nat, message: string)
      modifies this
      ensures ids.None? ==> status == 400 && message == "Invalid IDs" && records == old(records)
      ensures ids.Some? ==> (status == 200 && message == NatToString(|ids.value|) + " records deleted" &&
        records == WithoutIds(old(records), ids.value))
    {
      if ids.None? {
        return 400, "Invalid IDs";
      }
      records := WithoutIds(records, ids.value);
      status, message := 200, NatToString(|ids.value|) + " records deleted";
    }

    /** `PUT /api/data/:id`. */
    method Update(id: string, body: Record) returns (status: nat, message: string)
      modifies this
      ensures Updated(old(records), id, body).None? ==> status == 404 && message == "Not found" && records == old(records)
      ensures Updated(old(records), id, body).Some? ==>
        status == 200 && message == "Updated" && records == Updated(old(records), id, body).value
    {
      var index := Seqs.FindIndex(records, (x: Record) => HasId(x, id));
      if index != -1 {
        records := records[index := Merge(records[index], body)];
        return 200, "Updated";
      }
      status, message := 404, "Not found";
    }
  }

  // ---------------------------------------------------------------------------
  // Processing history
  // ---------------------------------------------------------------------------

  /** `{ id, timestamp: new Date().toISOString(), ...req.body }`. */
  function NewEntry(id: string, timestamp: string, body: Record): (e: Record)
    ensures e.Keys == {"id", "timestamp"} + body.Keys
    ensures forall k | k in body :: e[k] == body[k]
    ensures "id" !in body ==> e["id"] == SText(id)
    ensures "timestamp" !in body ==> e["timestamp"] == SText(timestamp)
  {
    Merge(map["id" := SText(id), "timestamp" := SText(timestamp)], body)
  }

  /**
   * What `GET /api/processing-history` answers: the customer's entries (all of them when
   * not narrowed), newest first by `time`, the reading of an entry's timestamp.
   */
  function Listing(entries: seq<Record>, customer: Option<string>, time: Record -> int): Result<seq<Record>, nat>
  {
    match ByCustomer(entries, customer)
    case Ok(xs) => Ok(Sorting.SortDesc(xs, time))
    case Err(e) => Err(e)
  }

  /** The listing holds exactly the customer's entries, each as often as stored, newest first. */
  lemma ListingFilteredAndSorted(entries: seq<Record>, customer: Option<string>, time: Record -> int)
    ensures var r := Listing(entries, customer, time);
      (r.Err? <==> Narrows(customer) && exists i | 0 <= i < |entries| :: !HasCustomerText(entries[i])) &&
      (r.Ok? ==>
        Sorting.SortedDesc(r.value, time) &&
        (!Narrows(customer) ==> multiset(r.value) == multiset(entries)) &&
        (Narrows(customer) ==>
          multiset(r.value) == multiset(Seqs.Filter(entries, (x: Record) => BelongsTo(x, customer.value))) &&
          (forall x | x in r.value :: x in entries && BelongsTo(x, customer.value)) &&
          (forall i | 0 <= i < |entries| && BelongsTo(entries[i], customer.value) :: entries[i] in r.value)))
  {
    var f := ByCustomer(entries, customer);
    if f.Ok? {
      var s := Sorting.SortDesc(f.value, time);
      forall x | x in s ensures x in f.value {
        assert x in multiset(s);
      }
      forall x | x in f.value ensures x in s {
        assert x in multiset(f.value);
      }
    }
  }

  /** `processingHistory`: the log of processing runs. */
  class HistoryLog {
    var entries: seq<Record>

    /** The history as `loadHistory` reads it. */
    constructor (initial: seq<Record>)
      ensures entries == initial
    {
      entries := initial;
    }

    /** `POST /api/processing-history`: the id and timestamp are drawn by the caller. */
    method Add(id: string, timestamp: string, body: Record) returns (status: nat, entry: Record)
      modifies this
      ensures entry == NewEntry(id, timestamp, body) && status == 201
      ensures entries == old(entries) + [entry]
    {
      entry := Merge(map["id" := SText(id), "timestamp" := SText(timestamp)], body);
      entries := entries + [entry];
      status := 201;
    }

    /**
     * `GET /api/processing-history`. Without a customer filter `filtered` is the stored array
     * itself, so its in-place sort reorders the history; a filtered listing sorts a copy.
     */
    method List(customer: Option<string>, time: Record -> int) returns (r: Result<seq<Record>, nat>)
      modifies this
      ensures r == Listing(old(entries), customer, time)
      ensures !Narrows(customer) ==> entries == Sorting.SortDesc(old(entries), time)
      ensures Narrows(customer) ==> entries == old(entries)
    {
      if Narrows(customer) {
        var filtered := ByCustomer(entries, customer);
        if filtered.Err? {
          return Err(filtered.error);
        }
        r := Ok(Sorting.SortDesc(filtered.value, time));
      } else {
        entries := Sorting.SortDesc(entries, time);
        r := Ok(entries);
      }
    }

    /** `DELETE /api/processing-history/:id`. */
    method Delete(id: string) returns (status: nat, message: string)
      modifies this
      ensures entries == WithoutId(old(entries), id) && status == 200 && message == "History entry deleted"
    {
      entries := WithoutId(entries, id);
      status, message := 200, "History entry deleted";
    }
  }
}
