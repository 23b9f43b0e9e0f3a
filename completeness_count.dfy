/**
 * The completeness count over one fetcher CSV file: csv.DictReader takes
 * the first record as the field names, skips blank records, and turns each
 * other record into a dict; the script counts the records whose
 * 数据完整性 value is exactly 是.
 */
module CompletenessCount {
  import opened Wrappers
  import opened PyJson
  import opened CsvStore
  import SseFetcher
  import SzseFetcher

  /** A record as csv.reader yields it: its fields as text. */
  type Record = seq<string>

  /** The last position of a name among the field names, None when it is absent. */
  function LastIndex(fieldnames: Record, name: string): (r: Option<nat>)
    ensures r.None? <==> name !in fieldnames
    ensures r.Some? ==>
      r.value < |fieldnames| && fieldnames[r.value] == name &&
      forall j :: r.value < j < |fieldnames| ==> fieldnames[j] != name
  {
    if fieldnames == [] then None
    else if fieldnames[|fieldnames| - 1] == name then Some(|fieldnames| - 1)
    else LastIndex(fieldnames[..|fieldnames| - 1], name)
  }

  /**
   * row.get(name) on a record's dict: the field under the last column with
   * that name, or None when the name is not a column or the record is too
   * short to reach its last column.
   */
  function Cell(fieldnames: Record, row: Record, name: string): (r: Option<string>)
    ensures r.Some? <==> name in fieldnames && LastIndex(fieldnames, name).value < |row|
    ensures r.Some? ==> r.value == row[LastIndex(fieldnames, name).value]
  {
    match LastIndex(fieldnames, name)
    case None => None
    case Some(j) => if j < |row| then Some(row[j]) else None
  }

  /**
   * dict(zip(fieldnames, row)) over the first n pairs: a later column with
   * the same name overwrites an earlier one.
   */
  function Zipped(fieldnames: Record, row: Record, n: nat): map<string, Option<string>>
    requires n <= |fieldnames| && n <= |row|
  {
    if n == 0 then map[] else Zipped(fieldnames, row, n - 1)[fieldnames[n - 1] := Some(row[n - 1])]
  }

  /** The restval step: every field name from position lr up to k is set to None. */
  function Padded(d: map<string, Option<string>>, fieldnames: Record, lr: nat, k: nat): map<string, Option<string>>
    requires lr <= k <= |fieldnames|
    decreases k - lr
  {
    if k == lr then d else Padded(d, fieldnames, lr, k - 1)[fieldnames[k - 1] := None]
  }

  function Min(a: nat, b: nat): nat
  {
    if a <= b then a else b
  }

  /**
   * The dict DictReader returns for a record: the zipped pairs, then None
   * for every field name beyond the record's end. The extra fields of a
   * record longer than the field names go under the key None, which no
   * column name can equal, so they are not part of this map.
   */
  function RowDict(fieldnames: Record, row: Record): map<string, Option<string>>
  {
    var n := Min(|fieldnames|, |row|);
    Padded(Zipped(fieldnames, row, n), fieldnames, n, if |row| < |fieldnames| then |fieldnames| else n)
  }

  /** dict.get: None both for a missing key and for a key padded with None. */
  function DictGet(d: map<string, Option<string>>, name: string): Option<string>
  {
    if name in d then d[name] else None
  }

  lemma {:induction false} ZippedGet(fieldnames: Record, row: Record, n: nat, name: string)
    requires n <= |fieldnames| && n <= |row|
    ensures name in fieldnames[..n] <==> name in Zipped(fieldnames, row, n)
    ensures name in fieldnames[..n] ==>
      var j := LastIndex(fieldnames[..n], name).value;
      Zipped(fieldnames, row, n)[name] == Some(row[j])
  {
    if n > 0 {
      ZippedGet(fieldnames, row, n - 1, name);
      assert fieldnames[..n] == fieldnames[..n - 1] + [fieldnames[n - 1]];
      assert fieldnames[..n][..n - 1] == fieldnames[..n - 1];
    }
  }

  lemma {:induction false} PaddedGet(d: map<string, Option<string>>, fieldnames: Record, lr: nat, k: nat, name: string)
    requires lr <= k <= |fieldnames|
    ensures name in fieldnames[lr..k] ==> name in Padded(d, fieldnames, lr, k) && Padded(d, fieldnames, lr, k)[name] == None
    ensures name !in fieldnames[lr..k] ==> DictGet(Padded(d, fieldnames, lr, k), name) == DictGet(d, name)
    decreases k - lr
  {
    if k > lr {
      PaddedGet(d, fieldnames, lr, k - 1, name);
      assert fieldnames[lr..k] == fieldnames[lr..k - 1] + [fieldnames[k - 1]];
    }
  }

  lemma LastIndexPrefix(fieldnames: Record, n: nat, name: string)
    requires n <= |fieldnames| && name in fieldnames[..n] && name !in fieldnames[n..]
    ensures LastIndex(fieldnames[..n], name) == LastIndex(fieldnames, name)
  {
    var k := LastIndex(fieldnames, name).value;
    assert fieldnames[..n][k] == name;
  }

  /**
   * The dict DictReader builds and the positional reading agree: row.get
   * returns the field under the last column of that name when the record
   * reaches it, and None otherwise.
   */
  lemma RowDictGet(fieldnames: Record, row: Record, name: string)
    ensures DictGet(RowDict(fieldnames, row), name) == Cell(fieldnames, row, name)
  {
    var n := Min(|fieldnames|, |row|);
    var k := if |row| < |fieldnames| then |fieldnames| else n;
    ZippedGet(fieldnames, row, n, name);
    PaddedGet(Zipped(fieldnames, row, n), fieldnames, n, k, name);
    assert fieldnames == fieldnames[..n] + fieldnames[n..];
    if k == n {
      assert fieldnames[n..k] == [];
    } else {
      assert fieldnames[n..k] == fieldnames[n..];
    }
    if name in fieldnames[..n] && name !in fieldnames[n..] {
      LastIndexPrefix(fieldnames, n, name);
    }
    if name in fieldnames[n..] {
      var i :| 0 <= i < |fieldnames[n..]| && fieldnames[n..][i] == name;
      assert fieldnames[n + i] == name;
    }
  }

  /** A data record counts when its 数据完整性 value is exactly 是. */
  predicate Marked(fieldnames: Record, row: Record)
  {
    Cell(fieldnames, row, CompletenessColumn) == Some(Complete)
  }

  /** The records DictReader yields after the field names: every one that is not blank. */
  function DataRows(rows: seq<Record>): (data: seq<Record>)
    ensures |data| <= |rows|
  {
    if rows == [] then []
    else DataRows(rows[..|rows| - 1]) + (if |rows[|rows| - 1]| == 0 then [] else [rows[|rows| - 1]])
  }

  /** The number of records marked 是. */
  function Completes(fieldnames: Record, rows: seq<Record>): nat
  {
    if rows == [] then 0
    else Completes(fieldnames, rows[..|rows| - 1]) + (if Marked(fieldnames, rows[|rows| - 1]) then 1 else 0)
  }

  /** What the script counts in a file: nothing when it is empty, else the marked data records. */
  function CountMarked(records: seq<Record>): nat
  {
    if records == [] then 0 else Completes(records[0], DataRows(records[1..]))
  }

  /**
   * The counting loop: read the field names, then go through the records,
   * skip the blank ones, build each record's dict and count it when its
   * 数据完整性 value equals 是.
   */
  method CountComplete(records: seq<Record>) returns (count: nat)
    ensures count == CountMarked(records)
  {
    count := 0;
    if |records| == 0 {
      return;
    }
    var fieldnames := records[0];
    var i := 1;
    while i < |records|
      invariant 1 <= i <= |records|
      invariant count == Completes(fieldnames, DataRows(records[1..i]))
    {
      var row := records[i];
      assert records[1..i + 1] == records[1..i] + [row];
      CountStep(fieldnames, records[1..i], row);
      if |row| != 0 {
        var d := RowDict(fieldnames, row);
        RowDictGet(fieldnames, row, CompletenessColumn);
        if DictGet(d, CompletenessColumn) == Some(Complete) {
          count := count + 1;
        }
      }
      i := i + 1;
    }
    assert records[1..i] == records[1..];
  }

  /** One more record read: a blank one is skipped, any other counts when it is marked. */
  lemma CountStep(fieldnames: Record, rows: seq<Record>, row: Record)
    ensures Completes(fieldnames, DataRows(rows + [row])) ==
      Completes(fieldnames, DataRows(rows)) + (if |row| != 0 && Marked(fieldnames, row) then 1 else 0)
  {
    assert (rows + [row])[..|rows|] == rows;
    if |row| != 0 {
      var data := DataRows(rows) + [row];
      assert DataRows(rows + [row]) == data;
      assert data[..|data| - 1] == DataRows(rows);
    } else {
      assert DataRows(rows + [row]) == DataRows(rows) + [];
      assert DataRows(rows) + [] == DataRows(rows);
    }
  }

  lemma {:induction false} CompletesBound(fieldnames: Record, rows: seq<Record>)
    ensures Completes(fieldnames, rows) <= |rows|
  {
    if rows != [] {
      CompletesBound(fieldnames, rows[..|rows| - 1]);
    }
  }

  /** The count never exceeds the number of data records. */
  lemma CountBound(records: seq<Record>)
    requires records != []
    ensures CountMarked(records) <= |DataRows(records[1..])|
  {
    CompletesBound(records[0], DataRows(records[1..]));
  }

  lemma {:induction false} CompletesNone(fieldnames: Record, rows: seq<Record>)
    requires forall r :: r in rows ==> !Marked(fieldnames, r)
    ensures Completes(fieldnames, rows) == 0
  {
    if rows != [] {
      assert rows[|rows| - 1] in rows;
      CompletesNone(fieldnames, rows[..|rows| - 1]);
    }
  }

  /** A file with no data records counts 0. */
  lemma NoDataRowsCountZero(records: seq<Record>)
    requires records == [] || |DataRows(records[1..])| == 0
    ensures CountMarked(records) == 0
  {
    if records != [] {
      assert DataRows(records[1..]) == [];
    }
  }

  /** When no column is named 数据完整性, row.get returns None for every record and nothing counts. */
  lemma MissingColumnCountsZero(records: seq<Record>)
    requires records != [] && CompletenessColumn !in records[0]
    ensures CountMarked(records) == 0
  {
    CompletesNone(records[0], DataRows(records[1..]));
  }

  lemma {:induction false} CompletesAppend(fieldnames: Record, rows: seq<Record>, more: seq<Record>)
    ensures Completes(fieldnames, rows + more) == Completes(fieldnames, rows) + Completes(fieldnames, more)
    decreases |more|
  {
    if more != [] {
      assert rows + more == (rows + more[..|more| - 1]) + [more[|more| - 1]];
      assert (rows + more)[..|rows + more| - 1] == rows + more[..|more| - 1];
      CompletesAppend(fieldnames, rows, more[..|more| - 1]);
    } else {
      assert rows + more == rows;
    }
  }

  lemma {:induction false} BlanksNeverCount(fieldnames: Record, rows: seq<Record>)
    ensures Completes(fieldnames, DataRows(rows)) == Completes(fieldnames, rows)
  {
    if rows != [] {
      var init := rows[..|rows| - 1];
      var last := rows[|rows| - 1];
      var tail: seq<Record> := if |last| == 0 then [] else [last];
      BlanksNeverCount(fieldnames, init);
      assert DataRows(rows) == DataRows(init) + tail;
      CompletesAppend(fieldnames, DataRows(init), tail);
      assert [last][..0] == [];
      assert Completes(fieldnames, tail) == (if Marked(fieldnames, last) then 1 else 0);
    }
  }

  /**
   * Skipping the blank records does not change the count: a blank record
   * has no field under any column, so it would never count anyway.
   */
  lemma SkippingBlanksIrrelevant(records: seq<Record>)
    requires records != []
    ensures CountMarked(records) == Completes(records[0], records[1..])
  {
    BlanksNeverCount(records[0], records[1..]);
  }

  /** Appending a record to the file raises the count by one exactly when that record is marked 是. */
  lemma AppendRecord(records: seq<Record>, row: Record)
    requires records != []
    ensures CountMarked(records + [row]) == CountMarked(records) + (if Marked(records[0], row) then 1 else 0)
  {
    assert (records + [row])[0] == records[0];
    assert (records + [row])[1..] == records[1..] + [row];
    BlanksNeverCount(records[0], records[1..] + [row]);
    BlanksNeverCount(records[0], records[1..]);
    assert (records[1..] + [row])[..|records[1..] + [row]| - 1] == records[1..];
  }

  /** The number of records whose field at position j is exactly 是. */
  function MarkedAt(rows: seq<Record>, j: nat): nat
  {
    if rows == [] then 0
    else MarkedAt(rows[..|rows| - 1], j) + (if j < |rows[|rows| - 1]| && rows[|rows| - 1][j] == Complete then 1 else 0)
  }

  /**
   * When 数据完整性 is the last column and no earlier column has that
   * name, the script counts the records whose field in that last position
   * is 是; a record too short to reach it does not count.
   */
  lemma {:induction false} MarkerLastCount(records: seq<Record>)
    requires records != [] && CompletenessColumn in records[0]
    requires LastIndex(records[0], CompletenessColumn).value == |records[0]| - 1
    ensures CountMarked(records) == MarkedAt(records[1..], |records[0]| - 1)
  {
    SkippingBlanksIrrelevant(records);
    CompletesMarkedAt(records[0], records[1..]);
  }

  lemma {:induction false} CompletesMarkedAt(fieldnames: Record, rows: seq<Record>)
    requires CompletenessColumn in fieldnames
    requires LastIndex(fieldnames, CompletenessColumn).value == |fieldnames| - 1
    ensures Completes(fieldnames, rows) == MarkedAt(rows, |fieldnames| - 1)
  {
    if rows != [] {
      CompletesMarkedAt(fieldnames, rows[..|rows| - 1]);
    }
  }

  /** The header row a fetcher writes, as the text csv.writer puts in the file. */
  function HeaderText(header: Row): (names: Record)
    ensures |names| == |header|
    ensures forall i :: 0 <= i < |header| && header[i].JStr? ==> names[i] == header[i].s
  {
    if header == [] then []
    else HeaderText(header[..|header| - 1]) + [if header[|header| - 1].JStr? then header[|header| - 1].s else ""]
  }

  /**
   * Both fetchers name 数据完整性 once, as their last column, so on a file
   * either of them created the script counts the records whose last field
   * is 是.
   */
  lemma FetcherHeadersEndWithMarker()
    ensures CompletenessColumn in HeaderText(SseFetcher.Header)
    ensures LastIndex(HeaderText(SseFetcher.Header), CompletenessColumn).value == SseFetcher.Width - 1
    ensures CompletenessColumn in HeaderText(SzseFetcher.Header)
    ensures LastIndex(HeaderText(SzseFetcher.Header), CompletenessColumn).value == SzseFetcher.Width - 1
  {
    var sse := HeaderText(SseFetcher.Header);
    var szse := HeaderText(SzseFetcher.Header);
    assert sse[SseFetcher.Width - 1] == CompletenessColumn;
    assert szse[SzseFetcher.Width - 1] == CompletenessColumn;
  }
}
