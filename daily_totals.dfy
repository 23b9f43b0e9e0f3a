/**
 * Summing the traded amount per trading day over several exported CSV files
 * and writing the totals out in date order.
 *
 * A file is the sequence of its records as the csv reader yields them, the
 * header first. Turning an amount text into a number is Python's float(),
 * taken here as a parameter that answers None where float() raises.
 */
module DailyTotals {
  import opened Wrappers
  import opened Text

  type Record = seq<string>
  type CsvFile = seq<Record>
  type Parser = string -> Option<real>

  const DateColumn: string := "交易日期"
  const AmountColumn: string := "成交额(万元)"
  const OutputHeader: Record := ["交易日期", "总成交额(万元)"]

  /** One accepted data row: its normalised date and its amount. */
  datatype Entry = Entry(date: string, amount: real)

  /** Where the date and the amount sit in a file's records. */
  datatype Columns = Columns(date: nat, amount: nat)

  /** Reading the header of an empty file raises StopIteration and ends the run. */
  datatype AggregateError = EmptyFile(index: nat)

  /** One line of the output file. */
  datatype DailyRow = DailyRow(date: string, total: real)

  function Max(a: nat, b: nat): (m: nat)
    ensures m >= a && m >= b && (m == a || m == b)
  {
    if a >= b then a else b
  }

  /** The columns of the first occurrence of each title; None when either is missing. */
  function FindColumns(header: Record): (r: Option<Columns>)
    ensures r.None? <==> DateColumn !in header || AmountColumn !in header
    ensures r.Some? ==>
      r.value.date < |header| && header[r.value.date] == DateColumn &&
      forall j :: 0 <= j < r.value.date ==> header[j] != DateColumn
    ensures r.Some? ==>
      r.value.amount < |header| && header[r.value.amount] == AmountColumn &&
      forall j :: 0 <= j < r.value.amount ==> header[j] != AmountColumn
  {
    match (IndexOf(header, DateColumn), IndexOf(header, AmountColumn))
    case (Some(d), Some(a)) => Some(Columns(d, a))
    case _ => None
  }

  /** An amount cell with its thousands separators and quotes dropped. */
  function Unquote(cell: string): (text: string)
    ensures ',' !in text && '"' !in text
  {
    RemoveAllKeepsAbsent(RemoveAll(cell, ','), ',', '"');
    RemoveAll(RemoveAll(cell, ','), '"')
  }

  /** An amount cell with its thousands separators and quotes dropped and its whitespace stripped. */
  function CleanAmount(cell: string): (text: string)
    ensures ',' !in text && '"' !in text
    ensures text != [] ==> !IsSpace(text[0]) && !IsSpace(text[|text| - 1])
  {
    var unquoted := Unquote(cell);
    StripKeepsAbsent(unquoted, ',');
    StripKeepsAbsent(unquoted, '"');
    Strip(unquoted)
  }

  /** Removing one character keeps another one absent. */
  lemma {:induction false} RemoveAllKeepsAbsent(s: string, absent: char, c: char)
    requires absent !in s
    ensures absent !in RemoveAll(s, c)
  {
    if s != [] {
      assert absent !in s[1..];
      RemoveAllKeepsAbsent(s[1..], absent, c);
    }
  }

  /**
   * What one data row contributes: nothing when it is too short for both
   * columns, when its cleaned amount is empty, or when the amount does not
   * parse; otherwise its normalised date and parsed amount.
   */
  function RowEntry(cols: Columns, row: Record, parse: Parser): (e: Option<Entry>)
    ensures e.Some? <==>
      |row| > Max(cols.date, cols.amount) &&
      CleanAmount(row[cols.amount]) != [] && parse(CleanAmount(row[cols.amount])).Some?
    ensures e.Some? ==> e.value == Entry(Unhyphenate(row[cols.date]), parse(CleanAmount(row[cols.amount])).value)
  {
    if |row| <= Max(cols.date, cols.amount) then None
    else
      var amountText := CleanAmount(row[cols.amount]);
      if amountText == [] then None
      else match parse(amountText)
        case None => None
        case Some(v) => Some(Entry(Unhyphenate(row[cols.date]), v))
  }

  /** The entries of a file's data rows, in file order. */
  function RowsEntries(cols: Columns, rows: seq<Record>, parse: Parser): (es: seq<Entry>)
    ensures |es| <= |rows|
  {
    if rows == [] then []
    else
      var last := rows[|rows| - 1];
      RowsEntries(cols, rows[..|rows| - 1], parse) +
        (match RowEntry(cols, last, parse) case Some(e) => [e] case None => [])
  }

  /** The entries of one file; a file lacking either column title contributes nothing. */
  function FileEntries(file: CsvFile, parse: Parser): seq<Entry>
  {
    if file == [] then []
    else match FindColumns(file[0])
      case None => []
      case Some(cols) => RowsEntries(cols, file[1..], parse)
  }

  /** The entries of all files, in the order the files are read. */
  function AllEntries(files: seq<CsvFile>, parse: Parser): seq<Entry>
  {
    if files == [] then []
    else AllEntries(files[..|files| - 1], parse) + FileEntries(files[|files| - 1], parse)
  }

  /** Adding one entry to the running dictionary, the key created at zero first. */
  function Add(totals: map<string, real>, e: Entry): map<string, real>
  {
    totals[e.date := (if e.date in totals then totals[e.date] else 0.0) + e.amount]
  }

  /** The dictionary after adding the entries one by one. */
  function Totals(es: seq<Entry>): map<string, real>
  {
    if es == [] then map[] else Add(Totals(es[..|es| - 1]), es[|es| - 1])
  }

  lemma RowsEntriesStep(cols: Columns, rows: seq<Record>, j: nat, parse: Parser)
    requires j < |rows|
    ensures RowsEntries(cols, rows[..j + 1], parse) ==
      RowsEntries(cols, rows[..j], parse) + (match RowEntry(cols, rows[j], parse) case Some(e) => [e] case None => [])
  {
    assert rows[..j + 1][..j] == rows[..j];
  }

  lemma AllEntriesStep(files: seq<CsvFile>, i: nat, parse: Parser)
    requires i < |files|
    ensures AllEntries(files[..i + 1], parse) == AllEntries(files[..i], parse) + FileEntries(files[i], parse)
  {
    assert files[..i + 1][..i] == files[..i];
  }

  /** Creating the key at zero when missing and then adding is Add. */
  lemma CreateThenAdd(m: map<string, real>, e: Entry, result: map<string, real>)
    requires var created := if e.date !in m then m[e.date := 0.0] else m;
      result == created[e.date := created[e.date] + e.amount]
    ensures result == Add(m, e)
  {
    if e.date !in m {
      var created := m[e.date := 0.0];
      assert created[e.date] == 0.0;
      assert forall k :: k in result <==> k in Add(m, e);
      assert forall k :: k in result ==> result[k] == Add(m, e)[k];
    }
  }

  lemma TotalsStep(es: seq<Entry>, e: Entry)
    ensures Totals(es + [e]) == Add(Totals(es), e)
  {
    assert (es + [e])[..|es|] == es;
  }

  /** The sum of the amounts of the entries carrying a date, counted from the front. */
  function SumFor(es: seq<Entry>, date: string): real
  {
    if es == [] then 0.0
    else (if es[0].date == date then es[0].amount else 0.0) + SumFor(es[1..], date)
  }

  lemma {:induction false} SumForAppend(es: seq<Entry>, e: Entry, date: string)
    ensures SumFor(es + [e], date) == SumFor(es, date) + (if e.date == date then e.amount else 0.0)
  {
    if es == [] {
      assert es + [e] == [e];
    } else {
      assert (es + [e])[1..] == es[1..] + [e];
      SumForAppend(es[1..], e, date);
    }
  }

  /** A date is a key of the totals exactly when some accepted entry carries it. */
  lemma {:induction false} TotalsKeys(es: seq<Entry>, date: string)
    ensures date in Totals(es) <==> exists i :: 0 <= i < |es| && es[i].date == date
  {
    if es != [] {
      var init := es[..|es| - 1];
      TotalsKeys(init, date);
      if exists i :: 0 <= i < |init| && init[i].date == date {
        var i :| 0 <= i < |init| && init[i].date == date;
        assert es[i].date == date;
      }
      if exists i :: 0 <= i < |es| && es[i].date == date {
        var i :| 0 <= i < |es| && es[i].date == date;
        if i < |init| {
          assert init[i].date == date;
        }
      }
    }
  }

  /** Each day's total is the sum of the amounts of that day's entries. */
  lemma {:induction false} TotalsSum(es: seq<Entry>, date: string)
    requires date in Totals(es)
    ensures Totals(es)[date] == SumFor(es, date)
  {
    var init := es[..|es| - 1];
    var e := es[|es| - 1];
    assert es == init + [e];
    SumForAppend(init, e, date);
    if date in Totals(init) {
      TotalsSum(init, date);
    } else if e.date == date {
      SumForAbsent(init, date);
    }
  }

  /** A date no entry carries sums to zero. */
  lemma {:induction false} SumForAbsent(es: seq<Entry>, date: string)
    requires date !in Totals(es)
    ensures SumFor(es, date) == 0.0
  {
    if es != [] {
      TotalsKeys(es, date);
      assert es[0].date != date;
      assert forall i :: 0 <= i < |es[1..]| ==> es[1..][i] == es[i + 1];
      TotalsKeys(es[1..], date);
      SumForAbsent(es[1..], date);
    }
  }

  /** A file whose header lacks either title contributes no entries. */
  lemma MissingTitleContributesNothing(file: CsvFile, parse: Parser)
    requires |file| > 0 && (DateColumn !in file[0] || AmountColumn !in file[0])
    ensures FileEntries(file, parse) == []
  {
  }

  /** "2025-09-09" and "20250909" in different files add into one day. */
  lemma HyphenatedDatesShareKey(y: string, m: string, d: string)
    requires '-' !in y && '-' !in m && '-' !in d
    ensures Unhyphenate(y + "-" + m + "-" + d) == Unhyphenate(y + m + d)
  {
    RemoveHyphens(y, m, d);
    RemoveAllAbsent(y + m + d, '-');
  }

  /**
   * The loop over the files and their rows: the running dictionary is the
   * one the accepted entries build, and an empty file stops the run.
   */
  method AggregateDaily(files: seq<CsvFile>, parse: Parser)
    returns (r: Result<map<string, real>, AggregateError>)
    ensures r.Failure? <==> exists i :: 0 <= i < |files| && |files[i]| == 0
    ensures r.Failure? ==>
      r.error.index < |files| && |files[r.error.index]| == 0 &&
      forall i :: 0 <= i < r.error.index ==> |files[i]| > 0
    ensures r.Success? ==> r.value == Totals(AllEntries(files, parse))
  {
    var totals: map<string, real> := map[];
    ghost var entries: seq<Entry> := [];
    var i := 0;
    while i < |files|
      invariant i <= |files|
      invariant forall p :: 0 <= p < i ==> |files[p]| > 0
      invariant entries == AllEntries(files[..i], parse)
      invariant totals == Totals(entries)
    {
      if |files[i]| == 0 {
        return Failure(EmptyFile(i));
      }
      assert forall p :: 0 <= p < i + 1 ==> |files[p]| > 0;
      totals := AddFile(totals, files[i], parse, entries);
      AllEntriesStep(files, i, parse);
      entries := entries + FileEntries(files[i], parse);
      i := i + 1;
    }
    assert files[..i] == files;
    return Success(totals);
  }

  /**
   * One file: its header is read first; when it lacks either column title
   * the file is skipped, otherwise its data rows are added.
   */
  method AddFile(totals: map<string, real>, file: CsvFile, parse: Parser, ghost before: seq<Entry>)
    returns (updated: map<string, real>)
    requires |file| > 0 && totals == Totals(before)
    ensures updated == Totals(before + FileEntries(file, parse))
  {
    var header := file[0];
    var cols := FindColumns(header);
    if cols.None? {
      assert before + FileEntries(file, parse) == before;
      return totals;
    }
    updated := AddRows(totals, cols.value, file[1..], parse, before);
  }

  /** The dictionary after one data row: unchanged unless the row is accepted. */
  function AfterRow(totals: map<string, real>, cols: Columns, row: Record, parse: Parser): map<string, real>
  {
    match RowEntry(cols, row, parse)
    case Some(e) => Add(totals, e)
    case None => totals
  }

  lemma AfterRowStep(cols: Columns, rows: seq<Record>, j: nat, parse: Parser, before: seq<Entry>)
    requires j < |rows|
    ensures Totals(before + RowsEntries(cols, rows[..j + 1], parse)) ==
      AfterRow(Totals(before + RowsEntries(cols, rows[..j], parse)), cols, rows[j], parse)
  {
    RowsEntriesStep(cols, rows, j, parse);
    var es := before + RowsEntries(cols, rows[..j], parse);
    match RowEntry(cols, rows[j], parse)
    case Some(e) =>
      assert before + RowsEntries(cols, rows[..j + 1], parse) == es + [e];
      TotalsStep(es, e);
    case None =>
      assert before + RowsEntries(cols, rows[..j + 1], parse) == es;
  }

  /**
   * The body of the inner loop: a row too short for both columns, with an
   * empty cleaned amount or with an amount float() rejects is skipped;
   * otherwise its amount is added under its normalised date, the key
   * created at zero first.
   */
  method AddRow(totals: map<string, real>, cols: Columns, row: Record, parse: Parser)
    returns (updated: map<string, real>)
    ensures updated == AfterRow(totals, cols, row, parse)
  {
    updated := totals;
    if |row| <= Max(cols.date, cols.amount) {
      assert RowEntry(cols, row, parse).None?;
      return;
    }
    var dateKey := Unhyphenate(row[cols.date]);
    var amountText := CleanAmount(row[cols.amount]);
    if amountText == [] {
      assert RowEntry(cols, row, parse).None?;
      return;
    }
    var amount := parse(amountText);
    if amount.None? {
      assert RowEntry(cols, row, parse).None?;
      return;
    }
    assert RowEntry(cols, row, parse) == Some(Entry(dateKey, amount.value));
    updated := AddAmount(totals, dateKey, amount.value);
  }

  /** The accumulation step: a missing day is created at zero, then the amount is added to it. */
  method AddAmount(totals: map<string, real>, date: string, amount: real) returns (updated: map<string, real>)
    ensures updated == Add(totals, Entry(date, amount))
  {
    updated := totals;
    if date !in updated {
      updated := updated[date := 0.0];
    }
    updated := updated[date := updated[date] + amount];
    CreateThenAdd(totals, Entry(date, amount), updated);
  }

  /** The inner loop over one file's data rows. */
  method AddRows(totals: map<string, real>, cols: Columns, rows: seq<Record>, parse: Parser, ghost before: seq<Entry>)
    returns (updated: map<string, real>)
    requires totals == Totals(before)
    ensures updated == Totals(before + RowsEntries(cols, rows, parse))
  {
    updated := totals;
    var j := 0;
    assert before + RowsEntries(cols, rows[..0], parse) == before;
    while j < |rows|
      invariant j <= |rows|
      invariant updated == Totals(before + RowsEntries(cols, rows[..j], parse))
    {
      AfterRowStep(cols, rows, j, parse, before);
      updated := AddRow(updated, cols, rows[j], parse);
      j := j + 1;
    }
    assert rows[..j] == rows;
  }

  predicate Ascending(rows: seq<DailyRow>)
  {
    forall i, j :: 0 <= i < j < |rows| ==> LexLess(rows[i].date, rows[j].date)
  }

  /** Every row written carries its day's total. */
  predicate Carries(totals: map<string, real>, rows: seq<DailyRow>)
  {
    forall i :: 0 <= i < |rows| ==> rows[i].date in totals && rows[i].total == totals[rows[i].date]
  }

  /** Every row written sorts before every day still to write. */
  predicate Precedes(rows: seq<DailyRow>, remaining: set<string>)
  {
    forall i, d :: 0 <= i < |rows| && d in remaining ==> LexLess(rows[i].date, d)
  }

  /** Every day is written or still to write. */
  predicate Covers(totals: map<string, real>, rows: seq<DailyRow>, remaining: set<string>)
  {
    forall date :: date in totals ==> date in remaining || exists i :: 0 <= i < |rows| && rows[i].date == date
  }

  /** The state while writing the output in ascending date order. */
  predicate Emitted(totals: map<string, real>, rows: seq<DailyRow>, remaining: set<string>)
  {
    remaining <= totals.Keys && Ascending(rows) && Carries(totals, rows) &&
    Precedes(rows, remaining) && Covers(totals, rows, remaining)
  }

  /** A day later than every row written so far keeps the rows ascending. */
  lemma AppendAscending(rows: seq<DailyRow>, row: DailyRow)
    requires Ascending(rows)
    requires forall i :: 0 <= i < |rows| ==> LexLess(rows[i].date, row.date)
    ensures Ascending(rows + [row])
  {
    var next := rows + [row];
    forall i, j | 0 <= i < j < |next| ensures LexLess(next[i].date, next[j].date) {
      assert next[i] == rows[i];
      if j < |rows| {
        assert next[j] == rows[j];
      }
    }
  }

  lemma AppendCarries(totals: map<string, real>, rows: seq<DailyRow>, date: string)
    requires Carries(totals, rows) && date in totals
    ensures Carries(totals, rows + [DailyRow(date, totals[date])])
  {
    var next := rows + [DailyRow(date, totals[date])];
    assert forall i :: 0 <= i < |rows| ==> next[i] == rows[i];
  }

  lemma AppendPrecedes(rows: seq<DailyRow>, remaining: set<string>, date: string, total: real)
    requires Precedes(rows, remaining)
    requires forall y :: y in remaining && y != date ==> LexLess(date, y)
    ensures Precedes(rows + [DailyRow(date, total)], remaining - {date})
  {
    var next := rows + [DailyRow(date, total)];
    forall i, d | 0 <= i < |next| && d in remaining - {date} ensures LexLess(next[i].date, d) {
      if i < |rows| {
        assert next[i] == rows[i] && d in remaining;
      } else {
        assert next[i].date == date && d != date;
      }
    }
  }

  lemma AppendCovers(totals: map<string, real>, rows: seq<DailyRow>, remaining: set<string>, row: DailyRow)
    requires Covers(totals, rows, remaining)
    ensures Covers(totals, rows + [row], remaining - {row.date})
  {
    var next := rows + [row];
    forall d | d in totals && d !in remaining - {row.date}
      ensures exists i :: 0 <= i < |next| && next[i].date == d
    {
      if d == row.date {
        assert next[|rows|].date == d;
      } else {
        var i :| 0 <= i < |rows| && rows[i].date == d;
        assert next[i].date == d;
      }
    }
  }

  /** Writing the least remaining day keeps the writing state. */
  lemma EmitLeast(totals: map<string, real>, rows: seq<DailyRow>, remaining: set<string>, date: string)
    requires Emitted(totals, rows, remaining)
    requires date in remaining && forall y :: y in remaining && y != date ==> LexLess(date, y)
    ensures Emitted(totals, rows + [DailyRow(date, totals[date])], remaining - {date})
  {
    var row := DailyRow(date, totals[date]);
    assert forall i :: 0 <= i < |rows| ==> LexLess(rows[i].date, date);
    AppendAscending(rows, row);
    AppendCarries(totals, rows, date);
    AppendPrecedes(rows, remaining, date, totals[date]);
    AppendCovers(totals, rows, remaining, row);
  }

  /**
   * The output file, rewritten whether or not it existed: the header, then
   * one row per day in ascending date order carrying that day's total.
   */
  method WriteTotals(totals: map<string, real>) returns (header: Record, rows: seq<DailyRow>)
    ensures header == OutputHeader
    ensures Ascending(rows)
    ensures forall i :: 0 <= i < |rows| ==> rows[i].date in totals && rows[i].total == totals[rows[i].date]
    ensures forall date :: date in totals ==> exists i :: 0 <= i < |rows| && rows[i].date == date
  {
    header := OutputHeader;
    rows := [];
    var remaining := totals.Keys;
    while remaining != {}
      invariant Emitted(totals, rows, remaining)
      decreases |remaining|
    {
      LeastExists(remaining);
      var date :| date in remaining && forall y :: y in remaining && y != date ==> LexLess(date, y);
      EmitLeast(totals, rows, remaining, date);
      rows := rows + [DailyRow(date, totals[date])];
      remaining := remaining - {date};
    }
  }

  /** The sorted dates carry no duplicates, so each day appears exactly once. */
  lemma AscendingDistinct(rows: seq<DailyRow>, i: nat, j: nat)
    requires Ascending(rows) && i < j < |rows|
    ensures rows[i].date != rows[j].date
  {
    LexIrreflexive(rows[i].date);
  }
}
