/**
 * The CSV files the fetchers write, by file name. A file holds its records
 * in order, each record the list of values handed to csv.writer.writerow.
 * Writing one record is save_to_csv's file step: a file that does not exist
 * is created holding the header and the record; an existing one has the
 * record appended.
 */
module CsvStore {
  import opened Wrappers
  import opened PyJson

  type Row = seq<Json>
  type Files = map<string, seq<Row>>

  /** The completeness column both fetchers write last, and its two markers. */
  const CompletenessColumn: string := "数据完整性"
  const Complete: string := "是"
  const Incomplete: string := "否"

  /** n blank cells. */
  function Blanks(n: nat): (cells: Row)
    ensures |cells| == n
    ensures forall i :: 0 <= i < n ==> cells[i] == JStr("")
  {
    if n == 0 then [] else Blanks(n - 1) + [JStr("")]
  }

  /** A record of blank cells followed by the completeness marker. */
  function BlankRow(width: nat, marker: string): (row: Row)
    requires width >= 1
    ensures |row| == width && row[width - 1] == JStr(marker)
    ensures forall i :: 0 <= i < width - 1 ==> row[i] == JStr("")
  {
    Blanks(width - 1) + [JStr(marker)]
  }

  /** The value of one key of a record, '' when missing. */
  function Lookup(fields: map<string, Json>, key: string): Json
  {
    if key in fields then fields[key] else JStr("")
  }

  /** record.get(key, '') for each key in turn. */
  function Values(fields: map<string, Json>, keys: seq<string>): (cells: Row)
    ensures |cells| == |keys|
    ensures forall i :: 0 <= i < |keys| ==> cells[i] == Lookup(fields, keys[i])
  {
    if keys == [] then []
    else Values(fields, keys[..|keys| - 1]) + [Get(JObj(fields), keys[|keys| - 1], JStr("")).value]
  }

  /**
   * A filled record: the values of the keys of the first data record, then
   * the marker; AttributeError when that record is not a dict.
   */
  function RecordRow(record: Json, keys: seq<string>, marker: string): (r: Result<Row, PyError>)
    ensures r.Success? <==> record.JObj?
    ensures r.Success? ==>
      |r.value| == |keys| + 1 && r.value[|keys|] == JStr(marker) &&
      forall i :: 0 <= i < |keys| ==> r.value[i] == Lookup(record.fields, keys[i])
  {
    match record
    case JObj(fields) => Success(Values(fields, keys) + [JStr(marker)])
    case _ => Failure(AttributeError)
  }

  /** One call's write: the file, the header used if it has to be created, and the record. */
  datatype Write = Write(name: string, header: Row, row: Row)

  /** The files after one write. */
  function Written(files: Files, w: Write): Files
  {
    if w.name in files then files[w.name := files[w.name] + [w.row]]
    else files[w.name := [w.header, w.row]]
  }

  /** The files after a sequence of writes, in order. */
  function ApplyWrites(files: Files, ws: seq<Write>): Files
  {
    if ws == [] then files else Written(ApplyWrites(files, ws[..|ws| - 1]), ws[|ws| - 1])
  }

  /** The records written to one file, in order. */
  function RowsTo(ws: seq<Write>, name: string): (rows: seq<Row>)
    ensures |rows| <= |ws|
  {
    if ws == [] then []
    else RowsTo(ws[..|ws| - 1], name) + (if ws[|ws| - 1].name == name then [ws[|ws| - 1].row] else [])
  }

  /** The header of the first write to a file, which is the one that creates it. */
  function FirstHeader(ws: seq<Write>, name: string): (h: Row)
  {
    if ws == [] then []
    else if ws[0].name == name then ws[0].header
    else FirstHeader(ws[1..], name)
  }

  /** One write touches only its own file and adds exactly one record to it. */
  lemma WrittenEffect(files: Files, w: Write)
    ensures Written(files, w).Keys == files.Keys + {w.name}
    ensures forall other :: other in files && other != w.name ==> Written(files, w)[other] == files[other]
    ensures w.name in files ==> Written(files, w)[w.name] == files[w.name] + [w.row]
    ensures w.name !in files ==> Written(files, w)[w.name] == [w.header, w.row]
  {
  }

  lemma FirstHeaderAppend(ws: seq<Write>, w: Write, name: string)
    requires RowsTo(ws, name) != []
    ensures FirstHeader(ws + [w], name) == FirstHeader(ws, name)
  {
    if ws[0].name != name {
      assert (ws + [w])[1..] == ws[1..] + [w];
      RowsToFront(ws, name);
      FirstHeaderAppend(ws[1..], w, name);
    }
  }

  lemma FirstHeaderOnly(ws: seq<Write>, w: Write, name: string)
    requires RowsTo(ws, name) == [] && w.name == name
    ensures FirstHeader(ws + [w], name) == w.header
  {
    if ws != [] {
      RowsToFront(ws, name);
      assert (ws + [w])[1..] == ws[1..] + [w];
      FirstHeaderOnly(ws[1..], w, name);
    }
  }

  /** RowsTo read from the front. */
  lemma {:induction false} RowsToFront(ws: seq<Write>, name: string)
    requires ws != []
    ensures RowsTo(ws, name) == (if ws[0].name == name then [ws[0].row] else []) + RowsTo(ws[1..], name)
    decreases |ws|
  {
    if |ws| > 1 {
      var init := ws[..|ws| - 1];
      RowsToFront(init, name);
      assert init[1..] == ws[1..][..|ws| - 2];
    } else {
      assert ws[1..] == [];
    }
  }

  /**
   * What a run of writes does to one file: an existing file keeps its
   * records and gains exactly the records written to it, in order; a file
   * that did not exist is created by the first write to it, with that
   * write's header; a file nobody writes to is untouched.
   */
  lemma {:induction false} ApplyWritesFile(files: Files, ws: seq<Write>, name: string)
    ensures name in files ==> name in ApplyWrites(files, ws) && ApplyWrites(files, ws)[name] == files[name] + RowsTo(ws, name)
    ensures name !in files && RowsTo(ws, name) != [] ==>
      name in ApplyWrites(files, ws) && ApplyWrites(files, ws)[name] == [FirstHeader(ws, name)] + RowsTo(ws, name)
    ensures name !in files && RowsTo(ws, name) == [] ==> name !in ApplyWrites(files, ws)
  {
    if ws != [] {
      var init := ws[..|ws| - 1];
      var w := ws[|ws| - 1];
      assert ws == init + [w];
      ApplyWritesFile(files, init, name);
      WrittenEffect(ApplyWrites(files, init), w);
      assert RowsTo(ws, name) == RowsTo(init, name) + (if w.name == name then [w.row] else []);
      if RowsTo(init, name) != [] {
        FirstHeaderAppend(init, w, name);
      } else if w.name == name {
        FirstHeaderOnly(init, w, name);
      }
      if name in files {
        assert files[name] + RowsTo(init, name) + [w.row] == files[name] + (RowsTo(init, name) + [w.row]);
      }
    }
  }

  /** The files as the running program sees them; save_to_csv's write changes them in place. */
  class Store {
    var files: Files

    constructor (initial: Files)
      ensures files == initial
    {
      files := initial;
    }

    /**
     * Open the file for reading to see whether it exists; if it does,
     * append the record; if not, create it with the header and the record.
     */
    method Save(name: string, header: Row, row: Row)
      modifies this
      ensures files == Written(old(files), Write(name, header, row))
    {
      if name in files {
        files := files[name := files[name] + [row]];
      } else {
        files := files[name := [header, row]];
      }
    }
  }
}
