/**
 * The Shenzhen exchange fetcher: the completeness check, the twelve-column
 * record save_to_csv builds from data[0]["data"][0], its file write, and
 * the loop over codes and days with its two counters. The exchange answers
 * plain JSON, so there is no unwrapping.
 */
module SzseFetcher {
  import opened Wrappers
  import opened PyJson
  import opened CsvStore
  import opened FetchLoop

  const Suffix: string := "_SZ.csv"
  const Width: nat := 12
  const Header: Row := [
    JStr("证券名称"), JStr("证券代码"), JStr("交易日期"), JStr("前收价"), JStr("开盘价"),
    JStr("最高价"), JStr("最低价"), JStr("收盘价"), JStr("涨跌幅(%)"),
    JStr("成交量(万份)"), JStr("成交额(万元)"), JStr("数据完整性")]
  /** The keys of data[0]["data"][0] copied into the record, in column order. */
  const Fields: seq<string> := ["zqjc", "zqdm", "jyrq", "qss", "ks", "zg", "zd", "ss", "sdf", "cjgs", "cjje"]

  /** The response is a non-empty list whose first element is a dict with a non-empty "data". */
  predicate HasRecords(data: Json)
  {
    data.JArr? && data.items != [] && data.items[0].JObj? && "data" in data.items[0].fields &&
    Truthy(data.items[0].fields["data"]) && Len(data.items[0].fields["data"]).Success?
  }

  /** The response is a non-empty list whose first element is a dict with a missing or falsy "data". */
  predicate LacksRecords(data: Json)
  {
    data.JArr? && data.items != [] && data.items[0].JObj? &&
    ("data" !in data.items[0].fields || !Truthy(data.items[0].fields["data"]))
  }

  /**
   * is_json_complete: 是 when data[0]["data"] is non-empty; 否 for None, an
   * empty response, or a first element whose "data" is missing or empty;
   * otherwise one of the lookups raises.
   */
  function IsJsonComplete(data: Json): (r: Result<string, PyError>)
    ensures r == Success(Complete) <==> HasRecords(data)
    ensures r == Success(Incomplete) <==> data.JNull? || Len(data) == Success(0) || LacksRecords(data)
  {
    if data.JNull? then Success(Incomplete)
    else match Len(data)
      case Failure(e) => Failure(e)
      case Success(n) =>
        if n == 0 then Success(Incomplete)
        else match First(data)
          case Failure(e) => Failure(e)
          case Success(head) =>
            match Get(head, "data", JNull)
            case Failure(e) => Failure(e)
            case Success(records) =>
              if !Truthy(records) then Success(Incomplete)
              else match Get(head, "data", JArr([]))
                case Failure(e) => Failure(e)
                case Success(records) =>
                  match Len(records)
                  case Failure(e) => Failure(e)
                  case Success(m) => if m == 0 then Success(Incomplete) else Success(Complete)
  }

  /**
   * The record save_to_csv writes for a response, or the exception it
   * raises before writing anything. The guard is evaluated left to right
   * and stops at the first false part, as Python's `and` does.
   */
  function SaveRow(data: Json): Result<Row, PyError>
  {
    match IsJsonComplete(data)
    case Failure(e) => Failure(e)
    case Success(completeness) =>
      var blank := Success(BlankRow(Width, completeness));
      if !Truthy(data) then blank
      else match Len(data)
        case Failure(e) => Failure(e)
        case Success(n) =>
          if n == 0 then blank
          else match First(data)
            case Failure(e) => Failure(e)
            case Success(head) =>
              match Get(head, "data", JNull)
              case Failure(e) => Failure(e)
              case Success(records) =>
                if !Truthy(records) then blank
                else match Field(head, "data")
                  case Failure(e) => Failure(e)
                  case Success(records) =>
                    match Len(records)
                    case Failure(e) => Failure(e)
                    case Success(m) =>
                      if m == 0 then blank
                      else match First(records)
                        case Failure(e) => Failure(e)
                        case Success(record) => RecordRow(record, Fields, completeness)
  }

  /**
   * A record always has twelve cells with the completeness marker last; it
   * is filled from data[0]["data"][0], key by key in column order, exactly
   * when the marker is 是, and blank in its first eleven cells when the
   * marker is 否.
   */
  lemma SaveRowShape(data: Json)
    requires SaveRow(data).Success?
    ensures IsJsonComplete(data).Success?
    ensures |SaveRow(data).value| == Width && SaveRow(data).value[Width - 1] == JStr(IsJsonComplete(data).value)
    ensures IsJsonComplete(data).value == Complete ==>
      var records := data.items[0].fields["data"];
      records.JArr? && records.items[0].JObj? &&
      forall i :: 0 <= i < |Fields| ==> SaveRow(data).value[i] == Lookup(records.items[0].fields, Fields[i])
    ensures IsJsonComplete(data).value == Incomplete ==> forall i :: 0 <= i < Width - 1 ==> SaveRow(data).value[i] == JStr("")
  {
    if IsJsonComplete(data).value == Complete {
      LenTruthy(data);
      LenTruthy(data.items[0].fields["data"]);
    }
  }

  /**
   * save_to_csv raises exactly when is_json_complete does, or when the
   * response has records but data[0]["data"][0] is not a dict.
   */
  lemma SaveRowRaises(data: Json)
    ensures SaveRow(data).Failure? <==>
      IsJsonComplete(data).Failure? ||
      (HasRecords(data) && !(data.items[0].fields["data"].JArr? && data.items[0].fields["data"].items[0].JObj?))
  {
    if HasRecords(data) {
      LenTruthy(data);
      LenTruthy(data.items[0].fields["data"]);
    }
  }

  /** is_json_complete raises on a number or a boolean, a non-empty dict or string, or a first element that is not a dict. */
  lemma IsJsonCompleteRaises(data: Json)
    requires data.JBool? || data.JNum? || (data.JObj? && data.fields != map[]) || (data.JStr? && data.s != []) ||
      (data.JArr? && data.items != [] && !data.items[0].JObj?)
    ensures IsJsonComplete(data).Failure?
  {
    if data.JObj? {
      assert |data.fields| != 0;
    }
  }

  /** What one visit writes and counts: a None fetch or a raising save writes a blank 否 record and counts a failure. */
  function VisitOutcome(data: Json): Outcome
  {
    if data.JNull? then Outcome(BlankRow(Width, Incomplete), false)
    else match SaveRow(data)
      case Success(row) => Outcome(row, true)
      case Failure(_) => Outcome(BlankRow(Width, Incomplete), false)
  }

  /**
   * Every visit writes a twelve-cell record; a failure writes a blank 否
   * record, and a record marked 是 always belongs to a success.
   */
  lemma VisitOutcomeRecord(data: Json)
    ensures |VisitOutcome(data).row| == Width
    ensures !VisitOutcome(data).succeeded ==> VisitOutcome(data).row == BlankRow(Width, Incomplete)
    ensures VisitOutcome(data).row[Width - 1] == JStr(Complete) ==> VisitOutcome(data).succeeded
  {
    if !data.JNull? && SaveRow(data).Success? {
      SaveRowShape(data);
    }
    assert Complete != Incomplete;
  }

  /** A response whose first element has an empty "data" counts as a success and is written as a blank 否 record. */
  lemma EmptyDataIsIncompleteSuccess()
    ensures VisitOutcome(JArr([JObj(map["data" := JArr([])])])) == Outcome(BlankRow(Width, Incomplete), true)
  {
    var data := JArr([JObj(map["data" := JArr([])])]);
    assert LacksRecords(data);
  }

  /** save_to_csv: build the record, then create the file with the header or append to it. */
  method SaveToCsv(store: Store, data: Json, filename: string) returns (raised: Option<PyError>)
    modifies store
    ensures raised.Some? <==> SaveRow(data).Failure?
    ensures raised.Some? ==> raised.value == SaveRow(data).error && store.files == old(store.files)
    ensures raised.None? ==> store.files == Written(old(store.files), Write(filename, Header, SaveRow(data).value))
  {
    var row := SaveRow(data);
    if row.Failure? {
      return Some(row.error);
    }
    store.Save(filename, Header, row.value);
    raised := None;
  }

  /**
   * The body of the inner loop for one fetched value: a None writes the
   * blank record; otherwise the value is saved, and if saving raises the
   * blank record is written instead. Exactly one record is written.
   */
  method Visit(store: Store, data: Json, csvFilename: string) returns (succeeded: bool)
    modifies store
    ensures succeeded == VisitOutcome(data).succeeded
    ensures store.files == Written(old(store.files), Write(csvFilename, Header, VisitOutcome(data).row))
  {
    if data.JNull? {
      var _ := SaveToCsv(store, JNull, csvFilename);
      succeeded := false;
    } else {
      var raised := SaveToCsv(store, data, csvFilename);
      if raised.None? {
        succeeded := true;
      } else {
        var _ := SaveToCsv(store, JNull, csvFilename);
        succeeded := false;
      }
    }
  }

  /**
   * The inner while loop for one code: visit each day from start to end,
   * writing one record and advancing one counter per day.
   */
  method SaveDays(store: Store, code: string, start: int, end: int, fetch: Fetcher,
                  ghost initial: Files, ghost before: seq<Pair>, successBefore: nat, failBefore: nat)
    returns (success: nat, fail: nat)
    modifies store
    requires store.files == ApplyWrites(initial, Writes(before, fetch, VisitOutcome, Suffix, Header))
    requires successBefore == Successes(before, fetch, VisitOutcome) && successBefore + failBefore == |before|
    ensures var done := before + DayPairs(code, start, end + 1);
      store.files == ApplyWrites(initial, Writes(done, fetch, VisitOutcome, Suffix, Header)) &&
      success == Successes(done, fetch, VisitOutcome) && success + fail == |done|
  {
    success, fail := successBefore, failBefore;
    var csvFilename := code + Suffix;
    var current := start;
    ghost var done := before;
    ghost var ws := Writes(before, fetch, VisitOutcome, Suffix, Header);
    while current <= end
      invariant start <= current && (current <= end + 1 || current == start)
      invariant done == before + DayPairs(code, start, current)
      invariant ws == Writes(done, fetch, VisitOutcome, Suffix, Header)
      invariant store.files == ApplyWrites(initial, ws)
      invariant success == Successes(done, fetch, VisitOutcome) && success + fail == |done|
      decreases end - current
    {
      var data := fetch(code, current);
      ghost var p := Pair(code, current);
      ghost var w := Write(csvFilename, Header, VisitOutcome(data).row);
      VisitStep(done, p, fetch, VisitOutcome, Suffix, Header);
      ApplyStep(initial, ws, w);
      NextDay(before, code, start, current);
      var succeeded := Visit(store, data, csvFilename);
      if succeeded {
        success := success + 1;
      } else {
        fail := fail + 1;
      }
      done := done + [p];
      ws := ws + [w];
      current := current + 1;
    }
    assert DayPairs(code, start, current) == DayPairs(code, start, end + 1);
  }

  /**
   * sz_fetch_and_save_data: for each code and each day from start to end,
   * fetch, save, and advance exactly one of the two counters.
   */
  method SzFetchAndSaveData(store: Store, codes: seq<string>, start: int, end: int, fetch: Fetcher)
    returns (success: nat, fail: nat)
    modifies store
    ensures store.files == ApplyWrites(old(store.files), Writes(Pairs(codes, start, end), fetch, VisitOutcome, Suffix, Header))
    ensures success == Successes(Pairs(codes, start, end), fetch, VisitOutcome)
    ensures success + fail == |codes| * DaysBetween(start, end)
  {
    success, fail := 0, 0;
    ghost var initial := store.files;
    for i := 0 to |codes|
      invariant store.files == ApplyWrites(initial, Writes(Pairs(codes[..i], start, end), fetch, VisitOutcome, Suffix, Header))
      invariant success == Successes(Pairs(codes[..i], start, end), fetch, VisitOutcome)
      invariant success + fail == |Pairs(codes[..i], start, end)|
    {
      PairsStep(codes, i, start, end);
      success, fail := SaveDays(store, codes[i], start, end, fetch, initial, Pairs(codes[..i], start, end), success, fail);
    }
    assert codes[..|codes|] == codes;
    PairsCount(codes, start, end);
  }
}
