/**
 * The Shanghai exchange fetcher: the request's date parameter, the JSONP
 * unwrapping, the completeness check, the ten-column record save_to_csv
 * builds, its file write, and the loop over codes and days with its two
 * counters.
 */
module SseFetcher {
  import opened Wrappers
  import opened Text
  import opened PyJson
  import opened CsvStore
  import opened FetchLoop

  const Suffix: string := "_SH.csv"
  const Width: nat := 10
  const Header: Row := [
    JStr("证券名称"), JStr("证券代码"), JStr("交易日期"), JStr("收盘价"), JStr("涨跌幅(%)"),
    JStr("最高价"), JStr("最低价"), JStr("成交量(万份)"), JStr("成交额(万元)"), JStr("数据完整性")]
  /** The keys of result[0] copied into the record, in column order. */
  const Fields: seq<string> := [
    "SEC_NAME", "SEC_CODE", "TX_DATE", "CLOSE_PRICE", "CHANGE_RATE",
    "HIGH_PRICE", "LOW_PRICE", "TRADE_VOL", "TRADE_AMT"]

  /** The JSONP unwrapping: the slice from just after the first '(' up to the last ')'. */
  function JsonpPayload(text: string): string
  {
    PySlice(text, Find(text, '(') + 1, RFind(text, ')'))
  }

  /** With a '(' before the last ')', the payload is exactly the text strictly between them. */
  lemma JsonpBetween(text: string)
    requires 0 <= Find(text, '(') < RFind(text, ')')
    ensures JsonpPayload(text) == text[Find(text, '(') + 1..RFind(text, ')')]
  {
  }

  /** Unwrapping undoes the wrapping, whatever the payload holds, when the callback has no '(' and nothing after the ')' is a ')'. */
  lemma JsonpRoundTrip(callback: string, payload: string, tail: string)
    requires '(' !in callback && ')' !in tail
    ensures JsonpPayload(callback + "(" + payload + ")" + tail) == payload
  {
    FindBrackets(callback, '(', payload, ')', tail);
  }

  /** A response without parentheses loses only its last character, since rfind's -1 counts from the end. */
  lemma JsonpWithoutParentheses(text: string)
    requires '(' !in text && ')' !in text && text != []
    ensures JsonpPayload(text) == text[..|text| - 1]
  {
  }

  /** The response holds a "result" with at least one element. */
  predicate HasResults(data: Json)
  {
    data.JObj? && "result" in data.fields &&
    Len(data.fields["result"]).Success? && Len(data.fields["result"]).value > 0
  }

  /**
   * is_json_complete: 是 when the response has results; 否 for None, a
   * missing "result" or an empty one; AttributeError when the response is
   * not a dict, TypeError when its "result" has no length.
   */
  function IsJsonComplete(data: Json): (r: Result<string, PyError>)
    ensures r == Success(Complete) <==> HasResults(data)
    ensures r == Success(Incomplete) <==>
      data.JNull? || (data.JObj? && ("result" !in data.fields || Len(data.fields["result"]) == Success(0)))
    ensures r.Failure? <==>
      (!data.JNull? && !data.JObj?) || (data.JObj? && "result" in data.fields && Len(data.fields["result"]).Failure?)
  {
    if data.JNull? then Success(Incomplete)
    else match Get(data, "result", JArr([]))
      case Failure(e) => Failure(e)
      case Success(result) =>
        match Len(result)
        case Failure(e) => Failure(e)
        case Success(n) =>
          if n == 0 then Success(Incomplete)
          else
            LenTruthy(result);
            if !Truthy(Get(data, "result", JNull).value) then Success(Incomplete)
            else Success(Complete)
  }

  /**
   * The record save_to_csv writes for a response, or the exception it
   * raises before writing anything.
   */
  function SaveRow(data: Json): Result<Row, PyError>
  {
    match IsJsonComplete(data)
    case Failure(e) => Failure(e)
    case Success(completeness) =>
      if Truthy(data) && Truthy(Get(data, "result", JNull).value) then
        match First(Field(data, "result").value)
        case Failure(e) => Failure(e)
        case Success(record) => RecordRow(record, Fields, completeness)
      else Success(BlankRow(Width, completeness))
  }

  /**
   * A record always has ten cells with the completeness marker last; it is
   * filled from result[0], key by key in column order, exactly when the
   * marker is 是, and blank in its first nine cells when the marker is 否.
   */
  lemma SaveRowShape(data: Json)
    requires SaveRow(data).Success?
    ensures IsJsonComplete(data).Success?
    ensures |SaveRow(data).value| == Width && SaveRow(data).value[Width - 1] == JStr(IsJsonComplete(data).value)
    ensures IsJsonComplete(data).value == Complete ==>
      data.fields["result"].JArr? && data.fields["result"].items[0].JObj? &&
      forall i :: 0 <= i < |Fields| ==> SaveRow(data).value[i] == Lookup(data.fields["result"].items[0].fields, Fields[i])
    ensures IsJsonComplete(data).value == Incomplete ==> forall i :: 0 <= i < Width - 1 ==> SaveRow(data).value[i] == JStr("")
  {
    if IsJsonComplete(data).value == Complete {
      var result := data.fields["result"];
      LenTruthy(result);
      assert Truthy(data);
    }
  }

  /**
   * save_to_csv raises exactly when is_json_complete does, or when the
   * response has results but result[0] is not a dict (the results being a
   * string or a dict, or the first element not a dict).
   */
  lemma SaveRowRaises(data: Json)
    ensures SaveRow(data).Failure? <==>
      IsJsonComplete(data).Failure? ||
      (HasResults(data) && !(data.fields["result"].JArr? && data.fields["result"].items[0].JObj?))
  {
    if HasResults(data) {
      LenTruthy(data.fields["result"]);
      assert Truthy(data);
    }
  }

  /** What one visit writes and counts: a None fetch or a raising save writes a blank 否 record and counts a failure. */
  function VisitOutcome(data: Json): Outcome
  {
    if data.JNull? then Outcome(BlankRow(Width, Incomplete), false)
    else match SaveRow(data)
      case Success(row) => Outcome(row, true)
      case Failure(_) => Outcome(BlankRow(Width, Incomplete), false)
  }

  /**
   * Every visit writes a ten-cell record; a failure writes a blank 否
   * record, and a record marked 是 always belongs to a success.
   */
  lemma VisitOutcomeRecord(data: Json)
    ensures |VisitOutcome(data).row| == Width
    ensures !VisitOutcome(data).succeeded ==> VisitOutcome(data).row == BlankRow(Width, Incomplete)
    ensures VisitOutcome(data).row[Width - 1] == JStr(Complete) ==> VisitOutcome(data).succeeded
  {
    if !data.JNull? && SaveRow(data).Success? {
      SaveRowShape(data);
    }
    assert Complete != Incomplete;
  }

  /** The counters count answered requests, not complete data: an empty result is a success marked 否. */
  lemma EmptyResultIsIncompleteSuccess()
    ensures VisitOutcome(JObj(map["result" := JArr([])])) == Outcome(BlankRow(Width, Incomplete), true)
  {
    var data := JObj(map["result" := JArr([])]);
    assert Len(data.fields["result"]) == Success(0);
  }

  /** save_to_csv: build the record, then create the file with the header or append to it. */
  method SaveToCsv(store: Store, data: Json, filename: string) returns (raised: Option<PyError>)
    modifies store
    ensures raised.Some? <==> SaveRow(data).Failure?
    ensures raised.Some? ==> raised.value == SaveRow(data).error && store.files == old(store.files)
    ensures raised.None? ==> store.files == Written(old(store.files), Write(filename, Header, SaveRow(data).value))
  {
    var row := SaveRow(data);
    if row.Failure? {
      return Some(row.error);
    }
    store.Save(filename, Header, row.value);
    raised := None;
  }

  /**
   * The body of the inner loop for one fetched value: a None writes the
   * blank record; otherwise the value is saved, and if saving raises the
   * blank record is written instead. Exactly one record is written.
   */
  method Visit(store: Store, data: Json, csvFilename: string) returns (succeeded: bool)
    modifies store
    ensures succeeded == VisitOutcome(data).succeeded
    ensures store.files == Written(old(store.files), Write(csvFilename, Header, VisitOutcome(data).row))
  {
    if data.JNull? {
      var _ := SaveToCsv(store, JNull, csvFilename);
      succeeded := false;
    } else {
      var raised := SaveToCsv(store, data, csvFilename);
      if raised.None? {
        succeeded := true;
      } else {
        var _ := SaveToCsv(store, JNull, csvFilename);
        succeeded := false;
      }
    }
  }

  /**
   * The inner while loop for one code: visit each day from start to end,
   * writing one record and advancing one counter per day.
   */
  method SaveDays(store: Store, code: string, start: int, end: int, fetch: Fetcher,
                  ghost initial: Files, ghost before: seq<Pair>, successBefore: nat, failBefore: nat)
    returns (success: nat, fail: nat)
    modifies store
    requires store.files == ApplyWrites(initial, Writes(before, fetch, VisitOutcome, Suffix, Header))
    requires successBefore == Successes(before, fetch, VisitOutcome) && successBefore + failBefore == |before|
    ensures var done := before + DayPairs(code, start, end + 1);
      store.files == ApplyWrites(initial, Writes(done, fetch, VisitOutcome, Suffix, Header)) &&
      success == Successes(done, fetch, VisitOutcome) && success + fail == |done|
  {
    success, fail := successBefore, failBefore;
    var csvFilename := code + Suffix;
    var current := start;
    ghost var done := before;
    ghost var ws := Writes(before, fetch, VisitOutcome, Suffix, Header);
    while current <= end
      invariant start <= current && (current <= end + 1 || current == start)
      invariant done == before + DayPairs(code, start, current)
      invariant ws == Writes(done, fetch, VisitOutcome, Suffix, Header)
      invariant store.files == ApplyWrites(initial, ws)
      invariant success == Successes(done, fetch, VisitOutcome) && success + fail == |done|
      decreases end - current
    {
      var data := fetch(code, current);
      ghost var p := Pair(code, current);
      ghost var w := Write(csvFilename, Header, VisitOutcome(data).row);
      VisitStep(done, p, fetch, VisitOutcome, Suffix, Header);
      ApplyStep(initial, ws, w);
      NextDay(before, code, start, current);
      var succeeded := Visit(store, data, csvFilename);
      if succeeded {
        success := success + 1;
      } else {
        fail := fail + 1;
      }
      done := done + [p];
      ws := ws + [w];
      current := current + 1;
    }
    assert DayPairs(code, start, current) == DayPairs(code, start, end + 1);
  }

  /**
   * sh_fetch_and_save_data: for each code and each day from start to end,
   * fetch, save, and advance exactly one of the two counters.
   */
  method ShFetchAndSaveData(store: Store, codes: seq<string>, start: int, end: int, fetch: Fetcher)
    returns (success: nat, fail: nat)
    modifies store
    ensures store.files == ApplyWrites(old(store.files), Writes(Pairs(codes, start, end), fetch, VisitOutcome, Suffix, Header))
    ensures success == Successes(Pairs(codes, start, end), fetch, VisitOutcome)
    ensures success + fail == |codes| * DaysBetween(start, end)
  {
    success, fail := 0, 0;
    ghost var initial := store.files;
    for i := 0 to |codes|
      invariant store.files == ApplyWrites(initial, Writes(Pairs(codes[..i], start, end), fetch, VisitOutcome, Suffix, Header))
      invariant success == Successes(Pairs(codes[..i], start, end), fetch, VisitOutcome)
      invariant success + fail == |Pairs(codes[..i], start, end)|
    {
      PairsStep(codes, i, start, end);
      success, fail := SaveDays(store, codes[i], start, end, fetch, initial, Pairs(codes[..i], start, end), success, fail);
    }
    assert codes[..|codes|] == codes;
    PairsCount(codes, start, end);
  }
}
