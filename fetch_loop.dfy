/**
 * What the two fetch-and-save loops share: the (code, day) pairs they visit,
 * codes outermost and days ascending from the start day to the end day, and
 * for each pair one record written and one counter advanced.
 *
 * Days are day numbers (datetime.date ordinals); adding the one-day delta
 * is adding 1.
 */
module FetchLoop {
  import opened PyJson
  import opened CsvStore

  /**
   * The fetch for one code and day. The fetch functions catch every
   * exception and return None instead, so JNull covers both a failed
   * request and a response that parses to null.
   */
  type Fetcher = (string, int) -> Json

  datatype Pair = Pair(code: string, day: int)

  /** What the loop body makes of one fetched value: the record written and whether it counts as a success. */
  datatype Outcome = Outcome(row: Row, succeeded: bool)

  /** The number of days from start to end, both included; none when start is after end. */
  function DaysBetween(start: int, end: int): nat
  {
    if start <= end then end - start + 1 else 0
  }

  /** The inner while loop's visits for one code: days start, start + 1, ..., stop - 1. */
  function DayPairs(code: string, start: int, stop: int): (ps: seq<Pair>)
    ensures |ps| == if start <= stop then stop - start else 0
    decreases stop - start
  {
    if stop <= start then [] else DayPairs(code, start, stop - 1) + [Pair(code, stop - 1)]
  }

  /** The j-th visit of the inner loop is day start + j. */
  lemma {:induction false} DayPairsAt(code: string, start: int, stop: int, j: nat)
    requires start + j < stop
    ensures DayPairs(code, start, stop)[j] == Pair(code, start + j)
    decreases stop - start
  {
    if start + j < stop - 1 {
      DayPairsAt(code, start, stop - 1, j);
    }
  }

  /** All visits, code by code. */
  function Pairs(codes: seq<string>, start: int, end: int): seq<Pair>
  {
    if codes == [] then []
    else Pairs(codes[..|codes| - 1], start, end) + DayPairs(codes[|codes| - 1], start, end + 1)
  }

  lemma DayPairsStep(code: string, start: int, stop: int)
    requires start <= stop
    ensures DayPairs(code, start, stop + 1) == DayPairs(code, start, stop) + [Pair(code, stop)]
  {
  }

  /** One more day for the current code extends the visits by that day. */
  lemma NextDay(before: seq<Pair>, code: string, start: int, current: int)
    requires start <= current
    ensures before + DayPairs(code, start, current) + [Pair(code, current)] == before + DayPairs(code, start, current + 1)
  {
    DayPairsStep(code, start, current);
  }

  lemma PairsStep(codes: seq<string>, i: nat, start: int, end: int)
    requires i < |codes|
    ensures Pairs(codes[..i + 1], start, end) == Pairs(codes[..i], start, end) + DayPairs(codes[i], start, end + 1)
  {
    assert codes[..i + 1][..i] == codes[..i];
  }

  /** There are |codes| * days visits; none when the start day is after the end day. */
  lemma {:induction false} PairsCount(codes: seq<string>, start: int, end: int)
    ensures |Pairs(codes, start, end)| == |codes| * DaysBetween(start, end)
  {
    if codes != [] {
      var init := codes[..|codes| - 1];
      PairsCount(init, start, end);
      assert |Pairs(codes, start, end)| == |init| * DaysBetween(start, end) + DaysBetween(start, end);
    }
  }

  /**
   * The visiting order: code number c on the j-th day is visit number
   * c * days + j.
   */
  lemma {:induction false} PairsAt(codes: seq<string>, start: int, end: int, c: nat, j: nat)
    requires c < |codes| && j < DaysBetween(start, end)
    ensures c * DaysBetween(start, end) + j < |Pairs(codes, start, end)|
    ensures Pairs(codes, start, end)[c * DaysBetween(start, end) + j] == Pair(codes[c], start + j)
  {
    var d := DaysBetween(start, end);
    var n := |codes| - 1;
    var init := codes[..n];
    var last := DayPairs(codes[n], start, end + 1);
    var before := Pairs(init, start, end);
    PairsCount(init, start, end);
    MulSucc(n, d);
    assert Pairs(codes, start, end) == before + last;
    assert |before| == n * d && |last| == d;
    if c < n {
      PairsAt(init, start, end, c, j);
      assert codes[c] == init[c];
    } else {
      assert c * d + j == |before| + j;
      DayPairsAt(codes[n], start, end + 1, j);
    }
  }

  lemma MulSucc(a: nat, d: nat)
    ensures a * d + d == (a + 1) * d
  {
  }

  /** The records written for a run of visits, in order. */
  function Writes(ps: seq<Pair>, fetch: Fetcher, outcome: Json -> Outcome, suffix: string, header: Row): (ws: seq<Write>)
    ensures |ws| == |ps|
  {
    if ps == [] then []
    else
      var p := ps[|ps| - 1];
      Writes(ps[..|ps| - 1], fetch, outcome, suffix, header) +
        [Write(p.code + suffix, header, outcome(fetch(p.code, p.day)).row)]
  }

  /** Visit number i writes the outcome of fetching its code and day to that code's file. */
  lemma {:induction false} WritesAt(ps: seq<Pair>, fetch: Fetcher, outcome: Json -> Outcome, suffix: string, header: Row, i: nat)
    requires i < |ps|
    ensures Writes(ps, fetch, outcome, suffix, header)[i] ==
      Write(ps[i].code + suffix, header, outcome(fetch(ps[i].code, ps[i].day)).row)
  {
    if i < |ps| - 1 {
      WritesAt(ps[..|ps| - 1], fetch, outcome, suffix, header, i);
    }
  }

  /** The number of visits counted as successes. */
  function Successes(ps: seq<Pair>, fetch: Fetcher, outcome: Json -> Outcome): (n: nat)
    ensures n <= |ps|
  {
    if ps == [] then 0
    else
      var p := ps[|ps| - 1];
      Successes(ps[..|ps| - 1], fetch, outcome) + (if outcome(fetch(p.code, p.day)).succeeded then 1 else 0)
  }

  /** One more visit: one more write, and the success count grows by at most one. */
  lemma VisitStep(ps: seq<Pair>, p: Pair, fetch: Fetcher, outcome: Json -> Outcome, suffix: string, header: Row)
    ensures Writes(ps + [p], fetch, outcome, suffix, header) ==
      Writes(ps, fetch, outcome, suffix, header) + [Write(p.code + suffix, header, outcome(fetch(p.code, p.day)).row)]
    ensures Successes(ps + [p], fetch, outcome) ==
      Successes(ps, fetch, outcome) + (if outcome(fetch(p.code, p.day)).succeeded then 1 else 0)
  {
    assert (ps + [p])[..|ps|] == ps;
  }

  lemma ApplyStep(files: Files, ws: seq<Write>, w: Write)
    ensures ApplyWrites(files, ws + [w]) == Written(ApplyWrites(files, ws), w)
  {
    assert (ws + [w])[..|ws|] == ws;
  }
}
