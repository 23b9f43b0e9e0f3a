/**
 * The lagged rolling MAD outlier detector and the script logic around it:
 * history and new data are concatenated, a merged series of 20 rows or fewer
 * is refused, and the outliers of the new segment are counted.
 */
module LaggedMad {
  import opened Stats
  import opened Wrappers

  /** Scale factor that makes the MAD comparable to a standard deviation. */
  const Scale: real := 0.6745
  /** Window size and threshold the script passes to the detector. */
  const ScriptWindow: nat := 20
  const ScriptThreshold: real := 2.0

  /** Robust z-score of x against the window w of preceding values. */
  function RobustZ(w: seq<real>, x: real): real
    requires |w| > 0
  {
    Scale * (x - Median(w)) / FlooredMad(w)
  }

  /** The z-score the detector leaves at index t: zero while fewer than k values precede t. */
  function ZScoreAt(data: seq<real>, k: nat, t: nat): real
    requires k >= 1 && t < |data|
  {
    if t < k then 0.0 else RobustZ(data[t - k..t], data[t])
  }

  /** The flag the detector leaves at index t. */
  predicate OutlierAt(data: seq<real>, k: nat, threshold: real, t: nat)
    requires k >= 1 && t < |data|
  {
    k <= t && Abs(ZScoreAt(data, k, t)) > threshold
  }

  /** One step of the detector: median, MAD, the zero-MAD floor and the scaled deviation. */
  method WindowScore(window: seq<real>, x: real) returns (zScore: real)
    requires |window| > 0
    ensures zScore == RobustZ(window, x)
  {
    var medianVal := Median(window);
    var madVal := Median(Deviations(window, medianVal));
    if madVal == 0.0 {
      madVal := MadFloor;
    }
    zScore := Scale * (x - medianVal) / madVal;
  }

  /** The z-scores of indices 0 .. j-1, in order. */
  ghost function Scores(data: seq<real>, k: nat, j: nat): (r: seq<real>)
    requires k >= 1 && j <= |data|
    ensures |r| == j
  {
    seq(j, i requires 0 <= i < j => ZScoreAt(data, k, i))
  }

  /** The outlier flags of indices 0 .. j-1, in order. */
  ghost function Flags(data: seq<real>, k: nat, threshold: real, j: nat): (r: seq<bool>)
    requires k >= 1 && j <= |data|
    ensures |r| == j
  {
    seq(j, i requires 0 <= i < j => OutlierAt(data, k, threshold, i))
  }

  /** n copies of v: what np.zeros and np.zeros(dtype=bool) start from. */
  function Filled<T>(n: nat, v: T): (r: seq<T>)
    ensures |r| == n && forall i :: 0 <= i < n ==> r[i] == v
  {
    if n == 0 then [] else Filled(n - 1, v) + [v]
  }

  /** Scoring index t extends the expected prefixes by its score and its flag. */
  lemma NextScore(data: seq<real>, k: nat, threshold: real, t: nat, next: nat)
    requires 1 <= k && t < |data| && next == t + 1
    ensures Scores(data, k, next) == Scores(data, k, t) + [ZScoreAt(data, k, t)]
    ensures Flags(data, k, threshold, next) == Flags(data, k, threshold, t) + [OutlierAt(data, k, threshold, t)]
  {
  }

  /** Writing v at the first unfilled index i of a partly filled array extends its prefix to longer. */
  lemma SetNext<T>(prefix: seq<T>, longer: seq<T>, v: T, i: nat, count: nat, rest: nat, fill: T)
    requires longer == prefix + [v] && |prefix| == i && count == rest + 1
    ensures (prefix + Filled(count, fill))[i := v] == longer + Filled(rest, fill)
  {
  }

  /** The first k indices, which have fewer than k values before them, keep zero and false. */
  lemma LeadingScores(data: seq<real>, k: nat, threshold: real, j: nat)
    requires 1 <= k && j <= k && j <= |data|
    ensures Scores(data, k, j) == Filled(j, 0.0)
    ensures Flags(data, k, threshold, j) == Filled(j, false)
  {
  }

  /** At an index with k values before it, the flag is the score's magnitude against the threshold. */
  lemma OutlierOfScore(data: seq<real>, k: nat, threshold: real, t: nat)
    requires 1 <= k <= t < |data|
    ensures OutlierAt(data, k, threshold, t) == (Abs(ZScoreAt(data, k, t)) > threshold)
  {
  }

  /** Writing index t's score and flag into the arrays extends the computed prefixes by one. */
  lemma ScoreStep(data: seq<real>, k: nat, threshold: real, t: nat, next: nat, zScore: real, flagged: bool)
    requires 1 <= k <= t < |data| && next == t + 1
    requires zScore == RobustZ(data[t - k..t], data[t]) && flagged == (Abs(zScore) > threshold)
    ensures (Scores(data, k, t) + Filled(|data| - t, 0.0))[t := zScore] == Scores(data, k, next) + Filled(|data| - next, 0.0)
    ensures (Flags(data, k, threshold, t) + Filled(|data| - t, false))[t := flagged] ==
      Flags(data, k, threshold, next) + Filled(|data| - next, false)
  {
    ZScoreOfWindow(data, k, t);
    OutlierOfScore(data, k, threshold, t);
    NextScore(data, k, threshold, t, next);
    SetNext(Scores(data, k, t), Scores(data, k, next), zScore, t, |data| - t, |data| - next, 0.0);
    SetNext(Flags(data, k, threshold, t), Flags(data, k, threshold, next), flagged, t, |data| - t, |data| - next, false);
  }

  /** One pass of the loop body: scores index t against its window and records the score and the flag. */
  method ScoreIndex(data: seq<real>, k: nat, threshold: real, t: nat, next: nat, z: array<real>, flags: array<bool>)
    requires 1 <= k <= t < |data| && next == t + 1
    requires z.Length == |data| && flags.Length == |data|
    requires z[..] == Scores(data, k, t) + Filled(|data| - t, 0.0)
    requires flags[..] == Flags(data, k, threshold, t) + Filled(|data| - t, false)
    modifies z, flags
    ensures z[..] == Scores(data, k, next) + Filled(|data| - next, 0.0)
    ensures flags[..] == Flags(data, k, threshold, next) + Filled(|data| - next, false)
  {
    var zScore := WindowScore(data[t - k..t], data[t]);
    var flagged := Abs(zScore) > threshold;
    ScoreStep(data, k, threshold, t, next, zScore, flagged);
    ghost var scores, marks := z[..], flags[..];
    z[t] := zScore;
    assert z[..] == scores[t := zScore];
    if flagged {
      flags[t] := true;
    } else {
      assert marks[t] == false;
    }
    assert flags[..] == marks[t := flagged];
  }

  /**
   * Fills preallocated zero/false arrays index by index for t = k .. n-1,
   * using only the k values strictly before t as the window.
   */
  method LaggedRollingMad(data: seq<real>, k: nat, threshold: real)
    returns (isOutlier: seq<bool>, zScores: seq<real>)
    requires k >= 1
    ensures |isOutlier| == |data| && |zScores| == |data|
    ensures forall t :: 0 <= t < |data| ==> zScores[t] == ZScoreAt(data, k, t)
    ensures forall t :: 0 <= t < |data| ==> isOutlier[t] == OutlierAt(data, k, threshold, t)
  {
    var n := |data|;
    var z := new real[n](_ => 0.0);
    var flags := new bool[n](_ => false);
    var t := if k <= n then k else n;
    LeadingScores(data, k, threshold, t);
    while t < n
      invariant t <= n && (t < n ==> k <= t)
      invariant z[..] == Scores(data, k, t) + Filled(n - t, 0.0)
      invariant flags[..] == Flags(data, k, threshold, t) + Filled(n - t, false)
    {
      var next := t + 1;
      ScoreIndex(data, k, threshold, t, next, z, flags);
      t := next;
    }
    assert t == n;
    assert Filled(n - t, 0.0) == [] && Filled(n - t, false) == [];
    isOutlier, zScores := flags[..], z[..];
    assert zScores == Scores(data, k, n);
    assert isOutlier == Flags(data, k, threshold, n);
  }

  /** np.sum over a boolean array: the number of true entries. */
  function CountTrue(s: seq<bool>): (c: nat)
    ensures c <= |s|
    ensures c == 0 <==> forall i :: 0 <= i < |s| ==> !s[i]
    ensures c == |s| <==> forall i :: 0 <= i < |s| ==> s[i]
  {
    if s == [] then 0
    else (if s[0] then 1 else 0) + CountTrue(s[1..])
  }

  datatype ScriptError = MissingHistory | MissingNewData | InsufficientData(total: nat)

  /** What the script reports: the detector's output over the merged series and the new-segment tally. */
  datatype Report = Report(
    zScores: seq<real>,
    isOutlier: seq<bool>,
    newStart: nat,
    outlierCount: nat,
    newCount: nat)

  /**
   * Reads the history and new segments (None when the file is missing),
   * concatenates them history first, refuses a merged length of 20 or less,
   * runs the detector with k = 20 and threshold 2.0 and counts the outliers
   * from the first new row on.
   */
  method DetectNewSegment(hist: Option<seq<real>>, newData: Option<seq<real>>)
    returns (r: Result<Report, ScriptError>)
    ensures hist.None? ==> r == Failure(MissingHistory)
    ensures hist.Some? && newData.None? ==> r == Failure(MissingNewData)
    ensures hist.Some? && newData.Some? ==>
      var total := |hist.value| + |newData.value|;
      (r.Failure? <==> total <= ScriptWindow) &&
      (r.Failure? ==> r.error == InsufficientData(total))
    ensures r.Success? ==>
      hist.Some? && newData.Some? &&
      var data := hist.value + newData.value;
      var rep := r.value;
      |rep.zScores| == |data| && |rep.isOutlier| == |data| &&
      (forall t :: 0 <= t < |data| ==> rep.zScores[t] == ZScoreAt(data, ScriptWindow, t)) &&
      (forall t :: 0 <= t < |data| ==> rep.isOutlier[t] == OutlierAt(data, ScriptWindow, ScriptThreshold, t)) &&
      rep.newStart == |hist.value| && rep.newCount == |newData.value| &&
      rep.outlierCount == CountTrue(rep.isOutlier[|hist.value|..]) &&
      rep.outlierCount <= rep.newCount
  {
    if hist.None? {
      return Failure(MissingHistory);
    }
    if newData.None? {
      return Failure(MissingNewData);
    }
    var data := hist.value + newData.value;
    if |data| <= ScriptWindow {
      return Failure(InsufficientData(|data|));
    }
    var isOutlier, zScores := LaggedRollingMad(data, ScriptWindow, ScriptThreshold);
    var start := |hist.value|;
    var count := CountTrue(isOutlier[start..]);
    r := Success(Report(zScores, isOutlier, start, count, |newData.value|));
  }

  // ---------------------------------------------------------------------
  // Properties of the per-index formula

  /** The result at t depends on data[t-k..t] and data[t] only: the current point is not in its window. */
  lemma ZScoreIsLocal(d1: seq<real>, d2: seq<real>, k: nat, t: nat)
    requires k >= 1 && t < |d1| && t < |d2|
    requires k <= t ==> d1[t - k..t + 1] == d2[t - k..t + 1]
    ensures ZScoreAt(d1, k, t) == ZScoreAt(d2, k, t)
  {
    if k <= t {
      assert d1[t - k..t] == d1[t - k..t + 1][..k] == d2[t - k..t + 1][..k] == d2[t - k..t];
      assert d1[t] == d1[t - k..t + 1][k] == d2[t - k..t + 1][k] == d2[t];
    }
  }

  /** A later value never changes an earlier result: no look-ahead. */
  lemma NoLookAhead(data: seq<real>, extra: seq<real>, k: nat, t: nat)
    requires k >= 1 && t < |data|
    ensures ZScoreAt(data + extra, k, t) == ZScoreAt(data, k, t)
  {
    if k <= t {
      assert (data + extra)[t - k..t + 1] == data[t - k..t + 1];
    }
    ZScoreIsLocal(data + extra, data, k, t);
  }

  lemma Quotient(a: real, d: real, threshold: real)
    requires d > 0.0
    ensures a / d == 0.0 <==> a == 0.0
    ensures a / d > 0.0 <==> a > 0.0
    ensures a / d < 0.0 <==> a < 0.0
    ensures Abs(a / d) > threshold <==> Abs(a) > threshold * d
  {
    var q := a / d;
    assert q * d == a;
    assert Abs(q) * d == Abs(a);
    if Abs(q) > threshold {
      assert Abs(q) * d > threshold * d;
    } else {
      assert Abs(q) * d <= threshold * d;
    }
  }

  /** The z-score is zero exactly when the value equals the window median. */
  lemma ZeroExactlyAtMedian(w: seq<real>, x: real)
    requires |w| > 0
    ensures RobustZ(w, x) == 0.0 <==> x == Median(w)
  {
    Quotient(Scale * (x - Median(w)), FlooredMad(w), 0.0);
  }

  /** The sign of the z-score is the side of the median the value lies on. */
  lemma SignFollowsMedian(w: seq<real>, x: real)
    requires |w| > 0
    ensures RobustZ(w, x) > 0.0 <==> x > Median(w)
    ensures RobustZ(w, x) < 0.0 <==> x < Median(w)
  {
    Quotient(Scale * (x - Median(w)), FlooredMad(w), 0.0);
  }

  /** A value equal to the median is never flagged, for any non-negative threshold. */
  lemma MedianValueNotFlagged(data: seq<real>, k: nat, threshold: real, t: nat)
    requires k >= 1 && k <= t < |data|
    requires threshold >= 0.0
    requires data[t] == Median(data[t - k..t])
    ensures ZScoreAt(data, k, t) == 0.0 && !OutlierAt(data, k, threshold, t)
  {
    ZeroExactlyAtMedian(data[t - k..t], data[t]);
  }

  /** Flagging compares the scaled distance from the median with threshold times the floored MAD. */
  lemma FlaggedIffFarFromMedian(w: seq<real>, x: real, threshold: real)
    requires |w| > 0
    ensures Abs(RobustZ(w, x)) > threshold <==> Scale * Abs(x - Median(w)) > threshold * FlooredMad(w)
  {
    ScaledQuotient(x - Median(w), FlooredMad(w), threshold);
  }

  lemma ScaledQuotient(deviation: real, d: real, threshold: real)
    requires d > 0.0
    ensures Abs(Scale * deviation / d) > threshold <==> Scale * Abs(deviation) > threshold * d
  {
    Quotient(Scale * deviation, d, threshold);
    assert Abs(Scale * deviation) == Scale * Abs(deviation);
  }

  /** On a constant window the MAD is floored and the z-score is the deviation times 0.6745e8. */
  lemma ConstantWindow(w: seq<real>, c: real, x: real)
    requires |w| > 0
    requires forall i :: 0 <= i < |w| ==> w[i] == c
    ensures Median(w) == c && Mad(w) == 0.0 && FlooredMad(w) == MadFloor
    ensures RobustZ(w, x) == 67450000.0 * (x - c)
  {
    MedianOfConstant(w, c);
    var dev := Deviations(w, c);
    MedianOfConstant(dev, 0.0);
  }

  /**
   * On a constant window, at the script's threshold 2.0, a value is flagged
   * exactly when it differs from the constant by more than 2 / 0.6745e8.
   */
  lemma ConstantWindowFlag(w: seq<real>, c: real, x: real)
    requires |w| > 0
    requires forall i :: 0 <= i < |w| ==> w[i] == c
    ensures Abs(RobustZ(w, x)) > ScriptThreshold <==> 67450000.0 * Abs(x - c) > 2.0
  {
    ConstantWindow(w, c, x);
  }

  /** So a differing value is not always flagged: a deviation of 1e-8 scores 0.6745. */
  lemma ConstantWindowTinyDeviation(w: seq<real>, c: real)
    requires |w| > 0
    requires forall i :: 0 <= i < |w| ==> w[i] == c
    ensures c + MadFloor != c
    ensures RobustZ(w, c + MadFloor) == Scale
    ensures !(Abs(RobustZ(w, c + MadFloor)) > ScriptThreshold)
  {
    ConstantWindow(w, c, c + MadFloor);
  }

  /** The window's order does not matter: only the bag of preceding values does. */
  lemma WindowOrderIrrelevant(w1: seq<real>, w2: seq<real>, x: real)
    requires |w1| > 0
    requires multiset(w1) == multiset(w2)
    ensures |w2| > 0 && RobustZ(w1, x) == RobustZ(w2, x)
  {
    MedianPermutationInvariant(w1, w2);
    MadPermutationInvariant(w1, w2);
  }

  /** Two windows score two values alike when the values sit alike from the medians and the spreads agree. */
  lemma ScoreFromStats(u: seq<real>, y: real, w: seq<real>, x: real)
    requires |u| > 0 && |w| > 0
    requires y - Median(u) == x - Median(w) && FlooredMad(u) == FlooredMad(w)
    ensures RobustZ(u, y) == RobustZ(w, x)
  {
  }

  /** Shifting a window and the value scored against it by the same amount leaves the score unchanged. */
  lemma RobustZShift(w: seq<real>, x: real, c: real)
    requires |w| > 0
    ensures RobustZ(Shift(w, c), x + c) == RobustZ(w, x)
  {
    var u := Shift(w, c);
    MedianShift(w, c);
    MadShift(w, c);
    assert FlooredMad(u) == FlooredMad(w);
    ScoreFromStats(u, x + c, w, x);
  }

  /** Past the first k indices, the z-score is the robust score of the value against the k values before it. */
  lemma ZScoreOfWindow(data: seq<real>, k: nat, t: nat)
    requires 1 <= k <= t < |data|
    ensures ZScoreAt(data, k, t) == RobustZ(data[t - k..t], data[t])
  {
  }

  /** The window before t of shifted data is the shifted window, and the value at t is shifted too. */
  lemma ShiftedWindow(data: seq<real>, c: real, k: nat, t: nat)
    requires 1 <= k <= t < |data|
    ensures Shift(data, c)[t - k..t] == Shift(data[t - k..t], c)
    ensures Shift(data, c)[t] == data[t] + c
  {
    var sd, w := Shift(data, c), data[t - k..t];
    assert forall i :: 0 <= i < k ==> sd[t - k..t][i] == Shift(w, c)[i];
  }

  /** Past the first k indices, the z-score of shifted data is the score of the shifted window and value. */
  lemma ShiftedScore(data: seq<real>, c: real, k: nat, t: nat)
    requires 1 <= k <= t < |data|
    ensures ZScoreAt(Shift(data, c), k, t) == RobustZ(Shift(data[t - k..t], c), data[t] + c)
  {
    ShiftedWindow(data, c, k, t);
    ZScoreOfWindow(Shift(data, c), k, t);
  }

  /** Past the first k indices, the z-score of shifted data is the z-score of the data. */
  lemma ShiftedWindowScore(data: seq<real>, c: real, k: nat, t: nat)
    requires 1 <= k <= t < |data|
    ensures ZScoreAt(Shift(data, c), k, t) == ZScoreAt(data, k, t)
  {
    ShiftedScore(data, c, k, t);
    ZScoreOfWindow(data, k, t);
    RobustZShift(data[t - k..t], data[t], c);
  }

  /** Adding the same constant to every value leaves every z-score unchanged. */
  lemma TranslationInvariant(data: seq<real>, c: real, k: nat, t: nat)
    requires k >= 1 && t < |data|
    ensures ZScoreAt(Shift(data, c), k, t) == ZScoreAt(data, k, t)
  {
    if k <= t {
      ShiftedWindowScore(data, c, k, t);
    }
  }
}
