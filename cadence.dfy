/**
 * The "bot" rule: a wallet whose timestamps, once sorted, lie less than a
 * day apart on average is penalised. The rule is computed as the script
 * does, with an average of consecutive gaps in days, and proved equal to
 * an integer comparison of the timestamps' spread.
 */
module Cadence {
  import opened Sorting

  const SecondsPerDay: int := 60 * 60 * 24

  /** Average gap reported when there are fewer than two timestamps. */
  const NoGapSentinel: real := 999.0

  /** Differences between consecutive elements. */
  function Gaps(s: seq<int>): (g: seq<int>)
    requires |s| >= 1
    ensures |g| == |s| - 1
  {
    seq(|s| - 1, i requires 0 <= i < |s| - 1 => s[i + 1] - s[i])
  }

  function SumInts(s: seq<int>): int {
    if s == [] then 0 else s[0] + SumInts(s[1..])
  }

  /** The consecutive gaps of a sequence add up to its last minus its first element. */
  lemma {:induction false} GapsTelescope(s: seq<int>)
    requires |s| >= 1
    ensures SumInts(Gaps(s)) == s[|s| - 1] - s[0]
  {
    if |s| > 1 {
      GapsTelescope(s[1..]);
      assert Gaps(s) == [s[1] - s[0]] + Gaps(s[1..]);
    }
  }

  /** `sum(gaps) / len(gaps) / (60*60*24)`. */
  function MeanGapDays(total: int, count: int): real
    requires count > 0
  {
    (total as real) / (count as real) / (SecondsPerDay as real)
  }

  /** Average gap, in days, between the wallet's sorted timestamps. */
  function AvgGapDays(timestamps: seq<int>): real {
    var ts := SortAscending(timestamps);
    if |ts| > 1 then
      var gaps := Gaps(ts);
      MeanGapDays(SumInts(gaps), |gaps|)
    else NoGapSentinel
  }

  /** 0.1 when actions come less than a day apart on average, else 0. */
  function BotPenalty(timestamps: seq<int>): (p: real)
    ensures p == 0.0 || p == 0.1
  {
    if AvgGapDays(timestamps) < 1.0 then 0.1 else 0.0
  }

  /**
   * The bot rule in integers: with `lo` and `hi` the earliest and the
   * latest timestamp, the penalty applies exactly when there are at least
   * two timestamps and hi - lo is under one day per gap.
   */
  lemma BotPenaltyRule(timestamps: seq<int>, lo: int, hi: int)
    requires IsLeast(lo, timestamps) && IsGreatest(hi, timestamps)
    ensures BotPenalty(timestamps) == 0.1
      <==> |timestamps| >= 2 && hi - lo < SecondsPerDay * (|timestamps| - 1)
  {
    if |timestamps| >= 2 {
      AvgGapIsSpreadMean(timestamps, lo, hi);
      BelowOneDay(hi - lo, |timestamps| - 1);
    } else {
      assert |SortAscending(timestamps)| <= 1;
    }
  }

  /** With fewer than two timestamps the average gap is the 999-day sentinel, and there is no penalty. */
  lemma FewTimestampsSentinel(timestamps: seq<int>)
    requires |timestamps| <= 1
    ensures AvgGapDays(timestamps) == NoGapSentinel
    ensures BotPenalty(timestamps) == 0.0
  {
    assert |SortAscending(timestamps)| <= 1;
  }

  /** The average gap is the spread of the timestamps over the number of gaps, in days. */
  lemma AvgGapIsSpreadMean(timestamps: seq<int>, lo: int, hi: int)
    requires |timestamps| >= 2 && IsLeast(lo, timestamps) && IsGreatest(hi, timestamps)
    ensures AvgGapDays(timestamps) == MeanGapDays(hi - lo, |timestamps| - 1)
  {
    AvgGapIsMean(timestamps);
    SpreadIsGapSum(timestamps, lo, hi);
  }

  /** With two or more timestamps the script averages the sorted gaps. */
  lemma AvgGapIsMean(timestamps: seq<int>)
    requires |timestamps| >= 2
    ensures AvgGapDays(timestamps) == MeanGapDays(SumInts(Gaps(SortAscending(timestamps))), |timestamps| - 1)
  {
    var ts := SortAscending(timestamps);
    assert |Gaps(ts)| == |timestamps| - 1;
  }

  /** The sorted gaps add up to the spread of the timestamps. */
  lemma SpreadIsGapSum(timestamps: seq<int>, lo: int, hi: int)
    requires IsLeast(lo, timestamps) && IsGreatest(hi, timestamps)
    ensures SumInts(Gaps(SortAscending(timestamps))) == hi - lo
  {
    SortedEnds(timestamps, lo, hi);
    GapSumOfEnds(SortAscending(timestamps), lo, hi);
  }

  /** The gaps of a sequence from `lo` to `hi` add up to hi - lo. */
  lemma GapSumOfEnds(t: seq<int>, lo: int, hi: int)
    requires |t| >= 1 && t[0] == lo && t[|t| - 1] == hi
    ensures SumInts(Gaps(t)) == hi - lo
  {
    GapsTelescope(t);
  }

  /**
   * The boundary of the rule: two actions exactly a day apart are not
   * penalised, two actions half a day apart are, and a lone action never is.
   */
  lemma BotPenaltyBoundary(t: int)
    ensures BotPenalty([t, t + SecondsPerDay]) == 0.0
    ensures BotPenalty([t, t + SecondsPerDay / 2]) == 0.1
    ensures BotPenalty([t]) == 0.0
  {
    BotPenaltyRule([t, t + SecondsPerDay], t, t + SecondsPerDay);
    BotPenaltyRule([t, t + SecondsPerDay / 2], t, t + SecondsPerDay / 2);
    BotPenaltyRule([t], t, t);
  }

  /** spread / n / 86400 < 1 exactly when spread < 86400 * n. */
  lemma BelowOneDay(spread: int, n: int)
    requires n > 0
    ensures MeanGapDays(spread, n) < 1.0 <==> spread < SecondsPerDay * n
  {
    var x, k, d := spread as real, n as real, SecondsPerDay as real;
    var y := x / k;
    var q := y / d;
    assert q * d == y;
    assert y * k == x;
    DivBelow(y, d);
    DivBelow(x, k * d);
    assert x / (k * d) == q;
    assert (SecondsPerDay * n) as real == k * d;
  }

  /** For a positive divisor, a quotient is below 1 exactly when the dividend is below the divisor. */
  lemma DivBelow(x: real, c: real)
    requires c > 0.0
    ensures x / c < 1.0 <==> x < c
  {
    var q := x / c;
    assert x == q * c;
    if q < 1.0 {
      assert q * c < 1.0 * c;
    } else {
      assert q * c >= 1.0 * c;
    }
  }

}
