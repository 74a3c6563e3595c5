/**
 * The per-wallet score: log-dampened deposit and repay volumes, a repay
 * ratio capped at 1, a liquidation penalty and a "bot" penalty for an
 * average gap of under a day between actions, combined with fixed weights,
 * scaled by 100, clamped to [0, 1000] and truncated to an integer.
 *
 * `log1p` (ln(1 + x)) is a parameter: the score is stated for whatever
 * function the runtime supplies, and the lemmas that need its values ask
 * for the laws in Log1pLaws.
 */
module Scoring {
  import opened Aggregation
  import opened Cadence

  /** The facts about ln(1 + x) the lemmas below rely on. */
  ghost predicate Log1pLaws(log1p: real -> real) {
    && log1p(0.0) == 0.0
    && forall x :: 0.0 <= x ==> 0.0 <= log1p(x)
  }

  /** ln(1 + x) is defined only for x > -1; outside that the run aborts. */
  predicate InLogDomain(f: WalletFeatures) {
    f.totalDepositUsd > -1.0 && f.totalRepayUsd > -1.0
  }

  /**
   * Share of the borrowed volume that was repaid, capped at 1; a wallet that
   * never borrowed counts as fully repaid.
   */
  function RepayRatio(f: WalletFeatures): (r: real)
    ensures r <= 1.0
    ensures r == 1.0 <==> f.totalBorrowUsd <= 0.0 || f.totalRepayUsd >= f.totalBorrowUsd
    ensures r < 1.0 ==> r * f.totalBorrowUsd == f.totalRepayUsd
    ensures f.totalRepayUsd >= 0.0 ==> r >= 0.0
  {
    if f.totalBorrowUsd > 0.0 then
      var ratio := f.totalRepayUsd / f.totalBorrowUsd;
      QuotientFacts(f.totalRepayUsd, f.totalBorrowUsd);
      if 1.0 < ratio then 1.0 else ratio
    else 1.0
  }

  /** A quotient by a positive divisor: it times the divisor is the dividend, and it reaches 1 exactly when the dividend reaches the divisor. */
  lemma QuotientFacts(x: real, c: real)
    requires c > 0.0
    ensures (x / c) * c == x
    ensures 1.0 <= x / c <==> c <= x
    ensures 0.0 <= x ==> 0.0 <= x / c
  {
    DivBelow(x, c);
  }

  /** A tenth per liquidation: never negative, and zero exactly when there was none. */
  function LiquidationPenalty(f: WalletFeatures): (p: real)
    ensures p >= 0.0
    ensures p == 0.0 <==> f.numLiquidations == 0
  {
    f.numLiquidations as real * 0.1
  }

  /** The weighted combination before scaling. */
  function RawScore(f: WalletFeatures, log1p: real -> real): real
    requires InLogDomain(f)
  {
    var depositScore := log1p(f.totalDepositUsd);
    var repayScore := log1p(f.totalRepayUsd);
    depositScore * 0.3
    + repayScore * 0.3
    + RepayRatio(f) * 0.2
    - LiquidationPenalty(f) * 0.1
    - BotPenalty(f.timestamps) * 0.1
  }

  /**
   * `int(max(0, min(1000, raw * 100)))`: the scaled raw score clamped to
   * [0, 1000], then its integer part.
   */
  function FinalScore(raw: real): (s: int)
    ensures 0 <= s <= 1000
    ensures raw * 100.0 <= 0.0 ==> s == 0
    ensures raw * 100.0 >= 1000.0 ==> s == 1000
    ensures 0.0 <= raw * 100.0 <= 1000.0 ==> s as real <= raw * 100.0 < s as real + 1.0
  {
    var scaled := raw * 100.0;
    var capped := if scaled < 1000.0 then scaled else 1000.0;
    var clamped := if capped > 0.0 then capped else 0.0;
    clamped.Floor
  }

  /** The score of one wallet: an integer in [0, 1000]. */
  function WalletScore(f: WalletFeatures, log1p: real -> real): (s: int)
    requires InLogDomain(f)
    ensures 0 <= s <= 1000
  {
    FinalScore(RawScore(f, log1p))
  }

  /** A higher raw score never gives a lower final score. */
  lemma FinalScoreMonotone(a: real, b: real)
    requires a <= b
    ensures FinalScore(a) <= FinalScore(b)
  {
  }

  /** One more liquidation never raises the score. */
  lemma LiquidationNeverRaises(f: WalletFeatures, log1p: real -> real)
    requires InLogDomain(f)
    ensures WalletScore(f.(numLiquidations := f.numLiquidations + 1), log1p) <= WalletScore(f, log1p)
  {
    var g := f.(numLiquidations := f.numLiquidations + 1);
    assert RawScore(g, log1p) == RawScore(f, log1p) - 0.01;
    FinalScoreMonotone(RawScore(g, log1p), RawScore(f, log1p));
  }

  /**
   * A wallet that never borrowed, was never liquidated and has non-negative
   * volumes scores at least 20 (the full repay-ratio term), less one point
   * when the bot penalty applies.
   */
  lemma NoBorrowFloor(f: WalletFeatures, log1p: real -> real)
    requires Log1pLaws(log1p)
    requires f.totalBorrowUsd <= 0.0 && f.numLiquidations == 0
    requires f.totalDepositUsd >= 0.0 && f.totalRepayUsd >= 0.0
    ensures WalletScore(f, log1p) >= (if BotPenalty(f.timestamps) == 0.1 then 19 else 20)
  {
    assert log1p(f.totalDepositUsd) >= 0.0 && log1p(f.totalRepayUsd) >= 0.0;
    var floor := if BotPenalty(f.timestamps) == 0.1 then 0.19 else 0.2;
    assert RawScore(f, log1p) >= floor;
    FinalScoreMonotone(floor, RawScore(f, log1p));
  }

  /**
   * A wallet with no volume and no liquidations (only unrecognised actions,
   * say) scores exactly 20, or 19 when it looks like a bot.
   */
  lemma IdleWalletScore(f: WalletFeatures, log1p: real -> real)
    requires Log1pLaws(log1p)
    requires f.totalDepositUsd == 0.0 && f.totalBorrowUsd == 0.0 && f.totalRepayUsd == 0.0
    requires f.numLiquidations == 0
    ensures WalletScore(f, log1p) == (if BotPenalty(f.timestamps) == 0.1 then 19 else 20)
  {
    assert log1p(f.totalDepositUsd) == 0.0 && log1p(f.totalRepayUsd) == 0.0;
  }

  /** The worked example's wallet: one deposit of 1000 USD, one borrow and one repay of 500 USD, a day apart. */
  function ExampleFeatures(t: int): WalletFeatures {
    WalletFeatures(1, 1000.0, 1, 500.0, 1, 500.0, 0, [t, t + SecondsPerDay, t + 2 * SecondsPerDay])
  }

  /**
   * The worked example at the level of one wallet: with log1p(1000) =
   * ln(1001) and log1p(500) = ln(501) known to three decimals, the raw
   * score is about 4.1377 and the score is 413.
   */
  lemma WorkedExample(t: int, log1p: real -> real)
    requires 6.908 <= log1p(1000.0) <= 6.909
    requires 6.216 <= log1p(500.0) <= 6.217
    ensures InLogDomain(ExampleFeatures(t)) && WalletScore(ExampleFeatures(t), log1p) == 413
  {
    var f := ExampleFeatures(t);
    BotPenaltyRule(f.timestamps, t, t + 2 * SecondsPerDay);
    assert BotPenalty(f.timestamps) == 0.0;
    assert RepayRatio(f) == 1.0;
    assert LiquidationPenalty(f) == 0.0;
    assert 4.1372 <= RawScore(f, log1p) <= 4.1378;
  }
}
