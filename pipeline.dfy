/**
 * The whole run: aggregate the records, then score every wallet in the
 * dictionary's key order, giving one (wallet, score) row per wallet.
 */
module Pipeline {
  import opened Wrappers
  import opened Records
  import opened Aggregation
  import opened Scoring
  import opened Cadence

  /** One output row: the wallet id and its integer score. */
  type ScoreRow = (string, int)

  /** Position `k` of `order` holds the first key whose totals are outside the domain of log1p. */
  predicate FirstOutsideDomain(order: seq<string>, wallets: map<string, WalletFeatures>, k: nat)
    requires forall w :: w in order ==> w in wallets
  {
    && k < |order|
    && !InLogDomain(wallets[order[k]])
    && forall j :: 0 <= j < k ==> InLogDomain(wallets[order[j]])
  }

  /**
   * The scoring loop over the keys in `order`: a row per key, in that order,
   * holding the key's score. The first key whose totals are outside the
   * domain of log1p aborts the run.
   */
  function ScoreEach(order: seq<string>, wallets: map<string, WalletFeatures>, log1p: real -> real)
    : (r: Result<seq<ScoreRow>, RunError>)
    requires forall w :: w in order ==> w in wallets
    ensures r.Success? <==> forall w :: w in order ==> InLogDomain(wallets[w])
    ensures r.Failure? ==> exists k: nat :: FirstOutsideDomain(order, wallets, k) && r.error == LogDomain(order[k])
    ensures r.Success? ==>
      && |r.value| == |order|
      && forall i :: 0 <= i < |order| ==>
           && r.value[i].0 == order[i]
           && r.value[i].1 == WalletScore(wallets[order[i]], log1p)
           && 0 <= r.value[i].1 <= 1000
  {
    if order == [] then Success([])
    else
      var w := order[0];
      var f := wallets[w];
      if !InLogDomain(f) then
        assert FirstOutsideDomain(order, wallets, 0);
        Failure(LogDomain(w))
      else
        TailOfOrder(order, wallets);
        match ScoreEach(order[1..], wallets, log1p)
        case Failure(e) => Failure(e)
        case Success(rows) =>
          ConsRow(order, wallets, log1p, rows);
          Success([(w, WalletScore(f, log1p))] + rows)
  }

  /** Rows for the tail of the keys, with the first key's row put in front, are rows for all the keys. */
  lemma ConsRow(order: seq<string>, wallets: map<string, WalletFeatures>, log1p: real -> real, rows: seq<ScoreRow>)
    requires order != [] && forall w :: w in order ==> w in wallets
    requires InLogDomain(wallets[order[0]])
    requires |rows| == |order| - 1
    requires forall i :: 0 <= i < |rows| ==>
      rows[i].0 == order[1..][i] && InLogDomain(wallets[order[1..][i]]) && rows[i].1 == WalletScore(wallets[order[1..][i]], log1p)
    ensures
      var all := [(order[0], WalletScore(wallets[order[0]], log1p))] + rows;
      forall i :: 0 <= i < |order| ==>
        && all[i].0 == order[i]
        && all[i].1 == WalletScore(wallets[order[i]], log1p)
        && 0 <= all[i].1 <= 1000
  {
    var all := [(order[0], WalletScore(wallets[order[0]], log1p))] + rows;
    forall i | 1 <= i < |order|
      ensures all[i].0 == order[i] && all[i].1 == WalletScore(wallets[order[i]], log1p)
    {
      assert all[i] == rows[i - 1] && order[i] == order[1..][i - 1];
    }
  }

  /**
   * Dropping a first key that is inside the domain: the rest is inside the
   * domain exactly when all is, and a first failure of the rest at `k` is
   * a first failure of the whole at k + 1.
   */
  lemma TailOfOrder(order: seq<string>, wallets: map<string, WalletFeatures>)
    requires order != [] && forall w :: w in order ==> w in wallets
    requires InLogDomain(wallets[order[0]])
    ensures forall w :: w in order[1..] ==> w in wallets
    ensures (forall w :: w in order ==> InLogDomain(wallets[w]))
        <==> (forall w :: w in order[1..] ==> InLogDomain(wallets[w]))
    ensures forall k: nat :: FirstOutsideDomain(order[1..], wallets, k) ==>
      FirstOutsideDomain(order, wallets, k + 1) && order[1..][k] == order[k + 1]
  {
    assert forall v :: v in order ==> v == order[0] || v in order[1..];
    forall k: nat | FirstOutsideDomain(order[1..], wallets, k)
      ensures FirstOutsideDomain(order, wallets, k + 1)
    {
      forall j | 0 <= j < k + 1 ensures InLogDomain(wallets[order[j]]) {
        if j > 0 {
          assert order[j] == order[1..][j - 1];
        }
      }
    }
  }

  /**
   * The script end to end: an unconvertible amount or price anywhere in the
   * input, or a wallet total outside the domain of log1p, ends the run
   * without output; otherwise the rows are those ScoreEach gives for the
   * aggregated table.
   */
  method ScoreWallets(data: seq<Record>, log1p: real -> real) returns (r: Result<seq<ScoreRow>, RunError>)
    ensures r.Failure? && r.error.MalformedNumber? <==> !AllWellFormed(data)
    ensures AllWellFormed(data) ==>
      r == ScoreEach(Aggregated(data).order, Aggregated(data).wallets, log1p)
  {
    var table := AggregateWallets(data);
    if table.Failure? {
      return Failure(table.error);
    }
    AggregatedIndexed(data);
    r := ScoreEach(table.value.order, table.value.wallets, log1p);
  }

  /** The wallet column of the output. */
  function WalletColumn(rows: seq<ScoreRow>): seq<string> {
    seq(|rows|, i requires 0 <= i < |rows| => rows[i].0)
  }

  /**
   * A run that does not abort writes one row per wallet that some valid
   * record names, in order of first appearance, no wallet twice, each with
   * a score in [0, 1000].
   */
  lemma OneRowPerWallet(data: seq<Record>, log1p: real -> real)
    requires AllWellFormed(data)
    requires forall w :: w in Aggregated(data).wallets ==> InLogDomain(Aggregated(data).wallets[w])
    ensures
      var rows := ScoreEach(Aggregated(data).order, Aggregated(data).wallets, log1p);
      && rows.Success?
      && WalletColumn(rows.value) == FirstSeen(data)
      && (forall w :: w in WalletColumn(rows.value) <==> Named(data, w))
      && (forall i, j :: 0 <= i < j < |rows.value| ==> rows.value[i].0 != rows.value[j].0)
      && (forall i :: 0 <= i < |rows.value| ==> 0 <= rows.value[i].1 <= 1000)
  {
    var t := Aggregated(data);
    var rows := ScoreEach(t.order, t.wallets, log1p);
    assert WalletColumn(rows.value) == t.order;
    forall w ensures w in WalletColumn(rows.value) <==> Named(data, w) {
      FirstSeenMembers(data, w);
    }
    FirstSeenDistinct(data);
  }

  /**
   * With non-negative amounts and prices no total leaves the domain of
   * log1p, so a run over well-formed records always produces its rows,
   * and every repay ratio lies in [0, 1].
   */
  lemma NonNegativeInputsScoreEveryWallet(data: seq<Record>, log1p: real -> real)
    requires AllWellFormed(data) && NonNegativeAmounts(data)
    ensures ScoreEach(Aggregated(data).order, Aggregated(data).wallets, log1p).Success?
    ensures forall w :: w in Aggregated(data).wallets ==> 0.0 <= RepayRatio(Aggregated(data).wallets[w]) <= 1.0
  {
    var t := Aggregated(data);
    forall w | w in t.wallets
      ensures InLogDomain(t.wallets[w]) && 0.0 <= RepayRatio(t.wallets[w]) <= 1.0
    {
      TotalsNonNegative(data, w, Deposit);
      TotalsNonNegative(data, w, Repay);
    }
  }

  /** The worked example's input: deposit, borrow and repay of wallet "0xABC", a day apart, at price 1.0. */
  function ExampleData(t: int): seq<Record> {
    [ Record(Some("0xABC"), Some("deposit"), Some(t), Number(1000.0), Number(1.0)),
      Record(Some("0xABC"), Some("borrow"), Some(t + SecondsPerDay), Number(500.0), Number(1.0)),
      Record(Some("0xABC"), Some("repay"), Some(t + 2 * SecondsPerDay), Number(500.0), Number(1.0)) ]
  }

  /**
   * The worked example end to end: with log1p(1000) and log1p(500) known
   * to three decimals, the run writes the single row ("0xABC", 413).
   */
  lemma WorkedExampleRun(t: int, log1p: real -> real)
    requires 6.908 <= log1p(1000.0) <= 6.909
    requires 6.216 <= log1p(500.0) <= 6.217
    ensures AllWellFormed(ExampleData(t))
    ensures ScoreEach(Aggregated(ExampleData(t)).order, Aggregated(ExampleData(t)).wallets, log1p)
      == Success([("0xABC", 413)])
  {
    var w := "0xABC";
    ExampleTable(t);
    WorkedExample(t, log1p);
    var r := ScoreEach([w], map[w := ExampleFeatures(t)], log1p);
    assert r.Success?;
    assert r.value == [(w, 413)];
  }

  /** Aggregating the worked example gives one wallet with the example's features. */
  lemma ExampleTable(t: int)
    ensures AllWellFormed(ExampleData(t))
    ensures Aggregated(ExampleData(t)) == Table(map["0xABC" := ExampleFeatures(t)], ["0xABC"])
  {
    var data := ExampleData(t);
    var w := "0xABC";
    ExampleFirstSeen(t);
    ExampleFeaturesOf(t);
    SingleWallet(data, w);
  }

  /** The example names one wallet. */
  lemma ExampleFirstSeen(t: int)
    ensures FirstSeen(ExampleData(t)) == ["0xABC"]
  {
    var data := ExampleData(t);
    var d1, d2 := data[..1], data[..2];
    assert d1[..0] == [];
    assert FirstSeen(d1) == ["0xABC"];
    assert d2[..1] == d1;
    assert FirstSeen(d2) == ["0xABC"];
    assert data[..2] == d2;
  }

  /** The example wallet's features: one of each of the three actions, a day apart. */
  lemma ExampleFeaturesOf(t: int)
    ensures AllWellFormed(ExampleData(t))
    ensures FeaturesOf(ExampleData(t), "0xABC") == ExampleFeatures(t)
  {
    var data := ExampleData(t);
    var w := "0xABC";
    var r0, r1, r2 := data[0], data[1], data[2];
    assert data == [] + [r0] + [r1] + [r2];
    ClassifyNames(Deposit);
    ClassifyNames(Borrow);
    ClassifyNames(Repay);
    assert Classify(r0) == Some(Deposit) && Classify(r1) == Some(Borrow) && Classify(r2) == Some(Repay);
    FeaturesAppendOwn([], r0, w);
    FeaturesAppendOwn([r0], r1, w);
    FeaturesAppendOwn([r0] + [r1], r2, w);
    FeaturesAgree(FeaturesOf(data, w), ExampleFeatures(t));
  }
}
